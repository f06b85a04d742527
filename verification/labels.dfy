/**
 The part of a data frame the oversampler looks at: each row's index label and
 its values in the target (label) columns. Explanatory columns are opaque to
 the search and are not carried. The per-label positive-count vector is what
 `df[target_list].sum()` computes.
 */
module Labels {

  /** A label value: 0 (negative) or 1 (positive). */
  type Bit = x: int | 0 <= x <= 1

  /** One row of the frame: its index label and its target values, in target-list order. */
  datatype Row = Row(id: int, labels: seq<Bit>)

  type Table = seq<Row>

  /** Every row carries exactly one value per target label. */
  predicate WellFormed(t: Table, k: nat) {
    forall i :: 0 <= i < |t| ==> |t[i].labels| == k
  }

  /** The index labels occurring in a table. */
  function Ids(t: Table): set<int> {
    set r | r in t :: r.id
  }

  function Zeros(k: nat): (z: seq<int>)
    ensures |z| == k
    ensures forall j :: 0 <= j < k ==> z[j] == 0
  {
    seq(k, _ => 0)
  }

  /** Element-wise sum of two count vectors of the same length. */
  function Plus(a: seq<int>, b: seq<int>): (s: seq<int>)
    requires |a| == |b|
    ensures |s| == |a|
    ensures forall j :: 0 <= j < |a| ==> s[j] == a[j] + b[j]
  {
    seq(|a|, j requires 0 <= j < |a| => a[j] + b[j])
  }

  /**
   Per-label positive counts of a table, accumulated row by row in table
   order, so that appending a row adds exactly that row's label vector.
   */
  function Counts(t: Table, k: nat): (c: seq<int>)
    requires WellFormed(t, k)
    ensures |c| == k
    decreases |t|
  {
    if |t| == 0 then Zeros(k)
    else Plus(Counts(t[..|t| - 1], k), t[|t| - 1].labels)
  }

  /** Independent reading of a count: the number of rows whose label `j` is 1. */
  function Positives(t: Table, j: nat): nat
    requires forall i :: 0 <= i < |t| ==> j < |t[i].labels|
  {
    if |t| == 0 then 0
    else (if t[0].labels[j] == 1 then 1 else 0) + Positives(t[1..], j)
  }

  lemma WellFormedAppend(a: Table, b: Table, k: nat)
    requires WellFormed(a, k) && WellFormed(b, k)
    ensures WellFormed(a + b, k)
  {
    forall i | 0 <= i < |a + b|
      ensures |(a + b)[i].labels| == k
    {
      if i < |a| { assert (a + b)[i] == a[i]; } else { assert (a + b)[i] == b[i - |a|]; }
    }
  }

  lemma WellFormedPrefix(t: Table, n: nat, k: nat)
    requires WellFormed(t, k) && n <= |t|
    ensures WellFormed(t[..n], k)
  {
  }

  /** Appending one row adds exactly its label vector to the counts. */
  lemma CountsSnoc(t: Table, r: Row, k: nat)
    requires WellFormed(t, k) && |r.labels| == k
    ensures WellFormed(t + [r], k)
    ensures Counts(t + [r], k) == Plus(Counts(t, k), r.labels)
  {
    WellFormedAppend(t, [r], k);
    assert (t + [r])[..|t|] == t;
  }

  lemma PositivesSnoc(t: Table, r: Row, j: nat)
    requires forall i :: 0 <= i < |t| ==> j < |t[i].labels|
    requires j < |r.labels|
    ensures Positives(t + [r], j) == Positives(t, j) + (if r.labels[j] == 1 then 1 else 0)
    decreases |t|
  {
    if |t| == 0 {
      assert t + [r] == [r];
      assert ([r])[1..] == [];
    } else {
      assert (t + [r])[1..] == t[1..] + [r];
      PositivesSnoc(t[1..], r, j);
    }
  }

  /** Each entry of the count vector is the number of rows positive for that label. */
  lemma {:induction false} CountsArePositives(t: Table, k: nat, j: nat)
    requires WellFormed(t, k) && j < k
    ensures Counts(t, k)[j] == Positives(t, j)
    ensures 0 <= Counts(t, k)[j] <= |t|
    decreases |t|
  {
    if |t| > 0 {
      var front := t[..|t| - 1];
      WellFormedPrefix(t, |t| - 1, k);
      CountsArePositives(front, k, j);
      assert front + [t[|t| - 1]] == t;
      PositivesSnoc(front, t[|t| - 1], j);
    }
  }

  /**
   The counts of two tables laid end to end are the sums of their counts: the
   counts of an extended frame are the original counts plus the label vectors
   of the rows added.
   */
  lemma {:induction false} CountsAppend(a: Table, b: Table, k: nat)
    requires WellFormed(a, k) && WellFormed(b, k)
    ensures WellFormed(a + b, k)
    ensures Counts(a + b, k) == Plus(Counts(a, k), Counts(b, k))
    decreases |b|
  {
    WellFormedAppend(a, b, k);
    if |b| == 0 {
      assert a + b == a;
    } else {
      var front := b[..|b| - 1];
      var last := b[|b| - 1];
      WellFormedPrefix(b, |b| - 1, k);
      CountsAppend(a, front, k);
      assert (a + b)[..|a + b| - 1] == a + front;
      assert (a + b)[|a + b| - 1] == last;
    }
  }
}
