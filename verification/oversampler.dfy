/**
 The greedy accept/reject search of `MultilabelOversampler.fit`, as a
 reference definition. Each iteration scores the working frame, then draws
 rows of the ORIGINAL frame one at a time and appends the first whose
 addition strictly lowers the score, recording every rejected draw. The run
 stops when the iteration budget is used up, or as soon as an iteration's
 try counter ends on its last value: that happens when every try was
 rejected, and equally when the last try was the one accepted.

 The random source is a sequence of positions into the original frame,
 consumed one per draw.
 */
module Oversampler {
  import opened Labels
  import opened Spread

  /** The ways a run fails instead of returning a frame. */
  datatype FitError =
    | EmptyFrame         // drawing from an empty frame raises
    | TryCounterUnbound  // no try ran, so the try counter is read before it is bound
    | DrawsExhausted     // the supplied random source ran out

  datatype Result<T> = Ok(value: T) | Err(error: FitError)

  /** A rejected draw: the drawn row's index label and the score the frame would have had. */
  datatype Rejection = Rejection(id: int, score: Score)

  /** How a successful run ended: all iterations done, or stopped on a last try. */
  datatype Status = Completed | TriesExhausted

  /**
   What a run leaves behind: the working frame (`df_new`), the accepted
   scores (`res_std`), the per-iteration rejected draws (`res_bad`), how it
   ended, and how many draws it consumed.
   */
  datatype Run = Run(
    table: Table,
    scores: seq<nat>,
    rejections: seq<seq<Rejection>>,
    status: Status,
    drawn: nat)

  /** The end of one iteration's try loop. `row` and `score` belong to its last draw. */
  datatype Trial = Trial(
    accepted: bool,
    row: Row,
    score: Score,
    lastTry: nat,
    rejected: seq<Rejection>,
    drawn: nat)

  /** Every draw names a row of the original frame. */
  predicate ValidDraws(draws: seq<nat>, df: Table) {
    forall p :: 0 <= p < |draws| ==> draws[p] < |df|
  }

  /** The score the working frame would have with `row` appended. */
  function ScoreWith(work: Table, row: Row, k: nat): (s: Score)
    requires WellFormed(work, k) && |row.labels| == k
    ensures s == ScoreOf(Plus(Counts(work, k), row.labels))
  {
    CountsSnoc(work, row, k);
    ScoreOf(Counts(work + [row], k))
  }

  /**
   `rs` are draws `from`, `from + 1`, ... in draw order, each recorded with the
   score its row would have given, and none of them lowers `current`.
   */
  predicate RejectedDraws(df: Table, k: nat, work: Table, current: Score,
                          draws: seq<nat>, from: nat, rs: seq<Rejection>)
    requires WellFormed(df, k) && WellFormed(work, k) && ValidDraws(draws, df)
  {
    from + |rs| <= |draws| &&
    forall j :: 0 <= j < |rs| ==>
      var row := df[draws[from + j]];
      rs[j] == Rejection(row.id, ScoreWith(work, row, k)) && !Lower(rs[j].score, current)
  }

  /**
   The try loop of one iteration, from try `t` on, with `rejected` the draws
   this iteration has already turned down.
   */
  predicate Tried(df: Table, k: nat, work: Table, current: Score, draws: seq<nat>,
                  drawn: nat, t: nat, tries: nat, rejected: seq<Rejection>, o: Trial)
    requires WellFormed(df, k) && WellFormed(work, k) && ValidDraws(draws, df)
  {
    t <= o.lastTry < tries
    && o.drawn == drawn + (o.lastTry - t) + 1 && o.drawn <= |draws|
    && o.row == df[draws[o.drawn - 1]]
    && o.score == ScoreWith(work, o.row, k)
    && (o.accepted <==> Lower(o.score, current))
    && (!o.accepted ==> o.lastTry == tries - 1)
    && |o.rejected| == |rejected| + (o.lastTry - t) + (if o.accepted then 0 else 1)
    && o.rejected[..|rejected|] == rejected
    && RejectedDraws(df, k, work, current, draws, drawn, o.rejected[|rejected|..])
  }

  /** The try loop: draw, accept the first row that lowers `current`, else record and draw again. */
  function Search(df: Table, k: nat, work: Table, current: Score, draws: seq<nat>,
                  drawn: nat, t: nat, tries: nat, rejected: seq<Rejection>): (r: Result<Trial>)
    requires WellFormed(df, k) && WellFormed(work, k) && ValidDraws(draws, df)
    requires t < tries
    ensures |df| == 0 ==> r == Err(EmptyFrame)
    ensures r.Err? ==>
      (r.error == EmptyFrame && |df| == 0) || (r.error == DrawsExhausted && drawn + (tries - t) > |draws|)
    ensures r.Ok? ==> Tried(df, k, work, current, draws, drawn, t, tries, rejected, r.value)
    decreases tries - t
  {
    if |df| == 0 then Err(EmptyFrame)
    else if drawn >= |draws| then Err(DrawsExhausted)
    else
      var row := df[draws[drawn]];
      var score := ScoreWith(work, row, k);
      if Lower(score, current) then
        Ok(Trial(true, row, score, t, rejected, drawn + 1))
      else
        var rejected' := rejected + [Rejection(row.id, score)];
        if t + 1 == tries then Ok(Trial(false, row, score, t, rejected', drawn + 1))
        else
          var r := Search(df, k, work, current, draws, drawn + 1, t + 1, tries, rejected');
          if r.Ok? then TriedBack(df, k, work, current, draws, drawn, t, tries, rejected, r.value); r
          else r
  }

  /** A try loop that rejected its first draw and went on is a try loop from one draw earlier. */
  lemma TriedBack(df: Table, k: nat, work: Table, current: Score, draws: seq<nat>,
                  drawn: nat, t: nat, tries: nat, rejected: seq<Rejection>, o: Trial)
    requires WellFormed(df, k) && WellFormed(work, k) && ValidDraws(draws, df)
    requires |df| > 0 && drawn < |draws| && t + 1 < tries
    requires !Lower(ScoreWith(work, df[draws[drawn]], k), current)
    requires Tried(df, k, work, current, draws, drawn + 1, t + 1, tries,
                   rejected + [Rejection(df[draws[drawn]].id, ScoreWith(work, df[draws[drawn]], k))], o)
    ensures Tried(df, k, work, current, draws, drawn, t, tries, rejected, o)
  {
    var row := df[draws[drawn]];
    var rej := Rejection(row.id, ScoreWith(work, row, k));
    var rejected' := rejected + [rej];
    var tail, tail' := o.rejected[|rejected|..], o.rejected[|rejected'|..];
    assert o.rejected[..|rejected|] == o.rejected[..|rejected'|][..|rejected|];
    assert tail == [rej] + tail';
    forall j | 0 <= j < |tail|
      ensures tail[j] == Rejection(df[draws[drawn + j]].id, ScoreWith(work, df[draws[drawn + j]], k))
      ensures !Lower(tail[j].score, current)
    {
      if j > 0 {
        assert tail[j] == tail'[j - 1];
      }
    }
  }

  /** The run after its try loop ended in `o`: an accepted row and its score are appended. */
  function Grow(run: Run, o: Trial): (g: Run)
    requires o.accepted ==> o.score.Defined?
    ensures g.rejections == run.rejections && g.status == run.status && g.drawn == run.drawn
  {
    if o.accepted then run.(table := run.table + [o.row], scores := run.scores + [o.score.v])
    else run
  }

  /**
   One iteration, the transition of the run's state machine: score the
   working frame, run the try loop, append an accepted row, then either stop
   (the try counter ended on its last value) or record this iteration's
   rejected draws and go on.
   */
  function Step(df: Table, k: nat, tries: int, draws: seq<nat>, run: Run): (r: Result<Run>)
    requires WellFormed(df, k) && WellFormed(run.table, k) && ValidDraws(draws, df)
    requires tries > 0
    ensures r.Err? ==>
      (r.error == EmptyFrame && |df| == 0) || (r.error == DrawsExhausted && run.drawn + tries > |draws|)
    ensures |df| > 0 && run.drawn + tries <= |draws| ==> r.Ok?
    ensures r.Ok? ==> run.drawn < r.value.drawn <= run.drawn + tries && WellFormed(r.value.table, k)
  {
    var current := ScoreOf(Counts(run.table, k));
    var trial := Search(df, k, run.table, current, draws, run.drawn, 0, tries, []);
    if trial.Err? then Err(trial.error)
    else
      var o := trial.value;
      assert o.row in df;
      WellFormedAppend(run.table, [o.row], k);
      var grown := Grow(run, o);
      if o.lastTry + 1 == tries then
        Ok(grown.(status := TriesExhausted, drawn := o.drawn))
      else
        Ok(grown.(rejections := run.rejections + [o.rejected], status := Completed, drawn := o.drawn))
  }

  /** The iteration loop from iteration `i` on, in state `run`. */
  function Iterate(df: Table, k: nat, adds: int, tries: int, draws: seq<nat>,
                   i: nat, run: Run): Result<Run>
    requires WellFormed(df, k) && WellFormed(run.table, k) && ValidDraws(draws, df)
    decreases adds - i
  {
    if i >= adds then Ok(run)
    else if tries <= 0 then Err(TryCounterUnbound)
    else
      match Step(df, k, tries, draws, run)
      case Err(e) => Err(e)
      case Ok(next) =>
        if next.status == TriesExhausted then Ok(next)
        else Iterate(df, k, adds, tries, draws, i + 1, next)
  }

  /** A whole run over `df` with `k` labels, the two stored budgets and the random source. */
  function Fit(df: Table, k: nat, adds: int, tries: int, draws: seq<nat>): Result<Run>
    requires WellFormed(df, k) && ValidDraws(draws, df)
  {
    Iterate(df, k, adds, tries, draws, 0, Run(df, [], [], Completed, 0))
  }

  // ---------------------------------------------------------------------
  // Run invariants
  // ---------------------------------------------------------------------

  /**
   `table` is `df` followed by one copy of a row of `df` per accepted score;
   `scores[j]` is the score after the j-th addition and is strictly below the
   score just before it.
   */
  predicate Grown(df: Table, k: nat, table: Table, scores: seq<nat>) {
    WellFormed(table, k)
    && |table| == |df| + |scores|
    && table[..|df|] == df
    && (forall j :: |df| <= j < |table| ==> table[j] in df)
    && (forall j :: 0 <= j < |scores| ==> ScoreOf(Counts(table[..|df| + j + 1], k)) == Defined(scores[j]))
    && (forall j :: 0 <= j < |scores| ==> Lower(Defined(scores[j]), ScoreOf(Counts(table[..|df| + j], k))))
  }

  /** Every entry names a row of `df` and does not lower `current`. */
  predicate Rejects(df: Table, rs: seq<Rejection>, current: Score) {
    forall e :: e in rs ==> e.id in Ids(df) && !Lower(e.score, current)
  }

  /**
   The j-th list of rejected draws belongs to iteration j, which started from
   the frame `table[..|df| + j]`, and is shorter than the last try index.
   */
  predicate Recorded(df: Table, k: nat, tries: int, table: Table, rejections: seq<seq<Rejection>>) {
    WellFormed(table, k)
    && |df| + |rejections| <= |table|
    && forall j :: 0 <= j < |rejections| ==>
         |rejections[j]| < tries - 1 && Rejects(df, rejections[j], ScoreOf(Counts(table[..|df| + j], k)))
  }

  /** What a successful run guarantees. */
  predicate Finished(df: Table, k: nat, adds: int, tries: int, run: Run) {
    var budget := if adds > 0 then adds else 0;
    Grown(df, k, run.table, run.scores)
    && Recorded(df, k, tries, run.table, run.rejections)
    && |run.rejections| <= |run.scores| <= |run.rejections| + 1
    && |run.scores| <= budget
    && (run.status == Completed <==> |run.rejections| == budget)
    && (run.status == Completed ==> |run.scores| == budget)
  }

  lemma GrownAppend(df: Table, k: nat, table: Table, scores: seq<nat>, row: Row, score: nat)
    requires Grown(df, k, table, scores) && row in df && |row.labels| == k
    requires ScoreWith(table, row, k) == Defined(score)
    requires Lower(Defined(score), ScoreOf(Counts(table, k)))
    ensures Grown(df, k, table + [row], scores + [score])
  {
    var table', scores' := table + [row], scores + [score];
    WellFormedAppend(table, [row], k);
    assert table'[..|df|] == df;
    forall j | 0 <= j < |scores'|
      ensures ScoreOf(Counts(table'[..|df| + j + 1], k)) == Defined(scores'[j])
      ensures Lower(Defined(scores'[j]), ScoreOf(Counts(table'[..|df| + j], k)))
    {
      assert table'[..|df| + j] == table[..|df| + j];
      if j < |scores| {
        assert table'[..|df| + j + 1] == table[..|df| + j + 1];
      } else {
        assert table'[..|df| + j + 1] == table + [row];
        assert table[..|df| + j] == table;
      }
    }
  }

  lemma RecordedAppend(df: Table, k: nat, tries: int, table: Table,
                       rejections: seq<seq<Rejection>>, row: Row)
    requires Recorded(df, k, tries, table, rejections) && |row.labels| == k
    ensures Recorded(df, k, tries, table + [row], rejections)
  {
    WellFormedAppend(table, [row], k);
    forall j | 0 <= j < |rejections|
      ensures Rejects(df, rejections[j], ScoreOf(Counts((table + [row])[..|df| + j], k)))
    {
      assert (table + [row])[..|df| + j] == table[..|df| + j];
    }
  }

  /** A try loop's new rejections, read as a record of the iteration that started from `work`. */
  lemma TriedRejects(df: Table, k: nat, work: Table, current: Score, draws: seq<nat>,
                     drawn: nat, tries: nat, o: Trial)
    requires WellFormed(df, k) && WellFormed(work, k) && ValidDraws(draws, df)
    requires Tried(df, k, work, current, draws, drawn, 0, tries, [], o)
    ensures Rejects(df, o.rejected, current)
  {
    assert o.rejected[0..] == o.rejected;
    forall e | e in o.rejected
      ensures e.id in Ids(df) && !Lower(e.score, current)
    {
      var j :| 0 <= j < |o.rejected| && o.rejected[j] == e;
      var row := df[draws[drawn + j]];
      assert row in df;
    }
  }

  /** The invariants of the run entering iteration `i`. */
  predicate Invariant(df: Table, k: nat, tries: int, i: nat, run: Run) {
    Grown(df, k, run.table, run.scores)
    && Recorded(df, k, tries, run.table, run.rejections)
    && |run.scores| == i && |run.rejections| == i && run.status == Completed
  }

  /** One iteration keeps the run invariants. */
  lemma StepSound(df: Table, k: nat, tries: int, draws: seq<nat>, i: nat, run: Run)
    requires WellFormed(df, k) && WellFormed(run.table, k) && ValidDraws(draws, df) && tries > 0
    requires Invariant(df, k, tries, i, run) && Step(df, k, tries, draws, run).Ok?
    ensures var next := Step(df, k, tries, draws, run).value;
      (next.status == TriesExhausted ==>
         Grown(df, k, next.table, next.scores) && Recorded(df, k, tries, next.table, next.rejections)
         && |next.rejections| == i && i <= |next.scores| <= i + 1)
      && (next.status == Completed ==> Invariant(df, k, tries, i + 1, next))
  {
    var current := ScoreOf(Counts(run.table, k));
    var o := Search(df, k, run.table, current, draws, run.drawn, 0, tries, []).value;
    assert o.row in df;
    if o.accepted {
      GrownAppend(df, k, run.table, run.scores, o.row, o.score.v);
      RecordedAppend(df, k, tries, run.table, run.rejections, o.row);
      var table := run.table + [o.row];
      if o.lastTry + 1 != tries {
        var rejections := run.rejections + [o.rejected];
        TriedRejects(df, k, run.table, current, draws, run.drawn, tries, o);
        assert table[..|df| + i] == run.table;
        forall j | 0 <= j < |rejections|
          ensures |rejections[j]| < tries - 1
          ensures Rejects(df, rejections[j], ScoreOf(Counts(table[..|df| + j], k)))
        {
          if j < i {
            assert rejections[j] == run.rejections[j];
          }
        }
        assert Recorded(df, k, tries, table, rejections);
      }
    }
  }

  /** A run stopped on the last try of iteration `i`, before the budget ran out, is finished. */
  lemma StopFinished(df: Table, k: nat, adds: int, tries: int, i: nat, run: Run)
    requires Grown(df, k, run.table, run.scores) && Recorded(df, k, tries, run.table, run.rejections)
    requires |run.rejections| == i && i <= |run.scores| <= i + 1 && i < adds
    requires run.status == TriesExhausted
    ensures Finished(df, k, adds, tries, run)
  {
  }

  /** An iteration that ends on its last try, within the budget, finishes the run. */
  lemma StepStops(df: Table, k: nat, adds: int, tries: int, draws: seq<nat>, i: nat, run: Run)
    requires WellFormed(df, k) && WellFormed(run.table, k) && ValidDraws(draws, df) && tries > 0
    requires Invariant(df, k, tries, i, run) && i < adds
    requires Step(df, k, tries, draws, run).Ok? && Step(df, k, tries, draws, run).value.status == TriesExhausted
    ensures Finished(df, k, adds, tries, Step(df, k, tries, draws, run).value)
  {
    var next := Step(df, k, tries, draws, run).value;
    StepSound(df, k, tries, draws, i, run);
    StopFinished(df, k, adds, tries, i, next);
  }

  /** A run that has used up its iteration budget with the invariants intact is finished. */
  lemma BudgetFinished(df: Table, k: nat, adds: int, tries: int, i: nat, run: Run)
    requires Invariant(df, k, tries, i, run) && (i == 0 || i <= adds) && i >= adds
    ensures Finished(df, k, adds, tries, run)
  {
  }

  /** A run that enters iteration `i` with the invariants intact finishes with `Finished`. */
  predicate SoundFrom(df: Table, k: nat, adds: int, tries: int, draws: seq<nat>, i: nat, run: Run)
    requires WellFormed(df, k) && WellFormed(run.table, k) && ValidDraws(draws, df)
  {
    Invariant(df, k, tries, i, run) && (i == 0 || i <= adds)
    && Iterate(df, k, adds, tries, draws, i, run).Ok? ==>
      Finished(df, k, adds, tries, Iterate(df, k, adds, tries, draws, i, run).value)
  }

  /** The run is finished when the budget is used up. */
  lemma BudgetSound(df: Table, k: nat, adds: int, tries: int, draws: seq<nat>, i: nat, run: Run)
    requires WellFormed(df, k) && WellFormed(run.table, k) && ValidDraws(draws, df)
    requires i >= adds
    ensures SoundFrom(df, k, adds, tries, draws, i, run)
  {
    if Invariant(df, k, tries, i, run) && (i == 0 || i <= adds) {
      BudgetFinished(df, k, adds, tries, i, run);
    }
  }

  /** The run is finished when iteration `i` stops it. */
  lemma StopSound(df: Table, k: nat, adds: int, tries: int, draws: seq<nat>, i: nat, run: Run)
    requires WellFormed(df, k) && WellFormed(run.table, k) && ValidDraws(draws, df)
    requires i < adds && tries > 0
    requires Step(df, k, tries, draws, run).Ok? && Step(df, k, tries, draws, run).value.status == TriesExhausted
    ensures SoundFrom(df, k, adds, tries, draws, i, run)
  {
    if Invariant(df, k, tries, i, run) {
      StepStops(df, k, adds, tries, draws, i, run);
      assert Iterate(df, k, adds, tries, draws, i, run) == Step(df, k, tries, draws, run);
    }
  }

  /** The run is finished from iteration `i` on when it is from the next iteration on. */
  lemma GoOnSound(df: Table, k: nat, adds: int, tries: int, draws: seq<nat>, i: nat, run: Run)
    requires WellFormed(df, k) && WellFormed(run.table, k) && ValidDraws(draws, df)
    requires i < adds && tries > 0
    requires Step(df, k, tries, draws, run).Ok? && Step(df, k, tries, draws, run).value.status == Completed
    requires SoundFrom(df, k, adds, tries, draws, i + 1, Step(df, k, tries, draws, run).value)
    ensures SoundFrom(df, k, adds, tries, draws, i, run)
  {
    var next := Step(df, k, tries, draws, run).value;
    assert Iterate(df, k, adds, tries, draws, i, run) == Iterate(df, k, adds, tries, draws, i + 1, next);
    if Invariant(df, k, tries, i, run) {
      StepSound(df, k, tries, draws, i, run);
    }
  }

  /** Iteration `i` keeps the run sound, given that the rest of the loop is. */
  lemma IterationSound(df: Table, k: nat, adds: int, tries: int, draws: seq<nat>, i: nat, run: Run)
    requires WellFormed(df, k) && WellFormed(run.table, k) && ValidDraws(draws, df)
    requires i < adds && tries > 0 && Step(df, k, tries, draws, run).Ok?
             && Step(df, k, tries, draws, run).value.status == Completed
             ==> SoundFrom(df, k, adds, tries, draws, i + 1, Step(df, k, tries, draws, run).value)
    ensures SoundFrom(df, k, adds, tries, draws, i, run)
  {
    if i >= adds {
      BudgetSound(df, k, adds, tries, draws, i, run);
    } else if tries > 0 && Step(df, k, tries, draws, run).Ok? {
      if Step(df, k, tries, draws, run).value.status == TriesExhausted {
        StopSound(df, k, adds, tries, draws, i, run);
      } else {
        GoOnSound(df, k, adds, tries, draws, i, run);
      }
    }
  }

  /** The iteration loop keeps the run invariants, and they give `Finished` at the end. */
  lemma {:induction false} IterateSound(df: Table, k: nat, adds: int, tries: int, draws: seq<nat>,
                                        i: nat, run: Run)
    requires WellFormed(df, k) && WellFormed(run.table, k) && ValidDraws(draws, df)
    ensures SoundFrom(df, k, adds, tries, draws, i, run)
    decreases adds - i
  {
    if i < adds && tries > 0 && Step(df, k, tries, draws, run).Ok?
       && Step(df, k, tries, draws, run).value.status == Completed {
      IterateSound(df, k, adds, tries, draws, i + 1, Step(df, k, tries, draws, run).value);
    }
    IterationSound(df, k, adds, tries, draws, i, run);
  }

  // ---------------------------------------------------------------------
  // Properties of a run
  // ---------------------------------------------------------------------

  lemma FitSound(df: Table, k: nat, adds: int, tries: int, draws: seq<nat>)
    requires WellFormed(df, k) && ValidDraws(draws, df)
    requires Fit(df, k, adds, tries, draws).Ok?
    ensures Finished(df, k, adds, tries, Fit(df, k, adds, tries, draws).value)
  {
    assert df[..|df|] == df;
    assert Invariant(df, k, tries, 0, Run(df, [], [], Completed, 0));
    IterateSound(df, k, adds, tries, draws, 0, Run(df, [], [], Completed, 0));
  }

  /**
   The returned frame is the original followed by one row per accepted
   score, each a copy of a row of the original; nothing else is appended.
   */
  lemma FitGrowsFromOriginal(df: Table, k: nat, adds: int, tries: int, draws: seq<nat>)
    requires WellFormed(df, k) && ValidDraws(draws, df)
    requires Fit(df, k, adds, tries, draws).Ok?
    ensures var run := Fit(df, k, adds, tries, draws).value;
      WellFormed(run.table, k)
      && |run.table| == |df| + |run.scores|
      && run.table[..|df|] == df
      && (forall j :: |df| <= j < |run.table| ==> run.table[j] in df)
  {
    FitSound(df, k, adds, tries, draws);
  }

  /**
   The label counts of the returned frame are those of the original plus the
   counts of the rows appended.
   */
  lemma FitCounts(df: Table, k: nat, adds: int, tries: int, draws: seq<nat>)
    requires WellFormed(df, k) && ValidDraws(draws, df)
    requires Fit(df, k, adds, tries, draws).Ok?
    ensures var run := Fit(df, k, adds, tries, draws).value;
      |df| <= |run.table|
      && WellFormed(run.table, k)
      && WellFormed(run.table[|df|..], k)
      && Counts(run.table, k) == Plus(Counts(df, k), Counts(run.table[|df|..], k))
  {
    FitGrowsFromOriginal(df, k, adds, tries, draws);
    var run := Fit(df, k, adds, tries, draws).value;
    var added := run.table[|df|..];
    assert df + added == run.table;
    CountsAppend(df, added, k);
  }

  /** The sequence is strictly decreasing. */
  predicate StrictlyDecreasing(s: seq<nat>) {
    forall i, j :: 0 <= i < j < |s| ==> s[j] < s[i]
  }

  lemma {:induction false} AdjacentDecreasing(s: seq<nat>)
    requires forall j :: 0 <= j < |s| - 1 ==> s[j + 1] < s[j]
    ensures StrictlyDecreasing(s)
    decreases |s|
  {
    if |s| > 1 {
      var front := s[..|s| - 1];
      AdjacentDecreasing(front);
      forall i | 0 <= i < |s| - 1
        ensures s[|s| - 1] < s[i]
      {
        if i < |s| - 2 {
          assert front[i] == s[i] && front[|s| - 2] == s[|s| - 2];
        }
      }
    }
  }

  /** The recorded scores of a grown frame strictly decrease, starting below the original's. */
  lemma GrownDecreasing(df: Table, k: nat, table: Table, scores: seq<nat>)
    requires WellFormed(df, k)
    requires Grown(df, k, table, scores)
    ensures |scores| > 0 ==> Lower(Defined(scores[0]), ScoreOf(Counts(df, k)))
    ensures |scores| > 0 ==> ScoreOf(Counts(table, k)) == Defined(scores[|scores| - 1])
    ensures StrictlyDecreasing(scores)
  {
    var n := |df|;
    forall j | 0 <= j < |scores| - 1
      ensures scores[j + 1] < scores[j]
    {
      assert ScoreOf(Counts(table[..n + j + 1], k)) == Defined(scores[j]);
      assert Lower(Defined(scores[j + 1]), ScoreOf(Counts(table[..n + (j + 1)], k)));
    }
    AdjacentDecreasing(scores);
    if |scores| > 0 {
      assert table[..n + 0] == df;
      assert table[..n + (|scores| - 1) + 1] == table;
    }
  }

  /**
   Every accepted row strictly lowers the score of the frame it was added
   to: the first accepted score is below the original frame's, the accepted
   scores strictly decrease, and the last one is the returned frame's score.
   */
  lemma FitScoresDecrease(df: Table, k: nat, adds: int, tries: int, draws: seq<nat>)
    requires WellFormed(df, k) && ValidDraws(draws, df)
    requires Fit(df, k, adds, tries, draws).Ok?
    ensures var run := Fit(df, k, adds, tries, draws).value;
      WellFormed(run.table, k)
      && (|run.scores| > 0 ==> Lower(Defined(run.scores[0]), ScoreOf(Counts(df, k))))
      && StrictlyDecreasing(run.scores)
      && (|run.scores| > 0 ==> ScoreOf(Counts(run.table, k)) == Defined(run.scores[|run.scores| - 1]))
  {
    FitSound(df, k, adds, tries, draws);
    var run := Fit(df, k, adds, tries, draws).value;
    GrownDecreasing(df, k, run.table, run.scores);
  }

  /**
   Bookkeeping: at most one row per iteration and never more than the
   iteration budget; one rejection list per iteration that went on to the
   next, each shorter than the last try index (so there are none unless two
   tries are allowed) and made of draws of the original frame that did not
   lower that iteration's starting score.
   */
  lemma FitBookkeeping(df: Table, k: nat, adds: int, tries: int, draws: seq<nat>)
    requires WellFormed(df, k) && ValidDraws(draws, df)
    requires Fit(df, k, adds, tries, draws).Ok?
    ensures var run := Fit(df, k, adds, tries, draws).value;
      |run.scores| <= (if adds > 0 then adds else 0)
      && |run.rejections| <= |run.scores| <= |run.rejections| + 1
      && (|run.rejections| > 0 ==> tries >= 2)
      && Recorded(df, k, tries, run.table, run.rejections)
  {
    FitSound(df, k, adds, tries, draws);
    var run := Fit(df, k, adds, tries, draws).value;
    assert |run.rejections| > 0 ==> |run.rejections[0]| < tries - 1;
  }

  /**
   A run completes exactly when every budgeted iteration recorded its
   rejections; otherwise it stopped at iteration `|rejections|`, before the
   budget ran out, and that iteration used all `tries` draws: it accepted on
   its last try or not at all. Every iteration before it went on after
   `|rejections[j]| + 1` draws, fewer than `tries`.
   */
  lemma FitStops(df: Table, k: nat, adds: int, tries: int, draws: seq<nat>)
    requires WellFormed(df, k) && ValidDraws(draws, df)
    requires Fit(df, k, adds, tries, draws).Ok?
    ensures var run := Fit(df, k, adds, tries, draws).value;
      (run.status == Completed <==> |run.rejections| == (if adds > 0 then adds else 0))
      && (run.status == Completed ==> |run.scores| == |run.rejections| && run.drawn == Consumed(run.rejections))
      && (run.status == TriesExhausted ==>
            |run.rejections| < adds && run.drawn == Consumed(run.rejections) + tries)
      && (forall j :: 0 <= j < |run.rejections| ==> |run.rejections[j]| + 1 < tries)
  {
    FitSound(df, k, adds, tries, draws);
    FitDraws(df, k, adds, tries, draws);
  }

  /** With a single try per iteration, the first iteration always ends the run. */
  lemma SingleTryStopsAfterFirstIteration(df: Table, k: nat, adds: int, draws: seq<nat>)
    requires WellFormed(df, k) && ValidDraws(draws, df)
    requires adds > 0
    requires Fit(df, k, adds, 1, draws).Ok?
    ensures var run := Fit(df, k, adds, 1, draws).value;
      run.rejections == [] && |run.scores| <= 1 && |run.table| <= |df| + 1
      && run.status == TriesExhausted
  {
    FitBookkeeping(df, k, adds, 1, draws);
    FitStops(df, k, adds, 1, draws);
  }

  /** With fewer than two labels the score is not-a-number and no row is ever added. */
  lemma FewLabelsAddNothing(df: Table, k: nat, adds: int, tries: int, draws: seq<nat>)
    requires WellFormed(df, k) && ValidDraws(draws, df)
    requires k < 2
    requires Fit(df, k, adds, tries, draws).Ok?
    ensures Fit(df, k, adds, tries, draws).value.table == df
    ensures Fit(df, k, adds, tries, draws).value.scores == []
  {
    FitSound(df, k, adds, tries, draws);
    var run := Fit(df, k, adds, tries, draws).value;
    assert |run.scores| > 0 ==> Lower(Defined(run.scores[0]), ScoreOf(Counts(run.table[..|df|], k)));
    assert run.table == run.table[..|df|];
  }

  // ---------------------------------------------------------------------
  // Draw accounting
  // ---------------------------------------------------------------------

  /**
   One iteration's transition, read off its try loop `o`: the accepted row,
   if any, and its score are appended; the run stops exactly when the try
   counter reached its last value; an iteration that does not stop accepted
   its row and records the loop's rejected draws; the draws consumed are the
   loop's.
   */
  lemma StepTransition(df: Table, k: nat, tries: int, draws: seq<nat>, run: Run)
    requires WellFormed(df, k) && WellFormed(run.table, k) && ValidDraws(draws, df) && tries > 0
    requires Step(df, k, tries, draws, run).Ok?
    ensures var o := Search(df, k, run.table, ScoreOf(Counts(run.table, k)), draws, run.drawn, 0, tries, []).value;
      var next := Step(df, k, tries, draws, run).value;
      (next.status == TriesExhausted <==> o.lastTry == tries - 1)
      && (next.status == Completed ==> o.accepted)
      && next.table == run.table + (if o.accepted then [o.row] else [])
      && next.scores == run.scores + (if o.accepted then [o.score.v] else [])
      && next.rejections == run.rejections + (if next.status == Completed then [o.rejected] else [])
      && next.drawn == o.drawn
  {
    var o := Search(df, k, run.table, ScoreOf(Counts(run.table, k)), draws, run.drawn, 0, tries, []).value;
    var grown := Grow(run, o);
    assert Step(df, k, tries, draws, run).value
        == if o.lastTry + 1 == tries then grown.(status := TriesExhausted, drawn := o.drawn)
           else grown.(rejections := run.rejections + [o.rejected], status := Completed, drawn := o.drawn);
  }

  /** The draws consumed by iterations that went on: each its rejected draws and then its accepted one. */
  function Consumed(rejections: seq<seq<Rejection>>): nat
    decreases |rejections|
  {
    if |rejections| == 0 then 0
    else Consumed(rejections[..|rejections| - 1]) + |rejections[|rejections| - 1]| + 1
  }

  lemma ConsumedSnoc(rejections: seq<seq<Rejection>>, rs: seq<Rejection>)
    ensures Consumed(rejections + [rs]) == Consumed(rejections) + |rs| + 1
  {
    assert (rejections + [rs])[..|rejections|] == rejections;
  }

  /**
   One recorded list `rs`: the draws from position `start` on that an
   iteration starting from `work` turned down, in draw order and each with
   the score its row would have given, followed by the draw of `row`, the
   row it appended.
   */
  predicate Entry(df: Table, k: nat, draws: seq<nat>, start: nat, work: Table, row: Row, rs: seq<Rejection>)
    requires WellFormed(df, k) && WellFormed(work, k) && ValidDraws(draws, df)
  {
    RejectedDraws(df, k, work, ScoreOf(Counts(work, k)), draws, start, rs)
    && start + |rs| < |draws|
    && row == df[draws[start + |rs|]]
  }

  /**
   List `j` is the entry of iteration `j`, which started from the frame
   `table[..|df| + j]` where the earlier iterations' draws left off and
   appended `table[|df| + j]`.
   */
  predicate Logged(df: Table, k: nat, draws: seq<nat>, table: Table, rejections: seq<seq<Rejection>>)
    requires WellFormed(df, k) && WellFormed(table, k) && ValidDraws(draws, df)
    requires |df| + |rejections| <= |table|
  {
    forall j :: 0 <= j < |rejections| ==>
      Entry(df, k, draws, Consumed(rejections[..j]), table[..|df| + j], table[|df| + j], rejections[j])
  }

  /** None of the `n` draws from position `from` on would lower the score of `work`. */
  predicate NoneLower(df: Table, k: nat, work: Table, draws: seq<nat>, from: nat, n: int)
    requires WellFormed(df, k) && WellFormed(work, k) && ValidDraws(draws, df)
  {
    from + n <= |draws|
    && forall p :: from <= p < from + n ==> !Lower(ScoreWith(work, df[draws[p]], k), ScoreOf(Counts(work, k)))
  }

  /** Recorded rejections are draws that did not lower the score. */
  lemma RejectedNoneLower(df: Table, k: nat, work: Table, draws: seq<nat>, from: nat, rs: seq<Rejection>, n: int)
    requires WellFormed(df, k) && WellFormed(work, k) && ValidDraws(draws, df)
    requires RejectedDraws(df, k, work, ScoreOf(Counts(work, k)), draws, from, rs) && n <= |rs|
    ensures NoneLower(df, k, work, draws, from, n)
  {
    forall p | from <= p < from + n
      ensures !Lower(ScoreWith(work, df[draws[p]], k), ScoreOf(Counts(work, k)))
    {
      assert rs[p - from].score == ScoreWith(work, df[draws[p]], k);
    }
  }

  /**
   A finished run's draws: its lists are logged, an iteration that went on
   used its rejected draws plus one, and the iteration that stopped the run
   used all `tries` draws. None of its first `tries - 1` draws lowered the
   score it started from; its last draw is the appended row if it accepted,
   and otherwise did not lower the score either.
   */
  predicate Accounted(df: Table, k: nat, tries: int, draws: seq<nat>, run: Run)
    requires WellFormed(df, k) && WellFormed(run.table, k) && ValidDraws(draws, df)
  {
    |df| + |run.rejections| <= |run.table|
    && Logged(df, k, draws, run.table, run.rejections)
    && (run.status == Completed ==> run.drawn == Consumed(run.rejections))
    && (run.status == TriesExhausted ==>
          run.drawn == Consumed(run.rejections) + tries && 0 < run.drawn <= |draws|
          && (|run.table| > |df| + |run.rejections| ==> run.table[|run.table| - 1] == df[draws[run.drawn - 1]])
          && NoneLower(df, k, run.table[..|df| + |run.rejections|], draws, Consumed(run.rejections), tries - 1)
          && (|run.table| == |df| + |run.rejections| ==>
                NoneLower(df, k, run.table, draws, Consumed(run.rejections), tries)))
  }

  /** The accounting of a run entering iteration `i`. */
  predicate Ledger(df: Table, k: nat, draws: seq<nat>, i: nat, run: Run)
    requires WellFormed(df, k) && WellFormed(run.table, k) && ValidDraws(draws, df)
  {
    |run.table| == |df| + i && |run.rejections| == i && run.status == Completed
    && Logged(df, k, draws, run.table, run.rejections)
    && run.drawn == Consumed(run.rejections)
  }

  /** Appending a row keeps the earlier lists logged. */
  lemma LoggedGrow(df: Table, k: nat, draws: seq<nat>, table: Table,
                   rejections: seq<seq<Rejection>>, row: Row)
    requires WellFormed(df, k) && WellFormed(table, k) && ValidDraws(draws, df) && |row.labels| == k
    requires |df| + |rejections| <= |table|
    requires Logged(df, k, draws, table, rejections)
    ensures WellFormed(table + [row], k)
    ensures Logged(df, k, draws, table + [row], rejections)
  {
    WellFormedAppend(table, [row], k);
    var table' := table + [row];
    forall j | 0 <= j < |rejections|
      ensures Entry(df, k, draws, Consumed(rejections[..j]), table'[..|df| + j], table'[|df| + j], rejections[j])
    {
      assert table'[..|df| + j] == table[..|df| + j];
      assert table'[|df| + j] == table[|df| + j];
    }
  }

  /** An iteration that accepted `row` after the rejected draws `rs` logs them as its list. */
  lemma LoggedSnoc(df: Table, k: nat, draws: seq<nat>, table: Table,
                   rejections: seq<seq<Rejection>>, rs: seq<Rejection>, row: Row)
    requires WellFormed(df, k) && WellFormed(table, k) && ValidDraws(draws, df) && |row.labels| == k
    requires |table| == |df| + |rejections|
    requires Logged(df, k, draws, table, rejections)
    requires RejectedDraws(df, k, table, ScoreOf(Counts(table, k)), draws, Consumed(rejections), rs)
    requires Consumed(rejections) + |rs| < |draws|
    requires row == df[draws[Consumed(rejections) + |rs|]]
    ensures WellFormed(table + [row], k)
    ensures Logged(df, k, draws, table + [row], rejections + [rs])
  {
    LoggedGrow(df, k, draws, table, rejections, row);
    var table', rejections' := table + [row], rejections + [rs];
    forall j | 0 <= j < |rejections'|
      ensures Entry(df, k, draws, Consumed(rejections'[..j]), table'[..|df| + j], table'[|df| + j], rejections'[j])
    {
      if j < |rejections| {
        assert Entry(df, k, draws, Consumed(rejections[..j]), table'[..|df| + j], table'[|df| + j], rejections[j]);
        assert rejections'[..j] == rejections[..j];
        assert rejections'[j] == rejections[j];
      } else {
        assert Entry(df, k, draws, Consumed(rejections), table, row, rs);
        assert rejections'[..j] == rejections;
        assert table'[..|df| + j] == table;
      }
    }
  }

  /** An iteration that goes on keeps the ledger. */
  lemma StepLogs(df: Table, k: nat, tries: int, draws: seq<nat>, i: nat, run: Run)
    requires WellFormed(df, k) && WellFormed(run.table, k) && ValidDraws(draws, df) && tries > 0
    requires Ledger(df, k, draws, i, run)
    requires Step(df, k, tries, draws, run).Ok? && Step(df, k, tries, draws, run).value.status == Completed
    ensures Ledger(df, k, draws, i + 1, Step(df, k, tries, draws, run).value)
  {
    StepTransition(df, k, tries, draws, run);
    var next := Step(df, k, tries, draws, run).value;
    var current := ScoreOf(Counts(run.table, k));
    var o := Search(df, k, run.table, current, draws, run.drawn, 0, tries, []).value;
    assert o.rejected[0..] == o.rejected;
    assert o.row in df;
    ConsumedSnoc(run.rejections, o.rejected);
    assert next.drawn == Consumed(run.rejections) + |o.rejected| + 1;
    LoggedSnoc(df, k, draws, run.table, run.rejections, o.rejected, o.row);
  }

  /** An iteration that stops the run leaves it accounted for. */
  lemma StepLogsStop(df: Table, k: nat, tries: int, draws: seq<nat>, i: nat, run: Run)
    requires WellFormed(df, k) && WellFormed(run.table, k) && ValidDraws(draws, df) && tries > 0
    requires Ledger(df, k, draws, i, run)
    requires Step(df, k, tries, draws, run).Ok? && Step(df, k, tries, draws, run).value.status == TriesExhausted
    ensures Accounted(df, k, tries, draws, Step(df, k, tries, draws, run).value)
  {
    StepTransition(df, k, tries, draws, run);
    var next := Step(df, k, tries, draws, run).value;
    var current := ScoreOf(Counts(run.table, k));
    var o := Search(df, k, run.table, current, draws, run.drawn, 0, tries, []).value;
    assert next.drawn == run.drawn + tries;
    assert o.rejected[0..] == o.rejected;
    RejectedNoneLower(df, k, run.table, draws, run.drawn, o.rejected, |o.rejected|);
    assert next.table[..|df| + |next.rejections|] == run.table;
    if o.accepted {
      assert o.row in df;
      LoggedGrow(df, k, draws, run.table, run.rejections, o.row);
      assert next.table[|next.table| - 1] == df[draws[next.drawn - 1]];
    }
  }

  /** A run whose iteration loop, entered at `i` with the ledger kept, succeeds is accounted for. */
  predicate AccountedFrom(df: Table, k: nat, adds: int, tries: int, draws: seq<nat>, i: nat, run: Run)
    requires WellFormed(df, k) && WellFormed(run.table, k) && ValidDraws(draws, df)
  {
    Ledger(df, k, draws, i, run) && Iterate(df, k, adds, tries, draws, i, run).Ok? ==>
      var r := Iterate(df, k, adds, tries, draws, i, run).value;
      WellFormed(r.table, k) && Accounted(df, k, tries, draws, r)
  }

  lemma {:induction false} IterateAccounts(df: Table, k: nat, adds: int, tries: int, draws: seq<nat>,
                                           i: nat, run: Run)
    requires WellFormed(df, k) && WellFormed(run.table, k) && ValidDraws(draws, df)
    ensures AccountedFrom(df, k, adds, tries, draws, i, run)
    decreases adds - i
  {
    if i < adds && tries > 0 && Ledger(df, k, draws, i, run) {
      var step := Step(df, k, tries, draws, run);
      if step.Ok? {
        if step.value.status == TriesExhausted {
          StepLogsStop(df, k, tries, draws, i, run);
        } else {
          StepLogs(df, k, tries, draws, i, run);
          IterateAccounts(df, k, adds, tries, draws, i + 1, step.value);
        }
      }
    }
  }

  /**
   Where a run's draws went. List `j` of `res_bad` is exactly the draws
   iteration `j` rejected, in draw order, each with the score it would have
   given; the draw after them is the row iteration `j` appended, so that
   iteration used `|res_bad[j]| + 1` draws. The iteration that stopped the run
   used all `tries` draws: none before the last lowered the score it started
   from, and the last is the last row if it accepted, or did not lower the
   score either.
   */
  lemma FitDraws(df: Table, k: nat, adds: int, tries: int, draws: seq<nat>)
    requires WellFormed(df, k) && ValidDraws(draws, df)
    requires Fit(df, k, adds, tries, draws).Ok?
    ensures var run := Fit(df, k, adds, tries, draws).value;
      WellFormed(run.table, k)
      && |df| + |run.rejections| <= |run.table|
      && Logged(df, k, draws, run.table, run.rejections)
      && (run.status == Completed ==> run.drawn == Consumed(run.rejections))
      && (run.status == TriesExhausted ==>
            run.drawn == Consumed(run.rejections) + tries && 0 < run.drawn <= |draws|
            && (|run.table| > |df| + |run.rejections| ==> run.table[|run.table| - 1] == df[draws[run.drawn - 1]])
            && NoneLower(df, k, run.table[..|df| + |run.rejections|], draws, Consumed(run.rejections), tries - 1)
            && (|run.table| == |df| + |run.rejections| ==>
                  NoneLower(df, k, run.table, draws, Consumed(run.rejections), tries)))
  {
    assert Ledger(df, k, draws, 0, Run(df, [], [], Completed, 0));
    IterateAccounts(df, k, adds, tries, draws, 0, Run(df, [], [], Completed, 0));
  }

  // ---------------------------------------------------------------------
  // How a run ends
  // ---------------------------------------------------------------------

  /** The draws `n` more iterations can take at most: `tries` each. */
  function DrawsNeeded(n: int, tries: nat): nat
    decreases n
  {
    if n <= 0 then 0 else tries + DrawsNeeded(n - 1, tries)
  }

  lemma {:induction false} DrawsNeededProduct(n: int, tries: nat)
    requires n >= 0
    ensures DrawsNeeded(n, tries) == n * tries
    decreases n
  {
    if n > 0 {
      DrawsNeededProduct(n - 1, tries);
    }
  }

  lemma DrawsSuffice(adds: int, tries: nat, available: nat)
    requires adds >= 0 && available >= adds * tries
    ensures DrawsNeeded(adds, tries) <= available
  {
    DrawsNeededProduct(adds, tries);
  }

  lemma {:induction false} IterateHasDraws(df: Table, k: nat, adds: int, tries: int, draws: seq<nat>,
                                           i: nat, run: Run)
    requires WellFormed(df, k) && WellFormed(run.table, k) && ValidDraws(draws, df)
    requires |df| > 0 && tries > 0
    requires run.drawn + DrawsNeeded(adds - i, tries) <= |draws|
    ensures Iterate(df, k, adds, tries, draws, i, run).Ok?
    decreases adds - i
  {
    if i < adds {
      var step := Step(df, k, tries, draws, run);
      if step.value.status != TriesExhausted {
        IterateHasDraws(df, k, adds, tries, draws, i + 1, step.value);
      }
    }
  }

  lemma {:induction false} IterateErrors(df: Table, k: nat, adds: int, tries: int, draws: seq<nat>,
                                         i: nat, run: Run)
    requires WellFormed(df, k) && WellFormed(run.table, k) && ValidDraws(draws, df)
    ensures var r := Iterate(df, k, adds, tries, draws, i, run);
      r.Err? ==> (r.error == TryCounterUnbound <==> tries <= 0) && (r.error == EmptyFrame ==> |df| == 0)
    decreases adds - i
  {
    if i < adds && tries > 0 {
      var step := Step(df, k, tries, draws, run);
      if step.Ok? && step.value.status != TriesExhausted {
        IterateErrors(df, k, adds, tries, draws, i + 1, step.value);
      }
    }
  }

  /**
   A run fails only as the source does, or for want of random draws: an
   empty budget returns the original frame untouched; a positive iteration
   budget with no positive try budget leaves the try counter unbound, and
   nothing else does; an empty frame cannot be drawn from; and
   `adds * tries` draws always suffice.
   */
  lemma FitOutcome(df: Table, k: nat, adds: int, tries: int, draws: seq<nat>)
    requires WellFormed(df, k) && ValidDraws(draws, df)
    ensures adds <= 0 ==> Fit(df, k, adds, tries, draws) == Ok(Run(df, [], [], Completed, 0))
    ensures adds > 0 && tries <= 0 ==> Fit(df, k, adds, tries, draws) == Err(TryCounterUnbound)
    ensures adds > 0 && tries > 0 && |df| == 0 ==> Fit(df, k, adds, tries, draws) == Err(EmptyFrame)
    ensures adds > 0 && tries > 0 && |df| > 0 && |draws| >= adds * tries ==> Fit(df, k, adds, tries, draws).Ok?
    ensures Fit(df, k, adds, tries, draws).Err? ==>
      var e := Fit(df, k, adds, tries, draws).error;
      (e == TryCounterUnbound <==> tries <= 0) && (e == EmptyFrame ==> |df| == 0)
  {
    IterateErrors(df, k, adds, tries, draws, 0, Run(df, [], [], Completed, 0));
    if adds > 0 && tries > 0 && |df| > 0 && |draws| >= adds * tries {
      DrawsSuffice(adds, tries, |draws|);
      IterateHasDraws(df, k, adds, tries, draws, 0, Run(df, [], [], Completed, 0));
    }
  }

  /**
   When no row of the original frame lowers its score (a frame already
   balanced, or fewer than two labels), the first iteration rejects every
   try and the run stops with the original frame and nothing recorded.
   */
  lemma NoImprovementStalls(df: Table, k: nat, adds: int, tries: int, draws: seq<nat>)
    requires WellFormed(df, k) && ValidDraws(draws, df)
    requires adds > 0 && tries > 0 && |df| > 0 && |draws| >= tries
    requires forall row :: row in df ==> !Lower(ScoreWith(df, row, k), ScoreOf(Counts(df, k)))
    ensures Fit(df, k, adds, tries, draws) == Ok(Run(df, [], [], TriesExhausted, tries))
  {
    var current := ScoreOf(Counts(df, k));
    var trial := Search(df, k, df, current, draws, 0, 0, tries, []);
    assert trial.Ok?;
    assert trial.value.row in df;
    assert !trial.value.accepted;
  }

  /** A frame whose labels are already equally frequent cannot be improved. */
  lemma BalancedFrameStalls(df: Table, k: nat, adds: int, tries: int, draws: seq<nat>)
    requires WellFormed(df, k) && ValidDraws(draws, df)
    requires adds > 0 && tries > 0 && |df| > 0 && |draws| >= tries
    requires ScoreOf(Counts(df, k)) == Defined(0)
    ensures Fit(df, k, adds, tries, draws) == Ok(Run(df, [], [], TriesExhausted, tries))
  {
    NoImprovementStalls(df, k, adds, tries, draws);
  }

  /** Two labels, positive on rows 0 and 1 for the first and on row 2 for the second. */
  function ExampleFrame(): Table {
    [Row(0, [1, 0]), Row(1, [1, 0]), Row(2, [0, 1])]
  }

  /** Counts [2, 1] score 1; drawing row 2 would give counts [2, 2] and score 0. */
  lemma ExampleScores()
    ensures WellFormed(ExampleFrame(), 2)
    ensures ScoreOf(Counts(ExampleFrame(), 2)) == Defined(1)
    ensures ScoreWith(ExampleFrame(), Row(2, [0, 1]), 2) == Defined(0)
  {
    var df := ExampleFrame();
    var one := [Row(0, [1, 0])];
    assert one[..0] == [];
    assert Counts(one, 2) == [1, 0];
    assert df[..2][..1] == one;
    assert Counts(df[..2], 2) == [2, 0];
    assert df[..2] == df[..|df| - 1];
    assert Counts(df, 2) == [2, 1];
    assert [2, 1][1..] == [1];
    assert Plus([2, 1], [0, 1]) == [2, 2];
    assert [2, 2][1..] == [2];
  }

  /**
   The last-try stop fires even when the last try is accepted: with one try
   per iteration and five iterations budgeted, a first draw that improves the
   frame is kept, and the run still ends there with no rejection list.
   */
  lemma AcceptOnLastTryStops()
    ensures var df := ExampleFrame();
      Fit(df, 2, 5, 1, [2]) == Ok(Run(df + [Row(2, [0, 1])], [0], [], TriesExhausted, 1))
  {
    var df := ExampleFrame();
    var row := Row(2, [0, 1]);
    ExampleScores();
    var start := Run(df, [], [], Completed, 0);
    var o := Trial(true, row, Defined(0), 0, [], 1);
    assert Search(df, 2, start.table, Defined(1), [2], start.drawn, 0, 1, []) == Ok(o);
    assert Grow(start, o) == Run(df + [row], [0], [], Completed, 0);
    assert Step(df, 2, 1, [2], start) == Ok(Run(df + [row], [0], [], TriesExhausted, 1));
  }
}
