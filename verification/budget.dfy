/**
 The two search budgets fixed when the oversampler is constructed: the
 maximum number of rows to add (iterations) and the maximum number of draws
 per iteration. A budget given as `None` or `0` (falsy in Python) is
 replaced by one million; any other integer, negative ones included, is
 kept as given.
 */
module Budget {

  datatype Option<T> = None | Some(value: T)

  /** The substitute for a falsy budget. */
  const Unbounded: int := 1_000_000

  /** The constructor's own defaults when an argument is omitted. */
  const DefaultAdds: int := 1000
  const DefaultTries: int := 100

  /** Python truthiness of an optional integer argument. */
  predicate Truthy(requested: Option<int>) {
    requested.Some? && requested.value != 0
  }

  /** The budget stored for a requested one. */
  function Effective(requested: Option<int>): (b: int)
    ensures requested.Some? && requested.value != 0 ==> b == requested.value
    ensures requested.None? || requested.value == 0 ==> b == Unbounded
  {
    if Truthy(requested) then requested.value else Unbounded
  }

  datatype Settings = Settings(adds: int, tries: int)

  /** What the constructor stores for the two budget arguments. */
  function Init(adds: Option<int>, tries: Option<int>): (s: Settings)
    ensures s.adds != 0 && s.tries != 0
    ensures adds.Some? && adds.value != 0 ==> s.adds == adds.value
    ensures tries.Some? && tries.value != 0 ==> s.tries == tries.value
    ensures adds.None? || adds.value == 0 ==> s.adds == Unbounded
    ensures tries.None? || tries.value == 0 ==> s.tries == Unbounded
  {
    Settings(Effective(adds), Effective(tries))
  }

  /** A constructor argument: left out, or passed (`None` or an integer). */
  datatype Arg = Omitted | Passed(requested: Option<int>)

  /** What the constructor receives for an argument whose default is `default`. */
  function Received(a: Arg, default: int): Option<int> {
    if a.Omitted? then Some(default) else a.requested
  }

  /**
   What the constructor stores when arguments may be left out: an omitted
   argument takes its default (1000 iterations, 100 tries), which is truthy
   and therefore kept; a passed one is defaulted as `Init` does.
   */
  function Construct(adds: Arg, tries: Arg): (s: Settings)
    ensures adds.Omitted? ==> s.adds == DefaultAdds
    ensures tries.Omitted? ==> s.tries == DefaultTries
    ensures adds.Passed? ==> s.adds == Effective(adds.requested)
    ensures tries.Passed? ==> s.tries == Effective(tries.requested)
  {
    Init(Received(adds, DefaultAdds), Received(tries, DefaultTries))
  }

  /** Leaving an argument out stores the same budget as passing its default explicitly. */
  lemma OmittedIsDefault(adds: Arg, tries: Arg)
    ensures Construct(Omitted, tries) == Construct(Passed(Some(DefaultAdds)), tries)
    ensures Construct(adds, Omitted) == Construct(adds, Passed(Some(DefaultTries)))
  {
  }

  /**
   A stored budget is itself truthy, so feeding it back unchanged stores the
   same value: defaulting is idempotent.
   */
  lemma EffectiveIdempotent(requested: Option<int>)
    ensures Truthy(Some(Effective(requested)))
    ensures Effective(Some(Effective(requested))) == Effective(requested)
  {
  }

  /** A budget that is not negative is positive once stored. */
  lemma EffectivePositive(requested: Option<int>)
    requires requested.None? || requested.value >= 0
    ensures Effective(requested) > 0
  {
  }
}
