/**
 `MultilabelOversampler.fit` as the source writes it: an iteration loop and,
 inside it, a try loop left on acceptance, followed by the check of the try
 counter that ends the whole run. Unlike the reference definition it keeps
 the per-label counts of the working frame incrementally, adding a candidate
 row's labels instead of recounting the frame.
 */
module FitLoop {
  import opened Labels
  import opened Spread
  import opened Oversampler
  import Budget

  /**
   The try loop of one iteration over the working frame `work`, whose
   counts are `counts` and whose score is `current`.
   */
  method TryRows(df: Table, k: nat, work: Table, counts: seq<int>, current: Score,
                 draws: seq<nat>, drawn: nat, tries: nat) returns (r: Result<Trial>)
    requires WellFormed(df, k) && WellFormed(work, k) && ValidDraws(draws, df)
    requires counts == Counts(work, k) && tries > 0
    ensures r == Search(df, k, work, current, draws, drawn, 0, tries, [])
  {
    var notWorking: seq<Rejection> := [];
    var t := 0;
    var next: nat := drawn;
    while true
      invariant 0 <= t < tries
      invariant Search(df, k, work, current, draws, drawn, 0, tries, [])
             == Search(df, k, work, current, draws, next, t, tries, notWorking)
      decreases tries - t
    {
      if |df| == 0 {
        return Err(EmptyFrame);
      }
      if next >= |draws| {
        return Err(DrawsExhausted);
      }
      var row := df[draws[next]];
      var newScore := ScoreOf(Plus(counts, row.labels));
      assert newScore == ScoreWith(work, row, k);
      next := next + 1;
      if Lower(newScore, current) {
        return Ok(Trial(true, row, newScore, t, notWorking, next));
      }
      notWorking := notWorking + [Rejection(row.id, newScore)];
      if t + 1 == tries {
        return Ok(Trial(false, row, newScore, t, notWorking, next));
      }
      t := t + 1;
    }
  }

  /** The whole run: iterations until the budget is used up or a try loop ends on its last try. */
  method Oversample(df: Table, k: nat, adds: int, tries: int, draws: seq<nat>) returns (r: Result<Run>)
    requires WellFormed(df, k) && ValidDraws(draws, df)
    ensures r == Fit(df, k, adds, tries, draws)
  {
    var dfNew := df;
    var counts := Counts(df, k);
    var resStd: seq<nat> := [];
    var resBad: seq<seq<Rejection>> := [];
    var drawn := 0;
    var iteration: nat := 0;
    while iteration < adds
      invariant WellFormed(dfNew, k) && counts == Counts(dfNew, k)
      invariant Fit(df, k, adds, tries, draws)
             == Iterate(df, k, adds, tries, draws, iteration, Run(dfNew, resStd, resBad, Completed, drawn))
      decreases adds - iteration
    {
      if tries <= 0 {
        return Err(TryCounterUnbound);
      }
      var current := ScoreOf(counts);
      var trial := TryRows(df, k, dfNew, counts, current, draws, drawn, tries);
      if trial.Err? {
        return Err(trial.error);
      }
      var o := trial.value;
      assert o.row in df;
      if o.accepted {
        CountsSnoc(dfNew, o.row, k);
        dfNew := dfNew + [o.row];
        counts := Plus(counts, o.row.labels);
        resStd := resStd + [o.score.v];
      }
      drawn := o.drawn;
      if o.lastTry + 1 == tries {
        return Ok(Run(dfNew, resStd, resBad, TriesExhausted, drawn));
      }
      resBad := resBad + [o.rejected];
      iteration := iteration + 1;
    }
    return Ok(Run(dfNew, resStd, resBad, Completed, drawn));
  }

  /**
   Constructing the oversampler with the two budget arguments, each omitted
   or passed, and fitting it. A try budget that is omitted or not negative is
   positive once stored, so the try counter is always bound; a negative one
   is kept, and with any iteration to run it leaves the counter unbound.
   */
  method ConstructAndFit(adds: Budget.Arg, tries: Budget.Arg,
                         df: Table, k: nat, draws: seq<nat>) returns (r: Result<Run>)
    requires WellFormed(df, k) && ValidDraws(draws, df)
    ensures var settings := Budget.Construct(adds, tries);
      r == Fit(df, k, settings.adds, settings.tries, draws)
    ensures (tries.Omitted? || tries.requested.None? || tries.requested.value >= 0) ==> r != Err(TryCounterUnbound)
    ensures tries.Passed? && tries.requested.Some? && tries.requested.value < 0 && Budget.Construct(adds, tries).adds > 0
            ==> r == Err(TryCounterUnbound)
  {
    var settings := Budget.Construct(adds, tries);
    if tries.Passed? && (tries.requested.None? || tries.requested.value >= 0) {
      Budget.EffectivePositive(tries.requested);
    }
    FitOutcome(df, k, settings.adds, settings.tries, draws);
    r := Oversample(df, k, settings.adds, settings.tries, draws);
  }
}
