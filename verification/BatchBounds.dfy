/** How long a delivered height may stay pending, over every run whose writes the main loop decides. */
module BatchBounds {
  import opened Protocol
  import opened Placement
  import opened Visibility
  import opened ArchiverLoop
  import opened SourceChain

  /** Every item of the run is written or kept as the loop decides, with `clocks[i]` in view at
      step `i`. */
  ghost predicate DecidedByLoop(w: World, s: State, steps: seq<Step>, cfg: Config, clocks: seq<Clock>)
    requires IsRun(w, s, steps) && |clocks| == |steps|
    decreases |steps|
  {
    steps != [] ==>
      && (steps[0].Item? ==> (steps[0].flush <==> Flushes(cfg, clocks[0], s.batch, s.phase.next)))
      && DecidedByLoop(w, Apply(w, s, steps[0]), steps[1..], cfg, clocks[1..])
  }

  /** After every delivery nothing is pending if the batch was due, and otherwise one height more. */
  ghost predicate WrittenWhenDue(w: World, s: State, steps: seq<Step>, cfg: Config, clocks: seq<Clock>)
    requires IsRun(w, s, steps) && |clocks| == |steps|
    decreases |steps|
  {
    steps != [] ==>
      && (steps[0].Item? ==> forall t: nat :: Bounds(cfg, clocks[0], t) ==>
           |Apply(w, s, steps[0]).batch| == if Due(cfg, |s.batch| + 1, s.phase.next, t) then 0 else |s.batch| + 1)
      && WrittenWhenDue(w, Apply(w, s, steps[0]), steps[1..], cfg, clocks[1..])
  }

  lemma {:induction false} LoopWritesInTime(w: World, s: State, steps: seq<Step>, cfg: Config, clocks: seq<Clock>)
    requires IsRun(w, s, steps) && |clocks| == |steps| && DecidedByLoop(w, s, steps, cfg, clocks)
    ensures WritesFullBatches(w, s, steps, cfg.flushEvery) && WrittenWhenDue(w, s, steps, cfg, clocks)
    decreases |steps|
  {
    if steps != [] {
      if steps[0].Item? {
        FlushEmptiesBatch(AfterItem(w, s, false));
        forall t: nat | Bounds(cfg, clocks[0], t)
          ensures |Apply(w, s, steps[0]).batch| ==
                  if Due(cfg, |s.batch| + 1, s.phase.next, t) then 0 else |s.batch| + 1
        {
          FlushesIffDue(cfg, clocks[0], s.batch, s.phase.next, t);
        }
      }
      LoopWritesInTime(w, Apply(w, s, steps[0]), steps[1..], cfg, clocks[1..]);
    }
  }

  /** Over every run of the loop the batch stays shorter than the flush size between steps, and
      after every delivery it was written exactly if it was due. */
  lemma LoopKeepsBatchShort(w: World, s: State, steps: seq<Step>, cfg: Config, clocks: seq<Clock>)
    requires Stopped(s) && IsRun(w, s, steps) && |clocks| == |steps| && DecidedByLoop(w, s, steps, cfg, clocks)
    requires cfg.flushEvery > 0
    ensures |Exec(w, s, steps).batch| < cfg.flushEvery && WrittenWhenDue(w, s, steps, cfg, clocks)
  {
    LoopWritesInTime(w, s, steps, cfg, clocks);
    BatchStaysShort(w, s, steps, cfg.flushEvery);
  }
}
