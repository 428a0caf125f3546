/** Where delivered heights are: each in the store or in the pending batch, never in both, and
    in the batch only for a while. */
module Visibility {
  import opened Types
  import opened StoreSpec
  import opened SourceChain
  import opened Anchor
  import opened Protocol
  import opened Placement

  /** Heights the process has: written or pending. */
  ghost function Held(s: State): set<nat> {
    s.db.Keys + HeightsOf(s.batch)
  }

  ghost function Between(first: nat, count: nat): (s: set<nat>)
    ensures forall h :: h in s <==> first <= h < first + count
  {
    if count == 0 then {} else Between(first, count - 1) + {first + count - 1}
  }

  /** No height is both written and pending. */
  lemma WrittenOrPending(s: State)
    requires Placed(s)
    ensures s.db.Keys !! HeightsOf(s.batch)
  {
    if s.phase.Streaming? {
      PendingIsNew(s.db, s.batch, s.phase.next);
      forall h | h in HeightsOf(s.batch) ensures h !in s.db {
        HeightsToIff(s.batch, |s.batch|, h);
        var i :| 0 <= i < |s.batch| && s.batch[i].height == h;
        assert s.batch[i] in s.batch;
      }
    }
  }

  lemma FlushConserves(s: State)
    requires Placed(s) && s.phase.Streaming?
    ensures Held(Flush(s)) == Held(s)
  {
    if s.batch != [] {
      FlushPlaced(s);
      OverlayDomain(s.db, s.batch, |s.batch|);
    }
  }

  lemma PushedHeight(batch: seq<Entry>, e: Entry)
    ensures HeightsOf(batch + [e]) == HeightsOf(batch) + {e.height}
  {
    forall h: nat ensures h in HeightsOf(batch + [e]) <==> h in HeightsOf(batch) || h == e.height {
      var more := batch + [e];
      HeightsToIff(batch, |batch|, h);
      HeightsToIff(more, |more|, h);
      assert forall i :: 0 <= i < |batch| ==> more[i] == batch[i];
      assert more[|batch|] == e;
    }
  }

  lemma StretchHeights(w: World, c: seq<Header>, first: nat, count: nat)
    requires first + count <= |c|
    ensures HeightsOf(Stretch(w, c, first, count)) == Between(first, count)
  {
    var r := Stretch(w, c, first, count);
    forall h: nat ensures h in HeightsOf(r) <==> h in Between(first, count) {
      HeightsToIff(r, count, h);
      if first <= h < first + count { assert r[h - first].height == h; }
    }
  }

  /** What one step does to the held heights: a delivery adds its height, a gap write adds its
      stretch, a re-anchor drops what lies above the new tip, a crash falls back to an earlier
      version, and no other step adds or loses anything. */
  ghost function Change(held: set<nat>, s: State, step: Step): set<nat>
    requires step.Item? ==> s.phase.Streaming?
  {
    match step
    case Item(_) => held + {s.phase.next}
    case GapWrite(first, count) => held + Between(first, count)
    case Startup(_, _, _, _, o) => Kept(held, o)
    case Reconnect(_, _, o) => Kept(held, o)
    case Crash(recovered) => recovered.Keys
    case _ => held
  }

  ghost function Kept(held: set<nat>, o: Outcome): set<nat> {
    if o.Reanchored? then set h | h in held && h <= o.tip else held
  }

  lemma StepConservesHeights(w: World, s: State, step: Step)
    requires Placed(s) && Enabled(w, s, step)
    ensures Held(Apply(w, s, step)) == Change(Held(s), s, step)
  {
    match step
    case SourceMoves(_) =>
    case Startup(_, _, _, _, _) =>
    case GapWrite(first, count) =>
      GapWriteConserves(w, s, first, count);
    case Connect =>
    case Item(flush) =>
      ItemPlaced(w, s);
      PushedHeight(s.batch, Delivered(w, s.chain, s.phase.next));
      if flush { FlushConserves(AfterItem(w, s, false)); }
    case Die => FlushConserves(s);
    case Reconnect(_, _, _) =>
    case Stop => if s.phase.Streaming? { FlushConserves(s); }
    case Crash(_) =>
  }

  /** The heights a whole run accounts for, from `held` on. */
  ghost function Accounted(w: World, s: State, steps: seq<Step>, held: set<nat>): set<nat>
    requires IsRun(w, s, steps)
    decreases |steps|
  {
    if steps == [] then held else Accounted(w, Apply(w, s, steps[0]), steps[1..], Change(held, s, steps[0]))
  }

  lemma {:induction false} RunConserves(w: World, s: State, steps: seq<Step>)
    requires Placed(s) && IsRun(w, s, steps)
    ensures Held(Exec(w, s, steps)) == Accounted(w, s, steps, Held(s))
    decreases |steps|
  {
    if steps != [] {
      StepPlaced(w, s, steps[0]);
      StepConservesHeights(w, s, steps[0]);
      RunConserves(w, Apply(w, s, steps[0]), steps[1..]);
    }
  }

  /** Over every run from every store: what was delivered or filled, and neither truncated nor
      lost in a crash, is in the store or in the batch, and in one of them only. */
  lemma DeliveredIsHeldOnce(w: World, s: State, steps: seq<Step>)
    requires Stopped(s) && IsRun(w, s, steps)
    ensures var r := Exec(w, s, steps);
            r.db.Keys + HeightsOf(r.batch) == Accounted(w, s, steps, s.db.Keys) && r.db.Keys !! HeightsOf(r.batch)
  {
    RunPlaced(w, s, steps);
    RunConserves(w, s, steps);
    assert Held(s) == s.db.Keys;
    WrittenOrPending(Exec(w, s, steps));
  }

  lemma GapWriteConserves(w: World, s: State, first: nat, count: nat)
    requires Placed(s) && Enabled(w, s, GapWrite(first, count))
    ensures Held(Apply(w, s, GapWrite(first, count))) == Held(s) + Between(first, count)
  {
    GapWritePlaced(w, s, first, count);
    var batch := Stretch(w, s.chain, first, count);
    StretchHeights(w, s.chain, first, count);
    OverlayDomain(s.db, batch, count);
  }

  // ---- how long a height may stay pending ----------------------------------------------------

  /** Every item that would fill the batch is written at once. */
  ghost predicate WritesFullBatches(w: World, s: State, steps: seq<Step>, flushEvery: nat)
    requires IsRun(w, s, steps)
    decreases |steps|
  {
    steps != [] ==>
      && (steps[0].Item? && |s.batch| + 1 >= flushEvery ==> steps[0].flush)
      && WritesFullBatches(w, Apply(w, s, steps[0]), steps[1..], flushEvery)
  }

  lemma FlushEmptiesBatch(s: State)
    ensures Flush(s).batch == []
  {
  }

  lemma {:induction false} BatchStaysShort(w: World, s: State, steps: seq<Step>, flushEvery: nat)
    requires IsRun(w, s, steps) && WritesFullBatches(w, s, steps, flushEvery)
    requires 0 < flushEvery && |s.batch| < flushEvery
    ensures |Exec(w, s, steps).batch| < flushEvery
    decreases |steps|
  {
    if steps != [] {
      FlushEmptiesBatch(s);
      if steps[0].Item? { FlushEmptiesBatch(AfterItem(w, s, false)); }
      BatchStaysShort(w, Apply(w, s, steps[0]), steps[1..], flushEvery);
    }
  }
}
