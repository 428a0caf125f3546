/** No new gaps: a store without gaps never acquires one, except through a fill that does not
    touch it, and neither does the store together with the pending batch. */
module Continuity {
  import opened Types
  import opened Heights
  import opened StoreSpec
  import opened Gaps
  import opened SourceChain
  import opened Anchor
  import opened Protocol
  import opened Placement

  // ---- growing and cutting ------------------------------------------------------------------------

  lemma OverlayOfStretch(db: Db, batch: seq<Entry>, base: nat, h: nat)
    requires Consecutive(batch, base)
    ensures h in Overlay(db, batch) <==> h in db || base <= h < base + |batch|
  {
    OverlayDomain(db, batch, |batch|);
    HeightsToIff(batch, |batch|, h);
    if base <= h < base + |batch| { assert batch[h - base].height == h; }
  }

  /** A stretch written right above the tip keeps the store without gaps. */
  lemma GrowsContiguously(db: Db, batch: seq<Entry>, base: nat)
    requires Contiguous(db) && Consecutive(batch, base) && (db == map[] || (base >= 1 && IsTip(db, base - 1)))
    ensures Contiguous(Overlay(db, batch))
  {
    var r := Overlay(db, batch);
    forall a, h, b | a in r && b in r && a <= h <= b ensures h in r {
      OverlayOfStretch(db, batch, base, a);
      OverlayOfStretch(db, batch, base, h);
      OverlayOfStretch(db, batch, base, b);
      if a in db && h < base { assert base - 1 in db; }
    }
  }

  lemma GrowsDownwards(db: Db, batch: seq<Entry>, base: nat)
    requires Contiguous(db) && Consecutive(batch, base) && IsFirst(db, base + |batch|)
    ensures Contiguous(Overlay(db, batch))
  {
    var r := Overlay(db, batch);
    forall a, h, b | a in r && b in r && a <= h <= b ensures h in r {
      OverlayOfStretch(db, batch, base, a);
      OverlayOfStretch(db, batch, base, h);
      OverlayOfStretch(db, batch, base, b);
    }
  }

  /** The stretch `first..first + count` meets the store, or one of them is empty. */
  ghost predicate Touches(db: Db, first: nat, count: nat) {
    || count == 0 || db == map[]
    || first + count == First(db).value || first == Tip(db).value + 1
  }

  /** A missing stretch that touches the store on neither side leaves a hole next to it. */
  lemma LeavesHole(db: Db, batch: seq<Entry>, base: nat)
    requires Contiguous(db) && Consecutive(batch, base) && batch != [] && NoneStored(db, batch)
    requires !Touches(db, base, |batch|)
    ensures !Contiguous(Overlay(db, batch))
  {
    var n, f, t := |batch|, First(db).value, Tip(db).value;
    var r := Overlay(db, batch);
    assert batch[0] in batch && batch[n - 1] in batch;
    OverlayOfStretch(db, batch, base, base);
    OverlayOfStretch(db, batch, base, f);
    OverlayOfStretch(db, batch, base, t);
    if base > t {
      OverlayOfStretch(db, batch, base, t + 1);
    } else {
      LiesBelow(db, batch, base);
      OverlayOfStretch(db, batch, base, base + n);
    }
  }

  lemma LiesBelow(db: Db, batch: seq<Entry>, base: nat)
    requires Contiguous(db) && db != map[] && Consecutive(batch, base) && batch != [] && NoneStored(db, batch)
    requires base <= Tip(db).value
    ensures base + |batch| <= First(db).value
  {
    var f, t := First(db).value, Tip(db).value;
    assert batch[0] in batch;
    assert f in db && t in db && base < f;
    forall h: nat | base <= h < base + |batch| ensures h !in db { assert batch[h - base] in batch; }
  }

  /** The exact condition for a fill to keep the store gap-free, with or without an upper bound:
      every write touches the store. */
  lemma GapWriteKeepsInterval(w: World, s: State, first: nat, count: nat)
    requires Placed(s) && Contiguous(s.db) && Enabled(w, s, GapWrite(first, count))
    ensures Contiguous(Apply(w, s, GapWrite(first, count)).db) <==> Touches(s.db, first, count)
  {
    var batch := Stretch(w, s.chain, first, count);
    GapWritePlaced(w, s, first, count);
    StretchIsNew(w, s.chain, s.db, first, count);
    if count == 0 {
      assert Overlay(s.db, batch) == s.db;
    } else if !Touches(s.db, first, count) {
      LeavesHole(s.db, batch, first);
    } else if s.db != map[] && first + count == First(s.db).value {
      GrowsDownwards(s.db, batch, first);
    } else {
      GrowsContiguously(s.db, batch, first);
    }
  }

  // ---- every step -----------------------------------------------------------------------------------

  ghost predicate GapFree(s: State) {
    Contiguous(s.db) && forall v :: v in s.history ==> Contiguous(v)
  }

  lemma FlushStaysGapFree(s: State)
    requires Placed(s) && GapFree(s) && s.phase.Streaming?
    ensures GapFree(Flush(s))
  {
    if s.batch != [] {
      FlushPlaced(s);
      GrowsContiguously(s.db, s.batch, s.phase.next - |s.batch|);
    }
  }

  lemma StepStaysGapFree(w: World, s: State, step: Step)
    requires Placed(s) && GapFree(s) && Enabled(w, s, step)
    requires step.GapWrite? ==> Touches(s.db, step.first, step.count)
    ensures GapFree(Apply(w, s, step))
  {
    match step
    case SourceMoves(_) =>
    case Startup(_, _, _, _, _) =>
    case GapWrite(first, count) => GapWriteKeepsInterval(w, s, first, count);
    case Connect =>
    case Item(flush) =>
      ItemPlaced(w, s);
      if flush { FlushStaysGapFree(AfterItem(w, s, false)); }
    case Die => FlushStaysGapFree(s);
    case Reconnect(_, _, _) =>
    case Stop => if s.phase.Streaming? { FlushStaysGapFree(s); }
    case Crash(_) =>
  }

  // ---- every run --------------------------------------------------------------------------------------

  /** Every gap write of the run touches the store it writes to. */
  ghost predicate FillsTouch(w: World, s: State, steps: seq<Step>)
    requires IsRun(w, s, steps)
    decreases |steps|
  {
    steps != [] ==>
      && (steps[0].GapWrite? ==> Touches(s.db, steps[0].first, steps[0].count))
      && FillsTouch(w, Apply(w, s, steps[0]), steps[1..])
  }

  /** The store is gap-free in every state of the run. */
  ghost predicate GapFreeThroughout(w: World, s: State, steps: seq<Step>)
    requires IsRun(w, s, steps)
    decreases |steps|
  {
    Contiguous(s.db) && (steps != [] ==> GapFreeThroughout(w, Apply(w, s, steps[0]), steps[1..]))
  }

  lemma {:induction false} RunStaysGapFree(w: World, s: State, steps: seq<Step>)
    requires Placed(s) && GapFree(s) && IsRun(w, s, steps)
    ensures GapFreeThroughout(w, s, steps) <==> FillsTouch(w, s, steps)
    ensures FillsTouch(w, s, steps) ==> Placed(Exec(w, s, steps)) && GapFree(Exec(w, s, steps))
    decreases |steps|
  {
    if steps != [] {
      StepPlaced(w, s, steps[0]);
      if steps[0].GapWrite? { GapWriteKeepsInterval(w, s, steps[0].first, steps[0].count); }
      if steps[0].GapWrite? ==> Touches(s.db, steps[0].first, steps[0].count) {
        StepStaysGapFree(w, s, steps[0]);
        RunStaysGapFree(w, Apply(w, s, steps[0]), steps[1..]);
      }
    }
  }

  /** Store and pending batch together are one interval that ends with the last delivered height,
      right below the height the stream owes next. */
  ghost predicate UpToDate(s: State) {
    && (forall h: nat :: s.Holds(h) ==> h < s.Cursor())
    && (forall a: nat, h: nat :: s.Holds(a) && a <= h < s.Cursor() ==> s.Holds(h))
    && (s.lastHeight.Some? ==> s.Holds(s.lastHeight.value))
  }

  /** No new gaps: from any store without gaps, hashed or not, the stored heights form one interval
      in every reachable state exactly when every fill touches the store; and then, while a stream
      is live or being reconnected, store and pending batch form one interval up to the last
      delivered height, and the stream owes the height after it. */
  lemma NoNewGaps(w: World, s: State, steps: seq<Step>)
    requires Stopped(s) && Contiguous(s.db) && IsRun(w, s, steps)
    ensures GapFreeThroughout(w, s, steps) <==> FillsTouch(w, s, steps)
    ensures FillsTouch(w, s, steps) ==>
              var r := Exec(w, s, steps);
              && Contiguous(r.db)
              && (r.phase.Streaming? ==> UpToDate(r) && r.phase.next == r.Cursor())
              && (r.phase.Reconnecting? ==> UpToDate(r) && r.phase.resumeFrom == r.Cursor())
  {
    RunStaysGapFree(w, s, steps);
    var r := Exec(w, s, steps);
    if FillsTouch(w, s, steps) && (r.phase.Streaming? || r.phase.Reconnecting?) { PendingClosesTheGap(r); }
  }

  lemma PendingClosesTheGap(s: State)
    requires Placed(s) && Contiguous(s.db) && (s.phase.Streaming? || s.phase.Reconnecting?)
    ensures UpToDate(s)
  {
    var next, n := s.Cursor(), |s.batch|;
    var base := next - n;
    if n > 0 {
      assert s.batch[n - 1].height == next - 1;
      HeightsToIff(s.batch, n, next - 1);
    }
    forall h: nat | s.Holds(h) ensures h < next { HeightsToIff(s.batch, n, h); }
    forall a: nat, h: nat | s.Holds(a) && a <= h < next ensures s.Holds(h) {
      HeightsToIff(s.batch, n, a);
      HeightsToIff(s.batch, n, h);
      if base <= h {
        assert s.batch[h - base].height == h;
      } else {
        assert a in s.db && base - 1 in s.db;
      }
    }
  }

  // ---- what a caller can check beforehand ----------------------------------------------------------------

  /** The fill window meets the store: it is empty, or it begins no lower than right below the first
      stored height and, if it is bounded, no higher than right above the last. */
  ghost predicate MeetsStore(db: Db, fill: Fill) {
    || fill.NoFill? || db == map[] || Window(db, Some(fill.from), fill.end).None?
    || (First(db).value <= fill.from + 1 && (fill.end.Some? ==> fill.from <= Tip(db).value + 1))
  }

  lemma MeetingWriteTouches(db: Db, fill: Fill, first: nat, count: nat)
    requires Contiguous(db) && MeetsStore(db, fill) && Fillable(db, fill, first, count)
    ensures Touches(db, first, count)
  {
    if count > 0 && db != map[] {
      var f, t := First(db).value, Tip(db).value;
      assert f in db && t in db && first !in db;
      assert first < f ==> first + 1 == f;
    }
  }

  /** Exactly the windows that meet a gap-free store are safe: every write into them touches it,
      and into any other window there is a write that does not. */
  lemma MeetsStoreIff(db: Db, fill: Fill)
    requires Contiguous(db)
    ensures MeetsStore(db, fill) <==>
            forall first: nat, count: nat :: Fillable(db, fill, first, count) ==> Touches(db, first, count)
  {
    if MeetsStore(db, fill) {
      forall first: nat, count: nat | Fillable(db, fill, first, count) ensures Touches(db, first, count) {
        MeetingWriteTouches(db, fill, first, count);
      }
    } else {
      assert Fillable(db, fill, fill.from, 1) && !Touches(db, fill.from, 1);
    }
  }

  /** Every start of the run fills a window that meets the store, if it fills at all. */
  ghost predicate FillsMeet(w: World, s: State, steps: seq<Step>)
    requires IsRun(w, s, steps)
    decreases |steps|
  {
    steps != [] ==>
      && (steps[0].Startup? ==> MeetsStore(AfterReconcile(s.db, steps[0].outcome), steps[0].fill))
      && FillsMeet(w, Apply(w, s, steps[0]), steps[1..])
  }

  /** A window that meets the store still does once part of it is written. */
  lemma StillMeets(db: Db, fill: Fill, batch: seq<Entry>, first: nat)
    requires Contiguous(db) && MeetsStore(db, fill) && Fillable(db, fill, first, |batch|)
    requires Consecutive(batch, first) && batch != []
    ensures MeetsStore(Overlay(db, batch), fill)
  {
    var r := Overlay(db, batch);
    MeetingWriteTouches(db, fill, first, |batch|);
    OverlayOfStretch(db, batch, first, first);
    var f, t := First(r).value, Tip(r).value;
    OverlayOfStretch(db, batch, first, f);
    OverlayOfStretch(db, batch, first, t);
    if db != map[] {
      OverlayOfStretch(db, batch, first, First(db).value);
      OverlayOfStretch(db, batch, first, Tip(db).value);
    }
  }

  ghost predicate Meeting(s: State) {
    s.phase.Starting? ==> MeetsStore(s.db, s.phase.fill)
  }

  lemma StepStaysMeeting(w: World, s: State, step: Step)
    requires Placed(s) && Contiguous(s.db) && Meeting(s) && Enabled(w, s, step)
    requires step.Startup? ==> MeetsStore(AfterReconcile(s.db, step.outcome), step.fill)
    ensures Meeting(Apply(w, s, step))
    ensures step.GapWrite? ==> Touches(s.db, step.first, step.count)
  {
    if step.GapWrite? {
      MeetingWriteTouches(s.db, s.phase.fill, step.first, step.count);
      if step.count > 0 {
        GapWritePlaced(w, s, step.first, step.count);
        StillMeets(s.db, s.phase.fill, Stretch(w, s.chain, step.first, step.count), step.first);
      }
    }
  }

  /** Starts that fill windows which meet the store only ever write where the store ends. */
  lemma {:induction false} MeetingFillsTouch(w: World, s: State, steps: seq<Step>)
    requires Placed(s) && GapFree(s) && Meeting(s) && IsRun(w, s, steps) && FillsMeet(w, s, steps)
    ensures FillsTouch(w, s, steps)
    decreases |steps|
  {
    if steps != [] {
      StepPlaced(w, s, steps[0]);
      StepStaysMeeting(w, s, steps[0]);
      StepStaysGapFree(w, s, steps[0]);
      MeetingFillsTouch(w, Apply(w, s, steps[0]), steps[1..]);
    }
  }

  /** A range run is enough for a hole: with only block 0 stored and verified, a start that fills
      `2..=2` goes on to skip block 1. */
  lemma RangeFillLeavesHole(w: World, s: State, hash: H256)
    requires Stopped(s) && |s.chain| >= 3 && IsFirst(s.db, 0) && IsTip(s.db, 0)
    requires s.db[0].blockHash == hash == w.hashOf(s.chain[0]) && hash != ZERO_HASH
    ensures var steps := [Startup(2, Fill(2, Some(2)), 0, map[0 := hash], Verified(0)), GapWrite(2, 1)];
            IsRun(w, s, steps) && !Contiguous(Exec(w, s, steps).db)
  {
    var start := Startup(2, Fill(2, Some(2)), 0, map[0 := hash], Verified(0));
    var steps := [start, GapWrite(2, 1)];
    assert Explains(s.db, 0, map[0 := hash], Verified(0)) && Enabled(w, s, start);
    var s' := Apply(w, s, start);
    StepPlaced(w, s, start);
    SkipsBlockOne(w, s');
    assert steps[1..] == [GapWrite(2, 1)] && [GapWrite(2, 1)][1..] == [];
  }

  lemma SkipsBlockOne(w: World, s: State)
    requires Placed(s) && s.phase == Starting(Fill(2, Some(2))) && |s.chain| >= 3
    requires IsFirst(s.db, 0) && IsTip(s.db, 0)
    ensures Enabled(w, s, GapWrite(2, 1)) && !Contiguous(Apply(w, s, GapWrite(2, 1)).db)
  {
    assert Contiguous(s.db) && First(s.db).value == 0 && Tip(s.db).value == 0;
    GapWriteKeepsInterval(w, s, 2, 1);
  }
}
