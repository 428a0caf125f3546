/** Where the pending batch lies, over every run from every store, whichever branches the store
    mixes and whether or not its tip has a hash: right above what is stored. */
module Placement {
  import opened Types
  import opened Heights
  import opened StoreSpec
  import opened SourceChain
  import opened Anchor
  import opened Protocol

  /** Below `next`, the store reaches up to where the pending batch begins. */
  ghost predicate ReachesUpTo(db: Db, next: int) {
    db != map[] ==> next >= 1 && IsTip(db, next - 1)
  }

  ghost predicate Consecutive(batch: seq<Entry>, base: int) {
    forall i :: 0 <= i < |batch| ==> batch[i].height == base + i
  }

  ghost predicate NoneStored(db: Db, batch: seq<Entry>) {
    forall e :: e in batch ==> e.height !in db
  }

  /** Every height has a successor on u64. */
  ghost predicate Fits(db: Db) {
    forall h :: h in db ==> h < U64_MAX
  }

  ghost predicate Placed(s: State) {
    var holds :=
      && |s.chain| <= U64_MAX && Fits(s.db) && (forall v :: v in s.history ==> Fits(v))
      && PhasePlaced(s);
    holds
  }

  ghost predicate PhasePlaced(s: State) {
    match s.phase
    case Down => s.batch == []
    case Starting(fill) =>
      s.batch == [] && s.lastHeight.None? && ((fill.Fill? ==> fill.end.None?) ==> ReachesUpTo(s.db, s.startHeight))
    case Streaming(next) =>
      && next == s.Cursor() && (s.batch != [] ==> |s.batch| <= next <= U64_MAX)
      && Consecutive(s.batch, next - |s.batch|) && ReachesUpTo(s.db, next - |s.batch|)
      && (s.lastHeight.Some? && s.batch == [] ==> s.lastHeight.value in s.db)
    case Reconnecting(resumeFrom) =>
      && s.batch == [] && resumeFrom == s.Cursor() && ReachesUpTo(s.db, resumeFrom)
      && (s.lastHeight.Some? ==> s.lastHeight.value in s.db)
  }

  // ---- writing the pending batch ---------------------------------------------------------------------

  lemma PendingIsNew(db: Db, batch: seq<Entry>, next: nat)
    requires Consecutive(batch, next - |batch|) && ReachesUpTo(db, next - |batch|)
    ensures Distinct(batch) && NoneStored(db, batch) && Accepts(db, batch)
  {
    forall e | e in batch ensures e.height !in db {
      var i :| 0 <= i < |batch| && batch[i] == e;
    }
  }

  /** After the pending batch is written the store reaches all the way up. */
  lemma WriteReachesUp(db: Db, batch: seq<Entry>, next: nat)
    requires Consecutive(batch, next - |batch|) && ReachesUpTo(db, next - |batch|) && batch != []
    ensures IsTip(Overlay(db, batch), next - 1)
  {
    var n := |batch|;
    OverlayDomain(db, batch, n);
    HeightsToIff(batch, n, batch[n - 1].height);
    assert batch[n - 1].height == next - 1;
    forall h | h in Overlay(db, batch) ensures h <= next - 1 {
      HeightsToIff(batch, n, h);
    }
  }

  /** Flushing a stream's batch: always accepted, nothing pending, the store reaches up. */
  lemma FlushPlaced(s: State)
    requires Placed(s) && s.phase.Streaming?
    ensures s.batch != [] ==> Flush(s) == s.(db := Overlay(s.db, s.batch), history := s.history + {s.db}, batch := [])
    ensures Placed(Flush(s)) && Flush(s).phase == s.phase && Flush(s).batch == []
    ensures ReachesUpTo(Flush(s).db, s.phase.next)
  {
    if s.batch != [] {
      PendingIsNew(s.db, s.batch, s.phase.next);
      WriteReachesUp(s.db, s.batch, s.phase.next);
    }
  }

  lemma ItemPlaced(w: World, s: State)
    requires Placed(s) && s.phase.Streaming? && s.phase.next < |s.chain|
    ensures Placed(AfterItem(w, s, false))
  {
    var s' := AfterItem(w, s, false);
    assert s'.batch == s.batch + [Delivered(w, s.chain, s.phase.next)];
  }

  // ---- resuming ----------------------------------------------------------------------------------------

  /** Wherever a reconciliation lets the process go on, it resumes right above the tip. */
  lemma ResumesAboveTip(db: Db, maxDepth: nat, rpc: Rpc, o: Outcome)
    requires Fits(db) && Explains(db, maxDepth, rpc, o) && o.Ok()
    ensures Fits(AfterReconcile(db, o))
    ensures if o.ResumeFrom().Some? then ReachesUpTo(AfterReconcile(db, o), o.ResumeFrom().value) else db == map[]
  {
    if o.Reanchored? { assert IsTip(Below(db, o.tip), o.tip); }
  }

  lemma StartupPlaced(w: World, s: State, step: Step)
    requires Placed(s) && step.Startup? && Enabled(w, s, step)
    ensures Placed(Apply(w, s, step))
  {
    if step.outcome.Ok() { ResumesAboveTip(s.db, step.maxDepth, step.rpc, step.outcome); }
  }

  lemma ReanchorPlaced(s: State, maxDepth: nat, rpc: Rpc, o: Outcome)
    requires Placed(s) && s.phase.Reconnecting? && Explains(s.db, maxDepth, rpc, o) && o.Reanchored?
    ensures Placed(AfterReconnect(s, o))
  {
    ResumesAboveTip(s.db, maxDepth, rpc, o);
    assert AfterReconnect(s, o).phase == Streaming(o.tip + 1);
  }

  lemma ContinuePlaced(s: State, maxDepth: nat, rpc: Rpc, o: Outcome)
    requires Placed(s) && s.phase.Reconnecting? && Explains(s.db, maxDepth, rpc, o) && o.Ok() && !o.Reanchored?
    ensures Placed(AfterReconnect(s, o))
  {
    ResumesAboveTip(s.db, maxDepth, rpc, o);
    assert AfterReconnect(s, o) == s.(phase := Streaming(s.phase.resumeFrom));
  }

  lemma ReconnectPlaced(w: World, s: State, step: Step)
    requires Placed(s) && step.Reconnect? && Enabled(w, s, step)
    ensures Placed(Apply(w, s, step))
  {
    var o := step.outcome;
    if o.Reanchored? {
      ReanchorPlaced(s, step.maxDepth, step.rpc, o);
    } else if o.Ok() {
      ContinuePlaced(s, step.maxDepth, step.rpc, o);
    }
  }

  // ---- filling ------------------------------------------------------------------------------------------

  lemma StretchIsNew(w: World, c: seq<Header>, db: Db, first: nat, count: nat)
    requires first + count <= |c| && forall h :: first <= h < first + count ==> h !in db
    ensures Distinct(Stretch(w, c, first, count)) && NoneStored(db, Stretch(w, c, first, count))
    ensures Accepts(db, Stretch(w, c, first, count)) && Consecutive(Stretch(w, c, first, count), first)
  {
  }

  /** Filling without an upper bound leaves the tip alone. */
  lemma GapsLieBelowTheTip(w: World, c: seq<Header>, db: Db, fill: Fill, first: nat, count: nat)
    requires first + count <= |c| && Fillable(db, fill, first, count) && fill.end.None?
    ensures db != map[] && IsTip(Overlay(db, Stretch(w, c, first, count)), Tip(db).value)
  {
    var batch := Stretch(w, c, first, count);
    OverlayDomain(db, batch, count);
    forall h | h in Overlay(db, batch) ensures h <= Tip(db).value {
      HeightsToIff(batch, count, h);
    }
  }

  lemma StartHeightStays(w: World, c: seq<Header>, db: Db, fill: Fill, first: nat, count: nat, start: nat)
    requires first + count <= |c| && Fillable(db, fill, first, count) && fill.end.None? && ReachesUpTo(db, start)
    ensures ReachesUpTo(Overlay(db, Stretch(w, c, first, count)), start)
  {
    GapsLieBelowTheTip(w, c, db, fill, first, count);
  }

  lemma OverlayFits(w: World, c: seq<Header>, db: Db, first: nat, count: nat)
    requires first + count <= |c| <= U64_MAX && Fits(db)
    ensures Fits(Overlay(db, Stretch(w, c, first, count)))
  {
    var batch := Stretch(w, c, first, count);
    OverlayDomain(db, batch, count);
    forall h | h in Overlay(db, batch) ensures h < U64_MAX {
      HeightsToIff(batch, count, h);
    }
  }

  lemma GapWritePlaced(w: World, s: State, first: nat, count: nat)
    requires Placed(s) && Enabled(w, s, GapWrite(first, count))
    ensures Placed(Apply(w, s, GapWrite(first, count))) && Apply(w, s, GapWrite(first, count)).phase == s.phase
    ensures Apply(w, s, GapWrite(first, count)).db == Overlay(s.db, Stretch(w, s.chain, first, count))
  {
    StretchIsNew(w, s.chain, s.db, first, count);
    OverlayFits(w, s.chain, s.db, first, count);
    if s.phase.fill.end.None? { StartHeightStays(w, s.chain, s.db, s.phase.fill, first, count, s.startHeight); }
  }

  // ---- every step, every run ------------------------------------------------------------------------------

  lemma StepPlaced(w: World, s: State, step: Step)
    requires Placed(s) && Enabled(w, s, step)
    ensures Placed(Apply(w, s, step))
  {
    match step
    case SourceMoves(_) =>
    case Startup(_, _, _, _, _) => StartupPlaced(w, s, step);
    case GapWrite(first, count) => GapWritePlaced(w, s, first, count);
    case Connect =>
    case Item(flush) =>
      ItemPlaced(w, s);
      if flush { FlushPlaced(AfterItem(w, s, false)); }
    case Die => FlushPlaced(s);
    case Reconnect(_, _, _) => ReconnectPlaced(w, s, step);
    case Stop => if s.phase.Streaming? { FlushPlaced(s); }
    case Crash(_) =>
  }

  lemma {:induction false} RunPlaced(w: World, s: State, steps: seq<Step>)
    requires Placed(s) && IsRun(w, s, steps)
    ensures Placed(Exec(w, s, steps))
    decreases |steps|
  {
    if steps != [] {
      StepPlaced(w, s, steps[0]);
      RunPlaced(w, Apply(w, s, steps[0]), steps[1..]);
    }
  }

  /** A process about to be started on any store. */
  ghost predicate Stopped(s: State) {
    s.phase.Down? && s.batch == [] && s.history == {} && |s.chain| <= U64_MAX && Fits(s.db)
  }

  /** The write-once guard never fires on the process's own writes, so no run ends there: not
      even from a store that mixes branches or has no hashes. */
  lemma GuardNeverFires(w: World, s: State, steps: seq<Step>)
    requires Stopped(s) && IsRun(w, s, steps)
    ensures var r := Exec(w, s, steps); Accepts(r.db, r.batch) && Distinct(r.batch) && NoneStored(r.db, r.batch)
    ensures var r := Exec(w, s, steps);
            forall first: nat, count: nat :: Enabled(w, r, GapWrite(first, count)) ==>
                Accepts(r.db, Stretch(w, r.chain, first, count))
  {
    RunPlaced(w, s, steps);
    var r := Exec(w, s, steps);
    if r.phase.Streaming? { PendingIsNew(r.db, r.batch, r.phase.next); }
    forall first: nat, count: nat | Enabled(w, r, GapWrite(first, count)) ensures Accepts(r.db,
        Stretch(w, r.chain, first, count)) {
      StretchIsNew(w, r.chain, r.db, first, count);
    }
  }
}
