/** Safety of the archiver over every run: canonical roots are never spliced onto fork roots. */
module Safety {
  import opened Types
  import opened Heights
  import opened StoreSpec
  import opened SourceChain
  import opened Anchor
  import opened ForkPoint
  import opened Protocol
  import opened Placement

  /** The tip, if there is one, carries a block hash. */
  ghost predicate TipHashed(db: Db) {
    forall t: nat :: IsTip(db, t) ==> db[t].blockHash != ZERO_HASH
  }

  /** Everything stored lies on one branch and the tip identifies it. */
  ghost predicate Good(w: World, db: Db) {
    SingleBranch(w, db) && TipHashed(db)
  }

  /** The pending batch is the stretch of the canonical chain that ends below `next`. */
  ghost predicate PendingIs(w: World, c: seq<Header>, batch: seq<Entry>, next: nat) {
    && |batch| <= next
    && (batch != [] ==> next <= |c|)
    && forall i :: 0 <= i < |batch| ==> batch[i] == Delivered(w, c, next - |batch| + i)
  }

  ghost predicate Inv(w: World, s: State) {
    && IsChain(w, s.chain)
    && Good(w, s.db) && (forall v :: v in s.history ==> Good(w, v))
    && (s.Live() ==> AllOn(w, s.chain, s.db))
    && PhaseInv(w, s)
  }

  ghost predicate PhaseInv(w: World, s: State) {
    match s.phase
    case Down => s.batch == []
    case Starting(fill) =>
      s.batch == [] && s.lastHeight.None? && ((fill.Fill? ==> fill.end.None?) ==> ReachesUpTo(s.db, s.startHeight))
    case Streaming(next) =>
      && next == s.Cursor()
      && PendingIs(w, s.chain, s.batch, next)
      && ReachesUpTo(s.db, next - |s.batch|)
    case Reconnecting(resumeFrom) =>
      s.batch == [] && resumeFrom == s.Cursor() && ReachesUpTo(s.db, resumeFrom)
  }

  // ---- writing a stretch of the canonical chain ---------------------------------------

  /** Entries that `c` has at their heights. */
  ghost predicate FromChain(w: World, c: seq<Header>, batch: seq<Entry>) {
    forall i :: 0 <= i < |batch| ==> batch[i].height < |c| && batch[i] == Delivered(w, c, batch[i].height)
  }

  lemma {:induction false} OverlayStaysOnChain(w: World, c: seq<Header>, db: Db, batch: seq<Entry>, n: nat)
    requires AllOn(w, c, db) && FromChain(w, c, batch) && n <= |batch|
    ensures AllOn(w, c, OverlayTo(db, batch, n))
  {
    if n > 0 {
      OverlayStaysOnChain(w, c, db, batch, n - 1);
      var before, now := OverlayTo(db, batch, n - 1), OverlayTo(db, batch, n);
      var x := batch[n - 1].height;
      assert batch[n - 1] == Delivered(w, c, x);
      forall h | h in now ensures OnChain(w, c, h, now[h]) {
        if h != x { assert OnChain(w, c, h, before[h]); }
        else if x in db { assert OnChain(w, c, x, db[x]); }
      }
    }
  }

  lemma OverlayTipHashed(w: World, c: seq<Header>, db: Db, batch: seq<Entry>)
    requires w.Sound() && IsChain(w, c) && FromChain(w, c, batch) && Distinct(batch) && TipHashed(db)
    ensures TipHashed(Overlay(db, batch))
  {
    var n, r := |batch|, Overlay(db, batch);
    OverlayDomain(db, batch, n);
    forall t: nat | IsTip(r, t) ensures r[t].blockHash != ZERO_HASH {
      HeightsToIff(batch, n, t);
      if t in HeightsTo(batch, n) {
        var i :| 0 <= i < n && batch[i].height == t;
        OverlayAt(db, batch, n, i);
        assert BlockAt(w, c, t);
      } else {
        OverlayElsewhere(db, batch, n, t);
        assert IsTip(db, t);
      }
    }
  }

  /** Writing new blocks of the chain the store lies on is never rejected and keeps it there. */
  lemma WriteIsGood(w: World, c: seq<Header>, db: Db, batch: seq<Entry>)
    requires w.Sound() && IsChain(w, c) && AllOn(w, c, db) && TipHashed(db)
    requires FromChain(w, c, batch) && Distinct(batch) && NoneStored(db, batch)
    ensures Accepts(db, batch)
    ensures AllOn(w, c, Overlay(db, batch)) && Good(w, Overlay(db, batch))
  {
    OverlayStaysOnChain(w, c, db, batch, |batch|);
    OverlayTipHashed(w, c, db, batch);
  }

  lemma PendingIsFromChain(w: World, c: seq<Header>, db: Db, batch: seq<Entry>, next: nat)
    requires PendingIs(w, c, batch, next) && ReachesUpTo(db, next - |batch|)
    ensures FromChain(w, c, batch) && Distinct(batch) && NoneStored(db, batch) && Consecutive(batch, next - |batch|)
  {
    PendingIsNew(db, batch, next);
  }

  /** Flushing a live session: accepted, still canonical, nothing pending. */
  lemma FlushIsGood(w: World, s: State)
    requires w.Sound() && Inv(w, s) && s.phase.Streaming? && s.batch != []
    ensures Flush(s) == s.(db := Overlay(s.db, s.batch), history := s.history + {s.db}, batch := [])
    ensures AllOn(w, s.chain, Flush(s).db) && Good(w, Flush(s).db)
    ensures ReachesUpTo(Flush(s).db, s.phase.next)
  {
    PendingIsFromChain(w, s.chain, s.db, s.batch, s.phase.next);
    WriteIsGood(w, s.chain, s.db, s.batch);
    WriteReachesUp(s.db, s.batch, s.phase.next);
  }

  lemma FlushKeepsInv(w: World, s: State)
    requires w.Sound() && Inv(w, s) && s.phase.Streaming?
    ensures Flush(s).phase == s.phase && Flush(s).batch == [] && Inv(w, Flush(s))
    ensures ReachesUpTo(Flush(s).db, s.phase.next)
  {
    if s.batch != [] { FlushIsGood(w, s); }
  }

  // ---- one lemma per step ----------------------------------------------------------------

  lemma ItemKeepsInv(w: World, s: State, flush: bool)
    requires w.Sound() && Inv(w, s) && Enabled(w, s, Item(flush))
    ensures Inv(w, Apply(w, s, Item(flush)))
  {
    ItemIsPending(w, s);
    if flush { FlushKeepsInv(w, AfterItem(w, s, false)); }
  }

  lemma ItemIsPending(w: World, s: State)
    requires Inv(w, s) && s.phase.Streaming? && s.phase.next < |s.chain|
    ensures Inv(w, AfterItem(w, s, false))
  {
    var s', next := AfterItem(w, s, false), s.phase.next;
    assert s'.batch == s.batch + [Delivered(w, s.chain, next)];
    assert PendingIs(w, s'.chain, s'.batch, next + 1);
    assert s'.db == s.db && s'.history == s.history;
  }

  lemma DieKeepsInv(w: World, s: State)
    requires w.Sound() && Inv(w, s) && Enabled(w, s, Die)
    ensures Inv(w, Apply(w, s, Die)) && Apply(w, s, Die).phase.Reconnecting?
  {
    FlushKeepsInv(w, s);
  }

  lemma StopKeepsInv(w: World, s: State)
    requires w.Sound() && Inv(w, s) && Enabled(w, s, Stop)
    ensures Inv(w, Apply(w, s, Stop))
  {
    if s.phase.Streaming? { FlushKeepsInv(w, s); }
  }

  /** What a session starts from: a store on the canonical chain, and a stream that resumes
      right above its tip (or anywhere, if the store is empty). */
  ghost predicate Resumable(w: World, c: seq<Header>, db: Db, resume: Option<nat>) {
    var holds :=
      && AllOn(w, c, db) && Good(w, db)
      && (if resume.Some? then ReachesUpTo(db, resume.value) else db == map[]);
    holds
  }

  lemma VerifiedIsGood(w: World, c: seq<Header>, db: Db, maxDepth: nat, rpc: Rpc, o: Outcome)
    requires w.Sound() && IsChain(w, c) && Good(w, db) && Confirmed(w, c, rpc, o)
    requires Explains(db, maxDepth, rpc, o) && o.Verified?
    ensures Resumable(w, c, db, o.ResumeFrom())
  {
    var b :| IsChain(w, b) && AllOn(w, b, db);
    VerifiedIsCanonical(w, b, c, db, maxDepth, rpc, o);
    assert OnChain(w, c, o.tip, db[o.tip]);
  }

  lemma HashedTipIsGood(w: World, c: seq<Header>, db: Db, t: nat)
    requires IsChain(w, c) && AllOn(w, c, db) && IsTip(db, t) && db[t].blockHash != ZERO_HASH
    ensures Good(w, db)
  {
    forall u: nat | IsTip(db, u) ensures db[u].blockHash != ZERO_HASH { assert u == t; }
  }

  lemma ReanchoredIsGood(w: World, c: seq<Header>, db: Db, maxDepth: nat, rpc: Rpc, o: Outcome)
    requires w.Sound() && IsChain(w, c) && Good(w, db) && Confirmed(w, c, rpc, o)
    requires Explains(db, maxDepth, rpc, o) && o.Reanchored?
    ensures Resumable(w, c, AfterReconcile(db, o), o.ResumeFrom())
  {
    var b :| IsChain(w, b) && AllOn(w, b, db);
    KeptStore(w, b, c, db, maxDepth, rpc, o);
    HashedTipIsGood(w, c, AfterReconcile(db, o), o.tip);
  }

  /** Every way a reconciliation can let the process go on is a good place to start from. */
  lemma ReconcileIsGood(w: World, c: seq<Header>, db: Db, maxDepth: nat, rpc: Rpc, o: Outcome)
    requires w.Sound() && IsChain(w, c) && Good(w, db) && Confirmed(w, c, rpc, o)
    requires Explains(db, maxDepth, rpc, o) && o.Ok()
    ensures !o.Unverifiable?
    ensures Resumable(w, c, AfterReconcile(db, o), o.ResumeFrom())
  {
    match o
    case Empty =>
    case Unverifiable(t) => assert false;
    case Verified(_) => VerifiedIsGood(w, c, db, maxDepth, rpc, o);
    case Reanchored(_, _) => ReanchoredIsGood(w, c, db, maxDepth, rpc, o);
  }

  lemma StartupKeepsInv(w: World, s: State, step: Step)
    requires w.Sound() && Inv(w, s) && step.Startup? && Enabled(w, s, step)
    ensures Inv(w, Apply(w, s, step))
  {
    if step.outcome.Ok() { ReconcileIsGood(w, s.chain, s.db, step.maxDepth, step.rpc, step.outcome); }
  }

  lemma ReanchorKeepsInv(w: World, s: State, maxDepth: nat, rpc: Rpc, o: Outcome)
    requires w.Sound() && Inv(w, s) && s.phase.Reconnecting? && Confirmed(w, s.chain, rpc, o)
    requires Explains(s.db, maxDepth, rpc, o) && o.Reanchored?
    ensures Inv(w, AfterReconnect(s, o))
  {
    ReanchoredIsGood(w, s.chain, s.db, maxDepth, rpc, o);
    ReanchorState(s, o);
    StreamAgain(w, s, AfterReconcile(s.db, o), o.tip);
  }

  lemma ReanchorState(s: State, o: Outcome)
    requires s.phase.Reconnecting? && o.Reanchored? && o.tip < U64_MAX
    ensures o.ResumeFrom() == Some(o.tip + 1)
    ensures var db := AfterReconcile(s.db, o);
            AfterReconnect(s, o) ==
            s.(db := db, history := s.history + {s.db}, phase := Streaming(o.tip + 1), lastHeight := Some(o.tip))
  {
  }

  /** A session on a store with tip `t` that the live chain carries. */
  lemma StreamAgain(w: World, s: State, db: Db, t: nat)
    requires Inv(w, s) && s.batch == [] && Resumable(w, s.chain, db, Some(t + 1))
    ensures Inv(w, s.(db := db, history := s.history + {s.db}, phase := Streaming(t + 1), lastHeight := Some(t)))
  {
  }

  lemma ContinueKeepsInv(w: World, s: State, maxDepth: nat, rpc: Rpc, o: Outcome)
    requires w.Sound() && Inv(w, s) && s.phase.Reconnecting? && Confirmed(w, s.chain, rpc, o)
    requires Explains(s.db, maxDepth, rpc, o) && o.Ok() && !o.Reanchored?
    ensures Inv(w, AfterReconnect(s, o))
  {
    ReconcileIsGood(w, s.chain, s.db, maxDepth, rpc, o);
    assert AfterReconnect(s, o) == s.(phase := Streaming(s.phase.resumeFrom));
  }

  lemma ReconnectKeepsInv(w: World, s: State, step: Step)
    requires w.Sound() && Inv(w, s) && step.Reconnect? && Enabled(w, s, step)
    ensures Inv(w, Apply(w, s, step))
  {
    var o := step.outcome;
    if o.Reanchored? {
      ReanchorKeepsInv(w, s, step.maxDepth, step.rpc, o);
    } else if o.Ok() {
      ContinueKeepsInv(w, s, step.maxDepth, step.rpc, o);
    }
  }

  lemma GapWriteKeepsInv(w: World, s: State, first: nat, count: nat)
    requires w.Sound() && Inv(w, s) && Enabled(w, s, GapWrite(first, count))
    ensures Inv(w, Apply(w, s, GapWrite(first, count)))
    ensures Apply(w, s, GapWrite(first, count)).phase == s.phase
  {
    var batch := Stretch(w, s.chain, first, count);
    StretchIsNew(w, s.chain, s.db, first, count);
    WriteIsGood(w, s.chain, s.db, batch);
    var s' := Apply(w, s, GapWrite(first, count));
    if count > 0 {
      if s.phase.fill.end.None? { StartHeightStays(w, s.chain, s.db, s.phase.fill, first, count, s.startHeight); }
    } else {
      assert s' == s;
    }
  }

  /** A source that keeps what a session holds keeps the store on its chain, ... */
  lemma StoreMovesAlong(w: World, s: State, to: seq<Header>)
    requires Inv(w, s) && Enabled(w, s, SourceMoves(to)) && s.Live()
    ensures AllOn(w, to, s.db)
  {
    forall h | h in s.db ensures OnChain(w, to, h, s.db[h]) {
      assert s.Holds(h) && OnChain(w, s.chain, h, s.db[h]);
    }
  }

  /** ... and the pending batch a stretch of it. */
  lemma PendingMovesAlong(w: World, s: State, to: seq<Header>)
    requires Inv(w, s) && Enabled(w, s, SourceMoves(to)) && s.phase.Streaming?
    ensures PendingIs(w, to, s.batch, s.phase.next)
  {
    forall i | 0 <= i < |s.batch|
      ensures s.batch[i].height < |to| && to[s.batch[i].height] == s.chain[s.batch[i].height]
    {
      assert s.Holds(s.batch[i].height);
    }
    if s.batch != [] { assert s.batch[|s.batch| - 1].height == s.phase.next - 1; }
  }

  lemma SourceMovesKeepsInv(w: World, s: State, to: seq<Header>)
    requires w.Sound() && Inv(w, s) && Enabled(w, s, SourceMoves(to))
    ensures Inv(w, Apply(w, s, SourceMoves(to)))
  {
    if s.Live() { StoreMovesAlong(w, s, to); }
    if s.phase.Streaming? { PendingMovesAlong(w, s, to); }
  }

  /** Every step keeps the invariant. */
  lemma StepKeepsInv(w: World, s: State, step: Step)
    requires w.Sound() && Inv(w, s) && Enabled(w, s, step)
    ensures Inv(w, Apply(w, s, step))
  {
    match step
    case SourceMoves(to) => SourceMovesKeepsInv(w, s, to);
    case Startup(_, _, _, _, _) => StartupKeepsInv(w, s, step);
    case GapWrite(first, count) => GapWriteKeepsInv(w, s, first, count);
    case Connect =>
    case Item(flush) => ItemKeepsInv(w, s, flush);
    case Die => DieKeepsInv(w, s);
    case Reconnect(_, _, _) => ReconnectKeepsInv(w, s, step);
    case Stop => StopKeepsInv(w, s);
    case Crash(_) =>
  }

  lemma {:induction false} RunKeepsInv(w: World, s: State, steps: seq<Step>)
    requires w.Sound() && Inv(w, s) && IsRun(w, s, steps)
    ensures Inv(w, Exec(w, s, steps))
    decreases |steps|
  {
    if steps != [] {
      StepKeepsInv(w, s, steps[0]);
      RunKeepsInv(w, Apply(w, s, steps[0]), steps[1..]);
    }
  }

  // ---- the theorems ----------------------------------------------------------------------

  /** A process about to be started on a store whose contents lie on one branch. */
  ghost predicate Initial(w: World, s: State) {
    s.phase.Down? && s.batch == [] && s.history == {} && IsChain(w, s.chain) && SingleBranch(w, s.db)
  }

  /** Every stored block is an ancestor of the stored tip: whichever chain contains the tip
      block contains everything stored, and such a chain exists. */
  ghost predicate AncestorsOfTip(w: World, db: Db) {
    forall t: nat | IsTip(db, t) ::
      && db[t].blockHash != ZERO_HASH
      && (exists c :: IsChain(w, c) && t < |c| && w.hashOf(c[t]) == db[t].blockHash)
      && (forall c :: IsChain(w, c) && t < |c| && w.hashOf(c[t]) == db[t].blockHash ==> AllOn(w, c, db))
  }

  lemma GoodMeansAncestors(w: World, db: Db)
    requires w.Sound() && Good(w, db)
    ensures AncestorsOfTip(w, db)
  {
    var b :| IsChain(w, b) && AllOn(w, b, db);
    forall t: nat | IsTip(db, t)
      ensures exists c :: IsChain(w, c) && t < |c| && w.hashOf(c[t]) == db[t].blockHash
      ensures forall c :: IsChain(w, c) && t < |c| && w.hashOf(c[t]) == db[t].blockHash ==> AllOn(w, c, db)
    {
      assert OnChain(w, b, t, db[t]);
      forall c | IsChain(w, c) && t < |c| && w.hashOf(c[t]) == db[t].blockHash ensures AllOn(w, c, db) {
        SharedBlockSharesStore(w, b, c, db, t);
      }
    }
  }

  /** No fork splice: through any interleaving of stream items, stream deaths, source
      reorganisations between sessions, re-anchors, gap fills, stops, restarts and crashes, every
      stored block is an ancestor of the stored tip. */
  lemma NoForkSplice(w: World, s: State, steps: seq<Step>)
    requires w.Sound() && Initial(w, s) && TipHashed(s.db) && IsRun(w, s, steps)
    ensures AncestorsOfTip(w, Exec(w, s, steps).db)
  {
    RunKeepsInv(w, s, steps);
    GoodMeansAncestors(w, Exec(w, s, steps).db);
  }

  // ---- the hash on the tip is what it takes ------------------------------------------------

  /** Move the source to `rival`, restart, and take one block. */
  function SpliceRun(rival: seq<Header>, t: nat): seq<Step> {
    [SourceMoves(rival), Startup(0, NoFill, 0, map[], Unverifiable(t)), Connect, Item(true)]
  }

  lemma UnhashedTipIsResumed(w: World, s: State, t: nat, rival: seq<Header>)
    requires Initial(w, s) && IsTip(s.db, t) && s.db[t].blockHash == ZERO_HASH
    requires IsChain(w, rival) && t + 1 < |rival|
    ensures IsRun(w, s, SpliceRun(rival, t))
    ensures Exec(w, s, SpliceRun(rival, t)).db == Overlay(s.db, [Delivered(w, rival, t + 1)])
  {
    var run := SpliceRun(rival, t);
    var s1 := Apply(w, s, run[0]);
    var s2 := Apply(w, s1, run[1]);
    var s3 := Apply(w, s2, run[2]);
    assert s3.phase == Streaming(t + 1) && s3.batch == [] && s3.chain == rival && s3.db == s.db;
    assert [] + [Delivered(w, rival, t + 1)] == [Delivered(w, rival, t + 1)];
    var s4 := Apply(w, s3, run[3]);
    assert Accepts(s.db, [Delivered(w, rival, t + 1)]);
    assert s4.db == Overlay(s.db, [Delivered(w, rival, t + 1)]);
    OneMore(w, s3, run[3..], s4);
    OneMore(w, s2, run[2..], s4);
    OneMore(w, s1, run[1..], s4);
    OneMore(w, s, run, s4);
  }

  /** A run continues with its first step. */
  lemma OneMore(w: World, s: State, run: seq<Step>, end: State)
    requires run != [] && Enabled(w, s, run[0])
    requires IsRun(w, Apply(w, s, run[0]), run[1..]) && Exec(w, Apply(w, s, run[0]), run[1..]) == end
    ensures IsRun(w, s, run) && Exec(w, s, run) == end
  {
  }

  lemma SplicedOnRival(w: World, db: Db, t: nat, rival: seq<Header>)
    requires w.Sound() && IsTip(db, t) && IsChain(w, rival) && t + 1 < |rival| && rival[t].root != db[t].root
    ensures !SingleBranch(w, Overlay(db, [Delivered(w, rival, t + 1)]))
  {
    var batch := [Delivered(w, rival, t + 1)];
    var r := Overlay(db, batch);
    OverlayAt(db, batch, 1, 0);
    assert t !in HeightsTo(batch, 1);
    OverlayElsewhere(db, batch, 1, t);
    assert BlockAt(w, rival, t + 1);
    forall c | IsChain(w, c) ensures !AllOn(w, c, r) {
      if OnChain(w, c, t + 1, r[t + 1]) {
        SameHashSameAncestors(w, c, rival, t + 1);
        assert c[t] == c[..t + 2][t] == rival[..t + 2][t];
        assert !OnChain(w, c, t, r[t]);
      }
    }
  }

  /** Exactly the stores whose tip carries a hash are safe: if the source has a rival branch that
      differs at the tip's height, some run from a hashless tip splices it. Hashless entries
      below the tip do no harm. */
  lemma SpliceFreeIffTipHashed(w: World, s: State, t: nat, rival: seq<Header>)
    requires w.Sound() && Initial(w, s) && IsTip(s.db, t)
    requires IsChain(w, rival) && t + 1 < |rival| && rival[t].root != s.db[t].root
    ensures (forall steps :: IsRun(w, s, steps) ==> SingleBranch(w, Exec(w, s, steps).db))
            <==> s.db[t].blockHash != ZERO_HASH
  {
    if s.db[t].blockHash == ZERO_HASH {
      UnhashedTipIsResumed(w, s, t, rival);
      SplicedOnRival(w, s.db, t, rival);
    } else {
      forall steps | IsRun(w, s, steps) ensures SingleBranch(w, Exec(w, s, steps).db) {
        RunKeepsInv(w, s, steps);
      }
    }
  }

  // ---- what is assumed of a session is what it takes ----------------------------------------------

  lemma {:induction false} OverlayPrefix(db: Db, batch: seq<Entry>, e: Entry, n: nat)
    requires n <= |batch|
    ensures OverlayTo(db, batch + [e], n) == OverlayTo(db, batch, n)
  {
    if n > 0 {
      OverlayPrefix(db, batch, e, n - 1);
      assert (batch + [e])[n - 1] == batch[n - 1];
    }
  }

  /** Writing one more new block goes on top of what the batch leaves. */
  lemma OneMoreBlock(db: Db, batch: seq<Entry>, e: Entry)
    requires e.height !in db
    ensures Overlay(db, batch + [e]) == Overlay(db, batch)[e.height := e.Stored()]
  {
    var more, n := batch + [e], |batch|;
    OverlayPrefix(db, batch, e, n);
    assert more[n] == e && OverlayTo(db, more, n + 1) == OverlayTo(db, more, n)[e.height := Written(db, e)];
  }

  /** A store topped by a block of `to` lies on one branch exactly if `to` carries all of it. */
  lemma OneBranchIff(w: World, to: seq<Header>, db: Db, next: nat)
    requires w.Sound() && IsChain(w, to) && next < |to| && ReachesUpTo(db, next)
    ensures SingleBranch(w, db[next := Delivered(w, to, next).Stored()]) <==> AllOn(w, to, db)
  {
    var after := db[next := Delivered(w, to, next).Stored()];
    assert BlockAt(w, to, next);
    if SingleBranch(w, after) {
      var b :| IsChain(w, b) && AllOn(w, b, after);
      assert OnChain(w, b, next, after[next]);
      SharedBlockSharesStore(w, b, to, after, next);
      forall h | h in db ensures OnChain(w, to, h, db[h]) { assert h in after && h <= next && after[h] == db[h]; }
    }
    if AllOn(w, to, db) {
      forall h | h in after ensures OnChain(w, to, h, after[h]) {
        if h != next { assert OnChain(w, to, h, db[h]); }
      }
      assert AllOn(w, to, after);
    }
  }

  /** The next block of `to` is accepted on top of the pending batch. */
  lemma NextBlockIsNew(db: Db, batch: seq<Entry>, next: nat, e: Entry)
    requires Consecutive(batch, next - |batch|) && ReachesUpTo(db, next - |batch|) && e.height == next
    ensures Accepts(db, batch + [e]) && next !in db
  {
    var more := batch + [e];
    assert Consecutive(more, next + 1 - |more|) by {
      forall i | 0 <= i < |more| ensures more[i].height == next + 1 - |more| + i {
        if i < |batch| { assert more[i] == batch[i]; }
      }
    }
    PendingIsNew(db, more, next + 1);
    assert more[|batch|] in more;
  }

  /** If the source moved to `to` in the middle of a session, without an anchor check, the next
      block would splice the store exactly when `to` no longer carries what the session holds,
      stored or pending: that the source keeps it is not only sufficient but needed. */
  lemma SessionMoveSplicesIff(w: World, s: State, to: seq<Header>)
    requires w.Sound() && Inv(w, s) && s.phase.Streaming? && IsChain(w, to) && s.phase.next < |to|
    ensures var moved := s.(chain := to);
            && Enabled(w, moved, Item(true))
            && (SingleBranch(w, Apply(w, moved, Item(true)).db) <==> AllOn(w, to, Overlay(s.db, s.batch)))
  {
    var next := s.phase.next;
    var moved, e := s.(chain := to), Delivered(w, to, next);
    PendingIsFromChain(w, s.chain, s.db, s.batch, next);
    NextBlockIsNew(s.db, s.batch, next, e);
    OneMoreBlock(s.db, s.batch, e);
    if s.batch != [] { WriteReachesUp(s.db, s.batch, next); }
    assert Apply(w, moved, Item(true)).db == Overlay(s.db, s.batch)[next := e.Stored()];
    OneBranchIff(w, to, Overlay(s.db, s.batch), next);
  }

  /** In particular a pending block the source has replaced is enough, even if all that is stored
      is still canonical. */
  lemma PendingBlockSplices(w: World, s: State, to: seq<Header>, i: nat)
    requires w.Sound() && Inv(w, s) && s.phase.Streaming? && IsChain(w, to) && s.phase.next < |to|
    requires i < |s.batch| && to[s.batch[i].height].root != s.batch[i].root
    ensures !SingleBranch(w, Apply(w, s.(chain := to), Item(true)).db)
  {
    var e := s.batch[i];
    SessionMoveSplicesIff(w, s, to);
    PendingIsFromChain(w, s.chain, s.db, s.batch, s.phase.next);
    OverlayAt(s.db, s.batch, |s.batch|, i);
    assert e in s.batch;
    assert AllOn(w, to, Overlay(s.db, s.batch)) ==> OnChain(w, to, e.height, Overlay(s.db, s.batch)[e.height]);
  }
}
