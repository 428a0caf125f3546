/** The archiver's main loop as an object: pending batch, delivery cursor and store, updated in
    place by stream items, stream deaths, reconnects and shutdown. */
module ArchiverLoop {
  import opened Types
  import opened Heights
  import opened StoreSpec
  import opened RootStoreModule
  import opened SourceChain
  import opened Anchor
  import opened ForkPoint
  import opened Protocol
  import opened Placement

  // ---- the bound the stream follows ------------------------------------------------------

  /** The head tracker's value, if it was ever read and is recent enough. */
  function HeadIfFresh(head: nat, seenAt: nat, now: nat, maxAge: nat): Option<nat> {
    if head > 0 && (if seenAt <= now then now - seenAt else 0) <= maxAge then Some(head) else None
  }

  /** The published bound, clamped to the source head when one is known. */
  function FetchableBound(published: Option<nat>, head: Option<nat>): Option<nat> {
    match published
    case None => None
    case Some(bound) => Some(if head.Some? && head.value < bound then head.value else bound)
  }

  /** Raise the published bound if `height` is an advance. */
  method AdvanceBound(current: Option<nat>, height: nat) returns (bound: Option<nat>, moved: bool)
    ensures bound.Some? && height <= bound.value
    ensures current.Some? ==> current.value <= bound.value
    ensures bound == current || bound == Some(height)
    ensures moved <==> bound != current
  {
    if current.None? || height > current.value {
      return Some(height), true;
    }
    return current, false;
  }

  /** Follow the attested height over a series of readings (`None`: no attestation, or a failed
      read): the published bound is the highest reading so far. */
  method FollowAttested(readings: seq<Option<nat>>) returns (bound: Option<nat>)
    ensures bound.None? <==> forall r :: r in readings ==> r.None?
    ensures bound.Some? ==> bound in readings && forall r :: r in readings && r.Some? ==> r.value <= bound.value
  {
    bound := None;
    for i := 0 to |readings|
      invariant bound.None? <==> forall j :: 0 <= j < i ==> readings[j].None?
      invariant bound.Some? ==> bound in readings
      invariant bound.Some? ==> forall j :: 0 <= j < i && readings[j].Some? ==> readings[j].value <= bound.value
    {
      if readings[i].Some? {
        var moved;
        bound, moved := AdvanceBound(bound, readings[i].value);
      }
    }
  }

  predicate AtTip(remaining: nat, tipWindow: nat) { remaining < tipWindow }

  function SaturatingSub(a: nat, b: nat): nat { if b <= a then a - b else 0 }

  // ---- the loop ------------------------------------------------------------------------------

  datatype Config = Config(flushEvery: nat, tipWindow: nat, endHeight: Option<nat>, maxDepth: nat)

  /** What the loop reads besides the stream: the published bound and the head tracker. */
  datatype Clock = Clock(published: Option<nat>, chainHead: nat, freshHead: Option<nat>)

  /** What bounds this run, as seen right now. */
  function Target(cfg: Config, clock: Clock): nat {
    if cfg.endHeight.Some? then cfg.endHeight.value
    else
      var bound := FetchableBound(clock.published, clock.freshHead);
      if bound.Some? then bound.value else clock.chainHead
  }

  predicate EndReached(cfg: Config, height: nat) {
    cfg.endHeight.Some? && height >= cfg.endHeight.value
  }

  predicate NearTarget(cfg: Config, clock: Clock, height: nat) {
    AtTip(SaturatingSub(Target(cfg, clock), height), cfg.tipWindow)
  }

  /** `t` is what bounds this run: the end height; else the attested height, or the fresh head
      where that is lower; or else the source head. */
  ghost predicate Bounds(cfg: Config, clock: Clock, t: nat) {
    match (cfg.endHeight, clock.published)
    case (Some(end), _) => t == end
    case (None, Some(attested)) =>
      if clock.freshHead.None? || attested <= clock.freshHead.value then t == attested
      else t == clock.freshHead.value
    case (None, None) => t == clock.chainHead
  }

  /** With `pending` heights waiting up to `height`, and `t` the bound, the batch is due: it is full,
      the end height is reached, or `t` is less than a tip window ahead. */
  ghost predicate Due(cfg: Config, pending: nat, height: nat, t: nat) {
    || pending >= cfg.flushEvery
    || (cfg.endHeight.Some? && cfg.endHeight.value <= height)
    || (0 < cfg.tipWindow && t < height + cfg.tipWindow)
  }

  /** The loop writes exactly when the batch is due, measured against what bounds the run. */
  lemma FlushesIffDue(cfg: Config, clock: Clock, batch: seq<Entry>, height: nat, t: nat)
    ensures Bounds(cfg, clock, t) <==> t == Target(cfg, clock)
    ensures Bounds(cfg, clock, t) ==> (Flushes(cfg, clock, batch, height) <==> Due(cfg, |batch| + 1, height, t))
  {
  }

  datatype ItemResult = Continue | EndOfRange

  class Archiver {
    const cfg: Config
    const store: RootStore
    var batch: seq<Entry>
    var startHeight: nat
    var lastHeight: Option<nat>

    /** The object holds what `s` says the process holds. */
    ghost predicate Models(s: State)
      reads this, store
    {
      && store.Valid()
      && s.db == store.db && s.batch == batch && s.startHeight == startHeight && s.lastHeight == lastHeight
    }

    /** Open for business after the anchor check at startup. */
    constructor (cfg: Config, store: RootStore, resume: nat)
      requires store.Valid()
      ensures this.cfg == cfg && this.store == store && store.Valid()
      ensures batch == [] && startHeight == resume && lastHeight == None
    {
      this.cfg, this.store := cfg, store;
      batch, startHeight, lastHeight := [], resume, None;
    }

    method WriteBatch() returns (ok: bool)
      requires store.Valid()
      requires forall e :: e in batch ==> e.height <= U64_MAX
      modifies this`batch, store
      ensures store.Valid() && ok == Accepts(old(store.db), old(batch))
      ensures store.View() == ApplyOp(old(store.View()), Put(old(batch)))
      ensures batch == if ok then [] else old(batch)
      ensures Distinct(old(batch)) && CountExact(old(store.View())) ==> CountExact(store.View())
    {
      if Distinct(batch) && CountExact(store.View()) {
        DistinctCountsOnce(store.View(), batch);
        StepCounts(store.View(), Put(batch));
      }
      var r := store.PutRoots(batch);
      ok := r.Stored?;
      if ok {
        batch := [];
      }
    }

    /** One delivered root: remember it, and write the batch when it is full, at the end of the
        range, or close to the target. */
    method OnItem(info: Entry, clock: Clock, ghost w: World, ghost s: State) returns (r: ItemResult)
      requires Models(s) && Placed(s)
      requires s.phase.Streaming? && s.phase.next < |s.chain| && info == Delivered(w, s.chain, s.phase.next)
      modifies this`batch, this`lastHeight, store
      ensures Models(Apply(w, s, Item(Flushes(cfg, clock, old(batch), info.height))))
      ensures r == EndOfRange <==> cfg.endHeight.Some? && cfg.endHeight.value <= info.height
      ensures forall t: nat :: Bounds(cfg, clock, t) ==>
                batch == if Due(cfg, |old(batch)| + 1, info.height, t) then [] else old(batch) + [info]
      ensures info.height in store.db || info in batch
      ensures CountExact(old(store.View())) ==> CountExact(store.View())
    {
      lastHeight := Some(info.height);
      batch := batch + [info];
      var endReached := cfg.endHeight.Some? && info.height >= cfg.endHeight.value;
      var remaining := SaturatingSub(Target(cfg, clock), info.height);
      ghost var s' := AfterItem(w, s, false);
      ItemPlaced(w, s);
      HeightsFit(s');
      if |batch| >= cfg.flushEvery || endReached || AtTip(remaining, cfg.tipWindow) {
        FlushPlaced(s');
        StoredAfterFlush(s');
        var ok := WriteBatch();
      }
      r := if endReached then EndOfRange else Continue;
    }

    /** A dead stream: write the pending batch, so that the anchor check sees everything that was
        delivered, and note where to resume. */
    method OnStreamDeath(ghost w: World, ghost s: State) returns (resumeFrom: nat)
      requires Models(s) && Placed(s) && s.phase.Streaming?
      modifies this`batch, store
      ensures Models(Apply(w, s, Die)) && Apply(w, s, Die).phase == Reconnecting(resumeFrom)
      ensures CountExact(old(store.View())) ==> CountExact(store.View())
    {
      FlushPlaced(s);
      if batch != [] {
        FlushPlaced(s);
        HeightsFit(s);
        var ok := WriteBatch();
      }
      resumeFrom := if lastHeight.Some? then lastHeight.value + 1 else startHeight;
    }

    /** One reconnect attempt on a freshly dialled client: check the anchor and decide where the
        stream resumes. `None` means the attempt failed and is retried, or the process gives up. */
    method OnReconnect(resumeFrom: nat, rpc: Rpc, ghost w: World, ghost s: State)
      returns (o: Outcome, resume: Option<nat>)
      requires Models(s) && s.phase == Reconnecting(resumeFrom)
      modifies this`lastHeight, store
      ensures Explains(s.db, cfg.maxDepth, rpc, o)
      ensures resume.None? <==> o.AnchorMismatch? || o.RpcFailed?
      ensures resume.Some? ==> resume.value == NextHeight(store.db, resumeFrom)
      ensures CountExact(old(store.View())) ==> CountExact(store.View())
      ensures Confirmed(w, s.chain, rpc, o) ==>
                && Enabled(w, s, Reconnect(cfg.maxDepth, rpc, o))
                && Models(Apply(w, s, Reconnect(cfg.maxDepth, rpc, o)))
                && Apply(w, s, Reconnect(cfg.maxDepth, rpc, o)).phase ==
                   if resume.Some? then Streaming(resume.value)
                   else if o.AnchorMismatch? then Down
                   else s.phase
    {
      o := Reconcile(store, cfg.maxDepth, rpc);
      ghost var before := old(store.View());
      if o.Reanchored? && CountExact(before) { StepCounts(before, Truncate(o.tip)); }
      resume := None;
      if o.Ok() { ResumeIsNext(s.db, cfg.maxDepth, rpc, o, resumeFrom); }
      if o.Reanchored? {
        lastHeight := Some(o.tip);
        resume := Some(WrappingInc(o.tip));
      } else if o.Ok() {
        resume := if o.ResumeFrom().Some? then o.ResumeFrom() else Some(resumeFrom);
      }
    }

    /** Shutdown: whatever is pending is written. */
    method OnShutdown(ghost w: World, ghost s: State)
      requires Models(s) && Placed(s) && !s.phase.Down?
      modifies this`batch, store
      ensures Models(Apply(w, s, Stop)) && batch == []
      ensures CountExact(old(store.View())) ==> CountExact(store.View())
    {
      if batch != [] {
        FlushPlaced(s);
        HeightsFit(s);
        var ok := WriteBatch();
      }
    }
  }

  /** Right above the last stored height, or `initial` if nothing is stored. */
  ghost function NextHeight(db: Db, initial: nat): nat {
    if db == map[] then initial else WrappingInc(Tip(db).value)
  }

  lemma ResumeIsNext(db: Db, maxDepth: nat, rpc: Rpc, o: Outcome, initial: nat)
    requires Explains(db, maxDepth, rpc, o) && o.Ok()
    ensures NextHeight(AfterReconcile(db, o), initial) == if o.ResumeFrom().Some? then o.ResumeFrom().value else initial
  {
    if o.Reanchored? { assert IsTip(Below(db, o.tip), o.tip); }
  }

  /** Startup: resume above the stored tip, or from the configured height on an empty store, once
      the anchor check has passed. `None` means the process gives up. */
  method StartUp(store: RootStore, configStart: nat, maxDepth: nat, rpc: Rpc, ghost w: World, ghost s: State,
      ghost fill: Fill)
    returns (o: Outcome, startHeight: Option<nat>)
    requires store.Valid() && s.phase.Down? && s.db == store.db
    modifies store
    ensures store.Valid() && Explains(s.db, maxDepth, rpc, o)
    ensures startHeight.None? <==> o.AnchorMismatch? || o.RpcFailed?
    ensures startHeight.Some? ==> startHeight.value == NextHeight(store.db, configStart)
    ensures old(store.db) == map[] ==> startHeight == Some(configStart)
    ensures CountExact(old(store.View())) ==> CountExact(store.View())
    ensures Confirmed(w, s.chain, rpc, o) ==>
              var step := Startup(configStart, fill, maxDepth, rpc, o);
              && Enabled(w, s, step)
              && var s' := Apply(w, s, step);
              && store.db == s'.db
              && (startHeight.Some? <==> s'.phase == Starting(fill))
              && (startHeight.Some? ==> startHeight.value == s'.startHeight)
  {
    var latest := Tip(store.db);
    var start := if latest.Some? then WrappingInc(latest.value) else configStart;
    o := Reconcile(store, maxDepth, rpc);
    ghost var before := old(store.View());
    if o.Reanchored? && CountExact(before) { StepCounts(before, Truncate(o.tip)); }
    if !o.Ok() {
      return o, None;
    }
    ResumeIsNext(s.db, maxDepth, rpc, o, configStart);
    if o.ResumeFrom().Some? {
      start := o.ResumeFrom().value;
    }
    startHeight := Some(start);
  }

  /** The loop's write decision. */
  predicate Flushes(cfg: Config, clock: Clock, batch: seq<Entry>, height: nat) {
    |batch| + 1 >= cfg.flushEvery || EndReached(cfg, height) || NearTarget(cfg, clock, height)
  }

  lemma HeightsFit(s: State)
    requires Placed(s) && s.phase.Streaming?
    ensures Distinct(s.batch) && forall e :: e in s.batch ==> e.height <= U64_MAX
  {
    PendingIsNew(s.db, s.batch, s.phase.next);
  }

  lemma StoredAfterFlush(s: State)
    requires s.batch != []
    ensures s.batch[|s.batch| - 1].height in Overlay(s.db, s.batch)
  {
    OverlayDomain(s.db, s.batch, |s.batch|);
  }

  // ---- judging a quiet stream --------------------------------------------------------------

  /** Whether a stream that stayed quiet for the whole timeout is torn down: the bound it should
      fetch up to has reached the next undelivered height. */
  predicate TornDown(published: Option<nat>, freshHead: Option<nat>, nextWanted: nat) {
    var fetchable := FetchableBound(published, freshHead);
    fetchable.Some? && nextWanted <= fetchable.value
  }

  /** In every reachable state the verdict is about the very block the stream owes: a quiet
      stream is torn down exactly when some attested reading covers that block and no head that
      was read, and recently enough, says the source has not reached it. */
  lemma QuietVerdictIsRight(
    w: World, s: State, steps: seq<Step>, readings: seq<Option<nat>>, published: Option<nat>,
    head: nat, seenAt: nat, now: nat, maxAge: nat)
    requires Stopped(s) && IsRun(w, s, steps)
    requires Exec(w, s, steps).phase.Streaming?
    requires published.None? <==> forall r :: r in readings ==> r.None?
    requires published.Some? ==> published in readings && forall r :: r in readings && r.Some? ==>
             r.value <= published.value
    ensures TornDown(published, HeadIfFresh(head, seenAt, now, maxAge), Exec(w, s, steps).Cursor()) <==>
            && (exists r :: r in readings && r.Some? && Exec(w, s, steps).phase.next <= r.value)
            && (head > 0 && now <= seenAt + maxAge ==> Exec(w, s, steps).phase.next <= head)
  {
    RunPlaced(w, s, steps);
  }
}
