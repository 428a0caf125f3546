/** Where an archive begins: over every run of a process configured with one start height, what it
    keeps begins with that height. */
module Beginning {
  import opened Types
  import opened Heights
  import opened StoreSpec
  import opened SourceChain
  import opened Anchor
  import opened Protocol
  import opened Placement
  import opened Continuity

  ghost predicate EmptyOrFrom(db: Db, c: nat) {
    db == map[] || IsFirst(db, c)
  }

  /** Store, earlier versions and whatever comes next all begin at `c`. */
  ghost predicate Begins(s: State, c: nat) {
    var holds := EmptyOrFrom(s.db, c) && (forall v :: v in s.history ==> EmptyOrFrom(v, c)) && PhaseBegins(s, c);
    holds
  }

  ghost predicate PhaseBegins(s: State, c: nat) {
    match s.phase
    case Down => true
    case Starting(fill) => (s.db == map[] ==> s.startHeight == c) && (fill.Fill? ==> fill.from == c)
    case Streaming(next) => s.db == map[] ==> next - |s.batch| == c
    case Reconnecting(resumeFrom) => s.db == map[] ==> resumeFrom == c
  }

  /** A start with `c` as its start height, for the stream and for the fill if there is one. */
  ghost predicate ConfiguredWith(step: Step, c: nat) {
    step.Startup? ==> step.configStart == c && (step.fill.Fill? ==> step.fill.from == c)
  }

  // ---- every step -----------------------------------------------------------------------------------

  lemma StretchBegins(db: Db, batch: seq<Entry>, base: nat, c: nat)
    requires EmptyOrFrom(db, c) && Consecutive(batch, base) && batch != []
    requires c <= base && (db == map[] ==> base == c)
    ensures IsFirst(Overlay(db, batch), c)
  {
    OverlayOfStretch(db, batch, base, c);
    forall h | h in Overlay(db, batch) ensures c <= h { OverlayOfStretch(db, batch, base, h); }
  }

  lemma CutBegins(db: Db, c: nat, t: nat)
    requires EmptyOrFrom(db, c) && t in db
    ensures IsFirst(Below(db, t), c)
  {
  }

  lemma ReconcileBegins(db: Db, maxDepth: nat, rpc: Rpc, o: Outcome, c: nat)
    requires EmptyOrFrom(db, c) && Explains(db, maxDepth, rpc, o) && o.Ok()
    ensures EmptyOrFrom(AfterReconcile(db, o), c)
    ensures AfterReconcile(db, o) == map[] <==> o == Empty
  {
    if o.Reanchored? { CutBegins(db, c, o.tip); }
  }

  lemma FlushBegins(s: State, c: nat)
    requires Placed(s) && Begins(s, c) && s.phase.Streaming?
    ensures Begins(Flush(s), c)
  {
    if s.batch != [] {
      FlushPlaced(s);
      StretchBegins(s.db, s.batch, s.phase.next - |s.batch|, c);
    }
  }

  lemma GapWriteBegins(w: World, s: State, first: nat, count: nat, c: nat)
    requires Placed(s) && Begins(s, c) && Enabled(w, s, GapWrite(first, count))
    ensures Begins(Apply(w, s, GapWrite(first, count)), c)
  {
    GapWritePlaced(w, s, first, count);
    if count > 0 {
      StretchIsNew(w, s.chain, s.db, first, count);
      StretchBegins(s.db, Stretch(w, s.chain, first, count), first, c);
    }
  }

  lemma StepBegins(w: World, s: State, step: Step, c: nat)
    requires Placed(s) && Begins(s, c) && Enabled(w, s, step) && ConfiguredWith(step, c)
    ensures Begins(Apply(w, s, step), c)
  {
    match step
    case SourceMoves(_) =>
    case Startup(_, _, maxDepth, rpc, o) => if o.Ok() { ReconcileBegins(s.db, maxDepth, rpc, o, c); }
    case GapWrite(first, count) => GapWriteBegins(w, s, first, count, c);
    case Connect =>
    case Item(flush) =>
      ItemPlaced(w, s);
      if flush { FlushBegins(AfterItem(w, s, false), c); }
    case Die => FlushBegins(s, c);
    case Reconnect(maxDepth, rpc, o) => if o.Ok() { ReconcileBegins(s.db, maxDepth, rpc, o, c); }
    case Stop => if s.phase.Streaming? { FlushBegins(s, c); }
    case Crash(_) =>
  }

  // ---- every run --------------------------------------------------------------------------------------

  ghost predicate AllConfiguredWith(steps: seq<Step>, c: nat) {
    forall step :: step in steps ==> ConfiguredWith(step, c)
  }

  lemma {:induction false} RunBegins(w: World, s: State, steps: seq<Step>, c: nat)
    requires Placed(s) && Begins(s, c) && IsRun(w, s, steps) && AllConfiguredWith(steps, c)
    ensures Begins(Exec(w, s, steps), c) && FillsMeet(w, s, steps)
    decreases |steps|
  {
    if steps != [] {
      var step := steps[0];
      StepPlaced(w, s, step);
      StepBegins(w, s, step, c);
      if step.Startup? && step.outcome.Ok() { ReconcileBegins(s.db, step.maxDepth, step.rpc, step.outcome, c); }
      RunBegins(w, Apply(w, s, step), steps[1..], c);
    }
  }

  /** An archive that is started with the height `c`, on an empty store or one that has no gaps and
      begins there, holds nothing below `c` and no gap above it, through every run: its store is
      empty or one interval from `c` on, and while it streams or reconnects, store and pending batch
      together are exactly the heights from `c` to the last delivered one. */
  lemma ArchiveIsOneInterval(w: World, s: State, steps: seq<Step>, c: nat)
    requires Stopped(s) && Contiguous(s.db) && EmptyOrFrom(s.db, c)
    requires IsRun(w, s, steps) && AllConfiguredWith(steps, c)
    ensures var r := Exec(w, s, steps);
            && Contiguous(r.db) && EmptyOrFrom(r.db, c)
            && (r.phase.Streaming? || r.phase.Reconnecting? ==>
               c <= r.Cursor() && forall h: nat :: r.Holds(h) <==> c <= h < r.Cursor())
  {
    RunBegins(w, s, steps, c);
    RunPlaced(w, s, steps);
    MeetingFillsTouch(w, s, steps);
    NoNewGaps(w, s, steps);
    var r := Exec(w, s, steps);
    if r.phase.Streaming? || r.phase.Reconnecting? { HeldFromStart(r, c); }
  }

  lemma HeldFromStart(r: State, c: nat)
    requires Placed(r) && Begins(r, c) && UpToDate(r) && (r.phase.Streaming? || r.phase.Reconnecting?)
    ensures c <= r.Cursor() && forall h: nat :: r.Holds(h) <==> c <= h < r.Cursor()
  {
    var n := |r.batch|;
    if n > 0 {
      assert r.batch[0].height == r.Cursor() - n;
      HeightsToIff(r.batch, n, r.Cursor() - n);
    }
    forall h: nat | r.Holds(h) ensures c <= h { HeightsToIff(r.batch, n, h); }
    assert c < r.Cursor() ==> r.Holds(c);
  }
}
