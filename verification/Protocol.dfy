/** The archiver as a protocol: every step the process, the source chain and a crash can take. */
module Protocol {
  import opened Types
  import opened StoreSpec
  import opened Gaps
  import opened SourceChain
  import opened Anchor
  import opened ForkPoint

  /** Whether this run fills gaps first, and up to where. */
  datatype Fill = NoFill | Fill(from: nat, end: Option<nat>)

  datatype Phase =
    | Down                          // no process, or one that has given up
    | Starting(fill: Fill)          // anchor checked, filling gaps, stream not yet connected
    | Streaming(next: nat)          // the root stream will deliver `next`
    | Reconnecting(resumeFrom: nat) // stream dead, pending batch written

  /** The source chain, the database, what the main loop keeps in memory, and the earlier
      database versions: a crash may lose any number of the most recent writes. */
  datatype State = State(
    phase: Phase,
    chain: seq<Header>,
    db: Db,
    history: set<Db>,
    batch: seq<Entry>,
    startHeight: nat,
    lastHeight: Option<nat>)
  {
    /** Between an anchor check and the end of its session. */
    predicate Live() { phase.Starting? || phase.Streaming? }

    ghost predicate Holds(h: nat) { h in db || h in HeightsOf(batch) }

    /** The next undelivered height, as the main loop computes it. */
    function Cursor(): nat { if lastHeight.Some? then lastHeight.value + 1 else startHeight }
  }

  datatype Step =
    | SourceMoves(to: seq<Header>)
    | Startup(configStart: nat, fill: Fill, maxDepth: nat, rpc: Rpc, outcome: Outcome)
    | GapWrite(first: nat, count: nat)
    | Connect
    | Item(flush: bool)
    | Die
    | Reconnect(maxDepth: nat, rpc: Rpc, outcome: Outcome)
    | Stop
    | Crash(recovered: Db)

  /** Entries of `count` consecutive heights of `c`. */
  function Stretch(w: World, c: seq<Header>, first: nat, count: nat): (r: seq<Entry>)
    requires first + count <= |c|
    ensures |r| == count
    ensures forall i :: 0 <= i < count ==> r[i] == Delivered(w, c, first + i)
  {
    if count == 0 then [] else Stretch(w, c, first, count - 1) + [Delivered(w, c, first + count - 1)]
  }

  /** `first..first + count` is a missing stretch of the fill window that starts where a gap
      stream starts or continues: at the low end of the window or right above a stored height. */
  ghost predicate Fillable(db: Db, fill: Fill, first: nat, count: nat) {
    && fill.Fill?
    && var window := Window(db, Some(fill.from), fill.end);
    && window.Some? && window.value.0 <= first && first + count - 1 <= window.value.1
    && (forall h :: first <= h < first + count ==> h !in db)
    && (first == window.value.0 || first - 1 in db)
  }

  ghost predicate Enabled(w: World, s: State, step: Step) {
    match step
    case SourceMoves(to) =>
      // Between sessions the source may reorganise at will; during one it keeps what was delivered.
      && IsChain(w, to)
      && (s.Live() ==> forall h: nat :: s.Holds(h) && h < |s.chain| ==> h < |to| && to[h] == s.chain[h])
    case Startup(_, _, maxDepth, rpc, outcome) =>
      s.phase.Down? && Confirmed(w, s.chain, rpc, outcome) && Explains(s.db, maxDepth, rpc, outcome)
    case GapWrite(first, count) =>
      s.phase.Starting? && first + count <= |s.chain| && Fillable(s.db, s.phase.fill, first, count)
    case Connect => s.phase.Starting? && (s.phase.fill.Fill? ==> s.phase.fill.end.None?)
    case Item(_) => s.phase.Streaming? && s.phase.next < |s.chain|
    case Die => s.phase.Streaming?
    case Reconnect(maxDepth, rpc, outcome) =>
      s.phase.Reconnecting? && Confirmed(w, s.chain, rpc, outcome) && Explains(s.db, maxDepth, rpc, outcome)
    case Stop => !s.phase.Down?
    case Crash(to) => to == s.db || to in s.history
  }

  /** `put_roots` of the pending batch; a rejected batch ends the process. */
  function Flush(s: State): State {
    if s.batch == [] then s
    else if Accepts(s.db, s.batch) then
      s.(db := Overlay(s.db, s.batch), history := s.history + {s.db}, batch := [])
    else s.(phase := Down, batch := [])
  }

  function Truncated(s: State, o: Outcome): State {
    if o.Reanchored? then s.(db := AfterReconcile(s.db, o), history := s.history + {s.db}) else s
  }

  function AfterStartup(s: State, configStart: nat, fill: Fill, o: Outcome): State {
    if !o.Ok() then s
    else
      Truncated(s, o).(
        phase := Starting(fill),
        startHeight := if o.ResumeFrom().Some? then o.ResumeFrom().value else configStart,
        lastHeight := None)
  }

  function AfterItem(w: World, s: State, flush: bool): State
    requires s.phase.Streaming? && s.phase.next < |s.chain|
  {
    var s' := s.(
      phase := Streaming(s.phase.next + 1),
      lastHeight := Some(s.phase.next),
      batch := s.batch + [Delivered(w, s.chain, s.phase.next)]);
    if flush then Flush(s') else s'
  }

  function AfterDie(s: State): State {
    if Flush(s).phase.Down? then Flush(s) else Flush(s).(phase := Reconnecting(s.Cursor()))
  }

  function AfterReconnect(s: State, o: Outcome): State
    requires s.phase.Reconnecting?
  {
    match o
    case Reanchored(t, _) => Truncated(s, o).(phase := Streaming(WrappingInc(t)), lastHeight := Some(t))
    case AnchorMismatch(_, _, _) => s.(phase := Down)
    case RpcFailed(_) => s
    case _ => s.(phase := Streaming(if o.ResumeFrom().Some? then o.ResumeFrom().value else s.phase.resumeFrom))
  }

  function Apply(w: World, s: State, step: Step): State
    requires Enabled(w, s, step)
  {
    match step
    case SourceMoves(to) => s.(chain := to)
    case Startup(configStart, fill, _, _, outcome) => AfterStartup(s, configStart, fill, outcome)
    case GapWrite(first, count) =>
      Flush(s.(batch := Stretch(w, s.chain, first, count)))
    case Connect => s.(phase := Streaming(s.startHeight))
    case Item(flush) => AfterItem(w, s, flush)
    case Die => AfterDie(s)
    case Reconnect(_, _, outcome) => AfterReconnect(s, outcome)
    case Stop => Flush(s).(phase := Down)
    case Crash(to) => s.(phase := Down, batch := [], db := to)
  }

  ghost predicate IsRun(w: World, s: State, steps: seq<Step>)
    decreases |steps|
  {
    steps == [] || (Enabled(w, s, steps[0]) && IsRun(w, Apply(w, s, steps[0]), steps[1..]))
  }

  function Exec(w: World, s: State, steps: seq<Step>): State
    requires IsRun(w, s, steps)
    decreases |steps|
  {
    if steps == [] then s else Exec(w, Apply(w, s, steps[0]), steps[1..])
  }
}
