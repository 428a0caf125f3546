/** Readiness: what `/ready` says, as a function of everything that was ever reported. */
module HealthModule {
  import opened Types

  datatype MatureTarget = Unknown | NothingMature | Height(height: nat)

  /** A report, with the clock reading where the report records it. */
  datatype Event =
    | SourceSet(chainId: nat)
    | HeadSeen(head: nat, at: nat)
    | TargetSet(target: MatureTarget)
    | Progress(height: nat, at: nat)
    | FlushOk(at: nat)
    | FlushFailed(error: string)
    | Reconnected

  datatype Reason = NoHandshake | NeverObserved | HeadStale | TargetUnknown | TooFarBehind | LastFlushFailed

  const NEVER: nat := U64_MAX
  const NOTHING_MATURE: nat := U64_MAX - 1

  // ---- what the history says ----------------------------------------------------------------------------

  /** Event `i` is the last of its kind. */
  ghost predicate LastHead(history: seq<Event>, i: nat) {
    i < |history| && history[i].HeadSeen? && forall j :: i < j < |history| ==> !history[j].HeadSeen?
  }

  ghost predicate LastTarget(history: seq<Event>, i: nat) {
    i < |history| && history[i].TargetSet? && forall j :: i < j < |history| ==> !history[j].TargetSet?
  }

  ghost predicate Handshaken(history: seq<Event>) {
    exists i :: 0 <= i < |history| && history[i].SourceSet?
  }

  /** The last head was seen no longer than `staleAfter` ago. */
  ghost predicate HeadFresh(history: seq<Event>, now: nat, staleAfter: nat) {
    exists i: nat :: LastHead(history, i) && now - history[i].at <= staleAfter
  }

  ghost predicate TargetKnown(history: seq<Event>) {
    exists i: nat :: LastTarget(history, i) && history[i].target != Unknown
  }

  /** The archive, whose last block is `latest`, lies at most `limit` blocks below `target`. The two
      topmost u64s are not heights here: a target there counts as the highest that is one. */
  ghost predicate KeepsUp(target: nat, latest: Option<nat>, limit: nat) {
    var archived := if latest.Some? then latest.value else 0;
    if target < NOTHING_MATURE then target <= archived + limit else NOTHING_MATURE - 1 <= archived + limit
  }

  /** The last reported target, if it was a height, is within the limit. */
  ghost predicate LagWithin(history: seq<Event>, latest: Option<nat>, limit: nat) {
    forall i: nat :: LastTarget(history, i) && history[i].target.Height? ==>
        KeepsUp(history[i].target.height, latest, limit)
  }

  /** Every failed flush was followed by a good one. */
  ghost predicate Durable(history: seq<Event>) {
    forall i :: 0 <= i < |history| && history[i].FlushFailed? ==> exists j :: i < j < |history| && history[j].FlushOk?
  }

  /** Ready, over any history of reports. */
  ghost predicate Ready(history: seq<Event>, now: nat, latest: Option<nat>, lagLimit: nat, staleAfter: nat) {
    && Handshaken(history) && HeadFresh(history, now, staleAfter) && TargetKnown(history)
    && LagWithin(history, latest, lagLimit) && Durable(history)
  }

  // ---- how the fields follow it ---------------------------------------------------------------------------

  /** A target as it is stored: two values at the top stand for "unknown" and "nothing mature". */
  function RawTarget(target: MatureTarget): nat {
    match target
    case Unknown => NEVER
    case NothingMature => NOTHING_MATURE
    case Height(h) => if h < NOTHING_MATURE - 1 then h else NOTHING_MATURE - 1
  }

  /** The fields of `Health` that readiness depends on. */
  datatype Fields = Fields(source: Option<nat>, head: nat, headAt: nat, target: nat, flushError: Option<string>)

  ghost predicate HeadMatches(history: seq<Event>, f: Fields) {
    if f.headAt == NEVER then forall i :: 0 <= i < |history| ==> !history[i].HeadSeen?
    else exists i: nat :: LastHead(history, i) && history[i] == HeadSeen(f.head, f.headAt)
  }

  ghost predicate TargetMatches(history: seq<Event>, f: Fields) {
    if f.target == NEVER then forall i: nat :: LastTarget(history, i) ==> history[i].target == Unknown
    else exists i: nat :: LastTarget(history, i) && f.target == RawTarget(history[i].target)
  }

  /** The fields say what the history says. */
  ghost predicate Matches(history: seq<Event>, f: Fields) {
    var holds :=
      && (f.source.Some? <==> Handshaken(history)) && HeadMatches(history, f) && TargetMatches(history, f)
      && (f.flushError.None? <==> Durable(history));
    holds
  }

  /** Numbers are u64s, and the clock has not reached the sentinel. */
  ghost predicate EventOk(e: Event) {
    && (e.HeadSeen? ==> e.at < NEVER)
    && (e.TargetSet? && e.target.Height? ==> e.target.height <= U64_MAX)
  }

  function Record(f: Fields, e: Event): Fields {
    match e
    case SourceSet(id) => if f.source.None? then f.(source := Some(id)) else f
    case HeadSeen(head, at) => f.(head := head, headAt := at)
    case TargetSet(target) => f.(target := RawTarget(target))
    case FlushOk(_) => f.(flushError := None)
    case FlushFailed(error) => f.(flushError := Some(error))
    case _ => f
  }

  lemma HeadStep(history: seq<Event>, f: Fields, e: Event)
    requires HeadMatches(history, f) && EventOk(e)
    ensures HeadMatches(history + [e], Record(f, e))
  {
    var h := history + [e];
    if e.HeadSeen? {
      assert LastHead(h, |history|);
    } else if f.headAt != NEVER {
      var i: nat :| LastHead(history, i) && history[i] == HeadSeen(f.head, f.headAt);
      assert LastHead(h, i);
    }
  }

  lemma TargetStep(history: seq<Event>, f: Fields, e: Event)
    requires TargetMatches(history, f) && EventOk(e)
    ensures TargetMatches(history + [e], Record(f, e))
  {
    var h := history + [e];
    if e.TargetSet? {
      assert LastTarget(h, |history|);
    } else if f.target != NEVER {
      var i: nat :| LastTarget(history, i) && f.target == RawTarget(history[i].target);
      assert LastTarget(h, i);
    } else {
      forall i: nat | LastTarget(h, i) ensures h[i].target == Unknown {
        forall j | i < j < |history| ensures !history[j].TargetSet? { assert h[j] == history[j]; }
        assert LastTarget(history, i);
      }
    }
  }

  lemma FlushStep(history: seq<Event>, f: Fields, e: Event)
    requires f.flushError.None? <==> Durable(history)
    ensures Record(f, e).flushError.None? <==> Durable(history + [e])
  {
    var h := history + [e];
    if e.FlushOk? {
      assert h[|history|].FlushOk?;
    } else if e.FlushFailed? {
      assert h[|history|].FlushFailed?;
    } else if Durable(history) {
      forall i | 0 <= i < |h| && h[i].FlushFailed? ensures exists j :: i < j < |h| && h[j].FlushOk? {
        var j :| i < j < |history| && history[j].FlushOk?;
        assert h[j].FlushOk?;
      }
    } else {
      var i :| 0 <= i < |history| && history[i].FlushFailed? && forall j :: i < j < |history| ==> !history[j].FlushOk?;
      assert h[i].FlushFailed?;
    }
  }

  /** Each report keeps the fields in step with the history. */
  lemma RecordStep(history: seq<Event>, f: Fields, e: Event)
    requires Matches(history, f) && EventOk(e)
    ensures Matches(history + [e], Record(f, e))
  {
    HeadStep(history, f, e);
    TargetStep(history, f, e);
    FlushStep(history, f, e);
    var h := history + [e];
    if Handshaken(history) {
      var i :| 0 <= i < |history| && history[i].SourceSet?;
      assert h[i].SourceSet?;
    }
    if e.SourceSet? { assert h[|history|].SourceSet?; }
  }

  // ---- the verdict ----------------------------------------------------------------------------------------

  function Age(now: nat, at: nat): nat {
    if now > at then now - at else 0
  }

  /** Blocks missing up to `target`. */
  function Lag(target: nat, latest: Option<nat>): nat {
    match latest
    case Some(l) => if target > l then target - l else 0
    case None => target
  }

  /** Known target height, if it is one. */
  function TargetHeight(f: Fields): Option<nat> {
    if f.target == NEVER || f.target == NOTHING_MATURE then None else Some(f.target)
  }

  /** No reason against readiness. */
  predicate NoReason(f: Fields, now: nat, latest: Option<nat>, lagLimit: nat, staleAfter: nat) {
    && f.source.Some?
    && f.headAt != NEVER && Age(now, f.headAt) <= staleAfter
    && f.target != NEVER
    && (TargetHeight(f).Some? ==> Lag(TargetHeight(f).value, latest) <= lagLimit)
    && f.flushError.None?
  }

  lemma HeadVerdict(history: seq<Event>, f: Fields, now: nat, staleAfter: nat)
    requires HeadMatches(history, f)
    ensures HeadFresh(history, now, staleAfter) <==> f.headAt != NEVER && Age(now, f.headAt) <= staleAfter
  {
  }

  lemma OneLastTarget(history: seq<Event>, i: nat, j: nat)
    requires LastTarget(history, i) && LastTarget(history, j)
    ensures i == j
  {
  }

  lemma TargetVerdict(history: seq<Event>, f: Fields, latest: Option<nat>, lagLimit: nat)
    requires TargetMatches(history, f)
    ensures TargetKnown(history) <==> f.target != NEVER
    ensures LagWithin(history, latest, lagLimit) <==>
            (TargetHeight(f).Some? ==> Lag(TargetHeight(f).value, latest) <= lagLimit)
  {
    if f.target != NEVER {
      var i: nat :| LastTarget(history, i) && f.target == RawTarget(history[i].target);
      forall j: nat | LastTarget(history, j) ensures j == i { OneLastTarget(history, i, j); }
    }
  }

  /** The verdict from the fields is the verdict from the history. */
  lemma ReadyIff(history: seq<Event>, f: Fields, now: nat, latest: Option<nat>, lagLimit: nat, staleAfter: nat)
    requires Matches(history, f)
    ensures NoReason(f, now, latest, lagLimit, staleAfter) <==> Ready(history, now, latest, lagLimit, staleAfter)
  {
    HeadVerdict(history, f, now, staleAfter);
    TargetVerdict(history, f, latest, lagLimit);
  }

  class Health {
    const lagLimit: nat
    const staleAfter: nat
    var source: Option<nat>
    var sourceHead: nat
    var sourceHeadAt: nat
    var matureTarget: nat
    var lastProgressHeight: nat
    var lastProgressAt: nat
    var lastFlushOkAt: nat
    var lastFlushError: Option<string>
    var flushErrors: nat
    var reconnects: nat
    ghost var history: seq<Event>

    ghost function View(): Fields
      reads this
    {
      Fields(source, sourceHead, sourceHeadAt, matureTarget, lastFlushError)
    }

    ghost predicate Valid()
      reads this
    {
      Matches(history, View())
    }

    constructor (lagLimit: nat, staleAfter: nat)
      ensures Valid() && history == [] && this.lagLimit == lagLimit && this.staleAfter == staleAfter
    {
      this.lagLimit, this.staleAfter := lagLimit, staleAfter;
      source, sourceHead, sourceHeadAt, matureTarget := None, 0, NEVER, NEVER;
      lastProgressHeight, lastProgressAt, lastFlushOkAt := 0, NEVER, NEVER;
      lastFlushError, flushErrors, reconnects := None, 0, 0;
      history := [];
    }

    method SetSource(chainId: nat)
      requires Valid()
      modifies this
      ensures Valid() && history == old(history) + [SourceSet(chainId)]
      ensures source == if old(source).Some? then old(source) else Some(chainId)
    {
      RecordStep(history, View(), SourceSet(chainId));
      if source.None? {
        source := Some(chainId);
      }
      history := history + [SourceSet(chainId)];
    }

    method NoteHead(head: nat, now: nat)
      requires Valid() && now < NEVER
      modifies this
      ensures Valid() && history == old(history) + [HeadSeen(head, now)]
    {
      RecordStep(history, View(), HeadSeen(head, now));
      sourceHead := head;
      sourceHeadAt := now;
      history := history + [HeadSeen(head, now)];
    }

    method NoteMatureTarget(target: MatureTarget)
      requires Valid() && (target.Height? ==> target.height <= U64_MAX)
      modifies this
      ensures Valid() && history == old(history) + [TargetSet(target)]
    {
      RecordStep(history, View(), TargetSet(target));
      matureTarget := RawTarget(target);
      history := history + [TargetSet(target)];
    }

    method NoteProgress(height: nat, now: nat)
      requires Valid()
      modifies this
      ensures Valid() && history == old(history) + [Progress(height, now)]
      ensures lastProgressHeight == height && lastProgressAt == now && View() == old(View())
    {
      RecordStep(history, View(), Progress(height, now));
      lastProgressHeight := height;
      lastProgressAt := now;
      history := history + [Progress(height, now)];
    }

    method NoteFlushOk(now: nat)
      requires Valid()
      modifies this
      ensures Valid() && history == old(history) + [FlushOk(now)]
      ensures lastFlushOkAt == now && flushErrors == old(flushErrors)
    {
      RecordStep(history, View(), FlushOk(now));
      lastFlushOkAt := now;
      lastFlushError := None;
      history := history + [FlushOk(now)];
    }

    method NoteFlushError(error: string)
      requires Valid()
      modifies this
      ensures Valid() && history == old(history) + [FlushFailed(error)]
      ensures flushErrors == old(flushErrors) + 1 && lastFlushError == Some(error)
    {
      RecordStep(history, View(), FlushFailed(error));
      flushErrors := flushErrors + 1;
      lastFlushError := Some(error);
      history := history + [FlushFailed(error)];
    }

    method NoteReconnect()
      requires Valid()
      modifies this
      ensures Valid() && history == old(history) + [Reconnected] && reconnects == old(reconnects) + 1
    {
      RecordStep(history, View(), Reconnected);
      reconnects := reconnects + 1;
      history := history + [Reconnected];
    }

    /** Ready exactly when the history says so; otherwise the reasons say why. */
    method Snapshot(latest: Option<nat>, now: nat) returns (ready: bool, reasons: seq<Reason>)
      requires Valid()
      ensures ready <==> Ready(history, now, latest, lagLimit, staleAfter)
      ensures ready <==> reasons == []
      ensures NoHandshake in reasons <==> !Handshaken(history)
      ensures NeverObserved in reasons <==> forall i: nat :: !LastHead(history, i)
      ensures HeadStale in reasons <==> exists i: nat :: LastHead(history, i) && now - history[i].at > staleAfter
      ensures TargetUnknown in reasons <==> !TargetKnown(history) && NeverObserved !in reasons
      ensures TooFarBehind in reasons <==> !LagWithin(history, latest, lagLimit)
      ensures LastFlushFailed in reasons <==> !Durable(history)
    {
      ReadyIff(history, View(), now, latest, lagLimit, staleAfter);
      HeadVerdict(history, View(), now, staleAfter);
      TargetVerdict(history, View(), latest, lagLimit);
      reasons := [];
      if source.None? {
        reasons := reasons + [NoHandshake];
      }
      if sourceHeadAt == NEVER {
        reasons := reasons + [NeverObserved];
      } else if Age(now, sourceHeadAt) > staleAfter {
        reasons := reasons + [HeadStale];
      }
      if matureTarget == NEVER && sourceHeadAt != NEVER {
        reasons := reasons + [TargetUnknown];
      }
      if matureTarget != NEVER && matureTarget != NOTHING_MATURE && Lag(matureTarget, latest) > lagLimit {
        reasons := reasons + [TooFarBehind];
      }
      if lastFlushError.Some? {
        reasons := reasons + [LastFlushFailed];
      }
      ready := reasons == [];
    }
  }

  // ---- a live source -----------------------------------------------------------------------------------------

  /** One round of the head poller: how long it slept, and how long the sample took. */
  datatype Round = Round(slept: nat, took: nat)

  /** When the `n`-th sample was noted; the 0-th at `t0`. Nanoseconds. */
  function NotedAt(t0: nat, rounds: seq<Round>, n: nat): nat
    requires n <= |rounds|
  {
    if n == 0 then t0 else NotedAt(t0, rounds, n - 1) + rounds[n - 1].slept + rounds[n - 1].took
  }

  /** No round takes longer than `budget`. */
  ghost predicate InBudget(rounds: seq<Round>, budget: nat) {
    forall i :: 0 <= i < |rounds| ==> rounds[i].slept + rounds[i].took <= budget
  }

  /** Sample `n` is the last one noted by `now`. */
  ghost predicate LatestSample(t0: nat, rounds: seq<Round>, now: nat, n: nat) {
    n < |rounds| && NotedAt(t0, rounds, n) <= now < NotedAt(t0, rounds, n + 1)
  }

  /** The age `/ready` computes, on a clock that counts whole milliseconds. */
  function AgeMs(now: nat, at: nat): int {
    now / 1_000_000 - at / 1_000_000
  }

  /** Over every run of samples that all succeed, with rounds of at most `budget` nanoseconds, at
      every moment the last sample is at most `staleMs` milliseconds old. */
  ghost predicate NeverStale(budget: nat, staleMs: nat) {
    forall t0: nat, rounds: seq<Round>, now: nat, n: nat ::
      InBudget(rounds, budget) && LatestSample(t0, rounds, now, n) ==> AgeMs(now, NotedAt(t0, rounds, n)) <= staleMs
  }

  lemma SampleAge(t0: nat, rounds: seq<Round>, budget: nat, staleMs: nat, now: nat, n: nat)
    requires InBudget(rounds, budget) && LatestSample(t0, rounds, now, n) && budget <= staleMs * 1_000_000 + 1
    ensures AgeMs(now, NotedAt(t0, rounds, n)) <= staleMs
  {
    var at := NotedAt(t0, rounds, n);
    assert rounds[n].slept + rounds[n].took <= budget;
    assert now <= at + staleMs * 1_000_000;
  }

  /** A run with one round that uses up the budget, noted just before a millisecond ends. */
  lemma LateSample(budget: nat, staleMs: nat)
    requires budget > staleMs * 1_000_000 + 1
    ensures var t0, rounds, now := 999_999, [Round(budget, 0)], 999_999 + budget - 1;
            InBudget(rounds, budget) && LatestSample(t0, rounds, now, 0) && AgeMs(now, NotedAt(t0, rounds, 0)) > staleMs
  {
    var rounds := [Round(budget, 0)];
    assert NotedAt(999_999, rounds, 0) == 999_999;
    assert NotedAt(999_999, rounds, 1) == NotedAt(999_999, rounds, 0) + budget;
    assert 999_999 + budget - 1 >= (staleMs + 1) * 1_000_000;
  }

  /** The exact budget: a live source never reads stale if and only if every round fits into the
      window, to the nanosecond. */
  lemma LiveSourceNeverStale(budget: nat, staleMs: nat)
    ensures NeverStale(budget, staleMs) <==> budget <= staleMs * 1_000_000 + 1
  {
    if budget <= staleMs * 1_000_000 + 1 {
      forall t0: nat, rounds: seq<Round>, now: nat, n: nat
        | InBudget(rounds, budget) && LatestSample(t0, rounds, now, n)
        ensures AgeMs(now, NotedAt(t0, rounds, n)) <= staleMs
      {
        SampleAge(t0, rounds, budget, staleMs, now, n);
      }
    } else {
      LateSample(budget, staleMs);
    }
  }

  const SECOND: nat := 1_000_000_000

  /** What the startup check buys. A round sleeps for the poll interval and samples within the
      timeout, but a timer fires late by some `slack`. With the check, exactly the slack up to the
      margin it leaves is tolerated: a whole second at least, since the three are whole seconds.
      Without it, with a window of just the two, a timer late by two nanoseconds reads stale. */
  lemma StartupCheckToleratesSlack(poll: nat, timeout: nat, stale: nat, slack: nat)
    requires stale >= poll + timeout
    ensures NeverStale((poll + timeout) * SECOND + slack, stale * 1000) <==>
            slack <= (stale - poll - timeout) * SECOND + 1
    ensures stale > poll + timeout && slack <= SECOND ==> NeverStale((poll + timeout) * SECOND + slack, stale * 1000)
    ensures stale == poll + timeout && slack >= 2 ==> !NeverStale((poll + timeout) * SECOND + slack, stale * 1000)
  {
    LiveSourceNeverStale((poll + timeout) * SECOND + slack, stale * 1000);
  }

  /** In terms of the history: while samples succeed in time and timers are less than a second
      late, the head is fresh at every moment after the first sample. */
  lemma LiveSourceIsFresh(
    history: seq<Event>, i: nat, t0: nat, rounds: seq<Round>, poll: nat, timeout: nat, slack: nat, stale: nat, now: nat,
        n: nat)
    requires stale > poll + timeout && slack <= SECOND
    requires InBudget(rounds, (poll + timeout) * SECOND + slack) && LatestSample(t0, rounds, now, n)
    requires LastHead(history, i) && history[i].at == NotedAt(t0, rounds, n) / 1_000_000
    ensures HeadFresh(history, now / 1_000_000, stale * 1000)
  {
    SampleAge(t0, rounds, (poll + timeout) * SECOND + slack, stale * 1000, now, n);
  }
}
