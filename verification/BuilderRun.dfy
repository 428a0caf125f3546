/** The whole builder run: what it sends, for every accepted configuration and every source. */
module BuilderRun {
  import opened Types
  import opened CheckpointConfig
  import opened DigestChain
  import opened CheckpointBuilder

  // ---- the full output -------------------------------------------------------------------------

  /** A range its interval divides without rest. */
  ghost predicate Even(r: CheckpointRange) {
    r.heightStart <= r.heightEnd && r.interval > 0 && Rest(Blocks(r), r.interval) == 0
  }

  /** From index `i` on, regular ranges that follow one another from height `next` on. */
  ghost predicate Chained(ranges: seq<RangeType>, i: nat, next: nat)
    decreases |ranges| - i
  {
    i < |ranges| ==>
      && ranges[i].Regular? && Even(ranges[i].range) && ranges[i].range.heightStart == next
      && Chained(ranges, i + 1, ranges[i].range.heightEnd + 1)
  }

  ghost function RowsOfRange(f: DigestFn, roots: Roots, anchor: Checkpoint, r: CheckpointRange): seq<Checkpoint>
    requires anchor.block < r.heightStart <= r.heightEnd && r.interval > 0
  {
    Rows(f, roots, anchor, r.heightStart, r.interval, Chunks(Blocks(r), r.interval))
  }

  /** The rows of the ranges from index `i` on. */
  ghost function RowsOf(f: DigestFn, roots: Roots, anchor: Checkpoint, ranges: seq<RangeType>, i: nat,
      next: nat): seq<Checkpoint>
    requires anchor.block < next && Chained(ranges, i, next)
    decreases |ranges| - i
  {
    if i >= |ranges| then []
    else
      RowsOfRange(f, roots, anchor, ranges[i].range)
      + RowsOf(f, roots, anchor, ranges, i + 1, ranges[i].range.heightEnd + 1)
  }

  /** The checkpoint everything is chained from. */
  ghost function Anchor(f: DigestFn, roots: Roots, cfg: Config): Checkpoint
    requires Usable(cfg)
  {
    match cfg.startingDigest
    case Some(d) => Checkpoint(cfg.StartingBlock() - 1, d)
    case None => GenesisAnchor(f, roots, cfg.StartingBlock())
  }

  /** Index of the first regular range. */
  function Base(cfg: Config): nat
    requires cfg.ranges != []
  {
    if cfg.ranges[0].Genesis? then 1 else 0
  }

  lemma {:induction false} TailIsChained(ranges: seq<RangeType>, i: nat, next: nat)
    requires WellFormed(ranges) && i <= |ranges|
    requires i > 0 ==> next == ranges[i - 1].HeightEnd() + 1
    requires i == 0 ==> ranges[0].Regular? && next == ranges[0].HeightStart()
    ensures Chained(ranges, i, next)
    decreases |ranges| - i
  {
    if i < |ranges| {
      if i > 0 { assert Joined(ranges[i - 1], ranges[i]); }
      DividedIsEven(ranges[i].range);
      TailIsChained(ranges, i + 1, ranges[i].HeightEnd() + 1);
    }
  }

  lemma BodyIsChained(f: DigestFn, roots: Roots, cfg: Config)
    requires Usable(cfg)
    ensures Chained(cfg.ranges, Base(cfg), Anchor(f, roots, cfg).block + 1)
  {
    TailIsChained(cfg.ranges, Base(cfg), Anchor(f, roots, cfg).block + 1);
  }

  /** Everything the builder sends when nothing goes wrong. */
  ghost function FullRows(f: DigestFn, roots: Roots, cfg: Config): seq<Checkpoint>
    requires Usable(cfg)
  {
    BodyIsChained(f, roots, cfg);
    (if cfg.ranges[0].Genesis? then [Anchor(f, roots, cfg)] else [])
    + RowsOf(f, roots, Anchor(f, roots, cfg), cfg.ranges, Base(cfg), Anchor(f, roots, cfg).block + 1)
  }

  // ---- rows from a nearer anchor -----------------------------------------------------------------

  lemma {:induction false} SameRowsFromNearer(f: DigestFn, roots: Roots, anchor: Checkpoint, b: nat, start: nat,
      interval: nat, m: nat)
    requires anchor.block <= b < start
    ensures Rows(f, roots, Row(f, roots, anchor, b), start, interval, m) == Rows(f, roots, anchor, start, interval, m)
  {
    if m > 0 {
      SameRowsFromNearer(f, roots, anchor, b, start, interval, m - 1);
      SampleHeightGrows(start, interval, m);
      ChainSplits(f, roots, anchor, b, SampleHeight(start, interval, m));
    }
  }

  lemma RowFromNearer(f: DigestFn, roots: Roots, anchor: Checkpoint, b: nat, h: nat)
    requires anchor.block <= b <= h
    ensures Row(f, roots, Row(f, roots, anchor, b), h) == Row(f, roots, anchor, h)
  {
    ChainSplits(f, roots, anchor, b, h);
  }

  lemma {:induction false} FewerRowsFirst(f: DigestFn, roots: Roots, anchor: Checkpoint, start: nat, interval: nat,
      m: nat, n: nat)
    requires anchor.block < start && m <= n
    ensures Rows(f, roots, anchor, start, interval, m) <= Rows(f, roots, anchor, start, interval, n)
    decreases n
  {
    if m < n { FewerRowsFirst(f, roots, anchor, start, interval, m, n - 1); }
  }

  // ---- sources -----------------------------------------------------------------------------------

  ghost predicate HonestSource(source: Source, roots: Roots) {
    && (forall h: nat :: source.get(h).Some? ==> source.get(h).value == RootInfo(h, roots(h)))
    && (forall a: nat, b: nat :: Honest(source.iter(a, b), roots, b))
  }

  /** The iterator ends early, without an error, exactly on an interval boundary. */
  ghost predicate Short(source: Source, r: CheckpointRange)
    requires r.heightStart <= r.heightEnd && r.interval > 0
  {
    var items := source.iter(r.heightStart, r.heightEnd);
    Good(items, r.heightStart, 0) == |items| < Blocks(r) && Rest(|items|, r.interval) == 0
  }

  /** The iterator yields every block of the range. */
  ghost predicate Complete(source: Source, r: CheckpointRange)
    requires r.heightStart <= r.heightEnd
  {
    var items := source.iter(r.heightStart, r.heightEnd);
    Good(items, r.heightStart, 0) == |items| == Blocks(r)
  }

  ghost predicate NeverShort(source: Source, ranges: seq<RangeType>, i: nat, next: nat)
    requires Chained(ranges, i, next)
    decreases |ranges| - i
  {
    i < |ranges| ==>
      !Short(source, ranges[i].range) && NeverShort(source, ranges, i + 1, ranges[i].range.heightEnd + 1)
  }

  ghost predicate AlwaysComplete(source: Source, ranges: seq<RangeType>, i: nat, next: nat)
    requires Chained(ranges, i, next)
    decreases |ranges| - i
  {
    i < |ranges| ==>
      Complete(source, ranges[i].range) && AlwaysComplete(source, ranges, i + 1, ranges[i].range.heightEnd + 1)
  }

  /** How many blocks of a range the iterator yields in order. */
  ghost function GoodOf(source: Source, r: CheckpointRange): nat {
    Good(source.iter(r.heightStart, r.heightEnd), r.heightStart, 0)
  }

  /** The iterator ends without an error, and on an interval boundary. */
  ghost predicate Ends(source: Source, r: CheckpointRange)
    requires r.interval > 0
  {
    GoodOf(source, r) == |source.iter(r.heightStart, r.heightEnd)| && Rest(GoodOf(source, r), r.interval) == 0
  }

  ghost predicate AlwaysEnds(source: Source, ranges: seq<RangeType>, i: nat, next: nat)
    requires Chained(ranges, i, next)
    decreases |ranges| - i
  {
    i < |ranges| ==> Ends(source, ranges[i].range) && AlwaysEnds(source, ranges, i + 1, ranges[i].range.heightEnd + 1)
  }

  /** How many rows the ranges from index `i` on give before the source fails. */
  ghost function RowsDue(source: Source, ranges: seq<RangeType>, i: nat, next: nat): nat
    requires Chained(ranges, i, next)
    decreases |ranges| - i
  {
    if i >= |ranges| then 0
    else
      var r := ranges[i].range;
      Chunks(GoodOf(source, r), r.interval)
      + if Ends(source, r) then RowsDue(source, ranges, i + 1, r.heightEnd + 1) else 0
  }

  /** How many rows they give up to and with the first range that is not complete. */
  ghost function RowsRight(source: Source, ranges: seq<RangeType>, i: nat, next: nat): nat
    requires Chained(ranges, i, next)
    decreases |ranges| - i
  {
    if i >= |ranges| then 0
    else
      var r := ranges[i].range;
      Chunks(GoodOf(source, r), r.interval)
      + if Complete(source, r) then RowsRight(source, ranges, i + 1, r.heightEnd + 1) else 0
  }

  lemma {:induction false} GoodHeights(items: seq<Item>, start: nat, i: nat, j: nat)
    requires i <= |items| && i <= j < Good(items, start, i)
    ensures items[j].Block? && items[j].info.height == start + j
    decreases |items| - i
  {
    if i < j { GoodHeights(items, start, i + 1, j); }
  }

  lemma GoodFitsRange(items: seq<Item>, roots: Roots, start: nat, hi: nat)
    requires Honest(items, roots, hi) && start <= hi + 1
    ensures Good(items, start, 0) <= hi + 1 - start
  {
    var good := Good(items, start, 0);
    if good > 0 { GoodHeights(items, start, 0, good - 1); }
  }

  // ---- one range -----------------------------------------------------------------------------------

  /** `start` is the lowest height from the start of the range on that lies above `latest`. */
  ghost predicate FirstAbove(latest: Checkpoint, r: CheckpointRange, start: nat) {
    && r.heightStart <= start && latest.block < start
    && (start == r.heightStart || start == latest.block + 1)
  }

  method ProcessRange(f: DigestFn, source: Source, r: CheckpointRange, latest0: Checkpoint, limit: nat,
      ghost roots: Roots)
    returns (sent: seq<Checkpoint>, latest: Checkpoint, ok: bool)
    requires r.interval > 0 && HonestSource(source, roots)
    ensures forall start: nat :: FirstAbove(latest0, r, start) ==>
              if start > r.heightEnd then ok && sent == [] && latest == latest0
              else Folded(f, roots, source.iter(start, r.heightEnd), start, r.interval, latest0, limit, sent, latest,
                          ok)
  {
    var start := if latest0.block >= r.heightStart then latest0.block + 1 else r.heightStart;
    if start > r.heightEnd {
      return [], latest0, true;
    }
    var items := source.iter(start, r.heightEnd);
    sent, latest, ok := FoldItems(f, items, start, r.interval, latest0, limit, roots, r.heightEnd);
  }

  /** A processed range of an accepted configuration, reached from the row right below it: its
      rows are the range's rows, as far as the items are good and the channel lasts. */
  lemma RangeFromRow(
    f: DigestFn, roots: Roots, anchor: Checkpoint, source: Source, r: CheckpointRange, limit: nat,
    sent: seq<Checkpoint>, latest: Checkpoint, ok: bool)
    requires anchor.block < r.heightStart && Even(r) && HonestSource(source, roots)
    requires Folded(f, roots, source.iter(r.heightStart, r.heightEnd), r.heightStart, r.interval,
                    Row(f, roots, anchor, r.heightStart - 1), limit, sent, latest, ok)
    ensures sent == Rows(f, roots, anchor, r.heightStart, r.interval, Min(limit, Chunks(GoodOf(source, r), r.interval)))
    ensures sent <= RowsOfRange(f, roots, anchor, r)
  {
    FoldedRows(f, roots, anchor, source, r, limit, sent, latest, ok);
    GoodOfFits(source, roots, r);
    NearerPrefix(f, roots, anchor, r, Min(limit, Chunks(GoodOf(source, r), r.interval)));
  }

  lemma FoldedRows(
    f: DigestFn, roots: Roots, anchor: Checkpoint, source: Source, r: CheckpointRange, limit: nat,
    sent: seq<Checkpoint>, latest: Checkpoint, ok: bool)
    requires anchor.block < r.heightStart && r.interval > 0
    requires Folded(f, roots, source.iter(r.heightStart, r.heightEnd), r.heightStart, r.interval,
                    Row(f, roots, anchor, r.heightStart - 1), limit, sent, latest, ok)
    ensures sent == Rows(f, roots, Row(f, roots, anchor, r.heightStart - 1), r.heightStart, r.interval,
                         Min(limit, Chunks(GoodOf(source, r), r.interval)))
  {
  }

  lemma NearerPrefix(f: DigestFn, roots: Roots, anchor: Checkpoint, r: CheckpointRange, m: nat)
    requires anchor.block < r.heightStart && Even(r) && m <= Chunks(Blocks(r), r.interval)
    ensures var rows := Rows(f, roots, Row(f, roots, anchor, r.heightStart - 1), r.heightStart, r.interval, m);
            rows == Rows(f, roots, anchor, r.heightStart, r.interval, m) && rows <= RowsOfRange(f, roots, anchor, r)
  {
    SameRowsFromNearer(f, roots, anchor, r.heightStart - 1, r.heightStart, r.interval, m);
    FewerRowsFirst(f, roots, anchor, r.heightStart, r.interval, m, Chunks(Blocks(r), r.interval));
  }

  lemma GoodOfFits(source: Source, roots: Roots, r: CheckpointRange)
    requires Even(r) && HonestSource(source, roots)
    ensures GoodOf(source, r) <= Blocks(r)
    ensures Chunks(GoodOf(source, r), r.interval) <= Chunks(Blocks(r), r.interval)
  {
    assert Honest(source.iter(r.heightStart, r.heightEnd), roots, r.heightEnd);
    GoodFitsRange(source.iter(r.heightStart, r.heightEnd), roots, r.heightStart, r.heightEnd);
    ChunksGrow(GoodOf(source, r), Blocks(r), r.interval);
  }

  /** A range that succeeds on a source that is not short is the whole range. */
  lemma WholeRange(
    f: DigestFn, roots: Roots, anchor: Checkpoint, source: Source, r: CheckpointRange, limit: nat,
    sent: seq<Checkpoint>, latest: Checkpoint, ok: bool)
    requires anchor.block < r.heightStart && Even(r) && HonestSource(source, roots)
    requires Folded(f, roots, source.iter(r.heightStart, r.heightEnd), r.heightStart, r.interval,
                    Row(f, roots, anchor, r.heightStart - 1), limit, sent, latest, ok)
    requires ok && !Short(source, r)
    ensures sent == RowsOfRange(f, roots, anchor, r) && latest == Row(f, roots, anchor, r.heightEnd)
  {
    RangeFromRow(f, roots, anchor, source, r, limit, sent, latest, ok);
    GoodOfFits(source, roots, r);
    RowFromNearer(f, roots, anchor, r.heightStart - 1, r.heightEnd);
  }

  /** On a complete source only the channel can stop a range. */
  lemma CompleteRange(
    f: DigestFn, roots: Roots, anchor: Checkpoint, source: Source, r: CheckpointRange, limit: nat,
    sent: seq<Checkpoint>, latest: Checkpoint, ok: bool)
    requires anchor.block < r.heightStart && Even(r) && HonestSource(source, roots)
    requires Folded(f, roots, source.iter(r.heightStart, r.heightEnd), r.heightStart, r.interval,
                    Row(f, roots, anchor, r.heightStart - 1), limit, sent, latest, ok)
    requires Complete(source, r)
    ensures !Short(source, r)
    ensures ok <==> |RowsOfRange(f, roots, anchor, r)| <= limit
    ensures !ok ==> |sent| == limit
  {
    RangeFromRow(f, roots, anchor, source, r, limit, sent, latest, ok);
    GoodOfFits(source, roots, r);
    var n := Chunks(Blocks(r), r.interval);
    RowsLength(f, roots, anchor, r.heightStart, r.interval, Min(limit, n));
    RowsLength(f, roots, anchor, r.heightStart, r.interval, n);
  }

  /** However the range is reached, no more rows are sent than it has, and fewer if the source
      falls short. */
  lemma RangeCounts(
    f: DigestFn, roots: Roots, anchor: Checkpoint, source: Source, r: CheckpointRange, latest0: Checkpoint, limit: nat,
    sent: seq<Checkpoint>, latest: Checkpoint, ok: bool)
    requires anchor.block < r.heightStart && Even(r) && HonestSource(source, roots)
    requires Folded(f, roots, source.iter(r.heightStart, r.heightEnd), r.heightStart, r.interval, latest0, limit, sent,
             latest, ok)
    requires latest0.block < r.heightStart
    ensures |sent| <= |RowsOfRange(f, roots, anchor, r)| && |sent| <= limit
    ensures ok && Short(source, r) ==> |sent| < |RowsOfRange(f, roots, anchor, r)|
    ensures ok ==> latest.block <= r.heightEnd
  {
    var items, start, k := source.iter(r.heightStart, r.heightEnd), r.heightStart, r.interval;
    var good := Good(items, start, 0);
    assert Honest(items, roots, r.heightEnd);
    GoodFitsRange(items, roots, start, r.heightEnd);
    ChunksGrow(good, Blocks(r), k);
    RowsLength(f, roots, Checkpoint(start - 1, latest0.digest), start, k, Min(limit, Chunks(good, k)));
    RowsLength(f, roots, anchor, start, k, Chunks(Blocks(r), k));
    if ok && Short(source, r) { FewerBlocksFewerChunks(good, Blocks(r), k); }
  }

  lemma {:induction false} FewerBlocksFewerChunks(n: nat, m: nat, k: nat)
    requires k > 0 && n < m && Rest(n, k) == 0 && Rest(m, k) == 0
    ensures Chunks(n, k) < Chunks(m, k)
    decreases m
  {
    if n >= k { FewerBlocksFewerChunks(n - k, m - k, k); }
  }

  lemma DividedIsEven(r: CheckpointRange)
    requires RangeOk(Regular(r))
    ensures Even(r)
  {
    ChunksIsDivision(Blocks(r), r.interval);
  }

  // ---- all ranges ---------------------------------------------------------------------------------

  /** Where the loop over the ranges stands before the range that starts at `next`: `done` are the
      rows due so far, `short` says whether some range so far fell short. */
  ghost predicate RunState(
    f: DigestFn, roots: Roots, anchor: Checkpoint, next: nat,
    done: seq<Checkpoint>, sent: seq<Checkpoint>, latest: Checkpoint, short: bool)
  {
    && anchor.block < next && latest.block < next
    && (if short then |sent| < |done| else sent == done && latest == Row(f, roots, anchor, next - 1))
  }

  /** One range succeeds. */
  lemma RangeSucceeds(
    f: DigestFn, roots: Roots, anchor: Checkpoint, source: Source, r: CheckpointRange,
    done: seq<Checkpoint>, sent: seq<Checkpoint>, latest: Checkpoint, short: bool, limit: nat, part: seq<Checkpoint>,
        latest': Checkpoint)
    requires HonestSource(source, roots) && Even(r)
    requires RunState(f, roots, anchor, r.heightStart, done, sent, latest, short)
    requires Folded(f, roots, source.iter(r.heightStart, r.heightEnd), r.heightStart, r.interval, latest, limit, part,
             latest', true)
    ensures |part| <= limit
    ensures RunState(f, roots, anchor, r.heightEnd + 1, done + RowsOfRange(f, roots, anchor, r), sent + part, latest',
            short || Short(source, r))
  {
    RangeCounts(f, roots, anchor, source, r, latest, limit, part, latest', true);
    if !short && !Short(source, r) {
      WholeRange(f, roots, anchor, source, r, limit, part, latest', true);
    }
  }

  /** What a run over the ranges from index `i` on sends: without a short range a prefix of the
      full output; if it succeeds, the full output exactly when no range is short; and on a
      complete source everything the channel takes. */
  ghost predicate RunResult(
    f: DigestFn, roots: Roots, anchor: Checkpoint, source: Source, ranges: seq<RangeType>, i: nat, next: nat,
        limit: nat,
    done: seq<Checkpoint>, short: bool, sent: seq<Checkpoint>, ok: bool)
    requires anchor.block < next && Chained(ranges, i, next)
  {
    var full := done + RowsOf(f, roots, anchor, ranges, i, next);
    var holds :=
      && |sent| <= limit
      && (!short && NeverShort(source, ranges, i, next) ==> sent <= full)
      && (ok ==> (sent == full <==> !short && NeverShort(source, ranges, i, next)))
      && (!short && AlwaysComplete(source, ranges, i, next) ==>
         |sent| == Min(limit, |full|) && (ok <==> |full| <= limit));
    holds
  }

  /** One range fails: the run ends there. */
  lemma RunFails(
    f: DigestFn, roots: Roots, anchor: Checkpoint, source: Source, ranges: seq<RangeType>, i: nat, limit: nat,
    done: seq<Checkpoint>, sent: seq<Checkpoint>, latest: Checkpoint, short: bool, part: seq<Checkpoint>,
        latest': Checkpoint)
    requires HonestSource(source, roots) && i < |ranges| && ranges[i].Regular? && |sent| <= limit
    requires Chained(ranges, i, ranges[i].range.heightStart)
    requires RunState(f, roots, anchor, ranges[i].range.heightStart, done, sent, latest, short)
    requires var r := ranges[i].range;
             Folded(f, roots, source.iter(r.heightStart, r.heightEnd), r.heightStart, r.interval, latest,
                 limit - |sent|, part, latest', false)
    ensures RunResult(f, roots, anchor, source, ranges, i, ranges[i].range.heightStart, limit, done, short, sent + part,
            false)
  {
    var r := ranges[i].range;
    RangeCounts(f, roots, anchor, source, r, latest, limit - |sent|, part, latest', false);
    if !short {
      RangeFromRow(f, roots, anchor, source, r, limit - |sent|, part, latest', false);
      if Complete(source, r) { CompleteRange(f, roots, anchor, source, r, limit - |sent|, part, latest', false); }
    }
  }

  /** What the loop over the ranges is given. */
  datatype Job = Job(
    f: DigestFn, roots: Roots, anchor: Checkpoint, source: Source, ranges: seq<RangeType>, base: nat, limit: nat)
  {
    ghost predicate Valid() {
      HonestSource(source, roots) && base <= |ranges| && Chained(ranges, base, anchor.block + 1)
    }
  }

  /** Where it stands before range `i`, which starts at `next`: the rows due so far, the rows sent,
      the latest checkpoint, and whether some range fell short. */
  datatype Position = Position(
    i: nat, next: nat, due: seq<Checkpoint>, sent: seq<Checkpoint>, latest: Checkpoint, short: bool)

  /** `RunState` in a run that began at range `base`: what is due, and what the source does, split
      into the part behind and the part ahead. */
  ghost predicate LoopState(job: Job, at: Position)
    requires job.Valid()
  {
    var first := job.anchor.block + 1;
    var holds :=
      && Chained(job.ranges, at.i, at.next) && |at.sent| <= job.limit
      && RunState(job.f, job.roots, job.anchor, at.next, at.due, at.sent, at.latest, at.short)
      && (RowsOf(job.f, job.roots, job.anchor, job.ranges, job.base, first)
          == at.due + RowsOf(job.f, job.roots, job.anchor, job.ranges, at.i, at.next))
      && (NeverShort(job.source, job.ranges, job.base, first)
          <==> !at.short && NeverShort(job.source, job.ranges, at.i, at.next))
      && (AlwaysComplete(job.source, job.ranges, job.base, first)
          ==> !at.short && AlwaysComplete(job.source, job.ranges, at.i, at.next));
    holds
  }

  /** What the whole loop sends. */
  ghost predicate JobResult(job: Job, sent: seq<Checkpoint>, ok: bool)
    requires job.Valid()
  {
    RunResult(job.f, job.roots, job.anchor, job.source, job.ranges, job.base, job.anchor.block + 1, job.limit, [],
        false, sent, ok)
  }

  /** The position after range `i` sent `part`. */
  ghost function Advance(job: Job, at: Position, part: seq<Checkpoint>, latest: Checkpoint): Position
    requires at.i < |job.ranges| && job.ranges[at.i].Regular? && Even(job.ranges[at.i].range)
    requires job.anchor.block < job.ranges[at.i].range.heightStart
  {
    var r := job.ranges[at.i].range;
    Position(at.i + 1, r.heightEnd + 1, at.due + RowsOfRange(job.f, job.roots, job.anchor, r), at.sent + part, latest,
             at.short || Short(job.source, r))
  }

  lemma LoopStep(job: Job, at: Position, part: seq<Checkpoint>, latest: Checkpoint)
    requires job.Valid() && LoopState(job, at) && at.i < |job.ranges| && |at.sent + part| <= job.limit
    requires job.ranges[at.i].Regular? && Even(job.ranges[at.i].range) &&
             job.anchor.block < job.ranges[at.i].range.heightStart
    requires var to := Advance(job, at, part, latest);
             RunState(job.f, job.roots, job.anchor, to.next, to.due, to.sent, to.latest, to.short)
    ensures LoopState(job, Advance(job, at, part, latest))
  {
    var r := job.ranges[at.i].range;
    var rows := RowsOfRange(job.f, job.roots, job.anchor, r);
    var tail := RowsOf(job.f, job.roots, job.anchor, job.ranges, at.i + 1, r.heightEnd + 1);
    assert at.due + rows + tail == at.due + RowsOf(job.f, job.roots, job.anchor, job.ranges, at.i, at.next);
    assert Complete(job.source, r) ==> !Short(job.source, r);
  }

  /** A result for the part ahead is a result for the whole. */
  lemma SinceBase(job: Job, at: Position, sent: seq<Checkpoint>, ok: bool)
    requires job.Valid() && LoopState(job, at)
    requires RunResult(job.f, job.roots, job.anchor, job.source, job.ranges, at.i, at.next, job.limit, at.due, at.short,
             sent, ok)
    ensures JobResult(job, sent, ok)
  {
    var full := RowsOf(job.f, job.roots, job.anchor, job.ranges, job.base, job.anchor.block + 1);
    assert [] + full == full;
  }

  function Start(job: Job): Position {
    Position(job.base, job.anchor.block + 1, [], [], job.anchor, false)
  }

  lemma RunStarts(job: Job)
    requires job.Valid()
    ensures LoopState(job, Start(job))
  {
  }

  /** Entering a range. */
  lemma EnterRange(job: Job, at: Position)
    requires job.Valid() && LoopState(job, at) && at.i < |job.ranges|
    ensures job.ranges[at.i].Regular? && Even(job.ranges[at.i].range) && |at.sent| <= job.limit
    ensures job.anchor.block < at.next == job.ranges[at.i].range.heightStart
    ensures FirstAbove(at.latest, job.ranges[at.i].range, at.next)
  {
  }

  /** The range that starts at `at.next` was folded from the latest checkpoint. */
  ghost predicate FoldedAt(job: Job, at: Position, part: seq<Checkpoint>, latest: Checkpoint, ok: bool)
    requires job.Valid() && LoopState(job, at) && at.i < |job.ranges|
  {
    EnterRange(job, at);
    var r := job.ranges[at.i].range;
    Folded(job.f, job.roots, job.source.iter(r.heightStart, r.heightEnd), r.heightStart, r.interval, at.latest,
           job.limit - |at.sent|, part, latest, ok)
  }

  lemma LeaveRange(job: Job, at: Position, part: seq<Checkpoint>, latest: Checkpoint)
    requires job.Valid() && LoopState(job, at) && at.i < |job.ranges| && FoldedAt(job, at, part, latest, true)
    ensures job.ranges[at.i].Regular? && Even(job.ranges[at.i].range) &&
            job.anchor.block < job.ranges[at.i].range.heightStart
    ensures LoopState(job, Advance(job, at, part, latest))
  {
    EnterRange(job, at);
    RangeSucceeds(job.f, job.roots, job.anchor, job.source, job.ranges[at.i].range, at.due, at.sent, at.latest,
        at.short,
                  job.limit - |at.sent|, part, latest);
    LoopStep(job, at, part, latest);
  }

  lemma BreakOff(job: Job, at: Position, part: seq<Checkpoint>, latest: Checkpoint)
    requires job.Valid() && LoopState(job, at) && at.i < |job.ranges| && FoldedAt(job, at, part, latest, false)
    ensures JobResult(job, at.sent + part, false)
  {
    EnterRange(job, at);
    RunFails(job.f, job.roots, job.anchor, job.source, job.ranges, at.i, job.limit, at.due, at.sent, at.latest,
        at.short,
             part, latest);
    SinceBase(job, at, at.sent + part, false);
  }

  lemma RunEnds(job: Job, at: Position)
    requires job.Valid() && LoopState(job, at) && at.i >= |job.ranges|
    ensures JobResult(job, at.sent, true)
  {
    assert at.due + RowsOf(job.f, job.roots, job.anchor, job.ranges, at.i, at.next) == at.due;
    assert RunResult(job.f, job.roots, job.anchor, job.source, job.ranges, at.i, at.next, job.limit, at.due, at.short,
        at.sent, true);
    SinceBase(job, at, at.sent, true);
  }

  // ---- how many rows are out ------------------------------------------------------------------------

  ghost predicate SameTo(a: seq<Checkpoint>, b: seq<Checkpoint>, k: nat) {
    k <= |a| && k <= |b| && a[..k] == b[..k]
  }

  ghost function AllRows(job: Job): seq<Checkpoint>
    requires job.Valid()
  {
    RowsOf(job.f, job.roots, job.anchor, job.ranges, job.base, job.anchor.block + 1)
  }

  /** On any source, failing, short or complete: as many rows are sent as it gives and the channel
      takes, and those up to the first incomplete range are rows of the full output. */
  ghost predicate RowsOut(job: Job, sent: seq<Checkpoint>, ok: bool)
    requires job.Valid()
  {
    var first := job.anchor.block + 1;
    var holds :=
      && |sent| == Min(job.limit, RowsDue(job.source, job.ranges, job.base, first))
      && (ok <==> AlwaysEnds(job.source, job.ranges, job.base, first)
                  && RowsDue(job.source, job.ranges, job.base, first) <= job.limit)
      && SameTo(sent, AllRows(job), Min(job.limit, RowsRight(job.source, job.ranges, job.base, first)));
    holds
  }

  /** What the ranges ahead still give. */
  ghost predicate DueState(job: Job, at: Position)
    requires job.Valid() && Chained(job.ranges, at.i, at.next)
  {
    var first := job.anchor.block + 1;
    var holds :=
      && RowsDue(job.source, job.ranges, job.base, first)
         == |at.sent| + RowsDue(job.source, job.ranges, at.i, at.next)
      && (AlwaysEnds(job.source, job.ranges, job.base, first)
          <==> AlwaysEnds(job.source, job.ranges, at.i, at.next));
    holds
  }

  /** What of it stays on the full output. */
  ghost predicate RightState(job: Job, at: Position)
    requires job.Valid() && Chained(job.ranges, at.i, at.next)
  {
    var right := RowsRight(job.source, job.ranges, job.base, job.anchor.block + 1);
    var holds :=
      if at.short then SameTo(at.sent, AllRows(job), right)
      else right == |at.sent| + RowsRight(job.source, job.ranges, at.i, at.next);
    holds
  }

  ghost predicate OutState(job: Job, at: Position)
    requires job.Valid() && Chained(job.ranges, at.i, at.next)
  {
    DueState(job, at) && RightState(job, at)
  }

  lemma PartCounts(job: Job, at: Position, part: seq<Checkpoint>, latest: Checkpoint, ok: bool)
    requires job.Valid() && LoopState(job, at) && at.i < |job.ranges| && FoldedAt(job, at, part, latest, ok)
    ensures job.ranges[at.i].Regular? && Even(job.ranges[at.i].range)
    ensures var r := job.ranges[at.i].range;
            var n := Chunks(GoodOf(job.source, r), r.interval);
            |part| == Min(job.limit - |at.sent|, n) && (ok <==> Ends(job.source, r) && n <= job.limit - |at.sent|)
  {
    EnterRange(job, at);
    var r := job.ranges[at.i].range;
    RowsLength(job.f, job.roots, Checkpoint(r.heightStart - 1, at.latest.digest), r.heightStart, r.interval,
        Min(job.limit - |at.sent|, Chunks(GoodOf(job.source, r), r.interval)));
  }

  /** While no range fell short, what is sent stays on the full output. */
  lemma PartIsRight(job: Job, at: Position, part: seq<Checkpoint>, latest: Checkpoint, ok: bool)
    requires job.Valid() && LoopState(job, at) && at.i < |job.ranges| && FoldedAt(job, at, part, latest, ok)
    requires !at.short
    ensures SameTo(at.sent + part, AllRows(job), |at.sent + part|)
  {
    EnterRange(job, at);
    var r := job.ranges[at.i].range;
    RangeFromRow(job.f, job.roots, job.anchor, job.source, r, job.limit - |at.sent|, part, latest, ok);
    var rows := RowsOfRange(job.f, job.roots, job.anchor, r);
    var tail := RowsOf(job.f, job.roots, job.anchor, job.ranges, at.i + 1, r.heightEnd + 1);
    PrefixOfSum(at.sent, part, rows, tail);
    assert AllRows(job) == at.sent + (rows + tail);
  }

  lemma PrefixOfSum(sent: seq<Checkpoint>, part: seq<Checkpoint>, rows: seq<Checkpoint>, tail: seq<Checkpoint>)
    requires part <= rows
    ensures SameTo(sent + part, sent + (rows + tail), |sent + part|)
  {
  }

  /** A range that ended is short or complete, and not both. */
  lemma EndsIff(job: Job, r: CheckpointRange)
    requires job.Valid() && Even(r)
    ensures Ends(job.source, r) <==> Short(job.source, r) || Complete(job.source, r)
    ensures !(Short(job.source, r) && Complete(job.source, r))
  {
    GoodOfFits(job.source, job.roots, r);
  }

  lemma DueStep(job: Job, at: Position, part: seq<Checkpoint>, latest: Checkpoint)
    requires job.Valid() && LoopState(job, at) && at.i < |job.ranges| && FoldedAt(job, at, part, latest, true)
    requires DueState(job, at)
    requires job.ranges[at.i].Regular? && Even(job.ranges[at.i].range) &&
             job.anchor.block < job.ranges[at.i].range.heightStart
    ensures Chained(job.ranges, at.i + 1, job.ranges[at.i].range.heightEnd + 1)
    ensures DueState(job, Advance(job, at, part, latest))
  {
    EnterRange(job, at);
    PartCounts(job, at, part, latest, true);
  }

  lemma RightStep(job: Job, at: Position, part: seq<Checkpoint>, latest: Checkpoint)
    requires job.Valid() && LoopState(job, at) && at.i < |job.ranges| && FoldedAt(job, at, part, latest, true)
    requires RightState(job, at)
    requires job.ranges[at.i].Regular? && Even(job.ranges[at.i].range) &&
             job.anchor.block < job.ranges[at.i].range.heightStart
    ensures Chained(job.ranges, at.i + 1, job.ranges[at.i].range.heightEnd + 1)
    ensures RightState(job, Advance(job, at, part, latest))
  {
    EnterRange(job, at);
    PartCounts(job, at, part, latest, true);
    EndsIff(job, job.ranges[at.i].range);
    if at.short {
      LongerStaysSame(at.sent, part, AllRows(job), RowsRight(job.source, job.ranges, job.base, job.anchor.block + 1));
    } else {
      PartIsRight(job, at, part, latest, true);
    }
  }

  lemma LongerStaysSame(a: seq<Checkpoint>, more: seq<Checkpoint>, b: seq<Checkpoint>, k: nat)
    requires SameTo(a, b, k)
    ensures SameTo(a + more, b, k)
  {
    assert (a + more)[..k] == a[..k];
  }

  lemma OutStops(job: Job, at: Position, part: seq<Checkpoint>, latest: Checkpoint)
    requires job.Valid() && LoopState(job, at) && at.i < |job.ranges| && FoldedAt(job, at, part, latest, false)
    requires OutState(job, at)
    ensures RowsOut(job, at.sent + part, false)
  {
    EnterRange(job, at);
    PartCounts(job, at, part, latest, false);
    EndsIff(job, job.ranges[at.i].range);
    if !at.short { PartIsRight(job, at, part, latest, false); }
  }

  lemma OutEnds(job: Job, at: Position)
    requires job.Valid() && LoopState(job, at) && at.i >= |job.ranges| && OutState(job, at)
    ensures RowsOut(job, at.sent, true)
  {
    assert at.due + RowsOf(job.f, job.roots, job.anchor, job.ranges, at.i, at.next) == at.due;
  }

  /** One round of the loop over the ranges. */
  method NextRange(f: DigestFn, source: Source, r: CheckpointRange, latest: Checkpoint, room: nat, ghost job: Job,
      ghost at: Position)
    returns (part: seq<Checkpoint>, latest': Checkpoint, ok: bool)
    requires job.Valid() && LoopState(job, at) && at.i < |job.ranges| && job.ranges[at.i] == Regular(r)
    requires f == job.f && source == job.source && latest == at.latest && room == job.limit - |at.sent|
    ensures FoldedAt(job, at, part, latest', ok)
  {
    EnterRange(job, at);
    part, latest', ok := ProcessRange(f, source, r, latest, room, job.roots);
  }

  /** The loop over the regular ranges, from the checkpoint right below the first. */
  method ProcessRanges(f: DigestFn, source: Source, ranges: seq<RangeType>, base: nat, anchor: Checkpoint, limit: nat,
      ghost roots: Roots)
    returns (sent: seq<Checkpoint>, ok: bool)
    requires HonestSource(source, roots) && base <= |ranges| && Chained(ranges, base, anchor.block + 1)
    ensures RunResult(f, roots, anchor, source, ranges, base, anchor.block + 1, limit, [], false, sent, ok)
    ensures RowsOut(Job(f, roots, anchor, source, ranges, base, limit), sent, ok)
  {
    ghost var job := Job(f, roots, anchor, source, ranges, base, limit);
    ghost var at := Start(job);
    RunStarts(job);
    var latest := anchor;
    sent, ok := [], true;
    var i := base;
    while i < |ranges|
      invariant base <= i <= |ranges| && ok
      invariant at.i == i && at.sent == sent && at.latest == latest && LoopState(job, at) && OutState(job, at)
    {
      EnterRange(job, at);
      var part, latest';
      part, latest', ok := NextRange(f, source, ranges[i].range, latest, limit - |sent|, job, at);
      sent := sent + part;
      if !ok {
        BreakOff(job, at, part, latest');
        OutStops(job, at, part, latest');
        return;
      }
      LeaveRange(job, at, part, latest');
      DueStep(job, at, part, latest');
      RightStep(job, at, part, latest');
      at := Advance(job, at, part, latest');
      latest, i := latest', i + 1;
    }
    RunEnds(job, at);
    OutEnds(job, at);
  }

  // ---- the whole run --------------------------------------------------------------------------------

  ghost predicate NoShortRange(f: DigestFn, roots: Roots, source: Source, cfg: Config)
    requires Usable(cfg)
  {
    BodyIsChained(f, roots, cfg);
    NeverShort(source, cfg.ranges, Base(cfg), Anchor(f, roots, cfg).block + 1)
  }

  ghost predicate CompleteSource(f: DigestFn, roots: Roots, source: Source, cfg: Config)
    requires Usable(cfg)
  {
    BodyIsChained(f, roots, cfg);
    && (cfg.ranges[0].Genesis? ==> source.get(cfg.StartingBlock()).Some?)
    && AlwaysComplete(source, cfg.ranges, Base(cfg), Anchor(f, roots, cfg).block + 1)
  }

  /** How many rows the source gives before it fails, the genesis row included. */
  ghost function GivenRows(f: DigestFn, roots: Roots, source: Source, cfg: Config): nat
    requires Usable(cfg)
  {
    BodyIsChained(f, roots, cfg);
    if cfg.ranges[0].Genesis? && source.get(cfg.StartingBlock()).None? then 0
    else Base(cfg) + RowsDue(source, cfg.ranges, Base(cfg), Anchor(f, roots, cfg).block + 1)
  }

  /** How many of them come before any block of a range is left out. */
  ghost function RightRows(f: DigestFn, roots: Roots, source: Source, cfg: Config): nat
    requires Usable(cfg)
  {
    BodyIsChained(f, roots, cfg);
    if cfg.ranges[0].Genesis? && source.get(cfg.StartingBlock()).None? then 0
    else Base(cfg) + RowsRight(source, cfg.ranges, Base(cfg), Anchor(f, roots, cfg).block + 1)
  }

  /** The source never fails: the genesis is there and every range ends on an interval boundary. */
  ghost predicate NeverFails(f: DigestFn, roots: Roots, source: Source, cfg: Config)
    requires Usable(cfg)
  {
    BodyIsChained(f, roots, cfg);
    && (cfg.ranges[0].Genesis? ==> source.get(cfg.StartingBlock()).Some?)
    && AlwaysEnds(source, cfg.ranges, Base(cfg), Anchor(f, roots, cfg).block + 1)
  }

  /** On any source the builder sends as many rows as the source gives and the channel takes, and it
      succeeds exactly if the source never fails and the channel takes all. */
  ghost predicate SendsWhatIsGiven(f: DigestFn, roots: Roots, source: Source, cfg: Config, limit: nat,
      sent: seq<Checkpoint>, ok: bool)
    requires Usable(cfg)
  {
    var holds :=
      && |sent| == Min(limit, GivenRows(f, roots, source, cfg))
      && (ok <==> NeverFails(f, roots, source, cfg) && GivenRows(f, roots, source, cfg) <= limit)
      && SameTo(sent, FullRows(f, roots, cfg), Min(limit, RightRows(f, roots, source, cfg)));
    holds
  }

  /** What the builder sends, whatever the source and the channel do. */
  ghost predicate BuilderResult(f: DigestFn, roots: Roots, source: Source, cfg: Config, limit: nat,
      sent: seq<Checkpoint>, ok: bool)
    requires Usable(cfg)
  {
    var full := FullRows(f, roots, cfg);
    && SendsWhatIsGiven(f, roots, source, cfg, limit, sent, ok)
    && (NoShortRange(f, roots, source, cfg) ==> sent <= full)
    && (ok ==> (sent == full <==> NoShortRange(f, roots, source, cfg)))
    && (CompleteSource(f, roots, source, cfg) ==> |sent| == Min(limit, |full|) && (ok <==> |full| <= limit))
  }

  lemma {:induction false} CompleteIsNotShort(source: Source, ranges: seq<RangeType>, i: nat, next: nat)
    requires Chained(ranges, i, next) && AlwaysComplete(source, ranges, i, next)
    ensures NeverShort(source, ranges, i, next)
    decreases |ranges| - i
  {
    if i < |ranges| { CompleteIsNotShort(source, ranges, i + 1, ranges[i].range.heightEnd + 1); }
  }

  lemma NothingSent(f: DigestFn, roots: Roots, source: Source, cfg: Config, limit: nat)
    requires Usable(cfg) && cfg.ranges[0].Genesis?
    requires limit == 0 || source.get(cfg.StartingBlock()).None?
    ensures BuilderResult(f, roots, source, cfg, limit, [], false)
  {
  }

  lemma GenesisIsGiven(f: DigestFn, roots: Roots, source: Source, cfg: Config, limit: nat, rest: seq<Checkpoint>,
      ok: bool)
    requires Usable(cfg) && cfg.ranges[0].Genesis? && limit > 0
    requires Chained(cfg.ranges, 1, Anchor(f, roots, cfg).block + 1)
    requires HonestSource(source, roots) && source.get(cfg.StartingBlock()).Some?
    requires RowsOut(Job(f, roots, Anchor(f, roots, cfg), source, cfg.ranges, 1, limit - 1), rest, ok)
    ensures SendsWhatIsGiven(f, roots, source, cfg, limit, [Anchor(f, roots, cfg)] + rest, ok)
  {
    var a := Anchor(f, roots, cfg);
    var rows := RowsOf(f, roots, a, cfg.ranges, 1, a.block + 1);
    OneMoreInFront(a, rest, rows, Min(limit - 1, RowsRight(source, cfg.ranges, 1, a.block + 1)));
  }

  lemma OneMoreInFront(row: Checkpoint, a: seq<Checkpoint>, b: seq<Checkpoint>, k: nat)
    requires SameTo(a, b, k)
    ensures SameTo([row] + a, [row] + b, k + 1)
  {
    assert ([row] + a)[..k + 1] == [row] + a[..k] && ([row] + b)[..k + 1] == [row] + b[..k];
  }

  lemma AfterGenesis(f: DigestFn, roots: Roots, source: Source, cfg: Config, limit: nat, rest: seq<Checkpoint>,
      ok: bool)
    requires Usable(cfg) && cfg.ranges[0].Genesis? && limit > 0
    requires Chained(cfg.ranges, 1, Anchor(f, roots, cfg).block + 1)
    requires RunResult(f, roots, Anchor(f, roots, cfg), source, cfg.ranges, 1, Anchor(f, roots, cfg).block + 1,
             limit - 1, [], false, rest, ok)
    requires HonestSource(source, roots) && source.get(cfg.StartingBlock()).Some?
    requires RowsOut(Job(f, roots, Anchor(f, roots, cfg), source, cfg.ranges, 1, limit - 1), rest, ok)
    ensures BuilderResult(f, roots, source, cfg, limit, [Anchor(f, roots, cfg)] + rest, ok)
  {
    GenesisIsGiven(f, roots, source, cfg, limit, rest, ok);
    var a := Anchor(f, roots, cfg);
    var rows := RowsOf(f, roots, a, cfg.ranges, 1, a.block + 1);
    assert [] + rows == rows && FullRows(f, roots, cfg) == [a] + rows;
    assert [a] + rest == [a] + rows ==> rest == rows by {
        assert ([a] + rest)[1..] == rest && ([a] + rows)[1..] == rows; }
  }

  lemma FromDigest(f: DigestFn, roots: Roots, source: Source, cfg: Config, limit: nat, rest: seq<Checkpoint>, ok: bool)
    requires Usable(cfg) && cfg.ranges[0].Regular?
    requires Chained(cfg.ranges, 0, Anchor(f, roots, cfg).block + 1)
    requires RunResult(f, roots, Anchor(f, roots, cfg), source, cfg.ranges, 0, Anchor(f, roots, cfg).block + 1, limit,
             [], false, rest, ok)
    requires HonestSource(source, roots)
    requires RowsOut(Job(f, roots, Anchor(f, roots, cfg), source, cfg.ranges, 0, limit), rest, ok)
    ensures BuilderResult(f, roots, source, cfg, limit, rest, ok)
  {
    var a := Anchor(f, roots, cfg);
    var rows := RowsOf(f, roots, a, cfg.ranges, 0, a.block + 1);
    assert [] + rows == rows == FullRows(f, roots, cfg);
  }

  /** The builder. `limit` is how many sends succeed before the channel closes or the run is
      cancelled. */
  method ProcessBlocks(f: DigestFn, source: Source, cfg: Config, limit: nat, ghost roots: Roots)
    returns (sent: seq<Checkpoint>, ok: bool)
    requires Usable(cfg) && HonestSource(source, roots)
    ensures BuilderResult(f, roots, source, cfg, limit, sent, ok)
  {
    BodyIsChained(f, roots, cfg);
    var startingBlock := cfg.StartingBlock();
    if cfg.startingDigest.Some? {
      var latest := Checkpoint(startingBlock - 1, cfg.startingDigest.value);
      sent, ok := ProcessRanges(f, source, cfg.ranges, 0, latest, limit, roots);
      FromDigest(f, roots, source, cfg, limit, sent, ok);
    } else {
      var genesis := source.get(startingBlock);
      if genesis.None? || limit == 0 {
        NothingSent(f, roots, source, cfg, limit);
        return [], false;
      }
      var latest := Checkpoint(genesis.value.height, f(genesis.value.height, genesis.value.root, None));
      var rest;
      rest, ok := ProcessRanges(f, source, cfg.ranges, 1, latest, limit - 1, roots);
      AfterGenesis(f, roots, source, cfg, limit, rest, ok);
      sent := [latest] + rest;
    }
  }

  // ---- division -----------------------------------------------------------------------------------

  lemma AtLeastOnce(x: int, k: int)
    requires x >= 1 && k >= 0
    ensures x * k >= k
  {
    assert x * k == (x - 1) * k + k;
  }

  lemma QuotientIsUnique(a: int, b: int, k: nat, r: nat, s: nat)
    requires r < k && s < k && a * k + r == b * k + s
    ensures a == b && r == s
  {
    assert (a - b) * k == s - r;
    if a > b { AtLeastOnce(a - b, k); }
    if a < b {
      assert (b - a) * k == r - s;
      AtLeastOnce(b - a, k);
    }
  }

  lemma {:induction false} ChunksAddUp(n: nat, k: nat)
    requires k > 0
    ensures Chunks(n, k) * k + Rest(n, k) == n
  {
    if n >= k {
      ChunksAddUp(n - k, k);
      assert Chunks(n, k) * k == Chunks(n - k, k) * k + k;
    }
  }

  lemma ChunksIsDivision(n: nat, k: nat)
    requires k > 0
    ensures Chunks(n, k) == n / k && Rest(n, k) == n % k
  {
    ChunksAddUp(n, k);
    assert n == (n / k) * k + n % k;
    QuotientIsUnique(Chunks(n, k), n / k, k, Rest(n, k), n % k);
  }
}
