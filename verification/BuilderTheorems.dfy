/** What the builder's output is, and what it is good for. */
module BuilderTheorems {
  import opened Types
  import opened CheckpointConfig
  import opened DigestChain
  import opened CheckpointBuilder
  import opened BuilderRun

  // ---- the rows are the plain chain, sampled -----------------------------------------------------

  /** A row of the plain chain at a height of `lo..=hi`. */
  ghost predicate OnPlainChain(f: DigestFn, roots: Roots, anchor: Checkpoint, row: Checkpoint, lo: nat, hi: int)
    requires anchor.block <= lo
  {
    lo <= row.block <= hi && row == Row(f, roots, anchor, row.block)
  }

  /** Rows of the plain chain at ascending heights of `lo..=hi`. */
  ghost predicate Sampled(f: DigestFn, roots: Roots, anchor: Checkpoint, rows: seq<Checkpoint>, lo: nat, hi: int)
    requires anchor.block <= lo
  {
    var holds :=
      && (forall j :: 0 <= j < |rows| ==> OnPlainChain(f, roots, anchor, rows[j], lo, hi))
      && (forall i, j :: 0 <= i < j < |rows| ==> rows[i].block < rows[j].block);
    holds
  }

  lemma {:induction false} RangeIsSampled(f: DigestFn, roots: Roots, anchor: Checkpoint, start: nat, k: nat, m: nat)
    requires anchor.block < start && k > 0
    ensures Sampled(f, roots, anchor, Rows(f, roots, anchor, start, k, m), start, SampleHeight(start, k, m))
    ensures m > 0 ==> Rows(f, roots, anchor, start, k, m) != []
                      && Rows(f, roots, anchor, start, k, m)[|Rows(f, roots, anchor, start, k, m)| - 1].block ==
                         SampleHeight(start, k, m)
  {
    if m > 0 {
      RangeIsSampled(f, roots, anchor, start, k, m - 1);
      SampleHeightGrows(start, k, m - 1);
    }
  }

  lemma SamplesEndTheRange(r: CheckpointRange)
    requires Even(r)
    ensures SampleHeight(r.heightStart, r.interval, Chunks(Blocks(r), r.interval)) == r.heightEnd
    ensures Chunks(Blocks(r), r.interval) > 0
  {
    SampleHeightIs(r.heightStart, r.interval, Chunks(Blocks(r), r.interval));
    ChunksAddUp(Blocks(r), r.interval);
  }

  lemma Concatenated(f: DigestFn, roots: Roots, anchor: Checkpoint, a: seq<Checkpoint>, b: seq<Checkpoint>, lo: nat,
      mid: nat, hi: int)
    requires anchor.block <= lo <= mid && mid <= hi + 1
    requires Sampled(f, roots, anchor, a, lo, mid - 1) && Sampled(f, roots, anchor, b, mid, hi)
    ensures Sampled(f, roots, anchor, a + b, lo, hi)
  {
  }

  /** The height after the last range. */
  ghost function EndOf(ranges: seq<RangeType>, i: nat, next: nat): nat
    requires Chained(ranges, i, next)
    decreases |ranges| - i
  {
    if i >= |ranges| then next else EndOf(ranges, i + 1, ranges[i].range.heightEnd + 1)
  }

  lemma {:induction false} EndIsAhead(ranges: seq<RangeType>, i: nat, next: nat)
    requires Chained(ranges, i, next)
    ensures EndOf(ranges, i, next) >= next
    ensures i < |ranges| ==> EndOf(ranges, i, next) == ranges[|ranges| - 1].HeightEnd() + 1
    decreases |ranges| - i
  {
    if i < |ranges| { EndIsAhead(ranges, i + 1, ranges[i].range.heightEnd + 1); }
  }

  lemma {:induction false} RowsAreSampled(f: DigestFn, roots: Roots, anchor: Checkpoint, ranges: seq<RangeType>, i: nat,
      next: nat)
    requires anchor.block < next && Chained(ranges, i, next)
    ensures Sampled(f, roots, anchor, RowsOf(f, roots, anchor, ranges, i, next), next, EndOf(ranges, i, next) - 1)
    ensures i < |ranges| ==>
              var rows := RowsOf(f, roots, anchor, ranges, i, next);
              rows != [] && rows[|rows| - 1].block == EndOf(ranges, i, next) - 1
    decreases |ranges| - i
  {
    if i < |ranges| {
      var r := ranges[i].range;
      RangeIsSampled(f, roots, anchor, r.heightStart, r.interval, Chunks(Blocks(r), r.interval));
      SamplesEndTheRange(r);
      RowsAreSampled(f, roots, anchor, ranges, i + 1, r.heightEnd + 1);
      EndIsAhead(ranges, i + 1, r.heightEnd + 1);
      Concatenated(f, roots, anchor, RowsOfRange(f, roots, anchor, r),
          RowsOf(f, roots, anchor, ranges, i + 1, r.heightEnd + 1),
                   next, r.heightEnd + 1, EndOf(ranges, i, next) - 1);
    }
  }

  /** The builder refines the plain chain: every row is the plain left-fold digest at its height,
      heights strictly ascend, and the last one is the end block. */
  lemma OutputIsThePlainChain(f: DigestFn, roots: Roots, cfg: Config)
    requires Usable(cfg)
    ensures var rows, a := FullRows(f, roots, cfg), Anchor(f, roots, cfg);
            && Sampled(f, roots, a, rows, a.block, cfg.EndBlock())
            && rows != [] && rows[|rows| - 1].block == cfg.EndBlock()
  {
    BodyIsChained(f, roots, cfg);
    var a, i := Anchor(f, roots, cfg), Base(cfg);
    RowsAreSampled(f, roots, a, cfg.ranges, i, a.block + 1);
    EndIsAhead(cfg.ranges, i, a.block + 1);
    if cfg.ranges[0].Genesis? {
      WithAnchor(f, roots, a, RowsOf(f, roots, a, cfg.ranges, i, a.block + 1), cfg.EndBlock());
    }
  }

  lemma WithAnchor(f: DigestFn, roots: Roots, anchor: Checkpoint, rows: seq<Checkpoint>, hi: nat)
    requires anchor.block <= hi && Sampled(f, roots, anchor, rows, anchor.block + 1, hi)
    ensures Sampled(f, roots, anchor, [anchor] + rows, anchor.block, hi)
  {
    assert OnPlainChain(f, roots, anchor, anchor, anchor.block, anchor.block);
    Concatenated(f, roots, anchor, [anchor], rows, anchor.block, anchor.block + 1, hi);
  }

  /** Number of rows a configuration announces. */
  function Announced(ranges: seq<RangeType>, i: nat): int
    decreases |ranges| - i
  {
    if i >= |ranges| then 0
    else
      (if ranges[i].Genesis? then 1
       else if ranges[i].range.heightStart <= ranges[i].range.heightEnd && ranges[i].range.interval > 0
       then Blocks(ranges[i].range) / ranges[i].range.interval
       else 0)
      + Announced(ranges, i + 1)
  }

  lemma {:induction false} RowsAreCounted(f: DigestFn, roots: Roots, anchor: Checkpoint, ranges: seq<RangeType>, i: nat,
      next: nat)
    requires anchor.block < next && Chained(ranges, i, next)
    ensures |RowsOf(f, roots, anchor, ranges, i, next)| == Announced(ranges, i)
    decreases |ranges| - i
  {
    if i < |ranges| {
      var r := ranges[i].range;
      RowsLength(f, roots, anchor, r.heightStart, r.interval, Chunks(Blocks(r), r.interval));
      ChunksIsDivision(Blocks(r), r.interval);
      RowsAreCounted(f, roots, anchor, ranges, i + 1, r.heightEnd + 1);
    }
  }

  /** One row per interval of every range, and one for the genesis. */
  lemma OutputIsCounted(f: DigestFn, roots: Roots, cfg: Config)
    requires Usable(cfg)
    ensures |FullRows(f, roots, cfg)| == Announced(cfg.ranges, 0)
  {
    BodyIsChained(f, roots, cfg);
    RowsAreCounted(f, roots, Anchor(f, roots, cfg), cfg.ranges, Base(cfg), Anchor(f, roots, cfg).block + 1);
  }

  /** Two configurations with one anchor agree at every height both sample, whatever their ranges
      and intervals. */
  lemma ConfigurationsAgree(f: DigestFn, roots: Roots, cfg: Config, cfg': Config, i: nat, j: nat)
    requires Usable(cfg) && Usable(cfg') && Anchor(f, roots, cfg) == Anchor(f, roots, cfg')
    requires i < |FullRows(f, roots, cfg)| && j < |FullRows(f, roots, cfg')|
    requires FullRows(f, roots, cfg)[i].block == FullRows(f, roots, cfg')[j].block
    ensures FullRows(f, roots, cfg)[i] == FullRows(f, roots, cfg')[j]
  {
    OutputIsThePlainChain(f, roots, cfg);
    OutputIsThePlainChain(f, roots, cfg');
  }

  /** A checkpoint binds what is below it: if two runs over different sources, from anchors at one
      height and with whatever ranges, emit the same row, their sources agree on every root from
      the anchor up to it, or the digest function has a collision there. */
  lemma CheckpointBindsRoots(f: DigestFn, roots: Roots, cfg: Config, roots': Roots, cfg': Config, i: nat, j: nat)
    requires Usable(cfg) && Usable(cfg') && Anchor(f, roots, cfg).block == Anchor(f, roots', cfg').block
    requires i < |FullRows(f, roots, cfg)| && j < |FullRows(f, roots', cfg')|
    requires FullRows(f, roots, cfg)[i] == FullRows(f, roots', cfg')[j]
    ensures var a, a', h := Anchor(f, roots, cfg), Anchor(f, roots', cfg'), FullRows(f, roots, cfg)[i].block;
            || (a == a' && forall k: nat :: a.block < k <= h ==> roots(k) == roots'(k))
            || (exists k: nat :: a.block < k <= h && CollisionAt(f, roots, a, roots', a', k))
  {
    OutputIsThePlainChain(f, roots, cfg);
    OutputIsThePlainChain(f, roots', cfg');
    DigestBindsRoots(f, roots, Anchor(f, roots, cfg), roots', Anchor(f, roots', cfg'),
        FullRows(f, roots, cfg)[i].block);
  }

  /** On a complete source the builder sends the full output, as far as the channel takes it. */
  lemma CompleteOutput(f: DigestFn, roots: Roots, source: Source, cfg: Config, limit: nat, sent: seq<Checkpoint>,
      ok: bool)
    requires Usable(cfg) && CompleteSource(f, roots, source, cfg) &&
             BuilderResult(f, roots, source, cfg, limit, sent, ok)
    ensures sent == FullRows(f, roots, cfg)[..Min(limit, |FullRows(f, roots, cfg)|)]
    ensures ok <==> |FullRows(f, roots, cfg)| <= limit
  {
    BodyIsChained(f, roots, cfg);
    CompleteIsNotShort(source, cfg.ranges, Base(cfg), Anchor(f, roots, cfg).block + 1);
  }

  /** A short range is not noticed: it succeeds with fewer rows than it should have. */
  lemma ShortRangeSucceeds(
    f: DigestFn, roots: Roots, source: Source, r: CheckpointRange, latest0: Checkpoint, limit: nat,
    sent: seq<Checkpoint>, latest: Checkpoint, ok: bool)
    requires HonestSource(source, roots) && Even(r) && latest0.block < r.heightStart && Short(source, r)
    requires Folded(f, roots, source.iter(r.heightStart, r.heightEnd), r.heightStart, r.interval, latest0, limit, sent,
             latest, ok)
    requires Chunks(Blocks(r), r.interval) <= limit
    ensures ok && |sent| < |RowsOfRange(f, roots, latest0, r)|
  {
    GoodOfFits(source, roots, r);
    RangeCounts(f, roots, latest0, source, r, latest0, limit, sent, latest, ok);
  }

  /** Such a source exists: one that stops after the first block, where every block is due a row. */
  lemma ShortSourceExists(root: H256)
    ensures var source := Source((h: nat) => None, (a: nat, b: nat) => if a <= b then [Block(RootInfo(a, root))] else
            []);
            HonestSource(source, (h: nat) => root) && Even(CheckpointRange(1, 2, 1)) &&
                Short(source, CheckpointRange(1, 2, 1))
  {
    var items := [Block(RootInfo(1, root))];
    assert Good(items, 1, 0) == Good(items, 1, 1) == 1;
    assert Rest(1, 1) == Rest(0, 1) == 0 && Rest(2, 1) == Rest(1, 1);
  }
}
