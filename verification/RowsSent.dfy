/** Which rows are out when a run ends early, by height and not by count. */
module RowsSent {
  import opened CheckpointConfig
  import opened DigestChain
  import opened CheckpointBuilder
  import opened BuilderRun
  import opened BuilderTheorems

  // ---- what a source supplies ----------------------------------------------------------------------

  /** Asked for the range, the source yields its blocks up to height `h` one by one. */
  ghost predicate YieldsTo(source: Source, r: CheckpointRange, h: nat) {
    var items := source.iter(r.heightStart, r.heightEnd);
    && r.heightStart <= h < r.heightStart + |items|
    && forall k :: 0 <= k <= h - r.heightStart ==> items[k].Block? && items[k].info.height == r.heightStart + k
  }

  /** It yields all of them and then ends. */
  ghost predicate YieldsAll(source: Source, r: CheckpointRange) {
    |source.iter(r.heightStart, r.heightEnd)| == r.heightEnd + 1 - r.heightStart && YieldsTo(source, r, r.heightEnd)
  }

  /** It yields all blocks of the ranges below height `h`, and the range of `h` up to `h`. */
  ghost predicate Supplies(source: Source, ranges: seq<RangeType>, i: nat, next: nat, h: nat)
    requires Chained(ranges, i, next)
    decreases |ranges| - i
  {
    && i < |ranges|
    && var r := ranges[i].range;
       if h <= r.heightEnd then YieldsTo(source, r, h)
       else YieldsAll(source, r) && Supplies(source, ranges, i + 1, r.heightEnd + 1, h)
  }

  /** The genesis block, if there is one, and everything else up to height `h`. */
  ghost predicate SuppliesRow(f: DigestFn, roots: Roots, source: Source, cfg: Config, h: nat)
    requires Usable(cfg)
  {
    BodyIsChained(f, roots, cfg);
    && (cfg.ranges[0].Genesis? ==> source.get(cfg.StartingBlock()).Some?)
    && (h != Anchor(f, roots, cfg).block ==>
       Supplies(source, cfg.ranges, Base(cfg), Anchor(f, roots, cfg).block + 1, h))
  }

  lemma {:induction false} GoodAtLeast(items: seq<Item>, start: nat, i: nat, n: nat)
    requires i <= n <= |items|
    requires forall k :: i <= k < n ==> items[k].Block? && items[k].info.height == start + k
    ensures Good(items, start, i) >= n
    decreases n - i
  {
    if i < n { GoodAtLeast(items, start, i + 1, n); }
  }

  lemma YieldsToIff(source: Source, r: CheckpointRange, h: nat)
    requires r.heightStart <= h
    ensures YieldsTo(source, r, h) <==> h - r.heightStart < GoodOf(source, r)
  {
    var items, start := source.iter(r.heightStart, r.heightEnd), r.heightStart;
    if YieldsTo(source, r, h) {
      GoodAtLeast(items, start, 0, h - start + 1);
    } else if h - start < GoodOf(source, r) {
      forall k | 0 <= k <= h - start ensures items[k].Block? && items[k].info.height == start + k {
        GoodHeights(items, start, 0, k);
      }
    }
  }

  lemma YieldsAllIff(source: Source, r: CheckpointRange)
    requires r.heightStart <= r.heightEnd
    ensures YieldsAll(source, r) <==> Complete(source, r)
  {
    YieldsToIff(source, r, r.heightEnd);
  }

  // ---- one range -----------------------------------------------------------------------------------

  lemma {:induction false} RowsAt(f: DigestFn, roots: Roots, anchor: Checkpoint, start: nat, k: nat, m: nat, j: nat)
    requires anchor.block < start && j < m
    ensures |Rows(f, roots, anchor, start, k, m)| == m
    ensures Rows(f, roots, anchor, start, k, m)[j].block == SampleHeight(start, k, j + 1)
  {
    RowsLength(f, roots, anchor, start, k, m);
    RowsLength(f, roots, anchor, start, k, m - 1);
    SampleHeightGrows(start, k, m);
    if j < m - 1 { RowsAt(f, roots, anchor, start, k, m - 1, j); }
  }

  /** The `j`-th sample lies within the first `n` blocks exactly if they make more than `j` chunks. */
  lemma {:induction false} SampleWithin(start: nat, k: nat, n: nat, j: nat)
    requires k > 0
    ensures SampleHeight(start, k, j + 1) - start < n <==> j < Chunks(n, k)
  {
    SampleHeightGrows(start, k, j);
    if j > 0 && n >= k { SampleWithin(start, k, n - k, j - 1); }
  }

  lemma RowOfRange(f: DigestFn, roots: Roots, anchor: Checkpoint, source: Source, r: CheckpointRange, j: nat)
    requires anchor.block < r.heightStart && Even(r) && j < Chunks(Blocks(r), r.interval)
    ensures |RowsOfRange(f, roots, anchor, r)| == Chunks(Blocks(r), r.interval)
    ensures var h := RowsOfRange(f, roots, anchor, r)[j].block;
            && r.heightStart <= h <= r.heightEnd
            && (YieldsTo(source, r, h) <==> j < Chunks(GoodOf(source, r), r.interval))
  {
    RowsAt(f, roots, anchor, r.heightStart, r.interval, Chunks(Blocks(r), r.interval), j);
    SampleWithin(r.heightStart, r.interval, Blocks(r), j);
    SampleWithin(r.heightStart, r.interval, GoodOf(source, r), j);
    SampleHeightGrows(r.heightStart, r.interval, j);
    YieldsToIff(source, r, SampleHeight(r.heightStart, r.interval, j + 1));
  }

  // ---- all ranges ----------------------------------------------------------------------------------

  /** A row of the range at index `i`. */
  lemma RowInRange(f: DigestFn, roots: Roots, anchor: Checkpoint, source: Source, ranges: seq<RangeType>, i: nat,
      next: nat, j: nat)
    requires HonestSource(source, roots) && anchor.block < next && Chained(ranges, i, next) && i < |ranges|
    requires j < Chunks(Blocks(ranges[i].range), ranges[i].range.interval)
    ensures j < |RowsOf(f, roots, anchor, ranges, i, next)|
    ensures Supplies(source, ranges, i, next, RowsOf(f, roots, anchor, ranges, i, next)[j].block) <==>
            j < RowsRight(source, ranges, i, next)
  {
    var r := ranges[i].range;
    GoodOfFits(source, roots, r);
    RowOfRange(f, roots, anchor, source, r, j);
  }

  lemma RowAtLeast(f: DigestFn, roots: Roots, anchor: Checkpoint, ranges: seq<RangeType>, i: nat, next: nat, j: nat)
    requires anchor.block < next && Chained(ranges, i, next) && j < |RowsOf(f, roots, anchor, ranges, i, next)|
    ensures next <= RowsOf(f, roots, anchor, ranges, i, next)[j].block
  {
    RowsAreSampled(f, roots, anchor, ranges, i, next);
    assert OnPlainChain(f, roots, anchor, RowsOf(f, roots, anchor, ranges, i, next)[j], next,
        EndOf(ranges, i, next) - 1);
  }

  /** A row of a later range is a row of the rest. */
  lemma RowBehindRange(f: DigestFn, roots: Roots, anchor: Checkpoint, ranges: seq<RangeType>, i: nat, next: nat,
      j: nat)
    requires anchor.block < next && Chained(ranges, i, next) && i < |ranges|
    requires Chunks(Blocks(ranges[i].range), ranges[i].range.interval) <= j
    requires j < |RowsOf(f, roots, anchor, ranges, i, next)|
    ensures var r := ranges[i].range;
            var rest := RowsOf(f, roots, anchor, ranges, i + 1, r.heightEnd + 1);
            var k := j - Chunks(Blocks(r), r.interval);
            k < |rest| && RowsOf(f, roots, anchor, ranges, i, next)[j] == rest[k] && r.heightEnd < rest[k].block
  {
    var r := ranges[i].range;
    var n := Chunks(Blocks(r), r.interval);
    RowsLength(f, roots, anchor, r.heightStart, r.interval, n);
    RowAtLeast(f, roots, anchor, ranges, i + 1, r.heightEnd + 1, j - n);
  }

  /** A row is among the right ones exactly if the source supplies it. */
  lemma {:induction false} RightIffSupplied(f: DigestFn, roots: Roots, anchor: Checkpoint, source: Source,
      ranges: seq<RangeType>, i: nat, next: nat, j: nat)
    requires HonestSource(source, roots) && anchor.block < next && Chained(ranges, i, next)
    requires j < |RowsOf(f, roots, anchor, ranges, i, next)|
    ensures Supplies(source, ranges, i, next, RowsOf(f, roots, anchor, ranges, i, next)[j].block) <==>
            j < RowsRight(source, ranges, i, next)
    decreases |ranges| - i
  {
    var r := ranges[i].range;
    var n := Chunks(Blocks(r), r.interval);
    if j < n {
      RowInRange(f, roots, anchor, source, ranges, i, next, j);
    } else {
      RowBehindRange(f, roots, anchor, ranges, i, next, j);
      YieldsAllIff(source, r);
      GoodOfFits(source, roots, r);
      RightIffSupplied(f, roots, anchor, source, ranges, i + 1, r.heightEnd + 1, j - n);
    }
  }

  lemma {:induction false} GivenIsRight(source: Source, roots: Roots, ranges: seq<RangeType>, i: nat, next: nat)
    requires HonestSource(source, roots) && Chained(ranges, i, next) && NeverShort(source, ranges, i, next)
    ensures RowsDue(source, ranges, i, next) == RowsRight(source, ranges, i, next)
    decreases |ranges| - i
  {
    if i < |ranges| {
      var r := ranges[i].range;
      GoodOfFits(source, roots, r);
      GivenIsRight(source, roots, ranges, i + 1, r.heightEnd + 1);
    }
  }

  // ---- the builder ---------------------------------------------------------------------------------

  lemma PlaceOfRow(f: DigestFn, roots: Roots, cfg: Config, j: nat)
    requires Usable(cfg) && j < |FullRows(f, roots, cfg)|
    requires Chained(cfg.ranges, Base(cfg), Anchor(f, roots, cfg).block + 1)
    ensures var a, base := Anchor(f, roots, cfg), Base(cfg);
            var rows := RowsOf(f, roots, a, cfg.ranges, base, a.block + 1);
            if j < base then FullRows(f, roots, cfg)[j] == a
            else j - base < |rows| && FullRows(f, roots, cfg)[j] == rows[j - base]
  {
  }

  lemma RightRowIff(f: DigestFn, roots: Roots, source: Source, cfg: Config, j: nat)
    requires Usable(cfg) && HonestSource(source, roots) && j < |FullRows(f, roots, cfg)|
    ensures SuppliesRow(f, roots, source, cfg, FullRows(f, roots, cfg)[j].block) <==>
            j < RightRows(f, roots, source, cfg)
  {
    BodyIsChained(f, roots, cfg);
    var a, base := Anchor(f, roots, cfg), Base(cfg);
    PlaceOfRow(f, roots, cfg, j);
    if j >= base {
      RightIffSupplied(f, roots, a, source, cfg.ranges, base, a.block + 1, j - base);
      RowAtLeast(f, roots, a, cfg.ranges, base, a.block + 1, j - base);
    }
  }

  /** Wherever a source fails, falls short or goes on, nothing it supplied is lost: a row of the full
      output is sent, in its place, if the channel takes that many and the source supplies every
      block up to it. */
  lemma SuppliedRowIsSent(f: DigestFn, roots: Roots, source: Source, cfg: Config, limit: nat, sent: seq<Checkpoint>,
      ok: bool, j: nat)
    requires Usable(cfg) && HonestSource(source, roots) && BuilderResult(f, roots, source, cfg, limit, sent, ok)
    requires j < limit && j < |FullRows(f, roots, cfg)|
    requires SuppliesRow(f, roots, source, cfg, FullRows(f, roots, cfg)[j].block)
    ensures j < |sent| && sent[j] == FullRows(f, roots, cfg)[j]
  {
    RightRowIff(f, roots, source, cfg, j);
    var k := Min(limit, RightRows(f, roots, source, cfg));
    assert sent[j] == sent[..k][j] && FullRows(f, roots, cfg)[j] == FullRows(f, roots, cfg)[..k][j];
  }

  /** Unless a range falls short, those are all the rows that are sent. */
  lemma SentIffSupplied(f: DigestFn, roots: Roots, source: Source, cfg: Config, limit: nat, sent: seq<Checkpoint>,
      ok: bool, j: nat)
    requires Usable(cfg) && HonestSource(source, roots) && BuilderResult(f, roots, source, cfg, limit, sent, ok)
    requires NoShortRange(f, roots, source, cfg) && j < |FullRows(f, roots, cfg)|
    ensures j < |sent| <==> j < limit && SuppliesRow(f, roots, source, cfg, FullRows(f, roots, cfg)[j].block)
  {
    BodyIsChained(f, roots, cfg);
    RightRowIff(f, roots, source, cfg, j);
    GivenIsRight(source, roots, cfg.ranges, Base(cfg), Anchor(f, roots, cfg).block + 1);
  }
}
