/** The checkpoint builder: a chunked, multi-range digest fold that sends its rows as it goes. */
module CheckpointBuilder {
  import opened Types
  import opened DigestChain

  datatype RootInfo = RootInfo(height: nat, root: H256)

  /** What a source iterator yields. */
  datatype Item = Block(info: RootInfo) | SourceError

  /** `get` of one height, and the iterator over a range. */
  datatype Source = Source(get: nat -> Option<RootInfo>, iter: (nat, nat) -> seq<Item>)

  /** What a source may do wrong: fail, skip, repeat, stop early; but it never invents a root and
      never leaves the requested range. */
  ghost predicate Honest(items: seq<Item>, roots: Roots, hi: nat) {
    forall i :: 0 <= i < |items| && items[i].Block? ==>
      items[i].info.root == roots(items[i].info.height) && items[i].info.height <= hi
  }

  /** Index of the first item that is not the block expected there. */
  function Good(items: seq<Item>, start: nat, i: nat): (n: nat)
    requires i <= |items|
    ensures i <= n <= |items|
    decreases |items| - i
  {
    if i < |items| && items[i].Block? && items[i].info.height == start + i then Good(items, start, i + 1) else i
  }

  // ---- rows of one range ----------------------------------------------------------------------

  /** Height of the `m`-th checkpoint of a range that starts at `start`. */
  function SampleHeight(start: nat, interval: nat, m: nat): int {
    if m == 0 then start - 1 else SampleHeight(start, interval, m - 1) + interval
  }

  lemma {:induction false} SampleHeightIs(start: nat, interval: nat, m: nat)
    ensures SampleHeight(start, interval, m) == start - 1 + m * interval
  {
    if m > 0 { SampleHeightIs(start, interval, m - 1); }
  }

  lemma {:induction false} SampleHeightGrows(start: nat, interval: nat, m: nat)
    ensures SampleHeight(start, interval, m) >= start - 1
  {
    if m > 0 { SampleHeightGrows(start, interval, m - 1); }
  }

  /** The plain chain from `anchor`, sampled at the first `m` checkpoint heights. */
  function Rows(f: DigestFn, roots: Roots, anchor: Checkpoint, start: nat, interval: nat, m: nat): seq<Checkpoint>
    requires anchor.block < start
  {
    if m == 0 then []
    else
      SampleHeightGrows(start, interval, m);
      Rows(f, roots, anchor, start, interval, m - 1) + [Row(f, roots, anchor, SampleHeight(start, interval, m))]
  }

  lemma {:induction false} RowsLength(f: DigestFn, roots: Roots, anchor: Checkpoint, start: nat, interval: nat, m: nat)
    requires anchor.block < start
    ensures |Rows(f, roots, anchor, start, interval, m)| == m
  {
    if m > 0 { RowsLength(f, roots, anchor, start, interval, m - 1); }
  }

  /** Condense a chunk into one checkpoint by hashing its blocks in turn. */
  function FoldChunk(f: DigestFn, latest: Checkpoint, chunk: seq<RootInfo>): Checkpoint
    decreases |chunk|
  {
    if chunk == [] then latest
    else
      var block := chunk[|chunk| - 1];
      var prev := FoldChunk(f, latest, chunk[..|chunk| - 1]);
      Checkpoint(block.height, f(block.height, block.root, Some(prev.digest)))
  }

  ghost predicate ChunkFrom(chunk: seq<RootInfo>, roots: Roots, first: nat) {
    forall i :: 0 <= i < |chunk| ==> chunk[i] == RootInfo(first + i, roots(first + i))
  }

  lemma {:induction false} FoldIsChain(f: DigestFn, roots: Roots, latest: Checkpoint, chunk: seq<RootInfo>, first: nat)
    requires first >= 1 && ChunkFrom(chunk, roots, first)
    ensures FoldChunk(f, latest, chunk).digest ==
            Chain(f, roots, Checkpoint(first - 1, latest.digest), first - 1 + |chunk|)
    ensures chunk != [] ==> FoldChunk(f, latest, chunk).block == first - 1 + |chunk|
    decreases |chunk|
  {
    if chunk != [] { FoldIsChain(f, roots, latest, chunk[..|chunk| - 1], first); }
  }

  // ---- processing one range ---------------------------------------------------------------------

  /** Where the fold over one range's items stands: `rows` rows sent, the rest in `chunk`. */
  ghost predicate FoldState(
    f: DigestFn, roots: Roots, anchor: Checkpoint, start: nat, interval: nat,
    done: nat, rows: nat, sent: seq<Checkpoint>, latest: Checkpoint, chunk: seq<RootInfo>)
    requires anchor.block + 1 == start
  {
    var holds :=
      && SampleHeight(start, interval, rows) + |chunk| == start - 1 + done
      && |chunk| < interval
      && sent == Rows(f, roots, anchor, start, interval, rows)
      && SampleHeight(start, interval, rows) >= anchor.block
      && latest.digest == Chain(f, roots, anchor, SampleHeight(start, interval, rows))
      && (rows > 0 ==> latest.block == SampleHeight(start, interval, rows))
      && ChunkFrom(chunk, roots, SampleHeight(start, interval, rows) + 1);
    holds
  }

  /** A full chunk becomes the next row. */
  lemma ChunkMakesRow(
    f: DigestFn, roots: Roots, anchor: Checkpoint, start: nat, interval: nat, rows: nat, latest: Checkpoint,
        chunk: seq<RootInfo>)
    requires anchor.block + 1 == start && interval > 0 && |chunk| == interval
    requires SampleHeight(start, interval, rows) >= anchor.block
    requires latest.digest == Chain(f, roots, anchor, SampleHeight(start, interval, rows))
    requires ChunkFrom(chunk, roots, SampleHeight(start, interval, rows) + 1)
    ensures FoldChunk(f, latest, chunk) == Row(f, roots, anchor, SampleHeight(start, interval, rows + 1))
  {
    var b := SampleHeight(start, interval, rows);
    FoldIsChain(f, roots, latest, chunk, b + 1);
    ChainSplits(f, roots, anchor, b, b + interval);
  }

  /** How many full chunks of `k` blocks `n` blocks make, and how many blocks remain. */
  function Chunks(n: nat, k: nat): nat
    requires k > 0
  {
    if n < k then 0 else Chunks(n - k, k) + 1
  }

  function Rest(n: nat, k: nat): (r: nat)
    requires k > 0
    ensures r < k
  {
    if n < k then n else Rest(n - k, k)
  }

  lemma {:induction false} FoldStateCounts(start: nat, interval: nat, done: nat, rows: nat, rest: nat)
    requires interval > 0 && rest < interval
    requires SampleHeight(start, interval, rows) + rest == start - 1 + done
    ensures rows == Chunks(done, interval) && rest == Rest(done, interval)
    decreases rows
  {
    if rows > 0 {
      SampleHeightGrows(start, interval, rows - 1);
      FoldStateCounts(start, interval, done - interval, rows - 1, rest);
    }
  }

  lemma {:induction false} ChunksGrow(n: nat, m: nat, k: nat)
    requires k > 0 && n <= m
    ensures Chunks(n, k) <= Chunks(m, k)
    decreases n
  {
    if n >= k { ChunksGrow(n - k, m - k, k); }
  }

  /** One more block, not yet a full chunk. */
  lemma PushBlock(
    f: DigestFn, roots: Roots, anchor: Checkpoint, start: nat, interval: nat,
    done: nat, rows: nat, sent: seq<Checkpoint>, latest: Checkpoint, chunk: seq<RootInfo>)
    requires anchor.block + 1 == start
    requires FoldState(f, roots, anchor, start, interval, done, rows, sent, latest, chunk)
    ensures ChunkFrom(chunk + [RootInfo(start + done, roots(start + done))], roots,
            SampleHeight(start, interval, rows) + 1)
    ensures |chunk| + 1 < interval ==>
              FoldState(f, roots, anchor, start, interval, done + 1, rows, sent, latest,
                  chunk + [RootInfo(start + done, roots(start + done))])
  {
  }

  /** The block that completes a chunk: one more row. */
  lemma EmitRow(
    f: DigestFn, roots: Roots, anchor: Checkpoint, start: nat, interval: nat,
    done: nat, rows: nat, sent: seq<Checkpoint>, latest: Checkpoint, chunk: seq<RootInfo>)
    requires anchor.block + 1 == start && |chunk| + 1 == interval
    requires FoldState(f, roots, anchor, start, interval, done, rows, sent, latest, chunk)
    ensures var full := FoldChunk(f, latest, chunk + [RootInfo(start + done, roots(start + done))]);
            FoldState(f, roots, anchor, start, interval, done + 1, rows + 1, sent + [full], full, [])
  {
    PushBlock(f, roots, anchor, start, interval, done, rows, sent, latest, chunk);
    ChunkMakesRow(f, roots, anchor, start, interval, rows, latest,
        chunk + [RootInfo(start + done, roots(start + done))]);
  }

  function Min(a: nat, b: nat): nat { if a <= b then a else b }

  /** What the fold over one range's items delivers: the plain chain sampled at the interval ends,
      as far as the items are good and the channel lasts. */
  ghost predicate Folded(
    f: DigestFn, roots: Roots, items: seq<Item>, start: nat, interval: nat, latest0: Checkpoint, limit: nat,
    sent: seq<Checkpoint>, latest: Checkpoint, ok: bool)
    requires start >= 1 && interval > 0
  {
    var anchor, good := Checkpoint(start - 1, latest0.digest), Good(items, start, 0);
    var holds :=
      && sent == Rows(f, roots, anchor, start, interval, Min(limit, Chunks(good, interval)))
      && (ok <==> good == |items| && Rest(good, interval) == 0 && Chunks(good, interval) <= limit)
      && (ok ==> latest == if good == 0 then latest0 else Row(f, roots, anchor, start - 1 + good));
    holds
  }

  /** The fold stops at item `done`: a bad item, a closed channel, or the end of the items. */
  lemma FoldStops(
    f: DigestFn, roots: Roots, items: seq<Item>, start: nat, interval: nat, latest0: Checkpoint, limit: nat,
    done: nat, rows: nat, sent: seq<Checkpoint>, latest: Checkpoint, chunk: seq<RootInfo>)
    requires start >= 1 && interval > 0 && done <= |items| && rows <= limit
    requires FoldState(f, roots, Checkpoint(start - 1, latest0.digest), start, interval, done, rows, sent, latest,
             chunk)
    requires Good(items, start, 0) == done
    requires rows == 0 ==> latest == latest0
    ensures Folded(f, roots, items, start, interval, latest0, limit, sent, latest, done == |items| && chunk == [])
  {
    FoldStateCounts(start, interval, done, rows, |chunk|);
  }

  lemma ChannelCloses(
    f: DigestFn, roots: Roots, items: seq<Item>, start: nat, interval: nat, latest0: Checkpoint,
    done: nat, rows: nat, sent: seq<Checkpoint>, latest: Checkpoint, chunk: seq<RootInfo>)
    requires start >= 1 && interval > 0 && done < |items| && |chunk| + 1 == interval
    requires FoldState(f, roots, Checkpoint(start - 1, latest0.digest), start, interval, done, rows, sent, latest,
             chunk)
    requires Good(items, start, 0) == Good(items, start, done) > done
    ensures Folded(f, roots, items, start, interval, latest0, rows, sent, latest, false)
  {
    FullChunk(items, start, interval, done, rows);
  }

  /** A good item is the block due there, and the good stretch goes on behind it. */
  lemma GoodBlock(items: seq<Item>, roots: Roots, hi: nat, start: nat, i: nat)
    requires Honest(items, roots, hi) && i < |items| && items[i].Block? && items[i].info.height == start + i
    ensures items[i].info == RootInfo(start + i, roots(start + i))
    ensures Good(items, start, i) == Good(items, start, i + 1) > i
  {
  }

  /** The loop over one range's items. `limit` is how many sends still succeed before the channel
      is closed or the run is cancelled. */
  method FoldItems(
    f: DigestFn, items: seq<Item>, start: nat, interval: nat, latest0: Checkpoint, limit: nat,
    ghost roots: Roots, ghost hi: nat)
    returns (sent: seq<Checkpoint>, latest: Checkpoint, ok: bool)
    requires start >= 1 && interval > 0 && Honest(items, roots, hi)
    ensures Folded(f, roots, items, start, interval, latest0, limit, sent, latest, ok)
  {
    sent, latest, ok := [], latest0, false;
    var chunk: seq<RootInfo> := [];
    var expected := start;
    ghost var anchor := Checkpoint(start - 1, latest0.digest);
    ghost var rows: nat := 0;
    var i := 0;
    while i < |items|
      invariant 0 <= i <= |items| && expected == start + i && Good(items, start, 0) == Good(items, start, i)
      invariant FoldState(f, roots, anchor, start, interval, i, rows, sent, latest, chunk)
      invariant rows <= limit && |sent| == rows && (rows == 0 ==> latest == latest0)
    {
      if items[i].SourceError? || items[i].info.height != expected {
        FoldStops(f, roots, items, start, interval, latest0, limit, i, rows, sent, latest, chunk);
        return;
      }
      var block := items[i].info;
      GoodBlock(items, roots, hi, start, i);
      expected := expected + 1;
      if |chunk| + 1 == interval {
        if |sent| == limit {
          ChannelCloses(f, roots, items, start, interval, latest0, i, rows, sent, latest, chunk);
          return;
        }
        EmitRow(f, roots, anchor, start, interval, i, rows, sent, latest, chunk);
        latest := FoldChunk(f, latest, chunk + [block]);
        chunk := [];
        sent := sent + [latest];
        rows := rows + 1;
      } else {
        PushBlock(f, roots, anchor, start, interval, i, rows, sent, latest, chunk);
        chunk := chunk + [block];
      }
      i := i + 1;
    }
    FoldStops(f, roots, items, start, interval, latest0, limit, i, rows, sent, latest, chunk);
    if chunk != [] {
      return;
    }
    ok := true;
  }

  /** When the channel gives out, at least one more row was due. */
  lemma FullChunk(items: seq<Item>, start: nat, interval: nat, i: nat, rows: nat)
    requires interval > 0 && i < |items| && Good(items, start, i) > i
    requires SampleHeight(start, interval, rows) + interval == start + i
    ensures Chunks(Good(items, start, i), interval) > rows
  {
    FoldStateCounts(start, interval, i + 1, rows + 1, 0);
    ChunksGrow(i + 1, Good(items, start, i), interval);
  }
}
