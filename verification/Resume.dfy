/** Restarting the builder from a row it has sent. */
module Resume {
  import opened Types
  import opened CheckpointConfig
  import opened DigestChain
  import opened CheckpointBuilder
  import opened BuilderRun
  import opened BuilderTheorems

  /** What is left of the ranges from index `i` on above height `h`: the genesis goes, and so does
      every range that ends by `h`; the range `h` lies in is cut to start at `h + 1`. */
  function Remaining(ranges: seq<RangeType>, i: nat, h: nat): seq<RangeType>
    requires i <= |ranges|
    decreases |ranges| - i
  {
    if i == |ranges| then []
    else if ranges[i].Genesis? || ranges[i].range.heightEnd <= h then Remaining(ranges, i + 1, h)
    else
      var r := ranges[i].range;
      [if r.heightStart <= h then Regular(CheckpointRange(h + 1, r.heightEnd, r.interval)) else ranges[i]] +
          ranges[i + 1..]
  }

  // ---- range lists -------------------------------------------------------------------------------

  lemma {:induction false} ChainedShift(f: DigestFn, roots: Roots, anchor: Checkpoint,
                                        ranges: seq<RangeType>, ranges': seq<RangeType>, i: nat, i': nat, next: nat)
    requires anchor.block < next && Chained(ranges, i, next) && i <= |ranges| && i' <= |ranges'| &&
             ranges[i..] == ranges'[i'..]
    ensures Chained(ranges', i', next)
    ensures RowsOf(f, roots, anchor, ranges', i', next) == RowsOf(f, roots, anchor, ranges, i, next)
    decreases |ranges| - i
  {
    assert |ranges| - i == |ranges[i..]| == |ranges'[i'..]| == |ranges'| - i';
    if i < |ranges| {
      assert ranges[i] == ranges[i..][0] == ranges'[i'];
      assert ranges[i + 1..] == ranges[i..][1..] == ranges'[i' + 1..];
      ChainedShift(f, roots, anchor, ranges, ranges', i + 1, i' + 1, ranges[i].range.heightEnd + 1);
    }
  }

  /** The rows do not depend on which point of the chain below them is the anchor. */
  lemma {:induction false} RowsFromNearer(f: DigestFn, roots: Roots, anchor: Checkpoint, b: nat, ranges: seq<RangeType>,
      i: nat, next: nat)
    requires anchor.block <= b < next && Chained(ranges, i, next)
    ensures RowsOf(f, roots, Row(f, roots, anchor, b), ranges, i, next) == RowsOf(f, roots, anchor, ranges, i, next)
    decreases |ranges| - i
  {
    if i < |ranges| {
      var r := ranges[i].range;
      SameRowsFromNearer(f, roots, anchor, b, r.heightStart, r.interval, Chunks(Blocks(r), r.interval));
      RowsFromNearer(f, roots, anchor, b, ranges, i + 1, r.heightEnd + 1);
    }
  }

  lemma {:induction false} ChainedAt(ranges: seq<RangeType>, i: nat, next: nat, k: nat)
    requires Chained(ranges, i, next) && i <= k < |ranges|
    ensures RangeOk(ranges[k]) && ranges[k].Regular?
    ensures k + 1 < |ranges| ==> Joined(ranges[k], ranges[k + 1])
    decreases |ranges| - i
  {
    if i < k {
      ChainedAt(ranges, i + 1, ranges[i].range.heightEnd + 1, k);
    } else {
      ChunksIsDivision(Blocks(ranges[i].range), ranges[i].range.interval);
    }
  }

  lemma ChainedIsWellFormed(ranges: seq<RangeType>, next: nat)
    requires Chained(ranges, 0, next) && ranges != []
    ensures WellFormed(ranges) && ranges[0].Regular? && ranges[0].HeightStart() == next
  {
    forall k | 0 <= k < |ranges| ensures RangeOk(ranges[k]) && (k + 1 < |ranges| ==> Joined(ranges[k], ranges[k + 1])) {
      ChainedAt(ranges, 0, next, k);
    }
  }

  // ---- cutting one range -------------------------------------------------------------------------

  lemma {:induction false} ChunksAfter(n: nat, k: nat, m: nat)
    requires k > 0 && m <= Chunks(n, k)
    ensures m * k <= n && Chunks(n - m * k, k) == Chunks(n, k) - m && Rest(n - m * k, k) == Rest(n, k)
  {
    if m > 0 {
      ChunksAfter(n - k, k, m - 1);
      assert m * k == (m - 1) * k + k;
    }
  }

  /** Counting on from the `m`-th checkpoint. */
  lemma {:induction false} SamplesGoOn(start: nat, k: nat, m: nat, n: nat)
    requires SampleHeight(start, k, m) >= -1
    ensures SampleHeight(SampleHeight(start, k, m) + 1, k, n) == SampleHeight(start, k, m + n)
  {
    if n > 0 { SamplesGoOn(start, k, m, n - 1); }
  }

  lemma {:induction false} RowsAfter(
    f: DigestFn, roots: Roots, anchor: Checkpoint, start: nat, k: nat, m: nat, n: nat)
    requires anchor.block < start && anchor.block <= SampleHeight(start, k, m)
    ensures var h := SampleHeight(start, k, m);
            Rows(f, roots, anchor, start, k, m) + Rows(f, roots, anchor, h + 1, k, n) ==
            Rows(f, roots, anchor, start, k, m + n)
  {
    if n > 0 {
      RowsAfter(f, roots, anchor, start, k, m, n - 1);
      SamplesGoOn(start, k, m, n);
    }
  }

  /** The range above its `m`-th checkpoint, short of the last one. */
  function Cut(r: CheckpointRange, m: nat): CheckpointRange
    requires r.interval > 0 && r.heightStart >= 1
  {
    SampleHeightGrows(r.heightStart, r.interval, m);
    CheckpointRange(SampleHeight(r.heightStart, r.interval, m) + 1, r.heightEnd, r.interval)
  }

  lemma CutIsEven(r: CheckpointRange, m: nat)
    requires Even(r) && r.heightStart >= 1 && m < Chunks(Blocks(r), r.interval)
    ensures Even(Cut(r, m))
    ensures Chunks(Blocks(Cut(r, m)), r.interval) == Chunks(Blocks(r), r.interval) - m
    ensures r.heightStart <= Cut(r, m).heightStart && (m > 0 ==> r.heightStart < Cut(r, m).heightStart)
  {
    ChunksAfter(Blocks(r), r.interval, m);
    SampleHeightIs(r.heightStart, r.interval, m);
    SampleHeightGrows(r.heightStart, r.interval, m);
    if m > 0 { SampleHeightGrows(r.heightStart, r.interval, m - 1); }
  }

  lemma CutRows(f: DigestFn, roots: Roots, anchor: Checkpoint, r: CheckpointRange, m: nat)
    requires anchor.block < r.heightStart && Even(r) && m < Chunks(Blocks(r), r.interval)
    ensures Even(Cut(r, m)) && anchor.block < Cut(r, m).heightStart
    ensures Rows(f, roots, anchor, r.heightStart, r.interval, m) + RowsOfRange(f, roots, anchor, Cut(r, m)) ==
            RowsOfRange(f, roots, anchor, r)
  {
    CutIsEven(r, m);
    RowsAfter(f, roots, anchor, r.heightStart, r.interval, m, Chunks(Blocks(r), r.interval) - m);
  }

  // ---- the rest of the output ----------------------------------------------------------------------

  /** The ranges left above `h` yield the rows after the `j`-th. */
  ghost predicate Resumes(f: DigestFn, roots: Roots, anchor: Checkpoint, ranges: seq<RangeType>, i: nat, next: nat,
      j: nat, h: nat)
    requires anchor.block < next && i <= |ranges| && Chained(ranges, i, next)
  {
    var rows, rest := RowsOf(f, roots, anchor, ranges, i, next), Remaining(ranges, i, h);
    var holds :=
      && j < |rows| && rows[j].block == h && anchor.block <= h
      && Chained(rest, 0, h + 1) && RowsOf(f, roots, anchor, rest, 0, h + 1) == rows[j + 1..];
    holds
  }

  /** Nothing is left out of ranges that all lie above `h`. */
  lemma NothingBelow(f: DigestFn, roots: Roots, anchor: Checkpoint, ranges: seq<RangeType>, i: nat, h: nat)
    requires anchor.block <= h && i <= |ranges| && Chained(ranges, i, h + 1)
    ensures Chained(Remaining(ranges, i, h), 0, h + 1)
    ensures RowsOf(f, roots, anchor, Remaining(ranges, i, h), 0, h + 1) == RowsOf(f, roots, anchor, ranges, i, h + 1)
  {
    assert Remaining(ranges, i, h) == ranges[i..] by {
      if i < |ranges| { assert ranges[i..] == [ranges[i]] + ranges[i + 1..]; }
    }
    ChainedShift(f, roots, anchor, ranges, Remaining(ranges, i, h), i, 0, h + 1);
  }

  lemma {:induction false} RowAt(f: DigestFn, roots: Roots, anchor: Checkpoint, start: nat, k: nat, m: nat, j: nat)
    requires anchor.block < start && j < m
    ensures |Rows(f, roots, anchor, start, k, m)| == m
    ensures Rows(f, roots, anchor, start, k, m)[j].block == SampleHeight(start, k, j + 1)
  {
    RowsLength(f, roots, anchor, start, k, m - 1);
    if j < m - 1 { RowAt(f, roots, anchor, start, k, m - 1, j); }
  }

  /** The `j`-th row is the last of the first range. */
  lemma ResumesAfterRange(f: DigestFn, roots: Roots, anchor: Checkpoint, ranges: seq<RangeType>, i: nat, next: nat)
    requires anchor.block < next && i < |ranges| && Chained(ranges, i, next)
    ensures var r := ranges[i].range;
            Resumes(f, roots, anchor, ranges, i, next, Chunks(Blocks(r), r.interval) - 1, r.heightEnd)
  {
    var r := ranges[i].range;
    var n := Chunks(Blocks(r), r.interval);
    SamplesEndTheRange(r);
    RowAt(f, roots, anchor, r.heightStart, r.interval, n, n - 1);
    NothingBelow(f, roots, anchor, ranges, i + 1, r.heightEnd);
    var tail := RowsOf(f, roots, anchor, ranges, i + 1, r.heightEnd + 1);
    assert (RowsOfRange(f, roots, anchor, r) + tail)[n..] == tail;
  }

  lemma DropFromHead(head: seq<Checkpoint>, tail: seq<Checkpoint>, n: nat)
    requires n <= |head|
    ensures (head + tail)[n..] == head[n..] + tail
  {
  }

  /** The rows of what is left: those of the cut range, and those of the ranges after it. */
  lemma CutRest(f: DigestFn, roots: Roots, anchor: Checkpoint, ranges: seq<RangeType>, i: nat, next: nat,
      cut: CheckpointRange)
    requires anchor.block < next && i < |ranges| && Chained(ranges, i, next) && Even(cut) && next < cut.heightStart
    requires cut.heightEnd == ranges[i].range.heightEnd && cut.interval == ranges[i].range.interval
    ensures var rest := Remaining(ranges, i, cut.heightStart - 1);
            && Chained(rest, 0, cut.heightStart)
            && RowsOf(f, roots, anchor, rest, 0, cut.heightStart)
               == RowsOfRange(f, roots, anchor, cut) + RowsOf(f, roots, anchor, ranges, i + 1, cut.heightEnd + 1)
  {
    var rest := [Regular(cut)] + ranges[i + 1..];
    assert Remaining(ranges, i, cut.heightStart - 1) == rest;
    assert rest[1..] == ranges[i + 1..];
    ChainedShift(f, roots, anchor, ranges, rest, i + 1, 1, cut.heightEnd + 1);
  }

  /** The `j`-th row lies inside the first range. */
  lemma ResumesInRange(f: DigestFn, roots: Roots, anchor: Checkpoint, ranges: seq<RangeType>, i: nat, next: nat, j: nat)
    requires anchor.block < next && i < |ranges| && Chained(ranges, i, next)
    requires j + 1 < Chunks(Blocks(ranges[i].range), ranges[i].range.interval)
    ensures var h := Cut(ranges[i].range, j + 1).heightStart - 1;
            anchor.block <= h && Resumes(f, roots, anchor, ranges, i, next, j, h)
  {
    var r := ranges[i].range;
    var cut := Cut(r, j + 1);
    CutIsEven(r, j + 1);
    CutRest(f, roots, anchor, ranges, i, next, cut);
    RowAt(f, roots, anchor, r.heightStart, r.interval, Chunks(Blocks(r), r.interval), j);
    AfterCut(f, roots, anchor, r, j);
    InHead(f, roots, anchor, ranges, i, next, j, cut.heightStart - 1,
           RowsOfRange(f, roots, anchor, r), RowsOf(f, roots, anchor, ranges, i + 1, r.heightEnd + 1));
  }

  lemma InHead(f: DigestFn, roots: Roots, anchor: Checkpoint, ranges: seq<RangeType>, i: nat, next: nat, j: nat, h: nat,
               head: seq<Checkpoint>, tail: seq<Checkpoint>)
    requires anchor.block < next && i <= |ranges| && Chained(ranges, i, next)
    requires RowsOf(f, roots, anchor, ranges, i, next) == head + tail && j < |head| && head[j].block == h &&
             anchor.block <= h
    requires Chained(Remaining(ranges, i, h), 0, h + 1) &&
             RowsOf(f, roots, anchor, Remaining(ranges, i, h), 0, h + 1) == head[j + 1..] + tail
    ensures Resumes(f, roots, anchor, ranges, i, next, j, h)
  {
    DropFromHead(head, tail, j + 1);
  }

  lemma AfterCut(f: DigestFn, roots: Roots, anchor: Checkpoint, r: CheckpointRange, j: nat)
    requires anchor.block < r.heightStart && Even(r) && j + 1 < Chunks(Blocks(r), r.interval)
    ensures Even(Cut(r, j + 1)) && anchor.block < Cut(r, j + 1).heightStart &&
            j + 1 <= |RowsOfRange(f, roots, anchor, r)|
    ensures RowsOfRange(f, roots, anchor, r)[j + 1..] == RowsOfRange(f, roots, anchor, Cut(r, j + 1))
  {
    CutRows(f, roots, anchor, r, j + 1);
    RowsLength(f, roots, anchor, r.heightStart, r.interval, j + 1);
  }

  /** The `j`-th row lies in a later range. */
  lemma ResumesLater(f: DigestFn, roots: Roots, anchor: Checkpoint, ranges: seq<RangeType>, i: nat, next: nat, j: nat,
      h: nat)
    requires anchor.block < next && i < |ranges| && Chained(ranges, i, next) && h > ranges[i].range.heightEnd
    requires Resumes(f, roots, anchor, ranges, i + 1, ranges[i].range.heightEnd + 1, j, h)
    ensures Resumes(f, roots, anchor, ranges, i, next, |RowsOfRange(f, roots, anchor, ranges[i].range)| + j, h)
  {
    var head := RowsOfRange(f, roots, anchor, ranges[i].range);
    var tail := RowsOf(f, roots, anchor, ranges, i + 1, ranges[i].range.heightEnd + 1);
    assert (head + tail)[|head| + j + 1..] == tail[j + 1..];
    assert (head + tail)[|head| + j] == tail[j];
  }

  lemma RowIsAbove(f: DigestFn, roots: Roots, anchor: Checkpoint, ranges: seq<RangeType>, i: nat, next: nat, j: nat)
    requires anchor.block < next && Chained(ranges, i, next) && j < |RowsOf(f, roots, anchor, ranges, i, next)|
    ensures RowsOf(f, roots, anchor, ranges, i, next)[j].block >= next
  {
    RowsAreSampled(f, roots, anchor, ranges, i, next);
  }

  lemma {:induction false} RowsResume(f: DigestFn, roots: Roots, anchor: Checkpoint, ranges: seq<RangeType>, i: nat,
      next: nat, j: nat)
    requires anchor.block < next && i <= |ranges| && Chained(ranges, i, next)
    requires j < |RowsOf(f, roots, anchor, ranges, i, next)|
    ensures Resumes(f, roots, anchor, ranges, i, next, j, RowsOf(f, roots, anchor, ranges, i, next)[j].block)
    decreases |ranges| - i
  {
    var r := ranges[i].range;
    var n := Chunks(Blocks(r), r.interval);
    RowsLength(f, roots, anchor, r.heightStart, r.interval, n);
    if j + 1 < n {
      ResumesInRange(f, roots, anchor, ranges, i, next, j);
    } else if j + 1 == n {
      ResumesAfterRange(f, roots, anchor, ranges, i, next);
    } else {
      var later := RowsOf(f, roots, anchor, ranges, i + 1, r.heightEnd + 1);
      RowsResume(f, roots, anchor, ranges, i + 1, r.heightEnd + 1, j - n);
      RowIsAbove(f, roots, anchor, ranges, i + 1, r.heightEnd + 1, j - n);
      ResumesLater(f, roots, anchor, ranges, i, next, j - n, later[j - n].block);
    }
  }

  // ---- restarting -----------------------------------------------------------------------------------

  /** The configuration that continues after `row`. */
  function Restart(cfg: Config, row: Checkpoint): Config {
    Config(Some(row.digest), Remaining(cfg.ranges, 0, row.block))
  }

  /** What remains above height `h` yields `rows`. */
  ghost predicate Yields(f: DigestFn, roots: Roots, a: Checkpoint, ranges: seq<RangeType>, i: nat, h: nat,
      rows: seq<Checkpoint>)
    requires i <= |ranges|
  {
    var rest := Remaining(ranges, i, h);
    var holds := a.block <= h && Chained(rest, 0, h + 1) && RowsOf(f, roots, a, rest, 0, h + 1) == rows;
    holds
  }

  lemma GenesisYields(f: DigestFn, roots: Roots, cfg: Config)
    requires Usable(cfg) && cfg.ranges[0].Genesis?
    ensures var a, rows := Anchor(f, roots, cfg), FullRows(f, roots, cfg);
            |rows| > 0 && rows[0] == a && Yields(f, roots, a, cfg.ranges, 1, a.block, rows[1..])
  {
    BodyIsChained(f, roots, cfg);
    var a := Anchor(f, roots, cfg);
    var body := RowsOf(f, roots, a, cfg.ranges, 1, a.block + 1);
    NothingBelow(f, roots, a, cfg.ranges, 1, a.block);
    assert FullRows(f, roots, cfg) == [a] + body && ([a] + body)[1..] == body;
  }

  /** Row `k` of the regular ranges is row `Base(cfg) + k` of the output. */
  lemma BodyYields(f: DigestFn, roots: Roots, cfg: Config, k: nat)
    requires Usable(cfg) && Base(cfg) + k < |FullRows(f, roots, cfg)|
    ensures var a, i, rows := Anchor(f, roots, cfg), Base(cfg), FullRows(f, roots, cfg);
            Yields(f, roots, a, cfg.ranges, i, rows[i + k].block, rows[i + k + 1..])
  {
    BodyIsChained(f, roots, cfg);
    var a, i := Anchor(f, roots, cfg), Base(cfg);
    var body := RowsOf(f, roots, a, cfg.ranges, i, a.block + 1);
    var head := if i == 1 then [a] else [];
    assert FullRows(f, roots, cfg) == head + body && |head| == i;
    assert (head + body)[i + k] == body[k] && (head + body)[i + k + 1..] == body[k + 1..];
    RowsResume(f, roots, a, cfg.ranges, i, a.block + 1, k);
  }

  /** The `j`-th row of the full output: either the genesis, or a row of the regular ranges. */
  lemma BodyRow(f: DigestFn, roots: Roots, cfg: Config, j: nat)
    requires Usable(cfg) && j < |FullRows(f, roots, cfg)|
    ensures var rows := FullRows(f, roots, cfg);
            Yields(f, roots, Anchor(f, roots, cfg), cfg.ranges, Base(cfg), rows[j].block, rows[j + 1..])
  {
    if j < Base(cfg) {
      GenesisYields(f, roots, cfg);
    } else {
      BodyYields(f, roots, cfg, j - Base(cfg));
    }
  }

  /** Interrupt and resume. From any row of the full output, the ranges that remain are empty
      exactly at the last row; otherwise they form, with the row's digest, a usable configuration
      whose full output is exactly what follows that row. */
  lemma ResumeFromRow(f: DigestFn, roots: Roots, cfg: Config, j: nat)
    requires Usable(cfg) && j < |FullRows(f, roots, cfg)|
    ensures var rows := FullRows(f, roots, cfg);
            var cfg' := Restart(cfg, rows[j]);
            && (cfg'.ranges == [] <==> j == |rows| - 1)
            && (cfg'.ranges != [] ==> Usable(cfg') && FullRows(f, roots, cfg') == rows[j + 1..])
  {
    var rows, a := FullRows(f, roots, cfg), Anchor(f, roots, cfg);
    var h, rest := rows[j].block, Remaining(cfg.ranges, Base(cfg), rows[j].block);
    BodyRow(f, roots, cfg, j);
    assert Remaining(cfg.ranges, 0, h) == rest;
    OutputIsThePlainChain(f, roots, cfg);
    assert OnPlainChain(f, roots, a, rows[j], a.block, cfg.EndBlock());
    if rest != [] {
      ChainedIsWellFormed(rest, h + 1);
      RowsAreSampled(f, roots, a, rest, 0, h + 1);
      RestartOutput(f, roots, cfg, a, rows[j]);
    }
  }

  lemma RestartOutput(f: DigestFn, roots: Roots, cfg: Config, a: Checkpoint, row: Checkpoint)
    requires a.block <= row.block && row == Row(f, roots, a, row.block) && Usable(Restart(cfg, row))
    requires var rest := Remaining(cfg.ranges, 0, row.block);
             Chained(rest, 0, row.block + 1) && rest[0].HeightStart() == row.block + 1
    ensures FullRows(f, roots, Restart(cfg, row)) ==
            RowsOf(f, roots, a, Remaining(cfg.ranges, 0, row.block), 0, row.block + 1)
  {
    RowsFromNearer(f, roots, a, row.block, Remaining(cfg.ranges, 0, row.block), 0, row.block + 1);
  }

  lemma {:induction false} RemainingIsParsed(ranges: seq<RangeType>, i: nat, h: nat)
    requires i <= |ranges| && Parsed(ranges)
    ensures Parsed(Remaining(ranges, i, h))
    decreases |ranges| - i
  {
    if i < |ranges| {
      assert ranges[i] in ranges;
      assert forall r :: r in ranges[i + 1..] ==> r in ranges;
      RemainingIsParsed(ranges, i + 1, h);
    }
  }

  /** The configuration to restart from is accepted, given the chain key every resumed run needs;
      after the last row there is nothing to restart and it is rejected. */
  lemma RestartIsAccepted(f: DigestFn, roots: Roots, cfg: Config, j: nat, dryRun: bool, chainKey: nat)
    requires Usable(cfg) && Parsed(cfg.ranges) && j < |FullRows(f, roots, cfg)|
    ensures var rows := FullRows(f, roots, cfg);
            var cfg' := Restart(cfg, rows[j]);
            FromCommon(Args(cfg'.startingDigest, Some(cfg'.ranges), dryRun, Some(chainKey)))
            == if j < |rows| - 1 then Some(cfg') else None
  {
    var rows := FullRows(f, roots, cfg);
    var cfg' := Restart(cfg, rows[j]);
    ResumeFromRow(f, roots, cfg, j);
    if cfg'.ranges != [] {
      RemainingIsParsed(cfg.ranges, 0, rows[j].block);
      AcceptedIffUsable(Args(cfg'.startingDigest, Some(cfg'.ranges), dryRun, Some(chainKey)));
    }
  }

  /** A run that was cut off, whatever cut it off, followed by a full run from any row it sent,
      yields the full output (source not short). */
  lemma InterruptThenResume(f: DigestFn, roots: Roots, source: Source, cfg: Config, limit: nat, sent: seq<Checkpoint>,
      ok: bool, j: nat)
    requires Usable(cfg) && NoShortRange(f, roots, source, cfg) && BuilderResult(f, roots, source, cfg, limit, sent, ok)
    requires j < |sent|
    ensures var cfg' := Restart(cfg, sent[j]);
            if cfg'.ranges == [] then sent[..j + 1] == FullRows(f, roots, cfg)
            else Usable(cfg') && sent[..j + 1] + FullRows(f, roots, cfg') == FullRows(f, roots, cfg)
  {
    var rows := FullRows(f, roots, cfg);
    assert sent <= rows;
    assert sent[..j + 1] == rows[..j + 1] && sent[j] == rows[j];
    ResumeFromRow(f, roots, cfg, j);
  }
}
