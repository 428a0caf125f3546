/** Filling gaps before following the tip, and one-shot range runs. */
module Backfill {
  import opened Types
  import opened StoreSpec
  import opened Gaps
  import opened RootStoreModule

  /** What a gap stream hands over for one block. Its height is implied: a stream delivers
      consecutive heights from its start. */
  datatype Block = Block(root: H256, hash: H256)

  /** How the attempt on one gap goes. `blocks` is all the stream would deliver; `shutdown` says
      that a signal arrived meanwhile (possibly cutting `blocks` short), `unrecoverable` that the
      stream ends after `blocks` on a block no retry can fetch. The stream records that error in
      the very poll that ends it, so a caller that stops polling earlier never sees it. */
  datatype Attempt =
    | ShutdownBeforeStream
    | NoClient
    | Streamed(blocks: seq<Block>, shutdown: bool, unrecoverable: bool)

  datatype Exit =
    | Proceed           // gaps done, go on to follow the tip
    | Complete          // range verified complete: exit status zero
    | RangeIncomplete   // range verified incomplete
    | Stopped           // interrupted without a range to verify: a clean exit
    | Failed            // no usable client, or an unrecoverable block

  function EntryOf(from: nat, blocks: seq<Block>, i: nat): Entry
    requires i < |blocks|
  {
    Entry(from + i, blocks[i].root, blocks[i].hash)
  }

  /** `db` with the first `n` delivered blocks added from height `from` on. */
  ghost function Filled(db: Db, from: nat, blocks: seq<Block>, n: nat): Db
    requires n <= |blocks|
  {
    if n == 0 then db else Filled(db, from, blocks, n - 1)[from + n - 1 := EntryOf(from, blocks, n - 1).Stored()]
  }

  /** `batch` is blocks `k..n` of the stream. */
  ghost predicate Pending(batch: seq<Entry>, from: nat, blocks: seq<Block>, n: nat) {
    && |batch| <= n <= |blocks|
    && forall i :: 0 <= i < |batch| ==> batch[i] == EntryOf(from, blocks, n - |batch| + i)
  }

  ghost predicate MissingFrom(db: Db, from: nat, to: int) {
    forall h :: from <= h <= to ==> h !in db
  }

  lemma {:induction false} FilledDomain(db: Db, from: nat, blocks: seq<Block>, n: nat)
    requires n <= |blocks|
    ensures forall h :: h in Filled(db, from, blocks, n) <==> h in db || from <= h < from + n
  {
    if n > 0 { FilledDomain(db, from, blocks, n - 1); }
  }

  lemma {:induction false} FilledElsewhere(db: Db, from: nat, blocks: seq<Block>, n: nat, h: nat)
    requires n <= |blocks| && h in db && !(from <= h < from + n)
    ensures h in Filled(db, from, blocks, n) && Filled(db, from, blocks, n)[h] == db[h]
  {
    if n > 0 { FilledElsewhere(db, from, blocks, n - 1, h); }
  }

  lemma {:induction false} FilledInside(db: Db, from: nat, blocks: seq<Block>, n: nat, h: nat)
    requires from <= h < from + n && n <= |blocks|
    ensures h in Filled(db, from, blocks, n)
    ensures Filled(db, from, blocks, n)[h] == StoredRoot(blocks[h - from].root, blocks[h - from].hash)
  {
    if h < from + n - 1 { FilledInside(db, from, blocks, n - 1, h); }
  }

  lemma {:induction false} OverlayPending(db: Db, batch: seq<Entry>, from: nat, blocks: seq<Block>, n: nat, m: nat)
    requires Pending(batch, from, blocks, n) && m <= |batch|
    requires forall i :: 0 <= i < |batch| ==> batch[i].height !in Filled(db, from, blocks, n - |batch|)
    ensures OverlayTo(Filled(db, from, blocks, n - |batch|), batch, m) == Filled(db, from, blocks, n - |batch| + m)
    ensures FreshTo(Filled(db, from, blocks, n - |batch|), batch, m) == m
  {
    if m > 0 {
      OverlayPending(db, batch, from, blocks, n, m - 1);
      assert batch[m - 1] == EntryOf(from, blocks, n - |batch| + m - 1);
    }
  }

  /** A batch of a gap stream is never rejected, counts in full, and is simply added. */
  lemma PendingIsAccepted(db: Db, batch: seq<Entry>, from: nat, blocks: seq<Block>, n: nat)
    requires Pending(batch, from, blocks, n) && MissingFrom(db, from, from + n - 1)
    ensures var k := n - |batch|;
            && Accepts(Filled(db, from, blocks, k), batch)
            && Overlay(Filled(db, from, blocks, k), batch) == Filled(db, from, blocks, n)
            && Fresh(Filled(db, from, blocks, k), batch) == |batch|
  {
    var k := n - |batch|;
    FilledDomain(db, from, blocks, k);
    OverlayPending(db, batch, from, blocks, n, |batch|);
  }

  method WritePending(store: RootStore, batch: seq<Entry>, ghost db: Db, from: nat, ghost blocks: seq<Block>,
      ghost n: nat)
    requires store.Valid() && Pending(batch, from, blocks, n) && MissingFrom(db, from, from + n - 1)
    requires from + n - 1 <= U64_MAX && store.db == Filled(db, from, blocks, n - |batch|)
    modifies store
    ensures store.Valid() && store.db == Filled(db, from, blocks, n)
    ensures store.entryCount == old(store.entryCount) + |batch|
    ensures CountExact(old(store.View())) ==> CountExact(store.View())
  {
    PendingIsAccepted(db, batch, from, blocks, n);
    DistinctCountsOnce(store.View(), batch);
    if CountExact(store.View()) { StepCounts(store.View(), Put(batch)); }
    var r := store.PutRoots(batch);
  }

  /** One gap: push what the stream delivers, writing every `flushSize` blocks and at the end of
      the gap, until the gap or the stream ends. */
  method FillGap(store: RootStore, gap: Gap, blocks: seq<Block>, flushSize: nat) returns (filled: nat)
    requires store.Valid() && gap.from <= gap.to <= U64_MAX && flushSize > 0
    requires MissingFrom(store.db, gap.from, gap.to)
    modifies store
    ensures store.Valid()
    ensures filled == if |blocks| <= GapLength(gap) then |blocks| else GapLength(gap)
    ensures store.db == Filled(old(store.db), gap.from, blocks, filled)
    ensures store.entryCount == old(store.entryCount) + filled
    ensures CountExact(old(store.View())) ==> CountExact(store.View())
  {
    ghost var db := store.db;
    var batch: seq<Entry> := [];
    filled := 0;
    var done := false;
    while filled < |blocks| && !done
      invariant filled <= |blocks| && filled <= GapLength(gap) && (done <==> filled == GapLength(gap))
      invariant store.Valid() && Pending(batch, gap.from, blocks, filled)
      invariant store.db == Filled(db, gap.from, blocks, filled - |batch|)
      invariant store.entryCount == old(store.entryCount) + filled - |batch|
      invariant CountExact(old(store.View())) ==> CountExact(store.View())
    {
      var info := EntryOf(gap.from, blocks, filled);
      done := info.height >= gap.to;
      batch := batch + [info];
      filled := filled + 1;
      if |batch| >= flushSize || done {
        WritePending(store, batch, db, gap.from, blocks, filled);
        batch := [];
      }
    }
    if batch != [] {
      WritePending(store, batch, db, gap.from, blocks, filled);
    }
  }

  // ---- verifying a range ------------------------------------------------------------------------

  ghost predicate RangeStored(db: Db, start: nat, end: nat) {
    forall h :: start <= h <= end ==> h in db
  }

  lemma NoGapsMeansStored(gaps: seq<Gap>, db: Db, start: nat, end: nat)
    requires ExactGaps(gaps, db, start, end)
    ensures gaps == [] <==> RangeStored(db, start, end)
  {
    if gaps != [] { assert InGaps(gaps, gaps[0].from); }
    if !RangeStored(db, start, end) {
      var h :| start <= h <= end && h !in db;
      assert InGaps(gaps, h);
    }
  }

  /** Succeeds exactly when every height of `start..=end` is stored and `end` is not the last
      u64, whose successor the tail test cannot represent. */
  method EnsureRangeComplete(store: RootStore, start: nat, end: nat) returns (ok: bool)
    requires store.Valid() && start <= end <= U64_MAX
    ensures ok <==> RangeStored(store.db, start, end) && end < U64_MAX
  {
    var gaps := store.FindGaps(Some(start), Some(end));
    if !TailWraps(store.db, Some(start), Some(end)) {
      NoGapsMeansStored(gaps, store.db, start, end);
    }
    ok := gaps == [];
  }

  /** Exit status of a backfill stopped by a signal. */
  method BackfillShutdown(store: RootStore, start: nat, rangeEnd: Option<nat>) returns (exit: Exit)
    requires store.Valid() && (rangeEnd.Some? ==> start <= rangeEnd.value <= U64_MAX)
    ensures rangeEnd.None? ==> exit == Stopped
    ensures rangeEnd.Some? ==>
              exit == if RangeStored(store.db, start, rangeEnd.value) && rangeEnd.value < U64_MAX then Complete else
                  RangeIncomplete
  {
    match rangeEnd {
      case Some(end) =>
        var ok := EnsureRangeComplete(store, start, end);
        exit := if ok then Complete else RangeIncomplete;
      case None =>
        exit := Stopped;
    }
  }

  // ---- the whole phase --------------------------------------------------------------------------

  /** Entries of `db` are kept as they are, and only listed gap heights were added. */
  ghost predicate OnlyGapsFilled(db: Db, db': Db, gaps: seq<Gap>) {
    && (forall h :: h in db ==> h in db' && db'[h] == db[h])
    && (forall h :: h in db' ==> h in db || InGaps(gaps, h))
  }

  /** Gaps from index `i` on are still untouched. */
  ghost predicate Untouched(db: Db, gaps: seq<Gap>, i: nat) {
    forall j :: i <= j < |gaps| ==> MissingFrom(db, gaps[j].from, gaps[j].to)
  }

  ghost predicate AllFilled(db: Db, gaps: seq<Gap>, i: nat)
    requires i <= |gaps|
  {
    forall j, h :: 0 <= j < i && gaps[j].from <= h <= gaps[j].to ==> h in db
  }

  /** The attempt on gap `i` runs to the end of the gap undisturbed. */
  ghost predicate Succeeds(gaps: seq<Gap>, attempts: seq<Attempt>, i: nat)
    requires i < |gaps|
  {
    && i < |attempts| && attempts[i].Streamed? && !attempts[i].shutdown
    && GapLength(gaps[i]) <= |attempts[i].blocks|
  }

  function SumTo(gaps: seq<Gap>, i: nat): int
    requires i <= |gaps|
  {
    if i == 0 then 0 else SumTo(gaps, i - 1) + GapLength(gaps[i - 1])
  }

  /** Filling gap `i` of an exact list. */
  lemma GapFilled(db0: Db, db: Db, db': Db, gaps: seq<Gap>, i: nat, lo: nat, hi: nat, blocks: seq<Block>, filled: nat)
    requires ExactGaps(gaps, db0, lo, hi) && i < |gaps| && filled <= |blocks| && filled <= GapLength(gaps[i])
    requires OnlyGapsFilled(db0, db, gaps) && Untouched(db, gaps, i)
    requires db' == Filled(db, gaps[i].from, blocks, filled)
    ensures OnlyGapsFilled(db0, db', gaps) && Untouched(db', gaps, i + 1)
  {
    var g := gaps[i];
    FilledDomain(db, g.from, blocks, filled);
    forall h | h in db0 ensures h in db' && db'[h] == db0[h] {
      assert g.from <= h <= g.to ==> InGaps(gaps, h);
      FilledElsewhere(db, g.from, blocks, filled, h);
    }
    forall h | h in db' ensures h in db0 || InGaps(gaps, h) {
      if h !in db { assert g.from <= h <= g.to; }
    }
    forall j | i + 1 <= j < |gaps| ensures MissingFrom(db', gaps[j].from, gaps[j].to) {
      assert MissingFrom(db, gaps[j].from, gaps[j].to) && g.to + 1 < gaps[j].from;
    }
  }

  lemma MoreFilled(db: Db, db': Db, gaps: seq<Gap>, i: nat, blocks: seq<Block>, filled: nat)
    requires i < |gaps| && filled == GapLength(gaps[i]) && 0 <= filled <= |blocks|
    requires AllFilled(db, gaps, i) && db' == Filled(db, gaps[i].from, blocks, filled)
    ensures AllFilled(db', gaps, i + 1)
  {
    FilledDomain(db, gaps[i].from, blocks, filled);
  }

  lemma {:induction false} SumIsTotal(gaps: seq<Gap>, i: nat)
    requires i <= |gaps|
    ensures SumTo(gaps, i) + Total(gaps[i..]) == Total(gaps)
  {
    if i > 0 {
      SumIsTotal(gaps, i - 1);
      assert gaps[i - 1..][1..] == gaps[i..];
    } else {
      assert gaps[0..] == gaps;
    }
  }

  ghost predicate SucceedTo(gaps: seq<Gap>, attempts: seq<Attempt>, i: nat)
    requires i <= |gaps|
  {
    forall j {:trigger Succeeds(gaps, attempts, j)} :: 0 <= j < i ==> Succeeds(gaps, attempts, j)
  }

  /** Where the loop is before gap `i`, having added `added` blocks. */
  ghost predicate Progress(db0: Db, db: Db, gaps: seq<Gap>, attempts: seq<Attempt>, i: nat, added: int) {
    var holds :=
      && i <= |gaps| && OnlyGapsFilled(db0, db, gaps) && Untouched(db, gaps, i)
      && (SucceedTo(gaps, attempts, i) ==> AllFilled(db, gaps, i) && added == SumTo(gaps, i));
    holds
  }

  lemma OneGapFurther(db0: Db, db: Db, db': Db, gaps: seq<Gap>, attempts: seq<Attempt>, i: nat, added: int, lo: nat,
      hi: nat, filled: nat)
    requires ExactGaps(gaps, db0, lo, hi) && i < |gaps| && Progress(db0, db, gaps, attempts, i, added)
    requires i < |attempts| && attempts[i].Streamed?
    requires filled <= |attempts[i].blocks| && filled <= GapLength(gaps[i])
    requires GapLength(gaps[i]) <= |attempts[i].blocks| ==> filled == GapLength(gaps[i])
    requires db' == Filled(db, gaps[i].from, attempts[i].blocks, filled)
    ensures Progress(db0, db', gaps, attempts, i + 1, added + filled)
  {
    GapFilled(db0, db, db', gaps, i, lo, hi, attempts[i].blocks, filled);
    if SucceedTo(gaps, attempts, i + 1) {
      assert Succeeds(gaps, attempts, i) && SucceedTo(gaps, attempts, i);
      MoreFilled(db, db', gaps, i, attempts[i].blocks, filled);
    }
  }

  /** The attempt on gap `i` cannot go on: no client, or the stream ended on an unrecoverable
      block before the gap was full. */
  ghost predicate Breaks(gaps: seq<Gap>, attempts: seq<Attempt>, i: nat)
    requires i < |gaps|
  {
    && i < |attempts|
    && (|| attempts[i].NoClient?
        || (attempts[i].Streamed? && attempts[i].unrecoverable && |attempts[i].blocks| < GapLength(gaps[i])))
  }

  /** The attempt on gap `i` ends without an error and without a signal. */
  ghost predicate Passes(gaps: seq<Gap>, attempts: seq<Attempt>, i: nat)
    requires i < |gaps|
  {
    i < |attempts| && attempts[i].Streamed? && !attempts[i].shutdown && !Breaks(gaps, attempts, i)
  }

  ghost predicate PassUpTo(gaps: seq<Gap>, attempts: seq<Attempt>, i: nat)
    requires i <= |gaps|
  {
    forall j {:trigger Passes(gaps, attempts, j)} :: 0 <= j < i ==> Passes(gaps, attempts, j)
  }

  /** Some attempt is reached and breaks the run off. */
  ghost predicate BrokenOff(gaps: seq<Gap>, attempts: seq<Attempt>) {
    exists i: nat :: i < |gaps| && PassUpTo(gaps, attempts, i) && Breaks(gaps, attempts, i)
  }

  /** The run reached gap `i` (or the end) and was not broken off there. */
  lemma StopsUnbroken(gaps: seq<Gap>, attempts: seq<Attempt>, i: nat)
    requires i <= |gaps| && PassUpTo(gaps, attempts, i)
    requires i < |gaps| ==> !Passes(gaps, attempts, i) && !Breaks(gaps, attempts, i)
    ensures !BrokenOff(gaps, attempts)
  {
    forall k: nat | k < |gaps| ensures !(PassUpTo(gaps, attempts, k) && Breaks(gaps, attempts, k)) {
      assert k < i ==> Passes(gaps, attempts, k);
    }
  }

  /** Attempt `j` streams the block of height `h`, which lies in gap `j`. */
  ghost predicate Streams(gaps: seq<Gap>, attempts: seq<Attempt>, j: nat, h: nat) {
    && j < |gaps| && j < |attempts| && attempts[j].Streamed?
    && gaps[j].from <= h <= gaps[j].to && h < gaps[j].from + |attempts[j].blocks|
  }

  /** `db` has, at height `h`, the block attempt `j` streams for it. */
  ghost predicate HasStreamed(db: Db, gaps: seq<Gap>, attempts: seq<Attempt>, j: nat, h: nat)
    requires Streams(gaps, attempts, j, h)
  {
    var block := attempts[j].blocks[h - gaps[j].from];
    h in db && db[h] == StoredRoot(block.root, block.hash)
  }

  ghost predicate Added(db: Db, db': Db, h: nat) { h in db' && h !in db }

  /** What was added are the blocks the first `i` attempts streamed into their gaps, every one. */
  ghost predicate BroughtTo(db: Db, db': Db, gaps: seq<Gap>, attempts: seq<Attempt>, i: nat) {
    var holds :=
      && (forall h: nat :: Added(db, db', h) ==> exists j: nat :: j < i && Streams(gaps, attempts, j, h))
      && (forall j: nat, h: nat :: j < i && Streams(gaps, attempts, j, h) ==> HasStreamed(db', gaps, attempts, j, h));
    holds
  }

  /** What was added are the blocks streamed by the attempts the loop reaches, every one. */
  ghost predicate Brought(db: Db, db': Db, gaps: seq<Gap>, attempts: seq<Attempt>) {
    var holds :=
      && (forall h: nat :: Added(db, db', h) ==>
           exists j: nat :: Streams(gaps, attempts, j, h) && PassUpTo(gaps, attempts, j))
      && (forall j: nat, h: nat :: Streams(gaps, attempts, j, h) && PassUpTo(gaps, attempts, j) ==>
           HasStreamed(db', gaps, attempts, j, h));
    holds
  }

  lemma BroughtGrows(db0: Db, db: Db, db': Db, gaps: seq<Gap>, attempts: seq<Attempt>, i: nat, lo: nat, hi: nat,
      filled: nat)
    requires ExactGaps(gaps, db0, lo, hi) && i < |gaps| && BroughtTo(db0, db, gaps, attempts, i)
    requires i < |attempts| && attempts[i].Streamed? && filled <= GapLength(gaps[i])
    requires filled == |attempts[i].blocks| || (filled == GapLength(gaps[i]) && filled <= |attempts[i].blocks|)
    requires db' == Filled(db, gaps[i].from, attempts[i].blocks, filled)
    ensures BroughtTo(db0, db', gaps, attempts, i + 1)
  {
    var g, blocks := gaps[i], attempts[i].blocks;
    FilledDomain(db, g.from, blocks, filled);
    forall h: nat | Added(db0, db', h) ensures exists j: nat :: j < i + 1 && Streams(gaps, attempts, j, h) {
      if h in db { assert Added(db0, db, h); } else { assert Streams(gaps, attempts, i, h); }
    }
    forall j: nat, h: nat | j < i + 1 && Streams(gaps, attempts, j, h)
      ensures HasStreamed(db', gaps, attempts, j, h)
    {
      if j == i {
        FilledInside(db, g.from, blocks, filled, h);
      } else {
        assert gaps[j].to + 1 < gaps[i].from;
        FilledElsewhere(db, g.from, blocks, filled, h);
      }
    }
  }

  /** An attempt that streams nothing adds nothing. */
  lemma NothingStreamed(db0: Db, db: Db, gaps: seq<Gap>, attempts: seq<Attempt>, i: nat)
    requires BroughtTo(db0, db, gaps, attempts, i) && (i >= |attempts| || !attempts[i].Streamed?)
    ensures BroughtTo(db0, db, gaps, attempts, i + 1)
  {
  }

  /** The loop reaches exactly the attempts up to the first that does not pass. */
  lemma BroughtIsAll(db: Db, db': Db, gaps: seq<Gap>, attempts: seq<Attempt>, i: nat)
    requires i <= |gaps| && PassUpTo(gaps, attempts, i) && BroughtTo(db, db', gaps, attempts, i + 1)
    requires i < |gaps| ==> !Passes(gaps, attempts, i)
    ensures Brought(db, db', gaps, attempts)
  {
    forall j: nat | j < |gaps| ensures PassUpTo(gaps, attempts, j) <==> j <= i {
      if j <= i {
        forall k | 0 <= k < j ensures Passes(gaps, attempts, k) { assert k < i; }
      } else {
        assert !Passes(gaps, attempts, i);
      }
    }
  }

  /** Some listed gap is still open. */
  ghost predicate Open(db: Db, gaps: seq<Gap>) {
    exists h: nat :: InGaps(gaps, h) && h !in db
  }

  /** How the loop over the gaps, or the attempt on one of them, ended. */
  datatype LoopEnd = AllTried | Interrupted | Broken

  /** What the attempt on gap `i` tells the loop. */
  ghost predicate Ended(gaps: seq<Gap>, attempts: seq<Attempt>, i: nat, end: LoopEnd)
    requires i < |gaps|
  {
    match end
    case AllTried => Passes(gaps, attempts, i)
    case Interrupted => !Passes(gaps, attempts, i) && !Breaks(gaps, attempts, i)
    case Broken => Breaks(gaps, attempts, i)
  }

  /** A gap that was not filled to its end is still open. */
  lemma StillOpen(db: Db, gaps: seq<Gap>, i: nat, blocks: seq<Block>, filled: nat)
    requires i < |gaps| && Untouched(db, gaps, i) && gaps[i].from <= gaps[i].to
    requires filled <= |blocks| && filled < GapLength(gaps[i])
    ensures Open(Filled(db, gaps[i].from, blocks, filled), gaps)
  {
    FilledDomain(db, gaps[i].from, blocks, filled);
    assert MissingFrom(db, gaps[i].from, gaps[i].to);
    assert InGaps(gaps, gaps[i].to);
  }

  /** Where the loop is before gap `i`: all attempts so far passed, and what they streamed is stored. */
  ghost predicate LoopAt(db: Db, db': Db, gaps: seq<Gap>, attempts: seq<Attempt>, i: nat, added: int) {
    var holds :=
      && i <= |gaps| && Progress(db, db', gaps, attempts, i, added)
      && PassUpTo(gaps, attempts, i) && BroughtTo(db, db', gaps, attempts, i);
    holds
  }

  /** What the loop over the gaps leaves behind, having added `added` to the count. */
  ghost predicate LoopResult(db: Db, db': Db, gaps: seq<Gap>, attempts: seq<Attempt>, end: LoopEnd, added: int) {
    var holds :=
      && OnlyGapsFilled(db, db', gaps) && Brought(db, db', gaps, attempts)
      && (end == Broken <==> BrokenOff(gaps, attempts))
      && (end == AllTried <==> PassUpTo(gaps, attempts, |gaps|))
      && (end == Broken ==> Open(db', gaps))
      && (SucceedTo(gaps, attempts, |gaps|) ==>
         end == AllTried && AllFilled(db', gaps, |gaps|) && added == SumTo(gaps, |gaps|));
    holds
  }

  lemma LoopStops(db: Db, db': Db, gaps: seq<Gap>, attempts: seq<Attempt>, i: nat, end: LoopEnd, added: int)
    requires i < |gaps| && PassUpTo(gaps, attempts, i) && Ended(gaps, attempts, i, end) && end != AllTried
    requires OnlyGapsFilled(db, db', gaps) && BroughtTo(db, db', gaps, attempts, i + 1)
    requires (end == Broken ==> Open(db', gaps)) && !Succeeds(gaps, attempts, i)
    ensures LoopResult(db, db', gaps, attempts, end, added)
  {
    BroughtIsAll(db, db', gaps, attempts, i);
    if end == Interrupted { StopsUnbroken(gaps, attempts, i); }
    assert !Passes(gaps, attempts, i);
  }

  lemma LoopFinishes(db: Db, db': Db, gaps: seq<Gap>, attempts: seq<Attempt>, added: int)
    requires LoopAt(db, db', gaps, attempts, |gaps|, added)
    ensures LoopResult(db, db', gaps, attempts, AllTried, added)
  {
    assert BroughtTo(db, db', gaps, attempts, |gaps| + 1);
    BroughtIsAll(db, db', gaps, attempts, |gaps|);
    StopsUnbroken(gaps, attempts, |gaps|);
  }

  lemma LoopGoesOn(db: Db, db': Db, gaps: seq<Gap>, attempts: seq<Attempt>, i: nat, added: int)
    requires i < |gaps| && PassUpTo(gaps, attempts, i) && Passes(gaps, attempts, i)
    requires Progress(db, db', gaps, attempts, i + 1, added) && BroughtTo(db, db', gaps, attempts, i + 1)
    ensures LoopAt(db, db', gaps, attempts, i + 1, added)
  {
  }

  /** Without a stream the loop ends there. */
  lemma Unstreamed(db0: Db, db: Db, gaps: seq<Gap>, attempts: seq<Attempt>, i: nat, added: int, end: LoopEnd)
    requires i < |gaps| && gaps[i].from <= gaps[i].to && LoopAt(db0, db, gaps, attempts, i, added)
    requires i >= |attempts| || !attempts[i].Streamed?
    requires end == if i < |attempts| && attempts[i].NoClient? then Broken else Interrupted
    ensures LoopResult(db0, db, gaps, attempts, end, added)
  {
    NothingStreamed(db0, db, gaps, attempts, i);
    if end == Broken {
      assert Filled(db, gaps[i].from, [], 0) == db;
      StillOpen(db, gaps, i, [], 0);
    }
    LoopStops(db0, db, gaps, attempts, i, end, added);
  }

  /** With one, the gap is filled as far as it goes, and the loop ends there or goes on. */
  lemma Streamed(db0: Db, db: Db, db': Db, gaps: seq<Gap>, attempts: seq<Attempt>, i: nat, added: int, lo: nat, hi: nat,
      filled: nat, end: LoopEnd)
    requires ExactGaps(gaps, db0, lo, hi) && i < |gaps| && LoopAt(db0, db, gaps, attempts, i, added)
    requires i < |attempts| && attempts[i].Streamed?
    requires var n := |attempts[i].blocks|; filled == if n <= GapLength(gaps[i]) then n else GapLength(gaps[i])
    requires db' == Filled(db, gaps[i].from, attempts[i].blocks, filled)
    requires end == if filled < GapLength(gaps[i]) && attempts[i].unrecoverable then Broken
                    else if attempts[i].shutdown then Interrupted else AllTried
    ensures if end == AllTried then LoopAt(db0, db', gaps, attempts, i + 1, added + filled)
            else LoopResult(db0, db', gaps, attempts, end, added + filled)
  {
    OneGapFurther(db0, db, db', gaps, attempts, i, added, lo, hi, filled);
    BroughtGrows(db0, db, db', gaps, attempts, i, lo, hi, filled);
    if end == AllTried {
      LoopGoesOn(db0, db', gaps, attempts, i, added + filled);
    } else {
      if end == Broken { StillOpen(db, gaps, i, attempts[i].blocks, filled); }
      LoopStops(db0, db', gaps, attempts, i, end, added + filled);
    }
  }

  /** One round of the loop. */
  method TryGap(
    store: RootStore, gaps: seq<Gap>, i: nat, flushSize: nat, attempts: seq<Attempt>,
    ghost db0: Db, ghost lo: nat, ghost hi: nat, ghost added: int)
    returns (end: LoopEnd)
    requires store.Valid() && flushSize > 0 && hi <= U64_MAX && ExactGaps(gaps, db0, lo, hi)
    requires i < |gaps| && LoopAt(db0, store.db, gaps, attempts, i, added)
    modifies store
    ensures store.Valid()
    ensures var added' := added + store.entryCount - old(store.entryCount);
            if end == AllTried then LoopAt(db0, store.db, gaps, attempts, i + 1, added')
            else LoopResult(db0, store.db, gaps, attempts, end, added')
    ensures CountExact(old(store.View())) ==> CountExact(store.View())
  {
    ghost var before := store.db;
    if i >= |attempts| || attempts[i].ShutdownBeforeStream? {
      Unstreamed(db0, before, gaps, attempts, i, added, Interrupted);
      return Interrupted;
    }
    if attempts[i].NoClient? {
      Unstreamed(db0, before, gaps, attempts, i, added, Broken);
      return Broken;
    }
    assert InGaps(gaps, gaps[i].to);
    var filled := FillGap(store, gaps[i], attempts[i].blocks, flushSize);
    var polledToTheEnd := filled < GapLength(gaps[i]);
    if polledToTheEnd && attempts[i].unrecoverable {
      end := Broken;
    } else {
      end := if attempts[i].shutdown then Interrupted else AllTried;
    }
    Streamed(db0, before, store.db, gaps, attempts, i, added, lo, hi, filled, end);
  }

  method FillGaps(store: RootStore, gaps: seq<Gap>, flushSize: nat, attempts: seq<Attempt>, ghost lo: nat,
      ghost hi: nat)
    returns (end: LoopEnd)
    requires store.Valid() && flushSize > 0 && hi <= U64_MAX && ExactGaps(gaps, store.db, lo, hi)
    modifies store
    ensures store.Valid()
    ensures LoopResult(old(store.db), store.db, gaps, attempts, end, store.entryCount - old(store.entryCount))
    ensures CountExact(old(store.View())) ==> CountExact(store.View())
  {
    ghost var db0, count0 := store.db, store.entryCount;
    NothingTouchedYet(gaps, attempts, db0, lo, hi);
    var i := 0;
    while i < |gaps|
      invariant 0 <= i <= |gaps| && store.Valid()
      invariant LoopAt(db0, store.db, gaps, attempts, i, store.entryCount - count0)
      invariant CountExact(old(store.View())) ==> CountExact(store.View())
    {
      end := TryGap(store, gaps, i, flushSize, attempts, db0, lo, hi, store.entryCount - count0);
      if end != AllTried {
        return;
      }
      i := i + 1;
    }
    LoopFinishes(db0, store.db, gaps, attempts, store.entryCount - count0);
    end := AllTried;
  }

  lemma NothingTouchedYet(gaps: seq<Gap>, attempts: seq<Attempt>, db: Db, lo: nat, hi: nat)
    requires ExactGaps(gaps, db, lo, hi)
    ensures LoopAt(db, db, gaps, attempts, 0, 0)
  {
    forall j | 0 <= j < |gaps| ensures MissingFrom(db, gaps[j].from, gaps[j].to) {
      forall h | gaps[j].from <= h <= gaps[j].to ensures h !in db {
        assert InGaps(gaps, h);
      }
    }
  }

  lemma FilledMeansStored(gaps: seq<Gap>, db0: Db, db: Db, lo: nat, hi: nat)
    requires ExactGaps(gaps, db0, lo, hi) && OnlyGapsFilled(db0, db, gaps) && AllFilled(db, gaps, |gaps|)
    ensures RangeStored(db, lo, hi)
  {
    forall h | lo <= h <= hi ensures h in db {
      if h !in db0 {
        assert InGaps(gaps, h);
        var j :| 0 <= j < |gaps| && gaps[j].from <= h <= gaps[j].to;
      }
    }
  }

  lemma OpenIsNotStored(gaps: seq<Gap>, db0: Db, db: Db, lo: nat, hi: nat)
    requires ExactGaps(gaps, db0, lo, hi) && Open(db, gaps)
    ensures !RangeStored(db, lo, hi)
  {
  }

  /** Fill every gap below the tip (or in `start..=rangeEnd`), whatever happens to the streams. */
  method RunBackfill(store: RootStore, start: nat, rangeEnd: Option<nat>, flushSize: nat, attempts: seq<Attempt>)
    returns (exit: Exit, gaps: seq<Gap>)
    requires store.Valid() && flushSize > 0
    requires rangeEnd.Some? ==> start <= rangeEnd.value < U64_MAX
    modifies store
    ensures store.Valid() && AnswersFor(gaps, old(store.db), Some(start), rangeEnd)
    // Whatever happens, stored entries stay as they are and only missing heights are added.
    ensures OnlyGapsFilled(old(store.db), store.db, gaps)
    // Every block that was streamed into its gap is stored, also when a signal or an error ends the run.
    ensures Brought(old(store.db), store.db, gaps, attempts)
    // In range mode the exit status tells the truth about the range.
    ensures rangeEnd.Some? ==> (exit == Complete <==> RangeStored(store.db, start, rangeEnd.value))
    ensures rangeEnd.Some? ==> exit in {Complete, RangeIncomplete, Failed}
    ensures exit == Failed <==> BrokenOff(gaps, attempts)
    // Without a range the tip is followed exactly if every gap was tried; a signal stops the process.
    ensures rangeEnd.None? ==> (exit == Proceed <==> PassUpTo(gaps, attempts, |gaps|))
    ensures rangeEnd.None? ==>
              (exit == Stopped <==> !BrokenOff(gaps, attempts) && !PassUpTo(gaps, attempts, |gaps|))
    // Undisturbed streams fill the whole window, and raise the count by what was announced.
    ensures SucceedTo(gaps, attempts, |gaps|) ==>
              && exit == (if rangeEnd.Some? then Complete else Proceed)
              && (var window := Window(old(store.db), Some(start), rangeEnd);
                  window.Some? ==> RangeStored(store.db, window.value.0, window.value.1))
              && store.entryCount == old(store.entryCount) + Total(gaps)
    ensures CountExact(old(store.View())) ==> CountExact(store.View())
  {
    gaps := store.FindGaps(Some(start), rangeEnd);
    SumIsTotal(gaps, |gaps|);
    if gaps != [] {
      ghost var db0 := store.db;
      ghost var (lo, hi) := Window(db0, Some(start), rangeEnd).value;
      var end := FillGaps(store, gaps, flushSize, attempts, lo, hi);
      if AllFilled(store.db, gaps, |gaps|) { FilledMeansStored(gaps, db0, store.db, lo, hi); }
      match end {
        case Broken =>
          OpenIsNotStored(gaps, db0, store.db, lo, hi);
          return Failed, gaps;
        case Interrupted =>
          exit := BackfillShutdown(store, start, rangeEnd);
          return;
        case AllTried =>
      }
    } else {
      NothingMissing(gaps, store.db, start, rangeEnd);
    }
    if rangeEnd.Some? {
      exit := BackfillShutdown(store, start, rangeEnd);
    } else {
      exit := Proceed;
    }
  }

  lemma NothingMissing(gaps: seq<Gap>, db: Db, start: nat, rangeEnd: Option<nat>)
    requires AnswersFor(gaps, db, Some(start), rangeEnd) && gaps == []
    ensures var window := Window(db, Some(start), rangeEnd);
            window.Some? ==> RangeStored(db, window.value.0, window.value.1)
  {
    var window := Window(db, Some(start), rangeEnd);
    if window.Some? { NoGapsMeansStored(gaps, db, window.value.0, window.value.1); }
  }
}
