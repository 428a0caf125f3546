/** Every write of a backfill is a `GapWrite` step of the protocol. */
module BackfillSteps {
  import opened Types
  import opened Heights
  import opened StoreSpec
  import opened Gaps
  import opened SourceChain
  import opened Protocol
  import opened Backfill

  /** Blocks `k..n` of a gap stream lie on the live chain `c`; the later ones may not exist yet. */
  ghost predicate FromLive(w: World, c: seq<Header>, from: nat, blocks: seq<Block>, k: nat, n: nat) {
    && k <= n <= |blocks| && from + n <= |c|
    && forall i :: k <= i < n ==> blocks[i] == Block(c[from + i].root, w.hashOf(c[from + i]))
  }

  /** Heights of `db` lie in the window or were there before. */
  lemma AddedLieInWindow(db0: Db, db: Db, lo: nat, hi: nat, gaps: seq<Gap>, h: nat)
    requires ExactGaps(gaps, db0, lo, hi) && OnlyGapsFilled(db0, db, gaps) && h in db
    ensures h in db0 || lo <= h <= hi
  {
  }

  /** Filling gaps moves neither end of the window they were listed for. */
  lemma WindowStays(db0: Db, db: Db, start: nat, end: Option<nat>, lo: nat, hi: nat, gaps: seq<Gap>)
    requires Window(db0, Some(start), end) == Some((lo, hi)) && ExactGaps(gaps, db0, lo, hi)
    requires OnlyGapsFilled(db0, db, gaps)
    ensures Window(db, Some(start), end) == Some((lo, hi))
  {
    if end.None? {
      var f0, t0 := First(db0).value, Tip(db0).value;
      assert f0 in db && t0 in db;
      AddedLieInWindow(db0, db, lo, hi, gaps, First(db).value);
      AddedLieInWindow(db0, db, lo, hi, gaps, Tip(db).value);
    }
  }

  /** A gap starts at the low end of the window or right above a stored height. */
  lemma GapStart(db0: Db, gaps: seq<Gap>, lo: nat, hi: nat, i: nat)
    requires ExactGaps(gaps, db0, lo, hi) && i < |gaps|
    ensures lo <= gaps[i].from <= gaps[i].to <= hi
    ensures gaps[i].from == lo || gaps[i].from - 1 in db0
  {
    assert InGaps(gaps, gaps[i].from) && InGaps(gaps, gaps[i].to);
    assert !InGaps(gaps, gaps[i].from - 1);
  }

  /** Where the loop stands before gap `i`: the list answers for the window it was made for, and
      that gap is still untouched in `db`. */
  ghost predicate AtGap(db0: Db, db: Db, fill: Fill, gaps: seq<Gap>, i: nat) {
    && fill.Fill? && i < |gaps| && Window(db0, Some(fill.from), fill.end).Some?
    && var (lo, hi) := Window(db0, Some(fill.from), fill.end).value;
    && ExactGaps(gaps, db0, lo, hi) && OnlyGapsFilled(db0, db, gaps) && Untouched(db, gaps, i)
  }

  /** Blocks `k..n` of a gap stream are a missing stretch the protocol may write. */
  lemma WriteIsFillable(db0: Db, db: Db, fill: Fill, gaps: seq<Gap>, i: nat, blocks: seq<Block>, k: nat, n: nat)
    requires AtGap(db0, db, fill, gaps, i) && k < n <= |blocks| && n <= GapLength(gaps[i])
    ensures MissingFrom(db, gaps[i].from, gaps[i].to)
    ensures Fillable(Filled(db, gaps[i].from, blocks, k), fill, gaps[i].from + k, n - k)
  {
    var from := gaps[i].from;
    var (lo, hi) := Window(db0, Some(fill.from), fill.end).value;
    GapFilled(db0, db, Filled(db, from, blocks, k), gaps, i, lo, hi, blocks, k);
    WindowStays(db0, Filled(db, from, blocks, k), fill.from, fill.end, lo, hi, gaps);
    GapStart(db0, gaps, lo, hi, i);
    FilledDomain(db, from, blocks, k);
    assert MissingFrom(db, from, gaps[i].to);
  }

  lemma StretchIsPending(w: World, c: seq<Header>, from: nat, blocks: seq<Block>, k: nat, n: nat)
    requires FromLive(w, c, from, blocks, k, n) && k <= n <= |blocks|
    ensures Pending(Stretch(w, c, from + k, n - k), from, blocks, n)
  {
    var batch := Stretch(w, c, from + k, n - k);
    forall i | 0 <= i < n - k ensures batch[i] == EntryOf(from, blocks, k + i) {
      assert batch[i] == Delivered(w, c, from + k + i);
      assert blocks[k + i] == Block(c[from + (k + i)].root, w.hashOf(c[from + (k + i)]));
    }
  }

  /** A fillable stretch of the live chain can be written, with the outcome `db`. */
  ghost predicate Writable(w: World, s: State, first: nat, count: nat, db: Db) {
    && s.phase.Starting? && first + count <= |s.chain| && count > 0
    && Fillable(s.db, s.phase.fill, first, count)
    && Accepts(s.db, Stretch(w, s.chain, first, count)) && db == Overlay(s.db, Stretch(w, s.chain, first, count))
  }

  /** `step` is enabled, and writes the store `db` and nothing else. */
  ghost predicate Writes(w: World, s: State, step: Step, db: Db) {
    var holds := Enabled(w, s, step) && Apply(w, s, step) == s.(db := db, history := s.history + {s.db}, batch := []);
    holds
  }

  lemma WritableIsGapWrite(w: World, s: State, first: nat, count: nat, db: Db)
    requires Writable(w, s, first, count, db)
    ensures Writes(w, s, GapWrite(first, count), db)
  {
  }

  lemma WriteFills(w: World, c: seq<Header>, db: Db, gap: Gap, blocks: seq<Block>, k: nat, n: nat)
    requires MissingFrom(db, gap.from, gap.to) && k < n <= |blocks| && n <= GapLength(gap)
    requires FromLive(w, c, gap.from, blocks, k, n)
    ensures var batch := Stretch(w, c, gap.from + k, n - k);
            && Accepts(Filled(db, gap.from, blocks, k), batch)
            && Overlay(Filled(db, gap.from, blocks, k), batch) == Filled(db, gap.from, blocks, n)
  {
    StretchIsPending(w, c, gap.from, blocks, k, n);
    PendingIsAccepted(db, Stretch(w, c, gap.from + k, n - k), gap.from, blocks, n);
  }

  lemma WriteIsWritable(w: World, s: State, db0: Db, db: Db, gaps: seq<Gap>, i: nat, blocks: seq<Block>, k: nat, n: nat)
    requires s.phase.Starting? && AtGap(db0, db, s.phase.fill, gaps, i)
    requires k < n <= |blocks| && n <= GapLength(gaps[i]) && FromLive(w, s.chain, gaps[i].from, blocks, k, n)
    requires s.db == Filled(db, gaps[i].from, blocks, k)
    ensures Writable(w, s, gaps[i].from + k, n - k, Filled(db, gaps[i].from, blocks, n))
  {
    WriteIsFillable(db0, db, s.phase.fill, gaps, i, blocks, k, n);
    WriteFills(w, s.chain, db, gaps[i], blocks, k, n);
  }

  /** In the state the loop over the gaps is in before it writes blocks `k..n` of gap `i`, that
      write is an enabled `GapWrite`, and taking the step leaves the store the write leaves. */
  lemma WriteIsGapWrite(w: World, s: State, db0: Db, db: Db, gaps: seq<Gap>, i: nat, blocks: seq<Block>, k: nat, n: nat)
    requires s.phase.Starting? && AtGap(db0, db, s.phase.fill, gaps, i)
    requires k < n <= |blocks| && n <= GapLength(gaps[i]) && FromLive(w, s.chain, gaps[i].from, blocks, k, n)
    requires s.db == Filled(db, gaps[i].from, blocks, k)
    ensures Writes(w, s, GapWrite(gaps[i].from + k, n - k), Filled(db, gaps[i].from, blocks, n))
  {
    WriteIsWritable(w, s, db0, db, gaps, i, blocks, k, n);
    WritableIsGapWrite(w, s, gaps[i].from + k, n - k, Filled(db, gaps[i].from, blocks, n));
  }
}
