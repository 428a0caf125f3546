/** Reading a chained source, and the builder on top of it. */
module ChainedRun {
  import opened Types
  import opened CheckpointConfig
  import opened DigestChain
  import opened CheckpointBuilder
  import opened BuilderRun
  import opened ChainedSource
  import opened RangeCheck

  // ---- iterating -----------------------------------------------------------------------------------

  /** What one database yields of `lo..=hi`: the heights it holds, ascending. */
  function DbItems(db: RootDb, lo: nat, hi: int): seq<Item>
    decreases hi + 1 - lo
  {
    if hi < lo then []
    else if hi in db then DbItems(db, lo, hi - 1) + [Block(RootInfo(hi, db[hi]))]
    else DbItems(db, lo, hi - 1)
  }

  lemma {:induction false} FullDbItems(db: RootDb, lo: nat, hi: int)
    requires lo <= hi + 1 && forall h :: lo <= h <= hi ==> h in db
    ensures |DbItems(db, lo, hi)| == hi + 1 - lo
    ensures forall k :: 0 <= k < hi + 1 - lo ==> DbItems(db, lo, hi)[k] == Block(RootInfo(lo + k, db[lo + k]))
    decreases hi + 1 - lo
  {
    if lo <= hi { FullDbItems(db, lo, hi - 1); }
  }

  /** Part `e` has nothing for the heights from `cursor` to `hi`. */
  predicate Skipped(entry: Part, cursor: nat, hi: nat) {
    entry.end < cursor || entry.start > hi
  }

  function ClipEnd(entry: Part, hi: nat): nat {
    if entry.end < hi then entry.end else hi
  }

  /** What a part that is not skipped adds: an error for the heights it leaves open, then blocks. */
  function PartItems(entry: Part, cursor: nat, hi: nat): seq<Item> {
    if entry.start > cursor then [SourceError] + DbItems(entry.db, entry.start, ClipEnd(entry, hi))
    else DbItems(entry.db, cursor, ClipEnd(entry, hi))
  }

  /** The items of `cursor..=hi` out of the parts from `i` on. */
  function ItemsFrom(entries: seq<Part>, i: nat, cursor: nat, hi: nat): seq<Item>
    requires i <= |entries|
    decreases |entries| - i
  {
    if i == |entries| || cursor > hi then (if cursor <= hi then [SourceError] else [])
    else if Skipped(entries[i], cursor, hi) then ItemsFrom(entries, i + 1, cursor, hi)
    else PartItems(entries[i], cursor, hi) + ItemsFrom(entries, i + 1, ClipEnd(entries[i], hi) + 1, hi)
  }

  lemma Associate(a: seq<Item>, b: seq<Item>, c: seq<Item>)
    ensures a + (b + c) == (a + b) + c
  {
  }

  /** The loop that strings the parts together. */
  method IterRange(entries: seq<Part>, start: nat, hi: nat) returns (items: seq<Item>)
    requires Layout(entries)
    ensures items == ItemsFrom(entries, 0, start, hi)
  {
    items := [];
    var cursor: nat := start;
    var i := 0;
    ghost var all := ItemsFrom(entries, 0, start, hi);
    while i < |entries|
      invariant 0 <= i <= |entries|
      invariant items + ItemsFrom(entries, i, cursor, hi) == all
    {
      if cursor > hi {
        break;
      }
      var entry := entries[i];
      i := i + 1;
      if entry.end < cursor || entry.start > hi {
        continue;
      }
      var clipStart := if entry.start > cursor then entry.start else cursor;
      var clipEnd := ClipEnd(entry, hi);
      var part := DbItems(entry.db, clipStart, clipEnd);
      if clipStart > cursor {
        part := [SourceError] + part;
      }
      Associate(items, part, ItemsFrom(entries, i, clipEnd + 1, hi));
      items := items + part;
      cursor := WrappingInc(clipEnd);
    }
    if cursor <= hi {
      items := items + [SourceError];
    }
  }

  /** The root a chained source has at `h`. */
  ghost function RootAt(entries: seq<Part>, h: nat): H256 {
    if e :| 0 <= e < |entries| && entries[e].Covers(h) && h in entries[e].db then entries[e].db[h] else ZERO_HASH
  }

  lemma RootOfPart(entries: seq<Part>, e: nat, h: nat)
    requires Layout(entries) && e < |entries| && entries[e].Covers(h)
    ensures h in entries[e].db && RootAt(entries, h) == entries[e].db[h]
  {
    var d :| 0 <= d < |entries| && entries[d].Covers(h) && h in entries[d].db && RootAt(entries, h) == entries[d].db[h];
  }

  ghost function BlockOf(entries: seq<Part>, h: nat): Item {
    Block(RootInfo(h, RootAt(entries, h)))
  }

  /** The first `n` items are the blocks from `cursor` on. */
  ghost predicate InOrder(entries: seq<Part>, items: seq<Item>, cursor: nat, n: nat) {
    n <= |items| && forall k: nat :: k < n ==> items[k] == BlockOf(entries, cursor + k)
  }

  /** Up to the first uncovered height `u`, exactly one block per height, and there an error. */
  ghost predicate YieldsUpTo(entries: seq<Part>, items: seq<Item>, cursor: nat, hi: nat, u: nat)
    requires cursor <= u
  {
    var holds :=
      && InOrder(entries, items, cursor, u - cursor)
      && (if u <= hi then u - cursor < |items| && items[u - cursor] == SourceError else |items| == u - cursor);
    holds
  }

  /** `u` is the first height of `cursor..=hi` no part covers, or `hi + 1`. */
  ghost predicate FirstUncovered(entries: seq<Part>, cursor: nat, hi: nat, u: nat) {
    var holds :=
      && cursor <= u <= hi + 1
      && (forall h: nat :: cursor <= h < u ==> Covered(entries, h))
      && (u <= hi ==> !Covered(entries, u));
    holds
  }

  ghost predicate PartsBehind(entries: seq<Part>, i: nat, cursor: nat, hi: nat)
    requires i <= |entries|
  {
    var holds := cursor <= hi ==> forall e :: 0 <= e < i ==> Skipped(entries[e], cursor, hi);
    holds
  }

  lemma NothingAhead(entries: seq<Part>, i: nat, cursor: nat, hi: nat)
    requires Layout(entries) && i <= |entries| && PartsBehind(entries, i, cursor, hi) && cursor <= hi
    requires i < |entries| ==> entries[i].start > cursor
    ensures !Covered(entries, cursor)
  {
    forall e | 0 <= e < |entries| ensures !entries[e].Covers(cursor) {
      assert e > i ==> entries[i].end < entries[e].start;
      assert e < i ==> Skipped(entries[e], cursor, hi);
    }
  }

  /** A covered stretch of a part yields one block per height. */
  lemma PartBlocks(entries: seq<Part>, i: nat, cursor: nat, clipEnd: nat)
    requires Layout(entries) && i < |entries| && entries[i].start <= cursor <= clipEnd <= entries[i].end
    ensures var part := DbItems(entries[i].db, cursor, clipEnd);
            |part| == clipEnd + 1 - cursor && InOrder(entries, part, cursor, clipEnd + 1 - cursor)
  {
    var part := DbItems(entries[i].db, cursor, clipEnd);
    assert forall h: nat :: cursor <= h <= clipEnd ==> entries[i].Covers(h);
    FullDbItems(entries[i].db, cursor, clipEnd);
    forall k: nat | k < clipEnd + 1 - cursor ensures part[k] == BlockOf(entries, cursor + k) {
      RootOfPart(entries, i, cursor + k);
    }
  }

  lemma BlocksJoin(entries: seq<Part>, a: seq<Item>, b: seq<Item>, cursor: nat, n: nat)
    requires InOrder(entries, a, cursor, |a|) && InOrder(entries, b, cursor + |a|, n)
    ensures InOrder(entries, a + b, cursor, |a| + n)
  {
    forall k: nat | k < |a| + n ensures (a + b)[k] == BlockOf(entries, cursor + k) {
      if k >= |a| { assert b[k - |a|] == BlockOf(entries, cursor + |a| + (k - |a|)); }
    }
  }

  lemma PartYields(entries: seq<Part>, i: nat, cursor: nat, clipEnd: nat, hi: nat, u: nat, rest: seq<Item>)
    requires Layout(entries) && i < |entries| && entries[i].start <= cursor <= clipEnd <= entries[i].end && clipEnd < u
    requires YieldsUpTo(entries, rest, clipEnd + 1, hi, u)
    ensures YieldsUpTo(entries, DbItems(entries[i].db, cursor, clipEnd) + rest, cursor, hi, u)
  {
    PartBlocks(entries, i, cursor, clipEnd);
    BlocksJoin(entries, DbItems(entries[i].db, cursor, clipEnd), rest, cursor, u - clipEnd - 1);
  }

  lemma PartIsCovered(entries: seq<Part>, i: nat)
    requires i < |entries|
    ensures forall h: nat :: entries[i].Covers(h) ==> Covered(entries, h)
  {
  }

  lemma ErrorFirst(entries: seq<Part>, items: seq<Item>, cursor: nat, hi: nat, u: nat)
    requires items != [] && items[0] == SourceError && cursor <= hi
    requires FirstUncovered(entries, cursor, hi, u) && !Covered(entries, cursor)
    ensures u == cursor && YieldsUpTo(entries, items, cursor, hi, u)
  {
  }

  /** Out of parts, or done. */
  lemma EndYields(entries: seq<Part>, i: nat, cursor: nat, hi: nat, u: nat)
    requires Layout(entries) && i <= |entries| && PartsBehind(entries, i, cursor, hi) &&
             FirstUncovered(entries, cursor, hi, u)
    requires i == |entries| || cursor > hi
    ensures YieldsUpTo(entries, ItemsFrom(entries, i, cursor, hi), cursor, hi, u)
  {
    if cursor <= hi {
      NothingAhead(entries, i, cursor, hi);
      ErrorFirst(entries, [SourceError], cursor, hi, u);
    }
  }

  /** The next part starts above the cursor. */
  lemma GapYields(entries: seq<Part>, i: nat, cursor: nat, hi: nat, u: nat)
    requires Layout(entries) && i < |entries| && PartsBehind(entries, i, cursor, hi) &&
             FirstUncovered(entries, cursor, hi, u)
    requires cursor <= hi && !Skipped(entries[i], cursor, hi) && entries[i].start > cursor
    ensures YieldsUpTo(entries, ItemsFrom(entries, i, cursor, hi), cursor, hi, u)
  {
    NothingAhead(entries, i, cursor, hi);
    ErrorFirst(entries, ItemsFrom(entries, i, cursor, hi), cursor, hi, u);
  }

  lemma SkipUnfolds(entries: seq<Part>, i: nat, cursor: nat, hi: nat)
    requires i < |entries| && cursor <= hi && Skipped(entries[i], cursor, hi) && PartsBehind(entries, i, cursor, hi)
    ensures ItemsFrom(entries, i, cursor, hi) == ItemsFrom(entries, i + 1, cursor, hi)
    ensures PartsBehind(entries, i + 1, cursor, hi)
  {
  }

  /** The first uncovered height lies past a part that covers `cursor`. */
  lemma PastPart(entries: seq<Part>, i: nat, cursor: nat, hi: nat, u: nat)
    requires Layout(entries) && i < |entries| && entries[i].start <= cursor <= entries[i].end && cursor <= hi
    requires FirstUncovered(entries, cursor, hi, u)
    ensures ClipEnd(entries[i], hi) < u && FirstUncovered(entries, ClipEnd(entries[i], hi) + 1, hi, u)
  {
    PartIsCovered(entries, i);
  }

  lemma PartsStayBehind(entries: seq<Part>, i: nat, cursor: nat, hi: nat)
    requires Layout(entries) && i < |entries| && PartsBehind(entries, i, cursor, hi) && cursor <= hi
    requires !Skipped(entries[i], cursor, hi)
    ensures PartsBehind(entries, i + 1, ClipEnd(entries[i], hi) + 1, hi)
  {
    forall e | 0 <= e < i ensures Skipped(entries[e], ClipEnd(entries[i], hi) + 1, hi) {
      assert Skipped(entries[e], cursor, hi);
    }
  }

  lemma PartUnfolds(entries: seq<Part>, i: nat, cursor: nat, hi: nat)
    requires i < |entries| && cursor <= hi && entries[i].start <= cursor <= entries[i].end
    ensures ItemsFrom(entries, i, cursor, hi) ==
            DbItems(entries[i].db, cursor, ClipEnd(entries[i], hi)) +
                ItemsFrom(entries, i + 1, ClipEnd(entries[i], hi) + 1, hi)
  {
  }

  /** A chained source yields every block up to the first height no database covers, and reports
      an error there: it never just ends early. */
  lemma {:induction false} ItemsYield(entries: seq<Part>, i: nat, cursor: nat, hi: nat, u: nat)
    requires Layout(entries) && i <= |entries| && PartsBehind(entries, i, cursor, hi) &&
             FirstUncovered(entries, cursor, hi, u)
    ensures YieldsUpTo(entries, ItemsFrom(entries, i, cursor, hi), cursor, hi, u)
    decreases |entries| - i
  {
    if i == |entries| || cursor > hi {
      EndYields(entries, i, cursor, hi, u);
    } else if Skipped(entries[i], cursor, hi) {
      SkipUnfolds(entries, i, cursor, hi);
      ItemsYield(entries, i + 1, cursor, hi, u);
    } else if entries[i].start > cursor {
      GapYields(entries, i, cursor, hi, u);
    } else {
      PastPart(entries, i, cursor, hi, u);
      PartsStayBehind(entries, i, cursor, hi);
      var rest := ItemsFrom(entries, i + 1, ClipEnd(entries[i], hi) + 1, hi);
      ItemsYield(entries, i + 1, ClipEnd(entries[i], hi) + 1, hi, u);
      PartYields(entries, i, cursor, ClipEnd(entries[i], hi), hi, u, rest);
      PartUnfolds(entries, i, cursor, hi);
    }
  }

  lemma {:induction false} FindUncovered(entries: seq<Part>, cursor: nat, hi: nat) returns (u: nat)
    requires cursor <= hi + 1
    ensures FirstUncovered(entries, cursor, hi, u)
    decreases hi + 1 - cursor
  {
    if cursor > hi || !Covered(entries, cursor) {
      u := cursor;
    } else {
      u := FindUncovered(entries, cursor + 1, hi);
    }
  }

  // ---- all items, past the first error too -------------------------------------------------------------

  /** What a reader of `h..=hi` is told, height by height: the block where one is covered, and one
      error for every stretch that is not. `open` says that such a stretch has been reported. */
  ghost function Told(entries: seq<Part>, h: nat, hi: nat, open: bool): seq<Item>
    decreases hi + 1 - h
  {
    if h > hi then []
    else if Covered(entries, h) then [BlockOf(entries, h)] + Told(entries, h + 1, hi, false)
    else (if open then [] else [SourceError]) + Told(entries, h + 1, hi, true)
  }

  lemma {:induction false} ToldOpen(entries: seq<Part>, h: nat, k: nat, hi: nat)
    requires h <= k <= hi + 1 && forall g: nat :: h <= g < k ==> !Covered(entries, g)
    ensures Told(entries, h, hi, true) == Told(entries, k, hi, true)
    decreases k - h
  {
    if h < k { ToldOpen(entries, h + 1, k, hi); }
  }

  lemma ToldGap(entries: seq<Part>, h: nat, k: nat, hi: nat)
    requires h < k <= hi + 1 && forall g: nat :: h <= g < k ==> !Covered(entries, g)
    requires k <= hi ==> Covered(entries, k)
    ensures Told(entries, h, hi, false) == [SourceError] + Told(entries, k, hi, false)
  {
    assert !Covered(entries, h);
    ToldOpen(entries, h + 1, k, hi);
  }

  lemma ToldCovered(entries: seq<Part>, h: nat, hi: nat)
    requires h <= hi && Covered(entries, h)
    ensures Told(entries, h, hi, false) == [BlockOf(entries, h)] + Told(entries, h + 1, hi, false)
  {
  }

  lemma {:induction false} ToldPart(entries: seq<Part>, i: nat, a: nat, b: int, hi: nat)
    requires Layout(entries) && i < |entries| && entries[i].start <= a <= b + 1 && b <= entries[i].end && b <= hi
    ensures Told(entries, a, hi, false) == DbItems(entries[i].db, a, b) + Told(entries, b + 1, hi, false)
    decreases b + 1 - a
  {
    if a <= b {
      ToldPart(entries, i, a, b - 1, hi);
      assert entries[i].Covers(b);
      RootOfPart(entries, i, b);
      ToldCovered(entries, b, hi);
      Associate(DbItems(entries[i].db, a, b - 1), [BlockOf(entries, b)], Told(entries, b + 1, hi, false));
    }
  }

  /** No part covers a height between the cursor and the next part. */
  lemma UncoveredTo(entries: seq<Part>, i: nat, cursor: nat, hi: nat, k: nat)
    requires Layout(entries) && i <= |entries| && PartsBehind(entries, i, cursor, hi) && cursor <= k <= hi + 1
    requires i < |entries| ==> k <= entries[i].start
    ensures forall g: nat :: cursor <= g < k ==> !Covered(entries, g)
  {
    forall g: nat, e | cursor <= g < k && 0 <= e < |entries| ensures !entries[e].Covers(g) {
      assert e > i ==> entries[i].end < entries[e].start;
      assert e < i ==> Skipped(entries[e], cursor, hi);
    }
  }

  lemma EndIsTold(entries: seq<Part>, i: nat, cursor: nat, hi: nat)
    requires Layout(entries) && i <= |entries| && PartsBehind(entries, i, cursor, hi)
    requires i == |entries| || cursor > hi
    ensures ItemsFrom(entries, i, cursor, hi) == Told(entries, cursor, hi, false)
  {
    if cursor <= hi {
      UncoveredTo(entries, i, cursor, hi, hi + 1);
      ToldGap(entries, cursor, hi + 1, hi);
      assert [SourceError] + [] == [SourceError];
    }
  }

  lemma GapIsTold(entries: seq<Part>, i: nat, cursor: nat, hi: nat)
    requires Layout(entries) && i < |entries| && PartsBehind(entries, i, cursor, hi) && cursor < entries[i].start <= hi
    ensures Told(entries, cursor, hi, false) == [SourceError] + Told(entries, entries[i].start, hi, false)
  {
    UncoveredTo(entries, i, cursor, hi, entries[i].start);
    assert entries[i].Covers(entries[i].start);
    ToldGap(entries, cursor, entries[i].start, hi);
  }

  lemma PartIsTold(entries: seq<Part>, i: nat, cursor: nat, hi: nat)
    requires Layout(entries) && i < |entries| && PartsBehind(entries, i, cursor, hi) && cursor <= hi
    requires !Skipped(entries[i], cursor, hi)
    ensures Told(entries, cursor, hi, false) ==
            PartItems(entries[i], cursor, hi) + Told(entries, ClipEnd(entries[i], hi) + 1, hi, false)
  {
    var start, end := entries[i].start, ClipEnd(entries[i], hi);
    ToldPart(entries, i, if start > cursor then start else cursor, end, hi);
    if start > cursor {
      GapIsTold(entries, i, cursor, hi);
      Associate([SourceError], DbItems(entries[i].db, start, end), Told(entries, end + 1, hi, false));
    }
  }

  /** The whole iteration, past errors too, is what walking up the heights tells. */
  lemma {:induction false} ItemsAreTold(entries: seq<Part>, i: nat, cursor: nat, hi: nat)
    requires Layout(entries) && i <= |entries| && PartsBehind(entries, i, cursor, hi)
    ensures ItemsFrom(entries, i, cursor, hi) == Told(entries, cursor, hi, false)
    decreases |entries| - i
  {
    if i == |entries| || cursor > hi {
      EndIsTold(entries, i, cursor, hi);
    } else if Skipped(entries[i], cursor, hi) {
      SkipUnfolds(entries, i, cursor, hi);
      ItemsAreTold(entries, i + 1, cursor, hi);
    } else {
      PartIsTold(entries, i, cursor, hi);
      PartsStayBehind(entries, i, cursor, hi);
      ItemsAreTold(entries, i + 1, ClipEnd(entries[i], hi) + 1, hi);
    }
  }

  // ---- as a source of the builder ---------------------------------------------------------------------

  function Get(entries: seq<Part>, i: nat, h: nat): Option<RootInfo>
    requires i <= |entries|
    decreases |entries| - i
  {
    if i == |entries| then None
    else if entries[i].Covers(h) then (if h in entries[i].db then Some(RootInfo(h, entries[i].db[h])) else None)
    else Get(entries, i + 1, h)
  }

  function SourceOf(entries: seq<Part>): Source {
    Source((h: nat) => Get(entries, 0, h), (lo: nat, hi: nat) => ItemsFrom(entries, 0, lo, hi))
  }

  ghost function RootsOf(entries: seq<Part>): Roots {
    (h: nat) => RootAt(entries, h)
  }

  lemma {:induction false} GetFinds(entries: seq<Part>, i: nat, h: nat)
    requires Layout(entries) && i <= |entries| && forall e :: 0 <= e < i ==> !entries[e].Covers(h)
    ensures Get(entries, i, h) == if Covered(entries, h) then Some(RootInfo(h, RootAt(entries, h))) else None
    decreases |entries| - i
  {
    if i < |entries| {
      if entries[i].Covers(h) { RootOfPart(entries, i, h); } else { GetFinds(entries, i + 1, h); }
    }
  }

  /** A block of the source's own chain, not above `hi`. */
  ghost predicate TrueItem(entries: seq<Part>, item: Item, hi: nat) {
    item.Block? ==> item.info.root == RootAt(entries, item.info.height) && item.info.height <= hi
  }

  ghost predicate AllTrue(entries: seq<Part>, items: seq<Item>, hi: nat) {
    var holds := forall k :: 0 <= k < |items| ==> TrueItem(entries, items[k], hi);
    holds
  }

  lemma BothTrue(entries: seq<Part>, a: seq<Item>, b: seq<Item>, hi: nat)
    requires AllTrue(entries, a, hi) && AllTrue(entries, b, hi)
    ensures AllTrue(entries, a + b, hi)
  {
  }

  lemma {:induction false} DbItemsTrue(entries: seq<Part>, i: nat, lo: nat, top: int, hi: nat)
    requires Layout(entries) && i < |entries| && entries[i].start <= lo && top <= entries[i].end && top <= hi
    ensures AllTrue(entries, DbItems(entries[i].db, lo, top), hi)
    decreases top + 1 - lo
  {
    if lo <= top {
      DbItemsTrue(entries, i, lo, top - 1, hi);
      RootOfPart(entries, i, top);
    }
  }

  lemma PartTrue(entries: seq<Part>, i: nat, cursor: nat, hi: nat)
    requires Layout(entries) && i < |entries|
    ensures AllTrue(entries, PartItems(entries[i], cursor, hi), hi)
  {
    var clipStart := if entries[i].start > cursor then entries[i].start else cursor;
    DbItemsTrue(entries, i, clipStart, ClipEnd(entries[i], hi), hi);
    BothTrue(entries, [SourceError], DbItems(entries[i].db, clipStart, ClipEnd(entries[i], hi)), hi);
  }

  lemma {:induction false} ItemsTrue(entries: seq<Part>, i: nat, cursor: nat, hi: nat)
    requires Layout(entries) && i <= |entries|
    ensures AllTrue(entries, ItemsFrom(entries, i, cursor, hi), hi)
    decreases |entries| - i
  {
    if i < |entries| && cursor <= hi {
      if Skipped(entries[i], cursor, hi) {
        ItemsTrue(entries, i + 1, cursor, hi);
      } else {
        PartTrue(entries, i, cursor, hi);
        ItemsTrue(entries, i + 1, ClipEnd(entries[i], hi) + 1, hi);
        BothTrue(entries, PartItems(entries[i], cursor, hi), ItemsFrom(entries, i + 1, ClipEnd(entries[i], hi) + 1, hi),
            hi);
      }
    }
  }

  lemma ChainedIsHonest(entries: seq<Part>)
    requires Layout(entries)
    ensures HonestSource(SourceOf(entries), RootsOf(entries))
  {
    forall h: nat | SourceOf(entries).get(h).Some? ensures SourceOf(entries).get(h).value ==
        RootInfo(h, RootsOf(entries)(h)) {
      GetFinds(entries, 0, h);
    }
    forall a: nat, b: nat ensures Honest(SourceOf(entries).iter(a, b), RootsOf(entries), b) {
      ItemsTrue(entries, 0, a, b);
      assert AllTrue(entries, ItemsFrom(entries, 0, a, b), b);
    }
  }

  lemma {:induction false} GoodIs(items: seq<Item>, start: nat, i: nat, n: nat)
    requires i <= n <= |items|
    requires forall k :: i <= k < n ==> items[k].Block? && items[k].info.height == start + k
    requires n == |items| || items[n] == SourceError
    ensures Good(items, start, i) == n
    decreases n - i
  {
    if i < n { GoodIs(items, start, i + 1, n); }
  }

  ghost predicate RangeCovered(entries: seq<Part>, r: RangeType) {
    forall h: nat :: r.HeightStart() <= h <= r.HeightEnd() ==> Covered(entries, h)
  }

  /** On a chained source no range falls short silently, and one is complete exactly when all its
      heights are covered. */
  lemma ChainedRange(entries: seq<Part>, r: CheckpointRange)
    requires Layout(entries) && r.heightStart <= r.heightEnd && r.interval > 0
    ensures !Short(SourceOf(entries), r)
    ensures Complete(SourceOf(entries), r) <==> RangeCovered(entries, Regular(r))
  {
    var u := FindUncovered(entries, r.heightStart, r.heightEnd);
    ItemsYield(entries, 0, r.heightStart, r.heightEnd, u);
    GoodIs(ItemsFrom(entries, 0, r.heightStart, r.heightEnd), r.heightStart, 0, u - r.heightStart);
  }

  lemma {:induction false} ChainedNeverShort(entries: seq<Part>, ranges: seq<RangeType>, i: nat, next: nat)
    requires Layout(entries) && Chained(ranges, i, next)
    ensures NeverShort(SourceOf(entries), ranges, i, next)
    ensures AlwaysComplete(SourceOf(entries), ranges, i, next) <==> forall k :: i <= k < |ranges| ==>
            RangeCovered(entries, ranges[k])
    decreases |ranges| - i
  {
    if i < |ranges| {
      ChainedRange(entries, ranges[i].range);
      ChainedNeverShort(entries, ranges, i + 1, ranges[i].range.heightEnd + 1);
    }
  }

  /** The builder on a chained source: whatever happens it sends a prefix of the full output, when
      it succeeds it has sent all of it, and with every height covered only the channel stops it. */
  lemma BuilderOnChained(f: DigestFn, entries: seq<Part>, cfg: Config, limit: nat, sent: seq<Checkpoint>, ok: bool)
    requires Layout(entries) && Usable(cfg)
    requires BuilderResult(f, RootsOf(entries), SourceOf(entries), cfg, limit, sent, ok)
    ensures var full := FullRows(f, RootsOf(entries), cfg);
            && sent <= full
            && (ok ==> sent == full)
            && ((forall k :: 0 <= k < |cfg.ranges| ==> RangeCovered(entries, cfg.ranges[k])) ==>
                  |sent| == Min(limit, |full|) && (ok <==> |full| <= limit))
  {
    var roots := RootsOf(entries);
    BodyIsChained(f, roots, cfg);
    ChainedNeverShort(entries, cfg.ranges, Base(cfg), Anchor(f, roots, cfg).block + 1);
    if cfg.ranges[0].Genesis? && RangeCovered(entries, cfg.ranges[0]) {
      GetFinds(entries, 0, cfg.StartingBlock());
    }
  }

  // ---- checking the ranges beforehand ------------------------------------------------------------------

  /** The first `n` items as blocks, or `None` at the first error. */
  function Collected(items: seq<Item>, n: nat): Option<seq<RootInfo>>
    requires n <= |items|
  {
    if n == 0 then Some([])
    else
      match Collected(items, n - 1)
      case None => None
      case Some(infos) => if items[n - 1].Block? then Some(infos + [items[n - 1].info]) else None
  }

  function GetRange(entries: seq<Part>, start: nat, hi: nat): Option<seq<RootInfo>> {
    var items := ItemsFrom(entries, 0, start, hi);
    Collected(items, |items|)
  }

  lemma {:induction false} CollectedIs(items: seq<Item>, n: nat)
    requires n <= |items|
    ensures Collected(items, n).Some? <==> forall k :: 0 <= k < n ==> items[k].Block?
    ensures Collected(items, n).Some? ==>
              |Collected(items, n).value| == n && forall k :: 0 <= k < n ==>
                  items[k] == Block(Collected(items, n).value[k])
  {
    if n > 0 { CollectedIs(items, n - 1); }
  }

  /** A range is read exactly when every height of it is covered, and then height by height. */
  lemma GetRangeIs(entries: seq<Part>, start: nat, hi: nat)
    requires Layout(entries) && start <= hi
    ensures var r := GetRange(entries, start, hi);
            && (r.Some? <==> forall h: nat :: start <= h <= hi ==> Covered(entries, h))
            && (r.Some? ==> |r.value| == hi + 1 - start
                            && forall k: nat :: k < |r.value| ==> Block(r.value[k]) == BlockOf(entries, start + k))
  {
    var items := ItemsFrom(entries, 0, start, hi);
    var u := FindUncovered(entries, start, hi);
    ItemsYield(entries, 0, start, hi, u);
    CollectedIs(items, |items|);
  }

  /** The chained databases as the check before a run reads them. */
  function ReaderOf(entries: seq<Part>): Reader {
    Reader((h: nat) => Get(entries, 0, h), (lo: nat, hi: nat) => GetRange(entries, lo, hi))
  }

  /** The check passes for a range exactly when the databases cover every height of it. */
  lemma PresentIffCovered(entries: seq<Part>, r: RangeType)
    requires Layout(entries) && RangeOk(r) && r.HeightEnd() <= U64_MAX
    ensures Present(ReaderOf(entries), r) <==> RangeCovered(entries, r)
  {
    match r
    case Genesis(height) => GetFinds(entries, 0, height);
    case Regular(range) =>
      GetRangeIs(entries, range.heightStart, range.heightEnd);
      if RangeCovered(entries, r) { AllIsNotCovered(entries, range); }
  }

  lemma AllIsNotCovered(entries: seq<Part>, r: CheckpointRange)
    requires Layout(entries) && r.heightStart <= r.heightEnd <= U64_MAX && RangeCovered(entries, Regular(r))
    ensures BlockCount(r) == Blocks(r)
  {
    assert Covered(entries, r.heightEnd);
  }

  /** What the check before a run is for: once it has passed, only the channel can stop the run. */
  lemma CheckedRunCompletes(f: DigestFn, entries: seq<Part>, cfg: Config, limit: nat, sent: seq<Checkpoint>, ok: bool)
    requires Layout(entries) && Usable(cfg)
    requires forall k :: 0 <= k < |cfg.ranges| ==> cfg.ranges[k].HeightEnd() <= U64_MAX
    requires forall k :: 0 <= k < |cfg.ranges| ==> Present(ReaderOf(entries), cfg.ranges[k])
    requires BuilderResult(f, RootsOf(entries), SourceOf(entries), cfg, limit, sent, ok)
    ensures var full := FullRows(f, RootsOf(entries), cfg);
            sent == full[..Min(limit, |full|)] && (ok <==> |full| <= limit)
  {
    forall k | 0 <= k < |cfg.ranges| ensures RangeCovered(entries, cfg.ranges[k]) {
      PresentIffCovered(entries, cfg.ranges[k]);
    }
    BuilderOnChained(f, entries, cfg, limit, sent, ok);
  }
}
