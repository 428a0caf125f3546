/** The builder reading an archiver over HTTP, while the archiver may go on writing. */
module ArchiveRun {
  import opened Types
  import opened CheckpointConfig
  import opened DigestChain
  import opened CheckpointBuilder
  import opened BuilderRun
  import opened RangeCheck
  import opened Api

  // ---- a server as a source ------------------------------------------------------------------------

  function BlockItems(infos: seq<RootInfo>, n: nat): seq<Item>
    requires n <= |infos|
  {
    if n == 0 then [] else BlockItems(infos, n - 1) + [Block(infos[n - 1])]
  }

  lemma {:induction false} BlockItemsAt(infos: seq<RootInfo>, n: nat)
    requires n <= |infos|
    ensures |BlockItems(infos, n)| == n && forall k :: 0 <= k < n ==> BlockItems(infos, n)[k] == Block(infos[k])
  {
    if n > 0 { BlockItemsAt(infos, n - 1); }
  }

  ghost function GetOf(server: Server, h: nat): Option<RootInfo> {
    if server(h, h).Some? && Exact(server(h, h).value, h, h) then Some(server(h, h).value[0]) else None
  }

  ghost function GetRangeOf(server: Server, lo: nat, hi: nat): Option<seq<RootInfo>> {
    if AllAnswered(server, lo, hi) then Some(Answers(server, lo, hi)) else None
  }

  /** A range is fetched whole, and one error stands for a failed fetch. */
  ghost function ItemsOf(server: Server, lo: nat, hi: nat): seq<Item> {
    match GetRangeOf(server, lo, hi)
    case Some(infos) => BlockItems(infos, |infos|)
    case None => [SourceError]
  }

  ghost function SourceOfServer(server: Server): Source {
    Source((h: nat) => GetOf(server, h), (lo: nat, hi: nat) => ItemsOf(server, lo, hi))
  }

  ghost function ReaderOfServer(server: Server): Reader {
    Reader((h: nat) => GetOf(server, h), (lo: nat, hi: nat) => GetRangeOf(server, lo, hi))
  }

  // ---- an archiver as a server -----------------------------------------------------------------------

  /** The store as each request for `from..=to` finds it. */
  type Versions = (nat, nat) -> Db

  ghost function ArchiveOf(versions: Versions, maxRange: nat): Server {
    (from: nat, to: nat) =>
      match Promised(versions(from, to), maxRange, from, to)
      case Found(entries) => Some(entries)
      case _ => None
  }

  /** Entry by entry, `entries` are the roots from `from` on. */
  ghost predicate FromRoots(entries: seq<RootInfo>, roots: Roots, from: nat) {
    forall k :: 0 <= k < |entries| ==> entries[k] == RootInfo(from + k, roots(from + k))
  }

  /** What a version holds in `lo..=hi` are the roots `roots` has there. */
  ghost predicate HoldsRoots(db: Db, roots: Roots, lo: nat, hi: nat) {
    forall h :: lo <= h <= hi && h in db ==> db[h].root == roots(h)
  }

  /** Each batch of `lo..=hi` finds a version that holds `roots` over the heights of that batch. */
  ghost predicate BatchesAgree(versions: Versions, roots: Roots, lo: nat, hi: nat)
    decreases hi + 1 - lo
  {
    lo <= hi ==>
      && HoldsRoots(versions(lo, BatchEnd(lo, hi)), roots, lo, BatchEnd(lo, hi))
      && BatchesAgree(versions, roots, BatchEnd(lo, hi) + 1, hi)
  }

  /** Over the heights it serves, every version that answers holds `roots`. */
  ghost predicate Serves(versions: Versions, roots: Roots, maxRange: nat) {
    forall lo: nat, hi: nat :: AllAnswered(ArchiveOf(versions, maxRange), lo, hi) ==>
      BatchesAgree(versions, roots, lo, hi)
  }

  lemma ReplyIsFromRootsIff(versions: Versions, roots: Roots, maxRange: nat, from: nat, to: nat)
    requires from <= to && ArchiveOf(versions, maxRange)(from, to).Some?
    ensures var entries := ArchiveOf(versions, maxRange)(from, to).value;
            && Exact(entries, from, to)
            && (FromRoots(entries, roots, from) <==> HoldsRoots(versions(from, to), roots, from, to))
  {
    var db := versions(from, to);
    RootsBetweenIs(db, from, to);
    var entries := RootsBetween(db, from, to);
    if FromRoots(entries, roots, from) {
      forall h | from <= h <= to && h in db ensures db[h].root == roots(h) {
        assert entries[h - from] == RootInfo(h, db[h].root);
      }
    } else {
      var k :| 0 <= k < |entries| && entries[k] != RootInfo(from + k, roots(from + k));
      assert from + k in db;
    }
  }

  lemma FromRootsJoin(a: seq<RootInfo>, b: seq<RootInfo>, roots: Roots, from: nat)
    ensures FromRoots(a + b, roots, from) <==> FromRoots(a, roots, from) && FromRoots(b, roots, from + |a|)
  {
    if FromRoots(a + b, roots, from) {
      forall k | 0 <= k < |a| ensures a[k] == RootInfo(from + k, roots(from + k)) { assert a[k] == (a + b)[k]; }
      forall k | 0 <= k < |b| ensures b[k] == RootInfo(from + |a| + k, roots(from + |a| + k)) {
        assert b[k] == (a + b)[|a| + k];
      }
    } else if FromRoots(a, roots, from) && FromRoots(b, roots, from + |a|) {
      forall k | 0 <= k < |a + b| ensures (a + b)[k] == RootInfo(from + k, roots(from + k)) {
        if k >= |a| { assert b[k - |a|] == RootInfo(from + |a| + (k - |a|), roots(from + |a| + (k - |a|))); }
      }
    }
  }

  /** Whatever the store does between the requests, a full answer has every height once and in order,
      and it is height by height `roots` exactly when every batch found a version that holds `roots`
      over the heights it served. */
  lemma {:induction false} AnswersAreFromRootsIff(versions: Versions, roots: Roots, maxRange: nat, lo: nat, hi: nat)
    requires lo <= hi + 1 && AllAnswered(ArchiveOf(versions, maxRange), lo, hi)
    ensures var all := Answers(ArchiveOf(versions, maxRange), lo, hi);
            Exact(all, lo, hi) && (FromRoots(all, roots, lo) <==> BatchesAgree(versions, roots, lo, hi))
    decreases hi + 1 - lo
  {
    if lo <= hi {
      var server, to := ArchiveOf(versions, maxRange), BatchEnd(lo, hi);
      ReplyIsFromRootsIff(versions, roots, maxRange, lo, to);
      AnswersAreFromRootsIff(versions, roots, maxRange, to + 1, hi);
      FromRootsJoin(server(lo, to).value, Answers(server, to + 1, hi), roots, lo);
    }
  }

  /** A range that every version stores is answered. */
  lemma {:induction false} StoredIsAnswered(versions: Versions, maxRange: nat, lo: nat, hi: nat)
    requires maxRange >= MAX_BATCH && lo <= hi + 1 && forall a: nat, b: nat :: AllStored(versions(a, b), lo, hi)
    ensures AllAnswered(ArchiveOf(versions, maxRange), lo, hi)
    decreases hi + 1 - lo
  {
    if lo <= hi {
      var to := BatchEnd(lo, hi);
      assert AllStored(versions(lo, to), lo, hi);
      RootsBetweenIs(versions(lo, to), lo, to);
      forall a: nat, b: nat ensures AllStored(versions(a, b), to + 1, hi) { assert AllStored(versions(a, b), lo, hi); }
      StoredIsAnswered(versions, maxRange, to + 1, hi);
    }
  }

  // ---- what the builder sees ----------------------------------------------------------------------------

  lemma ArchiveYields(versions: Versions, maxRange: nat, lo: nat, hi: nat)
    requires lo <= hi + 1
    ensures var server := ArchiveOf(versions, maxRange);
            var items := ItemsOf(server, lo, hi);
            if AllAnswered(server, lo, hi)
            then
              && |items| == |Answers(server, lo, hi)| == hi + 1 - lo
              && forall k :: 0 <= k < |items| ==>
                items[k] == Block(Answers(server, lo, hi)[k]) && items[k].info.height == lo + k
            else items == [SourceError]
  {
    var server := ArchiveOf(versions, maxRange);
    if AllAnswered(server, lo, hi) {
      AnswersAreFromRootsIff(versions, h => ZERO_HASH, maxRange, lo, hi);
      BlockItemsAt(Answers(server, lo, hi), |Answers(server, lo, hi)|);
    }
  }

  lemma {:induction false} GoodIsAll(items: seq<Item>, start: nat, i: nat)
    requires i <= |items| && forall k :: i <= k < |items| ==> items[k].Block? && items[k].info.height == start + k
    ensures Good(items, start, i) == |items|
    decreases |items| - i
  {
    if i < |items| { GoodIsAll(items, start, i + 1); }
  }

  /** Over HTTP no range falls short silently, and one is complete exactly when it is answered. */
  lemma ArchiveRange(versions: Versions, maxRange: nat, r: CheckpointRange)
    requires r.heightStart <= r.heightEnd && r.interval > 0
    ensures !Short(SourceOfServer(ArchiveOf(versions, maxRange)), r)
    ensures Complete(SourceOfServer(ArchiveOf(versions, maxRange)), r) <==>
            AllAnswered(ArchiveOf(versions, maxRange), r.heightStart, r.heightEnd)
  {
    var server := ArchiveOf(versions, maxRange);
    var items := ItemsOf(server, r.heightStart, r.heightEnd);
    assert SourceOfServer(server).iter(r.heightStart, r.heightEnd) == items;
    ArchiveYields(versions, maxRange, r.heightStart, r.heightEnd);
    if AllAnswered(server, r.heightStart, r.heightEnd) {
      GoodIsAll(items, r.heightStart, 0);
    } else {
      assert Good(items, r.heightStart, 0) == 0;
    }
  }

  /** Every version stores the whole range. */
  ghost predicate RangeServed(versions: Versions, r: RangeType) {
    forall a: nat, b: nat :: AllStored(versions(a, b), r.HeightStart(), r.HeightEnd())
  }

  lemma {:induction false} ArchiveNeverShort(versions: Versions, maxRange: nat, ranges: seq<RangeType>, i: nat,
      next: nat)
    requires Chained(ranges, i, next)
    ensures NeverShort(SourceOfServer(ArchiveOf(versions, maxRange)), ranges, i, next)
    ensures maxRange >= MAX_BATCH && (forall k :: i <= k < |ranges| ==> RangeServed(versions, ranges[k])) ==>
              AlwaysComplete(SourceOfServer(ArchiveOf(versions, maxRange)), ranges, i, next)
    decreases |ranges| - i
  {
    if i < |ranges| {
      var r := ranges[i].range;
      ArchiveRange(versions, maxRange, r);
      if maxRange >= MAX_BATCH && RangeServed(versions, ranges[i]) {
        StoredIsAnswered(versions, maxRange, r.heightStart, r.heightEnd);
      }
      ArchiveNeverShort(versions, maxRange, ranges, i + 1, r.heightEnd + 1);
    }
  }

  lemma ArchiveGets(versions: Versions, maxRange: nat, h: nat)
    ensures GetOf(ArchiveOf(versions, maxRange), h) ==
            if maxRange > 0 && h in versions(h, h) then Some(RootInfo(h, versions(h, h)[h].root)) else None
  {
    var server := ArchiveOf(versions, maxRange);
    assert AllStored(versions(h, h), h, h) <==> h in versions(h, h);
    if server(h, h).Some? { RootsBetweenIs(versions(h, h), h, h); }
  }

  /** The heights served are what honesty is about: the source is honest about `roots`, as
      `ProcessBlocks` asks, exactly when every version holds `roots` over the heights it serves. */
  lemma HonestIffServes(versions: Versions, roots: Roots, maxRange: nat)
    ensures HonestSource(SourceOfServer(ArchiveOf(versions, maxRange)), roots) <==> Serves(versions, roots, maxRange)
  {
    var server := ArchiveOf(versions, maxRange);
    var source := SourceOfServer(server);
    if Serves(versions, roots, maxRange) {
      forall h: nat | source.get(h).Some? ensures source.get(h).value == RootInfo(h, roots(h)) {
        SingleAnswer(versions, roots, maxRange, h);
      }
      forall a: nat, b: nat ensures Honest(source.iter(a, b), roots, b) {
        if a <= b { ItemsHonestIff(versions, roots, maxRange, a, b); }
      }
    }
    if HonestSource(source, roots) {
      forall lo: nat, hi: nat | AllAnswered(server, lo, hi) ensures BatchesAgree(versions, roots, lo, hi) {
        assert Honest(source.iter(lo, hi), roots, hi);
        if lo <= hi { ItemsHonestIff(versions, roots, maxRange, lo, hi); }
      }
    }
  }

  lemma SingleAnswer(versions: Versions, roots: Roots, maxRange: nat, h: nat)
    requires Serves(versions, roots, maxRange) && GetOf(ArchiveOf(versions, maxRange), h).Some?
    ensures GetOf(ArchiveOf(versions, maxRange), h).value == RootInfo(h, roots(h))
  {
    ArchiveGets(versions, maxRange, h);
    assert BatchEnd(h, h) == h && AllAnswered(ArchiveOf(versions, maxRange), h + 1, h);
    assert AllAnswered(ArchiveOf(versions, maxRange), h, h);
    assert BatchesAgree(versions, roots, h, h);
  }

  lemma ItemsHonestIff(versions: Versions, roots: Roots, maxRange: nat, a: nat, b: nat)
    requires a <= b
    ensures Honest(ItemsOf(ArchiveOf(versions, maxRange), a, b), roots, b) <==>
            (AllAnswered(ArchiveOf(versions, maxRange), a, b) ==> BatchesAgree(versions, roots, a, b))
  {
    var server := ArchiveOf(versions, maxRange);
    ArchiveYields(versions, maxRange, a, b);
    if AllAnswered(server, a, b) {
      AnswersAreFromRootsIff(versions, roots, maxRange, a, b);
      BlocksHonestIff(ItemsOf(server, a, b), Answers(server, a, b), roots, a, b);
    }
  }

  lemma BlocksHonestIff(items: seq<Item>, infos: seq<RootInfo>, roots: Roots, a: nat, b: nat)
    requires a <= b && |items| == |infos| == b + 1 - a
    requires forall k :: 0 <= k < |items| ==> items[k] == Block(infos[k]) && infos[k].height == a + k
    ensures Honest(items, roots, b) <==> FromRoots(infos, roots, a)
  {
    if !FromRoots(infos, roots, a) {
      var k :| 0 <= k < |infos| && infos[k] != RootInfo(a + k, roots(a + k));
      assert items[k].Block? && items[k].info.root != roots(items[k].info.height);
    }
  }

  /** What the builder gets out of an archiver that serves `roots`: a prefix of the checkpoint chain
      over them, on success all of it, and with every range stored throughout only the channel
      stops it. */
  lemma BuilderOnArchive(
    f: DigestFn, versions: Versions, roots: Roots, maxRange: nat, cfg: Config, limit: nat, sent: seq<Checkpoint>,
    ok: bool)
    requires Serves(versions, roots, maxRange) && Usable(cfg)
    requires BuilderResult(f, roots, SourceOfServer(ArchiveOf(versions, maxRange)), cfg, limit, sent, ok)
    ensures HonestSource(SourceOfServer(ArchiveOf(versions, maxRange)), roots)
    ensures var full := FullRows(f, roots, cfg);
            && sent <= full
            && (ok ==> sent == full)
            && (maxRange >= MAX_BATCH && (forall k :: 0 <= k < |cfg.ranges| ==>
               RangeServed(versions, cfg.ranges[k])) ==>
                  |sent| == Min(limit, |full|) && (ok <==> |full| <= limit))
  {
    HonestIffServes(versions, roots, maxRange);
    BodyIsChained(f, roots, cfg);
    ArchiveNeverShort(versions, maxRange, cfg.ranges, Base(cfg), Anchor(f, roots, cfg).block + 1);
    if maxRange >= MAX_BATCH && RangeServed(versions, cfg.ranges[0]) {
      GenesisIsThere(versions, maxRange, cfg);
    }
  }

  lemma GenesisIsThere(versions: Versions, maxRange: nat, cfg: Config)
    requires Usable(cfg) && maxRange >= MAX_BATCH && RangeServed(versions, cfg.ranges[0])
    ensures cfg.ranges[0].Genesis? ==> SourceOfServer(ArchiveOf(versions, maxRange)).get(cfg.StartingBlock()).Some?
  {
    var g := cfg.StartingBlock();
    assert AllStored(versions(g, g), cfg.ranges[0].HeightStart(), cfg.ranges[0].HeightEnd());
    ArchiveGets(versions, maxRange, g);
  }

  /** The check before a run passes for a range over HTTP exactly when the range is answered. */
  lemma PresentIffAnswered(versions: Versions, maxRange: nat, r: CheckpointRange)
    requires RangeOk(Regular(r)) && r.heightEnd < U64_MAX
    ensures Present(ReaderOfServer(ArchiveOf(versions, maxRange)), Regular(r)) <==>
            AllAnswered(ArchiveOf(versions, maxRange), r.heightStart, r.heightEnd)
  {
    var server := ArchiveOf(versions, maxRange);
    if AllAnswered(server, r.heightStart, r.heightEnd) {
      AnswersAreFromRootsIff(versions, h => ZERO_HASH, maxRange, r.heightStart, r.heightEnd);
    }
  }
}
