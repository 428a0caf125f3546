/** From the source chain through the archiver to the checkpoints. */
module EndToEnd {
  import opened Types
  import opened Heights
  import opened CheckpointConfig
  import opened DigestChain
  import opened CheckpointBuilder
  import opened BuilderRun
  import opened SourceChain
  import opened Protocol
  import opened Safety
  import opened Api
  import opened ArchiveRun

  /** The roots of a chain. */
  ghost function RootsOfChain(c: seq<Header>): Roots {
    (h: nat) => if h < |c| then c[h].root else ZERO_HASH
  }

  /** A chain that contains the block the stored tip names. */
  ghost predicate HasTip(w: World, c: seq<Header>, db: Db) {
    forall t: nat :: IsTip(db, t) ==> t < |c| && w.hashOf(c[t]) == db[t].blockHash
  }

  /** The store after each run. */
  ghost function Stores(w: World, s: State, runs: (nat, nat) -> seq<Step>): Versions {
    (a: nat, b: nat) => if IsRun(w, s, runs(a, b)) then Exec(w, s, runs(a, b)).db else map[]
  }

  /** A store the archiver reaches holds the roots of every chain that contains its tip. */
  lemma ReachedStoreAgrees(w: World, s: State, steps: seq<Step>, c: seq<Header>, h: nat)
    requires w.Sound() && Initial(w, s) && TipHashed(s.db) && IsRun(w, s, steps) && IsChain(w, c)
    requires HasTip(w, c, Exec(w, s, steps).db) && h in Exec(w, s, steps).db
    ensures h < |c| && Exec(w, s, steps).db[h].root == c[h].root
  {
    var db := Exec(w, s, steps).db;
    NoForkSplice(w, s, steps);
    var t := Tip(db).value;
    assert IsTip(db, t) && AllOn(w, c, db);
    assert OnChain(w, c, h, db[h]);
  }

  lemma ReachedStoresAgree(w: World, s: State, runs: (nat, nat) -> seq<Step>, c: seq<Header>)
    requires w.Sound() && Initial(w, s) && TipHashed(s.db) && IsChain(w, c)
    requires forall a: nat, b: nat :: IsRun(w, s, runs(a, b)) && HasTip(w, c, Stores(w, s, runs)(a, b))
    ensures forall lo: nat, hi: nat :: BatchesAgree(Stores(w, s, runs), RootsOfChain(c), lo, hi)
  {
    forall lo: nat, hi: nat ensures BatchesAgree(Stores(w, s, runs), RootsOfChain(c), lo, hi) {
      ReachedBatchesAgree(w, s, runs, c, lo, hi);
    }
  }

  lemma {:induction false} ReachedBatchesAgree(w: World, s: State, runs: (nat, nat) -> seq<Step>, c: seq<Header>,
      lo: nat, hi: nat)
    requires w.Sound() && Initial(w, s) && TipHashed(s.db) && IsChain(w, c)
    requires forall a: nat, b: nat :: IsRun(w, s, runs(a, b)) && HasTip(w, c, Stores(w, s, runs)(a, b))
    ensures BatchesAgree(Stores(w, s, runs), RootsOfChain(c), lo, hi)
    decreases hi + 1 - lo
  {
    if lo <= hi {
      ReachedHoldsRoots(w, s, runs, c, lo, BatchEnd(lo, hi));
      ReachedBatchesAgree(w, s, runs, c, BatchEnd(lo, hi) + 1, hi);
    }
  }

  lemma ReachedHoldsRoots(w: World, s: State, runs: (nat, nat) -> seq<Step>, c: seq<Header>, a: nat, b: nat)
    requires w.Sound() && Initial(w, s) && TipHashed(s.db) && IsChain(w, c)
    requires IsRun(w, s, runs(a, b)) && HasTip(w, c, Stores(w, s, runs)(a, b))
    ensures HoldsRoots(Stores(w, s, runs)(a, b), RootsOfChain(c), a, b)
  {
    var db := Stores(w, s, runs)(a, b);
    forall h | a <= h <= b && h in db ensures db[h].root == RootsOfChain(c)(h) {
      ReachedStoreAgrees(w, s, runs(a, b), c, h);
    }
  }

  /** The two pipelines joined. Let the archiver run, from a store on one branch with a hashed tip,
      through whatever happens to it, and let a builder read it while it runs: each request finds
      the store some run reaches. If the tips found lie on one chain `c`, the builder sends nothing
      but the checkpoint chain over the roots of `c`, in order; when it succeeds it has sent all of
      it; and if every range is stored throughout, only its channel can stop it. */
  lemma CheckpointsOfTheSourceChain(
    w: World, s: State, runs: (nat, nat) -> seq<Step>, c: seq<Header>,
    f: DigestFn, maxRange: nat, cfg: Config, limit: nat, sent: seq<Checkpoint>, ok: bool)
    requires w.Sound() && Initial(w, s) && TipHashed(s.db) && IsChain(w, c) && Usable(cfg)
    requires forall a: nat, b: nat :: IsRun(w, s, runs(a, b)) && HasTip(w, c, Stores(w, s, runs)(a, b))
    requires BuilderResult(f, RootsOfChain(c), SourceOfServer(ArchiveOf(Stores(w, s, runs), maxRange)), cfg, limit,
             sent, ok)
    ensures HonestSource(SourceOfServer(ArchiveOf(Stores(w, s, runs), maxRange)), RootsOfChain(c))
    ensures var full := FullRows(f, RootsOfChain(c), cfg);
            && sent <= full
            && (ok ==> sent == full)
            && (maxRange >= MAX_BATCH && (forall k :: 0 <= k < |cfg.ranges| ==>
               RangeServed(Stores(w, s, runs), cfg.ranges[k])) ==>
                  |sent| == Min(limit, |full|) && (ok <==> |full| <= limit))
  {
    ReachedStoresAgree(w, s, runs, c);
    BuilderOnArchive(f, Stores(w, s, runs), RootsOfChain(c), maxRange, cfg, limit, sent, ok);
  }

  /** The two chains have the same roots in `lo..=hi`. */
  ghost predicate SameRoots(c: seq<Header>, d: seq<Header>, lo: nat, hi: nat) {
    forall h: nat :: lo <= h <= hi ==> RootsOfChain(c)(h) == RootsOfChain(d)(h)
  }

  /** `all` has the roots of `c` in `lo..=mid` and those of `d` in the rest up to `hi`; it is about
      `c` exactly if the two have the same roots there. */
  ghost predicate Mixed(all: seq<RootInfo>, c: seq<Header>, d: seq<Header>, lo: nat, mid: nat, hi: nat) {
    var holds :=
      && lo <= mid < hi && |all| == hi + 1 - lo
      && FromRoots(all[..mid + 1 - lo], RootsOfChain(c), lo)
      && FromRoots(all[mid + 1 - lo..], RootsOfChain(d), mid + 1)
      && (FromRoots(all, RootsOfChain(c), lo) <==> SameRoots(c, d, mid + 1, hi));
    holds
  }

  lemma JoinedReplies(first: seq<RootInfo>, second: seq<RootInfo>, c: seq<Header>, d: seq<Header>, lo: nat, mid: nat,
      hi: nat)
    requires lo <= mid < hi && |first| == mid + 1 - lo && |second| == hi - mid
    requires FromRoots(first, RootsOfChain(c), lo) && FromRoots(second, RootsOfChain(d), mid + 1)
    ensures Mixed(first + second, c, d, lo, mid, hi)
  {
    assert (first + second)[..mid + 1 - lo] == first && (first + second)[mid + 1 - lo..] == second;
    FromRootsJoin(first, second, RootsOfChain(c), lo);
    if FromRoots(second, RootsOfChain(c), mid + 1) {
      forall h: nat | mid + 1 <= h <= hi ensures RootsOfChain(c)(h) == RootsOfChain(d)(h) {
        assert second[h - mid - 1] == RootInfo(mid + 1 + (h - mid - 1), RootsOfChain(c)(mid + 1 + (h - mid - 1)));
      }
    }
  }

  lemma TwoBatches(server: Server, lo: nat, mid: nat, hi: nat)
    requires lo <= mid < hi && BatchEnd(lo, hi) == mid && BatchEnd(mid + 1, hi) == hi && AllAnswered(server, lo, hi)
    ensures server(lo, mid).Some? && server(mid + 1, hi).Some?
    ensures Answers(server, lo, hi) == server(lo, mid).value + server(mid + 1, hi).value
  {
    var second := server(mid + 1, hi).value;
    assert Answers(server, mid + 1, hi) == second + [] == second;
  }

  lemma MixedVersions(versions: Versions, c: seq<Header>, d: seq<Header>, maxRange: nat, lo: nat, mid: nat, hi: nat)
    requires lo <= mid < hi && BatchEnd(lo, hi) == mid && BatchEnd(mid + 1, hi) == hi
    requires HoldsRoots(versions(lo, mid), RootsOfChain(c), lo, mid)
    requires HoldsRoots(versions(mid + 1, hi), RootsOfChain(d), mid + 1, hi)
    requires AllAnswered(ArchiveOf(versions, maxRange), lo, hi)
    ensures Mixed(Answers(ArchiveOf(versions, maxRange), lo, hi), c, d, lo, mid, hi)
  {
    var server := ArchiveOf(versions, maxRange);
    TwoBatches(server, lo, mid, hi);
    ReplyIsFromRootsIff(versions, RootsOfChain(c), maxRange, lo, mid);
    ReplyIsFromRootsIff(versions, RootsOfChain(d), maxRange, mid + 1, hi);
    JoinedReplies(server(lo, mid).value, server(mid + 1, hi).value, c, d, lo, mid, hi);
  }

  /** Without one chain under all tips this fails: let the archiver re-anchor between two requests.
      Each reply is right on its own, the first about chain `c`, the second about chain `d`, and
      the client joins them. The joined answer is about `c` exactly when the second reply happens
      to cover only heights where `d` has the roots of `c`. */
  lemma ReanchorBetweenRequests(w: World, s: State, runs: (nat, nat) -> seq<Step>, c: seq<Header>, d: seq<Header>,
      maxRange: nat, lo: nat, mid: nat, hi: nat)
    requires w.Sound() && Initial(w, s) && TipHashed(s.db) && IsChain(w, c) && IsChain(w, d)
    requires lo <= mid < hi && BatchEnd(lo, hi) == mid && BatchEnd(mid + 1, hi) == hi
    requires IsRun(w, s, runs(lo, mid)) && HasTip(w, c, Stores(w, s, runs)(lo, mid))
    requires IsRun(w, s, runs(mid + 1, hi)) && HasTip(w, d, Stores(w, s, runs)(mid + 1, hi))
    requires AllAnswered(ArchiveOf(Stores(w, s, runs), maxRange), lo, hi)
    ensures Mixed(Answers(ArchiveOf(Stores(w, s, runs), maxRange), lo, hi), c, d, lo, mid, hi)
  {
    ReachedHoldsRoots(w, s, runs, c, lo, mid);
    ReachedHoldsRoots(w, s, runs, d, mid + 1, hi);
    MixedVersions(Stores(w, s, runs), c, d, maxRange, lo, mid, hi);
  }
}
