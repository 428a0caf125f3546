/** Merging the continuity proofs of several queries into one. */
module SharedProof {
  import opened Types
  import opened Heights
  import opened DigestChain

  /** Roots of consecutive blocks, and the digest right below the first. */
  datatype Continuity = Continuity(lower: H256, roots: seq<H256>)

  /** A query and its proof, whose first root is at the query's height; `None` if the proof is
      missing or has no roots field. */
  datatype QueryProof = QueryProof(height: nat, proof: Option<Continuity>) {
    predicate Covers(h: nat) {
      proof.Some? && height <= h < height + |proof.value.roots|
    }

    function RootAt(h: nat): H256
      requires Covers(h)
    {
      proof.value.roots[h - height]
    }
  }

  datatype Merged = Shared(proof: Continuity) | NoQueries | NoLowerDigest | MaxNotCovered | MissingRoot

  // ---- what is collected -------------------------------------------------------------------------------

  function MinHeight(queries: seq<QueryProof>, n: nat): nat
    requires 0 < n <= |queries|
  {
    if n == 1 || queries[n - 1].height < MinHeight(queries, n - 1) then queries[n - 1].height else
        MinHeight(queries, n - 1)
  }

  function MaxHeight(queries: seq<QueryProof>, n: nat): nat
    requires 0 < n <= |queries|
  {
    if n == 1 || queries[n - 1].height > MaxHeight(queries, n - 1) then queries[n - 1].height else
        MaxHeight(queries, n - 1)
  }

  lemma {:induction false} MinMax(queries: seq<QueryProof>, n: nat) returns (lowest: nat, highest: nat)
    requires 0 < n <= |queries|
    ensures forall i :: 0 <= i < n ==> MinHeight(queries, n) <= queries[i].height <= MaxHeight(queries, n)
    ensures lowest < n && queries[lowest].height == MinHeight(queries, n)
    ensures highest < n && queries[highest].height == MaxHeight(queries, n)
  {
    lowest, highest := n - 1, n - 1;
    if n > 1 {
      var l, h := MinMax(queries, n - 1);
      if MinHeight(queries, n) == MinHeight(queries, n - 1) { lowest := l; }
      if MaxHeight(queries, n) == MaxHeight(queries, n - 1) { highest := h; }
    }
  }

  /** The first `i` roots put in, where no root is yet. */
  function AddRoots(m: map<nat, H256>, height: nat, roots: seq<H256>, i: nat): map<nat, H256>
    requires i <= |roots|
  {
    if i == 0 then m
    else
      var before := AddRoots(m, height, roots, i - 1);
      if height + i - 1 in before then before else before[height + i - 1 := roots[i - 1]]
  }

  function RootMap(queries: seq<QueryProof>, n: nat): map<nat, H256>
    requires n <= |queries|
  {
    if n == 0 then map[]
    else
      match queries[n - 1].proof
      case None => RootMap(queries, n - 1)
      case Some(cp) => AddRoots(RootMap(queries, n - 1), queries[n - 1].height, cp.roots, |cp.roots|)
  }

  function LowerMap(queries: seq<QueryProof>, n: nat): map<nat, H256>
    requires n <= |queries|
  {
    if n == 0 then map[]
    else
      match queries[n - 1].proof
      case None => LowerMap(queries, n - 1)
      case Some(cp) => LowerMap(queries, n - 1)[queries[n - 1].height := cp.lower]
  }

  lemma {:induction false} AddRootsKeeps(m: map<nat, H256>, height: nat, roots: seq<H256>, i: nat, h: nat)
    requires i <= |roots|
    ensures h in AddRoots(m, height, roots, i) <==> h in m || height <= h < height + i
    ensures h in AddRoots(m, height, roots, i) ==>
              AddRoots(m, height, roots, i)[h] == if h in m then m[h] else roots[h - height]
  {
    if i > 0 { AddRootsKeeps(m, height, roots, i - 1, h); }
  }

  /** Query `i` is the first of the first `n` to cover `h`. */
  ghost predicate FirstToCover(queries: seq<QueryProof>, n: nat, i: nat, h: nat)
    requires n <= |queries|
  {
    i < n && queries[i].Covers(h) && forall j :: 0 <= j < i ==> !queries[j].Covers(h)
  }

  /** A height has a root if some proof covers it, and then the root the first such proof has. */
  lemma {:induction false} RootMapIs(queries: seq<QueryProof>, n: nat, h: nat)
    requires n <= |queries|
    ensures h in RootMap(queries, n) <==> exists i :: 0 <= i < n && queries[i].Covers(h)
    ensures h in RootMap(queries, n) ==>
              exists i: nat :: FirstToCover(queries, n, i, h) && RootMap(queries, n)[h] == queries[i].RootAt(h)
  {
    if n > 0 {
      RootMapIs(queries, n - 1, h);
      var q := queries[n - 1];
      if q.proof.Some? { AddRootsKeeps(RootMap(queries, n - 1), q.height, q.proof.value.roots, |q.proof.value.roots|,
          h); }
      if h in RootMap(queries, n - 1) {
        var i: nat :| FirstToCover(queries, n - 1, i, h) && RootMap(queries, n - 1)[h] == queries[i].RootAt(h);
        assert FirstToCover(queries, n, i, h);
      } else if q.Covers(h) {
        assert FirstToCover(queries, n, n - 1, h);
      }
    }
  }

  lemma {:induction false} LowerMapIs(queries: seq<QueryProof>, n: nat, h: nat)
    requires n <= |queries|
    ensures h in LowerMap(queries, n) <==> exists i :: 0 <= i < n && queries[i].proof.Some? && queries[i].height == h
    ensures h in LowerMap(queries, n) ==>
              exists i :: 0 <= i < n && queries[i].proof.Some? && queries[i].height == h &&
                  LowerMap(queries, n)[h] == queries[i].proof.value.lower
  {
    if n > 0 { LowerMapIs(queries, n - 1, h); }
  }

  // ---- the merge -----------------------------------------------------------------------------------------

  /** The roots of `lo..=hi`. */
  function RootList(m: map<nat, H256>, lo: nat, hi: int): seq<H256>
    requires forall h :: lo <= h <= hi ==> h in m
    decreases hi + 1 - lo
  {
    if hi < lo then [] else RootList(m, lo, hi - 1) + [m[hi]]
  }

  lemma {:induction false} RootListAt(m: map<nat, H256>, lo: nat, hi: int)
    requires lo <= hi + 1 && forall h :: lo <= h <= hi ==> h in m
    ensures |RootList(m, lo, hi)| == hi + 1 - lo && forall i :: 0 <= i < hi + 1 - lo ==>
            RootList(m, lo, hi)[i] == m[lo + i]
    decreases hi + 1 - lo
  {
    if lo <= hi { RootListAt(m, lo, hi - 1); }
  }

  /** The outcome of a merge, in terms of the collected roots and digests. */
  ghost function Outcome(queries: seq<QueryProof>): Merged {
    if queries == [] then NoQueries
    else
      var n := |queries|;
      var m, lo := RootMap(queries, n), MinHeight(queries, n);
      if lo !in LowerMap(queries, n) then NoLowerDigest
      else if m == map[] then Shared(Continuity(LowerMap(queries, n)[lo], []))
      else if Tip(m).value < MaxHeight(queries, n) then MaxNotCovered
      else if exists h :: lo <= h <= Tip(m).value && h !in m then MissingRoot
      else Shared(Continuity(LowerMap(queries, n)[lo], RootList(m, lo, Tip(m).value)))
  }

  method Collect(queries: seq<QueryProof>) returns (heightToRoot: map<nat, H256>, heightToLower: map<nat, H256>)
    ensures heightToRoot == RootMap(queries, |queries|) && heightToLower == LowerMap(queries, |queries|)
  {
    heightToRoot, heightToLower := map[], map[];
    for n := 0 to |queries|
      invariant heightToRoot == RootMap(queries, n) && heightToLower == LowerMap(queries, n)
    {
      if queries[n].proof.None? {
        continue;
      }
      var height, cp := queries[n].height, queries[n].proof.value;
      heightToLower := heightToLower[height := cp.lower];
      for i := 0 to |cp.roots|
        invariant heightToRoot == AddRoots(RootMap(queries, n), height, cp.roots, i)
      {
        if height + i !in heightToRoot {
          heightToRoot := heightToRoot[height + i := cp.roots[i]];
        }
      }
    }
  }

  method BuildSharedContinuityProof(queries: seq<QueryProof>) returns (r: Merged)
    ensures r == Outcome(queries)
  {
    if queries == [] {
      return NoQueries;
    }
    var minHeight, maxHeight := MinHeight(queries, |queries|), MaxHeight(queries, |queries|);
    var heightToRoot, heightToLower := Collect(queries);
    if minHeight !in heightToLower {
      return NoLowerDigest;
    }
    var lower := heightToLower[minHeight];
    var actualMax := Tip(heightToRoot);
    if actualMax.Some? && actualMax.value < maxHeight {
      return MaxNotCovered;
    }
    var roots := [];
    if actualMax.Some? {
      var h: int := minHeight;
      while h <= actualMax.value
        invariant minHeight <= h && (h <= actualMax.value + 1 || h == minHeight)
        invariant forall k :: minHeight <= k < h ==> k in heightToRoot
        invariant roots == RootList(heightToRoot, minHeight, h - 1)
      {
        if h !in heightToRoot {
          return MissingRoot;
        }
        roots := roots + [heightToRoot[h]];
        h := h + 1;
      }
    }
    r := Shared(Continuity(lower, roots));
  }

  // ---- what the outcome means ----------------------------------------------------------------------------

  ghost predicate Lowest(queries: seq<QueryProof>, lo: nat) {
    (exists q :: q in queries && q.height == lo) && forall q :: q in queries ==> lo <= q.height
  }

  ghost predicate Highest(queries: seq<QueryProof>, hi: nat) {
    (exists q :: q in queries && q.height == hi) && forall q :: q in queries ==> q.height <= hi
  }

  /** Some proof has a root for `h`. */
  ghost predicate Covered(queries: seq<QueryProof>, h: nat) {
    exists i :: 0 <= i < |queries| && queries[i].Covers(h)
  }

  /** Some query at height `h` has a proof. */
  ghost predicate ProvedAt(queries: seq<QueryProof>, h: nat) {
    exists i :: 0 <= i < |queries| && queries[i].proof.Some? && queries[i].height == h
  }

  /** Query `i` is the last of the first `n` at height `h` that has a proof. */
  ghost predicate LastAt(queries: seq<QueryProof>, n: nat, i: nat, h: nat)
    requires n <= |queries|
  {
    && i < n && queries[i].proof.Some? && queries[i].height == h
    && forall j :: i < j < n && queries[j].proof.Some? ==> queries[j].height != h
  }

  lemma {:induction false} LowerIsLast(queries: seq<QueryProof>, n: nat, h: nat)
    requires n <= |queries| && h in LowerMap(queries, n)
    ensures exists i: nat :: LastAt(queries, n, i, h) && LowerMap(queries, n)[h] == queries[i].proof.value.lower
  {
    var q := queries[n - 1];
    if q.proof.Some? && q.height == h {
      assert LastAt(queries, n, n - 1, h);
    } else {
      LowerIsLast(queries, n - 1, h);
      var i: nat :| LastAt(queries, n - 1, i, h) && LowerMap(queries, n - 1)[h] == queries[i].proof.value.lower;
      assert LastAt(queries, n, i, h);
    }
  }

  /** The first proof that has a root for `h` has `root`. */
  ghost predicate FirstRoot(queries: seq<QueryProof>, h: nat, root: H256) {
    exists j: nat :: FirstToCover(queries, |queries|, j, h) && root == queries[j].RootAt(h)
  }

  /** The last proof at height `h` has the lower digest `lower`. */
  ghost predicate LastLower(queries: seq<QueryProof>, h: nat, lower: H256) {
    exists i: nat :: LastAt(queries, |queries|, i, h) && lower == queries[i].proof.value.lower
  }

  /** `cp` has the digest below `lo` from the last proof there, and then the root of each height from
      the first proof that has one, up to the highest that any proof has. */
  ghost predicate TakenFrom(queries: seq<QueryProof>, lo: nat, cp: Continuity) {
    var holds :=
      && LastLower(queries, lo, cp.lower)
      && (forall k :: 0 <= k < |cp.roots| ==> FirstRoot(queries, lo + k, cp.roots[k]))
      && (forall h: nat :: Covered(queries, h) ==> h < lo + |cp.roots|);
    holds
  }

  lemma CollectedIsFirst(queries: seq<QueryProof>, h: nat)
    requires h in RootMap(queries, |queries|)
    ensures FirstRoot(queries, h, RootMap(queries, |queries|)[h])
  {
    RootMapIs(queries, |queries|, h);
  }

  lemma SharedIsTaken(queries: seq<QueryProof>, lo: nat, top: nat)
    requires lo in LowerMap(queries, |queries|) && IsTip(RootMap(queries, |queries|), top) && lo <= top
    requires forall h :: lo <= h <= top ==> h in RootMap(queries, |queries|)
    ensures TakenFrom(queries, lo,
              Continuity(LowerMap(queries, |queries|)[lo], RootList(RootMap(queries, |queries|), lo, top)))
  {
    var roots := RootList(RootMap(queries, |queries|), lo, top);
    var cp := Continuity(LowerMap(queries, |queries|)[lo], roots);
    LowerIsLast(queries, |queries|, lo);
    RootListAt(RootMap(queries, |queries|), lo, top);
    forall k | 0 <= k < |roots| ensures FirstRoot(queries, lo + k, roots[k]) {
      CollectedIsFirst(queries, lo + k);
    }
    forall h: nat | Covered(queries, h) ensures h < lo + |roots| { RootMapIs(queries, |queries|, h); }
    assert TakenFrom(queries, lo, cp);
  }

  lemma NothingIsTaken(queries: seq<QueryProof>, lo: nat)
    requires lo in LowerMap(queries, |queries|) && RootMap(queries, |queries|) == map[]
    ensures TakenFrom(queries, lo, Continuity(LowerMap(queries, |queries|)[lo], []))
  {
    LowerIsLast(queries, |queries|, lo);
    forall h: nat ensures !Covered(queries, h) { RootMapIs(queries, |queries|, h); }
  }

  /** The outcome for any queries, whether or not their proofs agree, told by the proofs alone. The
      cases exclude one another, so each is also sufficient. */
  lemma OutcomeMeans(queries: seq<QueryProof>, lo: nat, hi: nat)
    requires Lowest(queries, lo) && Highest(queries, hi)
    ensures match Outcome(queries)
            case NoQueries => false
            case NoLowerDigest => !ProvedAt(queries, lo)
            case MaxNotCovered =>
              && ProvedAt(queries, lo) && (exists h: nat :: Covered(queries, h))
              && forall h: nat :: Covered(queries, h) ==> h < hi
            case MissingRoot =>
              && ProvedAt(queries, lo) && (exists h: nat :: hi <= h && Covered(queries, h))
              && exists h: nat, top: nat :: lo <= h < top && !Covered(queries, h) && Covered(queries, top)
            case Shared(cp) => TakenFrom(queries, lo, cp) && (cp.roots == [] || hi < lo + |cp.roots|)
  {
    var n := |queries|;
    var l, g := MinMax(queries, n);
    assert queries[l] in queries && queries[g] in queries;
    var m := RootMap(queries, n);
    forall h: nat ensures h in m <==> Covered(queries, h) { RootMapIs(queries, n, h); }
    LowerMapIs(queries, n, lo);
    if lo in LowerMap(queries, n) {
      if m == map[] {
        NothingIsTaken(queries, lo);
      } else {
        var top := Tip(m).value;
        if hi <= top && forall h :: lo <= h <= top ==> h in m { SharedIsTaken(queries, lo, top); }
      }
    }
  }

  // ---- order ---------------------------------------------------------------------------------------------

  /** Proofs agree wherever they meet. */
  ghost predicate Agree(p: QueryProof, q: QueryProof) {
    && (forall h: nat :: p.Covers(h) && q.Covers(h) ==> p.RootAt(h) == q.RootAt(h))
    && (p.proof.Some? && q.proof.Some? && p.height == q.height ==> p.proof.value.lower == q.proof.value.lower)
  }

  ghost predicate Consistent(queries: seq<QueryProof>) {
    forall p, q :: p in queries && q in queries ==> Agree(p, q)
  }

  ghost predicate SameQueries(a: seq<QueryProof>, b: seq<QueryProof>) {
    forall q :: q in a <==> q in b
  }

  lemma SameRootAt(a: seq<QueryProof>, b: seq<QueryProof>, h: nat)
    requires SameQueries(a, b) && Consistent(a) && h in RootMap(a, |a|)
    ensures h in RootMap(b, |b|) && RootMap(b, |b|)[h] == RootMap(a, |a|)[h]
  {
    RootMapIs(a, |a|, h);
    RootMapIs(b, |b|, h);
    var i: nat :| FirstToCover(a, |a|, i, h) && RootMap(a, |a|)[h] == a[i].RootAt(h);
    assert a[i] in b;
    var j: nat :| FirstToCover(b, |b|, j, h) && RootMap(b, |b|)[h] == b[j].RootAt(h);
    assert b[j] in a && Agree(a[i], b[j]);
  }

  lemma SameLowerAt(a: seq<QueryProof>, b: seq<QueryProof>, h: nat)
    requires SameQueries(a, b) && Consistent(a) && h in LowerMap(a, |a|)
    ensures h in LowerMap(b, |b|) && LowerMap(b, |b|)[h] == LowerMap(a, |a|)[h]
  {
    LowerMapIs(a, |a|, h);
    LowerMapIs(b, |b|, h);
    var i :| 0 <= i < |a| && a[i].proof.Some? && a[i].height == h && LowerMap(a, |a|)[h] == a[i].proof.value.lower;
    assert a[i] in b;
    var j :| 0 <= j < |b| && b[j].proof.Some? && b[j].height == h && LowerMap(b, |b|)[h] == b[j].proof.value.lower;
    assert b[j] in a && Agree(a[i], b[j]);
  }

  lemma SameMaps(a: seq<QueryProof>, b: seq<QueryProof>)
    requires SameQueries(a, b) && Consistent(a)
    ensures RootMap(a, |a|) == RootMap(b, |b|) && LowerMap(a, |a|) == LowerMap(b, |b|)
  {
    assert SameQueries(b, a) && Consistent(b);
    forall h | h in RootMap(a, |a|) ensures h in RootMap(b, |b|) && RootMap(b, |b|)[h] == RootMap(a, |a|)[h] {
        SameRootAt(a, b, h); }
    forall h | h in RootMap(b, |b|) ensures h in RootMap(a, |a|) { SameRootAt(b, a, h); }
    forall h | h in LowerMap(a, |a|) ensures h in LowerMap(b, |b|) && LowerMap(b, |b|)[h] == LowerMap(a, |a|)[h] {
        SameLowerAt(a, b, h); }
    forall h | h in LowerMap(b, |b|) ensures h in LowerMap(a, |a|) { SameLowerAt(b, a, h); }
  }

  lemma SameBounds(a: seq<QueryProof>, b: seq<QueryProof>)
    requires SameQueries(a, b) && a != []
    ensures b != [] && MinHeight(a, |a|) == MinHeight(b, |b|) && MaxHeight(a, |a|) == MaxHeight(b, |b|)
  {
    assert a[0] in b;
    var i, k := MinMax(a, |a|);
    var j, l := MinMax(b, |b|);
    assert a[i] in b && b[j] in a && a[k] in b && b[l] in a;
  }

  /** For proofs that agree, neither order nor repetition changes the outcome. */
  lemma OrderDoesNotMatter(a: seq<QueryProof>, b: seq<QueryProof>)
    requires SameQueries(a, b) && Consistent(a)
    ensures Outcome(a) == Outcome(b)
  {
    assert b != [] ==> b[0] in b;
    if a != [] {
      SameBounds(a, b);
      SameMaps(a, b);
    }
  }

  // ---- meaning -------------------------------------------------------------------------------------------

  /** The digest after the first `n` roots of a proof that starts at height `start`. */
  function DigestAfter(f: DigestFn, cp: Continuity, start: nat, n: nat): H256
    requires n <= |cp.roots|
  {
    if n == 0 then cp.lower else f(start + n - 1, cp.roots[n - 1], Some(DigestAfter(f, cp, start, n - 1)))
  }

  /** The proof is a piece of the chain. */
  ghost predicate Piece(f: DigestFn, roots: Roots, anchor: Checkpoint, cp: Continuity, start: nat) {
    && anchor.block < start && cp.lower == Chain(f, roots, anchor, start - 1)
    && forall i :: 0 <= i < |cp.roots| ==> cp.roots[i] == roots(start + i)
  }

  lemma {:induction false} PieceReachesChain(f: DigestFn, roots: Roots, anchor: Checkpoint, cp: Continuity, start: nat,
      n: nat)
    requires Piece(f, roots, anchor, cp, start) && n <= |cp.roots|
    ensures DigestAfter(f, cp, start, n) == Chain(f, roots, anchor, start - 1 + n)
  {
    if n > 0 { PieceReachesChain(f, roots, anchor, cp, start, n - 1); }
  }

  /** Every proof is a piece of one chain, with at least one root. */
  ghost predicate FromOneChain(f: DigestFn, roots: Roots, anchor: Checkpoint, queries: seq<QueryProof>) {
    forall q :: q in queries ==>
      && q.proof.Some? && q.proof.value.roots != []
      && Piece(f, roots, anchor, q.proof.value, q.height)
  }

  lemma OneChainIsConsistent(f: DigestFn, roots: Roots, anchor: Checkpoint, queries: seq<QueryProof>)
    requires FromOneChain(f, roots, anchor, queries)
    ensures Consistent(queries)
  {
    forall p, q, h: nat | p in queries && q in queries && p.Covers(h) &&
        q.Covers(h) ensures p.RootAt(h) == q.RootAt(h) {
      PieceRoot(f, roots, anchor, p, h);
      PieceRoot(f, roots, anchor, q, h);
    }
  }

  /** So the merge of proofs from one chain does not depend on their order. */
  lemma OneChainIgnoresOrder(f: DigestFn, roots: Roots, anchor: Checkpoint, a: seq<QueryProof>, b: seq<QueryProof>)
    requires FromOneChain(f, roots, anchor, a) && multiset(a) == multiset(b)
    ensures Outcome(a) == Outcome(b)
  {
    OneChainIsConsistent(f, roots, anchor, a);
    assert forall q :: q in a <==> q in multiset(a);
    assert forall q :: q in b <==> q in multiset(b);
    OrderDoesNotMatter(a, b);
  }

  /** The last height a proof covers. */
  function LastHeight(q: QueryProof): nat
    requires q.proof.Some? && q.proof.value.roots != []
  {
    q.height + |q.proof.value.roots| - 1
  }

  /** No height between the lowest and the highest covered one is left open. */
  ghost predicate NoHole(queries: seq<QueryProof>)
    requires forall q :: q in queries ==> q.proof.Some? && q.proof.value.roots != []
  {
    forall p, q, h: nat :: p in queries && q in queries && p.height <= h <= LastHeight(q) ==> CoveredBy(queries, h)
  }

  ghost predicate CoveredBy(queries: seq<QueryProof>, h: nat) {
    exists q :: q in queries && q.Covers(h)
  }

  lemma CoveredIsCollected(queries: seq<QueryProof>, h: nat)
    ensures h in RootMap(queries, |queries|) <==> CoveredBy(queries, h)
  {
    RootMapIs(queries, |queries|, h);
    if CoveredBy(queries, h) {
      var q :| q in queries && q.Covers(h);
      var i :| 0 <= i < |queries| && queries[i] == q;
      assert queries[i].Covers(h);
    }
  }

  /** On one chain every query height is covered, so only a hole can make the merge fail. */
  lemma OneChainBounds(f: DigestFn, roots: Roots, anchor: Checkpoint, queries: seq<QueryProof>)
    requires FromOneChain(f, roots, anchor, queries) && queries != []
    ensures var m := RootMap(queries, |queries|);
            && MinHeight(queries, |queries|) in LowerMap(queries, |queries|)
            && m != map[] && MaxHeight(queries, |queries|) <= Tip(m).value
            && (forall q :: q in queries ==> LastHeight(q) <= Tip(m).value)
            && (exists q :: q in queries && LastHeight(q) == Tip(m).value)
  {
    var n := |queries|;
    var m := RootMap(queries, n);
    var lowest, highest := MinMax(queries, n);
    assert queries[lowest] in queries && queries[highest] in queries;
    LowerMapIs(queries, n, MinHeight(queries, n));
    forall q | q in queries ensures LastHeight(q) in m {
      CoveredIsCollected(queries, LastHeight(q));
    }
    assert queries[0] in queries;
    CoveredIsCollected(queries, Tip(m).value);
  }

  /** The collected roots have no hole up to the top exactly when the proofs leave none. */
  lemma NoHoleInMap(queries: seq<QueryProof>, m: map<nat, H256>, lo: nat, top: nat)
    requires forall q :: q in queries ==> q.proof.Some? && q.proof.value.roots != []
    requires forall h: nat :: h in m <==> CoveredBy(queries, h)
    requires forall q :: q in queries ==> lo <= q.height && LastHeight(q) <= top
    requires exists q :: q in queries && q.height == lo
    requires exists q :: q in queries && LastHeight(q) == top
    ensures (forall h :: lo <= h <= top ==> h in m) <==> NoHole(queries)
  {
    var p :| p in queries && p.height == lo;
    var q :| q in queries && LastHeight(q) == top;
  }

  /** The merge of proofs from one chain succeeds exactly when they leave no hole. */
  lemma MergeSucceedsIffNoHole(f: DigestFn, roots: Roots, anchor: Checkpoint, queries: seq<QueryProof>)
    requires FromOneChain(f, roots, anchor, queries) && queries != []
    ensures Outcome(queries).Shared? <==> NoHole(queries)
    ensures !NoHole(queries) ==> Outcome(queries) == MissingRoot
  {
    var n := |queries|;
    var m, lo := RootMap(queries, n), MinHeight(queries, n);
    OneChainBounds(f, roots, anchor, queries);
    LowestQuery(queries);
    forall h: nat ensures h in m <==> CoveredBy(queries, h) { CoveredIsCollected(queries, h); }
    NoHoleInMap(queries, m, lo, Tip(m).value);
  }

  lemma LowestQuery(queries: seq<QueryProof>)
    requires queries != []
    ensures forall q :: q in queries ==> MinHeight(queries, |queries|) <= q.height
    ensures exists q :: q in queries && q.height == MinHeight(queries, |queries|)
  {
    var lowest, _ := MinMax(queries, |queries|);
    assert queries[lowest] in queries;
  }

  lemma PieceOfMap(f: DigestFn, roots: Roots, anchor: Checkpoint, m: map<nat, H256>, lo: nat, top: nat, lower: H256)
    requires anchor.block < lo <= top + 1 && lower == Chain(f, roots, anchor, lo - 1)
    requires forall h :: lo <= h <= top ==> h in m && m[h] == roots(h)
    ensures Piece(f, roots, anchor, Continuity(lower, RootList(m, lo, top)), lo) &&
            |RootList(m, lo, top)| == top + 1 - lo
  {
    RootListAt(m, lo, top);
  }

  lemma LowerOf(queries: seq<QueryProof>, h: nat) returns (q: QueryProof)
    requires h in LowerMap(queries, |queries|)
    ensures q in queries && q.proof.Some? && q.height == h && q.proof.value.lower == LowerMap(queries, |queries|)[h]
  {
    LowerMapIs(queries, |queries|, h);
    var i :| 0 <= i < |queries| && queries[i].proof.Some? && queries[i].height == h
             && LowerMap(queries, |queries|)[h] == queries[i].proof.value.lower;
    q := queries[i];
  }

  lemma OneChainLower(f: DigestFn, roots: Roots, anchor: Checkpoint, queries: seq<QueryProof>, lo: nat)
    requires FromOneChain(f, roots, anchor, queries) && lo in LowerMap(queries, |queries|)
    ensures anchor.block < lo && LowerMap(queries, |queries|)[lo] == Chain(f, roots, anchor, lo - 1)
  {
    var q := LowerOf(queries, lo);
    assert Piece(f, roots, anchor, q.proof.value, q.height);
  }

  /** A merged proof of pieces of one chain is again a piece of it, from the lowest query up. */
  lemma MergedIsPiece(f: DigestFn, roots: Roots, anchor: Checkpoint, queries: seq<QueryProof>)
    requires FromOneChain(f, roots, anchor, queries) && queries != [] && Outcome(queries).Shared?
    ensures var lo, cp := MinHeight(queries, |queries|), Outcome(queries).proof;
            && Piece(f, roots, anchor, cp, lo)
            && forall q :: q in queries ==> lo <= q.height && LastHeight(q) < lo + |cp.roots|
  {
    var n := |queries|;
    var m, lo := RootMap(queries, n), MinHeight(queries, n);
    OneChainBounds(f, roots, anchor, queries);
    LowestQuery(queries);
    OneChainLower(f, roots, anchor, queries, lo);
    forall h | lo <= h <= Tip(m).value ensures h in m && m[h] == roots(h) {
        OneChainRoot(f, roots, anchor, queries, h); }
    PieceOfMap(f, roots, anchor, m, lo, Tip(m).value, LowerMap(queries, n)[lo]);
  }

  /** Some proof has the collected root. */
  lemma RootFrom(queries: seq<QueryProof>, h: nat) returns (q: QueryProof)
    requires h in RootMap(queries, |queries|)
    ensures q in queries && q.Covers(h) && RootMap(queries, |queries|)[h] == q.RootAt(h)
  {
    RootMapIs(queries, |queries|, h);
    var i: nat :| FirstToCover(queries, |queries|, i, h) && RootMap(queries, |queries|)[h] == queries[i].RootAt(h);
    q := queries[i];
  }

  lemma PieceRoot(f: DigestFn, roots: Roots, anchor: Checkpoint, q: QueryProof, h: nat)
    requires q.Covers(h) && Piece(f, roots, anchor, q.proof.value, q.height)
    ensures q.RootAt(h) == roots(h)
  {
    assert q.proof.value.roots[h - q.height] == roots(q.height + (h - q.height));
  }

  lemma OneChainRoot(f: DigestFn, roots: Roots, anchor: Checkpoint, queries: seq<QueryProof>, h: nat)
    requires FromOneChain(f, roots, anchor, queries) && h in RootMap(queries, |queries|)
    ensures RootMap(queries, |queries|)[h] == roots(h)
  {
    var q := RootFrom(queries, h);
    PieceRoot(f, roots, anchor, q, h);
  }

  /** Two pieces of one chain that reach the same height reach the same digest there. */
  lemma PiecesMeet(f: DigestFn, roots: Roots, anchor: Checkpoint, p: Continuity, i: nat, m: nat, q: Continuity, j: nat,
      n: nat)
    requires Piece(f, roots, anchor, p, i) && Piece(f, roots, anchor, q, j) && m <= |p.roots| && n <= |q.roots| &&
             i + m == j + n
    ensures DigestAfter(f, p, i, m) == DigestAfter(f, q, j, n)
  {
    PieceReachesChain(f, roots, anchor, p, i, m);
    PieceReachesChain(f, roots, anchor, q, j, n);
  }

  /** The merge preserves meaning: at each query's last height, chaining the merged proof reaches
      the digest that chaining the query's own proof reaches. */
  lemma MergePreservesMeaning(f: DigestFn, roots: Roots, anchor: Checkpoint, queries: seq<QueryProof>, q: QueryProof)
    requires FromOneChain(f, roots, anchor, queries) && q in queries && Outcome(queries).Shared?
    ensures var lo, cp := MinHeight(queries, |queries|), Outcome(queries).proof;
            var own := |q.proof.value.roots|;
            && lo <= q.height && q.height - lo + own <= |cp.roots|
            && DigestAfter(f, cp, lo, q.height - lo + own) == DigestAfter(f, q.proof.value, q.height, own)
  {
    var lo, cp := MinHeight(queries, |queries|), Outcome(queries).proof;
    var own := |q.proof.value.roots|;
    MergedIsPiece(f, roots, anchor, queries);
    PiecesMeet(f, roots, anchor, cp, lo, q.height - lo + own, q.proof.value, q.height, own);
  }

  /** Outside that setting success does not mean coverage: proofs that all carry an empty list of
      roots merge into a proof of nothing. It reaches every query exactly if some proof has a root. */
  lemma SharedCoversUnlessEmpty(queries: seq<QueryProof>)
    requires Outcome(queries).Shared?
    ensures queries != []
    ensures (forall q :: q in queries ==> q.height < MinHeight(queries, |queries|) + |Outcome(queries).proof.roots|)
            <==> exists q :: q in queries && q.proof.Some? && q.proof.value.roots != []
  {
    var n := |queries|;
    var m, lo := RootMap(queries, n), MinHeight(queries, n);
    var lowest, _ := MinMax(queries, n);
    assert queries[lowest] in queries;
    if m == map[] {
      forall q | q in queries && q.proof.Some? ensures q.proof.value.roots == [] {
        CoveredIsCollected(queries, q.height);
      }
    } else {
      RootListAt(m, lo, Tip(m).value);
      CoveredIsCollected(queries, Tip(m).value);
    }
  }

  lemma EmptyProofsMerge(height: nat, lower: H256)
    ensures Outcome([QueryProof(height, Some(Continuity(lower, [])))]) == Shared(Continuity(lower, []))
  {
    var queries := [QueryProof(height, Some(Continuity(lower, [])))];
    assert RootMap(queries, 1) == AddRoots(RootMap(queries, 0), height, [], 0) == map[];
  }
}
