/** The plain digest chain: one digest per block, each hashing the one before. */
module DigestChain {
  import opened Types

  /** `compute_digest_for(height, root, previous digest)`. */
  type DigestFn = (nat, H256, Option<H256>) -> H256

  /** The root of every height of the source. */
  type Roots = nat -> H256

  datatype Checkpoint = Checkpoint(block: nat, digest: H256)

  /** The digest at height `h`, chaining every block above the anchor. */
  function Chain(f: DigestFn, roots: Roots, anchor: Checkpoint, h: nat): H256
    requires anchor.block <= h
    decreases h
  {
    if h == anchor.block then anchor.digest
    else f(h, roots(h), Some(Chain(f, roots, anchor, h - 1)))
  }

  function Row(f: DigestFn, roots: Roots, anchor: Checkpoint, h: nat): Checkpoint
    requires anchor.block <= h
  {
    Checkpoint(h, Chain(f, roots, anchor, h))
  }

  /** Any point of a chain can serve as the anchor of the rest. */
  lemma {:induction false} ChainSplits(f: DigestFn, roots: Roots, anchor: Checkpoint, b: nat, h: nat)
    requires anchor.block <= b <= h
    ensures Chain(f, roots, Row(f, roots, anchor, b), h) == Chain(f, roots, anchor, h)
    decreases h
  {
    if h > b { ChainSplits(f, roots, anchor, b, h - 1); }
  }

  /** Two different inputs with one digest, met at height `h` on the way from the anchors. */
  ghost predicate CollisionAt(f: DigestFn, roots: Roots, anchor: Checkpoint, roots': Roots, anchor': Checkpoint, h: nat)
    requires anchor.block == anchor'.block < h
  {
    var prev, prev' := Chain(f, roots, anchor, h - 1), Chain(f, roots', anchor', h - 1);
    (roots(h), prev) != (roots'(h), prev') && f(h, roots(h), Some(prev)) == f(h, roots'(h), Some(prev'))
  }

  /** A digest binds everything below it: two sources that reach one digest at one height either
      agree on the anchor and on every root above it, or exhibit a collision of the digest
      function on inputs that were actually hashed. */
  lemma {:induction false} DigestBindsRoots(
    f: DigestFn, roots: Roots, anchor: Checkpoint, roots': Roots, anchor': Checkpoint, h: nat)
    requires anchor.block == anchor'.block <= h
    requires Chain(f, roots, anchor, h) == Chain(f, roots', anchor', h)
    ensures (anchor == anchor' && forall k: nat :: anchor.block < k <= h ==> roots(k) == roots'(k))
            || (exists k: nat :: anchor.block < k <= h && CollisionAt(f, roots, anchor, roots', anchor', k))
    decreases h
  {
    if h > anchor.block && !CollisionAt(f, roots, anchor, roots', anchor', h) {
      DigestBindsRoots(f, roots, anchor, roots', anchor', h - 1);
    }
  }

  function GenesisAnchor(f: DigestFn, roots: Roots, g: nat): Checkpoint {
    Checkpoint(g, f(g, roots(g), None))
  }

  /** From a genesis checkpoint, the genesis root itself is bound as well. */
  lemma GenesisBindsRoots(f: DigestFn, roots: Roots, roots': Roots, g: nat, h: nat)
    requires g <= h
    requires Chain(f, roots, GenesisAnchor(f, roots, g), h) == Chain(f, roots', GenesisAnchor(f, roots', g), h)
    ensures (forall k: nat :: g <= k <= h ==> roots(k) == roots'(k))
            || (roots(g) != roots'(g) && f(g, roots(g), None) == f(g, roots'(g), None))
            || (exists k: nat :: g < k <= h &&
                  CollisionAt(f, roots, GenesisAnchor(f, roots, g), roots', GenesisAnchor(f, roots', g), k))
  {
    DigestBindsRoots(f, roots, GenesisAnchor(f, roots, g), roots', GenesisAnchor(f, roots', g), h);
  }
}
