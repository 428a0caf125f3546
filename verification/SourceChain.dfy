/** The source chain: blocks linked by hash, and what it means for a store to lie on a branch. */
module SourceChain {
  import opened Types

  /** What a block commits to. `root` is the merkle root the archiver derives from it. */
  datatype Header = Header(number: nat, parent: H256, root: H256)

  /** The block hash function, and every block the source ever presents. */
  datatype World = World(hashOf: Header -> H256, seen: iset<Header>) {
    ghost predicate Collide(a: Header, b: Header) { a != b && hashOf(a) == hashOf(b) }

    /** No two presented blocks share a hash, and no presented block hashes to zero. */
    ghost predicate Sound() {
      && (forall a, b {:trigger Collide(a, b)} :: a in seen && b in seen ==> !Collide(a, b))
      && (forall a :: a in seen ==> hashOf(a) != ZERO_HASH)
    }
  }

  /** Position `i` of `c` is a presented block of that height, linked to the one before it. */
  ghost predicate BlockAt(w: World, c: seq<Header>, i: nat)
    requires i < |c|
  {
    c[i] in w.seen && c[i].number == i && (i > 0 ==> c[i].parent == w.hashOf(c[i - 1]))
  }

  /** A chain from block 0 on, short enough for `height + 1` to fit a u64. */
  ghost predicate IsChain(w: World, c: seq<Header>) {
    |c| <= U64_MAX && forall i {:trigger BlockAt(w, c, i)} :: 0 <= i < |c| ==> BlockAt(w, c, i)
  }

  /** The entry a stream delivers for height `h` of `c`. */
  function Delivered(w: World, c: seq<Header>, h: nat): Entry
    requires h < |c|
  {
    Entry(h, c[h].root, w.hashOf(c[h]))
  }

  /** A stored value is what `c` has at that height, as far as it is known. */
  ghost predicate OnChain(w: World, c: seq<Header>, h: nat, v: StoredRoot) {
    h < |c| && v.root == c[h].root && (v.blockHash == ZERO_HASH || v.blockHash == w.hashOf(c[h]))
  }

  ghost predicate AllOn(w: World, c: seq<Header>, db: Db) {
    forall h {:trigger OnChain(w, c, h, db[h])} :: h in db ==> OnChain(w, c, h, db[h])
  }

  /** Some single branch carries everything stored. */
  ghost predicate SingleBranch(w: World, db: Db) {
    exists c :: IsChain(w, c) && AllOn(w, c, db)
  }

  /** A block hash determines all of its ancestors. */
  lemma {:induction false} SameHashSameAncestors(w: World, c: seq<Header>, d: seq<Header>, h: nat)
    requires w.Sound() && IsChain(w, c) && IsChain(w, d)
    requires h < |c| && h < |d| && w.hashOf(c[h]) == w.hashOf(d[h])
    ensures c[..h + 1] == d[..h + 1]
    decreases h
  {
    assert BlockAt(w, c, h) && BlockAt(w, d, h) && !w.Collide(c[h], d[h]);
    if h > 0 { SameHashSameAncestors(w, c, d, h - 1); }
    assert c[..h + 1] == c[..h] + [c[h]] && d[..h + 1] == d[..h] + [d[h]];
  }

  /** If one branch carries a store, every chain that shares a stored, hashed block carries
      everything stored up to it. */
  lemma SharedBlockSharesStore(w: World, b: seq<Header>, c: seq<Header>, db: Db, t: nat)
    requires w.Sound() && IsChain(w, b) && IsChain(w, c) && AllOn(w, b, db)
    requires t in db && db[t].blockHash != ZERO_HASH
    requires t < |c| && w.hashOf(c[t]) == db[t].blockHash
    ensures forall h :: h in db && h <= t ==> OnChain(w, c, h, db[h])
  {
    assert OnChain(w, b, t, db[t]);
    SameHashSameAncestors(w, b, c, t);
    forall h | h in db && h <= t ensures OnChain(w, c, h, db[h]) {
      assert OnChain(w, b, h, db[h]);
      assert b[h] == b[..t + 1][h] == c[..t + 1][h] == c[h];
    }
  }
}
