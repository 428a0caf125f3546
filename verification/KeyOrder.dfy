/** An ordered database seen through an encoding of its keys. */
module KeyOrder {
  import opened Heights

  /** The map from heights below `bound` whose encoded key is present. */
  ghost function Pull<K(!new), V>(m: map<K, V>, enc: nat -> K, bound: nat): map<nat, V> {
    map h: nat | h < bound && enc(h) in m :: m[enc(h)]
  }

  /** Keys sort like heights. (It follows that no two heights share a key.) */
  lemma PullAt<K(!new), V>(m: map<K, V>, enc: nat -> K, bound: nat, h: nat)
    requires h < bound && enc(h) in m
    ensures h in Pull(m, enc, bound) && Pull(m, enc, bound)[h] == m[enc(h)]
  {
  }

  ghost predicate KeepsOrder<K>(enc: nat -> K, less: (K, K) -> bool, bound: nat) {
    forall g: nat, h: nat {:trigger less(enc(g), enc(h))} :: g < bound && h < bound ==>
        (less(enc(g), enc(h)) <==> g < h)
  }

  lemma KeysAreDistinct<K>(enc: nat -> K, less: (K, K) -> bool, bound: nat, g: nat, h: nat)
    requires KeepsOrder(enc, less, bound) && g < bound && h < bound && enc(g) == enc(h)
    ensures g == h
  {
    assert less(enc(g), enc(h)) <==> g < h;
    assert less(enc(h), enc(g)) <==> h < g;
    assert less(enc(g), enc(g)) <==> g < g;
  }

  lemma PullInsert<K(!new), V>(m: map<K, V>, enc: nat -> K, less: (K, K) -> bool, bound: nat, h: nat, v: V)
    requires KeepsOrder(enc, less, bound) && h < bound
    ensures Pull(m[enc(h) := v], enc, bound) == Pull(m, enc, bound)[h := v]
  {
    forall g: nat | g < bound && enc(g) == enc(h) ensures g == h { KeysAreDistinct(enc, less, bound, g, h); }
  }

  lemma PullRemove<K(!new), V>(m: map<K, V>, enc: nat -> K, less: (K, K) -> bool, bound: nat, h: nat)
    requires KeepsOrder(enc, less, bound) && h < bound
    ensures Pull(m - {enc(h)}, enc, bound) == Pull(m, enc, bound) - {h}
  {
    forall g: nat | g < bound && enc(g) == enc(h) ensures g == h { KeysAreDistinct(enc, less, bound, g, h); }
  }

  /** The least key is the first height, and the greatest the last. */
  lemma EndsPulled<K(!new), V>(m: map<K, V>, enc: nat -> K, less: (K, K) -> bool, bound: nat, h: nat)
    requires KeepsOrder(enc, less, bound) && h < bound && enc(h) in m
    ensures (forall k :: k in m ==> !less(k, enc(h))) ==> IsFirst(Pull(m, enc, bound), h)
    ensures (forall k :: k in m ==> !less(enc(h), k)) ==> IsTip(Pull(m, enc, bound), h)
  {
    forall g | g in Pull(m, enc, bound) ensures (less(enc(g), enc(h)) <==> g < h) && (less(enc(h), enc(g)) <==> h < g) {
    }
  }

  /** The keys a range read visits: those between the bounds, in key order. */
  ghost predicate RangeRead<K(!new), V>(m: map<K, V>, less: (K, K) -> bool, from: K, to: K, keys: seq<K>) {
    && (forall i, j :: 0 <= i < j < |keys| ==> less(keys[i], keys[j]))
    && (forall k :: k in keys <==> k in m && !less(k, from) && !less(to, k))
  }

  ghost predicate Decoded<K>(keys: seq<K>, enc: nat -> K, bound: nat, heights: seq<nat>) {
    |heights| == |keys| && forall i :: 0 <= i < |keys| ==> heights[i] < bound && enc(heights[i]) == keys[i]
  }

  lemma ReadAscends<K(!new), V>(m: map<K, V>, enc: nat -> K, less: (K, K) -> bool, bound: nat, from: K, to: K,
      keys: seq<K>, heights: seq<nat>)
    requires KeepsOrder(enc, less, bound) && RangeRead(m, less, from, to, keys) && Decoded(keys, enc, bound, heights)
    ensures Ascending(heights)
  {
    forall i, j | 0 <= i < j < |heights| ensures heights[i] < heights[j] {
      assert less(enc(heights[i]), enc(heights[j]));
    }
  }

  lemma ReadHolds<K(!new), V>(m: map<K, V>, enc: nat -> K, less: (K, K) -> bool, bound: nat, from: nat, to: nat,
      keys: seq<K>, heights: seq<nat>, h: nat)
    requires KeepsOrder(enc, less, bound) && from < bound && to < bound
    requires RangeRead(m, less, enc(from), enc(to), keys) && Decoded(keys, enc, bound, heights)
    ensures h in heights <==> from <= h <= to && h in Pull(m, enc, bound)
  {
    if h < bound {
      assert less(enc(h), enc(from)) <==> h < from;
      assert less(enc(to), enc(h)) <==> to < h;
    }
    if h in heights {
      var i :| 0 <= i < |heights| && heights[i] == h;
      assert keys[i] in keys;
    }
    if from <= h <= to && h in Pull(m, enc, bound) {
      var i :| 0 <= i < |keys| && keys[i] == enc(h);
      KeysAreDistinct(enc, less, bound, heights[i], h);
    }
  }

  /** A range read yields, decoded, exactly the ascending scan of the heights. */
  lemma RangeReadIsScan<K(!new), V>(m: map<K, V>, enc: nat -> K, less: (K, K) -> bool, bound: nat, from: nat, to: nat,
      keys: seq<K>, heights: seq<nat>)
    requires KeepsOrder(enc, less, bound) && from < bound && to < bound
    requires RangeRead(m, less, enc(from), enc(to), keys) && Decoded(keys, enc, bound, heights)
    ensures heights == Scan(Pull(m, enc, bound), from, to)
  {
    var db := Pull(m, enc, bound);
    ReadAscends(m, enc, less, bound, enc(from), enc(to), keys, heights);
    ScanIsExact(db, from, to);
    forall h: nat ensures h in heights <==> h in Scan(db, from, to) {
      ReadHolds(m, enc, less, bound, from, to, keys, heights, h);
    }
    AscendingIsUnique(heights, Scan(db, from, to));
  }

  // ---- ascending sequences -------------------------------------------------------------------------------

  lemma InInit(a: seq<nat>, h: nat)
    requires Ascending(a) && a != []
    ensures h in a[..|a| - 1] <==> h in a && h != a[|a| - 1]
  {
    assert a == a[..|a| - 1] + [a[|a| - 1]];
  }

  lemma SameLast(a: seq<nat>, b: seq<nat>)
    requires Ascending(a) && Ascending(b) && a != [] && b != [] && forall h :: h in a <==> h in b
    ensures a[|a| - 1] == b[|b| - 1]
  {
    assert a[|a| - 1] in b && b[|b| - 1] in a;
  }

  lemma {:induction false} AscendingIsUnique(a: seq<nat>, b: seq<nat>)
    requires Ascending(a) && Ascending(b) && forall h :: h in a <==> h in b
    ensures a == b
    decreases |a|
  {
    assert b != [] ==> b[0] in b;
    if a != [] {
      assert a[0] in a;
      SameLast(a, b);
      var a', b' := a[..|a| - 1], b[..|b| - 1];
      forall h ensures h in a' <==> h in b' {
        InInit(a, h);
        InInit(b, h);
      }
      AscendingIsUnique(a', b');
      assert a == a' + [a[|a| - 1]] && b == b' + [b[|b| - 1]];
    }
  }
}
