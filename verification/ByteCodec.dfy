/** The bytes under the store: big-endian keys, and values of one or two hashes. */
module ByteCodec {
  import opened Types
  import opened Heights
  import opened KeyOrder

  type Byte = b: nat | b < 256

  type Bytes = seq<Byte>

  function Pow(k: nat): nat {
    if k == 0 then 1 else 256 * Pow(k - 1)
  }

  // ---- numbers -----------------------------------------------------------------------------------------

  /** The lowest `k` bytes of `n`, highest first. */
  function Encode(n: nat, k: nat): Bytes
    decreases k
  {
    if k == 0 then [] else Encode(n / 256, k - 1) + [n % 256]
  }

  function Decode(bs: Bytes): nat {
    if bs == [] then 0 else 256 * Decode(bs[..|bs| - 1]) + bs[|bs| - 1]
  }

  lemma {:induction false} EncodeLength(n: nat, k: nat)
    ensures |Encode(n, k)| == k
    decreases k
  {
    if k > 0 { EncodeLength(n / 256, k - 1); }
  }

  /** Decoding inverts encoding. */
  lemma {:induction false} DecodeEncode(n: nat, k: nat)
    requires n < Pow(k)
    ensures Decode(Encode(n, k)) == n
    decreases k
  {
    if k > 0 {
      DecodeEncode(n / 256, k - 1);
      var high := Encode(n / 256, k - 1);
      assert (high + [n % 256])[..|high|] == high;
    }
  }

  /** Encoding inverts decoding: every byte string of the right length is a key. */
  lemma {:induction false} EncodeDecode(bs: Bytes)
    ensures Decode(bs) < Pow(|bs|) && Encode(Decode(bs), |bs|) == bs
    decreases |bs|
  {
    if bs != [] {
      var high := bs[..|bs| - 1];
      EncodeDecode(high);
      assert bs == high + [bs[|bs| - 1]];
      assert Decode(bs) / 256 == Decode(high) && Decode(bs) % 256 == bs[|bs| - 1];
    }
  }

  // ---- order -------------------------------------------------------------------------------------------

  /** Byte strings in the order the database keeps its keys, from index `i` on. */
  predicate Less(a: Bytes, b: Bytes, i: nat)
    decreases |a| - i
  {
    i < |b| && (i >= |a| || a[i] < b[i] || (a[i] == b[i] && Less(a, b, i + 1)))
  }

  lemma {:induction false} LessAppend(a: Bytes, b: Bytes, x: Byte, y: Byte, i: nat)
    requires |a| == |b| && i <= |a|
    ensures Less(a + [x], b + [y], i) <==> Less(a, b, i) || (a[i..] == b[i..] && x < y)
    decreases |a| - i
  {
    if i < |a| {
      LessAppend(a, b, x, y, i + 1);
      assert a[i..] == [a[i]] + a[i + 1..] && b[i..] == [b[i]] + b[i + 1..];
    }
  }

  /** Big-endian keys sort like the numbers they encode. */
  lemma {:induction false} OrderIsNumeric(n: nat, m: nat, k: nat)
    requires n < Pow(k) && m < Pow(k)
    ensures Less(Encode(n, k), Encode(m, k), 0) <==> n < m
    decreases k
  {
    if k > 0 {
      var a, b := Encode(n / 256, k - 1), Encode(m / 256, k - 1);
      EncodeLength(n / 256, k - 1);
      EncodeLength(m / 256, k - 1);
      OrderIsNumeric(n / 256, m / 256, k - 1);
      LessAppend(a, b, n % 256, m % 256, 0);
      DecodeEncode(n / 256, k - 1);
      DecodeEncode(m / 256, k - 1);
      assert a[0..] == a && b[0..] == b;
    }
  }

  // ---- widths ------------------------------------------------------------------------------------------

  lemma {:induction false} PowAdds(a: nat, b: nat)
    ensures Pow(a + b) == Pow(a) * Pow(b)
  {
    if a > 0 { PowAdds(a - 1, b); }
  }

  lemma KeyWidth()
    ensures Pow(8) == U64_MAX + 1
  {
    assert Pow(2) == 0x1_0000;
    PowAdds(2, 2);
    PowAdds(4, 4);
  }

  lemma HashWidth()
    ensures Pow(32) == 0x1_0000000000000000_0000000000000000_0000000000000000_0000000000000000
  {
    KeyWidth();
    PowAdds(8, 8);
    PowAdds(16, 16);
  }

  // ---- values ------------------------------------------------------------------------------------------

  function HashOf(bs: Bytes): H256
    requires |bs| == 32
  {
    HashWidth();
    EncodeDecode(bs);
    Decode(bs)
  }

  /** `root ++ block_hash`. */
  function EncodeValue(s: StoredRoot): Bytes {
    Encode(s.root, 32) + Encode(s.blockHash, 32)
  }

  function ParseStored(value: Bytes): Option<StoredRoot> {
    if |value| == 64 then Some(StoredRoot(HashOf(value[..32]), HashOf(value[32..])))
    else if |value| == 32 then Some(StoredRoot(HashOf(value), ZERO_HASH))
    else None
  }

  /** What is written reads back. */
  lemma ValueRoundTrip(s: StoredRoot)
    ensures |EncodeValue(s)| == 64 && ParseStored(EncodeValue(s)) == Some(s)
  {
    HashWidth();
    EncodeLength(s.root, 32);
    EncodeLength(s.blockHash, 32);
    DecodeEncode(s.root, 32);
    DecodeEncode(s.blockHash, 32);
    assert EncodeValue(s)[..32] == Encode(s.root, 32) && EncodeValue(s)[32..] == Encode(s.blockHash, 32);
  }

  /** A legacy value reads as the current value of the same root with an unknown hash. */
  lemma LegacyReadsAsUnknown(value: Bytes)
    requires |value| == 32
    ensures ParseStored(value) == ParseStored(EncodeValue(StoredRoot(HashOf(value), ZERO_HASH)))
  {
    ValueRoundTrip(StoredRoot(HashOf(value), ZERO_HASH));
  }

  /** The root comes first: whatever 32 bytes follow it, a value has the root its first 32 bytes have
      alone, and the hash those that follow spell. */
  lemma RootComesFirst(root: Bytes, hash: Bytes)
    requires |root| == 32 && |hash| == 32
    ensures ParseStored(root + hash).Some? && ParseStored(root).Some?
    ensures ParseStored(root + hash).value.root == ParseStored(root).value.root == Decode(root)
    ensures ParseStored(root + hash).value.blockHash == Decode(hash) && ParseStored(root).value.blockHash == ZERO_HASH
  {
    assert (root + hash)[..32] == root && (root + hash)[32..] == hash;
  }

  /** The store calls this with `w == 8`; `KeyWidth` says that its heights are then the u64 numbers. */
  function ParseHeight(key: Bytes, w: nat): Option<nat> {
    if |key| == w then Some(Decode(key)) else None
  }

  /** A key parses to a height exactly when it is that height's key. */
  lemma KeyRoundTrip(h: nat, key: Bytes, w: nat)
    requires h < Pow(w)
    ensures ParseHeight(key, w) == Some(h) <==> key == Encode(h, w)
  {
    if key == Encode(h, w) {
      EncodeLength(h, w);
      DecodeEncode(h, w);
    } else if |key| == w {
      EncodeDecode(key);
    }
  }

  // ---- the database ------------------------------------------------------------------------------------

  type ByteDb = map<Bytes, Bytes>

  /** A value as it reads, where it can be read. */
  function Read(value: Bytes): StoredRoot {
    match ParseStored(value)
    case Some(s) => s
    case None => StoredRoot(ZERO_HASH, ZERO_HASH)
  }

  function Keys(w: nat): nat -> Bytes {
    (h: nat) => Encode(h, w)
  }

  function Before(): (Bytes, Bytes) -> bool {
    (a: Bytes, b: Bytes) => Less(a, b, 0)
  }

  lemma KeysKeepOrder(w: nat)
    ensures KeepsOrder(Keys(w), Before(), Pow(w))
  {
    forall g: nat, h: nat | g < Pow(w) && h < Pow(w) ensures Before()(Keys(w)(g), Keys(w)(h)) <==> g < h {
      OrderIsNumeric(g, h, w);
    }
  }

  /** A map with its values decoded. */
  ghost function MapValues<V, U>(m: map<nat, V>, dec: V -> U): map<nat, U> {
    map h | h in m :: dec(m[h])
  }

  lemma MapInsert<V, U>(m: map<nat, V>, dec: V -> U, h: nat, v: V)
    ensures MapValues(m[h := v], dec) == MapValues(m, dec)[h := dec(v)]
  {
  }

  lemma {:induction false} MapScan<V, U>(m: map<nat, V>, dec: V -> U, lo: nat, hi: int)
    ensures Scan(MapValues(m, dec), lo, hi) == Scan(m, lo, hi)
    decreases hi + 1 - lo
  {
    if lo <= hi { MapScan(m, dec, lo, hi - 1); }
  }

  /** The height map that bytes with `w`-byte keys stand for. The store's keys are 8 bytes wide;
      `KeyWidth` says that these are exactly the u64 heights. */
  ghost function View(bytes: ByteDb, w: nat): Db {
    MapValues(Pull(bytes, Keys(w), Pow(w)), Read)
  }

  /** Writing a value writes that height, and no other. */
  lemma InsertRefines(bytes: ByteDb, w: nat, h: nat, s: StoredRoot)
    requires h < Pow(w)
    ensures View(bytes[Keys(w)(h) := EncodeValue(s)], w) == View(bytes, w)[h := s]
  {
    KeysKeepOrder(w);
    PullInsert(bytes, Keys(w), Before(), Pow(w), h, EncodeValue(s));
    MapInsert(Pull(bytes, Keys(w), Pow(w)), Read, h, EncodeValue(s));
    ValueRoundTrip(s);
  }

  lemma RemoveRefines(bytes: ByteDb, w: nat, h: nat)
    requires h < Pow(w)
    ensures View(bytes - {Keys(w)(h)}, w) == View(bytes, w) - {h}
  {
    KeysKeepOrder(w);
    PullRemove(bytes, Keys(w), Before(), Pow(w), h);
  }

  /** Rewriting a value in the current layout changes nothing. */
  lemma UpgradeRefines(bytes: ByteDb, w: nat, h: nat)
    requires h in View(bytes, w)
    ensures View(bytes[Keys(w)(h) := EncodeValue(View(bytes, w)[h])], w) == View(bytes, w)
  {
    InsertRefines(bytes, w, h, View(bytes, w)[h]);
  }

  // ---- first, last, scans --------------------------------------------------------------------------------

  lemma KeyIsEncoded(k: Bytes)
    ensures Decode(k) < Pow(|k|) && Keys(|k|)(Decode(k)) == k
  {
    EncodeDecode(k);
  }

  lemma SameEnds<V, U>(m: map<nat, V>, dec: V -> U, h: nat)
    ensures IsFirst(m, h) ==> First(MapValues(m, dec)) == Some(h)
    ensures IsTip(m, h) ==> Tip(MapValues(m, dec)) == Some(h)
  {
    assert h in m ==> h in MapValues(m, dec);
  }

  /** The database's first and last key are the first and last height. */
  lemma EndsRefine(bytes: ByteDb, k: Bytes)
    requires k in bytes
    ensures (forall j :: j in bytes ==> !Before()(j, k)) ==> First(View(bytes, |k|)) == Some(Decode(k))
    ensures (forall j :: j in bytes ==> !Before()(k, j)) ==> Tip(View(bytes, |k|)) == Some(Decode(k))
  {
    var w := |k|;
    KeyIsEncoded(k);
    KeysKeepOrder(w);
    EndsPulled(bytes, Keys(w), Before(), Pow(w), Decode(k));
    SameEnds(Pull(bytes, Keys(w), Pow(w)), Read, Decode(k));
  }

  function DecodeAll(keys: seq<Bytes>, n: nat): seq<nat>
    requires n <= |keys|
  {
    if n == 0 then [] else DecodeAll(keys, n - 1) + [Decode(keys[n - 1])]
  }

  lemma {:induction false} DecodeAllIs(keys: seq<Bytes>, n: nat, w: nat)
    requires n <= |keys| && forall k :: k in keys ==> |k| == w
    ensures |DecodeAll(keys, n)| == n
    ensures forall i :: 0 <= i < n ==> DecodeAll(keys, n)[i] < Pow(w) && Keys(w)(DecodeAll(keys, n)[i]) == keys[i]
  {
    if n > 0 {
      DecodeAllIs(keys, n - 1, w);
      assert keys[n - 1] in keys;
      KeyIsEncoded(keys[n - 1]);
    }
  }

  lemma KeyHasItsValue(bytes: ByteDb, k: Bytes)
    requires k in bytes
    ensures Decode(k) in View(bytes, |k|) && View(bytes, |k|)[Decode(k)] == Read(bytes[k])
  {
    KeyIsEncoded(k);
    PullAt(bytes, Keys(|k|), Pow(|k|), Decode(k));
  }

  lemma RangeHeights(bytes: ByteDb, w: nat, from: nat, to: nat, keys: seq<Bytes>)
    requires from < Pow(w) && to < Pow(w) && forall k :: k in bytes ==> |k| == w
    requires RangeRead(bytes, Before(), Keys(w)(from), Keys(w)(to), keys)
    ensures DecodeAll(keys, |keys|) == Scan(View(bytes, w), from, to)
  {
    DecodeAllIs(keys, |keys|, w);
    KeysKeepOrder(w);
    RangeReadIsScan(bytes, Keys(w), Before(), Pow(w), from, to, keys, DecodeAll(keys, |keys|));
    MapScan(Pull(bytes, Keys(w), Pow(w)), Read, from, to);
  }

  /** A range read of the bytes yields, decoded, exactly the ascending scan of the height map, and
      under each key the value of that height. */
  lemma RangeReadRefines(bytes: ByteDb, w: nat, from: nat, to: nat, keys: seq<Bytes>)
    requires from < Pow(w) && to < Pow(w) && forall k :: k in bytes ==> |k| == w
    requires RangeRead(bytes, Before(), Keys(w)(from), Keys(w)(to), keys)
    ensures DecodeAll(keys, |keys|) == Scan(View(bytes, w), from, to)
    ensures forall k :: k in keys ==>
              k in bytes && Decode(k) in View(bytes, w) && View(bytes, w)[Decode(k)] == Read(bytes[k])
  {
    RangeHeights(bytes, w, from, to, keys);
    forall k | k in keys
      ensures k in bytes && Decode(k) in View(bytes, w) && View(bytes, w)[Decode(k)] == Read(bytes[k])
    {
      KeyHasItsValue(bytes, k);
    }
  }

  /** The value stored at a height can be read. */
  ghost predicate Readable(bytes: ByteDb, w: nat, h: nat) {
    Keys(w)(h) in bytes && ParseStored(bytes[Keys(w)(h)]).Some?
  }

  /** `entry` is what the height map has at `h`. */
  ghost predicate EntryAt(bytes: ByteDb, w: nat, h: nat, entry: (nat, StoredRoot)) {
    h in View(bytes, w) && entry == (h, View(bytes, w)[h])
  }

  lemma RangeItem(bytes: ByteDb, w: nat, from: nat, to: nat, keys: seq<Bytes>, i: nat)
    requires from < Pow(w) && to < Pow(w) && forall k :: k in bytes ==> |k| == w
    requires RangeRead(bytes, Before(), Keys(w)(from), Keys(w)(to), keys) && i < |keys|
    ensures |Scan(View(bytes, w), from, to)| == |keys| && keys[i] in bytes && |keys[i]| == w
    ensures var h := Scan(View(bytes, w), from, to)[i];
            && h == Decode(keys[i])
            && (Readable(bytes, w, h) <==> ParseStored(bytes[keys[i]]).Some?)
            && EntryAt(bytes, w, h, (h, Read(bytes[keys[i]])))
  {
    RangeReadRefines(bytes, w, from, to, keys);
    DecodeAllIs(keys, |keys|, w);
    assert keys[i] in keys;
    DecodeAllAt(keys, |keys|, i);
    KeyIsEncoded(keys[i]);
  }

  lemma {:induction false} DecodeAllAt(keys: seq<Bytes>, n: nat, i: nat)
    requires i < n <= |keys|
    ensures |DecodeAll(keys, n)| == n && DecodeAll(keys, n)[i] == Decode(keys[i])
  {
    if n > 1 { DecodeAllAt(keys, n - 1, if i < n - 1 then i else 0); }
  }

  /** The first `n` keys read one by one, up to the first that cannot be read. */
  function ReadKeys(bytes: ByteDb, w: nat, keys: seq<Bytes>, n: nat): Option<seq<(nat, StoredRoot)>>
    requires n <= |keys| && forall k :: k in keys ==> k in bytes
  {
    if n == 0 then Some([])
    else
      var rest := ReadKeys(bytes, w, keys, n - 1);
      var height, stored := ParseHeight(keys[n - 1], w), ParseStored(bytes[keys[n - 1]]);
      if rest.Some? && height.Some? && stored.Some? then Some(rest.value + [(height.value, stored.value)]) else None
  }

  lemma {:induction false} UnreadStays(bytes: ByteDb, w: nat, keys: seq<Bytes>, m: nat, n: nat)
    requires m <= n <= |keys| && (forall k :: k in keys ==> k in bytes) && ReadKeys(bytes, w, keys, m).None?
    ensures ReadKeys(bytes, w, keys, n).None?
  {
    if m < n { UnreadStays(bytes, w, keys, m, n - 1); }
  }

  /** The store's range read, over the keys the database yields for the range. */
  method GetRange(bytes: ByteDb, w: nat, keys: seq<Bytes>) returns (r: Option<seq<(nat, StoredRoot)>>)
    requires forall k :: k in keys ==> k in bytes
    ensures r == ReadKeys(bytes, w, keys, |keys|)
  {
    var results := [];
    for i := 0 to |keys|
      invariant ReadKeys(bytes, w, keys, i) == Some(results)
    {
      var height, stored := ParseHeight(keys[i], w), ParseStored(bytes[keys[i]]);
      if height.None? || stored.None? {
        UnreadStays(bytes, w, keys, i + 1, |keys|);
        return None;
      }
      results := results + [(height.value, stored.value)];
    }
    return Some(results);
  }

  ghost predicate ReadsAs(bytes: ByteDb, k: Bytes, entry: (nat, StoredRoot)) {
    k in bytes && entry.0 == Decode(k) && ParseStored(bytes[k]) == Some(entry.1)
  }

  lemma {:induction false} ReadKeysIs(bytes: ByteDb, w: nat, keys: seq<Bytes>, n: nat)
    requires n <= |keys| && forall k :: k in keys ==> k in bytes && |k| == w
    ensures var r := ReadKeys(bytes, w, keys, n);
            && (r.Some? ==> |r.value| == n && forall i :: 0 <= i < n ==> ReadsAs(bytes, keys[i], r.value[i]))
            && (r.None? ==> exists i :: 0 <= i < n && ParseStored(bytes[keys[i]]).None?)
  {
    if n > 0 { ReadKeysIs(bytes, w, keys, n - 1); }
  }

  /** A range read fails exactly when some value in the range cannot be read, and otherwise returns
      the entries of the height map in the range, every one, in ascending order. */
  lemma GetRangeRefines(bytes: ByteDb, w: nat, from: nat, to: nat, keys: seq<Bytes>)
    requires from < Pow(w) && to < Pow(w) && forall k :: k in bytes ==> |k| == w
    requires RangeRead(bytes, Before(), Keys(w)(from), Keys(w)(to), keys)
    ensures var scan := Scan(View(bytes, w), from, to);
            var r := ReadKeys(bytes, w, keys, |keys|);
            && (r.Some? <==> forall i :: 0 <= i < |scan| ==> Readable(bytes, w, scan[i]))
            && (r.Some? ==>
               |r.value| == |scan| && forall i :: 0 <= i < |scan| ==> EntryAt(bytes, w, scan[i], r.value[i]))
  {
    var scan, r := Scan(View(bytes, w), from, to), ReadKeys(bytes, w, keys, |keys|);
    RangeReadRefines(bytes, w, from, to, keys);
    DecodeAllIs(keys, |keys|, w);
    ReadKeysIs(bytes, w, keys, |keys|);
    forall i | 0 <= i < |scan|
      ensures Readable(bytes, w, scan[i]) <==> ParseStored(bytes[keys[i]]).Some?
      ensures r.Some? ==> Readable(bytes, w, scan[i]) && EntryAt(bytes, w, scan[i], r.value[i])
    {
      RangeItem(bytes, w, from, to, keys, i);
    }
  }
}
