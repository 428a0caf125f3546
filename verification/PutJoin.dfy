/** `put_roots` as a partial join: what a sequence of batches leaves behind, and whether it is
    accepted at all, depends only on which entries were offered. */
module PutJoin {
  import opened Types
  import opened StoreSpec

  /** All batches written one after the other; `None` once one of them is rejected. */
  function PutAll(db: Db, batches: seq<seq<Entry>>): Option<Db>
    decreases |batches|
  {
    if batches == [] then Some(db)
    else if Accepts(db, batches[0]) then PutAll(Overlay(db, batches[0]), batches[1..])
    else None
  }

  ghost function EntriesOf(db: Db): set<Entry> {
    set h | h in db :: Entry(h, db[h].root, db[h].blockHash)
  }

  ghost function AsSet(batch: seq<Entry>): set<Entry> {
    set e | e in batch
  }

  ghost function Offered(batches: seq<seq<Entry>>): set<Entry> {
    set b, e | b in batches && e in b :: e
  }

  /** Position `j` holds the last entry of the batch at its height. */
  ghost predicate LastAt(batch: seq<Entry>, j: nat) {
    j < |batch| && forall k :: j < k < |batch| ==> batch[k].height != batch[j].height
  }

  /** The last entry at each height says all that the earlier ones at that height say: the same
      root, and every known hash. Batches of distinct heights are a special case. */
  ghost predicate Tidy(batch: seq<Entry>) {
    forall i: nat, j: nat :: i <= j < |batch| && LastAt(batch, j) && batch[i].height == batch[j].height ==>
      batch[j].root == batch[i].root && (batch[i].hash == ZERO_HASH || batch[j].hash == batch[i].hash)
  }

  ghost predicate AllTidy(batches: seq<seq<Entry>>) {
    forall b :: b in batches ==> Tidy(b)
  }

  lemma DistinctIsTidy(batch: seq<Entry>)
    requires Distinct(batch)
    ensures Tidy(batch)
  {
  }

  lemma FindLast(batch: seq<Entry>, i: nat) returns (j: nat)
    requires i < |batch|
    ensures i <= j < |batch| && LastAt(batch, j) && batch[j].height == batch[i].height
    decreases |batch| - i
  {
    if k :| i < k < |batch| && batch[k].height == batch[i].height {
      j := FindLast(batch, k);
    } else {
      j := i;
    }
  }

  /** Any two entries at one height have equal roots and equal-or-unknown hashes. */
  ghost predicate Compatible(s: set<Entry>) {
    forall a, b :: a in s && b in s && a.height == b.height ==> Agree(a, b)
  }

  ghost predicate Agree(a: Entry, b: Entry) {
    a.root == b.root && (a.hash == ZERO_HASH || b.hash == ZERO_HASH || a.hash == b.hash)
  }

  /** `d` holds exactly the heights of `s`, agrees with every entry of `s`, knows every hash
      `s` knows, and holds nothing that was not offered. */
  ghost predicate IsJoin(d: Db, s: set<Entry>) {
    && (forall e :: e in s ==> Covers(d, e))
    && (forall h :: h in d ==> Entry(h, d[h].root, d[h].blockHash) in s)
  }

  ghost predicate Covers(d: Db, e: Entry) {
    e.height in d && d[e.height].root == e.root && (e.hash == ZERO_HASH || d[e.height].blockHash == e.hash)
  }

  lemma JoinIsUnique(d: Db, d': Db, s: set<Entry>)
    requires IsJoin(d, s) && IsJoin(d', s)
    ensures d == d'
  {
    assert forall h :: h in d ==> Covers(d', Entry(h, d[h].root, d[h].blockHash));
    assert forall h :: h in d' ==> Covers(d, Entry(h, d'[h].root, d'[h].blockHash));
    assert d.Keys == d'.Keys;
  }

  lemma JoinIsCompatible(d: Db, s: set<Entry>)
    requires IsJoin(d, s)
    ensures Compatible(s)
  {
    forall a, b | a in s && b in s && a.height == b.height ensures Agree(a, b) {
      assert Covers(d, a) && Covers(d, b);
    }
  }

  lemma TidyAgree(batch: seq<Entry>, a: Entry, b: Entry)
    requires Tidy(batch) && a in batch && b in batch && a.height == b.height
    ensures Agree(a, b)
  {
    var i: nat :| i < |batch| && batch[i] == a;
    var k: nat :| k < |batch| && batch[k] == b;
    var j := FindLast(batch, if i < k then k else i);
    assert i <= j && k <= j;
  }

  /** A batch is accepted exactly when it is compatible with everything offered before it. */
  lemma AcceptsIffCompatible(d: Db, s: set<Entry>, batch: seq<Entry>)
    requires IsJoin(d, s) && Tidy(batch)
    ensures Accepts(d, batch) <==> Compatible(s + AsSet(batch))
  {
    JoinIsCompatible(d, s);
    if Accepts(d, batch) {
      forall a, b | a in s + AsSet(batch) && b in s + AsSet(batch) && a.height == b.height ensures Agree(a, b) {
        if a in s && b in batch { assert Covers(d, a) && !Rejects(d, b); }
        if b in s && a in batch { assert Covers(d, b) && !Rejects(d, a); }
        if a in batch && b in batch { TidyAgree(batch, a, b); }
      }
    }
    if Compatible(s + AsSet(batch)) {
      forall e | e in batch ensures !Rejects(d, e) {
        if e.height in d {
          var kept := Entry(e.height, d[e.height].root, d[e.height].blockHash);
          assert kept in s && e in s + AsSet(batch);
          assert Agree(kept, e);
        }
      }
    }
  }

  // ---- one batch, whatever it repeats ------------------------------------------------------------------

  /** What is written for `last` covers the entry `e` of the same height. */
  ghost predicate WrittenCovers(db: Db, last: Entry, e: Entry) {
    last.root == e.root && (e.hash == ZERO_HASH || Written(db, last).blockHash == e.hash)
  }

  /** In `db`, what the last entry at each height writes covers every earlier one there. */
  ghost predicate Settles(db: Db, batch: seq<Entry>) {
    forall i: nat, j: nat :: i <= j < |batch| && LastAt(batch, j) && batch[i].height == batch[j].height ==>
      WrittenCovers(db, batch[j], batch[i])
  }

  lemma OverlayAtLast(db: Db, batch: seq<Entry>, i: nat) returns (j: nat)
    requires i < |batch|
    ensures i <= j < |batch| && LastAt(batch, j) && batch[j].height == batch[i].height
    ensures batch[i].height in Overlay(db, batch) && Overlay(db, batch)[batch[i].height] == Written(db, batch[j])
  {
    j := FindLast(batch, i);
    OverlayAt(db, batch, |batch|, j);
  }

  lemma WrittenWasOffered(d: Db, s: set<Entry>, batch: seq<Entry>, h: nat)
    requires IsJoin(d, s) && Accepts(d, batch) && h in Overlay(d, batch)
    ensures Entry(h, Overlay(d, batch)[h].root, Overlay(d, batch)[h].blockHash) in s + AsSet(batch)
  {
    var n := |batch|;
    OverlayDomain(d, batch, n);
    HeightsToIff(batch, n, h);
    if h in HeightsTo(batch, n) {
      var i :| 0 <= i < n && batch[i].height == h;
      var j := OverlayAtLast(d, batch, i);
      assert batch[j] in batch && !Rejects(d, batch[j]);
      if Written(d, batch[j]).blockHash == batch[j].hash {
        assert Entry(h, batch[j].root, batch[j].hash) == batch[j];
      } else {
        assert Entry(h, d[h].root, d[h].blockHash) in s;
      }
    } else {
      OverlayElsewhere(d, batch, n, h);
    }
  }

  lemma SettledBatchJoins(d: Db, s: set<Entry>, batch: seq<Entry>)
    requires IsJoin(d, s) && Accepts(d, batch) && Settles(d, batch)
    ensures IsJoin(Overlay(d, batch), s + AsSet(batch))
  {
    var n := |batch|;
    OverlayDomain(d, batch, n);
    OverlayWritesOnce(d, batch, n);
    var r := Overlay(d, batch);
    forall e | e in s + AsSet(batch) ensures Covers(r, e) {
      if e in batch {
        var i: nat :| i < n && batch[i] == e;
        var j := OverlayAtLast(d, batch, i);
        assert WrittenCovers(d, batch[j], batch[i]);
      } else {
        assert Covers(d, e);
      }
    }
    forall h | h in r ensures Entry(h, r[h].root, r[h].blockHash) in s + AsSet(batch) {
      WrittenWasOffered(d, s, batch, h);
    }
  }

  /** The exact condition for an accepted batch, repeated heights or not, to leave the join of what
      was there and what it offers. */
  lemma JoinsIffSettles(d: Db, s: set<Entry>, batch: seq<Entry>)
    requires IsJoin(d, s) && Accepts(d, batch)
    ensures IsJoin(Overlay(d, batch), s + AsSet(batch)) <==> Settles(d, batch)
  {
    if Settles(d, batch) {
      SettledBatchJoins(d, s, batch);
    }
    if IsJoin(Overlay(d, batch), s + AsSet(batch)) {
      forall i: nat, j: nat | i <= j < |batch| && LastAt(batch, j) && batch[i].height == batch[j].height
        ensures WrittenCovers(d, batch[j], batch[i])
      {
        OverlayAt(d, batch, |batch|, j);
        assert batch[i] in s + AsSet(batch) && Covers(Overlay(d, batch), batch[i]);
      }
    }
  }

  lemma TidySettles(db: Db, batch: seq<Entry>)
    requires Tidy(batch)
    ensures Settles(db, batch)
  {
  }

  /** A batch leaves the join wherever it is accepted exactly when it is tidy. */
  lemma TidyIsExact(batch: seq<Entry>)
    ensures Tidy(batch) <==>
            forall db: Db :: Accepts(db, batch) ==> IsJoin(Overlay(db, batch), EntriesOf(db) + AsSet(batch))
  {
    if Tidy(batch) {
      forall db: Db | Accepts(db, batch) ensures IsJoin(Overlay(db, batch), EntriesOf(db) + AsSet(batch)) {
        TidySettles(db, batch);
        StoreIsItsOwnJoin(db);
        SettledBatchJoins(db, EntriesOf(db), batch);
      }
    } else {
      var empty: Db := map[];
      assert Accepts(empty, batch);
      StoreIsItsOwnJoin(empty);
      JoinsIffSettles(empty, EntriesOf(empty), batch);
      EmptySettlesIffTidy(batch);
    }
  }

  lemma EmptySettlesIffTidy(batch: seq<Entry>)
    ensures Settles(map[], batch) <==> Tidy(batch)
  {
    var empty: Db := map[];
    assert forall last, e :: WrittenCovers(empty, last, e) <==>
        last.root == e.root && (e.hash == ZERO_HASH || last.hash == e.hash);
  }

  lemma AcceptedBatchJoins(d: Db, s: set<Entry>, batch: seq<Entry>)
    requires IsJoin(d, s) && Tidy(batch) && Accepts(d, batch)
    ensures IsJoin(Overlay(d, batch), s + AsSet(batch))
  {
    TidySettles(d, batch);
    SettledBatchJoins(d, s, batch);
  }

  // ---- any number of batches -----------------------------------------------------------------------------

  lemma {:induction false} PutAllJoins(d: Db, s: set<Entry>, batches: seq<seq<Entry>>)
    requires IsJoin(d, s) && AllTidy(batches)
    ensures PutAll(d, batches).Some? <==> Compatible(s + Offered(batches))
    ensures PutAll(d, batches).Some? ==> IsJoin(PutAll(d, batches).value, s + Offered(batches))
    decreases |batches|
  {
    if batches == [] {
      assert s + Offered(batches) == s;
      JoinIsCompatible(d, s);
    } else {
      var first, rest := batches[0], batches[1..];
      assert first in batches;
      assert forall b :: b in rest ==> b in batches;
      assert s + Offered(batches) == s + AsSet(first) + Offered(rest) by {
        assert forall b :: b in batches ==> b == first || b in rest;
      }
      AcceptsIffCompatible(d, s, first);
      if Accepts(d, first) {
        AcceptedBatchJoins(d, s, first);
        PutAllJoins(Overlay(d, first), s + AsSet(first), rest);
      } else {
        assert AsSet(first) <= Offered(batches);
      }
    }
  }

  lemma StoreIsItsOwnJoin(db: Db)
    ensures IsJoin(db, EntriesOf(db))
  {
  }

  /** All batches are accepted exactly when every two entries at one height (stored or offered)
      have equal roots and equal-or-unknown hashes; the store then holds their join. */
  lemma PutAllSucceedsIff(db: Db, batches: seq<seq<Entry>>)
    requires AllTidy(batches)
    ensures PutAll(db, batches).Some? <==> Compatible(EntriesOf(db) + Offered(batches))
    ensures PutAll(db, batches).Some? ==> IsJoin(PutAll(db, batches).value, EntriesOf(db) + Offered(batches))
  {
    StoreIsItsOwnJoin(db);
    PutAllJoins(db, EntriesOf(db), batches);
  }

  /** Order and grouping do not matter: two ways of offering the same entries either both fail
      or leave the same store. */
  lemma PutAllIgnoresOrder(db: Db, batches: seq<seq<Entry>>, other: seq<seq<Entry>>)
    requires AllTidy(batches) && AllTidy(other)
    requires Offered(batches) == Offered(other)
    ensures PutAll(db, batches) == PutAll(db, other)
  {
    PutAllSucceedsIff(db, batches);
    PutAllSucceedsIff(db, other);
    if PutAll(db, batches).Some? {
      JoinIsUnique(PutAll(db, batches).value, PutAll(db, other).value, EntriesOf(db) + Offered(batches));
    }
  }

  /** In particular any reordering of the batches. */
  lemma PutAllIsPermutationInvariant(db: Db, batches: seq<seq<Entry>>, other: seq<seq<Entry>>)
    requires AllTidy(batches)
    requires multiset(batches) == multiset(other)
    ensures PutAll(db, batches) == PutAll(db, other)
  {
    assert forall b :: b in batches <==> b in multiset(batches);
    assert forall b :: b in other <==> b in multiset(other);
    assert Offered(batches) == Offered(other);
    PutAllIgnoresOrder(db, batches, other);
  }

  /** Batches that are not tidy do go wrong, since the guard does not compare a batch with itself:
      two conflicting roots for one new height are accepted together and rejected apart, ... */
  lemma GuardDoesNotSeeTheBatch(h: nat, r: H256, r': H256, x: H256)
    requires r != r'
    ensures PutAll(map[], [[Entry(h, r, x), Entry(h, r', x)]]).Some?
    ensures PutAll(map[], [[Entry(h, r, x)], [Entry(h, r', x)]]).None?
  {
    var a, b := Entry(h, r, x), Entry(h, r', x);
    assert Accepts(map[], [a, b]) && Accepts(map[], [a]);
    assert [[a, b]][1..] == [] && [[a], [b]][1..] == [[b]];
    var one := Overlay(map[], [a]);
    OverlayAt(map[], [a], 1, 0);
    assert one[h].root == r;
    assert b in [b] && Rejects(one, b);
  }

  /** ... and a hash given and then left out in one batch is forgotten, so that another hash for
      the same height is accepted later, although nothing in the first batch conflicts. */
  lemma HashIsForgotten(a: Entry, b: Entry, c: Entry)
    requires a.height == b.height == c.height && a.root == b.root == c.root
    requires a.hash != ZERO_HASH && b.hash == ZERO_HASH && c.hash != ZERO_HASH && c.hash != a.hash
    ensures Agree(a, b) && !Tidy([a, b]) && Accepts(map[], [a, b])
    ensures var one := Overlay(map[], [a, b]);
            Accepts(one, [c]) && c.height in Overlay(one, [c]) && Overlay(one, [c])[c.height].blockHash == c.hash
  {
    var first := [a, b];
    var one := Overlay(map[], first);
    OverlayAt(map[], first, 2, 1);
    assert one[a.height] == StoredRoot(a.root, ZERO_HASH);
    OverlayAt(one, [c], 1, 0);
    assert LastAt(first, 1) && first[0].height == first[1].height;
  }
}
