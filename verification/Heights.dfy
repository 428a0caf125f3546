/** Ascending scans over a height-keyed map, as the ordered database serves them. */
module Heights {
  import opened Types

  ghost predicate IsTip<V>(db: map<nat, V>, t: nat) {
    t in db && forall h :: h in db ==> h <= t
  }

  ghost predicate IsFirst<V>(db: map<nat, V>, f: nat) {
    f in db && forall h :: h in db ==> f <= h
  }

  /** Heights of `lo..=hi` that hold an entry, in ascending order. */
  function Scan<V>(db: map<nat, V>, lo: nat, hi: int): seq<nat>
    decreases hi + 1 - lo
  {
    if hi < lo then []
    else if hi in db then Scan(db, lo, hi - 1) + [hi]
    else Scan(db, lo, hi - 1)
  }

  ghost predicate Ascending(s: seq<nat>) {
    forall i, j :: 0 <= i < j < |s| ==> s[i] < s[j]
  }

  lemma {:induction false} ScanIsExact<V>(db: map<nat, V>, lo: nat, hi: int)
    ensures Ascending(Scan(db, lo, hi))
    ensures forall h :: h in Scan(db, lo, hi) <==> lo <= h <= hi && h in db
    decreases hi + 1 - lo
  {
    if lo <= hi {
      ScanIsExact(db, lo, hi - 1);
      var below := Scan(db, lo, hi - 1);
      assert forall i :: 0 <= i < |below| ==> below[i] in below;
    }
  }

  lemma MaxOf(s: set<nat>) returns (t: nat)
    requires s != {}
    ensures t in s && forall h :: h in s ==> h <= t
  {
    var x :| x in s;
    if s == {x} {
      t := x;
    } else {
      var rest := s - {x};
      assert s == rest + {x};
      t := MaxOf(rest);
      if t < x { t := x; }
    }
  }

  lemma MinOf(s: set<nat>) returns (f: nat)
    requires s != {}
    ensures f in s && forall h :: h in s ==> f <= h
  {
    var x :| x in s;
    if s == {x} {
      f := x;
    } else {
      var rest := s - {x};
      assert s == rest + {x};
      f := MinOf(rest);
      if x < f { f := x; }
    }
  }

  /** The highest stored height, or `None` for an empty store. */
  function Tip<V>(db: map<nat, V>): (t: Option<nat>)
    ensures t.None? <==> db == map[]
    ensures t.Some? ==> IsTip(db, t.value)
  {
    if db.Keys == {} then None
    else
      ghost var g := MaxKey(db);
      var t :| t in db && forall h :: h in db ==> h <= t;
      Some(t)
  }

  /** The lowest stored height, or `None` for an empty store. */
  function First<V>(db: map<nat, V>): (f: Option<nat>)
    ensures f.None? <==> db == map[]
    ensures f.Some? ==> IsFirst(db, f.value)
  {
    if db.Keys == {} then None
    else
      ghost var g := MinKey(db);
      var f :| f in db && forall h :: h in db ==> f <= h;
      Some(f)
  }

  ghost function MaxKey<V>(db: map<nat, V>): (t: nat)
    requires db.Keys != {}
    ensures IsTip(db, t)
  {
    assert exists t :: IsTip(db, t) by {
      var t := MaxOf(db.Keys);
      assert IsTip(db, t);
    }
    var t :| IsTip(db, t);
    t
  }

  ghost function MinKey<V>(db: map<nat, V>): (f: nat)
    requires db.Keys != {}
    ensures IsFirst(db, f)
  {
    assert exists f :: IsFirst(db, f) by {
      var f := MinOf(db.Keys);
      assert IsFirst(db, f);
    }
    var f :| IsFirst(db, f);
    f
  }

  /** Every stored height, in ascending order. */
  function AllHeights<V>(db: map<nat, V>): seq<nat> {
    match First(db)
    case None => []
    case Some(f) => Scan(db, f, Tip(db).value)
  }

  lemma AllHeightsIsExact<V>(db: map<nat, V>)
    ensures Ascending(AllHeights(db))
    ensures forall h :: h in AllHeights(db) <==> h in db
  {
    if First(db).Some? { ScanIsExact(db, First(db).value, Tip(db).value); }
  }

  /** No height is missing between two stored ones. */
  ghost predicate Contiguous<V>(db: map<nat, V>) {
    forall a, h, b :: a in db && b in db && a <= h <= b ==> h in db
  }

  lemma {:induction false} ScanLength<V>(db: map<nat, V>, lo: nat, hi: int)
    requires lo <= hi + 1
    ensures |Scan(db, lo, hi)| <= hi + 1 - lo
    decreases hi + 1 - lo
  {
    if lo <= hi { ScanLength(db, lo, hi - 1); }
  }

  /** A scan is as long as its window exactly when no height of the window is missing,
      and its i-th height is then `lo + i`. */
  lemma {:induction false} FullScan<V>(db: map<nat, V>, lo: nat, hi: int)
    requires lo <= hi + 1
    ensures |Scan(db, lo, hi)| == hi + 1 - lo <==> forall h :: lo <= h <= hi ==> h in db
    ensures |Scan(db, lo, hi)| == hi + 1 - lo ==> forall i :: 0 <= i < |Scan(db, lo, hi)| ==>
            Scan(db, lo, hi)[i] == lo + i
    decreases hi + 1 - lo
  {
    if lo <= hi {
      FullScan(db, lo, hi - 1);
      ScanLength(db, lo, hi - 1);
      if hi !in db { assert |Scan(db, lo, hi)| < hi + 1 - lo; }
    }
  }

  /** A scan over everything above `keep` counts what truncating there removes. */
  lemma {:induction false} ScanCounts<V>(db: map<nat, V>, keep: int, hi: int)
    requires -1 <= keep <= hi
    ensures |UpTo(db, hi)| == |UpTo(db, keep)| + |Scan(db, keep + 1, hi)|
    decreases hi - keep
  {
    if keep < hi {
      ScanCounts(db, keep, hi - 1);
      if hi in db {
        assert UpTo(db, hi) == UpTo(db, hi - 1) + {hi};
      } else {
        assert UpTo(db, hi) == UpTo(db, hi - 1);
      }
    }
  }

  ghost function UpTo<V>(db: map<nat, V>, k: int): set<nat> {
    set h | h in db && h <= k
  }

  /** A store whose entry count equals the span of its outer heights has no gap. */
  lemma CountEqualsSpan<V>(db: map<nat, V>, f: nat, t: nat)
    requires IsFirst(db, f) && IsTip(db, t)
    ensures |db| == t - f + 1 <==> Contiguous(db)
  {
    ScanCounts(db, f - 1, t);
    FullScan(db, f, t);
    assert UpTo(db, t) == db.Keys && UpTo(db, f - 1) == {};
    assert |db| == |db.Keys|;
  }
}
