/** The root store as an object: the root tree, the cached entry counter and the meta tree,
    updated in place. */
module RootStoreModule {
  import opened Types
  import opened Heights
  import opened StoreSpec
  import opened Gaps

  datatype PutResult =
    | Stored
    | ReorgDetected(height: nat, storedRoot: H256, storedHash: H256, incomingRoot: H256, incomingHash: H256)

  datatype PinResult = Pinned | AlreadyPinned(id: nat) | ChainIdMismatch(stored: nat, live: nat)

  /** Position `i` holds the first entry the guard rejects. */
  ghost predicate FirstRejected(db: Db, roots: seq<Entry>, i: nat) {
    && i < |roots| && Rejects(db, roots[i])
    && forall j :: 0 <= j < i ==> !Rejects(db, roots[j])
  }

  /** A stored `u64::MAX` makes `height + 1` wrap just before the missing-tail test. */
  ghost predicate TailWraps(db: Db, start: Option<nat>, end: Option<nat>) {
    && end == Some(U64_MAX) && U64_MAX in db
    && (start.Some? ==> start.value <= U64_MAX)
  }

  /** `gaps` is what a caller of `find_gaps` is promised. */
  ghost predicate AnswersFor(gaps: seq<Gap>, db: Db, start: Option<nat>, end: Option<nat>) {
    match Window(db, start, end)
    case None => gaps == []
    case Some((lo, hi)) => ExactGaps(gaps, db, lo, hi)
  }

  ghost predicate StoredBelow(db: Db, h: nat) {
    exists a :: a in db && a < h
  }

  ghost predicate StoredAbove(db: Db, h: nat) {
    exists b :: b in db && h < b
  }

  /** The heights a caller of `find_gaps` asks about: those in the bounds that are given; with no
      upper bound only those below a stored height; with no lower bound only those above one, if
      there is one up to the upper bound. */
  ghost predicate Asked(db: Db, start: Option<nat>, end: Option<nat>, h: nat) {
    match (start, end)
    case (Some(s), Some(e)) => s <= h <= e
    case (Some(s), None) => (s <= h || StoredBelow(db, h)) && StoredAbove(db, h)
    case (None, Some(e)) => h <= e && (StoredBelow(db, h) || !StoredBelow(db, e + 1))
    case (None, None) => StoredBelow(db, h) && StoredAbove(db, h)
  }

  /** The promised list has exactly the missing heights among those asked about. */
  lemma GapsAreTheMissing(gaps: seq<Gap>, db: Db, start: Option<nat>, end: Option<nat>, h: nat)
    requires AnswersFor(gaps, db, start, end)
    ensures InGaps(gaps, h) <==> h !in db && Asked(db, start, end, h)
  {
    if end.None? {
      if db != map[] { StoredAround(db, h); }
    } else if start.None? {
      StoredUpTo(db, end.value, h);
    }
  }

  lemma StoredAround(db: Db, h: nat)
    requires db != map[]
    ensures StoredBelow(db, h) <==> First(db).value < h
    ensures StoredAbove(db, h) <==> h < Tip(db).value
  {
    assert First(db).value in db && Tip(db).value in db;
  }

  lemma StoredUpTo(db: Db, e: nat, h: nat)
    ensures StoredBelow(db, e + 1) <==> Scan(db, 0, e) != []
    ensures Scan(db, 0, e) != [] && h <= e ==> (StoredBelow(db, h) <==> Scan(db, 0, e)[0] < h)
    ensures Scan(db, 0, e) != [] ==> Scan(db, 0, e)[0] in db
  {
    var keys := Scan(db, 0, e);
    ScanIsExact(db, 0, e);
    if keys != [] { assert keys[0] in keys; }
    forall a | a in db && a <= e ensures keys != [] && keys[0] <= a {
      assert a in keys;
    }
  }

  class RootStore {
    var db: Db
    var entryCount: nat
    var persisted: Option<nat>
    var pin: Option<nat>

    /** Keys are u64 heights. */
    ghost predicate Valid()
      reads this
    {
      forall h :: h in db ==> h <= U64_MAX
    }

    ghost function View(): StoreState
      reads this
    {
      StoreState(db, entryCount, persisted, pin)
    }

    /** Open the database left on disk, taking the counter from the meta tree or, once, from a
        scan. */
    constructor Open(disk: StoreState)
      requires forall h :: h in disk.db ==> h <= U64_MAX
      ensures Valid() && View() == ApplyOp(disk, Reopen)
      ensures db == disk.db && pin == disk.pin && persisted == Some(entryCount)
      ensures entryCount == if disk.persisted.Some? then disk.persisted.value else |disk.db|
    {
      db, pin := disk.db, disk.pin;
      match disk.persisted {
        case Some(n) =>
          entryCount, persisted := n, disk.persisted;
        case None =>
          entryCount, persisted := |disk.db|, Some(|disk.db|);
      }
    }

    /** Insert a batch, or reject all of it on the first conflict with the database. */
    method PutRoots(roots: seq<Entry>) returns (r: PutResult)
      requires Valid()
      requires forall e :: e in roots ==> e.height <= U64_MAX
      modifies this
      ensures Valid() && View() == ApplyOp(old(View()), Put(roots))
      ensures r.Stored? <==> Accepts(old(db), roots)
      ensures if r.Stored? then persisted == Some(entryCount) else View() == old(View())
      ensures r.ReorgDetected? ==> exists i: nat ::
                && FirstRejected(old(db), roots, i)
                && var e := roots[i];
                   r == ReorgDetected(e.height, old(db)[e.height].root, old(db)[e.height].blockHash, e.root, e.hash)
    {
      var newEntries := 0;
      var batch := db;
      var i := 0;
      while i < |roots|
        invariant 0 <= i <= |roots|
        invariant forall j :: 0 <= j < i ==> !Rejects(db, roots[j])
        invariant batch == OverlayTo(db, roots, i) && newEntries == FreshTo(db, roots, i)
        invariant forall h :: h in batch ==> h <= U64_MAX
        invariant View() == old(View())
      {
        var e := roots[i];
        var blockHash := e.hash;
        if e.height in db {
          var existing := db[e.height];
          var hashConflict :=
            existing.blockHash != ZERO_HASH && e.hash != ZERO_HASH && existing.blockHash != e.hash;
          if existing.root != e.root || hashConflict {
            assert FirstRejected(db, roots, i);
            return ReorgDetected(e.height, existing.root, existing.blockHash, e.root, e.hash);
          }
          if e.hash == ZERO_HASH {
            blockHash := existing.blockHash;
          }
        } else {
          newEntries := newEntries + 1;
        }
        batch := batch[e.height := StoredRoot(e.root, blockHash)];
        i := i + 1;
      }
      db := batch;
      entryCount := entryCount + newEntries;
      persisted := Some(entryCount);
      r := Stored;
    }

    /** Delete everything above `keepThrough` and correct the counter. */
    method TruncateAbove(keepThrough: nat) returns (removed: nat)
      requires Valid()
      modifies this
      ensures Valid() && View() == ApplyOp(old(View()), Truncate(keepThrough))
      ensures removed == Above(old(db), keepThrough)
      ensures removed == 0 ==> View() == old(View())
      ensures removed > 0 ==>
                && persisted == Some(if removed <= old(entryCount) then old(entryCount) - removed else 0)
                && (old(entryCount) < USIZE_MODULUS ==> entryCount == (old(entryCount) - removed) % USIZE_MODULUS)
    {
      NoneAbove(db, keepThrough);
      if keepThrough >= U64_MAX {
        return 0;
      }
      var batch := RemovalBatch(db, keepThrough);
      removed := |KeysAbove(db, keepThrough)|;
      if removed == 0 {
        return;
      }
      db := db - batch;
      persisted := Some(if removed <= entryCount then entryCount - removed else 0);
      entryCount := if removed <= entryCount then entryCount - removed else (entryCount - removed) % USIZE_MODULUS;
    }

    /** Stored entries of `from..=to`, ascending. */
    method GetRange(from: nat, to: nat) returns (r: seq<(nat, StoredRoot)>)
      ensures |r| == |Scan(db, from, to)|
      ensures forall i :: 0 <= i < |r| ==>
                r[i].0 == Scan(db, from, to)[i] && r[i].0 in db && r[i].1 == db[r[i].0]
    {
      var keys := Scan(db, from, to);
      ScanIsExact(db, from, to);
      r := [];
      for i := 0 to |keys|
        invariant |r| == i
        invariant forall j :: 0 <= j < i ==> r[j].0 == keys[j] && r[j].0 in db && r[j].1 == db[r[j].0]
      {
        assert keys[i] in keys;
        r := r + [(keys[i], db[keys[i]])];
      }
    }

    /** List the missing ranges. The answer is exact unless the tail test wraps, in which case
        the whole u64 range is reported missing although its last height is stored. */
    method FindGaps(start: Option<nat>, end: Option<nat>) returns (gaps: seq<Gap>)
      requires Valid()
      requires end.Some? ==> end.value <= U64_MAX
      ensures AnswersFor(gaps, db, start, end) <==> !TailWraps(db, start, end)
      ensures TailWraps(db, start, end) ==> Gap(0, U64_MAX) in gaps
    {
      match end {
        case Some(e) =>
          gaps := BoundedGaps(db, start, e);
        case None =>
          var expected;
          OpenWindow(db, start);
          AllHeightsIsExact(db);
          gaps, expected := WalkGaps(db, AllHeights(db), start);
      }
    }

    method PinChainId(live: nat) returns (r: PinResult)
      modifies this
      ensures View() == ApplyOp(old(View()), Pin(live))
      ensures r == match old(pin)
                   case None => Pinned
                   case Some(id) => if id == live then AlreadyPinned(id) else ChainIdMismatch(id, live)
    {
      match pin {
        case Some(stored) =>
          r := if stored != live then ChainIdMismatch(stored, live) else AlreadyPinned(stored);
        case None =>
          pin := Some(live);
          r := Pinned;
      }
    }
  }

  /** The removals a truncation at `keep` collects. */
  method RemovalBatch(db: Db, keep: nat) returns (batch: set<nat>)
    ensures db - batch == Below(db, keep)
  {
    var above := KeysAbove(db, keep);
    if above != [] { ScanIsExact(db, keep + 1, Tip(db).value); }
    batch := {};
    for i := 0 to |above|
      invariant forall h :: h in batch <==> h in above[..i]
    {
      assert above[..i + 1] == above[..i] + [above[i]];
      batch := batch + {above[i]};
    }
    assert above[..|above|] == above;
    AboveCounts(db, keep);
    assert forall h :: h in batch <==> h in db && h > keep;
  }

  /** Walk up the scanned heights, noting every range skipped from `start` on. */
  method WalkGaps(db: Db, keys: seq<nat>, start: Option<nat>) returns (gaps: seq<Gap>, expected: Option<nat>)
    requires Ascending(keys)
    requires forall h :: h in keys ==> h in db && h <= U64_MAX
    requires forall h :: h in db && LowEnd(keys, start) <= h && (exists k :: k in keys && h < k) ==> h in keys
    ensures ExactGaps(gaps, db, LowEnd(keys, start), if keys == [] then LowEnd(keys, start) - 1 else keys[|keys| - 1])
    ensures keys == [] ==> gaps == []
    ensures expected == if keys == [] then start else Some(WrappingInc(keys[|keys| - 1]))
  {
    gaps, expected := [], start;
    ghost var lo := LowEnd(keys, start);
    ghost var next: nat := lo;
    NoGapsYet(db, lo);
    var i := 0;
    while i < |keys|
      invariant 0 <= i <= |keys|
      invariant i == 0 ==> expected == start && next == lo && gaps == []
      invariant i > 0 ==> next == keys[i - 1] + 1 && expected == Some(WrappingInc(keys[i - 1]))
      invariant next == lo || (lo < next && next - 1 in db)
      invariant ExactGaps(gaps, db, lo, next - 1)
    {
      var height := keys[i];
      assert height in keys;
      NothingBetween(keys, db, i, next);
      assert expected.Some? && height > expected.value ==> expected.value == next;
      WalkStep(gaps, db, lo, next, height);
      if expected.Some? && height > expected.value {
        gaps := gaps + [Gap(expected.value, height - 1)];
      }
      expected := Some(WrappingInc(height));
      next := height + 1;
      i := i + 1;
    }
  }

  lemma WalkStep(gaps: seq<Gap>, db: Db, lo: nat, next: nat, height: nat)
    requires lo <= next <= height && height in db && (next == lo || next - 1 in db)
    requires forall h :: next <= h < height ==> h !in db
    requires ExactGaps(gaps, db, lo, next - 1)
    ensures ExactGaps(if next < height then gaps + [Gap(next, height - 1)] else gaps, db, lo, height)
  {
    if next < height {
      StepOverMissing(gaps, db, lo, next, height - 1);
      StepOverStored(gaps + [Gap(next, height - 1)], db, lo, height);
    } else {
      StepOverStored(gaps, db, lo, height);
    }
  }

  /** The scan of a bounded window, including a missing tail. */
  method BoundedGaps(db: Db, start: Option<nat>, end: nat) returns (gaps: seq<Gap>)
    requires end <= U64_MAX && forall h :: h in db ==> h <= U64_MAX
    ensures AnswersFor(gaps, db, start, Some(end)) <==> !TailWraps(db, start, Some(end))
    ensures TailWraps(db, start, Some(end)) ==> Gap(0, U64_MAX) in gaps
  {
    var from := if start.Some? then start.value else 0;
    if from > end {
      return [];
    }
    BoundedWindow(db, start, end);
    var keys := Scan(db, from, end);
    ScanIsExact(db, from, end);
    ghost var lo := LowEnd(keys, start);
    var expected;
    gaps, expected := WalkGaps(db, keys, start);
    var tailStart := if expected.Some? then expected.value else 0;
    if !TailWraps(db, start, Some(end)) {
      if keys != [] { assert keys[|keys| - 1] in keys; }
      if tailStart <= end {
        TailIsMissing(db, keys, start, end, tailStart);
        StepOverMissing(gaps, db, lo, tailStart, end);
      }
    }
    if tailStart <= end {
      gaps := gaps + [Gap(tailStart, end)];
    }
    if TailWraps(db, start, Some(end)) {
      assert U64_MAX in keys && gaps[|gaps| - 1] == Gap(0, U64_MAX);
      assert InGaps(gaps, U64_MAX);
    }
  }

  lemma TailIsMissing(db: Db, keys: seq<nat>, start: Option<nat>, end: nat, tailStart: nat)
    requires start.Some? ==> start.value <= end
    requires Ascending(keys)
    requires forall h :: h in keys <==> (start.Some? ==> start.value <= h) && h <= end && h in db
    requires tailStart == if keys == [] then LowEnd(keys, start) else WrappingInc(keys[|keys| - 1])
    requires tailStart <= end <= U64_MAX && !TailWraps(db, start, Some(end))
    requires forall h :: h in db ==> h <= U64_MAX
    ensures LowEnd(keys, start) <= tailStart && (tailStart == LowEnd(keys, start) || tailStart - 1 in db)
    ensures forall h :: tailStart <= h <= end ==> h !in db
    ensures keys != [] ==> tailStart - 1 == keys[|keys| - 1]
  {
    if keys != [] {
      var last := keys[|keys| - 1];
      assert last in keys && keys[0] in keys && keys[0] <= last;
      forall h | tailStart <= h <= end ensures h !in db {
        assert forall j :: 0 <= j < |keys| ==> keys[j] != h;
      }
    }
  }

  /** Below the next scanned height and from `next` on, nothing is stored. */
  lemma NothingBetween(keys: seq<nat>, db: Db, i: nat, next: nat)
    requires i < |keys|
    requires Ascending(keys)
    requires forall h :: h in db && next <= h < keys[i] ==> h in keys
    requires i > 0 ==> next == keys[i - 1] + 1
    ensures forall h :: next <= h < keys[i] ==> h !in db
  {
    forall h | next <= h < keys[i] ensures h !in db {
      assert forall j :: 0 <= j < |keys| ==> keys[j] != h;
    }
  }

  /** The low end of the window the scanned `keys` answer for. */
  ghost function LowEnd(keys: seq<nat>, start: Option<nat>): nat {
    if keys == [] then (if start.Some? then start.value else 0)
    else if start.Some? && start.value <= keys[0] then start.value
    else keys[0]
  }

  lemma BoundedWindow(db: Db, start: Option<nat>, e: nat)
    requires start.Some? ==> start.value <= e
    ensures var keys := Scan(db, if start.Some? then start.value else 0, e);
            Window(db, start, Some(e)) == Some((LowEnd(keys, start), e))
  {
    var keys := Scan(db, if start.Some? then start.value else 0, e);
    ScanIsExact(db, if start.Some? then start.value else 0, e);
    if keys != [] { assert keys[0] in keys; }
  }

  lemma OpenWindow(db: Db, start: Option<nat>)
    ensures var keys := AllHeights(db);
            Window(db, start, None) ==
            if keys == [] then None else Some((LowEnd(keys, start), keys[|keys| - 1]))
  {
    var keys := AllHeights(db);
    AllHeightsIsExact(db);
    if keys != [] {
      assert keys[0] in keys && keys[|keys| - 1] in keys;
      var f, t := First(db).value, Tip(db).value;
      assert f in keys && t in keys;
      assert f == keys[0] && t == keys[|keys| - 1];
    }
  }
}
