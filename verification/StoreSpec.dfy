/** What the root store's operations do to its contents, as functions on values. */
module StoreSpec {
  import opened Types
  import opened Heights

  // ---- the write-once guard ------------------------------------------------

  /** An incoming entry conflicts with a stored one on the root, or on two known hashes. */
  predicate Conflicts(existing: StoredRoot, e: Entry) {
    || existing.root != e.root
    || (existing.blockHash != ZERO_HASH && e.hash != ZERO_HASH && existing.blockHash != e.hash)
  }

  predicate Rejects(db: Db, e: Entry) {
    e.height in db && Conflicts(db[e.height], e)
  }

  /** The guard looks at the database only, never at the rest of the batch. */
  predicate Accepts(db: Db, batch: seq<Entry>) {
    forall e :: e in batch ==> !Rejects(db, e)
  }

  /** The value written for `e`: an unknown incoming hash keeps the stored one. */
  function Written(db: Db, e: Entry): StoredRoot {
    StoredRoot(e.root, if e.height in db && e.hash == ZERO_HASH then db[e.height].blockHash else e.hash)
  }

  /** The database once the first `n` entries of `batch` are applied. */
  function OverlayTo(db: Db, batch: seq<Entry>, n: nat): Db
    requires n <= |batch|
  {
    if n == 0 then db
    else OverlayTo(db, batch, n - 1)[batch[n - 1].height := Written(db, batch[n - 1])]
  }

  function Overlay(db: Db, batch: seq<Entry>): Db {
    OverlayTo(db, batch, |batch|)
  }

  /** How many of the first `n` positions of `batch` raise the counter. */
  function FreshTo(db: Db, batch: seq<Entry>, n: nat): nat
    requires n <= |batch|
  {
    if n == 0 then 0
    else FreshTo(db, batch, n - 1) + if batch[n - 1].height in db then 0 else 1
  }

  function Fresh(db: Db, batch: seq<Entry>): nat {
    FreshTo(db, batch, |batch|)
  }

  function HeightsTo(batch: seq<Entry>, n: nat): (s: set<nat>)
    requires n <= |batch|
    ensures forall i :: 0 <= i < n ==> batch[i].height in s
  {
    if n == 0 then {} else HeightsTo(batch, n - 1) + {batch[n - 1].height}
  }

  function HeightsOf(batch: seq<Entry>): set<nat> {
    HeightsTo(batch, |batch|)
  }

  lemma {:induction false} HeightsToIff(batch: seq<Entry>, n: nat, h: nat)
    requires n <= |batch|
    ensures h in HeightsTo(batch, n) <==> exists i :: 0 <= i < n && batch[i].height == h
  {
    if n > 0 { HeightsToIff(batch, n - 1, h); }
  }

  ghost predicate Distinct(batch: seq<Entry>) {
    forall i, j :: 0 <= i < j < |batch| ==> batch[i].height != batch[j].height
  }

  /** Entries at or below `keep`. */
  function Below(db: Db, keep: nat): (r: Db)
    ensures forall h :: h in r <==> h in db && h <= keep
    ensures forall h :: h in r ==> r[h] == db[h]
  {
    map h | h in db && h <= keep :: db[h]
  }

  // ---- the whole store -----------------------------------------------------

  /** The root tree, the cached counter, and the two keys of the meta tree. */
  datatype StoreState = StoreState(db: Db, count: nat, persisted: Option<nat>, pin: Option<nat>)

  datatype Op =
    | Put(batch: seq<Entry>)
    | Truncate(keep: nat)
    | Reopen
    | Pin(live: nat)

  const USIZE_MODULUS: nat := 0x1_0000_0000_0000_0000

  /** The keys a truncation at `keep` removes. */
  function KeysAbove(db: Db, keep: nat): seq<nat> {
    match Tip(db)
    case None => []
    case Some(t) => Scan(db, keep + 1, t)
  }

  function Above(db: Db, keep: nat): nat {
    |KeysAbove(db, keep)|
  }

  /** Nothing to remove means nothing is above. */
  lemma NoneAbove(db: Db, keep: nat)
    ensures Above(db, keep) == 0 <==> forall h :: h in db ==> h <= keep
    ensures Above(db, keep) == 0 ==> Below(db, keep) == db
  {
    match Tip(db)
    case None =>
    case Some(t) =>
      ScanIsExact(db, keep + 1, t);
      assert keep < t ==> t in Scan(db, keep + 1, t);
      if Above(db, keep) == 0 { assert Below(db, keep) == db; }
  }

  lemma AboveCounts(db: Db, keep: nat)
    ensures |db| == |Below(db, keep)| + Above(db, keep)
    ensures Above(db, keep) == 0 ==> Below(db, keep) == db
  {
    assert |db| == |db.Keys| && |Below(db, keep)| == |Below(db, keep).Keys|;
    assert Below(db, keep).Keys == UpTo(db, keep);
    match Tip(db)
    case None =>
    case Some(t) =>
      assert UpTo(db, t) == db.Keys;
      if keep <= t {
        ScanCounts(db, keep, t);
        ScanIsExact(db, keep + 1, t);
      } else {
        assert Below(db, keep) == db;
      }
  }

  function AfterPut(s: StoreState, batch: seq<Entry>): StoreState {
    if Accepts(s.db, batch) then
      StoreState(Overlay(s.db, batch), s.count + Fresh(s.db, batch), Some(s.count + Fresh(s.db, batch)), s.pin)
    else s
  }

  /** The in-memory counter wraps and the persisted one saturates if they had drifted low. */
  function AfterTruncate(s: StoreState, keep: nat): StoreState {
    if Above(s.db, keep) == 0 then s
    else if Above(s.db, keep) <= s.count then
      StoreState(Below(s.db, keep), s.count - Above(s.db, keep), Some(s.count - Above(s.db, keep)), s.pin)
    else
      StoreState(Below(s.db, keep), (s.count - Above(s.db, keep)) % USIZE_MODULUS, Some(0), s.pin)
  }

  function AfterReopen(s: StoreState): StoreState {
    match s.persisted
    case Some(n) => s.(count := n)
    case None => s.(count := |s.db|, persisted := Some(|s.db|))
  }

  function ApplyOp(s: StoreState, op: Op): StoreState {
    match op
    case Put(batch) => AfterPut(s, batch)
    case Truncate(keep) => AfterTruncate(s, keep)
    case Reopen => AfterReopen(s)
    case Pin(live) => if s.pin.None? then s.(pin := Some(live)) else s
  }

  function ApplyOps(s: StoreState, ops: seq<Op>): StoreState
    decreases |ops|
  {
    if ops == [] then s else ApplyOps(ApplyOp(s, ops[0]), ops[1..])
  }

  // ---- facts about a batch ---------------------------------------------------

  lemma {:induction false} OverlayDomain(db: Db, batch: seq<Entry>, n: nat)
    requires n <= |batch|
    ensures forall h :: h in OverlayTo(db, batch, n) <==> h in db || h in HeightsTo(batch, n)
  {
    if n > 0 { OverlayDomain(db, batch, n - 1); }
  }

  /** Of several entries at one height the last one counts. */
  lemma {:induction false} OverlayAt(db: Db, batch: seq<Entry>, n: nat, i: nat)
    requires i < n <= |batch| && forall k :: i < k < n ==> batch[k].height != batch[i].height
    ensures batch[i].height in OverlayTo(db, batch, n)
    ensures OverlayTo(db, batch, n)[batch[i].height] == Written(db, batch[i])
  {
    if i < n - 1 {
      OverlayAt(db, batch, n - 1, i);
      assert batch[i].height != batch[n - 1].height;
    }
  }

  lemma {:induction false} OverlayElsewhere(db: Db, batch: seq<Entry>, n: nat, h: nat)
    requires n <= |batch| && h in db && h !in HeightsTo(batch, n)
    ensures h in OverlayTo(db, batch, n) && OverlayTo(db, batch, n)[h] == db[h]
  {
    if n > 0 { OverlayElsewhere(db, batch, n - 1, h); }
  }

  /** Two positions that both raise the counter for one new height. */
  ghost predicate RepeatsFresh(db: Db, batch: seq<Entry>) {
    exists i, j :: 0 <= i < j < |batch| && batch[i].height == batch[j].height && batch[i].height !in db
  }

  /** The counter is raised by the growth of the key set exactly when the batch does not
      repeat a new height; a repeated one is always counted too often. */
  lemma FreshIsGrowth(db: Db, batch: seq<Entry>)
    ensures |Overlay(db, batch)| <= |db| + Fresh(db, batch)
    ensures |Overlay(db, batch)| == |db| + Fresh(db, batch) <==> !RepeatsFresh(db, batch)
  {
    KeyGrowth(db, batch, |batch|);
    FreshSplit(db, batch, |batch|);
    RepeatedIff(db, batch, |batch|);
  }

  /** How many of the first `n` positions add a key. */
  ghost function Growth(db: Db, batch: seq<Entry>, n: nat): nat
    requires n <= |batch|
  {
    if n == 0 then 0
    else Growth(db, batch, n - 1) + if batch[n - 1].height in OverlayTo(db, batch, n - 1) then 0 else 1
  }

  /** How many of the first `n` positions repeat a new height of an earlier one. */
  ghost function Repeated(db: Db, batch: seq<Entry>, n: nat): nat
    requires n <= |batch|
  {
    if n == 0 then 0
    else
      Repeated(db, batch, n - 1)
      + if batch[n - 1].height !in db && batch[n - 1].height in OverlayTo(db, batch, n - 1) then 1 else 0
  }

  lemma {:induction false} KeyGrowth(db: Db, batch: seq<Entry>, n: nat)
    requires n <= |batch|
    ensures |OverlayTo(db, batch, n)| == |db| + Growth(db, batch, n)
  {
    if n > 0 { KeyGrowth(db, batch, n - 1); }
  }

  lemma {:induction false} FreshSplit(db: Db, batch: seq<Entry>, n: nat)
    requires n <= |batch|
    ensures FreshTo(db, batch, n) == Growth(db, batch, n) + Repeated(db, batch, n)
  {
    if n > 0 {
      FreshSplit(db, batch, n - 1);
      OverlayDomain(db, batch, n - 1);
    }
  }

  lemma {:induction false} RepeatedIff(db: Db, batch: seq<Entry>, n: nat)
    requires n <= |batch|
    ensures Repeated(db, batch, n) > 0 <==>
            exists i, j :: 0 <= i < j < n && batch[i].height == batch[j].height && batch[i].height !in db
  {
    if n > 0 {
      RepeatedIff(db, batch, n - 1);
      OverlayDomain(db, batch, n - 1);
      HeightsToIff(batch, n - 1, batch[n - 1].height);
    }
  }

  // ---- histories ---------------------------------------------------------------

  ghost predicate CountExact(s: StoreState) {
    s.count == |s.db| && (s.persisted.Some? ==> s.persisted.value == |s.db|)
  }

  /** An accepted put does not repeat a new height. */
  ghost predicate CountsOnce(s: StoreState, op: Op) {
    op.Put? && Accepts(s.db, op.batch) ==> !RepeatsFresh(s.db, op.batch)
  }

  lemma StepCounts(s: StoreState, op: Op)
    requires CountExact(s)
    ensures CountExact(ApplyOp(s, op)) <==> CountsOnce(s, op)
  {
    match op
    case Put(batch) => FreshIsGrowth(s.db, batch);
    case Truncate(keep) => AboveCounts(s.db, keep);
    case Reopen =>
    case Pin(_) =>
  }

  ghost predicate AllCountOnce(s: StoreState, ops: seq<Op>)
    decreases |ops|
  {
    ops != [] ==> CountsOnce(s, ops[0]) && AllCountOnce(ApplyOp(s, ops[0]), ops[1..])
  }

  ghost predicate ExactThroughout(s: StoreState, ops: seq<Op>)
    decreases |ops|
  {
    CountExact(s) && (ops != [] ==> ExactThroughout(ApplyOp(s, ops[0]), ops[1..]))
  }

  /** Whatever accepted puts, rejected puts, truncations, pins and clean reopens happen, the cached
      counter stays the number of stored keys if and only if no accepted put repeats a new height. */
  lemma {:induction false} CountSurvivesHistory(s: StoreState, ops: seq<Op>)
    requires CountExact(s)
    ensures ExactThroughout(s, ops) <==> AllCountOnce(s, ops)
    ensures AllCountOnce(s, ops) ==> CountExact(ApplyOps(s, ops))
    decreases |ops|
  {
    if ops != [] {
      StepCounts(s, ops[0]);
      if CountsOnce(s, ops[0]) { CountSurvivesHistory(ApplyOp(s, ops[0]), ops[1..]); }
    }
  }

  lemma DistinctCountsOnce(s: StoreState, batch: seq<Entry>)
    requires Distinct(batch)
    ensures CountsOnce(s, Put(batch))
  {
  }

  /** `later` keeps every root of `earlier`, and every hash that was known. */
  ghost predicate WrittenOnce(earlier: Db, later: Db) {
    forall h :: h in earlier ==>
      && h in later
      && later[h].root == earlier[h].root
      && (earlier[h].blockHash == ZERO_HASH || later[h].blockHash == earlier[h].blockHash)
  }

  lemma {:induction false} OverlayWritesOnce(db: Db, batch: seq<Entry>, n: nat)
    requires Accepts(db, batch) && n <= |batch|
    ensures WrittenOnce(db, OverlayTo(db, batch, n))
  {
    if n > 0 {
      OverlayWritesOnce(db, batch, n - 1);
      assert batch[n - 1] in batch && !Rejects(db, batch[n - 1]);
    }
  }

  /** Without a truncation in between, no root ever changes and a hash only goes from unknown
      to known, however many puts (with whatever batches), reopens and pins happen. */
  lemma {:induction false} RootsAreWrittenOnce(s: StoreState, ops: seq<Op>)
    requires forall op :: op in ops ==> !op.Truncate?
    ensures WrittenOnce(s.db, ApplyOps(s, ops).db)
    decreases |ops|
  {
    if ops != [] {
      assert ops[0] in ops;
      var s' := ApplyOp(s, ops[0]);
      assert WrittenOnce(s.db, s'.db) by {
        if ops[0].Put? && Accepts(s.db, ops[0].batch) { OverlayWritesOnce(s.db, ops[0].batch, |ops[0].batch|); }
      }
      RootsAreWrittenOnce(s', ops[1..]);
    }
  }

  /** The first pin is the pin for good. */
  lemma {:induction false} PinNeverChanges(s: StoreState, ops: seq<Op>)
    requires s.pin.Some?
    ensures ApplyOps(s, ops).pin == s.pin
    decreases |ops|
  {
    if ops != [] { PinNeverChanges(ApplyOp(s, ops[0]), ops[1..]); }
  }
}
