/** Reconciling the stored tail with the canonical chain. */
module Anchor {
  import opened Types
  import opened Heights
  import opened StoreSpec
  import opened RootStoreModule

  datatype Outcome =
    | Empty
    | Verified(tip: nat)
    | Unverifiable(tip: nat)
    | Reanchored(tip: nat, removed: nat)
    | AnchorMismatch(height: nat, storedHash: H256, canonicalHash: H256)
    | RpcFailed(height: nat)
  {
    predicate Ok() { !AnchorMismatch? && !RpcFailed? }

    /** The height the stream must resume from, if the store is not empty. */
    function ResumeFrom(): Option<nat> {
      match this
      case Verified(t) => Some(WrappingInc(t))
      case Unverifiable(t) => Some(WrappingInc(t))
      case Reanchored(t, _) => Some(WrappingInc(t))
      case _ => None
    }
  }

  /** Answers to the canonical-hash query, by height; every height is asked for at most once, so
      a map covers any sequence of replies. A height without an answer is an RPC error. */
  type Rpc = map<nat, H256>

  function Reply(rpc: Rpc, h: nat): Option<H256> {
    if h in rpc then Some(rpc[h]) else None
  }

  predicate Matches(db: Db, rpc: Rpc, h: nat) {
    h in db && db[h].blockHash != ZERO_HASH && Reply(rpc, h) == Some(db[h].blockHash)
  }

  predicate Refuted(v: StoredRoot, answer: Option<H256>) {
    v.blockHash != ZERO_HASH && answer.Some? && answer.value != v.blockHash
  }

  /** Every stored block above `t` was asked for and is not the canonical one. */
  ghost predicate RefutedAbove(db: Db, rpc: Rpc, t: int) {
    forall h :: h in db && t < h ==> Refuted(db[h], Reply(rpc, h))
  }

  ghost predicate RefutedFrom(db: Db, rpc: Rpc, t: int) {
    RefutedAbove(db, rpc, t - 1)
  }

  ghost predicate WithinDepth(db: Db, maxDepth: nat, h: nat) {
    Tip(db).Some? && Tip(db).value <= h + maxDepth
  }

  /** What each outcome says about the store and the replies. */
  ghost predicate Explains(db: Db, maxDepth: nat, rpc: Rpc, o: Outcome) {
    match o
    case Empty => db == map[]
    case Verified(t) => IsTip(db, t) && Matches(db, rpc, t)
    case Unverifiable(t) => IsTip(db, t) && db[t].blockHash == ZERO_HASH
    case Reanchored(t, removed) =>
      && Matches(db, rpc, t) && !IsTip(db, t) && RefutedAbove(db, rpc, t)
      && WithinDepth(db, maxDepth, t) && removed == Above(db, t)
    case AnchorMismatch(t, s, c) =>
      && IsTip(db, t) && s == db[t].blockHash && Reply(rpc, t) == Some(c) && Refuted(db[t], Reply(rpc, t))
      && (|| RefutedFrom(db, rpc, t - maxDepth)
          || exists k :: k in db && k < t <= k + maxDepth && db[k].blockHash == ZERO_HASH && RefutedAbove(db, rpc, k))
    case RpcFailed(h) =>
      h in db && db[h].blockHash != ZERO_HASH && Reply(rpc, h).None? && RefutedAbove(db, rpc, h) &&
          WithinDepth(db, maxDepth, h)
  }

  function AfterReconcile(db: Db, o: Outcome): Db {
    if o.Reanchored? then Below(db, o.tip) else db
  }

  /** Walk back from the tip over at most `maxDepth` heights; the store is truncated only when a
      canonical block is found below the tip, and untouched otherwise. */
  method Reconcile(store: RootStore, maxDepth: nat, rpc: Rpc) returns (o: Outcome)
    requires store.Valid()
    modifies store
    ensures store.Valid()
    ensures Explains(old(store.db), maxDepth, rpc, o)
    ensures store.View() == if o.Reanchored? then ApplyOp(old(store.View()), Truncate(o.tip)) else old(store.View())
    ensures store.db == AfterReconcile(old(store.db), o)
  {
    var latest := Tip(store.db);
    if latest.None? {
      return Empty;
    }
    var tip := latest.value;
    var floor := if maxDepth <= tip then tip - maxDepth else 0;
    var candidates := store.GetRange(floor, tip);
    o := WalkBack(store.db, tip, floor, maxDepth, rpc, candidates);
    if o.Reanchored? {
      AboveCounts(store.db, o.tip);
      var removed := store.TruncateAbove(o.tip);
    }
  }

  /** The walk itself, over the stored blocks of `floor..=tip` from the highest down. */
  method WalkBack(db: Db, tip: nat, floor: nat, maxDepth: nat, rpc: Rpc, candidates: seq<(nat, StoredRoot)>)
    returns (o: Outcome)
    requires Tip(db) == Some(tip) && floor == if maxDepth <= tip then tip - maxDepth else 0
    requires |candidates| == |Scan(db, floor, tip)|
    requires forall i :: 0 <= i < |candidates| ==>
               && candidates[i].0 == Scan(db, floor, tip)[i]
               && candidates[i].0 in db && candidates[i].1 == db[candidates[i].0]
    ensures !o.Empty? && Explains(db, maxDepth, rpc, o)
  {
    ghost var keys := Scan(db, floor, tip);
    LastIsTip(db, floor, tip);
    var tipMismatch: Option<(H256, H256)> := None;
    var i := |candidates|;
    while i > 0
      invariant 0 <= i <= |candidates|
      invariant i == |candidates| || RefutedFrom(db, rpc, keys[i])
      invariant i == |candidates| <==> tipMismatch.None?
      invariant tipMismatch.Some? ==>
                tipMismatch.value.0 == db[tip].blockHash && Reply(rpc, tip) == Some(tipMismatch.value.1)
    {
      var (height, stored) := candidates[i - 1];
      StepDown(db, rpc, floor, tip, i);
      if stored.blockHash == ZERO_HASH {
        if height == tip {
          return Unverifiable(tip);
        }
        break;
      }
      var canonical := Reply(rpc, height);
      if canonical.None? {
        return RpcFailed(height);
      }
      if canonical.value == stored.blockHash {
        if height == tip {
          return Verified(tip);
        }
        return Reanchored(height, |KeysAbove(db, height)|);
      }
      if height == tip {
        tipMismatch := Some((stored.blockHash, canonical.value));
      }
      i := i - 1;
    }
    if i == 0 { WalkExhausted(db, rpc, floor, tip); }
    o := AnchorMismatch(tip, tipMismatch.value.0, tipMismatch.value.1);
  }

  /** The tip is the last scanned height, hence the first candidate of the walk. */
  lemma LastIsTip(db: Db, floor: nat, tip: nat)
    requires IsTip(db, tip) && floor <= tip
    ensures var keys := Scan(db, floor, tip); keys != [] && keys[|keys| - 1] == tip
  {
  }

  /** Between a scanned height and the next one nothing is stored. */
  lemma StepDown(db: Db, rpc: Rpc, floor: nat, tip: nat, i: nat)
    requires IsTip(db, tip) && 0 < i <= |Scan(db, floor, tip)|
    requires i == |Scan(db, floor, tip)| || RefutedFrom(db, rpc, Scan(db, floor, tip)[i])
    ensures floor <= Scan(db, floor, tip)[i - 1] <= tip
    ensures i < |Scan(db, floor, tip)| <==> Scan(db, floor, tip)[i - 1] < tip
    ensures RefutedAbove(db, rpc, Scan(db, floor, tip)[i - 1])
  {
    var keys := Scan(db, floor, tip);
    ScanIsExact(db, floor, tip);
    LastIsTip(db, floor, tip);
    assert keys[i - 1] in keys;
    forall h | h in db && keys[i - 1] < h ensures Refuted(db[h], Reply(rpc, h)) {
      assert h in keys;
      var j :| 0 <= j < |keys| && keys[j] == h;
      assert i <= j && keys[i] <= h;
    }
  }

  lemma WalkExhausted(db: Db, rpc: Rpc, floor: nat, tip: nat)
    requires IsTip(db, tip) && floor <= tip && Scan(db, floor, tip) != []
    requires RefutedFrom(db, rpc, Scan(db, floor, tip)[0])
    ensures RefutedFrom(db, rpc, floor)
  {
    var keys := Scan(db, floor, tip);
    ScanIsExact(db, floor, tip);
    forall h | h in db && floor <= h ensures Refuted(db[h], Reply(rpc, h)) {
      assert h in keys;
    }
  }

  /** Store and replies determine the outcome. */
  lemma OutcomeIsUnique(db: Db, maxDepth: nat, rpc: Rpc, o: Outcome, p: Outcome)
    requires Explains(db, maxDepth, rpc, o) && Explains(db, maxDepth, rpc, p)
    ensures o == p
  {
    if o.Reanchored? && p.Reanchored? {
      assert o.tip <= p.tip && p.tip <= o.tip;
    }
    if o.RpcFailed? && p.RpcFailed? {
      assert o.height <= p.height && p.height <= o.height;
    }
  }
}
