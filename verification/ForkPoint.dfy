/** What re-anchoring means for a store that lies on one branch of the source chain. */
module ForkPoint {
  import opened Types
  import opened Heights
  import opened StoreSpec
  import opened SourceChain
  import opened Anchor

  /** Every reply is the canonical hash; any query may fail. */
  ghost predicate Honest(w: World, c: seq<Header>, rpc: Rpc) {
    forall h :: h in rpc ==> h < |c| && rpc[h] == w.hashOf(c[h])
  }

  /** The block the walk settled on is canonical. Each query is answered at its own moment, and the
      source may have moved between two of them: what counts is the answer the walk ended on. */
  ghost predicate Confirmed(w: World, c: seq<Header>, rpc: Rpc, o: Outcome) {
    o.Verified? || o.Reanchored? ==> o.tip in rpc && o.tip < |c| && rpc[o.tip] == w.hashOf(c[o.tip])
  }

  lemma HonestConfirms(w: World, c: seq<Header>, db: Db, maxDepth: nat, rpc: Rpc, o: Outcome)
    requires Honest(w, c, rpc) && Explains(db, maxDepth, rpc, o)
    ensures Confirmed(w, c, rpc, o)
  {
  }

  /** A verified store lies on the canonical chain. */
  lemma VerifiedIsCanonical(w: World, b: seq<Header>, c: seq<Header>, db: Db, maxDepth: nat, rpc: Rpc, o: Outcome)
    requires w.Sound() && IsChain(w, b) && IsChain(w, c) && AllOn(w, b, db) && Confirmed(w, c, rpc, o)
    requires Explains(db, maxDepth, rpc, o) && o.Verified?
    ensures AllOn(w, c, db)
  {
    SharedBlockSharesStore(w, b, c, db, o.tip);
  }

  /** Re-anchoring keeps exactly the canonical entries: nothing kept is off the canonical chain,
      nothing dropped is on it, at most `maxDepth` entries go, and the stream resumes right above
      the new tip. */
  lemma ReanchorIsExact(w: World, b: seq<Header>, c: seq<Header>, db: Db, maxDepth: nat, rpc: Rpc, o: Outcome)
    requires w.Sound() && IsChain(w, b) && IsChain(w, c) && AllOn(w, b, db) && Honest(w, c, rpc)
    requires Explains(db, maxDepth, rpc, o) && o.Reanchored?
    ensures forall h :: h in db ==> (h in AfterReconcile(db, o) <==> OnChain(w, c, h, db[h]))
    ensures AllOn(w, c, AfterReconcile(db, o))
    ensures IsTip(AfterReconcile(db, o), o.tip) && db[o.tip].blockHash != ZERO_HASH
    ensures |db| == |AfterReconcile(db, o)| + o.removed && 0 < o.removed <= maxDepth
    ensures o.ResumeFrom() == Some(o.tip + 1)
  {
    HonestConfirms(w, c, db, maxDepth, rpc, o);
    KeptAreCanonical(w, b, c, db, maxDepth, rpc, o);
    DroppedAreNot(w, c, db, maxDepth, rpc, o);
    RemovedIsBounded(db, maxDepth, rpc, o);
  }

  /** What is kept is canonical, even if the source moved during the walk. */
  lemma KeptAreCanonical(w: World, b: seq<Header>, c: seq<Header>, db: Db, maxDepth: nat, rpc: Rpc, o: Outcome)
    requires w.Sound() && IsChain(w, b) && IsChain(w, c) && AllOn(w, b, db) && Confirmed(w, c, rpc, o)
    requires Explains(db, maxDepth, rpc, o) && o.Reanchored?
    ensures forall h :: h in db && h <= o.tip ==> OnChain(w, c, h, db[h])
    ensures o.tip < U64_MAX
  {
    SharedBlockSharesStore(w, b, c, db, o.tip);
  }

  /** The kept store as a whole: on the canonical chain, with the anchor as its hashed tip. */
  lemma KeptStore(w: World, b: seq<Header>, c: seq<Header>, db: Db, maxDepth: nat, rpc: Rpc, o: Outcome)
    requires w.Sound() && IsChain(w, b) && IsChain(w, c) && AllOn(w, b, db) && Confirmed(w, c, rpc, o)
    requires Explains(db, maxDepth, rpc, o) && o.Reanchored?
    ensures AllOn(w, c, AfterReconcile(db, o)) && IsTip(AfterReconcile(db, o), o.tip)
    ensures AfterReconcile(db, o)[o.tip].blockHash != ZERO_HASH && o.ResumeFrom() == Some(o.tip + 1)
  {
    KeptAreCanonical(w, b, c, db, maxDepth, rpc, o);
    var kept := Below(db, o.tip);
    forall h | h in kept ensures OnChain(w, c, h, kept[h]) { assert kept[h] == db[h]; }
  }

  lemma DroppedAreNot(w: World, c: seq<Header>, db: Db, maxDepth: nat, rpc: Rpc, o: Outcome)
    requires Honest(w, c, rpc) && Explains(db, maxDepth, rpc, o) && o.Reanchored?
    ensures forall h :: h in db && o.tip < h ==> !OnChain(w, c, h, db[h])
  {
    forall h | h in db && o.tip < h ensures !OnChain(w, c, h, db[h]) {
      assert Refuted(db[h], Reply(rpc, h));
    }
  }

  lemma RemovedIsBounded(db: Db, maxDepth: nat, rpc: Rpc, o: Outcome)
    requires Explains(db, maxDepth, rpc, o) && o.Reanchored?
    ensures |db| == |Below(db, o.tip)| + o.removed && 0 < o.removed <= maxDepth
  {
    AboveCounts(db, o.tip);
    var tip := Tip(db).value;
    assert tip in db && o.tip in db;
    ScanLength(db, o.tip + 1, tip);
    assert tip !in Below(db, o.tip);
  }

  /** With every candidate hashed and every query answered, the walk succeeds exactly when some
      stored block within reach of the tip is still canonical. */
  lemma ReanchorsIffForkIsShallow(w: World, b: seq<Header>, c: seq<Header>, db: Db, maxDepth: nat, rpc: Rpc, o: Outcome)
    requires w.Sound() && IsChain(w, b) && IsChain(w, c) && AllOn(w, b, db) && Honest(w, c, rpc)
    requires Explains(db, maxDepth, rpc, o) && db != map[]
    requires forall h :: h in db && Tip(db).value <= h + maxDepth ==> db[h].blockHash != ZERO_HASH && h in rpc
    ensures o.Verified? || o.Reanchored? <==>
            exists h :: h in db && Tip(db).value <= h + maxDepth && OnChain(w, c, h, db[h])
  {
    if o.Verified? || o.Reanchored? {
      SharedBlockSharesStore(w, b, c, db, o.tip);
      assert o.tip in db && WithinDepth(db, maxDepth, o.tip) && OnChain(w, c, o.tip, db[o.tip]);
    }
    if o.AnchorMismatch? {
      forall h | h in db && WithinDepth(db, maxDepth, h) ensures !OnChain(w, c, h, db[h]) {
        assert Refuted(db[h], Reply(rpc, h));
      }
    }
  }
}
