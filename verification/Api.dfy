/** The archiver's `/roots` endpoint and the client that reads it back in batches. */
module Api {
  import opened Types
  import opened Heights
  import opened RootStoreModule
  import opened CheckpointBuilder

  // ---- the endpoint -----------------------------------------------------------------------------------

  datatype Response = Found(entries: seq<RootInfo>) | BadRequest | NotFound

  ghost predicate AllStored(db: Db, from: nat, to: int) {
    forall h :: from <= h <= to ==> h in db
  }

  /** One entry per height of `from..=to`, with the stored root. */
  function RootsBetween(db: Db, from: nat, to: int): seq<RootInfo>
    decreases 1 + to - from
  {
    if to < from then []
    else RootsBetween(db, from, to - 1) + [RootInfo(to, if to in db then db[to].root else ZERO_HASH)]
  }

  lemma {:induction false} RootsBetweenIs(db: Db, from: nat, to: int)
    requires from <= to + 1
    ensures |RootsBetween(db, from, to)| == to + 1 - from
    ensures forall i :: 0 <= i < to + 1 - from ==>
              RootsBetween(db, from, to)[i] ==
                  RootInfo(from + i, if from + i in db then db[from + i].root else ZERO_HASH)
    decreases 1 + to - from
  {
    if from <= to { RootsBetweenIs(db, from, to - 1); }
  }

  /** What a client is promised. */
  ghost function Promised(db: Db, maxRange: nat, from: nat, to: nat): Response {
    if to < from || to - from >= maxRange then BadRequest
    else if AllStored(db, from, to) then Found(RootsBetween(db, from, to))
    else NotFound
  }

  /** The handler: it answers with data after comparing lengths only, and that is enough. */
  method Roots(store: RootStore, maxRange: nat, from: nat, to: nat) returns (r: Response)
    ensures r == Promised(store.db, maxRange, from, to)
    ensures r.BadRequest? <==> to < from || to + 1 - from > maxRange
    ensures r.Found? <==> from <= to < from + maxRange && AllStored(store.db, from, to)
    ensures r.Found? ==>
              && |r.entries| == to + 1 - from
              && forall i :: 0 <= i < |r.entries| ==>
                from + i in store.db && r.entries[i] == RootInfo(from + i, store.db[from + i].root)
  {
    RootsBetweenIs(store.db, from, if from <= to then to else from);
    if to < from {
      return BadRequest;
    }
    if to - from >= maxRange {
      return BadRequest;
    }
    var range := store.GetRange(from, to);
    FullScan(store.db, from, to);
    var expectedCount := to - from + 1;
    if |range| != expectedCount {
      return NotFound;
    }
    RootsBetweenIs(store.db, from, to);
    var entries := [];
    for i := 0 to |range|
      invariant |entries| == i
      invariant forall j :: 0 <= j < i ==> entries[j] == RootsBetween(store.db, from, to)[j]
    {
      entries := entries + [RootInfo(range[i].0, range[i].1.root)];
    }
    assert entries == RootsBetween(store.db, from, to);
    r := Found(entries);
  }

  // ---- the client -------------------------------------------------------------------------------------

  const MAX_BATCH: nat := 1000

  /** Any server: what it answers for `from..=to`, or `None` for an error. */
  type Server = (nat, nat) -> Option<seq<RootInfo>>

  /** The heights of `from..=to`, each once, in order. */
  ghost predicate Exact(entries: seq<RootInfo>, from: nat, to: int) {
    |entries| == to + 1 - from && forall i :: 0 <= i < |entries| ==> entries[i].height == from + i
  }

  method ValidateRangeResponse(from: nat, to: nat, entries: seq<RootInfo>) returns (ok: bool)
    requires from <= to
    ensures ok <==> Exact(entries, from, to)
  {
    if |entries| != to - from + 1 {
      return false;
    }
    for i := 0 to |entries|
      invariant forall j :: 0 <= j < i ==> entries[j].height == from + j
    {
      if entries[i].height != from + i {
        return false;
      }
    }
    ok := true;
  }

  method FetchRange(server: Server, from: nat, to: nat) returns (r: Option<seq<RootInfo>>)
    requires from <= to
    ensures r == if server(from, to).Some? && Exact(server(from, to).value, from, to) then server(from, to) else None
  {
    var response := server(from, to);
    if response.None? {
      return None;
    }
    var ok := ValidateRangeResponse(from, to, response.value);
    r := if ok then response else None;
  }

  function BatchEnd(from: nat, end: nat): nat {
    if from + MAX_BATCH - 1 < end then from + MAX_BATCH - 1 else end
  }

  /** How many requests a range takes. */
  function Requests(from: nat, end: nat): nat
    decreases end + 1 - from
  {
    if from > end then 0 else 1 + Requests(BatchEnd(from, end) + 1, end)
  }

  /** As few as the largest batch allows, and none larger. */
  lemma {:induction false} RequestsAreFew(from: nat, end: nat)
    requires from <= end + 1
    ensures Requests(from, end) == (end + 1 - from + MAX_BATCH - 1) / MAX_BATCH
    ensures BatchEnd(from, end) < from + MAX_BATCH
    decreases end + 1 - from
  {
    if from <= end { RequestsAreFew(BatchEnd(from, end) + 1, end); }
  }

  /** Every batch from `from` on is answered exactly. */
  ghost predicate AllAnswered(server: Server, from: nat, end: nat)
    decreases end + 1 - from
  {
    from <= end ==>
      && server(from, BatchEnd(from, end)).Some? &&
         Exact(server(from, BatchEnd(from, end)).value, from, BatchEnd(from, end))
      && AllAnswered(server, BatchEnd(from, end) + 1, end)
  }

  ghost function Answers(server: Server, from: nat, end: nat): seq<RootInfo>
    requires AllAnswered(server, from, end)
    decreases end + 1 - from
  {
    if from > end then [] else server(from, BatchEnd(from, end)).value + Answers(server, BatchEnd(from, end) + 1, end)
  }

  /** `results` are the answers for `start` up to `from`, exclusive. */
  ghost predicate Fetched(server: Server, start: nat, from: nat, end: nat, results: seq<RootInfo>) {
    var holds :=
      && start <= from && (from == start || from <= end + 1) && Exact(results, start, from - 1)
      && (AllAnswered(server, start, end) <==> AllAnswered(server, from, end))
      && (AllAnswered(server, start, end) ==> Answers(server, start, end) == results + Answers(server, from, end));
    holds
  }

  lemma FetchedStep(server: Server, start: nat, from: nat, end: nat, results: seq<RootInfo>, batch: seq<RootInfo>)
    requires Fetched(server, start, from, end, results) && from <= end
    requires server(from, BatchEnd(from, end)) == Some(batch) && Exact(batch, from, BatchEnd(from, end))
    ensures Fetched(server, start, BatchEnd(from, end) + 1, end, results + batch)
  {
    var next := BatchEnd(from, end) + 1;
    if AllAnswered(server, from, end) {
      assert results + (batch + Answers(server, next, end)) == (results + batch) + Answers(server, next, end);
    }
  }

  /** Read `start..=end` in batches. Whatever the server says, the result is either an error or
      exactly the requested heights. */
  method FetchAll(server: Server, start: nat, end: nat) returns (r: Option<seq<RootInfo>>)
    requires end + MAX_BATCH <= U64_MAX
    ensures r == if AllAnswered(server, start, end) then Some(Answers(server, start, end)) else None
    ensures r.Some? && start <= end + 1 ==> Exact(r.value, start, end)
  {
    var results := [];
    var from := start;
    while from <= end
      invariant Fetched(server, start, from, end, results)
      decreases end + 1 - from
    {
      var to := BatchEnd(from, end);
      var batch := FetchRange(server, from, to);
      if batch.None? {
        return None;
      }
      FetchedStep(server, start, from, end, results, batch.value);
      results := results + batch.value;
      from := to + 1;
    }
    assert results + [] == results;
    r := Some(results);
  }

  // ---- the two together --------------------------------------------------------------------------------

  /** The archiver as a server over the store `db`. */
  ghost function Archive(db: Db, maxRange: nat): Server {
    (from: nat, to: nat) =>
      match Promised(db, maxRange, from, to)
      case Found(entries) => Some(entries)
      case _ => None
  }

  lemma RootsJoin(db: Db, from: nat, mid: nat, to: int)
    requires from <= mid <= to + 1
    ensures RootsBetween(db, from, mid - 1) + RootsBetween(db, mid, to) == RootsBetween(db, from, to)
  {
    RootsBetweenIs(db, from, mid - 1);
    RootsBetweenIs(db, mid, to);
    RootsBetweenIs(db, from, to);
  }

  /** Round trip: against an archiver that serves a whole batch, the client gets an answer exactly
      when every requested height is stored, and the answer is the stored roots. */
  lemma {:induction false} ClientReadsTheStore(db: Db, maxRange: nat, from: nat, end: nat)
    requires maxRange >= MAX_BATCH && from <= end + 1
    ensures AllAnswered(Archive(db, maxRange), from, end) <==> AllStored(db, from, end)
    ensures AllStored(db, from, end) ==> Answers(Archive(db, maxRange), from, end) == RootsBetween(db, from, end)
    decreases end + 1 - from
  {
    if from <= end {
      var to := BatchEnd(from, end);
      RootsBetweenIs(db, from, to);
      ClientReadsTheStore(db, maxRange, to + 1, end);
      RootsJoin(db, from, to + 1, end);
    }
  }
}
