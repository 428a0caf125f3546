/** Several databases chained into one source, overlaps resolved in favour of the one that starts
    earlier. */
module ChainedSource {
  import opened Types
  import opened Heights

  datatype DbSpan = DbSpan(index: nat, first: nat, last: nat) {
    predicate Covers(h: nat) { first <= h <= last }
  }

  datatype Resolution = Kept(index: nat, usableStart: nat, usableEnd: nat) | Shadowed(index: nat) {
    predicate Serves(h: nat) { Kept? && usableStart <= h <= usableEnd }
  }

  datatype Overlap = Overlap(winner: nat, loser: nat, overlapStart: nat, overlapEnd: nat)

  // ---- ordering the spans --------------------------------------------------------------------------

  /** `a` comes before `b` in a stable sort by starting height. */
  predicate Before(a: DbSpan, b: DbSpan) {
    a.first < b.first || (a.first == b.first && a.index < b.index)
  }

  ghost predicate Ordered(spans: seq<DbSpan>) {
    && (forall i, j {:trigger Before(spans[i], spans[j])} :: 0 <= i < j < |spans| ==> Before(spans[i], spans[j]))
    && (forall i :: 0 <= i < |spans| ==> spans[i].first <= spans[i].last < U64_MAX)
  }

  function Insert(spans: seq<DbSpan>, x: DbSpan, n: nat): seq<DbSpan>
    requires n <= |spans|
  {
    if n > 0 && x.first < spans[n - 1].first then Insert(spans, x, n - 1)
    else spans[..n] + [x] + spans[n..]
  }

  function SortByFirst(spans: seq<DbSpan>, n: nat): seq<DbSpan>
    requires n <= |spans|
  {
    if n == 0 then [] else
    var sorted := SortByFirst(spans, n - 1);
    Insert(sorted, spans[n - 1], |sorted|)
  }

  lemma {:induction false} InsertHolds(spans: seq<DbSpan>, x: DbSpan, n: nat, y: DbSpan)
    requires n <= |spans|
    ensures y in Insert(spans, x, n) <==> y in spans || y == x
  {
    if n > 0 && x.first < spans[n - 1].first {
      InsertHolds(spans, x, n - 1, y);
    } else {
      assert spans == spans[..n] + spans[n..];
    }
  }

  lemma OrderedAround(spans: seq<DbSpan>, x: DbSpan, n: nat)
    requires Ordered(spans) && n <= |spans| && x.first <= x.last < U64_MAX
    requires forall i :: 0 <= i < n ==> Before(spans[i], x)
    requires forall i :: n <= i < |spans| ==> Before(x, spans[i])
    ensures Ordered(spans[..n] + [x] + spans[n..])
  {
    var s := spans[..n] + [x] + spans[n..];
    assert |s| == |spans| + 1 && s[n] == x;
    assert forall i :: 0 <= i < n ==> s[i] == spans[i];
    assert forall i :: n < i < |s| ==> s[i] == spans[i - 1];
  }

  lemma {:induction false} InsertOrders(spans: seq<DbSpan>, x: DbSpan, n: nat)
    requires Ordered(spans) && n <= |spans| && x.first <= x.last < U64_MAX
    requires forall i :: 0 <= i < |spans| ==> spans[i].index < x.index
    requires forall i :: n <= i < |spans| ==> x.first < spans[i].first
    ensures Ordered(Insert(spans, x, n))
  {
    if n > 0 && x.first < spans[n - 1].first {
      InsertOrders(spans, x, n - 1);
    } else {
      forall i | 0 <= i < n ensures Before(spans[i], x) {
        assert i < n - 1 ==> Before(spans[i], spans[n - 1]);
      }
      OrderedAround(spans, x, n);
    }
  }

  /** Spans as they are collected: numbered by position. */
  ghost predicate Numbered(spans: seq<DbSpan>) {
    forall i :: 0 <= i < |spans| ==> spans[i].index == i && spans[i].first <= spans[i].last < U64_MAX
  }

  lemma {:induction false} SortOrders(spans: seq<DbSpan>, n: nat)
    requires Numbered(spans) && n <= |spans|
    ensures Ordered(SortByFirst(spans, n))
    ensures forall y :: y in SortByFirst(spans, n) <==> y in spans[..n]
    ensures forall i :: 0 <= i < |SortByFirst(spans, n)| ==> SortByFirst(spans, n)[i].index < n
  {
    if n > 0 {
      SortOrders(spans, n - 1);
      var sorted := SortByFirst(spans, n - 1);
      InsertOrders(sorted, spans[n - 1], |sorted|);
      forall y ensures y in SortByFirst(spans, n) <==> y in sorted || y == spans[n - 1] {
        InsertHolds(sorted, spans[n - 1], |sorted|, y);
      }
      assert spans[..n] == spans[..n - 1] + [spans[n - 1]];
      var s := SortByFirst(spans, n);
      forall i | 0 <= i < |s| ensures s[i].index < n {
        assert s[i] in s;
        if s[i] in sorted { var j :| 0 <= j < |sorted| && sorted[j] == s[i]; }
      }
    }
  }

  // ---- resolving overlaps --------------------------------------------------------------------------

  /** Highest height the first `n` spans reach, or -1. */
  function MaxLast(spans: seq<DbSpan>, n: nat): int
    requires n <= |spans|
  {
    if n == 0 then -1
    else if spans[n - 1].last > MaxLast(spans, n - 1) then spans[n - 1].last
    else MaxLast(spans, n - 1)
  }

  lemma {:induction false} MaxLastBounds(spans: seq<DbSpan>, n: nat)
    requires n <= |spans|
    ensures forall i :: 0 <= i < n ==> spans[i].last <= MaxLast(spans, n)
    ensures -1 <= MaxLast(spans, n)
    ensures n > 0 ==> exists i :: 0 <= i < n && spans[i].last == MaxLast(spans, n)
  {
    if n > 0 { MaxLastBounds(spans, n - 1); }
  }

  /** What is left of span `i` once the spans before it have taken theirs. */
  function Resolve(spans: seq<DbSpan>, i: nat): Resolution
    requires i < |spans|
  {
    var span := spans[i];
    var usableStart := if span.first > MaxLast(spans, i) then span.first else MaxLast(spans, i) + 1;
    if usableStart <= span.last then Kept(span.index, usableStart, span.last) else Shadowed(span.index)
  }

  /** Span `j` shares the height `h` with an earlier one. */
  ghost predicate Shares(spans: seq<DbSpan>, j: nat, h: nat)
    requires j < |spans|
  {
    spans[j].Covers(h) && exists i :: 0 <= i < j && spans[i].Covers(h)
  }

  ghost predicate Late(spans: seq<DbSpan>, j: nat)
    requires j < |spans|
  {
    exists h: nat :: Shares(spans, j, h)
  }

  /** The positions, in order, of those of the first `n` spans that share a height with earlier ones. */
  ghost function LateTo(spans: seq<DbSpan>, n: nat): seq<nat>
    requires n <= |spans|
  {
    if n == 0 then []
    else if Late(spans, n - 1) then LateTo(spans, n - 1) + [n - 1]
    else LateTo(spans, n - 1)
  }

  /** Span `i` is the first of those before span `j` to reach the highest height they reach. */
  ghost predicate ReachesHighest(spans: seq<DbSpan>, i: nat, j: nat)
    requires j <= |spans|
  {
    i < j && forall k :: 0 <= k < j ==> spans[k].last < spans[i].last || (spans[k].last == spans[i].last && i <= k)
  }

  /** `o` reports for span `j` exactly the heights it shares with earlier ones, and names the one
      that reaches highest, which has them all. */
  ghost predicate Reports(spans: seq<DbSpan>, j: nat, o: Overlap) {
    && j < |spans| && o.loser == spans[j].index
    && (forall h: nat :: Shares(spans, j, h) <==> o.overlapStart <= h <= o.overlapEnd)
    && (exists i: nat :: ReachesHighest(spans, i, j) && spans[i].index == o.winner
         && spans[i].Covers(o.overlapStart) && spans[i].Covers(o.overlapEnd))
  }

  /** Two of the first `n` spans share a height. */
  ghost predicate Overlapping(spans: seq<DbSpan>, n: nat)
    requires n <= |spans|
  {
    exists i, j, h: nat :: 0 <= i < j < n && spans[i].Covers(h) && spans[j].Covers(h)
  }

  lemma OverlapStep(spans: seq<DbSpan>, n: nat)
    requires Ordered(spans) && n < |spans|
    ensures Overlapping(spans, n + 1) <==> Overlapping(spans, n) || spans[n].first <= MaxLast(spans, n)
  {
    MaxLastBounds(spans, n);
    if spans[n].first <= MaxLast(spans, n) {
      var i :| 0 <= i < n && spans[i].last == MaxLast(spans, n);
      assert Before(spans[i], spans[n]);
      assert spans[i].Covers(spans[n].first) && spans[n].Covers(spans[n].first);
    }
  }

  /** The span that reaches highest has all the heights that span `j` shares. */
  lemma OverlapIsReported(spans: seq<DbSpan>, i: nat, j: nat)
    requires Ordered(spans) && i < j < |spans| && spans[i].last == MaxLast(spans, j) && spans[j].first <= spans[i].last
    requires forall k :: 0 <= k < i ==> spans[k].last < spans[i].last
    ensures var end := if spans[i].last < spans[j].last then spans[i].last else spans[j].last;
            Reports(spans, j, Overlap(spans[i].index, spans[j].index, spans[j].first, end))
  {
    MaxLastBounds(spans, j);
    assert Before(spans[i], spans[j]);
    assert forall h: nat :: spans[j].first <= h <= spans[i].last ==> spans[i].Covers(h);
    assert ReachesHighest(spans, i, j);
  }

  lemma LateIff(spans: seq<DbSpan>, j: nat)
    requires Ordered(spans) && j < |spans|
    ensures Late(spans, j) <==> spans[j].first <= MaxLast(spans, j)
  {
    MaxLastBounds(spans, j);
    if spans[j].first <= MaxLast(spans, j) {
      var i :| 0 <= i < j && spans[i].last == MaxLast(spans, j);
      assert Before(spans[i], spans[j]);
      assert spans[i].Covers(spans[j].first) && spans[j].Covers(spans[j].first);
      assert Shares(spans, j, spans[j].first);
    }
  }

  /** The overlaps found among the first `n` spans: one report for each span that shares heights
      with earlier ones, in order. */
  ghost predicate Found(spans: seq<DbSpan>, n: nat, overlaps: seq<Overlap>)
    requires n <= |spans|
  {
    var holds :=
      && |overlaps| == |LateTo(spans, n)|
      && (forall k :: 0 <= k < |overlaps| ==> Reports(spans, LateTo(spans, n)[k], overlaps[k]));
    holds
  }

  /** Nothing is reported exactly if no two spans share a height. */
  lemma {:induction false} NoneLateIff(spans: seq<DbSpan>, n: nat)
    requires Ordered(spans) && n <= |spans|
    ensures LateTo(spans, n) == [] <==> !Overlapping(spans, n)
  {
    if n > 0 {
      NoneLateIff(spans, n - 1);
      OverlapStep(spans, n - 1);
      LateIff(spans, n - 1);
    }
  }

  /** The overlaps once span `n` is taken in. */
  function AddOverlap(span: DbSpan, runningMax: Option<(nat, nat)>, overlaps: seq<Overlap>): seq<Overlap> {
    if runningMax.Some? && span.first <= runningMax.value.1 then
      var end := if runningMax.value.1 < span.last then runningMax.value.1 else span.last;
      overlaps + [Overlap(runningMax.value.0, span.index, span.first, end)]
    else
      overlaps
  }

  lemma FoundStep(spans: seq<DbSpan>, n: nat, w: nat, runningMax: Option<(nat, nat)>, overlaps: seq<Overlap>)
    requires Ordered(spans) && n < |spans| && Reached(spans, n, w, runningMax) && Found(spans, n, overlaps)
    ensures Found(spans, n + 1, AddOverlap(spans[n], runningMax, overlaps))
  {
    var span := spans[n];
    LateIff(spans, n);
    if runningMax.Some? && span.first <= runningMax.value.1 { OverlapIsReported(spans, w, n); }
  }

  /** What one round makes of `span`, given the highest height covered so far. */
  function Restrict(span: DbSpan, runningMax: Option<(nat, nat)>): Resolution {
    var usableStart :=
      if runningMax.Some? && WrappingInc(runningMax.value.1) > span.first then WrappingInc(runningMax.value.1) else
          span.first;
    if usableStart <= span.last then Kept(span.index, usableStart, span.last) else Shadowed(span.index)
  }

  /** `runningMax` belongs to span `w`, the first to reach the highest height of the first `n`. */
  ghost predicate Reached(spans: seq<DbSpan>, n: nat, w: nat, runningMax: Option<(nat, nat)>)
    requires n <= |spans|
  {
    if n == 0 then runningMax.None?
    else
      && runningMax.Some? && w < n && spans[w].index == runningMax.value.0
      && spans[w].last == runningMax.value.1 == MaxLast(spans, n)
      && forall i :: 0 <= i < w ==> spans[i].last < spans[w].last
  }

  lemma RestrictResolves(spans: seq<DbSpan>, n: nat, w: nat, runningMax: Option<(nat, nat)>)
    requires Ordered(spans) && n < |spans| && Reached(spans, n, w, runningMax)
    ensures Restrict(spans[n], runningMax) == Resolve(spans, n)
  {
  }

  /** Where the pass stands before span `n`. */
  ghost predicate PassState(spans: seq<DbSpan>, n: nat, w: nat, runningMax: Option<(nat, nat)>,
      resolutions: seq<Resolution>, overlaps: seq<Overlap>)
  {
    var holds :=
      && n <= |spans| && |resolutions| == n && (forall i :: 0 <= i < n ==> resolutions[i] == Resolve(spans, i))
      && Reached(spans, n, w, runningMax) && Found(spans, n, overlaps);
    holds
  }

  lemma ReachedStep(spans: seq<DbSpan>, n: nat, w: nat, runningMax: Option<(nat, nat)>)
    requires Ordered(spans) && n < |spans| && Reached(spans, n, w, runningMax)
    ensures var span := spans[n];
            var kept := runningMax.Some? && runningMax.value.1 >= span.last;
            Reached(spans, n + 1, if kept then w else n, if kept then runningMax else Some((span.index, span.last)))
  {
    MaxLastBounds(spans, n);
  }

  lemma ResolutionStep(spans: seq<DbSpan>, n: nat, resolutions: seq<Resolution>, r: Resolution)
    requires n < |spans| && |resolutions| == n && r == Resolve(spans, n)
    requires forall i :: 0 <= i < n ==> resolutions[i] == Resolve(spans, i)
    ensures forall i :: 0 <= i < n + 1 ==> (resolutions + [r])[i] == Resolve(spans, i)
  {
  }

  lemma PassStep(spans: seq<DbSpan>, n: nat, w: nat, runningMax: Option<(nat, nat)>, resolutions: seq<Resolution>,
      overlaps: seq<Overlap>)
    requires Ordered(spans) && n < |spans| && PassState(spans, n, w, runningMax, resolutions, overlaps)
    ensures var span := spans[n];
            var kept := runningMax.Some? && runningMax.value.1 >= span.last;
            PassState(spans, n + 1, if kept then w else n, if kept then runningMax else Some((span.index, span.last)),
                resolutions + [Restrict(span, runningMax)], AddOverlap(span, runningMax, overlaps))
  {
    FoundStep(spans, n, w, runningMax, overlaps);
    RestrictResolves(spans, n, w, runningMax);
    ReachedStep(spans, n, w, runningMax);
    ResolutionStep(spans, n, resolutions, Restrict(spans[n], runningMax));
  }

  /** The pass over the ordered spans. */
  method ResolveSpans(spans: seq<DbSpan>) returns (resolutions: seq<Resolution>, overlaps: seq<Overlap>)
    requires Ordered(spans)
    ensures |resolutions| == |spans| && forall i :: 0 <= i < |spans| ==> resolutions[i] == Resolve(spans, i)
    ensures Found(spans, |spans|, overlaps)
  {
    resolutions, overlaps := [], [];
    var runningMax: Option<(nat, nat)> := None;
    var n := 0;
    ghost var w := 0;
    while n < |spans|
      invariant 0 <= n <= |spans| && 0 <= w && PassState(spans, n, w, runningMax, resolutions, overlaps)
    {
      var span := spans[n];
      PassStep(spans, n, w, runningMax, resolutions, overlaps);
      overlaps := AddOverlap(span, runningMax, overlaps);
      resolutions := resolutions + [Restrict(span, runningMax)];
      if !(runningMax.Some? && runningMax.value.1 >= span.last) {
        runningMax, w := Some((span.index, span.last)), n;
      }
      n := n + 1;
    }
  }

  /** Span `i` is the first, in order, to cover `h`. */
  ghost predicate Owns(spans: seq<DbSpan>, i: nat, h: nat)
    requires i < |spans|
  {
    spans[i].Covers(h) && forall j :: 0 <= j < i ==> !spans[j].Covers(h)
  }

  /** A height is served by exactly the span that comes first among those that cover it. */
  lemma ServedByOwner(spans: seq<DbSpan>, i: nat, h: nat)
    requires Ordered(spans) && i < |spans|
    ensures Resolve(spans, i).Serves(h) <==> Owns(spans, i, h)
  {
    MaxLastBounds(spans, i);
    forall j | 0 <= j < i && spans[i].Covers(h) ensures spans[j].Covers(h) <==> h <= spans[j].last {
      assert Before(spans[j], spans[i]);
    }
    if i > 0 {
      var k :| 0 <= k < i && spans[k].last == MaxLast(spans, i);
      assert spans[i].Covers(h) && h <= MaxLast(spans, i) ==> spans[k].Covers(h);
    }
  }

  /** What is kept ascends without overlap. */
  lemma KeptAscend(spans: seq<DbSpan>, i: nat, j: nat)
    requires Ordered(spans) && i < j < |spans| && Resolve(spans, i).Kept? && Resolve(spans, j).Kept?
    ensures Resolve(spans, i).usableEnd < Resolve(spans, j).usableStart
  {
    MaxLastBounds(spans, j);
  }

  // ---- opening --------------------------------------------------------------------------------------

  type RootDb = map<nat, H256>

  ghost predicate InRange(dbs: seq<RootDb>) {
    forall k, h :: 0 <= k < |dbs| && h in dbs[k] ==> h < U64_MAX
  }

  /** Non-empty and without a gap. */
  ghost predicate Gapless(db: RootDb) {
    db != map[] && Contiguous(db)
  }

  /** Database `k` is the earliest to start among those that hold `h`; the earlier path wins a tie. */
  ghost predicate OwnerOf(dbs: seq<RootDb>, k: nat, h: nat)
    requires k < |dbs|
  {
    h in dbs[k] && forall k' :: 0 <= k' < |dbs| && k' != k && h in dbs[k'] ==>
      First(dbs[k]).value < First(dbs[k']).value || (First(dbs[k]).value == First(dbs[k']).value && k < k')
  }

  /** One span per database, covering exactly its heights. */
  ghost predicate SpansFit(dbs: seq<RootDb>, spans: seq<DbSpan>, n: nat)
    requires n <= |dbs|
  {
    && |spans| == n && Numbered(spans)
    && forall k :: 0 <= k < n ==> First(dbs[k]) == Some(spans[k].first) && forall h: nat :: spans[k].Covers(h) <==>
       h in dbs[k]
  }

  method SpansOf(dbs: seq<RootDb>) returns (spans: Option<seq<DbSpan>>)
    requires InRange(dbs)
    ensures spans.Some? <==> forall k :: 0 <= k < |dbs| ==> Gapless(dbs[k])
    ensures spans.Some? ==> SpansFit(dbs, spans.value, |dbs|)
  {
    var found := [];
    var n := 0;
    while n < |dbs|
      invariant 0 <= n <= |dbs|
      invariant forall k :: 0 <= k < n ==> Gapless(dbs[k])
      invariant SpansFit(dbs, found, n)
    {
      var first, last := First(dbs[n]), Tip(dbs[n]);
      if first.None? || last.None? {
        return None;
      }
      CountEqualsSpan(dbs[n], first.value, last.value);
      if |dbs[n]| != last.value - first.value + 1 {
        return None;
      }
      found := found + [DbSpan(n, first.value, last.value)];
      n := n + 1;
    }
    spans := Some(found);
  }

  /** A database restricted to the heights it contributes. */
  datatype Part = Part(db: RootDb, start: nat, end: nat) {
    predicate Covers(h: nat) { start <= h <= end }
  }

  /** Ascending, non-overlapping, and every height of a part is in its database. */
  ghost predicate Layout(entries: seq<Part>) {
    && (forall e :: 0 <= e < |entries| ==> entries[e].start <= entries[e].end < U64_MAX)
    && (forall e, h: nat :: 0 <= e < |entries| && entries[e].Covers(h) ==> h in entries[e].db)
    && (forall d, e :: 0 <= d < e < |entries| ==> entries[d].end < entries[e].start)
  }

  ghost predicate Covered(entries: seq<Part>, h: nat) {
    exists e :: 0 <= e < |entries| && entries[e].Covers(h)
  }

  // ---- who serves what ----------------------------------------------------------------------------

  /** `sorted` holds the spans of `dbs`, in order. */
  ghost predicate Sorting(dbs: seq<RootDb>, spans: seq<DbSpan>, sorted: seq<DbSpan>) {
    SpansFit(dbs, spans, |dbs|) && Ordered(sorted) && forall y :: y in sorted <==> y in spans
  }

  lemma SpanAt(dbs: seq<RootDb>, spans: seq<DbSpan>, sorted: seq<DbSpan>, i: nat, h: nat)
    requires Sorting(dbs, spans, sorted) && i < |sorted|
    ensures sorted[i].index < |dbs| && sorted[i] == spans[sorted[i].index]
    ensures sorted[i].Covers(h) <==> h in dbs[sorted[i].index]
    ensures First(dbs[sorted[i].index]) == Some(sorted[i].first)
  {
    assert sorted[i] in sorted;
    var k :| 0 <= k < |spans| && spans[k] == sorted[i];
  }

  lemma PlaceOf(dbs: seq<RootDb>, spans: seq<DbSpan>, sorted: seq<DbSpan>, k: nat) returns (i: nat)
    requires Sorting(dbs, spans, sorted) && k < |dbs|
    ensures i < |sorted| && sorted[i] == spans[k] && sorted[i].index == k
  {
    assert spans[k] in spans;
    i :| 0 <= i < |sorted| && sorted[i] == spans[k];
  }

  lemma OwnerIsEarliest(dbs: seq<RootDb>, spans: seq<DbSpan>, sorted: seq<DbSpan>, i: nat, h: nat)
    requires Sorting(dbs, spans, sorted) && i < |sorted| && Owns(sorted, i, h)
    ensures sorted[i].index < |dbs| && OwnerOf(dbs, sorted[i].index, h)
  {
    SpanAt(dbs, spans, sorted, i, h);
    var k := sorted[i].index;
    forall k' | 0 <= k' < |dbs| && k' != k && h in dbs[k']
      ensures First(dbs[k]).value < First(dbs[k']).value || (First(dbs[k]).value == First(dbs[k']).value && k < k')
    {
      var j := PlaceOf(dbs, spans, sorted, k');
      SpanAt(dbs, spans, sorted, j, h);
      assert Before(sorted[i], sorted[j]);
    }
  }

  lemma {:induction false} FirstToCover(sorted: seq<DbSpan>, n: nat, h: nat) returns (i: nat)
    requires n < |sorted| && sorted[n].Covers(h)
    ensures i < |sorted| && Owns(sorted, i, h)
  {
    if j :| 0 <= j < n && sorted[j].Covers(h) {
      i := FirstToCover(sorted, j, h);
    } else {
      i := n;
    }
  }

  /** Two databases hold one height. */
  ghost predicate Sharing(dbs: seq<RootDb>) {
    exists k, k', h :: 0 <= k < k' < |dbs| && h in dbs[k] && h in dbs[k']
  }

  lemma OverlappingMeansSharing(dbs: seq<RootDb>, spans: seq<DbSpan>, sorted: seq<DbSpan>, i: nat, j: nat, h: nat)
    requires Sorting(dbs, spans, sorted) && i < j < |sorted| && sorted[i].Covers(h) && sorted[j].Covers(h)
    ensures Sharing(dbs)
  {
    SpanAt(dbs, spans, sorted, i, h);
    SpanAt(dbs, spans, sorted, j, h);
    assert Before(sorted[i], sorted[j]);
    var k, k' := sorted[i].index, sorted[j].index;
    assert h in dbs[k] && h in dbs[k'];
  }

  lemma SharingMeansOverlapping(dbs: seq<RootDb>, spans: seq<DbSpan>, sorted: seq<DbSpan>, k: nat, k': nat, h: nat)
    requires Sorting(dbs, spans, sorted) && k < k' < |dbs| && h in dbs[k] && h in dbs[k']
    ensures Overlapping(sorted, |sorted|)
  {
    var i := PlaceOf(dbs, spans, sorted, k);
    var j := PlaceOf(dbs, spans, sorted, k');
    SpanAt(dbs, spans, sorted, i, h);
    SpanAt(dbs, spans, sorted, j, h);
    assert sorted[i].Covers(h) && sorted[j].Covers(h);
  }

  lemma SharingIsOverlapping(dbs: seq<RootDb>, spans: seq<DbSpan>, sorted: seq<DbSpan>)
    requires Sorting(dbs, spans, sorted)
    ensures Overlapping(sorted, |sorted|) <==> Sharing(dbs)
  {
    if Overlapping(sorted, |sorted|) {
      var i, j, h: nat :| 0 <= i < j < |sorted| && sorted[i].Covers(h) && sorted[j].Covers(h);
      OverlappingMeansSharing(dbs, spans, sorted, i, j, h);
    }
    if Sharing(dbs) {
      var k, k', h :| 0 <= k < k' < |dbs| && h in dbs[k] && h in dbs[k'];
      SharingMeansOverlapping(dbs, spans, sorted, k, k', h);
    }
  }

  /** The entries of the first `n` resolutions; entry `e` comes from position `from[e]`. */
  ghost predicate Collected(dbs: seq<RootDb>, sorted: seq<DbSpan>, n: nat, entries: seq<Part>, from: seq<nat>)
    requires n <= |sorted|
  {
    && |from| == |entries|
    && (forall e :: 0 <= e < |from| ==> from[e] < n && EntryOf(dbs, sorted, from[e], entries[e]))
    && (forall d, e :: 0 <= d < e < |from| ==> from[d] < from[e])
    && (forall i :: 0 <= i < n && Resolve(sorted, i).Kept? ==> i in from)
  }

  ghost predicate EntryOf(dbs: seq<RootDb>, sorted: seq<DbSpan>, i: nat, entry: Part)
    requires i < |sorted|
  {
    var r := Resolve(sorted, i);
    r.Kept? && r.index < |dbs| && entry == Part(dbs[r.index], r.usableStart, r.usableEnd)
  }

  /** Every entry serves the heights its database owns, and every stored height is served. */
  ghost predicate ServesOwners(dbs: seq<RootDb>, entries: seq<Part>) {
    && (forall e, h: nat :: 0 <= e < |entries| && entries[e].Covers(h) ==>
          exists k :: 0 <= k < |dbs| && entries[e].db == dbs[k] && OwnerOf(dbs, k, h))
    && (forall k, h :: 0 <= k < |dbs| && h in dbs[k] ==> Covered(entries, h))
  }

  lemma EntryServesOwner(dbs: seq<RootDb>, spans: seq<DbSpan>, sorted: seq<DbSpan>, i: nat, entry: Part, h: nat)
    requires Sorting(dbs, spans, sorted) && i < |sorted| && EntryOf(dbs, sorted, i, entry) && entry.Covers(h)
    ensures Resolve(sorted, i).index < |dbs| && entry.db == dbs[Resolve(sorted, i).index] &&
            OwnerOf(dbs, Resolve(sorted, i).index, h)
  {
    ServedByOwner(sorted, i, h);
    OwnerIsEarliest(dbs, spans, sorted, i, h);
  }

  lemma HeightIsServed(dbs: seq<RootDb>, spans: seq<DbSpan>, sorted: seq<DbSpan>, entries: seq<Part>, from: seq<nat>,
      k: nat, h: nat)
    requires Sorting(dbs, spans, sorted) && Collected(dbs, sorted, |sorted|, entries, from) && k < |dbs| && h in dbs[k]
    ensures Covered(entries, h)
  {
    var n := PlaceOf(dbs, spans, sorted, k);
    SpanAt(dbs, spans, sorted, n, h);
    var i := FirstToCover(sorted, n, h);
    ServedByOwner(sorted, i, h);
    var e :| 0 <= e < |from| && from[e] == i;
    assert EntryOf(dbs, sorted, from[e], entries[e]) && entries[e].Covers(h);
  }

  lemma CollectedServes(dbs: seq<RootDb>, spans: seq<DbSpan>, sorted: seq<DbSpan>, entries: seq<Part>, from: seq<nat>)
    requires Sorting(dbs, spans, sorted) && Collected(dbs, sorted, |sorted|, entries, from)
    ensures ServesOwners(dbs, entries)
  {
    forall e, h: nat | 0 <= e < |entries| && entries[e].Covers(h)
      ensures exists k :: 0 <= k < |dbs| && entries[e].db == dbs[k] && OwnerOf(dbs, k, h)
    {
      EntryServesOwner(dbs, spans, sorted, from[e], entries[e], h);
    }
    forall k, h | 0 <= k < |dbs| && h in dbs[k] ensures Covered(entries, h) {
      HeightIsServed(dbs, spans, sorted, entries, from, k, h);
    }
  }

  lemma CollectedIsLaidOut(dbs: seq<RootDb>, spans: seq<DbSpan>, sorted: seq<DbSpan>, entries: seq<Part>,
      from: seq<nat>)
    requires Sorting(dbs, spans, sorted) && Collected(dbs, sorted, |sorted|, entries, from)
    ensures Layout(entries)
  {
    forall e | 0 <= e < |entries| ensures entries[e].start <= entries[e].end < U64_MAX {
      assert EntryOf(dbs, sorted, from[e], entries[e]);
    }
    forall e, h: nat | 0 <= e < |entries| && entries[e].Covers(h) ensures h in entries[e].db {
      EntryServesOwner(dbs, spans, sorted, from[e], entries[e], h);
    }
    forall d, e | 0 <= d < e < |entries| ensures entries[d].end < entries[e].start {
      assert EntryOf(dbs, sorted, from[d], entries[d]) && EntryOf(dbs, sorted, from[e], entries[e]);
      KeptAscend(sorted, from[d], from[e]);
    }
  }

  /** Keep what was resolved as kept. */
  method Collect(dbs: seq<RootDb>, ghost spans: seq<DbSpan>, ghost sorted: seq<DbSpan>, resolutions: seq<Resolution>)
    returns (entries: seq<Part>)
    requires Sorting(dbs, spans, sorted)
    requires |resolutions| == |sorted| && forall i :: 0 <= i < |sorted| ==> resolutions[i] == Resolve(sorted, i)
    ensures Layout(entries) && ServesOwners(dbs, entries)
  {
    entries := [];
    ghost var from: seq<nat> := [];
    var n := 0;
    while n < |resolutions|
      invariant 0 <= n <= |resolutions|
      invariant Collected(dbs, sorted, n, entries, from)
    {
      var r := resolutions[n];
      SpanAt(dbs, spans, sorted, n, 0);
      if r.Kept? {
        entries := entries + [Part(dbs[r.index], r.usableStart, r.usableEnd)];
        from := from + [n];
      }
      n := n + 1;
    }
    CollectedServes(dbs, spans, sorted, entries, from);
    CollectedIsLaidOut(dbs, spans, sorted, entries, from);
  }

  /** Open the databases as one source: each must hold something and have no gap, and with
      `failOnOverlap` no two may hold the same height. */
  method Open(dbs: seq<RootDb>, failOnOverlap: bool) returns (source: Option<seq<Part>>)
    requires InRange(dbs)
    ensures source.Some? <==>
              dbs != [] && (forall k :: 0 <= k < |dbs| ==> Gapless(dbs[k])) && (failOnOverlap ==> !Sharing(dbs))
    ensures source.Some? ==> Layout(source.value) && ServesOwners(dbs, source.value)
  {
    if dbs == [] {
      return None;
    }
    var spans := SpansOf(dbs);
    if spans.None? {
      return None;
    }
    var sorted := SortByFirst(spans.value, |spans.value|);
    SortOrders(spans.value, |spans.value|);
    assert spans.value[..|spans.value|] == spans.value;
    SharingIsOverlapping(dbs, spans.value, sorted);
    NoneLateIff(sorted, |sorted|);
    var resolutions, overlaps := ResolveSpans(sorted);
    if failOnOverlap && overlaps != [] {
      return None;
    }
    var entries := Collect(dbs, spans.value, sorted, resolutions);
    source := Some(entries);
  }
}
