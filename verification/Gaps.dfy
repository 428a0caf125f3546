/** What an exact list of gaps is, and how one is built while walking up the heights. */
module Gaps {
  import opened Types
  import opened Heights

  /** An inclusive range of missing heights. */
  datatype Gap = Gap(from: nat, to: nat)

  ghost predicate InGaps(gaps: seq<Gap>, h: int) {
    exists i :: 0 <= i < |gaps| && gaps[i].from <= h <= gaps[i].to
  }

  /** Ascending, disjoint, never adjacent, and together precisely the missing heights of
      `lo..=hi`. */
  ghost predicate ExactGaps<V>(gaps: seq<Gap>, db: map<nat, V>, lo: nat, hi: int) {
    && (forall i :: 0 <= i < |gaps| ==> gaps[i].from <= gaps[i].to)
    && (forall i, j :: 0 <= i < j < |gaps| ==> gaps[i].to + 1 < gaps[j].from)
    && (forall h :: InGaps(gaps, h) <==> lo <= h <= hi && h !in db)
  }

  /** The heights `find_gaps` answers for: `None` when there is nothing to look at. */
  function Window<V>(db: map<nat, V>, start: Option<nat>, end: Option<nat>): Option<(nat, nat)> {
    match (start, end)
    case (Some(s), Some(e)) => if s <= e then Some((s, e)) else None
    case (None, Some(e)) =>
      var stored := Scan(db, 0, e);
      Some((if stored == [] then 0 else stored[0], e))
    case (Some(s), None) =>
      if First(db).None? then None
      else Some((if s < First(db).value then s else First(db).value, Tip(db).value))
    case (None, None) =>
      if First(db).None? then None else Some((First(db).value, Tip(db).value))
  }

  lemma NoGapsYet<V>(db: map<nat, V>, lo: nat)
    ensures ExactGaps([], db, lo, lo - 1)
  {
  }

  lemma StepOverStored<V>(gaps: seq<Gap>, db: map<nat, V>, lo: nat, k: nat)
    requires lo <= k && k in db
    requires ExactGaps(gaps, db, lo, k - 1)
    ensures ExactGaps(gaps, db, lo, k)
  {
  }

  lemma StepOverMissing<V>(gaps: seq<Gap>, db: map<nat, V>, lo: nat, a: nat, b: nat)
    requires lo <= a <= b && (a == lo || a - 1 in db)
    requires forall h :: a <= h <= b ==> h !in db
    requires ExactGaps(gaps, db, lo, a - 1)
    ensures ExactGaps(gaps + [Gap(a, b)], db, lo, b)
  {
    var more := gaps + [Gap(a, b)];
    forall i | 0 <= i < |gaps| ensures more[i].to + 1 < a {
      assert InGaps(gaps, gaps[i].to);
    }
    forall h ensures InGaps(more, h) <==> lo <= h <= b && h !in db {
      if InGaps(gaps, h) {
        var i :| 0 <= i < |gaps| && gaps[i].from <= h <= gaps[i].to;
        assert more[i].from <= h <= more[i].to;
      }
      assert forall i :: 0 <= i < |gaps| ==> more[i] == gaps[i];
      assert more[|gaps|] == Gap(a, b);
    }
  }

  /** An exact list is determined by the window it answers for. */
  lemma {:induction false} ExactGapsAreUnique<V>(g: seq<Gap>, g': seq<Gap>, db: map<nat, V>, lo: nat, hi: int)
    requires ExactGaps(g, db, lo, hi) && ExactGaps(g', db, lo, hi)
    ensures g == g'
    decreases |g|
  {
    if g == [] {
      assert g' == [] || InGaps(g', g'[0].from);
    } else {
      SameFirst(g, g', db, lo, hi);
      Tail(g, db, lo, hi);
      Tail(g', db, lo, hi);
      ExactGapsAreUnique(g[1..], g'[1..], db, g[0].to + 1, hi);
    }
  }

  lemma SameFirst<V>(g: seq<Gap>, g': seq<Gap>, db: map<nat, V>, lo: nat, hi: int)
    requires ExactGaps(g, db, lo, hi) && ExactGaps(g', db, lo, hi) && g != []
    ensures g' != [] && g[0] == g'[0]
  {
    assert InGaps(g, g[0].from) && InGaps(g, g[0].to);
    assert InGaps(g', g[0].from);
    assert InGaps(g', g'[0].from) && InGaps(g', g'[0].to);
    FirstIsLeast(g, g'[0].from);
    FirstIsLeast(g', g[0].from);
    if g[0].to < g'[0].to {
      assert InGaps(g', g[0].to + 1) by { assert g'[0].from <= g[0].to + 1 <= g'[0].to; }
      AfterFirst(g);
    } else if g'[0].to < g[0].to {
      assert InGaps(g, g'[0].to + 1) by { assert g[0].from <= g'[0].to + 1 <= g[0].to; }
      AfterFirst(g');
    }
  }

  lemma FirstIsLeast(g: seq<Gap>, h: int)
    requires forall i :: 0 <= i < |g| ==> g[i].from <= g[i].to
    requires forall i, j :: 0 <= i < j < |g| ==> g[i].to + 1 < g[j].from
    requires InGaps(g, h)
    ensures g != [] && g[0].from <= h
  {
    var i :| 0 <= i < |g| && g[i].from <= h <= g[i].to;
    if i > 0 { assert g[0].to + 1 < g[i].from; }
  }

  lemma AfterFirst(g: seq<Gap>)
    requires g != []
    requires forall i :: 0 <= i < |g| ==> g[i].from <= g[i].to
    requires forall i, j :: 0 <= i < j < |g| ==> g[i].to + 1 < g[j].from
    ensures !InGaps(g, g[0].to + 1)
  {
    assert forall i :: 0 < i < |g| ==> g[0].to + 1 < g[i].from;
  }

  lemma Tail<V>(g: seq<Gap>, db: map<nat, V>, lo: nat, hi: int)
    requires ExactGaps(g, db, lo, hi) && g != []
    ensures ExactGaps(g[1..], db, g[0].to + 1, hi)
  {
    var rest := g[1..];
    assert InGaps(g, g[0].from) && InGaps(g, g[0].to);
    forall h ensures InGaps(rest, h) <==> g[0].to + 1 <= h <= hi && h !in db {
      if InGaps(rest, h) {
        var i :| 0 <= i < |rest| && rest[i].from <= h <= rest[i].to;
        assert g[i + 1].from <= h <= g[i + 1].to && g[0].to + 1 < g[i + 1].from;
        assert InGaps(g, h);
      }
      if g[0].to + 1 <= h <= hi && h !in db {
        assert InGaps(g, h);
        var i :| 0 <= i < |g| && g[i].from <= h <= g[i].to;
        assert i > 0 && rest[i - 1] == g[i];
      }
    }
  }

  function GapLength(g: Gap): int { g.to - g.from + 1 }

  /** The number of blocks a gap list announces. */
  function Total(gaps: seq<Gap>): int
    decreases |gaps|
  {
    if gaps == [] then 0 else GapLength(gaps[0]) + Total(gaps[1..])
  }

  function Missing<V>(db: map<nat, V>, lo: nat, hi: int): set<int> {
    set h | lo <= h <= hi && h !in db
  }

  /** The announced total is the number of missing heights. */
  lemma {:induction false} TotalIsMissing<V>(gaps: seq<Gap>, db: map<nat, V>, lo: nat, hi: int)
    requires ExactGaps(gaps, db, lo, hi)
    ensures Total(gaps) == |Missing(db, lo, hi)|
    decreases |gaps|
  {
    if gaps == [] {
      assert Missing(db, lo, hi) == {} by {
        assert forall h :: h in Missing(db, lo, hi) ==> InGaps(gaps, h);
      }
    } else {
      Tail(gaps, db, lo, hi);
      TotalIsMissing(gaps[1..], db, gaps[0].to + 1, hi);
      assert InGaps(gaps, gaps[0].from);
      FirstGapSize(gaps, db, lo, hi);
    }
  }

  lemma FirstGapSize<V>(gaps: seq<Gap>, db: map<nat, V>, lo: nat, hi: int)
    requires ExactGaps(gaps, db, lo, hi) && gaps != []
    ensures |Missing(db, lo, hi)| == GapLength(gaps[0]) + |Missing(db, gaps[0].to + 1, hi)|
  {
    var a, b := gaps[0].from, gaps[0].to;
    SplitMissing(gaps, db, lo, hi);
    IntervalSize(a, b);
    DisjointSizes(Interval(a, b), Missing(db, b + 1, hi));
  }

  lemma DisjointSizes(s: set<int>, t: set<int>)
    requires s !! t
    ensures |s + t| == |s| + |t|
  {
  }

  lemma SplitMissing<V>(gaps: seq<Gap>, db: map<nat, V>, lo: nat, hi: int)
    requires ExactGaps(gaps, db, lo, hi) && gaps != []
    ensures Missing(db, lo, hi) == Interval(gaps[0].from, gaps[0].to) + Missing(db, gaps[0].to + 1, hi)
  {
    var a, b := gaps[0].from, gaps[0].to;
    assert InGaps(gaps, a) && InGaps(gaps, b);
    forall h ensures h in Missing(db, lo, hi) <==> h in Interval(a, b) || h in Missing(db, b + 1, hi) {
      if a <= h <= b { assert InGaps(gaps, h); }
      if InGaps(gaps, h) { FirstIsLeast(gaps, h); }
    }
  }

  function Interval(a: int, b: int): (s: set<int>)
    ensures forall h :: h in s <==> a <= h <= b
    decreases b + 1 - a
  {
    if b < a then {} else Interval(a, b - 1) + {b}
  }

  lemma {:induction false} IntervalSize(a: int, b: int)
    requires a <= b + 1
    ensures |Interval(a, b)| == b + 1 - a
    decreases b + 1 - a
  {
    if a <= b {
      IntervalSize(a, b - 1);
      assert Interval(a, b) == Interval(a, b - 1) + {b};
    }
  }
}
