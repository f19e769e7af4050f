/**
 The record of auto-tuning experiments and its Pareto front (faiss/AutoTune.cpp, OperatingPoints).
 Performances and times are reals.
 */
module OperatingPointSets {

  datatype OperatingPoint = OperatingPoint(perf: real, t: real, key: string, cno: int)

  /** Doing nothing: no performance, no time. */
  const ORIGIN := OperatingPoint(0.0, 0.0, "", -1)

  /** 1e50, the time of a performance that nothing reaches. */
  const NEVER: real := 100000000000000000000000000000000000000000000000000.0

  ghost predicate Timed(pts: seq<OperatingPoint>) {
    forall i :: 0 <= i < |pts| ==> 0.0 <= pts[i].t < NEVER
  }

  /** The least time, over the origin and these points, that reaches performance p. */
  ghost function TimeFor(pts: seq<OperatingPoint>, p: real): real {
    if pts == [] then (if p <= 0.0 then 0.0 else NEVER)
    else
      var rest, last := TimeFor(pts[..|pts| - 1], p), pts[|pts| - 1];
      if last.perf >= p && last.t < rest then last.t else rest
  }

  ghost predicate Dominates(x: OperatingPoint, y: OperatingPoint) {
    x.perf >= y.perf && x.t <= y.t
  }

  ghost predicate Recorded(pts: seq<OperatingPoint>, x: OperatingPoint) {
    x == ORIGIN || x in pts
  }

  /** TimeFor is a lower bound, and it is attained. */
  lemma {:induction false} TimeForBounds(pts: seq<OperatingPoint>, p: real)
    requires Timed(pts)
    ensures 0.0 <= TimeFor(pts, p) <= NEVER
    ensures p <= 0.0 ==> TimeFor(pts, p) == 0.0
    ensures forall i :: 0 <= i < |pts| && pts[i].perf >= p ==> TimeFor(pts, p) <= pts[i].t
    ensures TimeFor(pts, p) < NEVER ==>
      exists x :: Recorded(pts, x) && x.perf >= p && x.t == TimeFor(pts, p)
  {
    if pts == [] {
      if p <= 0.0 {
        assert Recorded(pts, ORIGIN);
      }
    } else {
      var n := |pts| - 1;
      TimeForBounds(pts[..n], p);
      if TimeFor(pts, p) < NEVER {
        if pts[n].perf >= p && pts[n].t < TimeFor(pts[..n], p) {
          assert Recorded(pts, pts[n]);
        } else {
          var x :| Recorded(pts[..n], x) && x.perf >= p && x.t == TimeFor(pts[..n], p);
          assert Recorded(pts, x);
        }
      }
    }
  }

  /** A value that bounds the points from below and is attained is their time. */
  lemma TimeForUnique(pts: seq<OperatingPoint>, p: real, v: real)
    requires Timed(pts) && 0.0 <= v <= NEVER
    requires forall x :: Recorded(pts, x) && x.perf >= p ==> v <= x.t
    requires v < NEVER ==> exists x :: Recorded(pts, x) && x.perf >= p && x.t == v
    ensures v == TimeFor(pts, p)
  {
    TimeForBounds(pts, p);
    var w := TimeFor(pts, p);
    if w < NEVER {
      var x :| Recorded(pts, x) && x.perf >= p && x.t == w;
      assert v <= x.t;
    }
    if v < NEVER {
      var x :| Recorded(pts, x) && x.perf >= p && x.t == v;
      if x != ORIGIN {
        var i :| 0 <= i < |pts| && pts[i] == x;
      }
      assert w <= v;
    }
  }

  lemma {:induction false} TimeForConcat(a: seq<OperatingPoint>, b: seq<OperatingPoint>, p: real)
    requires Timed(a) && Timed(b)
    ensures TimeFor(a + b, p) == if TimeFor(a, p) < TimeFor(b, p) then TimeFor(a, p) else TimeFor(b, p)
  {
    if b == [] {
      assert a + b == a;
      TimeForBounds(a, p);
    } else {
      var n := |b| - 1;
      TimeForConcat(a, b[..n], p);
      assert (a + b)[..|a + b| - 1] == a + b[..n];
    }
  }

  /** The time only depends on which points there are, neither on their order nor on repetitions. */
  lemma TimeForSameMembers(a: seq<OperatingPoint>, b: seq<OperatingPoint>, p: real)
    requires Timed(a) && Timed(b) && forall x :: x in a <==> x in b
    ensures TimeFor(a, p) == TimeFor(b, p)
  {
    TimeForBounds(a, p);
    forall x | Recorded(b, x) && x.perf >= p
      ensures TimeFor(a, p) <= x.t
    {
      if x != ORIGIN {
        assert x in a;
      }
    }
    TimeForUnique(b, p, TimeFor(a, p));
  }

  /** Asking for more performance never takes less time. */
  lemma {:induction false} TimeForMonotone(pts: seq<OperatingPoint>, p: real, q: real)
    requires Timed(pts) && p <= q
    ensures TimeFor(pts, p) <= TimeFor(pts, q)
  {
    if pts != [] {
      TimeForMonotone(pts[..|pts| - 1], p, q);
    }
  }

  /** The front: strictly more performance takes at least as much time, and it starts at the origin. */
  ghost predicate Front(a: seq<OperatingPoint>) {
    && a != [] && a[0] == ORIGIN
    && (forall i, j :: 0 <= i < j < |a| ==> a[i].perf < a[j].perf && a[i].t <= a[j].t)
  }

  ghost predicate DominatedIn(a: seq<OperatingPoint>, x: OperatingPoint) {
    exists i :: 0 <= i < |a| && Dominates(a[i], x)
  }

  lemma Dominator(a: seq<OperatingPoint>, x: OperatingPoint) returns (i: nat)
    requires DominatedIn(a, x)
    ensures i < |a| && Dominates(a[i], x)
  {
    i :| i < |a| && Dominates(a[i], x);
  }

  /** The front consists of recorded points and every recorded point is dominated by one of them. */
  ghost predicate Covers(a: seq<OperatingPoint>, pts: seq<OperatingPoint>) {
    && (forall i :: 0 <= i < |a| ==> Recorded(pts, a[i]))
    && (forall x :: Recorded(pts, x) ==> DominatedIn(a, x))
  }

  /** Number of points below performance p. */
  function Below(a: seq<OperatingPoint>, p: real): (k: nat)
    ensures k <= |a| && (forall i :: 0 <= i < k ==> a[i].perf < p) && (k < |a| ==> a[k].perf >= p)
  {
    if a == [] || a[0].perf >= p then 0 else 1 + Below(a[1..], p)
  }

  lemma FrontAt(a: seq<OperatingPoint>, i: nat, j: nat)
    requires Front(a) && i < j < |a|
    ensures a[i].perf < a[j].perf && a[i].t <= a[j].t
  {
  }

  lemma FrontStarts(a: seq<OperatingPoint>)
    requires Front(a)
    ensures |a| > 0 && a[0] == ORIGIN
  {
  }

  /** The bisection and the scan look for the same place. */
  lemma BelowAt(a: seq<OperatingPoint>, k: nat, p: real)
    requires Front(a) && k < |a| && a[k].perf >= p && (k > 0 ==> a[k - 1].perf < p)
    ensures Below(a, p) == k
  {
    hide Front;
    var n := Below(a, p);
    if n + 1 < k {
      FrontAt(a, n, k - 1);
    }
  }

  lemma TimedSnoc(pts: seq<OperatingPoint>, op: OperatingPoint)
    requires Timed(pts) && 0.0 <= op.t < NEVER
    ensures Timed(pts + [op])
  {
  }

  /** The points with a prefix on their keys. */
  function Renamed(pts: seq<OperatingPoint>, prefix: string): seq<OperatingPoint> {
    seq(|pts|, i requires 0 <= i < |pts| => pts[i].(key := prefix + pts[i].key))
  }

  /** Keys do not matter for the time. */
  lemma {:induction false} RenamedTakesSame(pts: seq<OperatingPoint>, more: seq<OperatingPoint>,
                                            prefix: string, p: real)
    ensures TimeFor(pts + Renamed(more, prefix), p) == TimeFor(pts + more, p)
  {
    if more == [] {
      assert pts + Renamed(more, prefix) == pts + more;
    } else {
      var n := |more| - 1;
      RenamedTakesSame(pts, more[..n], prefix, p);
      assert (pts + more)[..|pts + more| - 1] == pts + more[..n];
      var all := pts + Renamed(more, prefix);
      assert all[..|all| - 1] == pts + Renamed(more[..n], prefix);
    }
  }

  lemma TimedAt(pts: seq<OperatingPoint>, i: nat)
    requires Timed(pts) && i < |pts|
    ensures 0.0 <= pts[i].t < NEVER
  {
  }

  /** How many of the new points are faster, when they come, than what reaches their performance. */
  ghost function OptimalCount(pts: seq<OperatingPoint>, more: seq<OperatingPoint>): nat {
    if more == [] then 0
    else
      var n := |more| - 1;
      var op := more[n];
      OptimalCount(pts, more[..n]) +
      if op.perf != 0.0 && op.t < TimeFor(pts + more[..n], op.perf) then 1 else 0
  }

  lemma NothingRenamed(pts: seq<OperatingPoint>, prefix: string)
    ensures Renamed([], prefix) == [] && pts + Renamed([], prefix) == pts && OptimalCount(pts, []) == 0
  {
  }

  /** One more point renamed and counted. */
  lemma RenamedSnoc(pts: seq<OperatingPoint>, more: seq<OperatingPoint>, prefix: string, i: nat)
    requires i < |more|
    ensures Renamed(more[..i + 1], prefix) == Renamed(more[..i], prefix) + [more[i].(key := prefix + more[i].key)]
    ensures OptimalCount(pts, more[..i + 1]) == OptimalCount(pts, more[..i]) +
      if more[i].perf != 0.0 && more[i].t < TimeFor(pts + Renamed(more[..i], prefix), more[i].perf) then 1 else 0
  {
    RenamedTakesSame(pts, more[..i], prefix, more[i].perf);
    hide TimeFor;
    assert more[..i + 1][..i] == more[..i];
  }

  lemma PastTheEnd(a: seq<OperatingPoint>, p: real)
    requires Front(a) && a[|a| - 1].perf < p
    ensures FrontTime(a, p) == NEVER && Below(a, p) == Above(a, p) == |a|
  {
    hide Front;
    if Below(a, p) < |a| - 1 {
      FrontAt(a, Below(a, p), |a| - 1);
    }
  }

  /** How many of the first k points stay in front of a new point that takes time t. */
  function Staying(a: seq<OperatingPoint>, k: nat, t: real): (m: nat)
    requires k <= |a|
    ensures m <= k && (m > 0 ==> a[m - 1].t <= t) && forall i :: m <= i < k ==> a[i].t > t
  {
    if k == 0 || a[k - 1].t <= t then k else Staying(a, k - 1, t)
  }

  /** The time the front gives for a performance. */
  function FrontTime(a: seq<OperatingPoint>, p: real): real {
    var k := Below(a, p);
    if k < |a| then a[k].t else NEVER
  }

  /** The first point of the front that a new point of performance p leaves behind it. */
  function Above(a: seq<OperatingPoint>, p: real): (n: nat)
    ensures n <= |a|
  {
    var k := Below(a, p);
    if k < |a| && a[k].perf == p then k + 1 else k
  }

  predicate Improves(a: seq<OperatingPoint>, op: OperatingPoint) {
    op.perf != 0.0 && op.t < FrontTime(a, op.perf)
  }

  /** The front after a new point: the point is left out unless it is faster than what reaches its
      performance; otherwise it takes its place, and the slower points below it go. */
  function Insert(a: seq<OperatingPoint>, op: OperatingPoint): seq<OperatingPoint> {
    if !Improves(a, op) then a
    else a[..Staying(a, Below(a, op.perf), op.t)] + [op] + a[Above(a, op.perf)..]
  }

  lemma FrontGivesTime(a: seq<OperatingPoint>, pts: seq<OperatingPoint>, p: real)
    requires Front(a) && Covers(a, pts) && Timed(pts)
    ensures FrontTime(a, p) == TimeFor(pts, p)
  {
    hide DominatedIn;
    var k, v := Below(a, p), FrontTime(a, p);
    if k < |a| {
      assert Recorded(pts, a[k]);
    }
    forall x | Recorded(pts, x) && x.perf >= p
      ensures v <= x.t
    {
      var i := Dominator(a, x);
      assert k <= i;
    }
    assert 0.0 <= v <= NEVER by {
      if k < |a| && a[k] != ORIGIN {
        var i :| 0 <= i < |pts| && pts[i] == a[k];
      }
    }
    TimeForUnique(pts, p, v);
  }

  /** Where a new point goes: everything before lo is worse and not slower, everything from hi on is
      better and not faster, and the point beats all that lies between. */
  ghost predicate Gap(a: seq<OperatingPoint>, lo: nat, hi: nat, op: OperatingPoint) {
    && 0 < lo <= hi <= |a|
    && a[lo - 1].perf < op.perf && a[lo - 1].t <= op.t
    && (hi < |a| ==> a[hi].perf > op.perf && a[hi].t >= op.t)
    && forall i :: lo <= i < hi ==> Dominates(op, a[i])
  }

  lemma InsertGap(a: seq<OperatingPoint>, op: OperatingPoint) returns (lo: nat, hi: nat)
    requires Front(a) && op.t >= 0.0 && Improves(a, op)
    ensures Gap(a, lo, hi, op) && Insert(a, op) == a[..lo] + [op] + a[hi..]
  {
    var k := Below(a, op.perf);
    assert k > 0;
    lo, hi := Staying(a, k, op.t), Above(a, op.perf);
    assert lo > 0;
  }

  lemma GapKeepsFront(a: seq<OperatingPoint>, lo: nat, hi: nat, op: OperatingPoint)
    requires Front(a) && Gap(a, lo, hi, op)
    ensures Front(a[..lo] + [op] + a[hi..])
  {
    var b := a[..lo] + [op] + a[hi..];
    hide Dominates;
    forall i, j | 0 <= i < j < |b|
      ensures b[i].perf < b[j].perf && b[i].t <= b[j].t
    {
      if i < lo {
        assert b[i] == a[i] && (i < lo - 1 ==> a[i].perf < a[lo - 1].perf && a[i].t <= a[lo - 1].t);
      } else if i > lo {
        assert b[i] == a[i - lo - 1 + hi];
      }
      if j > lo {
        var n := j - lo - 1 + hi;
        assert b[j] == a[n] && (hi < n ==> a[hi].perf < a[n].perf && a[hi].t <= a[n].t);
      } else if j < lo {
        assert b[j] == a[j];
      }
    }
  }

  lemma GapDominates(a: seq<OperatingPoint>, lo: nat, hi: nat, op: OperatingPoint, x: OperatingPoint)
    requires Gap(a, lo, hi, op) && DominatedIn(a, x)
    ensures DominatedIn(a[..lo] + [op] + a[hi..], x)
  {
    var i := Dominator(a, x);
    var b := a[..lo] + [op] + a[hi..];
    if i < lo {
      assert Dominates(b[i], x);
    } else if i < hi {
      assert b[lo] == op && Dominates(b[lo], x);
    } else {
      assert b[i - hi + lo + 1] == a[i];
    }
  }

  lemma GapPoints(a: seq<OperatingPoint>, lo: nat, hi: nat, op: OperatingPoint, i: nat)
    requires lo <= hi <= |a| && i < |a[..lo] + [op] + a[hi..]|
    ensures var x := (a[..lo] + [op] + a[hi..])[i]; x == op || exists j: nat :: j < |a| && x == a[j]
  {
    if i < lo {
      assert (a[..lo] + [op] + a[hi..])[i] == a[i];
    } else if i > lo {
      assert (a[..lo] + [op] + a[hi..])[i] == a[i - lo - 1 + hi];
    }
  }

  lemma GapKeepsCover(a: seq<OperatingPoint>, lo: nat, hi: nat, op: OperatingPoint, pts: seq<OperatingPoint>)
    requires Gap(a, lo, hi, op) && Covers(a, pts)
    ensures Covers(a[..lo] + [op] + a[hi..], pts + [op])
  {
    var b := a[..lo] + [op] + a[hi..];
    assert DominatedIn(b, op) by {
      assert b[lo] == op && Dominates(b[lo], op);
    }
    assert lo <= hi <= |a|;
    hide DominatedIn, Gap, Dominates;
    forall x | Recorded(pts + [op], x)
      ensures DominatedIn(b, x)
    {
      if x != op {
        assert Recorded(pts, x);
        GapDominates(a, lo, hi, op, x);
      }
    }
    forall i | 0 <= i < |b|
      ensures Recorded(pts + [op], b[i])
    {
      GapPoints(a, lo, hi, op, i);
      if b[i] != op {
        var j: nat :| j < |a| && b[i] == a[j];
        assert Recorded(pts, a[j]);
      }
    }
  }

  /** A front can keep a point that another one dominates: exactly when the next one is as fast. */
  lemma DominatedIffEqualTimes(a: seq<OperatingPoint>, i: nat)
    requires Front(a) && i < |a|
    ensures (exists j :: 0 <= j < |a| && j != i && Dominates(a[j], a[i])) <==> i + 1 < |a| && a[i + 1].t == a[i].t
  {
    if i + 1 < |a| && a[i + 1].t == a[i].t {
      assert Dominates(a[i + 1], a[i]);
    }
  }

  lemma EqualTimesAreKept()
    ensures var x, y := OperatingPoint(0.5, 1.0, "x", 0), OperatingPoint(0.8, 1.0, "y", 1);
      Insert(Insert([ORIGIN], x), y) == [ORIGIN, x, y] && Dominates(y, x)
  {
    var x, y := OperatingPoint(0.5, 1.0, "x", 0), OperatingPoint(0.8, 1.0, "y", 1);
    assert Below([ORIGIN], 0.5) == 1 && Staying([ORIGIN], 1, 1.0) == 1;
    var a := Insert([ORIGIN], x);
    assert a == [ORIGIN, x];
    assert a[1..] == [x] && Below([x], 0.8) == 1;
    assert Below(a, 0.8) == 2 && Staying(a, 2, 1.0) == 2;
  }

  lemma DominatedKeepsCover(a: seq<OperatingPoint>, op: OperatingPoint, pts: seq<OperatingPoint>)
    requires Covers(a, pts) && DominatedIn(a, op)
    ensures Covers(a, pts + [op])
  {
    hide DominatedIn;
    forall x | Recorded(pts + [op], x)
      ensures DominatedIn(a, x)
    {
      assert x == op || Recorded(pts, x);
    }
  }

  lemma RejectedIsDominated(a: seq<OperatingPoint>, op: OperatingPoint)
    requires Front(a) && 0.0 <= op.t < NEVER && !Improves(a, op)
    ensures DominatedIn(a, op)
  {
    assert Dominates(a[if op.perf == 0.0 then 0 else Below(a, op.perf)], op);
  }

  /** Inserting keeps the front a front of all points recorded. */
  lemma InsertKeepsFront(a: seq<OperatingPoint>, pts: seq<OperatingPoint>, op: OperatingPoint)
    requires Front(a) && Covers(a, pts) && 0.0 <= op.t < NEVER
    ensures Front(Insert(a, op)) && Covers(Insert(a, op), pts + [op])
  {
    if Improves(a, op) {
      var lo, hi := InsertGap(a, op);
      GapKeepsFront(a, lo, hi, op);
      GapKeepsCover(a, lo, hi, op, pts);
    } else {
      RejectedIsDominated(a, op);
      DominatedKeepsCover(a, op, pts);
    }
  }

  /** What the sweep sees at index i of the list: it goes on past the new point, erases before it, and
      then only meets the old front. */
  lemma SweepPair(a: seq<OperatingPoint>, j: nat, h: nat, op: OperatingPoint, i: nat)
    requires Front(a) && 0 < j <= h <= |a| && (h < |a| ==> op.t <= a[h].t)
    requires 0 < i < |a[..j] + [op] + a[h..]|
    ensures var b := a[..j] + [op] + a[h..];
      b[i].t < b[i - 1].t <==> i == j && op.t < a[j - 1].t
  {
    var b := a[..j] + [op] + a[h..];
    if i < j {
      FrontAt(a, i - 1, i);
    } else if i > j + 1 {
      FrontAt(a, h + i - j - 2, h + i - j - 1);
    }
  }

  lemma SweepStarts(a: seq<OperatingPoint>, op: OperatingPoint)
    requires Front(a) && op.t >= 0.0 && Improves(a, op)
    ensures
      var j, h := Below(a, op.perf), Above(a, op.perf);
      var m := Staying(a, j, op.t);
      0 < m <= j <= h <= |a| && (h < |a| ==> op.t <= a[h].t) && Insert(a, op) == a[..m] + [op] + a[h..]
  {
    assert Below(a, op.perf) > 0;
    assert Staying(a, Below(a, op.perf), op.t) > 0;
    hide Below, Staying;
  }

  lemma EraseBefore(a: seq<OperatingPoint>, j: nat, h: nat, op: OperatingPoint)
    requires 0 < j <= h <= |a|
    ensures var b := a[..j] + [op] + a[h..];
      b[..j - 1] + b[j..] == a[..j - 1] + [op] + a[h..]
    ensures op.t < a[j - 1].t ==> Staying(a, j, op.t) == Staying(a, j - 1, op.t)
    ensures op.t >= a[j - 1].t ==> Staying(a, j, op.t) == j
  {
  }

  /** What add does, step by step: the branches on the last point of the front, then the sweep that
      erases slower points. */
  class OperatingPoints {
    var all_pts: seq<OperatingPoint>
    var optimal_pts: seq<OperatingPoint>

    ghost predicate Valid()
      reads this
    {
      Timed(all_pts) && Front(optimal_pts) && Covers(optimal_pts, all_pts)
    }

    constructor ()
      ensures Valid() && all_pts == [] && optimal_pts == [ORIGIN]
    {
      all_pts, optimal_pts := [], [ORIGIN];
      new;
      assert Dominates(optimal_pts[0], ORIGIN);
    }

    /** The new point counts as optimal exactly when nothing recorded reaches its performance as fast. */
    method Add(perf: real, t: real, key: string, cno: int) returns (kept: bool)
      requires Valid() && 0.0 <= t < NEVER
      modifies this
      ensures Valid()
      ensures all_pts == old(all_pts) + [OperatingPoint(perf, t, key, cno)]
      ensures optimal_pts == Insert(old(optimal_pts), OperatingPoint(perf, t, key, cno))
      ensures kept <==> perf != 0.0 && t < TimeFor(old(all_pts), perf)
    {
      var op := OperatingPoint(perf, t, key, cno);
      InsertKeepsFront(optimal_pts, all_pts, op);
      FrontGivesTime(optimal_pts, all_pts, perf);
      TimedSnoc(all_pts, op);
      ghost var a := optimal_pts;
      hide Covers, TimeFor, Timed, Front, FrontTime;
      all_pts := all_pts + [op];
      if perf == 0.0 {
        return false;
      }
      kept := Place(op);
      if kept {
        RemoveSlower(a, op);
      }
    }

    /** Where the point goes, if it goes anywhere. */
    method Place(op: OperatingPoint) returns (placed: bool)
      requires Front(optimal_pts) && op.perf != 0.0 && op.t < NEVER
      modifies this`optimal_pts
      ensures placed <==> Improves(old(optimal_pts), op)
      ensures placed ==>
        optimal_pts == old(optimal_pts[..Below(optimal_pts, op.perf)] + [op] + optimal_pts[Above(optimal_pts, op.perf)..])
      ensures !placed ==> optimal_pts == old(optimal_pts)
    {
      FrontStarts(optimal_pts);
      var last := |optimal_pts| - 1;
      if op.perf > optimal_pts[last].perf {
        PastTheEnd(optimal_pts, op.perf);
        hide *;
        optimal_pts := optimal_pts + [op];
        return true;
      } else if op.perf == optimal_pts[last].perf {
        assert last > 0 ==> optimal_pts[last - 1].perf < op.perf by {
          if last > 0 {
            FrontAt(optimal_pts, last - 1, last);
          }
        }
        BelowAt(optimal_pts, last, op.perf);
        hide Front, Below;
        if op.t >= optimal_pts[last].t {
          return false;
        }
        optimal_pts := optimal_pts[last := op];
        return true;
      } else {
        var i := FirstReaching(op.perf);
        hide Front, Below;
        if op.t >= optimal_pts[i].t {
          return false;
        }
        if optimal_pts[i].perf == op.perf {
          optimal_pts := optimal_pts[i := op];
        } else {
          optimal_pts := optimal_pts[..i] + [op] + optimal_pts[i..];
        }
        return true;
      }
    }

    method FirstReaching(perf: real) returns (i: nat)
      requires Front(optimal_pts) && optimal_pts != [] && optimal_pts[|optimal_pts| - 1].perf >= perf
      ensures i == Below(optimal_pts, perf) < |optimal_pts|
    {
      hide Front, Below;
      i := 0;
      while optimal_pts[i].perf < perf
        invariant i < |optimal_pts| && (i > 0 ==> optimal_pts[i - 1].perf < perf)
        decreases |optimal_pts| - i
      {
        i := i + 1;
      }
      BelowAt(optimal_pts, i, perf);
    }

    /** The sweep from the back erases every point before the new one that is slower than it. */
    method RemoveSlower(ghost a: seq<OperatingPoint>, ghost op: OperatingPoint)
      requires Front(a) && op.t >= 0.0 && Improves(a, op)
      requires optimal_pts == a[..Below(a, op.perf)] + [op] + a[Above(a, op.perf)..]
      modifies this`optimal_pts
      ensures optimal_pts == Insert(a, op)
    {
      hide *;
      SweepStarts(a, op);
      ghost var j, h := Below(a, op.perf), Above(a, op.perf);
      ghost var m := Staying(a, j, op.t);
      var i := |optimal_pts| - 1;
      while i > 0
        invariant 0 <= i < |optimal_pts| && 0 < m <= j <= h <= |a|
        invariant optimal_pts == a[..j] + [op] + a[h..]
        invariant m == Staying(a, j, op.t) && (i < j ==> j == m)
      {
        SweepPair(a, j, h, op, i);
        if optimal_pts[i].t < optimal_pts[i - 1].t {
          EraseBefore(a, j, h, op);
          optimal_pts := optimal_pts[..i - 1] + optimal_pts[i..];
          j := j - 1;
        }
        i := i - 1;
      }
    }

    /** The least recorded time for a performance. */
    method TForPerf(perf: real) returns (t: real)
      requires Valid()
      ensures t == TimeFor(all_pts, perf)
    {
      FrontGivesTime(optimal_pts, all_pts, perf);
      FrontStarts(optimal_pts);
      hide Covers, TimeFor, Timed, Front, Below;
      if perf > optimal_pts[|optimal_pts| - 1].perf {
        PastTheEnd(optimal_pts, perf);
        return NEVER;
      }
      var i := Bisect(perf);
      return optimal_pts[i].t;
    }

    method Bisect(perf: real) returns (i1: int)
      requires Front(optimal_pts) && optimal_pts != [] && optimal_pts[|optimal_pts| - 1].perf >= perf
      ensures i1 == Below(optimal_pts, perf) < |optimal_pts|
    {
      hide Front, Below;
      var i0 := -1;
      i1 := |optimal_pts| - 1;
      while i0 + 1 < i1
        invariant -1 <= i0 < i1 < |optimal_pts|
        invariant i0 >= 0 ==> optimal_pts[i0].perf < perf
        invariant optimal_pts[i1].perf >= perf
        decreases i1 - i0
      {
        var imed := (i0 + i1 + 1) / 2;
        if optimal_pts[imed].perf < perf {
          i0 := imed;
        } else {
          i1 := imed;
        }
      }
      BelowAt(optimal_pts, i1, perf);
    }

    /** Merging records every point of the other set, in its order, and counts the optimal ones. */
    method MergeWith(other: OperatingPoints, prefix: string) returns (added: nat)
      requires other != this && Valid() && Timed(other.all_pts)
      modifies this
      ensures Valid() && all_pts == old(all_pts) + Renamed(other.all_pts, prefix)
      ensures added == OptimalCount(old(all_pts), other.all_pts)
    {
      hide *;
      added := 0;
      ghost var start := all_pts;
      var i := 0;
      NothingRenamed(start, prefix);
      assert other.all_pts[..0] == [];
      while i < |other.all_pts|
        invariant 0 <= i <= |other.all_pts| && Valid()
        invariant all_pts == start + Renamed(other.all_pts[..i], prefix)
        invariant added == OptimalCount(start, other.all_pts[..i])
      {
        var op := other.all_pts[i];
        RenamedSnoc(start, other.all_pts, prefix, i);
        TimedAt(other.all_pts, i);
        var kept := Add(op.perf, op.t, prefix + op.key, op.cno);
        added := if kept then added + 1 else added;
        i := i + 1;
      }
      assert other.all_pts[..i] == other.all_pts;
    }
  }
}
