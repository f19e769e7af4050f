/**
 Pruned exploration of the parameter combinations (faiss/AutoTune.cpp, ParameterSpace::explore, and
 rand_perm in faiss/utils/random.cpp). What an experiment yields is a function of its number, and the
 random generator is a sequence of draws.
 */
module Exploration {

  import opened Combinations
  import opened OperatingPointSets

  datatype Trials = Trials(perf: nat -> real, t: nat -> real, key: nat -> string)

  function Outcome(trials: Trials, c: nat): OperatingPoint {
    OperatingPoint(trials.perf(c), trials.t(c), trials.key(c), c)
  }

  ghost predicate Clocked(trials: Trials, n: nat) {
    forall c: nat :: c < n ==> 0.0 <= trials.t(c) < NEVER
  }

  /** Points whose number is one that update_bounds can compare. */
  ghost predicate Numbered(pts: seq<OperatingPoint>) {
    forall i :: 0 <= i < |pts| ==> pts[i].cno >= 0
  }

  /** Time known to be needed by c: the largest time of a combination below it. */
  ghost function LowerT(sizes: seq<nat>, pts: seq<OperatingPoint>, c: nat): real
    requires Positive(sizes) && Numbered(pts)
  {
    if pts == [] then 0.0
    else
      var n := |pts| - 1;
      var rest := LowerT(sizes, pts[..n], c);
      if Ge(sizes, c, pts[n].cno) && pts[n].t > rest then pts[n].t else rest
  }

  /** Performance c cannot exceed: the least performance of a combination above it. */
  ghost function UpperPerf(sizes: seq<nat>, pts: seq<OperatingPoint>, c: nat): real
    requires Positive(sizes) && Numbered(pts)
  {
    if pts == [] then 1.0
    else
      var n := |pts| - 1;
      var rest := UpperPerf(sizes, pts[..n], c);
      if Ge(sizes, pts[n].cno, c) && pts[n].perf < rest then pts[n].perf else rest
  }

  /** Something at least as good as c can be is known to be as fast as c can be. */
  ghost predicate Skips(sizes: seq<nat>, pts: seq<OperatingPoint>, c: nat)
    requires Positive(sizes) && Numbered(pts)
  {
    TimeFor(pts, UpperPerf(sizes, pts, c)) <= LowerT(sizes, pts, c)
  }

  /** Nothing that c could yield within these bounds would change the time of any performance. */
  ghost predicate CannotHelp(pts: seq<OperatingPoint>, upper: real, lower: real) {
    forall op: OperatingPoint, p: real :: op.perf <= upper && lower <= op.t < NEVER ==>
      TimeFor(pts + [op], p) == TimeFor(pts, p)
  }

  lemma CannotHelpIff(pts: seq<OperatingPoint>, upper: real, lower: real)
    requires Timed(pts) && lower < NEVER
    ensures TimeFor(pts, upper) <= lower <==> CannotHelp(pts, upper, lower)
  {
    hide Timed, TimeFor;
    if TimeFor(pts, upper) <= lower {
      forall op: OperatingPoint, p: real | op.perf <= upper && lower <= op.t < NEVER
        ensures TimeFor(pts + [op], p) == TimeFor(pts, p)
      {
        TimeForSnoc(pts, op, p);
        if p <= upper {
          TimeForMonotone(pts, p, upper);
        }
      }
    } else {
      var op := OperatingPoint(upper, lower, "", 0);
      TimeForSnoc(pts, op, upper);
      assert TimeFor(pts + [op], upper) != TimeFor(pts, upper);
    }
  }

  lemma {:induction false} LowerTIsATime(sizes: seq<nat>, pts: seq<OperatingPoint>, c: nat)
    requires Positive(sizes) && Numbered(pts) && Timed(pts)
    ensures LowerT(sizes, pts, c) < NEVER
  {
    hide Ge;
    if pts != [] {
      LowerTIsATime(sizes, pts[..|pts| - 1], c);
    }
  }

  /** An experiment is skipped exactly when nothing it could yield within its bounds would help. */
  lemma SkipIff(sizes: seq<nat>, pts: seq<OperatingPoint>, c: nat)
    requires Positive(sizes) && Numbered(pts) && Timed(pts)
    ensures Skips(sizes, pts, c) <==> CannotHelp(pts, UpperPerf(sizes, pts, c), LowerT(sizes, pts, c))
  {
    LowerTIsATime(sizes, pts, c);
    hide UpperPerf, LowerT, CannotHelp, Timed;
    CannotHelpIff(pts, UpperPerf(sizes, pts, c), LowerT(sizes, pts, c));
  }

  /** All points recorded after running the experiments in this order, skipping where the bounds allow. */
  ghost function Explored(sizes: seq<nat>, trials: Trials, pts: seq<OperatingPoint>, order: seq<nat>):
    (all: seq<OperatingPoint>)
    requires Positive(sizes) && Numbered(pts)
    ensures Numbered(all)
  {
    if order == [] then pts
    else
      var n := |order| - 1;
      var done := Explored(sizes, trials, pts, order[..n]);
      if Skips(sizes, done, order[n]) then done else done + [Outcome(trials, order[n])]
  }

  /** The outcomes of all experiments in this order. */
  function Outcomes(trials: Trials, order: seq<nat>): seq<OperatingPoint> {
    if order == [] then [] else Outcomes(trials, order[..|order| - 1]) + [Outcome(trials, order[|order| - 1])]
  }

  /** More expensive parameter values are neither faster nor less accurate. */
  ghost predicate Monotone(sizes: seq<nat>, trials: Trials)
    requires Positive(sizes)
  {
    forall c: nat, d: nat :: c < Product(sizes) && d < Product(sizes) && Ge(sizes, c, d) ==>
      trials.perf(c) >= trials.perf(d) && trials.t(c) >= trials.t(d)
  }

  ghost predicate AtMostOne(sizes: seq<nat>, trials: Trials) {
    forall c: nat :: c < Product(sizes) ==> trials.perf(c) <= 1.0
  }

  /** Points that are outcomes of these trials (a fresh record has none). */
  ghost predicate Measured(sizes: seq<nat>, trials: Trials, pts: seq<OperatingPoint>) {
    forall i :: 0 <= i < |pts| ==>
      0 <= pts[i].cno < Product(sizes) && pts[i].perf == trials.perf(pts[i].cno) && pts[i].t == trials.t(pts[i].cno)
  }

  /** The bounds are bounds. */
  lemma {:induction false} BoundsHold(sizes: seq<nat>, trials: Trials, pts: seq<OperatingPoint>, c: nat)
    requires Positive(sizes) && Monotone(sizes, trials) && AtMostOne(sizes, trials)
    requires Measured(sizes, trials, pts) && Clocked(trials, Product(sizes)) && c < Product(sizes)
    ensures Numbered(pts)
    ensures trials.perf(c) <= UpperPerf(sizes, pts, c) && LowerT(sizes, pts, c) <= trials.t(c)
  {
    hide Ge;
    if pts != [] {
      BoundsHold(sizes, trials, pts[..|pts| - 1], c);
    }
  }

  lemma {:induction false} ExploredIsMeasured(sizes: seq<nat>, trials: Trials, pts: seq<OperatingPoint>, order: seq<nat>)
    requires Positive(sizes) && Numbered(pts) && Measured(sizes, trials, pts)
    requires forall i :: 0 <= i < |order| ==> order[i] < Product(sizes)
    ensures Measured(sizes, trials, Explored(sizes, trials, pts, order))
  {
    hide Skips;
    if order != [] {
      ExploredIsMeasured(sizes, trials, pts, order[..|order| - 1]);
    }
  }

  lemma MeasuredIsTimed(sizes: seq<nat>, trials: Trials, pts: seq<OperatingPoint>)
    requires Measured(sizes, trials, pts) && Clocked(trials, Product(sizes))
    ensures Timed(pts)
  {
  }

  lemma {:induction false} OutcomesPointwise(trials: Trials, order: seq<nat>)
    ensures |Outcomes(trials, order)| == |order|
    ensures forall i :: 0 <= i < |order| ==> Outcomes(trials, order)[i] == Outcome(trials, order[i])
  {
    if order != [] {
      OutcomesPointwise(trials, order[..|order| - 1]);
    }
  }

  lemma OutcomesAreMeasured(sizes: seq<nat>, trials: Trials, order: seq<nat>)
    requires forall i :: 0 <= i < |order| ==> order[i] < Product(sizes)
    ensures Measured(sizes, trials, Outcomes(trials, order))
  {
    OutcomesPointwise(trials, order);
    hide Outcomes, Product;
  }

  /** A skipped experiment would not have changed any answer. */
  lemma SkipLosesNothing(sizes: seq<nat>, trials: Trials, pts: seq<OperatingPoint>, c: nat, p: real)
    requires Positive(sizes) && Monotone(sizes, trials) && AtMostOne(sizes, trials)
    requires Measured(sizes, trials, pts) && Clocked(trials, Product(sizes)) && c < Product(sizes)
    requires Numbered(pts) && Skips(sizes, pts, c)
    ensures TimeFor(pts + [Outcome(trials, c)], p) == TimeFor(pts, p)
  {
    BoundsHold(sizes, trials, pts, c);
    MeasuredIsTimed(sizes, trials, pts);
    var upper := UpperPerf(sizes, pts, c);
    if p <= trials.perf(c) {
      TimeForMonotone(pts, p, upper);
    }
    assert (pts + [Outcome(trials, c)])[..|pts|] == pts;
  }

  lemma TimeForSnoc(pts: seq<OperatingPoint>, op: OperatingPoint, p: real)
    ensures TimeFor(pts + [op], p) == if op.perf >= p && op.t < TimeFor(pts, p) then op.t else TimeFor(pts, p)
  {
    assert (pts + [op])[..|pts|] == pts;
  }

  // When pruning is safe.

  /** The number -1 stands for no experiment: its performance and time are those of the origin. */
  function PerfOf(trials: Trials, e: int): real {
    if e < 0 then 0.0 else trials.perf(e)
  }

  function TOf(trials: Trials, e: int): real {
    if e < 0 then 0.0 else trials.t(e)
  }

  /** The bound on performance that one recorded experiment gives. */
  function UpperFrom(trials: Trials, a: int): real {
    if a >= 0 && trials.perf(a) < 1.0 then trials.perf(a) else 1.0
  }

  /** Once a, b and d have been recorded, c is skipped: a is above it, b below it, and d reaches what a lets it
      reach as fast as b lets it be. */
  predicate MakeSkip(sizes: seq<nat>, trials: Trials, c: nat, a: int, b: int, d: int)
    requires Positive(sizes)
  {
    && (a >= 0 ==> Ge(sizes, a, c)) && (b >= 0 ==> Ge(sizes, c, b))
    && PerfOf(trials, d) >= UpperFrom(trials, a) && TOf(trials, d) <= TOf(trials, b)
  }

  predicate AsGood(trials: Trials, e: int, c: nat) {
    PerfOf(trials, e) >= trials.perf(c) && TOf(trials, e) <= trials.t(c)
  }

  /** Whatever makes an experiment be skipped is as good as the experiment, or doing nothing is. */
  predicate Safe(sizes: seq<nat>, trials: Trials)
    requires Positive(sizes)
  {
    forall c: nat, a: int, b: int, d: int ::
      c < Product(sizes) && -1 <= a < Product(sizes) && -1 <= b < Product(sizes) && -1 <= d < Product(sizes) &&
      MakeSkip(sizes, trials, c, a, b, d) ==>
        AsGood(trials, -1, c) || AsGood(trials, a, c) || AsGood(trials, b, c) || AsGood(trials, d, c)
  }

  ghost predicate SameTimes(a: seq<OperatingPoint>, b: seq<OperatingPoint>) {
    forall p :: TimeFor(a, p) == TimeFor(b, p)
  }

  predicate AreExperiments(sizes: seq<nat>, order: seq<nat>) {
    forall i :: 0 <= i < |order| ==> order[i] < Product(sizes)
  }

  /** On any record of these trials and for any order, the pruned run answers as the full one does. */
  ghost predicate NeverLoses(sizes: seq<nat>, trials: Trials)
    requires Positive(sizes)
  {
    forall pts: seq<OperatingPoint>, order: seq<nat> ::
      Numbered(pts) && Measured(sizes, trials, pts) && AreExperiments(sizes, order) ==>
        SameTimes(Explored(sizes, trials, pts, order), pts + Outcomes(trials, order))
  }

  /** Experiment e has been recorded, or is none. */
  ghost predicate Known(pts: seq<OperatingPoint>, e: int) {
    e == -1 || exists i :: 0 <= i < |pts| && pts[i].cno == e
  }

  lemma KnownMore(pts: seq<OperatingPoint>, e: int)
    requires pts != []
    ensures Known(pts[..|pts| - 1], e) ==> Known(pts, e)
    ensures Known(pts, pts[|pts| - 1].cno)
  {
    var n := |pts| - 1;
    if e != -1 && Known(pts[..n], e) {
      var i :| 0 <= i < n && pts[..n][i].cno == e;
      assert pts[i].cno == e;
    }
  }

  lemma PrefixMeasured(sizes: seq<nat>, trials: Trials, pts: seq<OperatingPoint>)
    requires Measured(sizes, trials, pts) && pts != []
    ensures Measured(sizes, trials, pts[..|pts| - 1]) && Numbered(pts) && Numbered(pts[..|pts| - 1])
    ensures var x := pts[|pts| - 1];
      0 <= x.cno < Product(sizes) && x.perf == trials.perf(x.cno) && x.t == trials.t(x.cno)
  {
    hide Product;
  }

  /** Both bounds come from recorded experiments. */
  lemma {:induction false} BoundsAttained(sizes: seq<nat>, trials: Trials, pts: seq<OperatingPoint>, c: nat)
    returns (a: int, b: int)
    requires Positive(sizes) && Numbered(pts) && Measured(sizes, trials, pts) && Clocked(trials, Product(sizes))
    ensures -1 <= a < Product(sizes) && -1 <= b < Product(sizes) && Known(pts, a) && Known(pts, b)
    ensures (a >= 0 ==> Ge(sizes, a, c)) && (b >= 0 ==> Ge(sizes, c, b))
    ensures UpperPerf(sizes, pts, c) == UpperFrom(trials, a) && LowerT(sizes, pts, c) == TOf(trials, b)
  {
    if pts == [] {
      a, b := -1, -1;
      ProductPositive(sizes);
    } else {
      var n := |pts| - 1;
      var x := pts[n];
      PrefixMeasured(sizes, trials, pts);
      a, b := BoundsAttained(sizes, trials, pts[..n], c);
      KnownMore(pts, a);
      KnownMore(pts, b);
      hide Ge, Product, Known, Positive, Measured, Clocked, Numbered;
      if Ge(sizes, x.cno, c) && x.perf < UpperPerf(sizes, pts[..n], c) {
        a := x.cno;
      }
      if Ge(sizes, c, x.cno) && x.t > LowerT(sizes, pts[..n], c) {
        b := x.cno;
      }
    }
  }

  /** So does every time that is reached. */
  lemma TimeAttained(sizes: seq<nat>, trials: Trials, pts: seq<OperatingPoint>, p: real) returns (d: int)
    requires Measured(sizes, trials, pts) && Clocked(trials, Product(sizes)) && TimeFor(pts, p) < NEVER
    ensures -1 <= d && (d >= 0 ==> d < Product(sizes)) && Known(pts, d)
    ensures PerfOf(trials, d) >= p && TOf(trials, d) == TimeFor(pts, p)
  {
    MeasuredIsTimed(sizes, trials, pts);
    TimeForBounds(pts, p);
    hide TimeFor, Product, Timed, Clocked;
    var x :| Recorded(pts, x) && x.perf >= p && x.t == TimeFor(pts, p);
    if x == ORIGIN {
      d := -1;
    } else {
      var i :| 0 <= i < |pts| && pts[i] == x;
      d := pts[i].cno;
    }
  }

  /** A recorded experiment as good as c answers for it. */
  lemma KnownAnswers(sizes: seq<nat>, trials: Trials, pts: seq<OperatingPoint>, c: nat, e: int)
    requires Measured(sizes, trials, pts) && Clocked(trials, Product(sizes)) && c < Product(sizes)
    requires Known(pts, e) && AsGood(trials, e, c)
    ensures TimeFor(pts, trials.perf(c)) <= trials.t(c)
  {
    MeasuredIsTimed(sizes, trials, pts);
    TimeForBounds(pts, trials.perf(c));
    hide TimeFor, Product, Timed;
    if e != -1 {
      var i :| 0 <= i < |pts| && pts[i].cno == e;
      assert pts[i].perf >= trials.perf(c);
    }
  }

  /** An outcome that the record answers for changes no time. */
  lemma AddsNothing(pts: seq<OperatingPoint>, op: OperatingPoint, p: real)
    requires Timed(pts) && TimeFor(pts, op.perf) <= op.t
    ensures TimeFor(pts + [op], p) == TimeFor(pts, p)
  {
    hide TimeFor, Timed;
    TimeForSnoc(pts, op, p);
    if p <= op.perf {
      TimeForMonotone(pts, p, op.perf);
    }
  }

  lemma SafeAt(sizes: seq<nat>, trials: Trials, c: nat, a: int, b: int, d: int)
    requires Positive(sizes) && Safe(sizes, trials) && c < Product(sizes) && MakeSkip(sizes, trials, c, a, b, d)
    requires -1 <= a < Product(sizes) && -1 <= b < Product(sizes) && -1 <= d < Product(sizes)
    ensures AsGood(trials, -1, c) || AsGood(trials, a, c) || AsGood(trials, b, c) || AsGood(trials, d, c)
  {
    hide MakeSkip, AsGood, Product;
  }

  /** In safe trials the record answers for every experiment that it makes be skipped. */
  lemma SkippedIsAnswered(sizes: seq<nat>, trials: Trials, pts: seq<OperatingPoint>, c: nat)
    requires Positive(sizes) && Safe(sizes, trials) && Clocked(trials, Product(sizes)) && c < Product(sizes)
    requires Numbered(pts) && Measured(sizes, trials, pts) && Skips(sizes, pts, c)
    ensures TimeFor(pts, trials.perf(c)) <= trials.t(c)
  {
    MeasuredIsTimed(sizes, trials, pts);
    LowerTIsATime(sizes, pts, c);
    SkipsIs(sizes, pts, c);
    hide Safe, Known, AsGood, Product, Measured, Clocked, Numbered, Timed, TimeFor, UpperPerf, LowerT, Ge, Positive;
    var a, b := BoundsAttained(sizes, trials, pts, c);
    var d := TimeAttained(sizes, trials, pts, UpperPerf(sizes, pts, c));
    SafeAt(sizes, trials, c, a, b, d);
    var e := if AsGood(trials, -1, c) then -1 else if AsGood(trials, a, c) then a else if AsGood(trials, b, c) then b else d;
    KnownNone(pts);
    KnownAnswers(sizes, trials, pts, c, e);
  }

  lemma KnownNone(pts: seq<OperatingPoint>)
    ensures Known(pts, -1)
  {
  }

  /** One more experiment in the order, run or skipped. */
  lemma SafeStep(sizes: seq<nat>, trials: Trials, pts: seq<OperatingPoint>, front: seq<nat>, c: nat, p: real)
    requires Positive(sizes) && Safe(sizes, trials) && Clocked(trials, Product(sizes)) && c < Product(sizes)
    requires Numbered(pts) && Measured(sizes, trials, pts) && AreExperiments(sizes, front)
    requires TimeFor(Explored(sizes, trials, pts, front), p) == TimeFor(pts + Outcomes(trials, front), p)
    ensures TimeFor(Explored(sizes, trials, pts, front + [c]), p) == TimeFor(pts + Outcomes(trials, front + [c]), p)
  {
    hide *;
    var done, op := Explored(sizes, trials, pts, front), Outcome(trials, c);
    ExploredSnoc(sizes, trials, pts, front, c);
    TimeForSnoc(done, op, p);
    TimeForSnoc(pts + Outcomes(trials, front), op, p);
    assert pts + (Outcomes(trials, front) + [op]) == (pts + Outcomes(trials, front)) + [op];
    if Skips(sizes, done, c) {
      ExperimentsAre(sizes, front);
      ExploredIsMeasured(sizes, trials, pts, front);
      SkippedIsAnswered(sizes, trials, done, c);
      MeasuredIsTimed(sizes, trials, done);
      OutcomeIs(trials, c);
      AddsNothing(done, op, p);
    }
  }

  lemma LastExperiment(sizes: seq<nat>, order: seq<nat>)
    requires AreExperiments(sizes, order) && order != []
    ensures AreExperiments(sizes, order[..|order| - 1]) && order[|order| - 1] < Product(sizes)
    ensures order == order[..|order| - 1] + [order[|order| - 1]]
  {
    hide Product;
  }

  lemma NothingRun(sizes: seq<nat>, trials: Trials, pts: seq<OperatingPoint>)
    requires Positive(sizes) && Numbered(pts)
    ensures Explored(sizes, trials, pts, []) == pts == pts + Outcomes(trials, [])
  {
  }

  lemma {:induction false} SafeLosesNothing(sizes: seq<nat>, trials: Trials, pts: seq<OperatingPoint>,
                                            order: seq<nat>, p: real)
    requires Positive(sizes) && Safe(sizes, trials) && Clocked(trials, Product(sizes))
    requires Numbered(pts) && Measured(sizes, trials, pts) && AreExperiments(sizes, order)
    ensures TimeFor(Explored(sizes, trials, pts, order), p) == TimeFor(pts + Outcomes(trials, order), p)
  {
    hide *;
    if order == [] {
      NothingRun(sizes, trials, pts);
    } else {
      LastExperiment(sizes, order);
      SafeLosesNothing(sizes, trials, pts, order[..|order| - 1], p);
      SafeStep(sizes, trials, pts, order[..|order| - 1], order[|order| - 1], p);
    }
  }

  lemma ExperimentsAre(sizes: seq<nat>, order: seq<nat>)
    requires AreExperiments(sizes, order)
    ensures forall i :: 0 <= i < |order| ==> order[i] < Product(sizes)
  {
    hide Product;
  }

  lemma OutcomeIs(trials: Trials, c: nat)
    ensures Outcome(trials, c).perf == trials.perf(c) && Outcome(trials, c).t == trials.t(c)
    ensures Outcome(trials, c).cno == c
  {
  }

  function Picks(a: int, b: int, d: int): seq<nat> {
    (if a >= 0 then [a as nat] else []) + (if b >= 0 then [b as nat] else []) + (if d >= 0 then [d as nat] else [])
  }

  lemma PicksAre(trials: Trials, a: int, b: int, d: int, e: int)
    requires -1 <= a && -1 <= b && -1 <= d && -1 <= e
    ensures Known(Outcomes(trials, Picks(a, b, d)), e) <==> e == -1 || e == a || e == b || e == d
  {
    var picks := Picks(a, b, d);
    OutcomesPointwise(trials, picks);
    hide Outcomes;
    var pts := Outcomes(trials, picks);
    assert e != -1 && (e == a || e == b || e == d) ==> e in picks;
    if e in picks {
      var i :| 0 <= i < |picks| && picks[i] == e;
      assert pts[i].cno == e;
    }
  }

  lemma PicksInRange(sizes: seq<nat>, a: int, b: int, d: int)
    requires a < Product(sizes) && b < Product(sizes) && d < Product(sizes)
    ensures forall i :: 0 <= i < |Picks(a, b, d)| ==> Picks(a, b, d)[i] < Product(sizes)
  {
    hide Product;
  }

  /** No recorded experiment that can be compared gives a tighter bound. */
  lemma {:induction false} BoundsReach(sizes: seq<nat>, pts: seq<OperatingPoint>, c: nat, i: nat)
    requires Positive(sizes) && Numbered(pts) && i <= |pts|
    ensures UpperPerf(sizes, pts, c) <= 1.0 && LowerT(sizes, pts, c) >= 0.0
    ensures i < |pts| ==> pts[i].cno >= 0
    ensures i < |pts| && Ge(sizes, pts[i].cno, c) ==> UpperPerf(sizes, pts, c) <= pts[i].perf
    ensures i < |pts| && Ge(sizes, c, pts[i].cno) ==> LowerT(sizes, pts, c) >= pts[i].t
  {
    hide Ge, Positive;
    if pts != [] {
      var n := |pts| - 1;
      BoundsReach(sizes, pts[..n], c, if i < n then i else n);
    }
  }

  lemma KnownBounds(sizes: seq<nat>, trials: Trials, pts: seq<OperatingPoint>, c: nat, a: int, b: int)
    requires Positive(sizes) && Numbered(pts) && Measured(sizes, trials, pts) && Known(pts, a) && Known(pts, b)
    requires (a >= 0 ==> Ge(sizes, a, c)) && (b >= 0 ==> Ge(sizes, c, b))
    ensures UpperPerf(sizes, pts, c) <= UpperFrom(trials, a) && TOf(trials, b) <= LowerT(sizes, pts, c)
  {
    hide Ge, Positive, UpperPerf, LowerT, Product;
    BoundsReach(sizes, pts, c, |pts|);
    if a >= 0 {
      var i :| 0 <= i < |pts| && pts[i].cno == a;
      BoundsReach(sizes, pts, c, i);
    }
    if b >= 0 {
      var i :| 0 <= i < |pts| && pts[i].cno == b;
      BoundsReach(sizes, pts, c, i);
    }
  }

  /** A recorded experiment has a time for what it reaches. */
  lemma KnownTime(sizes: seq<nat>, trials: Trials, pts: seq<OperatingPoint>, d: int, p: real)
    requires Measured(sizes, trials, pts) && Clocked(trials, Product(sizes)) && Known(pts, d) && d >= -1
    requires PerfOf(trials, d) >= p
    ensures TimeFor(pts, p) <= TOf(trials, d)
  {
    MeasuredIsTimed(sizes, trials, pts);
    TimeForBounds(pts, p);
    hide TimeFor, Product, Timed;
    if d >= 0 {
      var i :| 0 <= i < |pts| && pts[i].cno == d;
      assert pts[i].perf >= p;
    }
  }

  lemma MeasuredIsNumbered(sizes: seq<nat>, trials: Trials, pts: seq<OperatingPoint>)
    requires Measured(sizes, trials, pts)
    ensures Numbered(pts)
  {
    hide Product;
  }

  /** A record with a, b and d makes c be skipped. */
  lemma RecordMakesSkip(sizes: seq<nat>, trials: Trials, pts: seq<OperatingPoint>, c: nat, a: int, b: int, d: int)
    requires Positive(sizes) && Clocked(trials, Product(sizes)) && MakeSkip(sizes, trials, c, a, b, d) && d >= -1
    requires Numbered(pts) && Measured(sizes, trials, pts) && Known(pts, a) && Known(pts, b) && Known(pts, d)
    ensures Skips(sizes, pts, c)
  {
    SkipsIs(sizes, pts, c);
    MeasuredIsTimed(sizes, trials, pts);
    hide Known, Product, Measured, Clocked, Numbered, Timed, TimeFor, UpperPerf, LowerT, Ge, Positive, Skips;
    KnownBounds(sizes, trials, pts, c, a, b);
    var upper := UpperPerf(sizes, pts, c);
    KnownTime(sizes, trials, pts, d, upper);
  }

  lemma NeverLosesAt(sizes: seq<nat>, trials: Trials, pts: seq<OperatingPoint>, c: nat)
    requires Positive(sizes) && NeverLoses(sizes, trials) && c < Product(sizes)
    requires Numbered(pts) && Measured(sizes, trials, pts) && Skips(sizes, pts, c)
    ensures TimeFor(pts, trials.perf(c)) == TimeFor(pts + [Outcome(trials, c)], trials.perf(c))
  {
    var none: seq<nat>, one: seq<nat> := [], [c];
    assert none + [c] == one && AreExperiments(sizes, one);
    assert Explored(sizes, trials, pts, none) == pts && Outcomes(trials, none) == [];
    ExploredSnoc(sizes, trials, pts, none, c);
    hide Explored, Outcomes, Outcome, AreExperiments, Measured, Numbered, Skips, Product, TimeFor;
    assert SameTimes(Explored(sizes, trials, pts, one), pts + Outcomes(trials, one));
    assert Outcomes(trials, one) == [Outcome(trials, c)];
  }

  /** If pruning never loses, whatever makes c be skipped is as good as c. */
  lemma SkipMadeIsSafe(sizes: seq<nat>, trials: Trials, c: nat, a: int, b: int, d: int)
    requires Positive(sizes) && Clocked(trials, Product(sizes)) && NeverLoses(sizes, trials) && c < Product(sizes)
    requires -1 <= a < Product(sizes) && -1 <= b < Product(sizes) && -1 <= d < Product(sizes)
    requires MakeSkip(sizes, trials, c, a, b, d)
    ensures AsGood(trials, -1, c) || AsGood(trials, a, c) || AsGood(trials, b, c) || AsGood(trials, d, c)
  {
    var picks := Picks(a, b, d);
    var pts := Outcomes(trials, picks);
    assert 0.0 <= trials.t(c) < NEVER;
    hide *;
    PicksInRange(sizes, a, b, d);
    OutcomesAreMeasured(sizes, trials, picks);
    MeasuredIsNumbered(sizes, trials, pts);
    PicksAre(trials, a, b, d, a);
    PicksAre(trials, a, b, d, b);
    PicksAre(trials, a, b, d, d);
    RecordMakesSkip(sizes, trials, pts, c, a, b, d);
    NeverLosesAt(sizes, trials, pts, c);
    OutcomeIs(trials, c);
    TimeForSnoc(pts, Outcome(trials, c), trials.perf(c));
    var e := TimeAttained(sizes, trials, pts, trials.perf(c));
    PicksAre(trials, a, b, d, e);
    IsAsGood(trials, e, c);
  }

  lemma IsAsGood(trials: Trials, e: int, c: nat)
    requires PerfOf(trials, e) >= trials.perf(c) && TOf(trials, e) <= trials.t(c)
    ensures AsGood(trials, e, c)
  {
  }

  /** The exact condition on the trials: pruning never loses anything, on any record and in any order, if and
      only if whatever makes an experiment be skipped is as good as the experiment. */
  lemma SafeIff(sizes: seq<nat>, trials: Trials)
    requires Positive(sizes) && Clocked(trials, Product(sizes))
    ensures Safe(sizes, trials) <==> NeverLoses(sizes, trials)
  {
    hide MakeSkip, AsGood, Product, Clocked, Positive, Explored, Outcomes, TimeFor, AreExperiments, Measured, Numbered;
    if Safe(sizes, trials) {
      forall pts: seq<OperatingPoint>, order: seq<nat> |
        Numbered(pts) && Measured(sizes, trials, pts) && AreExperiments(sizes, order)
        ensures SameTimes(Explored(sizes, trials, pts, order), pts + Outcomes(trials, order))
      {
        forall p
          ensures TimeFor(Explored(sizes, trials, pts, order), p) == TimeFor(pts + Outcomes(trials, order), p)
        {
          SafeLosesNothing(sizes, trials, pts, order, p);
        }
      }
    }
    if NeverLoses(sizes, trials) {
      forall c: nat, a: int, b: int, d: int |
        c < Product(sizes) && -1 <= a < Product(sizes) && -1 <= b < Product(sizes) && -1 <= d < Product(sizes) &&
        MakeSkip(sizes, trials, c, a, b, d)
        ensures AsGood(trials, -1, c) || AsGood(trials, a, c) || AsGood(trials, b, c) || AsGood(trials, d, c)
      {
        SkipMadeIsSafe(sizes, trials, c, a, b, d);
      }
    }
  }

  /** Monotone trials with performances up to one are safe: what made the skip is as good. */
  lemma MonotoneIsSafe(sizes: seq<nat>, trials: Trials)
    requires Positive(sizes) && Monotone(sizes, trials) && AtMostOne(sizes, trials) && Clocked(trials, Product(sizes))
    ensures Safe(sizes, trials)
  {
    hide Ge, Product, Positive;
    forall c: nat, a: int, b: int, d: int |
      c < Product(sizes) && -1 <= a < Product(sizes) && -1 <= b < Product(sizes) && -1 <= d < Product(sizes) &&
      MakeSkip(sizes, trials, c, a, b, d)
      ensures AsGood(trials, d, c)
    {
      assert a >= 0 ==> trials.perf(a) >= trials.perf(c);
      assert b >= 0 ==> trials.t(c) >= trials.t(b);
    }
  }

  /** A run that answers differently shows that the trials are not safe. */
  lemma LosingIsUnsafe(sizes: seq<nat>, trials: Trials, order: seq<nat>, p: real)
    requires Positive(sizes) && Clocked(trials, Product(sizes)) && AreExperiments(sizes, order)
    requires TimeFor(Explored(sizes, trials, [], order), p) != TimeFor(Outcomes(trials, order), p)
    ensures !Safe(sizes, trials)
  {
    var none: seq<OperatingPoint> := [];
    assert Numbered(none) && Measured(sizes, trials, none);
    hide *;
    assert none + Outcomes(trials, order) == Outcomes(trials, order);
    if Safe(sizes, trials) {
      SafeLosesNothing(sizes, trials, none, order, p);
    }
  }

  /** Monotone trials: for every performance asked for, the pruned run and the full run over the same
      experiments give the same time. */
  lemma PruningLosesNothing(sizes: seq<nat>, trials: Trials, pts: seq<OperatingPoint>, order: seq<nat>, p: real)
    requires Positive(sizes) && Monotone(sizes, trials) && AtMostOne(sizes, trials)
    requires Numbered(pts) && Measured(sizes, trials, pts) && Clocked(trials, Product(sizes))
    requires forall i :: 0 <= i < |order| ==> order[i] < Product(sizes)
    ensures TimeFor(Explored(sizes, trials, pts, order), p) == TimeFor(pts + Outcomes(trials, order), p)
  {
    assert AreExperiments(sizes, order);
    hide *;
    MonotoneIsSafe(sizes, trials);
    SafeLosesNothing(sizes, trials, pts, order, p);
  }

  /** A pruned run records some of the outcomes. */
  lemma {:induction false} ExploredIsPart(sizes: seq<nat>, trials: Trials, pts: seq<OperatingPoint>, order: seq<nat>)
    requires Positive(sizes) && Numbered(pts)
    ensures forall x :: x in pts ==> x in Explored(sizes, trials, pts, order)
    ensures forall x :: x in Explored(sizes, trials, pts, order) ==> x in pts + Outcomes(trials, order)
  {
    hide Skips, Outcome;
    if order != [] {
      ExploredIsPart(sizes, trials, pts, order[..|order| - 1]);
    }
  }

  /** For the performance of every experiment of the order the record has a time that is no longer. */
  ghost predicate Answers(run: seq<OperatingPoint>, trials: Trials, order: seq<nat>) {
    forall i :: 0 <= i < |order| ==> TimeFor(run, trials.perf(order[i])) <= trials.t(order[i])
  }

  /** One run: it loses nothing if and only if its record answers for every experiment, also those it
      skipped. */
  lemma PruningLosesNothingIff(sizes: seq<nat>, trials: Trials, pts: seq<OperatingPoint>, order: seq<nat>)
    requires Positive(sizes) && Numbered(pts) && Timed(pts) && Clocked(trials, Product(sizes))
    requires forall i :: 0 <= i < |order| ==> order[i] < Product(sizes)
    ensures
      var run := Explored(sizes, trials, pts, order);
      SameTimes(run, pts + Outcomes(trials, order)) <==> Answers(run, trials, order)
  {
    hide *;
    var run, all := Explored(sizes, trials, pts, order), pts + Outcomes(trials, order);
    ExploredIsPart(sizes, trials, pts, order);
    AllTimed(sizes, trials, pts, order);
    PartTimed(run, all);
    if SameTimes(run, all) {
      SameTimesAnswer(trials, pts, order, run);
    }
    if Answers(run, trials, order) {
      AnswersSameTimes(trials, pts, order, run);
    }
  }

  lemma AllTimed(sizes: seq<nat>, trials: Trials, pts: seq<OperatingPoint>, order: seq<nat>)
    requires Timed(pts) && Clocked(trials, Product(sizes))
    requires forall i :: 0 <= i < |order| ==> order[i] < Product(sizes)
    ensures Timed(pts + Outcomes(trials, order))
  {
    OutcomesPointwise(trials, order);
    hide Outcomes, Product;
  }

  lemma PartTimed(run: seq<OperatingPoint>, all: seq<OperatingPoint>)
    requires Timed(all) && forall x :: x in run ==> x in all
    ensures Timed(run)
  {
    forall i | 0 <= i < |run|
      ensures 0.0 <= run[i].t < NEVER
    {
      assert run[i] in run;
      var j :| 0 <= j < |all| && all[j] == run[i];
    }
  }

  lemma SameTimesAnswer(trials: Trials, pts: seq<OperatingPoint>, order: seq<nat>, run: seq<OperatingPoint>)
    requires Timed(pts + Outcomes(trials, order)) && SameTimes(run, pts + Outcomes(trials, order))
    ensures Answers(run, trials, order)
  {
    var all := pts + Outcomes(trials, order);
    OutcomesPointwise(trials, order);
    hide TimeFor, Outcomes, Timed;
    forall i | 0 <= i < |order|
      ensures TimeFor(run, trials.perf(order[i])) <= trials.t(order[i])
    {
      TimeForBounds(all, trials.perf(order[i]));
      assert all[|pts| + i] == Outcome(trials, order[i]);
    }
  }

  lemma AnswersSameTimes(trials: Trials, pts: seq<OperatingPoint>, order: seq<nat>, run: seq<OperatingPoint>)
    requires Timed(run) && Timed(pts + Outcomes(trials, order)) && Answers(run, trials, order)
    requires (forall x :: x in pts ==> x in run) && forall x :: x in run ==> x in pts + Outcomes(trials, order)
    ensures SameTimes(run, pts + Outcomes(trials, order))
  {
    hide TimeFor, Timed, Outcomes;
    forall p
      ensures TimeFor(run, p) == TimeFor(pts + Outcomes(trials, order), p)
    {
      RunAnswers(trials, pts, order, run, pts + Outcomes(trials, order), p);
    }
  }

  lemma RunAnswers(trials: Trials, pts: seq<OperatingPoint>, order: seq<nat>, run: seq<OperatingPoint>,
                   all: seq<OperatingPoint>, p: real)
    requires Timed(run) && Timed(all) && all == pts + Outcomes(trials, order)
    requires (forall x :: x in pts ==> x in run) && forall x :: x in run ==> x in all
    requires Answers(run, trials, order)
    ensures TimeFor(run, p) == TimeFor(all, p)
  {
    hide TimeFor, Timed;
    TimeForBounds(run, p);
    OutcomesPointwise(trials, order);
    forall x | Recorded(all, x) && x.perf >= p
      ensures TimeFor(run, p) <= x.t
    {
      if x != ORIGIN && x !in pts {
        var i :| 0 <= i < |order| && Outcomes(trials, order)[i] == x;
        TimeForMonotone(run, p, trials.perf(order[i]));
      }
    }
    assert forall x :: Recorded(run, x) ==> Recorded(all, x);
    TimeForUnique(all, p, TimeFor(run, p));
  }

  lemma SameOutcomes(trials: Trials, a: seq<nat>, b: seq<nat>, x: OperatingPoint)
    requires forall i :: 0 <= i < |a| ==> a[i] in b
    requires x in Outcomes(trials, a)
    ensures x in Outcomes(trials, b)
  {
    OutcomesPointwise(trials, a);
    OutcomesPointwise(trials, b);
    hide Outcomes, Outcome;
    var i :| 0 <= i < |a| && Outcomes(trials, a)[i] == x;
    var j :| 0 <= j < |b| && b[j] == a[i];
    assert Outcomes(trials, b)[j] == x;
  }

  lemma BijectionCounts(order: seq<nat>, inverse: seq<nat>)
    requires Bijection(order, inverse)
    ensures |Counting(|order|)| == |order|
    ensures forall i :: 0 <= i < |order| ==> Counting(|order|)[i] in order && order[i] in Counting(|order|)
    ensures forall i :: 0 <= i < |order| ==> order[i] < |order|
    ensures forall i :: 0 <= i < |order| ==> Counting(|order|)[i] == i
  {
    forall i | 0 <= i < |order|
      ensures Counting(|order|)[i] in order && order[i] in Counting(|order|)
    {
      assert order[inverse[i]] == i;
      assert Counting(|order|)[order[i]] == order[i];
    }
  }

  /** With all experiments in the order, the pruned run of safe trials answers as running every combination in
      turn does. */
  lemma FullPrunedRunIsExhaustive(sizes: seq<nat>, trials: Trials, order: seq<nat>, inverse: seq<nat>, p: real)
    requires Positive(sizes) && Safe(sizes, trials) && Clocked(trials, Product(sizes))
    requires Bijection(order, inverse) && |order| == Product(sizes)
    ensures TimeFor(Explored(sizes, trials, [], order), p) ==
      TimeFor(Outcomes(trials, Counting(Product(sizes))), p)
  {
    hide Safe, Clocked, Product, Explored, Outcomes, TimeFor, Positive;
    var all := Counting(Product(sizes));
    BijectionCounts(order, inverse);
    hide Bijection, Counting;
    assert AreExperiments(sizes, order);
    SafeLosesNothing(sizes, trials, [], order, p);
    assert [] + Outcomes(trials, order) == Outcomes(trials, order);
    OutcomesAreMeasured(sizes, trials, order);
    OutcomesAreMeasured(sizes, trials, all);
    MeasuredIsTimed(sizes, trials, Outcomes(trials, order));
    MeasuredIsTimed(sizes, trials, Outcomes(trials, all));
    forall x
      ensures x in Outcomes(trials, order) <==> x in Outcomes(trials, all)
    {
      if x in Outcomes(trials, order) {
        SameOutcomes(trials, order, all, x);
      }
      if x in Outcomes(trials, all) {
        SameOutcomes(trials, all, order, x);
      }
    }
    TimeForSameMembers(Outcomes(trials, order), Outcomes(trials, all), p);
  }

  lemma FirstDigit(sizes: seq<nat>, c: nat)
    requires Positive(sizes) && sizes != []
    ensures sizes[0] > 0 && Positive(sizes[1..])
    ensures Digits(sizes, c) == [c % sizes[0]] + Digits(sizes[1..], c / sizes[0])
  {
  }

  lemma NoDigits(c: nat)
    ensures Positive([]) && Digits([], c) == []
  {
  }

  lemma OnePositive(n: nat)
    requires n > 0
    ensures Positive([n])
  {
  }

  lemma OneDigit(n: nat, c: nat)
    requires n > 0 && c < n
    ensures Positive([n]) && Digits([n], c) == [c]
  {
    hide *;
    OnePositive(n);
    FirstDigit([n], c);
    assert [n][0] == n && [n][1..] == [];
    NoDigits(c / n);
    assert c % n == c;
    assert [c] + [] == [c];
  }

  lemma OneParameterOrder(n: nat, c: nat, d: nat)
    requires n > 0 && c < n && d < n
    ensures Positive([n]) && (Ge([n], c, d) <==> c >= d)
  {
    OneDigit(n, c);
    OneDigit(n, d);
    hide Digits, Positive;
    assert [c][0] == c && [d][0] == d;
  }

  lemma BoundsSnoc(sizes: seq<nat>, pts: seq<OperatingPoint>, op: OperatingPoint, c: nat)
    requires Positive(sizes) && Numbered(pts) && op.cno >= 0
    ensures Numbered(pts + [op])
    ensures UpperPerf(sizes, pts + [op], c) == var rest := UpperPerf(sizes, pts, c);
        if Ge(sizes, op.cno, c) && op.perf < rest then op.perf else rest
    ensures LowerT(sizes, pts + [op], c) == var rest := LowerT(sizes, pts, c);
        if Ge(sizes, c, op.cno) && op.t > rest then op.t else rest
  {
    hide Ge;
    assert (pts + [op])[..|pts|] == pts;
  }

  lemma ExploredSnoc(sizes: seq<nat>, trials: Trials, pts: seq<OperatingPoint>, order: seq<nat>, c: nat)
    requires Positive(sizes) && Numbered(pts)
    ensures Explored(sizes, trials, pts, order + [c]) == var done := Explored(sizes, trials, pts, order);
        if Skips(sizes, done, c) then done else done + [Outcome(trials, c)]
    ensures Outcomes(trials, order + [c]) == Outcomes(trials, order) + [Outcome(trials, c)]
  {
    hide Skips;
    assert (order + [c])[..|order|] == order;
  }

  /** The cheapest and the most expensive of three experiments bound the middle one. */
  lemma BoundsOfThree(trials: Trials)
    requires 0.0 < trials.t(0)
    ensures Positive([3])
    ensures
      var x, y := Outcome(trials, 0), Outcome(trials, 2);
      var one, two := [] + [x], [] + [x] + [y];
      && UpperPerf([3], [], 0) == 1.0 && LowerT([3], [], 0) == 0.0
      && UpperPerf([3], one, 2) == UpperPerf([3], one, 1) == 1.0
      && LowerT([3], one, 2) == LowerT([3], one, 1) == LowerT([3], two, 1) == trials.t(0)
      && UpperPerf([3], two, 1) == if trials.perf(2) < 1.0 then trials.perf(2) else 1.0
  {
    var x, y := Outcome(trials, 0), Outcome(trials, 2);
    var none: seq<OperatingPoint> := [];
    OneParameterOrder(3, 0, 2);
    OneParameterOrder(3, 2, 0);
    OneParameterOrder(3, 2, 1);
    OneParameterOrder(3, 1, 0);
    OneParameterOrder(3, 1, 2);
    OneParameterOrder(3, 0, 1);
    forall c: nat
      ensures UpperPerf([3], none, c) == 1.0 && LowerT([3], none, c) == 0.0
    {
    }
    hide Ge, UpperPerf, LowerT, Positive;
    BoundsSnoc([3], none, x, 2);
    BoundsSnoc([3], none, x, 1);
    BoundsSnoc([3], none + [x], y, 1);
  }

  lemma TimesOfThree(trials: Trials, p: real)
    requires p > 0.0
    ensures
      var x, y, z := Outcome(trials, 0), Outcome(trials, 2), Outcome(trials, 1);
      var one, two := [] + [x], [] + [x] + [y];
      && TimeFor([], p) == NEVER
      && TimeFor(one, p) == (if trials.perf(0) >= p && trials.t(0) < NEVER then trials.t(0) else NEVER)
      && TimeFor(two, p) ==
         (if trials.perf(2) >= p && trials.t(2) < TimeFor(one, p) then trials.t(2) else TimeFor(one, p))
      && TimeFor(two + [z], p) ==
         (if trials.perf(1) >= p && trials.t(1) < TimeFor(two, p) then trials.t(1) else TimeFor(two, p))
  {
    var x, y, z := Outcome(trials, 0), Outcome(trials, 2), Outcome(trials, 1);
    TimeForSnoc([], x, p);
    TimeForSnoc([] + [x], y, p);
    TimeForSnoc([] + [x] + [y], z, p);
    hide TimeFor;
  }

  /** The runs of three experiments, first, last and middle one, when the first one runs. */
  lemma RunsOfThree(trials: Trials)
    requires Positive([3]) && !Skips([3], [], 0)
    ensures
      var x, y, z := Outcome(trials, 0), Outcome(trials, 2), Outcome(trials, 1);
      var one, two := [] + [x], [] + [x] + [y];
      && Outcomes(trials, [0, 2, 1]) == two + [z]
      && (!Skips([3], one, 2) && Skips([3], two, 1) ==> Explored([3], trials, [], [0, 2, 1]) == two)
      && (Skips([3], one, 2) && Skips([3], one, 1) ==> Explored([3], trials, [], [0, 2, 1]) == one)
  {
    var none: seq<OperatingPoint>, start: seq<nat> := [], [];
    assert start + [0] + [2] + [1] == [0, 2, 1];
    assert Outcomes(trials, start) == none && Explored([3], trials, none, start) == none;
    hide *;
    ExploredSnoc([3], trials, none, start, 0);
    ExploredSnoc([3], trials, none, start + [0], 2);
    ExploredSnoc([3], trials, none, start + [0] + [2], 1);
  }

  lemma LosesOnThree(trials: Trials, p: real)
    requires forall c: nat :: c < 3 ==> 0.0 <= trials.t(c) < NEVER
    requires Positive([3]) && TimeFor(Explored([3], trials, [], [0, 2, 1]), p) != TimeFor(Outcomes(trials, [0, 2, 1]), p)
    ensures Clocked(trials, Product([3])) && !Safe([3], trials)
  {
    assert [3][1..] == [] && Product([]) == 1;
    assert Product([3]) == 3;
    assert AreExperiments([3], [0, 2, 1]);
    hide Safe, Explored, Outcomes, TimeFor, Positive, Product;
    LosingIsUnsafe([3], trials, [0, 2, 1], p);
  }

  /** Without monotone performance pruning can lose: the skipped combination reaches what no other does. */
  lemma PruningNeedsMonotonePerformance(trials: Trials)
    requires trials.perf(0) == trials.perf(2) == 0.5 && trials.perf(1) == 0.75
    requires trials.t(0) == trials.t(1) == trials.t(2) == 1.0
    ensures TimeFor(Explored([3], trials, [], [0, 2, 1]), 0.75) == NEVER
    ensures TimeFor(Outcomes(trials, [0, 2, 1]), 0.75) == 1.0
    ensures Positive([3]) && Clocked(trials, Product([3])) && !Safe([3], trials)
  {
    BoundsOfThree(trials);
    TimesOfThree(trials, 1.0);
    TimesOfThree(trials, 0.75);
    TimesOfThree(trials, 0.5);
    hide Ge, UpperPerf, LowerT, TimeFor, Positive, Explored, Outcomes, Product, Safe, Clocked;
    RunsOfThree(trials);
    LosesOnThree(trials, 0.75);
  }

  /** Without monotone times it can lose too: the skipped combination is faster than both others. */
  lemma PruningNeedsMonotoneTime(trials: Trials)
    requires trials.perf(0) == trials.perf(1) == trials.perf(2) == 0.5
    requires trials.t(0) == trials.t(2) == 2.0 && trials.t(1) == 1.0
    ensures TimeFor(Explored([3], trials, [], [0, 2, 1]), 0.5) == 2.0
    ensures TimeFor(Outcomes(trials, [0, 2, 1]), 0.5) == 1.0
    ensures Positive([3]) && Clocked(trials, Product([3])) && !Safe([3], trials)
  {
    BoundsOfThree(trials);
    TimesOfThree(trials, 1.0);
    TimesOfThree(trials, 0.5);
    hide Ge, UpperPerf, LowerT, TimeFor, Positive, Explored, Outcomes, Product, Safe, Clocked;
    RunsOfThree(trials);
    LosesOnThree(trials, 0.5);
  }

  lemma RisingIsMonotone(trials: Trials)
    requires trials.perf(0) <= trials.perf(1) <= trials.perf(2) && trials.t(0) <= trials.t(1) <= trials.t(2)
    ensures Positive([3]) && Monotone([3], trials)
  {
    OneParameterOrder(3, 0, 0);
    assert [3][1..] == [] && Product([]) == 1;
    assert Product([3]) == 3;
    hide Product, Ge;
    forall c: nat, d: nat | c < 3 && d < 3 && Ge([3], c, d)
      ensures trials.perf(c) >= trials.perf(d) && trials.t(c) >= trials.t(d)
    {
      OneParameterOrder(3, c, d);
    }
  }

  /** Everything monotone, but performances above one: the bound starts at one, and what exceeds it is
      skipped. */
  lemma PruningNeedsPerformanceUpToOne(trials: Trials)
    requires trials.perf(0) == 1.0 && trials.perf(1) == trials.perf(2) == 2.0
    requires trials.t(0) == trials.t(1) == trials.t(2) == 1.0
    ensures Positive([3]) && Clocked(trials, Product([3])) && Monotone([3], trials) && !Safe([3], trials)
    ensures TimeFor(Explored([3], trials, [], [0, 2, 1]), 2.0) == NEVER
    ensures TimeFor(Outcomes(trials, [0, 2, 1]), 2.0) == 1.0
  {
    hide Ge, UpperPerf, LowerT, TimeFor, Positive, Explored, Outcomes, Product, Monotone, Safe, Clocked;
    RisingIsMonotone(trials);
    BoundsOfThree(trials);
    TimesOfThree(trials, 1.0);
    TimesOfThree(trials, 2.0);
    RunsOfThree(trials);
    LosesOnThree(trials, 2.0);
  }

  /** 0, 1, ... up to n. */
  function Counting(n: nat): seq<nat> {
    seq(n, (i: nat) => i)
  }

  /** Two sequences that undo each other: each holds every index once. */
  predicate Bijection(s: seq<nat>, inverse: seq<nat>) {
    && |s| == |inverse|
    && (forall i :: 0 <= i < |s| ==> s[i] < |s| && inverse[s[i]] == i)
    && (forall v :: 0 <= v < |s| ==> inverse[v] < |s| && s[inverse[v]] == v)
  }

  lemma SwapKeepsBijection(s: seq<nat>, inverse: seq<nat>, i: nat, j: nat)
    requires Bijection(s, inverse) && i < |s| && j < |s|
    ensures Bijection(s[i := s[j]][j := s[i]], inverse[s[i] := j][s[j] := i])
  {
  }

  /** Shuffles n places of the array, starting at start, whatever the draws are. */
  method RandPerm(perm: array<nat>, start: nat, n: nat, draws: nat -> nat) returns (ghost inverse: seq<nat>)
    requires start + n <= perm.Length
    modifies perm
    ensures Bijection(perm[start..start + n], inverse)
    ensures perm[..start] == old(perm[..start]) && perm[start + n..] == old(perm[start + n..])
  {
    for i := 0 to n
      invariant perm[start..start + i] == Counting(i)
      invariant perm[..start] == old(perm[..start]) && perm[start + n..] == old(perm[start + n..])
    {
      perm[start + i] := i;
    }
    inverse := perm[start..start + n];
    assert inverse == Counting(n);
    var i := 0;
    while i + 1 < n
      invariant Bijection(perm[start..start + n], inverse)
      invariant perm[..start] == old(perm[..start]) && perm[start + n..] == old(perm[start + n..])
    {
      var j := i + draws(i) % (n - i);
      ghost var s := perm[start..start + n];
      SwapKeepsBijection(s, inverse, i, j);
      hide Bijection;
      perm[start + i], perm[start + j] := perm[start + j], perm[start + i];
      assert perm[start..start + n] == s[i := s[j]][j := s[i]];
      inverse := inverse[s[i] := j][s[j] := i];
      i := i + 1;
    }
  }

  /** How many experiments are considered: none asked for or too many means all (a negative count, compared
      as an unsigned number, is too many). */
  function Rounds(n: nat, experiments: int): nat {
    if experiments < 0 || experiments > n then n else experiments
  }

  /** An order of experiments: the cheapest first, then the most expensive, then the rest. */
  ghost predicate IsOrder(order: seq<nat>, n: nat) {
    && |order| == n
    && (exists inverse :: Bijection(order, inverse))
    && (n > 0 ==> order[0] == 0) && (n > 1 ==> order[1] == n - 1)
  }

  /** A shuffle of the middle experiments, put behind the first and the last one. */
  lemma OrderFromShuffle(order: seq<nat>, s: seq<nat>, inverse: seq<nat>)
    requires |order| == |s| + 2 && Bijection(s, inverse)
    requires order[0] == 0 && order[1] == |s| + 1
    requires forall i :: 0 <= i < |s| ==> order[i + 2] == s[i] + 1
    ensures IsOrder(order, |order|)
  {
    var n := |order|;
    var inv := seq(n, v requires 0 <= v < n => if v == 0 then 0 else if v == n - 1 then 1 else inverse[v - 1] + 2);
    forall i | 0 <= i < n
      ensures order[i] < n && inv[order[i]] == i
    {
      if i >= 2 {
        assert order[i - 2 + 2] == s[i - 2] + 1;
      }
    }
    forall v | 0 <= v < n
      ensures inv[v] < n && order[inv[v]] == v
    {
      if 0 < v < n - 1 {
        assert order[inverse[v - 1] + 2] == s[inverse[v - 1]] + 1;
      }
    }
    assert Bijection(order, inv);
  }

  lemma OrderInRange(order: seq<nat>, n: nat)
    requires IsOrder(order, n)
    ensures |order| == n && forall i :: 0 <= i < n ==> order[i] < n
  {
  }

  lemma OneExperiment()
    ensures IsOrder([0], 1)
  {
    assert Bijection([0], [0]);
  }

  /** The random order of all n experiments. */
  method ExperimentOrder(n: nat, draws: nat -> nat) returns (perm: array<nat>)
    requires n > 0
    ensures fresh(perm) && IsOrder(perm[..], n)
  {
    hide *;
    perm := new nat[n];
    perm[0] := 0;
    if n == 1 {
      assert perm[..] == [0];
      OneExperiment();
      return;
    }
    perm[1] := n - 1;
    ghost var inverse := RandPerm(perm, 2, n - 2, draws);
    ghost var s := perm[2..];
    assert perm[2..2 + (n - 2)] == s;
    assert perm[..2][0] == 0 && perm[..2][1] == n - 1;
    for i := 2 to perm.Length
      invariant perm[0] == 0 && perm[1] == n - 1
      invariant forall k :: 2 <= k < n ==> perm[k] == if k < i then s[k - 2] + 1 else s[k - 2]
    {
      perm[i] := perm[i] + 1;
    }
    forall i | 0 <= i < |s|
      ensures perm[..][i + 2] == s[i] + 1
    {
      assert perm[i + 2] == s[i + 2 - 2] + 1;
    }
    OrderFromShuffle(perm[..], s, inverse);
  }

  method UpdateBounds(sizes: seq<nat>, cno: nat, op: OperatingPoint, upper: real, lower: real)
    returns (upper': real, lower': real)
    requires Positive(sizes) && op.cno >= 0
    ensures lower' == if Ge(sizes, cno, op.cno) && op.t > lower then op.t else lower
    ensures upper' == if Ge(sizes, op.cno, cno) && op.perf < upper then op.perf else upper
  {
    upper', lower' := upper, lower;
    var above := CombinationGe(sizes, cno, op.cno);
    if above {
      if op.t > lower {
        lower' := op.t;
      }
    }
    var below := CombinationGe(sizes, op.cno, cno);
    if below {
      if op.perf < upper {
        upper' := op.perf;
      }
    }
  }

  lemma BoundsStart(sizes: seq<nat>, pts: seq<OperatingPoint>, c: nat)
    requires Positive(sizes) && Numbered(pts)
    ensures Numbered(pts[..0]) && UpperPerf(sizes, pts[..0], c) == 1.0 && LowerT(sizes, pts[..0], c) == 0.0
  {
  }

  lemma BoundsNext(sizes: seq<nat>, pts: seq<OperatingPoint>, i: nat, c: nat)
    requires Positive(sizes) && Numbered(pts) && i < |pts|
    ensures Numbered(pts[..i]) && Numbered(pts[..i + 1]) && pts[i].cno >= 0
    ensures UpperPerf(sizes, pts[..i + 1], c) == var rest := UpperPerf(sizes, pts[..i], c);
        if Ge(sizes, pts[i].cno, c) && pts[i].perf < rest then pts[i].perf else rest
    ensures LowerT(sizes, pts[..i + 1], c) == var rest := LowerT(sizes, pts[..i], c);
        if Ge(sizes, c, pts[i].cno) && pts[i].t > rest then pts[i].t else rest
  {
    assert Numbered(pts[..i]) && pts[i].cno >= 0;
    hide *;
    assert pts[..i + 1] == pts[..i] + [pts[i]];
    BoundsSnoc(sizes, pts[..i], pts[i], c);
  }

  lemma SkipsIs(sizes: seq<nat>, pts: seq<OperatingPoint>, c: nat)
    requires Positive(sizes) && Numbered(pts)
    ensures Skips(sizes, pts, c) <==> TimeFor(pts, UpperPerf(sizes, pts, c)) <= LowerT(sizes, pts, c)
  {
    hide TimeFor, UpperPerf, LowerT;
  }

  lemma ValidIsTimed(ops: OperatingPoints)
    requires ops.Valid()
    ensures Timed(ops.all_pts)
  {
    hide Timed;
  }

  /** Whether the bounds from all recorded points say that experiment cno cannot help. */
  method ShouldSkip(sizes: seq<nat>, ops: OperatingPoints, cno: nat) returns (skip: bool)
    requires Positive(sizes) && ops.Valid() && Numbered(ops.all_pts)
    ensures skip == Skips(sizes, ops.all_pts, cno)
    ensures skip <==>
      CannotHelp(ops.all_pts, UpperPerf(sizes, ops.all_pts, cno), LowerT(sizes, ops.all_pts, cno))
  {
    hide *;
    ValidIsTimed(ops);
    SkipIff(sizes, ops.all_pts, cno);
    SkipsIs(sizes, ops.all_pts, cno);
    BoundsStart(sizes, ops.all_pts, cno);
    var lower, upper := 0.0, 1.0;
    for i := 0 to |ops.all_pts|
      invariant Numbered(ops.all_pts[..i])
      invariant upper == UpperPerf(sizes, ops.all_pts[..i], cno)
      invariant lower == LowerT(sizes, ops.all_pts[..i], cno)
    {
      BoundsNext(sizes, ops.all_pts, i, cno);
      upper, lower := UpdateBounds(sizes, cno, ops.all_pts[i], upper, lower);
    }
    assert ops.all_pts[..|ops.all_pts|] == ops.all_pts;
    var best := ops.TForPerf(upper);
    skip := best <= lower;
  }

  /** Runs the experiments and records them. Zero experiments asked for means all of them, in turn, without
      pruning; with fewer than three to run out of several the source gives up. */
  method Explore(sizes: seq<nat>, experiments: int, trials: Trials, draws: nat -> nat, ops: OperatingPoints)
    returns (ok: bool, ghost order: seq<nat>)
    requires ops.Valid() && Numbered(ops.all_pts) && Clocked(trials, Product(sizes))
    modifies ops
    ensures ops.Valid()
    ensures ok <==> experiments == 0 || Product(sizes) == 1 || Rounds(Product(sizes), experiments) > 2
    ensures !ok ==> ops.all_pts == old(ops.all_pts)
    ensures experiments == 0 ==> ops.all_pts == old(ops.all_pts) + Outcomes(trials, Counting(Product(sizes)))
    ensures ok && experiments != 0 ==>
      && Positive(sizes) && IsOrder(order, Product(sizes))
      && ops.all_pts == Explored(sizes, trials, old(ops.all_pts), order[..Rounds(Product(sizes), experiments)])
  {
    hide Product, Positive, Bijection, IsOrder, Explored, Outcomes, Counting, Clocked, Numbered, OperatingPoints.Valid;
    order := [];
    ok := true;
    var n := NCombinations(sizes);
    if experiments == 0 {
      RunAll(n, trials, ops);
      return;
    }
    var rounds := experiments;
    if experiments < 0 || experiments > n {
      rounds := n;
    }
    if n != 1 && rounds <= 2 {
      return false, [];
    }
    ProductPositive(sizes);
    var perm := ExperimentOrder(n, draws);
    order := perm[..];
    OrderInRange(order, n);
    RunPruned(sizes, trials, ops, perm, rounds);
  }

  method RunAll(n: nat, trials: Trials, ops: OperatingPoints)
    requires ops.Valid() && Clocked(trials, n)
    modifies ops
    ensures ops.Valid() && ops.all_pts == old(ops.all_pts) + Outcomes(trials, Counting(n))
  {
    hide TimeFor, Timed, Covers, Front, Insert;
    for cno := 0 to n
      invariant ops.Valid() && ops.all_pts == old(ops.all_pts) + Outcomes(trials, Counting(cno))
    {
      assert Counting(cno + 1)[..cno] == Counting(cno);
      var kept := ops.Add(trials.perf(cno), trials.t(cno), trials.key(cno), cno);
    }
  }

  method RunPruned(sizes: seq<nat>, trials: Trials, ops: OperatingPoints, perm: array<nat>, rounds: nat)
    requires ops.Valid() && Numbered(ops.all_pts) && Clocked(trials, Product(sizes)) && Positive(sizes)
    requires rounds <= perm.Length && forall i :: 0 <= i < rounds ==> perm[i] < Product(sizes)
    modifies ops
    ensures ops.Valid() && ops.all_pts == Explored(sizes, trials, old(ops.all_pts), perm[..rounds])
  {
    hide TimeFor, Timed, Covers, Front, Insert, Skips, Product, Positive;
    for xp := 0 to rounds
      invariant ops.Valid() && ops.all_pts == Explored(sizes, trials, old(ops.all_pts), perm[..xp])
    {
      var cno := perm[xp];
      assert perm[..xp + 1] == perm[..xp] + [cno];
      ExploredSnoc(sizes, trials, old(ops.all_pts), perm[..xp], cno);
      hide Explored;
      var skip := ShouldSkip(sizes, ops, cno);
      if skip {
        continue;
      }
      var kept := ops.Add(trials.perf(cno), trials.t(cno), trials.key(cno), cno);
    }
  }
}
