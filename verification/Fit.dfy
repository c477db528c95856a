/** The least-squares line through measured points, over the reals. boot/uart3_frame_experiment.py:53-60. */
module Fit {
  import opened Common

  datatype Point = Point(x: real, y: real)

  datatype Line = Line(slope: real, intercept: real)

  /** A product by name, so that proofs about sums see it as a unit. */
  function Mul(a: real, b: real): real {
    a * b
  }

  function Sq(a: real): real {
    Mul(a, a)
  }

  function Last(ps: seq<Point>): Point
    requires ps != []
  {
    ps[|ps| - 1]
  }

  function Front(ps: seq<Point>): seq<Point>
    requires ps != []
  {
    ps[..|ps| - 1]
  }

  function Size(ps: seq<Point>): real {
    |ps| as real
  }

  function SumX(ps: seq<Point>): real {
    if ps == [] then 0.0 else SumX(Front(ps)) + Last(ps).x
  }

  function SumY(ps: seq<Point>): real {
    if ps == [] then 0.0 else SumY(Front(ps)) + Last(ps).y
  }

  function SumXX(ps: seq<Point>): real {
    if ps == [] then 0.0 else SumXX(Front(ps)) + Sq(Last(ps).x)
  }

  function SumXY(ps: seq<Point>): real {
    if ps == [] then 0.0 else SumXY(Front(ps)) + Mul(Last(ps).x, Last(ps).y)
  }

  /** What the slope is divided by. */
  function Denominator(ps: seq<Point>): real {
    Mul(Size(ps), SumXX(ps)) - Sq(SumX(ps))
  }

  /** `fit`; None is the division by zero. */
  function FitLine(ps: seq<Point>): Option<Line> {
    if Denominator(ps) == 0.0 then None
    else
      NoPoints(ps);
      var slope := (Mul(Size(ps), SumXY(ps)) - Mul(SumX(ps), SumY(ps))) / Denominator(ps);
      Some(Line(slope, (SumY(ps) - Mul(slope, SumX(ps))) / Size(ps)))
  }

  lemma NoPoints(ps: seq<Point>)
    ensures Size(ps) == 0.0 ==> Denominator(ps) == 0.0
    ensures Size(ps) >= 0.0
  {
  }

  // ---- Products ---------------------------------------------------------------------------------------------

  lemma MulAdd(a: real, u: real, v: real)
    ensures Mul(a, u + v) == Mul(a, u) + Mul(a, v)
    ensures Mul(a, u - v) == Mul(a, u) - Mul(a, v)
  {
  }

  lemma MulOne(a: real, u: real)
    ensures Mul(a + 1.0, u) == Mul(a, u) + u && Mul(a, 0.0) == 0.0 && Mul(0.0, u) == 0.0 && Mul(a, u) == Mul(u, a)
  {
  }

  lemma SqSum(a: real, b: real)
    ensures Sq(a + b) == Sq(a) + 2.0 * Mul(a, b) + Sq(b)
    ensures Sq(a - b) == Sq(a) - 2.0 * Mul(a, b) + Sq(b)
  {
  }

  lemma SqSign(a: real)
    ensures Sq(a) >= 0.0
    ensures Sq(a) > 0.0 <==> a != 0.0
  {
    if a > 0.0 {
      Positive(a, a);
    } else if a < 0.0 {
      Positive(-a, -a);
      assert Mul(a, a) == Mul(-a, -a);
    }
  }

  lemma Positive(a: real, b: real)
    requires a > 0.0 && b > 0.0
    ensures Mul(a, b) > 0.0
  {
  }

  // ---- The denominator --------------------------------------------------------------------------------------

  /** How far the points are from one value of x. */
  function Spread(ps: seq<Point>, x: real): real {
    if ps == [] then 0.0 else Spread(Front(ps), x) + Sq(Last(ps).x - x)
  }

  predicate AnyOff(ps: seq<Point>, x: real) {
    exists i :: 0 <= i < |ps| && ps[i].x != x
  }

  lemma AnyOffNext(ps: seq<Point>, x: real)
    requires ps != []
    ensures AnyOff(ps, x) <==> AnyOff(Front(ps), x) || Last(ps).x != x
  {
    if AnyOff(Front(ps), x) {
      var i :| 0 <= i < |Front(ps)| && Front(ps)[i].x != x;
      assert ps[i].x != x;
    }
    if AnyOff(ps, x) {
      var i :| 0 <= i < |ps| && ps[i].x != x;
      assert i < |ps| - 1 ==> Front(ps)[i].x != x;
    }
  }

  lemma {:induction false} SpreadSign(ps: seq<Point>, x: real)
    ensures Spread(ps, x) >= 0.0
    ensures Spread(ps, x) > 0.0 <==> AnyOff(ps, x)
  {
    hide Sq, Mul, AnyOff;
    if ps == [] {
      NoneOff(ps, x);
    } else {
      SpreadSign(Front(ps), x);
      SqSign(Last(ps).x - x);
      AnyOffNext(ps, x);
    }
  }

  lemma NoneOff(ps: seq<Point>, x: real)
    requires ps == []
    ensures !AnyOff(ps, x)
  {
  }

  lemma SizeNext(ps: seq<Point>)
    requires ps != []
    ensures Size(ps) == Size(Front(ps)) + 1.0 && |Front(ps)| < |ps|
  {
  }

  lemma SizeNone(ps: seq<Point>)
    requires ps == []
    ensures Size(ps) == 0.0
  {
  }

  lemma {:induction false} SpreadIs(ps: seq<Point>, x: real)
    ensures Spread(ps, x) == SumXX(ps) - 2.0 * Mul(x, SumX(ps)) + Mul(Size(ps), Sq(x))
  {
    hide Sq, Mul, Size;
    MulOne(x, 0.0);
    MulOne(0.0, Sq(x));
    if ps == [] {
      SizeNone(ps);
    } else {
      SpreadIs(Front(ps), x);
      SizeNext(ps);
      var u := Last(ps).x;
      SqSum(u, x);
      MulOne(u, x);
      MulAdd(x, SumX(Front(ps)), u);
      MulOne(Size(Front(ps)), Sq(x));
    }
  }

  lemma DenominatorNext(ps: seq<Point>)
    requires ps != []
    ensures Denominator(ps) == Denominator(Front(ps)) + Spread(Front(ps), Last(ps).x)
  {
    hide Sq, Mul, Size, Spread;
    var x, sx, sxx, m := Last(ps).x, SumX(Front(ps)), SumXX(Front(ps)), Size(Front(ps));
    SpreadIs(Front(ps), x);
    SizeNext(ps);
    MulOne(m, sxx + Sq(x));
    MulAdd(m, sxx, Sq(x));
    SqSum(sx, x);
    MulOne(sx, x);
  }

  predicate TwoDiffer(ps: seq<Point>) {
    exists i, j :: 0 <= i < j < |ps| && ps[i].x != ps[j].x
  }

  lemma TwoDifferNext(ps: seq<Point>)
    requires ps != []
    ensures TwoDiffer(ps) <==> TwoDiffer(Front(ps)) || AnyOff(Front(ps), Last(ps).x)
  {
    var f, n := Front(ps), |ps| - 1;
    if TwoDiffer(f) {
      var i, j :| 0 <= i < j < |f| && f[i].x != f[j].x;
      assert ps[i].x != ps[j].x;
    }
    if AnyOff(f, Last(ps).x) {
      var i :| 0 <= i < |f| && f[i].x != Last(ps).x;
      assert ps[i].x != ps[n].x;
    }
    if TwoDiffer(ps) {
      var i, j :| 0 <= i < j < |ps| && ps[i].x != ps[j].x;
      assert f[i].x == ps[i].x;
      assert j < n ==> f[j].x == ps[j].x;
    }
  }

  /** The denominator is never negative, and positive exactly when two x values differ. */
  lemma {:induction false} DenominatorSign(ps: seq<Point>)
    ensures Denominator(ps) >= 0.0
    ensures Denominator(ps) > 0.0 <==> TwoDiffer(ps)
  {
    hide Denominator, Spread, AnyOff;
    if ps == [] {
      NoPoints(ps);
      SizeNone(ps);
    } else {
      DenominatorSign(Front(ps));
      DenominatorNext(ps);
      SpreadSign(Front(ps), Last(ps).x);
      TwoDifferNext(ps);
    }
  }

  /** A line is fitted exactly when two x values differ. */
  lemma FitsIff(ps: seq<Point>)
    ensures FitLine(ps).Some? <==> TwoDiffer(ps)
  {
    hide Denominator;
    DenominatorSign(ps);
  }

  // ---- Residuals --------------------------------------------------------------------------------------------

  /** How far a point is above a line, and how much higher another line is there. */
  function Above(p: Point, a: real, b: real): real {
    p.y - Mul(a, p.x) - b
  }

  function Rise(p: Point, da: real, db: real): real {
    Mul(da, p.x) + db
  }

  function Residuals(ps: seq<Point>, a: real, b: real): real {
    if ps == [] then 0.0 else Residuals(Front(ps), a, b) + Sq(Above(Last(ps), a, b))
  }

  function Change(ps: seq<Point>, da: real, db: real): real {
    if ps == [] then 0.0 else Change(Front(ps), da, db) + Sq(Rise(Last(ps), da, db))
  }

  function Cross(ps: seq<Point>, a: real, b: real, da: real, db: real): real {
    if ps == [] then 0.0 else Cross(Front(ps), a, b, da, db) + Mul(Above(Last(ps), a, b), Rise(Last(ps), da, db))
  }

  lemma {:induction false} ChangeSign(ps: seq<Point>, da: real, db: real)
    ensures Change(ps, da, db) >= 0.0
  {
    hide Sq, Rise;
    if ps != [] {
      ChangeSign(Front(ps), da, db);
      SqSign(Rise(Last(ps), da, db));
    }
  }

  lemma AboveOther(p: Point, a: real, b: real, da: real, db: real)
    ensures Above(p, a + da, b + db) == Above(p, a, b) - Rise(p, da, db)
  {
  }

  /** Another line's residuals, from those of the line a, b. */
  lemma {:induction false} ResidualsOfOther(ps: seq<Point>, a: real, b: real, da: real, db: real)
    ensures Residuals(ps, a + da, b + db) == Residuals(ps, a, b) - 2.0 * Cross(ps, a, b, da, db) + Change(ps, da, db)
  {
    hide Sq, Mul, Above, Rise;
    if ps != [] {
      ResidualsOfOther(Front(ps), a, b, da, db);
      AboveOther(Last(ps), a, b, da, db);
      SqSum(Above(Last(ps), a, b), Rise(Last(ps), da, db));
    }
  }

  /** The two sums of residuals a fitted line makes zero. */
  function Slack(ps: seq<Point>, a: real, b: real): real {
    SumY(ps) - Mul(a, SumX(ps)) - Mul(b, Size(ps))
  }

  function Moment(ps: seq<Point>, a: real, b: real): real {
    SumXY(ps) - Mul(a, SumXX(ps)) - Mul(b, SumX(ps))
  }

  lemma SlackNext(ps: seq<Point>, a: real, b: real)
    requires ps != []
    ensures Slack(ps, a, b) == Slack(Front(ps), a, b) + Above(Last(ps), a, b)
  {
    hide Mul, Size;
    SizeNext(ps);
    MulAdd(a, SumX(Front(ps)), Last(ps).x);
    MulAdd(b, Size(Front(ps)), 1.0);
    MulUnit(b);
  }

  lemma MulUnit(b: real)
    ensures Mul(b, 1.0) == b
  {
  }

  lemma MomentNext(ps: seq<Point>, a: real, b: real)
    requires ps != []
    ensures Moment(ps, a, b) == Moment(Front(ps), a, b) + Mul(Last(ps).x, Above(Last(ps), a, b))
  {
    hide Mul, Sq;
    var p := Last(ps);
    MulAdd(a, SumXX(Front(ps)), Sq(p.x));
    MulAdd(b, SumX(Front(ps)), p.x);
    MomentTerm(p, a, b);
  }

  lemma MomentTerm(p: Point, a: real, b: real)
    ensures Mul(p.x, Above(p, a, b)) == Mul(p.x, p.y) - Mul(a, Sq(p.x)) - Mul(b, p.x)
  {
  }

  lemma CrossTerm(x: real, r: real, da: real, db: real)
    ensures Mul(r, Mul(da, x) + db) == Mul(da, Mul(x, r)) + Mul(db, r)
  {
  }

  lemma {:induction false} CrossIs(ps: seq<Point>, a: real, b: real, da: real, db: real)
    ensures Cross(ps, a, b, da, db) == Mul(da, Moment(ps, a, b)) + Mul(db, Slack(ps, a, b))
  {
    hide Mul, Sq, Above, Size, Moment, Slack;
    if ps == [] {
      NoResiduals(ps, a, b, da, db);
    } else {
      var p := Last(ps);
      CrossIs(Front(ps), a, b, da, db);
      MomentNext(ps, a, b);
      SlackNext(ps, a, b);
      CrossTerm(p.x, Above(p, a, b), da, db);
      MulAdd(da, Moment(Front(ps), a, b), Mul(p.x, Above(p, a, b)));
      MulAdd(db, Slack(Front(ps), a, b), Above(p, a, b));
    }
  }

  lemma NoResiduals(ps: seq<Point>, a: real, b: real, da: real, db: real)
    requires ps == []
    ensures Cross(ps, a, b, da, db) == 0.0 == Mul(da, Moment(ps, a, b)) + Mul(db, Slack(ps, a, b))
  {
  }

  lemma QuotientTimes(p: real, d: real)
    requires d != 0.0
    ensures Mul(p / d, d) == p
  {
  }

  lemma MulMul(a: real, b: real, c: real)
    ensures Mul(a, Mul(b, c)) == Mul(Mul(a, b), c) == Mul(b, Mul(a, c))
  {
  }

  lemma ZeroFactor(n: real, e: real)
    requires n > 0.0 && Mul(n, e) == 0.0
    ensures e == 0.0
  {
  }

  /** The fitted line makes both sums zero. */
  lemma NormalEquations(n: real, sx: real, sy: real, sxx: real, sxy: real, a: real, b: real)
    requires n > 0.0
    requires Mul(a, Mul(n, sxx) - Sq(sx)) == Mul(n, sxy) - Mul(sx, sy) && Mul(b, n) == sy - Mul(a, sx)
    ensures sxy - Mul(a, sxx) - Mul(b, sx) == 0.0
  {
    hide Mul;
    var e := sxy - Mul(a, sxx) - Mul(b, sx);
    MulAdd(n, sxy - Mul(a, sxx), Mul(b, sx));
    MulAdd(n, sxy, Mul(a, sxx));
    MulMul(n, a, sxx);
    MulMul(n, b, sx);
    MulAdd(a, Mul(n, sxx), Sq(sx));
    MulOne(n, b);
    MulOne(sx, sy);
    assert Mul(Mul(n, b), sx) == Mul(sx, sy - Mul(a, sx)) by { MulOne(Mul(n, b), sx); }
    MulAdd(sx, sy, Mul(a, sx));
    MulMul(sx, a, sx);
    ZeroFactor(n, e);
  }

  lemma FitEquations(ps: seq<Point>)
    requires FitLine(ps).Some?
    ensures var fit := FitLine(ps).value; Moment(ps, fit.slope, fit.intercept) == 0.0 && Slack(ps, fit.slope, fit.intercept) == 0.0
  {
    hide Mul, Size, SumX, SumY, SumXX, SumXY, Sq;
    var fit := FitLine(ps).value;
    NoPoints(ps);
    QuotientTimes(Mul(Size(ps), SumXY(ps)) - Mul(SumX(ps), SumY(ps)), Denominator(ps));
    QuotientTimes(SumY(ps) - Mul(fit.slope, SumX(ps)), Size(ps));
    NormalEquations(Size(ps), SumX(ps), SumY(ps), SumXX(ps), SumXY(ps), fit.slope, fit.intercept);
  }

  /** No line has a smaller sum of squared residuals than the fitted one. */
  lemma FitIsOptimal(ps: seq<Point>, other: Line)
    requires FitLine(ps).Some?
    ensures var fit := FitLine(ps).value;
            Residuals(ps, fit.slope, fit.intercept) <= Residuals(ps, other.slope, other.intercept)
  {
    hide FitLine, Mul, Moment, Slack, Residuals, Cross, Change;
    var fit := FitLine(ps).value;
    var a, b := fit.slope, fit.intercept;
    var da, db := other.slope - a, other.intercept - b;
    FitEquations(ps);
    CrossIs(ps, a, b, da, db);
    MulOne(da, 0.0);
    MulOne(db, 0.0);
    ResidualsOfOther(ps, a, b, da, db);
    assert a + da == other.slope && b + db == other.intercept;
    ChangeSign(ps, da, db);
  }

  // ---- Collinear points -------------------------------------------------------------------------------------

  predicate OnLine(ps: seq<Point>, line: Line) {
    forall i :: 0 <= i < |ps| ==> ps[i].y == line.slope * ps[i].x + line.intercept
  }

  lemma {:induction false} NoResidualsOnLine(ps: seq<Point>, line: Line)
    requires OnLine(ps, line)
    ensures Residuals(ps, line.slope, line.intercept) == 0.0
  {
    if ps != [] {
      NoResidualsOnLine(Front(ps), line);
      assert Above(Last(ps), line.slope, line.intercept) == 0.0;
      SqSign(0.0);
    }
  }

  lemma {:induction false} ZeroResiduals(ps: seq<Point>, a: real, b: real, i: nat)
    requires Residuals(ps, a, b) <= 0.0 && i < |ps|
    ensures Above(ps[i], a, b) == 0.0
  {
    hide Sq, Above;
    ResidualsSign(Front(ps), a, b);
    SqSign(Above(Last(ps), a, b));
    if i < |ps| - 1 {
      ZeroResiduals(Front(ps), a, b, i);
    }
  }

  lemma {:induction false} ResidualsSign(ps: seq<Point>, a: real, b: real)
    ensures Residuals(ps, a, b) >= 0.0
  {
    hide Sq, Above;
    if ps != [] {
      ResidualsSign(Front(ps), a, b);
      SqSign(Above(Last(ps), a, b));
    }
  }

  lemma TwoPoints(p: Point, q: Point, a: real, b: real, m: real, c: real)
    requires p.x != q.x
    requires Above(p, a, b) == 0.0 && Above(q, a, b) == 0.0 && Above(p, m, c) == 0.0 && Above(q, m, c) == 0.0
    ensures a == m && b == c
  {
    var d := p.x - q.x;
    assert Mul(a - m, d) == 0.0;
    if a != m {
      SqSign(a - m);
      SqSign(d);
      NonZero(a - m, d);
    }
  }

  lemma NonZero(u: real, v: real)
    requires u != 0.0 && v != 0.0
    ensures Mul(u, v) != 0.0
  {
  }

  /** On collinear points the fit recovers the line: it has no larger residuals than the line, so none. */
  lemma FitRecoversLine(ps: seq<Point>, line: Line)
    requires TwoDiffer(ps) && OnLine(ps, line)
    ensures FitLine(ps) == Some(line)
  {
    hide FitLine, Residuals, Above;
    FitsIff(ps);
    var fit := FitLine(ps).value;
    FitIsOptimal(ps, line);
    NoResidualsOnLine(ps, line);
    var i, j :| 0 <= i < j < |ps| && ps[i].x != ps[j].x;
    ZeroResiduals(ps, fit.slope, fit.intercept, i);
    ZeroResiduals(ps, fit.slope, fit.intercept, j);
    ZeroResiduals(ps, line.slope, line.intercept, i);
    ZeroResiduals(ps, line.slope, line.intercept, j);
    TwoPoints(ps[i], ps[j], fit.slope, fit.intercept, line.slope, line.intercept);
  }
}
