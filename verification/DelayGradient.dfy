/**
 * The receiver's delay gradient (transport/rate_control.rs): a trimmed history of one-way delays
 * and a linear regression over its last 200 samples.
 */
module DelayGradient {
  import opened Prelude

  const HISTORY_LIMIT := 10000
  const HISTORY_DROP := 5000
  const WINDOW := 200
  const MIN_SAMPLES := 10

  /** A timestamp in microseconds and a delay in microseconds. */
  type Sample = (nat, real)

  function Record(history: seq<Sample>, s: Sample): seq<Sample> {
    var h := history + [s];
    if |h| > HISTORY_LIMIT then h[HISTORY_DROP..] else h
  }

  function Stored(samples: seq<Sample>): seq<Sample> {
    if samples == [] then [] else Record(Stored(samples[..|samples| - 1]), samples[|samples| - 1])
  }

  function LastWindow(history: seq<Sample>): seq<Sample> {
    history[Max(|history| - WINDOW, 0)..]
  }

  /** The stored history is a suffix of everything recorded, bounded, and never short of the window. */
  lemma {:induction false} StoredIsSuffix(samples: seq<Sample>)
    ensures |Stored(samples)| <= |samples|
    ensures Stored(samples) == samples[|samples| - |Stored(samples)|..]
    ensures Min(|samples|, HISTORY_DROP) <= |Stored(samples)| <= HISTORY_LIMIT
  {
    if samples != [] {
      var front := samples[..|samples| - 1];
      StoredIsSuffix(front);
      assert samples == front + [samples[|samples| - 1]];
    }
  }

  /** Trimming is invisible: the gradient equals the one of the untrimmed trace. */
  lemma TrimmingInvisible(samples: seq<Sample>)
    ensures Gradient(Stored(samples)) == Gradient(samples)
  {
    StoredIsSuffix(samples);
    var stored := Stored(samples);
    if |samples| >= WINDOW {
      assert LastWindow(stored) == LastWindow(samples);
    } else {
      assert stored == samples;
    }
  }

  // ---- The regression ----

  /** The product, named so that proofs can treat products as atoms. */
  function Mul(x: real, y: real): real {
    x * y
  }

  datatype Point = Point(t: real, o: real)

  /** Times relative to the first sample of the window. */
  function Points(window: seq<Sample>): (r: seq<Point>)
    requires window != []
    ensures |r| == |window|
  {
    seq(|window|, i requires 0 <= i < |window| => Point((window[i].0 as int - window[0].0) as real, window[i].1))
  }

  /** `iter().map(f).sum()` */
  function Total(ps: seq<Point>, f: Point -> real): real {
    if ps == [] then 0.0 else Total(ps[..|ps| - 1], f) + f(ps[|ps| - 1])
  }

  function One(p: Point): real { 1.0 }

  function Time(p: Point): real { p.t }

  function Delay(p: Point): real { p.o }

  function TimeDelay(p: Point): real { Mul(p.t, p.o) }

  function TimeTime(p: Point): real { Mul(p.t, p.t) }

  function Size(ps: seq<Point>): real {
    |ps| as real
  }

  function Denominator(ps: seq<Point>): real {
    Mul(Size(ps), Total(ps, TimeTime)) - Mul(Total(ps, Time), Total(ps, Time))
  }

  function Numerator(ps: seq<Point>): real {
    Mul(Size(ps), Total(ps, TimeDelay)) - Mul(Total(ps, Time), Total(ps, Delay))
  }

  const TINY := 0.0000000001

  function Slope(ps: seq<Point>): real {
    var d := Denominator(ps);
    if -TINY < d < TINY then 0.0 else Numerator(ps) / d
  }

  function Gradient(history: seq<Sample>): real {
    if |history| < MIN_SAMPLES then 0.0 else Slope(Points(LastWindow(history)))
  }

  class ReceiverRateCalculator {
    var owdHistory: seq<Sample>
    /** Every sample ever recorded. */
    ghost var trace: seq<Sample>

    ghost predicate Valid()
      reads this
    {
      owdHistory == Stored(trace)
    }

    constructor ()
      ensures Valid() && trace == []
    {
      owdHistory, trace := [], [];
    }

    method RecordOwd(timestampUs: nat, owdUs: real)
      requires Valid()
      modifies this
      ensures Valid() && trace == old(trace) + [(timestampUs, owdUs)]
    {
      owdHistory := owdHistory + [(timestampUs, owdUs)];
      if |owdHistory| > HISTORY_LIMIT {
        owdHistory := owdHistory[HISTORY_DROP..];
      }
      trace := trace + [(timestampUs, owdUs)];
      assert trace[..|trace| - 1] == old(trace);
    }

    /** Computed from the trimmed history, equal to the gradient of the whole trace. */
    method OwdGradient() returns (g: real)
      requires Valid()
      ensures g == Gradient(trace)
    {
      g := Gradient(owdHistory);
      TrimmingInvisible(trace);
    }
  }

  // ---- Sums ----

  lemma {:induction false} TotalSame(ps: seq<Point>, qs: seq<Point>, f: Point -> real, g: Point -> real)
    requires |ps| == |qs| && forall i :: 0 <= i < |ps| ==> f(ps[i]) == g(qs[i])
    ensures Total(ps, f) == Total(qs, g)
  {
    if ps != [] {
      TotalSame(ps[..|ps| - 1], qs[..|qs| - 1], f, g);
    }
  }

  function Plus(f: Point -> real, c: real, g: Point -> real): Point -> real {
    (p: Point) => f(p) + Mul(c, g(p))
  }

  lemma PlusAt(f: Point -> real, c: real, g: Point -> real, p: Point)
    ensures Plus(f, c, g)(p) == f(p) + Mul(c, g(p))
  {}

  lemma Distribute(c: real, x: real, y: real)
    ensures Mul(c, x + y) == Mul(c, x) + Mul(c, y)
    ensures Mul(c, 0.0) == 0.0 && Mul(c, 1.0) == c
  {}

  lemma {:induction false} TotalPlus(ps: seq<Point>, f: Point -> real, c: real, g: Point -> real)
    ensures Total(ps, Plus(f, c, g)) == Total(ps, f) + Mul(c, Total(ps, g))
  {
    hide Mul;
    if ps != [] {
      var front, p := ps[..|ps| - 1], ps[|ps| - 1];
      TotalPlus(front, f, c, g);
      Distribute(c, Total(front, g), g(p));
    } else {
      Distribute(c, 0.0, 0.0);
    }
  }

  /** The total of a function that is pointwise `f + c*g + d*h`. */
  lemma TotalThree(ps: seq<Point>, k: Point -> real, f: Point -> real, c: real, g: Point -> real, d: real, h: Point -> real)
    requires forall i :: 0 <= i < |ps| ==> k(ps[i]) == f(ps[i]) + Mul(c, g(ps[i])) + Mul(d, h(ps[i]))
    ensures Total(ps, k) == Total(ps, f) + Mul(c, Total(ps, g)) + Mul(d, Total(ps, h))
  {
    hide Mul;
    var inner := Plus(f, c, g);
    TotalSame(ps, ps, k, Plus(inner, d, h));
    TotalPlus(ps, inner, d, h);
    TotalPlus(ps, f, c, g);
  }

  function Zero(p: Point): real { 0.0 }

  lemma {:induction false} TotalConstants(ps: seq<Point>)
    ensures Total(ps, One) == Size(ps) && Total(ps, Zero) == 0.0
  {
    if ps != [] {
      TotalConstants(ps[..|ps| - 1]);
    }
  }

  lemma {:induction false} TotalNonneg(ps: seq<Point>, f: Point -> real)
    requires forall i :: 0 <= i < |ps| ==> f(ps[i]) >= 0.0
    ensures Total(ps, f) >= 0.0
    ensures Total(ps, f) == 0.0 <==> forall i :: 0 <= i < |ps| ==> f(ps[i]) == 0.0
  {
    if ps != [] {
      var front := ps[..|ps| - 1];
      TotalNonneg(front, f);
      assert forall i :: 0 <= i < |front| ==> front[i] == ps[i];
    }
  }

  lemma PositiveProduct(x: real, y: real)
    requires x > 0.0 && y > 0.0
    ensures Mul(x, y) > 0.0
  {}

  lemma NegatedSquare(x: real)
    ensures Mul(x, x) == Mul(-x, -x)
  {
    var y := -x;
    assert Mul(x, y) == -Mul(x, x) by {
      assert x * y == -(x * x);
    }
    assert Mul(y, y) == -Mul(x, y) by {
      assert y * y == -(x * y);
    }
  }

  lemma ZeroSquare()
    ensures Mul(0.0, 0.0) == 0.0
  {}

  lemma Square(x: real)
    ensures Mul(x, x) >= 0.0
    ensures Mul(x, x) == 0.0 <==> x == 0.0
  {
    hide Mul;
    if x > 0.0 {
      PositiveProduct(x, x);
    } else if x < 0.0 {
      PositiveProduct(-x, -x);
      NegatedSquare(x);
    } else {
      ZeroSquare();
    }
  }

  // ---- The denominator: Cauchy-Schwarz by induction ----

  /** The squared distance of a point's time from `t`. */
  function Distance(t: real): Point -> real {
    (p: Point) => Mul(p.t - t, p.t - t)
  }

  lemma DistanceExpands(x: real, t: real)
    ensures Mul(x - t, x - t) == Mul(x, x) + Mul(-2.0 * t, x) + Mul(Mul(t, t), 1.0)
  {
    assert (x - t) * (x - t) == x * x - 2.0 * (t * x) + t * t;
  }

  lemma DistancesExpand(ps: seq<Point>, t: real)
    ensures Total(ps, Distance(t)) == Total(ps, TimeTime) + Mul(-2.0 * t, Total(ps, Time)) + Mul(Mul(t, t), Size(ps))
  {
    hide Mul;
    forall i | 0 <= i < |ps|
      ensures Distance(t)(ps[i]) == TimeTime(ps[i]) + Mul(-2.0 * t, Time(ps[i])) + Mul(Mul(t, t), One(ps[i]))
    {
      DistanceExpands(ps[i].t, t);
    }
    TotalThree(ps, Distance(t), TimeTime, -2.0 * t, Time, Mul(t, t), One);
    TotalConstants(ps);
  }

  lemma DenominatorStep(n: real, tt: real, st: real, x: real)
    ensures Mul(n + 1.0, tt + Mul(x, x)) - Mul(st + x, st + x)
      == (Mul(n, tt) - Mul(st, st)) + (tt + Mul(-2.0 * x, st) + Mul(Mul(x, x), n))
  {
    var xx := x * x;
    assert (n + 1.0) * (tt + xx) == n * tt + n * xx + tt + xx;
    assert (st + x) * (st + x) == st * st + st * x + x * st + xx;
  }

  /** Each point adds the squared distances between its time and those before it. */
  lemma DenominatorGrows(front: seq<Point>, p: Point)
    ensures Denominator(front + [p]) == Denominator(front) + Total(front, Distance(p.t))
  {
    hide Mul;
    var ps := front + [p];
    assert ps[..|ps| - 1] == front;
    DistancesExpand(front, p.t);
    DenominatorStep(Size(front), Total(front, TimeTime), Total(front, Time), p.t);
  }

  lemma DistancesSign(ps: seq<Point>, t: real)
    ensures Total(ps, Distance(t)) >= 0.0
    ensures Total(ps, Distance(t)) == 0.0 <==> forall i :: 0 <= i < |ps| ==> ps[i].t == t
  {
    hide Mul;
    forall i | 0 <= i < |ps|
      ensures Distance(t)(ps[i]) >= 0.0
      ensures Distance(t)(ps[i]) == 0.0 <==> ps[i].t == t
    {
      Square(ps[i].t - t);
    }
    TotalNonneg(ps, Distance(t));
  }

  ghost predicate SameTimes(ps: seq<Point>) {
    forall i, j :: 0 <= i < |ps| && 0 <= j < |ps| ==> ps[i].t == ps[j].t
  }

  /** The denominator is never negative, and zero exactly when all times coincide. */
  lemma {:induction false} DenominatorSign(ps: seq<Point>)
    ensures Denominator(ps) >= 0.0
    ensures Denominator(ps) == 0.0 <==> SameTimes(ps)
  {
    hide Mul;
    if ps != [] {
      var front, p := ps[..|ps| - 1], ps[|ps| - 1];
      assert ps == front + [p];
      DenominatorGrows(front, p);
      DenominatorSign(front);
      DistancesSign(front, p.t);
      assert forall i :: 0 <= i < |front| ==> front[i] == ps[i];
    } else {
      Distribute(0.0, 0.0, 0.0);
    }
  }

  ghost predicate Whole(x: real) {
    x == x.Floor as real
  }

  lemma {:induction false} IntProduct(a: int, b: int)
    ensures (a as real) * (b as real) == (a * b) as real
    decreases if a >= 0 then a else -a
  {
    if a > 0 {
      IntProduct(a - 1, b);
      assert ((a - 1) as real) * (b as real) == (a as real) * (b as real) - b as real;
      assert (a - 1) * b == a * b - b;
    } else if a < 0 {
      IntProduct(a + 1, b);
      assert ((a + 1) as real) * (b as real) == (a as real) * (b as real) + b as real;
      assert (a + 1) * b == a * b + b;
    }
  }

  lemma WholeInt(k: int)
    ensures Whole(k as real)
  {}

  lemma WholeProduct(x: real, y: real)
    requires Whole(x) && Whole(y)
    ensures Whole(Mul(x, y))
  {
    var a, b := x.Floor, y.Floor;
    IntProduct(a, b);
    assert Mul(x, y) == (a * b) as real by {
      assert x == a as real && y == b as real;
    }
    WholeInt(a * b);
  }

  lemma WholeSum(x: real, y: real)
    requires Whole(x) && Whole(y)
    ensures Whole(x + y) && Whole(x - y)
  {
    var a, b := x.Floor, y.Floor;
    WholeInt(a + b);
    WholeInt(a - b);
    assert (a + b) as real == a as real + b as real;
    assert (a - b) as real == a as real - b as real;
  }

  lemma {:induction false} TotalWhole(ps: seq<Point>, f: Point -> real)
    requires forall i :: 0 <= i < |ps| ==> Whole(f(ps[i]))
    ensures Whole(Total(ps, f))
  {
    if ps != [] {
      var front := ps[..|ps| - 1];
      TotalWhole(front, f);
      assert Whole(f(ps[|ps| - 1]));
      WholeSum(Total(front, f), f(ps[|ps| - 1]));
    } else {
      assert 0.0 == 0 as real;
    }
  }

  lemma WholeTiny(x: real)
    requires Whole(x)
    ensures -TINY < x < TINY <==> x == 0.0
  {}

  /** Integer timestamps make the denominator an integer, so the threshold catches only exact zero. */
  lemma ThresholdIsZeroTest(window: seq<Sample>)
    requires window != []
    ensures var d := Denominator(Points(window)); -TINY < d < TINY <==> d == 0.0
  {
    hide Mul, Whole;
    var ps := Points(window);
    forall i | 0 <= i < |ps|
      ensures Whole(Time(ps[i])) && Whole(TimeTime(ps[i]))
    {
      WholeInt(window[i].0 as int - window[0].0);
      WholeProduct(ps[i].t, ps[i].t);
    }
    TotalWhole(ps, Time);
    TotalWhole(ps, TimeTime);
    WholeInt(|ps|);
    WholeProduct(Size(ps), Total(ps, TimeTime));
    WholeProduct(Total(ps, Time), Total(ps, Time));
    WholeSum(Mul(Size(ps), Total(ps, TimeTime)), Mul(Total(ps, Time), Total(ps, Time)));
    WholeTiny(Denominator(ps));
  }

  // ---- What the slope is ----

  ghost predicate OnLine(ps: seq<Point>, a: real, b: real) {
    forall i :: 0 <= i < |ps| ==> ps[i].o == a + Mul(b, ps[i].t)
  }

  lemma LineTerm(t: real, a: real, b: real)
    ensures Mul(t, a + Mul(b, t)) == Mul(a, t) + Mul(b, Mul(t, t))
  {
    assert t * (a + b * t) == t * a + t * (b * t);
  }

  lemma LineSums(ps: seq<Point>, a: real, b: real)
    requires OnLine(ps, a, b)
    ensures Total(ps, Delay) == Mul(a, Size(ps)) + Mul(b, Total(ps, Time))
    ensures Total(ps, TimeDelay) == Mul(a, Total(ps, Time)) + Mul(b, Total(ps, TimeTime))
  {
    hide Mul;
    forall i | 0 <= i < |ps|
      ensures Delay(ps[i]) == Zero(ps[i]) + Mul(a, One(ps[i])) + Mul(b, Time(ps[i]))
      ensures TimeDelay(ps[i]) == Zero(ps[i]) + Mul(a, Time(ps[i])) + Mul(b, TimeTime(ps[i]))
    {
      Distribute(a, 0.0, 0.0);
      LineTerm(ps[i].t, a, b);
    }
    TotalThree(ps, Delay, Zero, a, One, b, Time);
    TotalThree(ps, TimeDelay, Zero, a, Time, b, TimeTime);
    TotalConstants(ps);
  }

  lemma LineNumerator(n: real, st: real, tt: real, a: real, b: real)
    ensures Mul(n, Mul(a, st) + Mul(b, tt)) - Mul(st, Mul(a, n) + Mul(b, st)) == Mul(b, Mul(n, tt) - Mul(st, st))
  {
    assert n * (a * st + b * tt) == n * a * st + b * (n * tt);
    assert st * (a * n + b * st) == n * a * st + b * (st * st);
    assert b * (n * tt - st * st) == b * (n * tt) - b * (st * st);
  }

  lemma Cancel(b: real, d: real, x: real)
    requires d != 0.0 && x == Mul(b, d)
    ensures x / d == b
  {}

  /** Samples on a line have exactly the slope of the line. */
  lemma SlopeOfLine(ps: seq<Point>, a: real, b: real)
    requires OnLine(ps, a, b)
    requires Denominator(ps) >= TINY
    ensures Slope(ps) == b
  {
    hide Mul;
    LineSums(ps, a, b);
    LineNumerator(Size(ps), Total(ps, Time), Total(ps, TimeTime), a, b);
    Cancel(b, Denominator(ps), Numerator(ps));
  }

  /** The same delays with a constant clock offset. */
  function Offset(ps: seq<Point>, c: real): (r: seq<Point>)
    ensures |r| == |ps|
  {
    seq(|ps|, i requires 0 <= i < |ps| => Point(ps[i].t, ps[i].o + c))
  }

  lemma OffsetTerm(t: real, o: real, c: real)
    ensures Mul(t, o + c) == Mul(t, o) + Mul(c, t)
  {}

  lemma OffsetSums(ps: seq<Point>, c: real)
    ensures var qs := Offset(ps, c);
      && Total(qs, Time) == Total(ps, Time) && Total(qs, TimeTime) == Total(ps, TimeTime)
      && Total(qs, Delay) == Total(ps, Delay) + Mul(c, Size(ps))
      && Total(qs, TimeDelay) == Total(ps, TimeDelay) + Mul(c, Total(ps, Time))
  {
    hide Mul;
    var qs := Offset(ps, c);
    forall i | 0 <= i < |ps|
      ensures Delay(qs[i]) == Plus(Delay, c, One)(ps[i]) && TimeDelay(qs[i]) == Plus(TimeDelay, c, Time)(ps[i])
    {
      PlusAt(Delay, c, One, ps[i]);
      PlusAt(TimeDelay, c, Time, ps[i]);
      Distribute(c, 0.0, 0.0);
      OffsetTerm(ps[i].t, ps[i].o, c);
    }
    TotalSame(qs, ps, Time, Time);
    TotalSame(qs, ps, TimeTime, TimeTime);
    TotalSame(qs, ps, Delay, Plus(Delay, c, One));
    TotalSame(qs, ps, TimeDelay, Plus(TimeDelay, c, Time));
    TotalPlus(ps, Delay, c, One);
    TotalPlus(ps, TimeDelay, c, Time);
    TotalConstants(ps);
  }

  lemma OffsetNumerator(n: real, st: real, so: real, sto: real, c: real)
    ensures Mul(n, sto + Mul(c, st)) - Mul(st, so + Mul(c, n)) == Mul(n, sto) - Mul(st, so)
  {
    assert n * (sto + c * st) == n * sto + n * c * st;
    assert st * (so + c * n) == st * so + n * c * st;
  }

  /** Unsynchronized clocks do not matter: the slope is the same under any constant offset. */
  lemma SlopeIgnoresClockOffset(ps: seq<Point>, c: real)
    ensures Slope(Offset(ps, c)) == Slope(ps)
  {
    hide Mul;
    OffsetSums(ps, c);
    OffsetNumerator(Size(ps), Total(ps, Time), Total(ps, Delay), Total(ps, TimeDelay), c);
    assert Numerator(Offset(ps, c)) == Numerator(ps);
    assert Denominator(Offset(ps, c)) == Denominator(ps);
  }

  // ---- The slope is the least-squares slope ----

  /** The vertical distance of a point from the line `a + b t`. */
  function Residual(a: real, b: real): Point -> real {
    (p: Point) => p.o - a - Mul(b, p.t)
  }

  function SquaredResidual(a: real, b: real): Point -> real {
    (p: Point) => Mul(Residual(a, b)(p), Residual(a, b)(p))
  }

  function TimedResidual(a: real, b: real): Point -> real {
    (p: Point) => Mul(p.t, Residual(a, b)(p))
  }

  /** The squared height of the line `u + v t` itself. */
  function SquaredLine(u: real, v: real): Point -> real {
    (p: Point) => Mul(u + Mul(v, p.t), u + Mul(v, p.t))
  }

  lemma ResidualAt(a: real, b: real, p: Point)
    ensures var r := p.o - a - Mul(b, p.t);
      Residual(a, b)(p) == r && SquaredResidual(a, b)(p) == Mul(r, r) && TimedResidual(a, b)(p) == Mul(p.t, r)
  {}

  /** The squared error of the line `a + b t`. */
  function Error(ps: seq<Point>, a: real, b: real): real {
    Total(ps, SquaredResidual(a, b))
  }

  lemma ResidualTerms(t: real, o: real, a: real, b: real)
    ensures o - a - Mul(b, t) == o + Mul(-a, 1.0) + Mul(-b, t)
    ensures Mul(t, o - a - Mul(b, t)) == Mul(t, o) + Mul(-a, t) + Mul(-b, Mul(t, t))
  {
    assert t * (o - a - b * t) == t * o - t * a - t * (b * t);
  }

  lemma ResidualSums(ps: seq<Point>, a: real, b: real)
    ensures Total(ps, Residual(a, b)) == Total(ps, Delay) + Mul(-a, Size(ps)) + Mul(-b, Total(ps, Time))
    ensures Total(ps, TimedResidual(a, b)) == Total(ps, TimeDelay) + Mul(-a, Total(ps, Time)) + Mul(-b, Total(ps, TimeTime))
  {
    hide Mul;
    forall i | 0 <= i < |ps|
      ensures Residual(a, b)(ps[i]) == Delay(ps[i]) + Mul(-a, One(ps[i])) + Mul(-b, Time(ps[i]))
      ensures TimedResidual(a, b)(ps[i]) == TimeDelay(ps[i]) + Mul(-a, Time(ps[i])) + Mul(-b, TimeTime(ps[i]))
    {
      ResidualTerms(ps[i].t, ps[i].o, a, b);
    }
    TotalThree(ps, Residual(a, b), Delay, -a, One, -b, Time);
    TotalThree(ps, TimedResidual(a, b), TimeDelay, -a, Time, -b, TimeTime);
    TotalConstants(ps);
  }

  lemma ShiftedSquare(o: real, t: real, a: real, b: real, u: real, v: real)
    ensures var r, s := o - a - Mul(b, t), o - (a + u) - Mul(b + v, t);
      Mul(s, s) == (Mul(r, r) + Mul(1.0, Mul(u + Mul(v, t), u + Mul(v, t)))) + Mul(-2.0 * u, r) + Mul(-2.0 * v, Mul(t, r))
  {
    var r, s, w := o - a - b * t, o - (a + u) - (b + v) * t, u + v * t;
    assert (b + v) * t == b * t + v * t;
    assert s == r - w;
    assert s * s == r * r - 2.0 * (w * r) + w * w;
    assert w * r == u * r + v * (t * r);
  }

  /** Moving the line by `u + v t` changes the error by two residual terms and a square. */
  lemma ErrorMoves(ps: seq<Point>, a: real, b: real, u: real, v: real)
    ensures Error(ps, a + u, b + v)
      == (Error(ps, a, b) + Mul(1.0, Total(ps, SquaredLine(u, v))))
         + Mul(-2.0 * u, Total(ps, Residual(a, b))) + Mul(-2.0 * v, Total(ps, TimedResidual(a, b)))
  {
    hide Mul;
    var still := Plus(SquaredResidual(a, b), 1.0, SquaredLine(u, v));
    forall i | 0 <= i < |ps|
      ensures SquaredResidual(a + u, b + v)(ps[i])
        == still(ps[i]) + Mul(-2.0 * u, Residual(a, b)(ps[i])) + Mul(-2.0 * v, TimedResidual(a, b)(ps[i]))
    {
      PlusAt(SquaredResidual(a, b), 1.0, SquaredLine(u, v), ps[i]);
      ResidualAt(a, b, ps[i]);
      ResidualAt(a + u, b + v, ps[i]);
      ShiftedSquare(ps[i].o, ps[i].t, a, b, u, v);
    }
    TotalThree(ps, SquaredResidual(a + u, b + v), still, -2.0 * u, Residual(a, b), -2.0 * v, TimedResidual(a, b));
    TotalPlus(ps, SquaredResidual(a, b), 1.0, SquaredLine(u, v));
  }

  /** The intercept that goes with the slope. */
  function Intercept(ps: seq<Point>): real
    requires ps != []
  {
    (Total(ps, Delay) - Mul(Slope(ps), Total(ps, Time))) / Size(ps)
  }

  lemma Quotient(x: real, d: real)
    requires d != 0.0
    ensures Mul(x / d, d) == x
  {}

  lemma NormalEquations(n: real, st: real, so: real, sto: real, tt: real, b: real, a: real)
    requires n > 0.0
    requires Mul(b, Mul(n, tt) - Mul(st, st)) == Mul(n, sto) - Mul(st, so)
    requires Mul(a, n) == so - Mul(b, st)
    ensures so + Mul(-a, n) + Mul(-b, st) == 0.0
    ensures sto + Mul(-a, st) + Mul(-b, tt) == 0.0
  {
    assert n * (a * st) == (a * n) * st == so * st - b * (st * st);
    assert n * (b * tt) == b * (n * tt);
    assert b * (n * tt - st * st) == b * (n * tt) - b * (st * st);
    var x := sto - a * st - b * tt;
    assert n * x == n * sto - n * (a * st) - n * (b * tt) == 0.0;
  }

  lemma ResidualsVanish(ps: seq<Point>)
    requires ps != [] && Denominator(ps) >= TINY
    ensures Total(ps, Residual(Intercept(ps), Slope(ps))) == 0.0
    ensures Total(ps, TimedResidual(Intercept(ps), Slope(ps))) == 0.0
  {
    hide Mul;
    var st, so, slope, intercept := Total(ps, Time), Total(ps, Delay), Slope(ps), Intercept(ps);
    Quotient(Numerator(ps), Denominator(ps));
    Quotient(so - Mul(slope, st), Size(ps));
    NormalEquations(Size(ps), st, so, Total(ps, TimeDelay), Total(ps, TimeTime), slope, intercept);
    ResidualSums(ps, intercept, slope);
  }

  /** No line fits the window better than the one with the computed slope. */
  lemma SlopeIsLeastSquares(ps: seq<Point>, a: real, b: real)
    requires ps != [] && Denominator(ps) >= TINY
    ensures Error(ps, Intercept(ps), Slope(ps)) <= Error(ps, a, b)
  {
    hide Mul;
    var slope, intercept := Slope(ps), Intercept(ps);
    var u, v := a - intercept, b - slope;
    ResidualsVanish(ps);
    ErrorMoves(ps, intercept, slope, u, v);
    assert intercept + u == a && slope + v == b;
    forall i | 0 <= i < |ps|
      ensures SquaredLine(u, v)(ps[i]) >= 0.0
    {
      Square(u + Mul(v, ps[i].t));
    }
    TotalNonneg(ps, SquaredLine(u, v));
    OneTimes(Total(ps, SquaredLine(u, v)));
    Distribute(-2.0 * u, 0.0, 0.0);
    Distribute(-2.0 * v, 0.0, 0.0);
  }

  lemma OneTimes(x: real)
    ensures Mul(1.0, x) == x
  {}

  // ---- The gradient of a trace ----

  ghost predicate Coinciding(window: seq<Sample>) {
    forall i, j :: 0 <= i < |window| && 0 <= j < |window| ==> window[i].0 == window[j].0
  }

  /** A window whose timestamps do not all coincide has a proper denominator, any other has gradient zero. */
  lemma WindowDenominator(window: seq<Sample>)
    requires window != []
    ensures Coinciding(window) ==> Slope(Points(window)) == 0.0
    ensures !Coinciding(window) ==> Denominator(Points(window)) >= TINY
  {
    hide Mul, Denominator, Numerator;
    var ps := Points(window);
    ThresholdIsZeroTest(window);
    DenominatorSign(ps);
    if SameTimes(ps) {
      forall i, j | 0 <= i < |window| && 0 <= j < |window|
        ensures window[i].0 == window[j].0
      {
        assert ps[i].t == ps[j].t;
      }
    }
  }

  /**
   * The gradient computed from the stored, trimmed history, for every trace of at least ten samples: zero if the
   * timestamps of the last 200 all coincide; otherwise the slope of a line that fits those samples at least as well
   * as any other line, and exactly `b` if they lie on a line of slope `b`.
   */
  lemma GradientOfTrace(samples: seq<Sample>, a: real, b: real)
    requires |samples| >= MIN_SAMPLES
    ensures var g, window := Gradient(Stored(samples)), LastWindow(samples);
      var ps := Points(window);
      if Coinciding(window) then g == 0.0
      else
        && g == Slope(ps) && Error(ps, Intercept(ps), g) <= Error(ps, a, b)
        && (OnLine(ps, a, b) ==> g == b)
  {
    hide Mul, Slope, Error, Intercept, OnLine, Denominator, Stored, Coinciding;
    TrimmingInvisible(samples);
    var window := LastWindow(samples);
    WindowDenominator(window);
    if !Coinciding(window) {
      SlopeIsLeastSquares(Points(window), a, b);
      if OnLine(Points(window), a, b) {
        SlopeOfLine(Points(window), a, b);
      }
    }
  }

  /** Fewer than ten samples give no gradient. */
  lemma TooFewSamples(samples: seq<Sample>)
    requires |samples| < 10
    ensures Gradient(Stored(samples)) == 0.0
  {
    StoredIsSuffix(samples);
  }

  /** The samples lie on the line of intercept `a` and slope `b`, in microseconds of delay per microsecond. */
  ghost predicate SamplesOnLine(samples: seq<Sample>, a: real, b: real) {
    forall i :: 0 <= i < |samples| ==> samples[i].1 == a + b * samples[i].0 as real
  }

  lemma ShiftedLine(a: real, b: real, t: real, t0: real)
    ensures a + b * t == (a + b * t0) + Mul(b, t - t0)
  {}

  lemma RelativeLine(window: seq<Sample>, a: real, b: real)
    requires window != [] && SamplesOnLine(window, a, b)
    ensures OnLine(Points(window), a + b * window[0].0 as real, b)
  {
    hide Mul;
    forall k | 0 <= k < |window|
      ensures Points(window)[k].o == (a + b * window[0].0 as real) + Mul(b, Points(window)[k].t)
    {
      ShiftedLine(a, b, window[k].0 as real, window[0].0 as real);
      assert Points(window)[k].t == window[k].0 as real - window[0].0 as real;
    }
  }

  /** Two of the last 200 samples have different timestamps. */
  ghost predicate TimesDiffer(samples: seq<Sample>) {
    exists i, j :: Max(|samples| - 200, 0) <= i < |samples| && Max(|samples| - 200, 0) <= j < |samples| && samples[i].0 != samples[j].0
  }

  lemma DifferentTimes(samples: seq<Sample>)
    requires TimesDiffer(samples)
    ensures !Coinciding(LastWindow(samples))
  {
    var first := Max(|samples| - 200, 0);
    var i, j :| first <= i < |samples| && first <= j < |samples| && samples[i].0 != samples[j].0;
    var window := LastWindow(samples);
    assert window[i - first] == samples[i] && window[j - first] == samples[j];
  }

  /** On the samples themselves: delays that grow by `b` per unit of time give the gradient `b`, sign and scale included. */
  lemma GradientOfSamplesOnLine(samples: seq<Sample>, a: real, b: real)
    requires |samples| >= 10 && SamplesOnLine(samples[Max(|samples| - 200, 0)..], a, b) && TimesDiffer(samples)
    ensures Gradient(Stored(samples)) == b
  {
    hide Mul, Gradient, Stored, Points, OnLine, SamplesOnLine, Coinciding, TimesDiffer, Error, Intercept, Slope;
    var window := LastWindow(samples);
    DifferentTimes(samples);
    RelativeLine(window, a, b);
    GradientOfTrace(samples, a + b * window[0].0 as real, b);
  }
}
