// The constant-velocity filter seen one axis at a time.  Reachable 4x4
// covariances consist of two identical uncoupled 2-state filters (Kalman.dfy
// proves that of the matrix code), so a position-velocity pair per axis and one
// 2x2 covariance describe the whole filter.
module FilterMath {

  const R_VAR: real := 0.5       // measurement noise
  const Q_POS: real := 0.1       // process noise, position
  const Q_VEL: real := 1.0       // process noise, velocity
  const MAX_MISSED: nat := 5
  const NANOS: real := 1000000000.0

  datatype Axis = Axis(p: real, v: real)

  // [[a, b], [b, d]]
  datatype Cov = Cov(a: real, b: real, d: real)

  datatype Filter = Filter(x: Axis, y: Axis, cov: Cov, last: int, missed: nat)

  function Det(c: Cov): real { c.a * c.d - c.b * c.b }

  predicate PD(c: Cov) { c.a > 0.0 && c.d > 0.0 && Det(c) > 0.0 }

  // The quadratic form of the covariance.
  function Quad(c: Cov, s: real, t: real): real {
    c.a * s * s + 2.0 * c.b * s * t + c.d * t * t
  }

  lemma ProductSign(x: real, y: real)
    requires x > 0.0
    ensures y > 0.0 <==> x * y > 0.0
    ensures y == 0.0 <==> x * y == 0.0
  {}

  lemma SquareSign(x: real)
    ensures x * x >= 0.0 && (x * x == 0.0 <==> x == 0.0)
  {
    if x > 0.0 { ProductSign(x, x); } else if x < 0.0 { ProductSign(-x, -x); }
  }

  lemma QuadPositive(c: Cov, s: real, t: real)
    requires PD(c)
    ensures Quad(c, s, t) >= 0.0
    ensures Quad(c, s, t) == 0.0 <==> s == 0.0 && t == 0.0
  {
    var e := c.a * s + c.b * t;
    assert c.a * Quad(c, s, t) == e * e + Det(c) * (t * t);
    SquareSign(e);
    SquareSign(t);
    ProductSign(Det(c), t * t);
    if Quad(c, s, t) < 0.0 {
      ProductSign(c.a, -Quad(c, s, t));
      assert false;
    }
    if Quad(c, s, t) == 0.0 {
      assert e * e == 0.0 && t == 0.0;
      assert c.a * s == 0.0;
    }
  }

  // ---------------------------------------------------------------- prediction

  function Seconds(nanos: int): real { nanos as real / NANOS }

  function PredictAxis(ax: Axis, dt: real): Axis { Axis(ax.p + dt * ax.v, ax.v) }

  function PredictCov(c: Cov, dt: real): Cov {
    Cov(c.a + 2.0 * dt * c.b + dt * dt * c.d + Q_POS, c.b + dt * c.d, c.d + Q_VEL)
  }

  function Predict(f: Filter, now: int): Filter {
    if now <= f.last then f
    else
      var dt := Seconds(now - f.last);
      f.(x := PredictAxis(f.x, dt), y := PredictAxis(f.y, dt), cov := PredictCov(f.cov, dt), last := now)
  }

  lemma PredictCovPD(c: Cov, dt: real)
    requires PD(c)
    ensures PD(PredictCov(c, dt))
    ensures PredictCov(c, dt).d > c.d
  {}

  function MaxTime(t: int, ts: seq<int>): int
    decreases |ts|
  {
    if ts == [] then t else MaxTime(if ts[0] > t then ts[0] else t, ts[1..])
  }

  function Predicts(f: Filter, ts: seq<int>): Filter
    decreases |ts|
  {
    if ts == [] then f else Predicts(Predict(f, ts[0]), ts[1..])
  }

  // The mean extrapolated at constant velocity to the given time.
  function Extrapolate(ax: Axis, nanos: int): Axis {
    Axis(ax.p + Seconds(nanos) * ax.v, ax.v)
  }

  lemma PredictExtrapolates(f: Filter, now: int)
    ensures var g := Predict(f, now);
            && g.x == Extrapolate(f.x, g.last - f.last) && g.y == Extrapolate(f.y, g.last - f.last)
            && g.last == (if now > f.last then now else f.last) && g.missed == f.missed
  {}

  lemma ExtrapolateTwice(ax: Axis, d1: int, d2: int)
    ensures Extrapolate(Extrapolate(ax, d1), d2) == Extrapolate(ax, d1 + d2)
    ensures Extrapolate(ax, 0) == ax
  {}

  // Any sequence of predictions, with the times in any order, moves the mean by
  // one extrapolation to the latest time.
  lemma {:induction false} PredictionsCompose(f: Filter, ts: seq<int>)
    ensures Predicts(f, ts).last == MaxTime(f.last, ts) >= f.last
    ensures Predicts(f, ts).x == Extrapolate(f.x, MaxTime(f.last, ts) - f.last)
    ensures Predicts(f, ts).y == Extrapolate(f.y, MaxTime(f.last, ts) - f.last)
    ensures Predicts(f, ts).missed == f.missed
    decreases |ts|
  {
    if ts == [] {
    } else {
      var g := Predict(f, ts[0]);
      PredictionsCompose(g, ts[1..]);
      var later := MaxTime(g.last, ts[1..]);
      PredictExtrapolates(f, ts[0]);
      ExtrapolateTwice(f.x, g.last - f.last, later - g.last);
      ExtrapolateTwice(f.y, g.last - f.last, later - g.last);
    }
  }

  // The mean of f at another time, in nanoseconds, by constant velocity.
  predicate Carried(f: Filter, g: Filter, time: int) {
    var dt := (time - f.last) as real / 1_000_000_000.0;
    && g.x.p == f.x.p + dt * f.x.v && g.x.v == f.x.v && g.y.p == f.y.p + dt * f.y.v && g.y.v == f.y.v
    && g.last == time && g.missed == f.missed
  }

  lemma PredictsCarry(f: Filter, ts: seq<int>)
    ensures Carried(f, Predicts(f, ts), MaxTime(f.last, ts))
  {
    PredictionsCompose(f, ts);
  }

  // -------------------------------------------------------------------- update

  // Innovation divided by its variance.
  function Surprise(ax: Axis, c: Cov, z: real): real
    requires PD(c)
  {
    (z - ax.p) / (c.a + R_VAR)
  }

  lemma SurpriseScaled(ax: Axis, c: Cov, z: real)
    requires PD(c)
    ensures (c.a + R_VAR) * Surprise(ax, c, z) == z - ax.p
  {}

  function UpdateAxis(ax: Axis, c: Cov, z: real): Axis
    requires PD(c)
  {
    Axis(ax.p + c.a * Surprise(ax, c, z), ax.v + c.b * Surprise(ax, c, z))
  }

  function UpdateCov(c: Cov): Cov
    requires PD(c)
  {
    var k := c.a + R_VAR;
    Cov(c.a - c.a * (c.a / k), c.b - c.a * (c.b / k), c.d - c.b * (c.b / k))
  }

  function Update(f: Filter, zx: real, zy: real): Filter
    requires PD(f.cov)
  {
    f.(x := UpdateAxis(f.x, f.cov, zx), y := UpdateAxis(f.y, f.cov, zy), cov := UpdateCov(f.cov), missed := 0)
  }

  // The updated covariance without cancellation.
  lemma UpdateCovForm(c: Cov)
    requires PD(c)
    ensures var k := c.a + R_VAR; var u := UpdateCov(c);
            && k * u.a == R_VAR * c.a
            && k * u.b == R_VAR * c.b
            && k * u.d == R_VAR * c.d + Det(c)
            && k * Det(u) == R_VAR * Det(c)
  {}

  // Positive definiteness is kept, the position variance falls below both its
  // old value and the measurement noise, and no other variance grows.
  lemma UpdateCovPD(c: Cov)
    requires PD(c)
    ensures PD(UpdateCov(c))
    ensures UpdateCov(c).a < c.a && UpdateCov(c).a < R_VAR
    ensures UpdateCov(c).d <= c.d
  {}

  // The new position lies between the prediction and the measurement, strictly
  // when they differ.
  lemma UpdateInterpolates(ax: Axis, c: Cov, z: real)
    requires PD(c)
    ensures var n := UpdateAxis(ax, c, z);
            if ax.p < z then ax.p < n.p < z else if z < ax.p then z < n.p < ax.p else n == ax
  {}

  // -------------------------------------------------------------- information

  // Inverse covariance [[a, b], [b, d]].
  datatype Precision = Precision(a: real, b: real, d: real)

  // Inverse covariance, and inverse covariance times mean.
  datatype Info = Info(q: Precision, p: real, v: real)

  function PrecisionOf(c: Cov): Precision
    requires PD(c)
  {
    Precision(c.d / Det(c), -c.b / Det(c), c.a / Det(c))
  }

  function Weighted(q: Precision, ax: Axis): Info {
    Info(q, q.a * ax.p + q.b * ax.v, q.b * ax.p + q.d * ax.v)
  }

  function InfoOf(ax: Axis, c: Cov): Info
    requires PD(c)
  {
    Weighted(PrecisionOf(c), ax)
  }

  // The inverse covariance after n more measurements.
  function Sharper(q: Precision, n: nat): Precision {
    q.(a := q.a + n as real / R_VAR)
  }

  predicate Inverse(q: Precision, c: Cov) {
    && q.a * c.a + q.b * c.b == 1.0 && q.a * c.b + q.b * c.d == 0.0
    && q.b * c.a + q.d * c.b == 0.0 && q.b * c.b + q.d * c.d == 1.0
  }

  lemma DivideBy(x: real, y: real)
    requires y != 0.0
    ensures x / y == (1.0 / y) * x
  {}

  lemma PrecisionIsInverse(c: Cov)
    requires PD(c)
    ensures Inverse(PrecisionOf(c), c)
  {
    var e := Det(c);
    var w := 1.0 / e;
    assert w * e == 1.0;
    DivideBy(c.d, e);
    DivideBy(-c.b, e);
    DivideBy(c.a, e);
    assert (w * c.d) * c.a + (w * -c.b) * c.b == w * e;
    assert (w * -c.b) * c.b + (w * c.a) * c.d == w * e;
  }

  lemma UpdateAddsPrecision(c: Cov)
    requires PD(c)
    ensures PD(UpdateCov(c))
    ensures PrecisionOf(UpdateCov(c)) == Sharper(PrecisionOf(c), 1)
  {
    UpdateCovPD(c);
    PrecisionIsInverse(c);
    PrecisionIsInverse(UpdateCov(c));
    UpdateCovForm(c);
  }

  lemma WeightedUpdate(q: Precision, c: Cov, ax: Axis, z: real, g: real)
    requires Inverse(q, c) && (c.a + R_VAR) * g == z - ax.p
    ensures Weighted(Sharper(q, 1), Axis(ax.p + c.a * g, ax.v + c.b * g))
         == Info(Sharper(q, 1), Weighted(q, ax).p + z / R_VAR, Weighted(q, ax).v)
  {}

  // An update adds the measurement's information: 1/R to the inverse covariance
  // and z/R to the information vector, in the position component only.
  lemma UpdateAddsInformation(ax: Axis, c: Cov, z: real)
    requires PD(c)
    ensures PD(UpdateCov(c))
    ensures InfoOf(UpdateAxis(ax, c, z), UpdateCov(c))
         == Info(Sharper(PrecisionOf(c), 1), InfoOf(ax, c).p + z / R_VAR, InfoOf(ax, c).v)
  {
    var q, g := PrecisionOf(c), Surprise(ax, c, z);
    assert PD(UpdateCov(c)) by { UpdateCovPD(c); }
    assert PrecisionOf(UpdateCov(c)) == Sharper(q, 1) by { UpdateAddsPrecision(c); }
    assert (c.a + R_VAR) * g == z - ax.p by { SurpriseScaled(ax, c, z); }
    WeightedUpdate(q, c, ax, z, g) by { PrecisionIsInverse(c); }
  }

  // Covariance times information vector gives the mean back.
  lemma Recover(q: Precision, c: Cov, ax: Axis)
    requires Inverse(q, c)
    ensures var i := Weighted(q, ax); ax == Axis(c.a * i.p + c.b * i.v, c.b * i.p + c.d * i.v)
  {}

  lemma InverseUnique(q: Precision, c: Cov, c': Cov)
    requires Inverse(q, c) && Inverse(q, c')
    ensures c == c'
  {}

  // The information determines the state it came from.
  lemma InfoDetermines(ax: Axis, c: Cov, ax': Axis, c': Cov)
    requires PD(c) && PD(c') && InfoOf(ax, c) == InfoOf(ax', c')
    ensures ax == ax' && c == c'
  {
    var q := PrecisionOf(c);
    PrecisionIsInverse(c);
    PrecisionIsInverse(c');
    InverseUnique(q, c, c');
    Recover(q, c, ax);
    Recover(q, c, ax');
  }

  // ------------------------------------------------------ measurements in bulk

  datatype Measurement = Measurement(x: real, y: real)

  // All measurements in order, at one timestamp.
  function Updates(f: Filter, zs: seq<Measurement>): Filter
    requires PD(f.cov)
    decreases |zs|
  {
    UpdateCovPD(f.cov);
    if zs == [] then f else Updates(Update(f, zs[0].x, zs[0].y), zs[1..])
  }

  function SumX(zs: seq<Measurement>): real { if zs == [] then 0.0 else zs[0].x + SumX(zs[1..]) }

  function SumY(zs: seq<Measurement>): real { if zs == [] then 0.0 else zs[0].y + SumY(zs[1..]) }

  lemma {:induction false} UpdatesAddInformation(f: Filter, zs: seq<Measurement>)
    requires PD(f.cov)
    ensures var g, i, j := Updates(f, zs), InfoOf(f.x, f.cov), InfoOf(f.y, f.cov);
            && PD(g.cov) && g.last == f.last
            && InfoOf(g.x, g.cov) == Info(Sharper(i.q, |zs|), i.p + SumX(zs) / R_VAR, i.v)
            && InfoOf(g.y, g.cov) == Info(Sharper(j.q, |zs|), j.p + SumY(zs) / R_VAR, j.v)
    decreases |zs|
  {
    if zs == [] {
    } else {
      UpdateCovPD(f.cov);
      UpdateAddsInformation(f.x, f.cov, zs[0].x);
      UpdateAddsInformation(f.y, f.cov, zs[0].y);
      UpdatesAddInformation(Update(f, zs[0].x, zs[0].y), zs[1..]);
    }
  }

  function Without(zs: seq<Measurement>, k: nat): seq<Measurement>
    requires k < |zs|
  {
    zs[..k] + zs[k + 1..]
  }

  lemma WithoutBag(zs: seq<Measurement>, k: nat)
    requires k < |zs|
    ensures multiset(Without(zs, k)) == multiset(zs) - multiset{zs[k]}
  {
    assert zs == zs[..k] + [zs[k]] + zs[k + 1..];
  }

  lemma WithoutTail(zs: seq<Measurement>, k: nat)
    requires 0 < k < |zs|
    ensures Without(zs, k) != [] && Without(zs, k)[0] == zs[0] && Without(zs, k)[1..] == Without(zs[1..], k - 1)
  {}

  lemma {:induction false} RemoveFirst(zs: seq<Measurement>, k: nat)
    requires k < |zs|
    ensures SumX(zs) == zs[k].x + SumX(Without(zs, k)) && SumY(zs) == zs[k].y + SumY(Without(zs, k))
  {
    if k == 0 {
      assert Without(zs, 0) == zs[1..];
    } else {
      WithoutTail(zs, k);
      RemoveFirst(zs[1..], k - 1);
    }
  }

  lemma {:induction false} SumsIgnoreOrder(zs: seq<Measurement>, ws: seq<Measurement>)
    requires multiset(zs) == multiset(ws)
    ensures |zs| == |ws| && SumX(zs) == SumX(ws) && SumY(zs) == SumY(ws)
    decreases |zs|
  {
    assert |multiset(zs)| == |zs| && |multiset(ws)| == |ws|;
    if zs == [] {
    } else {
      assert zs[0] in multiset(ws);
      var k :| 0 <= k < |ws| && ws[k] == zs[0];
      WithoutBag(zs, 0);
      WithoutBag(ws, k);
      RemoveFirst(ws, k);
      assert Without(zs, 0) == zs[1..];
      SumsIgnoreOrder(zs[1..], Without(ws, k));
    }
  }

  // Measurements at one timestamp may arrive in any order: mean and covariance
  // come out the same.
  lemma MeasurementsCommute(f: Filter, zs: seq<Measurement>, ws: seq<Measurement>)
    requires PD(f.cov) && multiset(zs) == multiset(ws)
    ensures var g, h := Updates(f, zs), Updates(f, ws);
            g.x == h.x && g.y == h.y && g.cov == h.cov && g.last == h.last
  {
    SumsIgnoreOrder(zs, ws);
    UpdatesAddInformation(f, zs);
    UpdatesAddInformation(f, ws);
    var g, h := Updates(f, zs), Updates(f, ws);
    InfoDetermines(g.x, g.cov, h.x, h.cov);
    InfoDetermines(g.y, g.cov, h.y, h.cov);
  }

  // ------------------------------------------------------------- least squares

  function Form(q: Precision, x: real, y: real): real {
    q.a * x * x + 2.0 * q.b * x * y + q.d * y * y
  }

  // Squared distance to a mean, weighted by an inverse covariance.
  function Distance(q: Precision, ax: Axis, s: real, t: real): real {
    Form(q, s - ax.p, t - ax.v)
  }

  // What a state (s, t) costs given the prediction and the measurement.
  function LeastSquares(ax: Axis, c: Cov, z: real, s: real, t: real): real
    requires PD(c)
  {
    Distance(PrecisionOf(c), ax, s, t) + (z - s) * (z - s) / R_VAR
  }

  lemma ScaledForm(w: real, c: Cov, x: real, y: real)
    ensures Form(Precision(w * c.d, w * -c.b, w * c.a), x, y) == w * Quad(c, y, -x)
  {}

  lemma DistancePositive(c: Cov, ax: Axis, s: real, t: real)
    requires PD(c)
    ensures Distance(PrecisionOf(c), ax, s, t) >= 0.0
    ensures Distance(PrecisionOf(c), ax, s, t) == 0.0 <==> s == ax.p && t == ax.v
  {
    var w := 1.0 / Det(c);
    assert w * Det(c) == 1.0;
    if w < 0.0 { ProductSign(Det(c), -w); }
    DivideBy(c.d, Det(c));
    DivideBy(-c.b, Det(c));
    DivideBy(c.a, Det(c));
    var x, y := s - ax.p, t - ax.v;
    QuadPositive(c, y, -x);
    ScaledForm(w, c, x, y);
    ProductSign(w, Quad(c, y, -x));
  }

  // Completing the square, with innovation z - p = (a + R) g.
  lemma DistanceSplits(q: Precision, q': Precision, c: Cov, ax: Axis, z: real, g: real, n: Axis, s: real, t: real)
    requires Inverse(q, c) && q' == Sharper(q, 1)
    requires (c.a + R_VAR) * g == z - ax.p && n == Axis(ax.p + c.a * g, ax.v + c.b * g)
    ensures Distance(q, ax, s, t) + (z - s) * (z - s) / R_VAR
         == Distance(q, ax, n.p, n.v) + (z - n.p) * (z - n.p) / R_VAR + Distance(q', n, s, t)
  {}

  // Every state costs more than the updated one by its distance from it, weighted
  // by the new inverse covariance.
  lemma LeastSquaresSplits(ax: Axis, c: Cov, z: real, s: real, t: real)
    requires PD(c)
    ensures PD(UpdateCov(c))
    ensures var n := UpdateAxis(ax, c, z);
            LeastSquares(ax, c, z, s, t)
            == LeastSquares(ax, c, z, n.p, n.v) + Distance(PrecisionOf(UpdateCov(c)), n, s, t)
  {
    assert PD(UpdateCov(c)) by { UpdateCovPD(c); }
    var q, q', g, n := PrecisionOf(c), PrecisionOf(UpdateCov(c)), Surprise(ax, c, z), UpdateAxis(ax, c, z);
    assert Inverse(q, c) by { PrecisionIsInverse(c); }
    assert q' == Sharper(q, 1) by { UpdateAddsPrecision(c); }
    assert (c.a + R_VAR) * g == z - ax.p by { SurpriseScaled(ax, c, z); }
    assert n == Axis(ax.p + c.a * g, ax.v + c.b * g);
    DistanceSplits(q, q', c, ax, z, g, n, s, t);
  }

  // The updated state is the unique minimiser.
  lemma UpdateMinimises(ax: Axis, c: Cov, z: real, s: real, t: real)
    requires PD(c)
    ensures var n := UpdateAxis(ax, c, z);
            && LeastSquares(ax, c, z, s, t) >= LeastSquares(ax, c, z, n.p, n.v)
            && (LeastSquares(ax, c, z, s, t) == LeastSquares(ax, c, z, n.p, n.v) <==> s == n.p && t == n.v)
  {
    LeastSquaresSplits(ax, c, z, s, t);
    DistancePositive(UpdateCov(c), UpdateAxis(ax, c, z), s, t);
  }

  // ---------------------------------------------------------------------- runs

  datatype Step = Predicted(now: int) | Updated(zx: real, zy: real) | Missed

  function New(x: real, y: real, now: int): Filter {
    Filter(Axis(x, 0.0), Axis(y, 0.0), Cov(1.0, 0.0, 10.0), now, 0)
  }

  // The filters that runs can reach.
  type GoodFilter = f: Filter | PD(f.cov) witness New(0.0, 0.0, 0)

  function Apply(f: Filter, s: Step): Filter
    requires PD(f.cov)
  {
    match s
    case Predicted(now) => Predict(f, now)
    case Updated(zx, zy) => Update(f, zx, zy)
    case Missed => f.(missed := f.missed + 1)
  }

  lemma ApplyPD(f: Filter, s: Step)
    requires PD(f.cov)
    ensures PD(Apply(f, s).cov) && Apply(f, s).last >= f.last
  {
    UpdateCovPD(f.cov);
    if s.Predicted? { PredictCovPD(f.cov, Seconds(s.now - f.last)); }
  }

  function Run(f: Filter, steps: seq<Step>): Filter
    requires PD(f.cov)
    decreases |steps|
  {
    if steps == [] then f
    else
      ApplyPD(f, steps[0]);
      Run(Apply(f, steps[0]), steps[1..])
  }

  // In every run the covariance stays positive definite and time does not go
  // back; right after an update the position variance is below the measurement
  // noise.
  lemma {:induction false} RunsStayPositive(f: Filter, steps: seq<Step>)
    requires PD(f.cov)
    ensures PD(Run(f, steps).cov) && Run(f, steps).last >= f.last
    ensures steps != [] && steps[|steps| - 1].Updated? ==> Run(f, steps).cov.a < R_VAR && Run(f, steps).missed == 0
    decreases |steps|
  {
    if steps == [] {
    } else {
      ApplyPD(f, steps[0]);
      UpdateCovPD(f.cov);
      RunsStayPositive(Apply(f, steps[0]), steps[1..]);
    }
  }

  // ------------------------------------------------------------------- constants

  // A new filter is at rest where it was put, with variances 1 and 10.
  lemma NewAtRest(x: real, y: real, now: int)
    ensures var f := New(x, y, now);
            && f.x.p == x && f.y.p == y && f.x.v == 0.0 == f.y.v
            && f.cov.a == 1.0 && f.cov.b == 0.0 && f.cov.d == 10.0 && f.last == now && f.missed == 0
  {}

  // In dt seconds the mean moves by dt times its velocity.  The predicted variances
  // are those of p + dt v and of v, plus 0.1 and 1.
  lemma SomeTime(f: Filter, nanos: nat)
    requires nanos > 0
    ensures var g, dt := Predict(f, f.last + nanos), nanos as real / 1_000_000_000.0;
            && g.x.p == f.x.p + dt * f.x.v && g.y.p == f.y.p + dt * f.y.v && g.x.v == f.x.v && g.y.v == f.y.v
            && g.cov.a == Quad(f.cov, 1.0, dt) + 0.1 && g.cov.d == f.cov.d + 1.0
            && g.cov.b == f.cov.b + dt * f.cov.d && g.last == f.last + nanos && g.missed == f.missed
  {
    var now := f.last + nanos;
    assert now - f.last == nanos;
    assert Predict(f, now).cov == PredictCov(f.cov, Seconds(nanos));
  }

  // A measurement counts for 2, the inverse of its variance.
  lemma OneMeasurement(f: Filter, zx: real, zy: real)
    requires PD(f.cov)
    ensures var g := Update(f, zx, zy);
            && PD(g.cov) && PrecisionOf(g.cov).a == PrecisionOf(f.cov).a + 2.0
            && InfoOf(g.x, g.cov).p == InfoOf(f.x, f.cov).p + 2.0 * zx
            && InfoOf(g.y, g.cov).p == InfoOf(f.y, f.cov).p + 2.0 * zy
  {
    UpdateAddsInformation(f.x, f.cov, zx);
    UpdateAddsInformation(f.y, f.cov, zy);
  }
}
