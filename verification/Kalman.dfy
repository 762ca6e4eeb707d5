// The filter as the source writes it, on 4x4 matrices, proved equal to two
// identical uncoupled 2-state filters (FilterMath.dfy).
module Kalman {
  import opened FilterMath
  import opened Wrappers

  // -------------------------------------------------- fixed-size linear algebra

  datatype Vec2 = Vec2(e0: real, e1: real)
  datatype Vec4 = Vec4(e0: real, e1: real, e2: real, e3: real)
  datatype Mat22 = Mat22(r0: Vec2, r1: Vec2)
  datatype Mat24 = Mat24(r0: Vec4, r1: Vec4)
  datatype Mat42 = Mat42(r0: Vec2, r1: Vec2, r2: Vec2, r3: Vec2)
  datatype Mat44 = Mat44(r0: Vec4, r1: Vec4, r2: Vec4, r3: Vec4)

  function Dot2(u: Vec2, v: Vec2): real { u.e0 * v.e0 + u.e1 * v.e1 }

  function Dot4(u: Vec4, v: Vec4): real { u.e0 * v.e0 + u.e1 * v.e1 + u.e2 * v.e2 + u.e3 * v.e3 }

  function Add2(u: Vec2, v: Vec2): Vec2 { Vec2(u.e0 + v.e0, u.e1 + v.e1) }

  function Sub2(u: Vec2, v: Vec2): Vec2 { Vec2(u.e0 - v.e0, u.e1 - v.e1) }

  function Add4(u: Vec4, v: Vec4): Vec4 { Vec4(u.e0 + v.e0, u.e1 + v.e1, u.e2 + v.e2, u.e3 + v.e3) }

  function Sub4(u: Vec4, v: Vec4): Vec4 { Vec4(u.e0 - v.e0, u.e1 - v.e1, u.e2 - v.e2, u.e3 - v.e3) }

  function T22(m: Mat22): Mat22 { Mat22(Vec2(m.r0.e0, m.r1.e0), Vec2(m.r0.e1, m.r1.e1)) }

  function T24(m: Mat24): Mat42 {
    Mat42(Vec2(m.r0.e0, m.r1.e0), Vec2(m.r0.e1, m.r1.e1), Vec2(m.r0.e2, m.r1.e2), Vec2(m.r0.e3, m.r1.e3))
  }

  function T42(m: Mat42): Mat24 {
    Mat24(Vec4(m.r0.e0, m.r1.e0, m.r2.e0, m.r3.e0), Vec4(m.r0.e1, m.r1.e1, m.r2.e1, m.r3.e1))
  }

  function T44(m: Mat44): Mat44 {
    Mat44(Vec4(m.r0.e0, m.r1.e0, m.r2.e0, m.r3.e0), Vec4(m.r0.e1, m.r1.e1, m.r2.e1, m.r3.e1),
          Vec4(m.r0.e2, m.r1.e2, m.r2.e2, m.r3.e2), Vec4(m.r0.e3, m.r1.e3, m.r2.e3, m.r3.e3))
  }

  function App22(m: Mat22, v: Vec2): Vec2 { Vec2(Dot2(m.r0, v), Dot2(m.r1, v)) }

  function App24(m: Mat24, v: Vec4): Vec2 { Vec2(Dot4(m.r0, v), Dot4(m.r1, v)) }

  function App42(m: Mat42, v: Vec2): Vec4 { Vec4(Dot2(m.r0, v), Dot2(m.r1, v), Dot2(m.r2, v), Dot2(m.r3, v)) }

  function App44(m: Mat44, v: Vec4): Vec4 { Vec4(Dot4(m.r0, v), Dot4(m.r1, v), Dot4(m.r2, v), Dot4(m.r3, v)) }

  // Products: each row of the left factor is applied to the columns of the right.
  function Mul44(a: Mat44, b: Mat44): Mat44 {
    Mat44(App44(T44(b), a.r0), App44(T44(b), a.r1), App44(T44(b), a.r2), App44(T44(b), a.r3))
  }

  function Mul24x44(a: Mat24, b: Mat44): Mat24 { Mat24(App44(T44(b), a.r0), App44(T44(b), a.r1)) }

  function Mul24x42(a: Mat24, b: Mat42): Mat22 { Mat22(App24(T42(b), a.r0), App24(T42(b), a.r1)) }

  function Mul44x42(a: Mat44, b: Mat42): Mat42 {
    Mat42(App24(T42(b), a.r0), App24(T42(b), a.r1), App24(T42(b), a.r2), App24(T42(b), a.r3))
  }

  function Mul42x22(a: Mat42, b: Mat22): Mat42 {
    Mat42(App22(T22(b), a.r0), App22(T22(b), a.r1), App22(T22(b), a.r2), App22(T22(b), a.r3))
  }

  function Mul42x24(a: Mat42, b: Mat24): Mat44 {
    Mat44(App42(T24(b), a.r0), App42(T24(b), a.r1), App42(T24(b), a.r2), App42(T24(b), a.r3))
  }

  function Add22(a: Mat22, b: Mat22): Mat22 { Mat22(Add2(a.r0, b.r0), Add2(a.r1, b.r1)) }

  function Add44(a: Mat44, b: Mat44): Mat44 {
    Mat44(Add4(a.r0, b.r0), Add4(a.r1, b.r1), Add4(a.r2, b.r2), Add4(a.r3, b.r3))
  }

  function Sub44(a: Mat44, b: Mat44): Mat44 {
    Mat44(Sub4(a.r0, b.r0), Sub4(a.r1, b.r1), Sub4(a.r2, b.r2), Sub4(a.r3, b.r3))
  }

  // None when the matrix is singular.
  function Invert22(m: Mat22): Option<Mat22> {
    var det := m.r0.e0 * m.r1.e1 - m.r0.e1 * m.r1.e0;
    if det == 0.0 then None
    else Some(Mat22(Vec2(m.r1.e1 / det, -m.r0.e1 / det), Vec2(-m.r1.e0 / det, m.r0.e0 / det)))
  }

  // ------------------------------------------------------------------ constants

  const H: Mat24 := Mat24(Vec4(1.0, 0.0, 0.0, 0.0), Vec4(0.0, 1.0, 0.0, 0.0))

  const R: Mat22 := Mat22(Vec2(0.5, 0.0), Vec2(0.0, 0.5))

  const Q: Mat44 := Mat44(Vec4(0.1, 0.0, 0.0, 0.0), Vec4(0.0, 0.1, 0.0, 0.0),
                          Vec4(0.0, 0.0, 1.0, 0.0), Vec4(0.0, 0.0, 0.0, 1.0))

  const I44: Mat44 := Mat44(Vec4(1.0, 0.0, 0.0, 0.0), Vec4(0.0, 1.0, 0.0, 0.0),
                            Vec4(0.0, 0.0, 1.0, 0.0), Vec4(0.0, 0.0, 0.0, 1.0))

  function Transition(dt: real): Mat44 {
    Mat44(Vec4(1.0, 0.0, dt, 0.0), Vec4(0.0, 1.0, 0.0, dt), Vec4(0.0, 0.0, 1.0, 0.0), Vec4(0.0, 0.0, 0.0, 1.0))
  }

  // ---------------------------------------------------- the shape of covariances

  // Two copies of the same 2x2 covariance, one per axis, and nothing across axes.
  function Block(c: Cov): Mat44 {
    Mat44(Vec4(c.a, 0.0, c.b, 0.0), Vec4(0.0, c.a, 0.0, c.b), Vec4(c.b, 0.0, c.d, 0.0), Vec4(0.0, c.b, 0.0, c.d))
  }

  function State(x: Axis, y: Axis): Vec4 { Vec4(x.p, y.p, x.v, y.v) }

  lemma BlockForm(c: Cov, v: Vec4)
    ensures Dot4(v, App44(Block(c), v)) == Quad(c, v.e0, v.e2) + Quad(c, v.e1, v.e3)
  {}

  // Symmetric, and positive on every non-zero vector.
  lemma BlockPositiveDefinite(c: Cov, v: Vec4)
    requires PD(c)
    ensures T44(Block(c)) == Block(c)
    ensures Dot4(v, App44(Block(c), v)) >= 0.0
    ensures Dot4(v, App44(Block(c), v)) == 0.0 <==> v == Vec4(0.0, 0.0, 0.0, 0.0)
  {
    QuadPositive(c, v.e0, v.e2);
    QuadPositive(c, v.e1, v.e3);
    BlockForm(c, v);
  }

  lemma PredictBlock(c: Cov, dt: real)
    ensures Add44(Mul44(Mul44(Transition(dt), Block(c)), T44(Transition(dt))), Q) == Block(PredictCov(c, dt))
  {}

  lemma PredictState(x: Axis, y: Axis, dt: real)
    ensures App44(Transition(dt), State(x, y)) == State(PredictAxis(x, dt), PredictAxis(y, dt))
  {}

  function Scaled(k: real): Mat22 { Mat22(Vec2(k, 0.0), Vec2(0.0, k)) }

  // The innovation covariance is (a + 0.5) times the identity, so it can always
  // be inverted and no update is skipped.
  lemma InnovationScaled(c: Cov)
    ensures Add22(Mul24x42(Mul24x44(H, Block(c)), T24(H)), R) == Scaled(c.a + R_VAR)
  {}

  lemma InvertScaled(k: real)
    requires k > 0.0
    ensures Invert22(Scaled(k)) == Some(Scaled(1.0 / k))
  {
    var det := k * k;
    ProductSign(k, k);
    assert Invert22(Scaled(k)).Some?;
    var v := Invert22(Scaled(k)).value;
    assert v.r0.e0 == k / det;
    assert v.r1.e1 == k / det;
    assert v.r1.e0 == 0.0;
    assert v.r0.e1 == 0.0;
    assert k / det == 1.0 / k by { DivideBy(k, det); assert (1.0 / k) * det == k; }
    assert -0.0 / det == 0.0;
  }

  // A gain whose only entries are g for the positions and h for the velocities.
  function Gains(g: real, h: real): Mat42 { Mat42(Vec2(g, 0.0), Vec2(0.0, g), Vec2(h, 0.0), Vec2(0.0, h)) }

  // The gain of the decoupled filters.
  function BlockGain(c: Cov): Mat42
    requires PD(c)
  {
    var w := 1.0 / (c.a + R_VAR);
    Gains(c.a * w, c.b * w)
  }

  lemma GainBlock(c: Cov, w: real)
    ensures Mul42x22(Mul44x42(Block(c), T24(H)), Scaled(w)) == Gains(c.a * w, c.b * w)
  {}

  lemma UpdateBlock(c: Cov)
    requires PD(c)
    ensures Mul44(Sub44(I44, Mul42x24(BlockGain(c), H)), Block(c)) == Block(UpdateCov(c))
  {
    var w, k := 1.0 / (c.a + R_VAR), BlockGain(c);
    var g, h := c.a * w, c.b * w;
    DivideBy(c.a, c.a + R_VAR);
    DivideBy(c.b, c.a + R_VAR);
    assert Sub44(I44, Mul42x24(k, H))
        == Mat44(Vec4(1.0 - g, 0.0, 0.0, 0.0), Vec4(0.0, 1.0 - g, 0.0, 0.0),
                 Vec4(-h, 0.0, 1.0, 0.0), Vec4(0.0, -h, 0.0, 1.0));
    assert (1.0 - g) * c.a == c.a - c.a * g && (1.0 - g) * c.b == c.b - c.a * h by { assert g * c.b == c.a * h; }
    assert -h * c.a + c.b == c.b - c.a * h && -h * c.b + c.d == c.d - c.b * h;
  }

  lemma GainTimesInnovation(ax: Axis, c: Cov, z: real)
    requires PD(c)
    ensures var w := 1.0 / (c.a + R_VAR);
            (c.a * w) * (z - ax.p) == c.a * Surprise(ax, c, z) && (c.b * w) * (z - ax.p) == c.b * Surprise(ax, c, z)
  {}

  lemma ApplyGains(x: Axis, y: Axis, g: real, h: real, zx: real, zy: real)
    ensures Add4(State(x, y), App42(Gains(g, h), Sub2(Vec2(zx, zy), App24(H, State(x, y)))))
         == Vec4(x.p + g * (zx - x.p), y.p + g * (zy - y.p), x.v + h * (zx - x.p), y.v + h * (zy - y.p))
  {}

  lemma UpdateState(x: Axis, y: Axis, c: Cov, zx: real, zy: real)
    requires PD(c)
    ensures Add4(State(x, y), App42(BlockGain(c), Sub2(Vec2(zx, zy), App24(H, State(x, y)))))
         == State(UpdateAxis(x, c, zx), UpdateAxis(y, c, zy))
  {
    var w := 1.0 / (c.a + R_VAR);
    ApplyGains(x, y, c.a * w, c.b * w, zx, zy);
    GainTimesInnovation(x, c, zx);
    GainTimesInnovation(y, c, zy);
  }

  // ----------------------------------------------------------------- the filter

  class KalmanFilter {
    var x: Vec4
    var P: Mat44
    var lastUpdate: int
    var missedFrames: nat

    ghost function Covariance(): Cov
      reads this
    {
      Cov(P.r0.e0, P.r0.e2, P.r2.e2)
    }

    ghost predicate Valid()
      reads this
    {
      P == Block(Covariance()) && PD(Covariance())
    }

    ghost function View(): Filter
      reads this
    {
      Filter(Axis(x.e0, x.e2), Axis(x.e1, x.e3), Covariance(), lastUpdate, missedFrames)
    }

    constructor (px: real, py: real, now: int)
      ensures Valid() && View() == New(px, py, now)
    {
      x := Vec4(px, py, 0.0, 0.0);
      P := Mat44(Vec4(1.0, 0.0, 0.0, 0.0), Vec4(0.0, 1.0, 0.0, 0.0),
                 Vec4(0.0, 0.0, 10.0, 0.0), Vec4(0.0, 0.0, 0.0, 10.0));
      lastUpdate := now;
      missedFrames := 0;
    }

    method Predict(now: int)
      requires Valid()
      modifies this
      ensures Valid() && View() == FilterMath.Predict(old(View()), now)
    {
      ghost var c, sx, sy := Covariance(), View().x, View().y;
      var dt := Seconds(now - lastUpdate);
      if dt <= 0.0 { return; }
      lastUpdate := now;
      var F := Transition(dt);
      x := App44(F, x);
      var FP := Mul44(F, P);
      var FPFT := Mul44(FP, T44(F));
      P := Add44(FPFT, Q);
      PredictBlock(c, dt);
      PredictCovPD(c, dt);
      PredictState(sx, sy, dt);
    }

    // S = H P H' + R
    method Innovation() returns (S: Mat22)
      requires Valid()
      ensures S == Scaled(Covariance().a + R_VAR)
    {
      InnovationScaled(Covariance());
      var HP := Mul24x44(H, P);
      var HPHT := Mul24x42(HP, T24(H));
      S := Add22(HPHT, R);
    }

    // K = P H' S^-1, or None when S is singular.
    method Gain() returns (K: Option<Mat42>)
      requires Valid()
      ensures K == Some(BlockGain(Covariance()))
    {
      ghost var c := Covariance();
      var S := Innovation();
      var PHT := Mul44x42(P, T24(H));
      InvertScaled(c.a + R_VAR);
      var SInv := Invert22(S);
      if SInv.None? {
        assert false;
        return None;
      }
      assert PHT == Mul44x42(Block(c), T24(H)) && SInv.value == Scaled(1.0 / (c.a + R_VAR));
      ghost var w := 1.0 / (c.a + R_VAR);
      K := Some(Mul42x22(PHT, SInv.value));
      assert K.value == Gains(c.a * w, c.b * w) by { GainBlock(c, w); }
      assert K.value == BlockGain(c);
    }

    method Update(measX: real, measY: real)
      requires Valid()
      modifies this
      ensures Valid() && View() == FilterMath.Update(old(View()), measX, measY)
    {
      ghost var c, sx, sy := Covariance(), View().x, View().y;
      missedFrames := 0;
      var z := Vec2(measX, measY);
      var y := Sub2(z, App24(H, x));
      var K := Gain();
      if K.None? { return; }
      x := Add4(x, App42(K.value, y));
      P := Mul44(Sub44(I44, Mul42x24(K.value, H)), P);
      UpdateState(sx, sy, c, measX, measY);
      UpdateBlock(c);
      UpdateCovPD(c);
    }

    method MarkMissed()
      requires Valid()
      modifies this
      ensures Valid() && View() == old(View()).(missed := old(View()).missed + 1)
    {
      missedFrames := missedFrames + 1;
    }

    predicate ShouldDelete()
      reads this
    {
      missedFrames >= MAX_MISSED
    }
  }
}
