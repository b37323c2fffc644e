/** The coordinate remapper and the distance metric of the inverse-geodesic
    table builder: conversions between grid coordinates in [0, 1] and tangent
    coordinates, the error between two points measured in grid coordinates,
    and the canonical projection of a solution into a table sample. */
module Remap {
  import opened Numerics
  import opened Floats

  /** The two geometry flags the builder consults.  `sol` selects the Z
      compression used by the error metric; `nih` selects the Z expansion used
      for targets and which boundary slices are extrapolated.  Sol has only
      `sol`, Nih only `nih`, and Sol-Nih both. */
  datatype Geometry = Geometry(sol: bool, nih: bool)

  /** `z_to_iz`: tangent Z coordinate to grid Z coordinate. */
  function ZToIz(nm: Numerics, g: Geometry, z: real): real {
    if g.sol then Tanh(nm, z) else Tanh(nm, z / 4.0) / 2.0 + 0.5
  }

  /** `iz_to_z`: grid Z coordinate to tangent Z coordinate. */
  function IzToZ(nm: Numerics, g: Geometry, iz: real): real {
    if g.nih then Atanh(nm, iz * 2.0 - 1.0) * 4.0 else Atanh(nm, iz)
  }

  /** In the Sol and Nih families (exactly one flag set), `iz_to_z` undoes
      `z_to_iz` whenever `atanh` undoes `tanh`. */
  lemma ZRoundTrip(nm: Numerics, g: Geometry, z: real)
    requires g.sol != g.nih
    requires forall t :: Atanh(nm, Tanh(nm, t)) == t
    ensures IzToZ(nm, g, ZToIz(nm, g, z)) == z
  {
    if g.nih {
      var t := Tanh(nm, z / 4.0);
      assert (t / 2.0 + 0.5) * 2.0 - 1.0 == t;
      assert Atanh(nm, t) == z / 4.0;
    } else {
      assert Atanh(nm, Tanh(nm, z)) == z;
    }
  }

  /** In Sol-Nih (both flags set) the error metric compresses Z as in Sol
      while targets expand Z as in Nih, so `iz_to_z` does not undo
      `z_to_iz`: a point with `tanh(z) = 1/2` comes back as 0, not as `z`. */
  lemma SolNihNoRoundTrip(nm: Numerics, z: real)
    requires forall t :: Atanh(nm, Tanh(nm, t)) == t
    requires Tanh(nm, 0.0) == 0.0 && Atanh(nm, 0.0) == 0.0 && Tanh(nm, z) == 0.5
    ensures IzToZ(nm, Geometry(true, true), ZToIz(nm, Geometry(true, true), z)) == 0.0
    ensures z != 0.0
  {
    assert ZToIz(nm, Geometry(true, true), z) * 2.0 - 1.0 == 0.0;
  }

  /** The difference of two points in grid coordinates. */
  function Residual(nm: Numerics, g: Geometry, ok: Vec3, chk: Vec3): Vec3 {
    Vec3(XToIx(nm, ok.x) - XToIx(nm, chk.x),
         XToIx(nm, ok.y) - XToIx(nm, chk.y),
         ZToIz(nm, g, ok.z) - ZToIz(nm, g, chk.z))
  }

  /** `solerror`: Euclidean distance between two points after mapping both
      into grid coordinates. */
  function SolError(nm: Numerics, g: Geometry, ok: Vec3, chk: Vec3): real {
    Hypot(nm, Residual(nm, g, ok, chk))
  }

  /** The metric is symmetric and gives sqrt(0) on equal points. */
  lemma SolErrorSymmetric(nm: Numerics, g: Geometry, a: Vec3, b: Vec3)
    ensures SolError(nm, g, a, b) == SolError(nm, g, b, a)
    ensures SolError(nm, g, a, a) == Sqrt(nm, 0.0)
  {
    var d := Residual(nm, g, a, b);
    var e := Residual(nm, g, b, a);
    assert e == Vec3(-d.x, -d.y, -d.z);
    HypotNegate(nm, d);
  }

  /** `can`: the azimuthal-equidistant point scaled onto the unit ball
      (radius r becomes tanh r) and narrowed to a sample. */
  function Can(nm: Numerics, p: Vec3): (c: PtLow)
    ensures Hypot(nm, p) == 0.0 ==> c == Zero
  {
    var r := Hypot(nm, p);
    if r == 0.0 then MLow(0.0, 0.0, 0.0)
    else
      var d := Tanh(nm, r) / r;
      MLow(p.x * d, p.y * d, p.z * d)
  }

  lemma SquareOfNegation(w: real)
    ensures (-w) * (-w) == w * w
  {
  }

  lemma SquareStrict(a: real, b: real)
    requires a > b > 0.0
    ensures a * a > b * b
  {
    MulLessPositive(b, a, a);
    assert a * b < a * a;
    MulLessPositive(b, a, b);
    assert b * b < a * b;
  }

  lemma MulLessPositive(a: real, b: real, c: real)
    requires a < b && c > 0.0
    ensures a * c < b * c
  {
  }

  /** Helper: |x * t / r| <= 1 when x^2 <= r^2 and |t| <= 1. */
  lemma ScaledBelowOne(x: real, r: real, t: real)
    requires r > 0.0 && x * x <= r * r && -1.0 <= t <= 1.0
    ensures -1.0 <= x * (t / r) <= 1.0
  {
    if x > r {
      SquareStrict(x, r);
      assert false;
    }
    if -x > r {
      SquareStrict(-x, r);
      SquareOfNegation(x);
      assert false;
    }
    var q := x / r;
    assert q * r == x;
    if q < -1.0 {
      MulLessPositive(q, -1.0, r);
      assert false;
    }
    if q > 1.0 {
      MulLessPositive(1.0, q, r);
      assert false;
    }
    assert x * (t / r) == q * t;
    if t >= 0.0 {
      assert -t <= q * t <= t;
    } else {
      assert t <= q * t <= -t;
    }
  }

  /** When `sqrt` is the true square root and `tanh` stays in [-1, 1], the
      canonical projection of any point is finite: every component lies in
      [-1, 1].  The non-finite check after `can` therefore only fires on
      numerical corruption. */
  lemma CanFinite(nm: Numerics, p: Vec3)
    requires forall s :: s >= 0.0 ==> Sqrt(nm, s) >= 0.0 && Sqrt(nm, s) * Sqrt(nm, s) == s
    requires forall t :: -1.0 <= Tanh(nm, t) <= 1.0
    ensures Can(nm, p).IsFinite()
  {
    var r := Hypot(nm, p);
    SquaresBelowNorm(p);
    if r != 0.0 {
      CoordsBelowOne(p, r, Tanh(nm, r));
      CanFromBounds(nm, p);
    }
  }

  /** Each coordinate of a point, scaled by `t / |p|` with `|t| <= 1`, lies
      in [-1, 1]. */
  lemma CoordsBelowOne(p: Vec3, r: real, t: real)
    requires r != 0.0 && r * r == Norm2(p) && r >= 0.0 && -1.0 <= t <= 1.0
    ensures -1.0 <= p.x * (t / r) <= 1.0 && -1.0 <= p.y * (t / r) <= 1.0 && -1.0 <= p.z * (t / r) <= 1.0
  {
    SquaresBelowNorm(p);
    ScaledBelowOne(p.x, r, t);
    ScaledBelowOne(p.y, r, t);
    ScaledBelowOne(p.z, r, t);
  }

  /** `can` is finite once each scaled coordinate lies in [-1, 1]. */
  lemma CanFromBounds(nm: Numerics, p: Vec3)
    requires Hypot(nm, p) != 0.0
    requires -1.0 <= p.x * (Tanh(nm, Hypot(nm, p)) / Hypot(nm, p)) <= 1.0
    requires -1.0 <= p.y * (Tanh(nm, Hypot(nm, p)) / Hypot(nm, p)) <= 1.0
    requires -1.0 <= p.z * (Tanh(nm, Hypot(nm, p)) / Hypot(nm, p)) <= 1.0
    ensures Can(nm, p).IsFinite()
  {
  }

  lemma SquaresBelowNorm(p: Vec3)
    ensures 0.0 <= p.x * p.x <= Norm2(p)
    ensures 0.0 <= p.y * p.y <= Norm2(p)
    ensures 0.0 <= p.z * p.z <= Norm2(p)
  {
    assert p.x * p.x >= 0.0 && p.y * p.y >= 0.0 && p.z * p.z >= 0.0;
  }

  /** `uncan`: back from a (finite) sample to the tangent point; a sample on
      the unit sphere, where atanh diverges, maps to radius 30. */
  function Uncan(nm: Numerics, q: PtLow): (p: Vec3)
    requires q.IsFinite()
    ensures Sqrt(nm, q.x.v * q.x.v + q.y.v * q.y.v + q.z.v * q.z.v) == 0.0 ==> p == Origin
    ensures Sqrt(nm, q.x.v * q.x.v + q.y.v * q.y.v + q.z.v * q.z.v) == 1.0 ==>
              p == Vec3(q.x.v * 30.0, q.y.v * 30.0, q.z.v * 30.0)
  {
    var r := Sqrt(nm, q.x.v * q.x.v + q.y.v * q.y.v + q.z.v * q.z.v);
    if r == 0.0 then Origin
    else
      var makeR := if r == 1.0 then 30.0 else Atanh(nm, r);
      var d := makeR / r;
      Vec3(q.x.v * d, q.y.v * d, q.z.v * d)
  }

  /** The bisection test of `ix_to_x`: is the grid coordinate of `atanh(x)`
      below the requested one? */
  predicate Below(nm: Numerics, ix: real, x: real) {
    XToIx(nm, Atanh(nm, x)) < ix
  }

  /** One bisection step on [lo, hi]. */
  function BisectStep(nm: Numerics, ix: real, lo: real, hi: real): (real, real) {
    var mid := (lo + hi) / 2.0;
    if Below(nm, ix, mid) then (mid, hi) else (lo, mid)
  }

  /** The interval [minx, maxx] after `n` bisection steps from [0, 1]. */
  function Bisection(nm: Numerics, ix: real, n: nat): (real, real) {
    if n == 0 then (0.0, 1.0)
    else
      var prev := Bisection(nm, ix, n - 1);
      BisectStep(nm, ix, prev.0, prev.1)
  }

  /** Bisection keeps 0 <= minx <= maxx <= 1, halves the width each step,
      moves minx only to points where the test held and maxx only to points
      where it failed. */
  lemma {:induction false} BisectionBracket(nm: Numerics, ix: real, n: nat)
    ensures var (lo, hi) := Bisection(nm, ix, n);
      && 0.0 <= lo < hi <= 1.0
      && hi - lo == Width(n)
      && (lo == 0.0 || Below(nm, ix, lo))
      && (hi == 1.0 || !Below(nm, ix, hi))
  {
    if n > 0 {
      BisectionBracket(nm, ix, n - 1);
      WidthHalves(n - 1);
    }
  }

  /** When the test is monotone (true on an initial segment of [0, 1]), the
      final interval separates the points where it holds from those where it
      fails: the crossing point lies in [minx, maxx]. */
  lemma BisectionSeparates(nm: Numerics, ix: real, n: nat, x: real)
    requires forall a, b :: 0.0 <= a <= b <= 1.0 && Below(nm, ix, b) ==> Below(nm, ix, a)
    ensures 0.0 < x <= Bisection(nm, ix, n).0 ==> Below(nm, ix, x)
    ensures Bisection(nm, ix, n).1 <= x < 1.0 ==> !Below(nm, ix, x)
  {
    BisectionBracket(nm, ix, n);
  }

  /** `ix_to_x`: grid X (or Y) coordinate to tangent coordinate, by 100
      bisection steps on the compression `x_to_ix . atanh`. */
  method IxToX(nm: Numerics, ix: real) returns (x: real)
    ensures x == Atanh(nm, Bisection(nm, ix, 100).0)
  {
    var minx, maxx := 0.0, 1.0;
    for it := 0 to 100
      invariant (minx, maxx) == Bisection(nm, ix, it)
    {
      var mid := (minx + maxx) / 2.0;
      if XToIx(nm, Atanh(nm, mid)) < ix {
        minx := mid;
      } else {
        maxx := mid;
      }
    }
    x := Atanh(nm, minx);
  }
}
