/** Wide-precision (`ld`) points and the numerical routines the table builder
    consumes but whose bodies live elsewhere or are transcendental.

    Every such routine is a field of `Numerics`, a value passed to the
    operations that need it, so that nothing about it is assumed beyond what a
    lemma states in its own `requires`. */
module Numerics {

  /** The three spatial coordinates of a `hyperpoint`; the homogeneous fourth
      coordinate is always 1 in the table builder and is left implicit. */
  datatype Vec3 = Vec3(x: real, y: real, z: real) {
    function Get(i: nat): real
      requires i < 3
    {
      if i == 0 then x else if i == 1 then y else z
    }

    function Set(i: nat, v: real): (r: Vec3)
      requires i < 3
      ensures r.Get(i) == v
      ensures forall j :: 0 <= j < 3 && j != i ==> r.Get(j) == Get(j)
    {
      if i == 0 then Vec3(v, y, z) else if i == 1 then Vec3(x, v, z) else Vec3(x, y, v)
    }
  }

  const Origin: Vec3 := Vec3(0.0, 0.0, 0.0)

  function Plus(a: Vec3, b: Vec3): Vec3 {
    Vec3(a.x + b.x, a.y + b.y, a.z + b.z)
  }

  function Minus(a: Vec3, b: Vec3): Vec3 {
    Vec3(a.x - b.x, a.y - b.y, a.z - b.z)
  }

  function Scale(a: Vec3, k: real): Vec3 {
    Vec3(a.x * k, a.y * k, a.z * k)
  }

  /** Unit vector along axis `a` (`point3(a==0, a==1, a==2)`). */
  function Axis(a: nat): Vec3
    requires a < 3
  {
    if a == 0 then Vec3(1.0, 0.0, 0.0) else if a == 1 then Vec3(0.0, 1.0, 0.0) else Vec3(0.0, 0.0, 1.0)
  }

  /** `c[a]` is 1 on axis `a` and 0 on the other two. */
  lemma AxisUnit(a: nat, j: nat)
    requires a < 3 && j < 3
    ensures Axis(a).Get(j) == if j == a then 1.0 else 0.0
  {
  }

  /** `at + c[a] * e` moves coordinate `a` of `at` by `e` and keeps the
      other two. */
  lemma AxisDisplaces(at: Vec3, a: nat, e: real)
    requires a < 3
    ensures Plus(at, Scale(Axis(a), e)) == at.Set(a, at.Get(a) + e)
  {
  }

  /** A 3x3 matrix given by its columns. */
  datatype Mat3 = Mat3(c0: Vec3, c1: Vec3, c2: Vec3)

  /** The routines the builder calls but that are not part of this model:
      `numerical_exp` (the forward exponential map, with its integration
      precision), `x_to_ix` (the X/Y compression), `tanh`, `atanh`, `sqrt`,
      and the product of the inverse of a 3x3 matrix with a vector. */
  datatype Numerics = Numerics(
    exp: (Vec3, int) -> Vec3,
    xToIx: real -> real,
    tanh: real -> real,
    atanh: real -> real,
    sqrt: real -> real,
    inverseTimes: (Mat3, Vec3) -> Vec3)

  // Each routine is applied through one function, so that every statement
  // about it refers to the same term.
  function Exp(nm: Numerics, v: Vec3, prec: int): Vec3 { nm.exp(v, prec) }
  function XToIx(nm: Numerics, x: real): real { nm.xToIx(x) }
  function Tanh(nm: Numerics, x: real): real { nm.tanh(x) }
  function Atanh(nm: Numerics, x: real): real { nm.atanh(x) }
  function Sqrt(nm: Numerics, x: real): real { nm.sqrt(x) }
  function InverseTimes(nm: Numerics, m: Mat3, v: Vec3): Vec3 { nm.inverseTimes(m, v) }

  /** Squared Euclidean length. */
  function Norm2(v: Vec3): real {
    v.x * v.x + v.y * v.y + v.z * v.z
  }

  /** `hypot_d(3, v)`. */
  function Hypot(nm: Numerics, v: Vec3): real {
    Sqrt(nm, Norm2(v))
  }

  /** Negating a vector does not change its length. */
  lemma HypotNegate(nm: Numerics, d: Vec3)
    ensures Hypot(nm, Vec3(-d.x, -d.y, -d.z)) == Hypot(nm, d)
  {
    assert Norm2(Vec3(-d.x, -d.y, -d.z)) == Norm2(d);
  }

  /** 2^n. */
  function Pow2(n: nat): (r: nat)
    ensures r >= 1
  {
    if n == 0 then 1 else 2 * Pow2(n - 1)
  }

  lemma {:induction false} Pow2Add(a: nat, b: nat)
    ensures Pow2(a + b) == Pow2(a) * Pow2(b)
  {
    if a > 0 {
      Pow2Add(a - 1, b);
      assert Pow2(a + b) == 2 * Pow2(a - 1 + b);
    }
  }

  /** 2^-n: the width left after n bisections of [0, 1], and the factor left
      on a step after n halvings. */
  function Width(n: nat): (r: real)
    ensures 0.0 < r <= 1.0
  {
    1.0 / Pow2(n) as real
  }

  lemma WidthHalves(n: nat)
    ensures Width(n + 1) == Width(n) / 2.0
  {
    var p := Pow2(n) as real;
    assert Pow2(n + 1) as real == 2.0 * p;
    calc {
      Width(n + 1);
      1.0 / (2.0 * p);
      (1.0 / p) / 2.0;
    }
  }

  /** Halving strictly shrinks, so Width is strictly decreasing. */
  lemma {:induction false} WidthDecreasing(m: nat, n: nat)
    requires m < n
    ensures Width(n) < Width(m)
    decreases n - m
  {
    WidthHalves(m);
    if m + 1 < n {
      WidthDecreasing(m + 1, n);
    }
  }
}
