/** The control skeleton of `iterative_solve`: a damped Newton search for a
    tangent vector whose exponential lands on a target point, measured by
    `solerror`.  The exponential map, the inverse of the finite-difference
    Jacobian and the square root inside the error are the abstract routines
    of `Numerics`; what is modelled is which candidate points are tried, in
    which order, and when one is accepted. */
module Solver {
  import opened Numerics
  import opened Remap

  /** The error of tangent point `p` against target `xp`: `solerror(xp, f(p))`. */
  function PointError(nm: Numerics, g: Geometry, xp: Vec3, p: Vec3, prec: int): real {
    SolError(nm, g, xp, Exp(nm, p, prec))
  }

  /** The finite-difference step `eps`. */
  const Eps: real := 0.000001

  /** `pnear[a]`: the finite-difference derivative of the exponential map
      along axis `a`.  The displaced point `at + c[a] * eps` is `at` with
      coordinate `a` increased by `eps` (`AxisDisplaces`). */
  function FiniteDiff(nm: Numerics, at: Vec3, ver: Vec3, prec: int, a: nat): Vec3
    requires a < 3
  {
    var f := Exp(nm, at.Set(a, at.Get(a) + Eps), prec);
    Vec3((f.x - ver.x) / 0.000001, (f.y - ver.y) / 0.000001, (f.z - ver.z) / 0.000001)
  }

  /** The matrix `U`, whose column `b` is `pnear[b]`. */
  function Jacobian(nm: Numerics, at: Vec3, ver: Vec3, prec: int): Mat3 {
    Mat3(FiniteDiff(nm, at, ver, prec, 0), FiniteDiff(nm, at, ver, prec, 1), FiniteDiff(nm, at, ver, prec, 2))
  }

  /** A Newton step longer than 0.1 is shortened to length 0.1. */
  function Clamp(nm: Numerics, b: Vec3): Vec3 {
    var h := Hypot(nm, b);
    if h > 0.1 then Vec3(b.x * 0.1 / h, b.y * 0.1 / h, b.z * 0.1 / h) else b
  }

  /** The factor by which `Clamp` scales a step. */
  function ClampFactor(nm: Numerics, b: Vec3): real {
    var h := Hypot(nm, b);
    if h > 0.1 then 0.1 / h else 1.0
  }

  /** The clamped Newton step from `at`, where `ver` is the image of `at`. */
  function Bonus(nm: Numerics, xp: Vec3, at: Vec3, ver: Vec3, prec: int): Vec3 {
    Clamp(nm, InverseTimes(nm, Jacobian(nm, at, ver, prec), Minus(xp, ver)))
  }

  /** `at + c[a] * eps`: the point displaced along axis `a`. */
  method Displaced(at: Vec3, a: nat) returns (x: Vec3)
    requires a < 3
    ensures x == at.Set(a, at.Get(a) + Eps)
  {
    x := Plus(at, Scale(Axis(a), Eps));
    AxisDisplaces(at, a, Eps);
  }

  /** The Newton step of one iteration: the Jacobian columns by finite
      differences, then `inverse(U) * (xp - ver)`, clamped. */
  method NewtonStep(nm: Numerics, xp: Vec3, at: Vec3, ver: Vec3, prec: int) returns (bonus: Vec3)
    ensures bonus == Bonus(nm, xp, at, ver, prec)
  {
    var pnear: seq<Vec3> := [];
    for a := 0 to 3
      invariant |pnear| == a
      invariant forall j :: 0 <= j < a ==> pnear[j] == FiniteDiff(nm, at, ver, prec, j)
    {
      var x := Displaced(at, a);
      var fx := Exp(nm, x, prec);
      pnear := pnear + [Vec3((fx.x - ver.x) / Eps, (fx.y - ver.y) / Eps, (fx.z - ver.z) / Eps)];
    }
    var u := Mat3(pnear[0], pnear[1], pnear[2]);
    var diff := Minus(xp, ver);
    bonus := InverseTimes(nm, u, diff);
    if Hypot(nm, bonus) > 0.1 {
      var h := Hypot(nm, bonus);
      bonus := Vec3(bonus.x * 0.1 / h, bonus.y * 0.1 / h, bonus.z * 0.1 / h);
    }
  }

  lemma SquareGreater(a: real, b: real)
    requires a > b >= 0.0
    ensures a * a > b * b
  {
    if b > 0.0 {
      SquareStrict(a, b);
    } else {
      MulLessPositive(0.0, a, a);
      assert b == 0.0;
      calc {
        b * b;
        ==
        0.0;
        <
        a * a;
      }
    }
  }

  /** The square root is unique on the nonnegative reals. */
  lemma SqrtUnique(y: real, c: real)
    requires y >= 0.0 && c >= 0.0 && y * y == c * c
    ensures y == c
  {
    if y > c {
      SquareGreater(y, c);
      assert false;
    } else if c > y {
      SquareGreater(c, y);
      assert false;
    }
  }

  lemma NormOfScaled(b: Vec3, c: real)
    ensures Norm2(Scale(b, c)) == c * c * Norm2(b)
  {
  }

  lemma MulDivAssoc(x: real, c: real, h: real)
    requires h != 0.0
    ensures x * c / h == x * (c / h)
  {
  }

  lemma SquareOfProduct(c: real, h: real, n: real)
    requires h * h == n
    ensures c * c * n == (c * h) * (c * h)
  {
  }

  /** Clamping multiplies the step by a factor in (0, 1], whatever the
      square root returns. */
  lemma ClampScales(nm: Numerics, b: Vec3)
    ensures 0.0 < ClampFactor(nm, b) <= 1.0 && Clamp(nm, b) == Scale(b, ClampFactor(nm, b))
  {
    var h := Hypot(nm, b);
    if h > 0.1 {
      MulDivAssoc(b.x, 0.1, h);
      MulDivAssoc(b.y, 0.1, h);
      MulDivAssoc(b.z, 0.1, h);
    } else {
      assert Clamp(nm, b) == b == Scale(b, 1.0);
    }
  }

  /** With a true square root, the clamped step has length at most 0.1 and
      points in the same direction as the raw step (a factor in (0, 1]). */
  lemma ClampBounded(nm: Numerics, b: Vec3)
    requires forall s :: s >= 0.0 ==> Sqrt(nm, s) >= 0.0 && Sqrt(nm, s) * Sqrt(nm, s) == s
    ensures Hypot(nm, Clamp(nm, b)) <= 0.1
    ensures 0.0 < ClampFactor(nm, b) <= 1.0 && Clamp(nm, b) == Scale(b, ClampFactor(nm, b))
  {
    ClampScales(nm, b);
    var h := Hypot(nm, b);
    if h > 0.1 {
      var c := 0.1 / h;
      var r := Scale(b, c);
      SquaresBelowNorm(b);
      assert h * h == Norm2(b);
      assert c * h == 0.1;
      NormOfScaled(b, c);
      SquareOfProduct(c, h, Norm2(b));
      var hr := Hypot(nm, r);
      assert hr >= 0.0 && hr * hr == Norm2(r);
      SqrtUnique(hr, 0.1);
    }
  }

  /** The point tried after `j` halvings of the step `bonus`. */
  function Trial(at: Vec3, bonus: Vec3, j: nat): Vec3 {
    Plus(at, Scale(bonus, Width(j)))
  }

  lemma HalveScaled(b: Vec3, w: real)
    ensures Vec3(Scale(b, w).x / 2.0, Scale(b, w).y / 2.0, Scale(b, w).z / 2.0) == Scale(b, w / 2.0)
  {
  }

  /** The step-size search of one Newton iteration (the `nextfix` loop): try
      `at + bonus / 2^j` for j = 0, 1, ..., 10 and stop at the first one with
      a strictly smaller error. */
  method TryStepSizes(nm: Numerics, g: Geometry, xp: Vec3, at: Vec3, err: real, bonus: Vec3, prec: int)
    returns (found: bool, next: Vec3, nextver: Vec3, nexterr: real, fixes: nat)
    ensures found ==> fixes <= 10 && next == Trial(at, bonus, fixes)
    ensures found ==> nextver == Exp(nm, next, prec) && nexterr == SolError(nm, g, xp, nextver) && nexterr < err
    ensures found ==> forall j :: 0 <= j < fixes ==> PointError(nm, g, xp, Trial(at, bonus, j), prec) >= err
    ensures !found ==> forall j :: 0 <= j <= 10 ==> PointError(nm, g, xp, Trial(at, bonus, j), prec) >= err
  {
    fixes := 0;
    var step := bonus;
    assert Scale(bonus, Width(0)) == bonus;
    while fixes <= 10
      invariant fixes <= 11
      invariant step == Scale(bonus, Width(fixes))
      invariant forall j :: 0 <= j < fixes ==> PointError(nm, g, xp, Trial(at, bonus, j), prec) >= err
    {
      next := Plus(at, step);
      nextver := Exp(nm, next, prec);
      nexterr := SolError(nm, g, xp, nextver);
      if nexterr < err {
        found := true;
        return;
      }
      WidthHalves(fixes);
      HalveScaled(bonus, Width(fixes));
      step := Vec3(step.x / 2.0, step.y / 2.0, step.z / 2.0);
      fixes := fixes + 1;
    }
    found, next, nextver, nexterr := false, at, Exp(nm, at, prec), err;
  }

  /** The sign a base-3 digit of `k` contributes: 1 gives +1, 2 gives -1. */
  function DigitSign(d: int): real {
    if d == 1 then 1.0 else if d == 2 then -1.0 else 0.0
  }

  /** `k` after `i` divisions by 3 (the variable `kk` of the offset loop). */
  function Shift(k: nat, i: nat): nat {
    if i == 0 then k else Shift(k, i - 1) / 3
  }

  /** The offset direction the fallback search derives from `k`: coordinate
      `i` moves by the sign of the `i`-th base-3 digit of `k`. */
  function Pattern(k: nat): Vec3 {
    Vec3(DigitSign(Shift(k, 0) % 3), DigitSign(Shift(k, 1) % 3), DigitSign(Shift(k, 2) % 3))
  }

  /** The digit encoding an offset sign. */
  function SignDigit(c: real): nat {
    if c == 1.0 then 1 else if c == -1.0 then 2 else 0
  }

  /** The inverse of `Pattern`: the `k` that produces a direction. */
  function PatternIndex(v: Vec3): nat {
    SignDigit(v.x) + 3 * SignDigit(v.y) + 9 * SignDigit(v.z)
  }

  predicate IsSign(c: real) {
    c == -1.0 || c == 0.0 || c == 1.0
  }

  /** The 27 values k = 0..26 produce each direction in {-1, 0, 1}^3 exactly
      once: `Pattern` and `PatternIndex` are inverse bijections. */
  lemma PatternBijection(k: nat, v: Vec3)
    ensures k < 27 ==> IsSign(Pattern(k).x) && IsSign(Pattern(k).y) && IsSign(Pattern(k).z)
    ensures k < 27 ==> PatternIndex(Pattern(k)) == k
    ensures IsSign(v.x) && IsSign(v.y) && IsSign(v.z) ==> PatternIndex(v) < 27 && Pattern(PatternIndex(v)) == v
  {
    if k < 27 {
      var d0, d1, d2 := k % 3, k / 3 % 3, k / 3 / 3 % 3;
      assert k == d0 + 3 * (k / 3) && k / 3 == d1 + 3 * (k / 3 / 3);
      assert k / 3 / 3 < 3;
      assert SignDigit(DigitSign(d0)) == d0;
      assert SignDigit(DigitSign(d1)) == d1;
      assert SignDigit(DigitSign(d2)) == d2;
    }
    if IsSign(v.x) && IsSign(v.y) && IsSign(v.z) {
      var i := PatternIndex(v);
      var a, b, c := SignDigit(v.x), SignDigit(v.y), SignDigit(v.z);
      assert i % 3 == a && i / 3 == b + 3 * c;
      assert i / 3 % 3 == b && i / 3 / 3 == c;
    }
  }

  /** The point the fallback tries with pattern `k` at scale `s`. */
  function PatternPoint(at: Vec3, k: nat, s: real): Vec3 {
    Plus(at, Scale(Pattern(k), s))
  }

  /** `at` with its first `i` coordinates moved as pattern `k` at scale `s`
      moves them. */
  function Moved(at: Vec3, k: nat, s: real, i: nat): Vec3 {
    Vec3(if 0 < i then at.x + Pattern(k).x * s else at.x,
         if 1 < i then at.y + Pattern(k).y * s else at.y,
         if 2 < i then at.z + Pattern(k).z * s else at.z)
  }

  /** Moving one more coordinate adds that coordinate's digit sign. */
  lemma MovedStep(at: Vec3, k: nat, s: real, i: nat)
    requires i < 3
    ensures Moved(at, k, s, i + 1) == Moved(at, k, s, i).Set(i, Moved(at, k, s, i).Get(i) + DigitSign(Shift(k, i) % 3) * s)
  {
  }

  /** The digit loop of the fallback: starting from `at`, coordinate `i` moves
      by +s or -s according to the `i`-th base-3 digit of `k`. */
  method ApplyOffset(at: Vec3, k: nat, s: real) returns (next: Vec3)
    ensures next == PatternPoint(at, k, s)
  {
    var kk := k;
    next := at;
    for i := 0 to 3
      invariant kk == Shift(k, i)
      invariant next == Moved(at, k, s, i)
    {
      MovedStep(at, k, s, i);
      if kk % 3 == 1 {
        next := next.Set(i, next.Get(i) + s);
      }
      if kk % 3 == 2 {
        next := next.Set(i, next.Get(i) - s);
      }
      kk := kk / 3;
    }
  }

  /** The point tried by the fallback at scale 2^-n with pattern `k`. */
  function Offset(at: Vec3, n: nat, k: nat): Vec3 {
    PatternPoint(at, k, Width(n))
  }

  /** Pattern 0 is the zero offset: it reproduces `at`, whose error equals the
      current error and so is never accepted as a strict improvement. */
  lemma ZeroOffsetNeverAccepted(nm: Numerics, g: Geometry, xp: Vec3, at: Vec3, n: nat, prec: int)
    ensures Offset(at, n, 0) == at
    ensures !(PointError(nm, g, xp, Offset(at, n, 0), prec) < PointError(nm, g, xp, at, prec))
  {
    assert Pattern(0) == Origin;
  }

  lemma Pow2Thirty()
    ensures Pow2(29) == 536870912 && Pow2(30) == 1073741824
  {
    assert Pow2(10) == 1024;
    Pow2Add(10, 10);
    Pow2Add(20, 9);
    Pow2Add(20, 10);
  }

  /** 2^-29 is above the threshold 1e-9 and 2^-30 is not. */
  lemma ThresholdCrossing()
    ensures Width(29) > 0.000000001 && Width(30) <= 0.000000001
  {
    Pow2Thirty();
    var a, b := Width(29), Width(30);
    assert a * 536870912.0 == 1.0;
    assert b * 1073741824.0 == 1.0;
  }

  /** The scales of the fallback are 2^0 down to 2^-29: the loop
      `for(s = 1; abs(s) > 1e-9; s *= 0.5)` runs exactly 30 times. */
  lemma ScaleThreshold(n: nat)
    ensures Width(n) > 0.000000001 <==> n < 30
  {
    ThresholdCrossing();
    if n < 29 {
      WidthDecreasing(n, 29);
    } else if n > 30 {
      WidthDecreasing(30, n);
    }
  }

  /** One scale of the fallback: patterns k = 0..26 at scale `s`, stopping at
      the first strict improvement. */
  method ScanPatterns(nm: Numerics, g: Geometry, xp: Vec3, at: Vec3, err: real, s: real, prec: int)
    returns (found: bool, next: Vec3, nextver: Vec3, nexterr: real, k: nat)
    ensures found ==> k < 27 && next == PatternPoint(at, k, s)
    ensures found ==> nextver == Exp(nm, next, prec) && nexterr == SolError(nm, g, xp, nextver) && nexterr < err
    ensures found ==> forall k' :: 0 <= k' < k ==> PointError(nm, g, xp, PatternPoint(at, k', s), prec) >= err
    ensures !found ==> forall k' :: 0 <= k' < 27 ==> PointError(nm, g, xp, PatternPoint(at, k', s), prec) >= err
  {
    k := 0;
    while k < 27
      invariant k <= 27
      invariant forall k' :: 0 <= k' < k ==> PointError(nm, g, xp, PatternPoint(at, k', s), prec) >= err
    {
      next := ApplyOffset(at, k, s);
      nextver := Exp(nm, next, prec);
      nexterr := SolError(nm, g, xp, nextver);
      if nexterr < err {
        found := true;
        return;
      }
      k := k + 1;
    }
    found, next, nextver, nexterr := false, at, Exp(nm, at, prec), err;
  }

  /** The exhaustive fallback: scales 2^0 .. 2^-29, and at each scale the 27
      patterns, in that order; the first strict improvement is taken. */
  method ExhaustiveSearch(nm: Numerics, g: Geometry, xp: Vec3, at: Vec3, err: real, prec: int)
    returns (found: bool, next: Vec3, nextver: Vec3, nexterr: real, n: nat, k: nat)
    ensures found ==> n < 30 && k < 27 && next == Offset(at, n, k)
    ensures found ==> nextver == Exp(nm, next, prec) && nexterr == SolError(nm, g, xp, nextver) && nexterr < err
    ensures found ==> forall n', k' :: 0 <= k' < 27 && 0 <= n' < n ==> PointError(nm, g, xp, Offset(at, n', k'), prec) >= err
    ensures found ==> forall k' :: 0 <= k' < k ==> PointError(nm, g, xp, Offset(at, n, k'), prec) >= err
    ensures !found ==> forall n', k' :: 0 <= n' < 30 && 0 <= k' < 27 ==> PointError(nm, g, xp, Offset(at, n', k'), prec) >= err
  {
    var s := 1.0;
    n := 0;
    while (if s < 0.0 then -s else s) > 0.000000001
      invariant s == Width(n) && n <= 30
      invariant forall n', k' :: 0 <= k' < 27 && 0 <= n' < n ==> PointError(nm, g, xp, Offset(at, n', k'), prec) >= err
      decreases 30 - n
    {
      ScaleThreshold(n);
      found, next, nextver, nexterr, k := ScanPatterns(nm, g, xp, at, err, s, prec);
      if found {
        return;
      }
      WidthHalves(n);
      s := s * 0.5;
      n := n + 1;
    }
    ScaleThreshold(n);
    found, next, nextver, nexterr, k := false, at, Exp(nm, at, prec), err, 0;
  }

  /** How `iterative_solve` ends: it returns a point, or it calls `exit(1)`
      because even the fallback could not improve an error above 999.  The
      model gives the loop a budget of iterations, since over the reals the
      strictly decreasing error need not reach the threshold. */
  datatype SolveOutcome =
    | Returned(at: Vec3, err: real)
    | CannotImprove(at: Vec3, err: real)
    | OutOfFuel(at: Vec3, err: real)

  predicate StrictlyDecreasing(trace: seq<real>) {
    forall i, j :: 0 <= i < j < |trace| ==> trace[j] < trace[i]
  }

  /** Appending a value below the last keeps a trace strictly decreasing. */
  lemma AppendSmaller(trace: seq<real>, e: real)
    requires StrictlyDecreasing(trace) && |trace| >= 1 && e < trace[|trace| - 1]
    ensures StrictlyDecreasing(trace + [e])
  {
    var t := trace + [e];
    forall i, j | 0 <= i < j < |t| ensures t[j] < t[i] {
      if j == |trace| {
        assert t[j] == e;
        if i < |trace| - 1 {
          assert trace[|trace| - 1] < trace[i];
        }
      }
    }
  }

  /** `iterative_solve(xp, candidate, prec, minerr)`.  The current point is
      replaced only by one with strictly smaller error (the ghost `trace`
      records the accepted errors); the function returns once the error is at
      most `minerr`, or when no step size improves an error of at most 999;
      with an error above 999 it falls back to the exhaustive search and exits
      if that fails too. */
  method IterativeSolve(nm: Numerics, g: Geometry, xp: Vec3, candidate: Vec3, prec: int, minerr: real, fuel: nat)
    returns (out: SolveOutcome, ghost trace: seq<real>)
    ensures out.err == PointError(nm, g, xp, out.at, prec)
    ensures out.err <= PointError(nm, g, xp, candidate, prec)
    ensures PointError(nm, g, xp, candidate, prec) <= minerr ==> out == Returned(candidate, PointError(nm, g, xp, candidate, prec))
    ensures out.Returned? ==>
              out.err <= minerr ||
              (out.err <= 999.0 &&
               forall j :: 0 <= j <= 10 ==>
                 PointError(nm, g, xp, Trial(out.at, Bonus(nm, xp, out.at, Exp(nm, out.at, prec), prec), j), prec) >= out.err)
    ensures out.CannotImprove? ==>
              out.err > 999.0 && out.err > minerr &&
              (forall j :: 0 <= j <= 10 ==>
                 PointError(nm, g, xp, Trial(out.at, Bonus(nm, xp, out.at, Exp(nm, out.at, prec), prec), j), prec) >= out.err) &&
              (forall n, k :: 0 <= n < 30 && 0 <= k < 27 ==> PointError(nm, g, xp, Offset(out.at, n, k), prec) >= out.err)
    ensures |trace| >= 1 && trace[0] == PointError(nm, g, xp, candidate, prec) && trace[|trace| - 1] == out.err
    ensures StrictlyDecreasing(trace)
  {
    var ver := Exp(nm, candidate, prec);
    var err := SolError(nm, g, xp, ver);
    var at := candidate;
    trace := [err];
    var left := fuel;
    while err > minerr
      invariant ver == Exp(nm, at, prec) && err == SolError(nm, g, xp, ver)
      invariant |trace| >= 1 && trace[0] == PointError(nm, g, xp, candidate, prec) && trace[|trace| - 1] == err
      invariant StrictlyDecreasing(trace)
      invariant err <= trace[0]
      invariant |trace| == 1 ==> at == candidate
      invariant |trace| > 1 ==> trace[0] > minerr
      decreases left
    {
      if left == 0 {
        out := OutOfFuel(at, err);
        return;
      }
      left := left - 1;
      var bonus := NewtonStep(nm, xp, at, ver, prec);
      var fixes;
      var found, next, nextver, nexterr;
      found, next, nextver, nexterr, fixes := TryStepSizes(nm, g, xp, at, err, bonus, prec);
      if !found {
        if err > 999.0 {
          var n, k;
          found, next, nextver, nexterr, n, k := ExhaustiveSearch(nm, g, xp, at, err, prec);
          if !found {
            out := CannotImprove(at, err);
            return;
          }
        } else {
          out := Returned(at, err);
          return;
        }
      }
      AppendSmaller(trace, nexterr);
      at, ver, err := next, nextver, nexterr;
      trace := trace + [err];
    }
    out := Returned(at, err);
  }
}
