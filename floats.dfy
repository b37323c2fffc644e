/** Single-precision samples ("ptlow") of the inverse-geodesic table.

    A `float` is modelled by its value class: a finite number, one of the two
    infinities, or NaN.  Rounding to the nearest representable float is not
    modelled (finite values are exact reals); the one float effect that the
    table builder reacts to, a non-finite component, is.  Converting a wide
    value to `float` overflows to an infinity once its magnitude exceeds the
    largest finite float. */
module Floats {

  /** FLT_MAX, the largest finite single-precision value. */
  const MaxFloat: real := 340282346638528859811704183484516925440.0

  datatype F32 = Num(v: real) | PosInf | NegInf | NaN {
    predicate IsFinite() { Num? }
  }

  /** `float(x)` for a finite wide value `x`. */
  function ToF32(x: real): (r: F32)
    ensures r.Num? <==> -MaxFloat <= x <= MaxFloat
    ensures r.Num? ==> r.v == x
    ensures r == PosInf <==> x > MaxFloat
    ensures r != NaN
  {
    if x > MaxFloat then PosInf
    else if x < -MaxFloat then NegInf
    else Num(x)
  }

  function Neg(a: F32): F32 {
    match a
    case Num(v) => Num(-v)
    case PosInf => NegInf
    case NegInf => PosInf
    case NaN => NaN
  }

  /** IEEE addition on value classes: NaN absorbs, opposite infinities give NaN. */
  function AddF(a: F32, b: F32): (r: F32)
    ensures a.Num? && b.Num? && -MaxFloat <= a.v + b.v <= MaxFloat ==> r == Num(a.v + b.v)
    ensures (a == NaN || b == NaN) ==> r == NaN
  {
    match (a, b)
    case (Num(x), Num(y)) => ToF32(x + y)
    case (NaN, _) => NaN
    case (_, NaN) => NaN
    case (PosInf, NegInf) => NaN
    case (NegInf, PosInf) => NaN
    case (PosInf, _) => PosInf
    case (NegInf, _) => NegInf
    case (_, PosInf) => PosInf
    case (_, NegInf) => NegInf
  }

  function SubF(a: F32, b: F32): F32 {
    AddF(a, Neg(b))
  }

  /** A float multiplied by a wide value: an infinity times zero is NaN. */
  function MulF(a: F32, x: real): (r: F32)
    ensures a.Num? && -MaxFloat <= a.v * x <= MaxFloat ==> r == Num(a.v * x)
    ensures a == NaN ==> r == NaN
  {
    match a
    case Num(v) => ToF32(v * x)
    case NaN => NaN
    case PosInf => if x > 0.0 then PosInf else if x < 0.0 then NegInf else NaN
    case NegInf => if x > 0.0 then NegInf else if x < 0.0 then PosInf else NaN
  }

  /** A table sample: three floats. */
  datatype PtLow = PtLow(x: F32, y: F32, z: F32) {
    predicate IsFinite() { x.IsFinite() && y.IsFinite() && z.IsFinite() }
  }

  /** The value a freshly resized table holds in every new entry. */
  const Zero: PtLow := PtLow(Num(0.0), Num(0.0), Num(0.0))

  /** `mlow`: build a sample from three wide values. */
  function MLow(x: real, y: real, z: real): (r: PtLow)
    ensures r.IsFinite() <==> (-MaxFloat <= x <= MaxFloat && -MaxFloat <= y <= MaxFloat && -MaxFloat <= z <= MaxFloat)
    ensures r.IsFinite() ==> r == PtLow(Num(x), Num(y), Num(z))
  {
    PtLow(ToF32(x), ToF32(y), ToF32(z))
  }

  function Add(a: PtLow, b: PtLow): PtLow {
    PtLow(AddF(a.x, b.x), AddF(a.y, b.y), AddF(a.z, b.z))
  }

  function Sub(a: PtLow, b: PtLow): PtLow {
    PtLow(SubF(a.x, b.x), SubF(a.y, b.y), SubF(a.z, b.z))
  }

  function Mul(a: PtLow, k: real): PtLow {
    PtLow(MulF(a.x, k), MulF(a.y, k), MulF(a.z, k))
  }

  /** The linear extrapolation `prev * 2 - prevprev` used at the table's edges. */
  function Extrapolate(prev: PtLow, prevprev: PtLow): PtLow {
    Sub(Mul(prev, 2.0), prevprev)
  }

  /** `zflip`: swap the first two coordinates and negate the third. */
  function ZFlip(p: PtLow): (r: PtLow)
    ensures r.x == p.y && r.y == p.x
    ensures r.IsFinite() <==> p.IsFinite()
    ensures p.z.Num? ==> r.z == Num(-p.z.v)
  {
    PtLow(p.y, p.x, Neg(p.z))
  }

  lemma ZFlipInvolution(p: PtLow)
    ensures ZFlip(ZFlip(p)) == p
  {
    match p.z
    case Num(v) =>
    case _ =>
  }

  /** Extrapolating from finite, moderate samples gives the exact value 2a - b. */
  lemma ExtrapolateFinite(a: PtLow, b: PtLow)
    requires a.IsFinite() && b.IsFinite()
    requires -MaxFloat <= 2.0 * a.x.v - b.x.v <= MaxFloat && -MaxFloat <= 2.0 * a.x.v <= MaxFloat
    requires -MaxFloat <= 2.0 * a.y.v - b.y.v <= MaxFloat && -MaxFloat <= 2.0 * a.y.v <= MaxFloat
    requires -MaxFloat <= 2.0 * a.z.v - b.z.v <= MaxFloat && -MaxFloat <= 2.0 * a.z.v <= MaxFloat
    ensures Extrapolate(a, b) == PtLow(Num(2.0 * a.x.v - b.x.v), Num(2.0 * a.y.v - b.y.v), Num(2.0 * a.z.v - b.z.v))
  {
  }

  /** A NaN in either source makes the extrapolated component NaN. */
  lemma ExtrapolateNaN(a: PtLow, b: PtLow)
    requires a.x == NaN || b.x == NaN
    ensures Extrapolate(a, b).x == NaN
  {
  }

  /** Extrapolating a constant column reproduces the constant, unless doubling overflows. */
  lemma ExtrapolateConstant(a: PtLow)
    requires a.IsFinite()
    requires -MaxFloat <= 2.0 * a.x.v <= MaxFloat && -MaxFloat <= 2.0 * a.y.v <= MaxFloat && -MaxFloat <= 2.0 * a.z.v <= MaxFloat
    ensures Extrapolate(a, a) == a
  {
  }
}
