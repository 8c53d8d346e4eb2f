/**
 * Vector2Fp of F64Vec2.cs: two signed 32.32 fixed-point numbers kept as raw
 * 64-bit integers. Everything here is integer arithmetic on the raw parts;
 * the FixPointCS kernels (multiply, divide, reciprocal square root, squared
 * distance) are not part of this model and come in as a record of function
 * values whose results are wrapped to 64 bits.
 */
module FixedVec {
  import opened IntWidth

  /** A raw F64 value (`F64.Raw`). */
  type F64 = Int64

  /** `Fixed64.One`: 1.0 in 32.32 format. */
  const ONE_RAW: int := 0x1_0000_0000
  /** `F64.MaxValue` and `F64.MinValue`. */
  const MAX_RAW: F64 := LONG_MAX
  const MIN_RAW: F64 := LONG_MIN

  /** `F64.FromInt(n)`: the integer shifted into the integer half. */
  function FromInt(n: Int32): (r: F64)
    ensures r / ONE_RAW == n && r % ONE_RAW == 0
  {
    assert IsInt(n);
    var x: int := n as int * 0x1_0000_0000;
    x
  }

  /** The FixPointCS kernels that are not part of this model. */
  datatype FixedOps = FixedOps(
    mul: (int, int) -> int,
    divPrecise: (int, int) -> int,
    rsqrt: int -> int,
    rsqrtFast: int -> int,
    distanceSqr: (int, int, int, int) -> int)

  function Mul(ops: FixedOps, a: F64, b: F64): F64 { Wrap64(ops.mul(a, b)) }
  function Div(ops: FixedOps, a: F64, b: F64): F64 { Wrap64(ops.divPrecise(a, b)) }

  datatype Vec2 = Vec2(rawX: F64, rawY: F64)

  const ZERO: Vec2 := Vec2(0, 0)

  /** `Vector2Fp.FromRaw`. */
  function FromRaw(x: F64, y: F64): (v: Vec2)
    ensures v.rawX == x && v.rawY == y
  {
    Vec2(x, y)
  }

  /** The `X` getter: `F64.FromRaw(RawX)`. */
  function GetX(v: Vec2): F64 { v.rawX }
  /** The `X` setter: `RawX = value.Raw`. */
  function SetX(v: Vec2, x: F64): Vec2 { v.(rawX := x) }
  function GetY(v: Vec2): F64 { v.rawY }
  function SetY(v: Vec2, y: F64): Vec2 { v.(rawY := y) }

  /** The accessors pass raw values through untouched in both directions. */
  lemma AccessorsRoundTrip(v: Vec2, x: F64, y: F64)
    ensures SetX(v, GetX(v)) == v && SetY(v, GetY(v)) == v
    ensures GetX(SetX(v, x)) == x && GetY(SetX(v, x)) == v.rawY
    ensures GetY(SetY(v, y)) == y && GetX(SetY(v, y)) == v.rawX
    ensures FromRaw(GetX(v), GetY(v)) == v
  {
  }

  /** Unary minus: each raw part negated, with `-long.MinValue == long.MinValue`. */
  function Neg(a: Vec2): Vec2 {
    Vec2(Wrap64(0 - a.rawX as int), Wrap64(0 - a.rawY as int))
  }

  /** Componentwise wrapping addition of the raw parts. */
  function Add(a: Vec2, b: Vec2): Vec2 {
    Vec2(Wrap64(a.rawX + b.rawX), Wrap64(a.rawY + b.rawY))
  }

  /** Componentwise wrapping subtraction of the raw parts. */
  function Sub(a: Vec2, b: Vec2): Vec2 {
    Vec2(Wrap64(a.rawX - b.rawX), Wrap64(a.rawY - b.rawY))
  }

  /** `F64 + Vector2Fp`. */
  function ScalarAdd(s: F64, v: Vec2): Vec2 { Vec2(Wrap64(s + v.rawX), Wrap64(s + v.rawY)) }
  /** `Vector2Fp + F64`. */
  function AddScalar(v: Vec2, s: F64): Vec2 { Vec2(Wrap64(v.rawX + s), Wrap64(v.rawY + s)) }
  /** `F64 - Vector2Fp`. */
  function ScalarSub(s: F64, v: Vec2): Vec2 { Vec2(Wrap64(s - v.rawX), Wrap64(s - v.rawY)) }
  /** `Vector2Fp - F64`. */
  function SubScalar(v: Vec2, s: F64): Vec2 { Vec2(Wrap64(v.rawX - s), Wrap64(v.rawY - s)) }

  /** `operator ==`. */
  function Eq(a: Vec2, b: Vec2): (r: bool)
    ensures r <==> a == b
  {
    a.rawX == b.rawX && a.rawY == b.rawY
  }

  /** `operator !=`, written out as in the source. */
  function Neq(a: Vec2, b: Vec2): (r: bool)
    ensures r <==> !Eq(a, b)
  {
    a.rawX != b.rawX || a.rawY != b.rawY
  }

  /** The multiply kernel does not depend on the order of its operands. */
  ghost predicate MulCommutes(ops: FixedOps) {
    forall x, y :: ops.mul(x, y) == ops.mul(y, x)
  }

  /**
   * `Vector2Fp * F64` (and `*=`): FixPointCS multiply of each part by the
   * scalar. It agrees with the `F64 * Vector2Fp` overload whenever the
   * kernel commutes.
   */
  function Scale(ops: FixedOps, v: Vec2, s: F64): (r: Vec2)
    ensures MulCommutes(ops) ==> r == ScaleLeft(ops, s, v)
  {
    Vec2(Mul(ops, v.rawX, s), Mul(ops, v.rawY, s))
  }
  /** `F64 * Vector2Fp`: the scalar is the left operand of the multiply. */
  function ScaleLeft(ops: FixedOps, s: F64, v: Vec2): Vec2 { Vec2(Mul(ops, s, v.rawX), Mul(ops, s, v.rawY)) }
  /** `Vector2Fp / F64`. */
  function DivScalar(ops: FixedOps, v: Vec2, s: F64): Vec2 { Vec2(Div(ops, v.rawX, s), Div(ops, v.rawY, s)) }

  /**
   * `Vector2Fp.Dot`: a wrapping sum of two FixPointCS products. A vector
   * dotted with itself is the squared length Normalize reads, and the
   * operands may be swapped whenever the kernel commutes.
   */
  function Dot(ops: FixedOps, a: Vec2, b: Vec2): (r: F64)
    ensures a == b ==> r == LengthSqrRaw(ops, a)
    ensures MulCommutes(ops) ==> r == Wrap64(Mul(ops, b.rawX, a.rawX) + Mul(ops, b.rawY, a.rawY))
  {
    Wrap64(Mul(ops, a.rawX, b.rawX) + Mul(ops, a.rawY, b.rawY))
  }

  function LengthSqrRaw(ops: FixedOps, a: Vec2): int {
    Wrap64(Mul(ops, a.rawX, a.rawX) + Mul(ops, a.rawY, a.rawY))
  }

  /**
   * `Vector2Fp.Normalize`: the reciprocal length times the vector, so the
   * result is the input scaled by a single factor; it is NormalizeFast
   * whenever the two reciprocal-square-root kernels agree.
   */
  function Normalize(ops: FixedOps, a: Vec2): (r: Vec2)
    ensures exists k: F64 :: r == ScaleLeft(ops, k, a)
    ensures ops.rsqrt == ops.rsqrtFast ==> r == NormalizeFast(ops, a)
  {
    ScaleLeft(ops, Wrap64(ops.rsqrt(LengthSqrRaw(ops, a))), a)
  }

  /** `Vector2Fp.NormalizeFast`: the same with the fast reciprocal square root. */
  function NormalizeFast(ops: FixedOps, a: Vec2): (r: Vec2)
    ensures exists k: F64 :: r == ScaleLeft(ops, k, a)
  {
    ScaleLeft(ops, Wrap64(ops.rsqrtFast(LengthSqrRaw(ops, a))), a)
  }

  /** `Vector2Fp.DistanceSqr`, a FixPointCS-side helper. */
  function DistanceSqr(ops: FixedOps, a: Vec2, b: Vec2): F64 {
    Wrap64(ops.distanceSqr(a.rawX, a.rawY, b.rawX, b.rawY))
  }

  /** FixPointCS `Fixed64.Min`, `Max` and `Clamp` on raw values. */
  function MinRaw(a: F64, b: F64): F64 { if a < b then a else b }
  function MaxRaw(a: F64, b: F64): F64 { if a > b then a else b }
  function ClampRaw(a: F64, lo: F64, hi: F64): F64 {
    if a > hi then hi else if a < lo then lo else a
  }

  function Min(a: Vec2, b: Vec2): Vec2 { Vec2(MinRaw(a.rawX, b.rawX), MinRaw(a.rawY, b.rawY)) }
  function Max(a: Vec2, b: Vec2): Vec2 { Vec2(MaxRaw(a.rawX, b.rawX), MaxRaw(a.rawY, b.rawY)) }

  /** `Clamp(Vector2Fp, F64, F64)`: the same bounds on both parts. */
  function ClampScalar(a: Vec2, lo: F64, hi: F64): Vec2 {
    Vec2(ClampRaw(a.rawX, lo, hi), ClampRaw(a.rawY, lo, hi))
  }

  /** `Clamp(Vector2Fp, Vector2Fp, Vector2Fp)`: per-part bounds. */
  function Clamp(a: Vec2, lo: Vec2, hi: Vec2): Vec2 {
    Vec2(ClampRaw(a.rawX, lo.rawX, hi.rawX), ClampRaw(a.rawY, lo.rawY, hi.rawY))
  }

  // ---------------------------------------------------------------- laws

  /** Subtraction undoes addition on wrapped values. */
  lemma AddSubInverse(a: Vec2, b: Vec2)
    ensures Sub(Add(a, b), b) == a
  {
    AddThenSub(a.rawX, b.rawX);
    AddThenSub(a.rawY, b.rawY);
  }

  /** Addition undoes subtraction on wrapped values. */
  lemma SubAddInverse(a: Vec2, b: Vec2)
    ensures Add(Sub(a, b), b) == a
  {
    var d := Sub(a, b);
    assert d.rawX == Wrap64(a.rawX - b.rawX) && d.rawY == Wrap64(a.rawY - b.rawY);
    SubThenAdd(a.rawX, b.rawX);
    SubThenAdd(a.rawY, b.rawY);
    assert Add(d, b) == Vec2(Wrap64(d.rawX + b.rawX), Wrap64(d.rawY + b.rawY));
  }

  lemma AddThenSub(x: F64, y: F64)
    ensures Wrap64(Wrap64(x + y) - y) == x
  {
    var s: int := Wrap64(x + y);
    Wrap64Spec(x + y);
    Wrap64Spec(x);
    assert (s - y) - x == s - (x + y);
    Wrap64Congruent(s - y, x);
  }

  lemma SubThenAdd(x: F64, y: F64)
    ensures Wrap64(Wrap64(x - y) + y) == x
  {
    var d: int := Wrap64(x - y);
    Wrap64Spec(x - y);
    Wrap64Spec(x);
    assert (d + y) - x == d - (x - y);
    Wrap64Congruent(d + y, x);
  }

  /** Adding the negation is subtraction, and addition commutes, on wrapped values. */
  lemma AddNegIsSub(a: Vec2, b: Vec2)
    ensures Add(a, Neg(b)) == Sub(a, b)
    ensures Add(a, b) == Add(b, a)
  {
    var n := Neg(b);
    AddNeg(a.rawX, b.rawX);
    AddNeg(a.rawY, b.rawY);
    assert Add(a, n) == Vec2(Wrap64(a.rawX + n.rawX), Wrap64(a.rawY + n.rawY));
    assert a.rawX + b.rawX == b.rawX + a.rawX;
  }

  /** A vector plus its negation is the zero vector, whatever wrapped. */
  lemma AddNegIsZero(a: Vec2)
    ensures Add(a, Neg(a)) == ZERO
  {
    AddNeg(a.rawX, a.rawX);
    AddNeg(a.rawY, a.rawY);
    var n := Neg(a);
    assert Add(a, n) == Vec2(Wrap64(a.rawX + n.rawX), Wrap64(a.rawY + n.rawY));
  }

  lemma AddNeg(x: F64, y: F64)
    ensures Wrap64(x + Wrap64(0 - y as int)) == Wrap64(x - y)
  {
    var n: int := Wrap64(0 - y as int);
    Wrap64Spec(0 - y as int);
    Wrap64Congruent(x + n, x - y);
  }

  /** Negating twice is the identity, even for `long.MinValue`. */
  lemma NegInvolution(a: Vec2)
    ensures Neg(Neg(a)) == a
  {
    NegWrap(a.rawX);
    NegWrap(a.rawY);
    var n := Neg(a);
    assert Neg(n) == Vec2(Wrap64(0 - n.rawX as int), Wrap64(0 - n.rawY as int));
  }

  lemma NegWrap(x: F64)
    ensures Wrap64(0 - Wrap64(0 - x as int) as int) == x
  {
    var w: int := Wrap64(0 - x as int);
    Wrap64Spec(0 - x as int);
    Wrap64Spec(x);
    Wrap64Congruent(0 - w, x);
  }

  /** Scalar addition applies the same raw offset to both parts from either side. */
  lemma ScalarAddCommutes(s: F64, v: Vec2)
    ensures ScalarAdd(s, v) == AddScalar(v, s)
    ensures AddScalar(v, s) == Add(v, Vec2(s, s))
    ensures SubScalar(v, s) == Sub(v, Vec2(s, s))
    ensures ScalarSub(s, v) == Sub(Vec2(s, s), v)
  {
  }

  /** Min and Max pick, per part, the smaller and larger of the two inputs. */
  lemma MinMaxComponentwise(a: Vec2, b: Vec2)
    ensures Min(a, b).rawX <= a.rawX && Min(a, b).rawX <= b.rawX
    ensures Min(a, b).rawY <= a.rawY && Min(a, b).rawY <= b.rawY
    ensures Max(a, b).rawX >= a.rawX && Max(a, b).rawX >= b.rawX
    ensures Max(a, b).rawY >= a.rawY && Max(a, b).rawY >= b.rawY
    ensures Min(a, b).rawX in {a.rawX, b.rawX} && Min(a, b).rawY in {a.rawY, b.rawY}
    ensures Max(a, b).rawX in {a.rawX, b.rawX} && Max(a, b).rawY in {a.rawY, b.rawY}
    ensures Min(a, b).rawX <= Max(a, b).rawX && Min(a, b).rawY <= Max(a, b).rawY
  {
  }

  /** With ordered bounds Clamp lands inside them and keeps in-range parts. */
  lemma ClampBounds(a: Vec2, lo: Vec2, hi: Vec2)
    requires lo.rawX <= hi.rawX && lo.rawY <= hi.rawY
    ensures lo.rawX <= Clamp(a, lo, hi).rawX <= hi.rawX
    ensures lo.rawY <= Clamp(a, lo, hi).rawY <= hi.rawY
    ensures lo.rawX <= a.rawX <= hi.rawX ==> Clamp(a, lo, hi).rawX == a.rawX
    ensures lo.rawY <= a.rawY <= hi.rawY ==> Clamp(a, lo, hi).rawY == a.rawY
    ensures ClampScalar(a, lo.rawX, hi.rawX) == Clamp(a, Vec2(lo.rawX, lo.rawX), Vec2(hi.rawX, hi.rawX))
  {
  }
}
