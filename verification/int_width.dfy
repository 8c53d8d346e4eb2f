/**
 * Machine integer widths of C#: `int` is 32-bit and `long` is 64-bit, both
 * two's complement and wrapping (the project uses the default unchecked
 * context). Dafny integers are unbounded, so every wrap is written out here.
 */
module IntWidth {

  const TWO_32: int := 0x1_0000_0000
  const TWO_64: int := 0x1_0000_0000_0000_0000
  const INT_MIN: int := -0x8000_0000
  const INT_MAX: int := 0x7FFF_FFFF
  const LONG_MIN: int := -0x8000_0000_0000_0000
  const LONG_MAX: int := 0x7FFF_FFFF_FFFF_FFFF

  predicate IsInt(x: int) { INT_MIN <= x <= INT_MAX }
  predicate IsLong(x: int) { LONG_MIN <= x <= LONG_MAX }

  /** A C# `int` value. */
  type Int32 = x: int | IsInt(x)
  /** A C# `long` value. */
  type Int64 = x: int | IsLong(x)
  /** A C# `byte` value. */
  type Byte = x: int | 0 <= x < 256

  /** The `int` that C# produces for the mathematical value `x`. */
  function Wrap32(x: int): Int32 {
    var m := x % TWO_32;
    if m <= INT_MAX then m else m - TWO_32
  }

  /** The `long` that C# produces for the mathematical value `x`. */
  function Wrap64(x: int): Int64 {
    var m := x % TWO_64;
    if m <= LONG_MAX then m else m - TWO_64
  }

  /** Wrap32 keeps the value modulo 2^32 and is the identity on `int` values. */
  lemma Wrap32Spec(x: int)
    ensures (Wrap32(x) - x) % TWO_32 == 0
    ensures IsInt(x) ==> Wrap32(x) == x
  {
    var m := x % TWO_32;
    assert x == TWO_32 * (x / TWO_32) + m;
    if m <= INT_MAX {
      ModShift(0, x / TWO_32, TWO_32);
    } else {
      ModShift(0, x / TWO_32 + 1, TWO_32);
    }
  }

  /** Wrap64 keeps the value modulo 2^64 and is the identity on `long` values. */
  lemma Wrap64Spec(x: int)
    ensures (Wrap64(x) - x) % TWO_64 == 0
    ensures IsLong(x) ==> Wrap64(x) == x
  {
    var m := x % TWO_64;
    assert x == TWO_64 * (x / TWO_64) + m;
    if m <= LONG_MAX {
      ModShift(0, x / TWO_64, TWO_64);
    } else {
      ModShift(0, x / TWO_64 + 1, TWO_64);
    }
  }

  /** Values congruent modulo 2^64 wrap to the same `long`. */
  lemma Wrap64Congruent(x: int, y: int)
    requires (x - y) % TWO_64 == 0
    ensures Wrap64(x) == Wrap64(y)
  {
    var k := (x - y) / TWO_64;
    assert x == y + k * TWO_64;
    Wrap64Shift(y, k);
  }

  /** Values congruent modulo 2^32 wrap to the same `int`. */
  lemma Wrap32Congruent(x: int, y: int)
    requires (x - y) % TWO_32 == 0
    ensures Wrap32(x) == Wrap32(y)
  {
    var k := (x - y) / TWO_32;
    assert x == y + k * TWO_32;
    Wrap32Shift(y, k);
  }

  /** Wrapping twice, or wrapping an operand early, changes nothing. */
  lemma Wrap64Absorb(a: int, b: int)
    ensures Wrap64(Wrap64(a) + b) == Wrap64(a + b)
  {
    var k := (Wrap64(a) - a) / TWO_64;
    assert Wrap64(a) + b == (a + b) + k * TWO_64;
    Wrap64Shift(a + b, k);
  }

  /** The same for `int`: wrapping an operand early changes nothing. */
  lemma Wrap32Absorb(a: int, b: int)
    ensures Wrap32(Wrap32(a) + b) == Wrap32(a + b)
  {
    var k := (Wrap32(a) - a) / TWO_32;
    assert Wrap32(a) + b == (a + b) + k * TWO_32;
    Wrap32Shift(a + b, k);
  }

  lemma Wrap64Shift(x: int, k: int)
    ensures Wrap64(x + k * TWO_64) == Wrap64(x)
  {
    ModShift(x, k, TWO_64);
  }

  lemma Wrap32Shift(x: int, k: int)
    ensures Wrap32(x + k * TWO_32) == Wrap32(x)
  {
    ModShift(x, k, TWO_32);
  }

  /** Adding a multiple of the modulus leaves the remainder unchanged. */
  lemma ModShift(x: int, k: int, m: int)
    requires m > 0
    ensures (x + k * m) % m == x % m
  {
    DivModUnique(x + k * m, m, x / m + k, x % m);
  }

  /** Euclidean division is determined by any decomposition with an in-range remainder. */
  lemma DivModUnique(u: int, d: int, q: int, r: int)
    requires d > 0 && u == d * q + r && 0 <= r < d
    ensures u / d == q && u % d == r
  {
    var q0, r0 := u / d, u % d;
    assert d * q0 + r0 == d * q + r;
    if q0 > q {
      MulAtLeast(d, q0 - q);
    } else if q0 < q {
      MulAtLeast(d, q - q0);
    }
  }

  lemma MulAtLeast(d: int, t: int)
    requires d > 0 && t >= 1
    ensures d * t >= d
  {
    assert d * t == d * (t - 1) + d;
  }

  /** C# integer division, which truncates toward zero. */
  function CsDiv(a: int, b: int): int
    requires b != 0
  {
    if a >= 0 then (if b > 0 then a / b else -(a / -b))
    else (if b > 0 then -((-a) / b) else (-a) / (-b))
  }

  /** C# remainder, which takes the sign of the dividend. */
  function CsRem(a: int, b: int): int
    requires b != 0
  {
    a - b * CsDiv(a, b)
  }

  /** On a non-negative dividend and positive divisor C# agrees with Dafny. */
  lemma CsDivNonNeg(a: int, b: int)
    requires a >= 0 && b > 0
    ensures CsDiv(a, b) == a / b && CsRem(a, b) == a % b
  {
  }
}
