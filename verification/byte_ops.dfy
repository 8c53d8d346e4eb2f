/**
 * Big-endian packing of ByteOps.cs. "Plonk" appends to a byte list, "Scoop"
 * reads at an offset and returns the offset advanced past what it read.
 * The EntityId and Vector2Fp helpers are commented out in ByteOps.cs but
 * called by every action class; they are modelled from their commented bodies.
 */
module ByteOps {
  import opened IntWidth
  import opened EntityIds
  import opened FixedVec

  /** 256^n. */
  function Pow256(n: nat): (r: nat)
    ensures r >= 1
  {
    if n == 0 then 1 else 256 * Pow256(n - 1)
  }

  /** The unsigned number a byte string denotes, most significant byte first. */
  function BigEndian(s: seq<Byte>): nat
  {
    if |s| == 0 then 0 else BigEndian(s[..|s| - 1]) * 256 + s[|s| - 1] as int
  }

  /** The low `n` bytes of `v`, most significant first; what the shift-and-cast sequence writes. */
  function BytesOf(v: int, n: nat): (r: seq<Byte>)
    ensures |r| == n
    decreases n
  {
    if n == 0 then [] else BytesOf(v / 256, n - 1) + [v % 256]
  }

  /** `(byte)(v >> k)` where `d == 2^k`: arithmetic shift, then keep the low 8 bits. */
  function ShiftByte(v: int, d: int): Byte
    requires d > 0
  {
    (v / d) % 256
  }

  /** `PlonkInt`: four bytes appended, most significant first. */
  function PlonkInt(data: seq<Byte>, v: Int32): (r: seq<Byte>)
    ensures |r| == |data| + 4 && r[..|data|] == data && r[|data|..] == BytesOf(v, 4)
  {
    data + BytesOf(v, 4)
  }

  /** `PlonkLong`: eight bytes appended, most significant first. */
  function PlonkLong(data: seq<Byte>, v: Int64): (r: seq<Byte>)
    ensures |r| == |data| + 8 && r[..|data|] == data && r[|data|..] == BytesOf(v, 8)
  {
    data + BytesOf(v, 8)
  }

  /**
   * `ScoopInt`: the four bytes at `offset` ORed into place, read back as a
   * signed int. ScoopIntIsShiftOr states the OR form.
   */
  function ScoopInt(data: seq<Byte>, offset: int): (r: (Int32, int))
    requires 0 <= offset && offset + 4 <= |data|
    ensures r.1 == offset + 4
  {
    (Wrap32(BigEndian(data[offset..offset + 4])), offset + 4)
  }

  /** `ScoopLong`: the eight bytes at `offset` as a signed long. */
  function ScoopLong(data: seq<Byte>, offset: int): (r: (Int64, int))
    requires 0 <= offset && offset + 8 <= |data|
    ensures r.1 == offset + 8
  {
    (Wrap64(BigEndian(data[offset..offset + 8])), offset + 8)
  }

  /** The eight bytes of an EntityId: index, then generation. */
  function EntityIdBytes(id: EntityId): (r: seq<Byte>)
    ensures |r| == 8
  {
    BytesOf(id.index, 4) + BytesOf(id.generation, 4)
  }

  /** The sixteen bytes of a Vector2Fp: RawX, then RawY. */
  function Vec2Bytes(v: Vec2): (r: seq<Byte>)
    ensures |r| == 16
  {
    BytesOf(v.rawX, 8) + BytesOf(v.rawY, 8)
  }

  /** `PlonkEntityId`: index, then generation. */
  function PlonkEntityId(data: seq<Byte>, id: EntityId): (r: seq<Byte>)
    ensures r == data + EntityIdBytes(id)
  {
    Append3(data, BytesOf(id.index, 4), BytesOf(id.generation, 4));
    PlonkInt(PlonkInt(data, id.index), id.generation)
  }

  /** `PlonkVector2Fp`: RawX, then RawY. */
  function PlonkVector2Fp(data: seq<Byte>, v: Vec2): (r: seq<Byte>)
    ensures r == data + Vec2Bytes(v)
  {
    Append3(data, BytesOf(v.rawX, 8), BytesOf(v.rawY, 8));
    PlonkLong(PlonkLong(data, v.rawX), v.rawY)
  }

  function ScoopEntityId(data: seq<Byte>, offset: int): (r: (EntityId, int))
    requires 0 <= offset && offset + 8 <= |data|
    ensures r.1 == offset + 8
  {
    (EntityId(ScoopInt(data, offset).0, ScoopInt(data, offset + 4).0), offset + 8)
  }

  function ScoopVector2Fp(data: seq<Byte>, offset: int): (r: (Vec2, int))
    requires 0 <= offset && offset + 16 <= |data|
    ensures r.1 == offset + 16
  {
    (Vec2(ScoopLong(data, offset).0, ScoopLong(data, offset + 8).0), offset + 16)
  }

  // ------------------------------------------------------------ agreement with the C# expressions

  /** The bytes PlonkInt appends are `(byte)(v >> 24)`, `(byte)(v >> 16)`, `(byte)(v >> 8)`, `(byte)v`. */
  lemma PlonkIntIsShifts(data: seq<Byte>, v: Int32)
    ensures PlonkInt(data, v)[|data|..] == [ShiftByte(v, 0x100_0000), ShiftByte(v, 0x1_0000), ShiftByte(v, 0x100), ShiftByte(v, 1)]
  {
    var w := PlonkInt(data, v)[|data|..];
    assert w == BytesOf(v, 4);
    BytesOfIndex(v, 4, 0);
    BytesOfIndex(v, 4, 1);
    BytesOfIndex(v, 4, 2);
    BytesOfIndex(v, 4, 3);
  }

  /** The bytes PlonkLong appends are `(byte)(v >> 56)` down to `(byte)v`. */
  lemma PlonkLongIsShifts(data: seq<Byte>, v: Int64, i: nat)
    requires i < 8
    ensures PlonkLong(data, v)[|data| + i] == ShiftByte(v, Pow256(7 - i))
  {
    assert PlonkLong(data, v)[|data| + i] == BytesOf(v, 8)[i];
    BytesOfIndex(v, 8, i);
  }

  /** ScoopInt is the OR (here: sum, the fields are disjoint) of the shifted bytes, wrapped to 32 bits. */
  lemma ScoopIntIsShiftOr(data: seq<Byte>, offset: int)
    requires 0 <= offset && offset + 4 <= |data|
    ensures ScoopInt(data, offset).0
         == Wrap32((data[offset] as int) * 0x100_0000 + (data[offset + 1] as int) * 0x1_0000
                   + (data[offset + 2] as int) * 0x100 + data[offset + 3])
  {
    var s := data[offset..offset + 4];
    var b0, b1, b2, b3 := s[0] as int, s[1] as int, s[2] as int, s[3] as int;
    assert b0 == data[offset] as int && b1 == data[offset + 1] as int;
    assert b2 == data[offset + 2] as int && b3 == data[offset + 3] as int;
    BigEndianSnoc([], s[0]);
    assert [] + [s[0]] == [s[0]];
    BigEndianSnoc([s[0]], s[1]);
    assert [s[0]] + [s[1]] == [s[0], s[1]];
    BigEndianSnoc([s[0], s[1]], s[2]);
    assert [s[0], s[1]] + [s[2]] == [s[0], s[1], s[2]];
    BigEndianSnoc([s[0], s[1], s[2]], s[3]);
    assert [s[0], s[1], s[2]] + [s[3]] == s;
    assert BigEndian(s) == ((b0 * 256 + b1) * 256 + b2) * 256 + b3;
  }

  // ------------------------------------------------------------ round trips

  /** Four bytes written by PlonkInt read back as the same int, whatever surrounds them. */
  lemma IntAt(w: seq<Byte>, o: int, pre: seq<Byte>, v: Int32, post: seq<Byte>)
    requires w == pre + BytesOf(v, 4) + post && o == |pre|
    ensures o + 4 <= |w| && ScoopInt(w, o).0 == v
  {
    assert w[o..o + 4] == BytesOf(v, 4);
    BigEndianBytesOf(v, 4);
    assert Pow256(4) == TWO_32;
    Wrap32Spec(v);
    Wrap32Congruent(v % TWO_32, v);
  }

  /** Eight bytes written by PlonkLong read back as the same long, whatever surrounds them. */
  lemma LongAt(w: seq<Byte>, o: int, pre: seq<Byte>, v: Int64, post: seq<Byte>)
    requires w == pre + BytesOf(v, 8) + post && o == |pre|
    ensures o + 8 <= |w| && ScoopLong(w, o).0 == v
  {
    assert w[o..o + 8] == BytesOf(v, 8);
    BigEndianBytesOf(v, 8);
    assert Pow256(8) == TWO_64;
    Wrap64Spec(v);
    Wrap64Congruent(v % TWO_64, v);
  }

  /** Reading back what PlonkInt wrote yields the value, whatever follows. */
  lemma ScoopIntAfterPlonkInt(data: seq<Byte>, v: Int32, tail: seq<Byte>)
    ensures ScoopInt(PlonkInt(data, v) + tail, |data|).0 == v
  {
    IntAt(PlonkInt(data, v) + tail, |data|, data, v, tail);
  }

  /** Reading back what PlonkLong wrote yields the value, whatever follows. */
  lemma ScoopLongAfterPlonkLong(data: seq<Byte>, v: Int64, tail: seq<Byte>)
    ensures ScoopLong(PlonkLong(data, v) + tail, |data|).0 == v
  {
    LongAt(PlonkLong(data, v) + tail, |data|, data, v, tail);
  }

  /** Scoops read only their own window: equal windows give equal values. */
  lemma ScoopReadsOnlyWindow(a: seq<Byte>, i: int, b: seq<Byte>, j: int)
    requires 0 <= i && i + 8 <= |a| && 0 <= j && j + 8 <= |b|
    ensures a[i..i + 4] == b[j..j + 4] ==> ScoopInt(a, i).0 == ScoopInt(b, j).0
    ensures a[i..i + 8] == b[j..j + 8] ==> ScoopLong(a, i).0 == ScoopLong(b, j).0
  {
  }

  /** An EntityId's eight bytes read back as the same id, whatever surrounds them. */
  lemma EntityIdAt(w: seq<Byte>, o: int, pre: seq<Byte>, id: EntityId, post: seq<Byte>)
    requires w == pre + EntityIdBytes(id) + post && o == |pre|
    ensures o + 8 <= |w| && ScoopEntityId(w, o).0 == id
  {
    var a, b := BytesOf(id.index, 4), BytesOf(id.generation, 4);
    Reassociate(pre, a, b, post);
    IntAt(w, o, pre, id.index, b + post);
    IntAt(w, o + 4, pre + a, id.generation, post);
  }

  /** A Vector2Fp's sixteen bytes read back as the same vector, whatever surrounds them. */
  lemma Vector2FpAt(w: seq<Byte>, o: int, pre: seq<Byte>, v: Vec2, post: seq<Byte>)
    requires w == pre + Vec2Bytes(v) + post && o == |pre|
    ensures o + 16 <= |w| && ScoopVector2Fp(w, o).0 == v
  {
    var a, b := BytesOf(v.rawX, 8), BytesOf(v.rawY, 8);
    Reassociate(pre, a, b, post);
    LongAt(w, o, pre, v.rawX, b + post);
    LongAt(w, o + 8, pre + a, v.rawY, post);
  }

  /** An EntityId takes 8 bytes and reads back unchanged. */
  lemma EntityIdRoundTrip(data: seq<Byte>, id: EntityId, tail: seq<Byte>)
    ensures ScoopEntityId(PlonkEntityId(data, id) + tail, |data|).0 == id
  {
    EntityIdAt(PlonkEntityId(data, id) + tail, |data|, data, id, tail);
  }

  /** A Vector2Fp takes 16 bytes and reads back unchanged. */
  lemma Vector2FpRoundTrip(data: seq<Byte>, v: Vec2, tail: seq<Byte>)
    ensures ScoopVector2Fp(PlonkVector2Fp(data, v) + tail, |data|).0 == v
  {
    Vector2FpAt(PlonkVector2Fp(data, v) + tail, |data|, data, v, tail);
  }

  /** Appending two pieces one after the other is appending their concatenation. */
  lemma Append3(p: seq<Byte>, a: seq<Byte>, b: seq<Byte>)
    ensures p + a + b == p + (a + b)
  {
  }

  /** The two ways of grouping a four-piece buffer around its middle pieces. */
  lemma Reassociate(p: seq<Byte>, a: seq<Byte>, b: seq<Byte>, q: seq<Byte>)
    ensures p + (a + b) + q == p + a + (b + q)
    ensures p + (a + b) + q == (p + a) + b + q
  {
  }

  // ------------------------------------------------------------ digit lemmas

  lemma BigEndianSnoc(s: seq<Byte>, b: Byte)
    ensures BigEndian(s + [b]) == BigEndian(s) * 256 + b
  {
    assert (s + [b])[..|s|] == s;
  }

  /** Writing the low `n` bytes and reading them back gives `v` modulo 256^n. */
  lemma {:induction false} BigEndianBytesOf(v: int, n: nat)
    ensures BigEndian(BytesOf(v, n)) == v % Pow256(n)
    decreases n
  {
    if n > 0 {
      var q, r := v / 256, v % 256;
      BigEndianBytesOf(q, n - 1);
      BigEndianSnoc(BytesOf(q, n - 1), r);
      var m := Pow256(n - 1);
      var hi, lo := q / m, q % m;
      DivModSplit(q, m);
      MulDistrib(256, m * hi, lo);
      MulAssoc(256, m, hi);
      MulMono(256, lo, m - 1);
      DivModUnique(v, 256 * m, hi, 256 * lo + r);
    }
  }

  /** Byte `i` of BytesOf is `v` shifted down by the bytes after it, cut to 8 bits. */
  lemma {:induction false} BytesOfIndex(v: int, n: nat, i: nat)
    requires i < n
    ensures BytesOf(v, n)[i] == ShiftByte(v, Pow256(n - 1 - i))
    decreases n
  {
    if i == n - 1 {
    } else {
      BytesOfIndex(v / 256, n - 1, i);
      DivDiv(v, 256, Pow256(n - 2 - i));
    }
  }

  /** Dividing twice by positive numbers is dividing once by their product. */
  lemma DivDiv(v: int, a: int, b: int)
    requires a > 0 && b > 0
    ensures (v / a) / b == v / (a * b)
  {
    var q := v / a;
    var r := v % a;
    var q2, r2 := q / b, q % b;
    assert v == a * q + r;
    assert q == b * q2 + r2;
    MulDistrib(a, b * q2, r2);
    MulAssoc(a, b, q2);
    MulMono(a, r2, b - 1);
    assert a * (b - 1) + a == a * b by { MulDistrib(a, b - 1, 1); }
    DivModUnique(v, a * b, q2, a * r2 + r);
  }

  lemma DivModSplit(x: int, d: int)
    requires d > 0
    ensures x == d * (x / d) + x % d && 0 <= x % d < d
  {
  }

  lemma MulDistrib(x: int, y: int, z: int)
    ensures x * (y + z) == x * y + x * z
  {
  }

  lemma MulAssoc(x: int, y: int, z: int)
    ensures x * (y * z) == (x * y) * z
  {
  }

  lemma MulMono(x: int, y: int, z: int)
    requires x > 0 && 0 <= y <= z
    ensures 0 <= x * y <= x * z
  {
    MulDistrib(x, y, z - y);
  }
}
