/**
 * Bytes and fixed-width integers, and the big-endian ("network order")
 * load and store helpers of bjd-common.h.
 *
 * A C `char` buffer is a `seq<Byte>`. The C integer types become subset types of
 * `int`, so a value of type `U32` is always representable in a `uint32_t`. The
 * casts between signed and unsigned types of one width are written out as
 * two's-complement conversions.
 */
module Bytes {

  type Byte = x: int | 0 <= x < 256

  /**
   * A list of C strings as the callee sees them: each is the bytes before
   * its terminator (the `bjd_strlen` of the C string), so none holds a zero.
   */
  predicate CStrings(ss: seq<seq<Byte>>) {
    forall s | s in ss :: 0 !in s
  }

  /** 256^n: the number of values an n-byte field can hold. */
  function Pow256(n: nat): (r: nat)
    ensures r > 0
  {
    if n == 0 then 1 else 256 * Pow256(n - 1)
  }

  const TWO_16: nat := 0x1_0000
  const TWO_32: nat := 0x1_0000_0000
  const TWO_63: nat := 0x8000_0000_0000_0000
  const TWO_64: nat := 0x1_0000_0000_0000_0000

  type U8 = Byte
  type U16 = x: int | 0 <= x < 0x1_0000
  type U32 = x: int | 0 <= x < 0x1_0000_0000
  type U64 = x: int | 0 <= x < 0x1_0000_0000_0000_0000
  type I8 = x: int | -0x80 <= x < 0x80
  type I16 = x: int | -0x8000 <= x < 0x8000
  type I32 = x: int | -0x8000_0000 <= x < 0x8000_0000
  type I64 = x: int | -0x8000_0000_0000_0000 <= x < 0x8000_0000_0000_0000

  lemma Pow256Values()
    ensures Pow256(1) == 0x100 && Pow256(2) == TWO_16 && Pow256(4) == TWO_32
    ensures Pow256(8) == TWO_64
  {
  }

  /**
   * The big-endian value of a byte string, accumulated byte by byte as the
   * shift-and-or chains of `bjd_load_u16/u32/u64` do.
   */
  function LoadBE(s: seq<Byte>): (r: nat)
    ensures r < Pow256(|s|)
  {
    if |s| == 0 then 0
    else
      var hi := LoadBE(s[..|s| - 1]);
      assert hi * 256 + s[|s| - 1] < Pow256(|s|) by {
        assert hi <= Pow256(|s| - 1) - 1;
        assert hi * 256 <= Pow256(|s| - 1) * 256 - 256;
      }
      hi * 256 + s[|s| - 1]
  }

  /**
   * The n bytes that hold v in big-endian order, as the `bjd_store_u*` helpers
   * write them: byte i is `(v >> (8 * (n - 1 - i))) & 0xFF`.
   */
  function StoreBE(v: nat, n: nat): (r: seq<Byte>)
    requires v < Pow256(n)
    ensures |r| == n
    ensures LoadBE(r) == v
  {
    if n == 0 then []
    else
      var prefix := StoreBE(v / 256, n - 1);
      assert (prefix + [v % 256])[..n - 1] == prefix;
      prefix + [v % 256]
  }

  /** Appending one byte shifts the value left by eight bits. */
  lemma LoadSnoc(s: seq<Byte>, b: Byte)
    ensures LoadBE(s + [b]) == LoadBE(s) * 256 + b
  {
    assert (s + [b])[..|s|] == s;
  }

  /** The load of a concatenation: the high part shifted past the low part. */
  lemma {:induction false} LoadConcat(a: seq<Byte>, b: seq<Byte>)
    ensures LoadBE(a + b) == LoadBE(a) * Pow256(|b|) + LoadBE(b)
  {
    if |b| > 0 {
      var init := b[..|b| - 1];
      var last := b[|b| - 1];
      assert a + b == (a + init) + [last];
      assert b == init + [last];
      LoadConcat(a, init);
      LoadSnoc(a + init, last);
      LoadSnoc(init, last);
      assert Pow256(|b|) == Pow256(|init|) * 256;
      Regroup(LoadBE(a), Pow256(|init|), LoadBE(init), last);
    } else {
      assert a + b == a;
    }
  }

  lemma Regroup(x: int, p: int, y: int, z: int)
    ensures (x * p + y) * 256 + z == x * (p * 256) + (y * 256 + z)
  {
  }

  /** The top bit of a field is clear exactly when its first byte is below 0x80. */
  lemma TopBit(s: seq<Byte>)
    requires |s| >= 1
    ensures LoadBE(s) < Half(|s|) <==> s[0] < 0x80
  {
    var rest := s[1..];
    assert s == [s[0]] + rest;
    LoadConcat([s[0]], rest);
    LoadSnoc([], s[0]);
    assert [] + [s[0]] == [s[0]];
    TopBitArith(s[0], Pow256(|rest|), LoadBE(rest));
  }

  lemma TopBitArith(x: int, p: int, y: int)
    requires 0 <= x < 256 && p > 0 && 0 <= y < p
    ensures x * p + y < 128 * p <==> x < 128
  {
    if x < 128 {
      assert (127 - x) * p >= 0;
    } else {
      assert (x - 128) * p >= 0;
    }
  }

  /**
   * The positional reading of a byte string, the sum of b[i] * 256^(n-1-i),
   * taken from the most significant byte down.
   */
  ghost function PositionalValue(s: seq<Byte>): nat {
    if |s| == 0 then 0 else (s[0] as int) * Pow256(|s| - 1) + PositionalValue(s[1..])
  }

  /** The accumulated load is the positional value. */
  lemma {:induction false} LoadIsPositional(s: seq<Byte>)
    ensures LoadBE(s) == PositionalValue(s)
  {
    if |s| > 0 {
      assert s == [s[0]] + s[1..];
      LoadConcat([s[0]], s[1..]);
      LoadSnoc([], s[0]);
      assert [] + [s[0]] == [s[0]];
      LoadIsPositional(s[1..]);
    }
  }

  /** Storing the loaded value gives back the same bytes: a load reads every bit. */
  lemma {:induction false} StoreOfLoad(s: seq<Byte>)
    ensures StoreBE(LoadBE(s), |s|) == s
  {
    if |s| > 0 {
      var init := s[..|s| - 1];
      StoreOfLoad(init);
      assert s == init + [s[|s| - 1]];
      LoadSnoc(init, s[|s| - 1]);
    }
  }

  /** Two byte strings of one length are equal exactly when their loads are. */
  lemma LoadInjective(a: seq<Byte>, b: seq<Byte>)
    requires |a| == |b|
    ensures LoadBE(a) == LoadBE(b) <==> a == b
  {
    if LoadBE(a) == LoadBE(b) {
      StoreOfLoad(a);
      StoreOfLoad(b);
    }
  }

  // Fixed-width unsigned loads (bjd-common.h:841-880) and stores (882-926).

  function LoadU8(p: seq<Byte>): (r: U8)
    requires |p| >= 1
    ensures r == p[0] == LoadBE(p[..1])
  {
    p[0]
  }

  function LoadU16(p: seq<Byte>): (r: U16)
    requires |p| >= 2
    ensures r == (p[0] as int) * 0x100 + p[1]
  {
    assert p[..2] == [] + [p[0]] + [p[1]];
    LoadSnoc([] + [p[0]], p[1]);
    LoadSnoc([], p[0]);
    LoadBE(p[..2])
  }

  function LoadU32(p: seq<Byte>): (r: U32)
    requires |p| >= 4
    ensures r == LoadU16(p) * 0x1_0000 + LoadU16(p[2..])
  {
    assert p[..4] == p[..2] + p[2..][..2];
    LoadConcat(p[..2], p[2..][..2]);
    Pow256Values();
    LoadBE(p[..4])
  }

  function LoadU64(p: seq<Byte>): (r: U64)
    requires |p| >= 8
    ensures r == LoadU32(p) * 0x1_0000_0000 + LoadU32(p[4..])
  {
    assert p[..8] == p[..4] + p[4..][..4];
    LoadConcat(p[..4], p[4..][..4]);
    Pow256Values();
    LoadBE(p[..8])
  }

  function StoreU8(v: U8): (r: seq<Byte>)
    ensures |r| == 1 && LoadU8(r) == v
  {
    [v]
  }

  function StoreU16(v: U16): (r: seq<Byte>)
    ensures |r| == 2 && LoadU16(r) == v
  {
    Pow256Values();
    var r := StoreBE(v, 2);
    assert r[..2] == r;
    r
  }

  function StoreU32(v: U32): (r: seq<Byte>)
    ensures |r| == 4 && LoadU32(r) == v
  {
    Pow256Values();
    var r := StoreBE(v, 4);
    assert r[..4] == r;
    r
  }

  function StoreU64(v: U64): (r: seq<Byte>)
    ensures |r| == 8 && LoadU64(r) == v
  {
    Pow256Values();
    var r := StoreBE(v, 8);
    assert r[..8] == r;
    r
  }

  // Signed loads and stores are casts of the unsigned ones (bjd-common.h:928-936).

  /** Half the range of an n-byte field: the first value whose top bit is set. */
  function Half(n: nat): (r: nat)
    requires n >= 1
    ensures 2 * r == Pow256(n)
  {
    128 * Pow256(n - 1)
  }

  /** The C conversion `(intN_t)u` of an n-byte unsigned value: two's complement. */
  function ToSigned(u: nat, n: nat): (r: int)
    requires n >= 1 && u < Pow256(n)
    ensures -(Half(n) as int) <= r < Half(n)
    ensures r >= 0 ==> r == u
    ensures r < 0 ==> r + Pow256(n) == u
  {
    if u < Half(n) then u else u - Pow256(n)
  }

  /** The C conversion `(uintN_t)i` of an n-byte signed value: reduction modulo 256^n. */
  function ToUnsigned(i: int, n: nat): (r: nat)
    requires n >= 1 && -(Half(n) as int) <= i < Half(n)
    ensures r < Pow256(n)
    ensures i >= 0 ==> r == i
    ensures i < 0 ==> r == i + Pow256(n)
  {
    if i < 0 then i + Pow256(n) else i
  }

  /** The two conversions are inverse bijections between the two ranges. */
  lemma SignedRoundTrip(u: nat, i: int, n: nat)
    requires n >= 1 && u < Pow256(n) && -(Half(n) as int) <= i < Half(n)
    ensures ToUnsigned(ToSigned(u, n), n) == u
    ensures ToSigned(ToUnsigned(i, n), n) == i
  {
  }

  function LoadI8(p: seq<Byte>): (r: I8)
    requires |p| >= 1
    ensures r == (if p[0] < 0x80 then p[0] as int else (p[0] as int) - 0x100)
  {
    ToSigned(LoadU8(p), 1)
  }

  function LoadI16(p: seq<Byte>): (r: I16)
    requires |p| >= 2
    ensures r >= 0 <==> p[0] < 0x80
    ensures ToUnsigned(r, 2) == LoadU16(p)
  {
    ToSigned(LoadU16(p), 2)
  }

  function LoadI32(p: seq<Byte>): (r: I32)
    requires |p| >= 4
    ensures r >= 0 <==> p[0] < 0x80
    ensures ToUnsigned(r, 4) == LoadU32(p)
  {
    assert Pow256(4) == TWO_32 by { Pow256Values(); }
    ToSigned(LoadU32(p), 4)
  }

  function LoadI64(p: seq<Byte>): (r: I64)
    requires |p| >= 8
    ensures r >= 0 <==> p[0] < 0x80
    ensures ToUnsigned(r, 8) == LoadU64(p)
  {
    assert Pow256(8) == TWO_64 by { Pow256Values(); }
    ToSigned(LoadU64(p), 8)
  }

  function StoreI8(v: I8): (r: seq<Byte>)
    ensures |r| == 1 && LoadI8(r) == v
  {
    StoreU8(ToUnsigned(v, 1))
  }

  function StoreI16(v: I16): (r: seq<Byte>)
    ensures |r| == 2 && LoadI16(r) == v
  {
    StoreU16(ToUnsigned(v, 2))
  }

  function StoreI32(v: I32): (r: seq<Byte>)
    ensures |r| == 4 && LoadI32(r) == v
  {
    assert Pow256(4) == TWO_32 by { Pow256Values(); }
    StoreU32(ToUnsigned(v, 4))
  }

  function StoreI64(v: I64): (r: seq<Byte>)
    ensures |r| == 8 && LoadI64(r) == v
  {
    assert Pow256(8) == TWO_64 by { Pow256Values(); }
    StoreU64(ToUnsigned(v, 8))
  }

  // bjd_load_uint (bjd-common.h:808-835): a one-byte width marker followed by
  // a big-endian field.

  /** The eight markers `bjd_load_uint` understands: i U I u l m L M. */
  predicate IsWidthMarker(m: Byte) {
    m in {'i' as int, 'U' as int, 'I' as int, 'u' as int, 'l' as int, 'm' as int, 'L' as int, 'M' as int}
  }

  /** Field width in bytes behind a marker. */
  function MarkerWidth(m: Byte): (w: nat)
    requires IsWidthMarker(m)
    ensures w in {1, 2, 4, 8}
  {
    if m == 'i' as int || m == 'U' as int then 1
    else if m == 'I' as int || m == 'u' as int then 2
    else if m == 'l' as int || m == 'm' as int then 4
    else 8
  }

  /** 'i', 'I', 'l' and 'L' select the signed loads. */
  predicate MarkerSigned(m: Byte) {
    m == 'i' as int || m == 'I' as int || m == 'l' as int || m == 'L' as int
  }

  /** The bytes of the field behind a marker. */
  function Field(p: seq<Byte>): (f: seq<Byte>)
    requires |p| >= 1 && IsWidthMarker(p[0]) && |p| >= 1 + MarkerWidth(p[0])
    ensures |f| == MarkerWidth(p[0]) && f == p[1..1 + |f|]
  {
    p[1..1 + MarkerWidth(p[0])]
  }

  /**
   * `bjd_load_uint`: the field behind the marker, converted to `uint64_t`.
   * A signed field goes through `int8/16/32/64_t` first and so is
   * sign-extended: the low bytes of the result are the field itself and the
   * result is at most INT64_MAX exactly when the field's top bit is clear.
   */
  function LoadUint(p: seq<Byte>): (r: U64)
    requires |p| >= 1 && IsWidthMarker(p[0]) && |p| >= 1 + MarkerWidth(p[0])
    ensures r % Pow256(MarkerWidth(p[0])) == LoadBE(Field(p))
    ensures !MarkerSigned(p[0]) ==> r == LoadBE(Field(p))
    ensures MarkerSigned(p[0]) ==> (r < TWO_63 <==> p[1] < 0x80)
  {
    var w := MarkerWidth(p[0]);
    var field := LoadBE(Field(p));
    Pow256Values();
    TopBit(Field(p));
    var r: U64 := if MarkerSigned(p[0]) then ToUnsigned(ToSigned(field, w), 8) else field;
    assert r % Pow256(w) == field by { LowBytes(field, w, r); }
    r
  }

  lemma LowBytes(field: nat, w: nat, r: nat)
    requires w in {1, 2, 4, 8} && field < Pow256(w)
    requires r == field || r == field - Pow256(w) + TWO_64
    ensures r % Pow256(w) == field
  {
    Pow256Values();
    if w == 1 {
    } else if w == 2 {
    } else if w == 4 {
    } else {
    }
  }

  /**
   * `bjd_load_int` (bjd-common.h:928): the same field reinterpreted as
   * `int64_t`. A u64 field with its top bit set wraps to a negative value.
   */
  function LoadInt(p: seq<Byte>): (r: I64)
    requires |p| >= 1 && IsWidthMarker(p[0]) && |p| >= 1 + MarkerWidth(p[0])
    ensures MarkerSigned(p[0]) ==> r == ToSigned(LoadBE(Field(p)), MarkerWidth(p[0]))
    ensures !MarkerSigned(p[0]) && MarkerWidth(p[0]) < 8 ==> r == LoadBE(Field(p))
    ensures !MarkerSigned(p[0]) && MarkerWidth(p[0]) == 8 ==> r == ToSigned(LoadBE(Field(p)), 8)
  {
    Pow256Values();
    ToSigned(LoadUint(p), 8)
  }
}
