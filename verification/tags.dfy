/** The `bjd_type_t` enumeration (bjd-common.h). */
module Types {

  /**
   * The kinds of object a tag can describe. `bjd_type_huge` (the bin family)
   * is `Bin`; `bjd_type_noop` has no wire form and is not part of the model.
   */
  datatype Type = Missing | Nil | Bool | Int | Uint | Float | Double | Str | Bin | Array | Map | Ext {

    /** The enumerator's position in `bjd_type_t`, which `bjd_tag_cmp` orders by. */
    function Code(): (c: nat)
      ensures c <= 12 && c != 2
    {
      match this
      case Missing => 0
      case Nil => 1
      case Bool => 3
      case Int => 4
      case Uint => 5
      case Float => 6
      case Double => 7
      case Str => 8
      case Bin => 9
      case Array => 10
      case Map => 11
      case Ext => 12
    }

    /** Containers whose elements are further tags. */
    predicate IsCompound() {
      Array? || Map?
    }

    /** Containers whose contents are raw bytes. */
    predicate IsBytes() {
      Str? || Bin? || Ext?
    }
  }

  /** Distinct types have distinct codes, so the order by code is total. */
  lemma CodeInjective(a: Type, b: Type)
    ensures a.Code() == b.Code() <==> a == b
  {
  }
}

/** The `bjd_error_t` enumeration (bjd-common.h). `Ok` is `bjd_ok`. */
module Errors {

  datatype Error = Ok | Io | Invalid | Unsupported | Type | TooBig | Memory | Bug | Data | Eof
}

/**
 * The tag: one object header (`bjd_tag_t`, bjd-common.h), its comparison
 * `bjd_tag_cmp` (bjd-common.c:82-156) and equality `bjd_tag_equal`.
 */
module Tags {
  import opened Bytes
  import Types

  /**
   * A tag is a closed variant: its type with the value of a scalar or the
   * length or count of a container. Float payloads are kept as their raw
   * IEEE 754 bit patterns; nothing here interprets them.
   */
  datatype Tag =
    | Missing
    | Nil
    | Bool(b: bool)
    | Int(i: I64)
    | Uint(u: U64)
    | Float(f: U32)
    | Double(d: U64)
    | Str(len: U32)
    | Bin(len: U32)
    | Array(count: U32)
    | Map(count: U32)
    | Ext(exttype: I8, len: U32)
  {
    function Kind(): (k: Types.Type)
      ensures k.IsCompound() <==> Array? || Map?
      ensures k.IsBytes() <==> Str? || Bin? || Ext?
    {
      match this
      case Missing => Types.Missing
      case Nil => Types.Nil
      case Bool(_) => Types.Bool
      case Int(_) => Types.Int
      case Uint(_) => Types.Uint
      case Float(_) => Types.Float
      case Double(_) => Types.Double
      case Str(_) => Types.Str
      case Bin(_) => Types.Bin
      case Array(_) => Types.Array
      case Map(_) => Types.Map
      case Ext(_, _) => Types.Ext
    }
  }

  // Header sizes (bjd-common.h:987-996), and the sizes of the forms the
  // header does not name, derived from the wire layout: opcode plus fields.
  const TAG_SIZE_FIXUINT: nat := 1
  const TAG_SIZE_FIXINT: nat := 1
  const TAG_SIZE_U8: nat := 2
  const TAG_SIZE_U16: nat := 3
  const TAG_SIZE_U32: nat := 5
  const TAG_SIZE_U64: nat := 9
  const TAG_SIZE_I8: nat := 2
  const TAG_SIZE_I16: nat := 3
  const TAG_SIZE_I32: nat := 5
  const TAG_SIZE_I64: nat := 9
  const TAG_SIZE_FLOAT: nat := 5
  const TAG_SIZE_DOUBLE: nat := 9
  const TAG_SIZE_FIXSTR: nat := 1
  const TAG_SIZE_STR8: nat := 2
  const TAG_SIZE_STR16: nat := 3
  const TAG_SIZE_STR32: nat := 5
  const TAG_SIZE_BIN8: nat := 2
  const TAG_SIZE_BIN16: nat := 3
  const TAG_SIZE_BIN32: nat := 5
  const TAG_SIZE_FIXARRAY: nat := 1
  const TAG_SIZE_ARRAY16: nat := 3
  const TAG_SIZE_ARRAY32: nat := 5
  const TAG_SIZE_FIXMAP: nat := 1
  const TAG_SIZE_MAP16: nat := 3
  const TAG_SIZE_MAP32: nat := 5
  const TAG_SIZE_FIXEXT: nat := 2
  const TAG_SIZE_EXT8: nat := 3
  const TAG_SIZE_EXT16: nat := 4
  const TAG_SIZE_EXT32: nat := 6

  /** `BJDATA_MAXIMUM_TAG_SIZE` (bjd-common.h:108). */
  const MAXIMUM_TAG_SIZE: nat := 9

  /** `BJDATA_EXTTYPE_TIMESTAMP` (bjd-common.h:609). */
  const EXTTYPE_TIMESTAMP: I8 := -1

  /** `BJDATA_TIMESTAMP_NANOSECONDS_MAX` (bjd-common.h:119). */
  const TIMESTAMP_NANOSECONDS_MAX: nat := 999999999

  /** The integer a tag of either integer type holds. */
  function IntValue(t: Tag): int
    requires t.Int? || t.Uint?
  {
    if t.Int? then t.i else t.u
  }

  /**
   * The rewrite `bjd_tag_cmp` applies to both operands first
   * (bjd-common.c:84-92): a non-negative signed integer becomes unsigned.
   */
  function Normalize(t: Tag): (r: Tag)
    ensures t.Int? || t.Uint? ==> (r.Int? || r.Uint?) && IntValue(r) == IntValue(t)
    ensures r.Int? ==> r.i < 0
    ensures !t.Int? ==> r == t
  {
    if t.Int? && t.i >= 0 then Uint(t.i) else t
  }

  /** A three-way comparison of two numbers: -1, 0 or 1. */
  function Compare(a: int, b: int): (r: int)
    ensures r == 0 <==> a == b
    ensures r < 0 <==> a < b
    ensures -1 <= r <= 1
  {
    if a == b then 0 else if a < b then -1 else 1
  }

  /**
   * The bytes of a float's storage as `bjd_memcmp` sees them. The model takes
   * the platform to be little-endian, so the least significant byte comes first.
   */
  function NativeBytes(bits: nat, n: nat): (r: seq<Byte>)
    requires bits < Pow256(n)
    ensures |r| == n
  {
    Reverse(StoreBE(bits, n))
  }

  function Reverse(s: seq<Byte>): (r: seq<Byte>)
    ensures |r| == |s|
    ensures forall k | 0 <= k < |s| :: r[k] == s[|s| - 1 - k]
  {
    if |s| == 0 then [] else Reverse(s[1..]) + [s[0]]
  }

  /** `bjd_memcmp`'s sign: the first differing byte decides, as unsigned. */
  function LexCompare(a: seq<Byte>, b: seq<Byte>): (r: int)
    requires |a| == |b|
    ensures -1 <= r <= 1
  {
    if |a| == 0 then 0
    else if a[0] != b[0] then Compare(a[0], b[0])
    else LexCompare(a[1..], b[1..])
  }

  lemma {:induction false} LexCompareZero(a: seq<Byte>, b: seq<Byte>)
    requires |a| == |b|
    ensures LexCompare(a, b) == 0 <==> a == b
  {
    if |a| > 0 && a[0] == b[0] {
      LexCompareZero(a[1..], b[1..]);
      assert a == [a[0]] + a[1..] && b == [b[0]] + b[1..];
    }
  }

  lemma {:induction false} LexCompareAntisymmetric(a: seq<Byte>, b: seq<Byte>)
    requires |a| == |b|
    ensures LexCompare(a, b) == -LexCompare(b, a)
  {
    if |a| > 0 && a[0] == b[0] {
      LexCompareAntisymmetric(a[1..], b[1..]);
    }
  }

  /** Distinct bit patterns have distinct native byte images. */
  lemma NativeInjective(x: nat, y: nat, n: nat)
    requires x < Pow256(n) && y < Pow256(n)
    ensures NativeBytes(x, n) == NativeBytes(y, n) <==> x == y
  {
    if NativeBytes(x, n) == NativeBytes(y, n) {
      var sx := StoreBE(x, n);
      var sy := StoreBE(y, n);
      forall k | 0 <= k < n
        ensures sx[k] == sy[k]
      {
        assert NativeBytes(x, n)[n - 1 - k] == sx[k];
      }
      assert sx == sy;
    }
  }

  function BoolInt(b: bool): int {
    if b then 1 else 0
  }

  /**
   * `bjd_tag_cmp`: zero when the normalized tags are identical, otherwise a
   * sign. Tags of different types order by their type codes.
   */
  function Cmp(left: Tag, right: Tag): (r: int)
    ensures r == 0 <==> Normalize(left) == Normalize(right)
    ensures Normalize(left).Kind() != Normalize(right).Kind() ==>
              (r < 0 <==> Normalize(left).Kind().Code() < Normalize(right).Kind().Code())
  {
    var l := Normalize(left);
    var rt := Normalize(right);
    Types.CodeInjective(l.Kind(), rt.Kind());
    if l.Kind() != rt.Kind() then
      if l.Kind().Code() < rt.Kind().Code() then -1 else 1
    else
      match l
      case Missing => 0
      case Nil => 0
      case Bool(b) => BoolInt(b) - BoolInt(rt.b)
      case Int(i) => Compare(i, rt.i)
      case Uint(u) => Compare(u, rt.u)
      case Array(n) => Compare(n, rt.count)
      case Map(n) => Compare(n, rt.count)
      case Str(n) => Compare(n, rt.len)
      case Bin(n) => Compare(n, rt.len)
      case Ext(et, n) =>
        if et == rt.exttype then Compare(n, rt.len) else et - rt.exttype
      case Float(f) =>
        Pow256Values();
        NativeInjective(f, rt.f, 4);
        LexCompareZero(NativeBytes(f, 4), NativeBytes(rt.f, 4));
        LexCompare(NativeBytes(f, 4), NativeBytes(rt.f, 4))
      case Double(d) =>
        Pow256Values();
        NativeInjective(d, rt.d, 8);
        LexCompareZero(NativeBytes(d, 8), NativeBytes(rt.d, 8));
        LexCompare(NativeBytes(d, 8), NativeBytes(rt.d, 8))
  }

  /** `bjd_tag_equal` (bjd-common.h:644-646). */
  function Equal(left: Tag, right: Tag): (r: bool)
    ensures r <==> Cmp(left, right) == 0
  {
    Cmp(left, right) == 0
  }

  function Sign(x: int): int {
    if x < 0 then -1 else if x == 0 then 0 else 1
  }

  /** Swapping the operands flips the sign of the comparison. */
  lemma CmpAntisymmetric(a: Tag, b: Tag)
    ensures Sign(Cmp(a, b)) == -Sign(Cmp(b, a))
  {
    var l := Normalize(a);
    var r := Normalize(b);
    if l.Kind() == r.Kind() {
      if l.Float? {
        Pow256Values();
        LexCompareAntisymmetric(NativeBytes(l.f, 4), NativeBytes(r.f, 4));
      } else if l.Double? {
        Pow256Values();
        LexCompareAntisymmetric(NativeBytes(l.d, 8), NativeBytes(r.d, 8));
      }
    } else {
      Types.CodeInjective(l.Kind(), r.Kind());
    }
  }

  /** Every tag equals itself, including floats whose bits form a NaN. */
  lemma CmpReflexive(t: Tag)
    ensures Cmp(t, t) == 0
  {
  }

  /**
   * Integer tags are equal exactly when they hold the same number, whichever
   * of the two integer types each is stored in.
   */
  lemma EqualIntegers(a: Tag, b: Tag)
    requires (a.Int? || a.Uint?) && (b.Int? || b.Uint?)
    ensures Equal(a, b) <==> IntValue(a) == IntValue(b)
  {
    var l := Normalize(a);
    var r := Normalize(b);
    if IntValue(a) == IntValue(b) {
      assert l == r;
    }
  }

  /** A negative signed integer never equals an unsigned one; 5 equals 5. */
  lemma EqualAcrossSignedness(i: I64, u: U64)
    ensures i < 0 ==> !Equal(Int(i), Uint(u))
    ensures i >= 0 ==> (Equal(Int(i), Uint(u)) <==> i == u)
  {
    EqualIntegers(Int(i), Uint(u));
  }

  /**
   * Compound tags compare by their count or length only; ext compares its
   * exttype first and only then its length.
   */
  lemma CmpContainers(a: Tag, b: Tag)
    ensures (a.Array? && b.Array?) || (a.Map? && b.Map?) ==> Cmp(a, b) == Compare(a.count, b.count)
    ensures (a.Str? && b.Str?) || (a.Bin? && b.Bin?) ==> Cmp(a, b) == Compare(a.len, b.len)
    ensures a.Ext? && b.Ext? && a.exttype != b.exttype ==>
              (Cmp(a, b) < 0 <==> a.exttype < b.exttype)
    ensures a.Ext? && b.Ext? && a.exttype == b.exttype ==> Cmp(a, b) == Compare(a.len, b.len)
  {
  }
}
