/**
 * The expect layer (bjd-expect.c): reads that demand a particular type and
 * flag Type for anything else, built on the streaming reader. Every result
 * is stated in terms of the header at the front of the unread input, as
 * `bjd_parse_tag` decodes it, so that each expect function can be compared
 * with `bjd_read_tag` and with what the writer produces.
 */
module Expect {
  import opened Bytes
  import opened Wrappers
  import opened Errors
  import opened Tags
  import Types
  import Track
  import Wire
  import Utf8
  import Objects
  import opened Reader

  // ---------------------------------------------------------------------
  // The next header
  // ---------------------------------------------------------------------

  /** The reader may read one more element: no error, and the tracker admits an element here. */
  predicate Admits(r: Reader) {
    r.err == Ok && (!r.tracking || Track.PeekElement(r.track) == Ok)
  }

  /** What `bjd_parse_tag` makes of the unread input. */
  function Head(r: Reader): Wire.ParseOutcome {
    Wire.ParseTag(r.Remaining(), r.extensions)
  }

  /**
   * The tag the next `bjd_read_tag` returns: the header at the front of the
   * input when the reader admits an element and the header is complete.
   * Missing, which no header decodes to, when no header can be read.
   */
  function NextTag(r: Reader): (t: Tag)
    ensures t != Missing <==> Admits(r) && Head(r).Parsed?
  {
    if Admits(r) && Head(r).Parsed? then Head(r).tag else Missing
  }

  /** The size of that header. */
  function NextSize(r: Reader): nat {
    if Head(r).Parsed? then Head(r).size else 0
  }

  /** The tracker once the next element is read: counted against its container, with the frame its tag opens. */
  function Opened(r: Reader): Track.Tracker
    requires Admits(r)
  {
    if r.tracking then Track.PushFor(Track.Element(r.track).value, NextTag(r)) else r.track
  }

  /** The tracker once the next element is read and whatever frame it opened is closed again. */
  function Counted(r: Reader): Track.Tracker
    requires Admits(r)
  {
    if r.tracking then Track.Element(r.track).value else r.track
  }

  /** r' is r moved on by n bytes of the same input. */
  predicate Consumed(r: Reader, r': Reader, n: nat) {
    r.Continues(r') && r'.data == r.data + n
  }

  /** `bjd_read_tag` (bjd-reader.c:923-964), described by the next header. */
  function Read(r: Reader): (res: (Reader, Tag))
    requires r.Valid()
    ensures res.0.Valid()
    ensures res.0.err == Ok <==> NextTag(r) != Missing
    ensures res.0.err == Ok ==> res.1 == NextTag(r) && Consumed(r, res.0, NextSize(r)) && res.0.track == Opened(r)
    ensures res.0.err != Ok ==> res.1 == Nil
  {
    ReadTag(r)
  }

  /** A reader at the bytes `bjd_write_tag` produces for t sees the tag as read back, in exactly those bytes. */
  lemma NextOfWritten(r: Reader, t: Tag, v4: bool, rest: seq<Byte>)
    requires Admits(r) && !t.Missing? && (t.Ext? ==> r.extensions)
    requires r.Remaining() == Wire.Encode(t, v4) + rest
    ensures NextTag(r) == Wire.AsRead(t, v4) && NextSize(r) == |Wire.Encode(t, v4)|
  {
    Wire.RoundTrip(t, v4, r.extensions, rest);
  }

  /** Consuming a prefix of the unread input leaves the rest of it. */
  lemma RemainingAfter(r: Reader, r': Reader, prefix: seq<Byte>, rest: seq<Byte>)
    requires r.Valid() && r.Remaining() == prefix + rest && Consumed(r, r', |prefix|)
    ensures r'.Remaining() == rest
  {
    assert r.Remaining() == r.input[r.data..];
    assert r.input[r.data + |prefix|..] == (prefix + rest)[|prefix|..];
  }

  // ---------------------------------------------------------------------
  // Raw bytes (bjd-expect.c:30-68)
  // ---------------------------------------------------------------------

  /**
   * `bjd_expect_native_u8`, `_u16` and `_u32`: the unsigned big-endian
   * field of 1, 2 or 4 bytes (k = 0, 1, 2) at the front of the input; 0 when
   * the reader is in error or the bytes are not there.
   */
  function NativeField(r: Reader, k: nat): (res: (Reader, nat))
    requires r.Valid() && k < 3
    ensures res.0.Valid() && res.0.track == r.track
    ensures res.0.err == Ok <==> r.err == Ok && r.data + Wire.FieldSize(k) <= |r.input|
    ensures res.0.err == Ok ==> Consumed(r, res.0, Wire.FieldSize(k)) && res.1 == Wire.LoadField(r.Remaining(), k)
    ensures res.0.err != Ok ==> res.1 == 0
    ensures r.err == Ok && res.0.err != Ok ==> res.0.err == (if r.hasFill then Io else Invalid)
  {
    if r.err != Ok then (r, 0)
    else
      var (r1, ok) := Ensure(r, Wire.FieldSize(k));
      if !ok then (r1, 0)
      else (r1.(data := r1.data + Wire.FieldSize(k)), Wire.LoadField(r1.input[r1.data..], k))
  }

  /** `bjd_expect_native_u8`: one raw byte, 0 when it cannot be read. */
  function NativeU8(r: Reader): (res: (Reader, Byte))
    requires r.Valid()
    ensures res.0.Valid() && res.0.track == r.track
    ensures res.0.err == Ok <==> r.err == Ok && r.data < |r.input|
    ensures res.0.err == Ok ==> Consumed(r, res.0, 1) && res.1 == r.input[r.data]
    ensures res.0.err != Ok ==> res.1 == 0
    ensures r.err != Ok ==> res == (r, 0)
  {
    NativeField(r, 0)
  }

  /** `bjd_expect_type_byte`: counts an element, then takes the lead byte of its header. */
  function TypeByte(r: Reader): (res: (Reader, Byte))
    requires r.Valid()
    ensures res.0.Valid()
    ensures res.0.err == Ok <==> Admits(r) && |r.Remaining()| >= 1
    ensures res.0.err == Ok ==> Consumed(r, res.0, 1) && res.1 == r.Remaining()[0] && res.0.track == Counted(r)
    ensures res.0.err != Ok ==> res.1 == 0
    ensures Admits(r) && res.0.err != Ok ==> res.0.err == (if r.hasFill then Io else Invalid)
    ensures r.err != Ok ==> res == (r, 0)
  {
    NativeU8(TrackElement(r))
  }

  // ---------------------------------------------------------------------
  // Which lead bytes open which headers
  // ---------------------------------------------------------------------

  /** 0xc0 is the whole nil header, and no other header decodes to nil. */
  lemma NilHeader(p: seq<Byte>, ext: bool)
    ensures |p| >= 1 ==>
              (Wire.ParseTag(p, ext).Parsed? && Wire.ParseTag(p, ext).tag == Nil <==> p[0] == 0xc0)
    ensures |p| >= 1 && p[0] == 0xc0 ==> Wire.ParseTag(p, ext) == Wire.Parsed(Nil, 1)
  {
  }

  /** 0xc2 and 0xc3 are the whole false and true headers, and no other header decodes to a bool. */
  lemma BoolHeader(p: seq<Byte>, ext: bool)
    ensures |p| >= 1 ==>
              (Wire.ParseTag(p, ext).Parsed? && Wire.ParseTag(p, ext).tag.Bool? <==> p[0] == 0xc2 || p[0] == 0xc3)
    ensures |p| >= 1 && (p[0] == 0xc2 || p[0] == 0xc3) ==>
              Wire.ParseTag(p, ext) == Wire.Parsed(Bool(p[0] == 0xc3), 1)
  {
  }

  /** The lead bytes of the str headers: fixstr, str8, str16 and str32. */
  predicate IsStrLead(b: Byte) {
    0xa0 <= b <= 0xbf || 0xd9 <= b <= 0xdb
  }

  /** Only the str lead bytes open str headers; a fixstr holds its length, str8/16/32 a field after it. */
  lemma StrHeader(p: seq<Byte>, ext: bool)
    requires |p| >= 1
    ensures Wire.ParseTag(p, ext).Parsed? && Wire.ParseTag(p, ext).tag.Str? ==> IsStrLead(p[0])
    ensures 0xa0 <= p[0] <= 0xbf ==> Wire.ParseTag(p, ext) == Wire.Parsed(Str(p[0] % 32), 1)
    ensures 0xd9 <= p[0] <= 0xdb ==>
              var k := p[0] - 0xd9;
              && (Wire.ParseTag(p, ext).Parsed? <==> |p| >= 1 + Wire.FieldSize(k))
              && (|p| >= 1 + Wire.FieldSize(k) ==>
                    Wire.ParseTag(p, ext) == Wire.Parsed(Str(Wire.LoadField(p[1..], k)), 1 + Wire.FieldSize(k)))
  {
  }

  // ---------------------------------------------------------------------
  // Nil and bool (bjd-expect.c:281-301)
  // ---------------------------------------------------------------------

  /** `bjd_expect_nil`: the next element must be nil, else Type. */
  function ExpectNil(r: Reader): (r': Reader)
    requires r.Valid()
    ensures r'.Valid()
    ensures r'.err == Ok <==> NextTag(r) == Nil
    ensures r'.err == Ok ==> Consumed(r, r', NextSize(r)) && r'.track == Counted(r)
    ensures Admits(r) && |r.Remaining()| >= 1 && r'.err != Ok ==> r'.err == Type
  {
    var (r1, b) := TypeByte(r);
    var r' := if b != 0xc0 then FlagError(r1, Type) else r1;
    NilRead(r, r1, b, r');
    r'
  }

  /** The contract of `ExpectNil`, from the lead byte it took. */
  lemma NilRead(r: Reader, r1: Reader, b: Byte, r': Reader)
    requires r.Valid() && (r1, b) == TypeByte(r) && r' == (if b != 0xc0 then FlagError(r1, Type) else r1)
    ensures r'.err == Ok <==> NextTag(r) == Nil
    ensures r'.err == Ok ==> Consumed(r, r', NextSize(r)) && r'.track == Counted(r)
    ensures Admits(r) && |r.Remaining()| >= 1 && r'.err != Ok ==> r'.err == Type
  {
    NilHeader(r.Remaining(), r.extensions);
  }

  /**
   * `bjd_expect_bool`: the next element must be a bool, else Type. The
   * result is the low bit of the lead byte whatever it was, so a rejected
   * byte still yields a value.
   */
  function ExpectBool(r: Reader): (res: (Reader, bool))
    requires r.Valid()
    ensures res.0.Valid()
    ensures res.0.err == Ok <==> NextTag(r).Bool?
    ensures res.0.err == Ok ==> NextTag(r) == Bool(res.1) && Consumed(r, res.0, NextSize(r)) && res.0.track == Counted(r)
    ensures Admits(r) && |r.Remaining()| >= 1 && res.0.err != Ok ==>
              res.0.err == Type && (res.1 <==> r.Remaining()[0] % 2 == 1)
  {
    var (r1, b) := TypeByte(r);
    var res := (if b - b % 2 != 0xc2 then FlagError(r1, Type) else r1, b % 2 == 1);
    BoolRead(r, r1, b, res);
    res
  }

  /** The contract of `ExpectBool`, from the lead byte it took. */
  lemma BoolRead(r: Reader, r1: Reader, b: Byte, res: (Reader, bool))
    requires r.Valid() && (r1, b) == TypeByte(r)
    requires res == (if b - b % 2 != 0xc2 then FlagError(r1, Type) else r1, b % 2 == 1)
    ensures res.0.err == Ok <==> NextTag(r).Bool?
    ensures res.0.err == Ok ==> NextTag(r) == Bool(res.1) && Consumed(r, res.0, NextSize(r)) && res.0.track == Counted(r)
    ensures Admits(r) && |r.Remaining()| >= 1 && res.0.err != Ok ==>
              res.0.err == Type && (res.1 <==> r.Remaining()[0] % 2 == 1)
  {
    BoolHeader(r.Remaining(), r.extensions);
    BoolByte(b);
  }

  /** `(b & ~1) == 0xc2` picks out the two bool bytes, and the low bit tells them apart. */
  lemma BoolByte(b: Byte)
    ensures b - b % 2 == 0xc2 <==> b == 0xc2 || b == 0xc3
    ensures b == 0xc2 || b == 0xc3 ==> (b % 2 == 1 <==> b == 0xc3)
  {
  }

  /** `bjd_expect_true` and `bjd_expect_false`: the next element must be that bool, else Type. */
  function ExpectBoolValue(r: Reader, v: bool): (r': Reader)
    requires r.Valid()
    ensures r'.Valid()
    ensures r'.err == Ok <==> NextTag(r) == Bool(v)
    ensures r'.err == Ok ==> Consumed(r, r', NextSize(r)) && r'.track == Counted(r)
  {
    var (r1, b) := ExpectBool(r);
    if b != v then FlagError(r1, Type) else r1
  }

  /** A written bool reads back as itself. */
  lemma BoolRoundTrip(r: Reader, b: bool, v4: bool, rest: seq<Byte>)
    requires r.Valid() && Admits(r) && r.Remaining() == Wire.Encode(Bool(b), v4) + rest
    ensures var (r', x) := ExpectBool(r); r'.err == Ok && x == b && r'.Remaining() == rest
  {
    NextOfWritten(r, Bool(b), v4, rest);
    var (r', x) := ExpectBool(r);
    RemainingAfter(r, r', Wire.Encode(Bool(b), v4), rest);
  }

  // ---------------------------------------------------------------------
  // Integers (bjd-expect.c:74-174, 224-276)
  // ---------------------------------------------------------------------

  /** The C integer types the expect functions convert to. */
  datatype IntType = Uint8 | Uint16 | Uint32 | Uint64 | Int8 | Int16 | Int32 | Int64 {
    function Min(): (m: int)
      ensures m <= 0
    {
      match this
      case Int8 => -0x80
      case Int16 => -0x8000
      case Int32 => -0x8000_0000
      case Int64 => -0x8000_0000_0000_0000
      case _ => 0
    }

    function Max(): (m: int)
      ensures m >= 0x7f
    {
      match this
      case Uint8 => 0xff
      case Uint16 => 0xffff
      case Uint32 => 0xffff_ffff
      case Uint64 => 0xffff_ffff_ffff_ffff
      case Int8 => 0x7f
      case Int16 => 0x7fff
      case Int32 => 0x7fff_ffff
      case Int64 => 0x7fff_ffff_ffff_ffff
    }
  }

  predicate IsInteger(t: Tag) {
    t.Int? || t.Uint?
  }

  /**
   * `bjd_expect_u8` through `bjd_expect_i64`: the next element must be an
   * integer, stored signed or unsigned, whose value the target type holds;
   * anything else is Type and 0. Each C function tests an unsigned tag
   * against the type's maximum and a signed one against its minimum and
   * maximum, which is the one range test here.
   */
  function ExpectInt(r: Reader, w: IntType): (res: (Reader, int))
    requires r.Valid()
    ensures res.0.Valid()
    ensures w.Min() <= res.1 <= w.Max()
    ensures res.0.err == Ok <==> IsInteger(NextTag(r)) && w.Min() <= IntValue(NextTag(r)) <= w.Max()
    ensures res.0.err == Ok ==>
              res.1 == IntValue(NextTag(r)) && Consumed(r, res.0, NextSize(r)) && res.0.track == Counted(r)
    ensures res.0.err != Ok ==> res.1 == 0
    ensures NextTag(r) != Missing && res.0.err != Ok ==> res.0.err == Type
  {
    var (r1, t) := Read(r);
    if t.Uint? && t.u <= w.Max() then (r1, t.u)
    else if t.Int? && w.Min() <= t.i <= w.Max() then (r1, t.i)
    else (FlagError(r1, Type), 0)
  }

  /**
   * `BJDATA_EXPECT_RANGE_IMPL` once the value is read: a reader in error
   * yields `min`; a value outside [min, max] is Type and yields `min`.
   */
  function Ranged(r: Reader, v: int, min: int, max: int): (res: (Reader, int))
    requires r.Valid() && min <= max
    ensures res.0.Valid() && min <= res.1 <= max
    ensures res.0.err == Ok <==> r.err == Ok && min <= v <= max
    ensures res.0.err == Ok ==> res == (r, v)
    ensures res.0.err != Ok ==> res.1 == min
    ensures r.err == Ok && res.0.err != Ok ==> res.0 == FlagError(r, Type)
  {
    if r.err != Ok then (r, min)
    else if v < min || v > max then (FlagError(r, Type), min)
    else (r, v)
  }

  /**
   * `bjd_expect_u8_range` through `bjd_expect_i64_range`: as `ExpectInt`,
   * narrowed to [min, max]. The result is always within [min, max]: `min`
   * on every failure.
   */
  function ExpectIntRange(r: Reader, w: IntType, min: int, max: int): (res: (Reader, int))
    requires r.Valid() && w.Min() <= min <= max <= w.Max()
    ensures res.0.Valid() && min <= res.1 <= max
    ensures res.0.err == Ok <==> IsInteger(NextTag(r)) && min <= IntValue(NextTag(r)) <= max
    ensures res.0.err == Ok ==>
              res.1 == IntValue(NextTag(r)) && Consumed(r, res.0, NextSize(r)) && res.0.track == Counted(r)
    ensures res.0.err != Ok ==> res.1 == min
    ensures NextTag(r) != Missing && res.0.err != Ok ==> res.0.err == Type
  {
    var (r1, v) := ExpectInt(r, w);
    Ranged(r1, v, min, max)
  }

  /**
   * `bjd_expect_uint_match` (w = Uint64) and `bjd_expect_int_match`
   * (w = Int64): the next element must be an integer equal to `value`.
   */
  function ExpectIntMatch(r: Reader, w: IntType, value: int): (r': Reader)
    requires r.Valid() && w.Min() <= value <= w.Max()
    ensures r'.Valid()
    ensures r'.err == Ok <==> IsInteger(NextTag(r)) && IntValue(NextTag(r)) == value
    ensures r'.err == Ok ==> Consumed(r, r', NextSize(r)) && r'.track == Counted(r)
    ensures NextTag(r) != Missing && r'.err != Ok ==> r'.err == Type
  {
    var (r1, v) := ExpectInt(r, w);
    if v != value then FlagError(r1, Type) else r1
  }

  /** The range variant over the whole of its type is the plain expect function. */
  lemma WholeRange(r: Reader, w: IntType)
    requires r.Valid()
    ensures ExpectIntRange(r, w, w.Min(), w.Max()).0 == ExpectInt(r, w).0
    ensures ExpectInt(r, w).0.err == Ok ==> ExpectIntRange(r, w, w.Min(), w.Max()).1 == ExpectInt(r, w).1
  {
  }

  /** The integer tag with a given value: unsigned unless negative, as `bjd_tag_cmp` normalises it. */
  function IntegerTag(v: int): (t: Tag)
    requires -0x8000_0000_0000_0000 <= v < TWO_64
    ensures IsInteger(t) && IntValue(t) == v
  {
    if v >= 0 then Uint(v) else Int(v)
  }

  /** An integer written in its smallest form reads back as itself through any type that holds it. */
  lemma IntRoundTrip(r: Reader, w: IntType, v: int, rest: seq<Byte>)
    requires r.Valid() && Admits(r) && w.Min() <= v <= w.Max()
    requires r.Remaining() == Wire.EncodeInteger(v) + rest
    ensures var (r', x) := ExpectInt(r, w); r'.err == Ok && x == v && r'.Remaining() == rest
  {
    var t := IntegerTag(v);
    assert Wire.Encode(t, false) == Wire.EncodeInteger(v);
    NextOfWritten(r, t, false, rest);
    var (r', x) := ExpectInt(r, w);
    RemainingAfter(r, r', Wire.EncodeInteger(v), rest);
  }

  /** `bjd_expect_tag` (bjd-expect.c:664-668): the next tag must equal `expected` under `bjd_tag_equal`, else Type. */
  function ExpectTag(r: Reader, expected: Tag): (r': Reader)
    requires r.Valid()
    ensures r'.Valid()
    ensures r'.err == Ok <==> NextTag(r) != Missing && Equal(NextTag(r), expected)
    ensures r'.err == Ok ==> Consumed(r, r', NextSize(r)) && r'.track == Opened(r)
    ensures NextTag(r) != Missing && r'.err != Ok ==> r'.err == Type
  {
    var (r1, t) := Read(r);
    if !Equal(t, expected) then FlagError(r1, Type) else r1
  }

  /**
   * Matching an integer is matching its tag: `bjd_tag_equal` compares
   * integers by value, whichever of the two types stores them.
   */
  lemma IntMatchIsTagMatch(r: Reader, w: IntType, value: int)
    requires r.Valid() && w.Min() <= value <= w.Max()
    ensures ExpectIntMatch(r, w, value).err == Ok <==> ExpectTag(r, IntegerTag(value)).err == Ok
  {
    var t := NextTag(r);
    if IsInteger(t) {
      EqualIntegers(t, IntegerTag(value));
    } else {
      assert Normalize(t) == t;
    }
  }

  // ---------------------------------------------------------------------
  // Maps and arrays (bjd-expect.c:262-263, 328-410)
  // ---------------------------------------------------------------------

  /**
   * `bjd_expect_map` and `bjd_expect_array`: the next element must be a map
   * (an array), whose count is the result; anything else is Type and 0.
   */
  function ExpectCount(r: Reader, kind: Types.Type): (res: (Reader, nat))
    requires r.Valid() && kind.IsCompound()
    ensures res.0.Valid() && res.1 < TWO_32
    ensures res.0.err == Ok <==> NextTag(r).Kind() == kind
    ensures res.0.err == Ok ==> res.1 == NextTag(r).count && Consumed(r, res.0, NextSize(r)) && res.0.track == Opened(r)
    ensures res.0.err != Ok ==> res.1 == 0
    ensures NextTag(r) != Missing && res.0.err != Ok ==> res.0.err == Type
  {
    var (r1, t) := Read(r);
    if t.Kind() == kind then (r1, t.count) else (FlagError(r1, Type), 0)
  }

  /** `bjd_expect_map_match` and `bjd_expect_array_match`: a map (an array) of exactly `count`, else Type. */
  function ExpectCountMatch(r: Reader, kind: Types.Type, count: nat): (r': Reader)
    requires r.Valid() && kind.IsCompound()
    ensures r'.Valid()
    ensures r'.err == Ok <==> NextTag(r).Kind() == kind && NextTag(r).count == count
    ensures r'.err == Ok ==> Consumed(r, r', NextSize(r)) && r'.track == Opened(r)
    ensures NextTag(r) != Missing && r'.err != Ok ==> r'.err == Type
  {
    var (r1, n) := ExpectCount(r, kind);
    if n != count then FlagError(r1, Type) else r1
  }

  /** `bjd_expect_map_range` and `bjd_expect_array_range`: a count within [min, max], else Type and `min`. */
  function ExpectCountRange(r: Reader, kind: Types.Type, min: nat, max: nat): (res: (Reader, nat))
    requires r.Valid() && kind.IsCompound() && min <= max < TWO_32
    ensures res.0.Valid() && min <= res.1 <= max
    ensures res.0.err == Ok <==> NextTag(r).Kind() == kind && min <= NextTag(r).count <= max
    ensures res.0.err == Ok ==> res.1 == NextTag(r).count && Consumed(r, res.0, NextSize(r)) && res.0.track == Opened(r)
    ensures res.0.err != Ok ==> res.1 == min
    ensures NextTag(r) != Missing && res.0.err != Ok ==> res.0.err == Type
  {
    var (r1, n) := ExpectCount(r, kind);
    var (r2, v) := Ranged(r1, n, min, max);
    (r2, v)
  }

  /**
   * `bjd_expect_map_or_nil` and `bjd_expect_array_or_nil`: nil is no
   * container (false, count 0, no error); a map (an array) gives its count
   * and true; anything else is Type, 0 and false. A failed read also gives
   * 0 and false, since `bjd_read_tag` then returns nil.
   */
  function ExpectCountOrNil(r: Reader, kind: Types.Type): (res: (Reader, nat, bool))
    requires r.Valid() && kind.IsCompound()
    ensures res.0.Valid()
    ensures res.2 <==> NextTag(r).Kind() == kind
    ensures res.0.err == Ok <==> NextTag(r) == Nil || NextTag(r).Kind() == kind
    ensures res.2 ==> res.1 == NextTag(r).count && Consumed(r, res.0, NextSize(r)) && res.0.track == Opened(r)
    ensures NextTag(r) == Nil ==> Consumed(r, res.0, NextSize(r)) && res.0.track == Opened(r)
    ensures !res.2 ==> res.1 == 0
    ensures NextTag(r) != Missing && res.0.err != Ok ==> res.0.err == Type
  {
    var (r1, t) := Read(r);
    if t.Nil? then (r1, 0, false)
    else if t.Kind() == kind then (r1, t.count, true)
    else (FlagError(r1, Type), 0, false)
  }

  /**
   * `bjd_expect_map_max_or_nil` and `bjd_expect_array_max_or_nil`: as the
   * `_or_nil` form, and a count above `max` is Type, 0 and false.
   */
  function ExpectCountMaxOrNil(r: Reader, kind: Types.Type, max: nat): (res: (Reader, nat, bool))
    requires r.Valid() && kind.IsCompound()
    ensures res.0.Valid() && res.1 <= max
    ensures res.2 <==> NextTag(r).Kind() == kind && NextTag(r).count <= max
    ensures res.0.err == Ok <==> NextTag(r) == Nil || (NextTag(r).Kind() == kind && NextTag(r).count <= max)
    ensures res.2 ==> res.1 == NextTag(r).count && Consumed(r, res.0, NextSize(r)) && res.0.track == Opened(r)
    ensures !res.2 ==> res.1 == 0
    ensures NextTag(r) != Missing && res.0.err != Ok ==> res.0.err == Type
  {
    var (r1, n, has) := ExpectCountOrNil(r, kind);
    if has && n > max then (FlagError(r1, Type), 0, false)
    else (r1, n, has)
  }

  /** No count exceeds the largest 32-bit one, so that bound changes nothing. */
  lemma MaxOrNilUnbounded(r: Reader, kind: Types.Type)
    requires r.Valid() && kind.IsCompound()
    ensures ExpectCountMaxOrNil(r, kind, TWO_32 - 1) == ExpectCountOrNil(r, kind)
  {
  }

  /** The container header the writer produces reads back as the same count. */
  lemma CountRoundTrip(r: Reader, kind: Types.Type, n: U32, v4: bool, rest: seq<Byte>)
    requires r.Valid() && Admits(r) && kind.IsCompound()
    requires r.Remaining() == (if kind == Types.Array then Wire.ArrayHeader(n) else Wire.MapHeader(n)) + rest
    ensures var (r', x) := ExpectCount(r, kind); r'.err == Ok && x == n && r'.Remaining() == rest
  {
    var t := if kind == Types.Array then Array(n) else Map(n);
    NextOfWritten(r, t, v4, rest);
    var (r', x) := ExpectCount(r, kind);
    RemainingAfter(r, r', Wire.Encode(t, v4), rest);
  }

  // ---------------------------------------------------------------------
  // Timestamps (bjd-expect.c:304-318)
  // ---------------------------------------------------------------------

  /** The next element is a str, bin or ext whose whole payload the input holds. */
  predicate PayloadPresent(r: Reader) {
    var t := NextTag(r);
    (t.Str? || t.Bin? || t.Ext?) && r.data + NextSize(r) + t.len <= |r.input|
  }

  /** That payload: the bytes after the header. */
  function Payload(r: Reader): (p: seq<Byte>)
    requires PayloadPresent(r)
  {
    r.input[r.data + NextSize(r)..r.data + NextSize(r) + NextTag(r).len]
  }

  /**
   * `bjd_expect_timestamp`: the next element must be an ext of the
   * timestamp exttype (-1), else Type; its payload is then read as a
   * timestamp. Every failure yields {0, 0}.
   */
  function ExpectTimestamp(r: Reader): (res: (Reader, Wire.Timestamp))
    requires r.Valid()
    ensures res.0.Valid()
    ensures res.0.err != Ok ==> res.1 == Wire.Timestamp(0, 0)
    ensures res.0.err == Ok ==>
              && PayloadPresent(r) && NextTag(r).Ext? && NextTag(r).exttype == EXTTYPE_TIMESTAMP
              && r.Advanced(res.0, NextSize(r) + NextTag(r).len)
              && Wire.UnpackTimestamp(Payload(r)) == Success(res.1)
    ensures NextTag(r) != Missing && !(NextTag(r).Ext? && NextTag(r).exttype == EXTTYPE_TIMESTAMP) ==>
              res.0.err == Type
    ensures NextTag(r).Ext? && NextTag(r).exttype == EXTTYPE_TIMESTAMP && !(NextTag(r).len in {4, 8, 12}) ==>
              res.0.err == Invalid
  {
    TimestampRejected(r);
    var (r1, t) := Read(r);
    var res := TimestampAfter(r1, t);
    if res.0.err == Ok then TimestampRead(r, r1, t, res); res else res
  }

  /** A timestamp `ExpectTimestamp` accepts is the unpacked payload of a timestamp ext. */
  lemma TimestampRead(r: Reader, r1: Reader, t: Tag, res: (Reader, Wire.Timestamp))
    requires r.Valid() && (r1, t) == Read(r) && res == TimestampAfter(r1, t) && res.0.err == Ok
    ensures PayloadPresent(r) && NextTag(r).Ext? && NextTag(r).exttype == EXTTYPE_TIMESTAMP
    ensures r.Advanced(res.0, NextSize(r) + NextTag(r).len)
    ensures Wire.UnpackTimestamp(Payload(r)) == Success(res.1)
  {
    assert r1.err == Ok;
    assert t == NextTag(r) && Consumed(r, r1, NextSize(r));
    assert res == ReadTimestamp(r1, t.len);
    assert r1.data + t.len <= |r1.input|;
    PayloadAt(r, r1);
  }

  /** Once a str, bin or ext header is consumed, its payload is what follows in the input. */
  lemma PayloadAt(r: Reader, r1: Reader)
    requires (NextTag(r).Str? || NextTag(r).Bin? || NextTag(r).Ext?) && Consumed(r, r1, NextSize(r))
    requires r1.data + NextTag(r).len <= |r1.input|
    ensures PayloadPresent(r) && Payload(r) == r1.input[r1.data..r1.data + NextTag(r).len]
  {
  }

  /** What `ExpectTimestamp` rejects, and why. */
  lemma TimestampRejected(r: Reader)
    requires r.Valid()
    ensures var (r1, t) := Read(r); var res := TimestampAfter(r1, t);
      && (NextTag(r) != Missing && !(NextTag(r).Ext? && NextTag(r).exttype == EXTTYPE_TIMESTAMP) ==>
            res.0.err == Type)
      && (NextTag(r).Ext? && NextTag(r).exttype == EXTTYPE_TIMESTAMP && !(NextTag(r).len in {4, 8, 12}) ==>
            res.0.err == Invalid)
  {
    var (r1, t) := Read(r);
    if NextTag(r) != Missing {
      assert r1.err == Ok && t == NextTag(r);
    }
  }

  /** `bjd_expect_timestamp` once the tag t is read. */
  function TimestampAfter(r: Reader, t: Tag): (res: (Reader, Wire.Timestamp))
    requires r.Valid() && (r.err != Ok ==> t == Nil)
    ensures res.0.Valid()
    ensures res.0.err != Ok ==> res.1 == Wire.Timestamp(0, 0)
    ensures res.0.err == Ok ==> r.err == Ok && t.Ext? && t.exttype == EXTTYPE_TIMESTAMP && res == ReadTimestamp(r, t.len)
    ensures r.err == Ok && !(t.Ext? && t.exttype == EXTTYPE_TIMESTAMP) ==> res.0.err == Type
    ensures r.err == Ok && t.Ext? && t.exttype == EXTTYPE_TIMESTAMP && !(t.len in {4, 8, 12}) ==> res.0.err == Invalid
  {
    if !(t.Ext? && t.exttype == EXTTYPE_TIMESTAMP) then (FlagError(r, Type), Wire.Timestamp(0, 0))
    else ReadTimestamp(r, t.len)
  }

  // ---------------------------------------------------------------------
  // Strings, bins and exts (bjd-expect.c:450-589)
  // ---------------------------------------------------------------------

  /** The end of `bjd_expect_str`: opens a str frame of n bytes, which the C code does even when reading n failed. */
  function StrOpened(r: Reader, n: U32): (res: (Reader, nat))
    requires r.Valid()
    ensures res.0.Valid() && res.1 == n
    ensures res.0 == r.(track := if r.tracking then Track.Push(r.track, Types.Str, n) else r.track)
  {
    (r.(track := if r.tracking then Track.Push(r.track, Types.Str, n) else r.track), n)
  }

  /** str8, str16, str32: the length field of width `FieldSize(k)` after the lead byte. */
  function StrField(r: Reader, k: nat): (res: (Reader, nat))
    requires r.Valid() && k < 3
    ensures res.0.Valid()
    ensures res.0.err == Ok <==> r.err == Ok && r.data + Wire.FieldSize(k) <= |r.input|
    ensures res.0.err == Ok ==>
              && res.1 == Wire.LoadField(r.Remaining(), k) && r.Continues(res.0) && res.0.data == r.data + Wire.FieldSize(k)
              && res.0.track == (if r.tracking then Track.Push(r.track, Types.Str, res.1) else r.track)
    ensures res.0.err != Ok ==> res.1 == 0
  {
    var (r1, n) := NativeField(r, k);
    StrOpened(r1, n)
  }

  /**
   * `bjd_expect_str` as built without BJDATA_OPTIMIZE_FOR_SIZE: it reads the
   * lead byte itself and accepts only fixstr, str8, str16 and str32, then
   * opens a str frame of the length. Any other lead byte is Type, including
   * those `bjd_read_tag` would reject as Invalid or Unsupported.
   */
  function ExpectStr(r: Reader): (res: (Reader, nat))
    requires r.Valid()
    ensures res.0.Valid() && res.1 < TWO_32
    ensures res.0.err == Ok <==> NextTag(r).Str?
    ensures res.0.err == Ok ==> res.1 == NextTag(r).len && Consumed(r, res.0, NextSize(r)) && res.0.track == Opened(r)
    ensures res.0.err != Ok ==> res.1 == 0
    ensures Admits(r) && |r.Remaining()| >= 1 && !IsStrLead(r.Remaining()[0]) ==> res.0.err == Type
    ensures r.err != Ok ==> res == (r, 0)
  {
    var (r1, b) := TypeByte(r);
    var res := StrAfterLead(r1, b);
    StrRead(r, r1, b, res);
    if res.0.err == Ok then StrReadOk(r, r1, b, res); res else res
  }

  /** When `ExpectStr` succeeds, and when it flags Type, from the lead byte it took and what followed. */
  lemma StrRead(r: Reader, r1: Reader, b: Byte, res: (Reader, nat))
    requires r.Valid() && (r1, b) == TypeByte(r) && res == StrAfterLead(r1, b)
    ensures res.0.err == Ok <==> NextTag(r).Str?
    ensures Admits(r) && |r.Remaining()| >= 1 && !IsStrLead(r.Remaining()[0]) ==> res.0.err == Type
  {
    StrLeadRead(r, r1, b);
  }

  /** What a successful `ExpectStr` returns and leaves. */
  lemma StrReadOk(r: Reader, r1: Reader, b: Byte, res: (Reader, nat))
    requires r.Valid() && (r1, b) == TypeByte(r) && res == StrAfterLead(r1, b) && res.0.err == Ok
    ensures NextTag(r).Str? && Admits(r)
    ensures res.1 == NextTag(r).len && Consumed(r, res.0, NextSize(r)) && res.0.track == Opened(r)
  {
    StrLeadRead(r, r1, b);
    assert r1.err == Ok && NextTag(r).Str? && r.Continues(r1);
    assert Counted(r) == r1.track;
  }

  /** `bjd_expect_str` once the lead byte b is taken: a fixstr holds the length, str8/16/32 are followed by it. */
  function StrAfterLead(r: Reader, b: Byte): (res: (Reader, nat))
    requires r.Valid() && (r.err != Ok ==> b == 0)
    ensures res.0.Valid() && res.1 < TWO_32
    ensures res.0.err == Ok <==>
              r.err == Ok && (0xa0 <= b <= 0xbf || (0xd9 <= b <= 0xdb && r.data + Wire.FieldSize(b - 0xd9) <= |r.input|))
    ensures res.0.err == Ok && b <= 0xbf ==> res == StrOpened(r, b - 0xa0)
    ensures res.0.err == Ok && b > 0xbf ==>
              && res.1 == Wire.LoadField(r.Remaining(), b - 0xd9)
              && r.Continues(res.0) && res.0.data == r.data + Wire.FieldSize(b - 0xd9)
              && res.0.track == (if r.tracking then Track.Push(r.track, Types.Str, res.1) else r.track)
    ensures res.0.err != Ok ==> res.1 == 0
    ensures r.err == Ok && !IsStrLead(b) ==> res.0.err == Type
  {
    FixstrByte(b);
    if b / 32 == 5 then StrOpened(r, b % 32)
    else if 0xd9 <= b <= 0xdb then StrField(r, b - 0xd9)
    else (FlagError(r, Type), 0)
  }

  /** `(b >> 5) == 5` picks out the fixstr bytes, and `b & 0x1f` is then the length they carry. */
  lemma FixstrByte(b: Byte)
    ensures b / 32 == 5 <==> 0xa0 <= b <= 0xbf
    ensures b / 32 == 5 ==> b % 32 == b - 0xa0
  {
  }

  /** What the lead byte `bjd_expect_str` took says about the next header. */
  lemma StrLeadRead(r: Reader, r1: Reader, b: Byte)
    requires r.Valid() && (r1, b) == TypeByte(r)
    ensures r1.err == Ok ==> r1.Remaining() == r.Remaining()[1..]
    ensures NextTag(r).Str? ==> r1.err == Ok && IsStrLead(b)
    ensures r1.err == Ok && 0xa0 <= b <= 0xbf ==> NextTag(r) == Str(b - 0xa0) && NextSize(r) == 1
    ensures r1.err == Ok && 0xd9 <= b <= 0xdb ==>
              && (NextTag(r).Str? <==> r1.data + Wire.FieldSize(b - 0xd9) <= |r1.input|)
              && (NextTag(r).Str? ==>
                    NextTag(r) == Str(Wire.LoadField(r1.Remaining(), b - 0xd9)) && NextSize(r) == 1 + Wire.FieldSize(b - 0xd9))
  {
    var p := r.Remaining();
    if r1.err == Ok {
      assert Admits(r) && |p| >= 1 && b == p[0];
      assert r1.Remaining() == p[1..] by {
        assert r1.Remaining() == r.input[r.data + 1..];
      }
      StrHeader(p, r.extensions);
      assert NextTag(r) == (if Head(r).Parsed? then Head(r).tag else Missing);
    } else {
      assert !(Admits(r) && |p| >= 1);
    }
  }

  /** After a str, bin or ext header, the tracker the read leaves is the one to restore once its frame is closed. */
  function Before(r: Reader): Track.Tracker {
    if Admits(r) then Counted(r) else r.track
  }

  /**
   * The common tail of `bjd_expect_str_buf`, `bjd_expect_bin_buf` and
   * `bjd_expect_ext_buf`, once a header of length n is read and its frame
   * opened over the tracker s: a length above `bufsize` is TooBig;
   * otherwise the n bytes are read and the frame is closed. Every failure
   * yields no bytes (the C functions return 0).
   */
  function IntoBuffer(r: Reader, kind: Types.Type, n: U32, bufsize: nat, s: Track.Tracker): (res: (Reader, seq<Byte>))
    requires r.Valid() && kind.IsBytes()
    requires r.err == Ok ==> r.track == (if r.tracking then Track.Push(s, kind, n) else s)
    ensures res.0.Valid()
    ensures res.0.err == Ok <==> r.err == Ok && n <= bufsize && r.data + n <= |r.input|
    ensures res.0.err == Ok ==> r.Advanced(res.0, n) && res.1 == r.input[r.data..r.data + n] && res.0.track == s
    ensures res.0.err != Ok ==> res.1 == []
    ensures r.err == Ok && n > bufsize ==> res.0.err == TooBig
  {
    if r.err != Ok then (r, [])
    else if n > bufsize then (FlagError(r, TooBig), [])
    else
      var (r1, bytes) := ReadBytes(r, n);
      if r1.err != Ok then (r1, [])
      else
        var r2 := DoneType(r1, kind);
        ReadThenClose(r, kind, n, s, r1, r2);
        (r2, bytes)
  }

  /** Reading all n bytes of a frame just opened over s and closing it leaves s. */
  lemma ReadThenClose(r: Reader, kind: Types.Type, n: U32, s: Track.Tracker, r1: Reader, r2: Reader)
    requires r.Valid() && kind.IsBytes() && r.err == Ok
    requires r.track == (if r.tracking then Track.Push(s, kind, n) else s)
    requires r1.Valid() && r1.err == Ok && r.Continues(r1)
    requires r1.track == (if r.tracking then Track.TrackBytes(r.track, n).value else r.track)
    requires r2 == DoneType(r1, kind)
    ensures r2.err == Ok && r2.track == s && r1.Continues(r2) && r2.data == r1.data
  {
    Track.BytesThenPop(s, kind, n, n);
  }

  /**
   * `IntoBuffer` after a header the reader read: it succeeds exactly when
   * the payload fits in the buffer and the input holds it, and then yields
   * the payload and the tracker as it was before the header was read.
   */
  lemma BufferRead(r: Reader, r1: Reader, bufsize: nat, res: (Reader, seq<Byte>))
    requires r.Valid() && (NextTag(r).Str? || NextTag(r).Bin? || NextTag(r).Ext?)
    requires r1.Valid() && r1.err == Ok && Consumed(r, r1, NextSize(r)) && r1.track == Opened(r)
    requires res == IntoBuffer(r1, NextTag(r).Kind(), NextTag(r).len, bufsize, Before(r))
    ensures res.0.err == Ok <==> NextTag(r).len <= bufsize && PayloadPresent(r)
    ensures res.0.err == Ok ==>
              res.1 == Payload(r) && r.Advanced(res.0, NextSize(r) + NextTag(r).len) && res.0.track == Counted(r)
  {
    if res.0.err == Ok {
      PayloadAt(r, r1);
    }
  }

  /**
   * `bjd_expect_str_buf` (bjd-expect.c:481-499): a str whose bytes fit in a
   * buffer of `bufsize`, read whole; longer is TooBig. The result is the
   * string, whose length the C function returns; nothing on failure.
   */
  function ExpectStrBuf(r: Reader, bufsize: nat): (res: (Reader, seq<Byte>))
    requires r.Valid()
    ensures res.0.Valid()
    ensures res.0.err == Ok <==> NextTag(r).Str? && NextTag(r).len <= bufsize && PayloadPresent(r)
    ensures res.0.err == Ok ==>
              res.1 == Payload(r) && r.Advanced(res.0, NextSize(r) + NextTag(r).len) && res.0.track == Counted(r)
    ensures res.0.err != Ok ==> res.1 == []
    ensures NextTag(r).Str? && NextTag(r).len > bufsize ==> res.0.err == TooBig
    ensures Admits(r) && |r.Remaining()| >= 1 && !IsStrLead(r.Remaining()[0]) ==> res.0.err == Type
  {
    var (r1, n) := ExpectStr(r);
    var res := IntoBuffer(r1, Types.Str, n, bufsize, Before(r));
    if r1.err == Ok then BufferRead(r, r1, bufsize, res); res else res
  }

  /**
   * `bjd_expect_utf8` (bjd-expect.c:501-512): as `ExpectStrBuf`, and a
   * string that is not valid UTF-8 is Type. A failed read has length 0,
   * which passes the check, so its error stands.
   */
  function ExpectUtf8(r: Reader, bufsize: nat): (res: (Reader, seq<Byte>))
    requires r.Valid()
    ensures res.0.Valid()
    ensures res.0.err == Ok <==>
              NextTag(r).Str? && NextTag(r).len <= bufsize && PayloadPresent(r) && Utf8.WellFormed(Payload(r))
    ensures res.0.err == Ok ==>
              res.1 == Payload(r) && r.Advanced(res.0, NextSize(r) + NextTag(r).len) && res.0.track == Counted(r)
    ensures res.0.err != Ok ==> res.1 == []
    ensures NextTag(r).Str? && NextTag(r).len > bufsize ==> res.0.err == TooBig
    ensures NextTag(r).Str? && NextTag(r).len <= bufsize && PayloadPresent(r) && !Utf8.WellFormed(Payload(r)) ==>
              res.0.err == Type
  {
    var (r1, bytes) := ExpectStrBuf(r, bufsize);
    if !Utf8.Check(bytes) then (FlagError(r1, Type), []) else (r1, bytes)
  }

  /** `bjd_expect_bin` (bjd-expect.c:514-520): the next element must be a bin, whose length is the result; else Type and 0. */
  function ExpectBin(r: Reader): (res: (Reader, nat))
    requires r.Valid()
    ensures res.0.Valid() && res.1 < TWO_32
    ensures res.0.err == Ok <==> NextTag(r).Bin?
    ensures res.0.err == Ok ==> res.1 == NextTag(r).len && Consumed(r, res.0, NextSize(r)) && res.0.track == Opened(r)
    ensures res.0.err != Ok ==> res.1 == 0
    ensures NextTag(r) != Missing && res.0.err != Ok ==> res.0.err == Type
  {
    var (r1, t) := Read(r);
    if t.Bin? then (r1, t.len) else (FlagError(r1, Type), 0)
  }

  /** `bjd_expect_bin_buf` (bjd-expect.c:522-537): a bin whose bytes fit in a buffer of `bufsize`, read whole; longer is TooBig. */
  function ExpectBinBuf(r: Reader, bufsize: nat): (res: (Reader, seq<Byte>))
    requires r.Valid()
    ensures res.0.Valid()
    ensures res.0.err == Ok <==> NextTag(r).Bin? && NextTag(r).len <= bufsize && PayloadPresent(r)
    ensures res.0.err == Ok ==>
              res.1 == Payload(r) && r.Advanced(res.0, NextSize(r) + NextTag(r).len) && res.0.track == Counted(r)
    ensures res.0.err != Ok ==> res.1 == []
    ensures NextTag(r).Bin? && NextTag(r).len > bufsize ==> res.0.err == TooBig
    ensures NextTag(r) != Missing && !NextTag(r).Bin? ==> res.0.err == Type
  {
    var (r1, n) := ExpectBin(r);
    var res := IntoBuffer(r1, Types.Bin, n, bufsize, Before(r));
    if r1.err == Ok then BufferRead(r, r1, bufsize, res); res else res
  }

  /**
   * `bjd_expect_ext` (bjd-expect.c:547-556): the next element must be an
   * ext; the results are its exttype and length. Anything else is Type,
   * exttype 0 and length 0.
   */
  function ExpectExt(r: Reader): (res: (Reader, int, nat))
    requires r.Valid()
    ensures res.0.Valid() && res.2 < TWO_32
    ensures res.0.err == Ok <==> NextTag(r).Ext?
    ensures res.0.err == Ok ==>
              && res.1 == NextTag(r).exttype && res.2 == NextTag(r).len
              && Consumed(r, res.0, NextSize(r)) && res.0.track == Opened(r)
    ensures res.0.err != Ok ==> res.1 == 0 && res.2 == 0
    ensures NextTag(r) != Missing && res.0.err != Ok ==> res.0.err == Type
  {
    var (r1, t) := Read(r);
    if t.Ext? then (r1, t.exttype, t.len) else (FlagError(r1, Type), 0, 0)
  }

  /**
   * `bjd_expect_ext_buf` (bjd-expect.c:558-576): an ext whose bytes fit in
   * a buffer of `bufsize`, read whole; longer is TooBig. The results are the
   * exttype and the payload; every failure sets the exttype to 0.
   */
  function ExpectExtBuf(r: Reader, bufsize: nat): (res: (Reader, int, seq<Byte>))
    requires r.Valid()
    ensures res.0.Valid()
    ensures res.0.err == Ok <==> NextTag(r).Ext? && NextTag(r).len <= bufsize && PayloadPresent(r)
    ensures res.0.err == Ok ==>
              && res.1 == NextTag(r).exttype && res.2 == Payload(r)
              && r.Advanced(res.0, NextSize(r) + NextTag(r).len) && res.0.track == Counted(r)
    ensures res.0.err != Ok ==> res.1 == 0 && res.2 == []
    ensures NextTag(r).Ext? && NextTag(r).len > bufsize ==> res.0.err == TooBig
    ensures NextTag(r) != Missing && !NextTag(r).Ext? ==> res.0.err == Type
  {
    var (r1, exttype, n) := ExpectExt(r);
    var res := IntoBuffer(r1, Types.Ext, n, bufsize, Before(r));
    if r1.err == Ok then BufferRead(r, r1, bufsize, res); (res.0, if res.0.err == Ok then exttype else 0, res.1)
    else (res.0, 0, res.1)
  }

  /**
   * `bjd_expect_cstr` (bjd-expect.c:579-583): a str read into a buffer of
   * `bufsize` bytes as a C string. It must leave room for the terminator,
   * else TooBig, and hold no zero byte, else Type. The result is the string
   * left in the buffer, empty on failure.
   */
  function ExpectCstr(r: Reader, bufsize: nat): (res: (Reader, seq<Byte>))
    requires r.Valid() && bufsize >= 1
    ensures res.0.Valid()
    ensures res.0.err == Ok <==>
              NextTag(r).Str? && NextTag(r).len < bufsize && PayloadPresent(r) && Utf8.NoNullFrom(Payload(r), 0)
    ensures res.0.err == Ok ==>
              res.1 == Payload(r) && r.Advanced(res.0, NextSize(r) + NextTag(r).len) && res.0.track == Counted(r)
    ensures res.0.err != Ok ==> res.1 == []
    ensures NextTag(r).Str? && NextTag(r).len >= bufsize ==> res.0.err == TooBig
  {
    var (r1, n) := ExpectStr(r);
    var (r2, bytes) := ReadCstr(r1, bufsize, n);
    var r3 := DoneType(r2, Types.Str);
    if r1.err == Ok then CstrRead(r, r1, n, r2, bytes, r3); (r3, bytes) else (r3, bytes)
  }

  /**
   * `bjd_expect_utf8_cstr` (bjd-expect.c:585-589): as `ExpectCstr`, and the
   * string must also be valid UTF-8, else Type.
   */
  function ExpectUtf8Cstr(r: Reader, bufsize: nat): (res: (Reader, seq<Byte>))
    requires r.Valid() && bufsize >= 1
    ensures res.0.Valid()
    ensures res.0.err == Ok <==>
              && NextTag(r).Str? && NextTag(r).len < bufsize && PayloadPresent(r)
              && Utf8.WellFormed(Payload(r)) && Utf8.NoNullFrom(Payload(r), 0)
    ensures res.0.err == Ok ==>
              res.1 == Payload(r) && r.Advanced(res.0, NextSize(r) + NextTag(r).len) && res.0.track == Counted(r)
    ensures res.0.err != Ok ==> res.1 == []
    ensures NextTag(r).Str? && NextTag(r).len >= bufsize ==> res.0.err == TooBig
  {
    var (r1, n) := ExpectStr(r);
    var (r2, bytes) := ReadUtf8Cstr(r1, bufsize, n);
    var r3 := DoneType(r2, Types.Str);
    if r1.err == Ok then CstrRead(r, r1, n, r2, bytes, r3); (r3, bytes) else (r3, bytes)
  }

  /**
   * After `bjd_expect_str` the string is read whole from the bytes that
   * follow the header, and closing its frame then succeeds exactly when the
   * read did.
   */
  lemma CstrRead(r: Reader, r1: Reader, n: nat, r2: Reader, bytes: seq<Byte>, r3: Reader)
    requires r.Valid() && (r1, n) == ExpectStr(r) && r1.err == Ok
    requires r2.Valid() && r3 == DoneType(r2, Types.Str)
    requires r2.err == Ok ==>
               && r1.Continues(r2) && r1.Advanced(r2, n) && bytes == r1.input[r1.data..r1.data + n]
               && r2.track == (if r1.tracking then Track.StrBytesAll(r1.track, n).value else r1.track)
    ensures NextTag(r).Str? && n == NextTag(r).len
    ensures !r1.tracking || Track.StrBytesAll(r1.track, n).Success?
    ensures PayloadPresent(r) <==> r1.data + n <= |r1.input|
    ensures PayloadPresent(r) ==> Payload(r) == r1.input[r1.data..r1.data + n]
    ensures r3.err == Ok <==> r2.err == Ok
    ensures r2.err == Ok ==> r.Advanced(r3, NextSize(r) + n) && r3.track == Counted(r)
  {
    var s := Counted(r);
    Track.StrAllThenPop(s, n);
    if r1.data + n <= |r1.input| {
      PayloadAt(r, r1);
    }
  }

  // ---------------------------------------------------------------------
  // Matching strings (bjd-expect.c:642-662, 715-821)
  // ---------------------------------------------------------------------

  /**
   * `bjd_expect_str_match`: the next element must be a str holding exactly
   * `str`, else Type. A string too long for a 32-bit length is Type at
   * once. The length is checked first (as `bjd_expect_str_length` does:
   * the str is read, then a different length is Type), then the bytes are
   * compared one at a time, stopping at the first difference.
   */
  method ExpectStrMatch(r: Reader, str: seq<Byte>) returns (r': Reader)
    requires r.Valid()
    ensures r'.Valid()
    ensures r'.err == Ok <==> NextTag(r).Str? && PayloadPresent(r) && Payload(r) == str
    ensures r'.err == Ok ==> r.Advanced(r', NextSize(r) + |str|) && r'.track == Counted(r)
    ensures NextTag(r).Str? && NextTag(r).len != |str| ==> r'.err == Type
  {
    var r1 := StrMatchHeader(r, str);
    if r1.err != Ok {
      return r1;
    }
    var rs := TrackBytes(r1, |str|);
    Track.BytesThenPop(Counted(r), Types.Str, |str|, |str|);
    var rm := MatchBytes(rs, str);
    r' := DoneType(rm, Types.Str);
    StrMatchEnd(r, r1, str, rs, rm, r');
  }

  /**
   * The header half of `bjd_expect_str_match`: a length too large for 32
   * bits is Type at once; then a str of exactly |str| bytes must follow,
   * else Type (`bjd_expect_str_length`).
   */
  function StrMatchHeader(r: Reader, str: seq<Byte>): (r': Reader)
    requires r.Valid()
    ensures r'.Valid()
    ensures r'.err == Ok <==> NextTag(r).Str? && NextTag(r).len == |str|
    ensures r'.err == Ok ==> Consumed(r, r', NextSize(r)) && r'.track == Opened(r)
    ensures NextTag(r).Str? && NextTag(r).len != |str| ==> r'.err == Type
    ensures NextTag(r).Str? && PayloadPresent(r) && Payload(r) == str ==> r'.err == Ok
  {
    var r0 := if |str| >= TWO_32 then FlagError(r, Type) else r;
    var (r1, n) := ExpectStr(r0);
    if r1.err == Ok && n != |str| then FlagError(r1, Type) else r1
  }

  /**
   * The loop of `bjd_expect_str_match`: the next |str| bytes, untracked,
   * must be `str`; the first byte that differs is Type, and a failed read
   * keeps its own error.
   */
  method MatchBytes(r: Reader, str: seq<Byte>) returns (r': Reader)
    requires r.Valid() && r.err == Ok
    ensures r'.Valid()
    ensures r'.err == Ok <==> r.data + |str| <= |r.input| && r.input[r.data..r.data + |str|] == str
    ensures r'.err == Ok ==> r.Continues(r') && r'.data == r.data + |str| && r'.track == r.track
  {
    r' := r;
    var i := 0;
    while i < |str|
      invariant 0 <= i <= |str| && r'.Valid()
      invariant r'.err == Ok ==> r.Continues(r') && r'.track == r.track
      invariant r'.err == Ok ==> r'.data == r.data + i <= |r.input| && r.input[r.data..r'.data] == str[..i]
      invariant r'.err != Ok ==> !(r.data + |str| <= |r.input| && r.input[r.data..r.data + |str|] == str)
    {
      var (r2, b) := NativeU8(r');
      if b != str[i] {
        MatchFails(r, r', r2, b, str, i);
        return FlagError(r2, Type);
      }
      if r2.err == Ok {
        MatchStep(r, r', r2, str, i);
      }
      r' := r2;
      i := i + 1;
    }
    assert str[..i] == str;
  }

  /** A byte that differs, or cannot be read, means the input does not hold `str` there. */
  lemma MatchFails(r: Reader, rs: Reader, r2: Reader, b: Byte, str: seq<Byte>, i: nat)
    requires r.Valid() && rs.Valid() && i < |str| && (r2, b) == NativeU8(rs) && (b != str[i] || rs.err != Ok)
    requires rs.err == Ok ==> r.Continues(rs) && rs.data == r.data + i
    requires rs.err != Ok ==> !(r.data + |str| <= |r.input| && r.input[r.data..r.data + |str|] == str)
    ensures !(r.data + |str| <= |r.input| && r.input[r.data..r.data + |str|] == str)
  {
    if rs.err == Ok && r.data + |str| <= |r.input| {
      assert r.input[r.data..r.data + |str|][i] == r.input[r.data + i];
    }
  }

  /** A byte that matches extends the matched prefix by one. */
  lemma MatchStep(r: Reader, rs: Reader, r2: Reader, str: seq<Byte>, i: nat)
    requires r.Valid() && rs.Valid() && rs.err == Ok && i < |str| && r2 == NativeU8(rs).0 && r2.err == Ok
    requires r.Continues(rs) && rs.data == r.data + i && r.input[r.data..rs.data] == str[..i]
    requires NativeU8(rs).1 == str[i]
    ensures r2.data == r.data + i + 1 <= |r.input| && r.input[r.data..r2.data] == str[..i + 1]
  {
    assert r2.data == rs.data + 1 && r2.input == r.input && rs.input[rs.data] == str[i];
    assert r.input[r.data..r2.data] == r.input[r.data..rs.data] + [r.input[rs.data]];
    assert str[..i + 1] == str[..i] + [str[i]];
  }

  /** Once every byte matched, closing the str frame succeeds and leaves the tracker as it was before the header. */
  lemma StrMatchEnd(r: Reader, r1: Reader, str: seq<Byte>, rs: Reader, rm: Reader, r': Reader)
    requires r.Valid() && NextTag(r).Str? && NextTag(r).len == |str|
    requires r1.Valid() && r1.err == Ok && Consumed(r, r1, NextSize(r)) && r1.track == Opened(r)
    requires rs == TrackBytes(r1, |str|) && rs.err == Ok && rm.Valid() && r' == DoneType(rm, Types.Str)
    requires rm.err == Ok <==> rs.data + |str| <= |rs.input| && rs.input[rs.data..rs.data + |str|] == str
    requires rm.err == Ok ==> rs.Continues(rm) && rm.data == rs.data + |str| && rm.track == rs.track
    requires Track.Pop(Track.TrackBytes(Track.Push(Counted(r), Types.Str, |str|), |str|).value, Types.Str) == Success(Counted(r))
    ensures r'.err == Ok <==> PayloadPresent(r) && Payload(r) == str
    ensures r'.err == Ok ==> r.Advanced(r', NextSize(r) + |str|) && r'.track == Counted(r)
  {
    var from := r.data + NextSize(r);
    assert rs.input == r.input && rs.data == from && rs.tracking == r.tracking;
    assert rs.track == (if r.tracking then Track.TrackBytes(Track.Push(Counted(r), Types.Str, |str|), |str|).value else Counted(r));
    if from + |str| <= |r.input| {
      PayloadAt(r, r1);
    }
    assert rm.err == Ok <==> PayloadPresent(r) && Payload(r) == str;
    if rm.err == Ok {
      assert rm.track == rs.track && rm.tracking == r.tracking;
    }
  }

  // ---------------------------------------------------------------------
  // Enums and keys (bjd-expect.c:715-821)
  // ---------------------------------------------------------------------

  /**
   * The search loop shared by `bjd_expect_enum` and
   * `bjd_expect_enum_optional`: the index of the first string equal to
   * `key`, or |strings| when none is.
   */
  function FindKey(key: seq<Byte>, strings: seq<seq<Byte>>): (i: nat)
    requires CStrings(strings)
    ensures i <= |strings|
    ensures i < |strings| ==> strings[i] == key
    ensures forall j | 0 <= j < i :: strings[j] != key
    ensures i == |strings| <==> key !in strings
  {
    if |strings| == 0 then 0
    else if strings[0] == key then 0
    else 1 + FindKey(key, strings[1..])
  }

  /** The next element is a str whose payload the input holds, all at once in the buffer when there is a fill function. */
  predicate InplaceStr(r: Reader) {
    NextTag(r).Str? && PayloadPresent(r) && (r.hasFill ==> NextTag(r).len <= r.size)
  }

  /**
   * The str read in place that both enum functions start with:
   * `bjd_expect_str`, `bjd_read_bytes_inplace` of its length, then
   * `bjd_done_str`. With a fill function the whole str must fit in the
   * buffer, else TooBig.
   */
  function StrInplace(r: Reader): (res: (Reader, seq<Byte>))
    requires r.Valid()
    ensures res.0.Valid()
    ensures res.0.err == Ok <==> InplaceStr(r)
    ensures res.0.err == Ok ==>
              res.1 == Payload(r) && r.Advanced(res.0, NextSize(r) + NextTag(r).len) && res.0.track == Counted(r)
  {
    var (r1, n) := ExpectStr(r);
    var (r2, key) := ReadBytesInplace(r1, n);
    var r3 := DoneType(r2, Types.Str);
    if r1.err == Ok then InplaceRead(r, r1, n, r2, key, r3); (r3, key) else (r3, key)
  }

  /** Why `StrInplace` means what it says once the header was a str. */
  lemma InplaceRead(r: Reader, r1: Reader, n: nat, r2: Reader, key: seq<Byte>, r3: Reader)
    requires r.Valid() && NextTag(r).Str? && n == NextTag(r).len
    requires r1.Valid() && r1.err == Ok && Consumed(r, r1, NextSize(r)) && r1.track == Opened(r)
    requires r2.Valid() && r3 == DoneType(r2, Types.Str)
    requires r2.err == Ok <==>
               && (!r1.tracking || Track.TrackBytes(r1.track, n).Success?)
               && r1.data + n <= |r1.input| && (r1.hasFill ==> n <= r1.size)
    requires r2.err == Ok ==>
               && r1.Continues(r2) && r2.data == r1.data + n && key == r1.input[r1.data..r1.data + n]
               && r2.track == (if r1.tracking then Track.TrackBytes(r1.track, n).value else r1.track)
    ensures r3.err == Ok <==> InplaceStr(r)
    ensures r3.err == Ok ==> n == NextTag(r).len && key == Payload(r) && r.Advanced(r3, NextSize(r) + n) && r3.track == Counted(r)
  {
    Track.BytesThenPop(Counted(r), Types.Str, n, n);
    if r2.err == Ok {
      PayloadAt(r, r1);
    } else {
      assert r3.err != Ok;
      if r1.data + n <= |r1.input| {
        PayloadAt(r, r1);
      }
    }
  }

  /**
   * `bjd_expect_enum`: the next element must be a str equal to one of
   * `strings`; the result is the index of the first such string. A str
   * matching none is Type. Every failure yields |strings|.
   */
  function ExpectEnum(r: Reader, strings: seq<seq<Byte>>): (res: (Reader, nat))
    requires r.Valid() && CStrings(strings)
    ensures res.0.Valid() && res.1 <= |strings|
    ensures res.0.err == Ok <==>
              InplaceStr(r) && Payload(r) in strings
    ensures res.0.err == Ok ==>
              && res.1 < |strings| && strings[res.1] == Payload(r) && (forall j | 0 <= j < res.1 :: strings[j] != Payload(r))
              && r.Advanced(res.0, NextSize(r) + NextTag(r).len) && res.0.track == Counted(r)
    ensures res.0.err != Ok ==> res.1 == |strings|
    ensures InplaceStr(r) && Payload(r) !in strings ==>
              res.0.err == Type
  {
    var (r1, key) := StrInplace(r);
    if r1.err != Ok then (r1, |strings|)
    else
      var i := FindKey(key, strings);
      if i == |strings| then (FlagError(r1, Type), |strings|) else (r1, i)
  }

  /** `bjd_peek_tag` (bjd-reader.c:966-979), described by the next header. */
  function Peek(r: Reader): (res: (Reader, Tag))
    requires r.Valid()
    ensures res.0.Valid() && res.0.track == r.track
    ensures res.0.err == Ok <==> NextTag(r) != Missing
    ensures res.0.err == Ok ==> res.1 == NextTag(r) && res.0 == r.(end := res.0.end)
    ensures res.0.err != Ok ==> res.1 == Nil
  {
    PeekTag(r)
  }

  /**
   * `bjd_expect_enum_optional`: as `ExpectEnum`, except that the element
   * need not be a str (anything else is skipped with `bjd_discard`) and a
   * str matching none of `strings` is no error. The result is |strings|
   * whenever no string matched. The C function's assertion that the list
   * is not empty is a debugging aid; an empty list simply never matches.
   */
  method ExpectEnumOptional(r: Reader, strings: seq<seq<Byte>>) returns (r': Reader, i: nat)
    requires r.Valid() && CStrings(strings)
    ensures r'.Valid() && i <= |strings|
    ensures r.err != Ok ==> r' == r && i == |strings|
    ensures i < |strings| <==>
              r'.err == Ok && InplaceStr(r) && Payload(r) in strings
    ensures i < |strings| ==> strings[i] == Payload(r) && forall j | 0 <= j < i :: strings[j] != Payload(r)
    ensures NextTag(r).Str? ==> (r'.err == Ok <==> InplaceStr(r))
    ensures InplaceStr(r) ==> i == FindKey(Payload(r), strings)
    ensures NextTag(r).Str? && r'.err == Ok ==> r.Advanced(r', NextSize(r) + NextTag(r).len) && r'.track == Counted(r)
    ensures r.err == Ok && !NextTag(r).Str? ==> Skipped(r, r')
  {
    if r.err != Ok {
      return r, |strings|;
    }
    var (r0, t) := Peek(r);
    if !t.Str? {
      r' := Skip(r, r0);
      return r', |strings|;
    }
    var (r1, key) := StrInplace(r);
    if r1.err != Ok {
      return r1, |strings|;
    }
    return r1, FindKey(key, strings);
  }

  /**
   * What `bjd_discard` did to an element that was not wanted: when the
   * next header can be read, it succeeds exactly when the input holds the
   * whole object, and then consumes it and counts it as one element.
   */
  predicate Skipped(r: Reader, r': Reader)
    requires r.Valid() && r.err == Ok
  {
    && (NextTag(r) != Missing ==> (r'.err == Ok <==> Objects.ObjectEnd(r.input, r.data, r.extensions).Some?))
    && (r'.err == Ok ==>
          && Objects.ObjectEnd(r.input, r.data, r.extensions).Some?
          && r.Continues(r') && r'.data == Objects.ObjectEnd(r.input, r.data, r.extensions).value
          && Admits(r) && r'.track == Counted(r))
  }

  /** `bjd_discard` of the element a peek found unwanted. */
  method Skip(ghost r: Reader, r0: Reader) returns (r': Reader)
    requires r.Valid() && r.err == Ok && r0 == Peek(r).0
    ensures r'.Valid() && Skipped(r, r')
  {
    r' := Discard(r0);
  }

  /**
   * `bjd_expect_key_uint`: reads a map key that should be an unsigned int
   * below |found|, the number of known keys. A known key not seen before is
   * marked in `found` and returned; a known key seen before is Invalid. Any
   * other element is skipped and yields |found|, as does an unsigned key
   * too large; an empty key set is Bug.
   */
  method ExpectKeyUint(r: Reader, found: seq<bool>) returns (r': Reader, found': seq<bool>, i: nat)
    requires r.Valid()
    ensures r'.Valid() && |found'| == |found| && i <= |found|
    ensures r.err != Ok ==> r' == r && found' == found && i == |found|
    ensures r.err == Ok && |found| == 0 ==> r' == FlagError(r, Bug) && i == 0
    ensures i < |found| <==> r'.err == Ok && NextTag(r).Uint? && NextTag(r).u < |found| && !found[NextTag(r).u]
    ensures i < |found| ==> i == NextTag(r).u && found' == found[i := true]
    ensures i == |found| ==> found' == found
    ensures NextTag(r).Uint? && r'.err == Ok ==> Consumed(r, r', NextSize(r)) && r'.track == Counted(r)
    ensures NextTag(r).Uint? && |found| > 0 ==>
              (r'.err == Ok <==> !(NextTag(r).u < |found| && found[NextTag(r).u]))
    ensures NextTag(r).Uint? && NextTag(r).u < |found| && found[NextTag(r).u] ==> r'.err == Invalid
    ensures r.err == Ok && |found| > 0 && !NextTag(r).Uint? ==> Skipped(r, r')
  {
    if r.err != Ok {
      return r, found, |found|;
    }
    if |found| == 0 {
      return FlagError(r, Bug), found, 0;
    }
    var (r0, t) := Peek(r);
    if !t.Uint? {
      r' := Skip(r, r0);
      return r', found, |found|;
    }
    var (r1, value) := ExpectInt(r, Uint64);
    UintKey(r);
    var res := MarkKey(r1, value, found);
    return res.0, res.1, res.2;
  }

  /**
   * The end of `bjd_expect_key_uint` and `bjd_expect_key_cstr`: an index
   * past the known keys yields |found|; a key already found is Invalid and
   * yields |found|; any other is marked found and returned.
   */
  function MarkKey(r: Reader, k: nat, found: seq<bool>): (res: (Reader, seq<bool>, nat))
    requires r.Valid() && r.err == Ok
    ensures res.0.Valid() && |res.1| == |found| && res.2 <= |found|
    ensures res.2 < |found| <==> k < |found| && !found[k]
    ensures res.2 < |found| ==> res.2 == k && res.1 == found[k := true] && res.0 == r
    ensures res.2 == |found| ==> res.1 == found
    ensures res.0.err == Ok <==> !(k < |found| && found[k])
    ensures res.0.err == Ok ==> res.0 == r
    ensures res.0.err != Ok ==> res.0 == FlagError(r, Invalid)
  {
    if k >= |found| then (r, found, |found|)
    else if found[k] then (FlagError(r, Invalid), found, |found|)
    else (r, found[k := true], k)
  }

  /** An unsigned int header is always read whole by `bjd_expect_u64`. */
  lemma UintKey(r: Reader)
    requires r.Valid() && NextTag(r).Uint?
    ensures var (r1, v) := ExpectInt(r, Uint64);
      r1.err == Ok && v == NextTag(r).u && Consumed(r, r1, NextSize(r)) && r1.track == Counted(r)
  {
    var t := NextTag(r);
    assert IsInteger(t) && IntValue(t) == t.u;
    assert Uint64.Min() <= t.u <= Uint64.Max();
    var res := ExpectInt(r, Uint64);
    assert res.0.err == Ok;
  }

  /**
   * `bjd_expect_key_cstr`: reads a map key that should be one of `keys`
   * (through `ExpectEnumOptional`). A key not seen before is marked in
   * `found` and its index returned; a key seen before is Invalid and yields
   * |keys|, as does any other element. The two C arrays share one count.
   */
  method ExpectKeyCstr(r: Reader, keys: seq<seq<Byte>>, found: seq<bool>) returns (r': Reader, found': seq<bool>, i: nat)
    requires r.Valid() && CStrings(keys) && |found| == |keys|
    ensures r'.Valid() && |found'| == |found| && i <= |keys|
    ensures r.err != Ok ==> r' == r && found' == found && i == |keys|
    ensures i < |keys| ==>
              && r'.err == Ok && NextTag(r).Str? && PayloadPresent(r) && keys[i] == Payload(r)
              && (forall j | 0 <= j < i :: keys[j] != Payload(r))
              && !found[i] && found' == found[i := true]
              && r.Advanced(r', NextSize(r) + NextTag(r).len) && r'.track == Counted(r)
    ensures i == |keys| ==> found' == found
    ensures InplaceStr(r) && Payload(r) in keys ==>
              var k := FindKey(Payload(r), keys);
              if found[k] then r'.err == Invalid && i == |keys| else i == k
    ensures r.err == Ok && !NextTag(r).Str? ==> Skipped(r, r')
  {
    var r1, k := ExpectEnumOptional(r, keys);
    if k == |keys| {
      return r1, found, |keys|;
    }
    var res := MarkKey(r1, k, found);
    return res.0, res.1, res.2;
  }
}
