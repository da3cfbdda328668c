/**
 * The MessagePack header format: the decoder `bjd_parse_tag`
 * (bjd-reader.c:579-921) as a function of the buffered bytes, the encoders
 * the writer chooses between (bjd-writer.c:522-731, 795-1058), and the
 * timestamp extension's payload (bjd-writer.c:714-731, bjd-reader.c:1025-1068).
 */
module Wire {
  import opened Bytes
  import opened Wrappers
  import opened Errors
  import opened Tags

  // ---------------------------------------------------------------------
  // Decoding
  // ---------------------------------------------------------------------

  /** The ext8/16/32 and fixext1..16 opcodes, only understood with extensions. */
  predicate IsExtOpcode(lead: Byte) {
    0xc7 <= lead <= 0xc9 || 0xd4 <= lead <= 0xd8
  }

  /** A lead byte that opens no header: always 0xc1, and the ext opcodes without extensions. */
  predicate IsBadLead(lead: Byte, extensions: bool) {
    lead == 0xc1 || (!extensions && IsExtOpcode(lead))
  }

  /** The size of the whole header a good lead byte opens (opcode plus fields). */
  function HeaderSize(lead: Byte): (n: nat)
    ensures 1 <= n <= MAXIMUM_TAG_SIZE
  {
    if lead <= 0xc3 || lead >= 0xe0 then 1
    else if lead <= 0xc6 then FieldSize(lead - 0xc4) + 1    // bin8/16/32
    else if lead <= 0xc9 then FieldSize(lead - 0xc7) + 2    // ext8/16/32
    else if lead == 0xca then TAG_SIZE_FLOAT
    else if lead == 0xcb then TAG_SIZE_DOUBLE
    else if lead <= 0xcf then FieldSize(lead - 0xcc) + 1    // uint8..64
    else if lead <= 0xd3 then FieldSize(lead - 0xd0) + 1    // int8..64
    else if lead <= 0xd8 then TAG_SIZE_FIXEXT
    else if lead <= 0xdb then FieldSize(lead - 0xd9) + 1    // str8/16/32
    else if lead <= 0xdd then FieldSize(lead - 0xdb) + 1    // array16/32
    else FieldSize(lead - 0xdd) + 1                         // map16/32
  }

  /** The width of the k-th field of a family: 1, 2, 4, 8 bytes. */
  function FieldSize(k: nat): (w: nat)
    requires k < 4
    ensures w in {1, 2, 4, 8}
  {
    if k == 0 then 1 else if k == 1 then 2 else if k == 2 then 4 else 8
  }

  /** The unsigned big-endian field of width `FieldSize(k)` at the start of p. */
  function LoadField(p: seq<Byte>, k: nat): (r: U64)
    requires k < 3 && |p| >= FieldSize(k)
    ensures r < FieldLimit(k) <= 0x1_0000_0000
  {
    if k == 0 then LoadU8(p) else if k == 1 then LoadU16(p) else LoadU32(p)
  }

  /** The tag of a header whose bytes are all present: the switch of `bjd_parse_tag`. */
  function DecodeHeader(p: seq<Byte>): (t: Tag)
    requires |p| >= 1 && p[0] != 0xc1 && |p| >= HeaderSize(p[0])
    ensures !t.Missing?
  {
    var lead := p[0];
    if lead <= 0x7f then Uint(lead)                       // positive fixint
    else if lead <= 0x8f then Map(lead % 0x10)            // fixmap
    else if lead <= 0x9f then Array(lead % 0x10)          // fixarray
    else if lead <= 0xbf then Str(lead % 0x20)            // fixstr
    else if lead >= 0xe0 then Int((lead as int) - 0x100)  // negative fixint
    else if lead == 0xc0 then Nil
    else if lead <= 0xc3 then Bool(lead % 2 == 1)
    else if lead <= 0xcb then DecodeBinExtFloat(p)
    else if lead <= 0xd3 then DecodeNumber(p)
    else if lead <= 0xd8 then Ext(LoadI8(p[1..]), FixextLength(lead - 0xd4))
    else DecodeStrArrayMap(p)
  }

  /** fixext1, 2, 4, 8, 16 carry the lengths 1, 2, 4, 8, 16. */
  function FixextLength(k: nat): (n: U32)
    requires k < 5
  {
    if k == 0 then 1 else if k == 1 then 2 else if k == 2 then 4 else if k == 3 then 8 else 16
  }

  /** bin8/16/32, ext8/16/32 (length first, then exttype), float and double. */
  function DecodeBinExtFloat(p: seq<Byte>): (t: Tag)
    requires |p| >= 1 && 0xc4 <= p[0] <= 0xcb && |p| >= HeaderSize(p[0])
    ensures t.Bin? <==> p[0] <= 0xc6
    ensures t.Ext? <==> 0xc7 <= p[0] <= 0xc9
    ensures t.Bin? || t.Ext? || t.Float? || t.Double?
  {
    var lead := p[0];
    if lead <= 0xc6 then Bin(LoadField(p[1..], lead - 0xc4))
    else if lead <= 0xc9 then
      var k := lead - 0xc7;
      Ext(LoadI8(p[1 + FieldSize(k)..]), LoadField(p[1..], k))
    else if lead == 0xca then Float(LoadU32(p[1..]))
    else Double(LoadU64(p[1..]))
  }

  /** uint8..64 and int8..64. */
  function DecodeNumber(p: seq<Byte>): (t: Tag)
    requires |p| >= 1 && 0xcc <= p[0] <= 0xd3 && |p| >= HeaderSize(p[0])
    ensures t.Uint? <==> p[0] <= 0xcf
    ensures t.Uint? || t.Int?
  {
    var lead := p[0];
    if lead == 0xcc then Uint(LoadU8(p[1..]))
    else if lead == 0xcd then Uint(LoadU16(p[1..]))
    else if lead == 0xce then Uint(LoadU32(p[1..]))
    else if lead == 0xcf then Uint(LoadU64(p[1..]))
    else if lead == 0xd0 then Int(LoadI8(p[1..]))
    else if lead == 0xd1 then Int(LoadI16(p[1..]))
    else if lead == 0xd2 then Int(LoadI32(p[1..]))
    else Int(LoadI64(p[1..]))
  }

  /** str8/16/32, array16/32 and map16/32. */
  function DecodeStrArrayMap(p: seq<Byte>): (t: Tag)
    requires |p| >= 1 && 0xd9 <= p[0] <= 0xdf && |p| >= HeaderSize(p[0])
    ensures t.Str? <==> p[0] <= 0xdb
    ensures t.Array? <==> 0xdc <= p[0] <= 0xdd
    ensures t.Map? <==> 0xde <= p[0]
  {
    var lead := p[0];
    if lead <= 0xdb then Str(LoadField(p[1..], lead - 0xd9))
    else if lead <= 0xdd then Array(LoadField(p[1..], lead - 0xdb))
    else Map(LoadField(p[1..], lead - 0xdd))
  }

  /**
   * What `bjd_parse_tag` makes of the bytes buffered so far: a tag and the
   * header size, a request for more bytes (the reader's ensure), or the
   * error it flags.
   */
  datatype ParseOutcome = Parsed(tag: Tag, size: nat) | Short(need: nat) | Failed(error: Error)

  function ParseTag(data: seq<Byte>, extensions: bool): (r: ParseOutcome)
    ensures r.Failed? <==> |data| >= 1 && IsBadLead(data[0], extensions)
    ensures r.Failed? ==> r.error == (if data[0] == 0xc1 then Invalid else Unsupported)
    ensures r.Short? ==> |data| < r.need <= MAXIMUM_TAG_SIZE
    ensures r.Parsed? ==> 1 <= r.size <= |data| && r.size <= MAXIMUM_TAG_SIZE && !r.tag.Missing?
    ensures r.Parsed? ==> r.size == HeaderSize(data[0])
  {
    if |data| == 0 then Short(1)
    else if data[0] == 0xc1 then Failed(Invalid)
    else if !extensions && IsExtOpcode(data[0]) then Failed(Unsupported)
    else if |data| < HeaderSize(data[0]) then Short(HeaderSize(data[0]))
    else Parsed(DecodeHeader(data), HeaderSize(data[0]))
  }

  /** Bytes past a complete header do not change what it decodes to. */
  lemma ParseIgnoresRest(data: seq<Byte>, more: seq<Byte>, extensions: bool)
    requires ParseTag(data, extensions).Parsed?
    ensures ParseTag(data + more, extensions) == ParseTag(data, extensions)
  {
    var lead := data[0];
    var d := data + more;
    assert d[0] == lead;
    if 0xc4 <= lead <= 0xcb {
      BinExtFloatIgnoresRest(data, more);
      BinExtFloatParses(data, extensions);
      BinExtFloatParses(d, extensions);
    } else if 0xcc <= lead <= 0xd3 {
      NumberIgnoresRest(data, more);
      NumberParses(data, extensions);
      NumberParses(d, extensions);
    } else if 0xd9 <= lead <= 0xdf {
      StrArrayMapIgnoresRest(data, more);
      StrArrayMapParses(data, extensions);
      StrArrayMapParses(d, extensions);
    } else if 0xd4 <= lead <= 0xd8 {
      assert d[1..] == data[1..] + more;
      LoadsIgnoreRest(data[1..], more);
    }
  }

  lemma NumberIgnoresRest(data: seq<Byte>, more: seq<Byte>)
    requires |data| >= 1 && 0xcc <= data[0] <= 0xd3 && |data| >= HeaderSize(data[0])
    ensures (data + more)[0] == data[0]
    ensures DecodeNumber(data + more) == DecodeNumber(data)
  {
    var d := data + more;
    assert d[1..] == data[1..] + more;
    LoadsIgnoreRest(data[1..], more);
  }

  lemma StrArrayMapIgnoresRest(data: seq<Byte>, more: seq<Byte>)
    requires |data| >= 1 && 0xd9 <= data[0] <= 0xdf && |data| >= HeaderSize(data[0])
    ensures (data + more)[0] == data[0]
    ensures DecodeStrArrayMap(data + more) == DecodeStrArrayMap(data)
  {
    var d := data + more;
    assert d[1..] == data[1..] + more;
    LoadsIgnoreRest(data[1..], more);
  }

  lemma BinExtFloatIgnoresRest(data: seq<Byte>, more: seq<Byte>)
    requires |data| >= 1 && 0xc4 <= data[0] <= 0xcb && |data| >= HeaderSize(data[0])
    ensures (data + more)[0] == data[0]
    ensures DecodeBinExtFloat(data + more) == DecodeBinExtFloat(data)
  {
    var lead := data[0];
    var d := data + more;
    assert d[1..] == data[1..] + more;
    LoadsIgnoreRest(data[1..], more);
    if 0xc7 <= lead <= 0xc9 {
      var j := 1 + FieldSize(lead - 0xc7);
      assert HeaderSize(lead) == j + 1;
      assert d[j..] == data[j..] + more;
      LoadsIgnoreRest(data[j..], more);
    }
  }

  /** A fixed-width load reads only its own bytes. */
  lemma LoadsIgnoreRest(a: seq<Byte>, rest: seq<Byte>)
    ensures |a| >= 1 ==> LoadU8(a + rest) == LoadU8(a) && LoadI8(a + rest) == LoadI8(a)
    ensures |a| >= 2 ==> LoadU16(a + rest) == LoadU16(a) && LoadI16(a + rest) == LoadI16(a)
    ensures |a| >= 4 ==> LoadU32(a + rest) == LoadU32(a) && LoadI32(a + rest) == LoadI32(a)
    ensures |a| >= 8 ==> LoadU64(a + rest) == LoadU64(a) && LoadI64(a + rest) == LoadI64(a)
  {
    if |a| >= 2 {
      Load16IgnoresRest(a, rest);
    }
    if |a| >= 4 {
      Load32IgnoresRest(a, rest);
    }
    if |a| >= 8 {
      Load64IgnoresRest(a, rest);
    }
  }

  lemma Load8IgnoresRest(a: seq<Byte>, rest: seq<Byte>)
    requires |a| >= 1
    ensures LoadU8(a + rest) == LoadU8(a) && LoadI8(a + rest) == LoadI8(a)
  {
  }

  lemma Load16IgnoresRest(a: seq<Byte>, rest: seq<Byte>)
    requires |a| >= 2
    ensures LoadU16(a + rest) == LoadU16(a) && LoadI16(a + rest) == LoadI16(a)
  {
    assert (a + rest)[..2] == a[..2];
  }

  lemma Load32IgnoresRest(a: seq<Byte>, rest: seq<Byte>)
    requires |a| >= 4
    ensures LoadU32(a + rest) == LoadU32(a) && LoadI32(a + rest) == LoadI32(a)
  {
    assert (a + rest)[..4] == a[..4];
  }

  lemma Load64IgnoresRest(a: seq<Byte>, rest: seq<Byte>)
    requires |a| >= 8
    ensures LoadU64(a + rest) == LoadU64(a) && LoadI64(a + rest) == LoadI64(a)
  {
    assert (a + rest)[..8] == a[..8];
  }

  // ---------------------------------------------------------------------
  // Encoding: the smallest form for each value, length and count
  // ---------------------------------------------------------------------

  /** `bjd_write_u64`: fixint, then 0xcc, 0xcd, 0xce, 0xcf by magnitude. */
  function EncodeUint(u: U64): (r: seq<Byte>)
    ensures 1 <= |r| <= TAG_SIZE_U64
  {
    if u <= 127 then [u]
    else if u <= 0xff then [0xcc] + StoreU8(u)
    else if u <= 0xffff then [0xcd] + StoreU16(u)
    else if u <= 0xffff_ffff then [0xce] + StoreU32(u)
    else [0xcf] + StoreU64(u)
  }

  /**
   * `bjd_write_i64`: a fixint for -32..127, the unsigned forms above 127,
   * otherwise the narrowest of 0xd0..0xd3 that holds the value.
   */
  function EncodeInt(i: I64): (r: seq<Byte>)
    ensures 1 <= |r| <= TAG_SIZE_I64
  {
    if i >= -32 then
      if i <= 127 then StoreI8(i)
      else if i <= 0xff then [0xcc] + StoreU8(i)
      else if i <= 0xffff then [0xcd] + StoreU16(i)
      else if i <= 0xffff_ffff then [0xce] + StoreU32(i)
      else [0xcf] + StoreU64(i)
    else if i >= -0x80 then [0xd0] + StoreI8(i)
    else if i >= -0x8000 then [0xd1] + StoreI16(i)
    else if i >= -0x8000_0000 then [0xd2] + StoreI32(i)
    else [0xd3] + StoreI64(i)
  }

  // The fixed-width writers (bjd-writer.c:750-871) take their own branch
  // chains; each agrees with the 64-bit writer for every value of its width.

  function EncodeU8(v: U8): seq<Byte> {
    if v <= 127 then [v] else [0xcc] + StoreU8(v)
  }

  function EncodeU16(v: U16): seq<Byte> {
    if v <= 127 then [v]
    else if v <= 0xff then [0xcc] + StoreU8(v)
    else [0xcd] + StoreU16(v)
  }

  function EncodeU32(v: U32): seq<Byte> {
    if v <= 127 then [v]
    else if v <= 0xff then [0xcc] + StoreU8(v)
    else if v <= 0xffff then [0xcd] + StoreU16(v)
    else [0xce] + StoreU32(v)
  }

  function EncodeI8(v: I8): seq<Byte> {
    if v >= -32 then StoreI8(v) else [0xd0] + StoreI8(v)
  }

  function EncodeI16(v: I16): seq<Byte> {
    if v >= -32 then
      if v <= 127 then StoreI8(v)
      else if v <= 0xff then [0xcc] + StoreU8(v)
      else [0xcd] + StoreU16(v)
    else if v >= -0x80 then [0xd0] + StoreI8(v)
    else [0xd1] + StoreI16(v)
  }

  function EncodeI32(v: I32): seq<Byte> {
    if v >= -32 then
      if v <= 127 then StoreI8(v)
      else if v <= 0xff then [0xcc] + StoreU8(v)
      else if v <= 0xffff then [0xcd] + StoreU16(v)
      else [0xce] + StoreU32(v)
    else if v >= -0x80 then [0xd0] + StoreI8(v)
    else if v >= -0x8000 then [0xd1] + StoreI16(v)
    else [0xd2] + StoreI32(v)
  }

  /** Every narrow writer emits exactly what the 64-bit writer emits for the same value. */
  lemma NarrowWritersAgree(u8: U8, u16: U16, u32: U32, i8: I8, i16: I16, i32: I32)
    ensures EncodeU8(u8) == EncodeUint(u8)
    ensures EncodeU16(u16) == EncodeUint(u16)
    ensures EncodeU32(u32) == EncodeUint(u32)
    ensures EncodeI8(i8) == EncodeInt(i8)
    ensures EncodeI16(i16) == EncodeInt(i16)
    ensures EncodeI32(i32) == EncodeInt(i32)
  {
  }

  /** For a non-negative value the signed writer emits the unsigned writer's bytes. */
  lemma IntAgreesWithUint(i: I64)
    requires i >= 0
    ensures EncodeInt(i) == EncodeUint(i)
  {
    if i <= 127 {
      assert StoreI8(i) == [i as Byte] by {
        assert LoadI8(StoreI8(i)) == i;
      }
    }
  }

  /** The encoding of any integer the tag model can hold, by its value alone. */
  function EncodeInteger(v: int): (r: seq<Byte>)
    requires -0x8000_0000_0000_0000 <= v < TWO_64
    ensures 1 <= |r| <= MAXIMUM_TAG_SIZE
  {
    if v >= 0 then EncodeUint(v) else EncodeInt(v)
  }

  /** fixarray for 0..15, then array16 and array32 (bjd-writer.c:948-959). */
  function ArrayHeader(n: U32): (r: seq<Byte>)
    ensures |r| in {1, 3, 5}
  {
    if n <= 15 then [0x90 + n]
    else if n <= 0xffff then [0xdc] + StoreU16(n)
    else [0xdd] + StoreU32(n)
  }

  /** fixmap for 0..15, then map16 and map32 (bjd-writer.c:961-974). */
  function MapHeader(n: U32): (r: seq<Byte>)
    ensures |r| in {1, 3, 5}
  {
    if n <= 15 then [0x80 + n]
    else if n <= 0xffff then [0xde] + StoreU16(n)
    else [0xdf] + StoreU32(n)
  }

  /**
   * fixstr for 0..31, str8 up to 255 (only outside v4 compatibility mode),
   * then str16 and str32 (bjd-writer.c:976-993).
   */
  function StrHeader(n: U32, v4: bool): (r: seq<Byte>)
    ensures |r| in {1, 2, 3, 5}
  {
    if n <= 31 then [0xa0 + n]
    else if n <= 0xff && !v4 then [0xd9] + StoreU8(n)
    else if n <= 0xffff then [0xda] + StoreU16(n)
    else [0xdb] + StoreU32(n)
  }

  /** bin8/16/32 by magnitude; in v4 mode the old raw (str) forms (bjd-writer.c:995-1013). */
  function BinHeader(n: U32, v4: bool): (r: seq<Byte>)
    ensures |r| in {1, 2, 3, 5}
  {
    if v4 then StrHeader(n, true)
    else if n <= 0xff then [0xc4] + StoreU8(n)
    else if n <= 0xffff then [0xc5] + StoreU16(n)
    else [0xc6] + StoreU32(n)
  }

  /**
   * fixext for the lengths 1, 2, 4, 8 and 16; otherwise ext8/16/32 with the
   * length before the exttype (bjd-writer.c:1028-1058, 693-712).
   */
  function ExtHeader(exttype: I8, n: U32): (r: seq<Byte>)
    ensures |r| in {2, 3, 4, 6}
  {
    if n == 1 then [0xd4] + StoreI8(exttype)
    else if n == 2 then [0xd5] + StoreI8(exttype)
    else if n == 4 then [0xd6] + StoreI8(exttype)
    else if n == 8 then [0xd7] + StoreI8(exttype)
    else if n == 16 then [0xd8] + StoreI8(exttype)
    else if n <= 0xff then [0xc7] + StoreU8(n) + StoreI8(exttype)
    else if n <= 0xffff then [0xc8] + StoreU16(n) + StoreI8(exttype)
    else [0xc9] + StoreU32(n) + StoreI8(exttype)
  }

  /** The bytes `bjd_write_tag` produces for a tag (bjd-writer.c:460-489). */
  function Encode(t: Tag, v4: bool): (r: seq<Byte>)
    requires !t.Missing?
    ensures 1 <= |r| <= MAXIMUM_TAG_SIZE
  {
    match t
    case Nil => [0xc0]
    case Bool(b) => [if b then 0xc3 else 0xc2]
    case Int(i) => EncodeInt(i)
    case Uint(u) => EncodeUint(u)
    case Float(f) => [0xca] + StoreU32(f)
    case Double(d) => [0xcb] + StoreU64(d)
    case Str(n) => StrHeader(n, v4)
    case Bin(n) => BinHeader(n, v4)
    case Array(n) => ArrayHeader(n)
    case Map(n) => MapHeader(n)
    case Ext(ty, n) => ExtHeader(ty, n)
  }

  /**
   * The tag a reader sees for a written tag: a non-negative Int comes back
   * as Uint, and in v4 mode a Bin comes back as the Str it was written as.
   */
  function AsRead(t: Tag, v4: bool): Tag {
    if v4 && t.Bin? then Str(t.len) else Normalize(t)
  }

  // ---------------------------------------------------------------------
  // Round trip
  // ---------------------------------------------------------------------

  /**
   * Writing a tag and parsing the bytes back gives the same tag (up to
   * `AsRead`) and consumes exactly the written header, whatever follows it.
   */
  lemma RoundTrip(t: Tag, v4: bool, extensions: bool, rest: seq<Byte>)
    requires !t.Missing? && (t.Ext? ==> extensions)
    ensures ParseTag(Encode(t, v4) + rest, extensions) == Parsed(AsRead(t, v4), |Encode(t, v4)|)
  {
    var e := Encode(t, v4);
    match t
    case Nil =>
    case Bool(b) =>
    case Int(i) =>
      if i >= 0 {
        IntAgreesWithUint(i);
        UintRoundTrip(i, extensions, rest);
      } else {
        NegativeRoundTrip(i, extensions, rest);
      }
    case Uint(u) => UintRoundTrip(u, extensions, rest);
    case Float(f) => FloatRoundTrip(f, extensions, rest);
    case Double(d) => DoubleRoundTrip(d, extensions, rest);
    case Str(n) => StrRoundTrip(n, v4, extensions, rest);
    case Bin(n) =>
      if v4 {
        StrRoundTrip(n, true, extensions, rest);
      } else {
        BinRoundTrip(n, extensions, rest);
      }
    case Array(n) => ArrayRoundTrip(n, extensions, rest);
    case Map(n) => MapRoundTrip(n, extensions, rest);
    case Ext(ty, n) => ExtRoundTrip(ty, n, rest);
  }

  lemma FloatRoundTrip(f: U32, extensions: bool, rest: seq<Byte>)
    ensures ParseTag(Encode(Float(f), false) + rest, extensions) == Parsed(Float(f), 5)
  {
    var p := Encode(Float(f), false) + rest;
    assert p == [0xca] + (StoreU32(f) + rest);
    LoadsIgnoreRest(StoreU32(f), rest);
    BinExtFloatParses(p, extensions);
  }

  lemma DoubleRoundTrip(d: U64, extensions: bool, rest: seq<Byte>)
    ensures ParseTag(Encode(Double(d), false) + rest, extensions) == Parsed(Double(d), 9)
  {
    var p := Encode(Double(d), false) + rest;
    assert p == [0xcb] + (StoreU64(d) + rest);
    LoadsIgnoreRest(StoreU64(d), rest);
    BinExtFloatParses(p, extensions);
  }

  lemma UintRoundTrip(u: U64, extensions: bool, rest: seq<Byte>)
    ensures ParseTag(EncodeUint(u) + rest, extensions) == Parsed(Uint(u), |EncodeUint(u)|)
  {
    if u > 0xffff_ffff {
      Uint64Field(u, extensions, rest);
    } else if u > 127 {
      var k := if u <= 0xff then 0 else if u <= 0xffff then 1 else 2;
      assert EncodeUint(u) == [0xcc + k] + StoreField(u, k);
      UintField(k, u, extensions, rest);
    }
  }

  /** uint8/16/32 followed by its field parses back. */
  lemma UintField(k: nat, n: nat, extensions: bool, rest: seq<Byte>)
    requires k < 3 && n < FieldLimit(k)
    ensures ParseTag([0xcc + k] + StoreField(n, k) + rest, extensions) == Parsed(Uint(n), 1 + FieldSize(k))
  {
    var p := [0xcc + k] + StoreField(n, k) + rest;
    assert p[1..] == StoreField(n, k) + rest;
    FieldRoundTrip(n, k, rest);
    NumberParses(p, extensions);
  }

  lemma Uint64Field(u: U64, extensions: bool, rest: seq<Byte>)
    requires u > 0xffff_ffff
    ensures ParseTag(EncodeUint(u) + rest, extensions) == Parsed(Uint(u), 9)
  {
    var p := EncodeUint(u) + rest;
    assert p == [0xcf] + (StoreU64(u) + rest);
    Load64IgnoresRest(StoreU64(u), rest);
    NumberParses(p, extensions);
  }

  lemma NegativeRoundTrip(i: I64, extensions: bool, rest: seq<Byte>)
    requires i < 0
    ensures ParseTag(EncodeInt(i) + rest, extensions) == Parsed(Int(i), |EncodeInt(i)|)
  {
    var e := EncodeInt(i);
    if i >= -32 {
      assert LoadI8(e) == i;
    } else {
      if i >= -0x8000 {
        SmallNegative(i, rest);
      } else {
        LargeNegative(i, rest);
      }
      NumberParses(e + rest, extensions);
    }
  }

  lemma NumberParses(p: seq<Byte>, extensions: bool)
    requires |p| >= 1 && 0xcc <= p[0] <= 0xd3 && |p| >= HeaderSize(p[0])
    ensures ParseTag(p, extensions) == Parsed(DecodeNumber(p), HeaderSize(p[0]))
  {
  }

  lemma StrArrayMapParses(p: seq<Byte>, extensions: bool)
    requires |p| >= 1 && 0xd9 <= p[0] <= 0xdf && |p| >= HeaderSize(p[0])
    ensures ParseTag(p, extensions) == Parsed(DecodeStrArrayMap(p), HeaderSize(p[0]))
  {
  }

  lemma BinExtFloatParses(p: seq<Byte>, extensions: bool)
    requires |p| >= 1 && 0xc4 <= p[0] <= 0xcb && |p| >= HeaderSize(p[0])
    requires extensions || !IsExtOpcode(p[0])
    ensures ParseTag(p, extensions) == Parsed(DecodeBinExtFloat(p), HeaderSize(p[0]))
  {
  }

  lemma SmallNegative(i: I64, rest: seq<Byte>)
    requires -0x8000 <= i < -32
    ensures var p := EncodeInt(i) + rest;
      0xd0 <= p[0] <= 0xd1 && HeaderSize(p[0]) == |EncodeInt(i)| && DecodeNumber(p) == Int(i)
  {
    if i >= -0x80 {
      Negative8(i, rest);
    } else {
      Negative16(i, rest);
    }
  }

  lemma Negative8(i: I64, rest: seq<Byte>)
    requires -0x80 <= i < -32
    ensures var p := EncodeInt(i) + rest;
      p[0] == 0xd0 && |EncodeInt(i)| == 2 && DecodeNumber(p) == Int(i)
  {
    var s := StoreI8(i);
    assert EncodeInt(i) == [0xd0] + s;
    SignedAfterLead(0xd0, s, rest);
  }

  lemma Negative16(i: I64, rest: seq<Byte>)
    requires -0x8000 <= i < -0x80
    ensures var p := EncodeInt(i) + rest;
      p[0] == 0xd1 && |EncodeInt(i)| == 3 && DecodeNumber(p) == Int(i)
  {
    var s := StoreI16(i);
    assert EncodeInt(i) == [0xd1] + s;
    SignedAfterLead(0xd1, s, rest);
  }

  lemma LargeNegative(i: I64, rest: seq<Byte>)
    requires i < -0x8000
    ensures var p := EncodeInt(i) + rest;
      0xd2 <= p[0] <= 0xd3 && HeaderSize(p[0]) == |EncodeInt(i)| && DecodeNumber(p) == Int(i)
  {
    if i >= -0x8000_0000 {
      Negative32(i, rest);
    } else {
      Negative64(i, rest);
    }
  }

  lemma Negative32(i: I64, rest: seq<Byte>)
    requires -0x8000_0000 <= i < -0x8000
    ensures var p := EncodeInt(i) + rest;
      p[0] == 0xd2 && |EncodeInt(i)| == 5 && DecodeNumber(p) == Int(i)
  {
    var s := StoreI32(i);
    assert EncodeInt(i) == [0xd2] + s;
    SignedAfterLead(0xd2, s, rest);
  }

  lemma Negative64(i: I64, rest: seq<Byte>)
    requires i < -0x8000_0000
    ensures var p := EncodeInt(i) + rest;
      p[0] == 0xd3 && |EncodeInt(i)| == 9 && DecodeNumber(p) == Int(i)
  {
    var s := StoreI64(i);
    assert EncodeInt(i) == [0xd3] + s;
    SignedAfterLead(0xd3, s, rest);
  }

  /** The signed field s of the width lead announces, after lead and followed by anything, decodes as s does. */
  lemma SignedAfterLead(lead: Byte, s: seq<Byte>, rest: seq<Byte>)
    requires 0xd0 <= lead <= 0xd3 && |s| == HeaderSize(lead) - 1
    ensures var p := [lead] + s + rest;
      p[0] == lead && DecodeNumber(p) == Int(
        if lead == 0xd0 then LoadI8(s) else if lead == 0xd1 then LoadI16(s)
        else if lead == 0xd2 then LoadI32(s) else LoadI64(s))
  {
    var p := [lead] + s + rest;
    assert p[1..] == s + rest;
    if lead == 0xd0 {
      Load8IgnoresRest(s, rest);
    } else if lead == 0xd1 {
      Load16IgnoresRest(s, rest);
    } else if lead == 0xd2 {
      Load32IgnoresRest(s, rest);
    } else {
      Load64IgnoresRest(s, rest);
    }
  }

  /** The limit of a field of width `FieldSize(k)`. */
  function FieldLimit(k: nat): (m: nat)
    requires k < 3
  {
    if k == 0 then 0x100 else if k == 1 then 0x1_0000 else 0x1_0000_0000
  }

  /** The big-endian field of width `FieldSize(k)` holding n. */
  function StoreField(n: nat, k: nat): (r: seq<Byte>)
    requires k < 3 && n < FieldLimit(k)
    ensures |r| == FieldSize(k)
  {
    if k == 0 then StoreU8(n) else if k == 1 then StoreU16(n) else StoreU32(n)
  }

  lemma FieldRoundTrip(n: nat, k: nat, rest: seq<Byte>)
    requires k < 3 && n < FieldLimit(k)
    ensures LoadField(StoreField(n, k) + rest, k) == n
  {
    LoadsIgnoreRest(StoreField(n, k), rest);
  }

  /** An opcode of the str, array or map family followed by its length field parses back. */
  lemma StrArrayMapField(op: Byte, k: nat, n: nat, extensions: bool, rest: seq<Byte>)
    requires k < 3 && n < FieldLimit(k)
    requires op == 0xd9 + k || (k >= 1 && (op == 0xdb + k || op == 0xdd + k))
    ensures ParseTag([op] + StoreField(n, k) + rest, extensions) ==
              Parsed(if op <= 0xdb then Str(n) else if op <= 0xdd then Array(n) else Map(n), 1 + FieldSize(k))
  {
    var p := [op] + StoreField(n, k) + rest;
    assert p[1..] == StoreField(n, k) + rest;
    FieldRoundTrip(n, k, rest);
    StrArrayMapParses(p, extensions);
  }

  /** A bin opcode followed by its length field parses back. */
  lemma BinField(k: nat, n: nat, extensions: bool, rest: seq<Byte>)
    requires k < 3 && n < FieldLimit(k)
    ensures ParseTag([0xc4 + k] + StoreField(n, k) + rest, extensions) == Parsed(Bin(n), 1 + FieldSize(k))
  {
    var p := [0xc4 + k] + StoreField(n, k) + rest;
    assert p[1..] == StoreField(n, k) + rest;
    FieldRoundTrip(n, k, rest);
    BinExtFloatParses(p, extensions);
  }

  /** An ext opcode followed by its length field and exttype parses back. */
  lemma ExtField(k: nat, n: nat, ty: I8, rest: seq<Byte>)
    requires k < 3 && n < FieldLimit(k)
    ensures ParseTag([0xc7 + k] + StoreField(n, k) + StoreI8(ty) + rest, true) == Parsed(Ext(ty, n), 2 + FieldSize(k))
  {
    var c := StoreField(n, k);
    var x := StoreI8(ty);
    var p := [0xc7 + k] + c + x + rest;
    ExtLayout(0xc7 + k, c, x, rest);
    FieldRoundTrip(n, k, x + rest);
    Load8IgnoresRest(x, rest);
    ExtDecodes(p, k);
    BinExtFloatParses(p, true);
  }

  /** Where the length field and the exttype of an ext header sit. */
  lemma ExtLayout(lead: Byte, c: seq<Byte>, x: seq<Byte>, rest: seq<Byte>)
    ensures var p := [lead] + c + x + rest;
      p[0] == lead && p[1..] == c + (x + rest) && p[1 + |c|..] == x + rest
  {
    var p := [lead] + c + x + rest;
    assert p[1..] == c + (x + rest);
    assert p[1 + |c|..] == x + rest;
  }

  /** An ext8/16/32 header decodes its length field, then its exttype. */
  lemma ExtDecodes(p: seq<Byte>, k: nat)
    requires k < 3 && |p| >= 2 + FieldSize(k) && p[0] == 0xc7 + k
    ensures DecodeBinExtFloat(p) == Ext(LoadI8(p[1 + FieldSize(k)..]), LoadField(p[1..], k))
  {
  }

  lemma StrRoundTrip(n: U32, v4: bool, extensions: bool, rest: seq<Byte>)
    ensures ParseTag(StrHeader(n, v4) + rest, extensions) == Parsed(Str(n), |StrHeader(n, v4)|)
  {
    if n > 31 {
      var k := if n <= 0xff && !v4 then 0 else if n <= 0xffff then 1 else 2;
      assert StrHeader(n, v4) == [0xd9 + k] + StoreField(n, k);
      StrArrayMapField(0xd9 + k, k, n, extensions, rest);
    }
  }

  lemma BinRoundTrip(n: U32, extensions: bool, rest: seq<Byte>)
    ensures ParseTag(BinHeader(n, false) + rest, extensions) == Parsed(Bin(n), |BinHeader(n, false)|)
  {
    var k := if n <= 0xff then 0 else if n <= 0xffff then 1 else 2;
    assert BinHeader(n, false) == [0xc4 + k] + StoreField(n, k);
    BinField(k, n, extensions, rest);
  }

  lemma ArrayRoundTrip(n: U32, extensions: bool, rest: seq<Byte>)
    ensures ParseTag(ArrayHeader(n) + rest, extensions) == Parsed(Array(n), |ArrayHeader(n)|)
  {
    if n > 15 {
      var k := if n <= 0xffff then 1 else 2;
      assert ArrayHeader(n) == [0xdb + k] + StoreField(n, k);
      StrArrayMapField(0xdb + k, k, n, extensions, rest);
    }
  }

  lemma MapRoundTrip(n: U32, extensions: bool, rest: seq<Byte>)
    ensures ParseTag(MapHeader(n) + rest, extensions) == Parsed(Map(n), |MapHeader(n)|)
  {
    if n > 15 {
      var k := if n <= 0xffff then 1 else 2;
      assert MapHeader(n) == [0xdd + k] + StoreField(n, k);
      StrArrayMapField(0xdd + k, k, n, extensions, rest);
    }
  }

  lemma ExtRoundTrip(ty: I8, n: U32, rest: seq<Byte>)
    ensures ParseTag(ExtHeader(ty, n) + rest, true) == Parsed(Ext(ty, n), |ExtHeader(ty, n)|)
  {
    var e := ExtHeader(ty, n);
    var x := StoreI8(ty);
    if n == 1 || n == 2 || n == 4 || n == 8 || n == 16 {
      assert e + rest == [e[0]] + (x + rest);
      LoadsIgnoreRest(x, rest);
    } else {
      var k := if n <= 0xff then 0 else if n <= 0xffff then 1 else 2;
      assert e == [0xc7 + k] + StoreField(n, k) + x;
      ExtField(k, n, ty, rest);
    }
  }

  // ---------------------------------------------------------------------
  // Minimality: no header that decodes to a value is shorter than the
  // writer's encoding of that value.
  // ---------------------------------------------------------------------

  lemma IntegerMinimal(p: seq<Byte>, extensions: bool)
    requires ParseTag(p, extensions).Parsed?
    requires ParseTag(p, extensions).tag.Int? || ParseTag(p, extensions).tag.Uint?
    ensures ParseTag(p, extensions).size >= |EncodeInteger(IntValue(ParseTag(p, extensions).tag))|
  {
    var r := ParseTag(p, extensions);
    if 0xcc <= p[0] <= 0xd3 {
      NumberParses(p, extensions);
      NumberMinimal(p);
    } else {
      IntegerSize(IntValue(r.tag));
    }
  }

  /** A uint or int header is at least as long as the writer's encoding of its value. */
  lemma NumberMinimal(p: seq<Byte>)
    requires |p| >= 1 && 0xcc <= p[0] <= 0xd3 && |p| >= HeaderSize(p[0])
    ensures HeaderSize(p[0]) >= |EncodeInteger(IntValue(DecodeNumber(p)))|
  {
    var lead := p[0];
    var v := IntValue(DecodeNumber(p));
    if lead <= 0xcf {
      var k := lead - 0xcc;
      assert v < Pow256(FieldSize(k)) by { Pow256Values(); }
      UnsignedSize(v, k);
    } else {
      var k := lead - 0xd0;
      assert -(Half(FieldSize(k)) as int) <= v < Half(FieldSize(k)) by { Pow256Values(); }
      SignedSize(v, k);
    }
  }

  lemma UnsignedSize(v: int, k: nat)
    requires k < 4 && 0 <= v < Pow256(FieldSize(k))
    ensures |EncodeInteger(v)| <= 1 + FieldSize(k)
  {
    Pow256Values();
    IntegerSize(v);
  }

  lemma SignedSize(v: int, k: nat)
    requires k < 4 && -(Half(FieldSize(k)) as int) <= v < Half(FieldSize(k))
    ensures |EncodeInteger(v)| <= 1 + FieldSize(k)
  {
    Pow256Values();
    IntegerSize(v);
  }

  /** How long the writer's encoding of an integer is, by its range. */
  lemma IntegerSize(v: int)
    requires -0x8000_0000_0000_0000 <= v < TWO_64
    ensures -32 <= v <= 127 ==> |EncodeInteger(v)| == 1
    ensures -0x80 <= v <= 0xff ==> |EncodeInteger(v)| <= 2
    ensures -0x8000 <= v <= 0xffff ==> |EncodeInteger(v)| <= 3
    ensures -0x8000_0000 <= v <= 0xffff_ffff ==> |EncodeInteger(v)| <= 5
  {
  }

  lemma CountMinimal(p: seq<Byte>, extensions: bool)
    requires ParseTag(p, extensions).Parsed?
    ensures var r := ParseTag(p, extensions);
      && (r.tag.Array? ==> r.size >= |ArrayHeader(r.tag.count)|)
      && (r.tag.Map? ==> r.size >= |MapHeader(r.tag.count)|)
      && (r.tag.Str? ==> r.size >= |StrHeader(r.tag.len, false)|)
      && (r.tag.Bin? ==> r.size >= |BinHeader(r.tag.len, false)|)
      && (r.tag.Ext? ==> r.size >= |ExtHeader(r.tag.exttype, r.tag.len)|)
  {
    var t := ParseTag(p, extensions).tag;
    if t.Array? || t.Map? || t.Str? {
      StrArrayMapMinimal(p, extensions);
    } else if t.Bin? || t.Ext? {
      BinExtMinimal(p, extensions);
    }
  }

  lemma StrArrayMapMinimal(p: seq<Byte>, extensions: bool)
    requires ParseTag(p, extensions).Parsed?
    ensures var r := ParseTag(p, extensions);
      && (r.tag.Array? ==> r.size >= |ArrayHeader(r.tag.count)|)
      && (r.tag.Map? ==> r.size >= |MapHeader(r.tag.count)|)
      && (r.tag.Str? ==> r.size >= |StrHeader(r.tag.len, false)|)
  {
    var lead := p[0];
    if 0xd9 <= lead <= 0xdf {
      StrArrayMapParses(p, extensions);
      var k := if lead <= 0xdb then lead - 0xd9 else if lead <= 0xdd then lead - 0xdb else lead - 0xdd;
      FieldMinimal(LoadField(p[1..], k), k);
    }
  }

  lemma BinExtMinimal(p: seq<Byte>, extensions: bool)
    requires ParseTag(p, extensions).Parsed?
    ensures var r := ParseTag(p, extensions);
      && (r.tag.Bin? ==> r.size >= |BinHeader(r.tag.len, false)|)
      && (r.tag.Ext? ==> r.size >= |ExtHeader(r.tag.exttype, r.tag.len)|)
  {
    var lead := p[0];
    if 0xc4 <= lead <= 0xc9 {
      BinExtFloatParses(p, extensions);
      var k := if lead <= 0xc6 then lead - 0xc4 else lead - 0xc7;
      FieldMinimal(LoadField(p[1..], k), k);
    }
  }

  /**
   * A count that fits a field of width `FieldSize(k)` has a header no longer
   * than that field's (arrays and maps have no 8-bit form).
   */
  lemma FieldMinimal(n: nat, k: nat)
    requires k < 3 && n < FieldLimit(k)
    ensures k >= 1 ==> |ArrayHeader(n)| <= 1 + FieldSize(k) && |MapHeader(n)| <= 1 + FieldSize(k)
    ensures |StrHeader(n, false)| <= 1 + FieldSize(k) && |BinHeader(n, false)| <= 1 + FieldSize(k)
    ensures forall t: I8 :: |ExtHeader(t, n)| <= 2 + FieldSize(k)
  {
  }

  // ---------------------------------------------------------------------
  // The timestamp extension (exttype -1)
  // ---------------------------------------------------------------------

  datatype Timestamp = Timestamp(seconds: I64, nanoseconds: U32)

  const TWO_34: nat := 0x4_0000_0000

  /**
   * The payload `bjd_write_timestamp` picks: 12 bytes (nanoseconds, then
   * signed seconds) when the seconds are negative or need more than 34 bits,
   * 8 bytes (nanoseconds in the top 30 bits, seconds in the low 34) when the
   * seconds exceed 32 bits or there are nanoseconds, else 4 bytes of seconds.
   */
  function PackTimestamp(ts: Timestamp): (r: seq<Byte>)
    requires ts.nanoseconds <= TIMESTAMP_NANOSECONDS_MAX
    ensures |r| in {4, 8, 12}
  {
    if ts.seconds < 0 || ts.seconds >= TWO_34 then
      StoreU32(ts.nanoseconds) + StoreI64(ts.seconds)
    else if ts.seconds > 0xffff_ffff || ts.nanoseconds > 0 then
      StoreU64(ts.nanoseconds * TWO_34 + ts.seconds)
    else
      StoreU32(ts.seconds)
  }

  /** The whole timestamp object: its ext header followed by the payload. */
  function EncodeTimestamp(ts: Timestamp): (r: seq<Byte>)
    requires ts.nanoseconds <= TIMESTAMP_NANOSECONDS_MAX
  {
    var payload := PackTimestamp(ts);
    ExtHeader(EXTTYPE_TIMESTAMP, |payload|) + payload
  }

  /** The three forms use fixext4, fixext8 and ext8 headers, as the writer's encoders do. */
  lemma TimestampHeaders(ts: Timestamp)
    requires ts.nanoseconds <= TIMESTAMP_NANOSECONDS_MAX
    ensures var h := EncodeTimestamp(ts)[..|EncodeTimestamp(ts)| - |PackTimestamp(ts)|];
      && (|PackTimestamp(ts)| == 4 ==> h == [0xd6, 0xff])
      && (|PackTimestamp(ts)| == 8 ==> h == [0xd7, 0xff])
      && (|PackTimestamp(ts)| == 12 ==> h == [0xc7, 12, 0xff])
  {
    var payload := PackTimestamp(ts);
    var e := EncodeTimestamp(ts);
    assert e[..|e| - |payload|] == ExtHeader(EXTTYPE_TIMESTAMP, |payload|);
    assert StoreI8(-1) == [0xff] by {
      assert LoadI8(StoreI8(-1)) == -1;
    }
    assert StoreU8(12) == [12];
  }

  /**
   * Reading a timestamp payload (bjd-reader.c:1038-1067, bjd-node.c:1423-1454):
   * Invalid for a size other than 4, 8 or 12 and for nanoseconds past
   * 999,999,999.
   */
  function UnpackTimestamp(p: seq<Byte>): (r: Result<Timestamp, Error>)
    ensures r.Failure? ==> r.error == Invalid
    ensures r.Success? ==> r.value.nanoseconds <= TIMESTAMP_NANOSECONDS_MAX
    ensures !(|p| == 4 || |p| == 8 || |p| == 12) ==> r.Failure?
  {
    if |p| == 4 then
      Success(Timestamp(LoadU32(p), 0))
    else if |p| == 8 then
      var packed := LoadU64(p);
      var ts := Timestamp(packed % TWO_34, packed / TWO_34);
      if ts.nanoseconds > TIMESTAMP_NANOSECONDS_MAX then Failure(Invalid) else Success(ts)
    else if |p| == 12 then
      var ts := Timestamp(LoadI64(p[4..]), LoadU32(p));
      if ts.nanoseconds > TIMESTAMP_NANOSECONDS_MAX then Failure(Invalid) else Success(ts)
    else Failure(Invalid)
  }

  /** Packing then unpacking gives back the timestamp. */
  lemma TimestampRoundTrip(ts: Timestamp)
    requires ts.nanoseconds <= TIMESTAMP_NANOSECONDS_MAX
    ensures UnpackTimestamp(PackTimestamp(ts)) == Success(ts)
  {
    if ts.seconds < 0 || ts.seconds >= TWO_34 {
      LongRoundTrip(ts);
    } else if ts.seconds > 0xffff_ffff || ts.nanoseconds > 0 {
      PackedRoundTrip(ts.nanoseconds, ts.seconds);
    }
  }

  /** The 12-byte form: nanoseconds, then the signed seconds. */
  lemma LongRoundTrip(ts: Timestamp)
    requires ts.nanoseconds <= TIMESTAMP_NANOSECONDS_MAX
    ensures UnpackTimestamp(StoreU32(ts.nanoseconds) + StoreI64(ts.seconds)) == Success(ts)
  {
    var a := StoreU32(ts.nanoseconds);
    var b := StoreI64(ts.seconds);
    var p := a + b;
    assert p[..4] == a[..4];
    assert p[4..] == b;
    assert LoadU32(p) == LoadU32(a);
  }

  /** The 8-byte form: nanoseconds in the upper 30 bits, seconds in the lower 34. */
  lemma PackedRoundTrip(ns: nat, s: nat)
    requires ns <= TIMESTAMP_NANOSECONDS_MAX && s < TWO_34
    ensures UnpackTimestamp(StoreU64(ns * TWO_34 + s)) == Success(Timestamp(s, ns))
  {
    PackedSplit(ns, s);
  }

  lemma PackedSplit(ns: nat, s: nat)
    requires s < TWO_34
    ensures (ns * TWO_34 + s) % TWO_34 == s
    ensures (ns * TWO_34 + s) / TWO_34 == ns
  {
  }

  /** Whatever payload decodes to a timestamp, the writer's payload for it is no longer. */
  lemma TimestampMinimal(p: seq<Byte>)
    requires UnpackTimestamp(p).Success?
    ensures |PackTimestamp(UnpackTimestamp(p).value)| <= |p|
  {
  }

  /** A bad payload the reader rejects: a nanosecond count of 10^9 in the 8-byte form. */
  lemma TimestampRejectsPacked()
    ensures UnpackTimestamp(StoreU64(1_000_000_000 * TWO_34)) == Failure(Invalid)
  {
    PackedSplit(1_000_000_000, 0);
  }

  /** A bad payload the reader rejects: a nanosecond count of 10^9 in the 12-byte form, whatever the seconds. */
  lemma TimestampRejectsLong(s: I64)
    ensures UnpackTimestamp(StoreU32(1_000_000_000) + StoreI64(s)) == Failure(Invalid)
  {
    var p := StoreU32(1_000_000_000) + StoreI64(s);
    assert p[..4] == StoreU32(1_000_000_000)[..4];
    assert LoadU32(p) == 1_000_000_000;
  }
}
