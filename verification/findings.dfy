/**
 * Three places where the source rejects a message it should accept, each
 * shown on a concrete stream: once with the source's logic as written, once
 * with the corrected logic the rest of the model uses. Two are the node
 * tree's limits; the third is the string match on a signed-char target.
 */
module Findings {
  import opened Bytes
  import opened Wrappers
  import opened Errors
  import opened Tags
  import Objects
  import Wire
  import opened Tree
  import Reader
  import Expect
  import Types
  import Track

  // ---------------------------------------------------------------------
  // The size limit counts buffered bytes twice (bjd-node.c:91-95)
  // ---------------------------------------------------------------------

  /** A 10-byte message: a str8 header declaring 8 bytes, then the 8 bytes. */
  function Str8Message(): seq<Byte> {
    [0xd9, 0x08] + seq(8, _ => 0)
  }

  /**
   * A streaming tree with a size limit of 10, midway through the str8 node:
   * its 2-byte header has arrived and the 8 payload bytes are still with
   * the read function. The node reserved its length field and its payload,
   * 9 bytes, of which 1 is already buffered.
   */
  function Str8Midway(): Tree {
    Tree([0xd9, 0x08], seq(8, _ => 0), true, 10, 10, 10, 0x1_0000_0000, None,
         0, 1, 1, 9, [Unparsed], [Level(0, 1)], InProgress, Ok, [], true)
  }

  /** The message is one complete object of 10 bytes, and the limits admit 10 bytes. */
  lemma Str8Fits()
    ensures Str8Midway().Whole() == Str8Message()
    ensures Objects.ObjectEnd(Str8Message(), 0, true) == Some(10)
    ensures Str8Midway().Valid() && Str8Midway().Roomy(10)
  {
    var m := Str8Message();
    assert m[0..][0] == 0xd9 && m[0..][1] == 0x08;
    assert Str8Midway().Whole() == m;
  }

  /** As written, filling the reservation fails with TooBig: 2 buffered bytes plus 9 reserved pass the limit of 10. */
  lemma Str8TooBigAsWritten()
    ensures var (t', ok) := ReserveFillAsWritten(Str8Midway()); !ok && t'.err == TooBig
  {
  }

  /** Corrected, the fill reads the payload and the reservation is covered by the whole message. */
  lemma Str8Filled()
    ensures var (t', ok) := ReserveFill(Str8Midway());
      ok && t'.err == Ok && t'.data == Str8Message() && t'.possible == 9
  {
    var (t', ok) := ReserveFill(Str8Midway());
    assert t'.Whole() == Str8Message();
  }

  // ---------------------------------------------------------------------
  // The node count grows before the children are reserved (bjd-node.c:282-292)
  // ---------------------------------------------------------------------

  /**
   * A streaming tree with a limit of 3 nodes that has read the first byte of
   * the message [0x92, 0x01, 0x02], a fixarray of two, and is parsing its
   * root: one node counted, no byte possible, nothing more available yet.
   */
  function ArrayStart(): Tree {
    Tree([0x92], [], true, 10, 10, 3, 0x1_0000_0000, None,
         0, 1, 0, 0, [Unparsed], [Level(0, 1)], InProgress, Ok, [], true)
  }

  /** The rest of the message arrives; the node's parse restarts from nothing reserved. */
  function Resumed(t: Tree): Tree {
    t.(pending := t.pending + [0x01, 0x02], reserved := 0)
  }

  /** The whole message is 3 nodes, exactly the limit. */
  lemma ArrayFits()
    ensures Objects.ObjectEnd([0x92, 0x01, 0x02], 0, true) == Some(3)
    ensures ArrayStart().Valid() && Resumed(ArrayStart()).Whole() == [0x92, 0x01, 0x02]
  {
    var m: seq<Byte> := [0x92, 0x01, 0x02];
    FixarrayParses(m);
    Objects.ObjectEndParsed(m, 0, Array(2), 1, true);
    FixintEnds(m, 1);
    Objects.ObjectsFirst(m, 1, 1, 2, true);
    FixintEnds(m, 2);
    Objects.ObjectsFirst(m, 2, 0, 3, true);
    assert Resumed(ArrayStart()).Whole() == m;
  }

  /** 0x92 opens an array of two in one byte. */
  lemma FixarrayParses(m: seq<Byte>)
    requires |m| >= 1 && m[0] == 0x92
    ensures Wire.ParseTag(m[0..], true) == Wire.Parsed(Array(2), 1)
  {
    assert m[0..] == m;
  }

  /** A positive fixint is an object of one byte. */
  lemma FixintEnds(m: seq<Byte>, i: nat)
    requires i < |m| && m[i] < 0x80
    ensures Objects.ObjectEnd(m, i, true) == Some(i + 1)
  {
    assert m[i..][0] == m[i];
  }

  /**
   * As written: the first attempt counts the two children, then stalls for
   * data; once the data is there the second attempt counts them again, 5
   * nodes past the limit of 3, and the message is rejected as TooBig.
   */
  method ArrayTooBigAsWritten() returns (t': Tree, ok: bool)
    ensures !ok && t'.err == TooBig
  {
    var t := ArrayStart();
    var t1, ok1 := ParseChildrenAsWritten(t, Array(2), 0);
    assert !ok1 && t1.err == Ok && t1.nodeCount == 3;
    t', ok := ParseChildrenAsWritten(Resumed(t1), Array(2), 0);
  }

  /**
   * Corrected: the stalled attempt leaves the count at 1, and the resumed
   * one reserves, carves and counts the two children, 3 nodes in all.
   */
  method ArrayParsed() returns (t': Tree, ok: bool)
    ensures ok && t'.err == Ok && t'.nodeCount == 3
  {
    var t := ArrayStart();
    var t1, ok1 := ParseChildren(t, Array(2), 0);
    assert !ok1 && t1.err == Ok && t1.nodeCount == 1 && |t1.data| == 1 + t1.possible;
    t', ok := ParseChildren(Resumed(t1), Array(2), 0);
  }

  // ---------------------------------------------------------------------
  // A string match compares a byte with a plain char (bjd-expect.c:655)
  // ---------------------------------------------------------------------

  // ---------------------------------------------------------------------
  // The byte comparison on a signed-char target (bjd-expect.c:654-659)
  // ---------------------------------------------------------------------

  /** Every byte is below 0x80, where a signed and an unsigned `char` agree. */
  predicate Ascii(s: seq<Byte>) {
    forall i | 0 <= i < |s| :: s[i] < 0x80
  }

  /**
   * The value a plain `char` holding byte c promotes to where `char` is
   * signed, as on x86 with gcc, clang and MSVC: bytes from 0x80 up become
   * negative.
   */
  function SignedChar(c: Byte): (v: int)
    ensures -0x80 <= v < 0x80
    ensures v == c as int <==> c < 0x80
    ensures v < 0 <==> c >= 0x80
  {
    if c < 0x80 then c as int else c as int - 0x100
  }

  /**
   * The loop of `bjd_expect_str_match` as written, on a signed-char target:
   * each byte read, a `uint8_t` in 0..255, is compared with the promoted
   * `*str`, so no byte from 0x80 up can ever match. The loop stops at the
   * first mismatch with Type; a failed read yields 0 and its own error.
   */
  function MatchBytesSignedChar(r: Reader.Reader, str: seq<Byte>): (r': Reader.Reader)
    requires r.Valid()
    ensures r'.Valid()
    ensures r'.err == Ok <==>
      r.err == Ok && r.data + |str| <= |r.input| && r.input[r.data..r.data + |str|] == str && Ascii(str)
    ensures r'.err == Ok ==> r.Continues(r') && r'.data == r.data + |str| && r'.track == r.track
    ensures r.err == Ok && r.data + |str| <= |r.input| && r.input[r.data..r.data + |str|] == str && !Ascii(str)
      ==> r'.err == Type
    decreases |str|
  {
    if |str| == 0 then r
    else
      var (r2, b) := Expect.NativeU8(r);
      if b as int != SignedChar(str[0]) then
        SignedCharMismatch(r, r2, b, str);
        Reader.FlagError(r2, Type)
      else
        var r' := MatchBytesSignedChar(r2, str[1..]);
        SignedCharStep(r, r2, b, str, r');
        r'
  }

  /** A byte that does not compare equal: the input does not hold `str`, or `str` has a byte from 0x80 up. */
  lemma SignedCharMismatch(r: Reader.Reader, r2: Reader.Reader, b: Byte, str: seq<Byte>)
    requires r.Valid() && |str| > 0 && (r2, b) == Expect.NativeU8(r) && b as int != SignedChar(str[0])
    ensures !(r.err == Ok && r.data + |str| <= |r.input| && r.input[r.data..r.data + |str|] == str && Ascii(str))
    ensures r.err == Ok && r.data + |str| <= |r.input| && r.input[r.data..r.data + |str|] == str ==> r2.err == Ok
  {
    if r.err == Ok && r.data + |str| <= |r.input| && r.input[r.data..r.data + |str|] == str {
      assert b == r.input[r.data] == str[0];
      assert !Ascii(str);
    }
  }

  /** One matching byte: the input holds `str` exactly when it holds its first byte and then the rest. */
  lemma SignedCharStep(r: Reader.Reader, r2: Reader.Reader, b: Byte, str: seq<Byte>, r': Reader.Reader)
    requires r.Valid() && |str| > 0 && (r2, b) == Expect.NativeU8(r) && b as int == SignedChar(str[0])
    requires r'.err == Ok <==>
      r2.err == Ok && r2.data + |str| - 1 <= |r2.input| && r2.input[r2.data..r2.data + |str| - 1] == str[1..] && Ascii(str[1..])
    requires r2.err == Ok && r2.data + |str| - 1 <= |r2.input| && r2.input[r2.data..r2.data + |str| - 1] == str[1..] && !Ascii(str[1..])
      ==> r'.err == Type
    ensures r'.err == Ok <==>
      r.err == Ok && r.data + |str| <= |r.input| && r.input[r.data..r.data + |str|] == str && Ascii(str)
    ensures r.err == Ok && r.data + |str| <= |r.input| && r.input[r.data..r.data + |str|] == str && !Ascii(str)
      ==> r'.err == Type
  {
    assert str == [str[0]] + str[1..];
    assert Ascii(str) <==> str[0] < 0x80 && Ascii(str[1..]) by {
      forall i | 0 < i < |str| ensures str[i] == str[1..][i - 1] { }
    }
    if r.err == Ok && r.data < |r.input| {
      assert r2.err == Ok && r2.input == r.input && r2.data == r.data + 1 && b == r.input[r.data];
      assert b == str[0] && str[0] < 0x80;
      if r.data + |str| <= |r.input| {
        assert r.input[r.data..r.data + |str|] == [r.input[r.data]] + r2.input[r2.data..r2.data + |str| - 1];
      }
    } else if r.err == Ok {
      assert r.data + |str| > |r.input|;
    }
  }

  /**
   * `bjd_expect_str_match` as written, on a signed-char target: the header
   * half as in `ExpectStrMatch`, then the signed comparison. It accepts
   * only strings below 0x80, and rejects with Type a str that does hold
   * the expected bytes when one of them is 0x80 or above.
   */
  function ExpectStrMatchSignedChar(r: Reader.Reader, str: seq<Byte>): (r': Reader.Reader)
    requires r.Valid()
    ensures r'.Valid()
    ensures r'.err == Ok <==> Expect.NextTag(r).Str? && Expect.PayloadPresent(r) && Expect.Payload(r) == str && Ascii(str)
    ensures Expect.NextTag(r).Str? && Expect.PayloadPresent(r) && Expect.Payload(r) == str && !Ascii(str) ==> r'.err == Type
  {
    var r1 := Expect.StrMatchHeader(r, str);
    if r1.err != Ok then r1
    else
      var rs := Reader.TrackBytes(r1, |str|);
      var rm := MatchBytesSignedChar(rs, str);
      var r' := Reader.DoneType(rm, Types.Str);
      SignedCharEnd(r, r1, str, rs, rm, r');
      r'
  }

  /** The tail of `ExpectStrMatchSignedChar`: StrMatchEnd, with the signed comparison's extra failures. */
  lemma SignedCharEnd(r: Reader.Reader, r1: Reader.Reader, str: seq<Byte>, rs: Reader.Reader, rm: Reader.Reader, r': Reader.Reader)
    requires r.Valid() && r1 == Expect.StrMatchHeader(r, str) && r1.err == Ok
    requires rs == Reader.TrackBytes(r1, |str|) && rm == MatchBytesSignedChar(rs, str) && r' == Reader.DoneType(rm, Types.Str)
    ensures r'.err == Ok <==> Expect.NextTag(r).Str? && Expect.PayloadPresent(r) && Expect.Payload(r) == str && Ascii(str)
    ensures Expect.NextTag(r).Str? && Expect.PayloadPresent(r) && Expect.Payload(r) == str && !Ascii(str) ==> r'.err == Type
  {
    Track.BytesThenPop(Expect.Counted(r), Types.Str, |str|, |str|);
    assert rs.err == Ok && rs.input == r1.input && rs.data == r1.data;
    if Ascii(str) {
      Expect.StrMatchEnd(r, r1, str, rs, rm, r');
    } else {
      SignedCharHigh(rs, str);
      if Expect.PayloadPresent(r) && Expect.Payload(r) == str {
        HeldAfterHeader(r, r1, str, rs);
      }
    }
  }

  /** A str holding exactly `str`: after its header, the input holds `str`. */
  lemma HeldAfterHeader(r: Reader.Reader, r1: Reader.Reader, str: seq<Byte>, rs: Reader.Reader)
    requires r.Valid() && r1 == Expect.StrMatchHeader(r, str) && r1.err == Ok
    requires rs.input == r1.input && rs.data == r1.data
    requires Expect.PayloadPresent(r) && Expect.Payload(r) == str
    ensures rs.data + |str| <= |rs.input| && rs.input[rs.data..rs.data + |str|] == str
  {
    assert Expect.NextTag(r).Str? && Expect.NextTag(r).len == |str|;
    assert Expect.Consumed(r, r1, Expect.NextSize(r));
    Expect.PayloadAt(r, r1);
  }

  /** With a byte from 0x80 up the comparison fails, with Type when the input holds exactly `str`. */
  lemma SignedCharHigh(rs: Reader.Reader, str: seq<Byte>)
    requires rs.Valid() && rs.err == Ok && !Ascii(str)
    ensures Reader.DoneType(MatchBytesSignedChar(rs, str), Types.Str).err != Ok
    ensures rs.data + |str| <= |rs.input| && rs.input[rs.data..rs.data + |str|] == str
      ==> Reader.DoneType(MatchBytesSignedChar(rs, str), Types.Str).err == Type
  {
    var rm := MatchBytesSignedChar(rs, str);
    assert rm.err != Ok;
    assert Reader.DoneType(rm, Types.Str) == rm;
  }

  /** `a2 c3 a9`: a fixstr holding "é", the two bytes c3 a9 of its UTF-8 form. */
  function EAcuteMessage(): seq<Byte> {
    [0xa2, 0xc3, 0xa9]
  }

  /** The expected string, those same two bytes. */
  function EAcute(): seq<Byte> {
    [0xc3, 0xa9]
  }

  /** The message is one complete 3-byte object: a 2-byte str whose payload is exactly "é". */
  lemma EAcuteIsStr()
    ensures var r := Reader.InitData(EAcuteMessage(), true, true);
      Expect.NextTag(r) == Str(2) && Expect.NextSize(r) == 1
      && Expect.PayloadPresent(r) && Expect.Payload(r) == EAcute()
    ensures Objects.ObjectEnd(EAcuteMessage(), 0, true) == Some(3)
  {
    var r := Reader.InitData(EAcuteMessage(), true, true);
    assert r.Remaining() == EAcuteMessage();
    assert EAcuteMessage()[0..][0] == 0xa2;
  }

  /** As written, on a signed-char target, the match of "é" against that message fails with Type. */
  lemma StrMatchSignedCharRejects()
    ensures ExpectStrMatchSignedChar(Reader.InitData(EAcuteMessage(), true, true), EAcute()).err == Type
  {
    EAcuteIsStr();
    assert !Ascii(EAcute()) by { assert EAcute()[0] >= 0x80; }
  }

  /** Corrected, comparing bytes with bytes, `Expect.ExpectStrMatch` accepts it: its success condition holds. */
  lemma StrMatchAccepted()
    ensures var r := Reader.InitData(EAcuteMessage(), true, true);
      Expect.NextTag(r).Str? && Expect.PayloadPresent(r) && Expect.Payload(r) == EAcute()
  {
    EAcuteIsStr();
  }
}
