/**
 * The UTF-8 validator (`bjd_utf8_check_impl`, bjd-common.c:548-636) and its
 * wrappers, checked against the well-formed UTF-8 grammar of section 4 of
 * RFC 3629.
 */
module Utf8 {
  import opened Bytes

  // The reference: the byte-range grammar of RFC 3629, section 4.

  /** Byte j exists and lies in [lo, hi]. */
  predicate InRange(s: seq<Byte>, j: nat, lo: int, hi: int) {
    j < |s| && lo <= s[j] <= hi
  }

  /** UTF8-tail = %x80-BF */
  predicate Tail(s: seq<Byte>, j: nat) {
    InRange(s, j, 0x80, 0xBF)
  }

  /**
   * The length of the UTF8-char that starts at i according to the grammar,
   * or 0 when no well-formed character starts there.
   */
  function CharLength(s: seq<Byte>, i: nat): (n: nat)
    requires i < |s|
    ensures n <= 4 && i + n <= |s|
  {
    var b := s[i];
    if b <= 0x7F then 1
    else if 0xC2 <= b <= 0xDF then
      (if Tail(s, i + 1) then 2 else 0)
    else if b == 0xE0 then
      (if InRange(s, i + 1, 0xA0, 0xBF) && Tail(s, i + 2) then 3 else 0)
    else if 0xE1 <= b <= 0xEC || 0xEE <= b <= 0xEF then
      (if Tail(s, i + 1) && Tail(s, i + 2) then 3 else 0)
    else if b == 0xED then
      (if InRange(s, i + 1, 0x80, 0x9F) && Tail(s, i + 2) then 3 else 0)
    else if b == 0xF0 then
      (if InRange(s, i + 1, 0x90, 0xBF) && Tail(s, i + 2) && Tail(s, i + 3) then 4 else 0)
    else if 0xF1 <= b <= 0xF3 then
      (if Tail(s, i + 1) && Tail(s, i + 2) && Tail(s, i + 3) then 4 else 0)
    else if b == 0xF4 then
      (if InRange(s, i + 1, 0x80, 0x8F) && Tail(s, i + 2) && Tail(s, i + 3) then 4 else 0)
    else 0
  }

  /** `s[i..]` is a sequence of UTF8-char productions. */
  predicate WellFormedFrom(s: seq<Byte>, i: nat)
    requires i <= |s|
    decreases |s| - i
  {
    i == |s| || (CharLength(s, i) > 0 && WellFormedFrom(s, i + CharLength(s, i)))
  }

  predicate WellFormed(s: seq<Byte>) {
    WellFormedFrom(s, 0)
  }

  /** No zero byte in `s[i..]`. */
  predicate NoNullFrom(s: seq<Byte>, i: nat) {
    forall k | i <= k < |s| :: s[k] != 0
  }

  // The validator as the C loop runs it: one iteration per sequence, with the
  // masks written arithmetically (`lead & 0xE0` is `lead / 0x20 * 0x20`,
  // `lead & ~0xE0` is `lead % 0x20`, and so on).

  /** `(c & 0xC0) == 0x80`: a continuation byte. */
  predicate IsContinuation(c: Byte) {
    c / 0x40 == 2
  }

  /**
   * The loop of `bjd_utf8_check_impl` from position i on. It decodes each
   * sequence's code point z and rejects overlong forms, surrogates and code
   * points past U+10FFFF; without `allowNull` it also rejects a NUL lead.
   * The result is exactly RFC 3629 well-formedness (with no zero byte when
   * NUL is not allowed).
   */
  function CheckFrom(s: seq<Byte>, i: nat, allowNull: bool): (ok: bool)
    requires i <= |s|
    ensures ok <==> WellFormedFrom(s, i) && (allowNull || NoNullFrom(s, i))
    decreases |s| - i
  {
    if i == |s| then true
    else
      var lead: int := s[i];
      var count := |s| - i;
      if !allowNull && lead == 0 then false
      else if lead <= 0x7F then
        CheckFrom(s, i + 1, allowNull)
      else if lead / 0x20 == 6 then
        if count < 2 then false
        else if !IsContinuation(s[i + 1]) then false
        else
          var z := (lead % 0x20) * 0x40 + (s[i + 1] as int) % 0x40;
          if z < 0x80 then false
          else
            Step(s, i, 2, allowNull);
            CheckFrom(s, i + 2, allowNull)
      else if lead / 0x10 == 14 then
        if count < 3 then false
        else if !IsContinuation(s[i + 1]) then false
        else if !IsContinuation(s[i + 2]) then false
        else
          var z := (lead % 0x10) * 0x1000 + ((s[i + 1] as int) % 0x40) * 0x40 + (s[i + 2] as int) % 0x40;
          if z < 0x800 then false
          else if 0xD800 <= z <= 0xDFFF then false
          else
            Step(s, i, 3, allowNull);
            CheckFrom(s, i + 3, allowNull)
      else if lead / 0x08 == 30 then
        if count < 4 then false
        else if !IsContinuation(s[i + 1]) then false
        else if !IsContinuation(s[i + 2]) then false
        else if !IsContinuation(s[i + 3]) then false
        else
          var z := (lead % 0x08) * 0x4_0000 + ((s[i + 1] as int) % 0x40) * 0x1000
                   + ((s[i + 2] as int) % 0x40) * 0x40 + (s[i + 3] as int) % 0x40;
          if z < 0x1_0000 then false
          else if z > 0x10_FFFF then false
          else
            Step(s, i, 4, allowNull);
            CheckFrom(s, i + 4, allowNull)
      else false
  }

  /**
   * The bytes of an accepted sequence of length n are not zero, so skipping
   * them changes neither well-formedness nor the absence of NUL.
   */
  lemma Step(s: seq<Byte>, i: nat, n: nat, allowNull: bool)
    requires i < |s| && i + n <= |s| && n >= 1
    requires CharLength(s, i) == n
    requires forall k | i < k < i + n :: s[k] >= 0x80
    requires s[i] != 0
    ensures WellFormedFrom(s, i) <==> WellFormedFrom(s, i + n)
    ensures NoNullFrom(s, i) <==> NoNullFrom(s, i + n)
  {
  }

  /** `bjd_utf8_check`: well-formed UTF-8, NUL allowed. */
  function Check(s: seq<Byte>): (ok: bool)
    ensures ok <==> WellFormed(s)
  {
    CheckFrom(s, 0, true)
  }

  /** `bjd_utf8_check_no_null`: well-formed UTF-8 without any zero byte. */
  function CheckNoNull(s: seq<Byte>): (ok: bool)
    ensures ok <==> WellFormed(s) && NoNullFrom(s, 0)
  {
    CheckFrom(s, 0, false)
  }

  /** `bjd_str_check_no_null` (bjd-common.c:644-651): no byte is zero. */
  function StrCheckNoNull(s: seq<Byte>): (ok: bool)
    ensures ok <==> forall k | 0 <= k < |s| :: s[k] != 0
  {
    NoNullFrom'(s, 0)
  }

  function NoNullFrom'(s: seq<Byte>, i: nat): (ok: bool)
    requires i <= |s|
    ensures ok <==> NoNullFrom(s, i)
    decreases |s| - i
  {
    if i == |s| then true
    else if s[i] == 0 then false
    else NoNullFrom'(s, i + 1)
  }

  /** The no-NUL check is the plain check combined with the string NUL scan. */
  lemma CheckNoNullSplits(s: seq<Byte>)
    ensures CheckNoNull(s) <==> Check(s) && StrCheckNoNull(s)
  {
  }

  /** A well-formed string can be cut between any two characters. */
  lemma {:induction false} WellFormedConcat(a: seq<Byte>, b: seq<Byte>)
    requires WellFormed(a) && WellFormed(b)
    ensures WellFormed(a + b)
  {
    ConcatFrom(a, b, 0);
  }

  lemma {:induction false} ConcatFrom(a: seq<Byte>, b: seq<Byte>, i: nat)
    requires i <= |a| && WellFormedFrom(a, i) && WellFormed(b)
    ensures WellFormedFrom(a + b, i)
    decreases |a| - i
  {
    if i == |a| {
      ShiftFrom(a, b, 0);
    } else {
      var n := CharLength(a, i);
      assert CharLength(a + b, i) == n by { CharLengthPrefix(a, b, i); }
      ConcatFrom(a, b, i + n);
    }
  }

  /** A character wholly inside a reads the same inside a + b. */
  lemma CharLengthPrefix(a: seq<Byte>, b: seq<Byte>, i: nat)
    requires i < |a| && CharLength(a, i) > 0
    ensures CharLength(a + b, i) == CharLength(a, i)
  {
    var s := a + b;
    forall j | 0 <= j < |a|
      ensures s[j] == a[j]
    {
    }
  }

  /** Well-formedness of b read from the start is well-formedness of a + b from |a|. */
  lemma {:induction false} ShiftFrom(a: seq<Byte>, b: seq<Byte>, j: nat)
    requires j <= |b| && WellFormedFrom(b, j)
    ensures WellFormedFrom(a + b, |a| + j)
    decreases |b| - j
  {
    if j < |b| {
      var s := a + b;
      var n := CharLength(b, j);
      assert CharLength(s, |a| + j) == n by {
        forall k | j <= k < |b|
          ensures s[|a| + k] == b[k]
        {
        }
      }
      ShiftFrom(a, b, j + n);
    }
  }

  // The rejections the validator's comments name, on concrete inputs.

  lemma RejectsMalformed()
    ensures !Check([0xC2])                          // truncated sequence
    ensures !Check([0xC2, 0x41])                    // bad continuation byte
    ensures !Check([0x80])                          // stray continuation byte
    ensures !Check([0xF8, 0x88, 0x80, 0x80, 0x80])  // five-byte lead
  {
  }

  lemma RejectsOverlong()
    ensures !Check([0xC0, 0x80])                    // overlong NUL
    ensures !Check([0xE0, 0x9F, 0xBF])              // overlong three-byte form
    ensures !Check([0xF0, 0x8F, 0xBF, 0xBF])        // overlong four-byte form
  {
  }

  lemma RejectsOutOfRange()
    ensures !Check([0xED, 0xA0, 0x80])              // surrogate U+D800
    ensures !Check([0xF4, 0x90, 0x80, 0x80])        // U+110000
    ensures Check([0xF4, 0x8F, 0xBF, 0xBF])         // U+10FFFF
    ensures Check([0x00]) && !CheckNoNull([0x00])
  {
  }
}
