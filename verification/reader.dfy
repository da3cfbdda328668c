/**
 * The streaming reader (bjd-reader.c, bjd-reader.h).
 *
 * The C reader keeps a window `data..end` of valid bytes in a buffer and
 * refills it from a fill function. The model names every byte the reader
 * will ever see by its offset in one stream, `input`: the bytes the buffer
 * held at initialisation followed by everything the fill function will
 * deliver. `data` is the offset of the next unread byte and `end` the offset
 * one past the last byte taken into the buffer, so the window is
 * `input[data..end]` and the fill function still holds `input[end..]`. Moving
 * the unread bytes to the front of the buffer does not change these offsets,
 * which is why the model has no operation for it. The fill function delivers
 * as many bytes as are asked for and available on each call, and 0 once it
 * has nothing left.
 */
module Reader {
  import opened Bytes
  import opened Wrappers
  import opened Errors
  import opened Tags
  import Types
  import Track
  import Wire
  import Utf8
  import Objects

  /** `BJDATA_READER_MINIMUM_BUFFER_SIZE` (bjd-reader.h:69): a fill function needs at least this much room. */
  const MINIMUM_BUFFER_SIZE: nat := 32

  /** `BJDATA_READER_SMALL_FRACTION_DENOMINATOR` (bjd-reader.h:44). */
  const SMALL_FRACTION_DENOMINATOR: nat := 32

  datatype Reader = Reader(
    input: seq<Byte>,      // the whole stream: initial buffer contents, then what the fill function delivers
    data: nat,             // offset of the next unread byte
    end: nat,              // offset one past the last byte in the buffer
    size: nat,             // buffer size; 0 for a reader over caller data (`bjd_reader_init_data`)
    hasFill: bool,         // a fill function is installed
    err: Error,
    reported: seq<Error>,  // the errors the error callback has been called with
    track: Track.Tracker,
    tracking: bool,        // BJDATA_READ_TRACKING
    extensions: bool)      // BJDATA_EXTENSIONS
  {
    predicate Valid() {
      && data <= end <= |input|
      && (!hasFill ==> end == |input|)
      && (hasFill ==> size >= MINIMUM_BUFFER_SIZE)
      && (size > 0 ==> end - data <= size)
      && (err != Ok ==> data == end == |input|)
      && |reported| <= 1
      && (|reported| == 1 ==> reported[0] == err && err != Ok)
    }

    /** Bytes in the buffer not yet read (`end - data`). */
    function Window(): nat {
      if data <= end then end - data else 0
    }

    /** Everything still to be read, in order. */
    function Remaining(): seq<Byte> {
      if data <= |input| then input[data..] else []
    }

    /** r' is this reader moved on: only the offsets and the tracker differ. */
    predicate Continues(r': Reader) {
      r' == this.(data := r'.data, end := r'.end, track := r'.track)
    }

    /** The reader after consuming `n` more bytes of the same input. */
    predicate Advanced(r': Reader, n: nat) {
      r'.input == input && r'.data == data + n
    }
  }

  function Zeros(n: nat): (z: seq<Byte>)
    ensures |z| == n && forall k | 0 <= k < n :: z[k] == 0
  {
    seq(n, _ => 0)
  }

  // ---------------------------------------------------------------------
  // Construction
  // ---------------------------------------------------------------------

  /**
   * `bjd_reader_init` (bjd-reader.c:30-41): a buffer of `size` bytes of
   * which the first |bytes| are valid.
   */
  function Init(bytes: seq<Byte>, size: nat, tracking: bool, extensions: bool): (r: Reader)
    requires |bytes| <= size
    ensures r.Valid() && r.err == Ok && r.Remaining() == bytes && r.Window() == |bytes|
  {
    Reader(bytes, 0, |bytes|, size, false, Ok, [], Track.Empty, tracking, extensions)
  }

  /** `bjd_reader_init_data` (bjd-reader.c:55-68): reads straight from the caller's bytes. */
  function InitData(bytes: seq<Byte>, tracking: bool, extensions: bool): (r: Reader)
    ensures r.Valid() && r.err == Ok && r.Remaining() == bytes && r.size == 0 && !r.hasFill
  {
    Reader(bytes, 0, |bytes|, 0, false, Ok, [], Track.Empty, tracking, extensions)
  }

  /** `bjd_reader_init_error` (bjd-reader.c:47-53): starts in the given error, without a callback. */
  function InitError(e: Error, tracking: bool, extensions: bool): (r: Reader)
    ensures r.Valid() && r.err == e && r.reported == [] && r.Remaining() == []
  {
    Reader([], 0, 0, 0, false, e, [], Track.Empty, tracking, extensions)
  }

  /**
   * `bjd_reader_set_fill` (bjd-reader.c:70-87): refused with Bug for a
   * reader over caller data or a buffer under 32 bytes, so that every tag
   * fits in the buffer. `more` is what the fill function will deliver. The
   * C function also installs the fill on a reader already in error; here it
   * stays off then, which nothing can observe, since a reader in error
   * reads nothing more.
   */
  function SetFill(r: Reader, more: seq<Byte>): (r': Reader)
    requires r.Valid() && !r.hasFill
    ensures r'.Valid()
    ensures r'.hasFill <==> r.err == Ok && r.size >= MINIMUM_BUFFER_SIZE
    ensures r'.hasFill ==> r'.Remaining() == r.Remaining() + more
    ensures r.size < MINIMUM_BUFFER_SIZE ==> r'.err == (if r.err == Ok then Bug else r.err)
  {
    if r.size < MINIMUM_BUFFER_SIZE then FlagError(r, Bug)
    else if r.err != Ok then r
    else r.(input := r.input + more, hasFill := true)
  }

  // ---------------------------------------------------------------------
  // Errors
  // ---------------------------------------------------------------------

  /**
   * `bjd_reader_flag_error` (bjd-reader.c:211-220): only the first error is
   * kept and reported, and it empties the window so nothing more can be
   * read. The bytes still owed by the fill function are dropped too: no
   * operation reads them once an error is set.
   */
  function FlagError(r: Reader, e: Error): (r': Reader)
    requires r.Valid() && e != Ok
    ensures r'.Valid()
    ensures r'.err == (if r.err == Ok then e else r.err)
    ensures r'.reported == (if r.err == Ok then [e] else r.reported)
    ensures r'.Remaining() == [] && r'.data == r.data
    ensures r'.track == r.track && r'.size == r.size && r'.hasFill == r.hasFill
    ensures r'.tracking == r.tracking && r'.extensions == r.extensions
  {
    if r.err == Ok then
      r.(err := e, input := r.input[..r.data], end := r.data, reported := r.reported + [e])
    else r
  }

  /** `bjd_reader_flag_if_error` (bjd-reader.h:417-421): Ok is ignored; returns the resulting error. */
  function FlagIfError(r: Reader, e: Error): (res: (Reader, Error))
    requires r.Valid()
    ensures res.0.Valid() && res.1 == res.0.err
    ensures e == Ok ==> res.0 == r
    ensures e != Ok ==> res.0 == FlagError(r, e)
  {
    var r' := if e != Ok then FlagError(r, e) else r;
    (r', r'.err)
  }

  /** A second error neither replaces the first nor reaches the callback again. */
  lemma FirstErrorWins(r: Reader, a: Error, b: Error)
    requires r.Valid() && r.err == Ok && a != Ok && b != Ok
    ensures FlagError(FlagError(r, a), b).err == a
    ensures FlagError(FlagError(r, a), b).reported == [a]
  {
  }

  // ---------------------------------------------------------------------
  // Filling the buffer
  // ---------------------------------------------------------------------

  /**
   * `bjd_fill_range` (bjd-reader.c:224-246): takes between `min` and `max`
   * bytes from the fill function into the buffer. Fewer than `min` available
   * is Io.
   */
  function Fetch(r: Reader, min: nat, max: nat): (r': Reader)
    requires r.Valid() && r.err == Ok && r.hasFill && 1 <= min <= max
    requires r.end - r.data + max <= r.size
    ensures r'.Valid() && r'.track == r.track
    ensures r'.err == Ok <==> min <= |r.input| - r.end
    ensures r'.err != Ok ==> r'.err == Io
    ensures r'.err == Ok ==>
              && r' == r.(end := r'.end)
              && r.end + min <= r'.end <= r.end + max
              && (r'.end < r.end + max ==> r'.end == |r.input|)
  {
    var avail := |r.input| - r.end;
    if avail < min then FlagError(r, Io)
    else r.(end := r.end + if avail < max then avail else max)
  }

  /**
   * `bjd_reader_ensure` (bjd-reader.h:905-912) and `bjd_reader_ensure_straddle`
   * (bjd-reader.c:248-288): makes `count` bytes available in the window.
   * Without a fill function a short window is Invalid; a request larger than
   * the buffer is TooBig; otherwise the unread bytes move to the front of the
   * buffer and the rest of it is filled, Io when the input runs out.
   */
  function Ensure(r: Reader, count: nat): (res: (Reader, bool))
    requires r.Valid() && r.err == Ok && count >= 1
    ensures res.0.Valid() && res.0.track == r.track
    ensures res.1 <==> res.0.err == Ok
    ensures res.1 <==>
              count <= r.Window() || (r.hasFill && count <= r.size && count <= |r.Remaining()|)
    ensures res.1 ==> res.0 == r.(end := res.0.end) && res.0.Window() >= count
    ensures !res.1 ==> res.0.err == (if !r.hasFill then Invalid else if count > r.size then TooBig else Io)
    ensures count <= r.Window() ==> res.0 == r
  {
    if count <= r.end - r.data then (r, true)
    else EnsureStraddle(r, count)
  }

  function EnsureStraddle(r: Reader, count: nat): (res: (Reader, bool))
    requires r.Valid() && r.err == Ok && count > r.Window()
    ensures res.0.Valid() && res.0.track == r.track
    ensures res.1 <==> res.0.err == Ok
    ensures res.1 <==> r.hasFill && count <= r.size && count <= |r.Remaining()|
    ensures res.1 ==> res.0 == r.(end := res.0.end) && res.0.Window() >= count
    ensures !res.1 ==> res.0.err == (if !r.hasFill then Invalid else if count > r.size then TooBig else Io)
  {
    if !r.hasFill then (FlagError(r, Invalid), false)
    else if count > r.size then (FlagError(r, TooBig), false)
    else
      var left := r.end - r.data;
      var r' := Fetch(r, count - left, r.size - left);
      (r', r'.err == Ok)
  }

  /**
   * `bjd_read_native` (bjd-reader.h:918-927) and `bjd_read_native_straddle`
   * (bjd-reader.c:292-360): the next `count` bytes of the input. A read the
   * window cannot serve takes what is buffered, then either refills the
   * buffer (for a small fraction of its size) or reads the rest straight into
   * the destination. After a failure the model's destination holds zeros.
   */
  function ReadNative(r: Reader, count: nat): (res: (Reader, seq<Byte>))
    requires r.Valid()
    ensures res.0.Valid() && |res.1| == count && res.0.track == r.track
    ensures res.0.err == Ok ==> r.err == Ok && r.Continues(res.0) && r.Advanced(res.0, count) && res.1 == r.input[r.data..r.data + count]
    ensures r.err == Ok ==>
              (res.0.err == Ok <==> count <= r.Window() || (r.hasFill && count <= |r.Remaining()|))
    ensures r.err == Ok && res.0.err != Ok ==> res.0.err == (if !r.hasFill then Invalid else Io)
    ensures r.err == Ok && count <= r.Window() ==> res.0 == r.(data := r.data + count)
  {
    if r.err == Ok && count <= r.end - r.data then
      (r.(data := r.data + count), r.input[r.data..r.data + count])
    else ReadNativeStraddle(r, count)
  }

  function ReadNativeStraddle(r: Reader, count: nat): (res: (Reader, seq<Byte>))
    requires r.Valid()
    ensures res.0.Valid() && |res.1| == count && res.0.track == r.track
    ensures res.0.err == Ok ==> r.err == Ok && r.Continues(res.0) && r.Advanced(res.0, count) && res.1 == r.input[r.data..r.data + count]
    ensures r.err == Ok ==>
              (res.0.err == Ok <==> count > r.Window() && r.hasFill && count <= |r.Remaining()|)
    ensures r.err == Ok && res.0.err != Ok ==>
              res.0.err == (if count <= r.Window() then Bug else if !r.hasFill then Invalid else Io)
  {
    if r.err != Ok then (r, Zeros(count))
    else if count <= r.end - r.data then (FlagError(r, Bug), Zeros(count))
    else if !r.hasFill then (FlagError(r, Invalid), Zeros(count))
    else
      // The `size == 0` check that follows in the C code cannot fire here: a
      // fill function is only ever installed on a buffer of 32 bytes or more.
      var r' := ReadFromFill(r.(data := r.end), count - (r.end - r.data));
      if r'.err != Ok then (r', Zeros(count))
      else (r', r.input[r.data..r.data + count])
  }

  /**
   * The rest of a straddling read once the window is empty: a small fraction
   * of the buffer is read by filling the buffer and copying out of it, a
   * larger amount straight from the fill function.
   */
  function ReadFromFill(r: Reader, need: nat): (r': Reader)
    requires r.Valid() && r.err == Ok && r.hasFill && r.data == r.end && need >= 1
    ensures r'.Valid() && r'.track == r.track
    ensures r'.err == Ok <==> need <= |r.input| - r.end
    ensures r'.err == Ok ==> r.Advanced(r', need)
    ensures r'.err != Ok ==> r'.err == Io
  {
    if need <= r.size / SMALL_FRACTION_DENOMINATOR then
      var r1 := Fetch(r, need, r.size);
      if r1.err != Ok then r1 else r1.(data := r.data + need)
    else
      FetchDirect(r, need)
  }

  /**
   * `bjd_fill_range` into the caller's destination: exactly `n` bytes go
   * past the buffer, which stays empty.
   */
  function FetchDirect(r: Reader, n: nat): (r': Reader)
    requires r.Valid() && r.err == Ok && r.hasFill && r.data == r.end && n >= 1
    ensures r'.Valid() && r'.track == r.track
    ensures r'.err == Ok <==> n <= |r.input| - r.end
    ensures r'.err == Ok ==> r.Advanced(r', n) && r'.end == r'.data
    ensures r'.err != Ok ==> r'.err == Io
  {
    if |r.input| - r.end < n then FlagError(r, Io)
    else r.(data := r.end + n, end := r.end + n)
  }

  /** `bjd_should_read_bytes_inplace` (bjd-reader.h:708-710). */
  function ShouldReadInplace(r: Reader, count: nat): (b: bool)
    ensures b <==> r.size == 0 || count * SMALL_FRACTION_DENOMINATOR <= r.size
  {
    FractionBound(count, r.size);
    r.size == 0 || count <= r.size / SMALL_FRACTION_DENOMINATOR
  }

  lemma FractionBound(count: nat, size: nat)
    ensures count <= size / 32 <==> count * 32 <= size
  {
  }

  // ---------------------------------------------------------------------
  // Tracking wrappers (bjd-reader.h:930-952, bjd-reader.c:1071-1074)
  // ---------------------------------------------------------------------

  /** Applies a tracker step, flagging its error; nothing happens without tracking or in error. */
  function Tracked(r: Reader, step: Result<Track.Tracker, Error>): (r': Reader)
    requires r.Valid()
    ensures r'.Valid()
    ensures r.err != Ok || !r.tracking ==> r' == r
    ensures r.err == Ok && r.tracking && step.Success? ==> r' == r.(track := step.value)
    ensures r.err == Ok && r.tracking && step.Failure? && step.error != Ok ==> r' == FlagError(r, step.error)
  {
    if r.err != Ok || !r.tracking then r
    else if step.Success? then r.(track := step.value)
    else if step.error != Ok then FlagError(r, step.error)
    else r
  }

  /** `bjd_reader_track_element`. */
  function TrackElement(r: Reader): (r': Reader)
    requires r.Valid()
    ensures r'.Valid()
    ensures r'.err == Ok <==> r.err == Ok && (!r.tracking || Track.PeekElement(r.track) == Ok)
    ensures r'.err == Ok ==> r' == r.(track := if r.tracking then Track.Element(r.track).value else r.track)
  {
    Tracked(r, Track.Element(r.track))
  }

  /** `bjd_reader_track_peek_element`. */
  function TrackPeekElement(r: Reader): (r': Reader)
    requires r.Valid()
    ensures r'.Valid()
    ensures r'.err == Ok <==> r.err == Ok && (!r.tracking || Track.PeekElement(r.track) == Ok)
    ensures r'.err == Ok ==> r' == r
  {
    if r.err != Ok || !r.tracking then r
    else FlagIfError(r, Track.PeekElement(r.track)).0
  }

  /** `bjd_reader_track_bytes`. */
  function TrackBytes(r: Reader, count: nat): (r': Reader)
    requires r.Valid()
    ensures r'.Valid()
    ensures r'.err == Ok <==> r.err == Ok && (!r.tracking || Track.TrackBytes(r.track, count).Success?)
    ensures r'.err == Ok ==> r' == r.(track := if r.tracking then Track.TrackBytes(r.track, count).value else r.track)
  {
    Tracked(r, Track.TrackBytes(r.track, count))
  }

  /** `bjd_reader_track_str_bytes_all`. */
  function TrackStrBytesAll(r: Reader, count: nat): (r': Reader)
    requires r.Valid()
    ensures r'.Valid()
    ensures r'.err == Ok <==> r.err == Ok && (!r.tracking || Track.StrBytesAll(r.track, count).Success?)
    ensures r'.err == Ok ==> r' == r.(track := if r.tracking then Track.StrBytesAll(r.track, count).value else r.track)
  {
    Tracked(r, Track.StrBytesAll(r.track, count))
  }

  /** `bjd_done_type` and the `bjd_done_*` wrappers: closes the open container of that type. */
  function DoneType(r: Reader, kind: Types.Type): (r': Reader)
    requires r.Valid()
    ensures r'.Valid()
    ensures r'.err == Ok <==> r.err == Ok && (!r.tracking || Track.Pop(r.track, kind).Success?)
    ensures r'.err == Ok ==> r' == r.(track := if r.tracking then Track.Pop(r.track, kind).value else r.track)
  {
    Tracked(r, Track.Pop(r.track, kind))
  }

  // ---------------------------------------------------------------------
  // Tags
  // ---------------------------------------------------------------------

  /**
   * `bjd_parse_tag` (bjd-reader.c:579-921) on the reader: makes the first
   * byte available, rejects 0xc1 (Invalid) and, without extensions, the ext
   * opcodes (Unsupported), makes the whole header available and decodes it.
   * Returns the header size, 0 on failure. Nothing is consumed.
   */
  function ParseHeader(r: Reader): (res: (Reader, Tag, nat))
    requires r.Valid() && r.err == Ok
    ensures res.0.Valid() && res.0.track == r.track
    ensures res.2 == 0 <==> res.0.err != Ok
    ensures res.2 > 0 ==> Parses(r, res.0, res.1, res.2)
    ensures res.2 == 0 ==> ParseFails(r, res.0.err)
  {
    var (r1, ok) := Ensure(r, 1);
    if !ok then (r1, Nil, 0)
    else ParseBuffered(r1)
  }

  /** The header of `n` bytes at the front of the input decodes to `t`, and it is all in the window. */
  predicate Parses(r: Reader, r': Reader, t: Tag, n: nat) {
    && r' == r.(end := r'.end)
    && r'.Window() >= n
    && Wire.ParseTag(r.Remaining(), r.extensions) == Wire.Parsed(t, n)
  }

  /**
   * No header can be parsed from the input, and `e` is the error for it: the
   * lead byte's error, or for a truncated header Invalid without a fill
   * function and Io with one.
   */
  predicate ParseFails(r: Reader, e: Error) {
    match Wire.ParseTag(r.Remaining(), r.extensions)
    case Parsed(_, _) => false
    case Failed(e') => e == e'
    case Short(_) => e == (if !r.hasFill then Invalid else Io)
  }

  /** `bjd_parse_tag` once the lead byte is in the window. */
  function ParseBuffered(r: Reader): (res: (Reader, Tag, nat))
    requires r.Valid() && r.err == Ok && r.Window() >= 1
    ensures res.0.Valid() && res.0.track == r.track
    ensures res.2 == 0 <==> res.0.err != Ok
    ensures res.2 > 0 ==> Parses(r, res.0, res.1, res.2)
    ensures res.2 == 0 ==> ParseFails(r, res.0.err)
  {
    var lead := r.input[r.data];
    assert r.Remaining()[0] == lead;
    if lead == 0xc1 then (FlagError(r, Invalid), Nil, 0)
    else if !r.extensions && Wire.IsExtOpcode(lead) then (FlagError(r, Unsupported), Nil, 0)
    else DecodeBuffered(r, Wire.HeaderSize(lead))
  }

  /** `bjd_parse_tag` once the lead byte is known to be valid: the header of `n` bytes. */
  function DecodeBuffered(r: Reader, n: nat): (res: (Reader, Tag, nat))
    requires r.Valid() && r.err == Ok && r.Window() >= 1
    requires !Wire.IsBadLead(r.input[r.data], r.extensions) && n == Wire.HeaderSize(r.input[r.data])
    ensures res.0.Valid() && res.0.track == r.track
    ensures res.2 == 0 <==> res.0.err != Ok
    ensures res.2 > 0 ==> Parses(r, res.0, res.1, res.2)
    ensures res.2 == 0 ==> ParseFails(r, res.0.err)
  {
    var lead := r.input[r.data];
    assert r.Remaining()[0] == lead;
    var (r2, ok) := Ensure(r, n);
    if !ok then (r2, Nil, 0)
    else
      assert r.data + n <= r2.end <= |r.input|;
      var header := r.input[r.data..r.data + n];
      assert header[0] == lead;
      assert r.Remaining() == r.input[r.data..];
      assert r.input[r.data..] == header + r.input[r.data + n..];
      Wire.ParseIgnoresRest(header, r.input[r.data + n..], r.extensions);
      (r2, Wire.DecodeHeader(header), n)
  }

  /**
   * `bjd_read_tag` (bjd-reader.c:923-964): counts one element against the
   * open container, parses the header, opens a tracker frame for a str, bin,
   * ext, array or map of the declared length, and consumes exactly the
   * header. Nil on any failure.
   */
  function ReadTag(r: Reader): (res: (Reader, Tag))
    requires r.Valid()
    ensures res.0.Valid()
    ensures res.0.err != Ok ==> res.1 == Nil
    ensures res.0.err == Ok <==>
              && r.err == Ok
              && (!r.tracking || Track.PeekElement(r.track) == Ok)
              && Wire.ParseTag(r.Remaining(), r.extensions).Parsed?
    ensures res.0.err == Ok ==>
              && r.Continues(res.0) && r.data < res.0.data
              && Wire.ParseTag(r.Remaining(), r.extensions) == Wire.Parsed(res.1, res.0.data - r.data)
              && res.0.track == (if r.tracking then Track.PushFor(Track.Element(r.track).value, res.1) else r.track)
  {
    if r.err != Ok then (r, Nil)
    else
      var r1 := TrackElement(r);
      if r1.err != Ok then (r1, Nil)
      else ReadCountedTag(r1)
  }

  /** `bjd_read_tag` once the element is counted: parse, open a frame, consume the header. */
  function ReadCountedTag(r: Reader): (res: (Reader, Tag))
    requires r.Valid() && r.err == Ok
    ensures res.0.Valid()
    ensures res.0.err != Ok ==> res.1 == Nil
    ensures res.0.err == Ok <==> Wire.ParseTag(r.Remaining(), r.extensions).Parsed?
    ensures res.0.err == Ok ==>
              && r.Continues(res.0) && r.data < res.0.data
              && Wire.ParseTag(r.Remaining(), r.extensions) == Wire.Parsed(res.1, res.0.data - r.data)
              && res.0.track == (if r.tracking then Track.PushFor(r.track, res.1) else r.track)
  {
    var (r2, t, n) := ParseHeader(r);
    if n == 0 then (r2, Nil)
    else
      var track := if r2.tracking then Track.PushFor(r2.track, t) else r2.track;
      (r2.(track := track, data := r2.data + n), t)
  }

  /**
   * `bjd_peek_tag` (bjd-reader.c:966-979): the tag `bjd_read_tag` would
   * return, without consuming it or counting an element.
   */
  function PeekTag(r: Reader): (res: (Reader, Tag))
    requires r.Valid()
    ensures res.0.Valid() && res.0.track == r.track
    ensures res.0.err != Ok ==> res.1 == Nil
    ensures res.0.err == Ok <==>
              && r.err == Ok
              && (!r.tracking || Track.PeekElement(r.track) == Ok)
              && Wire.ParseTag(r.Remaining(), r.extensions).Parsed?
    ensures res.0.err == Ok ==>
              res.0 == r.(end := res.0.end) && Wire.ParseTag(r.Remaining(), r.extensions).tag == res.1
  {
    if r.err != Ok then (r, Nil)
    else
      var r1 := TrackPeekElement(r);
      if r1.err != Ok then (r1, Nil)
      else
        var (r2, t, n) := ParseHeader(r1);
        if n == 0 then (r2, Nil) else (r2, t)
  }

  /** Peeking and then reading yields the same tag, and the peek consumed nothing. */
  lemma PeekThenRead(r: Reader)
    requires r.Valid()
    ensures var (r1, t1) := PeekTag(r);
      r1.err == Ok ==> ReadTag(r1).0.err == Ok && ReadTag(r1).1 == t1 && ReadTag(r1).0.input == r.input
  {
    var (r1, t1) := PeekTag(r);
    if r1.err == Ok {
      assert r1.Remaining() == r.Remaining();
    }
  }

  // ---------------------------------------------------------------------
  // Payload bytes
  // ---------------------------------------------------------------------

  /** `bjd_read_bytes` (bjd-reader.c:439-443): counts the bytes against the open str/bin/ext, then reads them. */
  function ReadBytes(r: Reader, count: nat): (res: (Reader, seq<Byte>))
    requires r.Valid()
    ensures res.0.Valid() && |res.1| == count
    ensures res.0.err == Ok ==> r.Continues(res.0) && r.Advanced(res.0, count) && res.1 == r.input[r.data..r.data + count]
    ensures res.0.err == Ok <==>
              r.err == Ok && (!r.tracking || Track.TrackBytes(r.track, count).Success?) && r.data + count <= |r.input|
    ensures res.0.err == Ok ==> res.0.track == (if r.tracking then Track.TrackBytes(r.track, count).value else r.track)
  {
    WithinInput(r, count);
    ReadNative(TrackBytes(r, count), count)
  }

  /** A read the window cannot serve can only be served by the fill function, so either way the input must hold it. */
  lemma WithinInput(r: Reader, count: nat)
    requires r.Valid()
    ensures count <= r.Window() || (r.hasFill && count <= |r.Remaining()|) <==> r.data + count <= |r.input|
  {
  }

  /** `bjd_read_utf8` (bjd-reader.c:445-451): a whole string that must be valid UTF-8, else Type. */
  function ReadUtf8(r: Reader, count: nat): (res: (Reader, seq<Byte>))
    requires r.Valid()
    ensures res.0.Valid() && |res.1| == count
    ensures res.0.err == Ok ==>
              r.Advanced(res.0, count) && res.1 == r.input[r.data..r.data + count] && Utf8.WellFormed(res.1)
    ensures r.err == Ok && !r.tracking && count <= r.Window() ==>
              (res.0.err == Ok <==> Utf8.WellFormed(r.input[r.data..r.data + count]))
  {
    var (r1, bytes) := ReadNative(TrackStrBytesAll(r, count), count);
    Utf8Verdict(r, count, r1, bytes)
  }

  /** The tail of `bjd_read_utf8`: bytes read without error that are not valid UTF-8 flag Type. */
  function Utf8Verdict(r: Reader, count: nat, r1: Reader, bytes: seq<Byte>): (res: (Reader, seq<Byte>))
    requires r.Valid() && r1.Valid() && |bytes| == count
    requires r1.err == Ok ==> r.Advanced(r1, count) && bytes == r.input[r.data..r.data + count]
    requires r.err == Ok && !r.tracking && count <= r.Window() ==> r1.err == Ok
    ensures res.0.Valid() && |res.1| == count
    ensures res.0.err == Ok ==>
              r.Advanced(res.0, count) && res.1 == r.input[r.data..r.data + count] && Utf8.WellFormed(res.1)
    ensures r.err == Ok && !r.tracking && count <= r.Window() ==>
              (res.0.err == Ok <==> Utf8.WellFormed(r.input[r.data..r.data + count]))
  {
    if r1.err == Ok && !Utf8.Check(bytes) then (FlagError(r1, Type), bytes)
    else (r1, bytes)
  }

  /**
   * `bjd_read_bytes_inplace` (bjd-reader.c:541-565): the next `count` bytes,
   * counted against the open str/bin/ext, handed out where they lie in the
   * buffer. All of them must fit in the buffer at once: with a fill function
   * a larger count is TooBig. After a failure the model's result is zeros
   * (the C function returns NULL).
   */
  function ReadBytesInplace(r: Reader, count: nat): (res: (Reader, seq<Byte>))
    requires r.Valid()
    ensures res.0.Valid() && |res.1| == count
    ensures res.0.err == Ok <==>
              && r.err == Ok && (!r.tracking || Track.TrackBytes(r.track, count).Success?)
              && r.data + count <= |r.input| && (r.hasFill ==> count <= r.size)
    ensures res.0.err == Ok ==>
              && r.Continues(res.0) && res.0.data == r.data + count && res.1 == r.input[r.data..r.data + count]
              && res.0.track == (if r.tracking then Track.TrackBytes(r.track, count).value else r.track)
  {
    InplaceUntracked(TrackBytes(r, count), count)
  }

  /** `bjd_read_utf8_inplace` (bjd-reader.c:567-576): a whole string in place, which must be valid UTF-8, else Type. */
  function ReadUtf8Inplace(r: Reader, count: nat): (res: (Reader, seq<Byte>))
    requires r.Valid()
    ensures res.0.Valid() && |res.1| == count
    ensures res.0.err == Ok <==>
              && r.err == Ok && (!r.tracking || Track.StrBytesAll(r.track, count).Success?)
              && r.data + count <= |r.input| && (r.hasFill ==> count <= r.size)
              && Utf8.WellFormed(r.input[r.data..r.data + count])
    ensures res.0.err == Ok ==> r.Continues(res.0) && res.0.data == r.data + count && res.1 == r.input[r.data..r.data + count]
  {
    var (r1, bytes) := InplaceUntracked(TrackStrBytesAll(r, count), count);
    if r1.err == Ok && !Utf8.Check(bytes) then (FlagError(r1, Type), bytes)
    else (r1, bytes)
  }

  /**
   * `bjd_read_bytes_inplace_notrack` (bjd-reader.c:541-560): straight from
   * the window when it holds `count` bytes, otherwise after making them
   * available with `bjd_reader_ensure`.
   */
  function InplaceUntracked(r: Reader, count: nat): (res: (Reader, seq<Byte>))
    requires r.Valid()
    ensures res.0.Valid() && |res.1| == count
    ensures res.0.err == Ok <==> r.err == Ok && r.data + count <= |r.input| && (r.hasFill ==> count <= r.size)
    ensures res.0.err == Ok ==>
              r.Continues(res.0) && res.0.data == r.data + count && res.1 == r.input[r.data..r.data + count]
    ensures r.err == Ok && res.0.err != Ok ==>
              res.0.err == (if !r.hasFill then Invalid else if count > r.size then TooBig else Io)
  {
    if r.err != Ok then (r, Zeros(count))
    else if count <= r.end - r.data then (r.(data := r.data + count), r.input[r.data..r.data + count])
    else
      var (r1, ok) := Ensure(r, count);
      if !ok then (r1, Zeros(count))
      else (r1.(data := r1.data + count), r1.input[r1.data..r1.data + count])
  }

  /**
   * `bjd_read_cstr_unchecked` (bjd-reader.c:454-472): a string of `count`
   * bytes into a buffer of `bufsize` bytes that must also hold the
   * terminator. The result is the string left in the buffer: empty
   * (`buf[0] = 0`) when the reader is already in error or the string does
   * not fit (TooBig).
   */
  function ReadCstrUnchecked(r: Reader, bufsize: nat, count: nat): (res: (Reader, seq<Byte>))
    requires r.Valid() && bufsize >= 1
    ensures res.0.Valid()
    ensures r.err != Ok ==> res == (r, [])
    ensures r.err == Ok && count > bufsize - 1 ==> res.0.err == TooBig && res.1 == []
    ensures res.0.err == Ok ==>
              && count < bufsize && |res.1| == count
              && r.Continues(res.0) && r.Advanced(res.0, count) && res.1 == r.input[r.data..r.data + count]
    ensures res.0.err == Ok <==>
              && r.err == Ok && count < bufsize && r.data + count <= |r.input|
              && (!r.tracking || Track.StrBytesAll(r.track, count).Success?)
    ensures res.0.err == Ok ==> res.0.track == (if r.tracking then Track.StrBytesAll(r.track, count).value else r.track)
  {
    if r.err != Ok then (r, [])
    else if count > bufsize - 1 then (FlagError(r, TooBig), [])
    else
      WithinInput(r, count);
      ReadNative(TrackStrBytesAll(r, count), count)
  }

  /** `bjd_read_cstr` (bjd-reader.c:474-482): as above, and a zero byte in the string is Type. */
  function ReadCstr(r: Reader, bufsize: nat, count: nat): (res: (Reader, seq<Byte>))
    requires r.Valid() && bufsize >= 1
    ensures res.0.Valid()
    ensures r.err == Ok && count > bufsize - 1 ==> res.0.err == TooBig && res.1 == []
    ensures res.0.err == Ok ==>
              && count < bufsize
              && r.Continues(res.0) && r.Advanced(res.0, count) && res.1 == r.input[r.data..r.data + count]
              && Utf8.NoNullFrom(res.1, 0)
    ensures res.0.err != Ok ==> res.1 == []
    ensures res.0.err == Ok <==>
              && r.err == Ok && count < bufsize && r.data + count <= |r.input|
              && (!r.tracking || Track.StrBytesAll(r.track, count).Success?)
              && Utf8.NoNullFrom(r.input[r.data..r.data + count], 0)
    ensures res.0.err == Ok ==> res.0.track == (if r.tracking then Track.StrBytesAll(r.track, count).value else r.track)
  {
    var (r1, bytes) := ReadCstrUnchecked(r, bufsize, count);
    if r1.err == Ok && !Utf8.StrCheckNoNull(bytes) then (FlagError(r1, Type), [])
    else if r1.err != Ok then (r1, [])
    else (r1, bytes)
  }

  /** `bjd_read_utf8_cstr` (bjd-reader.c:484-493): as `ReadCstr`, and the string must be valid UTF-8. */
  function ReadUtf8Cstr(r: Reader, bufsize: nat, count: nat): (res: (Reader, seq<Byte>))
    requires r.Valid() && bufsize >= 1
    ensures res.0.Valid()
    ensures r.err == Ok && count > bufsize - 1 ==> res.0.err == TooBig && res.1 == []
    ensures res.0.err == Ok ==>
              && count < bufsize
              && r.Continues(res.0) && r.Advanced(res.0, count) && res.1 == r.input[r.data..r.data + count]
              && Utf8.WellFormed(res.1) && Utf8.NoNullFrom(res.1, 0)
    ensures res.0.err != Ok ==> res.1 == []
    ensures res.0.err == Ok <==>
              && r.err == Ok && count < bufsize && r.data + count <= |r.input|
              && (!r.tracking || Track.StrBytesAll(r.track, count).Success?)
              && Utf8.CheckNoNull(r.input[r.data..r.data + count])
    ensures res.0.err == Ok ==> res.0.track == (if r.tracking then Track.StrBytesAll(r.track, count).value else r.track)
  {
    var (r1, bytes) := ReadCstrUnchecked(r, bufsize, count);
    if r1.err == Ok && !Utf8.CheckNoNull(bytes) then (FlagError(r1, Type), [])
    else if r1.err != Ok then (r1, [])
    else (r1, bytes)
  }

  /**
   * `bjd_skip_bytes` (bjd-reader.c:393-409) with `bjd_skip_bytes_straddle`
   * (366-391): drops `count` bytes of input. Without a fill function a short
   * window is Invalid. (When the tracker rejects the bytes the C code carries
   * on into the straddle path of a reader that is already in error, whose
   * only effect is on the fill function; the model stops there.)
   */
  function SkipBytes(r: Reader, count: nat): (r': Reader)
    requires r.Valid()
    ensures r'.Valid()
    ensures r'.err == Ok ==> r.err == Ok && r.Advanced(r', count) && r.Continues(r')
    ensures r.err == Ok ==>
              (r'.err == Ok <==>
                 && (!r.tracking || Track.TrackBytes(r.track, count).Success?)
                 && (count <= r.Window() || (r.hasFill && count <= |r.Remaining()|)))
    ensures r'.err == Ok ==> r'.track == (if r.tracking then Track.TrackBytes(r.track, count).value else r.track)
    ensures r.err == Ok && r'.err != Ok && (!r.tracking || Track.TrackBytes(r.track, count).Success?) ==>
              r'.err == (if !r.hasFill then Invalid else Io)
  {
    if r.err != Ok then r
    else
      var r1 := TrackBytes(r, count);
      if r1.err != Ok then r1
      else if count <= r1.end - r1.data then r1.(data := r1.data + count)
      else if !r1.hasFill then FlagError(r1, Invalid)
      else SkipUsingFill(r1.(data := r1.end), count - (r1.end - r1.data))
  }

  /**
   * `bjd_reader_skip_using_fill` (bjd-reader.c:411-437): fills and discards
   * whole buffers while more than a buffer is owed, then fills once more and
   * skips into the window.
   */
  function SkipUsingFill(r: Reader, count: nat): (r': Reader)
    requires r.Valid() && r.err == Ok && r.hasFill && r.data == r.end && count >= 1
    ensures r'.Valid() && r'.track == r.track
    ensures r'.err == Ok <==> count <= |r.input| - r.end
    ensures r'.err == Ok ==> r.Advanced(r', count) && r.Continues(r')
    ensures r'.err != Ok ==> r'.err == Io
    decreases count
  {
    if count > r.size then
      var r1 := Fetch(r, r.size, r.size);
      if r1.err != Ok then r1
      else SkipUsingFill(r1.(data := r1.end), count - r.size)
    else
      var r1 := Fetch(r, count, r.size);
      if r1.err != Ok then r1 else r1.(data := r.data + count)
  }

  // ---------------------------------------------------------------------
  // Timestamps
  // ---------------------------------------------------------------------

  /**
   * `bjd_read_timestamp` (bjd-reader.c:1025-1068): the payload of a
   * timestamp ext whose header has been read, closing the ext. Invalid for a
   * size other than 4, 8 or 12 and for nanoseconds past 999,999,999; the
   * result is then {0, 0}.
   */
  function ReadTimestamp(r: Reader, size: nat): (res: (Reader, Wire.Timestamp))
    requires r.Valid()
    ensures res.0.Valid()
    ensures res.0.err != Ok ==> res.1 == Wire.Timestamp(0, 0)
    ensures r.err == Ok && !(size == 4 || size == 8 || size == 12) ==> res.0.err == Invalid
    ensures res.0.err == Ok ==>
              && r.Advanced(res.0, size)
              && Wire.UnpackTimestamp(r.input[r.data..r.data + size]) == Success(res.1)
    ensures r.err == Ok && !r.tracking && size <= r.Window() && (size == 4 || size == 8 || size == 12) ==>
              (res.0.err == Ok <==> Wire.UnpackTimestamp(r.input[r.data..r.data + size]).Success?)
  {
    if !(size == 4 || size == 8 || size == 12) then (FlagError(r, Invalid), Wire.Timestamp(0, 0))
    else TimestampPayload(r, size)
  }

  /** The payload of a timestamp of a valid size: read, the ext closed, then unpacked. */
  function TimestampPayload(r: Reader, size: nat): (res: (Reader, Wire.Timestamp))
    requires r.Valid() && (size == 4 || size == 8 || size == 12)
    ensures res.0.Valid()
    ensures res.0.err != Ok ==> res.1 == Wire.Timestamp(0, 0)
    ensures res.0.err == Ok ==>
              && r.Advanced(res.0, size)
              && Wire.UnpackTimestamp(r.input[r.data..r.data + size]) == Success(res.1)
    ensures r.err == Ok && !r.tracking && size <= r.Window() ==>
              (res.0.err == Ok <==> Wire.UnpackTimestamp(r.input[r.data..r.data + size]).Success?)
  {
    var (r2, bytes) := PayloadClosed(r, size);
    Unpack(r2, bytes)
  }

  /** The `size` bytes of an ext's payload read, then the ext closed. */
  function PayloadClosed(r: Reader, size: nat): (res: (Reader, seq<Byte>))
    requires r.Valid()
    ensures res.0.Valid() && |res.1| == size
    ensures res.0.err == Ok ==> r.Advanced(res.0, size) && res.1 == r.input[r.data..r.data + size]
    ensures r.err == Ok && !r.tracking && size <= r.Window() ==> res.0.err == Ok
  {
    var (r1, bytes) := ReadBytes(r, size);
    (DoneType(r1, Types.Ext), bytes)
  }

  /** The checks on a timestamp payload once it is read: nanoseconds in range, else Invalid and {0, 0}. */
  function Unpack(r: Reader, payload: seq<Byte>): (res: (Reader, Wire.Timestamp))
    requires r.Valid()
    ensures res.0.Valid()
    ensures res.0.err != Ok ==> res.1 == Wire.Timestamp(0, 0)
    ensures res.0.err == Ok <==> r.err == Ok && Wire.UnpackTimestamp(payload).Success?
    ensures res.0.err == Ok ==> res.0 == r && Wire.UnpackTimestamp(payload) == Success(res.1)
  {
    if r.err != Ok then (r, Wire.Timestamp(0, 0))
    else
      match Wire.UnpackTimestamp(payload)
      case Success(ts) => (r, ts)
      case Failure(_) => (FlagError(r, Invalid), Wire.Timestamp(0, 0))
  }

  // ---------------------------------------------------------------------
  // Discarding whole objects
  // ---------------------------------------------------------------------

  /**
   * `bjd_discard` (bjd-reader.c:981-1022): reads one tag and drops
   * everything it owns: the payload of a str, bin or ext, the elements of an
   * array, and the keys and values of a map, recursively, closing each
   * container through the tracker. It succeeds exactly when the input starts
   * with a complete object (and the tracker admits one more element), and
   * then consumes exactly that object and counts it as one element of the
   * enclosing container.
   */
  method Discard(r: Reader) returns (r': Reader)
    requires r.Valid()
    ensures r'.Valid()
    ensures r.err != Ok ==> r' == r
    ensures r'.err == Ok ==> r.Continues(r') && r.data < r'.data
    ensures r.err == Ok ==>
              (r'.err == Ok <==>
                 && (!r.tracking || Track.PeekElement(r.track) == Ok)
                 && Objects.ObjectEnd(r.input, r.data, r.extensions).Some?)
    ensures r'.err == Ok ==> r'.data == Objects.ObjectEnd(r.input, r.data, r.extensions).value
    ensures r'.err == Ok ==> r'.track == if r.tracking then Track.Element(r.track).value else r.track
    decreases |r.input| - r.data, 0
  {
    var (r1, t) := ReadTag(r);
    ReadObjectHeader(r);
    if r1.err != Ok {
      return r1;
    }
    r' := DiscardContents(r1, t, if r.tracking then Track.Element(r.track).value else r.track);
  }

  /** What reading a tag means for the object that starts with it. */
  lemma ReadObjectHeader(r: Reader)
    requires r.Valid()
    ensures var (r1, t) := ReadTag(r);
      && (r.err == Ok && r1.err != Ok ==>
            !((!r.tracking || Track.PeekElement(r.track) == Ok) && Objects.ObjectEnd(r.input, r.data, r.extensions).Some?))
      && (r1.err == Ok ==>
            && r.err == Ok && r.Continues(r1) && r.data < r1.data
            && (!r.tracking || Track.PeekElement(r.track) == Ok)
            && Objects.ObjectEnd(r.input, r.data, r.extensions) == Objects.ContentEnd(r.input, r1.data, t, r.extensions)
            && r1.track == if r.tracking then Track.PushFor(Track.Element(r.track).value, t) else r.track)
  {
    var (r1, t) := ReadTag(r);
    if r1.err == Ok {
      HeaderObject(r, r1, t);
    } else if r.err == Ok && (!r.tracking || Track.PeekElement(r.track) == Ok) {
      HeaderNoObject(r);
    }
  }

  /** A header that reads leaves the reader where the object's contents start. */
  lemma HeaderObject(r: Reader, r1: Reader, t: Tag)
    requires r.Valid() && r.data < r1.data
    requires Wire.ParseTag(r.Remaining(), r.extensions) == Wire.Parsed(t, r1.data - r.data)
    ensures Objects.ObjectEnd(r.input, r.data, r.extensions) == Objects.ContentEnd(r.input, r1.data, t, r.extensions)
  {
    assert r.Remaining() == r.input[r.data..];
    Objects.ObjectEndParsed(r.input, r.data, t, r1.data - r.data, r.extensions);
  }

  /** A header that does not parse starts no object. */
  lemma HeaderNoObject(r: Reader)
    requires r.Valid() && !Wire.ParseTag(r.Remaining(), r.extensions).Parsed?
    ensures Objects.ObjectEnd(r.input, r.data, r.extensions).None?
  {
    assert r.Remaining() == r.input[r.data..];
    Objects.ObjectEndUnparsed(r.input, r.data, r.extensions);
  }

  /**
   * What `bjd_discard` does once it has read the tag `t`; `s` is the
   * tracker before the tag opened its frame.
   */
  method DiscardContents(r: Reader, t: Tag, ghost s: Track.Tracker) returns (r': Reader)
    requires r.Valid() && r.err == Ok
    requires r.track == if r.tracking then Track.PushFor(s, t) else s
    ensures r'.Valid()
    ensures r'.err == Ok <==> Objects.ContentEnd(r.input, r.data, t, r.extensions).Some?
    ensures r'.err == Ok ==>
              r.Continues(r') && r'.data == Objects.ContentEnd(r.input, r.data, t, r.extensions).value && r'.track == s
    decreases |r.input| - r.data, 5
  {
    if t.Str? || t.Bin? || t.Ext? {
      r' := DiscardPayload(r, t, s);
    } else if t.Array? || t.Map? {
      r' := DiscardChildren(r, t, s);
    } else {
      r' := r;
    }
  }

  /** The payload of a str, bin or ext whose header was just read, then `bjd_done_str`/`_bin`/`_ext`. */
  method DiscardPayload(r: Reader, t: Tag, ghost s: Track.Tracker) returns (r': Reader)
    requires r.Valid() && r.err == Ok && (t.Str? || t.Bin? || t.Ext?)
    requires r.track == if r.tracking then Track.PushFor(s, t) else s
    ensures r'.Valid()
    ensures r'.err == Ok <==> r.data + t.len <= |r.input|
    ensures r'.err == Ok ==> r.Continues(r') && r'.data == r.data + t.len && r'.track == s
  {
    r' := DoneType(SkipBytes(r, t.len), t.Kind());
    DiscardBytesSpec(r, t.Kind(), t.len, s);
  }

  /** The elements of an array, or the keys and values of a map, whose header was just read. */
  method DiscardChildren(r: Reader, t: Tag, ghost s: Track.Tracker) returns (r': Reader)
    requires r.Valid() && r.err == Ok && (t.Array? || t.Map?)
    requires r.track == if r.tracking then Track.PushFor(s, t) else s
    ensures r'.Valid()
    ensures r'.err == Ok <==> Objects.ObjectsEnd(r.input, r.data, Objects.Children(t), r.extensions).Some?
    ensures r'.err == Ok ==>
              r.Continues(r') && r'.data == Objects.ObjectsEnd(r.input, r.data, Objects.Children(t), r.extensions).value
              && r'.track == s
    decreases |r.input| - r.data, 4
  {
    if t.Array? {
      r' := DiscardArray(r, t.count, s);
    } else {
      r' := DiscardMap(r, t.count, s);
    }
  }

  /** The payload of a str, bin or ext whose header was just read; `s` is the tracker before its frame. */
  lemma DiscardBytesSpec(r: Reader, kind: Types.Type, len: U32, s: Track.Tracker)
    requires r.Valid() && r.err == Ok && kind.IsBytes()
    requires r.track == if r.tracking then Track.Push(s, kind, len) else s
    ensures var r' := DoneType(SkipBytes(r, len), kind);
      && (r'.err == Ok <==> r.data + len <= |r.input|)
      && (r'.err == Ok ==> r.Continues(r') && r'.data == r.data + len && r'.track == s)
  {
    if r.tracking {
      Track.BytesThenPop(s, kind, len, len);
    }
  }

  /**
   * The array loop of `bjd_discard`: one object per element, stopping at the
   * first error, then `bjd_done_array`. `s` is the tracker before the array
   * opened its frame.
   */
  method DiscardArray(r: Reader, n: U32, ghost s: Track.Tracker) returns (r': Reader)
    requires r.Valid() && r.err == Ok
    requires r.track == if r.tracking then Track.Push(s, Types.Array, n) else s
    ensures r'.Valid()
    ensures r'.err == Ok <==> Objects.ObjectsEnd(r.input, r.data, n, r.extensions).Some?
    ensures r'.err == Ok ==>
              r.Continues(r') && r'.data == Objects.ObjectsEnd(r.input, r.data, n, r.extensions).value && r'.track == s
    decreases |r.input| - r.data, 3
  {
    var i: nat := 0;
    r' := r;
    while i < n && r'.err == Ok
      invariant r'.Valid() && i <= n
      invariant |r'.input| - r'.data <= |r.input| - r.data
      invariant r'.err == Ok ==> r.Continues(r') && Objects.ObjectsEnd(r.input, r.data, i, r.extensions) == Some(r'.data)
      invariant r'.err == Ok ==> r'.track == if r.tracking then Track.Push(s, Types.Array, n - i) else s
      invariant r'.err != Ok ==> Objects.ObjectsEnd(r.input, r.data, n, r.extensions).None?
      decreases n - i
    {
      r' := DiscardElement(r, r', n, i, s);
      i := i + 1;
    }
    if r'.err == Ok && r.tracking {
      Track.PushThenPop(s, Types.Array);
    }
    r' := DoneType(r', Types.Array);
  }

  /** One element of an array being discarded, after the first i of n. */
  method DiscardElement(ghost r: Reader, r0: Reader, n: U32, i: nat, ghost s: Track.Tracker) returns (r': Reader)
    requires r.Valid() && r0.Valid() && i < n
    requires |r0.input| - r0.data <= |r.input| - r.data
    requires r0.err == Ok ==> r.Continues(r0) && Objects.ObjectsEnd(r.input, r.data, i, r.extensions) == Some(r0.data)
    requires r0.err == Ok ==> r0.track == if r.tracking then Track.Push(s, Types.Array, n - i) else r.track
    requires r0.err != Ok ==> Objects.ObjectsEnd(r.input, r.data, n, r.extensions).None?
    ensures r'.Valid()
    ensures |r'.input| - r'.data <= |r.input| - r.data
    ensures r'.err == Ok ==>
              r.Continues(r') && Objects.ObjectsEnd(r.input, r.data, i + 1, r.extensions) == Some(r'.data)
    ensures r'.err == Ok ==> r'.track == if r.tracking then Track.Push(s, Types.Array, n - i - 1) else r.track
    ensures r'.err != Ok ==> Objects.ObjectsEnd(r.input, r.data, n, r.extensions).None?
    decreases |r.input| - r.data, 2
  {
    if r.tracking {
      Track.ArrayStep(s, n - i);
    }
    r' := DiscardNext(r, r0, i, n, Track.Push(s, Types.Array, n - i), Track.Push(s, Types.Array, n - i - 1));
  }

  /**
   * The next object of a container being discarded, after the first i of
   * `total` (elements of an array, or keys and values of a map). `before` and
   * `after` are the tracker around this element. A reader already in error
   * is left as it is.
   */
  method DiscardNext(ghost r: Reader, r0: Reader, ghost i: nat, ghost total: nat,
                     ghost before: Track.Tracker, ghost after: Track.Tracker) returns (r': Reader)
    requires r.Valid() && r0.Valid() && i < total
    requires |r0.input| - r0.data <= |r.input| - r.data
    requires r0.err == Ok ==> r.Continues(r0) && Objects.ObjectsEnd(r.input, r.data, i, r.extensions) == Some(r0.data)
    requires r0.err == Ok ==> r0.track == if r.tracking then before else r.track
    requires r.tracking ==> Track.Element(before) == Success(after)
    requires r0.err != Ok ==> Objects.ObjectsEnd(r.input, r.data, total, r.extensions).None?
    ensures r'.Valid()
    ensures |r'.input| - r'.data <= |r.input| - r.data
    ensures r'.err == Ok ==>
              r.Continues(r') && Objects.ObjectsEnd(r.input, r.data, i + 1, r.extensions) == Some(r'.data)
    ensures r'.err == Ok ==> r'.track == if r.tracking then after else r.track
    ensures r'.err != Ok ==> Objects.ObjectsEnd(r.input, r.data, total, r.extensions).None?
    decreases |r.input| - r.data, 1
  {
    r' := Discard(r0);
    if r0.err == Ok {
      if r'.err == Ok {
        Objects.ObjectsSnoc(r.input, r.data, i, r.extensions);
      } else {
        Objects.ObjectsFailAt(r.input, r.data, i, total, r.extensions);
      }
    }
  }

  /**
   * The map loop of `bjd_discard`: a key and a value per pair, checking for
   * an error after each pair (a discard on a reader in error does nothing),
   * then `bjd_done_map`.
   */
  method DiscardMap(r: Reader, n: U32, ghost s: Track.Tracker) returns (r': Reader)
    requires r.Valid() && r.err == Ok
    requires r.track == if r.tracking then Track.Push(s, Types.Map, n) else s
    ensures r'.Valid()
    ensures r'.err == Ok <==> Objects.ObjectsEnd(r.input, r.data, 2 * n, r.extensions).Some?
    ensures r'.err == Ok ==>
              r.Continues(r') && r'.data == Objects.ObjectsEnd(r.input, r.data, 2 * n, r.extensions).value && r'.track == s
    decreases |r.input| - r.data, 3
  {
    var i: nat := 0;
    r' := r;
    while i < n && r'.err == Ok
      invariant r'.Valid() && i <= n
      invariant |r'.input| - r'.data <= |r.input| - r.data
      invariant r'.err == Ok ==> r.Continues(r') && Objects.ObjectsEnd(r.input, r.data, 2 * i, r.extensions) == Some(r'.data)
      invariant r'.err == Ok ==> r'.track == if r.tracking then Track.Push(s, Types.Map, n - i) else s
      invariant r'.err != Ok ==> Objects.ObjectsEnd(r.input, r.data, 2 * n, r.extensions).None?
      decreases n - i
    {
      r' := DiscardPair(r, r', n, i, s);
      i := i + 1;
    }
    if r'.err == Ok && r.tracking {
      Track.PushThenPop(s, Types.Map);
    }
    r' := DoneType(r', Types.Map);
  }

  /** One key and its value, i pairs into a map of n being discarded. */
  method DiscardPair(ghost r: Reader, r0: Reader, n: U32, i: nat, ghost s: Track.Tracker) returns (r': Reader)
    requires r.Valid() && r0.Valid() && i < n
    requires |r0.input| - r0.data <= |r.input| - r.data
    requires r0.err == Ok ==> r.Continues(r0) && Objects.ObjectsEnd(r.input, r.data, 2 * i, r.extensions) == Some(r0.data)
    requires r0.err == Ok ==> r0.track == if r.tracking then Track.Push(s, Types.Map, n - i) else r.track
    requires r0.err != Ok ==> Objects.ObjectsEnd(r.input, r.data, 2 * n, r.extensions).None?
    ensures r'.Valid()
    ensures |r'.input| - r'.data <= |r.input| - r.data
    ensures r'.err == Ok ==>
              r.Continues(r') && Objects.ObjectsEnd(r.input, r.data, 2 * (i + 1), r.extensions) == Some(r'.data)
    ensures r'.err == Ok ==> r'.track == if r.tracking then Track.Push(s, Types.Map, n - i - 1) else r.track
    ensures r'.err != Ok ==> Objects.ObjectsEnd(r.input, r.data, 2 * n, r.extensions).None?
    decreases |r.input| - r.data, 2
  {
    if r.tracking {
      Track.MapKey(s, n - i);
      Track.MapValue(s, n - i);
    }
    ghost var pending := Track.MapAfter(s, n - i, 1);
    var key := DiscardNext(r, r0, 2 * i, 2 * n, Track.Push(s, Types.Map, n - i), pending);
    r' := DiscardNext(r, key, 2 * i + 1, 2 * n, pending, Track.Push(s, Types.Map, n - i - 1));
  }
}
