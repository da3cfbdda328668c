/**
 * The buffered writer (bjd-writer.c, bjd-writer.h).
 *
 * The C writer fills a buffer `buffer..end` up to `current` and hands full
 * buffers to a flush function. The model keeps the bytes in the buffer
 * (`buffer..current`) and everything the flush function has been handed so
 * far (`flushed`), so `flushed + buffer` is all the writer has produced. The
 * flush function is modelled as a stream with a fixed amount of room left:
 * it takes a chunk that fits and flags Io for one that does not, the way the
 * stdio flush does on a short write. The flush function always leaves the
 * whole buffer free afterwards.
 */
module Writer {
  import opened Bytes
  import opened Wrappers
  import opened Errors
  import opened Tags
  import Types
  import Track
  import Wire
  import Utf8

  /** `BJDATA_WRITER_MINIMUM_BUFFER_SIZE` (bjd-writer.h:55): a flush function needs at least this much room. */
  const MINIMUM_BUFFER_SIZE: nat := 32

  datatype Writer = Writer(
    buffer: seq<Byte>,     // the bytes in the buffer, `buffer..current`
    size: nat,             // the buffer size, `end - buffer`
    flushed: seq<Byte>,    // everything handed to the flush function, in order
    flush: Option<nat>,    // the flush function, if any: the bytes its stream can still take
    err: Error,
    reported: seq<Error>,  // the errors the error callback has been called with
    track: Track.Tracker,
    tracking: bool,        // BJDATA_WRITE_TRACKING
    v4: bool,              // BJDATA_COMPATIBILITY with a version of v4 or older
    extensions: bool)      // BJDATA_EXTENSIONS
  {
    predicate Valid() {
      && |buffer| <= size
      && (flush.Some? ==> size >= MINIMUM_BUFFER_SIZE)
      && |reported| <= 1
      && (|reported| == 1 ==> reported[0] == err && err != Ok)
    }

    /** Free space in the buffer (`end - current`). */
    function Left(): nat {
      if |buffer| <= size then size - |buffer| else 0
    }

    /** Everything the writer has produced, in order. */
    function Output(): seq<Byte> {
      flushed + buffer
    }

    /** w' produced exactly `bytes` more than this writer. */
    predicate Emitted(w': Writer, bytes: seq<Byte>) {
      w'.Output() == Output() + bytes
    }

    /** w' is this writer moved on: only the output, the error and the tracker differ. */
    predicate Continues(w': Writer) {
      && w'.size == size && (w'.flush.Some? <==> flush.Some?)
      && w'.tracking == tracking && w'.v4 == v4 && w'.extensions == extensions
    }

    /** w' kept the error this writer was already in: it cannot be cleared or replaced. */
    predicate KeepsError(w': Writer) {
      err != Ok ==> w'.err == err && w'.reported == reported
    }

    /**
     * An encoded write of n bytes (n at most 32) succeeds: the bytes fit, or a
     * flush function can take the buffer and so make room.
     */
    predicate Fits(n: nat) {
      n <= Left() || (flush.Some? && |buffer| <= flush.value)
    }

    /**
     * A native write of n bytes succeeds: the bytes fit, or the flush function
     * takes the buffer and then either the bytes fit in the emptied buffer or
     * it takes them directly too.
     */
    predicate FitsNative(n: nat) {
      n <= Left() || (flush.Some? && |buffer| <= flush.value && (n <= size || |buffer| + n <= flush.value))
    }

    /** Another element may be written: no error, and the open container (if tracked) owes one. */
    predicate MayWrite() {
      err == Ok && (!tracking || Track.PeekElement(track) == Ok)
    }

    /**
     * How many more bytes can be written: the free buffer without a flush
     * function, otherwise what the flush function's stream can still take
     * beyond the bytes already buffered. Every successful write spends
     * exactly its bytes of it, and any write within it succeeds.
     */
    function Room(): int {
      if flush.Some? then flush.value - |buffer| else size - |buffer|
    }
  }

  /** Writes within the room always find space, however the buffer is split. */
  lemma RoomSuffices(w: Writer, n: nat)
    requires w.Valid()
    ensures n <= w.Room() ==> w.Fits(n) && w.FitsNative(n)
    ensures w.flush.None? ==> (w.Fits(n) <==> n <= w.Room()) && (w.FitsNative(n) <==> n <= w.Room())
  {
  }

  // ---------------------------------------------------------------------
  // Construction and buffer accounting
  // ---------------------------------------------------------------------

  /** `bjd_writer_init` (bjd-writer.c:73-87): an empty buffer of `size` bytes and no flush function. */
  function Init(size: nat, tracking: bool, v4: bool, extensions: bool): (w: Writer)
    ensures w.Valid() && w.err == Ok && w.Output() == [] && w.Left() == size && w.flush.None?
    ensures w.track.IsEmpty()
  {
    Writer([], size, [], None, Ok, [], Track.Empty, tracking, v4, extensions)
  }

  /** `bjd_writer_init_error` (bjd-writer.c:89-95): starts in the given error, without a callback. */
  function InitError(e: Error, tracking: bool, v4: bool, extensions: bool): (w: Writer)
    ensures w.Valid() && w.err == e && w.reported == [] && w.Output() == [] && w.Left() == 0
  {
    Writer([], 0, [], None, e, [], Track.Empty, tracking, v4, extensions)
  }

  /**
   * `bjd_writer_set_flush` (bjd-writer.c:97-112): refused with Bug for a
   * buffer under 32 bytes, which could not hold every tag or every fixstr.
   * `room` is what the flush function's stream can take.
   */
  function SetFlush(w: Writer, room: nat): (w': Writer)
    requires w.Valid()
    ensures w'.Valid() && w'.Output() == w.Output()
    ensures w'.flush == (if w.size >= MINIMUM_BUFFER_SIZE then Some(room) else w.flush)
    ensures w.size < MINIMUM_BUFFER_SIZE ==> w' == FlagError(w, Bug)
  {
    if w.size < MINIMUM_BUFFER_SIZE then FlagError(w, Bug)
    else w.(flush := Some(room))
  }

  /** `bjd_writer_buffer_used` (bjd-writer.h:420-422). */
  function BufferUsed(w: Writer): (n: nat)
    requires w.Valid()
    ensures n + BufferLeft(w) == BufferSize(w)
  {
    |w.buffer|
  }

  /** `bjd_writer_buffer_left` (bjd-writer.h:428-430). */
  function BufferLeft(w: Writer): (n: nat)
    requires w.Valid()
    ensures n <= BufferSize(w)
  {
    w.size - |w.buffer|
  }

  /** `bjd_writer_buffer_size` (bjd-writer.h:436-438): the size the writer was given, never less than what it buffers. */
  function BufferSize(w: Writer): (n: nat)
    ensures n == w.size
    ensures w.Valid() ==> |w.buffer| <= n
  {
    w.size
  }

  // ---------------------------------------------------------------------
  // Errors
  // ---------------------------------------------------------------------

  /**
   * `bjd_writer_flag_error` (bjd-writer.c:313-321): only the first error is
   * kept and reported. The buffer is left alone.
   */
  function FlagError(w: Writer, e: Error): (w': Writer)
    requires w.Valid() && e != Ok
    ensures w'.Valid() && w.Continues(w') && w.KeepsError(w')
    ensures w'.err == (if w.err == Ok then e else w.err)
    ensures w'.reported == (if w.err == Ok then [e] else w.reported)
    ensures w'.buffer == w.buffer && w'.flushed == w.flushed && w'.flush == w.flush && w'.track == w.track
  {
    if w.err == Ok then w.(err := e, reported := w.reported + [e]) else w
  }

  /** A second error neither replaces the first nor reaches the callback again. */
  lemma FirstErrorWins(w: Writer, a: Error, b: Error)
    requires w.Valid() && w.err == Ok && a != Ok && b != Ok
    ensures FlagError(FlagError(w, a), b).err == a
    ensures FlagError(FlagError(w, a), b).reported == [a]
  {
  }

  // ---------------------------------------------------------------------
  // Flushing
  // ---------------------------------------------------------------------

  /** The flush function handed a chunk: its stream takes it if there is room, otherwise it flags Io. */
  function Sink(w: Writer, chunk: seq<Byte>): (w': Writer)
    requires w.Valid() && w.flush.Some?
    ensures w'.Valid() && w.Continues(w') && w.KeepsError(w')
    ensures w'.buffer == w.buffer && w'.track == w.track
    ensures |chunk| <= w.flush.value ==>
              w' == w.(flushed := w.flushed + chunk, flush := Some(w.flush.value - |chunk|))
    ensures |chunk| > w.flush.value ==> w' == FlagError(w, Io)
  {
    if |chunk| <= w.flush.value then
      w.(flushed := w.flushed + chunk, flush := Some(w.flush.value - |chunk|))
    else FlagError(w, Io)
  }

  /**
   * `bjd_writer_flush_unchecked` (bjd-writer.c:323-330): empties the buffer
   * first, then hands its old contents to the flush function.
   */
  function FlushBuffer(w: Writer): (w': Writer)
    requires w.Valid() && w.flush.Some?
    ensures w'.Valid() && w.Continues(w') && w.KeepsError(w')
    ensures w'.buffer == [] && w'.Left() == w.size && w'.track == w.track
    ensures w'.err == Ok <==> w.err == Ok && |w.buffer| <= w.flush.value
    ensures w'.err == Ok ==> w'.Output() == w.Output() && w'.flush == Some(w.flush.value - |w.buffer|)
    ensures w'.err == Ok ==> w'.Room() == w.Room()
    ensures w.err == Ok && w'.err != Ok ==> w'.err == Io
  {
    Sink(w.(buffer := []), w.buffer)
  }

  /**
   * `bjd_writer_flush_message` (bjd-writer.c:332-350): with every container
   * closed (Bug otherwise) and a flush function (Bug otherwise), hands over
   * whatever is in the buffer.
   */
  function FlushMessage(w: Writer): (w': Writer)
    requires w.Valid()
    ensures w'.Valid() && w.Continues(w') && w.KeepsError(w') && w'.track == w.track
    ensures w'.err == Ok <==>
              && w.err == Ok && (!w.tracking || w.track.IsEmpty())
              && w.flush.Some? && w.Room() >= 0
    ensures w'.err == Ok ==> w'.buffer == [] && w'.flushed == w.Output() && w'.Room() == w.Room()
    ensures w.err == Ok && w'.err != Ok ==> w'.err == (if (w.tracking && !w.track.IsEmpty()) || w.flush.None? then Bug else Io)
  {
    if w.err != Ok then w
    else if w.tracking && Track.CheckEmpty(w.track) != Ok then FlagError(w, Track.CheckEmpty(w.track))
    else if w.flush.None? then FlagError(w, Bug)
    else if |w.buffer| > 0 then FlushBuffer(w)
    else w
  }

  /**
   * `bjd_writer_ensure` (bjd-writer.c:355-383): makes room for `count` bytes
   * the buffer lacks. Without a flush function that is TooBig; otherwise the
   * buffer is flushed, which frees all of it. (The C code flags Io when a
   * flush leaves too little room; the flush function modelled here always
   * frees the whole buffer, at least 32 bytes, so that cannot happen.)
   */
  function Ensure(w: Writer, count: nat): (res: (Writer, bool))
    requires w.Valid() && 1 <= count <= MINIMUM_BUFFER_SIZE && count > w.Left()
    ensures var (w', ok) := res;
      && w'.Valid() && w.Continues(w') && w.KeepsError(w') && w'.track == w.track
      && (ok <==> w'.err == Ok)
      && (ok <==> w.err == Ok && w.flush.Some? && |w.buffer| <= w.flush.value)
      && (ok ==> w'.Output() == w.Output() && w'.Left() >= count && w'.buffer == [])
      && (w.err == Ok && !ok ==> w'.err == (if w.flush.None? then TooBig else Io))
      && (w.err != Ok ==> w' == w)
  {
    if w.err != Ok then (w, false)
    else if w.flush.None? then (FlagError(w, TooBig), false)
    else
      var w1 := FlushBuffer(w);
      (w1, w1.err == Ok)
  }

  /**
   * `BJDATA_WRITE_ENCODED` (bjd-writer.c:737-748): an encoded header of at
   * most 32 bytes goes into the buffer, after making room if it does not
   * fit. A writer already in error still takes bytes that fit.
   */
  function WriteEncoded(w: Writer, bytes: seq<Byte>): (w': Writer)
    requires w.Valid() && 1 <= |bytes| <= MINIMUM_BUFFER_SIZE
    ensures w'.Valid() && w.Continues(w') && w.KeepsError(w') && w'.track == w.track
    ensures w'.flush.Some? == w.flush.Some?
    ensures w'.err == Ok <==> w.err == Ok && w.Fits(|bytes|)
    ensures w'.err == Ok ==> w.Emitted(w', bytes) && w'.Room() == w.Room() - |bytes|
    ensures w.err == Ok && w'.err != Ok ==> w'.err == (if w.flush.None? then TooBig else Io)
    ensures w.err != Ok ==> w'.buffer == (if |bytes| <= w.Left() then w.buffer + bytes else w.buffer)
  {
    if |bytes| <= w.Left() then w.(buffer := w.buffer + bytes)
    else
      var (w1, ok) := Ensure(w, |bytes|);
      if ok then w1.(buffer := w1.buffer + bytes) else w1
  }

  /**
   * `bjd_write_native` and `bjd_write_native_straddle` (bjd-writer.c:385-437):
   * bytes of any length. What does not fit makes the writer flush (TooBig
   * without a flush function); what still does not fit in the emptied
   * buffer goes to the flush function directly.
   */
  function WriteNative(w: Writer, p: seq<Byte>): (w': Writer)
    requires w.Valid()
    ensures w'.Valid() && w.Continues(w') && w.KeepsError(w') && w'.track == w.track
    ensures w'.flush.Some? == w.flush.Some?
    ensures w'.err == Ok <==> w.err == Ok && w.FitsNative(|p|)
    ensures w'.err == Ok ==> w.Emitted(w', p) && w'.Room() == w.Room() - |p|
    ensures w.err == Ok && w'.err != Ok ==> w'.err == (if w.flush.None? then TooBig else Io)
    ensures w.err != Ok ==> w'.buffer == (if |p| <= w.Left() then w.buffer + p else w.buffer) && w'.flushed == w.flushed
  {
    if |p| <= w.Left() then w.(buffer := w.buffer + p)
    else if w.err != Ok then w
    else if w.flush.None? then FlagError(w, TooBig)
    else
      var w1 := FlushBuffer(w);
      if w1.err != Ok then w1
      else if |p| > w1.Left() then
        assert w1.Output() == w.Output();
        Sink(w1, p)
      else w1.(buffer := w1.buffer + p)
  }

  // ---------------------------------------------------------------------
  // Tracking wrappers (bjd-writer.c:27-52; no-ops without tracking, bjd-writer.h:141-158)
  // ---------------------------------------------------------------------

  /** Applies a tracker step, flagging its error; nothing happens without tracking or in error. */
  function Tracked(w: Writer, step: Result<Track.Tracker, Error>): (w': Writer)
    requires w.Valid()
    ensures w'.Valid() && w.Continues(w') && w.KeepsError(w')
    ensures w'.buffer == w.buffer && w'.flushed == w.flushed && w'.flush == w.flush
    ensures w.err != Ok || !w.tracking ==> w' == w
    ensures w.err == Ok && w.tracking && step.Success? ==> w' == w.(track := step.value)
    ensures w.err == Ok && w.tracking && step.Failure? && step.error != Ok ==> w' == FlagError(w, step.error)
  {
    if w.err != Ok || !w.tracking then w
    else if step.Success? then w.(track := step.value)
    else if step.error != Ok then FlagError(w, step.error)
    else w
  }

  /** `bjd_writer_track_element`. */
  function TrackElement(w: Writer): (w': Writer)
    requires w.Valid()
    ensures w'.Valid() && w.Continues(w') && w.KeepsError(w')
    ensures w'.buffer == w.buffer && w'.flushed == w.flushed && w'.flush == w.flush
    ensures w'.err == Ok <==> w.MayWrite()
    ensures w'.err == Ok ==> Counted(w, w')
    ensures w.err == Ok && w'.err != Ok ==> w'.err == Bug
  {
    Tracked(w, Track.Element(w.track))
  }

  /** w' has counted one element against w's open container, if tracking. */
  predicate Counted(w: Writer, w': Writer) {
    if w.tracking then Track.Element(w.track) == Success(w'.track) else w'.track == w.track
  }

  /** w' has counted one element and then opened the frame for tag t, if tracking. */
  predicate Opened(w: Writer, w': Writer, t: Tag) {
    if w.tracking then
      Track.Element(w.track).Success? && w'.track == Track.PushFor(Track.Element(w.track).value, t)
    else w'.track == w.track
  }

  /** `bjd_writer_track_push`: opening a frame cannot fail (allocation is not modelled). */
  function TrackPush(w: Writer, kind: Types.Type, count: U32): (w': Writer)
    requires w.Valid()
    ensures w'.Valid() && w.Continues(w') && w'.err == w.err
    ensures w'.buffer == w.buffer && w'.flushed == w.flushed && w'.flush == w.flush
    ensures w'.track == (if w.err == Ok && w.tracking then Track.Push(w.track, kind, count) else w.track)
  {
    if w.err != Ok || !w.tracking then w else w.(track := Track.Push(w.track, kind, count))
  }

  /** `bjd_writer_track_bytes`. */
  function TrackBytes(w: Writer, count: nat): (w': Writer)
    requires w.Valid()
    ensures w'.Valid() && w.Continues(w') && w.KeepsError(w')
    ensures w'.buffer == w.buffer && w'.flushed == w.flushed && w'.flush == w.flush
    ensures w'.err == Ok <==> w.err == Ok && (!w.tracking || Track.TrackBytes(w.track, count).Success?)
    ensures w'.err == Ok && w.tracking ==> w'.track == Track.TrackBytes(w.track, count).value
    ensures w.err == Ok && w'.err != Ok ==> w'.err == Bug
  {
    Tracked(w, Track.TrackBytes(w.track, count))
  }

  /**
   * w' is w with a container of `kind` closed: nothing is written, and it is
   * an error unless the tracker pops an open, complete frame of that kind,
   * in which case the frame is gone; the error is then Bug.
   */
  predicate Closed(w: Writer, w': Writer, kind: Types.Type)
    requires w.Valid()
  {
    && w'.Valid() && w.Continues(w') && w.KeepsError(w')
    && w'.buffer == w.buffer && w'.flushed == w.flushed && w'.flush == w.flush
    && (w'.err == Ok <==> w.err == Ok && (!w.tracking || Track.Pop(w.track, kind).Success?))
    && (w'.err == Ok && w.tracking ==> w'.track == Track.Pop(w.track, kind).value)
    && (w.err == Ok && w'.err != Ok ==> w'.err == Bug)
  }

  /**
   * `bjd_finish_type` (bjd-writer.h:899-901), which every `bjd_finish_*`
   * wrapper is: one tracker pop of the given type.
   */
  function FinishType(w: Writer, kind: Types.Type): (w': Writer)
    requires w.Valid()
    ensures Closed(w, w', kind)
  {
    Tracked(w, Track.Pop(w.track, kind))
  }

  /** `bjd_finish_array` (bjd-writer.h:636-638): closes an array whose contents are all written. */
  function FinishArray(w: Writer): (w': Writer)
    requires w.Valid()
    ensures Closed(w, w', Types.Array)
  {
    FinishType(w, Types.Array)
  }

  /** `bjd_finish_map` (bjd-writer.h:650-652): closes a map whose contents are all written. */
  function FinishMap(w: Writer): (w': Writer)
    requires w.Valid()
    ensures Closed(w, w', Types.Map)
  {
    FinishType(w, Types.Map)
  }

  /** `bjd_finish_str` (bjd-writer.h:852-854): closes a str whose contents are all written. */
  function FinishStr(w: Writer): (w': Writer)
    requires w.Valid()
    ensures Closed(w, w', Types.Str)
  {
    FinishType(w, Types.Str)
  }

  /** `bjd_finish_bin` (bjd-writer.h:867-869): closes a bin whose contents are all written. */
  function FinishBin(w: Writer): (w': Writer)
    requires w.Valid()
    ensures Closed(w, w', Types.Bin)
  {
    FinishType(w, Types.Bin)
  }

  /** `bjd_finish_ext` (bjd-writer.h:885-887): closes an ext whose contents are all written. */
  function FinishExt(w: Writer): (w': Writer)
    requires w.Valid()
    ensures Closed(w, w', Types.Ext)
  {
    FinishType(w, Types.Ext)
  }


  // ---------------------------------------------------------------------
  // What a write promises
  // ---------------------------------------------------------------------

  /** `bjd_write_tag` can write t: it is not missing, and an ext needs extensions and v5 mode. */
  predicate Writable(w: Writer, t: Tag) {
    !t.Missing? && !(t.Ext? && (!w.extensions || w.v4))
  }

  /**
   * The whole effect of writing the header of tag t: Bug for a tag that
   * cannot be written, with nothing written; otherwise success exactly when
   * an element may be written and the header fits, and then exactly the
   * bytes `Wire.Encode` gives are produced, one element is counted and the
   * frame of a str, bin, ext, array or map is opened.
   */
  predicate TagWritten(w: Writer, w': Writer, t: Tag)
    requires w.Valid()
  {
    && w'.Valid() && w.Continues(w') && w.KeepsError(w')
    && if !Writable(w, t) then w' == FlagError(w, Bug)
       else
         var bytes := Wire.Encode(t, w.v4);
         && (w'.err == Ok <==> w.MayWrite() && w.Fits(|bytes|))
         && (w'.err == Ok ==> w.Emitted(w', bytes) && Opened(w, w', t) && w'.Room() == w.Room() - |bytes|)
         && (w.err == Ok && w'.err != Ok ==>
               w'.err == (if !w.MayWrite() then Bug else if w.flush.None? then TooBig else Io))
  }

  /**
   * The effect of writing one whole element of the given bytes: on success
   * the writer could take an element, produced exactly the bytes and counted
   * one element; with room for the bytes it succeeds unless the element is
   * not allowed; without a flush function that room is the only limit.
   */
  predicate ElementWritten(w: Writer, w': Writer, bytes: seq<Byte>)
    requires w.Valid()
  {
    && w'.Valid() && w.Continues(w') && w.KeepsError(w')
    && (w'.err == Ok ==> w.MayWrite() && w.Emitted(w', bytes) && Counted(w, w') && w'.Room() == w.Room() - |bytes|)
    && (w.MayWrite() && |bytes| <= w.Room() ==> w'.err == Ok)
    && (w.flush.None? ==> (w'.err == Ok <==> w.MayWrite() && |bytes| <= w.Room()))
    && (w.err == Ok && w'.err != Ok ==> w'.err == Bug || w'.err == TooBig || w'.err == Io)
  }

  // ---------------------------------------------------------------------
  // Scalars
  // ---------------------------------------------------------------------

  /**
   * One element written as one encoded header: counts the element, then
   * writes. Every scalar writer has this shape.
   */
  method WriteElement(w: Writer, bytes: seq<Byte>) returns (w': Writer)
    requires w.Valid() && 1 <= |bytes| <= MINIMUM_BUFFER_SIZE
    ensures w'.Valid() && w.Continues(w') && w.KeepsError(w')
    ensures w'.err == Ok <==> w.MayWrite() && w.Fits(|bytes|)
    ensures w'.err == Ok ==> w.Emitted(w', bytes) && Counted(w, w') && w'.Room() == w.Room() - |bytes|
    ensures w.err == Ok && w'.err != Ok ==>
              w'.err == (if !w.MayWrite() then Bug else if w.flush.None? then TooBig else Io)
  {
    var w1 := TrackElement(w);
    w' := WriteEncoded(w1, bytes);
  }

  /** `bjd_write_nil` (bjd-writer.c:497-499). */
  method WriteNil(w: Writer) returns (w': Writer)
    requires w.Valid()
    ensures TagWritten(w, w', Nil)
  {
    w' := WriteElement(w, [0xc0]);
  }

  /** `bjd_write_bool` (bjd-writer.c:501-503): 0xc2 or 0xc3. */
  method WriteBool(w: Writer, b: bool) returns (w': Writer)
    requires w.Valid()
    ensures TagWritten(w, w', Bool(b))
  {
    w' := WriteElement(w, [if b then 0xc3 else 0xc2]);
  }

  /** `bjd_write_true` (bjd-writer.c:505-507). */
  method WriteTrue(w: Writer) returns (w': Writer)
    requires w.Valid()
    ensures TagWritten(w, w', Bool(true))
  {
    w' := WriteElement(w, [0xc3]);
  }

  /** `bjd_write_false` (bjd-writer.c:509-511). */
  method WriteFalse(w: Writer) returns (w': Writer)
    requires w.Valid()
    ensures TagWritten(w, w', Bool(false))
  {
    w' := WriteElement(w, [0xc2]);
  }

  /** `bjd_write_u64` (bjd-writer.c:795-809): the smallest unsigned form. */
  method WriteU64(w: Writer, u: U64) returns (w': Writer)
    requires w.Valid()
    ensures TagWritten(w, w', Uint(u))
  {
    w' := WriteElement(w, Wire.EncodeUint(u));
  }

  /** `bjd_write_i64` (bjd-writer.c:873-908): the smallest form for the value. */
  method WriteI64(w: Writer, i: I64) returns (w': Writer)
    requires w.Valid()
    ensures TagWritten(w, w', Int(i))
  {
    w' := WriteElement(w, Wire.EncodeInt(i));
  }

  /** `bjd_write_uint` (bjd-writer.h:524-527): the 64-bit unsigned writer. */
  method WriteUint(w: Writer, u: U64) returns (w': Writer)
    requires w.Valid()
    ensures TagWritten(w, w', Uint(u))
  {
    w' := WriteU64(w, u);
  }

  /** `bjd_write_int` (bjd-writer.h:508-511): the 64-bit signed writer. */
  method WriteInt(w: Writer, i: I64) returns (w': Writer)
    requires w.Valid()
    ensures TagWritten(w, w', Int(i))
  {
    w' := WriteI64(w, i);
  }

  // The fixed-width writers (bjd-writer.c:750-871) each take their own branch
  // chain; each writes what the 64-bit writer writes for the same value.

  method WriteU8(w: Writer, v: U8) returns (w': Writer)
    requires w.Valid()
    ensures TagWritten(w, w', Uint(v))
  {
    Wire.NarrowWritersAgree(v, 0, 0, 0, 0, 0);
    w' := WriteElement(w, Wire.EncodeU8(v));
  }

  method WriteU16(w: Writer, v: U16) returns (w': Writer)
    requires w.Valid()
    ensures TagWritten(w, w', Uint(v))
  {
    Wire.NarrowWritersAgree(0, v, 0, 0, 0, 0);
    w' := WriteElement(w, Wire.EncodeU16(v));
  }

  method WriteU32(w: Writer, v: U32) returns (w': Writer)
    requires w.Valid()
    ensures TagWritten(w, w', Uint(v))
  {
    Wire.NarrowWritersAgree(0, 0, v, 0, 0, 0);
    w' := WriteElement(w, Wire.EncodeU32(v));
  }

  method WriteI8(w: Writer, v: I8) returns (w': Writer)
    requires w.Valid()
    ensures TagWritten(w, w', Int(v))
  {
    Wire.NarrowWritersAgree(0, 0, 0, v, 0, 0);
    w' := WriteElement(w, Wire.EncodeI8(v));
  }

  method WriteI16(w: Writer, v: I16) returns (w': Writer)
    requires w.Valid()
    ensures TagWritten(w, w', Int(v))
  {
    Wire.NarrowWritersAgree(0, 0, 0, 0, v, 0);
    w' := WriteElement(w, Wire.EncodeI16(v));
  }

  method WriteI32(w: Writer, v: I32) returns (w': Writer)
    requires w.Valid()
    ensures TagWritten(w, w', Int(v))
  {
    Wire.NarrowWritersAgree(0, 0, 0, 0, 0, v);
    w' := WriteElement(w, Wire.EncodeI32(v));
  }

  /** `bjd_write_float` (bjd-writer.c:910-913): 0xca and the 32 bits. */
  method WriteFloat(w: Writer, f: U32) returns (w': Writer)
    requires w.Valid()
    ensures TagWritten(w, w', Float(f))
  {
    w' := WriteElement(w, [0xca] + StoreU32(f));
  }

  /** `bjd_write_double` (bjd-writer.c:915-918): 0xcb and the 64 bits. */
  method WriteDouble(w: Writer, d: U64) returns (w': Writer)
    requires w.Valid()
    ensures TagWritten(w, w', Double(d))
  {
    w' := WriteElement(w, [0xcb] + StoreU64(d));
  }

  /**
   * `bjd_write_timestamp` (bjd-writer.c:921-945): Bug in v4 mode or for
   * nanoseconds past 999,999,999, with nothing written and no element
   * counted; otherwise one element of the ext header and the smallest
   * payload.
   */
  method WriteTimestamp(w: Writer, seconds: I64, nanoseconds: U32) returns (w': Writer)
    requires w.Valid() && w.extensions
    ensures w.v4 || nanoseconds > TIMESTAMP_NANOSECONDS_MAX ==> w' == FlagError(w, Bug)
    ensures !w.v4 && nanoseconds <= TIMESTAMP_NANOSECONDS_MAX ==>
              && ElementWritten(w, w', Wire.EncodeTimestamp(Wire.Timestamp(seconds, nanoseconds)))
              && (w'.err == Ok <==> w.MayWrite() && w.Fits(|Wire.EncodeTimestamp(Wire.Timestamp(seconds, nanoseconds))|))
  {
    if w.v4 || nanoseconds > TIMESTAMP_NANOSECONDS_MAX {
      w' := FlagError(w, Bug);
    } else {
      var e := Wire.EncodeTimestamp(Wire.Timestamp(seconds, nanoseconds));
      RoomSuffices(w, |e|);
      w' := WriteElement(w, e);
    }
  }

  // ---------------------------------------------------------------------
  // Containers
  // ---------------------------------------------------------------------

  /** A container header: one element, the header, then a frame of the declared size. */
  method StartContainer(w: Writer, t: Tag) returns (w': Writer)
    requires w.Valid() && Writable(w, t)
    requires t.Array? || t.Map? || t.Str? || t.Bin? || t.Ext?
    ensures TagWritten(w, w', t)
  {
    var w1 := WriteElement(w, Wire.Encode(t, w.v4));
    w' := TrackPush(w1, t.Kind(), if t.Array? || t.Map? then t.count else t.len);
  }

  /** `bjd_start_array` (bjd-writer.c:948-959): fixarray, array16 or array32, then an array frame. */
  method StartArray(w: Writer, n: U32) returns (w': Writer)
    requires w.Valid()
    ensures TagWritten(w, w', Array(n))
  {
    w' := StartContainer(w, Array(n));
  }

  /** `bjd_start_map` (bjd-writer.c:961-974). */
  method StartMap(w: Writer, n: U32) returns (w': Writer)
    requires w.Valid()
    ensures TagWritten(w, w', Map(n))
  {
    w' := StartContainer(w, Map(n));
  }

  /** `bjd_start_str` (bjd-writer.c:1015-1019): no str8 in v4 mode. */
  method StartStr(w: Writer, n: U32) returns (w': Writer)
    requires w.Valid()
    ensures TagWritten(w, w', Str(n))
  {
    w' := StartContainer(w, Str(n));
  }

  /** `bjd_start_bin` (bjd-writer.c:1021-1025): the raw (str) forms in v4 mode; opens a bin frame. */
  method StartBin(w: Writer, n: U32) returns (w': Writer)
    requires w.Valid()
    ensures TagWritten(w, w', Bin(n))
  {
    w' := StartContainer(w, Bin(n));
  }

  /** `bjd_start_ext` (bjd-writer.c:1028-1058): Bug in v4 mode, before anything is counted. */
  method StartExt(w: Writer, exttype: I8, n: U32) returns (w': Writer)
    requires w.Valid() && w.extensions
    ensures TagWritten(w, w', Ext(exttype, n))
  {
    if w.v4 {
      w' := FlagError(w, Bug);
    } else {
      w' := StartContainer(w, Ext(exttype, n));
    }
  }

  // ---------------------------------------------------------------------
  // Tags
  // ---------------------------------------------------------------------

  /**
   * `bjd_write_tag` (bjd-writer.c:460-489): Bug for a missing tag, and for an
   * ext when extensions are compiled out (no case for it) or in v4 mode;
   * otherwise the writer or start function for the tag's type.
   */
  method WriteTag(w: Writer, t: Tag) returns (w': Writer)
    requires w.Valid()
    ensures TagWritten(w, w', t)
  {
    match t
    case Missing => w' := FlagError(w, Bug);
    case Nil => w' := WriteNil(w);
    case Bool(b) => w' := WriteBool(w, b);
    case Float(f) => w' := WriteFloat(w, f);
    case Double(d) => w' := WriteDouble(w, d);
    case Int(i) => w' := WriteInt(w, i);
    case Uint(u) => w' := WriteUint(w, u);
    case Str(n) => w' := StartStr(w, n);
    case Bin(n) => w' := StartBin(w, n);
    case Ext(ty, n) =>
      if w.extensions {
        w' := StartExt(w, ty, n);
      } else {
        w' := FlagError(w, Bug);
      }
    case Array(n) => w' := StartArray(w, n);
    case Map(n) => w' := StartMap(w, n);
  }

  // ---------------------------------------------------------------------
  // Data
  // ---------------------------------------------------------------------

  /** `bjd_write_bytes` (bjd-writer.c:1138-1142): tracks the bytes against the open str, bin or ext, then writes them. */
  function WriteBytes(w: Writer, p: seq<Byte>): (w': Writer)
    requires w.Valid()
    ensures w'.Valid() && w.Continues(w') && w.KeepsError(w')
    ensures w'.err == Ok <==>
              && w.err == Ok && (!w.tracking || Track.TrackBytes(w.track, |p|).Success?)
              && w.FitsNative(|p|)
    ensures w'.err == Ok ==> w.Emitted(w', p) && w'.Room() == w.Room() - |p|
    ensures w'.err == Ok && w.tracking ==> w'.track == Track.TrackBytes(w.track, |p|).value
    ensures w'.err == Ok && !w.tracking ==> w'.track == w.track
    ensures w.err == Ok && w'.err != Ok ==> w'.err == Bug || w'.err == TooBig || w'.err == Io
    ensures w.err != Ok ==>
              && w'.buffer == (if |p| <= w.Left() then w.buffer + p else w.buffer)
              && w'.flushed == w.flushed && w'.track == w.track
  {
    WriteNative(TrackBytes(w, |p|), p)
  }

  /** `bjd_write_object_bytes` (bjd-writer.c:513-516): pre-encoded bytes counted as one element. */
  function WriteObjectBytes(w: Writer, p: seq<Byte>): (w': Writer)
    requires w.Valid()
    ensures w'.Valid() && w.Continues(w') && w.KeepsError(w')
    ensures w'.err == Ok <==> w.MayWrite() && w.FitsNative(|p|)
    ensures w'.err == Ok ==> w.Emitted(w', p) && Counted(w, w') && w'.Room() == w.Room() - |p|
  {
    WriteNative(TrackElement(w), p)
  }

  /**
   * `bjd_write_str` (bjd-writer.c:1067-1120): one element, the str header
   * and the bytes, with no frame left open. A fixstr goes out with its bytes
   * in one encoded write (at most 32 bytes); a str8 too when both fit in the
   * buffer; otherwise header and bytes go separately, as for str16 and str32.
   */
  method WriteStr(w: Writer, s: seq<Byte>) returns (w': Writer)
    requires w.Valid() && |s| < TWO_32
    ensures ElementWritten(w, w', Wire.StrHeader(|s|, w.v4) + s)
  {
    var header := Wire.StrHeader(|s|, w.v4);
    if |s| <= 31 {
      RoomSuffices(w, |header + s|);
      w' := WriteElement(w, header + s);
    } else if |s| <= 0xff && !w.v4 && |s| + 2 <= w.Left() {
      w' := WriteElementDirect(w, header + s);
    } else {
      w' := WriteElementSplit(w, header, s);
    }
  }

  /** One element whose bytes are known to fit, copied straight into the buffer. */
  method WriteElementDirect(w: Writer, bytes: seq<Byte>) returns (w': Writer)
    requires w.Valid() && |bytes| <= w.Left()
    ensures ElementWritten(w, w', bytes)
  {
    var w1 := TrackElement(w);
    w' := w1.(buffer := w1.buffer + bytes);
  }

  /** One element written as a header and then its payload. */
  method WriteElementSplit(w: Writer, header: seq<Byte>, p: seq<Byte>) returns (w': Writer)
    requires w.Valid() && 1 <= |header| <= MINIMUM_BUFFER_SIZE
    ensures ElementWritten(w, w', header + p)
  {
    var w1 := TrackElement(w);
    RoomSuffices(w1, |header + p|);
    w' := WriteSplit(w1, header, p);
  }

  /** A header as an encoded write, then the payload as a native write. */
  method WriteSplit(w: Writer, header: seq<Byte>, p: seq<Byte>) returns (w': Writer)
    requires w.Valid() && 1 <= |header| <= MINIMUM_BUFFER_SIZE
    ensures w'.Valid() && w.Continues(w') && w.KeepsError(w') && w'.track == w.track
    ensures w'.err == Ok ==> w.err == Ok && w.Emitted(w', header + p) && w'.Room() == w.Room() - |header + p|
    ensures w.err == Ok && |header + p| <= w.Room() ==> w'.err == Ok
    ensures w.err == Ok && w'.err != Ok ==> w'.err == TooBig || w'.err == Io
  {
    RoomSuffices(w, |header|);
    var w1 := WriteEncoded(w, header);
    RoomSuffices(w1, |p|);
    w' := WriteNative(w1, p);
    assert w'.err == Ok ==> w'.Output() == w.Output() + (header + p);
  }

  /**
   * The frame a start opened after counting one element takes exactly its
   * payload and then closes, leaving the tracker where counting the element
   * left it.
   */
  lemma PayloadCloses(w: Writer, kind: Types.Type, n: U32)
    requires kind.IsBytes()
    ensures w.tracking && w.MayWrite() ==>
              var t := Track.Push(Track.Element(w.track).value, kind, n);
              && Track.TrackBytes(t, n).Success?
              && Track.Pop(Track.TrackBytes(t, n).value, kind) == Success(Track.Element(w.track).value)
  {
    if w.tracking && w.MayWrite() {
      Track.BytesThenPop(Track.Element(w.track).value, kind, n, n);
    }
  }

  /** A started str, bin or ext, its payload, and its finish: one element of header and payload. */
  method WritePayload(w: Writer, t: Tag, p: seq<Byte>) returns (w': Writer)
    requires w.Valid() && Writable(w, t) && (t.Str? || t.Bin? || t.Ext?) && t.len == |p|
    ensures ElementWritten(w, w', Wire.Encode(t, w.v4) + p)
  {
    var header := Wire.Encode(t, w.v4);
    var w1 := StartContainer(w, t);
    PayloadCloses(w, t.Kind(), t.len);
    RoomSuffices(w, |header|);
    RoomSuffices(w1, |p|);
    w' := WriteAndClose(w1, p, t.Kind());
    assert w'.err == Ok ==> w'.Output() == w.Output() + (header + p);
  }

  /** The payload of an open str, bin or ext, then the finish that closes it. */
  method WriteAndClose(w: Writer, p: seq<Byte>, kind: Types.Type) returns (w': Writer)
    requires w.Valid()
    requires w.err == Ok && w.tracking ==>
               && Track.TrackBytes(w.track, |p|).Success?
               && Track.Pop(Track.TrackBytes(w.track, |p|).value, kind).Success?
    ensures w'.Valid() && w.Continues(w') && w.KeepsError(w')
    ensures w'.err == Ok <==> w.err == Ok && w.FitsNative(|p|)
    ensures w'.err == Ok ==> w.Emitted(w', p) && w'.Room() == w.Room() - |p|
    ensures w'.err == Ok && w.tracking ==> w'.track == Track.Pop(Track.TrackBytes(w.track, |p|).value, kind).value
    ensures w'.err == Ok && !w.tracking ==> w'.track == w.track
    ensures w.err == Ok && w'.err != Ok ==> w'.err == TooBig || w'.err == Io
  {
    var w1 := WriteBytes(w, p);
    w' := FinishType(w1, kind);
  }

  /** `bjd_write_bin` (bjd-writer.c:1122-1127): start, the bytes, finish. */
  method WriteBin(w: Writer, p: seq<Byte>) returns (w': Writer)
    requires w.Valid() && |p| < TWO_32
    ensures ElementWritten(w, w', Wire.BinHeader(|p|, w.v4) + p)
  {
    w' := WritePayload(w, Bin(|p|), p);
  }

  /**
   * `bjd_write_ext` (bjd-writer.c:1130-1135): start, the bytes, finish. In
   * v4 mode the start flags Bug and writes no header (bjd-writer.c:1030-1033);
   * the bytes are still copied into the buffer when they fit there, since
   * `bjd_write_native` (bjd-writer.c:428-437) copies whatever the error.
   */
  method WriteExt(w: Writer, exttype: I8, p: seq<Byte>) returns (w': Writer)
    requires w.Valid() && w.extensions && |p| < TWO_32
    ensures w.v4 ==> w'.Valid() && w'.err == FlagError(w, Bug).err && w'.reported == FlagError(w, Bug).reported
    ensures w.v4 ==> w'.buffer == (if |p| <= w.Left() then w.buffer + p else w.buffer)
    ensures w.v4 ==> w'.flushed == w.flushed && w'.track == w.track && w.Continues(w')
    ensures !w.v4 ==> ElementWritten(w, w', Wire.ExtHeader(exttype, |p|) + p)
  {
    if w.v4 {
      var w1 := WriteBytes(FlagError(w, Bug), p);
      w' := FinishType(w1, Types.Ext);
    } else {
      w' := WritePayload(w, Ext(exttype, |p|), p);
    }
  }

  /** The C length of a NUL-terminated string: the bytes before the first zero (`bjd_strlen`). */
  function StrLen(c: seq<Byte>): (n: nat)
    requires 0 in c
    ensures n < |c| && c[n] == 0
    ensures forall k | 0 <= k < n :: c[k] != 0
  {
    if c[0] == 0 then 0
    else
      assert 0 in c[1..];
      1 + StrLen(c[1..])
  }

  /**
   * `bjd_write_cstr` (bjd-writer.c:1144-1150): the string before the NUL.
   * A length past 32 bits flags Invalid, and the C code goes on to write
   * the string with its length cut to 32 bits.
   */
  method WriteCstr(w: Writer, c: seq<Byte>) returns (w': Writer)
    requires w.Valid() && 0 in c
    ensures StrLen(c) < TWO_32 ==> ElementWritten(w, w', Wire.StrHeader(StrLen(c), w.v4) + c[..StrLen(c)])
    ensures StrLen(c) >= TWO_32 ==> w'.err == (if w.err == Ok then Invalid else w.err)
  {
    var n := StrLen(c);
    if n >= TWO_32 {
      var w1 := FlagError(w, Invalid);
      var m := n % TWO_32;
      w' := WriteStr(w1, c[..m]);
    } else {
      w' := WriteStr(w, c[..n]);
    }
  }

  /** `bjd_write_cstr_or_nil` (bjd-writer.c:1152-1157): nil for a null pointer. */
  method WriteCstrOrNil(w: Writer, c: Option<seq<Byte>>) returns (w': Writer)
    requires w.Valid() && (c.Some? ==> 0 in c.value)
    ensures c.None? ==> TagWritten(w, w', Nil)
    ensures c.Some? && StrLen(c.value) < TWO_32 ==>
              ElementWritten(w, w', Wire.StrHeader(StrLen(c.value), w.v4) + c.value[..StrLen(c.value)])
  {
    if c.Some? {
      w' := WriteCstr(w, c.value);
    } else {
      w' := WriteNil(w);
    }
  }

  /**
   * `bjd_write_utf8` (bjd-writer.c:1159-1166): Invalid, with nothing
   * written, unless the bytes are well-formed UTF-8.
   */
  method WriteUtf8(w: Writer, s: seq<Byte>) returns (w': Writer)
    requires w.Valid() && |s| < TWO_32
    ensures !Utf8.WellFormed(s) ==> w' == FlagError(w, Invalid)
    ensures Utf8.WellFormed(s) ==> ElementWritten(w, w', Wire.StrHeader(|s|, w.v4) + s)
  {
    if !Utf8.Check(s) {
      w' := FlagError(w, Invalid);
    } else {
      w' := WriteStr(w, s);
    }
  }

  /** `bjd_write_utf8_cstr` (bjd-writer.c:1168-1176): a length past 32 bits is Invalid, with nothing written. */
  method WriteUtf8Cstr(w: Writer, c: seq<Byte>) returns (w': Writer)
    requires w.Valid() && 0 in c
    ensures StrLen(c) >= TWO_32 || !Utf8.WellFormed(c[..StrLen(c)]) ==> w' == FlagError(w, Invalid)
    ensures StrLen(c) < TWO_32 && Utf8.WellFormed(c[..StrLen(c)]) ==>
              ElementWritten(w, w', Wire.StrHeader(StrLen(c), w.v4) + c[..StrLen(c)])
  {
    var n := StrLen(c);
    if n >= TWO_32 {
      w' := FlagError(w, Invalid);
    } else {
      w' := WriteUtf8(w, c[..n]);
    }
  }

  /** `bjd_write_utf8_cstr_or_nil` (bjd-writer.c:1178-1183). */
  method WriteUtf8CstrOrNil(w: Writer, c: Option<seq<Byte>>) returns (w': Writer)
    requires w.Valid() && (c.Some? ==> 0 in c.value)
    ensures c.None? ==> TagWritten(w, w', Nil)
    ensures c.Some? && StrLen(c.value) < TWO_32 && Utf8.WellFormed(c.value[..StrLen(c.value)]) ==>
              ElementWritten(w, w', Wire.StrHeader(StrLen(c.value), w.v4) + c.value[..StrLen(c.value)])
    ensures c.Some? && !(StrLen(c.value) < TWO_32 && Utf8.WellFormed(c.value[..StrLen(c.value)])) ==>
              w' == FlagError(w, Invalid)
  {
    if c.Some? {
      w' := WriteUtf8Cstr(w, c.value);
    } else {
      w' := WriteNil(w);
    }
  }

  // ---------------------------------------------------------------------
  // Teardown
  // ---------------------------------------------------------------------

  /**
   * `bjd_writer_destroy` (bjd-writer.c:439-458): without an error, hands the
   * buffered bytes to the flush function one last time, then detaches it,
   * and returns the final error. The flush function stays attached when
   * there was nothing to flush or the writer was in error. The tracker's own
   * teardown only asserts.
   */
  function Destroy(w: Writer): (res: (Writer, Error))
    requires w.Valid()
    ensures var (w', e) := res;
      && w'.Valid() && w.KeepsError(w') && e == w'.err
      && (w'.flush.None? <==> w.flush.None? || (w.err == Ok && |w.buffer| != 0))
      && (w'.flush.Some? ==> w' == w)
      && (w.err == Ok ==> (e == Ok <==> w.Room() >= 0 || w.flush.None?))
      && (w.err == Ok && w.flush.Some? && e == Ok ==> w'.flushed == w.Output())
      && (w.err == Ok && e != Ok ==> e == Io)
  {
    if w.err == Ok && |w.buffer| != 0 && w.flush.Some? then
      var w1 := Sink(w, w.buffer).(flush := None);
      (w1, w1.err)
    else
      (w, w.err)
  }
}
