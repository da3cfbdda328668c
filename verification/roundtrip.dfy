/**
 * What the writer produces, the reader reads back: a written tag parses as
 * the same tag, a written str, bin or ext is one complete object whose
 * payload reads back unchanged, and a written timestamp reads back as the
 * same instant. The reader here is a plain reader over the written bytes
 * (`bjd_reader_init_data`) followed by anything at all.
 */
module RoundTrip {
  import opened Bytes
  import opened Tags
  import opened Wrappers
  import opened Errors
  import Wire
  import Objects
  import Reader
  import Writer

  /** The bytes a write added to the writer's output. */
  function Written(w: Writer.Writer, w': Writer.Writer): (out: seq<Byte>)
    requires w.Output() <= w'.Output()
    ensures w'.Output() == w.Output() + out
  {
    w'.Output()[|w.Output()|..]
  }

  /**
   * A tag written without error (bjd-writer.c:460-489) reads back with
   * `bjd_read_tag` (bjd-reader.c:923-964) as the tag a reader sees for it,
   * using up exactly the header and leaving whatever follows.
   */
  lemma WrittenTagReadsBack(w: Writer.Writer, w': Writer.Writer, t: Tag, rest: seq<Byte>)
    requires w.Valid() && Writer.TagWritten(w, w', t) && w'.err == Ok
    ensures Writer.Writable(w, t)
    ensures w.Output() <= w'.Output()
    ensures var (r, u) := Reader.ReadTag(Reader.InitData(Written(w, w') + rest, false, w.extensions));
      && r.err == Ok && u == Wire.AsRead(t, w.v4)
      && r.data == |Written(w, w')| && r.Remaining() == rest
  {
    var r0 := Reader.InitData(Wire.Encode(t, w.v4) + rest, false, w.extensions);
    assert Written(w, w') == Wire.Encode(t, w.v4);
    Wire.RoundTrip(t, w.v4, w.extensions, rest);
    var (r, u) := Reader.ReadTag(r0);
    assert r.input == r0.input;
    assert r.Remaining() == r0.input[|Wire.Encode(t, w.v4)|..];
  }

  /**
   * A str, bin or ext written whole (`bjd_write_str`, `bjd_write_bin`,
   * `bjd_write_ext`, bjd-writer.c:1067-1135) is exactly one complete object,
   * and reading its tag and then its bytes gives back the payload.
   */
  lemma WrittenPayloadReadsBack(w: Writer.Writer, w': Writer.Writer, t: Tag, p: seq<Byte>, rest: seq<Byte>)
    requires w.Valid() && Writer.Writable(w, t) && (t.Str? || t.Bin? || t.Ext?) && t.len == |p|
    requires Writer.ElementWritten(w, w', Wire.Encode(t, w.v4) + p) && w'.err == Ok
    ensures w.Output() <= w'.Output()
    ensures Objects.ObjectEnd(Written(w, w') + rest, 0, w.extensions) == Some(|Written(w, w')|)
    ensures var (r1, u) := Reader.ReadTag(Reader.InitData(Written(w, w') + rest, false, w.extensions));
      && r1.err == Ok && u == Wire.AsRead(t, w.v4) && u.len == |p|
      && var (r2, q) := Reader.ReadBytes(r1, |p|);
      && r2.err == Ok && q == p && r2.Remaining() == rest
  {
    assert Written(w, w') == Wire.Encode(t, w.v4) + p;
    PayloadObject(t, w.v4, w.extensions, p, rest);
    PayloadReads(t, w.v4, w.extensions, p, rest);
  }

  /** A header and its payload, whatever follows, end where the payload ends. */
  lemma PayloadObject(t: Tag, v4: bool, extensions: bool, p: seq<Byte>, rest: seq<Byte>)
    requires (t.Str? || t.Bin? || (t.Ext? && extensions)) && t.len == |p|
    ensures Objects.ObjectEnd(Wire.Encode(t, v4) + p + rest, 0, extensions) == Some(|Wire.Encode(t, v4) + p|)
  {
    var header := Wire.Encode(t, v4);
    var input := header + p + rest;
    assert input == header + (p + rest);
    Wire.RoundTrip(t, v4, extensions, p + rest);
    PayloadEnds(input, |header|, Wire.AsRead(t, v4), extensions);
  }

  /** Input that starts with the header of a str, bin or ext and holds its payload ends where the payload ends. */
  lemma PayloadEnds(input: seq<Byte>, h: nat, u: Tag, extensions: bool)
    requires Wire.ParseTag(input, extensions) == Wire.Parsed(u, h)
    requires (u.Str? || u.Bin? || u.Ext?) && h + u.len <= |input|
    ensures Objects.ObjectEnd(input, 0, extensions) == Some(h + u.len)
  {
    assert input[0..] == input;
    Objects.ObjectEndParsed(input, 0, u, h, extensions);
  }

  /** A header and its payload read back through the reader as the tag and the same bytes. */
  lemma PayloadReads(t: Tag, v4: bool, extensions: bool, p: seq<Byte>, rest: seq<Byte>)
    requires (t.Str? || t.Bin? || (t.Ext? && extensions)) && t.len == |p|
    ensures var (r1, u) := Reader.ReadTag(Reader.InitData(Wire.Encode(t, v4) + p + rest, false, extensions));
      && r1.err == Ok && u == Wire.AsRead(t, v4) && u.len == |p|
      && var (r2, q) := Reader.ReadBytes(r1, |p|);
      && r2.err == Ok && q == p && r2.Remaining() == rest
  {
    var header := Wire.Encode(t, v4);
    var input := header + p + rest;
    assert input == header + (p + rest);
    Wire.RoundTrip(t, v4, extensions, p + rest);
    var r0 := Reader.InitData(input, false, extensions);
    var (r1, u) := Reader.ReadTag(r0);
    assert r1.data == |header| && r1.input == input;
    assert input[|header|..|header| + |p|] == p;
    assert input[|header| + |p|..] == rest;
  }

  /**
   * A timestamp written without error (`bjd_write_timestamp`,
   * bjd-writer.c:921-945) reads back, through `bjd_read_tag` and
   * `bjd_read_timestamp` (bjd-reader.c:1025-1068), as the same seconds and
   * nanoseconds, leaving whatever follows.
   */
  lemma WrittenTimestampReadsBack(w: Writer.Writer, w': Writer.Writer, ts: Wire.Timestamp, rest: seq<Byte>)
    requires w.Valid() && ts.nanoseconds <= TIMESTAMP_NANOSECONDS_MAX
    requires Writer.ElementWritten(w, w', Wire.EncodeTimestamp(ts)) && w'.err == Ok
    ensures w.Output() <= w'.Output()
    ensures var (r1, u) := Reader.ReadTag(Reader.InitData(Written(w, w') + rest, false, true));
      && r1.err == Ok && u == Ext(EXTTYPE_TIMESTAMP, |Wire.PackTimestamp(ts)|)
      && var (r2, back) := Reader.ReadTimestamp(r1, u.len);
      && r2.err == Ok && back == ts && r2.Remaining() == rest
  {
    assert Written(w, w') == Wire.EncodeTimestamp(ts);
    TimestampReads(ts, rest);
  }

  /** The bytes of a timestamp read back as that timestamp. */
  lemma TimestampReads(ts: Wire.Timestamp, rest: seq<Byte>)
    requires ts.nanoseconds <= TIMESTAMP_NANOSECONDS_MAX
    ensures var (r1, u) := Reader.ReadTag(Reader.InitData(Wire.EncodeTimestamp(ts) + rest, false, true));
      && r1.err == Ok && u == Ext(EXTTYPE_TIMESTAMP, |Wire.PackTimestamp(ts)|)
      && var (r2, back) := Reader.ReadTimestamp(r1, u.len);
      && r2.err == Ok && back == ts && r2.Remaining() == rest
  {
    var payload := Wire.PackTimestamp(ts);
    var t := Ext(EXTTYPE_TIMESTAMP, |payload|);
    var header := Wire.Encode(t, false);
    assert Wire.EncodeTimestamp(ts) + rest == header + (payload + rest);
    Wire.TimestampRoundTrip(ts);
    TimestampPayloadReads(Wire.EncodeTimestamp(ts) + rest, t, header, payload, rest, ts);
  }

  /** An ext header of the timestamp exttype followed by a valid payload reads back as that timestamp. */
  lemma TimestampPayloadReads(input: seq<Byte>, t: Tag, header: seq<Byte>, payload: seq<Byte>, rest: seq<Byte>, ts: Wire.Timestamp)
    requires t.Ext? && t.exttype == EXTTYPE_TIMESTAMP && t.len == |payload| && header == Wire.Encode(t, false) && input == header + (payload + rest)
    requires Wire.UnpackTimestamp(payload) == Success(ts)
    ensures var (r1, u) := Reader.ReadTag(Reader.InitData(input, false, true));
      && r1.err == Ok && u == t
      && var (r2, back) := Reader.ReadTimestamp(r1, u.len);
      && r2.err == Ok && back == ts && r2.Remaining() == rest
  {
    HeaderReads(input, t, header, payload + rest);
    var (r1, u) := Reader.ReadTag(Reader.InitData(input, false, true));
    assert r1.input[r1.data..] == payload + rest;
    PayloadTimestamp(r1, payload, rest, ts);
  }

  /** A reader over a written ext header and whatever follows reads the header as the written tag. */
  lemma HeaderReads(input: seq<Byte>, t: Tag, header: seq<Byte>, tail: seq<Byte>)
    requires t.Ext? && header == Wire.Encode(t, false) && input == header + tail
    ensures var (r1, u) := Reader.ReadTag(Reader.InitData(input, false, true));
      && r1.Valid() && r1.err == Ok && !r1.tracking && !r1.hasFill && u == t
      && r1.input == input && r1.data == |header|
  {
    Wire.RoundTrip(t, false, true, tail);
    var r0 := Reader.InitData(input, false, true);
    var (r1, u) := Reader.ReadTag(r0);
    assert r1.input == r0.input;
  }

  /** A reader at a timestamp payload, whatever follows it, reads that timestamp and stops after the payload. */
  lemma PayloadTimestamp(r: Reader.Reader, payload: seq<Byte>, rest: seq<Byte>, ts: Wire.Timestamp)
    requires r.Valid() && r.err == Ok && !r.tracking && !r.hasFill && r.data <= |r.input|
    requires r.input[r.data..] == payload + rest && Wire.UnpackTimestamp(payload) == Success(ts)
    ensures var (r2, back) := Reader.ReadTimestamp(r, |payload|);
      r2.err == Ok && back == ts && r2.Remaining() == rest
  {
    SliceSplit(r.input, r.data, payload, rest);
    assert |payload| <= r.Window();
    var res := Reader.ReadTimestamp(r, |payload|);
    assert res.0.err == Ok;
    assert res.0.input == r.input && res.0.data == r.data + |payload|;
  }

  /** A suffix that is a + b splits into a, then b. */
  lemma SliceSplit(x: seq<Byte>, i: nat, a: seq<Byte>, b: seq<Byte>)
    requires i <= |x| && x[i..] == a + b
    ensures i + |a| + |b| == |x| && x[i..i + |a|] == a && x[i + |a|..] == b
  {
    assert x[i..i + |a|] == (a + b)[..|a|];
    assert x[i + |a|..] == (a + b)[|a|..];
  }
}
