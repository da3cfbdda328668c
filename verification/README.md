# bjd in Dafny

A model of the core of bjd, a C library for a MessagePack-style binary
format (a fork of mpack). The model covers:

- the tag codec: one header byte, then an optional length or value field;
- the nesting tracker;
- the UTF-8 checks;
- the buffered streaming reader, with its `bjd_discard` and the `bjd_expect_*` API;
- the buffered writer;
- the node tree parser and the node accessors over a parsed tree.

The modules follow the source files:

| module | file | models |
|---|---|---|
| `Bytes` | bytes.dfy | big-endian loads and stores of bjd-common.h, and the width-marked `bjd_load_uint` |
| `Types`, `Tags` | tags.dfy | `bjd_type_t`, `bjd_tag_t`, the tag sizes, `bjd_tag_cmp` and `bjd_tag_equal` |
| `Track` | track.dfy | the `bjd_track_*` nesting tracker of bjd-common.c |
| `Utf8` | utf8.dfy | `bjd_utf8_check_impl` and `bjd_str_check_no_null` |
| `Wire` | wire.dfy | `bjd_parse_tag` as a function of the bytes, the writer's encoders and the timestamp payload |
| `Objects` | objects.dfy | where a complete object starts and ends: the reference that `bjd_discard` and the tree parse are measured against |
| `Reader` | reader.dfy | bjd-reader.c: the reader, its fill, reads, skips, tags, timestamps and `bjd_discard` |
| `Expect` | expect.dfy | bjd-expect.c |
| `Writer` | writer.dfy | bjd-writer.c and the inline functions of bjd-writer.h |
| `RoundTrip` | roundtrip.dfy | what the writer writes, the reader reads back |
| `Tree`, `Parse` | tree.dfy, parse.dfy | the node tree parser of bjd-node.c: reserving bytes, parsing one node, the parse loop, `bjd_tree_parse`, `bjd_tree_try_parse` and the initialisers |
| `Nodes` | nodes.dfy | the node accessors of bjd-node.c: types, integers, data, indexing, key lookup and enums |
| `Findings` | findings.dfy | the two streams on which the tree's limits misfire, and the string that the byte-by-char match rejects |
| `Wrappers`, `Errors` | wrappers.dfy | `Option`, `Result` and `bjd_error_t` |

## How the state is modelled

- **Reader.** The reader is one input stream: the bytes in the buffer,
  followed by everything its fill function will ever deliver. Offsets
  `data` and `end` mark the read position and the end of the buffered
  window. Moving bytes inside the buffer is invisible. A flagged error
  drops the rest of the input, as the C reader's empty buffer does.
- **Writer.** The writer's output is what its flush function took,
  followed by the buffer. `Room()` is how much more the flush function's
  stream can take.
- **Tree.** The tree keeps its nodes in one arena of indices. A
  container's children are a contiguous run of the arena. The parse stack
  holds, for each open container, the next child slot and the children
  left. `possible` and `reserved` are the byte budget of the source:
  `possible_nodes_left` and `current_node_reserved`.
- **Errors.** Every object keeps only the first error it flags. The error
  callback is a log, `reported`, that holds at most that error.

## Model

| member | source | states |
|---|---|---|
| Bytes.StoreBE | src/bjd/bjd-common.h:882-926 | n big-endian bytes that load back to the value |
| Bytes.LoadConcat | src/bjd/bjd-common.h:841-880 | loading a concatenation is the first part shifted by the length of the second, plus the second |
| Bytes.LoadIsPositional | src/bjd/bjd-common.h:841-880 | a big-endian load is the sum of each byte times 256 to the power of its distance from the end |
| Bytes.StoreOfLoad | src/bjd/bjd-common.h:841-926 | storing a load at the same width gives back the original bytes: the other half of the round trip |
| Bytes.LoadInjective | src/bjd/bjd-common.h:841-880 | two byte strings of one width load equal exactly when they are equal |
| Bytes.LoadU8 | src/bjd/bjd-common.h:837-839 | the first byte, which is its one-byte big-endian value |
| Bytes.LoadU16 | src/bjd/bjd-common.h:841-850 | the high byte comes first |
| Bytes.LoadU32 | src/bjd/bjd-common.h:852-863 | the first two bytes are the high half |
| Bytes.LoadU64 | src/bjd/bjd-common.h:865-880 | the first four bytes are the high half |
| Bytes.StoreU8 | src/bjd/bjd-common.h:882-885 | one byte that `LoadU8` reads back as the value |
| Bytes.StoreU16 | src/bjd/bjd-common.h:887-896 | two bytes that `LoadU16` reads back as the value |
| Bytes.StoreU32 | src/bjd/bjd-common.h:898-909 | four bytes that `LoadU32` reads back as the value |
| Bytes.StoreU64 | src/bjd/bjd-common.h:911-926 | eight bytes that `LoadU64` reads back as the value |
| Bytes.SignedRoundTrip | src/bjd/bjd-common.h:928-936 | the two's complement casts between signed and unsigned are inverse both ways |
| Bytes.LoadI8 | src/bjd/bjd-common.h:928-936 | a top bit set means the byte minus 256 |
| Bytes.LoadI16 | src/bjd/bjd-common.h:928-936 | non-negative exactly when the top bit is clear; the two's complement of the unsigned load |
| Bytes.LoadI32 | src/bjd/bjd-common.h:928-936 | non-negative exactly when the top bit is clear; the two's complement of the unsigned load |
| Bytes.LoadI64 | src/bjd/bjd-common.h:928-936 | non-negative exactly when the top bit is clear; the two's complement of the unsigned load |
| Bytes.StoreI8 | src/bjd/bjd-common.h:933 | one byte, the value's two's complement, that `LoadI8` reads back as the value |
| Bytes.StoreI16 | src/bjd/bjd-common.h:928-936 | two bytes that `LoadI16` reads back as the value |
| Bytes.StoreI32 | src/bjd/bjd-common.h:928-936 | four bytes that `LoadI32` reads back as the value |
| Bytes.StoreI64 | src/bjd/bjd-common.h:928-936 | eight bytes that `LoadI64` reads back as the value |
| Bytes.LoadUint | src/bjd/bjd-common.h:808-835 | the low bytes of the result are the marked field; an unsigned marker gives the field's value; a signed one is negative in 64 bits exactly when the field's top bit is set |
| Bytes.LoadInt | src/bjd/bjd-common.h:928 | a signed marker gives the field's two's complement value; an unsigned field narrower than 8 bytes gives its value; a u64 field wraps to its two's complement int64, negative exactly when its top bit is set |
| Types.CodeInjective | src/bjd/bjd-common.h:187-209 | distinct types have distinct enum codes |
| Tags.Normalize | src/mpack/bjd-common.c:84-92 | an integer keeps its value; only a negative one stays signed; every other tag is unchanged |
| Tags.Cmp | src/mpack/bjd-common.c:84-151 | 0 exactly when the normalized tags are equal; tags of different types order by the type's code |
| Tags.Equal | src/bjd/bjd-common.h:644-646 | equal exactly when `Cmp` is 0 |
| Tags.CmpAntisymmetric | src/mpack/bjd-common.c:94-151 | swapping the operands flips the sign of the comparison |
| Tags.CmpReflexive | src/mpack/bjd-common.c:94-151 | every tag compares equal to itself |
| Tags.EqualIntegers | src/mpack/bjd-common.c:84-114 | two integers are equal exactly when their values are, whichever of int or uint holds them |
| Tags.EqualAcrossSignedness | src/mpack/bjd-common.c:84-92 | a negative int never equals a uint; a non-negative int equals the uint of the same value |
| Tags.CmpContainers | src/mpack/bjd-common.c:116-135 | arrays and maps order by count, str and bin by length, exts by exttype and then by length |
| Tags.LexCompareZero | src/mpack/bjd-common.c:149-152 | the `memcmp` of float payloads is 0 exactly for equal bytes |
| Tags.LexCompareAntisymmetric | src/mpack/bjd-common.c:149-152 | swapping the operands of the `memcmp` negates it |
| Tags.NativeInjective | src/mpack/bjd-common.c:149-152 | two bit patterns have the same native bytes exactly when they are equal |
| Track.Push | src/mpack/bjd-common.c:377-394 | one frame more, for the kind and count, over the unchanged frames below |
| Track.Pop | src/mpack/bjd-common.c:396-429 | succeeds exactly for a frame of that kind with nothing left and no map value owed, and removes only it; otherwise Bug |
| Track.PeekElement | src/mpack/bjd-common.c:431-454 | Ok exactly when the tracker is empty or the top frame is an array or map that still owes an element |
| Track.Element | src/mpack/bjd-common.c:456-473 | succeeds exactly when `PeekElement` admits; an array frame owes one less; a map frame alternates key and value, and a pair is counted once the value is in |
| Track.TrackBytes | src/mpack/bjd-common.c:475-506 | succeeds exactly for a str, bin or ext frame with at least `count` bytes left, and takes them off; otherwise Bug |
| Track.StrBytesAll | src/mpack/bjd-common.c:508-526 | succeeds exactly for a str frame with exactly `count` bytes left, and takes all of them |
| Track.CheckEmpty | src/mpack/bjd-common.c:528-534 | Ok exactly when no frame is open, otherwise Bug |
| Track.Destroy | src/mpack/bjd-common.c:536-543 | a cancelled tracker is always Ok; otherwise Ok exactly when it is empty |
| Track.ArrayTakesExactlyCount | src/mpack/bjd-common.c:396-473 | an array of n takes at most n elements, and pops back to the tracker below exactly after n |
| Track.MapTakesTwiceCount | src/mpack/bjd-common.c:396-473 | a map of n pairs takes at most 2n elements, and pops back to the tracker below exactly after 2n |
| Track.PushThenPop | src/mpack/bjd-common.c:377-429 | a frame of count zero pops straight back to the tracker below |
| Track.TrackBytesAdditive | src/mpack/bjd-common.c:475-506 | reading a bytes and then b bytes is the same as reading a + b |
| Track.BytesThenPop | src/mpack/bjd-common.c:475-506 | after all of a str, bin or ext's bytes are read, the frame pops back to the tracker below |
| Track.StrAllThenPop | src/mpack/bjd-common.c:508-526 | reading a whole str at once leaves a frame that pops back to the tracker below |
| Utf8.CheckFrom | src/mpack/bjd-common.c:548-636 | the validator accepts from offset i exactly when the rest is well-formed UTF-8: no overlong forms, no surrogates, nothing past U+10FFFF, and no NUL when NULs are refused |
| Utf8.Check | src/mpack/bjd-common.c:548-640 | accepts exactly the well-formed strings |
| Utf8.CheckNoNull | src/mpack/bjd-common.c:548-644 | accepts exactly the well-formed strings without a zero byte |
| Utf8.StrCheckNoNull | src/mpack/bjd-common.c:646-651 | true exactly when no byte is zero |
| Utf8.CheckNoNullSplits | src/mpack/bjd-common.c:548-651 | the NUL-refusing validator is the plain validator together with the NUL check |
| Utf8.WellFormedConcat | src/mpack/bjd-common.c:548-636 | two well-formed strings concatenate to a well-formed string |
| Utf8.RejectsMalformed | src/mpack/bjd-common.c:560-632 | truncated sequences, bad and stray continuation bytes and five-byte leads are rejected |
| Utf8.RejectsOverlong | src/mpack/bjd-common.c:580-620 | overlong two-, three- and four-byte forms are rejected |
| Utf8.RejectsOutOfRange | src/mpack/bjd-common.c:590-632 | surrogates and code points past U+10FFFF are rejected, U+10FFFF is accepted, and a NUL passes only the NUL-allowing check |
| Wire.ParseTag | src/mpack/bjd-reader.c:579-921 | fails exactly on a bad lead byte (0xc1 Invalid, an ext without extensions Unsupported); a short input is missing bytes of a header of at most 9 (`BJDATA_MAXIMUM_TAG_SIZE`); a parsed header is exactly the size its lead byte gives |
| Wire.ParseIgnoresRest | src/mpack/bjd-reader.c:579-921 | a complete header parses the same whatever follows it |
| Wire.NarrowWritersAgree | src/bjd/bjd-writer.c:750-871 | the u8..u32 and i8..i32 writers write the same bytes as the 64-bit writers for the same value |
| Wire.IntAgreesWithUint | src/bjd/bjd-writer.c:795-908 | a non-negative signed integer is written exactly as the unsigned one |
| Wire.RoundTrip | src/bjd/bjd-writer.c:460-489 | parsing the written header of any writable tag, followed by anything, gives that tag as a reader sees it and uses exactly the header |
| Wire.UintRoundTrip | src/bjd/bjd-writer.c:795-809 | every unsigned value's encoding parses back to it |
| Wire.NegativeRoundTrip | src/bjd/bjd-writer.c:873-908 | every signed value's encoding parses back to it |
| Wire.StrRoundTrip | src/bjd/bjd-writer.c:976-993 | every str header parses back to its length, in both v4 and v5 modes |
| Wire.BinRoundTrip | src/bjd/bjd-writer.c:995-1013 | every bin header parses back to its length |
| Wire.ArrayRoundTrip | src/bjd/bjd-writer.c:948-959 | every array header parses back to its count |
| Wire.MapRoundTrip | src/bjd/bjd-writer.c:961-974 | every map header parses back to its count |
| Wire.ExtRoundTrip | src/bjd/bjd-writer.c:1028-1058 | every ext header parses back to its exttype and length |
| Wire.FloatRoundTrip | src/bjd/bjd-writer.c:910-913 | a float's 5 bytes parse back to the same bits |
| Wire.DoubleRoundTrip | src/bjd/bjd-writer.c:915-918 | a double's 9 bytes parse back to the same bits |
| Wire.IntegerMinimal | src/bjd/bjd-writer.c:795-908 | no integer header read from the wire is shorter than the writer's encoding of its value: the writer always picks the smallest form |
| Wire.IntegerSize | src/bjd/bjd-writer.c:795-908 | the size of an integer's encoding by range: 1 byte for -32..127, at most 2, 3 and 5 for the 8-, 16- and 32-bit ranges |
| Wire.CountMinimal | src/bjd/bjd-writer.c:948-1058 | no str, bin, ext, array or map header read from the wire is shorter than the writer's form for its length or count |
| Wire.UnpackTimestamp | src/mpack/bjd-reader.c:1038-1067 | a failure is Invalid; a payload that is not 4, 8 or 12 bytes always fails; a result always has nanoseconds of at most 999999999 |
| Wire.TimestampRoundTrip | src/bjd/bjd-writer.c:714-731 | every timestamp's payload unpacks back to it |
| Wire.TimestampMinimal | src/bjd/bjd-writer.c:714-731 | no timestamp payload read is shorter than the one the writer would choose |
| Wire.TimestampRejectsPacked | src/mpack/bjd-reader.c:1044-1064 | a 64-bit payload with nanoseconds 10^9 is rejected |
| Wire.TimestampRejectsLong | src/mpack/bjd-reader.c:1051-1064 | a 96-bit payload with nanoseconds 10^9 is rejected |
| Objects.ObjectIgnoresRest | src/mpack/bjd-reader.c:981-1022 | where an object ends does not depend on what follows it |
| Objects.ObjectsConcat | src/mpack/bjd-reader.c:1001-1017 | k + j objects in a row end where j objects end after the first k |
| Reader.Init | src/mpack/bjd-reader.c:30-45 | a reader whose unread input is exactly the given bytes |
| Reader.InitData | src/mpack/bjd-reader.c:55-68 | reads exactly the caller's bytes, with no fill function |
| Reader.InitError | src/mpack/bjd-reader.c:47-53 | starts in the given error with nothing to read and nothing reported |
| Reader.SetFill | src/mpack/bjd-reader.c:70-87 | Bug for a buffer under the minimum size; otherwise the fill's bytes follow the unread input |
| Reader.FlagError | src/mpack/bjd-reader.c:211-220 | only the first error is kept and reported, and nothing is left to read |
| Reader.FirstErrorWins | src/mpack/bjd-reader.c:211-220 | a second error changes neither the error nor the report |
| Reader.Fetch | src/mpack/bjd-reader.c:224-246 | succeeds exactly when the stream holds `min` more bytes; takes between `min` and `max` bytes, fewer than `max` only at the end of the stream; otherwise Io |
| Reader.Ensure | src/bjd/bjd-reader.h:905-912 | succeeds exactly when `count` bytes are buffered, or a fill function can bring them and they fit the buffer; otherwise Invalid, TooBig or Io by that cause |
| Reader.EnsureStraddle | src/mpack/bjd-reader.c:248-288 | as `Ensure`, for a count the window does not already hold |
| Reader.ReadNative | src/bjd/bjd-reader.h:918-927 | on success, exactly the next `count` bytes of the input, consumed; succeeds exactly when they are buffered or a fill function can deliver them |
| Reader.ReadNativeStraddle | src/mpack/bjd-reader.c:292-360 | the same bytes when they straddle the window; Bug if they did not |
| Reader.ShouldReadInplace | src/bjd/bjd-reader.h:708-710 | in place exactly for a reader without a buffer or a count at most 1/32 of it |
| Reader.TrackElement | src/bjd/bjd-reader.h:930-952 | succeeds exactly when the tracker admits an element, and counts it |
| Reader.TrackBytes | src/bjd/bjd-reader.h:930-952 | succeeds exactly when the open str, bin or ext has the bytes left, and takes them |
| Reader.DoneType | src/mpack/bjd-reader.c:1072-1077 | succeeds exactly when the tracker pops a frame of that kind |
| Reader.ParseHeader | src/mpack/bjd-reader.c:579-921 | a size of 0 exactly on error; otherwise the header is buffered and is what `Wire.ParseTag` makes of the input; an error is the lead byte's, or Invalid or Io for a truncated header |
| Reader.ReadTag | src/mpack/bjd-reader.c:923-964 | succeeds exactly when the tracker admits an element and a complete header is next; consumes exactly it, counts one element and opens the frame of a compound tag; Nil on failure |
| Reader.PeekTag | src/mpack/bjd-reader.c:966-979 | the same tag as `ReadTag`, with nothing consumed |
| Reader.PeekThenRead | src/mpack/bjd-reader.c:923-979 | a successful peek is followed by a successful read of the same tag |
| Reader.ReadBytes | src/mpack/bjd-reader.c:439-443 | the next `count` bytes of the input, tracked against the open str, bin or ext; succeeds exactly when both hold |
| Reader.ReadUtf8 | src/mpack/bjd-reader.c:445-451 | a successful read is well-formed UTF-8; for buffered untracked bytes it succeeds exactly when they are well-formed |
| Reader.ReadBytesInplace | src/mpack/bjd-reader.c:543-565 | the next `count` bytes, which must fit the buffer when a fill function is set |
| Reader.ReadUtf8Inplace | src/mpack/bjd-reader.c:567-576 | a whole str in place, which must be well-formed |
| Reader.ReadCstr | src/mpack/bjd-reader.c:454-482 | TooBig when the string and its terminator do not fit `bufsize`; otherwise the bytes, which must contain no zero byte |
| Reader.ReadUtf8Cstr | src/mpack/bjd-reader.c:484-493 | as `ReadCstr`, and the bytes must be well-formed UTF-8 |
| Reader.SkipBytes | src/mpack/bjd-reader.c:362-409 | succeeds exactly when the bytes are tracked and available, and consumes exactly them |
| Reader.SkipUsingFill | src/mpack/bjd-reader.c:411-437 | consumes `count` bytes straight from the fill function, Io when the stream runs out |
| Reader.ReadTimestamp | src/mpack/bjd-reader.c:1025-1068 | Invalid for a length other than 4, 8 or 12; on success the payload is consumed and unpacks to the result; {0, 0} on failure |
| Reader.TimestampPayload | src/mpack/bjd-reader.c:1033-1068 | for a valid length, the payload is consumed and unpacks to the result; {0, 0} on failure; with the payload buffered and no tracking, succeeds exactly when it unpacks |
| Reader.Discard | src/mpack/bjd-reader.c:981-1022 | succeeds exactly when the tracker admits an element and a complete object is next; it then consumes exactly that object and counts one element |
| Reader.DiscardArray | src/mpack/bjd-reader.c:1001-1009 | succeeds exactly when n whole objects follow, and ends where they end |
| Reader.DiscardMap | src/mpack/bjd-reader.c:1010-1018 | succeeds exactly when n key-value pairs of whole objects follow, and ends where they end |
| Reader.ReadObjectHeader | src/mpack/bjd-reader.c:923-964 | a tag read without error is where an object starts: the object ends where the tag's contents end |
| Expect.Read | src/mpack/bjd-reader.c:923-964 | the next tag exactly when a header can be read; consumes exactly it and opens its frame |
| Expect.Peek | src/mpack/bjd-reader.c:966-979 | the next tag, with nothing consumed |
| Expect.ExpectNil | src/bjd/bjd-expect.c:281-284 | succeeds exactly when the next element is nil; anything else that can be read is Type |
| Expect.ExpectBool | src/bjd/bjd-expect.c:286-291 | succeeds exactly on a bool and gives its value; anything else is Type |
| Expect.ExpectBoolValue | src/bjd/bjd-expect.c:293-301 | succeeds exactly on the given bool |
| Expect.BoolRoundTrip | src/bjd/bjd-expect.c:286-291 | a written bool is read back by `ExpectBool` as the same value |
| Expect.ExpectInt | src/bjd/bjd-expect.c:74-174 | succeeds exactly on an integer, signed or unsigned, that the target type holds, and gives its value; anything else is Type and 0 |
| Expect.ExpectIntRange | src/bjd/bjd-expect.c:229-263 | succeeds exactly on an integer within [min, max]; otherwise Type and `min` |
| Expect.WholeRange | src/bjd/bjd-expect.c:229-263 | the range of the whole type is the plain integer expect |
| Expect.ExpectIntMatch | src/bjd/bjd-expect.c:268-276 | succeeds exactly on an integer of that value, however it is stored |
| Expect.IntMatchIsTagMatch | src/bjd/bjd-expect.c:268-276 | matching an integer is matching its tag under `bjd_tag_equal` |
| Expect.IntRoundTrip | src/bjd/bjd-expect.c:74-174 | a written integer is read back as the same value by the expect of any type that holds it |
| Expect.ExpectTag | src/bjd/bjd-expect.c:664-668 | succeeds exactly when the next tag equals the expected one under `bjd_tag_equal` |
| Expect.ExpectCount | src/bjd/bjd-expect.c:328-334 | succeeds exactly on an array (or map) and gives its count; otherwise Type and 0 |
| Expect.ExpectCountMatch | src/bjd/bjd-expect.c:336-339 | succeeds exactly on an array (or map) of that count |
| Expect.ExpectCountRange | src/bjd/bjd-expect.c:262-263 | succeeds exactly on a count within [min, max]; otherwise Type and `min` |
| Expect.ExpectCountOrNil | src/bjd/bjd-expect.c:341-356 | a nil is accepted as absent; otherwise as `ExpectCount` |
| Expect.ExpectCountMaxOrNil | src/bjd/bjd-expect.c:358-368 | as `ExpectCountOrNil`, and a count over `max` is Type |
| Expect.MaxOrNilUnbounded | src/bjd/bjd-expect.c:341-368 | with the largest 32-bit maximum, the bounded expect is the unbounded one |
| Expect.CountRoundTrip | src/bjd/bjd-expect.c:328-381 | a written array or map header is read back as the same count |
| Expect.ExpectTimestamp | src/bjd/bjd-expect.c:304-318 | Type for anything but a timestamp ext, Invalid for a length outside {4, 8, 12}; on success the payload is consumed and unpacks to the result |
| Expect.ExpectStr | src/bjd/bjd-expect.c:450-479 | succeeds exactly on a str and gives its length; anything else is Type |
| Expect.ExpectStrBuf | src/bjd/bjd-expect.c:481-499 | succeeds exactly on a str that fits the buffer and is all there; gives its payload; longer is TooBig |
| Expect.ExpectUtf8 | src/bjd/bjd-expect.c:501-512 | as `ExpectStrBuf`, and a payload that is not well-formed UTF-8 is Type |
| Expect.ExpectBin | src/bjd/bjd-expect.c:514-520 | succeeds exactly on a bin and gives its length; anything else is Type |
| Expect.ExpectBinBuf | src/bjd/bjd-expect.c:522-537 | succeeds exactly on a bin that fits the buffer and is all there; longer is TooBig |
| Expect.ExpectExt | src/bjd/bjd-expect.c:547-556 | succeeds exactly on an ext and gives its exttype and length |
| Expect.ExpectExtBuf | src/bjd/bjd-expect.c:558-576 | succeeds exactly on an ext that fits the buffer and is all there; gives its exttype and payload |
| Expect.ExpectCstr | src/bjd/bjd-expect.c:579-583 | succeeds exactly on a str shorter than the buffer, all there, without a zero byte; a str as long as the buffer is TooBig |
| Expect.ExpectUtf8Cstr | src/bjd/bjd-expect.c:585-589 | as `ExpectCstr`, and the payload must be well-formed UTF-8 |
| Expect.ExpectStrMatch | src/bjd/bjd-expect.c:642-662 | succeeds exactly when the next str's payload is the given string; a different length is Type |
| Expect.FindKey | src/bjd/bjd-expect.c:715-735 | the index of the first equal string, or the count when there is none |
| Expect.StrInplace | src/bjd/bjd-expect.c:715-735 | succeeds exactly on a str that is all there and fits the buffer, and gives its payload |
| Expect.ExpectEnum | src/bjd/bjd-expect.c:715-735 | the index of the first string equal to the next str; Type and the count when none is |
| Expect.ExpectEnumOptional | src/bjd/bjd-expect.c:737-767 | the index of the first equal string; the count otherwise, with no error for a readable str that matches none; a non-str is skipped whole |
| Expect.Skip | src/mpack/bjd-reader.c:981-1022 | an element a peek found unwanted is discarded: it succeeds exactly when the input holds the whole object, which it then consumes and counts as one element |
| Expect.ExpectKeyUint | src/bjd/bjd-expect.c:769-803 | Bug for an empty `found` array; a uint key below the count and not yet found is marked and returned; a repeated key is Invalid; other keys give the count; a non-uint is skipped |
| Expect.MarkKey | src/bjd/bjd-expect.c:787-802 | marks key k once; a second time is Invalid |
| Expect.ExpectKeyCstr | src/bjd/bjd-expect.c:805-821 | the index of the str key among the names, marked as found; a name found twice is Invalid; a non-str is skipped |
| Writer.Init | src/bjd/bjd-writer.c:73-87 | an empty writer with the whole buffer free and nothing written |
| Writer.InitError | src/bjd/bjd-writer.c:89-95 | starts in the given error with no buffer space, no output and nothing reported |
| Writer.SetFlush | src/bjd/bjd-writer.c:97-112 | Bug for a buffer under the minimum size; otherwise the flush function is installed and the output is unchanged |
| Writer.BufferUsed | src/mpack/bjd-writer.h:420-422 | used and left add up to the buffer size |
| Writer.BufferLeft | src/mpack/bjd-writer.h:428-430 | never more than the buffer size |
| Writer.BufferSize | src/mpack/bjd-writer.h:436-438 | the size the writer was given, never less than what it buffers |
| Writer.FlagError | src/bjd/bjd-writer.c:313-321 | only the first error is kept and reported; the output is unchanged |
| Writer.FirstErrorWins | src/bjd/bjd-writer.c:313-321 | a second error changes neither the error nor the report |
| Writer.FlushBuffer | src/bjd/bjd-writer.c:323-330 | the buffer empties into the flush function's stream; succeeds exactly when the stream takes it, otherwise Io |
| Writer.FlushMessage | src/bjd/bjd-writer.c:332-350 | succeeds exactly with no open container and a flush function that takes the buffer; then everything written has been flushed; otherwise Bug or Io |
| Writer.Ensure | src/bjd/bjd-writer.c:355-383 | succeeds exactly when a flush function can take the buffer, which then holds `count` free bytes; otherwise TooBig without one and Io with one |
| Writer.WriteEncoded | src/bjd/bjd-writer.c:737-748 | succeeds exactly when the bytes fit; then exactly them are appended to the output and the room shrinks by their length |
| Writer.WriteNative | src/bjd/bjd-writer.c:385-437 | as `WriteEncoded` for bytes of any length; a writer in error still copies bytes that fit into its buffer |
| Writer.RoomSuffices | src/bjd/bjd-writer.c:350-437 | a write within the room always finds space; without a flush function it fits exactly when it is within the room |
| Writer.TrackElement | src/bjd/bjd-writer.c:44-47 | succeeds exactly when another element may be written, and counts it; otherwise Bug |
| Writer.TrackPush | src/bjd/bjd-writer.c:34-37 | opens the frame of the kind and count when tracking and without error |
| Writer.TrackBytes | src/bjd/bjd-writer.c:49-52 | succeeds exactly when the open str, bin or ext has the bytes left |
| Writer.FinishType | src/mpack/bjd-writer.h:899-901 | nothing is written; succeeds exactly when the tracker pops an open, complete frame of that kind, which is then gone; otherwise Bug |
| Writer.FinishArray | src/mpack/bjd-writer.h:636-638 | closes an array whose elements are all written, otherwise Bug; nothing is written |
| Writer.FinishMap | src/mpack/bjd-writer.h:650-652 | closes a map whose pairs are all written, otherwise Bug; nothing is written |
| Writer.FinishStr | src/mpack/bjd-writer.h:852-854 | closes a str whose bytes are all written, otherwise Bug; nothing is written |
| Writer.FinishBin | src/mpack/bjd-writer.h:867-869 | closes a bin whose bytes are all written, otherwise Bug; nothing is written |
| Writer.FinishExt | src/mpack/bjd-writer.h:885-887 | closes an ext whose bytes are all written, otherwise Bug; nothing is written |
| Writer.WriteElement | src/bjd/bjd-writer.c:490-495 | succeeds exactly when an element may be written and the bytes fit; then exactly them are written and one element is counted |
| Writer.WriteNil | src/bjd/bjd-writer.c:497-499 | writes exactly the header `Wire.Encode` gives for nil, counted as one element |
| Writer.WriteBool | src/bjd/bjd-writer.c:501-503 | writes exactly 0xc2 or 0xc3, counted as one element |
| Writer.WriteTrue | src/bjd/bjd-writer.c:505-507 | writes exactly 0xc3, the true bool, counted as one element |
| Writer.WriteFalse | src/bjd/bjd-writer.c:509-511 | writes exactly 0xc2, the false bool, counted as one element |
| Writer.WriteU64 | src/bjd/bjd-writer.c:795-809 | writes exactly the encoding of the value, counted as one element |
| Writer.WriteI64 | src/bjd/bjd-writer.c:873-908 | writes exactly the encoding of the value, counted as one element |
| Writer.WriteUint | src/mpack/bjd-writer.h:524-527 | writes exactly the encoding of the unsigned value, counted as one element |
| Writer.WriteInt | src/mpack/bjd-writer.h:508-511 | writes exactly the encoding of the signed value, counted as one element |
| Writer.WriteU8 | src/bjd/bjd-writer.c:750-763 | writes exactly the encoding of the value, counted as one element |
| Writer.WriteU16 | src/bjd/bjd-writer.c:763-776 | its branch chain writes exactly the encoding `WriteU64` writes for the value, counted as one element |
| Writer.WriteU32 | src/bjd/bjd-writer.c:778-793 | its branch chain writes exactly the encoding `WriteU64` writes for the value, counted as one element |
| Writer.WriteI8 | src/bjd/bjd-writer.c:811-824 | writes exactly the encoding of the value, counted as one element |
| Writer.WriteI16 | src/bjd/bjd-writer.c:825-845 | its branch chain writes exactly the encoding `WriteI64` writes for the value, counted as one element |
| Writer.WriteI32 | src/bjd/bjd-writer.c:847-871 | its branch chain writes exactly the encoding `WriteI64` writes for the value, counted as one element |
| Writer.WriteFloat | src/bjd/bjd-writer.c:910-913 | writes exactly 0xca and the 32 bits, counted as one element |
| Writer.WriteDouble | src/bjd/bjd-writer.c:915-918 | writes exactly 0xcb and the 64 bits, counted as one element |
| Writer.WriteTimestamp | src/bjd/bjd-writer.c:921-945 | Bug in v4 mode or for nanoseconds past 999999999; otherwise exactly the timestamp ext is written as one element |
| Writer.StartArray | src/bjd/bjd-writer.c:948-959 | writes exactly the array header, counts one element and opens an array frame of the count |
| Writer.StartMap | src/bjd/bjd-writer.c:961-974 | writes exactly the map header, counts one element and opens a map frame of the count |
| Writer.StartStr | src/bjd/bjd-writer.c:1015-1019 | writes exactly the str header for the mode and opens a str frame of the length |
| Writer.StartBin | src/bjd/bjd-writer.c:1021-1025 | writes exactly the bin header for the mode and opens a bin frame of the length |
| Writer.StartExt | src/bjd/bjd-writer.c:1028-1058 | Bug in v4 mode; otherwise writes exactly the ext header and opens an ext frame |
| Writer.WriteTag | src/bjd/bjd-writer.c:460-489 | Bug for a tag that cannot be written, with nothing written; otherwise exactly the tag's header, one element counted and its frame opened |
| Writer.WriteBytes | src/bjd/bjd-writer.c:1138-1142 | succeeds exactly when the open str, bin or ext has the bytes left and they fit; then exactly them are written |
| Writer.WriteObjectBytes | src/bjd/bjd-writer.c:513-516 | pre-encoded bytes written as they are and counted as one element |
| Writer.WriteStr | src/bjd/bjd-writer.c:1067-1120 | one element of exactly the str header for the mode and the bytes; it succeeds whenever an element may be written within the room, and without a flush function only then |
| Writer.WriteBin | src/bjd/bjd-writer.c:1122-1127 | one element of exactly the bin header for the mode and the bytes; it succeeds whenever an element may be written within the room |
| Writer.WriteExt | src/bjd/bjd-writer.c:1130-1135 | one element of exactly the ext header and the bytes; in v4 mode Bug, with the bytes still copied into the buffer when they fit |
| Writer.StrLen | src/bjd/bjd-writer.c:1144-1150 | the index of the first zero byte |
| Writer.WriteCstr | src/bjd/bjd-writer.c:1144-1150 | writes the string before the first zero byte as a str; a length past 32 bits is Invalid |
| Writer.WriteCstrOrNil | src/bjd/bjd-writer.c:1152-1157 | nil for a null pointer, otherwise as `WriteCstr` |
| Writer.WriteUtf8 | src/bjd/bjd-writer.c:1159-1166 | Invalid with nothing written for bytes that are not well-formed UTF-8; otherwise as `WriteStr` |
| Writer.WriteUtf8Cstr | src/bjd/bjd-writer.c:1168-1176 | as `WriteCstr`, and the string must be well-formed UTF-8 |
| Writer.WriteUtf8CstrOrNil | src/bjd/bjd-writer.c:1178-1183 | nil for a null pointer, otherwise as `WriteUtf8Cstr` |
| Writer.Destroy | src/bjd/bjd-writer.c:439-458 | without an error, flushes what is buffered once and returns Ok exactly when the stream took it; the error otherwise |
| RoundTrip.WrittenTagReadsBack | src/bjd/bjd-writer.c:460-489 | a tag written without error is read back by `bjd_read_tag` as the tag a reader sees for it, using exactly its header |
| RoundTrip.WrittenPayloadReadsBack | src/bjd/bjd-writer.c:1067-1135 | a written str, bin or ext is exactly one complete object; reading its tag and then its bytes gives back the payload |
| RoundTrip.WrittenTimestampReadsBack | src/bjd/bjd-writer.c:921-945 | a written timestamp is read back by `bjd_read_timestamp` as the same seconds and nanoseconds |
| Nodes.NodeType | src/bjd/bjd-node.c:1914-1918 | nil on a tree in error, otherwise the node's type |
| Nodes.IsNil | src/bjd/bjd-node.c:1920-1926 | true exactly when the node's type is nil |
| Nodes.IsMissing | src/bjd/bjd-node.c:1928-1934 | true exactly when the node's type is missing, which is never nil |
| Nodes.CheckKind | src/bjd/bjd-node.c:1936-1948 | Ok exactly when the node has the type; otherwise Type |
| Nodes.NodeBool | src/bjd/bjd-node.c:1950-1959 | a bool node's value; anything else is Type and false |
| Nodes.CheckBool | src/bjd/bjd-node.c:1961-1969 | Ok exactly on the given bool |
| Nodes.IntegerIn | src/bjd/bjd-node.c:1971-2095 | the node's integer value when it is within the target type; anything else is Type and 0 |
| Nodes.NodeU8 | src/bjd/bjd-node.c:1971-1985 | the value of an integer node, signed or unsigned, within 0 to 255; anything else is Type and 0, and the parse is unchanged |
| Nodes.NodeI8 | src/bjd/bjd-node.c:1987-2001 | the value of an integer node, signed or unsigned, within -128 to 127; anything else is Type and 0, and the parse is unchanged |
| Nodes.NodeU16 | src/bjd/bjd-node.c:2003-2017 | the value of an integer node, signed or unsigned, within 0 to 65535; anything else is Type and 0, and the parse is unchanged |
| Nodes.NodeI16 | src/bjd/bjd-node.c:2019-2033 | the value of an integer node, signed or unsigned, within -32768 to 32767; anything else is Type and 0, and the parse is unchanged |
| Nodes.NodeU32 | src/bjd/bjd-node.c:2035-2049 | the value of an integer node, signed or unsigned, within 0 to 2^32 - 1; anything else is Type and 0, and the parse is unchanged |
| Nodes.NodeI32 | src/bjd/bjd-node.c:2051-2065 | the value of an integer node, signed or unsigned, within -2^31 to 2^31 - 1; anything else is Type and 0, and the parse is unchanged |
| Nodes.NodeU64 | src/bjd/bjd-node.c:2067-2080 | the value of an integer node, signed or unsigned, within 0 to 2^64 - 1; anything else is Type and 0, and the parse is unchanged |
| Nodes.NodeI64 | src/bjd/bjd-node.c:2082-2095 | the value of an integer node, signed or unsigned, within -2^63 to 2^63 - 1; anything else is Type and 0, and the parse is unchanged |
| Nodes.NodeUint | src/bjd/bjd-node.c:2097-2110 | with a 32-bit `unsigned int`, the value of an integer node within 0 to 2^32 - 1; anything else is Type and 0 |
| Nodes.NodeInt | src/bjd/bjd-node.c:2112-2125 | with a 32-bit `int`, the value of an integer node within -2^31 to 2^31 - 1; anything else is Type and 0 |
| Nodes.WidestAccessors | src/bjd/bjd-node.c:2071-2095 | u64 and i64 give any uint or int node's value; u64 fails exactly on negatives and i64 exactly past its maximum |
| Nodes.Exttype | src/bjd/bjd-node.c:2186-2196 | an ext node's exttype; anything else is Type and 0 |
| Nodes.DataLength | src/bjd/bjd-node.c:2198-2223 | the length of a node of an accepted kind; anything else is Type and 0 |
| Nodes.DataBytes | src/bjd/bjd-node.c:2225-2262 | the payload of a node of an accepted kind; anything else is Type and no pointer |
| Nodes.BytesMatchLength | src/bjd/bjd-node.c:2198-2262 | the data and length accessors fail together, and the bytes are as many as the length, from where the node's payload sits in the data |
| Nodes.Count | src/bjd/bjd-node.c:2275-2315 | the element or pair count of an array or map; anything else is Type and 0 |
| Nodes.ChildAt | src/bjd/bjd-node.c:2287-2340 | the child at an index within the count; the wrong type is Type, an index past the count is Data, and a failure gives the nil node |
| Nodes.ArrayAt | src/bjd/bjd-node.c:2287-2302 | the index-th child of an array node with more than `index` elements; otherwise Type or Data and the nil node |
| Nodes.MapKeyAt | src/bjd/bjd-node.c:2317-2336 | the first child of pair `index` of a map node with more than `index` pairs; otherwise Type or Data and the nil node |
| Nodes.MapValueAt | src/bjd/bjd-node.c:2317-2340 | the child right after the same pair's key, failing exactly as `MapKeyAt` does |
| Nodes.IndexWithinCount | src/bjd/bjd-node.c:2275-2340 | indexing succeeds exactly below the count, and distinct indices reach distinct children |
| Nodes.MatchingExact | src/bjd/bjd-node.c:1718-1811 | the indices whose key matches, in increasing order, are exactly the matching pairs |
| Nodes.Lookup | src/bjd/bjd-node.c:1718-1811 | the value slot of the single pair whose key matches, and none when no key or more than one key matches |
| Nodes.Scan | src/bjd/bjd-node.c:1727-1744 | reports a duplicate exactly when two or more keys match; otherwise the value slot of the one matching pair, or none |
| Nodes.MapGet | src/bjd/bjd-node.c:1813-1863 | the value of the unique matching key; otherwise the nil node, with Type for a node that is not a map and Data for a missing or repeated key |
| Nodes.MapGetOptional | src/bjd/bjd-node.c:1822-1829 | the value of the unique matching key; a missing key is the missing node and no error |
| Nodes.MapContains | src/bjd/bjd-node.c:1865-1880 | true exactly when exactly one key matches |
| Nodes.LookupIsIndexing | src/mpack/bjd-node.h:1235-1266 | a lookup agrees with indexing: the unique match's value is the value at its index, no match means no key at any index matches, and two matches are two distinct indices |
| Nodes.KeyMatchesEqual | src/bjd/bjd-node.c:1718-1778 | an integer key matches a node exactly when its tag is equal under `bjd_tag_equal`, for signed and unsigned lookups alike |
| Nodes.SignedUnsignedKeys | src/bjd/bjd-node.c:1718-1778 | a non-negative key finds the same pairs looked up as signed or as unsigned |
| Nodes.EnumOptional | src/bjd/bjd-node.c:1882-1905 | the index of the first string equal to the str node; the count exactly when the node is not a str or no string is equal |
| Nodes.Enum | src/bjd/bjd-node.c:1907-1912 | as `EnumOptional`, and Type exactly when nothing matches |
| Tree.FlagError | src/bjd/bjd-node.c:1219-1227 | only the first error is kept and reported; the parse is unchanged |
| Tree.FirstErrorWins | src/bjd/bjd-node.c:1219-1227 | a second error changes neither the error nor the report |
| Tree.Grown | src/bjd/bjd-node.c:108-114 | never past the size limit, and large enough unless the limit stops it |
| Tree.ReadLoop | src/bjd/bjd-node.c:137-161 | the data only grows from the same stream; succeeds exactly when the bytes are reached; fails only with the stream drained; succeeds whenever the stream holds enough |
| Tree.ReserveFill | src/bjd/bjd-node.c:82-163 | TooBig past the message size limit, Invalid without a read function; succeeds whenever the limit and the stream allow, with the reservation covered |
| Tree.ReserveFillAsWritten | src/bjd/bjd-node.c:82-163 | the source's limit check; the parse is unchanged and the data grows from the same stream |
| Tree.ReserveBytes | src/bjd/bjd-node.c:181-208 | Invalid past SIZE_MAX; on success the reservation grows by `extra` and is covered; succeeds whenever the limits and the stream allow |
| Tree.FieldReserve | src/bjd/bjd-node.c:500-677 | the field a lead byte reserves, with an ext's type byte, is the header's size after the lead byte |
| Tree.NodeTagAgrees | src/bjd/bjd-node.c:432-735 | the tree decodes every header as the streaming reader does |
| Tree.ReserveChildren | src/bjd/bjd-node.c:290-360 | on success the children's bytes are reserved, the node's children carved in the arena and a level pushed; on failure the parse is unchanged |
| Tree.ParseChildren | src/bjd/bjd-node.c:267-361 | a map of n pairs has 2n children; past the node limit is TooBig; on success the children are carved and counted once; succeeds whenever the limits and the stream allow |
| Tree.ParseChildrenAsWritten | src/bjd/bjd-node.c:267-361 | the source's order: past the node limit is TooBig, and a stall for data leaves the children counted |
| Tree.ParseFixed | src/bjd/bjd-node.c:436-627 | a node without payload or children is placed as the header the stream holds |
| Tree.ParsePayload | src/bjd/bjd-node.c:479-677 | a str or bin node records where its payload starts, with the payload reserved |
| Tree.ParseExtNode | src/bjd/bjd-node.c:367-374 | an ext node records its exttype and where its payload starts, with the payload reserved |
| Tree.ParseContainer | src/bjd/bjd-node.c:676-735 | an array or map node gets its children carved |
| Tree.ParseNodeContents | src/bjd/bjd-node.c:376-739 | fails exactly with the lead byte's error on a bad lead; on success the node is placed as the header at `size` and its extent reserved; a failure the limits did not cause means the stream is short |
| Tree.ParseNode | src/bjd/bjd-node.c:741-771 | a parsed node moves `size` past its header and, for a leaf, its payload, keeping the byte budget balanced; a failure leaves the parse where it was |
| Tree.Popped | src/bjd/bjd-node.c:804-807 | closes the finished levels on top of the stack and keeps what is owed; only the root's level may end with nothing left |
| Tree.Step | src/bjd/bjd-node.c:786-808 | a step moves `size` forward and leaves the parser between nodes or done, still tracking the message; unless a limit stopped it, a failure means the objects owed are not all in the stream |
| Parse.ContinueParsing | src/bjd/bjd-node.c:778-811 | ends done exactly where the message ends, or fails with an error or a drained input; a failure the limits did not cause means the message is incomplete |
| Parse.Restart | src/bjd/bjd-node.c:843-871 | drops the bytes of the message parsed last; the rest of the stream is the new message, every byte a possible node |
| Parse.ParseStart | src/bjd/bjd-node.c:834-915 | on success the root is allocated with one byte reserved and the parse tracks the message; a failure the limits did not cause means the message is empty |
| Parse.TryParse | src/bjd/bjd-node.c:956-971 | succeeds exactly when the tree ends parsed without error, `size` then where the message ends; a failure is an error or a drained input, which the limits alone cannot cause for an incomplete message |
| Parse.Parse | src/bjd/bjd-node.c:925-950 | keeps an error it had; otherwise ends parsed exactly where the message ends; within the limits it succeeds exactly when the message is a complete object |
| Parse.DoneWhole | src/bjd/bjd-node.c:804-807 | a finished parse that tracked the message ends exactly where the message ends |
| Parse.Feed | src/mpack/bjd-node.h:461-483 | more data for the read function extends the message and keeps the parse sound |
| Parse.InitData | src/bjd/bjd-node.c:1005-1022 | a sound tree over the bytes, whose limits never stop it |
| Parse.InitPool | src/bjd/bjd-node.c:1025-1047 | Bug exactly for an empty pool; otherwise a sound tree over the bytes limited to the pool |
| Parse.InitError | src/bjd/bjd-node.c:1049-1055 | a sound tree in the given error, nothing reported |
| Parse.InitStream | src/bjd/bjd-node.c:1058-1072 | a sound tree with a read function, the limits given and the whole stream as its message |
| Parse.Root | src/bjd/bjd-node.c:979-994 | the root exactly for a tree parsed without error; Bug for a tree not parsed |
| Findings.Str8TooBigAsWritten | src/bjd/bjd-node.c:91-95 | with the source's check, the 10-byte str8 message under a 10-byte limit is rejected TooBig |
| Findings.Str8Filled | src/bjd/bjd-node.c:91-95 | with the corrected check, the same message is read whole |
| Findings.Str8Fits | src/bjd/bjd-node.c:91-95 | the message is one complete 10-byte object and the limits admit 10 bytes |
| Findings.ArrayTooBigAsWritten | src/bjd/bjd-node.c:282-292 | with the source's order, the 3-node array under a 3-node limit ends TooBig once its parse resumes |
| Findings.ArrayParsed | src/bjd/bjd-node.c:282-292 | with the corrected order, the same array is parsed with 3 nodes |
| Findings.ArrayFits | src/bjd/bjd-node.c:282-292 | the message `92 01 02` is one complete 3-byte object, a fixarray and its two fixints, and the starting tree is sound |
| Findings.SignedChar | src/bjd/bjd-expect.c:655 | what a plain `char` promotes to where it is signed: the byte itself below 0x80, otherwise a negative value, the same modulo 256 |
| Findings.MatchBytesSignedChar | src/bjd/bjd-expect.c:654-659 | the comparison loop on a signed-char target: succeeds exactly when the input holds the string and every byte is below 0x80; a held string with a byte from 0x80 up is Type |
| Findings.ExpectStrMatchSignedChar | src/bjd/bjd-expect.c:642-662 | `bjd_expect_str_match` on a signed-char target: succeeds exactly when `ExpectStrMatch` would and the string is below 0x80; a matching str with a byte from 0x80 up is Type |
| Findings.EAcuteIsStr | src/bjd/bjd-expect.c:642-662 | the message `a2 c3 a9` is one complete 3-byte object, a str whose payload is the two bytes of "é" |
| Findings.StrMatchSignedCharRejects | src/bjd/bjd-expect.c:655 | with the signed comparison, matching "é" against that message is Type |
| Findings.StrMatchAccepted | src/bjd/bjd-expect.c:642-662 | comparing bytes with bytes, that message meets `ExpectStrMatch`'s success condition |

## Left out

- Tree.ReserveFill: the size limit counts each byte of the message once (`|data| + reserved - possible > maxSize`). bjd-node.c:93 counts the buffered part of the reservation twice; that version is `Tree.ReserveFillAsWritten` (see Findings).
- Tree.ParseChildren: the node count grows once the children are carved. bjd-node.c:284-288 grows it before `bjd_tree_reserve_bytes`, so a node retried after a stall counts its children twice; that version is `Tree.ParseChildrenAsWritten` (see Findings).
- Expect.ExpectStrMatch: the byte read is compared with the expected byte as unsigned, so any byte matches itself. bjd-expect.c:655 compares a `uint8_t` with a plain `char`; where `char` is signed (x86 with gcc, clang and MSVC), every expected byte from 0x80 up fails with Type. That version is `Findings.ExpectStrMatchSignedChar` (see Findings).
- Parse.Parse: its "succeeds exactly when the message is complete" holds for the corrected tree of the two lines above. With bjd-node.c as written, a streamed message within the limits can fail with TooBig; `Findings` shows both cases.
- Tree.ReserveChildren, Track.Push, Writer.TrackPush: allocation never fails. The `bjd_error_memory` paths are not modelled: tracker growth, tree page and stack growth (bjd-node.c:125-127, 234-251, 326-339, 895-897), and the fixed parse-stack capacity of builds without malloc. A caller's fixed node pool is the one arena limit.
- Reader.SkipBytes: the skip callback `bjd_reader_set_skip` (bjd-reader.c:90-92, used at 384-388) is not modelled; a long skip reads through the fill function as if no skip callback were set.
- Reader.Fetch, Tree.ReadLoop, Writer.Sink: a fill, read or flush function is one fixed byte stream. It hands over as much as is asked for and available, or takes everything it is given up to its capacity. Short reads that a later call would complete, retries and a stream that changes between calls are not modelled.
- Tags.NativeBytes: the `memcmp` of float and double payloads in `bjd_tag_cmp` compares their bytes in little-endian order, the order of the usual platforms; big-endian platforms are not modelled.
- Tags.Cmp: float and double payloads are opaque bit patterns. Nothing interprets them as numbers, so NaN and signed-zero behaviour is only what `memcmp` of the bits gives.
- Types.CodeInjective: `bjd_type_huge` and the bin type are one variant, `Bin`; the source uses `bjd_type_huge` for every bin.
- `bjd_type_noop` is left out: it has no wire form, and `bjd_tag_cmp` does not accept it.
- The stdio readers and writers, the growable (realloc) writer and the tree's buffer reallocation are left out; they are I/O and memory management around the core. Only the new capacity the tree would choose is modelled, as `Tree.Grown`.
- Reader.SetFill: on a reader already in error the source still installs the fill function, which the model leaves off. Nothing reads from a reader in error, so no caller can tell.
- Writer.Destroy: the result of `bjd_track_destroy` is ignored by the source (bjd-writer.c:442-444), so the tracker plays no part; the teardown callback is left out with the stdio and growable writers.
- `bjd_expect_float`, `bjd_expect_double` and their range forms (bjd-expect.c:176-220, 259-260), `bjd_node_float` and `bjd_node_double` (bjd-node.c:2127-2184): float conversion is left out, because payloads are opaque bit patterns.
- `bjd_expect_timestamp_truncate` (bjd-expect.c:320-323) and `bjd_node_timestamp` (bjd-node.c:1413-1461): the node form decodes the same payloads as `Wire.UnpackTimestamp`, and truncation only drops the nanoseconds.
- `bjd_expect_bin_size_buf` (bjd-expect.c:539-544), `bjd_expect_array_alloc` (413-448) and the `*_alloc` expects (592-640, 671-713): they add a caller allocation to `Expect.ExpectBinBuf`, `Expect.ExpectCount` and `Expect.ExpectCstr`, and allocation is not modelled.
- `bjd_node_check_utf8` (bjd-node.c:1472-1487), the `bjd_node_copy_*` functions (1488-1606) and the `bjd_node_*_alloc` functions (1608-1716): copies into caller buffers of what `Nodes.DataBytes` gives, with `Utf8.Check`.
- `bjd_reader_destroy` and `bjd_reader_remaining` (bjd-reader.c:183-209), `bjd_tree_set_limits` (bjd-node.c:1075) and `bjd_tree_destroy`: only the limits given at initialisation are modelled.
- Error callbacks that do not return (longjmp) are not modelled: the callback is a log of the first error.
- C strings: a string passed to the writer (`Writer.WriteCstr` and its variants) is a byte sequence that contains its terminator, and a null pointer is `None`; a string read into a buffer (`Reader.ReadCstr`) is the bytes before the terminator the buffer receives. The string lists of `Expect.FindKey`, `Expect.ExpectEnum`, `Expect.ExpectEnumOptional`, `Expect.ExpectKeyCstr`, `Nodes.EnumOptional` and `Nodes.Enum` hold each string's bytes before its terminator, so none holds a zero byte (`Bytes.CStrings`); comparing `bjd_strlen` and then `memcmp` is then plain sequence equality.
- Buffer contents after a failed read are not modelled: a failed read gives no bytes or zeros, as the contract of each read says.
- Debug printing, assertions of debug builds and the size-optimised code paths are left out.

## Findings

| source | as written | input that shows it | evidently intended | confidence | as-written member | corrected member |
|---|---|---|---|---|---|---|
| src/bjd/bjd-node.c:91-95 | `data_length + bytes > max_size` adds the whole reservation to the buffered data, though the buffered part of it is already in `data_length` | a streaming tree with `max_size` 10 reading the 10-byte message `d9 08` followed by 8 zero bytes; the header is buffered and the node reserves 9 bytes, 1 of them buffered: 2 + 9 > 10 rejects it with TooBig | the message's own size is checked: `data_length + bytes - possible_nodes_left > max_size`, 10 here, which passes | not executed | Tree.ReserveFillAsWritten, Findings.Str8TooBigAsWritten | Tree.ReserveFill, Findings.Str8Filled |
| src/bjd/bjd-node.c:282-292 | `node_count += total` runs before `bjd_tree_reserve_bytes`, which in a non-blocking parse returns false without an error; the retry parses the same node and adds `total` again | a streaming tree with `max_nodes` 3 whose read function first gives only `92` of the message `92 01 02`; the stalled attempt counts 1 + 2 nodes, the resumed one 3 + 2 = 5 > 3, and the message is rejected with TooBig | the children are counted once, when they are reserved and allocated: 3 nodes, within the limit | not executed | Tree.ParseChildrenAsWritten, Findings.ArrayTooBigAsWritten | Tree.ParseChildren, Findings.ArrayParsed |
| src/bjd/bjd-expect.c:655 | `bjd_expect_native_u8(reader) != *str++` compares a `uint8_t`, promoted to 0..255, with a plain `const char`, which on signed-char targets promotes bytes from 0x80 up to negative values that no read byte equals | a reader at `a2 c3 a9`, the fixstr "é", matched against the string `c3 a9` of length 2: the first byte 0xc3 (195) is compared with -61, and the match fails with Type | each byte is compared as an unsigned byte, `(uint8_t)*str`, so every UTF-8 string can be matched | not executed | Findings.ExpectStrMatchSignedChar, Findings.MatchBytesSignedChar, Findings.StrMatchSignedCharRejects | Expect.ExpectStrMatch, Expect.MatchBytes, Findings.StrMatchAccepted |
