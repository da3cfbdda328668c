/**
 * The nesting tracker (`bjd_track_*`, bjd-common.c:352-543): a stack with one
 * frame per open array, map, str, bin or ext. It checks that each container
 * receives exactly the elements or bytes its header declared, in order.
 */
module Track {
  import opened Bytes
  import opened Wrappers
  import opened Errors
  import Types
  import Tags

  datatype FrameData = FrameData(kind: Types.Type, left: U32, keyNeedsValue: bool)

  /**
   * One open container (`bjd_track_element_t`). `left` counts the elements
   * (pairs, for a map) or bytes still owed. Only a map frame ever waits for the
   * value of a key it has seen, and then at least one pair is still owed,
   * because the key was only accepted while `left` was positive.
   */
  type Frame = f: FrameData | f.keyNeedsValue ==> f.kind == Types.Map && f.left > 0
    witness FrameData(Types.Nil, 0, false)

  /** `bjd_track_t`; the stack's capacity and its growth are not modelled. */
  datatype Tracker = Tracker(frames: seq<Frame>) {

    predicate IsEmpty() {
      |frames| == 0
    }

    function Top(): Frame
      requires !IsEmpty()
    {
      frames[|frames| - 1]
    }

    /** The same stack with its top frame replaced. */
    function WithTop(f: Frame): (t: Tracker)
      requires !IsEmpty()
      ensures |t.frames| == |frames| && t.Top() == f
      ensures t.frames[..|frames| - 1] == frames[..|frames| - 1]
    {
      Tracker(frames[..|frames| - 1] + [f])
    }
  }

  const Empty := Tracker([])

  /** `bjd_track_push` (bjd-common.c:377-394): opens a frame, even for a count of zero. */
  function Push(t: Tracker, kind: Types.Type, count: U32): (r: Tracker)
    ensures |r.frames| == |t.frames| + 1
    ensures r.frames[..|t.frames|] == t.frames
    ensures r.Top() == FrameData(kind, count, false)
  {
    Tracker(t.frames + [FrameData(kind, count, false)])
  }

  /** The frame reading or writing a tag opens (`bjd_read_tag`, `bjd_start_*`), if any. */
  function PushFor(t: Tracker, tag: Tags.Tag): (t': Tracker)
    ensures tag.Array? || tag.Map? ==> t' == Push(t, tag.Kind(), tag.count)
    ensures tag.Str? || tag.Bin? || tag.Ext? ==> t' == Push(t, tag.Kind(), tag.len)
    ensures !(tag.Array? || tag.Map? || tag.Str? || tag.Bin? || tag.Ext?) ==> t' == t
  {
    match tag
    case Array(n) => Push(t, Types.Array, n)
    case Map(n) => Push(t, Types.Map, n)
    case Str(n) => Push(t, Types.Str, n)
    case Bin(n) => Push(t, Types.Bin, n)
    case Ext(_, n) => Push(t, Types.Ext, n)
    case _ => t
  }

  /**
   * `bjd_track_pop` (bjd-common.c:396-429): closes the top frame, which must be
   * of the given type, complete, and not waiting for a map value. A successful
   * pop removes that frame and changes nothing else; every failure is Bug.
   */
  function Pop(t: Tracker, kind: Types.Type): (r: Result<Tracker, Error>)
    ensures r.Success? <==>
              !t.IsEmpty() && t.Top().kind == kind && !t.Top().keyNeedsValue && t.Top().left == 0
    ensures r.Success? ==> r.value.frames == t.frames[..|t.frames| - 1]
    ensures r.Failure? ==> r.error == Bug
  {
    if t.IsEmpty() then Failure(Bug)
    else if t.Top().kind != kind then Failure(Bug)
    else if t.Top().keyNeedsValue then Failure(Bug)
    else if t.Top().left != 0 then Failure(Bug)
    else Success(Tracker(t.frames[..|t.frames| - 1]))
  }

  /**
   * `bjd_track_peek_element` (bjd-common.c:431-454): may one more element be
   * read or written here? Always outside any container; inside one only if it
   * is an array or map that still owes an element or the value of a key.
   */
  function PeekElement(t: Tracker): (e: Error)
    ensures e == Ok || e == Bug
    ensures e == Ok <==>
              t.IsEmpty() || (t.Top().kind.IsCompound() && (t.Top().left > 0 || t.Top().keyNeedsValue))
  {
    if t.IsEmpty() then Ok
    else if !t.Top().kind.IsCompound() then Bug
    else if t.Top().left == 0 && !t.Top().keyNeedsValue then Bug
    else Ok
  }

  /**
   * `bjd_track_element` (bjd-common.c:456-473): consumes one element. A map
   * frame alternates key and value and only counts a pair on its value; an
   * array frame counts every element. Outside any container nothing changes.
   */
  function Element(t: Tracker): (r: Result<Tracker, Error>)
    ensures r.Success? <==> PeekElement(t) == Ok
    ensures r.Failure? ==> r.error == Bug
    ensures r.Success? && t.IsEmpty() ==> r.value == t
    ensures r.Success? && !t.IsEmpty() ==>
              |r.value.frames| == |t.frames| && r.value.frames[..|t.frames| - 1] == t.frames[..|t.frames| - 1]
    ensures r.Success? && !t.IsEmpty() ==>
              var top := t.Top();
              var top' := r.value.frames[|t.frames| - 1];
              && top'.kind == top.kind
              && (top.kind == Types.Array ==> top'.left == top.left - 1)
              && (top.kind == Types.Map ==> top'.keyNeedsValue == !top.keyNeedsValue)
              && (top.kind == Types.Map ==> top'.left == if top.keyNeedsValue then top.left - 1 else top.left)
  {
    var e := PeekElement(t);
    if e != Ok then Failure(e)
    else if t.IsEmpty() then Success(t)
    else
      var top := t.Top();
      if top.kind == Types.Map && !top.keyNeedsValue then
        Success(t.WithTop(top.(keyNeedsValue := true)))
      else
        Success(t.WithTop(top.(keyNeedsValue := false, left := top.left - 1)))
  }

  /**
   * `bjd_track_bytes` (bjd-common.c:475-506): consumes `count` bytes of the
   * open str, bin or ext. Fails with Bug when the count cannot be a 32-bit
   * length, when nothing is open, when an array or map is open, or when fewer
   * bytes are owed; otherwise only the top frame's `left` shrinks by `count`.
   */
  function TrackBytes(t: Tracker, count: nat): (r: Result<Tracker, Error>)
    ensures r.Success? <==>
              count < TWO_32 && !t.IsEmpty() && !t.Top().kind.IsCompound() && count <= t.Top().left
    ensures r.Failure? ==> r.error == Bug
    ensures r.Success? ==> r.value == t.WithTop(t.Top().(left := t.Top().left - count))
  {
    if count >= TWO_32 then Failure(Bug)
    else if t.IsEmpty() then Failure(Bug)
    else if t.Top().kind.IsCompound() then Failure(Bug)
    else if t.Top().left < count then Failure(Bug)
    else Success(t.WithTop(t.Top().(left := t.Top().left - count)))
  }

  /**
   * `bjd_track_str_bytes_all` (bjd-common.c:508-526): reads a whole string at
   * once, so the open frame must be a str and the count must be exactly what
   * it still owes. (When the second or third check fails the C code has
   * already subtracted the bytes; the caller then flags the error and never
   * tracks again, so that state is not observable and the model drops it.)
   */
  function StrBytesAll(t: Tracker, count: nat): (r: Result<Tracker, Error>)
    ensures r.Success? <==>
              count < TWO_32 && !t.IsEmpty() && t.Top().kind == Types.Str && t.Top().left == count
    ensures r.Failure? ==> r.error == Bug
    ensures r.Success? ==> r.value == t.WithTop(t.Top().(left := 0))
  {
    var r :- TrackBytes(t, count);
    if r.Top().kind != Types.Str then Failure(Bug)
    else if r.Top().left != 0 then Failure(Bug)
    else Success(r)
  }

  /** `bjd_track_check_empty` (bjd-common.c:528-534). */
  function CheckEmpty(t: Tracker): (e: Error)
    ensures e == Ok <==> t.IsEmpty()
    ensures e == Ok || e == Bug
  {
    if !t.IsEmpty() then Bug else Ok
  }

  /** `bjd_track_destroy` (bjd-common.c:536-543): cancelling skips the emptiness check. */
  function Destroy(t: Tracker, cancel: bool): (e: Error)
    ensures cancel ==> e == Ok
    ensures !cancel ==> (e == Ok <==> t.IsEmpty())
  {
    if cancel then Ok else CheckEmpty(t)
  }

  // Sequences of operations.

  /** Tracks `k` elements one after another, stopping at the first failure. */
  function Elements(t: Tracker, k: nat): Result<Tracker, Error>
    decreases k
  {
    if k == 0 then Success(t)
    else
      match Element(t)
      case Failure(e) => Failure(e)
      case Success(t') => Elements(t', k - 1)
  }

  /**
   * An array frame opened with a count of n accepts exactly n elements: the
   * (n+1)th is refused, and it can be closed exactly when n have been tracked.
   */
  lemma {:induction false} ArrayTakesExactlyCount(t: Tracker, n: U32, k: nat)
    ensures Elements(Push(t, Types.Array, n), k).Success? <==> k <= n
    ensures k <= n ==> (Pop(Elements(Push(t, Types.Array, n), k).value, Types.Array) == Success(t) <==> k == n)
  {
    var s := Push(t, Types.Array, n);
    assert s.frames[..|t.frames|] == t.frames;
    ArrayElements(t, n, k);
  }

  lemma {:induction false} ArrayElements(t: Tracker, n: U32, k: nat)
    ensures var r := Elements(Push(t, Types.Array, n), k);
            (r.Success? <==> k <= n) &&
            (r.Success? ==> r.value == Push(t, Types.Array, n - k))
  {
    if k > 0 {
      var s := Push(t, Types.Array, n);
      if n == 0 {
        assert PeekElement(s) == Bug;
      } else {
        var s' := Element(s).value;
        assert s'.frames == t.frames + [FrameData(Types.Array, n - 1, false)];
        assert s' == Push(t, Types.Array, n - 1);
        ArrayElements(t, n - 1, k - 1);
      }
    }
  }

  /**
   * A map frame opened with n pairs accepts exactly 2n elements, and can be
   * closed exactly when all 2n have been tracked (never between a key and its
   * value).
   */
  lemma {:induction false} MapTakesTwiceCount(t: Tracker, n: U32, k: nat)
    ensures Elements(Push(t, Types.Map, n), k).Success? <==> k <= 2 * n
    ensures k <= 2 * n ==> (Pop(Elements(Push(t, Types.Map, n), k).value, Types.Map) == Success(t) <==> k == 2 * n)
  {
    var s := Push(t, Types.Map, n);
    assert s.frames[..|t.frames|] == t.frames;
    MapElements(t, n, k);
  }

  /** The map frame after k elements: k/2 pairs done, a key pending when k is odd. */
  function MapAfter(t: Tracker, n: U32, k: nat): Tracker
    requires k <= 2 * n
  {
    Tracker(t.frames + [FrameData(Types.Map, n - k / 2, k % 2 == 1)])
  }

  /** One element of an array frame that still owes some. */
  lemma ArrayStep(t: Tracker, n: U32)
    requires n > 0
    ensures PeekElement(Push(t, Types.Array, n)) == Ok
    ensures Element(Push(t, Types.Array, n)) == Success(Push(t, Types.Array, n - 1))
  {
    var s := Element(Push(t, Types.Array, n)).value;
    assert s.frames == t.frames + [FrameData(Types.Array, n - 1, false)];
  }

  /** The value of a pending key completes the pair. */
  lemma MapValue(t: Tracker, n: U32)
    requires n > 0
    ensures PeekElement(MapAfter(t, n, 1)) == Ok
    ensures Element(MapAfter(t, n, 1)) == Success(Push(t, Types.Map, n - 1))
  {
    var s := Element(MapAfter(t, n, 1)).value;
    assert s.frames == t.frames + [FrameData(Types.Map, n - 1, false)];
  }

  /** A frame that is complete closes, leaving the stack it was pushed on. */
  lemma PushThenPop(t: Tracker, kind: Types.Type)
    ensures Pop(Push(t, kind, 0), kind) == Success(t)
  {
    var s := Push(t, kind, 0);
    assert s.frames[..|s.frames| - 1] == t.frames;
  }

  /** One key: the map frame now waits for its value. */
  lemma MapKey(t: Tracker, n: U32)
    requires n > 0
    ensures Element(Push(t, Types.Map, n)) == Success(MapAfter(t, n, 1))
  {
    var s := Push(t, Types.Map, n);
    var half := Element(s).value;
    assert half.frames == t.frames + [FrameData(Types.Map, n, true)];
  }

  /** One key and its value: one pair fewer is owed. */
  lemma MapPair(t: Tracker, n: U32, k: nat)
    requires n > 0 && k >= 2
    ensures Elements(Push(t, Types.Map, n), k) == Elements(Push(t, Types.Map, n - 1), k - 2)
  {
    var s := Push(t, Types.Map, n);
    MapKey(t, n);
    var half := MapAfter(t, n, 1);
    var full := Element(half).value;
    assert full.frames == t.frames + [FrameData(Types.Map, n - 1, false)];
    assert full == Push(t, Types.Map, n - 1);
  }

  lemma {:induction false} MapElements(t: Tracker, n: U32, k: nat)
    ensures var r := Elements(Push(t, Types.Map, n), k);
            (r.Success? <==> k <= 2 * n) &&
            (r.Success? ==> r.value == MapAfter(t, n, k))
    decreases k
  {
    if k <= 1 || n == 0 {
      MapElementsBase(t, n, k);
    } else {
      MapPair(t, n, k);
      MapElements(t, n - 1, k - 2);
      if k <= 2 * n {
        MapAfterShift(t, n, k);
      }
    }
  }

  /** The map cases with at most one element to go or no pair owed. */
  lemma MapElementsBase(t: Tracker, n: U32, k: nat)
    requires k <= 1 || n == 0
    ensures var r := Elements(Push(t, Types.Map, n), k);
            (r.Success? <==> k <= 2 * n) &&
            (r.Success? ==> r.value == MapAfter(t, n, k))
  {
    var s := Push(t, Types.Map, n);
    if k == 0 {
      assert MapAfter(t, n, 0) == s;
    } else if n == 0 {
      assert PeekElement(s) == Bug;
    } else {
      MapKey(t, n);
    }
  }

  lemma MapAfterShift(t: Tracker, n: U32, k: nat)
    requires n > 0 && 2 <= k <= 2 * n
    ensures MapAfter(t, n - 1, k - 2) == MapAfter(t, n, k)
  {
    assert (k - 2) / 2 == k / 2 - 1 && (k - 2) % 2 == k % 2;
  }

  /** Tracking bytes in two pieces is the same as tracking them at once. */
  lemma TrackBytesAdditive(t: Tracker, a: nat, b: nat)
    requires a + b < TWO_32
    ensures (TrackBytes(t, a).Success? && TrackBytes(TrackBytes(t, a).value, b).Success?) <==>
              TrackBytes(t, a + b).Success?
    ensures TrackBytes(t, a + b).Success? ==> TrackBytes(TrackBytes(t, a).value, b) == TrackBytes(t, a + b)
  {
    if TrackBytes(t, a).Success? {
      var s := TrackBytes(t, a).value;
      assert s.frames[..|s.frames| - 1] == t.frames[..|t.frames| - 1];
    }
  }

  /**
   * A str, bin or ext frame of n bytes closes exactly when all n bytes were
   * tracked.
   */
  lemma BytesThenPop(t: Tracker, kind: Types.Type, n: U32, k: nat)
    requires kind.IsBytes() && k <= n
    ensures TrackBytes(Push(t, kind, n), k).Success?
    ensures Pop(TrackBytes(Push(t, kind, n), k).value, kind) == Success(t) <==> k == n
  {
    var s := Push(t, kind, n);
    assert s.frames[..|t.frames|] == t.frames;
    var s' := TrackBytes(s, k).value;
    assert s'.frames[..|s'.frames| - 1] == t.frames;
  }

  /** A freshly opened str frame read whole is complete, and closing it restores the tracker. */
  lemma StrAllThenPop(t: Tracker, n: U32)
    ensures StrBytesAll(Push(t, Types.Str, n), n).Success?
    ensures Pop(StrBytesAll(Push(t, Types.Str, n), n).value, Types.Str) == Success(t)
  {
    var s := Push(t, Types.Str, n);
    assert s.frames[..|t.frames|] == t.frames;
    var s' := StrBytesAll(s, n).value;
    assert s'.frames[..|s'.frames| - 1] == t.frames;
  }
}
