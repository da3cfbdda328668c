/**
 * Whole objects in a byte stream: a header followed by its payload bytes
 * (str, bin, ext) or by as many further objects as it declares (array: its
 * count; map: twice its count, keys and values alternating). This is the
 * extent `bjd_discard` skips and the extent the node tree parser needs
 * before it can finish a message. Positions are offsets into one stream.
 */
module Objects {
  import opened Bytes
  import opened Wrappers
  import opened Tags
  import Wire

  /** How many elements follow a container header: a map's pairs count twice. */
  function Children(t: Tag): (k: nat)
    requires t.Array? || t.Map?
    ensures t.Array? ==> k == t.count
    ensures t.Map? ==> k == 2 * t.count
  {
    if t.Array? then t.count else 2 * t.count
  }

  /** Where the complete object starting at offset i of p ends, or None if there is none. */
  function ObjectEnd(p: seq<Byte>, i: nat, extensions: bool): (e: Option<nat>)
    requires i <= |p|
    ensures e.Some? ==> i < e.value <= |p|
    decreases |p| - i, 0
  {
    match Wire.ParseTag(p[i..], extensions)
    case Parsed(t, n) => ContentEnd(p, i + n, t, extensions)
    case _ => None
  }

  /** An object whose header parses as t in n bytes ends where its contents end. */
  lemma ObjectEndParsed(p: seq<Byte>, i: nat, t: Tag, n: nat, extensions: bool)
    requires i <= |p| && Wire.ParseTag(p[i..], extensions) == Wire.Parsed(t, n)
    ensures i + n <= |p|
    ensures ObjectEnd(p, i, extensions) == ContentEnd(p, i + n, t, extensions)
  {
  }

  /** An object whose header does not parse has no end. */
  lemma ObjectEndUnparsed(p: seq<Byte>, i: nat, extensions: bool)
    requires i <= |p| && !Wire.ParseTag(p[i..], extensions).Parsed?
    ensures ObjectEnd(p, i, extensions).None?
  {
  }

  /** A measure that exceeds the number of objects a tag's contents hold. */
  function ContentRank(t: Tag): nat {
    if t.Array? || t.Map? then Children(t) + 1 else 0
  }

  /**
   * Where the contents of an object with header tag t end, the contents
   * starting at offset j: a str, bin or ext owns its payload bytes, an array
   * or map its children, anything else nothing.
   */
  function ContentEnd(p: seq<Byte>, j: nat, t: Tag, extensions: bool): (e: Option<nat>)
    requires j <= |p|
    ensures e.Some? ==> j <= e.value <= |p|
    ensures t.Str? || t.Bin? || t.Ext? ==> (e.Some? <==> j + t.len <= |p|) && (e.Some? ==> e.value == j + t.len)
    ensures !(t.Str? || t.Bin? || t.Ext? || t.Array? || t.Map?) ==> e == Some(j)
    decreases |p| - j, ContentRank(t)
  {
    if t.Str? || t.Bin? || t.Ext? then
      if j + t.len <= |p| then Some(j + t.len) else None
    else if t.Array? || t.Map? then
      ObjectsEnd(p, j, Children(t), extensions)
    else Some(j)
  }

  /** Where k complete objects in a row starting at offset i of p end. */
  function ObjectsEnd(p: seq<Byte>, i: nat, k: nat, extensions: bool): (e: Option<nat>)
    requires i <= |p|
    ensures e.Some? ==> i <= e.value <= |p|
    ensures k == 0 ==> e == Some(i)
    decreases |p| - i, k
  {
    if k == 0 then Some(i)
    else
      match ObjectEnd(p, i, extensions)
      case None => None
      case Some(j) => ObjectsEnd(p, j, k - 1, extensions)
  }

  /** An object is self-delimiting: bytes after it do not change where it ends. */
  lemma {:induction false} ObjectIgnoresRest(p: seq<Byte>, q: seq<Byte>, i: nat, extensions: bool)
    requires i <= |p| && ObjectEnd(p, i, extensions).Some?
    ensures ObjectEnd(p + q, i, extensions) == ObjectEnd(p, i, extensions)
    decreases |p| - i, 0
  {
    HeaderIgnoresRest(p, q, i, extensions);
    var o := Wire.ParseTag(p[i..], extensions);
    ContentIgnoresRest(p, q, i + o.size, o.tag, extensions);
  }

  lemma {:induction false} ContentIgnoresRest(p: seq<Byte>, q: seq<Byte>, j: nat, t: Tag, extensions: bool)
    requires j <= |p| && ContentEnd(p, j, t, extensions).Some?
    ensures ContentEnd(p + q, j, t, extensions) == ContentEnd(p, j, t, extensions)
    decreases |p| - j, ContentRank(t)
  {
    if t.Array? || t.Map? {
      ObjectsIgnoreRest(p, q, j, Children(t), extensions);
    }
  }

  lemma HeaderIgnoresRest(p: seq<Byte>, q: seq<Byte>, i: nat, extensions: bool)
    requires i <= |p| && Wire.ParseTag(p[i..], extensions).Parsed?
    ensures Wire.ParseTag((p + q)[i..], extensions) == Wire.ParseTag(p[i..], extensions)
  {
    assert (p + q)[i..] == p[i..] + q;
    Wire.ParseIgnoresRest(p[i..], q, extensions);
  }

  lemma {:induction false} ObjectsIgnoreRest(p: seq<Byte>, q: seq<Byte>, i: nat, k: nat, extensions: bool)
    requires i <= |p| && ObjectsEnd(p, i, k, extensions).Some?
    ensures ObjectsEnd(p + q, i, k, extensions) == ObjectsEnd(p, i, k, extensions)
    decreases |p| - i, k
  {
    if k > 0 {
      ObjectIgnoresRest(p, q, i, extensions);
      ObjectsIgnoreRest(p, q, ObjectEnd(p, i, extensions).value, k - 1, extensions);
    }
  }

  /** k objects and then j more are k + j objects. */
  lemma {:induction false} ObjectsConcat(p: seq<Byte>, i: nat, k: nat, j: nat, extensions: bool)
    requires i <= |p| && ObjectsEnd(p, i, k, extensions).Some?
    ensures ObjectsEnd(p, i, k + j, extensions) == ObjectsEnd(p, ObjectsEnd(p, i, k, extensions).value, j, extensions)
    decreases k
  {
    if k > 0 {
      ObjectsConcat(p, ObjectEnd(p, i, extensions).value, k - 1, j, extensions);
    }
  }

  /** One more object after k of them. */
  lemma ObjectsSnoc(p: seq<Byte>, i: nat, k: nat, extensions: bool)
    requires i <= |p| && ObjectsEnd(p, i, k, extensions).Some?
    ensures ObjectsEnd(p, i, k + 1, extensions) == ObjectEnd(p, ObjectsEnd(p, i, k, extensions).value, extensions)
  {
    var j := ObjectsEnd(p, i, k, extensions).value;
    ObjectsConcat(p, i, k, 1, extensions);
    assert ObjectsEnd(p, j, 1, extensions) == ObjectEnd(p, j, extensions) by {
      match ObjectEnd(p, j, extensions)
      case None =>
      case Some(e) => assert ObjectsEnd(p, e, 0, extensions) == Some(e);
    }
  }

  /** If the object after the first k is incomplete, so are any n > k objects. */
  lemma ObjectsFailAt(p: seq<Byte>, i: nat, k: nat, n: nat, extensions: bool)
    requires i <= |p| && k < n && ObjectsEnd(p, i, k, extensions).Some?
    requires ObjectEnd(p, ObjectsEnd(p, i, k, extensions).value, extensions).None?
    ensures ObjectsEnd(p, i, n, extensions).None?
  {
    ObjectsConcat(p, i, k, n - k, extensions);
  }

  /**
   * k + j objects in a row are k objects and then j more, whether or not
   * the first k are complete.
   */
  lemma {:induction false} ObjectsSplit(p: seq<Byte>, i: nat, k: nat, j: nat, extensions: bool)
    requires i <= |p|
    ensures ObjectsEnd(p, i, k + j, extensions) ==
              match ObjectsEnd(p, i, k, extensions)
              case None => None
              case Some(e) => ObjectsEnd(p, e, j, extensions)
    decreases k
  {
    if k > 0 {
      match ObjectEnd(p, i, extensions)
      case None =>
      case Some(e) => ObjectsSplit(p, e, k - 1, j, extensions);
    }
  }

  /** Every object takes at least one byte. */
  lemma {:induction false} ObjectsAtLeast(p: seq<Byte>, i: nat, k: nat, extensions: bool)
    requires i <= |p| && ObjectsEnd(p, i, k, extensions).Some?
    ensures ObjectsEnd(p, i, k, extensions).value >= i + k
    decreases k
  {
    if k > 0 {
      ObjectsAtLeast(p, ObjectEnd(p, i, extensions).value, k - 1, extensions);
    }
  }

  /** What a header declares after itself: payload bytes for str, bin and ext, objects for array and map. */
  function Extent(t: Tag): nat {
    if t.Str? || t.Bin? || t.Ext? then t.len
    else if t.Array? || t.Map? then Children(t)
    else 0
  }

  /** A complete object is at least its header and one byte for each byte or object it declares. */
  lemma ObjectAtLeast(p: seq<Byte>, i: nat, t: Tag, n: nat, extensions: bool)
    requires i <= |p| && Wire.ParseTag(p[i..], extensions) == Wire.Parsed(t, n)
    requires ObjectEnd(p, i, extensions).Some?
    ensures ObjectEnd(p, i, extensions).value >= i + n + Extent(t)
  {
    ObjectEndParsed(p, i, t, n, extensions);
    if t.Array? || t.Map? {
      ObjectsAtLeast(p, i + n, Children(t), extensions);
    }
  }

  /** Skipping the first of k + 1 objects when it is a leaf: its header and payload come before the k after it. */
  lemma LeafStep(p: seq<Byte>, i: nat, t: Tag, n: nat, e: nat, k: nat, extensions: bool)
    requires !(t.Array? || t.Map?) && e == i + n + Extent(t) <= |p|
    requires ObjectEnd(p, i, extensions) == ContentEnd(p, i + n, t, extensions)
    ensures ObjectsEnd(p, i, k + 1, extensions) == ObjectsEnd(p, e, k, extensions)
  {
    assert ObjectEnd(p, i, extensions) == Some(e);
    ObjectsFirst(p, i, k, e, extensions);
  }

  /** Skipping the first of k + 1 objects when it is a container: its c children come before the k after it. */
  lemma ContainerStep(p: seq<Byte>, i: nat, t: Tag, j: nat, c: nat, k: nat, extensions: bool)
    requires (t.Array? || t.Map?) && i <= j <= |p| && c == Children(t)
    requires ObjectEnd(p, i, extensions) == ContentEnd(p, j, t, extensions)
    ensures ObjectsEnd(p, i, k + 1, extensions) == ObjectsEnd(p, j, c + k, extensions)
  {
    ContentOfContainer(p, j, t, extensions);
    ObjectThenRun(p, i, j, c, k, extensions);
  }

  /** The object at i ends where the c objects at j do: then k more after i end where c + k after j do. */
  lemma ObjectThenRun(p: seq<Byte>, i: nat, j: nat, c: nat, k: nat, extensions: bool)
    requires i <= |p| && j <= |p| && ObjectEnd(p, i, extensions) == ObjectsEnd(p, j, c, extensions)
    ensures ObjectsEnd(p, i, k + 1, extensions) == ObjectsEnd(p, j, c + k, extensions)
  {
    var m := ObjectsEnd(p, j, c, extensions);
    if m.Some? {
      ContainerStepEnds(p, i, j, c, k, m.value, extensions);
    } else {
      ContainerStepFails(p, i, j, c, k, extensions);
    }
  }

  /** A container's contents are its children. */
  lemma ContentOfContainer(p: seq<Byte>, j: nat, t: Tag, extensions: bool)
    requires (t.Array? || t.Map?) && j <= |p|
    ensures ContentEnd(p, j, t, extensions) == ObjectsEnd(p, j, Children(t), extensions)
  {
  }

  /** The object at i ends at e where the c objects at j do: then k more after i end where c + k after j do. */
  lemma ContainerStepEnds(p: seq<Byte>, i: nat, j: nat, c: nat, k: nat, e: nat, extensions: bool)
    requires i <= |p| && j <= |p|
    requires ObjectEnd(p, i, extensions) == Some(e) && ObjectsEnd(p, j, c, extensions) == Some(e)
    ensures ObjectsEnd(p, i, k + 1, extensions) == ObjectsEnd(p, j, c + k, extensions)
  {
    ObjectsFirst(p, i, k, e, extensions);
    ObjectsThen(p, j, c, k, e, extensions);
  }

  /** Neither the object at i nor the c objects at j end: neither do any runs that start with them. */
  lemma ContainerStepFails(p: seq<Byte>, i: nat, j: nat, c: nat, k: nat, extensions: bool)
    requires i <= |p| && j <= |p|
    requires ObjectEnd(p, i, extensions).None? && ObjectsEnd(p, j, c, extensions).None?
    ensures ObjectsEnd(p, i, k + 1, extensions) == ObjectsEnd(p, j, c + k, extensions)
  {
    ObjectsFirstFails(p, i, k, extensions);
    ObjectsNever(p, j, c, k, extensions);
  }

  /** Objects from i start with the object at i. */
  lemma ObjectsFirst(p: seq<Byte>, i: nat, k: nat, e: nat, extensions: bool)
    requires i <= |p| && ObjectEnd(p, i, extensions) == Some(e)
    ensures ObjectsEnd(p, i, k + 1, extensions) == ObjectsEnd(p, e, k, extensions)
  {
  }

  /** No objects from i are complete when the one at i is not. */
  lemma ObjectsFirstFails(p: seq<Byte>, i: nat, k: nat, extensions: bool)
    requires i <= |p| && ObjectEnd(p, i, extensions).None?
    ensures ObjectsEnd(p, i, k + 1, extensions).None?
  {
  }

  /** k objects ending at e and then j more end where the j objects from e end. */
  lemma ObjectsThen(p: seq<Byte>, i: nat, k: nat, j: nat, e: nat, extensions: bool)
    requires i <= |p| && ObjectsEnd(p, i, k, extensions) == Some(e)
    ensures e <= |p| && ObjectsEnd(p, i, k + j, extensions) == ObjectsEnd(p, e, j, extensions)
  {
    ObjectsSplit(p, i, k, j, extensions);
  }

  /** When k objects are incomplete, so are k and then j more. */
  lemma ObjectsNever(p: seq<Byte>, i: nat, k: nat, j: nat, extensions: bool)
    requires i <= |p| && ObjectsEnd(p, i, k, extensions).None?
    ensures ObjectsEnd(p, i, k + j, extensions).None?
  {
    ObjectsSplit(p, i, k, j, extensions);
  }

  /**
   * k >= 1 objects cannot be complete when the first header is cut short or
   * bad, or when it declares more than the bytes left after it can hold
   * together with the k - 1 objects after it.
   */
  lemma ObjectsShort(p: seq<Byte>, i: nat, k: nat, extensions: bool)
    requires i <= |p| && k >= 1
    requires var o := Wire.ParseTag(p[i..], extensions);
             o.Short? || o.Failed? || (o.Parsed? && i + o.size + Extent(o.tag) + k - 1 > |p|)
    ensures ObjectsEnd(p, i, k, extensions).None?
  {
    var o := Wire.ParseTag(p[i..], extensions);
    if ObjectsEnd(p, i, k, extensions).Some? {
      var e := ObjectEnd(p, i, extensions).value;
      ObjectAtLeast(p, i, o.tag, o.size, extensions);
      ObjectsAtLeast(p, e, k - 1, extensions);
    }
  }
}
