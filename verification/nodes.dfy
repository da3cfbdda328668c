/**
 * The node API over a parsed tree (bjd-node.c:1718-2341): typed accessors,
 * indexing into arrays and maps, and key lookups. Every accessor first
 * consults the tree's error: in a tree in error every node reads as nil, and
 * the tree is left as it is. A wrong type flags Type, an index past the end or
 * a lookup that does not find exactly one key flags Data, and only the first
 * error a tree sees is kept.
 */
module Nodes {
  import opened Bytes
  import opened Wrappers
  import opened Errors
  import opened Tags
  import Objects
  import opened Tree

  /**
   * `bjd_node_t` (bjd-node.h:273-283): a slot of the tree's arena, or one of
   * the tree's own nil and missing nodes that failed accessors return.
   */
  datatype Handle = At(index: nat) | NilNode | MissingNode

  /** A tree the accessors may be called on, and a node of it. */
  predicate Reads(t: Tree, h: Handle) {
    t.Valid() && (h.At? ==> h.index < |t.nodes|)
  }

  /** The node data a handle stands for; the tree's nil and missing nodes hold nothing else. */
  function NodeData(t: Tree, h: Handle): (n: Node)
    requires Reads(t, h)
    ensures Fits(n, |t.nodes|, |t.data|)
  {
    match h
    case At(i) => t.nodes[i]
    case NilNode => Node(Tags.Nil, 0, 0)
    case MissingNode => Node(Tags.Missing, 0, 0)
  }

  /** The bytes of a str, bin or ext node (`bjd_node_data_unchecked`). */
  function Payload(t: Tree, n: Node): (p: seq<Byte>)
    requires Fits(n, |t.nodes|, |t.data|) && (n.tag.Str? || n.tag.Bin? || n.tag.Ext?)
    ensures |p| == n.tag.len
  {
    t.data[n.offset..n.offset + n.tag.len]
  }

  /** The tree after an accessor rejected the node with e: flagged, unless it was already in error. */
  function Rejected(t: Tree, e: Error): (t': Tree)
    requires t.Valid() && e != Ok
    ensures t'.Valid() && t'.err != Ok && t.SameParse(t') && t'.data == t.data
    ensures t.err == Ok ==> t'.err == e
    ensures t.err != Ok ==> t' == t
  {
    FlagError(t, e)
  }

  // ---------------------------------------------------------------------
  // Type queries (bjd-node.c:1914-1969)
  // ---------------------------------------------------------------------

  /** `bjd_node_type`: nil for every node of a tree in error. */
  function NodeType(t: Tree, h: Handle): (k: Types.Type)
    requires Reads(t, h)
    ensures t.err != Ok ==> k == Types.Nil
    ensures t.err == Ok ==> k == NodeData(t, h).tag.Kind()
  {
    if t.err != Ok then Types.Nil else NodeData(t, h).tag.Kind()
  }

  /** `bjd_node_is_nil`: a tree in error makes every node nil. */
  function IsNil(t: Tree, h: Handle): (b: bool)
    requires Reads(t, h)
    ensures b <==> NodeType(t, h) == Types.Nil
  {
    t.err != Ok || NodeData(t, h).tag.Nil?
  }

  /** `bjd_node_is_missing`: a tree in error has nil nodes, never missing ones. */
  function IsMissing(t: Tree, h: Handle): (b: bool)
    requires Reads(t, h)
    ensures b <==> NodeType(t, h) == Types.Missing
    ensures b ==> !IsNil(t, h)
  {
    t.err == Ok && NodeData(t, h).tag.Missing?
  }

  /** `bjd_node_nil` and `bjd_node_missing`: a node not of the kind asked for flags Type. */
  function CheckKind(t: Tree, h: Handle, k: Types.Type): (t': Tree)
    requires Reads(t, h) && (k == Types.Nil || k == Types.Missing)
    ensures t'.Valid() && t.SameParse(t')
    ensures t'.err == Ok <==> t.err == Ok && NodeType(t, h) == k
    ensures t'.err == Ok ==> t' == t
    ensures t'.err != Ok ==> t' == Rejected(t, Type)
  {
    if t.err != Ok then t
    else if NodeData(t, h).tag.Kind() != k then FlagError(t, Type)
    else t
  }

  /** `bjd_node_bool`: the value of a bool node; anything else flags Type and reads false. */
  function NodeBool(t: Tree, h: Handle): (res: (Tree, bool))
    requires Reads(t, h)
    ensures res.0.Valid() && t.SameParse(res.0)
    ensures res.0.err == Ok <==> t.err == Ok && NodeType(t, h) == Types.Bool
    ensures res.0.err == Ok ==> res.0 == t && res.1 == NodeData(t, h).tag.b
    ensures res.0.err != Ok ==> res == (Rejected(t, Type), false)
  {
    if t.err != Ok then (t, false)
    else if NodeData(t, h).tag.Bool? then (t, NodeData(t, h).tag.b)
    else (FlagError(t, Type), false)
  }

  /** `bjd_node_true` and `bjd_node_false`: a node that is not the bool `b` flags Type. */
  function CheckBool(t: Tree, h: Handle, b: bool): (t': Tree)
    requires Reads(t, h)
    ensures t'.Valid() && t.SameParse(t')
    ensures t'.err == Ok <==> t.err == Ok && NodeData(t, h).tag == Tags.Bool(b)
    ensures t'.err != Ok ==> t' == Rejected(t, Type)
  {
    var (t1, v) := NodeBool(t, h);
    if v != b then FlagError(t1, Type) else t1
  }

  // ---------------------------------------------------------------------
  // Integer accessors (bjd-node.c:1971-2125)
  // ---------------------------------------------------------------------

  /** The range of each C integer type the accessors convert to. */
  const U8_MAX: int := 0xff
  const I8_MIN: int := -0x80
  const I8_MAX: int := 0x7f
  const U16_MAX: int := 0xffff
  const I16_MIN: int := -0x8000
  const I16_MAX: int := 0x7fff
  const U32_MAX: int := 0xffff_ffff
  const I32_MIN: int := -0x8000_0000
  const I32_MAX: int := 0x7fff_ffff
  const U64_MAX: int := 0xffff_ffff_ffff_ffff
  const I64_MIN: int := -0x8000_0000_0000_0000
  const I64_MAX: int := 0x7fff_ffff_ffff_ffff

  /**
   * What an integer accessor with the range [lo, hi] of its C type gives:
   * the node's value when the node is an integer, signed or unsigned, within
   * the range, and otherwise Type (unless the tree already had an error) and
   * 0. Either way the result fits the C type and the parse is unchanged.
   */
  predicate IntegerRead(t: Tree, h: Handle, lo: int, hi: int, res: (Tree, int))
    requires Reads(t, h)
  {
    && res.0.Valid() && t.SameParse(res.0) && lo <= res.1 <= hi
    && (res.0.err == Ok <==>
          && t.err == Ok && (NodeData(t, h).tag.Int? || NodeData(t, h).tag.Uint?)
          && lo <= IntValue(NodeData(t, h).tag) <= hi)
    && (res.0.err == Ok ==> res.0 == t && res.1 == IntValue(NodeData(t, h).tag))
    && (res.0.err != Ok ==> res == (Rejected(t, Type), 0))
  }

  /**
   * The body shared by `bjd_node_u8` through `bjd_node_i64`: a uint node is
   * checked against the type's maximum, an int node against both ends.
   * Anything else, or a value out of range, flags Type and reads 0.
   */
  function IntegerIn(t: Tree, h: Handle, lo: int, hi: int): (res: (Tree, int))
    requires Reads(t, h) && lo <= 0 < hi
    ensures IntegerRead(t, h, lo, hi, res)
  {
    if t.err != Ok then (t, 0)
    else
      match NodeData(t, h).tag
      case Uint(u) => if u <= hi then (t, u) else (FlagError(t, Type), 0)
      case Int(i) => if lo <= i && i <= hi then (t, i) else (FlagError(t, Type), 0)
      case _ => (FlagError(t, Type), 0)
  }

  /** `bjd_node_u8` (bjd-node.c:1971-1985). */
  function NodeU8(t: Tree, h: Handle): (res: (Tree, int))
    requires Reads(t, h)
    ensures IntegerRead(t, h, 0, U8_MAX, res)
  {
    IntegerIn(t, h, 0, U8_MAX)
  }

  /** `bjd_node_i8` (bjd-node.c:1987-2001). */
  function NodeI8(t: Tree, h: Handle): (res: (Tree, int))
    requires Reads(t, h)
    ensures IntegerRead(t, h, I8_MIN, I8_MAX, res)
  {
    IntegerIn(t, h, I8_MIN, I8_MAX)
  }

  /** `bjd_node_u16` (bjd-node.c:2003-2017). */
  function NodeU16(t: Tree, h: Handle): (res: (Tree, int))
    requires Reads(t, h)
    ensures IntegerRead(t, h, 0, U16_MAX, res)
  {
    IntegerIn(t, h, 0, U16_MAX)
  }

  /** `bjd_node_i16` (bjd-node.c:2019-2033). */
  function NodeI16(t: Tree, h: Handle): (res: (Tree, int))
    requires Reads(t, h)
    ensures IntegerRead(t, h, I16_MIN, I16_MAX, res)
  {
    IntegerIn(t, h, I16_MIN, I16_MAX)
  }

  /** `bjd_node_u32` (bjd-node.c:2035-2049). */
  function NodeU32(t: Tree, h: Handle): (res: (Tree, int))
    requires Reads(t, h)
    ensures IntegerRead(t, h, 0, U32_MAX, res)
  {
    IntegerIn(t, h, 0, U32_MAX)
  }

  /** `bjd_node_i32` (bjd-node.c:2051-2065). */
  function NodeI32(t: Tree, h: Handle): (res: (Tree, int))
    requires Reads(t, h)
    ensures IntegerRead(t, h, I32_MIN, I32_MAX, res)
  {
    IntegerIn(t, h, I32_MIN, I32_MAX)
  }

  /** `bjd_node_u64` (bjd-node.c:2067-2080). */
  function NodeU64(t: Tree, h: Handle): (res: (Tree, int))
    requires Reads(t, h)
    ensures IntegerRead(t, h, 0, U64_MAX, res)
  {
    IntegerIn(t, h, 0, U64_MAX)
  }

  /** `bjd_node_i64` (bjd-node.c:2082-2095). */
  function NodeI64(t: Tree, h: Handle): (res: (Tree, int))
    requires Reads(t, h)
    ensures IntegerRead(t, h, I64_MIN, I64_MAX, res)
  {
    IntegerIn(t, h, I64_MIN, I64_MAX)
  }

  /** `bjd_node_uint` (bjd-node.c:2097-2110) where `unsigned int` has 32 bits: `bjd_node_u32`. */
  function NodeUint(t: Tree, h: Handle): (res: (Tree, int))
    requires Reads(t, h)
    ensures IntegerRead(t, h, 0, U32_MAX, res)
  {
    NodeU32(t, h)
  }

  /** `bjd_node_int` (bjd-node.c:2112-2125) where `int` has 32 bits: `bjd_node_i32`. */
  function NodeInt(t: Tree, h: Handle): (res: (Tree, int))
    requires Reads(t, h)
    ensures IntegerRead(t, h, I32_MIN, I32_MAX, res)
  {
    NodeI32(t, h)
  }

  /**
   * Every integer node reads in full through the accessor of its own type:
   * a uint through `bjd_node_u64` and an int through `bjd_node_i64`, so
   * those two flag only nodes that are no integer or are on the wrong side
   * of the other type's range.
   */
  lemma WidestAccessors(t: Tree, h: Handle)
    requires Reads(t, h) && t.err == Ok
    ensures NodeData(t, h).tag.Uint? ==> NodeU64(t, h) == (t, NodeData(t, h).tag.u)
    ensures NodeData(t, h).tag.Int? ==> NodeI64(t, h) == (t, NodeData(t, h).tag.i)
    ensures NodeData(t, h).tag.Int? ==> (NodeU64(t, h).0.err == Ok <==> NodeData(t, h).tag.i >= 0)
    ensures NodeData(t, h).tag.Uint? ==> (NodeI64(t, h).0.err == Ok <==> NodeData(t, h).tag.u <= I64_MAX)
  {
  }

  /**
   * The integer accessors read a value and not its encoding: two integer
   * nodes that `bjd_tag_equal` calls equal, one signed and one unsigned,
   * read the same through every accessor.
   */
  lemma AccessorsSeeValues(t: Tree, a: Handle, b: Handle, lo: int, hi: int)
    requires Reads(t, a) && Reads(t, b) && lo <= 0 < hi
    requires var x := NodeData(t, a).tag; var y := NodeData(t, b).tag;
      (x.Int? || x.Uint?) && (y.Int? || y.Uint?) && Tags.Equal(x, y)
    ensures IntegerIn(t, a, lo, hi) == IntegerIn(t, b, lo, hi)
  {
    Tags.EqualIntegers(NodeData(t, a).tag, NodeData(t, b).tag);
  }

  // ---------------------------------------------------------------------
  // Data accessors (bjd-node.c:2186-2273)
  // ---------------------------------------------------------------------

  /** `bjd_node_exttype`: the exttype of an ext node; anything else flags Type and reads 0. */
  function Exttype(t: Tree, h: Handle): (res: (Tree, int))
    requires Reads(t, h)
    ensures res.0.Valid() && t.SameParse(res.0) && -0x80 <= res.1 < 0x80
    ensures res.0.err == Ok <==> t.err == Ok && NodeData(t, h).tag.Ext?
    ensures res.0.err == Ok ==> res == (t, NodeData(t, h).tag.exttype)
    ensures res.0.err != Ok ==> res == (Rejected(t, Type), 0)
  {
    if t.err != Ok then (t, 0)
    else if NodeData(t, h).tag.Ext? then (t, NodeData(t, h).tag.exttype)
    else (FlagError(t, Type), 0)
  }

  /** The node kinds one of the length or data accessors accepts. */
  datatype Accepts = AnyData | OnlyStr | OnlyBin
  {
    predicate Admits(tag: Tag) {
      match this
      case AnyData => tag.Str? || tag.Bin? || tag.Ext?
      case OnlyStr => tag.Str?
      case OnlyBin => tag.Bin?
    }
  }

  /**
   * `bjd_node_data_len` (AnyData), `bjd_node_strlen` (OnlyStr) and
   * `bjd_node_bin_size` (OnlyBin): the length of a node of an accepted
   * kind; anything else flags Type and reads 0.
   */
  function DataLength(t: Tree, h: Handle, a: Accepts): (res: (Tree, nat))
    requires Reads(t, h)
    ensures res.0.Valid() && t.SameParse(res.0)
    ensures res.0.err == Ok <==> t.err == Ok && a.Admits(NodeData(t, h).tag)
    ensures res.0.err == Ok ==> res.0 == t && res.1 == NodeData(t, h).tag.len
    ensures res.0.err != Ok ==> res == (Rejected(t, Type), 0)
  {
    if t.err != Ok then (t, 0)
    else if a.Admits(NodeData(t, h).tag) then (t, NodeData(t, h).tag.len)
    else (FlagError(t, Type), 0)
  }

  /**
   * `bjd_node_data` (AnyData), `bjd_node_str` (OnlyStr) and
   * `bjd_node_bin_data` (OnlyBin): the payload of a node of an accepted
   * kind, None (NULL) for anything else, which flags Type.
   */
  function DataBytes(t: Tree, h: Handle, a: Accepts): (res: (Tree, Option<seq<Byte>>))
    requires Reads(t, h)
    ensures res.0.Valid() && t.SameParse(res.0)
    ensures res.1.Some? <==> res.0.err == Ok
    ensures res.0.err != Ok ==> res.0 == Rejected(t, Type)
  {
    if t.err != Ok then (t, None)
    else if a.Admits(NodeData(t, h).tag) then (t, Some(Payload(t, NodeData(t, h))))
    else (FlagError(t, Type), None)
  }

  /**
   * The data accessors agree with the length accessors: both fail on the
   * same nodes leaving the same tree, and the bytes returned are as many as
   * the length says, taken from where the node's payload sits in the data.
   */
  lemma BytesMatchLength(t: Tree, h: Handle, a: Accepts)
    requires Reads(t, h)
    ensures DataBytes(t, h, a).0 == DataLength(t, h, a).0
    ensures DataBytes(t, h, a).1.Some? ==>
              var n := NodeData(t, h);
              && |DataBytes(t, h, a).1.value| == DataLength(t, h, a).1
              && 1 <= n.offset && n.offset + |DataBytes(t, h, a).1.value| <= |t.data|
              && DataBytes(t, h, a).1.value == t.data[n.offset..n.offset + DataLength(t, h, a).1]
  {
  }

  // ---------------------------------------------------------------------
  // Arrays and maps by index (bjd-node.c:2275-2341)
  // ---------------------------------------------------------------------

  /**
   * `bjd_node_array_length` (array) and `bjd_node_map_count` (map): the
   * element or pair count of a node of that kind; anything else flags Type
   * and reads 0.
   */
  function Count(t: Tree, h: Handle, k: Types.Type): (res: (Tree, nat))
    requires Reads(t, h) && (k == Types.Array || k == Types.Map)
    ensures res.0.Valid() && t.SameParse(res.0)
    ensures res.0.err == Ok <==> t.err == Ok && NodeType(t, h) == k
    ensures res.0.err == Ok ==> res.0 == t && res.1 == NodeData(t, h).tag.count
    ensures res.0.err != Ok ==> res == (Rejected(t, Type), 0)
  {
    if t.err != Ok then (t, 0)
    else if NodeData(t, h).tag.Kind() != k then (FlagError(t, Type), 0)
    else (t, NodeData(t, h).tag.count)
  }

  /**
   * `bjd_node_array_at` (k = Array, offset 0) and `bjd_node_map_at`
   * (k = Map, offset 0 for the key, 1 for the value): child `width * index +
   * offset` of the node's contiguous block (`bjd_node_child`,
   * bjd-node.h:273-275). The wrong kind flags Type, an index past the count
   * flags Data; both return the nil node.
   */
  function ChildAt(t: Tree, h: Handle, k: Types.Type, index: nat, offset: nat): (res: (Tree, Handle))
    requires Reads(t, h) && ((k == Types.Array && offset == 0) || (k == Types.Map && offset <= 1))
    ensures Reads(res.0, res.1) && t.SameParse(res.0)
    ensures res.0.err == Ok <==> t.err == Ok && NodeType(t, h) == k && index < NodeData(t, h).tag.count
    ensures res.0.err != Ok ==> res.1 == NilNode
    ensures res.0.err == Ok ==>
              && res.0 == t
              && res.1 == At(NodeData(t, h).children + (if k == Types.Map then 2 else 1) * index + offset)
    ensures res.0.err != Ok ==>
              res.0 == Rejected(t, if t.err == Ok && NodeType(t, h) == k then Data else Type)
  {
    if t.err != Ok then (t, NilNode)
    else
      var n := NodeData(t, h);
      if n.tag.Kind() != k then (FlagError(t, Type), NilNode)
      else if index >= n.tag.count then (FlagError(t, Data), NilNode)
      else
        var width := if k == Types.Map then 2 else 1;
        assert n.children + Objects.Children(n.tag) <= |t.nodes|;
        (t, At(n.children + width * index + offset))
  }

  /** `bjd_node_array_at` (bjd-node.c:2287-2302): element `index` of an array node, its index-th child. */
  function ArrayAt(t: Tree, h: Handle, index: nat): (res: (Tree, Handle))
    requires Reads(t, h)
    ensures Reads(res.0, res.1) && t.SameParse(res.0)
    ensures res.0.err == Ok <==> t.err == Ok && NodeType(t, h) == Types.Array && index < NodeData(t, h).tag.count
    ensures res.0.err != Ok ==> res.0 == Rejected(t, if t.err == Ok && NodeType(t, h) == Types.Array then Data else Type)
    ensures res.0.err == Ok ==> res == (t, At(NodeData(t, h).children + index))
    ensures res.0.err != Ok ==> res.1 == NilNode
  {
    ChildAt(t, h, Types.Array, index, 0)
  }

  /** `bjd_node_map_key_at` (bjd-node.c:2317-2336): the key of pair `index`, the first of the pair's two children. */
  function MapKeyAt(t: Tree, h: Handle, index: nat): (res: (Tree, Handle))
    requires Reads(t, h)
    ensures Reads(res.0, res.1) && t.SameParse(res.0)
    ensures res.0.err == Ok <==> t.err == Ok && NodeType(t, h) == Types.Map && index < NodeData(t, h).tag.count
    ensures res.0.err != Ok ==> res.0 == Rejected(t, if t.err == Ok && NodeType(t, h) == Types.Map then Data else Type)
    ensures res.0.err == Ok ==> res == (t, At(NodeData(t, h).children + 2 * index))
    ensures res.0.err != Ok ==> res.1 == NilNode
  {
    ChildAt(t, h, Types.Map, index, 0)
  }

  /** `bjd_node_map_value_at` (bjd-node.c:2317-2340): the value of pair `index`, right after its key. */
  function MapValueAt(t: Tree, h: Handle, index: nat): (res: (Tree, Handle))
    requires Reads(t, h)
    ensures Reads(res.0, res.1) && t.SameParse(res.0)
    ensures res.0 == MapKeyAt(t, h, index).0
    ensures res.0.err == Ok ==> res == (t, At(MapKeyAt(t, h, index).1.index + 1))
    ensures res.0.err != Ok ==> res.1 == NilNode
  {
    ChildAt(t, h, Types.Map, index, 1)
  }

  /**
   * Indexing agrees with the count: on a tree not in error an index reads a
   * child exactly when the count reads and the index is below it, and the
   * children of one node are distinct slots, the key of a pair right before
   * its value.
   */
  lemma IndexWithinCount(t: Tree, h: Handle, k: Types.Type, i: nat, j: nat)
    requires Reads(t, h) && t.err == Ok && (k == Types.Array || k == Types.Map)
    ensures ChildAt(t, h, k, i, 0).0.err == Ok <==> Count(t, h, k).0.err == Ok && i < Count(t, h, k).1
    ensures ChildAt(t, h, k, i, 0).0.err == Ok && ChildAt(t, h, k, j, 0).0.err == Ok && i != j ==>
              ChildAt(t, h, k, i, 0).1 != ChildAt(t, h, k, j, 0).1
    ensures k == Types.Map && ChildAt(t, h, k, i, 1).0.err == Ok ==>
              ChildAt(t, h, k, i, 1).1.index == ChildAt(t, h, k, i, 0).1.index + 1
  {
  }

  // ---------------------------------------------------------------------
  // Key lookups (bjd-node.c:1718-1880)
  // ---------------------------------------------------------------------

  /** The key of `bjd_node_map_int`, `bjd_node_map_uint` or `bjd_node_map_str`. */
  datatype Key = IntKey(i: I64) | UintKey(u: U64) | StrKey(s: seq<Byte>)

  /**
   * A key node matches: an int key matches an int node of the same value or
   * a uint node when it is non-negative and equal; a uint key the other way
   * round; a str key a str node of the same length and bytes.
   */
  predicate KeyMatches(data: seq<Byte>, n: Node, key: Key) {
    match key
    case IntKey(num) => (n.tag.Int? && n.tag.i == num) || (n.tag.Uint? && num >= 0 && n.tag.u == num)
    case UintKey(num) => (n.tag.Uint? && n.tag.u == num) || (n.tag.Int? && n.tag.i >= 0 && n.tag.i == num)
    case StrKey(s) =>
      n.tag.Str? && n.tag.len == |s| && n.offset + |s| <= |data| && data[n.offset..n.offset + |s|] == s
  }

  /** The key node of pair j of map node n. */
  function PairKey(t: Tree, n: Node, j: nat): Node
    requires n.tag.Map? && n.children + 2 * j < |t.nodes|
  {
    t.nodes[n.children + 2 * j]
  }

  /** The pairs among the first k of map node n whose key matches, in increasing order. */
  function Matching(t: Tree, n: Node, key: Key, k: nat): (m: seq<nat>)
    requires n.tag.Map? && n.children + 2 * k <= |t.nodes|
    ensures forall x | x in m :: x < k
  {
    if k == 0 then []
    else
      var m := Matching(t, n, key, k - 1);
      if KeyMatches(t.data, PairKey(t, n, k - 1), key) then m + [k - 1] else m
  }

  /** Matching holds the pairs whose key matches, each once and in order. */
  lemma {:induction false} MatchingExact(t: Tree, n: Node, key: Key, k: nat)
    requires n.tag.Map? && n.children + 2 * k <= |t.nodes|
    ensures forall j | 0 <= j < k :: KeyMatches(t.data, PairKey(t, n, j), key) <==> j in Matching(t, n, key, k)
    ensures forall a, b | 0 <= a < b < |Matching(t, n, key, k)| :: Matching(t, n, key, k)[a] < Matching(t, n, key, k)[b]
  {
    if k > 0 {
      MatchingExact(t, n, key, k - 1);
      var m := Matching(t, n, key, k - 1);
      assert forall a | 0 <= a < |m| :: m[a] < k - 1 by {
        forall a | 0 <= a < |m| ensures m[a] < k - 1 { assert m[a] in m; }
      }
    }
  }

  /** Matching over more pairs extends matching over fewer. */
  lemma {:induction false} MatchingGrows(t: Tree, n: Node, key: Key, k: nat, k': nat)
    requires n.tag.Map? && k <= k' && n.children + 2 * k' <= |t.nodes|
    ensures Matching(t, n, key, k) <= Matching(t, n, key, k')
    decreases k' - k
  {
    if k < k' {
      MatchingGrows(t, n, key, k, k' - 1);
    }
  }

  /** Every pair of the map node h whose key matches. */
  function AllMatching(t: Tree, h: Handle, key: Key): seq<nat>
    requires Reads(t, h) && NodeData(t, h).tag.Map?
  {
    Matching(t, NodeData(t, h), key, NodeData(t, h).tag.count)
  }

  /** The lookup finds a value: the tree is fine, the node is a map and exactly one key matches. */
  predicate Unique(t: Tree, h: Handle, key: Key)
    requires Reads(t, h)
  {
    t.err == Ok && NodeData(t, h).tag.Map? && |AllMatching(t, h, key)| == 1
  }

  /** The slot of the value whose key is the one match. */
  function ValueSlot(t: Tree, h: Handle, key: Key): (i: nat)
    requires Reads(t, h) && Unique(t, h, key)
    ensures i < |t.nodes|
  {
    var m := AllMatching(t, h, key);
    assert m[0] in m;
    NodeData(t, h).children + 2 * m[0] + 1
  }

  /**
   * The tree after a lookup: a non-map flags Type, more than one match flags
   * Data; no match leaves it to the caller to decide.
   */
  function Probed(t: Tree, h: Handle, key: Key): (t': Tree)
    requires Reads(t, h)
    ensures t'.Valid() && t.SameParse(t') && t'.data == t.data
  {
    if t.err != Ok then t
    else if !NodeData(t, h).tag.Map? then FlagError(t, Type)
    else if |AllMatching(t, h, key)| >= 2 then FlagError(t, Data)
    else t
  }

  /**
   * `bjd_node_map_int_impl`, `bjd_node_map_uint_impl` and
   * `bjd_node_map_str_impl`: a scan of every pair that stops, flagging
   * Data, at the second key that matches. The value of the one match, or
   * None (NULL).
   */
  method Lookup(t: Tree, h: Handle, key: Key) returns (t': Tree, found: Option<nat>)
    requires Reads(t, h)
    ensures t' == Probed(t, h, key)
    ensures found == if Unique(t, h, key) then Some(ValueSlot(t, h, key)) else None
  {
    if t.err != Ok {
      return t, None;
    }
    var n := NodeData(t, h);
    if !n.tag.Map? {
      return FlagError(t, Type), None;
    }
    var duplicate;
    found, duplicate := Scan(t, n, key);
    t' := if duplicate then FlagError(t, Data) else t;
    if duplicate {
      found := None;
    }
  }

  /** The loop of the lookups: the first match's value slot, stopping at a second match. */
  method Scan(t: Tree, n: Node, key: Key) returns (found: Option<nat>, duplicate: bool)
    requires n.tag.Map? && n.children + 2 * n.tag.count <= |t.nodes|
    ensures duplicate <==> |Matching(t, n, key, n.tag.count)| >= 2
    ensures !duplicate ==>
              found == if |Matching(t, n, key, n.tag.count)| == 0 then None
                       else Some(n.children + 2 * Matching(t, n, key, n.tag.count)[0] + 1)
  {
    found := None;
    var i: nat := 0;
    ghost var m: seq<nat> := [];
    while i < n.tag.count
      invariant i <= n.tag.count && m == Matching(t, n, key, i) && |m| <= 1
      invariant found == if |m| == 0 then None else Some(n.children + 2 * m[0] + 1)
    {
      MatchingStep(t, n, key, i);
      if KeyMatches(t.data, PairKey(t, n, i), key) {
        if found.Some? {
          MatchingGrows(t, n, key, i + 1, n.tag.count);
          return None, true;
        }
        found := Some(n.children + 2 * i + 1);
        m := m + [i];
      }
      i := i + 1;
    }
    duplicate := false;
  }

  /** One more pair: its index is appended when its key matches. */
  lemma MatchingStep(t: Tree, n: Node, key: Key, i: nat)
    requires n.tag.Map? && n.children + 2 * (i + 1) <= |t.nodes|
    ensures Matching(t, n, key, i + 1) ==
              Matching(t, n, key, i) + if KeyMatches(t.data, PairKey(t, n, i), key) then [i] else []
  {
  }

  /**
   * `bjd_node_map_int`, `bjd_node_map_uint`, `bjd_node_map_str` with
   * `bjd_node_wrap_lookup`: the value of the one matching key. Otherwise the
   * nil node, and the tree is in error: Type for a non-map, Data for no
   * match or more than one.
   */
  method MapGet(t: Tree, h: Handle, key: Key) returns (t': Tree, r: Handle)
    requires Reads(t, h)
    ensures Reads(t', r) && t.SameParse(t')
    ensures Unique(t, h, key) ==> t' == t && r == At(ValueSlot(t, h, key))
    ensures !Unique(t, h, key) ==> r == NilNode && t'.err != Ok
    ensures !Unique(t, h, key) ==>
              t' == Rejected(t, if t.err == Ok && !NodeData(t, h).tag.Map? then Type else Data)
  {
    var found;
    t', found := Lookup(t, h, key);
    if found.None? {
      if t'.err == Ok {
        t' := FlagError(t', Data);
      }
      r := NilNode;
    } else {
      r := At(found.value);
    }
  }

  /**
   * The `_optional` lookups with `bjd_node_wrap_lookup_optional`: as above,
   * except that a map without the key gives the missing node and leaves the
   * tree as it is.
   */
  method MapGetOptional(t: Tree, h: Handle, key: Key) returns (t': Tree, r: Handle)
    requires Reads(t, h)
    ensures Reads(t', r) && t' == Probed(t, h, key)
    ensures Unique(t, h, key) ==> t' == t && r == At(ValueSlot(t, h, key))
    ensures !Unique(t, h, key) ==> r == (if t'.err == Ok then MissingNode else NilNode)
    ensures t.err == Ok && NodeData(t, h).tag.Map? && |AllMatching(t, h, key)| == 0 ==> t' == t && r == MissingNode
  {
    var found;
    t', found := Lookup(t, h, key);
    if found.None? {
      r := if t'.err == Ok then MissingNode else NilNode;
    } else {
      r := At(found.value);
    }
  }

  /** `bjd_node_map_contains_int`, `_uint` and `_str`: whether the lookup finds a value. */
  method MapContains(t: Tree, h: Handle, key: Key) returns (t': Tree, b: bool)
    requires Reads(t, h)
    ensures t' == Probed(t, h, key)
    ensures b <==> Unique(t, h, key)
  {
    var found;
    t', found := Lookup(t, h, key);
    b := found.Some?;
  }

  /**
   * The lookups agree with indexing: a lookup that finds a value found pair
   * j, whose key matches and whose value is the value found, and no other
   * pair's key matches; a lookup with no match is one where no pair's key
   * matches; one that flags a duplicate saw two pairs whose keys match.
   */
  lemma LookupIsIndexing(t: Tree, h: Handle, key: Key)
    requires Reads(t, h) && t.err == Ok && NodeData(t, h).tag.Map?
    ensures Unique(t, h, key) ==>
              var j := AllMatching(t, h, key)[0];
              && MapValueAt(t, h, j) == (t, At(ValueSlot(t, h, key)))
              && forall i | 0 <= i < Count(t, h, Types.Map).1 ::
                   (KeyMatches(t.data, NodeData(t, MapKeyAt(t, h, i).1), key) <==> i == j)
    ensures |AllMatching(t, h, key)| == 0 ==>
              forall i | 0 <= i < Count(t, h, Types.Map).1 :: !KeyMatches(t.data, NodeData(t, MapKeyAt(t, h, i).1), key)
    ensures |AllMatching(t, h, key)| >= 2 ==>
              exists i, i' | 0 <= i < i' < Count(t, h, Types.Map).1 ::
                KeyMatches(t.data, NodeData(t, MapKeyAt(t, h, i).1), key) && KeyMatches(t.data, NodeData(t, MapKeyAt(t, h, i').1), key)
  {
    var n := NodeData(t, h);
    MatchingExact(t, n, key, n.tag.count);
    if Unique(t, h, key) {
      OnePair(t, h, key);
    } else if |AllMatching(t, h, key)| == 0 {
      NoPair(t, h, key);
    } else {
      TwoPairs(t, h, key);
    }
  }

  /** Key i of a map node, as indexing reads it, is the key node of pair i. */
  lemma KeyAtIsPair(t: Tree, h: Handle, i: nat)
    requires Reads(t, h) && t.err == Ok && NodeData(t, h).tag.Map? && i < NodeData(t, h).tag.count
    ensures NodeData(t, MapKeyAt(t, h, i).1) == PairKey(t, NodeData(t, h), i)
  {
  }

  lemma OnePair(t: Tree, h: Handle, key: Key)
    requires Reads(t, h) && Unique(t, h, key)
    requires var n := NodeData(t, h);
      forall j | 0 <= j < n.tag.count :: KeyMatches(t.data, PairKey(t, n, j), key) <==> j in AllMatching(t, h, key)
    ensures var j := AllMatching(t, h, key)[0];
      && MapValueAt(t, h, j) == (t, At(ValueSlot(t, h, key)))
      && forall i | 0 <= i < Count(t, h, Types.Map).1 ::
           (KeyMatches(t.data, NodeData(t, MapKeyAt(t, h, i).1), key) <==> i == j)
  {
    var n := NodeData(t, h);
    var m := AllMatching(t, h, key);
    assert m[0] in m;
    forall i | 0 <= i < n.tag.count
      ensures KeyMatches(t.data, NodeData(t, MapKeyAt(t, h, i).1), key) <==> i == m[0]
    {
      KeyAtIsPair(t, h, i);
      if i in m {
        assert i == m[0];
      }
    }
  }

  lemma NoPair(t: Tree, h: Handle, key: Key)
    requires Reads(t, h) && t.err == Ok && NodeData(t, h).tag.Map? && |AllMatching(t, h, key)| == 0
    requires var n := NodeData(t, h);
      forall j | 0 <= j < n.tag.count :: KeyMatches(t.data, PairKey(t, n, j), key) <==> j in AllMatching(t, h, key)
    ensures forall i | 0 <= i < Count(t, h, Types.Map).1 :: !KeyMatches(t.data, NodeData(t, MapKeyAt(t, h, i).1), key)
  {
    forall i | 0 <= i < NodeData(t, h).tag.count
      ensures !KeyMatches(t.data, NodeData(t, MapKeyAt(t, h, i).1), key)
    {
      KeyAtIsPair(t, h, i);
    }
  }

  lemma TwoPairs(t: Tree, h: Handle, key: Key)
    requires Reads(t, h) && t.err == Ok && NodeData(t, h).tag.Map? && |AllMatching(t, h, key)| >= 2
    requires var n := NodeData(t, h); var m := AllMatching(t, h, key);
      && (forall j | 0 <= j < n.tag.count :: KeyMatches(t.data, PairKey(t, n, j), key) <==> j in m)
      && (forall a, b | 0 <= a < b < |m| :: m[a] < m[b])
    ensures exists i, i' | 0 <= i < i' < Count(t, h, Types.Map).1 ::
              KeyMatches(t.data, NodeData(t, MapKeyAt(t, h, i).1), key) && KeyMatches(t.data, NodeData(t, MapKeyAt(t, h, i').1), key)
  {
    var m := AllMatching(t, h, key);
    assert m[0] in m && m[1] in m;
    KeyAtIsPair(t, h, m[0]);
    KeyAtIsPair(t, h, m[1]);
    assert KeyMatches(t.data, NodeData(t, MapKeyAt(t, h, m[0]).1), key);
    assert KeyMatches(t.data, NodeData(t, MapKeyAt(t, h, m[1]).1), key);
  }

  /**
   * Int and uint keys match by value, as `bjd_tag_equal` compares integer
   * tags: a key node matches the int key num exactly when it is an integer
   * tag equal to Int(num), and the uint key num when it is one equal to
   * Uint(num).
   */
  lemma KeyMatchesEqual(data: seq<Byte>, n: Node, num: int)
    requires n.tag.Int? || n.tag.Uint?
    ensures -0x8000_0000_0000_0000 <= num < 0x8000_0000_0000_0000 ==>
              (KeyMatches(data, n, IntKey(num)) <==> Tags.Equal(n.tag, Tags.Int(num)))
    ensures 0 <= num < 0x1_0000_0000_0000_0000 ==>
              (KeyMatches(data, n, UintKey(num)) <==> Tags.Equal(n.tag, Tags.Uint(num)))
  {
    if -0x8000_0000_0000_0000 <= num < 0x8000_0000_0000_0000 {
      Tags.EqualIntegers(n.tag, Tags.Int(num));
    }
    if 0 <= num < 0x1_0000_0000_0000_0000 {
      Tags.EqualIntegers(n.tag, Tags.Uint(num));
    }
  }

  /** Looking up a non-negative number as an int key or as a uint key finds the same pairs. */
  lemma {:induction false} SignedUnsignedKeys(t: Tree, n: Node, num: nat, k: nat)
    requires n.tag.Map? && n.children + 2 * k <= |t.nodes| && num < 0x8000_0000_0000_0000
    ensures Matching(t, n, IntKey(num), k) == Matching(t, n, UintKey(num), k)
  {
    if k > 0 {
      SignedUnsignedKeys(t, n, num, k - 1);
    }
  }

  // ---------------------------------------------------------------------
  // Enumerations (bjd-node.c:1882-1912)
  // ---------------------------------------------------------------------

  /**
   * `bjd_node_enum_optional`: the index of the first of `strings` equal to
   * a str node's bytes; |strings| when none is, when the node is no str or
   * when the tree is in error. Nothing is flagged.
   */
  method EnumOptional(t: Tree, h: Handle, strings: seq<seq<Byte>>) returns (i: nat)
    requires Reads(t, h) && CStrings(strings)
    ensures i <= |strings|
    ensures i < |strings| <==>
              t.err == Ok && NodeData(t, h).tag.Str? && Payload(t, NodeData(t, h)) in strings
    ensures i < |strings| ==>
              strings[i] == Payload(t, NodeData(t, h)) && Payload(t, NodeData(t, h)) !in strings[..i]
  {
    if t.err != Ok || !NodeData(t, h).tag.Str? {
      return |strings|;
    }
    var key := Payload(t, NodeData(t, h));
    i := 0;
    while i < |strings|
      invariant i <= |strings| && key !in strings[..i]
    {
      if |key| == |strings[i]| && key == strings[i] {
        return i;
      }
      assert strings[..i + 1] == strings[..i] + [strings[i]];
      i := i + 1;
    }
    assert strings[..i] == strings;
  }

  /** `bjd_node_enum`: as `EnumOptional`, and a value that is none of the strings flags Type. */
  method Enum(t: Tree, h: Handle, strings: seq<seq<Byte>>) returns (t': Tree, i: nat)
    requires Reads(t, h) && CStrings(strings)
    ensures i <= |strings|
    ensures i < |strings| ==> t' == t && NodeData(t, h).tag.Str? && strings[i] == Payload(t, NodeData(t, h))
    ensures i == |strings| ==> t' == Rejected(t, Type)
    ensures t'.err == Ok <==> t.err == Ok && NodeData(t, h).tag.Str? && Payload(t, NodeData(t, h)) in strings
  {
    i := EnumOptional(t, h, strings);
    t' := if i == |strings| then FlagError(t, Type) else t;
  }
}
