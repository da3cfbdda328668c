/**
 * The node tree parser (bjd-node.c:82-971): a whole message parsed into an
 * arena of nodes without recursion. An explicit stack holds, for each open
 * array or map, the next child slot and how many children are left. Before
 * anything is allocated the parser reserves one byte of data per declared
 * child ("possible nodes left"), so hostile counts fail before they cost
 * memory. Node pages are modelled as one arena of indices: a container's
 * children are a contiguous run of it. Allocation always succeeds; a
 * caller's fixed node pool is the one limit on the arena.
 */
module Tree {
  import opened Bytes
  import opened Wrappers
  import opened Errors
  import opened Tags
  import Wire
  import Objects

  /** `BJDATA_BUFFER_SIZE` (bjd-defaults.h:324-326): the first buffer a streaming tree allocates. */
  const BUFFER_SIZE: nat := 4096

  /**
   * `bjd_node_data_t` (bjd-node.h:151-167): the tag holds the node's type
   * with its value, count or length; `offset` is where a str, bin or ext
   * payload starts in the data; `children` is the arena index of an array
   * or map's first child.
   */
  datatype Node = Node(tag: Tag, offset: nat, children: nat)

  /** A slot allocated for a child that has not been parsed yet. */
  const Unparsed: Node := Node(Missing, 0, 0)

  /** `bjd_level_t`: the next child slot of an open container and how many children are left. */
  datatype Level = Level(child: nat, left: nat)

  /** `bjd_tree_parse_state_t`. */
  datatype State = NotStarted | InProgress | Parsed

  datatype Tree = Tree(
    data: seq<Byte>,       // data[0..data_length]
    pending: seq<Byte>,    // what the read function can deliver right now
    hasRead: bool,         // a read function is installed
    capacity: nat,         // buffer_capacity
    maxSize: nat,          // max_size: the largest message
    maxNodes: nat,         // max_nodes: the most nodes in a message
    sizeMax: nat,          // SIZE_MAX of the platform
    pool: Option<nat>,     // the node count of a caller's fixed pool; None when pages are allocated
    size: nat,             // size: the bytes of the nodes parsed so far
    nodeCount: nat,        // node_count
    possible: nat,         // possible_nodes_left
    reserved: nat,         // current_node_reserved
    nodes: seq<Node>,      // the arena: the root first, each container's children contiguous
    stack: seq<Level>,     // the parse stack, innermost open container last
    state: State,
    err: Error,
    reported: seq<Error>,  // the errors the error callback has been called with
    extensions: bool)      // BJDATA_EXTENSIONS
  {
    predicate Valid() {
      && |reported| <= 1
      && (|reported| == 1 ==> reported[0] == err && err != Ok)
      && (pool.Some? ==> 1 <= pool.value && |nodes| <= pool.value)
      && (hasRead ==> |data| <= capacity)
      && (!hasRead ==> pending == [])
      && size <= |data| && possible <= |data|
      && WellFormed(nodes, |data|)
    }

    /**
     * The parser between two nodes: a node to parse at `size` for the
     * innermost open level, and the byte budget balanced: every byte of the
     * data is parsed, reserved for a child still owed, or a possible node.
     * There are never more nodes than bytes parsed or owed.
     */
    predicate Parsing() {
      && Valid() && err == Ok && state == InProgress
      && |stack| >= 1 && stack[|stack| - 1].left >= 1
      && size + Owed(stack) + possible == |data|
      && StackFits(stack, |nodes|)
      && nodeCount == |nodes| <= size + Owed(stack)
    }

    /** The data followed by everything the read function can still deliver. */
    function Whole(): seq<Byte> {
      data + pending
    }

    /** t' has this tree's configuration, which parsing never changes. */
    predicate Configured(t': Tree) {
      && t'.hasRead == hasRead && t'.maxSize == maxSize && t'.maxNodes == maxNodes
      && t'.sizeMax == sizeMax && t'.pool == pool && t'.extensions == extensions
    }

    /** t' has the same parse as this tree: only the data, the reservation and the error may differ. */
    predicate SameParse(t': Tree) {
      && Configured(t')
      && t'.size == size && t'.nodeCount == nodeCount && t'.nodes == nodes && t'.stack == stack
      && t'.state == state
    }

    /**
     * The limits let through a message of n bytes: each node takes at least
     * one byte, so no limit can be reached before the data runs out.
     */
    predicate Roomy(n: nat) {
      n <= maxNodes && n <= maxSize && n <= sizeMax && (pool.Some? ==> n <= pool.value)
    }

    /** t' may have read more: the same stream, more of it in the data, each new byte a new possible node. */
    predicate Refilled(t': Tree) {
      && t'.Whole() == Whole() && data <= t'.data
      && t'.possible == possible + (|t'.data| - |data|)
    }

    /** t' kept the error this tree was already in. */
    predicate KeepsError(t': Tree) {
      err != Ok ==> t'.err == err && t'.reported == reported
    }
  }

  /** A node points inside an arena of `arena` slots (its children) or data of `length` bytes (its payload). */
  predicate Fits(n: Node, arena: nat, length: nat) {
    && (n.tag.Array? || n.tag.Map? ==> n.children + Objects.Children(n.tag) <= arena)
    && (n.tag.Str? || n.tag.Bin? || n.tag.Ext? ==> 1 <= n.offset && n.offset + n.tag.len <= length)
  }

  /** Every node of the arena fits it and the data. */
  predicate WellFormed(nodes: seq<Node>, length: nat) {
    forall i | 0 <= i < |nodes| :: Fits(nodes[i], |nodes|, length)
  }

  /** Each level's remaining children are slots of the arena. */
  predicate StackFits(stack: seq<Level>, arena: nat) {
    forall i | 0 <= i < |stack| :: stack[i].child + stack[i].left <= arena
  }

  /** The children the open containers on the stack still owe, each with one byte reserved. */
  function Owed(s: seq<Level>): nat {
    if |s| == 0 then 0 else Owed(s[..|s| - 1]) + s[|s| - 1].left
  }

  /** Pushing a level adds its children to what is owed. */
  lemma OwedPush(s: seq<Level>, l: Level)
    ensures Owed(s + [l]) == Owed(s) + l.left
  {
    assert (s + [l])[..|s|] == s;
  }

  /** Replacing the innermost level changes what is owed by the difference. */
  lemma OwedTop(s: seq<Level>, l: Level)
    requires |s| >= 1
    ensures Owed(s[..|s| - 1] + [l]) + s[|s| - 1].left == Owed(s) + l.left
  {
    OwedPush(s[..|s| - 1], l);
  }

  /**
   * `bjd_tree_flag_error` (bjd-node.c:1219-1227): only the first error is
   * kept, and only it reaches the error callback.
   */
  function FlagError(t: Tree, e: Error): (t': Tree)
    requires t.Valid() && e != Ok
    ensures t'.Valid() && t.SameParse(t') && t.KeepsError(t')
    ensures t'.data == t.data && t'.pending == t.pending && t'.possible == t.possible
    ensures t'.capacity == t.capacity && t'.reserved == t.reserved
    ensures t'.err == (if t.err == Ok then e else t.err)
    ensures t'.reported == (if t.err == Ok then [e] else t.reported)
  {
    if t.err == Ok then t.(err := e, reported := t.reported + [e]) else t
  }

  /** The error flagged twice is the first one. */
  lemma FirstErrorWins(t: Tree, a: Error, b: Error)
    requires t.Valid() && t.err == Ok && a != Ok && b != Ok
    ensures FlagError(FlagError(t, a), b).err == a
    ensures FlagError(FlagError(t, a), b).reported == [a]
  {
  }

  // ---------------------------------------------------------------------
  // Reserving bytes
  // ---------------------------------------------------------------------

  /** The doubling loop of the buffer expansion: the first power-of-two multiple of c reaching need. */
  function Doubled(c: nat, need: nat): (n: nat)
    requires c > 0
    ensures n >= need && n >= c
    decreases need - c
  {
    if c >= need then c else Doubled(2 * c, need)
  }

  /**
   * The new buffer capacity (bjd-node.c:108-114): the old one, or the
   * default buffer size for none, doubled until the data and the reservation
   * fit, but never past the message size limit.
   */
  function Grown(capacity: nat, need: nat, maxSize: nat): (n: nat)
    ensures n <= maxSize && (n == maxSize || need <= n)
  {
    var n := Doubled(if capacity == 0 then BUFFER_SIZE else capacity, need);
    if n > maxSize then maxSize else n
  }

  /**
   * The read loop of `bjd_tree_reserve_fill` (bjd-node.c:137-161): each
   * call of the read function hands over as much as is available and fits
   * in the buffer; a call that gives nothing stops the parse for now.
   */
  function ReadLoop(t: Tree, bytes: nat): (res: (Tree, bool))
    requires t.Valid() && t.hasRead && t.possible < bytes && |t.data| + bytes <= t.capacity + t.possible
    ensures var (t', ok) := res;
      && t'.Valid() && t.SameParse(t') && t.Refilled(t') && t'.err == t.err && t'.reported == t.reported
      && t'.capacity == t.capacity && t'.reserved == t.reserved
      && (ok <==> bytes <= t'.possible)
      && (!ok ==> t'.pending == [])
      && (bytes <= t.possible + |t.pending| ==> ok)
    decreases |t.pending|
  {
    var n := if |t.pending| <= t.capacity - |t.data| then |t.pending| else t.capacity - |t.data|;
    if n == 0 then (t, false)
    else
      var t1 := t.(data := t.data + t.pending[..n], pending := t.pending[n..], possible := t.possible + n);
      assert t1.Whole() == t.Whole() by {
        assert t.pending == t.pending[..n] + t.pending[n..];
      }
      if t1.possible < bytes then ReadLoop(t1, bytes) else (t1, true)
  }

  /**
   * `bjd_tree_reserve_fill` (bjd-node.c:82-163): TooBig when the message
   * would pass the size limit, Invalid without a read function (the data
   * should hold whole messages), otherwise the buffer grows to fit and the
   * read function is asked for more. The message needs the data plus the
   * part of the reservation the data does not cover yet; the source adds
   * the whole reservation to the data instead, see `ReserveFillAsWritten`.
   */
  function ReserveFill(t: Tree): (res: (Tree, bool))
    requires t.Valid() && t.err == Ok && t.reserved > t.possible
    ensures var (t', ok) := res;
      && t'.Valid() && t.SameParse(t') && t.Refilled(t') && t'.reserved == t.reserved
      && (ok ==> t'.err == Ok && t'.reserved <= t'.possible)
      && (!ok && t'.err == Ok ==> t.hasRead && t'.pending == [])
      && (t'.err != Ok ==> t'.err == (if |t.data| + t.reserved - t.possible > t.maxSize then TooBig else Invalid))
      && (!t.hasRead ==> !ok && t'.data == t.data)
      && (!ok && (t'.err == Ok || t.Roomy(|t.Whole()|)) ==> t.reserved > t.possible + |t.pending|)
      && (t.hasRead && |t.data| + t.reserved - t.possible <= t.maxSize && t.reserved <= t.possible + |t.pending| ==> ok)
  {
    if |t.data| + t.reserved - t.possible > t.maxSize then (FlagError(t, TooBig), false)
    else if !t.hasRead then (FlagError(t, Invalid), false)
    else
      var need := |t.data| + t.reserved;
      var t1 := if need > t.capacity then t.(capacity := Grown(t.capacity, need, t.maxSize)) else t;
      ReadLoop(t1, t.reserved)
  }

  /** `bjd_tree_reserve_fill` as written: the limit check counts the buffered part of the reservation twice. */
  function ReserveFillAsWritten(t: Tree): (res: (Tree, bool))
    requires t.Valid() && t.err == Ok && t.reserved > t.possible
    ensures var (t', ok) := res; t'.Valid() && t.SameParse(t') && t.Refilled(t')
  {
    if |t.data| + t.reserved > t.maxSize then (FlagError(t, TooBig), false)
    else if !t.hasRead then (FlagError(t, Invalid), false)
    else
      var need := |t.data| + t.reserved;
      var t1 := if need > t.capacity then t.(capacity := Grown(t.capacity, need, t.maxSize)) else t;
      ReadLoop(t1, t.reserved)
  }

  /**
   * What reserving `extra` more bytes for the current node means: the parse
   * is untouched and only reading changed the data; on success the
   * reservation grew by `extra` and is covered by the possible bytes; a
   * failure without an error drained the input; an error is SIZE_MAX's
   * Invalid, the size limit's TooBig or the missing read function's
   * Invalid; without a read function nothing is read and success is exactly
   * the reservation fitting; a failure the limits did not cause means the
   * stream is too short; and a reservation the stream and limits can
   * satisfy succeeds.
   */
  predicate Reserved(t: Tree, t': Tree, extra: nat, ok: bool) {
    && t'.Valid() && t.SameParse(t') && t.Refilled(t')
    && (ok ==> t'.err == Ok && t'.reserved == t.reserved + extra <= t'.possible)
    && (!ok && t'.err == Ok ==> t.hasRead && t'.pending == [])
    && (t'.err != Ok ==>
          || (t'.err == Invalid && t.reserved + extra > t.sizeMax)
          || (&& t.reserved + extra > t.possible
              && if |t.data| + t.reserved + extra > t.maxSize + t.possible then t'.err == TooBig
                 else t'.err == Invalid && !t.hasRead))
    && (!t.hasRead ==> t'.data == t.data)
    && (!t.hasRead && t.reserved + extra <= t.sizeMax ==> (ok <==> t.reserved + extra <= t.possible))
    && (!ok && (t'.err == Ok || t.Roomy(|t.Whole()|)) ==> t.reserved + extra > t.possible + |t.pending|)
    && ((&& t.reserved + extra <= t.sizeMax && t.reserved + extra <= t.possible + |t.pending|
         && (t.hasRead ==> |t.data| + t.reserved + extra <= t.maxSize + t.possible))
        ==> ok)
  }

  /**
   * `bjd_tree_reserve_bytes` (bjd-node.c:181-208): adds `extra` bytes to
   * the current node's reservation (Invalid if the sum passes SIZE_MAX), and
   * reads more data when the reservation passes the possible nodes left.
   */
  method ReserveBytes(t: Tree, extra: nat) returns (t': Tree, ok: bool)
    requires t.Valid() && t.err == Ok
    ensures Reserved(t, t', extra, ok)
  {
    if t.reserved + extra > t.sizeMax {
      t' := FlagError(t, Invalid);
      ok := false;
      return;
    }
    t' := t.(reserved := t.reserved + extra);
    ok := true;
    if t'.reserved > t'.possible {
      var (t1, filled) := ReserveFill(t');
      t', ok := t1, filled;
    }
  }

  // ---------------------------------------------------------------------
  // Decoding one node's header
  // ---------------------------------------------------------------------

  /** The ext opcodes: ext8/16/32 and fixext1..16. */
  predicate IsExt(lead: Byte) {
    0xc7 <= lead <= 0xc9 || 0xd4 <= lead <= 0xd8
  }

  /** fixmap, fixarray, array16/32 and map16/32. */
  predicate IsContainerLead(lead: Byte) {
    0x80 <= lead <= 0x9f || 0xdc <= lead <= 0xdf
  }

  /** fixstr, bin8/16/32 and str8/16/32. */
  predicate IsPayloadLead(lead: Byte) {
    0xa0 <= lead <= 0xbf || 0xc4 <= lead <= 0xc6 || 0xd9 <= lead <= 0xdb
  }

  /**
   * The bytes the tree reserves after a lead byte before it loads the
   * node's length or value (bjd-node.c:514-675): the width of the field, none
   * for the fix forms and fixext. An ext node reserves its type byte later.
   */
  function FieldReserve(lead: Byte): (n: nat)
    requires lead != 0xc1
    ensures n + (if IsExt(lead) then 1 else 0) == Wire.HeaderSize(lead) - 1
  {
    if lead <= 0xc3 || lead >= 0xe0 || 0xd4 <= lead <= 0xd8 then 0
    else if lead <= 0xc6 then Wire.FieldSize(lead - 0xc4)
    else if lead <= 0xc9 then Wire.FieldSize(lead - 0xc7)
    else if lead == 0xca then 4
    else if lead == 0xcb then 8
    else if lead <= 0xcf then Wire.FieldSize(lead - 0xcc)
    else if lead <= 0xd3 then Wire.FieldSize(lead - 0xd0)
    else if lead <= 0xdb then Wire.FieldSize(lead - 0xd9)
    else if lead <= 0xdd then Wire.FieldSize(lead - 0xdb)
    else Wire.FieldSize(lead - 0xdd)
  }

  /**
   * The node a complete header decodes to: the switch of
   * `bjd_tree_parse_node_contents` (bjd-node.c:432-735), written out case
   * by case.
   */
  function NodeTag(h: seq<Byte>): (t: Tag)
    requires |h| >= 1 && h[0] != 0xc1 && |h| >= Wire.HeaderSize(h[0])
    ensures (t.Array? || t.Map?) <==> IsContainerLead(h[0])
    ensures (t.Str? || t.Bin?) <==> IsPayloadLead(h[0])
    ensures t.Ext? <==> IsExt(h[0])
  {
    var b := h[0];
    if b <= 0x7f then Uint(b)
    else if b >= 0xe0 then Int((b as int) - 0x100)
    else if b <= 0x8f then Map(b - 0x80)
    else if b <= 0x9f then Array(b - 0x90)
    else if b <= 0xbf then Str(b - 0xa0)
    else if b == 0xc0 then Nil
    else if b <= 0xc3 then Bool(b == 0xc3)
    else if b == 0xc4 then Bin(LoadU8(h[1..]))
    else if b == 0xc5 then Bin(LoadU16(h[1..]))
    else if b == 0xc6 then Bin(LoadU32(h[1..]))
    else if b == 0xc7 then Ext(LoadI8(h[2..]), LoadU8(h[1..]))
    else if b == 0xc8 then Ext(LoadI8(h[3..]), LoadU16(h[1..]))
    else if b == 0xc9 then Ext(LoadI8(h[5..]), LoadU32(h[1..]))
    else if b == 0xca then Float(LoadU32(h[1..]))
    else if b == 0xcb then Double(LoadU64(h[1..]))
    else if b == 0xcc then Uint(LoadU8(h[1..]))
    else if b == 0xcd then Uint(LoadU16(h[1..]))
    else if b == 0xce then Uint(LoadU32(h[1..]))
    else if b == 0xcf then Uint(LoadU64(h[1..]))
    else if b == 0xd0 then Int(LoadI8(h[1..]))
    else if b == 0xd1 then Int(LoadI16(h[1..]))
    else if b == 0xd2 then Int(LoadI32(h[1..]))
    else if b == 0xd3 then Int(LoadI64(h[1..]))
    else if b == 0xd4 then Ext(LoadI8(h[1..]), 1)
    else if b == 0xd5 then Ext(LoadI8(h[1..]), 2)
    else if b == 0xd6 then Ext(LoadI8(h[1..]), 4)
    else if b == 0xd7 then Ext(LoadI8(h[1..]), 8)
    else if b == 0xd8 then Ext(LoadI8(h[1..]), 16)
    else if b == 0xd9 then Str(LoadU8(h[1..]))
    else if b == 0xda then Str(LoadU16(h[1..]))
    else if b == 0xdb then Str(LoadU32(h[1..]))
    else if b == 0xdc then Array(LoadU16(h[1..]))
    else if b == 0xdd then Array(LoadU32(h[1..]))
    else if b == 0xde then Map(LoadU16(h[1..]))
    else Map(LoadU32(h[1..]))
  }

  /** The tree decodes every header exactly as the streaming reader does. */
  lemma NodeTagAgrees(h: seq<Byte>)
    requires |h| >= 1 && h[0] != 0xc1 && |h| >= Wire.HeaderSize(h[0])
    ensures NodeTag(h) == Wire.DecodeHeader(h)
  {
    var b := h[0];
    if b <= 0xc3 || b >= 0xe0 {
    } else if b <= 0xc6 {
      assert Wire.DecodeHeader(h) == Wire.DecodeBinExtFloat(h);
    } else if b <= 0xcb {
      assert Wire.DecodeHeader(h) == Wire.DecodeBinExtFloat(h);
    } else if b <= 0xd3 {
      assert Wire.DecodeHeader(h) == Wire.DecodeNumber(h);
    } else if b <= 0xd8 {
    } else {
      assert Wire.DecodeHeader(h) == Wire.DecodeStrArrayMap(h);
    }
  }

  // ---------------------------------------------------------------------
  // Parsing one node
  // ---------------------------------------------------------------------

  /** The arena stays well formed when one slot is filled in and fresh slots are appended. */
  lemma WellFormedGrows(nodes: seq<Node>, length: nat, nodes': seq<Node>, length': nat, slot: nat)
    requires WellFormed(nodes, length) && slot < |nodes| <= |nodes'| && length <= length'
    requires forall i | 0 <= i < |nodes| && i != slot :: nodes'[i] == nodes[i]
    requires forall i | |nodes| <= i < |nodes'| :: nodes'[i] == Unparsed
    requires Fits(nodes'[slot], |nodes'|, length')
    ensures WellFormed(nodes', length')
  {
    forall i | 0 <= i < |nodes'|
      ensures Fits(nodes'[i], |nodes'|, length')
    {
      if i < |nodes| && i != slot {
        assert Fits(nodes[i], |nodes|, length);
      }
    }
  }

  /** The arena after a container at `slot` gets `total` fresh child slots at its end. */
  function Carved(nodes: seq<Node>, slot: nat, tag: Tag, total: nat): (r: seq<Node>)
    requires slot < |nodes|
    ensures |r| == |nodes| + total && r[slot] == Node(tag, 0, |nodes|)
    ensures forall i | 0 <= i < |nodes| && i != slot :: r[i] == nodes[i]
    ensures forall i | |nodes| <= i < |r| :: r[i] == Unparsed
  {
    nodes[slot := Node(tag, 0, |nodes|)] + seq(total, _ => Unparsed)
  }

  /** The stack after a container with `total` children: a new innermost level unless it is empty. */
  function Pushed(stack: seq<Level>, first: nat, total: nat): seq<Level> {
    if total == 0 then stack else stack + [Level(first, total)]
  }

  /**
   * The children of the container at `slot` carved from the arena
   * (bjd-node.c:295-360): a contiguous block after every slot in use, its
   * first index recorded in the container's node, and pushed on the stack
   * (`bjd_tree_push_stack`, bjd-node.c:217-265) unless it is empty.
   */
  function Carve(t: Tree, tag: Tag, slot: nat): (t': Tree)
    requires t.Valid() && (tag.Array? || tag.Map?) && slot < |t.nodes|
    requires t.pool.Some? ==> |t.nodes| + Objects.Children(tag) <= t.pool.value
    ensures t'.Valid() && t.Configured(t')
    ensures t'.nodes == Carved(t.nodes, slot, tag, Objects.Children(tag))
    ensures t'.stack == Pushed(t.stack, |t.nodes|, Objects.Children(tag))
    ensures t'.nodeCount == t.nodeCount + Objects.Children(tag)
    ensures t'.data == t.data && t'.pending == t.pending && t'.possible == t.possible && t'.reserved == t.reserved
    ensures t'.size == t.size && t'.state == t.state && t'.err == t.err && t'.reported == t.reported
  {
    var total := Objects.Children(tag);
    var t' := t.(nodes := Carved(t.nodes, slot, tag, total), stack := Pushed(t.stack, |t.nodes|, total),
                 nodeCount := t.nodeCount + total);
    WellFormedGrows(t.nodes, |t.data|, t'.nodes, |t'.data|, slot);
    t'
  }

  /**
   * The second half of `bjd_tree_parse_children` (bjd-node.c:290-360):
   * one byte reserved per child before any slot is carved; a caller's pool
   * that cannot hold the children is TooBig.
   */
  method ReserveChildren(t: Tree, tag: Tag, slot: nat) returns (t': Tree, ok: bool)
    requires t.Valid() && t.err == Ok && (tag.Array? || tag.Map?) && slot < |t.nodes|
    ensures t'.Valid() && t.Configured(t') && t.Refilled(t') && t'.size == t.size && t'.state == t.state
    ensures ok ==> && t'.err == Ok && t'.reserved == t.reserved + Objects.Children(tag) <= t'.possible
                   && t'.nodes == Carved(t.nodes, slot, tag, Objects.Children(tag))
                   && t'.stack == Pushed(t.stack, |t.nodes|, Objects.Children(tag))
                   && t'.nodeCount == t.nodeCount + Objects.Children(tag)
    ensures !ok ==> t'.nodes == t.nodes && t'.stack == t.stack && t'.nodeCount == t.nodeCount
    ensures !ok ==> t'.err == TooBig || t'.err == Invalid || (t'.err == Ok && t.hasRead && t'.pending == [])
    ensures (!ok && (t'.err == Ok || t.Roomy(|t.Whole()|)) && |t.nodes| + t.possible <= |t.data|)
            ==> t.reserved + Objects.Children(tag) > t.possible + |t.pending|
    ensures (&& (t.pool.Some? ==> |t.nodes| + Objects.Children(tag) <= t.pool.value)
             && t.reserved + Objects.Children(tag) <= t.sizeMax
             && t.reserved + Objects.Children(tag) <= t.possible)
            ==> ok
    ensures (&& (t.pool.Some? ==> |t.nodes| + Objects.Children(tag) <= t.pool.value)
             && t.reserved + Objects.Children(tag) <= t.sizeMax
             && t.reserved + Objects.Children(tag) <= t.possible + |t.pending|
             && (t.hasRead ==> |t.data| + t.reserved + Objects.Children(tag) <= t.maxSize + t.possible))
            ==> ok
    ensures (&& t.hasRead && t.reserved + Objects.Children(tag) <= t.sizeMax
             && t.reserved + Objects.Children(tag) > t.possible + |t.pending|
             && |t.data| + t.reserved + Objects.Children(tag) <= t.maxSize + t.possible)
            ==> !ok && t'.err == Ok && t'.nodeCount == t.nodeCount
  {
    var total := Objects.Children(tag);
    t', ok := ReserveBytes(t, total);
    if !ok {
      return;
    }
    if t'.pool.Some? && |t'.nodes| + total > t'.pool.value {
      t' := FlagError(t', TooBig);
      ok := false;
      return;
    }
    t' := Carve(t', tag, slot);
  }

  /**
   * What parsing a container's children means: the configuration, stream,
   * position and state are kept; on success the children are reserved,
   * carved and pushed and counted; a map too large for SIZE_MAX or a count
   * past the node limit is TooBig; a failure keeps the arena, and is an
   * error or a drained input; a failure the limits did not cause means the
   * stream is too short; and children the limits and data allow succeed.
   */
  predicate ChildrenParsed(t: Tree, t': Tree, tag: Tag, slot: nat, ok: bool)
    requires (tag.Array? || tag.Map?) && slot < |t.nodes|
  {
    && t'.Valid() && t.Configured(t') && t.Refilled(t') && t'.size == t.size && t'.state == t.state
    && (ok ==> && t'.err == Ok && t'.reserved == t.reserved + Objects.Children(tag) <= t'.possible
               && t'.nodes == Carved(t.nodes, slot, tag, Objects.Children(tag))
               && t'.stack == Pushed(t.stack, |t.nodes|, Objects.Children(tag))
               && t'.nodeCount == t.nodeCount + Objects.Children(tag))
    && (((tag.Map? && Objects.Children(tag) > t.sizeMax) || t.nodeCount + Objects.Children(tag) > t.maxNodes)
        ==> !ok && t'.err == TooBig)
    && (!ok ==> t'.nodes == t.nodes && t'.stack == t.stack && t'.nodeCount == t.nodeCount)
    && (!ok ==> t'.err == TooBig || t'.err == Invalid || (t'.err == Ok && t.hasRead && t'.pending == []))
    && ((!ok && (t'.err == Ok || t.Roomy(|t.Whole()|)) && t.nodeCount == |t.nodes|
         && t.nodeCount + t.possible <= |t.data|)
        ==> t.reserved + Objects.Children(tag) > t.possible + |t.pending|)
    && ((&& t.nodeCount + Objects.Children(tag) <= t.maxNodes && Objects.Children(tag) <= t.sizeMax
         && (t.pool.Some? ==> |t.nodes| + Objects.Children(tag) <= t.pool.value)
         && t.reserved + Objects.Children(tag) <= t.sizeMax && t.reserved + Objects.Children(tag) <= t.possible)
        ==> ok)
    && ((&& t.nodeCount + Objects.Children(tag) <= t.maxNodes && Objects.Children(tag) <= t.sizeMax
         && (t.pool.Some? ==> |t.nodes| + Objects.Children(tag) <= t.pool.value)
         && t.reserved + Objects.Children(tag) <= t.sizeMax
         && t.reserved + Objects.Children(tag) <= t.possible + |t.pending|
         && (t.hasRead ==> |t.data| + t.reserved + Objects.Children(tag) <= t.maxSize + t.possible))
        ==> ok)
    && ((&& t.nodeCount + Objects.Children(tag) <= t.maxNodes && Objects.Children(tag) <= t.sizeMax
         && t.hasRead && t.reserved + Objects.Children(tag) <= t.sizeMax
         && t.reserved + Objects.Children(tag) > t.possible + |t.pending|
         && |t.data| + t.reserved + Objects.Children(tag) <= t.maxSize + t.possible)
        ==> !ok && t'.err == Ok)
  }

  /**
   * `bjd_tree_parse_children` (bjd-node.c:267-361) for the container `tag`
   * whose node is the arena slot `slot`: a map of n pairs has 2n children;
   * past the node limit is TooBig; then the children are reserved and
   * carved. The node count grows only once the children are carved (the
   * source grows it before reserving, see `ParseChildrenAsWritten`).
   */
  method ParseChildren(t: Tree, tag: Tag, slot: nat) returns (t': Tree, ok: bool)
    requires t.Valid() && t.err == Ok && (tag.Array? || tag.Map?) && slot < |t.nodes|
    ensures ChildrenParsed(t, t', tag, slot, ok)
  {
    var total := Objects.Children(tag);
    if (tag.Map? && total > t.sizeMax) || t.nodeCount + total > t.maxNodes {
      t' := FlagError(t, TooBig);
      ok := false;
      return;
    }
    t', ok := ReserveChildren(t, tag, slot);
  }

  /**
   * `bjd_tree_parse_children` as written: the node count grows before the
   * reservation, so a container whose children are still on their way is
   * counted again each time its parse is resumed.
   */
  method ParseChildrenAsWritten(t: Tree, tag: Tag, slot: nat) returns (t': Tree, ok: bool)
    requires t.Valid() && t.err == Ok && (tag.Array? || tag.Map?) && slot < |t.nodes|
    ensures t'.Valid() && t.Configured(t') && t'.Whole() == t.Whole()
    ensures !ok ==> t'.nodes == t.nodes
    ensures t.nodeCount + Objects.Children(tag) > t.maxNodes ==> !ok && t'.err == TooBig
    ensures (&& t.nodeCount + Objects.Children(tag) <= t.maxNodes && Objects.Children(tag) <= t.sizeMax
             && t.hasRead && t.reserved + Objects.Children(tag) <= t.sizeMax
             && t.reserved + Objects.Children(tag) > t.possible + |t.pending|
             && |t.data| + t.reserved + Objects.Children(tag) <= t.maxSize + t.possible)
            ==> !ok && t'.err == Ok && t'.nodeCount == t.nodeCount + Objects.Children(tag)
  {
    var total := Objects.Children(tag);
    if tag.Map? && total > t.sizeMax {
      t' := FlagError(t, TooBig);
      ok := false;
      return;
    }
    var t0 := t.(nodeCount := t.nodeCount + total);
    if t0.nodeCount > t0.maxNodes {
      t' := FlagError(t0, TooBig);
      ok := false;
      return;
    }
    t', ok := ReserveChildren(t0, tag, slot);
    if ok {
      t' := t'.(nodeCount := t0.nodeCount);
    }
  }

  /** A complete header in the data parses, whatever follows it, as the header the tree decodes. */
  lemma HeaderParses(d: seq<Byte>, rest: seq<Byte>, at: nat, h: nat, extensions: bool)
    requires at < |d| && !Wire.IsBadLead(d[at], extensions) && h == Wire.HeaderSize(d[at]) && at + h <= |d|
    ensures Wire.ParseTag((d + rest)[at..], extensions) == Wire.Parsed(NodeTag(d[at..at + h]), h)
  {
    var hd := d[at..at + h];
    SplitAtHeader(d, rest, at, h);
    CompleteHeaderThen((d + rest)[at..], hd, d[at + h..] + rest, h, extensions);
  }

  /** A complete header followed by anything parses as the header the tree decodes. */
  lemma CompleteHeaderThen(w: seq<Byte>, hd: seq<Byte>, tail: seq<Byte>, h: nat, extensions: bool)
    requires w == hd + tail && h == |hd|
    requires |hd| >= 1 && !Wire.IsBadLead(hd[0], extensions) && |hd| == Wire.HeaderSize(hd[0])
    ensures Wire.ParseTag(w, extensions) == Wire.Parsed(NodeTag(hd), h)
  {
    CompleteHeader(hd, extensions);
    Wire.ParseIgnoresRest(hd, tail, extensions);
  }

  lemma SplitAtHeader(d: seq<Byte>, rest: seq<Byte>, at: nat, h: nat)
    requires at + h <= |d|
    ensures (d + rest)[at..] == d[at..at + h] + (d[at + h..] + rest)
  {
  }

  lemma CompleteHeader(hd: seq<Byte>, extensions: bool)
    requires |hd| >= 1 && !Wire.IsBadLead(hd[0], extensions) && |hd| == Wire.HeaderSize(hd[0])
    ensures Wire.ParseTag(hd, extensions) == Wire.Parsed(NodeTag(hd), |hd|)
  {
    NodeTagAgrees(hd);
  }

  /** The lead byte of the next node decides the header's first outcome. */
  lemma LeadParses(d: seq<Byte>, rest: seq<Byte>, at: nat, extensions: bool)
    requires at < |d|
    ensures var o := Wire.ParseTag((d + rest)[at..], extensions);
      && (o.Failed? <==> Wire.IsBadLead(d[at], extensions))
      && (o.Failed? ==> o.error == (if d[at] == 0xc1 then Invalid else Unsupported))
      && (o.Parsed? ==> o.size == Wire.HeaderSize(d[at]))
  {
    assert (d + rest)[at..][0] == d[at];
  }

  /** Where the node a parse is on sits in the arena. */
  function Slot(t: Tree): nat
    requires |t.stack| >= 1
  {
    t.stack[|t.stack| - 1].child
  }

  /**
   * What parsing a node with header tag in h bytes leaves in the arena: a
   * container gets its children carved and pushed, anything else is filled
   * in where it stands; a str, bin or ext payload starts after the header.
   */
  predicate Placed(t: Tree, t': Tree, tag: Tag, h: nat)
    requires |t.stack| >= 1 && Slot(t) < |t.nodes|
  {
    if tag.Array? || tag.Map? then
      && t'.nodes == Carved(t.nodes, Slot(t), tag, Objects.Children(tag))
      && t'.stack == Pushed(t.stack, |t.nodes|, Objects.Children(tag))
      && t'.nodeCount == t.nodeCount + Objects.Children(tag)
    else
      && t'.nodes == t.nodes[Slot(t) := Node(tag, if tag.Str? || tag.Bin? || tag.Ext? then t.size + h else 0, 0)]
      && t'.stack == t.stack && t'.nodeCount == t.nodeCount
  }

  /** A node without payload or children filled in at `slot`. */
  function Fill(t: Tree, slot: nat, n: Node): (t': Tree)
    requires t.Valid() && slot < |t.nodes| && Fits(n, |t.nodes|, |t.data|)
    ensures t'.Valid() && t.Configured(t') && t'.nodes == t.nodes[slot := n]
    ensures t'.data == t.data && t'.pending == t.pending && t'.possible == t.possible && t'.reserved == t.reserved
    ensures t'.size == t.size && t'.state == t.state && t'.err == t.err && t'.reported == t.reported
    ensures t'.stack == t.stack && t'.nodeCount == t.nodeCount
  {
    var t' := t.(nodes := t.nodes[slot := n]);
    WellFormedGrows(t.nodes, |t.data|, t'.nodes, |t'.data|, slot);
    t'
  }

  /**
   * The outcome of parsing the node at `size` of t, measured against the
   * header the whole stream holds there: a bad lead byte is its error; a
   * parsed node reserved its header's fields plus one byte for each payload
   * byte or child, and is placed in the arena; a node that could not be
   * parsed changed nothing but the data, and (unless a limit below the
   * stream's length stopped it) the stream does not hold its header or the
   * bytes it declares.
   */
  predicate NodeOutcome(t: Tree, t': Tree, ok: bool)
    requires t.Parsing()
  {
    var o := Wire.ParseTag(t.Whole()[t.size..], t.extensions);
    && Slot(t) < |t.nodes|
    && (o.Failed? ==> !ok && t'.err == o.error)
    && (ok ==> && o.Parsed? && t'.err == Ok
               && t'.reserved == o.size - 1 + Objects.Extent(o.tag) <= t'.possible
               && Placed(t, t', o.tag, o.size))
    && (!ok ==> t'.nodes == t.nodes && t'.stack == t.stack && t'.nodeCount == t.nodeCount)
    && (!ok ==> t'.err != Ok || (t.hasRead && t'.pending == []))
    && (!ok && (t'.err == Ok || t.Roomy(|t.Whole()|))
        ==> o.Short? || o.Failed? || o.size - 1 + Objects.Extent(o.tag) > t.possible + |t.pending|)
  }

  /** What any step of a node's parse keeps: the configuration, the stream, the position and the state. */
  predicate Steady(t: Tree, t': Tree) {
    && t'.Valid() && t.Configured(t') && t.Refilled(t') && t'.size == t.size && t'.state == t.state
    && (t'.err == Ok || t'.err == Invalid || t'.err == Unsupported || t'.err == TooBig)
  }

  /** The innermost level owes at least one child when the parser is between nodes. */
  lemma OwedCoversTop(s: seq<Level>)
    requires |s| >= 1
    ensures Owed(s) >= s[|s| - 1].left
  {
  }

  /**
   * u is t once the lead byte at `size` has passed the bad-lead checks and
   * its length or value field is reserved: the field's bytes are in the data.
   */
  predicate Midway(t: Tree, u: Tree) {
    && t.Parsing() && u.Valid() && u.err == Ok && t.Configured(u) && t.Refilled(u)
    && u.size == t.size && u.nodes == t.nodes && u.stack == t.stack && u.nodeCount == t.nodeCount
    && u.state == t.state
    && t.size < |t.data| && !Wire.IsBadLead(t.data[t.size], t.extensions)
    && u.reserved == FieldReserve(t.data[t.size]) <= u.possible
  }

  /** In the middle of a node's parse, the data holds the lead byte and its reserved field. */
  lemma MidwayBytes(t: Tree, u: Tree)
    requires Midway(t, u)
    ensures t.size + 1 + u.reserved <= |u.data| && u.data[t.size] == t.data[t.size]
    ensures u.size + Owed(u.stack) + u.possible == |u.data|
    ensures u.Whole() == t.Whole()
  {
    OwedCoversTop(t.stack);
    assert u.data[..|t.data|] == t.data;
  }

  /** Midway, the lead byte is in the data. */
  lemma LeadInData(t: Tree, u: Tree)
    requires Midway(t, u)
    ensures t.size < |u.data| && u.data[t.size] == t.data[t.size]
  {
    MidwayBytes(t, u);
  }

  /** Refilling twice is refilling once; the bytes still to come plus the possible ones stay the same. */
  lemma RefilledChain(t: Tree, u: Tree, v: Tree)
    requires t.Refilled(u) && u.Refilled(v)
    ensures t.Refilled(v)
    ensures v.possible + |v.pending| == t.possible + |t.pending|
  {
    assert v.data[..|t.data|] == u.data[..|t.data|];
  }

  /** Reading only moves bytes from the pending input to the data. */
  lemma RefilledBalance(t: Tree, u: Tree)
    requires t.Refilled(u)
    ensures u.possible + |u.pending| == t.possible + |t.pending|
  {
    assert |u.Whole()| == |t.Whole()|;
  }

  /** A node whose header the stream holds, with everything it declares reserved and placed, is an ok outcome. */
  lemma Succeeded(t: Tree, t': Tree, tag: Tag, h: nat)
    requires t.Parsing() && Wire.ParseTag(t.Whole()[t.size..], t.extensions) == Wire.Parsed(tag, h)
    requires Slot(t) < |t.nodes|
    requires t'.err == Ok && t'.reserved == h - 1 + Objects.Extent(tag) <= t'.possible
    requires Placed(t, t', tag, h)
    ensures NodeOutcome(t, t', true)
  {
  }

  /**
   * A node that changed nothing but the data, and that either flagged an
   * error or drained the input, is a failed outcome, provided that the
   * stream (when nothing but the input stopped it) lacks its header or
   * what the header declares.
   */
  lemma Stalled(t: Tree, t': Tree)
    requires t.Parsing() && !Wire.ParseTag(t.Whole()[t.size..], t.extensions).Failed?
    requires Slot(t) < |t.nodes|
    requires t'.nodes == t.nodes && t'.stack == t.stack && t'.nodeCount == t.nodeCount
    requires t'.err != Ok || (t.hasRead && t'.pending == [])
    requires var o := Wire.ParseTag(t.Whole()[t.size..], t.extensions);
             (t'.err == Ok || t.Roomy(|t.Whole()|))
             ==> o.Short? || o.size - 1 + Objects.Extent(o.tag) > t.possible + |t.pending|
    ensures NodeOutcome(t, t', false)
  {
  }

  /** The slot of the node being parsed is in the arena. */
  lemma SlotInArena(t: Tree)
    requires t.Parsing()
    ensures Slot(t) < |t.nodes|
  {
  }

  /** Midway, the header at `size` is complete in the data, and the stream decodes it as the tree does. */
  lemma NodeHeader(t: Tree, u: Tree, h: nat)
    requires Midway(t, u) && !IsExt(t.data[t.size]) && h == Wire.HeaderSize(u.data[t.size])
    ensures t.size + h <= |u.data|
    ensures Wire.ParseTag(t.Whole()[t.size..], t.extensions) == Wire.Parsed(NodeTag(u.data[t.size..t.size + h]), h)
  {
    MidwayBytes(t, u);
    var d, rest := u.data, u.pending;
    assert t.Whole() == d + rest;
    HeaderParses(d, rest, t.size, h, t.extensions);
  }

  /**
   * What reserving a leaf's payload (`len` bytes after an `h`-byte header)
   * and filling the leaf in, or failing to, means for the node's outcome:
   * r is the tree after the reservation, f the tree the parse ends with.
   */
  lemma LeafOutcome(t: Tree, u: Tree, v: Tree, r: Tree, f: Tree, node: Node, h: nat, len: nat, ok: bool)
    requires Midway(t, u) && h >= 1 && v.reserved == h - 1 && u.SameParse(v)
    requires v.data == u.data && v.pending == u.pending && v.possible == u.possible
    requires var o := Wire.ParseTag(t.Whole()[t.size..], t.extensions);
             o.Parsed? ==> o.size == h && Objects.Extent(o.tag) == len && !o.tag.Array? && !o.tag.Map?
    requires Reserved(v, r, len, ok)
    requires ok ==> && Wire.ParseTag(t.Whole()[t.size..], t.extensions) == Wire.Parsed(node.tag, h)
                    && node == Node(node.tag, if node.tag.Str? || node.tag.Bin? || node.tag.Ext? then t.size + h else 0, 0)
                    && Slot(t) < |r.nodes| && Fits(node, |r.nodes|, |r.data|)
                    && f == Fill(r, Slot(t), node)
    requires !ok ==> f == r
    ensures Steady(t, f) && NodeOutcome(t, f, ok)
  {
    SlotInArena(t);
    MidwayBytes(t, u);
    assert t.Whole()[t.size..][0] == t.data[t.size];
    RefilledChain(t, u, r);
    if ok {
      Succeeded(t, f, node.tag, h);
    } else {
      RefilledBalance(t, u);
      Stalled(t, f);
    }
  }

  /** nil, bool, int, uint, float and double (bjd-node.c:504-515, 536-561, 563-623): the node is its header. */
  method ParseFixed(t: Tree, u: Tree) returns (t': Tree, ok: bool)
    requires Midway(t, u)
    requires var b := t.data[t.size]; !IsContainerLead(b) && !IsPayloadLead(b) && !IsExt(b)
    ensures Steady(t, t') && NodeOutcome(t, t', ok)
  {
    MidwayBytes(t, u);
    SlotInArena(t);
    var at := t.size;
    var h := Wire.HeaderSize(u.data[at]);
    var tag := NodeTag(u.data[at..at + h]);
    NodeHeader(t, u, h);
    t' := Fill(u, Slot(t), Node(tag, 0, 0));
    ok := true;
    LeafOutcome(t, u, u, u, t', Node(tag, 0, 0), h, 0, ok);
  }

  /** A str or bin node whose payload is reserved fits at the slot being parsed. */
  lemma PayloadRoom(t: Tree, u: Tree, r: Tree, tag: Tag, at: nat, h: nat)
    requires Midway(t, u) && IsPayloadLead(t.data[t.size]) && at == t.size
    requires h == Wire.HeaderSize(u.data[at]) && at + h <= |u.data| && tag == NodeTag(u.data[at..at + h])
    requires Reserved(u, r, tag.len, true)
    ensures Slot(t) < |r.nodes| && Fits(Node(tag, at + h, 0), |r.nodes|, |r.data|)
  {
    MidwayBytes(t, u);
    OwedCoversTop(t.stack);
    SlotInArena(t);
    assert u.data[at..at + h][0] == u.data[at];
  }

  /** What reserving a str or bin payload, and filling the node in or failing to, means for the node's outcome. */
  lemma PayloadOutcome(t: Tree, u: Tree, r: Tree, f: Tree, tag: Tag, at: nat, h: nat, ok: bool)
    requires Midway(t, u) && IsPayloadLead(t.data[t.size]) && at == t.size
    requires h == Wire.HeaderSize(u.data[at]) && at + h <= |u.data| && tag == NodeTag(u.data[at..at + h])
    requires Wire.ParseTag(t.Whole()[at..], t.extensions) == Wire.Parsed(tag, h)
    requires Reserved(u, r, tag.len, ok)
    requires ok ==> Slot(t) < |r.nodes| && Fits(Node(tag, at + h, 0), |r.nodes|, |r.data|)
                    && f == Fill(r, Slot(t), Node(tag, at + h, 0))
    requires !ok ==> f == r
    ensures Steady(t, f) && NodeOutcome(t, f, ok)
  {
    assert u.data[at..at + h][0] == u.data[at];
    assert (tag.Str? || tag.Bin?) && Objects.Extent(tag) == tag.len;
    LeafOutcome(t, u, u, r, f, Node(tag, at + h, 0), h, tag.len, ok);
  }

  /** str and bin (bjd-node.c:362-365, 476-502, 517-541, 636-658): the payload bytes are reserved after the header. */
  method ParsePayload(t: Tree, u: Tree) returns (t': Tree, ok: bool)
    requires Midway(t, u) && IsPayloadLead(t.data[t.size])
    ensures Steady(t, t') && NodeOutcome(t, t', ok)
  {
    var at := t.size;
    var h := Wire.HeaderSize(u.data[at]);
    var tag := NodeTag(u.data[at..at + h]);
    NodeHeader(t, u, h);
    var r;
    r, ok := ReserveBytes(u, tag.len);
    t' := PayloadFilled(t, u, r, tag, at, h, ok);
  }

  /** The tree a str or bin node ends in: its payload reserved and the node filled in, or the failed reservation. */
  function PayloadFilled(t: Tree, u: Tree, r: Tree, tag: Tag, at: nat, h: nat, ok: bool): (f: Tree)
    requires Midway(t, u) && IsPayloadLead(t.data[t.size]) && at == t.size
    requires h == Wire.HeaderSize(u.data[at]) && at + h <= |u.data| && tag == NodeTag(u.data[at..at + h])
    requires Wire.ParseTag(t.Whole()[at..], t.extensions) == Wire.Parsed(tag, h)
    requires Reserved(u, r, tag.len, ok)
    ensures Steady(t, f) && NodeOutcome(t, f, ok)
  {
    var f := if ok then PayloadRoom(t, u, r, tag, at, h); Fill(r, Slot(t), Node(tag, at + h, 0)) else r;
    PayloadOutcome(t, u, r, f, tag, at, h, ok);
    f
  }

  /** The length an ext header declares, loaded before its type byte is reserved (bjd-node.c:543-572, 625-650). */
  function ExtLength(p: seq<Byte>): U32
    requires |p| >= 1 && IsExt(p[0]) && |p| >= 1 + FieldReserve(p[0])
  {
    if p[0] >= 0xd4 then Wire.FixextLength(p[0] - 0xd4) else Wire.LoadField(p[1..], p[0] - 0xc7)
  }

  /** The length loaded from an ext header's field is the one its complete header declares. */
  lemma ExtLengthOfHeader(hd: seq<Byte>)
    requires |hd| >= 1 && IsExt(hd[0]) && |hd| == Wire.HeaderSize(hd[0])
    ensures NodeTag(hd).Ext? && NodeTag(hd).len == ExtLength(hd[..1 + FieldReserve(hd[0])])
  {
    var n := 1 + FieldReserve(hd[0]);
    assert hd[1..] == hd[..n][1..] + hd[n..];
    Wire.LoadsIgnoreRest(hd[..n][1..], hd[n..]);
  }

  /**
   * Midway through an ext node, the stream either lacks its header or
   * holds one that declares the length loaded from the data's field.
   */
  lemma ExtStreamHeader(t: Tree, u: Tree, at: nat, h: nat, W: seq<Byte>)
    requires Midway(t, u) && IsExt(t.data[t.size]) && at == t.size && h == u.reserved + 2 && W == t.Whole()
    ensures at + 1 + u.reserved <= |u.data| && at < |W| && h == Wire.HeaderSize(t.data[at])
    ensures at + h <= |W| ==> Wire.ParseTag(W[at..], t.extensions) == Wire.Parsed(NodeTag(W[at..at + h]), h)
    ensures Wire.ParseTag(W[at..], t.extensions).Parsed? ==>
              && Wire.ParseTag(W[at..], t.extensions).size == h && Wire.ParseTag(W[at..], t.extensions).tag.Ext?
              && Wire.ParseTag(W[at..], t.extensions).tag.len == ExtLength(u.data[at..at + 1 + u.reserved])
  {
    MidwayBytes(t, u);
    var p := u.data[at..at + 1 + u.reserved];
    assert W[at..at + 1 + u.reserved] == p;
    assert W[at..][0] == W[at];
    if at + h <= |W| {
      assert W + [] == W;
      HeaderParses(W, [], at, h, t.extensions);
      assert W[at..at + h][..1 + FieldReserve(W[at])] == p;
      ExtLengthOfHeader(W[at..at + h]);
    }
  }

  /** Once an ext node's payload is reserved, the data holds its whole header and payload. */
  lemma ExtInData(t: Tree, u: Tree, r: Tree)
    requires Midway(t, u) && IsExt(t.data[t.size])
    requires u.Refilled(r) && r.nodes == u.nodes && u.reserved + 1 <= r.reserved <= r.possible
    ensures var at := t.size; var h := u.reserved + 2;
            && at + 1 + r.reserved <= |r.data| && at + h <= |r.data| && r.data[at] == t.data[at]
            && r.data[at..at + h] == t.Whole()[at..at + h] && Slot(t) < |r.nodes|
  {
    MidwayBytes(t, u);
    OwedCoversTop(t.stack);
    SlotInArena(t);
    var at := t.size;
    var h := u.reserved + 2;
    assert r.data[..|u.data|] == u.data;
    assert r.data[at..at + h] == r.Whole()[at..at + h];
  }

  /** An ext header copied from the stream into d decodes to the length loaded from the data's field. */
  lemma ExtTagIn(t: Tree, u: Tree, d: seq<Byte>, len: nat, at: nat, h: nat)
    requires Midway(t, u) && IsExt(t.data[t.size]) && t.size + 1 + u.reserved <= |u.data|
    requires at == t.size && h == u.reserved + 2 && len == ExtLength(u.data[at..at + 1 + u.reserved])
    requires at + h <= |d| && at + h <= |t.Whole()| && d[at..at + h] == t.Whole()[at..at + h]
    ensures d[at] == t.data[at] && h == Wire.HeaderSize(d[at])
    ensures NodeTag(d[at..at + h]).Ext? && NodeTag(d[at..at + h]).len == len
  {
    MidwayBytes(t, u);
    CopiedPrefix(d, t.Whole(), u.data, at, h, 1 + u.reserved);
    ExtLengthOfHeader(d[at..at + h]);
  }

  /** A window of d copied from W starts with the bytes W's prefix `data` has there. */
  lemma CopiedPrefix(d: seq<Byte>, W: seq<Byte>, data: seq<Byte>, at: nat, h: nat, m: nat)
    requires at + h <= |d| && at + h <= |W| && d[at..at + h] == W[at..at + h]
    requires 1 <= m <= h && at + m <= |data| <= |W| && W[..|data|] == data
    ensures d[at] == data[at] && d[at..at + h][0] == d[at]
    ensures d[at..at + h][..m] == data[at..at + m]
  {
    assert d[at..at + h][0] == d[at] && W[at..at + h][0] == W[at];
    assert W[at..at + h][..m] == W[at..at + m];
    forall k | at <= k < at + m
      ensures W[k] == data[k]
    {
      assert W[..|data|][k] == W[k];
    }
  }

  /** An ext node whose payload is reserved fits at the slot being parsed, as the header in the data decodes it. */
  lemma ExtRoom(t: Tree, u: Tree, v: Tree, r: Tree, len: nat, at: nat, h: nat)
    requires Midway(t, u) && IsExt(t.data[t.size]) && t.size + 1 + u.reserved <= |u.data|
    requires at == t.size && h == u.reserved + 2 && len == ExtLength(u.data[at..at + 1 + u.reserved])
    requires v.reserved == u.reserved + 1 && u.SameParse(v)
    requires v.data == u.data && v.pending == u.pending && v.possible == u.possible
    requires Reserved(v, r, len, true)
    ensures at + h <= |r.data| && r.data[at] == t.data[at] && h == Wire.HeaderSize(r.data[at])
    ensures r.data[at..at + h] == t.Whole()[at..at + h] && Slot(t) < |r.nodes|
    ensures Fits(Node(NodeTag(r.data[at..at + h]), at + h, 0), |r.nodes|, |r.data|)
  {
    assert u.Refilled(r) && r.nodes == u.nodes;
    ExtInData(t, u, r);
    ExtTagIn(t, u, r.data, len, at, h);
  }

  /** What reserving an ext payload, and filling the node in or failing to, means for the node's outcome. */
  lemma ExtOutcome(t: Tree, u: Tree, v: Tree, r: Tree, f: Tree, len: nat, at: nat, h: nat, ok: bool)
    requires Midway(t, u) && IsExt(t.data[t.size]) && t.size + 1 + u.reserved <= |u.data|
    requires at == t.size && h == u.reserved + 2 && len == ExtLength(u.data[at..at + 1 + u.reserved])
    requires v.reserved == u.reserved + 1 && u.SameParse(v)
    requires v.data == u.data && v.pending == u.pending && v.possible == u.possible
    requires Reserved(v, r, len, ok)
    requires ok ==> && at + h <= |r.data| && r.data[at] == t.data[at] && h == Wire.HeaderSize(r.data[at])
                    && r.data[at..at + h] == t.Whole()[at..at + h]
                    && Slot(t) < |r.nodes| && Fits(Node(NodeTag(r.data[at..at + h]), at + h, 0), |r.nodes|, |r.data|)
                    && f == Fill(r, Slot(t), Node(NodeTag(r.data[at..at + h]), at + h, 0))
    requires !ok ==> f == r
    ensures Steady(t, f) && NodeOutcome(t, f, ok)
  {
    ExtStreamHeader(t, u, at, h, t.Whole());
    if ok {
      var tag := NodeTag(r.data[at..at + h]);
      assert at + h <= |t.Whole()|;
      LeafOutcome(t, u, v, r, f, Node(tag, at + h, 0), h, len, ok);
    } else {
      LeafOutcome(t, u, v, r, f, Unparsed, h, len, ok);
    }
  }

  /**
   * ext8/16/32 and fixext (`bjd_tree_parse_ext`, bjd-node.c:367-374): the
   * length is loaded, then the type byte is added to the reservation
   * unchecked, and the payload is reserved after it.
   */
  method ParseExtNode(t: Tree, u: Tree) returns (t': Tree, ok: bool)
    requires Midway(t, u) && IsExt(t.data[t.size])
    ensures Steady(t, t') && NodeOutcome(t, t', ok)
  {
    var at := t.size;
    ExtStreamHeader(t, u, at, u.reserved + 2, t.Whole());
    var len := ExtLength(u.data[at..at + 1 + u.reserved]);
    var v := u.(reserved := u.reserved + 1);
    var r;
    r, ok := ReserveBytes(v, len);
    t' := ExtFilled(t, u, v, r, len, at, u.reserved + 2, ok);
  }

  /** The tree an ext node ends in: its payload reserved and the node filled in, or the failed reservation. */
  function ExtFilled(t: Tree, u: Tree, v: Tree, r: Tree, len: nat, at: nat, h: nat, ok: bool): (f: Tree)
    requires Midway(t, u) && IsExt(t.data[t.size]) && t.size + 1 + u.reserved <= |u.data|
    requires at == t.size && h == u.reserved + 2 && len == ExtLength(u.data[at..at + 1 + u.reserved])
    requires v.reserved == u.reserved + 1 && u.SameParse(v)
    requires v.data == u.data && v.pending == u.pending && v.possible == u.possible
    requires Reserved(v, r, len, ok)
    ensures Steady(t, f) && NodeOutcome(t, f, ok)
  {
    var f := if ok then ExtRoom(t, u, v, r, len, at, h); Fill(r, Slot(t), Node(NodeTag(r.data[at..at + h]), at + h, 0)) else r;
    ExtOutcome(t, u, v, r, f, len, at, h, ok);
    f
  }

  /** What carving a container's children or failing to reserve them means for the node's outcome. */
  lemma ContainerOutcome(t: Tree, u: Tree, t': Tree, tag: Tag, h: nat, ok: bool)
    requires Midway(t, u) && (tag.Array? || tag.Map?) && h - 1 == u.reserved
    requires Wire.ParseTag(t.Whole()[t.size..], t.extensions) == Wire.Parsed(tag, h)
    requires Slot(t) < |u.nodes| && ChildrenParsed(u, t', tag, Slot(t), ok)
    ensures Steady(t, t') && NodeOutcome(t, t', ok)
  {
    SlotInArena(t);
    MidwayBytes(t, u);
    RefilledChain(t, u, t');
    if ok {
      Succeeded(t, t', tag, h);
    } else {
      RefilledBalance(t, u);
      Stalled(t, t');
    }
  }

  /** array and map (bjd-node.c:460-474, 660-690): the children are reserved, carved and pushed. */
  method ParseContainer(t: Tree, u: Tree) returns (t': Tree, ok: bool)
    requires Midway(t, u) && IsContainerLead(t.data[t.size])
    ensures Steady(t, t') && NodeOutcome(t, t', ok)
  {
    LeadInData(t, u);
    var at := t.size;
    var h := Wire.HeaderSize(u.data[at]);
    NodeHeader(t, u, h);
    var tag := NodeTag(u.data[at..at + h]);
    ContainerTag(t, u, h, tag);
    t', ok := ParseChildren(u, tag, Slot(t));
    ContainerOutcome(t, u, t', tag, h, ok);
  }

  /** A container's header is an array or map tag, its field is what was reserved, and its slot is in the arena. */
  lemma ContainerTag(t: Tree, u: Tree, h: nat, tag: Tag)
    requires Midway(t, u) && IsContainerLead(t.data[t.size])
    requires t.size + h <= |u.data| && u.data[t.size] == t.data[t.size] && h == Wire.HeaderSize(u.data[t.size])
    requires tag == NodeTag(u.data[t.size..t.size + h])
    ensures (tag.Array? || tag.Map?) && h - 1 == u.reserved && Slot(t) < |u.nodes|
  {
    SlotInArena(t);
    assert u.data[t.size..t.size + h][0] == u.data[t.size];
  }

  /** The lead byte at `size` of a parsing tree, and what the stream's header there is as far as it tells. */
  lemma LeadAt(t: Tree)
    requires t.Parsing()
    ensures t.size < |t.data| && Slot(t) < |t.nodes|
    ensures var o := Wire.ParseTag(t.Whole()[t.size..], t.extensions);
            && (o.Failed? <==> Wire.IsBadLead(t.data[t.size], t.extensions))
            && (o.Failed? ==> o.error == (if t.data[t.size] == 0xc1 then Invalid else Unsupported))
            && (o.Parsed? ==> o.size == Wire.HeaderSize(t.data[t.size]))
  {
    OwedCoversTop(t.stack);
    SlotInArena(t);
    assert t.Whole()[t.size..][0] == t.data[t.size];
  }

  /** A bad lead byte flags its error and leaves the parse as it was. */
  lemma BadLeadOutcome(t: Tree, f: Tree)
    requires t.Parsing() && t.size < |t.data| && Wire.IsBadLead(t.data[t.size], t.extensions)
    requires f == FlagError(t.(reserved := 0), if t.data[t.size] == 0xc1 then Invalid else Unsupported)
    ensures Steady(t, f) && NodeOutcome(t, f, false)
  {
    LeadAt(t);
  }

  /** A length or value field that cannot be reserved leaves the parse as it was; the stream lacks the header. */
  lemma FieldOutcome(t: Tree, u: Tree, r: Tree, field: nat)
    requires t.Parsing() && t.size < |t.data| && !Wire.IsBadLead(t.data[t.size], t.extensions)
    requires u == t.(reserved := 0) && field == FieldReserve(t.data[t.size])
    requires Reserved(u, r, field, false)
    ensures Steady(t, r) && NodeOutcome(t, r, false)
  {
    LeadAt(t);
    RefilledBalance(t, r);
    assert Wire.HeaderSize(t.data[t.size]) - 1 >= field;
  }

  /** Once the lead byte is good and its field reserved, the node is midway. */
  lemma FieldReserved(t: Tree, u: Tree, r: Tree, field: nat)
    requires t.Parsing() && t.size < |t.data| && !Wire.IsBadLead(t.data[t.size], t.extensions)
    requires u == t.(reserved := 0) && field == FieldReserve(t.data[t.size])
    requires (field > 0 && Reserved(u, r, field, true)) || (field == 0 && r == u)
    ensures Midway(t, r)
  {
  }

  /**
   * `bjd_tree_parse_node_contents` (bjd-node.c:376-739): the lead byte at
   * `size` (already reserved by the parent) picks the node's kind; 0xc1 is
   * Invalid, an ext opcode without extensions Unsupported; the length or
   * value field is reserved before it is loaded.
   */
  method ParseNodeContents(t: Tree) returns (t': Tree, ok: bool)
    requires t.Parsing()
    ensures Steady(t, t') && NodeOutcome(t, t', ok)
  {
    LeadAt(t);
    var lead := t.data[t.size];
    var u := t.(reserved := 0);
    if Wire.IsBadLead(lead, t.extensions) {
      t' := FlagError(u, if lead == 0xc1 then Invalid else Unsupported);
      ok := false;
      BadLeadOutcome(t, t');
      return;
    }
    var field := FieldReserve(lead);
    var r := u;
    if field > 0 {
      r, ok := ReserveBytes(u, field);
      if !ok {
        t' := r;
        FieldOutcome(t, u, r, field);
        return;
      }
    }
    FieldReserved(t, u, r, field);
    if IsExt(lead) {
      t', ok := ParseExtNode(t, r);
    } else if IsPayloadLead(lead) {
      t', ok := ParsePayload(t, r);
    } else if IsContainerLead(lead) {
      t', ok := ParseContainer(t, r);
    } else {
      t', ok := ParseFixed(t, r);
    }
  }

  // ---------------------------------------------------------------------
  // Parsing nodes in a loop
  // ---------------------------------------------------------------------

  /**
   * Data d agrees, from offset i on, with the message that starts it,
   * whatever bytes follow d: `owed` objects read from i end where that
   * message ends.
   */
  ghost predicate TracksFrom(d: seq<Byte>, i: nat, owed: nat, extensions: bool)
    requires i <= |d|
  {
    forall q: seq<Byte> ::
      Objects.ObjectsEnd(d + q, i, owed, extensions) == Objects.ObjectEnd(d + q, 0, extensions)
  }

  /** The parse so far agrees with the message that starts the data: what the stack owes from `size` on completes it. */
  ghost predicate Tracks(t: Tree)
    requires t.size <= |t.data|
  {
    TracksFrom(t.data, t.size, Owed(t.stack), t.extensions)
  }

  /** Agreement survives more data being read after d. */
  lemma TracksGrown(d: seq<Byte>, d': seq<Byte>, i: nat, owed: nat, extensions: bool)
    requires i <= |d| && TracksFrom(d, i, owed, extensions) && d <= d'
    ensures TracksFrom(d', i, owed, extensions)
  {
    var e := d'[|d|..];
    assert d' == d + e;
    forall q: seq<Byte>
      ensures Objects.ObjectsEnd(d' + q, i, owed, extensions) == Objects.ObjectEnd(d' + q, 0, extensions)
    {
      assert d' + q == d + (e + q);
    }
  }

  /**
   * What parsing one node means (`bjd_tree_parse_node`, bjd-node.c:741-771),
   * measured against the header the stream holds at `size`: on success the
   * node is placed, `size` moves past its header and (for a leaf) its
   * payload, and the budget is balanced but for the byte its parent still
   * counts for it; on failure the parse is as it was, with an error or a
   * drained input, and unless a limit stopped it the stream lacks the
   * header or what it declares.
   */
  predicate NodeParsed(t: Tree, t': Tree, ok: bool)
    requires t.Parsing()
  {
    var o := Wire.ParseTag(t.Whole()[t.size..], t.extensions);
    && t'.Valid() && t.Configured(t') && t'.Whole() == t.Whole() && t.data <= t'.data && t'.state == t.state
    && Slot(t) < |t.nodes|
    && (o.Failed? ==> !ok && t'.err == o.error)
    && (ok ==> && o.Parsed? && t'.err == Ok && Placed(t, t', o.tag, o.size)
               && t'.size == t.size + o.size + (if o.tag.Array? || o.tag.Map? then 0 else Objects.Extent(o.tag))
               && t'.size + Owed(t'.stack) + t'.possible == |t'.data| + 1)
    && (!ok ==> && t'.nodes == t.nodes && t'.stack == t.stack && t'.nodeCount == t.nodeCount
                && t'.size == t.size && t.Refilled(t'))
    && (!ok ==> || t'.err == Invalid || t'.err == Unsupported || t'.err == TooBig
                || (t'.err == Ok && t.hasRead && t'.pending == []))
    && (!ok && (t'.err == Ok || t.Roomy(|t.Whole()|))
        ==> o.Short? || o.Failed? || o.size - 1 + Objects.Extent(o.tag) > t.possible + |t.pending|)
  }

  /** The tree once a node's contents are parsed: its reservation is spent and `size` passes its own bytes. */
  function Advance(t: Tree, c: Tree): Tree
    requires t.Parsing() && Steady(t, c) && NodeOutcome(t, c, true)
  {
    var n := c.nodes[Slot(t)];
    var kids := if n.tag.Array? || n.tag.Map? then Objects.Children(n.tag) else 0;
    c.(possible := c.possible - c.reserved, size := c.size + c.reserved + 1 - kids)
  }

  /** A container's header counted: `size` passes the header, its children's bytes stay reserved. */
  lemma AdvancedContainer(t: Tree, c: Tree, t': Tree, tag: Tag, h: nat)
    requires t.Parsing() && Steady(t, c) && c.err == Ok
    requires (tag.Array? || tag.Map?) && Slot(t) < |t.nodes| && Placed(t, c, tag, h)
    requires c.reserved == h - 1 + Objects.Children(tag) <= c.possible
    requires t' == c.(possible := c.possible - c.reserved, size := c.size + h)
    ensures t'.Valid() && t'.size + Owed(t'.stack) + t'.possible == |t'.data| + 1
  {
    var n := Objects.Children(tag);
    if n > 0 {
      OwedPush(t.stack, Level(|t.nodes|, n));
    }
    OwedCoversTop(t.stack);
  }

  /** A leaf counted: `size` passes its header and payload. */
  lemma AdvancedLeaf(t: Tree, c: Tree, t': Tree, tag: Tag, h: nat)
    requires t.Parsing() && Steady(t, c) && c.err == Ok
    requires !(tag.Array? || tag.Map?) && c.stack == t.stack
    requires c.reserved == h - 1 + Objects.Extent(tag) <= c.possible
    requires t' == c.(possible := c.possible - c.reserved, size := c.size + h + Objects.Extent(tag))
    ensures t'.Valid() && t'.size + Owed(t'.stack) + t'.possible == |t'.data| + 1
  {
    OwedCoversTop(t.stack);
  }

  /** A node whose contents parsed is a parsed node once its bytes are counted. */
  lemma NodeAdvanced(t: Tree, c: Tree, t': Tree)
    requires t.Parsing() && Steady(t, c) && NodeOutcome(t, c, true) && t' == Advance(t, c)
    ensures NodeParsed(t, t', true)
  {
    NodeCounted(t, c, t');
    assert c.data[..|t.data|] == t.data;
  }

  /** Counting a parsed node's bytes: where it was placed, how far `size` moved, and the budget. */
  lemma NodeCounted(t: Tree, c: Tree, t': Tree)
    requires t.Parsing() && Steady(t, c) && NodeOutcome(t, c, true) && t' == Advance(t, c)
    ensures var o := Wire.ParseTag(t.Whole()[t.size..], t.extensions);
      && o.Parsed? && t'.Valid() && Placed(t, t', o.tag, o.size)
      && t'.size == t.size + o.size + (if o.tag.Array? || o.tag.Map? then 0 else Objects.Extent(o.tag))
      && t'.size + Owed(t'.stack) + t'.possible == |t'.data| + 1
  {
    var o := Wire.ParseTag(t.Whole()[t.size..], t.extensions);
    if o.tag.Array? || o.tag.Map? {
      assert c.nodes[Slot(t)].tag == o.tag;
      AdvancedContainer(t, c, t', o.tag, o.size);
      assert t'.size == t.size + o.size;
    } else {
      assert c.nodes[Slot(t)].tag == o.tag;
      AdvancedLeaf(t, c, t', o.tag, o.size);
      assert t'.size == t.size + o.size + Objects.Extent(o.tag);
    }
    PlacedKept(t, c, t', o.tag, o.size);
  }

  /** Counting a node's bytes leaves where it was placed alone. */
  lemma PlacedKept(t: Tree, c: Tree, t': Tree, tag: Tag, h: nat)
    requires |t.stack| >= 1 && Slot(t) < |t.nodes| && Placed(t, c, tag, h)
    requires t'.nodes == c.nodes && t'.stack == c.stack && t'.nodeCount == c.nodeCount
    ensures Placed(t, t', tag, h)
  {
  }

  /** A node whose contents did not parse is a failed node. */
  lemma NodeStalled(t: Tree, c: Tree)
    requires t.Parsing() && Steady(t, c) && NodeOutcome(t, c, false)
    ensures NodeParsed(t, c, false)
  {
    assert c.data[..|t.data|] == t.data;
  }

  /**
   * `bjd_tree_parse_node` (bjd-node.c:741-771): the node's contents, then
   * its reservation leaves the possible nodes, and `size` grows by the
   * node's header and payload; the byte reserved for each child of a
   * container stays reserved.
   */
  method ParseNode(t: Tree) returns (t': Tree, ok: bool)
    requires t.Parsing()
    ensures NodeParsed(t, t', ok)
  {
    var c;
    c, ok := ParseNodeContents(t);
    if !ok {
      t' := c;
      NodeStalled(t, c);
      return;
    }
    t' := Advance(t, c);
    NodeAdvanced(t, c, t');
  }

  /**
   * The stack once the levels with no children left are popped
   * (bjd-node.c:797-805): a prefix owing the same, whose innermost level
   * still owes a child unless it is the outermost one.
   */
  function Popped(s: seq<Level>): (r: seq<Level>)
    requires |s| >= 1
    ensures 1 <= |r| <= |s| && r == s[..|r|] && Owed(r) == Owed(s)
    ensures forall i | |r| <= i < |s| :: s[i].left == 0
    ensures r[|r| - 1].left == 0 ==> |r| == 1
  {
    if |s| > 1 && s[|s| - 1].left == 0 then Popped(s[..|s| - 1]) else s
  }

  /** The level at index i after one of its children is parsed. */
  function Took(s: seq<Level>, i: nat): seq<Level>
    requires i < |s| && s[i].left >= 1
  {
    s[i := Level(s[i].child + 1, s[i].left - 1)]
  }

  /** Taking one child from any level lowers what is owed by one. */
  lemma {:induction false} OwedTook(s: seq<Level>, i: nat)
    requires i < |s| && s[i].left >= 1
    ensures Owed(Took(s, i)) + 1 == Owed(s)
    decreases |s|
  {
    var n := |s| - 1;
    if i == n {
      assert Took(s, i)[..n] == s[..n];
    } else {
      assert Took(s, i)[..n] == Took(s[..n], i);
      OwedTook(s[..n], i);
    }
  }

  /**
   * The end of a message's parse: the outermost level owes nothing, every
   * byte of the data is parsed or possible for the next message, and there
   * are at least one node and no more nodes than bytes.
   */
  predicate Done(t: Tree) {
    && t.Valid() && t.err == Ok
    && |t.stack| == 1 && t.stack[0].left == 0
    && t.size + t.possible == |t.data|
    && 1 <= t.nodeCount == |t.nodes| <= t.size
  }

  /**
   * What one turn of the parse loop means: the stream is the same and the
   * data only grew; a parsed node moves `size` forward and leaves the
   * parser between nodes or done, still tracking the message; a failure
   * is an error, or a drained input with the parser where it was, ready
   * to resume; and unless a limit stopped it, the objects still owed are
   * not all in the stream.
   */
  ghost predicate Stepped(t: Tree, t': Tree, ok: bool, done: bool)
    requires t.Parsing()
  {
    && t'.Valid() && t.Configured(t') && t'.Whole() == t.Whole() && t.data <= t'.data && t'.state == t.state
    && (ok ==> t'.err == Ok && t'.size > t.size)
    && (ok && !done ==> t'.Parsing())
    && (ok && done ==> Done(t'))
    && (!ok ==> || t'.err == Invalid || t'.err == Unsupported || t'.err == TooBig
                || (&& t'.err == Ok && t.hasRead && t'.pending == []
                    && t'.Parsing() && t'.size == t.size && t'.stack == t.stack))
    && ((ok || t'.err == Ok) && Tracks(t) ==> Tracks(t'))
    && (!ok && (t'.err == Ok || t.Roomy(|t.Whole()|))
        ==> Objects.ObjectsEnd(t.Whole(), t.size, Owed(t.stack), t.extensions).None?)
  }

  /** A node that failed to parse is a failed step. */
  lemma StepStalled(t: Tree, c: Tree)
    requires t.Parsing() && NodeParsed(t, c, false)
    ensures Stepped(t, c, false, false)
  {
    var W := t.Whole();
    var o := Wire.ParseTag(W[t.size..], t.extensions);
    OwedCoversTop(t.stack);
    if c.err == Ok || t.Roomy(|W|) {
      Objects.ObjectsShort(W, t.size, Owed(t.stack), t.extensions);
    }
    if c.err == Ok && Tracks(t) {
      TracksGrown(t.data, c.data, t.size, Owed(t.stack), t.extensions);
    }
  }

  /** A header that parses from x followed by more bytes, and fits in x, parses from x alone. */
  lemma ParsedPrefix(x: seq<Byte>, y: seq<Byte>, extensions: bool)
    requires Wire.ParseTag(x + y, extensions).Parsed? && Wire.ParseTag(x + y, extensions).size <= |x|
    ensures Wire.ParseTag(x, extensions) == Wire.ParseTag(x + y, extensions)
  {
    assert (x + y)[0] == x[0];
    Wire.ParseIgnoresRest(x, y, extensions);
  }

  /** The header of a parsed node lies in the data, which decodes it as the stream does. */
  lemma NodeInData(t: Tree, c: Tree)
    requires t.Parsing() && NodeParsed(t, c, true)
    ensures var o := Wire.ParseTag(t.Whole()[t.size..], t.extensions);
            && o.Parsed? && t.size + o.size <= c.size <= |c.data|
            && Wire.ParseTag(c.data[t.size..], t.extensions) == o
  {
    OwedCoversTop(c.stack);
    assert c.Whole()[t.size..] == c.data[t.size..] + c.pending;
    ParsedPrefix(c.data[t.size..], c.pending, t.extensions);
  }

  /** The stack of a node just parsed, with the child taken from the level it was parsed for. */
  lemma StackAfterNode(t: Tree, c: Tree, level: nat)
    requires t.Parsing() && NodeParsed(t, c, true) && level == |t.stack| - 1
    ensures level < |c.stack| && c.stack[level] == t.stack[level]
    ensures StackFits(c.stack, |c.nodes|) && |c.nodes| >= |t.nodes| >= 1
    ensures |c.nodes| == c.nodeCount
    ensures Owed(Took(c.stack, level)) + 1 == Owed(c.stack)
    ensures StackFits(Took(c.stack, level), |c.nodes|)
  {
    OwedTook(c.stack, level);
  }

  /** The budget of a step that parsed a node, and the node count against it. */
  lemma StepBudget(t: Tree, c: Tree, t': Tree, level: nat)
    requires t.Parsing() && NodeParsed(t, c, true) && level == |t.stack| - 1
    requires level < |c.stack| && c.stack[level] == t.stack[level] && c.stack[level].left >= 1
    requires t' == c.(stack := Popped(Took(c.stack, level)))
    ensures t'.size + Owed(t'.stack) + t'.possible == |t'.data|
    ensures t'.nodeCount == |t'.nodes| <= t'.size + Owed(t'.stack)
    ensures t'.size > t.size
  {
    var o := Wire.ParseTag(t.Whole()[t.size..], t.extensions);
    StackAfterNode(t, c, level);
    if o.tag.Array? || o.tag.Map? {
      if Objects.Children(o.tag) > 0 {
        OwedPush(t.stack, Level(|t.nodes|, Objects.Children(o.tag)));
      }
    }
  }

  /** A header that parses at i of d parses the same at i of d followed by more bytes. */
  lemma ParsedBefore(d: seq<Byte>, q: seq<Byte>, i: nat, tag: Tag, h: nat, extensions: bool)
    requires i <= |d| && Wire.ParseTag(d[i..], extensions) == Wire.Parsed(tag, h)
    ensures Wire.ParseTag((d + q)[i..], extensions) == Wire.Parsed(tag, h)
  {
    assert (d + q)[i..] == d[i..] + q;
    Wire.ParseIgnoresRest(d[i..], q, extensions);
  }

  /** Agreement moves past a leaf whose header and payload are in d. */
  lemma TracksPastLeaf(d: seq<Byte>, i: nat, k: nat, tag: Tag, h: nat, size': nat, extensions: bool)
    requires i <= |d| && Wire.ParseTag(d[i..], extensions) == Wire.Parsed(tag, h)
    requires !(tag.Array? || tag.Map?) && size' == i + h + Objects.Extent(tag) <= |d|
    requires TracksFrom(d, i, k + 1, extensions)
    ensures TracksFrom(d, size', k, extensions)
  {
    forall q: seq<Byte>
      ensures Objects.ObjectsEnd(d + q, size', k, extensions) == Objects.ObjectEnd(d + q, 0, extensions)
    {
      ParsedBefore(d, q, i, tag, h, extensions);
      Objects.ObjectEndParsed(d + q, i, tag, h, extensions);
      Objects.LeafStep(d + q, i, tag, h, size', k, extensions);
    }
  }

  /** Agreement moves past a container whose header is in d: its children join the objects owed. */
  lemma TracksPastContainer(d: seq<Byte>, i: nat, k: nat, tag: Tag, h: nat, size': nat, owed': nat, extensions: bool)
    requires i <= |d| && Wire.ParseTag(d[i..], extensions) == Wire.Parsed(tag, h)
    requires (tag.Array? || tag.Map?) && size' == i + h && owed' == Objects.Children(tag) + k
    requires TracksFrom(d, i, k + 1, extensions)
    ensures size' <= |d| && TracksFrom(d, size', owed', extensions)
  {
    forall q: seq<Byte>
      ensures Objects.ObjectsEnd(d + q, size', owed', extensions) == Objects.ObjectEnd(d + q, 0, extensions)
    {
      ParsedBefore(d, q, i, tag, h, extensions);
      Objects.ObjectEndParsed(d + q, i, tag, h, extensions);
      Objects.ContainerStep(d + q, i, tag, size', Objects.Children(tag), k, extensions);
    }
  }

  /** How a step that parsed a node moved `size` and what is owed. */
  lemma StepShape(t: Tree, c: Tree, t': Tree, level: nat)
    requires t.Parsing() && NodeParsed(t, c, true) && level == |t.stack| - 1
    requires level < |c.stack| && c.stack[level] == t.stack[level] && c.stack[level].left >= 1
    requires t' == c.(stack := Popped(Took(c.stack, level)))
    ensures var o := Wire.ParseTag(t.Whole()[t.size..], t.extensions);
            && o.Parsed? && Owed(t.stack) >= 1
            && (o.tag.Array? || o.tag.Map? ==>
                  Owed(t'.stack) == Objects.Children(o.tag) + (Owed(t.stack) - 1) && t'.size == t.size + o.size)
            && (!(o.tag.Array? || o.tag.Map?) ==>
                  Owed(t'.stack) == Owed(t.stack) - 1 && t'.size == t.size + o.size + Objects.Extent(o.tag))
  {
    var o := Wire.ParseTag(t.Whole()[t.size..], t.extensions);
    StackAfterNode(t, c, level);
    OwedCoversTop(t.stack);
    if o.tag.Array? || o.tag.Map? {
      if Objects.Children(o.tag) > 0 {
        OwedPush(t.stack, Level(|t.nodes|, Objects.Children(o.tag)));
      }
    }
  }

  /** Agreement moves past one node whose header is in data d' that grew from d. */
  lemma TracksStep(d: seq<Byte>, d': seq<Byte>, i: nat, k: nat, tag: Tag, h: nat, size': nat, owed': nat, extensions: bool)
    requires i <= |d| && TracksFrom(d, i, k + 1, extensions) && d <= d'
    requires Wire.ParseTag(d'[i..], extensions) == Wire.Parsed(tag, h)
    requires tag.Array? || tag.Map? ==> size' == i + h && owed' == Objects.Children(tag) + k
    requires !(tag.Array? || tag.Map?) ==> size' == i + h + Objects.Extent(tag) <= |d'| && owed' == k
    ensures size' <= |d'| && TracksFrom(d', size', owed', extensions)
  {
    TracksGrown(d, d', i, k + 1, extensions);
    if tag.Array? || tag.Map? {
      TracksPastContainer(d', i, k, tag, h, size', owed', extensions);
    } else {
      TracksPastLeaf(d', i, k, tag, h, size', extensions);
    }
  }

  /** A step that parsed a node keeps tracking the message. */
  lemma StepTracks(t: Tree, c: Tree, t': Tree, level: nat)
    requires t.Parsing() && NodeParsed(t, c, true) && level == |t.stack| - 1
    requires level < |c.stack| && c.stack[level] == t.stack[level] && c.stack[level].left >= 1
    requires t' == c.(stack := Popped(Took(c.stack, level))) && Tracks(t)
    requires t'.size <= |t'.data|
    ensures Tracks(t')
  {
    var o := Wire.ParseTag(t.Whole()[t.size..], t.extensions);
    StepShape(t, c, t', level);
    NodeInData(t, c);
    TracksPastNode(t, t', o.tag, o.size, Owed(t.stack) - 1, Owed(t'.stack));
  }

  /** The tracking step of `StepTracks`, stated on the data alone. */
  lemma TracksPastNode(t: Tree, t': Tree, tag: Tag, h: nat, k: nat, owed': nat)
    requires t.size <= |t.data| && t.data <= t'.data && t'.size <= |t'.data|
    requires Owed(t.stack) == k + 1 && Owed(t'.stack) == owed' && t'.extensions == t.extensions
    requires Tracks(t) && Wire.ParseTag(t'.data[t.size..], t.extensions) == Wire.Parsed(tag, h)
    requires tag.Array? || tag.Map? ==> t'.size == t.size + h && owed' == Objects.Children(tag) + k
    requires !(tag.Array? || tag.Map?) ==> t'.size == t.size + h + Objects.Extent(tag) && owed' == k
    ensures Tracks(t')
  {
    assert TracksFrom(t.data, t.size, k + 1, t.extensions);
    TracksStep(t.data, t'.data, t.size, k, tag, h, t'.size, owed', t.extensions);
  }

  /** A step that parsed a node leaves a valid tree with a balanced budget and a fitting stack. */
  lemma StepLanded(t: Tree, c: Tree, t': Tree, level: nat)
    requires t.Parsing() && NodeParsed(t, c, true) && level == |t.stack| - 1
    requires level < |c.stack| && c.stack[level] == t.stack[level] && c.stack[level].left >= 1
    requires t' == c.(stack := Popped(Took(c.stack, level)))
    ensures t'.Valid() && t'.err == Ok && t.Configured(t') && t'.Whole() == t.Whole() && t.data <= t'.data
    ensures t'.state == t.state && t'.size > t.size
    ensures |t'.stack| >= 1 && StackFits(t'.stack, |t'.nodes|)
    ensures t'.stack[|t'.stack| - 1].left == 0 ==> |t'.stack| == 1
    ensures t'.size + Owed(t'.stack) + t'.possible == |t'.data|
    ensures 1 <= t'.nodeCount == |t'.nodes| <= t'.size + Owed(t'.stack)
  {
    StackAfterNode(t, c, level);
    StepBudget(t, c, t', level);
    PoppedFits(Took(c.stack, level), |c.nodes|);
  }

  /** Popping empty levels keeps a stack that fits the arena fitting. */
  lemma PoppedFits(s: seq<Level>, arena: nat)
    requires |s| >= 1 && StackFits(s, arena)
    ensures StackFits(Popped(s), arena)
  {
    var p := Popped(s);
    forall i | 0 <= i < |p|
      ensures p[i].child + p[i].left <= arena
    {
      assert p[i] == s[i];
    }
  }

  /** A step that landed between nodes is still parsing; one whose outermost level is empty is done. */
  lemma StepConcluded(t: Tree, t': Tree, done: bool)
    requires t.Parsing()
    requires t'.Valid() && t'.err == Ok && t.Configured(t') && t'.Whole() == t.Whole() && t.data <= t'.data
    requires t'.state == t.state && t'.size > t.size
    requires |t'.stack| >= 1 && StackFits(t'.stack, |t'.nodes|)
    requires t'.stack[|t'.stack| - 1].left == 0 ==> |t'.stack| == 1
    requires t'.size + Owed(t'.stack) + t'.possible == |t'.data|
    requires 1 <= t'.nodeCount == |t'.nodes| <= t'.size + Owed(t'.stack)
    requires done == (t'.stack[|t'.stack| - 1].left == 0)
    requires Tracks(t) ==> Tracks(t')
    ensures Stepped(t, t', true, done)
  {
    if done {
      assert Owed(t'.stack) == Owed(t'.stack[..0]) + t'.stack[0].left;
    }
  }

  /** A step that parsed a node, popped the emptied levels and tells whether the message is done. */
  lemma StepAdvanced(t: Tree, c: Tree, t': Tree, level: nat, done: bool)
    requires t.Parsing() && NodeParsed(t, c, true) && level == |t.stack| - 1
    requires level < |c.stack| && c.stack[level] == t.stack[level] && c.stack[level].left >= 1
    requires t' == c.(stack := Popped(Took(c.stack, level)))
    requires done == (t'.stack[|t'.stack| - 1].left == 0)
    ensures Stepped(t, t', true, done)
  {
    StepLanded(t, c, t', level);
    if Tracks(t) {
      StepTracks(t, c, t', level);
    }
    StepConcluded(t, t', done);
  }

  /**
   * One turn of the loop of `bjd_tree_continue_parsing`
   * (bjd-node.c:786-808): the node of the innermost level is parsed, that
   * level (as it was before the node pushed its own) has one child fewer,
   * and the levels with none left are popped; the message is done when the
   * outermost level has none left.
   */
  method Step(t: Tree) returns (t': Tree, ok: bool, done: bool)
    requires t.Parsing()
    ensures Stepped(t, t', ok, done)
  {
    var level := |t.stack| - 1;
    var c;
    c, ok := ParseNode(t);
    if !ok {
      t', done := c, false;
      StepStalled(t, c);
      return;
    }
    StackAfterNode(t, c, level);
    t' := c.(stack := Popped(Took(c.stack, level)));
    done := t'.stack[|t'.stack| - 1].left == 0;
    StepAdvanced(t, c, t', level, done);
  }
}
