/**
 * The tree parser's loop and entry points (bjd-node.c:777-1067):
 * `bjd_tree_continue_parsing` parses nodes until the root is complete or
 * the stream runs dry, `bjd_tree_parse_start` begins a message where the
 * previous one ended, and `bjd_tree_try_parse` and `bjd_tree_parse` drive
 * the two. A read function is modelled by the bytes it can deliver right
 * now (`pending`); `Feed` makes more of the stream available between
 * attempts, as a nonblocking socket would.
 */
module Parse {
  import opened Bytes
  import opened Wrappers
  import opened Errors
  import Objects
  import opened Tree

  // ---------------------------------------------------------------------
  // The parse loop
  // ---------------------------------------------------------------------

  /** u is where the loop has got to from t: the same stream and configuration, more data, still tracking the message. */
  ghost predicate Along(t: Tree, u: Tree)
    requires t.Parsing() && u.Parsing()
  {
    && t.Configured(u) && u.Whole() == t.Whole() && u.state == t.state && t.data <= u.data
    && (Tracks(t) ==> Tracks(u))
  }

  /** Tracking the message means the objects still owed end where the first message of the whole stream ends. */
  lemma TracksWhole(t: Tree)
    requires t.Valid() && Tracks(t)
    ensures Objects.ObjectsEnd(t.Whole(), t.size, Owed(t.stack), t.extensions)
            == Objects.ObjectEnd(t.Whole(), 0, t.extensions)
  {
    assert t.Whole() == t.data + t.pending;
  }

  /** A finished parse that tracked the message found exactly where the message ends. */
  lemma DoneWhole(t: Tree)
    requires Done(t) && Tracks(t)
    ensures Objects.ObjectEnd(t.Whole(), 0, t.extensions) == Some(t.size)
  {
    TracksWhole(t);
    assert Owed(t.stack) == Owed(t.stack[..0]) + t.stack[0].left;
  }

  /**
   * What `bjd_tree_continue_parsing` means: the configuration, stream and
   * state are kept and the data only grew; success leaves the root
   * complete and, for a parse that tracked the message, `size` at the end
   * of the message; a failure is an error, or a drained input with the
   * parser ready to resume, still tracking; and a failure the limits did
   * not cause means the stream holds no complete message.
   */
  ghost predicate Continued(t: Tree, t': Tree, ok: bool)
    requires t.Parsing()
  {
    && t'.Valid() && t.Configured(t') && t'.Whole() == t.Whole() && t'.state == t.state && t.data <= t'.data
    && (ok ==> Done(t'))
    && (!ok ==> || t'.err == Invalid || t'.err == Unsupported || t'.err == TooBig
                || (t'.err == Ok && t.hasRead && t'.pending == [] && t'.Parsing()))
    && ((ok || t'.err == Ok) && Tracks(t) ==> Tracks(t'))
    && (ok && Tracks(t) ==> Objects.ObjectEnd(t.Whole(), 0, t.extensions) == Some(t'.size))
    && (!ok && (t'.err == Ok || t.Roomy(|t.Whole()|)) && Tracks(t)
        ==> Objects.ObjectEnd(t.Whole(), 0, t.extensions).None?)
  }

  /** A step that parsed a node and left the root open moves the loop along. */
  lemma AlongStep(t: Tree, cur: Tree, next: Tree)
    requires t.Parsing() && cur.Parsing() && Along(t, cur) && Stepped(cur, next, true, false)
    ensures next.Parsing() && Along(t, next) && cur.size < next.size <= |t.Whole()|
  {
  }

  /** The step that ends the loop ends the parse. */
  lemma Finish(t: Tree, cur: Tree, t': Tree, ok: bool, done: bool)
    requires t.Parsing() && cur.Parsing() && Along(t, cur) && Stepped(cur, t', ok, done) && (ok ==> done)
    ensures Continued(t, t', ok)
  {
    if Tracks(t) {
      if ok {
        DoneWhole(t');
      } else if t'.err == Ok || t.Roomy(|t.Whole()|) {
        TracksWhole(cur);
      }
    }
  }

  /**
   * `bjd_tree_continue_parsing` (bjd-node.c:777-811): nodes are parsed in
   * a loop, each one taken off its level, and exhausted levels popped,
   * until the outermost level is exhausted or a node cannot be parsed.
   * Each turn moves `size` forward inside the stream, so the loop ends.
   */
  method ContinueParsing(t: Tree) returns (t': Tree, ok: bool)
    requires t.Parsing()
    ensures Continued(t, t', ok)
  {
    var cur := t;
    while true
      invariant cur.Parsing() && Along(t, cur)
      decreases |t.Whole()| - cur.size
    {
      var next, stepped, done := Step(cur);
      if !stepped || done {
        Finish(t, cur, next, stepped, done);
        return next, stepped;
      }
      AlongStep(t, cur, next);
      cur := next;
    }
  }

  // ---------------------------------------------------------------------
  // Starting a message
  // ---------------------------------------------------------------------

  /** Before the root is parsed the one object owed is the message itself. */
  lemma StartTracks(d: seq<Byte>, extensions: bool)
    ensures TracksFrom(d, 0, 1, extensions)
  {
    forall q: seq<Byte>
      ensures Objects.ObjectsEnd(d + q, 0, 1, extensions) == Objects.ObjectEnd(d + q, 0, extensions)
    {
      Objects.ObjectsSnoc(d + q, 0, 0, extensions);
    }
  }

  /**
   * What starting a message means, for m the stream after the last parsed
   * message: the tree now works on m from its first byte; a start puts the
   * root on the stack as the one object owed; a failure leaves the parse
   * not started, with an error or a drained input; and a failure the
   * limits did not cause means m is empty.
   */
  ghost predicate Started(t: Tree, t': Tree, ok: bool)
    requires t.Valid()
  {
    var m := t.Whole()[t.size..];
    && t'.Valid() && t.Configured(t') && t'.Whole() == m && t'.size == 0
    && (ok ==> && t'.Parsing() && Tracks(t') && t'.nodes == [Unparsed] && t'.stack == [Level(0, 1)]
               && t'.nodeCount == 1 && t'.possible == |t'.data| - 1)
    && (!ok ==> && t'.state == NotStarted
                && (t'.err == Invalid || t'.err == TooBig || (t'.err == Ok && t.hasRead && t'.pending == [])))
    && (!ok && (t'.err == Ok || t.Roomy(|m|)) ==> m == [])
  }

  /**
   * The tree `bjd_tree_parse_start` (bjd-node.c:843-871) prepares before
   * reserving the root's byte: the bytes of the message parsed last are
   * dropped from the data (the buffer is shifted or the data pointer
   * advanced), the arena is released, and every byte left is a possible
   * node.
   */
  function Restart(t: Tree): (u: Tree)
    requires t.Valid() && t.err == Ok
    ensures u.Valid() && t.Configured(u) && u.Whole() == t.Whole()[t.size..]
    ensures u.size == 0 && u.possible == |u.data| && u.reserved == 0 && u.err == Ok && u.reported == t.reported
    ensures u.state == InProgress && u.nodes == [] && u.stack == []
  {
    var u := t.(state := InProgress, reserved := 0, nodes := [], stack := []);
    var u := if u.size > 0 then u.(data := u.data[u.size..], size := 0, nodeCount := 0) else u;
    assert u.Whole() == t.Whole()[t.size..];
    u.(possible := |u.data|)
  }

  /** A root byte that could not be reserved leaves the parse not started. */
  lemma StartFailed(t: Tree, u: Tree, r: Tree)
    requires t.Valid() && t.err == Ok && u == Restart(t) && Reserved(u, r, 1, false)
    ensures Started(t, r.(state := NotStarted), false)
  {
  }

  /** The root byte reserved, the root is the one slot of the arena and the one object owed. */
  lemma StartDone(t: Tree, u: Tree, r: Tree, t': Tree)
    requires t.Valid() && t.err == Ok && u == Restart(t) && Reserved(u, r, 1, true)
    requires t' == r.(possible := r.possible - 1, nodeCount := 1, nodes := [Unparsed], stack := [Level(0, 1)])
    ensures Started(t, t', true)
  {
    assert Owed(t'.stack) == Owed(t'.stack[..0]) + 1;
    assert WellFormed(t'.nodes, |t'.data|) by {
      assert Fits(t'.nodes[0], 1, |t'.data|);
    }
    StartTracks(t'.data, t'.extensions);
  }

  /**
   * `bjd_tree_parse_start` (bjd-node.c:834-915): after `Restart`, one byte
   * is reserved for the root before any node is allocated; without that
   * byte the parse has not started.
   */
  method ParseStart(t: Tree) returns (t': Tree, ok: bool)
    requires t.Valid() && t.err == Ok && t.state != InProgress
    ensures Started(t, t', ok)
  {
    var u := Restart(t);
    var r;
    r, ok := ReserveBytes(u, 1);
    if !ok {
      t' := r.(state := NotStarted);
      StartFailed(t, u, r);
      return;
    }
    t' := r.(possible := r.possible - 1, nodeCount := 1, nodes := [Unparsed], stack := [Level(0, 1)]);
    StartDone(t, u, r, t');
  }

  // ---------------------------------------------------------------------
  // Parsing a message
  // ---------------------------------------------------------------------

  /**
   * What holds of a tree between calls: a parse in progress is between
   * two nodes and tracks the message, and a parsed tree found where its
   * message ends.
   */
  ghost predicate Sound(t: Tree) {
    && t.Valid()
    && (t.err == Ok && t.state == InProgress ==> t.Parsing() && Tracks(t))
    && (t.err == Ok && t.state == Parsed ==> Done(t) && Tracks(t))
  }

  /** The stream of the message the tree works on: the one in progress, or what follows the last one parsed. */
  function Message(t: Tree): seq<Byte>
    requires t.Valid()
  {
    if t.state == InProgress then t.Whole() else t.Whole()[t.size..]
  }

  /**
   * What one attempt at a message means, for m its stream: a tree in
   * error is left alone and fails; otherwise the tree now works on m and
   * succeeds exactly when it ends parsed and without error, its `size`
   * then where the first message of m ends; a failure is an error or a
   * drained input; and a failure the limits did not cause means m holds
   * no complete message.
   */
  ghost predicate Attempted(t: Tree, t': Tree, ok: bool)
    requires t.Valid()
  {
    var m := Message(t);
    && (t.err != Ok ==> !ok && t' == t)
    && (t.err == Ok ==> t.Configured(t') && t'.Whole() == m && (ok <==> t'.err == Ok && t'.state == Parsed))
    && (ok ==> Objects.ObjectEnd(m, 0, t.extensions) == Some(t'.size))
    && (!ok && t.err == Ok ==> || t'.err == Invalid || t'.err == Unsupported || t'.err == TooBig
                               || (t'.err == Ok && t.hasRead && t'.pending == []))
    && (!ok && t.err == Ok && (t'.err == Ok || t.Roomy(|m|)) ==> Objects.ObjectEnd(m, 0, t.extensions).None?)
  }

  /** A failed start is a failed attempt on an empty or unreachable message. */
  lemma StartStopped(t: Tree, u: Tree)
    requires Sound(t) && t.err == Ok && t.state != InProgress && Started(t, u, false)
    ensures Sound(u) && Attempted(t, u, false)
  {
  }

  /** The loop's outcome from a sound tree in progress is the attempt's outcome. */
  lemma Resumed(t: Tree, u: Tree, c: Tree, ok: bool)
    requires Sound(t) && t.err == Ok && u.Parsing() && Tracks(u) && Continued(u, c, ok)
    requires t.Configured(u) && u.Whole() == Message(t)
    ensures ok ==> Sound(c.(state := Parsed)) && Attempted(t, c.(state := Parsed), true)
    ensures !ok ==> Sound(c) && Attempted(t, c, false)
  {
  }

  /**
   * `bjd_tree_try_parse` (bjd-node.c:952-971): nothing for a tree in
   * error; otherwise a message is started unless one is in progress, and
   * parsed as far as the stream allows. False with no error means the
   * stream has no more to give for now: more can be fed and the parse
   * resumed where it stopped.
   */
  method TryParse(t: Tree) returns (t': Tree, ok: bool)
    requires Sound(t)
    ensures Sound(t') && Attempted(t, t', ok)
  {
    if t.err != Ok {
      return t, false;
    }
    var u := t;
    if t.state != InProgress {
      var started;
      u, started := ParseStart(t);
      if !started {
        StartStopped(t, u);
        return u, false;
      }
    }
    var c;
    c, ok := ContinueParsing(u);
    Resumed(t, u, c, ok);
    t' := if ok then c.(state := Parsed) else c;
  }

  /**
   * `bjd_tree_parse` (bjd-node.c:917-950): `bjd_tree_try_parse`, except
   * that a message it cannot complete is an error, Io with a read function
   * and Invalid without. The source flags that error on the failing start
   * and on the failing loop alike, and only when no error is flagged yet,
   * which is what flagging it after a failed attempt does.
   */
  method Parse(t: Tree) returns (t': Tree)
    requires Sound(t)
    ensures Sound(t')
    ensures t.err != Ok ==> t' == t
    ensures t.err == Ok ==> t.Configured(t') && t'.Whole() == Message(t)
    ensures t'.err == Ok ==> t'.state == Parsed && Objects.ObjectEnd(Message(t), 0, t.extensions) == Some(t'.size)
    ensures t.err == Ok && t'.err != Ok ==> t'.err in {Invalid, Unsupported, TooBig, Io}
    ensures t.err == Ok && t'.err == Io ==> t.hasRead
    ensures t.err == Ok && t.Roomy(|Message(t)|)
            ==> (t'.err == Ok <==> Objects.ObjectEnd(Message(t), 0, t.extensions).Some?)
  {
    var ok;
    t', ok := TryParse(t);
    if !ok && t.err == Ok {
      t' := FlagError(t', if t.hasRead then Io else Invalid);
    }
  }

  /**
   * More of the stream reaches the read function (bjd-node.h:461-483: a
   * tree whose parse ran out of data is resumed once more has arrived).
   * The tree is as sound as before and its message has grown by `more`.
   */
  function Feed(t: Tree, more: seq<Byte>): (t': Tree)
    requires t.Valid() && t.hasRead
    ensures t'.Valid() && t.SameParse(t') && t'.data == t.data && t'.err == t.err
    ensures Message(t') == Message(t) + more
    ensures Sound(t) ==> Sound(t')
  {
    var t' := t.(pending := t.pending + more);
    assert t'.Whole() == t.Whole() + more;
    assert t'.Whole()[t.size..] == t.Whole()[t.size..] + more;
    t'
  }

  // ---------------------------------------------------------------------
  // Creating a tree
  // ---------------------------------------------------------------------

  /** The cleared tree of `bjd_tree_init_clear` (bjd-node.c:996-1002): no limits but SIZE_MAX. */
  function Cleared(sizeMax: nat, extensions: bool): Tree {
    Tree([], [], false, 0, sizeMax, sizeMax, sizeMax, None, 0, 0, 0, 0, [], [], NotStarted, Ok, [], extensions)
  }

  /**
   * `bjd_tree_init_data` (bjd-node.c:1004-1022): a tree over a buffer of
   * whole messages, with pages allocated as needed and no limits but
   * SIZE_MAX. Its message is the buffer, and the limits never stop it.
   */
  function InitData(bytes: seq<Byte>, sizeMax: nat, extensions: bool): (t: Tree)
    requires |bytes| <= sizeMax
    ensures Sound(t) && t.err == Ok && t.state == NotStarted && !t.hasRead && t.pool == None
    ensures Message(t) == bytes && t.Roomy(|bytes|)
  {
    Cleared(sizeMax, extensions).(data := bytes)
  }

  /**
   * `bjd_tree_init_pool` (bjd-node.c:1025-1047): the same over a caller's
   * pool of `count` nodes; an empty pool is a Bug, flagged before any
   * error handler can be installed.
   */
  function InitPool(bytes: seq<Byte>, count: nat, sizeMax: nat, extensions: bool): (t: Tree)
    requires |bytes| <= sizeMax
    ensures Sound(t) && t.state == NotStarted && !t.hasRead && t.reported == []
    ensures count == 0 <==> t.err == Bug
    ensures count > 0 ==> t.err == Ok && t.pool == Some(count) && Message(t) == bytes
    ensures count > 0 && |bytes| <= count ==> t.Roomy(|bytes|)
  {
    if count == 0 then Cleared(sizeMax, extensions).(err := Bug)
    else Cleared(sizeMax, extensions).(data := bytes, pool := Some(count))
  }

  /** `bjd_tree_init_error` (bjd-node.c:1049-1055): a tree that starts in error. */
  function InitError(e: Error, sizeMax: nat, extensions: bool): (t: Tree)
    ensures Sound(t) && t.err == e && t.state == NotStarted && t.reported == []
  {
    Cleared(sizeMax, extensions).(err := e)
  }

  /**
   * `bjd_tree_init_stream` (bjd-node.c:1057-1072): a tree that reads
   * `input` through its read function, with limits on the size and node
   * count of one message, which `bjd_tree_set_limits` asserts are set.
   */
  function InitStream(input: seq<Byte>, maxSize: nat, maxNodes: nat, sizeMax: nat, extensions: bool): (t: Tree)
    requires maxSize > 0 && maxNodes > 0
    ensures Sound(t) && t.err == Ok && t.state == NotStarted && t.hasRead && t.data == []
    ensures t.maxSize == maxSize && t.maxNodes == maxNodes && Message(t) == input
  {
    Cleared(sizeMax, extensions).(pending := input, hasRead := true, maxSize := maxSize, maxNodes := maxNodes)
  }

  /**
   * `bjd_tree_root` (bjd-node.c:973-994): the arena index of the root, 0;
   * nothing (the nil node) for a tree in error, and a Bug for a tree not
   * parsed.
   */
  function Root(t: Tree): (r: (Tree, Option<nat>))
    requires t.Valid()
    ensures r.0.Valid() && t.SameParse(r.0) && t.KeepsError(r.0)
    ensures r.1.Some? <==> t.err == Ok && t.state == Parsed
    ensures t.err == Ok && t.state != Parsed ==> r.0.err == Bug
    ensures Sound(t) && r.1.Some? ==> r.1.value < |r.0.nodes| && r.0 == t
  {
    if t.err != Ok then (t, None)
    else if t.state != Parsed then (FlagError(t, Bug), None)
    else (t, Some(0))
  }
}
