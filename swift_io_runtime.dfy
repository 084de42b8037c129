// Runtime connections of swift_io (swift_io_runtime.c): a connection object
// links its source to its sink through a node in the source's doubly linked
// list. The list is the source's `sinks` sequence of connection objects, and
// the node's linked state is the connection's `linked` flag. The spinlock is
// not modelled, nor is the optional stack-address heuristic.
module SwiftIoRuntime {
  import opened Errno
  import opened Wrappers

  /** struct swift_io_source: the list of its connections, in link order. */
  class SwiftSource {
    var sinks: seq<SwiftConnection>

    constructor ()
      ensures sinks == []
    {
      sinks := [];
    }
  }

  /**
   * struct swift_io_connection: source and sink are fixed when the connection
   * is declared; a sink is named by its address, None standing for NULL.
   */
  class SwiftConnection {
    const source: SwiftSource?
    const sink: Option<nat>
    var linked: bool

    constructor (source: SwiftSource?, sink: Option<nat>)
      ensures this.source == source && this.sink == sink && !linked
    {
      this.source := source;
      this.sink := sink;
      linked := false;
    }
  }

  /** Some connection in `list` leads to `sink`. */
  predicate HasSink(list: seq<SwiftConnection>, sink: Option<nat>) {
    exists i :: 0 <= i < |list| && list[i].sink == sink
  }

  /** The position of the first occurrence of `c` in `list`. */
  function IndexOf(list: seq<SwiftConnection>, c: SwiftConnection): (r: Option<nat>)
    ensures r.None? <==> c !in list
    ensures r.Some? ==> (r.value < |list| && list[r.value] == c && c !in list[..r.value])
  {
    if |list| == 0 then None
    else if list[0] == c then Some(0)
    else
      match IndexOf(list[1..], c)
      case None => None
      case Some(k) =>
        assert list[..k + 1] == [list[0]] + list[1..][..k];
        Some(k + 1)
  }

  /** sys_dlist_remove of `c` from the list holding it. */
  function Unlink(list: seq<SwiftConnection>, c: SwiftConnection): (r: seq<SwiftConnection>)
    ensures c in list ==> |r| == |list| - 1
    ensures c !in list ==> r == list
  {
    match IndexOf(list, c)
    case None => list
    case Some(k) => list[..k] + list[k + 1..]
  }

  /**
   * swift_io_connection_add on a connection `c` whose node is `linked` or not
   * and whose source holds `list`: -EINVAL for a missing connection, source
   * or sink, -EBUSY for a node that is already linked, -EALREADY when the
   * source already leads to that sink; otherwise `c` is appended at the tail.
   */
  function Add(list: seq<SwiftConnection>, c: SwiftConnection?, linked: bool): (r: (int, seq<SwiftConnection>))
  {
    if c == null || c.source == null || c.sink.None? then (-EINVAL, list)
    else if linked then (-EBUSY, list)
    else if HasSink(list, c.sink) then (-EALREADY, list)
    else (0, list + [c])
  }

  /**
   * swift_io_connection_remove: -EINVAL for a missing connection or source,
   * -ENOENT for a node that is not linked; otherwise the node is unlinked.
   */
  function Remove(list: seq<SwiftConnection>, c: SwiftConnection?, linked: bool): (r: (int, seq<SwiftConnection>))
  {
    if c == null || c.source == null then (-EINVAL, list)
    else if !linked then (-ENOENT, list)
    else (0, Unlink(list, c))
  }

  // ---- Properties ----

  /** The results of swift_io_connection_add, each error leaving the list as it was. */
  lemma AddResults(list: seq<SwiftConnection>, c: SwiftConnection?, linked: bool)
    ensures var r := Add(list, c, linked);
      (r.0 == -EINVAL <==> c == null || c.source == null || c.sink.None?)
      && (r.0 == -EBUSY <==> c != null && c.source != null && c.sink.Some? && linked)
      && (r.0 == -EALREADY <==> c != null && c.source != null && c.sink.Some? && !linked && HasSink(list, c.sink))
      && (r.0 != 0 ==> r.1 == list)
      && (r.0 == 0 ==> r.1 == list + [c] && |r.1| == |list| + 1)
  {
  }

  /** A list with no duplicate connection keeps that property through an add. */
  lemma AddKeepsDistinct(list: seq<SwiftConnection>, c: SwiftConnection?)
    requires forall i, j :: 0 <= i < j < |list| ==> list[i] != list[j]
    requires c !in list
    ensures var l := Add(list, c, false).1; forall i, j :: 0 <= i < j < |l| ==> l[i] != l[j]
  {
  }

  /**
   * Adding an unlinked connection that is not in its source's list and then
   * removing it gives back the list as it was.
   */
  lemma AddThenRemove(list: seq<SwiftConnection>, c: SwiftConnection)
    requires c !in list && Add(list, c, false).0 == 0
    ensures Remove(Add(list, c, false).1, c, true) == (0, list)
  {
    var l := list + [c];
    var k := IndexOf(l, c).value;
    assert l[..|list|] == list;
    if k < |list| {
      assert false;
    }
    assert l[..k] + l[k + 1..] == list;
  }

  // ---- The operations in place ----

  /**
   * A source's list agrees with the nodes' linked flags: every connection in
   * it is linked and belongs to this source, and none occurs twice.
   */
  predicate Linked(src: SwiftSource)
    reads src, src.sinks
  {
    (forall i :: 0 <= i < |src.sinks| ==> src.sinks[i].linked && src.sinks[i].source == src)
    && forall i, j :: 0 <= i < j < |src.sinks| ==> src.sinks[i] != src.sinks[j]
  }

  method ConnectionAdd(c: SwiftConnection?) returns (ret: int)
    modifies c, if c == null || c.source == null then {} else {c.source}
    ensures c == null ==> ret == -EINVAL
    ensures c != null && c.source != null ==>
      (ret, c.source.sinks) == Add(old(c.source.sinks), c, old(c.linked))
      && c.linked == (old(c.linked) || ret == 0)
    ensures c != null && c.source == null ==> ret == -EINVAL && c.linked == old(c.linked)
    ensures c != null && c.source != null && old(Linked(c.source)) && (old(c.linked) <==> c in old(c.source.sinks)) ==>
      Linked(c.source) && (c.linked <==> c in c.source.sinks)
  {
    if c == null || c.source == null || c.sink.None? {
      return -EINVAL;
    }
    if c.linked {
      return -EBUSY;
    }
    var src := c.source;
    var list := src.sinks;
    var i := 0;
    while i < |list|
      invariant 0 <= i <= |list|
      invariant forall j :: 0 <= j < i ==> list[j].sink != c.sink
    {
      if list[i].sink == c.sink {
        return -EALREADY;
      }
      i := i + 1;
    }
    src.sinks := list + [c];
    c.linked := true;
    return 0;
  }

  /** With the list in agreement with the flags, the node that is unlinked is the one in its source's list. */
  method ConnectionRemove(c: SwiftConnection?) returns (ret: int)
    requires c != null && c.source != null ==> Linked(c.source) && (c.linked <==> c in c.source.sinks)
    modifies c, if c == null || c.source == null then {} else {c.source}
    ensures c == null ==> ret == -EINVAL
    ensures c != null && c.source != null ==>
      (ret, c.source.sinks) == Remove(old(c.source.sinks), c, old(c.linked))
      && c.linked == (old(c.linked) && ret != 0)
    ensures c != null && c.source == null ==> ret == -EINVAL && c.linked == old(c.linked)
    ensures c != null && c.source != null ==> Linked(c.source) && (c.linked <==> c in c.source.sinks)
  {
    if c == null || c.source == null {
      return -EINVAL;
    }
    if !c.linked {
      return -ENOENT;
    }
    var src := c.source;
    src.sinks := Unlink(src.sinks, c);
    c.linked := false;
    return 0;
  }
}
