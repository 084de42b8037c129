// Zephyr's net_buf as the packet samples use it: reference-counted buffers
// with a data area, a user-data area for metadata and a singly linked
// fragment chain. Buffers live in a heap indexed by identity; releasing the
// last reference frees a buffer and releases its fragment chain in turn.
module NetBuf {
  import opened Bytes
  import opened Wrappers

  type BufId = nat

  datatype Buf = Buf(data: seq<byte>, ref: nat, frag: Option<BufId>, userData: seq<byte>)

  /**
   * Every live buffer. `next` is the identity the next allocation gets;
   * `fault` records a release of a buffer that is no longer live (a double
   * free or a release through a dangling fragment pointer).
   */
  datatype Heap = Heap(bufs: map<BufId, Buf>, next: BufId, fault: bool)

  /**
   * Live buffers hold at least one reference, and a fragment link always
   * points to an older buffer, so fragment chains are finite and acyclic.
   */
  predicate Valid(h: Heap) {
    forall id :: id in h.bufs ==>
      id < h.next && h.bufs[id].ref > 0 && (h.bufs[id].frag.Some? ==> h.bufs[id].frag.value < id)
  }

  /**
   * net_buf_alloc from a pool with a free buffer: one reference, no data, no
   * fragments. The user-data area is not cleared: it holds whatever the pool
   * slot held before, which the caller supplies.
   */
  function Alloc(h: Heap, userData: seq<byte>): (r: (Heap, BufId))
    requires Valid(h)
    ensures Valid(r.0) && r.1 == h.next && r.1 !in h.bufs
    ensures r.0.bufs == h.bufs[r.1 := Buf([], 1, None, userData)]
    ensures r.0.next > h.next && r.0.fault == h.fault
  {
    (h.(bufs := h.bufs[h.next := Buf([], 1, None, userData)], next := h.next + 1), h.next)
  }

  /** net_buf_ref. */
  function Ref(h: Heap, id: BufId): (r: Heap)
    requires Valid(h) && id in h.bufs
    ensures Valid(r) && r.bufs.Keys == h.bufs.Keys && r.bufs[id].ref == h.bufs[id].ref + 1
    ensures forall x :: x in h.bufs && x != id ==> r.bufs[x] == h.bufs[x]
  {
    h.(bufs := h.bufs[id := h.bufs[id].(ref := h.bufs[id].ref + 1)])
  }

  /**
   * net_buf_unref: drop one reference; when it was the last, free the buffer
   * and release its fragment chain the same way.
   */
  function Unref(h: Heap, id: BufId): (r: Heap)
    requires Valid(h)
    ensures Valid(r) && r.next == h.next && r.bufs.Keys <= h.bufs.Keys
    decreases id
  {
    if id !in h.bufs then h.(fault := true)
    else
      var b := h.bufs[id];
      if b.ref > 1 then h.(bufs := h.bufs[id := b.(ref := b.ref - 1)])
      else
        var freed := h.(bufs := h.bufs - {id});
        if b.frag.None? then freed else Unref(freed, b.frag.value)
  }

  /** A buffer's fragment pointer, if it has one, names a live buffer. */
  predicate FragLive(h: Heap, id: BufId)
    requires id in h.bufs
  {
    h.bufs[id].frag.Some? ==> h.bufs[id].frag.value in h.bufs
  }

  /** The buffers of the chain starting at `id`, head first. */
  function Chain(h: Heap, id: BufId): (c: seq<BufId>)
    requires Valid(h)
    ensures forall i :: 0 <= i < |c| ==> c[i] in h.bufs
    ensures id in h.bufs ==> |c| > 0 && c[0] == id
    ensures id !in h.bufs ==> c == []
    decreases id
  {
    if id !in h.bufs then []
    else if h.bufs[id].frag.None? then [id]
    else [id] + Chain(h, h.bufs[id].frag.value)
  }

  /** The data areas along a chain. */
  function FragData(h: Heap, id: BufId): (r: seq<seq<byte>>)
    requires Valid(h)
    ensures |r| == |Chain(h, id)|
    ensures forall i :: 0 <= i < |r| ==> r[i] == h.bufs[Chain(h, id)[i]].data
    decreases id
  {
    if id !in h.bufs then []
    else if h.bufs[id].frag.None? then [h.bufs[id].data]
    else [h.bufs[id].data] + FragData(h, h.bufs[id].frag.value)
  }

  function Concat(fs: seq<seq<byte>>): seq<byte>
  {
    if |fs| == 0 then [] else fs[0] + Concat(fs[1..])
  }

  /** net_buf_frags_len: the number of data bytes along the whole chain. */
  function FragsLen(h: Heap, id: BufId): nat
    requires Valid(h)
  {
    |Concat(FragData(h, id))|
  }

  /** net_buf_frag_last: the end of the chain. */
  function FragLast(h: Heap, id: BufId): (last: BufId)
    requires Valid(h) && id in h.bufs
    ensures last in h.bufs && last <= id
    ensures h.bufs[last].frag.None? || h.bufs[last].frag.value !in h.bufs
    decreases id
  {
    var f := h.bufs[id].frag;
    if f.None? || f.value !in h.bufs then id else FragLast(h, f.value)
  }

  /**
   * net_buf_frag_add: link `frag` (and its own chain) after the end of
   * `parent`'s chain. The parent takes over the caller's reference to
   * `frag`; no count changes. The fragment must be older than the chain end.
   */
  function FragAdd(h: Heap, parent: BufId, frag: BufId): (r: Heap)
    requires Valid(h) && parent in h.bufs && frag in h.bufs && frag < FragLast(h, parent)
    ensures Valid(r) && r.bufs.Keys == h.bufs.Keys && r.next == h.next && r.fault == h.fault
  {
    var last := FragLast(h, parent);
    h.(bufs := h.bufs[last := h.bufs[last].(frag := Some(frag))])
  }

  /** net_buf_add followed by filling the new tail with `bytes`. */
  function Append(h: Heap, id: BufId, bytes: seq<byte>): (r: Heap)
    requires Valid(h) && id in h.bufs
    ensures Valid(r) && r.bufs.Keys == h.bufs.Keys && r.bufs[id].data == h.bufs[id].data + bytes
    ensures forall x :: x in h.bufs && x != id ==> r.bufs[x] == h.bufs[x]
  {
    h.(bufs := h.bufs[id := h.bufs[id].(data := h.bufs[id].data + bytes)])
  }

  /** net_buf_pull: drop the first n bytes of one buffer's data. */
  function Pull(h: Heap, id: BufId, n: nat): (r: Heap)
    requires Valid(h) && id in h.bufs && n <= |h.bufs[id].data|
    ensures Valid(r) && r.bufs.Keys == h.bufs.Keys && r.bufs[id].data == h.bufs[id].data[n..]
    ensures forall x :: x in h.bufs && x != id ==> r.bufs[x] == h.bufs[x]
  {
    h.(bufs := h.bufs[id := h.bufs[id].(data := h.bufs[id].data[n..])])
  }

  /** Writing the user-data area of a buffer. */
  function SetUserData(h: Heap, id: BufId, ud: seq<byte>): (r: Heap)
    requires Valid(h) && id in h.bufs
    ensures Valid(r) && r.bufs.Keys == h.bufs.Keys && r.bufs[id].userData == ud
    ensures forall x :: x in h.bufs && x != id ==> r.bufs[x] == h.bufs[x]
  {
    h.(bufs := h.bufs[id := h.bufs[id].(userData := ud)])
  }

  /**
   * A fresh head `hd` filled with `bytes` (net_buf_add), a reference taken
   * on `b` (net_buf_ref), and `b` linked after the head (net_buf_frag_add,
   * which takes over that new reference).
   */
  function Prepend(h: Heap, hd: BufId, b: BufId, bytes: seq<byte>): (r: Heap)
    requires Valid(h) && hd in h.bufs && b in h.bufs && b < hd && h.bufs[hd].frag.None?
    ensures Valid(r) && r.bufs.Keys == h.bufs.Keys && r.next == h.next && r.fault == h.fault
    ensures r.bufs[hd] == h.bufs[hd].(data := h.bufs[hd].data + bytes, frag := Some(b))
    ensures r.bufs[b] == h.bufs[b].(ref := h.bufs[b].ref + 1)
    ensures forall x :: x in h.bufs && x != hd && x != b ==> r.bufs[x] == h.bufs[x]
  {
    var h1 := Append(h, hd, bytes);
    var h2 := Ref(h1, b);
    assert FragLast(h2, hd) == hd;
    FragAdd(h2, hd, b)
  }

  /** A head freshly allocated with `ud` and prepended to `b`: the one new buffer, and one more reference on `b`. */
  lemma PrependAlloc(h: Heap, b: BufId, ud: seq<byte>, bytes: seq<byte>)
    requires Valid(h) && b in h.bufs
    ensures var al := Alloc(h, ud);
      b < al.1
      && Prepend(al.0, al.1, b, bytes).bufs
         == h.bufs[b := h.bufs[b].(ref := h.bufs[b].ref + 1)][h.next := Buf(bytes, 1, Some(b), ud)]
  {
    var al := Alloc(h, ud);
    var r := Prepend(al.0, al.1, b, bytes);
    var m := h.bufs[b := h.bufs[b].(ref := h.bufs[b].ref + 1)][h.next := Buf(bytes, 1, Some(b), ud)];
    assert [] + bytes == bytes;
    assert r.bufs.Keys == m.Keys;
    forall x | x in m
      ensures r.bufs[x] == m[x]
    {
    }
  }

  /** What a sink sees when a chain is handed to it: each fragment's bytes and the head's user data. */
  datatype Frame = Frame(frags: seq<seq<byte>>, userData: seq<byte>)

  function Snapshot(h: Heap, id: BufId): Frame
    requires Valid(h) && id in h.bufs
  {
    Frame(FragData(h, id), h.bufs[id].userData)
  }

  /** The heap with `k` more references on buffer `b` and nothing else changed. */
  function Bump(h: Heap, b: BufId, k: nat): (r: Heap)
    requires b in h.bufs
    ensures r.bufs.Keys == h.bufs.Keys && r.bufs[b].ref == h.bufs[b].ref + k
    ensures forall x :: x in h.bufs && x != b ==> r.bufs[x] == h.bufs[x]
  {
    h.(bufs := h.bufs[b := h.bufs[b].(ref := h.bufs[b].ref + k)])
  }

  lemma BumpAdd(h: Heap, b: BufId, j: nat, k: nat)
    requires b in h.bufs
    ensures Bump(Bump(h, b, j), b, k) == Bump(h, b, j + k) && Bump(h, b, 0) == h
  {
    assert Bump(Bump(h, b, j), b, k).bufs == Bump(h, b, j + k).bufs;
    assert Bump(h, b, 0).bufs == h.bufs;
  }

  // ---- Properties of the model ----

  /** Releasing a buffer that holds more than one reference only lowers its count. */
  lemma UnrefShared(h: Heap, id: BufId)
    requires Valid(h) && id in h.bufs && h.bufs[id].ref > 1
    ensures Unref(h, id) == h.(bufs := h.bufs[id := h.bufs[id].(ref := h.bufs[id].ref - 1)])
  {
  }

  /** Unref undoes Ref. */
  lemma UnrefRef(h: Heap, id: BufId)
    requires Valid(h) && id in h.bufs
    ensures Unref(Ref(h, id), id) == h
  {
    var h1 := Ref(h, id);
    var m := h1.bufs[id := h1.bufs[id].(ref := h1.bufs[id].ref - 1)];
    assert m == h.bufs by {
      assert m.Keys == h.bufs.Keys;
      forall x | x in m
        ensures m[x] == h.bufs[x]
      {
      }
    }
    UnrefShared(h1, id);
  }

  /** A freshly allocated buffer is freed by its one release, and nothing else changes. */
  lemma UnrefAlloc(h: Heap, userData: seq<byte>)
    requires Valid(h)
    ensures var (h1, id) := Alloc(h, userData);
      Unref(h1, id).bufs == h.bufs && Unref(h1, id).fault == h.fault
  {
    var (h1, id) := Alloc(h, userData);
    assert h1.bufs - {id} == h.bufs;
  }

  /** Changing reference counts, user data or the data of buffers outside a chain leaves the chain alone. */
  ghost predicate SameLinks(h: Heap, h': Heap, below: BufId) {
    forall x :: x <= below ==> (x in h.bufs <==> x in h'.bufs) && (x in h.bufs ==> h.bufs[x].frag == h'.bufs[x].frag)
  }

  lemma {:induction false} ChainSameLinks(h: Heap, h': Heap, id: BufId)
    requires Valid(h) && Valid(h') && SameLinks(h, h', id)
    ensures Chain(h, id) == Chain(h', id)
    decreases id
  {
    if id in h.bufs && h.bufs[id].frag.Some? {
      ChainSameLinks(h, h', h.bufs[id].frag.value);
    }
  }

  /** Same links and the same data throughout a chain give the same fragment data. */
  lemma {:induction false} FragDataSame(h: Heap, h': Heap, id: BufId)
    requires Valid(h) && Valid(h') && SameLinks(h, h', id)
    requires forall x :: x <= id && x in h.bufs ==> h.bufs[x].data == h'.bufs[x].data
    ensures FragData(h, id) == FragData(h', id)
    decreases id
  {
    if id in h.bufs && h.bufs[id].frag.Some? {
      FragDataSame(h, h', h.bufs[id].frag.value);
    }
  }

  /** Taking a reference does not change what a sink sees of any chain. */
  lemma SnapshotRef(h: Heap, id: BufId, x: BufId)
    requires Valid(h) && id in h.bufs && x in h.bufs
    ensures Snapshot(Ref(h, id), x) == Snapshot(h, x)
  {
    FragDataSame(h, Ref(h, id), x);
  }

  lemma {:induction false} ConcatAppend(a: seq<seq<byte>>, b: seq<seq<byte>>)
    ensures Concat(a + b) == Concat(a) + Concat(b)
  {
    if |a| == 0 {
      assert a + b == b;
    } else {
      assert (a + b)[1..] == a[1..] + b;
      ConcatAppend(a[1..], b);
    }
  }


  /**
   * The header pattern of the packet handlers: data written into a fresh
   * head buffer, a new reference taken on the payload chain, the payload
   * linked after the head, and the head released by a consuming send. The
   * head is freed and the payload is back where it started.
   */
  lemma ChainedRelease(h: Heap, hd: BufId, frag: BufId, bytes: seq<byte>)
    requires Valid(h) && hd in h.bufs && frag in h.bufs && frag < hd
    requires h.bufs[hd].ref == 1 && h.bufs[hd].frag.None?
    ensures var h3 := Ref(Append(h, hd, bytes), frag);
      FragLast(h3, hd) == hd
      && Unref(FragAdd(h3, hd, frag), hd).bufs == h.bufs - {hd}
      && Unref(FragAdd(h3, hd, frag), hd).fault == h.fault
  {
    var h3 := Ref(Append(h, hd, bytes), frag);
    assert FragLast(h3, hd) == hd;
    var h4 := FragAdd(h3, hd, frag);
    assert h4.bufs[hd].frag == Some(frag) && h4.bufs[hd].ref == 1;
    var freed := h4.(bufs := h4.bufs - {hd});
    assert Unref(h4, hd) == Unref(freed, frag);
    UnrefShared(freed, frag);
    var m := freed.bufs[frag := freed.bufs[frag].(ref := freed.bufs[frag].ref - 1)];
    assert m.Keys == (h.bufs - {hd}).Keys;
    forall x | x in m
      ensures m[x] == (h.bufs - {hd})[x]
    {
    }
    assert m == h.bufs - {hd};
  }

  /** What the send of that chain hands on: the head's bytes, then the payload chain as it was. */
  lemma ChainedData(h: Heap, hd: BufId, frag: BufId, bytes: seq<byte>)
    requires Valid(h) && hd in h.bufs && frag in h.bufs && frag < hd
    requires h.bufs[hd].data == [] && h.bufs[hd].frag.None?
    ensures var h3 := Ref(Append(h, hd, bytes), frag);
      FragLast(h3, hd) == hd
      && FragData(FragAdd(h3, hd, frag), hd) == [bytes] + FragData(h, frag)
  {
    var h3 := Ref(Append(h, hd, bytes), frag);
    assert FragLast(h3, hd) == hd;
    var h4 := FragAdd(h3, hd, frag);
    assert h4.bufs[hd].data == bytes && h4.bufs[hd].frag == Some(frag);
    assert FragData(h4, hd) == [bytes] + FragData(h4, frag);
    assert SameLinks(h, h4, frag) by {
      forall x | x <= frag
        ensures (x in h.bufs <==> x in h4.bufs) && (x in h.bufs ==> h.bufs[x].frag == h4.bufs[x].frag)
      {
        if x in h.bufs {
          assert x != hd;
        }
      }
    }
    assert forall x :: x <= frag && x in h.bufs ==> h.bufs[x].data == h4.bufs[x].data;
    FragDataSame(h, h4, frag);
  }

  /**
   * A payload linked after a fresh head without a reference of its own: the
   * chain's data is the head's bytes and then the payload chain as it was.
   */
  lemma LinkedData(h: Heap, hd: BufId, frag: BufId, bytes: seq<byte>)
    requires Valid(h) && hd in h.bufs && frag in h.bufs && frag < hd
    requires h.bufs[hd].data == [] && h.bufs[hd].frag.None?
    ensures var h2 := Append(h, hd, bytes);
      FragLast(h2, hd) == hd
      && FragData(FragAdd(h2, hd, frag), hd) == [bytes] + FragData(h, frag)
  {
    var h2 := Append(h, hd, bytes);
    assert FragLast(h2, hd) == hd;
    var h4 := FragAdd(h2, hd, frag);
    assert h4.bufs[hd].data == bytes && h4.bufs[hd].frag == Some(frag);
    assert FragData(h4, hd) == [bytes] + FragData(h4, frag);
    assert SameLinks(h, h4, frag) by {
      forall x | x <= frag
        ensures (x in h.bufs <==> x in h4.bufs) && (x in h.bufs ==> h.bufs[x].frag == h4.bufs[x].frag)
      {
        if x in h.bufs {
          assert x != hd;
        }
      }
    }
    assert forall x :: x <= frag && x in h.bufs ==> h.bufs[x].data == h4.bufs[x].data;
    FragDataSame(h, h4, frag);
  }

  /**
   * Releasing a head that holds one reference and has a payload linked after
   * it frees the head and releases the payload once.
   */
  lemma HeadRelease(h: Heap, hd: BufId, frag: BufId, bytes: seq<byte>)
    requires Valid(h) && hd in h.bufs && frag in h.bufs && frag < hd
    requires h.bufs[hd].ref == 1 && h.bufs[hd].frag.None?
    ensures var h2 := Append(h, hd, bytes);
      FragLast(h2, hd) == hd
      && Unref(FragAdd(h2, hd, frag), hd) == Unref(h.(bufs := h.bufs - {hd}), frag)
  {
    var h2 := Append(h, hd, bytes);
    assert FragLast(h2, hd) == hd;
    var h4 := FragAdd(h2, hd, frag);
    assert h4.bufs[hd].frag == Some(frag) && h4.bufs[hd].ref == 1;
    assert h4.bufs - {hd} == h.bufs - {hd};
  }

  /** The heap with one reference taken and then one taken off by hand is the heap it was. */
  lemma RefDrop(h: Heap, id: BufId)
    requires Valid(h) && id in h.bufs
    ensures var h1 := Ref(h, id); h1.bufs[id := h1.bufs[id].(ref := h1.bufs[id].ref - 1)] == h.bufs
  {
    var h1 := Ref(h, id);
    var m := h1.bufs[id := h1.bufs[id].(ref := h1.bufs[id].ref - 1)];
    assert m.Keys == h.bufs.Keys;
    forall x | x in m
      ensures m[x] == h.bufs[x]
    {
    }
  }
}
