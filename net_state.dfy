// The buffer heap as the C handlers see it: one object whose buffers they
// allocate, link, fill, strip and release in place, one call at a time.
module NetState {
  import opened Bytes
  import NB = NetBuf
  type BufId = NB.BufId

  /**
   * The buffers of one program, changed in place by its handlers, and what
   * it has handed to the sources it sends on. What the sinks behind those
   * sources see is the chain's contents at the moment of sending.
   */
  class Net {
    var heap: NB.Heap
    var sent: seq<NB.Frame>

    predicate Ok()
      reads this
    {
      NB.Valid(heap)
    }

    constructor ()
      ensures Ok() && heap == NB.Heap(map[], 0, false) && sent == []
    {
      heap := NB.Heap(map[], 0, false);
      sent := [];
    }

    method Alloc(userData: seq<byte>) returns (id: BufId)
      requires Ok()
      modifies this
      ensures Ok() && (heap, id) == NB.Alloc(old(heap), userData) && sent == old(sent)
    {
      var r := NB.Alloc(heap, userData);
      heap := r.0;
      id := r.1;
    }

    method Ref(id: BufId)
      requires Ok() && id in heap.bufs
      modifies this
      ensures Ok() && heap == NB.Ref(old(heap), id) && sent == old(sent)
    {
      heap := NB.Ref(heap, id);
    }

    method Unref(id: BufId)
      requires Ok()
      modifies this
      ensures Ok() && heap == NB.Unref(old(heap), id) && sent == old(sent)
    {
      heap := NB.Unref(heap, id);
    }

    method FragAdd(parent: BufId, frag: BufId)
      requires Ok() && parent in heap.bufs && frag in heap.bufs && frag < NB.FragLast(heap, parent)
      modifies this
      ensures Ok() && heap == NB.FragAdd(old(heap), parent, frag) && sent == old(sent)
    {
      heap := NB.FragAdd(heap, parent, frag);
    }

    method Append(id: BufId, bytes: seq<byte>)
      requires Ok() && id in heap.bufs
      modifies this
      ensures Ok() && heap == NB.Append(old(heap), id, bytes) && sent == old(sent)
    {
      heap := NB.Append(heap, id, bytes);
    }

    method Pull(id: BufId, n: nat)
      requires Ok() && id in heap.bufs && n <= |heap.bufs[id].data|
      modifies this
      ensures Ok() && heap == NB.Pull(old(heap), id, n) && sent == old(sent)
    {
      heap := NB.Pull(heap, id, n);
    }

    method SetUserData(id: BufId, ud: seq<byte>)
      requires Ok() && id in heap.bufs
      modifies this
      ensures Ok() && heap == NB.SetUserData(old(heap), id, ud) && sent == old(sent)
    {
      heap := NB.SetUserData(heap, id, ud);
    }

    /** Handing a chain to a source: its sinks see the chain as it is now. */
    method Emit(id: BufId)
      requires Ok() && id in heap.bufs
      modifies this
      ensures Ok() && heap == old(heap) && sent == old(sent) + [NB.Snapshot(heap, id)]
    {
      sent := sent + [NB.Snapshot(heap, id)];
    }
  }
}
