// packet_io's fan-out (packet_io.c): a source offers a buffer to the message
// queue of every sink in its list; each sink that takes it holds one more
// reference, a full queue is counted as a drop only for sinks marked
// drop_on_full. The header packet_io.h in the same tree declares different
// structures (no drop_on_full, other counter names); the model follows
// packet_io.c. Puts are modelled as succeeding exactly when the queue has
// room, which is K_NO_WAIT and a timeout that has run out; waiting for room
// is not modelled.
module PacketIo {
  import opened Wrappers
  import NB = NetBuf

  type BufId = NB.BufId

  /** A sink's message queue of buffer pointers, its drop policy and its two counters. */
  datatype SinkQueue = SinkQueue(items: seq<BufId>, capacity: nat, dropOnFull: bool, received: nat, dropped: nat)

  /** The buffers and every sink, indexed by the sink's number. */
  datatype IoState = IoState(heap: NB.Heap, sinks: seq<SinkQueue>)

  predicate Good(st: IoState) {
    NB.Valid(st.heap) && forall k :: 0 <= k < |st.sinks| ==> |st.sinks[k].items| <= st.sinks[k].capacity
  }

  /** Every connection of the list leads to a sink of the state. */
  predicate Wired(st: IoState, conns: seq<nat>) {
    forall i :: 0 <= i < |conns| ==> conns[i] < |st.sinks|
  }

  /** The same sinks, with the same capacities and policies. */
  predicate SameSinks(a: seq<SinkQueue>, b: seq<SinkQueue>) {
    |a| == |b| && forall k :: 0 <= k < |a| ==> a[k].capacity == b[k].capacity && a[k].dropOnFull == b[k].dropOnFull
  }

  function TotalReceived(s: seq<SinkQueue>): nat {
    if |s| == 0 then 0 else s[0].received + TotalReceived(s[1..])
  }

  function TotalDropped(s: seq<SinkQueue>): nat {
    if |s| == 0 then 0 else s[0].dropped + TotalDropped(s[1..])
  }

  function TotalQueued(s: seq<SinkQueue>): nat {
    if |s| == 0 then 0 else |s[0].items| + TotalQueued(s[1..])
  }

  /**
   * One sink of the loop: a put into a queue with room enqueues the pointer,
   * takes a reference and counts a reception; a full queue counts a drop if
   * the sink drops on full, and changes nothing otherwise.
   */
  function Offer(st: IoState, k: nat, b: BufId): (r: (bool, IoState))
    requires Good(st) && k < |st.sinks| && b in st.heap.bufs
    ensures Good(r.1) && SameSinks(st.sinks, r.1.sinks) && b in r.1.heap.bufs
  {
    var q := st.sinks[k];
    if |q.items| < q.capacity then
      (true, IoState(NB.Ref(st.heap, b), st.sinks[k := q.(items := q.items + [b], received := q.received + 1)]))
    else if q.dropOnFull then
      (false, st.(sinks := st.sinks[k := q.(dropped := q.dropped + 1)]))
    else (false, st)
  }

  /** The loop of packet_source_send over the source's list, with the number of successful puts. */
  function SendLoop(st: IoState, conns: seq<nat>, b: BufId): (r: (nat, IoState))
    requires Good(st) && Wired(st, conns) && b in st.heap.bufs
    ensures Good(r.1) && SameSinks(st.sinks, r.1.sinks) && b in r.1.heap.bufs && r.0 <= |conns|
    decreases |conns|
  {
    if |conns| == 0 then (0, st)
    else
      var o := Offer(st, conns[0], b);
      var rest := SendLoop(o.1, conns[1..], b);
      (rest.0 + (if o.0 then 1 else 0), rest.1)
  }

  /**
   * packet_source_send on a source with list `conns` (None for a NULL
   * source): 0 with nothing changed for a missing source or buffer or an
   * empty list, otherwise the number of sinks that took the buffer.
   */
  function Send(st: IoState, conns: Option<seq<nat>>, buf: Option<BufId>): (r: (nat, IoState))
    requires Good(st) && (conns.Some? ==> Wired(st, conns.value)) && (buf.Some? ==> buf.value in st.heap.bufs)
    ensures Good(r.1) && (buf.Some? ==> buf.value in r.1.heap.bufs)
  {
    if conns.None? || buf.None? || |conns.value| == 0 then (0, st)
    else SendLoop(st, conns.value, buf.value)
  }

  /** packet_source_send_consume: the same count, and the caller's reference released when there is a buffer. */
  function SendConsume(st: IoState, conns: Option<seq<nat>>, buf: Option<BufId>): (r: (nat, IoState))
    requires Good(st) && (conns.Some? ==> Wired(st, conns.value)) && (buf.Some? ==> buf.value in st.heap.bufs)
  {
    var (n, st1) := Send(st, conns, buf);
    if buf.None? then (n, st1) else (n, st1.(heap := NB.Unref(st1.heap, buf.value)))
  }

  // ---- Properties ----

  lemma {:induction false} TotalsUpdate(s: seq<SinkQueue>, k: nat, v: SinkQueue)
    requires k < |s|
    ensures TotalReceived(s[k := v]) == TotalReceived(s) - s[k].received + v.received
    ensures TotalDropped(s[k := v]) == TotalDropped(s) - s[k].dropped + v.dropped
    ensures TotalQueued(s[k := v]) == TotalQueued(s) - |s[k].items| + |v.items|
  {
    if k > 0 {
      assert s[k := v][1..] == s[1..][k - 1 := v];
      TotalsUpdate(s[1..], k - 1, v);
    } else {
      assert s[k := v][1..] == s[1..];
    }
  }

  /** The three outcomes of offering the buffer to one sink. */
  lemma OfferCases(st: IoState, k: nat, b: BufId)
    requires Good(st) && k < |st.sinks| && b in st.heap.bufs
    ensures var q := st.sinks[k];
      var r := Offer(st, k, b);
      (r.0 <==> |q.items| < q.capacity)
      && (r.0 ==> (r.1.heap == NB.Ref(st.heap, b) && r.1.sinks[k].items == q.items + [b]
                 && r.1.sinks[k].received == q.received + 1 && r.1.sinks[k].dropped == q.dropped))
      && (!r.0 && q.dropOnFull ==> r.1.heap == st.heap && r.1.sinks[k] == q.(dropped := q.dropped + 1))
      && (!r.0 && !q.dropOnFull ==> r.1 == st)
      && forall j :: 0 <= j < |st.sinks| && j != k ==> r.1.sinks[j] == st.sinks[j]
  {
  }

  /**
   * Going from `st` to `st2`, `n` puts succeeded: as many receptions are
   * counted and as many pointers queued, the buffer gains exactly that many
   * references and no other buffer changes, and at most `bound` puts and
   * drops happened together.
   */
  ghost predicate Accounts(st: IoState, n: nat, st2: IoState, b: BufId, bound: nat)
    requires b in st.heap.bufs
  {
    TotalReceived(st2.sinks) == TotalReceived(st.sinks) + n
    && TotalQueued(st2.sinks) == TotalQueued(st.sinks) + n
    && TotalDropped(st.sinks) <= TotalDropped(st2.sinks)
    && n + (TotalDropped(st2.sinks) - TotalDropped(st.sinks)) <= bound
    && st2.heap == NB.Bump(st.heap, b, n)
  }

  lemma AccountsCombine(st: IoState, st1: IoState, st2: IoState, k: nat, n: nat, b: BufId, bound: nat)
    requires b in st.heap.bufs && b in st1.heap.bufs
    requires Accounts(st, k, st1, b, 1) && Accounts(st1, n, st2, b, bound)
    ensures Accounts(st, n + k, st2, b, bound + 1)
  {
    NB.BumpAdd(st.heap, b, k, n);
  }

  /** One offer is at most one put or one drop, accounted for. */
  lemma OfferAccounts(st: IoState, k: nat, b: BufId)
    requires Good(st) && k < |st.sinks| && b in st.heap.bufs
    ensures var o := Offer(st, k, b); Accounts(st, if o.0 then 1 else 0, o.1, b, 1)
  {
    var q := st.sinks[k];
    if |q.items| < q.capacity {
      TotalsUpdate(st.sinks, k, q.(items := q.items + [b], received := q.received + 1));
    } else if q.dropOnFull {
      TotalsUpdate(st.sinks, k, q.(dropped := q.dropped + 1));
    }
    NB.BumpAdd(st.heap, b, 0, 0);
  }

  /**
   * The send loop's result is the number of successful puts: as many
   * receptions are counted and as many pointers queued, the buffer gains
   * exactly that many references and no other buffer changes, and drops are
   * counted apart from it.
   */
  lemma {:induction false} SendLoopAccounts(st: IoState, conns: seq<nat>, b: BufId)
    requires Good(st) && Wired(st, conns) && b in st.heap.bufs
    ensures Accounts(st, SendLoop(st, conns, b).0, SendLoop(st, conns, b).1, b, |conns|)
    decreases |conns|
  {
    if |conns| == 0 {
      NB.BumpAdd(st.heap, b, 0, 0);
    } else {
      var o := Offer(st, conns[0], b);
      OfferAccounts(st, conns[0], b);
      SendLoopUnfold(st, conns, b);
      SendLoopAccounts(o.1, conns[1..], b);
      var rest := SendLoop(o.1, conns[1..], b);
      var k := if o.0 then 1 else 0;
      AccountsCombine(st, o.1, rest.1, k, rest.0, b, |conns| - 1);
      assert SendLoop(st, conns, b) == (rest.0 + k, rest.1);
    }
  }

  /** Every queue of `st2` is the same queue of `st` with only `b` appended to it. */
  ghost predicate Appends(st: IoState, st2: IoState, b: BufId) {
    |st.sinks| <= |st2.sinks|
    && forall k :: 0 <= k < |st.sinks| ==>
      |st.sinks[k].items| <= |st2.sinks[k].items| && st2.sinks[k].items[..|st.sinks[k].items|] == st.sinks[k].items
      && forall i :: |st.sinks[k].items| <= i < |st2.sinks[k].items| ==> st2.sinks[k].items[i] == b
  }

  lemma OfferAppends(st: IoState, k: nat, b: BufId)
    requires Good(st) && k < |st.sinks| && b in st.heap.bufs
    ensures Appends(st, Offer(st, k, b).1, b)
  {
    OfferCases(st, k, b);
    var r := Offer(st, k, b).1;
    forall j | 0 <= j < |st.sinks|
      ensures r.sinks[j].items[..|st.sinks[j].items|] == st.sinks[j].items
    {
      if j == k && r.sinks[j].items != st.sinks[j].items {
        assert r.sinks[j].items == st.sinks[j].items + [b];
      }
    }
  }

  lemma AppendsTrans(st: IoState, st1: IoState, st2: IoState, b: BufId)
    requires Appends(st, st1, b) && Appends(st1, st2, b)
    ensures Appends(st, st2, b)
  {
    forall k | 0 <= k < |st.sinks|
      ensures |st.sinks[k].items| <= |st2.sinks[k].items|
        && st2.sinks[k].items[..|st.sinks[k].items|] == st.sinks[k].items
        && forall i :: |st.sinks[k].items| <= i < |st2.sinks[k].items| ==> st2.sinks[k].items[i] == b
    {
      var a := st.sinks[k].items;
      var m := st1.sinks[k].items;
      var z := st2.sinks[k].items;
      assert z[..|a|] == z[..|m|][..|a|];
    }
  }

  /** Each sink's queue is first in, first out: a send only appends to the tail of every queue. */
  lemma {:induction false} SendLoopAppends(st: IoState, conns: seq<nat>, b: BufId)
    requires Good(st) && Wired(st, conns) && b in st.heap.bufs
    ensures Appends(st, SendLoop(st, conns, b).1, b)
    decreases |conns|
  {
    if |conns| == 0 {
      assert forall k :: 0 <= k < |st.sinks| ==> st.sinks[k].items[..|st.sinks[k].items|] == st.sinks[k].items;
    } else {
      var o := Offer(st, conns[0], b);
      OfferAppends(st, conns[0], b);
      SendLoopUnfold(st, conns, b);
      SendLoopAppends(o.1, conns[1..], b);
      AppendsTrans(st, o.1, SendLoop(o.1, conns[1..], b).1, b);
    }
  }

  /** One step of the loop. */
  lemma SendLoopUnfold(st: IoState, conns: seq<nat>, b: BufId)
    requires Good(st) && Wired(st, conns) && b in st.heap.bufs && |conns| > 0
    ensures var o := Offer(st, conns[0], b);
      Wired(o.1, conns[1..])
      && SendLoop(st, conns, b).0 == SendLoop(o.1, conns[1..], b).0 + (if o.0 then 1 else 0)
      && SendLoop(st, conns, b).1 == SendLoop(o.1, conns[1..], b).1
  {
  }

  /** A missing source or buffer, or a source with no sinks, gives 0 and changes nothing. */
  lemma SendNothing(st: IoState, conns: Option<seq<nat>>, buf: Option<BufId>)
    requires Good(st) && (conns.Some? ==> Wired(st, conns.value)) && (buf.Some? ==> buf.value in st.heap.bufs)
    requires conns.None? || buf.None? || |conns.value| == 0
    ensures Send(st, conns, buf) == (0, st)
  {
  }

  /** The plain send adds one reference per sink that took the buffer. */
  lemma SendAddsRefs(st: IoState, conns: Option<seq<nat>>, b: BufId)
    requires Good(st) && (conns.Some? ==> Wired(st, conns.value)) && b in st.heap.bufs
    ensures var s := Send(st, conns, Some(b)); s.1.heap == NB.Bump(st.heap, b, s.0)
  {
    if conns.Some? && |conns.value| > 0 {
      SendLoopAccounts(st, conns.value, b);
    } else {
      NB.BumpAdd(st.heap, b, 0, 0);
    }
  }

  /**
   * packet_source_send_consume returns what packet_source_send returns and
   * releases the caller's reference: the buffer ends with one reference per
   * sink that took it besides the ones it already had, less the caller's, and
   * a buffer no sink took whose only reference was the caller's is freed.
   */
  lemma SendConsumeReleases(st: IoState, conns: Option<seq<nat>>, buf: Option<BufId>)
    requires Good(st) && (conns.Some? ==> Wired(st, conns.value)) && (buf.Some? ==> buf.value in st.heap.bufs)
    ensures var s := Send(st, conns, buf);
      var c := SendConsume(st, conns, buf);
      c.0 == s.0 && c.1.sinks == s.1.sinks
      && (buf.None? ==> c.1 == st)
      && (buf.Some? && st.heap.bufs[buf.value].ref + c.0 > 1 ==>
            buf.value in c.1.heap.bufs && c.1.heap.bufs[buf.value].ref == st.heap.bufs[buf.value].ref + c.0 - 1)
      && (buf.Some? && st.heap.bufs[buf.value].ref == 1 && c.0 == 0 ==> buf.value !in c.1.heap.bufs)
  {
    if buf.Some? {
      var b := buf.value;
      SendAddsRefs(st, conns, b);
      var s := Send(st, conns, buf);
      if s.1.heap.bufs[b].ref > 1 {
        NB.UnrefShared(s.1.heap, b);
      }
    }
  }

  // ---- The engine in place ----

  /** struct packet_source: its list of sinks and its two counters. */
  class PacketSource {
    var sinks: seq<nat>
    var msgCount: nat
    var deliveredCount: nat

    constructor (sinks: seq<nat>)
      ensures this.sinks == sinks && msgCount == 0 && deliveredCount == 0
    {
      this.sinks := sinks;
      msgCount := 0;
      deliveredCount := 0;
    }

    /** packet_source_get_stats. */
    method GetStats() returns (msgs: nat, delivered: nat)
      ensures msgs == msgCount && delivered == deliveredCount
    {
      return msgCount, deliveredCount;
    }

    /** packet_source_reset_stats. */
    method ResetStats()
      modifies this
      ensures msgCount == 0 && deliveredCount == 0 && sinks == old(sinks)
    {
      msgCount, deliveredCount := 0, 0;
    }
  }

  class PacketIoEngine {
    var st: IoState

    constructor (sinks: seq<SinkQueue>)
      requires forall k :: 0 <= k < |sinks| ==> |sinks[k].items| <= sinks[k].capacity
      ensures st == IoState(NB.Heap(map[], 0, false), sinks) && Good(st)
    {
      st := IoState(NB.Heap(map[], 0, false), sinks);
    }

    method SourceSend(src: PacketSource?, buf: Option<BufId>) returns (ret: nat)
      requires Good(st) && (src != null ==> Wired(st, src.sinks)) && (buf.Some? ==> buf.value in st.heap.bufs)
      modifies this, src
      ensures Good(st)
      ensures src == null ==> ret == 0 && st == old(st)
      ensures src != null ==> ret == Send(old(st), Some(old(src.sinks)), buf).0
      ensures src != null ==> st == Send(old(st), Some(old(src.sinks)), buf).1 && src.sinks == old(src.sinks)
      ensures src != null && buf.None? ==> src.msgCount == old(src.msgCount) && src.deliveredCount == old(src.deliveredCount)
      ensures src != null && buf.Some? ==> (src.msgCount == old(src.msgCount) + 1
        && src.deliveredCount == old(src.deliveredCount) + ret)
    {
      if src == null || buf.None? {
        return 0;
      }
      src.msgCount := src.msgCount + 1;
      if |src.sinks| == 0 {
        return 0;
      }
      var b := buf.value;
      var conns := src.sinks;
      ghost var start := st;
      var delivered := 0;
      var i := 0;
      while i < |conns|
        invariant 0 <= i <= |conns|
        invariant Good(st) && b in st.heap.bufs && Wired(st, conns)
        invariant SendLoop(start, conns, b).0 == delivered + SendLoop(st, conns[i..], b).0
        invariant SendLoop(start, conns, b).1 == SendLoop(st, conns[i..], b).1
        invariant src.sinks == conns && src.msgCount == old(src.msgCount) + 1
        invariant src.deliveredCount == old(src.deliveredCount)
        decreases |conns| - i
      {
        assert conns[i..][1..] == conns[i + 1..] && conns[i..][0] == conns[i];
        SendLoopUnfold(st, conns[i..], b);
        var took := Put(conns[i], b);
        if took {
          delivered := delivered + 1;
        }
        i := i + 1;
      }
      assert conns[i..] == [];
      src.deliveredCount := src.deliveredCount + delivered;
      return delivered;
    }

    /**
     * The k_msgq_put of one pointer to sink `k`'s queue with K_NO_WAIT:
     * appended and counted with one more reference on the buffer when there
     * is room, otherwise a drop counted when the sink drops on full.
     */
    method Put(k: nat, b: BufId) returns (took: bool)
      requires Good(st) && k < |st.sinks| && b in st.heap.bufs
      modifies this
      ensures took == Offer(old(st), k, b).0 && st == Offer(old(st), k, b).1
    {
      var q := st.sinks[k];
      took := |q.items| < q.capacity;
      if took {
        st := IoState(NB.Ref(st.heap, b), st.sinks[k := q.(items := q.items + [b], received := q.received + 1)]);
      } else if q.dropOnFull {
        st := st.(sinks := st.sinks[k := q.(dropped := q.dropped + 1)]);
      }
    }

    method SourceSendConsume(src: PacketSource?, buf: Option<BufId>) returns (ret: nat)
      requires Good(st) && (src != null ==> Wired(st, src.sinks)) && (buf.Some? ==> buf.value in st.heap.bufs)
      modifies this, src
      ensures src == null ==> ret == SendConsume(old(st), None, buf).0 && st == SendConsume(old(st), None, buf).1
      ensures src != null ==> ret == SendConsume(old(st), Some(old(src.sinks)), buf).0
      ensures src != null ==> st == SendConsume(old(st), Some(old(src.sinks)), buf).1 && src.sinks == old(src.sinks)
    {
      ret := SourceSend(src, buf);
      if buf.Some? {
        st := st.(heap := NB.Unref(st.heap, buf.value));
      }
    }
  }
}
