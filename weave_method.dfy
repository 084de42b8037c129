// Weave method calls (libs/weave/src/method.c): a method is a sink whose
// handler, weave_method_dispatch, runs the user's handler on a call context
// {request, response, result, completion}. A synchronous call builds the
// context on the caller's stack and returns the handler's result; an
// asynchronous call fills a context the caller owns, and weave_method_wait
// later collects the result once the completion semaphore has been given.
//
// The user's handler is a function of the request and response pointers;
// what it writes through the response pointer is not modelled. A method
// sink in queued mode hands the context to the thread that drains its
// queue: `pending` holds those contexts, and ProcessNext stands for that
// thread handling the oldest one. Waits use K_NO_WAIT.
module WeaveMethod {
  import opened Wrappers
  import opened Errno

  /** A handler's view of a call: the request and response pointers (None for NULL). */
  type Handler = (Option<nat>, Option<nat>) -> int

  /**
   * struct weave_method: the expected request and response sizes, whether
   * its sink has a queue, and the user's handler.
   */
  datatype Method = Method(requestSize: nat, responseSize: nat, queued: bool, handler: Handler)

  /** One run of a user handler. */
  datatype Call = Call(request: Option<nat>, response: Option<nat>)

  /** struct weave_method_context, the completion semaphore (limit 1) as its count. */
  datatype Ctx = Ctx(request: Option<nat>, response: Option<nat>, result: int, completion: nat)

  /** k_sem_give on a semaphore with limit 1. */
  function Give(count: nat): (r: nat)
    ensures r > 0 && (count <= 1 ==> r == 1)
  {
    if count < 1 then count + 1 else count
  }

  /** The size checks: an expected size of 0 accepts anything, NULL with 0 included. */
  predicate SizesOk(m: Method, requestSize: nat, responseSize: nat) {
    (m.requestSize == 0 || requestSize >= m.requestSize)
    && (m.responseSize == 0 || responseSize >= m.responseSize)
  }

  /** weave_method_call_unchecked's result: -EINVAL for a NULL method or a short size, else the handler's result. */
  function CallResult(m: Option<Method>, request: Option<nat>, requestSize: nat,
                      response: Option<nat>, responseSize: nat): (r: int)
  {
    if m.None? then -EINVAL
    else if !SizesOk(m.value, requestSize, responseSize) then -EINVAL
    else m.value.handler(request, response)
  }

  /** The context weave_method_call_async sets up: the pointers, result 0, no completion yet. */
  function AsyncInit(request: Option<nat>, response: Option<nat>): (c: Ctx)
    ensures c.completion == 0 && c.result == 0
  {
    Ctx(request, response, 0, 0)
  }

  /** weave_method_dispatch on a live context: the result is the handler's, or -EINVAL without a method, and completion is given. */
  function DispatchCtx(m: Option<Method>, c: Ctx): (r: Ctx)
    ensures r.request == c.request && r.response == c.response && r.completion > 0
  {
    var result := if m.None? then -EINVAL else m.value.handler(c.request, c.response);
    c.(result := result, completion := Give(c.completion))
  }

  /** weave_method_wait with K_NO_WAIT on a live context: -EAGAIN until completion, then the result, taking the semaphore. */
  function WaitCtx(c: Ctx): (r: (int, Ctx))
    ensures r.1.request == c.request && r.1.response == c.response && r.1.result == c.result
  {
    if c.completion == 0 then (-EAGAIN, c) else (c.result, c.(completion := c.completion - 1))
  }

  // ---- Properties ----

  /**
   * The size checks accept any size at least the expected one, and
   * anything at all when the expected size is 0; a size below a non-zero
   * expectation is refused.
   */
  lemma SizeRules(m: Method, requestSize: nat, responseSize: nat)
    ensures SizesOk(m, requestSize, responseSize)
            <==> (requestSize >= m.requestSize || m.requestSize == 0)
                 && (responseSize >= m.responseSize || m.responseSize == 0)
    ensures SizesOk(m, m.requestSize, m.responseSize)
    ensures m.requestSize == 0 && m.responseSize == 0 ==> SizesOk(m, 0, 0)
    ensures 0 < m.requestSize && requestSize < m.requestSize ==> CallResult(Some(m), None, requestSize, None, responseSize) == -EINVAL
  {
  }

  /** A call that passes the checks returns exactly what the handler returns. */
  lemma AcceptedCallReturnsHandler(m: Method, request: Option<nat>, requestSize: nat,
                                   response: Option<nat>, responseSize: nat)
    requires SizesOk(m, requestSize, responseSize)
    ensures CallResult(Some(m), request, requestSize, response, responseSize) == m.handler(request, response)
  {
  }

  /**
   * The asynchronous round trip: a fresh context is not ready, dispatch
   * makes it ready with the handler's result, the first wait collects that
   * result, and a second wait finds the semaphore taken again.
   */
  lemma AsyncRoundTrip(m: Method, request: Option<nat>, response: Option<nat>)
    ensures var c0 := AsyncInit(request, response);
      var c1 := DispatchCtx(Some(m), c0);
      var w1 := WaitCtx(c1);
      WaitCtx(c0).0 == -EAGAIN
      && w1.0 == m.handler(request, response)
      && WaitCtx(w1.1).0 == -EAGAIN
  {
  }

  /** Dispatch without a method still completes the call, with -EINVAL. */
  lemma DispatchWithoutMethod(c: Ctx)
    ensures WaitCtx(DispatchCtx(None, c)).0 == -EINVAL
  {
  }

  // ---- The calls in place ----

  /** A caller-owned struct weave_method_context. */
  class Context {
    var request: Option<nat>
    var response: Option<nat>
    var result: int
    var completion: nat

    constructor ()
      ensures Value() == Ctx(None, None, 0, 0)
    {
      request, response, result, completion := None, None, 0, 0;
    }

    function Value(): Ctx
      reads this
    {
      Ctx(request, response, result, completion)
    }
  }

  /** The handler runs so far, and the contexts waiting in queued method sinks, oldest first. */
  class Runtime {
    var calls: seq<Call>
    var pending: seq<(Method, Context)>

    constructor ()
      ensures calls == [] && pending == []
    {
      calls, pending := [], [];
    }

    /** weave_method_dispatch(ctx, method); a NULL context is ignored. */
    method Dispatch(m: Option<Method>, ctx: Context?)
      modifies this`calls, ctx
      ensures ctx == null ==> calls == old(calls)
      ensures ctx != null ==> ctx.Value() == DispatchCtx(m, old(ctx.Value()))
      ensures ctx != null && m.Some? ==> calls == old(calls) + [Call(old(ctx.request), old(ctx.response))]
      ensures ctx != null && m.None? ==> calls == old(calls)
    {
      if ctx == null {
        return;
      }
      if m.None? {
        ctx.result := -EINVAL;
        ctx.completion := Give(ctx.completion);
        return;
      }
      ctx.result := m.value.handler(ctx.request, ctx.response);
      calls := calls + [Call(ctx.request, ctx.response)];
      ctx.completion := Give(ctx.completion);
    }

    /**
     * weave_method_call_unchecked. The context lives on the caller's stack;
     * a queued method's call returns once its queue's thread has
     * dispatched it, so either way the handler has run exactly once.
     */
    method CallUnchecked(m: Option<Method>, request: Option<nat>, requestSize: nat,
                         response: Option<nat>, responseSize: nat) returns (ret: int)
      modifies this`calls
      ensures ret == CallResult(m, request, requestSize, response, responseSize)
      ensures m.None? || !SizesOk(m.value, requestSize, responseSize) ==> calls == old(calls)
      ensures m.Some? && SizesOk(m.value, requestSize, responseSize) ==> calls == old(calls) + [Call(request, response)]
    {
      if m.None? {
        return -EINVAL;
      }
      if m.value.requestSize > 0 && requestSize < m.value.requestSize {
        return -EINVAL;
      }
      if m.value.responseSize > 0 && responseSize < m.value.responseSize {
        return -EINVAL;
      }
      var ctx := new Context();
      ctx.request, ctx.response, ctx.result := request, response, 0;
      Dispatch(m, ctx);
      ret := ctx.result;
    }

    /**
     * weave_method_call_async: after the checks, the caller's context is
     * filled and sent to the method's sink, which dispatches it at once or
     * puts it in its queue.
     */
    method CallAsync(m: Option<Method>, request: Option<nat>, requestSize: nat,
                     response: Option<nat>, responseSize: nat, ctx: Context?) returns (ret: int)
      modifies this, ctx
      ensures ret == 0 || ret == -EINVAL
      ensures ret == -EINVAL <==> m.None? || ctx == null || !SizesOk(m.value, requestSize, responseSize)
      ensures ret != 0 ==> calls == old(calls) && pending == old(pending) && (ctx != null ==> ctx.Value() == old(ctx.Value()))
      ensures ret == 0 && !m.value.queued ==>
        ctx.Value() == DispatchCtx(m, AsyncInit(request, response))
        && calls == old(calls) + [Call(request, response)] && pending == old(pending)
      ensures ret == 0 && m.value.queued ==>
        ctx.Value() == AsyncInit(request, response)
        && calls == old(calls) && pending == old(pending) + [(m.value, ctx)]
    {
      if m.None? || ctx == null {
        return -EINVAL;
      }
      if m.value.requestSize > 0 && requestSize < m.value.requestSize {
        return -EINVAL;
      }
      if m.value.responseSize > 0 && responseSize < m.value.responseSize {
        return -EINVAL;
      }
      ctx.request, ctx.response, ctx.result, ctx.completion := request, response, 0, 0;
      if m.value.queued {
        pending := pending + [(m.value, ctx)];
      } else {
        Dispatch(m, ctx);
      }
      ret := 0;
    }

    /** The queue's thread taking the oldest waiting call and dispatching it. */
    method ProcessNext() returns (done: bool)
      modifies this, (if |pending| > 0 then {pending[0].1} else {})
      ensures done <==> |old(pending)| > 0
      ensures !done ==> calls == old(calls) && pending == old(pending)
      ensures done ==>
        var (m, ctx) := old(pending[0]);
        pending == old(pending[1..])
        && ctx.Value() == DispatchCtx(Some(m), old(ctx.Value()))
        && calls == old(calls) + [Call(old(ctx.request), old(ctx.response))]
    {
      if |pending| == 0 {
        return false;
      }
      var (m, ctx) := pending[0];
      pending := pending[1..];
      Dispatch(Some(m), ctx);
      done := true;
    }
  }

  /** weave_method_wait(ctx, K_NO_WAIT). */
  method Wait(ctx: Context?) returns (ret: int)
    modifies ctx
    ensures ctx == null ==> ret == -EINVAL
    ensures ctx != null ==> (ret, ctx.Value()) == WaitCtx(old(ctx.Value()))
  {
    if ctx == null {
      return -EINVAL;
    }
    if ctx.completion == 0 {
      return -EAGAIN;
    }
    ctx.completion := ctx.completion - 1;
    ret := ctx.result;
  }
}
