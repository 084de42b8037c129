// The route table of the packet router framework (packet_router.c): a
// router keeps an inbound list (packet id to application sink) and an
// outbound list (application source to packet id), filled at start-up from
// the routes registered for it, searched front to back, plus five
// statistics counters. The spinlocks around the lists are not modelled.
module PacketRouter {
  import opened Wrappers

  /**
   * A route registration: the router it belongs to, its packet id, and its
   * application endpoint (the sink of an inbound route, the source of an
   * outbound one). Routers and endpoints are named by their addresses.
   */
  datatype Route = Route(router: nat, packetId: nat, endpoint: nat)

  /** What a search compares: a route's packet id, or an outbound route's source. */
  datatype Key = ById(id: nat) | BySource(source: nat)

  predicate Matches(r: Route, key: Key) {
    match key
    case ById(id) => r.packetId == id
    case BySource(s) => r.endpoint == s
  }

  /** The router's counters, as router_get_stats copies them out. */
  datatype Stats = Stats(inbound: nat, outbound: nat, unknownIds: nat, parseErrors: nat, bufferErrors: nat)

  const ZERO_STATS := Stats(0, 0, 0, 0, 0)

  /** A call of a router's protocol handler: router, handler, buffer and packet id. */
  datatype Dispatch = Dispatch(router: nat, handler: nat, buf: nat, packetId: nat)

  /** The position of the first route matching `key`, in list order; None when no route matches. */
  function First(routes: seq<Route>, key: Key): (r: Option<nat>)
    ensures r.None? <==> forall i :: 0 <= i < |routes| ==> !Matches(routes[i], key)
    ensures r.Some? ==> (r.value < |routes| && Matches(routes[r.value], key)
      && forall j :: 0 <= j < r.value ==> !Matches(routes[j], key))
  {
    if |routes| == 0 then None
    else if Matches(routes[0], key) then Some(0)
    else
      match First(routes[1..], key)
      case None =>
        assert forall i :: 1 <= i < |routes| ==> routes[i] == routes[1..][i - 1];
        None
      case Some(k) => Some(k + 1)
  }

  /** The registrations of the section that belong to `router`, in section order. */
  function Select(section: seq<Route>, router: nat): (r: seq<Route>)
    ensures |r| <= |section|
    ensures forall x :: x in r <==> x in section && x.router == router
  {
    if |section| == 0 then []
    else if section[0].router == router then [section[0]] + Select(section[1..], router)
    else Select(section[1..], router)
  }

  /** Selecting from two stretches of a section one after the other gives the two selections in that order. */
  lemma {:induction false} SelectAppend(a: seq<Route>, b: seq<Route>, router: nat)
    ensures Select(a + b, router) == Select(a, router) + Select(b, router)
  {
    if |a| == 0 {
      assert a + b == b;
    } else {
      assert (a + b)[1..] == a[1..] + b;
      SelectAppend(a[1..], b, router);
    }
  }

  /** A section all of whose routes belong to the router is taken whole. */
  lemma {:induction false} SelectAll(section: seq<Route>, router: nat)
    requires forall i :: 0 <= i < |section| ==> section[i].router == router
    ensures Select(section, router) == section
  {
    if |section| > 0 {
      var rest := section[1..];
      forall i | 0 <= i < |rest|
        ensures rest[i].router == router
      {
        assert rest[i] == section[i + 1];
      }
      SelectAll(rest, router);
      assert section == [section[0]] + rest;
    }
  }

  /** A section without any of the router's routes adds nothing. */
  lemma {:induction false} SelectNone(section: seq<Route>, router: nat)
    requires forall i :: 0 <= i < |section| ==> section[i].router != router
    ensures Select(section, router) == []
  {
    if |section| > 0 {
      var rest := section[1..];
      forall i | 0 <= i < |rest|
        ensures rest[i].router != router
      {
        assert rest[i] == section[i + 1];
      }
      SelectNone(rest, router);
    }
  }

  /**
   * _router_common_outbound_handler for the handler sink of `route`: the
   * protocol handler of the route's router is called with that router, the
   * buffer and the route's packet id. `handlers` gives every router's
   * outbound_handler.
   */
  function CommonOutbound(handlers: map<nat, nat>, route: Route, buf: nat): (d: Dispatch)
    requires route.router in handlers
    ensures d.router == route.router && d.handler == handlers[route.router]
    ensures d.buf == buf && d.packetId == route.packetId
  {
    Dispatch(route.router, handlers[route.router], buf, route.packetId)
  }

  /** After router_init, every outbound route it registered calls back into that same router's handler. */
  lemma InitRoutesDispatchHome(handlers: map<nat, nat>, section: seq<Route>, router: nat, buf: nat)
    requires router in handlers
    ensures forall i :: 0 <= i < |Select(section, router)| ==>
      CommonOutbound(handlers, Select(section, router)[i], buf).handler == handlers[router]
  {
    var s := Select(section, router);
    forall i | 0 <= i < |s|
      ensures s[i].router == router
    {
      assert s[i] in s;
    }
  }

  /** struct packet_router: its address, its protocol outbound handler, both route lists and its counters. */
  class Router {
    const id: nat
    const handler: nat
    var inbound: seq<Route>
    var outbound: seq<Route>
    var stats: Stats

    constructor (id: nat, handler: nat)
      ensures this.id == id && this.handler == handler
      ensures inbound == [] && outbound == [] && stats == ZERO_STATS
    {
      this.id := id;
      this.handler := handler;
      inbound := [];
      outbound := [];
      stats := ZERO_STATS;
    }

    /** router_find_inbound_route: the first inbound route with that packet id, None for NULL. */
    method FindInbound(packetId: nat) returns (r: Option<nat>)
      ensures r == First(inbound, ById(packetId))
    {
      r := Search(inbound, ById(packetId));
    }

    /** router_find_outbound_route_by_source: the first outbound route for that source. */
    method FindOutboundBySource(source: nat) returns (r: Option<nat>)
      ensures r == First(outbound, BySource(source))
    {
      r := Search(outbound, BySource(source));
    }

    /** The linear scan both searches make. */
    static method Search(routes: seq<Route>, key: Key) returns (r: Option<nat>)
      ensures r == First(routes, key)
    {
      var i := 0;
      while i < |routes|
        invariant 0 <= i <= |routes|
        invariant forall j :: 0 <= j < i ==> !Matches(routes[j], key)
      {
        if Matches(routes[i], key) {
          FirstIsFirst(routes, key, i);
          return Some(i);
        }
        i := i + 1;
      }
      return None;
    }

    /** router_add_inbound_route: append at the tail. */
    method AddInbound(route: Route)
      modifies this
      ensures inbound == old(inbound) + [route]
      ensures outbound == old(outbound) && stats == old(stats)
    {
      inbound := inbound + [route];
    }

    /** router_add_outbound_route: append at the tail. */
    method AddOutbound(route: Route)
      modifies this
      ensures outbound == old(outbound) + [route]
      ensures inbound == old(inbound) && stats == old(stats)
    {
      outbound := outbound + [route];
    }

    /**
     * router_init: scan the inbound and then the outbound section of
     * registered routes and append those that name this router, in section
     * order. It always returns 0.
     */
    method Init(inSection: seq<Route>, outSection: seq<Route>) returns (ret: int)
      modifies this
      ensures ret == 0
      ensures inbound == old(inbound) + Select(inSection, id)
      ensures outbound == old(outbound) + Select(outSection, id)
      ensures stats == old(stats)
    {
      RegisterInbound(inSection);
      RegisterOutbound(outSection);
      return 0;
    }

    /** The inbound half of router_init. */
    method RegisterInbound(section: seq<Route>)
      modifies this
      ensures inbound == old(inbound) + Select(section, id)
      ensures outbound == old(outbound) && stats == old(stats)
    {
      var i := 0;
      while i < |section|
        invariant 0 <= i <= |section|
        invariant inbound == old(inbound) + Select(section[..i], id)
        invariant outbound == old(outbound) && stats == old(stats)
      {
        SelectAppend(section[..i], [section[i]], id);
        assert section[..i + 1] == section[..i] + [section[i]];
        if section[i].router == id {
          AddInbound(section[i]);
        }
        i := i + 1;
      }
      assert section[..i] == section;
    }

    /** The outbound half of router_init. */
    method RegisterOutbound(section: seq<Route>)
      modifies this
      ensures outbound == old(outbound) + Select(section, id)
      ensures inbound == old(inbound) && stats == old(stats)
    {
      var j := 0;
      while j < |section|
        invariant 0 <= j <= |section|
        invariant outbound == old(outbound) + Select(section[..j], id)
        invariant inbound == old(inbound) && stats == old(stats)
      {
        SelectAppend(section[..j], [section[j]], id);
        assert section[..j + 1] == section[..j] + [section[j]];
        if section[j].router == id {
          AddOutbound(section[j]);
        }
        j := j + 1;
      }
      assert section[..j] == section;
    }

    /** router_get_stats. */
    method GetStats() returns (s: Stats)
      ensures s == stats
    {
      s := stats;
    }

    /** router_reset_stats: all five counters back to zero, routes untouched. */
    method ResetStats()
      modifies this
      ensures stats == ZERO_STATS
      ensures inbound == old(inbound) && outbound == old(outbound)
    {
      stats := ZERO_STATS;
    }
  }

  /** A match found at `i` after `i` non-matching routes is the first match. */
  lemma FirstIsFirst(routes: seq<Route>, key: Key, i: nat)
    requires i < |routes| && Matches(routes[i], key)
    requires forall j :: 0 <= j < i ==> !Matches(routes[j], key)
    ensures First(routes, key) == Some(i)
  {
  }
}
