/** Admission of a proxied request: rate limit, then a proxy permit, then a healthy upstream slot. */
module RouteAdmission {
  import opened Common
  import opened Cyclic
  import opened RoundRobin
  import opened ProxyPermits
  import RateLimit
  import HealthState

  /** The matched route: how many upstream slots it has, and its table index unless it is the single-upstream mode. */
  datatype SelectedRoute = SelectedRoute(upstreams: nat, routeIndex: Option<nat>)

  datatype Outcome =
    | RateLimited(retryAfterSeconds: nat)
    | AtCapacity
    | NoHealthyUpstream
    | Admitted(permit: ProxyPermit, upstream: nat)
    | Failed(reason: string)

  /** What one call does to the per-route positions: only an admission moves them, and only its own route's. */
  ghost predicate Moves(next: seq<nat>, call: Call, next': seq<nat>) {
    match call.picked
    case None => next' == next
    case Some(p) =>
      && call.route < |next| && next[call.route] < |call.available|
      && IsFirst(call.available, next[call.route], p)
      && next' == next[call.route := Successor(p, |call.available|)]
  }

  /** A call on a table route: which slots were available to it and which one it was given. */
  datatype Call = Call(route: nat, available: seq<bool>, picked: Option<nat>)

  function Healthy(route: HealthState.Route): (a: seq<bool>)
    ensures |a| == |route.slots|
  {
    seq(|route.slots|, u requires 0 <= u < |route.slots| => route.slots[u].healthy)
  }

  predicate AllDown(route: HealthState.Route) {
    forall u :: 0 <= u < |route.slots| ==> !route.slots[u].healthy
  }

  class RouteProxyAdmission {
    const limits: seq<RateLimit.TokenBucket?>
    const proxies: ProxyAdmissionState
    const health: HealthState.UpstreamHealthState
    var next: seq<nat>

    ghost predicate Valid()
      reads this, limits, proxies, proxies.holders, health
    {
      LimitsValid() && proxies.Valid() && health.Valid() && PositionsValid()
    }

    ghost predicate LimitsValid()
      reads this, limits
    {
      && |limits| == |next|
      && (forall r :: 0 <= r < |limits| && limits[r] != null ==> limits[r].Valid())
      && (forall r, q :: 0 <= r < q < |limits| && limits[r] != null ==> limits[r] != limits[q])
    }

    /** The position of a route stays a slot of that route. */
    ghost predicate PositionsValid()
      reads this, health
    {
      && |next| == |health.routes|
      && (forall r :: 0 <= r < |next| ==> next[r] == 0 || next[r] < |health.routes[r].slots|)
    }

    /** Routes come from the same configuration as the health slots. */
    ghost predicate FromConfiguration(route: SelectedRoute)
      reads this, health
    {
      route.routeIndex.Some? && route.routeIndex.value < |health.routes| ==>
        route.upstreams == |health.routes[route.routeIndex.value].slots|
    }

    constructor (limits: seq<RateLimit.TokenBucket?>, proxies: ProxyAdmissionState, health: HealthState.UpstreamHealthState)
      requires proxies.Valid() && health.Valid() && |limits| == |health.routes|
      requires forall r :: 0 <= r < |limits| && limits[r] != null ==> limits[r].Valid()
      requires forall r, q :: 0 <= r < q < |limits| && limits[r] != null ==> limits[r] != limits[q]
      ensures Valid() && this.limits == limits && this.proxies == proxies && this.health == health
      ensures |next| == |limits| && forall r :: 0 <= r < |next| ==> next[r] == 0
    {
      this.limits, this.proxies, this.health := limits, proxies, health;
      next := seq(|limits|, _ => 0);
    }

    /** The route index, if there is one, is that of a configured route. */
    predicate InTable(route: SelectedRoute)
    {
      route.routeIndex.Some? ==> route.routeIndex.value < |limits|
    }

    /** The request's route has a bucket, and it is empty. */
    ghost predicate Throttled(route: SelectedRoute, now: int64)
      reads this, limits
      requires LimitsValid()
    {
      && route.routeIndex.Some? && route.routeIndex.value < |limits|
      && limits[route.routeIndex.value] != null
      && !limits[route.routeIndex.value].State().Admits(now as int)
    }

    /** `RouteRateLimits::try_acquire`: a route without a bucket is never limited; only its own bucket changes. */
    method Limit(r: nat, now: int64) returns (d: RateLimit.Decision)
      requires LimitsValid() && r < |limits|
      modifies set b | b in limits && b != null
      ensures LimitsValid()
      ensures d.Rejected? <==> limits[r] != null && !old(limits[r].State()).Admits(now as int)
      ensures d.Rejected? ==> d.retryAfterSeconds == 1
      ensures forall q :: 0 <= q < |limits| && limits[q] != null ==>
        limits[q].State() == if q == r then old(limits[q].State()).After(now as int) else old(limits[q].State())
    {
      if limits[r] == null {
        return RateLimit.Allowed;
      }
      d := limits[r].TryAcquire(now);
      if d.Rejected? {
        RateLimit.RetryAfterIsAlwaysOne(limits[r].State(), d.retryAfterSeconds);
      }
    }

    /** The rate limit of the request's route: what already settles the request, if anything does. */
    method LimitRoute(route: SelectedRoute, now: int64) returns (settled: Option<Outcome>)
      requires LimitsValid()
      modifies set b | b in limits && b != null
      ensures LimitsValid()
      ensures settled.Some? && settled.value.RateLimited? <==> old(Throttled(route, now))
      ensures settled.Some? ==> settled.value == RateLimited(1) || settled.value.Failed?
      ensures settled.Some? && settled.value.Failed? <==> route.routeIndex.Some? && route.routeIndex.value >= |limits|
      ensures forall q :: 0 <= q < |limits| && limits[q] != null ==>
        limits[q].State() == if route.routeIndex == Some(q) then old(limits[q].State()).After(now as int) else old(limits[q].State())
    {
      if route.routeIndex.None? {
        return None;
      }
      if route.routeIndex.value >= |limits| {
        return Some(Failed("out of range"));
      }
      var decision := Limit(route.routeIndex.value, now);
      return if decision.Rejected? then Some(RateLimited(decision.retryAfterSeconds)) else None;
    }

    /** The scan for a healthy slot: the first one from the position, or none if all are down. */
    method FindHealthy(r: nat) returns (index: Option<nat>)
      requires r < |next| && r < |health.routes| && next[r] < |health.routes[r].slots|
      ensures index.None? <==> AllDown(health.routes[r])
      ensures index.Some? ==> IsFirst(Healthy(health.routes[r]), next[r], index.value)
    {
      var slots := health.routes[r].slots;
      var n := |slots|;
      var at: nat, visited: nat := next[r], 0;
      while visited < n && !slots[at].healthy
        invariant visited <= n && at < n
        invariant visited < n ==> Distance(next[r], at, n) == visited
        invariant forall u :: 0 <= u < n && Distance(next[r], u, n) < visited ==> !slots[u].healthy
      {
        assert forall u :: 0 <= u < n && Distance(next[r], u, n) == visited ==> u == at;
        at := if at + 1 == n then 0 else at + 1;
        visited := visited + 1;
      }
      if visited == n {
        return None;
      }
      assert Healthy(health.routes[r])[at];
      return Some(at);
    }

    /** Selects a slot of a table route and moves its position past it; the position stays if all are down. */
    method PickSlot(r: nat) returns (index: Option<nat>)
      requires PositionsValid() && r < |next| && 0 < |health.routes[r].slots|
      modifies `next
      ensures PositionsValid() && Moves(old(next), Call(r, Healthy(health.routes[r]), index), next)
      ensures index.None? <==> AllDown(health.routes[r])
      ensures index.Some? ==> index.value < |health.routes[r].slots| && health.routes[r].slots[index.value].healthy
    {
      index := FindHealthy(r);
      if index.Some? {
        var n := |health.routes[r].slots|;
        next := next[r := if index.value == n - 1 then 0 else index.value + 1];
      }
    }

    /** The first slot in single-upstream mode, the next healthy one on a table route. */
    method ChooseSlot(route: SelectedRoute) returns (index: Option<nat>)
      requires PositionsValid() && FromConfiguration(route) && route.upstreams > 0
      requires route.routeIndex.Some? ==> route.routeIndex.value < |next|
      modifies `next
      ensures PositionsValid() && (index.None? ==> next == old(next))
      ensures index.None? <==> route.routeIndex.Some? && AllDown(health.routes[route.routeIndex.value])
      ensures index.Some? ==> index.value < route.upstreams
      ensures index.Some? && route.routeIndex.Some? ==> health.routes[route.routeIndex.value].slots[index.value].healthy
      ensures route.routeIndex.None? ==> index == Some(0) && next == old(next)
      ensures route.routeIndex.Some? ==>
        Moves(old(next), Call(route.routeIndex.value, Healthy(health.routes[route.routeIndex.value]), index), next)
    {
      if route.routeIndex.None? {
        return Some(0);
      }
      index := PickSlot(route.routeIndex.value);
    }

    /** The part after the rate limit: a permit, then a slot; the permit is given back when no slot is found. */
    method AcquireSlot(route: SelectedRoute) returns (outcome: Outcome)
      requires proxies.Valid() && PositionsValid() && FromConfiguration(route)
      requires route.routeIndex.Some? ==> route.routeIndex.value < |next|
      modifies `next, proxies
      ensures proxies.Valid() && PositionsValid() && !outcome.RateLimited?
      ensures outcome.AtCapacity? <==> old(proxies.active) >= proxies.maxProxies
      ensures outcome.Failed? <==> !outcome.AtCapacity? && (route.upstreams == 0 || route.upstreams > 16)
      ensures outcome.NoHealthyUpstream? <==>
        && !outcome.AtCapacity? && !outcome.Failed?
        && route.routeIndex.Some? && AllDown(health.routes[route.routeIndex.value])
      ensures outcome.Admitted? ==> fresh(outcome.permit) && outcome.permit.state == proxies
      ensures proxies.holders == old(proxies.holders) + (if outcome.Admitted? then {outcome.permit} else {})
      ensures outcome.Admitted? ==> outcome.upstream < route.upstreams <= 16
      ensures outcome.Admitted? && route.routeIndex.Some? ==> health.routes[route.routeIndex.value].slots[outcome.upstream].healthy
      ensures outcome.Admitted? && route.routeIndex.None? ==> outcome.upstream == 0 && next == old(next)
      ensures outcome.Admitted? && route.routeIndex.Some? ==>
        Moves(old(next), Call(route.routeIndex.value, Healthy(health.routes[route.routeIndex.value]), Some(outcome.upstream)), next)
      ensures !outcome.Admitted? ==> next == old(next)
    {
      ghost var before := proxies.holders;
      var permit := ProxyPermits.TryAcquire(proxies);
      if permit == null {
        return AtCapacity;
      }
      assert permit !in before;
      if route.upstreams == 0 || route.upstreams > 16 {
        permit.Release();
        assert proxies.holders == before;
        return Failed("route requires 1-16 upstream slots");
      }
      var index := ChooseSlot(route);
      if index.None? {
        permit.Release();
        assert proxies.holders == before;
        return NoHealthyUpstream;
      }
      return Admitted(permit, index.value);
    }

    method TryAcquire(route: SelectedRoute, now: int64) returns (outcome: Outcome)
      requires Valid() && FromConfiguration(route)
      modifies `next, proxies, set b | b in limits && b != null
      ensures Valid()
      // the order of the decisions: rate limit, route index, capacity, route size, health
      ensures outcome.RateLimited? <==> old(Throttled(route, now))
      ensures outcome.AtCapacity? <==>
        !old(Throttled(route, now)) && InTable(route) && old(proxies.active) >= proxies.maxProxies
      ensures outcome.Failed? <==>
        !InTable(route) || (!old(Throttled(route, now)) && !outcome.AtCapacity? && (route.upstreams == 0 || route.upstreams > 16))
      ensures outcome.NoHealthyUpstream? <==>
        && !outcome.RateLimited? && !outcome.AtCapacity? && !outcome.Failed?
        && route.routeIndex.Some? && AllDown(health.routes[route.routeIndex.value])
      ensures outcome.RateLimited? ==> outcome.retryAfterSeconds == 1
      // a token once taken is not refunded, and only the route's own bucket changes
      ensures forall q :: 0 <= q < |limits| && limits[q] != null ==>
        limits[q].State() == if route.routeIndex == Some(q) then old(limits[q].State()).After(now as int) else old(limits[q].State())
      // a permit is kept exactly by an admission
      ensures outcome.Admitted? ==> fresh(outcome.permit) && outcome.permit.state == proxies
      ensures proxies.holders == old(proxies.holders) + (if outcome.Admitted? then {outcome.permit} else {})
      ensures outcome.Admitted? ==> InTable(route) && outcome.upstream < route.upstreams <= 16
      // an admitted table route gets an available slot; without one, none is available
      ensures outcome.Admitted? && route.routeIndex.Some? ==> health.routes[route.routeIndex.value].slots[outcome.upstream].healthy
      ensures outcome.NoHealthyUpstream? ==>
        forall u :: 0 <= u < route.upstreams ==> !health.routes[route.routeIndex.value].slots[u].healthy
      // positions move by admissions only
      ensures outcome.Admitted? && route.routeIndex.None? ==> outcome.upstream == 0 && next == old(next)
      ensures outcome.Admitted? && route.routeIndex.Some? ==>
        Moves(old(next), Call(route.routeIndex.value, Healthy(health.routes[route.routeIndex.value]), Some(outcome.upstream)), next)
      ensures !outcome.Admitted? ==> next == old(next)
    {
      var settled := LimitRoute(route, now);
      if settled.Some? {
        return settled.value;
      }
      outcome := AcquireSlot(route);
    }
  }

  // ----- whole runs, with rejections and other routes in between

  /** `nexts[k]` are the positions before call `k`. */
  ghost predicate Run(nexts: seq<seq<nat>>, calls: seq<Call>) {
    && |nexts| == |calls| + 1
    && forall k :: 0 <= k < |calls| ==> Moves(nexts[k], calls[k], nexts[k + 1])
  }

  predicate Admits(call: Call, r: nat) { call.route == r && call.picked.Some? }

  /** The slots picked on route `r`, in order. */
  function PicksOf(calls: seq<Call>, r: nat): seq<nat> {
    if calls == [] then []
    else
      var last := calls[|calls| - 1];
      PicksOf(calls[..|calls| - 1], r) + (if Admits(last, r) then [last.picked.value] else [])
  }

  /** What was available to each of those admissions. */
  function AvailableTo(calls: seq<Call>, r: nat): seq<seq<bool>> {
    if calls == [] then []
    else
      var last := calls[|calls| - 1];
      AvailableTo(calls[..|calls| - 1], r) + (if Admits(last, r) then [last.available] else [])
  }

  /** The positions of route `r` between its admissions. */
  function PositionsOf(nexts: seq<seq<nat>>, calls: seq<Call>, r: nat): seq<nat>
    requires |nexts| == |calls| + 1 && forall k :: 0 <= k < |nexts| ==> r < |nexts[k]|
  {
    if calls == [] then [nexts[0][r]]
    else
      var last := |calls| - 1;
      PositionsOf(nexts[..|nexts| - 1], calls[..last], r) + (if Admits(calls[last], r) then [nexts[last + 1][r]] else [])
  }

  lemma {:induction false} RunPrefix(nexts: seq<seq<nat>>, calls: seq<Call>, r: nat, n: nat)
    requires Run(nexts, calls) && r < |nexts[0]| && 0 < n && nexts[0][r] < n
    requires forall k :: 0 <= k < |calls| && calls[k].route == r ==> |calls[k].available| == n
    ensures forall k :: 0 <= k < |nexts| ==> r < |nexts[k]| && nexts[k][r] < n
  {
    if calls != [] {
      var last := |calls| - 1;
      var ns, cs := nexts[..|nexts| - 1], calls[..last];
      forall k | 0 <= k < |cs| ensures Moves(ns[k], cs[k], ns[k + 1]) { assert Moves(nexts[k], calls[k], nexts[k + 1]); }
      RunPrefix(ns, cs, r, n);
      assert Moves(nexts[last], calls[last], nexts[last + 1]);
      forall k | 0 <= k < |nexts|
        ensures r < |nexts[k]| && nexts[k][r] < n
      {
        if k < |ns| { assert ns[k] == nexts[k]; } else { assert ns[last] == nexts[last]; }
      }
    }
  }

  /** The admissions of one route form a rotation, whatever rejections and other routes' calls lie between them. */
  lemma {:induction false} RouteAdmissionsRotate(nexts: seq<seq<nat>>, calls: seq<Call>, r: nat, n: nat)
    requires Run(nexts, calls) && r < |nexts[0]| && 0 < n && nexts[0][r] < n
    requires forall k :: 0 <= k < |calls| && calls[k].route == r ==> |calls[k].available| == n
    requires forall k :: 0 <= k < |nexts| ==> r < |nexts[k]| && nexts[k][r] < n
    ensures Rotation(n, AvailableTo(calls, r), PositionsOf(nexts, calls, r), PicksOf(calls, r))
    ensures var p := PositionsOf(nexts, calls, r); p[0] == nexts[0][r] && p[|p| - 1] == nexts[|calls|][r]
  {
    if calls != [] {
      var last := |calls| - 1;
      var ns, cs := nexts[..|nexts| - 1], calls[..last];
      forall k | 0 <= k < |cs| ensures Moves(ns[k], cs[k], ns[k + 1]) { assert Moves(nexts[k], calls[k], nexts[k + 1]); }
      RouteAdmissionsRotate(ns, cs, r, n);
      assert Moves(nexts[last], calls[last], nexts[last + 1]);
      if Admits(calls[last], r) {
        ExtendRotation(n, AvailableTo(cs, r), PositionsOf(ns, cs, r), PicksOf(cs, r), calls[last].available, calls[last].picked.value);
      } else {
        assert AvailableTo(calls, r) == AvailableTo(cs, r) && PicksOf(calls, r) == PicksOf(cs, r);
        assert PositionsOf(nexts, calls, r) == PositionsOf(ns, cs, r);
      }
    }
  }

  lemma ExtendRotation(n: nat, av: seq<seq<bool>>, pos: seq<nat>, picks: seq<nat>, a: seq<bool>, p: nat)
    requires Rotation(n, av, pos, picks) && |a| == n && pos[|picks|] < n && IsFirst(a, pos[|picks|], p)
    ensures Rotation(n, av + [a], pos + [Successor(p, n)], picks + [p])
  {
    var av', pos', picks' := av + [a], pos + [Successor(p, n)], picks + [p];
    forall m | 0 <= m < |picks'|
      ensures HopAt(n, av', pos', picks', m)
    {
      if m < |picks| { assert HopAt(n, av, pos, picks, m); }
    }
  }

  /** Round-robin fairness over a run: k consecutive admissions on a route with k steadily available slots pick each once, in cyclic order. */
  lemma EachAvailableSlotOncePerRound(nexts: seq<seq<nat>>, calls: seq<Call>, r: nat, a: seq<bool>, m: nat)
    requires Run(nexts, calls) && r < |nexts[0]| && nexts[0][r] < |a|
    requires forall k :: 0 <= k < |calls| && calls[k].route == r ==> |calls[k].available| == |a|
    requires 1 <= |Chosen(a)| && m + |Chosen(a)| <= |PicksOf(calls, r)| == |AvailableTo(calls, r)|
    requires forall k :: m <= k < m + |Chosen(a)| ==> AvailableTo(calls, r)[k] == a
    ensures var window := PicksOf(calls, r)[m..m + |Chosen(a)|];
      PickedSet(window) == Chosen(a) && exists c :: InCyclicOrder(c, |a|, window)
  {
    RunPrefix(nexts, calls, r, |a|);
    RouteAdmissionsRotate(nexts, calls, r, |a|);
    RotationVisitsEachOnce(|a|, a, AvailableTo(calls, r), PositionsOf(nexts, calls, r), PicksOf(calls, r), m);
  }

  /** A slot that stays available is picked within n admissions of its route, under arbitrary health of the others. */
  lemma AvailableSlotIsPickedWithinARound(nexts: seq<seq<nat>>, calls: seq<Call>, r: nat, n: nat, i: nat, m: nat)
    requires Run(nexts, calls) && r < |nexts[0]| && nexts[0][r] < n && i < n
    requires forall k :: 0 <= k < |calls| && calls[k].route == r ==> |calls[k].available| == n
    requires m + n <= |PicksOf(calls, r)| == |AvailableTo(calls, r)|
    requires forall k :: m <= k < m + n ==> i < |AvailableTo(calls, r)[k]| && AvailableTo(calls, r)[k][i]
    ensures i in PicksOf(calls, r)[m..m + n]
  {
    RunPrefix(nexts, calls, r, n);
    RouteAdmissionsRotate(nexts, calls, r, n);
    PickedWithinOneRound(n, AvailableTo(calls, r), PositionsOf(nexts, calls, r), PicksOf(calls, r), i, m);
    var k :| m <= k < m + n && PicksOf(calls, r)[k] == i;
    assert PicksOf(calls, r)[m..m + n][k - m] == i;
  }
}
