/** Upstream health: threshold counters that summarise an unbounded history of probe results. */
module HealthState {
  import opened Common

  /** Configuration admits thresholds from 1 to 10. */
  datatype Thresholds = Thresholds(unhealthy: uint32, healthy: uint32) {
    predicate Valid() { 1 <= unhealthy <= 10 && 1 <= healthy <= 10 }
  }

  datatype Transition = Unchanged | Unhealthy | Healthy

  datatype Slot = Slot(healthy: bool, failures: uint32, successes: uint32)

  datatype Route = Route(config: Option<Thresholds>, slots: seq<Slot>)

  const FRESH_SLOT := Slot(true, 0, 0)

  // ----- reference: what a history of results means

  /** Length of the longest run of `value` that ends the history. */
  function TrailingRun(history: seq<bool>, value: bool): (n: nat)
    ensures n <= |history|
  {
    if history == [] || history[|history| - 1] != value then 0
    else 1 + TrailingRun(history[..|history| - 1], value)
  }

  /** The history ends in a run that has reached its threshold. */
  predicate Decisive(t: Thresholds, history: seq<bool>) {
    TrailingRun(history, true) >= t.healthy as int || TrailingRun(history, false) >= t.unhealthy as int
  }

  /** The most recent decisive prefix settles availability; with none, the upstream is available. */
  function Available(t: Thresholds, history: seq<bool>): bool {
    if history == [] then true
    else if Decisive(t, history) then history[|history| - 1]
    else Available(t, history[..|history| - 1])
  }

  // ----- the counters

  function Recorded(t: Thresholds, slot: Slot, success: bool): (Slot, Transition)
    requires t.Valid() && slot.failures <= t.unhealthy && slot.successes <= t.healthy
  {
    if success then
      var n := Min((slot.successes + 1) as int, t.healthy as int) as uint32;
      if !slot.healthy && n == t.healthy then (Slot(true, 0, n), Healthy)
      else (Slot(slot.healthy, 0, n), Unchanged)
    else
      var n := Min((slot.failures + 1) as int, t.unhealthy as int) as uint32;
      if slot.healthy && n == t.unhealthy then (Slot(false, n, 0), Unhealthy)
      else (Slot(slot.healthy, n, 0), Unchanged)
  }

  /** The slot after a whole history. */
  function SlotAfter(t: Thresholds, history: seq<bool>): (s: Slot)
    requires t.Valid()
    ensures s.failures <= t.unhealthy && s.successes <= t.healthy
  {
    if history == [] then FRESH_SLOT
    else Recorded(t, SlotAfter(t, history[..|history| - 1]), history[|history| - 1]).0
  }

  /** The reported transitions of a whole history, without the unchanged ones. */
  function Reported(t: Thresholds, history: seq<bool>): seq<Transition>
    requires t.Valid()
  {
    if history == [] then []
    else
      var before := history[..|history| - 1];
      var step := Recorded(t, SlotAfter(t, before), history[|history| - 1]).1;
      if step == Unchanged then Reported(t, before) else Reported(t, before) + [step]
  }

  /** After any history the counters are the trailing runs capped at their thresholds, and the flag is the reference availability. */
  lemma {:induction false} CountersSummariseHistory(t: Thresholds, history: seq<bool>)
    requires t.Valid()
    ensures SlotAfter(t, history) == Slot(Available(t, history),
                                          Min(TrailingRun(history, false), t.unhealthy as int) as uint32,
                                          Min(TrailingRun(history, true), t.healthy as int) as uint32)
  {
    if history != [] {
      CountersSummariseHistory(t, history[..|history| - 1]);
      SaturationIsSettled(t, history[..|history| - 1]);
    }
  }

  /** While a run is at its threshold, availability already agrees with it. */
  lemma SaturationIsSettled(t: Thresholds, history: seq<bool>)
    requires t.Valid()
    ensures TrailingRun(history, true) >= t.healthy as int ==> Available(t, history)
    ensures TrailingRun(history, false) >= t.unhealthy as int ==> !Available(t, history)
  {
  }

  /** `Available` spelled out: the last element of the longest decisive prefix. */
  lemma {:induction false} AvailableIsLatestDecision(t: Thresholds, history: seq<bool>, p: nat)
    requires t.Valid() && 1 <= p <= |history| && Decisive(t, history[..p])
    requires forall q :: p < q <= |history| ==> !Decisive(t, history[..q])
    ensures Available(t, history) == history[p - 1]
  {
    if p < |history| {
      var before := history[..|history| - 1];
      assert history[..|history|] == history;
      assert before[..p] == history[..p];
      forall q | p < q <= |before|
        ensures !Decisive(t, before[..q])
      {
        assert before[..q] == history[..q];
      }
      AvailableIsLatestDecision(t, before, p);
    } else {
      assert history[..p] == history;
    }
  }

  lemma {:induction false} AvailableWithoutDecision(t: Thresholds, history: seq<bool>)
    requires t.Valid() && forall q :: 1 <= q <= |history| ==> !Decisive(t, history[..q])
    ensures Available(t, history)
  {
    if history != [] {
      var before := history[..|history| - 1];
      assert history[..|history|] == history;
      forall q | 1 <= q <= |before|
        ensures !Decisive(t, before[..q])
      {
        assert before[..q] == history[..q];
      }
      AvailableWithoutDecision(t, before);
    }
  }

  /** Reported transitions alternate, starting with unhealthy, and their number gives the current flag. */
  lemma {:induction false} TransitionsAlternate(t: Thresholds, history: seq<bool>)
    requires t.Valid()
    ensures var r := Reported(t, history);
      && (forall i :: 0 <= i < |r| ==> r[i] == if i % 2 == 0 then Unhealthy else Healthy)
      && (SlotAfter(t, history).healthy <==> |r| % 2 == 0)
  {
    if history != [] {
      TransitionsAlternate(t, history[..|history| - 1]);
    }
  }

  // ----- the shared object

  /** One recorded probe result. */
  datatype Sample = Sample(route: nat, upstream: nat, success: bool)

  /** The results recorded for one slot, in order. */
  function HistoryOf(samples: seq<Sample>, route: nat, upstream: nat): seq<bool> {
    if samples == [] then []
    else
      var last := samples[|samples| - 1];
      var before := HistoryOf(samples[..|samples| - 1], route, upstream);
      if last.route == route && last.upstream == upstream then before + [last.success] else before
  }

  /** A slot holds what its own history, and nothing else, makes of it. */
  ghost predicate SlotReflects(route: Route, samples: seq<Sample>, r: nat, u: nat)
    requires u < |route.slots|
  {
    match route.config
    case None => route.slots[u] == FRESH_SLOT
    case Some(t) => t.Valid() && route.slots[u] == SlotAfter(t, HistoryOf(samples, r, u))
  }

  ghost predicate Reflects(routes: seq<Route>, samples: seq<Sample>) {
    forall r, u :: 0 <= r < |routes| && 0 <= u < |routes[r].slots| ==> SlotReflects(routes[r], samples, r, u)
  }

  /** Recording a sample changes at most its own slot: every other slot still holds its own history. */
  lemma ReflectsAfterRecord(routes: seq<Route>, samples: seq<Sample>, s: Sample, slot: Slot)
    requires Reflects(routes, samples) && s.route < |routes| && s.upstream < |routes[s.route].slots|
    requires var after := routes[s.route].(slots := routes[s.route].slots[s.upstream := slot]);
      SlotReflects(after, samples + [s], s.route, s.upstream)
    ensures Reflects(routes[s.route := routes[s.route].(slots := routes[s.route].slots[s.upstream := slot])], samples + [s])
  {
    assert (samples + [s])[..|samples|] == samples;
    var after := routes[s.route := routes[s.route].(slots := routes[s.route].slots[s.upstream := slot])];
    forall r, u | 0 <= r < |after| && 0 <= u < |after[r].slots|
      ensures SlotReflects(after[r], samples + [s], r, u)
    {
      assert SlotReflects(routes[r], samples, r, u);
    }
  }

  class UpstreamHealthState {
    var routes: seq<Route>
    ghost var samples: seq<Sample>

    ghost predicate Valid()
      reads this
    {
      Reflects(routes, samples)
    }

    constructor (configs: seq<(Option<Thresholds>, nat)>)
      requires forall r :: 0 <= r < |configs| && configs[r].0.Some? ==> configs[r].0.value.Valid()
      ensures Valid() && samples == [] && |routes| == |configs|
      ensures forall r :: 0 <= r < |configs| ==>
        routes[r].config == configs[r].0 && |routes[r].slots| == configs[r].1
    {
      routes := seq(|configs|, r requires 0 <= r < |configs| =>
        Route(configs[r].0, seq(configs[r].1, _ => FRESH_SLOT)));
      samples := [];
    }

    predicate Has(route: nat, upstream: nat)
      reads this
    {
      route < |routes| && upstream < |routes[route].slots|
    }

    function IsAvailable(route: nat, upstream: nat): (r: Result<bool>)
      reads this
      ensures r.Ok? <==> Has(route, upstream)
      ensures Valid() && r.Ok? && routes[route].config.Some? ==>
        r.value == Available(routes[route].config.value, HistoryOf(samples, route, upstream))
      ensures Valid() && r.Ok? && routes[route].config.None? ==> r.value
    {
      assert Valid() && Has(route, upstream) ==> SlotReflects(routes[route], samples, route, upstream);
      assert Valid() && Has(route, upstream) && routes[route].config.Some? ==>
        routes[route].slots[upstream].healthy == Available(routes[route].config.value, HistoryOf(samples, route, upstream)) by {
        if Valid() && Has(route, upstream) && routes[route].config.Some? {
          CountersSummariseHistory(routes[route].config.value, HistoryOf(samples, route, upstream));
        }
      }
      if !Has(route, upstream) then Thrown("out of range") else Ok(routes[route].slots[upstream].healthy)
    }

    method Record(route: nat, upstream: nat, success: bool) returns (r: Result<Transition>)
      requires Valid()
      modifies this
      ensures Valid()
      ensures r.Thrown? <==> !old(Has(route, upstream))
      ensures r.Thrown? ==> routes == old(routes) && samples == old(samples)
      ensures r.Ok? ==> samples == old(samples) + [Sample(route, upstream, success)]
      ensures |routes| == |old(routes)|
      ensures forall i :: 0 <= i < |routes| ==>
        routes[i].config == old(routes)[i].config && |routes[i].slots| == |old(routes)[i].slots|
      ensures r.Ok? && routes[route].config.None? ==> r.value == Unchanged
      ensures r.Ok? && routes[route].config.Some? ==>
        r.value == (if Available(routes[route].config.value, HistoryOf(samples, route, upstream))
                       == Available(routes[route].config.value, HistoryOf(old(samples), route, upstream)) then Unchanged
                    else if success then Healthy else Unhealthy)
    {
      if !Has(route, upstream) {
        return Thrown("out of range");
      }
      var slot, config := routes[route].slots[upstream], routes[route].config;
      ghost var next := samples + [Sample(route, upstream, success)];
      assert next[..|next| - 1] == samples;
      assert SlotReflects(routes[route], samples, route, upstream);
      if config.None? {
        ReflectsAfterRecord(routes, samples, Sample(route, upstream, success), slot);
        assert routes[route].slots[upstream := slot] == routes[route].slots;
        assert routes[route := routes[route].(slots := routes[route].slots[upstream := slot])] == routes;
        samples := next;
        return Ok(Unchanged);
      }
      var settings := config.value;
      ghost var history := HistoryOf(samples, route, upstream);
      assert HistoryOf(next, route, upstream) == history + [success];
      assert (history + [success])[..|history|] == history;
      CountersSummariseHistory(settings, history);
      CountersSummariseHistory(settings, history + [success]);
      var transition := Unchanged;
      if success {
        slot := slot.(failures := 0);
        slot := slot.(successes := if slot.successes + 1 < settings.healthy then slot.successes + 1 else settings.healthy);
        if !slot.healthy && slot.successes == settings.healthy {
          slot := slot.(healthy := true);
          transition := Healthy;
        }
      } else {
        slot := slot.(successes := 0);
        slot := slot.(failures := if slot.failures + 1 < settings.unhealthy then slot.failures + 1 else settings.unhealthy);
        if slot.healthy && slot.failures == settings.unhealthy {
          slot := slot.(healthy := false);
          transition := Unhealthy;
        }
      }
      ReflectsAfterRecord(routes, samples, Sample(route, upstream, success), slot) by {
        assert (slot, transition) == Recorded(settings, SlotAfter(settings, history), success);
      }
      routes := routes[route := routes[route].(slots := routes[route].slots[upstream := slot])];
      samples := next;
      return Ok(transition);
    }
  }
}
