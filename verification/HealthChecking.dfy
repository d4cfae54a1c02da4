/** The health-check driver: starts due probes, feeds results back and never loses its wake-up. */
module HealthChecking {
  import opened Common
  import opened ProbeScheduling
  import HealthState

  datatype Target = Target(route: nat, upstream: nat)

  /** What the environment does to one probe start. */
  datatype StartOutcome = InProgress | FailsAtOnce | Throws

  /** How a timer wait completes. */
  datatype WaitOutcome = Expired | Cancelled | WaitFailed

  /** How far the due times of all slots are from the end of time. */
  function Ahead(slots: seq<Slot>): nat {
    if slots == [] then 0
    else Ahead(slots[..|slots| - 1]) + (MAX_TIME as int - slots[|slots| - 1].due as int)
  }

  lemma {:induction false} AheadUpdate(slots: seq<Slot>, i: nat, s: Slot)
    requires i < |slots|
    ensures Ahead(slots[i := s]) == Ahead(slots) + slots[i].due as int - s.due as int
  {
    var last := |slots| - 1;
    if i < last {
      AheadUpdate(slots[..last], i, s);
      assert slots[i := s][..last] == slots[..last][i := s];
    } else {
      assert slots[i := s][..last] == slots[..last];
    }
  }

  /** Each start, even one that fails at once, moves a due time beyond the instant it was due at: this cannot go on forever. */
  lemma TakeConsumesTime(s: Schedule, now: int64, r: Option<nat>, s': Schedule)
    requires s.Valid() && Takes(s, now, r, s') && r.Some? && now < MAX_TIME
    ensures Ahead(s'.slots) < Ahead(s.slots)
    ensures s'.slots[r.value].inFlight && s'.slots[r.value].due > now
  {
    assert Startables(s.slots, now)[r.value];
    AheadUpdate(s.slots, r.value, s.slots[r.value].Started(now));
  }

  /** Due times only move forward, and a slot that has come into flight was started after it was last due. */
  ghost predicate Advanced(s: Schedule, s': Schedule) {
    && |s'.slots| == |s.slots|
    && (forall k :: 0 <= k < |s.slots| ==> s.slots[k].due <= s'.slots[k].due)
    && (forall k :: 0 <= k < |s.slots| && !s.slots[k].inFlight && s'.slots[k].inFlight ==> s.slots[k].due < s'.slots[k].due)
  }

  /** Results were recorded at the end, and all of them are failures. */
  ghost predicate OnlyFailuresAdded(before: seq<HealthState.Sample>, after: seq<HealthState.Sample>) {
    before <= after && forall i :: |before| <= i < |after| ==> !after[i].success
  }

  /** Making a probe or arming the timer throws: the only ways a pump can stop the driver. */
  ghost predicate SomethingThrows(starts: nat -> StartOutcome, timerThrows: bool) {
    timerThrows || exists scan :: starts(scan) == Throws
  }

  lemma AdvancedChain(a: Schedule, b: Schedule, c: Schedule)
    requires Advanced(a, b) && Advanced(b, c)
    ensures Advanced(a, c)
  {
  }

  lemma FailuresChain(a: seq<HealthState.Sample>, b: seq<HealthState.Sample>, c: seq<HealthState.Sample>)
    requires OnlyFailuresAdded(a, b) && OnlyFailuresAdded(b, c)
    ensures OnlyFailuresAdded(a, c)
  {
  }

  class HealthChecks {
    const schedule: ProbeSchedule
    const state: HealthState.UpstreamHealthState
    const targets: seq<Target>
    var probes: seq<bool>        // which slots hold a probe
    var timer: Option<int64>     // expiry of the pending wait
    var posted: bool             // the first pump is queued
    var started: bool
    var stopped: bool
    var pumping: bool
    var failures: nat            // calls of the failure callback

    /** Everything but the agreement between held probes and slots in flight. */
    ghost predicate Sound()
      reads this, schedule, state
    {
      && schedule.Valid() && state.Valid()
      && |probes| == |targets| == |schedule.slots|
      && (forall k :: 0 <= k < |targets| ==> state.Has(targets[k].route, targets[k].upstream))
      && (stopped <==> schedule.stopped)
      && (stopped ==> timer.None? && !posted)
      && failures <= (if stopped then 1 else 0)
      && (posted || timer.Some? ==> started)
      && (forall k :: 0 <= k < |probes| && probes[k] ==> started)
    }

    ghost predicate Valid()
      reads this, schedule, state
    {
      Sound() && ProbesAgree(None)
    }

    /** A slot holds a probe exactly while it is in flight, except a slot whose probe is being made. */
    ghost predicate ProbesAgree(making: Option<nat>)
      reads this, schedule
      requires |probes| == |schedule.slots|
    {
      && (making.Some? ==> making.value < |probes|)
      && forall k :: 0 <= k < |probes| && Some(k) != making ==> probes[k] == schedule.slots[k].inFlight
    }

    /** No lost wake-up: while a slot could start later, the timer is armed at exactly the earliest due time. */
    ghost predicate Awake()
      reads this, schedule
    {
      stopped || !started || posted || forall next :: IsNextDue(schedule.State(), next) && next.Some? ==> timer == next
    }

    ghost predicate Idle()
      reads this, schedule, state
    {
      Valid() && Awake() && !pumping
    }

    constructor (schedule: ProbeSchedule, state: HealthState.UpstreamHealthState, targets: seq<Target>)
      requires schedule.Valid() && !schedule.stopped && state.Valid() && |targets| == |schedule.slots|
      requires forall k :: 0 <= k < |schedule.slots| ==> !schedule.slots[k].inFlight
      requires forall k :: 0 <= k < |targets| ==> state.Has(targets[k].route, targets[k].upstream)
      ensures Idle() && this.schedule == schedule && this.state == state && !stopped && !started && failures == 0
    {
      this.schedule, this.state, this.targets := schedule, state, targets;
      probes := seq(|targets|, _ => false);
      timer, posted, started, stopped, pumping, failures := None, false, false, false, false, 0;
    }

    method Start()
      requires Idle()
      modifies this
      ensures Idle() && stopped == old(stopped) && failures == old(failures)
      ensures started == (old(started) || (!stopped && targets != []))
      ensures started && !old(started) ==> posted
    {
      if started || stopped || |targets| == 0 {
        return;
      }
      started := true;
      posted := true;
    }

    method Stop()
      requires Sound() && (stopped ==> Valid())
      modifies this, schedule
      ensures Valid() && stopped && Awake() && failures == old(failures) && pumping == old(pumping) && started == old(started)
      ensures schedule.State() == if old(stopped) then old(schedule.State()) else Stopped(old(schedule.State()))
    {
      if stopped {
        return;
      }
      stopped := true;
      schedule.Stop();
      timer, posted := None, false;
      for k := 0 to |probes|
        modifies `probes
        invariant |probes| == |targets|
        invariant forall j :: 0 <= j < k ==> !probes[j]
      {
        if probes[k] {
          probes := probes[k := false];
        }
      }
    }

    method Failed()
      requires Sound() && (stopped ==> Valid())
      modifies this, schedule
      ensures Valid() && stopped && Awake() && pumping == old(pumping) && started == old(started)
      ensures failures == old(failures) + (if old(stopped) then 0 else 1)
      ensures schedule.State() == if old(stopped) then old(schedule.State()) else Stopped(old(schedule.State()))
    {
      if stopped {
        return;
      }
      Stop();
      failures := failures + 1;
    }

    /** The part of `completed` that precedes its pump: the slot is freed and its result recorded. */
    method Settle(index: nat, success: bool)
      requires Valid() && !stopped && index < |targets|
      modifies this`probes, schedule, state
      ensures Valid() && schedule.State() == Freed(old(schedule.State()), index)
      ensures state.samples == old(state.samples) + [ResultOf(index, success)]
    {
      var _ := schedule.Complete(index);
      probes := probes[index := false];
      var _ := state.Record(targets[index].route, targets[index].upstream, success);
    }

    /** The sample a completion records. */
    function ResultOf(index: nat, success: bool): HealthState.Sample
      requires index < |targets|
    {
      HealthState.Sample(targets[index].route, targets[index].upstream, success)
    }

    method Completed(index: nat, success: bool, clock: nat -> int64, starts: nat -> StartOutcome, timerThrows: bool)
      requires Idle() && started && index < |targets| && BeforeTheEnd(clock)
      modifies this, schedule, state
      ensures Idle()
      ensures old(stopped) ==> schedule.State() == old(schedule.State()) && state.samples == old(state.samples)
      // the result is recorded first; what the pump adds are probes that failed at once
      ensures !old(stopped) ==> OnlyFailuresAdded(old(state.samples) + [ResultOf(index, success)], state.samples)
      ensures stopped && !old(stopped) ==> SomethingThrows(starts, timerThrows)
      // the slot is free, or has been started again
      ensures !old(stopped) && !stopped ==>
        !schedule.slots[index].inFlight || schedule.slots[index].due > old(schedule.slots[index].due)
      ensures !old(stopped) && !stopped ==> exists scan :: Exhausted(schedule.State(), clock(scan))
    {
      if stopped {
        return;
      }
      Settle(index, success);
      Pump(clock, starts, timerThrows);
    }

    method OnPosted(clock: nat -> int64, starts: nat -> StartOutcome, timerThrows: bool)
      requires Idle() && posted && BeforeTheEnd(clock)
      modifies this, schedule, state
      ensures Idle() && !posted && OnlyFailuresAdded(old(state.samples), state.samples)
      ensures stopped && !old(stopped) ==> SomethingThrows(starts, timerThrows)
      ensures !stopped ==> exists scan :: Exhausted(schedule.State(), clock(scan))
    {
      posted := false;
      Pump(clock, starts, timerThrows);
    }

    /**
     A wait completes. The wait armed last is never reported cancelled, because only `Stop` and re-arming
     cancel one. A wait that was re-armed or stopped is stale: it may be reported cancelled, but if it had
     already expired or failed by then its callback acts all the same.
     */
    method OnTimer(outcome: WaitOutcome, stale: bool, clock: nat -> int64, starts: nat -> StartOutcome, timerThrows: bool)
      requires Idle() && started && BeforeTheEnd(clock)
      requires !stale ==> timer.Some? && outcome != Cancelled
      modifies this, schedule, state
      ensures Idle() && started
      ensures outcome == WaitFailed ==> stopped && failures == old(failures) + (if old(stopped) then 0 else 1)
      ensures OnlyFailuresAdded(old(state.samples), state.samples)
      ensures stopped && !old(stopped) ==> outcome == WaitFailed || SomethingThrows(starts, timerThrows)
      ensures outcome == Expired && !stopped ==> exists scan :: Exhausted(schedule.State(), clock(scan))
      ensures outcome == Cancelled || old(stopped) ==>
        schedule.State() == old(schedule.State()) && state.samples == old(state.samples) && timer == old(timer)
    {
      if !stale {
        timer := None;
      }
      match outcome
      case Expired => Pump(clock, starts, timerThrows);
      case WaitFailed => Failed();
      case Cancelled =>
    }

    /** Makes and starts the probe of a slot just taken. */
    method StartProbe(slot: nat, outcome: StartOutcome)
      requires Sound() && ProbesAgree(Some(slot)) && started && !stopped && schedule.slots[slot].inFlight
      modifies this, schedule, state
      ensures Valid() && pumping == old(pumping) && started == old(started) && posted == (old(posted) && !stopped)
      ensures stopped <==> outcome == Throws
      ensures !stopped ==> Ahead(schedule.slots) == Ahead(old(schedule.slots))
      ensures !stopped ==> timer == old(timer)
      ensures OnlyFailuresAdded(old(state.samples), state.samples)
      ensures outcome == FailsAtOnce ==> state.samples == old(state.samples) + [ResultOf(slot, false)]
      ensures !stopped ==> schedule.slots[slot].inFlight == (outcome == InProgress)
      ensures !stopped ==> Advanced(old(schedule.State()), schedule.State())
    {
      if outcome == Throws {
        Failed();
        return;
      }
      probes := probes[slot := true];
      if outcome == FailsAtOnce {
        AheadUpdate(schedule.slots, slot, schedule.slots[slot].(inFlight := false));
        Settle(slot, false);
      }
    }

    /** One scan of the schedule, seen from the driver. */
    method TakeNext(now: int64) returns (index: Option<nat>)
      requires Valid() && !stopped && now < MAX_TIME
      modifies schedule
      ensures Sound() && ProbesAgree(index) && !stopped
      ensures index.None? ==> Exhausted(schedule.State(), now)
      ensures index.Some? ==> schedule.slots[index.value].inFlight
      ensures index.Some? ==> Ahead(schedule.slots) < Ahead(old(schedule.slots))
      ensures Advanced(old(schedule.State()), schedule.State())
    {
      index := schedule.TakeDue(now);
      if index.Some? {
        TakeConsumesTime(old(schedule.State()), now, index, schedule.State());
      }
    }

    /**
     The scan loop of `pump`, which reads the clock anew for every scan: takes and starts slots until a
     scan, at the instant `last`, finds none.
     */
    method StartDue(clock: nat -> int64, starts: nat -> StartOutcome) returns (ghost last: nat)
      requires Valid() && started && !stopped && BeforeTheEnd(clock)
      modifies this, schedule, state
      ensures Valid() && pumping == old(pumping) && started == old(started) && posted == (old(posted) && !stopped)
      ensures stopped ==> exists scan :: starts(scan) == Throws
      ensures !stopped ==> Exhausted(schedule.State(), clock(last))
      ensures !stopped ==> Advanced(old(schedule.State()), schedule.State())
      ensures OnlyFailuresAdded(old(state.samples), state.samples)
    {
      var scan := 0;
      last := 0;
      var index := TakeNext(clock(scan));
      while index.Some?
        invariant Sound() && ProbesAgree(index) && !stopped
        invariant pumping == old(pumping) && posted == old(posted) && started == old(started)
        invariant index.Some? ==> schedule.slots[index.value].inFlight
        invariant index.None? ==> Exhausted(schedule.State(), clock(scan))
        invariant Advanced(old(schedule.State()), schedule.State()) && OnlyFailuresAdded(old(state.samples), state.samples)
        decreases index.Some?, Ahead(schedule.slots)
      {
        ghost var s0, h0 := schedule.State(), state.samples;
        StartProbe(index.value, starts(scan));
        FailuresChain(old(state.samples), h0, state.samples);
        if stopped {
          return;
        }
        ghost var s1 := schedule.State();
        scan := scan + 1;
        index := TakeNext(clock(scan));
        AdvancedChain(old(schedule.State()), s0, s1);
        AdvancedChain(old(schedule.State()), s1, schedule.State());
      }
      last := scan;
    }

    /** The end of `pump`: the timer is armed at the earliest due time, if there is one. */
    method ArmTimer(timerThrows: bool)
      requires Valid() && started && !stopped
      modifies this, schedule
      ensures Valid() && Awake() && pumping == old(pumping) && started == old(started) && posted == (old(posted) && !stopped)
      ensures stopped ==> timerThrows
      ensures !stopped ==> schedule.State() == old(schedule.State())
      ensures !stopped ==> targets == [] || timer.Some? || exists k :: 0 <= k < |probes| && probes[k]
    {
      var due := schedule.NextDue();
      NextDueIsUnique(schedule.State(), due);
      if due.None? {
        SomethingInFlight(schedule.State());
      } else if timerThrows {
        Failed();
      } else {
        timer := due;
      }
    }

    /**
     Starts every due slot the cap allows, then arms the timer. Afterwards a probe is in flight (its
     completion pumps again), or the timer is armed at the earliest due time, or there are no slots.
     */
    method Pump(clock: nat -> int64, starts: nat -> StartOutcome, timerThrows: bool)
      requires Valid() && started && !pumping && BeforeTheEnd(clock)
      modifies this, schedule, state
      ensures Idle() && started == old(started) && posted == (old(posted) && !stopped)
      ensures stopped && !old(stopped) ==> SomethingThrows(starts, timerThrows)
      ensures !stopped ==> exists scan :: Exhausted(schedule.State(), clock(scan))
      ensures !stopped ==> Advanced(old(schedule.State()), schedule.State())
      ensures OnlyFailuresAdded(old(state.samples), state.samples)
      ensures !stopped ==> targets == [] || timer.Some? || exists k :: 0 <= k < |probes| && probes[k]
      ensures old(stopped) ==>
        stopped && failures == old(failures) && schedule.State() == old(schedule.State()) && state.samples == old(state.samples) && timer == old(timer)
    {
      if stopped || pumping {
        return;
      }
      pumping := true;
      ghost var last := StartDue(clock, starts);
      if !stopped {
        ArmTimer(timerThrows);
        assert !stopped ==> Exhausted(schedule.State(), clock(last));
      }
      pumping := false;
    }

    // ----- whole runs

    /** Something will wake the driver: the queued pump, the timer, or the completion of a probe in flight. */
    ghost predicate HasWakeUp()
      reads this
    {
      posted || timer.Some? || exists k :: 0 <= k < |probes| && probes[k]
    }

    /** One handler, chosen by the environment among those that can run; `done` is the completion it delivered, if it did. */
    method AnyHandler(clock: nat -> int64, starts: nat -> StartOutcome, timerThrows: bool) returns (done: Option<HealthState.Sample>)
      requires Idle() && BeforeTheEnd(clock)
      modifies this, schedule, state
      ensures Idle() && (done.Some? ==> !old(stopped))
      ensures OnlyFailuresAdded(old(state.samples) + (if done.Some? then [done.value] else []), state.samples)
    {
      done := None;
      if {
        case true => Start();
        case true => Stop();
        case posted => OnPosted(clock, starts, timerThrows);
        case timer.Some? => OnTimer(Expired, false, clock, starts, timerThrows);
        case timer.Some? => OnTimer(WaitFailed, false, clock, starts, timerThrows);
        case started => var outcome: WaitOutcome := *; OnTimer(outcome, true, clock, starts, timerThrows);
        case exists k :: 0 <= k < |probes| && probes[k] =>
          var k :| 0 <= k < |probes| && probes[k];
          var success := *;
          if !stopped {
            done := Some(ResultOf(k, success));
          }
          Completed(k, success, clock, starts, timerThrows);
      }
    }

    /**
     Every run, at any times and with any failures: a started driver with slots is stopped or has a wake-up, and
     fails at most once. Every completion delivered is recorded, once and in order, at the positions `at`; what is
     recorded besides are probes that failed at once.
     */
    method Operate(clocks: seq<nat -> int64>, starts: seq<nat -> StartOutcome>)
      returns (delivered: seq<HealthState.Sample>, ghost at: seq<nat>)
      requires Idle() && |starts| == |clocks| && forall k :: 0 <= k < |clocks| ==> BeforeTheEnd(clocks[k])
      modifies this, schedule, state
      ensures Idle() && failures <= 1 && schedule.active <= 4
      ensures started && !stopped && targets != [] ==> HasWakeUp()
      ensures Recorded(old(state.samples), state.samples, delivered, at)
    {
      delivered, at := [], [];
      for k := 0 to |clocks|
        invariant Idle() && Recorded(old(state.samples), state.samples, delivered, at)
      {
        var timerThrows := *;
        ghost var before := state.samples;
        var done := AnyHandler(clocks[k], starts[k], timerThrows);
        RecordedGrows(old(state.samples), before, delivered, at, done, state.samples);
        if done.Some? {
          at := at + [|before|];
          delivered := delivered + [done.value];
        }
      }
      var due := NextDueExists(schedule.State());
      if due.None? && !stopped {
        SomethingInFlight(schedule.State());
      }
    }
  }

  /** `after` extends `before` by the delivered results, in order at the positions `at`, and otherwise by failures only. */
  ghost predicate Recorded(before: seq<HealthState.Sample>, after: seq<HealthState.Sample>, delivered: seq<HealthState.Sample>, at: seq<nat>) {
    && before <= after && |at| == |delivered|
    && (forall i :: 0 <= i < |at| ==> |before| <= at[i] < |after| && after[at[i]] == delivered[i])
    && (forall i, j :: 0 <= i < j < |at| ==> at[i] < at[j])
    && (forall p :: |before| <= p < |after| && p !in at ==> !after[p].success)
  }

  lemma RecordedGrows(start: seq<HealthState.Sample>, before: seq<HealthState.Sample>, delivered: seq<HealthState.Sample>, at: seq<nat>,
                      done: Option<HealthState.Sample>, after: seq<HealthState.Sample>)
    requires Recorded(start, before, delivered, at)
    requires OnlyFailuresAdded(before + (if done.Some? then [done.value] else []), after)
    ensures Recorded(start, after, delivered + (if done.Some? then [done.value] else []), at + (if done.Some? then [|before|] else []))
  {
    var at' := at + (if done.Some? then [|before|] else []);
    assert before <= after;
    forall p | |start| <= p < |after| && p !in at' ensures !after[p].success {
      if p < |before| {
        assert p !in at && after[p] == before[p];
      } else if done.Some? {
        assert p != at'[|at|];
      }
    }
  }

  /** There always is an answer to the question when something is due next. */
  lemma NextDueExists(s: Schedule) returns (due: Option<int64>)
    ensures IsNextDue(s, due)
  {
    due := None;
    if !s.Blocked() {
      for k := 0 to |s.slots|
        invariant due.None? ==> forall j :: 0 <= j < k ==> s.slots[j].inFlight
        invariant due.Some? ==> exists j :: 0 <= j < k && !s.slots[j].inFlight && s.slots[j].due == due.value
        invariant due.Some? ==> forall j :: 0 <= j < k && !s.slots[j].inFlight ==> due.value <= s.slots[j].due
      {
        if !s.slots[k].inFlight && (due.None? || s.slots[k].due < due.value) {
          due := Some(s.slots[k].due);
        }
      }
    }
  }

  /** The clock readings of one pump: they need not be ordered, and stay short of the last representable time. */
  ghost predicate BeforeTheEnd(clock: nat -> int64) {
    forall scan :: clock(scan) < MAX_TIME
  }

  /** Nothing more can start at this instant. */
  ghost predicate Exhausted(s: Schedule, now: int64) {
    s.Blocked() || forall k :: 0 <= k < |s.slots| ==> !s.slots[k].Startable(now)
  }

  lemma NextDueIsUnique(s: Schedule, due: Option<int64>)
    requires IsNextDue(s, due)
    ensures forall next :: IsNextDue(s, next) ==> next == due
  {
  }

  /** Without a next due time, and not stopped, either there are no slots or some probe is in flight. */
  lemma SomethingInFlight(s: Schedule)
    requires s.Valid() && !s.stopped && IsNextDue(s, None)
    ensures s.slots == [] || exists k :: 0 <= k < |s.slots| && s.slots[k].inFlight
  {
    NoneInFlight(s.slots);
    if s.slots != [] && !s.Blocked() {
      assert s.slots[0].inFlight;
    }
  }
}
