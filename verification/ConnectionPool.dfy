/** The idle upstream connections: 32 slots, a 30-second idle limit and one cleanup timer. */
module ConnectionPool {
  import opened Common

  const MAX_IDLE := 32
  const IDLE_TIMEOUT: int64 := 30_000_000_000
  const MAX_TIME: int64 := 0x7fff_ffff_ffff_ffff

  datatype Idle<C> = Idle(connection: C, deadline: int64)

  type Slots<C> = seq<Option<Idle<C>>>

  /** How a timer wait completes. */
  datatype WaitOutcome = Expired | Cancelled | WaitFailed

  function Deadline(now: int64): int64 {
    if now > MAX_TIME - IDLE_TIMEOUT then MAX_TIME else now + IDLE_TIMEOUT
  }

  // ----- what the operations do to the slots

  function Unexpired<C>(slots: Slots<C>, now: int64): (r: Slots<C>)
    ensures |r| == |slots|
    ensures forall k :: 0 <= k < |r| ==> r[k] == if slots[k].Some? && slots[k].value.deadline <= now then None else slots[k]
  {
    seq(|slots|, k requires 0 <= k < |slots| =>
      if slots[k].Some? && slots[k].value.deadline <= now then None else slots[k])
  }

  predicate Holds<C>(slot: Option<Idle<C>>, wanted: C -> bool) {
    slot.Some? && wanted(slot.value.connection)
  }

  /**
   The scan of `take`: `at` is the first slot holding a wanted, clean connection. It is emptied, and so
   is every wanted slot scanned before it, all of which were unclean.
   */
  ghost predicate Scans<C>(slots: Slots<C>, wanted: C -> bool, clean: C -> bool, at: Option<nat>, slots': Slots<C>) {
    && |slots'| == |slots|
    && (at.Some? ==> at.value < |slots| && Holds(slots[at.value], wanted) && clean(slots[at.value].value.connection))
    && (forall k :: 0 <= k < |slots| && (at.Some? ==> k < at.value) && Holds(slots[k], wanted) ==> !clean(slots[k].value.connection))
    && (forall k :: 0 <= k < |slots| ==>
          slots'[k] == if (at.Some? ==> k <= at.value) && Holds(slots[k], wanted) then None else slots[k])
  }

  function FirstFree<C>(slots: Slots<C>): (r: Option<nat>)
    ensures r.None? <==> forall k :: 0 <= k < |slots| ==> slots[k].Some?
    ensures r.Some? ==> r.value < |slots| && slots[r.value].None? && forall k :: 0 <= k < r.value ==> slots[k].Some?
  {
    if slots == [] then None
    else
      var before := FirstFree(slots[..|slots| - 1]);
      if before.Some? then before
      else if slots[|slots| - 1].None? then Some(|slots| - 1) else None
  }

  function Earliest<C>(slots: Slots<C>): (r: Option<int64>)
    ensures r.None? <==> forall k :: 0 <= k < |slots| ==> slots[k].None?
    ensures r.Some? ==> forall k :: 0 <= k < |slots| && slots[k].Some? ==> r.value <= slots[k].value.deadline
    ensures r.Some? ==> exists k :: 0 <= k < |slots| && slots[k].Some? && slots[k].value.deadline == r.value
  {
    if slots == [] then None
    else
      var before, last := Earliest(slots[..|slots| - 1]), slots[|slots| - 1];
      if last.Some? && (before.None? || last.value.deadline < before.value) then
        assert slots[|slots| - 1].value.deadline == last.value.deadline;
        Some(last.value.deadline)
      else
        assert before.Some? ==> exists k :: 0 <= k < |slots| && slots[k].Some? && slots[k].value.deadline == before.value by {
          if before.Some? {
            var k :| 0 <= k < |slots| - 1 && slots[..|slots| - 1][k].Some? && slots[..|slots| - 1][k].value.deadline == before.value;
            assert slots[k].value.deadline == before.value;
          }
        }
        before
  }

  // ----- the pool as a value

  /** `timer` is the expiry of the pending cleanup wait. */
  datatype Pool<C> = Pool(slots: Slots<C>, timer: Option<int64>, stopped: bool) {

    predicate Valid() { stopped ==> forall k :: 0 <= k < |slots| ==> slots[k].None? }

    /** No entry is forgotten: a pending wait expires no later than every idle deadline. */
    predicate Covered() {
      forall k :: 0 <= k < |slots| && slots[k].Some? ==> timer.Some? && timer.value <= slots[k].value.deadline
    }

    function Stopped(): Pool<C> {
      if stopped then this else Pool(seq(|slots|, _ => None), timer, true)
    }

    /** `arm_cleanup`, with a failure to arm stopping the pool. */
    function Armed(throws: bool): Pool<C> {
      if stopped || timer.Some? || Earliest(slots).None? then this
      else if throws then Stopped()
      else this.(timer := Earliest(slots))
    }

    function Put(c: C, clean: bool, now: int64, throws: bool): Pool<C> {
      if stopped || !clean then this
      else
        var kept := Unexpired(slots, now);
        match FirstFree(kept)
        case None => this.(slots := kept)
        case Some(k) => this.(slots := kept[k := Some(Idle(c, Deadline(now)))]).Armed(throws)
    }

    ghost predicate Takes(wanted: C -> bool, clean: C -> bool, now: int64, at: Option<nat>, after: Pool<C>) {
      if stopped then at.None? && after == this
      else Scans(Unexpired(slots, now), wanted, clean, at, after.slots) && after == this.(slots := after.slots)
    }

    function TimerDone(outcome: WaitOutcome, now: int64, throws: bool): Pool<C> {
      if stopped then this
      else
        match outcome
        case Cancelled => this.(timer := None)
        case WaitFailed => this.(timer := None).Stopped()
        case Expired => this.(timer := None, slots := Unexpired(slots, now)).Armed(throws)
    }
  }

  // ----- the object

  class UpstreamPool<C(==)> {
    const idle: array<Option<Idle<C>>>
    var timer: Option<int64>
    var stopped: bool

    ghost function State(): Pool<C>
      reads this, idle
    {
      Pool(idle[..], timer, stopped)
    }

    ghost predicate Valid()
      reads this, idle
    {
      idle.Length == MAX_IDLE && State().Valid()
    }

    constructor ()
      ensures Valid() && fresh(idle) && idle.Length == 32 && !stopped && timer.None? && forall k :: 0 <= k < 32 ==> idle[k].None?
    {
      idle := new Option<Idle<C>>[MAX_IDLE](_ => None);
      timer, stopped := None, false;
    }

    method Expire(now: int64)
      requires Valid()
      modifies idle
      ensures Valid() && State() == old(State()).(slots := Unexpired(old(State()).slots, now))
    {
      for k := 0 to idle.Length
        invariant forall j :: 0 <= j < k ==> idle[j] == Unexpired(old(idle[..]), now)[j]
        invariant forall j :: k <= j < idle.Length ==> idle[j] == old(idle[j])
      {
        if idle[k].Some? && idle[k].value.deadline <= now {
          idle[k] := None;
        }
      }
      assert idle[..] == Unexpired(old(idle[..]), now);
    }

    method Take(wanted: C -> bool, clean: C -> bool, now: int64) returns (lease: Option<C>, ghost at: Option<nat>)
      requires Valid()
      modifies idle
      ensures Valid() && old(State()).Takes(wanted, clean, now, at, State())
      ensures lease.Some? <==> at.Some?
      ensures lease.Some? ==> old(idle[at.value]).Some? && lease.value == old(idle[at.value]).value.connection
      ensures lease.Some? ==> wanted(lease.value) && clean(lease.value) && old(idle[at.value]).value.deadline > now && !stopped
    {
      if stopped {
        return None, None;
      }
      Expire(now);
      ghost var kept := idle[..];
      for k := 0 to idle.Length
        invariant forall j :: 0 <= j < k && Holds(kept[j], wanted) ==> !clean(kept[j].value.connection)
        invariant forall j :: 0 <= j < k ==> idle[j] == if Holds(kept[j], wanted) then None else kept[j]
        invariant forall j :: k <= j < idle.Length ==> idle[j] == kept[j]
      {
        if idle[k].Some? && wanted(idle[k].value.connection) {
          if clean(idle[k].value.connection) {
            var connection := idle[k].value.connection;
            idle[k] := None;
            return Some(connection), Some(k);
          }
          idle[k] := None;
        }
      }
      return None, None;
    }

    /** `put`: a null lease is never passed by the exchange; an unclean or late one is dropped. */
    method Put(connection: C, clean: bool, now: int64, armThrows: bool)
      requires Valid()
      modifies this, idle
      ensures Valid() && State() == old(State()).Put(connection, clean, now, armThrows)
    {
      if stopped || !clean {
        return;
      }
      Expire(now);
      ghost var kept := idle[..];
      for k := 0 to idle.Length
        invariant idle[..] == kept && forall j :: 0 <= j < k ==> idle[j].Some?
        invariant timer == old(timer) && !stopped
      {
        if idle[k].None? {
          idle[k] := Some(Idle(connection, Deadline(now)));
          assert FirstFree(kept) == Some(k);
          assert idle[..] == kept[k := Some(Idle(connection, Deadline(now)))];
          ArmCleanup(armThrows);
          return;
        }
      }
    }

    /** Arms the single wait at the earliest idle deadline, unless one is pending. */
    method ArmCleanup(throws: bool)
      requires Valid()
      modifies this, idle
      ensures Valid() && State() == old(State()).Armed(throws)
    {
      if stopped || timer.Some? {
        return;
      }
      var next: Option<int64> := None;
      for k := 0 to idle.Length
        invariant next == Earliest(idle[..k])
      {
        assert idle[..k + 1][..k] == idle[..k];
        if idle[k].Some? && (next.None? || idle[k].value.deadline < next.value) {
          next := Some(idle[k].value.deadline);
        }
      }
      assert idle[..idle.Length] == idle[..];
      if next.None? {
        return;
      }
      if throws {
        Stop();
        return;
      }
      timer := next;
    }

    method OnTimer(outcome: WaitOutcome, now: int64, armThrows: bool)
      requires Valid()
      modifies this, idle
      ensures Valid() && State() == old(State()).TimerDone(outcome, now, armThrows)
    {
      if stopped {
        return;
      }
      timer := None;
      match outcome
      case Cancelled =>
      case WaitFailed => Stop();
      case Expired =>
        Expire(now);
        ArmCleanup(armThrows);
    }

    method Stop()
      requires Valid()
      modifies this, idle
      ensures Valid() && State() == old(State()).Stopped()
    {
      if stopped {
        return;
      }
      stopped := true;
      for k := 0 to idle.Length
        modifies idle
        invariant forall j :: 0 <= j < k ==> idle[j].None?
      {
        idle[k] := None;
      }
      assert idle[..] == seq(idle.Length, _ => None);
    }
  }

  // ----- whole runs

  /** Every pending expiry and idle deadline was computed from a time no later than `latest`. */
  predicate WithinHorizon<C>(p: Pool<C>, latest: int64) {
    && (p.timer.Some? ==> p.timer.value <= Deadline(latest))
    && (forall k :: 0 <= k < |p.slots| && p.slots[k].Some? ==> p.slots[k].value.deadline <= Deadline(latest))
  }

  datatype Event<!C(!new)> =
    | PutEvent(connection: C, clean: bool, now: int64, throws: bool)
    | TakeEvent(wanted: C -> bool, cleanNow: C -> bool, now: int64, at: Option<nat>)
    | ExpireEvent(now: int64)
    | TimerEvent(outcome: WaitOutcome, now: int64, throws: bool)
    | StopEvent(now: int64)

  /** A live wait is cancelled by `stop` only, so a pool that is not stopped never sees a cancelled wait. */
  ghost predicate Step<C(!new)>(p: Pool<C>, e: Event<C>, p': Pool<C>) {
    match e
    case PutEvent(c, clean, now, throws) => p' == p.Put(c, clean, now, throws)
    case TakeEvent(wanted, cleanNow, now, at) => p.Takes(wanted, cleanNow, now, at, p')
    case ExpireEvent(now) => p' == p.(slots := Unexpired(p.slots, now))
    case TimerEvent(outcome, now, throws) => (outcome == Cancelled ==> p.stopped) && p' == p.TimerDone(outcome, now, throws)
    case StopEvent(_) => p' == p.Stopped()
  }

  ghost predicate Run<C(!new)>(pools: seq<Pool<C>>, events: seq<Event<C>>) {
    && |pools| == |events| + 1
    && pools[0].Valid() && (forall k :: 0 <= k < |pools[0].slots| ==> pools[0].slots[k].None?) && pools[0].timer.None?
    && (forall k :: 0 <= k < |events| ==> Step(pools[k], events[k], pools[k + 1]))
    && (forall j, k :: 0 <= j < k < |events| ==> events[j].now <= events[k].now)
  }

  /** `Put` leaves an entry uncovered exactly when it adds one under a wait that expires after the new deadline. */
  lemma PutKeepsCover<C>(p: Pool<C>, c: C, clean: bool, now: int64, throws: bool)
    requires p.Valid() && p.Covered()
    ensures p.Put(c, clean, now, throws).Valid()
    ensures p.Put(c, clean, now, throws).Covered() <==>
      p.stopped || !clean || FirstFree(Unexpired(p.slots, now)).None? || p.timer.None? || p.timer.value <= Deadline(now)
  {
    if !p.stopped && clean && FirstFree(Unexpired(p.slots, now)).Some? {
      var kept := Unexpired(p.slots, now);
      var k := FirstFree(kept).value;
      var after := kept[k := Some(Idle(c, Deadline(now)))];
      assert after[k].Some?;
    }
  }

  /** A clock that goes back does this: ten seconds in, one entry is put; then another at time zero. */
  lemma EarlierPutIsUncovered(first: nat, second: nat)
    ensures var empty := Pool(seq(MAX_IDLE, _ => None), None, false);
      var p := empty.Put(first, true, 10_000_000_000, false);
      p.Valid() && p.Covered() && !p.Put(second, true, 0, false).Covered()
  {
    var empty: Pool<nat> := Pool(seq(MAX_IDLE, _ => None), None, false);
    PutKeepsCover(empty, first, true, 10_000_000_000, false);
    var p := empty.Put(first, true, 10_000_000_000, false);
    var kept := Unexpired(empty.slots, 10_000_000_000);
    assert kept[0].None? && kept[1].None?;
    assert FirstFree(kept) == Some(0);
    var after := kept[0 := Some(Idle(first, Deadline(10_000_000_000)))];
    assert after[0].Some? && Unexpired(after, 0)[1].None?;
    assert p.timer == Earliest(after) && p.timer == Some(Deadline(10_000_000_000));
    PutKeepsCover(p, second, true, 0, false);
  }

  /** A cancelled wait on a running pool would leave its entries uncovered: exactly when there are any. */
  lemma CancelledWaitForgets<C>(p: Pool<C>, now: int64, throws: bool)
    requires !p.stopped
    ensures p.TimerDone(Cancelled, now, throws).Covered() <==> Earliest(p.slots).None?
  {
    if Earliest(p.slots).Some? {
      var k :| 0 <= k < |p.slots| && p.slots[k].Some? && p.slots[k].value.deadline == Earliest(p.slots).value;
      assert p.TimerDone(Cancelled, now, throws).slots[k].Some?;
    }
  }

  lemma DeadlineIsMonotone(a: int64, b: int64)
    requires a <= b
    ensures Deadline(a) <= Deadline(b)
  {
  }

  lemma StepKeepsCover<C(!new)>(p: Pool<C>, e: Event<C>, p': Pool<C>, latest: int64)
    requires p.Valid() && p.Covered() && WithinHorizon(p, latest) && latest <= e.now && Step(p, e, p')
    ensures p'.Valid() && p'.Covered() && WithinHorizon(p', e.now) && (p.stopped ==> p'.stopped)
  {
    DeadlineIsMonotone(latest, e.now);
    if e.PutEvent? {
      PutKeepsCover(p, e.connection, e.clean, e.now, e.throws);
    }
  }

  /** With non-decreasing times, in every state of every run each idle entry has a wait that expires no later than it. */
  lemma {:induction false} RunKeepsCover<C(!new)>(pools: seq<Pool<C>>, events: seq<Event<C>>, k: nat)
    requires Run(pools, events) && k <= |events|
    ensures pools[k].Valid() && pools[k].Covered()
    ensures k > 0 ==> WithinHorizon(pools[k], events[k - 1].now)
  {
    if k > 0 {
      RunKeepsCover(pools, events, k - 1);
      assert k >= 2 ==> events[k - 2].now <= events[k - 1].now;
      StepKeepsCover(pools[k - 1], events[k - 1], pools[k], if k >= 2 then events[k - 2].now else events[0].now);
    }
  }

  /** After a stop the pool caches and lends nothing, for the rest of the run. */
  lemma {:induction false} NothingAfterStop<C(!new)>(pools: seq<Pool<C>>, events: seq<Event<C>>, s: nat, k: nat)
    requires Run(pools, events) && s <= k <= |events| && pools[s].stopped
    ensures pools[k].stopped && forall j :: 0 <= j < |pools[k].slots| ==> pools[k].slots[j].None?
    ensures k < |events| && events[k].TakeEvent? ==> events[k].at.None?
  {
    RunKeepsCover(pools, events, k);
    if s < k {
      NothingAfterStop(pools, events, s, k - 1);
      RunKeepsCover(pools, events, k - 1);
      assert Step(pools[k - 1], events[k - 1], pools[k]);
    }
    if k < |events| {
      assert Step(pools[k], events[k], pools[k + 1]);
    }
  }

  // ----- entries are kept for exactly thirty seconds

  /** The event neither stops the pool, nor fails, nor concerns connection `c`. */
  ghost predicate LeavesAlone<C(!new)>(e: Event<C>, c: C) {
    match e
    case PutEvent(d, _, _, throws) => d != c && !throws
    case TakeEvent(wanted, _, _, _) => !wanted(c)
    case ExpireEvent(_) => true
    case TimerEvent(outcome, _, throws) => outcome == Expired && !throws
    case StopEvent(_) => false
  }

  ghost predicate Absent<C>(p: Pool<C>, c: C) {
    forall j :: 0 <= j < |p.slots| && p.slots[j].Some? ==> p.slots[j].value.connection != c
  }

  /** Slot `k`, and no other, holds `c` with this deadline. */
  ghost predicate KeptAt<C>(p: Pool<C>, c: C, deadline: int64, k: nat) {
    && k < |p.slots| && p.slots[k] == Some(Idle(c, deadline))
    && (forall j :: 0 <= j < |p.slots| && j != k && p.slots[j].Some? ==> p.slots[j].value.connection != c)
  }

  /** A running pool holds `c`, or has dropped it no earlier than its deadline. */
  ghost predicate Retains<C>(p: Pool<C>, c: C, deadline: int64, k: nat, latest: int64) {
    !p.stopped && (KeptAt(p, c, deadline, k) || (Absent(p, c) && deadline <= latest))
  }

  /** Nothing stops a pool but `stop` and failures. */
  lemma StaysRunning<C(!new)>(p: Pool<C>, e: Event<C>, p': Pool<C>, c: C)
    requires !p.stopped && Step(p, e, p') && LeavesAlone(e, c)
    ensures !p'.stopped
  {
  }

  lemma LeftAloneIsRetained<C(!new)>(p: Pool<C>, e: Event<C>, p': Pool<C>, c: C, deadline: int64, k: nat, latest: int64)
    requires Retains(p, c, deadline, k, latest) && latest <= e.now && Step(p, e, p') && LeavesAlone(e, c)
    ensures Retains(p', c, deadline, k, e.now)
  {
    StaysRunning(p, e, p', c);
    if e.PutEvent? && e.clean {
      var kept := Unexpired(p.slots, e.now);
      match FirstFree(kept)
      case None =>
      case Some(f) => assert p'.slots == kept[f := Some(Idle(e.connection, Deadline(e.now)))];
    }
  }

  lemma PutIsKept<C(!new)>(p: Pool<C>, e: Event<C>, p': Pool<C>) returns (k: nat)
    requires !p.stopped && Step(p, e, p') && e.PutEvent? && e.clean && !e.throws && Absent(p, e.connection)
    requires FirstFree(Unexpired(p.slots, e.now)).Some? && e.now <= MAX_TIME - 30_000_000_000
    ensures Retains(p', e.connection, e.now + 30_000_000_000, k, e.now) && KeptAt(p', e.connection, e.now + 30_000_000_000, k)
  {
    var kept := Unexpired(p.slots, e.now);
    k := FirstFree(kept).value;
    assert p'.slots == kept[k := Some(Idle(e.connection, Deadline(e.now)))];
  }

  lemma {:induction false} RunRetains<C(!new)>(pools: seq<Pool<C>>, events: seq<Event<C>>, i: nat, m: nat, c: C, deadline: int64, k: nat)
    requires Run(pools, events) && i < m <= |events| && Retains(pools[i + 1], c, deadline, k, events[i].now)
    requires forall j :: i < j < m ==> LeavesAlone(events[j], c)
    ensures Retains(pools[m], c, deadline, k, events[m - 1].now)
    decreases m
  {
    if i + 1 < m {
      RunRetains(pools, events, i, m - 1, c, deadline, k);
      assert events[m - 2].now <= events[m - 1].now;
      LeftAloneIsRetained(pools[m - 1], events[m - 1], pools[m], c, deadline, k, events[m - 2].now);
    }
  }

  lemma TakeFinds<C(!new)>(p: Pool<C>, e: Event<C>, p': Pool<C>, c: C, deadline: int64, k: nat, latest: int64)
    requires Retains(p, c, deadline, k, latest) && latest <= e.now && Step(p, e, p') && e.TakeEvent?
    requires e.cleanNow(c) && forall d :: e.wanted(d) <==> d == c
    ensures e.at.Some? <==> e.now < deadline
    ensures e.at.Some? ==> e.at.value < |p.slots| && p.slots[e.at.value].Some? && p.slots[e.at.value].value.connection == c
  {
    var kept := Unexpired(p.slots, e.now);
    if KeptAt(p, c, deadline, k) && e.now < deadline {
      assert Holds(kept[k], e.wanted);
    }
  }

  /**
   Retention: after a clean `put` into a running pool with room, and any events that neither stop or fail the
   pool nor concern `c`, a `take` that wants only `c` yields it if and only if less than thirty seconds have passed.
   */
  lemma KeptForThirtySeconds<C(!new)>(pools: seq<Pool<C>>, events: seq<Event<C>>, i: nat, m: nat)
    requires Run(pools, events) && i < m < |events|
    requires !pools[i].stopped && events[i].PutEvent? && events[i].clean && !events[i].throws && Absent(pools[i], events[i].connection)
    requires FirstFree(Unexpired(pools[i].slots, events[i].now)).Some? && events[i].now <= MAX_TIME - 30_000_000_000
    requires forall j :: i < j < m ==> LeavesAlone(events[j], events[i].connection)
    requires events[m].TakeEvent? && events[m].cleanNow(events[i].connection)
    requires forall d :: events[m].wanted(d) <==> d == events[i].connection
    ensures events[m].at.Some? <==> events[m].now < events[i].now + 30_000_000_000
    ensures events[m].at.Some? ==>
      events[m].at.value < |pools[m].slots| && pools[m].slots[events[m].at.value].Some?
      && pools[m].slots[events[m].at.value].value.connection == events[i].connection
  {
    var c, deadline := events[i].connection, events[i].now + 30_000_000_000;
    assert Step(pools[i], events[i], pools[i + 1]);
    var k := PutIsKept(pools[i], events[i], pools[i + 1]);
    RunRetains(pools, events, i, m, c, deadline, k);
    assert events[m - 1].now <= events[m].now;
    TakeFinds(pools[m], events[m], pools[m + 1], c, deadline, k, events[m - 1].now);
  }

  /** Cleaning up: an expired wait leaves no entry whose time is over, and all the others. */
  lemma ExpiredWaitCleansUp<C>(p: Pool<C>, now: int64)
    requires !p.stopped
    ensures var after := p.TimerDone(Expired, now, false);
      && !after.stopped && |after.slots| == |p.slots|
      && (forall j :: 0 <= j < |p.slots| && p.slots[j].Some? ==>
            after.slots[j] == if p.slots[j].value.deadline <= now then None else p.slots[j])
  {
  }
}
