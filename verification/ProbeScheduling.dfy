/** Rotating selection of due probe slots, with a cap on the probes in flight. */
module ProbeScheduling {
  import opened Common
  import opened Cyclic

  const MAX_IN_FLIGHT := 4
  const MAX_TIME: int64 := 0x7fff_ffff_ffff_ffff
  const MILLISECOND: int64 := 1_000_000

  datatype Slot = Slot(interval: int64, due: int64, inFlight: bool) {
    predicate Valid() { 100 * MILLISECOND <= interval <= 60000 * MILLISECOND }

    predicate Startable(now: int64) { !inFlight && due <= now }

    /** The due time after a start: one interval later, saturating at the last representable time. */
    function Started(now: int64): Slot
      requires Valid()
    {
      Slot(interval, if now > MAX_TIME - interval then MAX_TIME else now + interval, true)
    }
  }

  datatype Schedule = Schedule(slots: seq<Slot>, cursor: nat, active: nat, stopped: bool) {
    predicate Valid() {
      && (forall k :: 0 <= k < |slots| ==> slots[k].Valid())
      && (if slots == [] then cursor == 0 else cursor < |slots|)
      && active == InFlight(slots)
      && active <= MAX_IN_FLIGHT
      && (stopped ==> active == 0)
    }

    /** Nothing may start: stopped, or the cap is reached. */
    predicate Blocked() { stopped || active == MAX_IN_FLIGHT }
  }

  function InFlight(slots: seq<Slot>): (n: nat)
    ensures n <= |slots|
  {
    if slots == [] then 0 else InFlight(slots[..|slots| - 1]) + (if slots[|slots| - 1].inFlight then 1 else 0)
  }

  function Startables(slots: seq<Slot>, now: int64): seq<bool> {
    seq(|slots|, k requires 0 <= k < |slots| => slots[k].Startable(now))
  }

  lemma {:induction false} InFlightUpdate(slots: seq<Slot>, i: nat, s: Slot)
    requires i < |slots|
    ensures InFlight(slots[i := s]) == InFlight(slots)
              - (if slots[i].inFlight then 1 else 0) + (if s.inFlight then 1 else 0)
  {
    var last := |slots| - 1;
    if i < last {
      InFlightUpdate(slots[..last], i, s);
      assert slots[i := s][..last] == slots[..last][i := s];
    } else {
      assert slots[i := s][..last] == slots[..last];
    }
  }

  lemma {:induction false} NoneInFlight(slots: seq<Slot>)
    ensures InFlight(slots) == 0 <==> forall k :: 0 <= k < |slots| ==> !slots[k].inFlight
  {
    if slots != [] {
      var before := slots[..|slots| - 1];
      NoneInFlight(before);
      assert forall k :: 0 <= k < |before| ==> before[k] == slots[k];
      if InFlight(slots) == 0 {
        forall k | 0 <= k < |slots|
          ensures !slots[k].inFlight
        {
          if k < |before| { assert !before[k].inFlight; }
        }
      }
    }
  }

  // ----- what each operation does, without its loops

  /** `take_due`: the first startable slot from the cursor is started and the cursor moves past it. */
  ghost predicate Takes(s: Schedule, now: int64, r: Option<nat>, s': Schedule)
    requires s.Valid()
  {
    if s.Blocked() then r == None && s' == s
    else
      match r
      case None => s' == s && forall k :: 0 <= k < |s.slots| ==> !s.slots[k].Startable(now)
      case Some(i) =>
        && s.slots != []
        && IsFirst(Startables(s.slots, now), s.cursor, i)
        && s' == s.(slots := s.slots[i := s.slots[i].Started(now)], cursor := Successor(i, |s.slots|), active := s.active + 1)
  }

  function Freed(s: Schedule, i: nat): Schedule
    requires s.Valid() && i < |s.slots|
  {
    if s.slots[i].inFlight then
      InFlightUpdate(s.slots, i, s.slots[i].(inFlight := false));
      s.(slots := s.slots[i := s.slots[i].(inFlight := false)], active := s.active - 1)
    else s
  }

  function Stopped(s: Schedule): Schedule {
    s.(slots := seq(|s.slots|, k requires 0 <= k < |s.slots| => s.slots[k].(inFlight := false)), active := 0, stopped := true)
  }

  /** `next_due`: the earliest due time of an idle slot, when something may start. */
  ghost predicate IsNextDue(s: Schedule, r: Option<int64>) {
    if s.Blocked() then r == None
    else
      match r
      case None => forall k :: 0 <= k < |s.slots| ==> s.slots[k].inFlight
      case Some(d) =>
        && (exists k :: 0 <= k < |s.slots| && !s.slots[k].inFlight && s.slots[k].due == d)
        && (forall k :: 0 <= k < |s.slots| && !s.slots[k].inFlight ==> d <= s.slots[k].due)
  }

  // ----- the object

  class ProbeSchedule {
    var slots: seq<Slot>
    var cursor: nat
    var active: nat
    var stopped: bool

    ghost function State(): Schedule
      reads this
    {
      Schedule(slots, cursor, active, stopped)
    }

    ghost predicate Valid()
      reads this
    {
      State().Valid()
    }

    constructor (intervals: seq<int64>, now: int64)
      requires forall k :: 0 <= k < |intervals| ==> 100 <= intervals[k] <= 60000
      ensures Valid() && !stopped && cursor == 0 && |slots| == |intervals|
      ensures forall k :: 0 <= k < |slots| ==> slots[k] == Slot(intervals[k] * MILLISECOND, now, false)
    {
      slots := seq(|intervals|, k requires 0 <= k < |intervals| => Slot(intervals[k] * MILLISECOND, now, false));
      cursor, active, stopped := 0, 0, false;
      new;
      NoneInFlight(slots);
    }

    /** The effect of a successful scan on the slot it found. */
    method StartSlot(index: nat, now: int64)
      requires Valid() && index < |slots| && !slots[index].inFlight && active < MAX_IN_FLIGHT && !stopped
      modifies `slots, `active
      ensures Valid() && State() == old(State()).(slots := old(slots)[index := old(slots)[index].Started(now)], active := old(active) + 1)
    {
      InFlightUpdate(slots, index, slots[index].Started(now));
      slots := slots[index := slots[index].Started(now)];
      active := active + 1;
    }

    method TakeDue(now: int64) returns (r: Option<nat>)
      requires Valid()
      modifies this
      ensures Valid() && Takes(old(State()), now, r, State())
    {
      if stopped || active == MAX_IN_FLIGHT {
        return None;
      }
      ghost var before := State();
      var visited := 0;
      while visited < |slots|
        invariant visited <= |slots|
        invariant slots == before.slots && active == before.active && stopped == before.stopped
        invariant if slots == [] then cursor == 0 else cursor == At(before.cursor, visited, |slots|)
        invariant slots != [] ==> NoneWithin(slots, now, before.cursor, visited)
      {
        var index := cursor;
        cursor := if cursor + 1 == |slots| then 0 else cursor + 1;
        ScanMoves(before.cursor, visited, |slots|);
        if !slots[index].inFlight && slots[index].due <= now {
          FirstFound(slots, now, before.cursor, index);
          StartSlot(index, now);
          return Some(index);
        }
        NoneWithinGrows(slots, now, before.cursor, visited, index);
        visited := visited + 1;
      }
      assert cursor == before.cursor;
      return None;
    }

    method Complete(slot: nat) returns (r: Result<()>)
      requires Valid()
      modifies this
      ensures Valid()
      ensures r.Ok? <==> slot < |old(slots)|
      ensures State() == if r.Ok? then Freed(old(State()), slot) else old(State())
    {
      if slot >= |slots| {
        return Thrown("out of range");
      }
      if slots[slot].inFlight {
        InFlightUpdate(slots, slot, slots[slot].(inFlight := false));
        slots := slots[slot := slots[slot].(inFlight := false)];
        active := active - 1;
      }
      return Ok(());
    }

    method NextDue() returns (next: Option<int64>)
      ensures IsNextDue(State(), next)
    {
      next := None;
      if stopped || active == MAX_IN_FLIGHT {
        return;
      }
      for k := 0 to |slots|
        invariant next.None? ==> forall j :: 0 <= j < k ==> slots[j].inFlight
        invariant next.Some? ==>
          && (exists j :: 0 <= j < k && !slots[j].inFlight && slots[j].due == next.value)
          && (forall j :: 0 <= j < k && !slots[j].inFlight ==> next.value <= slots[j].due)
      {
        if !slots[k].inFlight && (next.None? || slots[k].due < next.value) {
          next := Some(slots[k].due);
        }
      }
    }

    method Stop()
      requires Valid()
      modifies this
      ensures Valid() && State() == Stopped(old(State()))
    {
      stopped := true;
      ghost var before := slots;
      for k := 0 to |slots|
        invariant |slots| == |before| && stopped && cursor == old(cursor)
        invariant forall j :: 0 <= j < |slots| ==> slots[j] == if j < k then before[j].(inFlight := false) else before[j]
      {
        slots := slots[k := slots[k].(inFlight := false)];
      }
      active := 0;
      NoneInFlight(slots);
      assert slots == Stopped(old(State())).slots;
    }
  }

  /** The slot `k` places ahead of the cursor. */
  function At(c: nat, k: nat, n: nat): (i: nat)
    requires c < n && k <= n
    ensures i < n
  {
    if c + k < n then c + k else c + k - n
  }

  /** The scan visits the slots in order of distance, one at a time. */
  lemma ScanMoves(c: nat, k: nat, n: nat)
    requires c < n && k < n
    ensures Distance(c, At(c, k, n), n) == k && At(c, k + 1, n) == Successor(At(c, k, n), n)
  {
  }

  /** No slot less than `d` ahead of the cursor can start. */
  ghost predicate NoneWithin(slots: seq<Slot>, now: int64, c: nat, d: nat)
    requires c < |slots|
  {
    forall k :: 0 <= k < |slots| && Distance(c, k, |slots|) < d ==> !slots[k].Startable(now)
  }

  lemma NoneWithinGrows(slots: seq<Slot>, now: int64, c: nat, d: nat, index: nat)
    requires c < |slots| && NoneWithin(slots, now, c, d)
    requires index < |slots| && Distance(c, index, |slots|) == d && !slots[index].Startable(now)
    ensures NoneWithin(slots, now, c, d + 1)
  {
  }

  lemma FirstFound(slots: seq<Slot>, now: int64, c: nat, index: nat)
    requires c < |slots| && index < |slots| && slots[index].Startable(now)
    requires NoneWithin(slots, now, c, Distance(c, index, |slots|))
    ensures IsFirst(Startables(slots, now), c, index)
  {
  }

  /** `ProbeSchedule::ProbeSchedule` with its rejection of out-of-range intervals. */
  method Create(intervals: seq<int64>, now: int64) returns (r: Result<ProbeSchedule>)
    ensures r.Ok? <==> forall k :: 0 <= k < |intervals| ==> 100 <= intervals[k] <= 60000
    ensures r.Ok? ==> fresh(r.value) && r.value.Valid() && !r.value.stopped && |r.value.slots| == |intervals|
    ensures r.Ok? ==> forall k :: 0 <= k < |intervals| ==> r.value.slots[k] == Slot(intervals[k] * MILLISECOND, now, false)
  {
    for k := 0 to |intervals|
      invariant forall j :: 0 <= j < k ==> 100 <= intervals[j] <= 60000
    {
      if intervals[k] < 100 || intervals[k] > 60000 {
        return Thrown("probe interval must be positive");
      }
    }
    var schedule := new ProbeSchedule(intervals, now);
    return Ok(schedule);
  }

  // ----- properties of one step

  /** The two scans agree: a probe starts now if and only if the earliest due time has come. */
  lemma TakeAgreesWithNextDue(s: Schedule, now: int64, r: Option<nat>, s': Schedule, next: Option<int64>)
    requires s.Valid() && Takes(s, now, r, s') && IsNextDue(s, next)
    ensures r.Some? <==> next.Some? && next.value <= now
  {
    if r.Some? && !s.Blocked() {
      assert Startables(s.slots, now)[r.value];
      assert s.slots[r.value].Startable(now);
    }
  }

  /** A scan starts a slot exactly if fewer than four are in flight and some slot is idle and due. */
  lemma TakeSucceedsIff(s: Schedule, now: int64, r: Option<nat>, s': Schedule)
    requires s.Valid() && Takes(s, now, r, s')
    ensures r.Some? <==> !s.stopped && s.active < 4 && exists k :: 0 <= k < |s.slots| && !s.slots[k].inFlight && s.slots[k].due <= now
  {
    if r.Some? && !s.Blocked() {
      assert Startables(s.slots, now)[r.value];
    } else if !s.Blocked() {
      forall k | 0 <= k < |s.slots| ensures !(!s.slots[k].inFlight && s.slots[k].due <= now) {
        assert !s.slots[k].Startable(now);
      }
    }
  }

  // ----- whole runs

  datatype Event = Take(now: int64, started: Option<nat>) | Complete(slot: nat) | Stop

  ghost predicate Step(s: Schedule, e: Event, s': Schedule) {
    s.Valid() &&
    match e
    case Take(now, started) => Takes(s, now, started, s')
    case Complete(i) => i < |s.slots| && s' == Freed(s, i)
    case Stop => s' == Stopped(s)
  }

  /** A run: `states[k]` steps to `states[k + 1]` by `events[k]`. */
  ghost predicate Run(states: seq<Schedule>, events: seq<Event>) {
    && |states| == |events| + 1
    && states[0].Valid()
    && forall k :: 0 <= k < |events| ==> Step(states[k], events[k], states[k + 1])
  }

  predicate Starts(e: Event, i: nat) { e.Take? && e.started == Some(i) }

  lemma StepKeepsValid(s: Schedule, e: Event, s': Schedule)
    requires Step(s, e, s')
    ensures s'.Valid() && |s'.slots| == |s.slots|
    ensures forall k :: 0 <= k < |s.slots| ==> s'.slots[k].interval == s.slots[k].interval
  {
    match e
    case Take(now, started) =>
      if started.Some? && !s.Blocked() {
        var i := started.value;
        assert Startables(s.slots, now)[i];
        InFlightUpdate(s.slots, i, s.slots[i].Started(now));
      }
    case Complete(i) =>
      InFlightUpdate(s.slots, i, s.slots[i].(inFlight := false));
    case Stop =>
      NoneInFlight(s'.slots);
  }

  /** In every state of every run the counter is the number of slots in flight, and at most four. */
  lemma {:induction false} RunKeepsCounts(states: seq<Schedule>, events: seq<Event>, k: nat)
    requires Run(states, events) && k <= |events|
    ensures states[k].Valid() && |states[k].slots| == |states[0].slots|
    ensures states[k].active == InFlight(states[k].slots) <= 4
    ensures forall j :: 0 <= j < |states[0].slots| ==> states[k].slots[j].interval == states[0].slots[j].interval
  {
    if k > 0 {
      RunKeepsCounts(states, events, k - 1);
      StepKeepsValid(states[k - 1], events[k - 1], states[k]);
    }
  }

  /** Only a start moves a slot's due time, and a start happens no earlier than the due time it replaces. */
  lemma StepKeepsDue(s: Schedule, e: Event, s': Schedule, i: nat)
    requires Step(s, e, s') && i < |s.slots|
    ensures |s'.slots| == |s.slots|
    ensures !Starts(e, i) ==> s'.slots[i].due == s.slots[i].due
    ensures Starts(e, i) ==> s.slots[i].due <= e.now && s'.slots[i].due >= s.slots[i].due
    ensures Starts(e, i) ==> s'.slots[i].due as int == Min(e.now as int + s.slots[i].interval as int, MAX_TIME as int)
  {
    if e.Take? && e.started.Some? && !s.Blocked() {
      assert Startables(s.slots, e.now)[e.started.value];
    }
  }

  /** Once slot `i` was started at event `a`, its due time stays at least one interval after that start. */
  lemma {:induction false} DueAfterStart(states: seq<Schedule>, events: seq<Event>, i: nat, a: nat, k: nat)
    requires Run(states, events) && a < k <= |events| && i < |states[0].slots| && Starts(events[a], i)
    ensures |states[k].slots| == |states[0].slots|
    ensures states[k].slots[i].due as int >= Min(events[a].now as int + states[0].slots[i].interval as int, MAX_TIME as int)
    decreases k
  {
    RunKeepsCounts(states, events, k - 1);
    StepKeepsDue(states[k - 1], events[k - 1], states[k], i);
    if a < k - 1 {
      DueAfterStart(states, events, i, a, k - 1);
    }
  }

  /** Any two starts of a slot are at least its interval apart (up to saturation of the clock). */
  lemma StartsAreAnIntervalApart(states: seq<Schedule>, events: seq<Event>, i: nat, a: nat, b: nat)
    requires Run(states, events) && a < b < |events| && i < |states[0].slots|
    requires Starts(events[a], i) && Starts(events[b], i)
    ensures events[b].now as int >= Min(events[a].now as int + states[0].slots[i].interval as int, MAX_TIME as int)
  {
    DueAfterStart(states, events, i, a, b);
    StepKeepsDue(states[b], events[b], states[b + 1], i);
  }

  /** Slot `i` waits, idle and due, throughout events `a .. b`: nothing starts it, and every scan is past its due time. */
  ghost predicate Waits(states: seq<Schedule>, events: seq<Event>, i: nat, a: nat, b: nat)
    requires Run(states, events)
  {
    && a <= b <= |events| && i < |states[0].slots|
    && |states[a].slots| == |states[0].slots| && !states[a].slots[i].inFlight
    && (forall k :: a <= k < b ==> !Starts(events[k], i))
    && (forall k :: a <= k < b && events[k].Take? ==> states[a].slots[i].due <= events[k].now)
  }

  lemma {:induction false} WaitingSlotStaysIdle(states: seq<Schedule>, events: seq<Event>, i: nat, a: nat, b: nat)
    requires Run(states, events) && Waits(states, events, i, a, b)
    ensures |states[b].slots| == |states[0].slots|
    ensures !states[b].slots[i].inFlight && states[b].slots[i].due == states[a].slots[i].due
    decreases b
  {
    RunKeepsCounts(states, events, b);
    if a < b {
      WaitingSlotStaysIdle(states, events, i, a, b - 1);
      StepKeepsDue(states[b - 1], events[b - 1], states[b], i);
    }
  }

  /** A start of `j` while `i` waits picks a slot nearer to the cursor than `i`. */
  lemma StartIsNearer(s: Schedule, e: Event, s': Schedule, i: nat, j: nat)
    requires Step(s, e, s') && i < |s.slots| && Starts(e, j) && j != i
    requires s.slots[i].Startable(e.now)
    ensures j < |s.slots| && s'.cursor == Successor(j, |s.slots|)
    ensures Distance(s.cursor, j, |s.slots|) < Distance(s.cursor, i, |s.slots|)
  {
    assert Startables(s.slots, e.now)[i];
  }

  /** While `i` waits, the cursor comes nearer with every start, and every slot started so far lies beyond `i`. */
  lemma {:induction false} StartedSlotsLieBeyond(states: seq<Schedule>, events: seq<Event>, i: nat, a: nat, m: nat, b: nat, j: nat)
    requires Run(states, events) && Waits(states, events, i, a, b) && a <= m < b && Starts(events[m], j)
    ensures j < |states[0].slots| && states[b].Valid() && |states[b].slots| == |states[0].slots|
    ensures var n := |states[0].slots|; Distance(states[b].cursor, i, n) < Distance(states[b].cursor, j, n)
    decreases b
  {
    var k, n := b - 1, |states[0].slots|;
    RunKeepsCounts(states, events, k);
    RunKeepsCounts(states, events, b);
    assert Waits(states, events, i, a, k);
    WaitingSlotStaysIdle(states, events, i, a, k);
    if events[k].Take? && events[k].started.Some? {
      var j' := events[k].started.value;
      StartIsNearer(states[k], events[k], states[b], i, j');
      CursorPasses(states[k].cursor, j', i, n);
      if m < k {
        StartedSlotsLieBeyond(states, events, i, a, m, k, j);
        CursorPasses(states[k].cursor, j', j, n);
      } else {
        CursorPasses(states[k].cursor, j', j', n);
      }
    } else {
      StartedSlotsLieBeyond(states, events, i, a, m, k, j);
    }
  }

  /** Fairness: while a slot waits, idle and due, no other slot is started twice. */
  lemma NoSlotStartsTwiceWhileAnotherWaits(states: seq<Schedule>, events: seq<Event>, i: nat, a: nat, b: nat, m: nat, k: nat)
    requires Run(states, events) && Waits(states, events, i, a, b) && a <= m < k < b
    requires events[m].Take? && events[m].started.Some? && events[k].Take? && events[k].started.Some?
    ensures events[m].started != events[k].started
  {
    var j := events[m].started.value;
    assert Waits(states, events, i, a, k);
    StartedSlotsLieBeyond(states, events, i, a, m, k, j);
    WaitingSlotStaysIdle(states, events, i, a, k);
    StartIsNearer(states[k], events[k], states[k + 1], i, events[k].started.value);
  }
}
