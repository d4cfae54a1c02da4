/** The pool and any number of exchanges together: every connection has one owner. */
module ConnectionOwnership {
  import opened Common
  import opened ConnectionPool
  import PX = ProxyExchange
  import Safety = ExchangeSafety

  /** Connections are numbered in order of creation; `created` is the next number. */
  datatype World = World(pool: Pool<nat>, exchanges: map<nat, PX.Exchange>, created: nat)

  predicate IdleAt(w: World, k: nat, c: nat) {
    k < |w.pool.slots| && w.pool.slots[k].Some? && w.pool.slots[k].value.connection == c
  }

  predicate LeasedTo(w: World, e: nat, c: nat) {
    e in w.exchanges && w.exchanges[e].lease == Some(c)
  }

  ghost predicate IsIdle(w: World, c: nat) { exists k :: IdleAt(w, k, c) }

  ghost predicate IsLeased(w: World, c: nat) { exists e :: LeasedTo(w, e, c) }

  /** Owned by no one: a unique_ptr that went out of scope has destroyed the connection. */
  ghost predicate IsDiscarded(w: World, c: nat) {
    c < w.created && !IsIdle(w, c) && !IsLeased(w, c)
  }

  /** Each connection has at most one owner, one idle slot or one exchange. */
  ghost predicate SingleOwner(w: World) {
    && (forall j, k, c :: IdleAt(w, j, c) && IdleAt(w, k, c) ==> j == k)
    && (forall d, e, c :: LeasedTo(w, d, c) && LeasedTo(w, e, c) ==> d == e)
    && (forall k, e, c :: IdleAt(w, k, c) && LeasedTo(w, e, c) ==> false)
  }

  ghost predicate Inv(w: World) {
    && SingleOwner(w) && w.pool.Valid()
    && (forall k: nat, c: nat :: IdleAt(w, k, c) ==> c < w.created)
    && (forall e: nat, c: nat :: LeasedTo(w, e, c) ==> c < w.created)
    && (forall e :: e in w.exchanges ==> Safety.Inv(w.exchanges[e]))
  }

  datatype Event =
    /** An exchange is built: its connection comes from the pool (`at`) or is new. */
    | Open(id: nat, streams: bool, pooled: bool, wanted: nat -> bool, clean: nat -> bool, now: int64, at: Option<nat>)
    /** An exchange handler runs; a lease it returns is offered to the pool. */
    | Handle(id: nat, event: PX.Event, stillClean: bool, now: int64, throws: bool)
    /** An exchange is destroyed, with whatever lease it still holds. */
    | Destroy(id: nat)
    | Expire(now: int64)
    | Timer(outcome: WaitOutcome, now: int64, throws: bool)
    | Stop

  /** The connection an exchange is built with. */
  function LeaseOf(w: World, now: int64, at: Option<nat>): nat {
    var kept := Unexpired(w.pool.slots, now);
    if at.Some? && at.value < |kept| && kept[at.value].Some? then kept[at.value].value.connection else w.created
  }

  ghost predicate Step(w: World, e: Event, w': World) {
    match e
    case Open(id, streams, pooled, wanted, clean, now, at) =>
      && id !in w.exchanges
      && (if pooled then w.pool.Takes(wanted, clean, now, at, w'.pool) else at.None? && w'.pool == w.pool)
      && w'.exchanges == w.exchanges[id := PX.Fresh(streams, LeaseOf(w, now, at))]
      && w'.created == w.created + (if at.None? then 1 else 0)
    case Handle(id, event, stillClean, now, throws) =>
      && id in w.exchanges && PX.Enabled(w.exchanges[id], event)
      && w' == Moved(w, id, PX.Step(w.exchanges[id], event), stillClean, now, throws)
    case Destroy(id) => id in w.exchanges && w' == w.(exchanges := w.exchanges - {id})
    case Expire(now) => w' == w.(pool := w.pool.(slots := Unexpired(w.pool.slots, now)))
    case Timer(outcome, now, throws) => w' == w.(pool := w.pool.TimerDone(outcome, now, throws))
    case Stop => w' == w.(pool := w.pool.Stopped())
  }

  /** Every slot of the later pool held the same entry before. */
  predicate Fewer(p: Pool<nat>, p': Pool<nat>) {
    |p'.slots| == |p.slots| && forall k :: 0 <= k < |p.slots| ==> p'.slots[k] == p.slots[k] || p'.slots[k].None?
  }

  /** Losing owners keeps every connection with at most one. */
  lemma LosingOwnersKeepsInv(w: World, w': World)
    requires Inv(w) && w'.pool.Valid() && w'.created >= w.created
    requires forall k: nat, c: nat :: IdleAt(w', k, c) ==> IdleAt(w, k, c)
    requires forall e: nat, c: nat :: LeasedTo(w', e, c) ==> LeasedTo(w, e, c)
    requires forall e :: e in w'.exchanges ==> Safety.Inv(w'.exchanges[e])
    ensures Inv(w')
    ensures forall c :: (IsIdle(w', c) ==> IsIdle(w, c)) && (IsLeased(w', c) ==> IsLeased(w, c))
  {
    forall c | IsIdle(w', c) ensures IsIdle(w, c) { var k :| IdleAt(w', k, c); assert IdleAt(w, k, c); }
    forall c | IsLeased(w', c) ensures IsLeased(w, c) { var e :| LeasedTo(w', e, c); assert LeasedTo(w, e, c); }
  }

  lemma FewerKeepsInv(w: World, p: Pool<nat>)
    requires Inv(w) && Fewer(w.pool, p) && p.Valid()
    ensures Inv(w.(pool := p))
    ensures forall c :: (IsIdle(w.(pool := p), c) ==> IsIdle(w, c)) && (IsLeased(w.(pool := p), c) ==> IsLeased(w, c))
  {
    LosingOwnersKeepsInv(w, w.(pool := p));
  }

  lemma DestroyKeepsInv(w: World, id: nat)
    requires Inv(w) && id in w.exchanges
    ensures Inv(w.(exchanges := w.exchanges - {id}))
  {
    LosingOwnersKeepsInv(w, w.(exchanges := w.exchanges - {id}));
  }

  /** Leasing out a connection that no one else owns. */
  lemma LendKeepsInv(w: World, id: nat, streams: bool, c: nat)
    requires Inv(w) && id !in w.exchanges && c < w.created && !IsIdle(w, c) && !IsLeased(w, c)
    ensures Inv(w.(exchanges := w.exchanges[id := PX.Fresh(streams, c)]))
  {
    var w' := w.(exchanges := w.exchanges[id := PX.Fresh(streams, c)]);
    forall e, d | LeasedTo(w', e, d) ensures LeasedTo(w, e, d) || (e == id && d == c) { }
    forall k, d | IdleAt(w', k, d) ensures IdleAt(w, k, d) { }
    assert LeasedTo(w', id, c);
    forall e | e in w'.exchanges ensures Safety.Inv(w'.exchanges[e]) { }
  }

  /** Taking from the pool removes the lent entry from the idle slots. */
  lemma TakenIsNoLongerIdle(w: World, p: Pool<nat>, wanted: nat -> bool, clean: nat -> bool, now: int64, at: nat)
    requires Inv(w) && w.pool.Takes(wanted, clean, now, Some(at), p)
    ensures Fewer(w.pool, p) && p.Valid() && !w.pool.stopped
    ensures var c := LeaseOf(w, now, Some(at)); c < w.created && !IsIdle(w.(pool := p), c) && !IsLeased(w, c)
    ensures var c := LeaseOf(w, now, Some(at)); IsIdle(w, c) && wanted(c) && clean(c)
  {
    var kept := Unexpired(w.pool.slots, now);
    var c := kept[at].value.connection;
    assert IdleAt(w, at, c);
    var w' := w.(pool := p);
    forall k | IdleAt(w', k, c) ensures false { assert IdleAt(w, k, c); }
  }

  lemma NewNumberIsUnowned(w: World)
    requires Inv(w)
    ensures !IsIdle(w, w.created) && !IsLeased(w, w.created)
  {
  }

  lemma OpenFromPoolKeepsInv(w: World, p: Pool<nat>, id: nat, streams: bool, wanted: nat -> bool, clean: nat -> bool, now: int64, at: nat)
    requires Inv(w) && id !in w.exchanges && w.pool.Takes(wanted, clean, now, Some(at), p)
    ensures Inv(World(p, w.exchanges[id := PX.Fresh(streams, LeaseOf(w, now, Some(at)))], w.created))
  {
    TakenIsNoLongerIdle(w, p, wanted, clean, now, at);
    FewerKeepsInv(w, p);
    LendKeepsInv(w.(pool := p), id, streams, LeaseOf(w, now, Some(at)));
  }

  lemma OpenNewKeepsInv(w: World, p: Pool<nat>, id: nat, streams: bool)
    requires Inv(w) && id !in w.exchanges && Fewer(w.pool, p) && p.Valid()
    ensures Inv(World(p, w.exchanges[id := PX.Fresh(streams, w.created)], w.created + 1))
  {
    FewerKeepsInv(w, p);
    var grown := World(p, w.exchanges, w.created + 1);
    LosingOwnersKeepsInv(w.(pool := p), grown);
    NewNumberIsUnowned(w);
    LendKeepsInv(grown, id, streams, w.created);
  }

  lemma OpenKeepsInv(w: World, e: Event, w': World)
    requires Inv(w) && e.Open? && Step(w, e, w')
    ensures Inv(w')
  {
    if e.at.Some? {
      OpenFromPoolKeepsInv(w, w'.pool, e.id, e.streams, e.wanted, e.clean, e.now, e.at.value);
    } else {
      OpenNewKeepsInv(w, w'.pool, e.id, e.streams);
    }
  }

  /** Slot `s` of the later pool holds the offered connection; the others hold what they held, or nothing. */
  predicate Filled(p: Pool<nat>, p': Pool<nat>, s: nat, c: nat, now: int64) {
    && |p'.slots| == |p.slots| && s < |p.slots|
    && p'.slots[s] == Some(Idle(c, Deadline(now)))
    && forall k :: 0 <= k < |p.slots| && k != s ==> p'.slots[k] == p.slots[k] || p'.slots[k].None?
  }

  /** `put` adds at most the offered connection. */
  lemma PutAddsOnlyTheOffered(p: Pool<nat>, c: nat, clean: bool, now: int64, throws: bool)
    requires p.Valid()
    ensures var p' := p.Put(c, clean, now, throws);
      && p'.Valid() && |p'.slots| == |p.slots|
      && (Fewer(p, p') || exists k :: Filled(p, p', k, c, now))
  {
    if !p.stopped && clean {
      var kept := Unexpired(p.slots, now);
      var free := FirstFree(kept);
      if free.Some? {
        var k := free.value;
        var filled := p.(slots := kept[k := Some(Idle(c, Deadline(now)))]);
        assert p.Put(c, clean, now, throws) == filled.Armed(throws);
        if filled.timer.None? && throws {
          assert Earliest(filled.slots).Some? by { assert filled.slots[k].Some?; }
        } else {
          assert p.Put(c, clean, now, throws).slots == filled.slots;
          assert Filled(p, p.Put(c, clean, now, throws), k, c, now);
        }
      }
    }
  }

  /** Returning a lease: it becomes idle or is discarded, and no one else owns it. */
  lemma ReturnKeepsInv(w: World, id: nat, y: PX.Exchange, c: nat, clean: bool, now: int64, throws: bool)
    requires Inv(w) && LeasedTo(w, id, c) && y.lease.None? && Safety.Inv(y)
    ensures Inv(World(w.pool.Put(c, clean, now, throws), w.exchanges[id := y], w.created))
  {
    PutAddsOnlyTheOffered(w.pool, c, clean, now, throws);
    var w' := World(w.pool.Put(c, clean, now, throws), w.exchanges[id := y], w.created);
    assert forall e | e in w'.exchanges :: Safety.Inv(w'.exchanges[e]);
    forall e: nat, d: nat | LeasedTo(w', e, d)
      ensures LeasedTo(w, e, d) && d != c
    {
      assert LeasedTo(w, e, d);
    }
    if Fewer(w.pool, w'.pool) {
      LosingOwnersKeepsInv(w, w');
    } else {
      var s :| Filled(w.pool, w'.pool, s, c, now);
      forall k: nat, d: nat | IdleAt(w', k, d)
        ensures if k == s then d == c else IdleAt(w, k, d) && d != c
      {
        if k != s {
          assert IdleAt(w, k, d);
        }
      }
      assert SingleOwner(w');
    }
  }

  /** An exchange moves on; its lease stays, or is offered to the pool. */
  function Moved(w: World, id: nat, y: PX.Exchange, clean: bool, now: int64, throws: bool): World
    requires id in w.exchanges
  {
    var x := w.exchanges[id];
    World(if x.lease.Some? && y.lease.None? then w.pool.Put(x.lease.value, clean, now, throws) else w.pool, w.exchanges[id := y], w.created)
  }

  lemma MoveKeepsInv(w: World, id: nat, y: PX.Exchange, clean: bool, now: int64, throws: bool)
    requires Inv(w) && id in w.exchanges && Safety.Inv(y) && (y.lease == w.exchanges[id].lease || y.lease.None?)
    ensures Inv(Moved(w, id, y, clean, now, throws))
  {
    var x := w.exchanges[id];
    if x.lease.Some? && y.lease.None? {
      assert LeasedTo(w, id, x.lease.value);
      ReturnKeepsInv(w, id, y, x.lease.value, clean, now, throws);
    } else {
      var w' := World(w.pool, w.exchanges[id := y], w.created);
      assert forall d | d in w'.exchanges :: Safety.Inv(w'.exchanges[d]);
      LosingOwnersKeepsInv(w, w');
    }
  }

  lemma HandleKeepsInv(w: World, e: Event, w': World)
    requires Inv(w) && e.Handle? && Step(w, e, w')
    ensures Inv(w')
  {
    var y := PX.Step(w.exchanges[e.id], e.event);
    Safety.StepKeepsInv(w.exchanges[e.id], e.event);
    MoveKeepsInv(w, e.id, y, e.stillClean, e.now, e.throws);
  }

  lemma StepKeepsInv(w: World, e: Event, w': World)
    requires Inv(w) && Step(w, e, w')
    ensures Inv(w')
  {
    match e
    case Open(_, _, _, _, _, _, _) => OpenKeepsInv(w, e, w');
    case Handle(_, _, _, _, _) => HandleKeepsInv(w, e, w');
    case Destroy(id) => DestroyKeepsInv(w, id);
    case _ => FewerKeepsInv(w, w'.pool);
  }

  // ----- whole runs

  ghost predicate Run(worlds: seq<World>, events: seq<Event>) {
    && |worlds| == |events| + 1
    && worlds[0].exchanges == map[] && worlds[0].created == 0 && !worlds[0].pool.stopped
    && (forall k :: 0 <= k < |worlds[0].pool.slots| ==> worlds[0].pool.slots[k].None?)
    && (forall k :: 0 <= k < |events| ==> StepAt(worlds, events, k))
  }

  ghost predicate StepAt(worlds: seq<World>, events: seq<Event>, k: nat)
    requires |worlds| == |events| + 1 && k < |events|
  {
    Step(worlds[k], events[k], worlds[k + 1])
  }

  lemma {:induction false} RunKeepsInv(worlds: seq<World>, events: seq<Event>, k: nat)
    requires Run(worlds, events) && k <= |events|
    ensures Inv(worlds[k])
  {
    if k > 0 {
      RunKeepsInv(worlds, events, k - 1);
      assert StepAt(worlds, events, k - 1);
      StepKeepsInv(worlds[k - 1], events[k - 1], worlds[k]);
    }
  }

  /** In every state of every run each connection ever created is idle in one slot, leased to one exchange, or discarded, and only one of these. */
  lemma ExactlyOnePlace(worlds: seq<World>, events: seq<Event>, k: nat, c: nat)
    requires Run(worlds, events) && k <= |events| && c < worlds[k].created
    ensures var w := worlds[k];
      && (IsIdle(w, c) || IsLeased(w, c) || IsDiscarded(w, c))
      && !(IsIdle(w, c) && IsLeased(w, c))
      && SingleOwner(w)
  {
    RunKeepsInv(worlds, events, k);
  }

  /** A discarded connection never comes back. */
  lemma DiscardedStaysDiscarded(w: World, e: Event, w': World, c: nat)
    requires Inv(w) && Step(w, e, w') && IsDiscarded(w, c)
    ensures IsDiscarded(w', c)
  {
    StepKeepsInv(w, e, w');
    if IsIdle(w', c) {
      var k :| IdleAt(w', k, c);
      IdleCameFrom(w, e, w', k, c);
    }
    if IsLeased(w', c) {
      var d :| LeasedTo(w', d, c);
      LeaseCameFrom(w, e, w', d, c);
    }
  }

  /** The same over whole runs: no later step pools or lends it again. */
  lemma {:induction false} DiscardedForever(worlds: seq<World>, events: seq<Event>, i: nat, k: nat, c: nat)
    requires Run(worlds, events) && i <= k <= |events| && IsDiscarded(worlds[i], c)
    ensures IsDiscarded(worlds[k], c)
    decreases k
  {
    if i < k {
      DiscardedForever(worlds, events, i, k - 1, c);
      RunKeepsInv(worlds, events, k - 1);
      assert StepAt(worlds, events, k - 1);
      DiscardedStaysDiscarded(worlds[k - 1], events[k - 1], worlds[k], c);
    }
  }

  /** An exchange holds the connection and has closed it. */
  predicate HeldClosed(w: World, e: nat, c: nat) {
    LeasedTo(w, e, c) && w.exchanges[e].closed
  }

  /** Some exchange has closed the connection by now. */
  ghost predicate WasClosed(worlds: seq<World>, k: nat, c: nat)
    requires k < |worlds|
  {
    exists i: nat, e: nat :: i <= k && HeldClosed(worlds[i], e, c)
  }

  lemma StepCreates(w: World, e: Event, w': World)
    requires Step(w, e, w')
    ensures w.created <= w'.created
  {
  }

  /** A lease that stays with its exchange stays closed. */
  lemma StaysClosed(w: World, e: Event, w': World, d: nat, c: nat)
    requires Inv(w) && Step(w, e, w') && HeldClosed(w, d, c) && LeasedTo(w', d, c)
    ensures HeldClosed(w', d, c)
  {
    if e.Handle? && e.id == d {
      assert PX.Keeps(w.exchanges[d], PX.Step(w.exchanges[d], e.event));
    }
  }

  /** One step: a closed connection does not become idle, and no exchange gets it open. */
  lemma ClosedStepIsFinal(w: World, e: Event, w': World, c: nat)
    requires Inv(w) && Step(w, e, w') && c < w.created
    requires OnlyHeldClosed(w, c)
    ensures OnlyHeldClosed(w', c)
  {
    if IsIdle(w', c) {
      var k :| IdleAt(w', k, c);
      IdleCameFrom(w, e, w', k, c);
    }
    forall d | LeasedTo(w', d, c) ensures HeldClosed(w', d, c) {
      LeaseCameFrom(w, e, w', d, c);
      StaysClosed(w, e, w', d, c);
    }
  }

  ghost predicate OnlyHeldClosed(w: World, c: nat) {
    !IsIdle(w, c) && forall d :: LeasedTo(w, d, c) ==> HeldClosed(w, d, c)
  }

  lemma {:induction false} ClosedSince(worlds: seq<World>, events: seq<Event>, i: nat, e: nat, k: nat, c: nat)
    requires Run(worlds, events) && i <= k <= |events| && HeldClosed(worlds[i], e, c)
    ensures OnlyHeldClosed(worlds[k], c) && c < worlds[k].created
    decreases k
  {
    if i < k {
      ClosedSince(worlds, events, i, e, k - 1, c);
      RunKeepsInv(worlds, events, k - 1);
      assert StepAt(worlds, events, k - 1);
      ClosedStepIsFinal(worlds[k - 1], events[k - 1], worlds[k], c);
      StepCreates(worlds[k - 1], events[k - 1], worlds[k]);
    } else {
      RunKeepsInv(worlds, events, i);
      OwnedByOne(worlds[i], e, c);
    }
  }

  /** Over whole runs: once closed, a connection is never idle in the pool, and whoever still holds it has closed it. */
  lemma ClosedIsNeverPooled(worlds: seq<World>, events: seq<Event>, k: nat, c: nat)
    requires Run(worlds, events) && k <= |events| && WasClosed(worlds, k, c)
    ensures !IsIdle(worlds[k], c) && forall d :: LeasedTo(worlds[k], d, c) ==> HeldClosed(worlds[k], d, c)
  {
    var i: nat, e: nat :| i <= k && HeldClosed(worlds[i], e, c);
    ClosedSince(worlds, events, i, e, k, c);
  }

  lemma OwnedByOne(w: World, e: nat, c: nat)
    requires Inv(w) && LeasedTo(w, e, c)
    ensures !IsIdle(w, c) && forall d :: LeasedTo(w, d, c) ==> d == e
  {
  }

  /** A connection is idle only if it was idle before or has just been returned by the exchange that held it. */
  lemma IdleCameFrom(w: World, e: Event, w': World, k: nat, c: nat)
    requires Inv(w) && Step(w, e, w') && IdleAt(w', k, c)
    ensures IdleAt(w, k, c) || (e.Handle? && LeasedTo(w, e.id, c) && w'.exchanges[e.id].lease.None? && !w.exchanges[e.id].closed)
  {
    if Returns(w, e) {
      var x := w.exchanges[e.id];
      ReturnedLeaseIsOpen(x, e.event);
      PutAddsOnlyTheOffered(w.pool, x.lease.value, e.stillClean, e.now, e.throws);
      if Fewer(w.pool, w'.pool) {
        assert IdleAt(w, k, c);
      } else {
        var s :| Filled(w.pool, w'.pool, s, x.lease.value, e.now);
        assert k != s ==> IdleAt(w, k, c);
      }
    } else {
      OnlyReturnsAdd(w, e, w');
      assert IdleAt(w, k, c);
    }
  }

  /** The step is a handler that gives its exchange's lease away. */
  predicate Returns(w: World, e: Event) {
    && e.Handle? && e.id in w.exchanges && PX.Enabled(w.exchanges[e.id], e.event)
    && w.exchanges[e.id].lease.Some? && PX.Step(w.exchanges[e.id], e.event).lease.None?
  }

  lemma OnlyReturnsAdd(w: World, e: Event, w': World)
    requires Inv(w) && Step(w, e, w') && !Returns(w, e)
    ensures Fewer(w.pool, w'.pool)
  {
  }

  /** A connection is leased only if the same exchange held it before, or a new exchange took it from a slot or created it. */
  lemma LeaseCameFrom(w: World, e: Event, w': World, d: nat, c: nat)
    requires Inv(w) && Step(w, e, w') && LeasedTo(w', d, c)
    ensures LeasedTo(w, d, c) || (e.Open? && d == e.id && (c == w.created || (IsIdle(w, c) && e.wanted(c) && e.clean(c))))
  {
    if e.Open? && e.at.Some? {
      TakenIsNoLongerIdle(w, w'.pool, e.wanted, e.clean, e.now, e.at.value);
    }
  }

  /** An exchange only ever returns a lease that it has not closed. */
  lemma ReturnedLeaseIsOpen(x: PX.Exchange, e: PX.Event)
    requires Safety.Inv(x) && PX.Enabled(x, e) && x.lease.Some? && PX.Step(x, e).lease.None?
    ensures !x.closed && !x.claimed
  {
    if x.claimed {
      Safety.EndedStepIsInert(x, e);
    }
  }

  /** A callback of an exchange that gave its lease away touches no connection at all, wherever that lease is now. */
  lemma StaleCallbackTouchesNothing(w: World, e: Event, w': World)
    requires Inv(w) && e.Handle? && Step(w, e, w') && w.exchanges[e.id].lease.None?
    ensures w'.pool == w.pool && w'.created == w.created
    ensures forall d :: d in w.exchanges && d != e.id ==> w'.exchanges[d] == w.exchanges[d]
    ensures w'.exchanges[e.id].lease.None? && w'.exchanges[e.id].closed == w.exchanges[e.id].closed
  {
    var x := w.exchanges[e.id];
    assert x.claimed;
    Safety.EndedStepIsInert(x, e.event);
  }

  lemma StopIsKept(w: World, e: Event, w': World)
    requires w.pool.stopped && Step(w, e, w')
    ensures w'.pool.stopped && (e.Open? ==> e.at.None?)
  {
    if e.Handle? {
      assert w'.pool == w.pool;
    }
  }

  /** After the pool has stopped it holds nothing, every new exchange gets a new connection, and returned leases are discarded. */
  lemma {:induction false} NothingPooledAfterStop(worlds: seq<World>, events: seq<Event>, s: nat, k: nat)
    requires Run(worlds, events) && s <= k <= |events| && worlds[s].pool.stopped
    ensures worlds[k].pool.stopped && forall c :: !IsIdle(worlds[k], c)
    ensures k < |events| && events[k].Open? ==> events[k].at.None?
    decreases k
  {
    RunKeepsInv(worlds, events, k);
    if s < k {
      NothingPooledAfterStop(worlds, events, s, k - 1);
      assert StepAt(worlds, events, k - 1);
      StopIsKept(worlds[k - 1], events[k - 1], worlds[k]);
    }
    if k < |events| {
      assert StepAt(worlds, events, k);
      StopIsKept(worlds[k], events[k], worlds[k + 1]);
    }
  }
}
