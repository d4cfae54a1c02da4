/**
 The exchange as an object among the others: it takes its connection from a real pool and gives it back,
 reserves and shrinks a real permit of the shared budget, and hands the permit on with the response. The
 protocol itself is the state machine, which the handlers advance.
 */
module ExchangeObject {
  import opened Common
  import B = BufferBudget
  import CP = ConnectionPool
  import EB = ExchangeBudget
  import PX = ProxyExchange
  import Runs = ExchangeRuns
  import Safety = ExchangeSafety

  /** What the pool is told when a lease comes back. */
  datatype Return = Return(clean: bool, now: int64, armThrows: bool)

  /** The slot holds a matching, clean connection whose time is not over. */
  predicate Lendable(slot: Option<CP.Idle<nat>>, wanted: nat -> bool, clean: nat -> bool, now: int64) {
    slot.Some? && slot.value.deadline > now && wanted(slot.value.connection) && clean(slot.value.connection)
  }

  class HttpProxyExchange {
    const pool: CP.UpstreamPool?<nat>        // null when connections are not kept
    const budget: B.BufferBudgetControl
    const permit: B.BufferBudgetPermit       // of the response body, or of the stream block
    const reused: bool
    var protocol: PX.Exchange
    var length: Option<uint64>               // declared by the response header
    ghost var trace: seq<PX.Event>           // the events so far
    ghost var states: seq<PX.Exchange>       // the protocol's states before, between and after them

    ghost function Holding(): Option<nat>
      reads this, permit
    {
      var bytes: nat := permit.bytes as int;
      if permit.control == null then None else Some(bytes)
    }

    /** The permit is empty or one of the budget's. */
    ghost predicate BudgetValid()
      reads this, permit, budget, budget.held.Keys
    {
      && budget.Valid()
      && (if permit.control == null then permit.bytes == 0 else permit.control == budget && permit in budget.held)
    }

    /** The protocol is where its state machine is after the events so far, so every theorem about whole runs applies to it. */
    ghost predicate Traced()
      reads this
    {
      Runs.Run(states, trace) && protocol == states[|trace|]
    }

    /** The protocol's invariant, with every outstanding buffer paid for by the real permit. */
    ghost predicate Valid()
      reads this, permit, budget, budget.held.Keys
    {
      BudgetValid() && Traced() && EB.Solvent(Holding(), EB.Flight(protocol, length))
    }

    ghost predicate PoolValid()
      reads this, pool, if pool == null then {} else {pool.idle}
    {
      pool != null ==> pool.Valid()
    }

    /** The pool after a handler: a lease that left the exchange was put, and nothing else happened. */
    twostate predicate PoolFollows(back: Return)
      reads this, pool, if pool == null then {} else {pool.idle}
    {
      && PoolValid()
      && (pool == null ==> protocol.lease == old(protocol.lease))
      && (pool != null ==>
            pool.State() == if old(protocol.lease).Some? && protocol.lease.None?
                            then old(pool.State()).Put(old(protocol.lease).value, back.clean, back.now, back.armThrows)
                            else old(pool.State()))
    }

    /** The connection comes from the pool if it has a matching clean one; otherwise it is the new one offered. */
    constructor (pool: CP.UpstreamPool?<nat>, budget: B.BufferBudgetControl, streams: bool,
                 wanted: nat -> bool, clean: nat -> bool, now: int64, connection: nat)
      requires budget.Valid() && (pool != null ==> pool.Valid())
      modifies if pool == null then {} else {pool.idle}
      ensures Valid() && PoolValid() && fresh(permit) && this.pool == pool && this.budget == budget
      ensures protocol.lease.Some? && protocol == PX.Fresh(streams, protocol.lease.value) && trace == []
      ensures !reused ==> protocol.lease == Some(connection)
      ensures !reused && pool != null && !pool.stopped ==>
        forall k :: 0 <= k < pool.idle.Length ==> !Lendable(old(pool.idle[k]), wanted, clean, now)
      ensures reused ==> pool != null && !pool.stopped && wanted(protocol.lease.value) && clean(protocol.lease.value)
    {
      this.pool, this.budget, length := pool, budget, None;
      permit := new B.BufferBudgetPermit();
      var lease := None;
      if pool != null {
        ghost var at;
        lease, at := pool.Take(wanted, clean, now);
      }
      reused := lease.Some?;
      protocol := PX.Fresh(streams, if lease.Some? then lease.value else connection);
      trace, states := [], [PX.Fresh(streams, if lease.Some? then lease.value else connection)];
    }

    /** One step of the protocol, after its buffers are settled; a lease that leaves is put into the pool. */
    method Advance(e: PX.Event, back: Return)
      requires BudgetValid() && PoolValid() && Traced() && Ready(Holding(), protocol, length, e, pool == null)
      modifies `protocol, `trace, `states, pool, if pool == null then {} else {pool.idle}
      ensures Valid() && PoolFollows(back) && trace == old(trace) + [e]
    {
      var next := PX.Step(protocol, e);
      Runs.RunGrows(states, trace, e, next);
      Replace(next, e, back);
    }

    /** The effect of a step whose outcome is known. */
    method Replace(next: PX.Exchange, ghost e: PX.Event, back: Return)
      requires BudgetValid() && PoolValid() && EB.Solvent(Holding(), EB.Flight(next, length))
      requires |states| == |trace| + 1 && Runs.Run(states + [next], trace + [e])
      requires pool == null ==> next.lease == protocol.lease
      modifies `protocol, `trace, `states, pool, if pool == null then {} else {pool.idle}
      ensures Valid() && PoolFollows(back) && trace == old(trace) + [e]
    {
      var lease := protocol.lease;
      protocol := next;
      trace, states := trace + [e], states + [next];
      if lease.Some? && next.lease.None? && pool != null {
        pool.Put(lease.value, back.clean, back.now, back.armThrows);
      }
    }

    /** What the header means when this much of the budget is left. */
    function Meaning(parsed: EB.Parsed): PX.Head
      reads this, budget
      requires budget.currentBytes <= budget.maxBytes
    {
      EB.Judge((budget.maxBytes - budget.currentBytes) as int, protocol.streams, parsed)
    }

    /**
     The response header is there. Its meaning follows from the real budget; bytes granted are held by the
     exchange's permit, unless the handler fails to build before it has them.
     */
    method OnHeader(parsed: EB.Parsed, kept: bool, f: PX.Fault, back: Return)
      requires Valid() && PoolValid() && (parsed.Header? && parsed.reusable ==> pool != null)
      requires PX.ReadingHeader in protocol.ops
      modifies this, permit, budget, pool, if pool == null then {} else {pool.idle}
      ensures Valid() && PoolFollows(back)
      ensures trace == old(trace) + [PX.HeaderRead(old(Meaning(parsed)), f)]
      ensures budget.Book() ==
        if EB.Reserves(old(protocol), old(Meaning(parsed)), kept, f) then old(budget.Book()).Acquired(permit, old(Meaning(parsed)).blockSize)
        else old(budget.Book())
    {
      var head := Meaning(parsed);
      ghost var before, declared, room: nat := Holding(), length, (budget.maxBytes - budget.currentBytes) as int;
      HeaderFindsNothing(before, protocol, length);
      Reserve(head, EB.Reserves(protocol, head, kept, f), parsed);
      AdvanceHeader(before, declared, room, parsed, head, kept, f, back);
    }

    method AdvanceHeader(ghost before: Option<nat>, ghost declared: Option<uint64>, ghost room: nat,
                         ghost parsed: EB.Parsed, head: PX.Head, ghost kept: bool, f: PX.Fault, back: Return)
      requires BudgetValid() && PoolValid() && Traced() && EB.Solvent(before, EB.Flight(protocol, declared))
      requires PX.ReadingHeader in protocol.ops && EB.Fair(head, room, protocol.streams, parsed)
      requires head.NoBodyLeft? && head.reusable ==> pool != null
      requires length == if parsed.Header? then parsed.length else declared
      requires Holding() == if EB.Reserves(protocol, head, kept, f) then Some(head.blockSize) else None
      modifies `protocol, `trace, `states, pool, if pool == null then {} else {pool.idle}
      ensures Valid() && PoolFollows(back) && trace == old(trace) + [PX.HeaderRead(head, f)]
    {
      HeaderReady(before, protocol, declared, head, parsed, room, kept, f, pool == null);
      Advance(PX.HeaderRead(head, f), back);
    }

    method Reserve(head: PX.Head, reserves: bool, parsed: EB.Parsed)
      requires BudgetValid() && permit.control == null && (reserves ==> head.BodyFollows? && budget.Book().HasRoom(head.blockSize))
      modifies permit, budget, `length
      ensures BudgetValid() && Holding() == if reserves then Some(head.blockSize) else None
      ensures budget.Book() == if reserves then old(budget.Book()).Acquired(permit, head.blockSize) else old(budget.Book())
      ensures length == if parsed.Header? then parsed.length else old(length)
    {
      if reserves {
        Grant(head.blockSize as uint64);
      }
      if parsed.Header? {
        length := parsed.length;
      }
    }

    /** Bytes that fit are reserved and moved into the exchange's own permit. */
    method Grant(bytes: uint64)
      requires budget.Valid() && permit.control == null && permit.bytes == 0 && permit !in budget.held
      requires budget.Book().HasRoom(bytes as int)
      modifies permit, budget
      ensures budget.Valid() && permit.control == budget && permit.bytes == bytes && permit in budget.held
      ensures budget.Book() == old(budget.Book()).Acquired(permit, bytes as int)
    {
      var granted := budget.TryAcquire(bytes);
      permit.TakeOver(granted);
    }

    /**
     The response body is there. The shrink always succeeds, what stays reserved is the size of the body, and
     it leaves with the response if one is completed.
     */
    method OnBody(error: bool, size: uint64, reusable: bool, f: PX.Fault, back: Return) returns (response: B.BufferBudgetPermit?)
      requires Valid() && PoolValid() && (reusable ==> pool != null)
      requires PX.ReadingBody in protocol.ops && (!error ==> B.ParserYields(length, EB.MAX_BODY, size))
      modifies this, permit, budget, pool, if pool == null then {} else {pool.idle}
      ensures Valid() && PoolFollows(back)
      ensures trace == old(trace) + [PX.BodyRead(error, true, reusable, f)]
      ensures budget.currentBytes as int == old(budget.currentBytes) as int - (if old(protocol.observed) || error then 0 else old(permit.bytes) as int - size as int)
      ensures response != null <==> !old(protocol.observed) && !error && f != PX.AtEntry && f != PX.BuildFails
      ensures response != null ==>
        fresh(response) && response.Valid() && response.control == budget && response.bytes == size && permit.control == null
      ensures response == null && !old(protocol.observed) && !error ==> permit.control == budget && permit.bytes == size
    {
      ghost var before := Holding();
      assert EB.PaidBy(before, EB.Flight(protocol, length), PX.ReadingBody);
      response := TakeBody(!protocol.observed && !error, size, f != PX.AtEntry && f != PX.BuildFails);
      AdvanceBody(before, error, reusable, f, back);
    }

    method AdvanceBody(ghost before: Option<nat>, error: bool, reusable: bool, f: PX.Fault, back: Return)
      requires BudgetValid() && PoolValid() && Traced() && EB.Solvent(before, EB.Flight(protocol, length))
      requires PX.ReadingBody in protocol.ops && (reusable ==> pool != null)
      modifies `protocol, `trace, `states, pool, if pool == null then {} else {pool.idle}
      ensures Valid() && PoolFollows(back) && trace == old(trace) + [PX.BodyRead(error, true, reusable, f)]
    {
      BodyReady(before, protocol, length, error, reusable, f, Holding(), pool == null);
      Advance(PX.BodyRead(error, true, reusable, f), back);
    }

    /** The budget's side of it: shrink if the body is wanted, and hand the rest on if the response is completed. */
    method TakeBody(wanted: bool, size: uint64, completes: bool) returns (response: B.BufferBudgetPermit?)
      requires BudgetValid() && (wanted ==> B.Covers(permit, length, EB.MAX_BODY) && B.ParserYields(length, EB.MAX_BODY, size))
      modifies permit, budget
      ensures BudgetValid() && (response != null <==> wanted && completes)
      ensures budget.currentBytes as int == old(budget.currentBytes) as int - (if wanted then old(permit.bytes) as int - size as int else 0)
      ensures response != null ==>
        fresh(response) && response.Valid() && response.control == budget && response.bytes == size && permit.control == null
      ensures response == null && wanted ==> permit.control == budget && permit.bytes == size
    {
      response := null;
      if wanted {
        var shrunk := B.BodyArrived(permit, length, EB.MAX_BODY, size);
        if completes {
          response := new B.BufferBudgetPermit();
          response.TakeOver(permit);
        }
      }
    }

    /** Any other event the environment may deliver: no bytes are reserved or given back. */
    method OnEvent(e: PX.Event, back: Return)
      requires Valid() && PoolValid() && PX.Enabled(protocol, e) && !e.HeaderRead? && !e.BodyRead?
      requires (e.Sent? && e.reusable ==> pool != null) && (e.Start? ==> e.reused == reused)
      modifies this, pool, if pool == null then {} else {pool.idle}
      ensures Valid() && PoolFollows(back) && trace == old(trace) + [e]
    {
      EventReady(Holding(), protocol, length, e, pool == null);
      Advance(e, back);
    }
  }

  /** Without a pool no connection counts as reusable, so the lease never leaves. */
  lemma NoPoolKeepsLease(x: PX.Exchange, e: PX.Event, noPool: bool)
    requires Safety.Inv(x) && PX.Enabled(x, e) && (noPool ==> !Runs.EndsReusably(x, e))
    ensures noPool ==> PX.Step(x, e).lease == x.lease
  {
    if noPool && x.lease.Some? {
      Runs.LeaseReturnedIff(x, e);
    }
  }

  /** The event may happen, leaves the exchange solvent with what it then holds, and keeps the lease if there is no pool. */
  ghost predicate Ready(held: Option<nat>, x: PX.Exchange, length: Option<uint64>, e: PX.Event, noPool: bool) {
    && PX.Enabled(x, e) && EB.Solvent(held, EB.Flight(PX.Step(x, e), length))
    && (noPool ==> PX.Step(x, e).lease == x.lease)
  }

  /** Everything the header handler needs to know about the protocol, before it touches the budget. */
  lemma HeaderReady(held: Option<nat>, x: PX.Exchange, length: Option<uint64>, head: PX.Head, parsed: EB.Parsed, room: nat, kept: bool, f: PX.Fault, noPool: bool)
    requires EB.Solvent(held, EB.Flight(x, length)) && PX.ReadingHeader in x.ops && EB.Fair(head, room, x.streams, parsed)
    requires head.NoBodyLeft? && head.reusable ==> !noPool
    ensures Ready(if EB.Reserves(x, head, kept, f) then Some(head.blockSize) else None, x, if parsed.Header? then parsed.length else length, PX.HeaderRead(head, f), noPool)
  {
    EB.HeaderStaysSolvent(held, EB.Flight(x, length), head, parsed, room, kept, f);
    NoPoolKeepsLease(x, PX.HeaderRead(head, f), noPool);
  }

  /** Before the header nothing is held. */
  lemma HeaderFindsNothing(held: Option<nat>, x: PX.Exchange, length: Option<uint64>)
    requires EB.Solvent(held, EB.Flight(x, length)) && PX.ReadingHeader in x.ops
    ensures held.None?
  {
    assert EB.PaidBy(held, EB.Flight(x, length), PX.ReadingHeader);
  }

  /** The same for the body handler: afterwards nothing is outstanding, whatever is still held. */
  lemma BodyReady(held: Option<nat>, x: PX.Exchange, length: Option<uint64>, error: bool, reusable: bool, f: PX.Fault, after: Option<nat>, noPool: bool)
    requires EB.Solvent(held, EB.Flight(x, length)) && PX.ReadingBody in x.ops && (reusable ==> !noPool)
    ensures Ready(after, x, length, PX.BodyRead(error, true, reusable, f), noPool)
  {
    var e := PX.BodyRead(error, true, reusable, f);
    NoPoolKeepsLease(x, e, noPool);
    EB.BodyStaysSolvent(held, EB.Flight(x, length), e, after);
  }

  lemma EventReady(held: Option<nat>, x: PX.Exchange, length: Option<uint64>, e: PX.Event, noPool: bool)
    requires EB.Solvent(held, EB.Flight(x, length)) && PX.Enabled(x, e) && !e.HeaderRead? && !e.BodyRead?
    requires e.Sent? && e.reusable ==> !noPool
    ensures Ready(held, x, length, e, noPool)
  {
    EB.OtherStaysSolvent(held, EB.Flight(x, length), e);
    NoPoolKeepsLease(x, e, noPool);
  }
}
