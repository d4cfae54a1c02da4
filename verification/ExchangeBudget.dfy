/**
 The body-buffer budget shared by any number of exchanges. What a response header means, and whether
 a shrink succeeds, is no longer the environment's choice here: it follows from the header's length and
 from the budget. What is left to the environment is the parser's contract.
 */
module ExchangeBudget {
  import opened Common
  import L = BudgetLedger
  import B = BufferBudget
  import PX = ProxyExchange
  import Safety = ExchangeSafety

  const MAX_BODY: uint64 := 1_048_576

  /** Who holds a reservation: an exchange, the response it has completed, or a session's request body. */
  datatype Holder = OfExchange(id: nat) | OfResponse(id: nat) | OfRequest(id: nat)

  type Book = L.Ledger<Holder>

  /** A response header, as the parser reports it. `valid` excludes informational responses and, when streaming, upgrades. */
  datatype Parsed = ReadError | Header(valid: bool, length: Option<uint64>, complete: bool, reusable: bool)

  /** What is asked of the budget fits, is a proper stream block, or covers every body the parser may yield. */
  ghost predicate Fair(head: PX.Head, room: int, streams: bool, p: Parsed) {
    head.BodyFollows? ==>
      && p.Header? && head.blockSize <= room
      && (streams ==> 1 <= head.blockSize <= PX.MAX_BLOCK)
      && (!streams ==> forall n: uint64 :: B.ParserYields(p.length, MAX_BODY, n) ==> n as int <= head.blockSize)
  }

  predicate Usable(p: Parsed) { p.Header? && p.valid }

  /** The bytes without which a body cannot be read: one for a stream, the declared length or the limit for a whole body. */
  function Wanted(streams: bool, p: Parsed): int
    requires p.Header?
  {
    if streams then 1 else if p.length.Some? then p.length.value as int else 1_048_576
  }

  /** `on_read_header` and `start_stream` up to the reservation: what the header means when `room` bytes of the budget are left. */
  function Judge(room: nat, streams: bool, p: Parsed): (head: PX.Head)
    ensures Fair(head, room, streams, p)
    // when each outcome occurs
    ensures head.HeadError? <==> p.ReadError?
    ensures head.Invalid? <==> p.Header? && !p.valid
    ensures head.TooLarge? <==> Usable(p) && p.length.Some? && p.length.value > 1_048_576 && (streams || !p.complete)
    ensures head.NoBodyLeft? <==> Usable(p) && p.complete && !head.TooLarge?
    ensures head.BudgetRejected? <==> Usable(p) && !p.complete && !head.TooLarge? && room < Wanted(streams, p)
    ensures head.BodyFollows? <==> Usable(p) && !p.complete && !head.TooLarge? && room >= Wanted(streams, p)
    ensures head.NoBodyLeft? ==> head.reusable == p.reusable
    ensures head.BodyFollows? ==> head.blockSize == if streams then Min(16384, room) else Wanted(streams, p)
  {
    if p.ReadError? then PX.HeadError
    else if !p.valid then PX.Invalid
    else if streams then
      if p.length.Some? && p.length.value > MAX_BODY then PX.TooLarge
      else if p.complete then PX.NoBodyLeft(p.reusable)
      else
        var bytes := Min(PX.MAX_BLOCK, room);
        if bytes == 0 then PX.BudgetRejected else PX.BodyFollows(bytes)
    else
      match B.PlanBodyReservation(p.length, p.complete, MAX_BODY)
      case TooLarge => PX.TooLarge
      case NoReservation => PX.NoBodyLeft(p.reusable)
      case Reserve(n) => if n as int <= room then PX.BodyFollows(n as int) else PX.BudgetRejected
  }

  // ----- the world: the book and the exchanges

  /** An exchange and the length its response header declared. */
  datatype Flight = Flight(x: PX.Exchange, length: Option<uint64>)

  datatype World = World(book: Book, flights: map<nat, Flight>, created: nat)

  datatype Event =
    | Open(streams: bool, lease: nat)
    /** The header handler; `kept` says whether a streaming handler that fails to build had its permit already. */
    | OnHeader(id: nat, parsed: Parsed, kept: bool, f: PX.Fault)
    | OnBody(id: nat, error: bool, size: uint64, reusable: bool, f: PX.Fault)
    | OnOther(id: nat, event: PX.Event)
    | Destroy(id: nat)
    | ResponseDone(id: nat)
    /** What sessions do with their request bodies. */
    | Request(op: L.Op<Holder>)

  function HeaderEvent(w: World, e: Event): PX.Event
    requires e.OnHeader? && e.id in w.flights && w.book.current <= w.book.max
  {
    PX.HeaderRead(Judge(w.book.max - w.book.current, w.flights[e.id].x.streams, e.parsed), e.f)
  }

  function BodyEvent(w: World, e: Event): PX.Event
    requires e.OnBody? && e.id in w.flights
  {
    PX.BodyRead(e.error, w.book.Shrinks(OfExchange(e.id), e.size as int), e.reusable, e.f)
  }

  /** Only request permits, and not shared ones, are touched by sessions here. */
  predicate IsRequestOp(op: L.Op<Holder>) {
    match op
    case Acquire(p, _) => p.OfRequest?
    case Release(p) => p.OfRequest?
    case Shrink(p, _) => p.OfRequest?
    case _ => false
  }

  /** The environment's contract, the parser's included. Outstanding callbacks keep an exchange alive. */
  predicate Can(w: World, e: Event) {
    w.book.current <= w.book.max &&
    match e
    case Open(_, _) => true
    case OnHeader(id, _, _, _) => id in w.flights && PX.Enabled(w.flights[id].x, HeaderEvent(w, e))
    case OnBody(id, error, size, _, _) =>
      id in w.flights && (!error ==> B.ParserYields(w.flights[id].length, MAX_BODY, size)) && PX.Enabled(w.flights[id].x, BodyEvent(w, e))
    case OnOther(id, event) => id in w.flights && !event.HeaderRead? && !event.BodyRead? && PX.Enabled(w.flights[id].x, event)
    case Destroy(id) => id in w.flights && w.flights[id].x.ops == multiset{}
    case ResponseDone(_) => true
    case Request(op) => IsRequestOp(op)
  }

  /** The book after the header handler: a grant is held by the exchange, unless the handler failed before it had it. */
  function Granted(book: Book, id: nat, x: PX.Exchange, head: PX.Head, kept: bool, f: PX.Fault): Book {
    if Reserves(x, head, kept, f) then book.Acquired(OfExchange(id), head.blockSize) else book
  }

  /** The book after the body handler: the reservation shrinks, and goes with a completed response. */
  function AfterBody(w: World, e: Event): Book
    requires e.OnBody? && e.id in w.flights
  {
    if w.flights[e.id].x.observed || e.error then w.book
    else
      var shrunk := w.book.Shrunk(OfExchange(e.id), e.size as int);
      if w.book.Shrinks(OfExchange(e.id), e.size as int) && e.f != PX.AtEntry && e.f != PX.BuildFails
      then shrunk.Handed(OfExchange(e.id), OfResponse(e.id))
      else shrunk
  }

  /** Exchange `id` takes a step, and the book becomes `book`. */
  function Moved(w: World, id: nat, event: PX.Event, length: Option<uint64>, book: Book): World
    requires id in w.flights && PX.Enabled(w.flights[id].x, event)
  {
    World(book, w.flights[id := Flight(PX.Step(w.flights[id].x, event), length)], w.created)
  }

  function Next(w: World, e: Event): World
    requires Can(w, e)
  {
    match e
    case Open(streams, lease) =>
      w.(flights := w.flights[w.created := Flight(PX.Fresh(streams, lease), None)], created := w.created + 1)
    case OnHeader(id, parsed, _, _) =>
      var event := HeaderEvent(w, e);
      Moved(w, id, event, LengthAfter(w.flights[id], parsed), Granted(w.book, id, w.flights[id].x, event.head, e.kept, e.f))
    case OnBody(id, _, _, _, _) =>
      Moved(w, id, BodyEvent(w, e), w.flights[id].length, AfterBody(w, e))
    case OnOther(id, event) => Moved(w, id, event, w.flights[id].length, w.book)
    case Destroy(id) => w.(book := w.book.Released(OfExchange(id)), flights := w.flights - {id})
    case ResponseDone(id) => w.(book := w.book.Released(OfResponse(id)))
    case Request(op) => w.(book := L.Step(L.World(w.book, map[]), op).ledger)
  }

  // ----- the invariant

  predicate IsEarly(op: PX.Op) {
    op.Resolving? || op.Connecting? || op.Handshaking? || op.Writing? || op.ReadingHeader?
  }

  /** While an operation is outstanding its buffer is paid for out of what the exchange holds; before the header nothing is. */
  ghost predicate PaidBy(held: Option<nat>, f: Flight, op: PX.Op) {
    match op
    case ReadingBody => held.Some? && forall n: uint64 :: B.ParserYields(f.length, MAX_BODY, n) ==> n as int <= held.value
    case ReadingBlock => held == Some(|f.x.block|)
    case SendingBody(_, _) => held == Some(|f.x.block|)
    case SendingHeader(final) => !final ==> held == Some(|f.x.block|)
    case _ => held.None?
  }

  /** What an exchange that holds this much keeps. */
  ghost predicate Solvent(held: Option<nat>, f: Flight) {
    && Safety.Inv(f.x)
    && (forall op :: op in f.x.ops ==> PaidBy(held, f, op))
    && (!f.x.started ==> held.None?)
  }

  function Held(book: Book, id: nat): Option<nat> {
    if OfExchange(id) in book.held then Some(book.held[OfExchange(id)]) else None
  }

  ghost predicate FlightInv(book: Book, id: nat, f: Flight) {
    Solvent(Held(book, id), f) && (!f.x.claimed ==> OfResponse(id) !in book.held)
  }

  ghost predicate Inv(w: World) {
    && w.book.Valid()
    && (forall id :: id in w.flights ==> id < w.created && FlightInv(w.book, id, w.flights[id]))
    && (forall id: nat :: OfExchange(id) in w.book.held || OfResponse(id) in w.book.held ==> id < w.created)
  }

  /** What a flight's invariant says about the book concerns its own two permits only. */
  predicate SameFor(book: Book, book': Book, id: nat) {
    Held(book, id) == Held(book', id) && (OfResponse(id) in book'.held ==> OfResponse(id) in book.held)
  }

  lemma FlightKept(book: Book, book': Book, id: nat, f: Flight)
    requires FlightInv(book, id, f) && SameFor(book, book', id)
    ensures FlightInv(book', id, f)
  {
  }

  lemma OthersKept(w: World, id: nat, book: Book, other: nat)
    requires Inv(w) && other in w.flights && other != id && SameFor(w.book, book, other)
    ensures other < w.created && FlightInv(book, other, w.flights[other])
  {
    FlightKept(w.book, book, other, w.flights[other]);
  }

  lemma IdsKept(w: World, id: nat, book: Book)
    requires Inv(w) && id < w.created && forall other: nat :: other != id ==> SameFor(w.book, book, other)
    ensures forall other: nat :: OfExchange(other) in book.held || OfResponse(other) in book.held ==> other < w.created
  {
    forall other: nat | OfExchange(other) in book.held || OfResponse(other) in book.held ensures other < w.created {
      assert other != id ==> SameFor(w.book, book, other) && Held(w.book, other) == Held(book, other);
    }
  }

  /** A step of one exchange that touches no one else's permits. */
  lemma OneFlightMoves(w: World, id: nat, f: Flight, book: Book)
    requires Inv(w) && id in w.flights && book.Valid() && FlightInv(book, id, f)
    requires forall other: nat :: other != id ==> SameFor(w.book, book, other)
    ensures Inv(World(book, w.flights[id := f], w.created))
  {
    IdsKept(w, id, book);
    var flights := w.flights[id := f];
    assert id < w.created;
    forall other | other in flights ensures other < w.created && FlightInv(book, other, flights[other]) {
      if other != id {
        OthersKept(w, id, book, other);
      }
    }
  }

  // ----- which operation an event can start

  predicate Follows(x: PX.Exchange, e: PX.Event, op: PX.Op) {
    match e
    case HeaderRead(head, _) =>
      if x.streams then (head.NoBodyLeft? && op == PX.SendingHeader(true)) || (head.BodyFollows? && op.SendingHeader?)
      else head.BodyFollows? && op == PX.ReadingBody
    case BlockRead(_, _, _, _, _) => op.ReadingBlock? || op.SendingBody?
    case Sent(sent, _, _, _) => (sent.SendingHeader? || sent.SendingBody?) && !sent.final && op.ReadingBlock?
    case BodyRead(_, _, _, _) => false
    case DeadlineFired(_, _, _) => false
    case CancelCalled => false
    case _ => IsEarly(op)
  }

  /** The operations after a step: those before it, less the completed one, and at most one that follows the event. */
  ghost predicate OpsAdvance(x: PX.Exchange, e: PX.Event, y: PX.Exchange) {
    forall op :: op in y.ops ==> op in PX.Entered(x, e).ops || Follows(x, e, op)
  }

  lemma ConnectionOps(x: PX.Exchange, e: PX.Event)
    requires PX.IsConnectionStage(e) && PX.Enabled(x, e)
    ensures OpsAdvance(x, e, PX.Step(x, e)) && PX.Step(x, e).block == x.block
  {
  }

  /** A header handler starts nothing if it is stale or fails to build, and a block it starts with has the granted size. */
  lemma HeaderOps(x: PX.Exchange, e: PX.Event)
    requires e.HeaderRead? && PX.Enabled(x, e)
    ensures OpsAdvance(x, e, PX.Step(x, e))
    ensures var y, z := PX.Step(x, e), PX.Entered(x, e);
      && (x.observed || (x.streams && e.f == PX.BuildFails) ==> y.ops == z.ops)
      && (y.ops == z.ops || !x.streams || !e.head.BodyFollows? || |y.block| == e.head.blockSize)
      && (x.streams && e.head.NoBodyLeft? ==> y.ops == z.ops || y.ops == z.ops + multiset{PX.SendingHeader(true)})
  {
  }

  lemma BodyOps(x: PX.Exchange, e: PX.Event)
    requires e.BodyRead? && PX.Enabled(x, e)
    ensures PX.Step(x, e).ops == PX.Entered(x, e).ops
  {
  }

  lemma BlockHandlerOps(z: PX.Exchange, error: bool, bytes: nat, f: PX.Fault)
    requires bytes <= |z.block|
    ensures var y := PX.RunHandler(PX.OnReadBlock(z, error, bytes, f));
      && y.block == z.block
      && (forall op :: op in y.ops ==> op in z.ops || op.ReadingBlock? || op.SendingBody?)
  {
    var r := PX.OnReadBlock(z, error, bytes, f).x;
    assert PX.MayStart(z, r, PX.ReadingBlock) || PX.MayStart(z, r, PX.SendingBody(bytes, z.done));
  }

  lemma BlockOps(x: PX.Exchange, e: PX.Event)
    requires e.BlockRead? && PX.Enabled(x, e)
    ensures OpsAdvance(x, e, PX.Step(x, e)) && |PX.Step(x, e).block| == |x.block|
  {
    BlockHandlerOps(PX.ParserFills(PX.Entered(x, e), e), e.error, e.bytes, e.f);
  }

  lemma SentOps(x: PX.Exchange, e: PX.Event)
    requires e.Sent? && PX.Enabled(x, e)
    ensures OpsAdvance(x, e, PX.Step(x, e)) && PX.Step(x, e).block == x.block
  {
  }

  lemma OtherOps(x: PX.Exchange, e: PX.Event)
    requires (e.Start? || e.DeadlineFired? || e.CancelCalled?) && PX.Enabled(x, e)
    ensures OpsAdvance(x, e, PX.Step(x, e)) && PX.Step(x, e).block == x.block
  {
  }

  lemma OpsAfter(x: PX.Exchange, e: PX.Event)
    requires PX.Enabled(x, e) && !e.HeaderRead? && !e.BodyRead?
    ensures OpsAdvance(x, e, PX.Step(x, e)) && |PX.Step(x, e).block| == |x.block|
  {
    if PX.IsConnectionStage(e) {
      ConnectionOps(x, e);
    } else if e.BlockRead? {
      BlockOps(x, e);
    } else if e.Sent? {
      SentOps(x, e);
    } else {
      OtherOps(x, e);
    }
  }

  // ----- every step keeps the invariant

  /** With one operation at a time, nothing is outstanding while the handler of a completion runs. */
  lemma NothingElseOutstanding(x: PX.Exchange, e: PX.Event)
    requires Safety.Inv(x) && PX.Enabled(x, e) && PX.Completes(e).Some?
    ensures x.started && PX.Entered(x, e).ops == multiset{}
  {
  }

  /** A new operation is paid for by what the completed one held. */
  lemma FollowingIsPaid(held: Option<nat>, f: Flight, e: PX.Event, y: PX.Exchange, op: PX.Op)
    requires PX.Enabled(f.x, e) && !e.HeaderRead? && !e.BodyRead? && Follows(f.x, e, op) && |y.block| == |f.x.block|
    requires forall o :: o in f.x.ops ==> PaidBy(held, f, o)
    requires !f.x.started ==> held.None?
    ensures PaidBy(held, f.(x := y), op)
  {
    if PX.Completes(e).Some? {
      assert PaidBy(held, f, PX.Completes(e).value);
    }
  }

  lemma ClaimStays(x: PX.Exchange, e: PX.Event)
    requires Safety.Inv(x) && PX.Enabled(x, e)
    ensures x.claimed ==> PX.Step(x, e).claimed
  {
    if x.claimed {
      Safety.EndedStepIsInert(x, e);
    }
  }

  lemma AdvancingStaysPaid(held: Option<nat>, f: Flight, e: PX.Event, y: PX.Exchange)
    requires PX.Enabled(f.x, e) && !e.HeaderRead? && !e.BodyRead? && OpsAdvance(f.x, e, y) && |y.block| == |f.x.block|
    requires (forall op :: op in f.x.ops ==> PaidBy(held, f, op)) && (!f.x.started ==> held.None?)
    ensures forall op :: op in y.ops ==> PaidBy(held, f.(x := y), op)
  {
    forall op | op in y.ops ensures PaidBy(held, f.(x := y), op) {
      if op in PX.Entered(f.x, e).ops {
        assert op in f.x.ops && PaidBy(held, f, op);
      } else {
        FollowingIsPaid(held, f, e, y, op);
      }
    }
  }

  lemma OtherStaysSolvent(held: Option<nat>, f: Flight, e: PX.Event)
    requires Solvent(held, f) && PX.Enabled(f.x, e) && !e.HeaderRead? && !e.BodyRead?
    ensures Solvent(held, f.(x := PX.Step(f.x, e)))
  {
    var y := PX.Step(f.x, e);
    Safety.StepKeepsInv(f.x, e);
    OpsAfter(f.x, e);
    assert PX.Keeps(f.x, y);
    AdvancingStaysPaid(held, f, e, y);
  }

  /** Whether the header handler comes to own the bytes it was granted. */
  predicate Reserves(x: PX.Exchange, head: PX.Head, kept: bool, f: PX.Fault) {
    !x.observed && head.BodyFollows? && (x.streams && f == PX.BuildFails ==> kept)
  }

  function LengthAfter(f: Flight, parsed: Parsed): Option<uint64> {
    if parsed.Header? then parsed.length else f.length
  }

  lemma HeaderStaysSolvent(held: Option<nat>, f: Flight, head: PX.Head, parsed: Parsed, room: int, kept: bool, fault: PX.Fault)
    requires Solvent(held, f) && PX.Enabled(f.x, PX.HeaderRead(head, fault)) && Fair(head, room, f.x.streams, parsed)
    ensures held.None?
    ensures Solvent(if Reserves(f.x, head, kept, fault) then Some(head.blockSize) else None,
                    Flight(PX.Step(f.x, PX.HeaderRead(head, fault)), LengthAfter(f, parsed)))
  {
    var e := PX.HeaderRead(head, fault);
    var y := PX.Step(f.x, e);
    var f' := Flight(y, LengthAfter(f, parsed));
    assert PX.ReadingHeader in f.x.ops && PaidBy(held, f, PX.ReadingHeader);
    NothingElseOutstanding(f.x, e);
    Safety.StepKeepsInv(f.x, e);
    HeaderOps(f.x, e);
    assert PX.Keeps(f.x, y);
    var after := if Reserves(f.x, head, kept, fault) then Some(head.blockSize) else None;
    forall op | op in y.ops ensures PaidBy(after, f', op) {
      assert Follows(f.x, e, op);
    }
  }

  /** Once the body is there nothing is outstanding, so whatever the exchange still holds is enough. */
  lemma BodyStaysSolvent(held: Option<nat>, f: Flight, e: PX.Event, after: Option<nat>)
    requires Solvent(held, f) && e.BodyRead? && PX.Enabled(f.x, e)
    ensures Solvent(after, f.(x := PX.Step(f.x, e))) && PX.Step(f.x, e).claimed
  {
    NothingElseOutstanding(f.x, e);
    Safety.StepKeepsInv(f.x, e);
    BodyOps(f.x, e);
    BodyEnds(f.x, e);
    assert PX.Keeps(f.x, PX.Step(f.x, e));
  }

  lemma HeaderKeepsFlight(book: Book, id: nat, f: Flight, head: PX.Head, parsed: Parsed, kept: bool, fault: PX.Fault)
    requires FlightInv(book, id, f) && PX.Enabled(f.x, PX.HeaderRead(head, fault))
    requires Fair(head, book.max - book.current, f.x.streams, parsed)
    ensures OfExchange(id) !in book.held
    ensures FlightInv(Granted(book, id, f.x, head, kept, fault), id, Flight(PX.Step(f.x, PX.HeaderRead(head, fault)), LengthAfter(f, parsed)))
  {
    HeaderStaysSolvent(Held(book, id), f, head, parsed, book.max - book.current, kept, fault);
    ClaimStays(f.x, PX.HeaderRead(head, fault));
    GrantIsHeld(book, id, f.x, head, kept, fault);
  }

  lemma GrantIsHeld(book: Book, id: nat, x: PX.Exchange, head: PX.Head, kept: bool, f: PX.Fault)
    requires OfExchange(id) !in book.held
    ensures var after := Granted(book, id, x, head, kept, f);
      && Held(after, id) == (if Reserves(x, head, kept, f) then Some(head.blockSize) else None)
      && (OfResponse(id) in after.held <==> OfResponse(id) in book.held)
  {
  }

  lemma BodyEnds(x: PX.Exchange, e: PX.Event)
    requires Safety.Inv(x) && e.BodyRead? && PX.Enabled(x, e)
    ensures PX.Step(x, e).claimed
  {
    if x.claimed {
      ClaimStays(x, e);
    } else {
      var y := PX.FinishDeadline(PX.Entered(x, e));
      assert Safety.Busy(x, PX.ReadingBody);
      Safety.FailingEnds(y, e.f);
      Safety.FinishingResponseEnds(y, e.reusable, e.f);
    }
  }

  lemma BodyKeepsFlight(book: Book, id: nat, f: Flight, e: PX.Event, book': Book)
    requires FlightInv(book, id, f) && e.BodyRead? && PX.Enabled(f.x, e)
    ensures FlightInv(book', id, f.(x := PX.Step(f.x, e)))
  {
    BodyStaysSolvent(Held(book, id), f, e, Held(book', id));
  }

  /** A book that differs from another, if at all, by what exchange `id` and its response hold. */
  ghost predicate Local(book: Book, book': Book, id: nat) {
    && book'.Valid() && book'.max == book.max
    && (forall other: nat :: other != id ==> SameFor(book, book', other))
  }

  lemma AcquiringIsLocal(book: Book, id: nat, n: nat)
    requires book.Valid() && OfExchange(id) !in book.held && book.HasRoom(n)
    ensures Local(book, book.Acquired(OfExchange(id), n), id)
  {
    L.AcquireConserves(book, OfExchange(id), n);
  }

  lemma ShrinkingIsLocal(book: Book, id: nat, n: nat)
    requires book.Valid()
    ensures Local(book, book.Shrunk(OfExchange(id), n), id)
  {
    L.ShrinkConserves(book, OfExchange(id), n);
  }

  lemma HandingIsLocal(book: Book, id: nat)
    requires book.Valid() && OfResponse(id) !in book.held
    ensures Local(book, book.Handed(OfExchange(id), OfResponse(id)), id)
  {
    L.HandConserves(book, OfExchange(id), OfResponse(id));
  }

  lemma HeaderIsLocal(book: Book, id: nat, x: PX.Exchange, head: PX.Head, kept: bool, f: PX.Fault)
    requires book.Valid() && OfExchange(id) !in book.held && (head.BodyFollows? ==> book.HasRoom(head.blockSize))
    ensures Local(book, Granted(book, id, x, head, kept, f), id)
  {
    if Reserves(x, head, kept, f) {
      AcquiringIsLocal(book, id, head.blockSize);
    }
  }

  lemma BodyIsLocal(w: World, e: Event)
    requires w.book.Valid() && e.OnBody? && e.id in w.flights && FlightInv(w.book, e.id, w.flights[e.id])
    ensures Local(w.book, AfterBody(w, e), e.id)
  {
    if !w.flights[e.id].x.observed {
      assert OfResponse(e.id) !in w.book.held;
      ShrinkingIsLocal(w.book, e.id, e.size as int);
      HandingIsLocal(w.book.Shrunk(OfExchange(e.id), e.size as int), e.id);
    }
  }

  lemma MoveKeepsInv(w: World, id: nat, event: PX.Event, length: Option<uint64>, book: Book)
    requires Inv(w) && id in w.flights && PX.Enabled(w.flights[id].x, event) && Local(w.book, book, id)
    requires FlightInv(book, id, Flight(PX.Step(w.flights[id].x, event), length))
    ensures Inv(Moved(w, id, event, length, book))
  {
    OneFlightMoves(w, id, Flight(PX.Step(w.flights[id].x, event), length), book);
  }

  lemma HeaderStepKeepsInv(w: World, id: nat, head: PX.Head, parsed: Parsed, kept: bool, fault: PX.Fault)
    requires Inv(w) && id in w.flights && PX.Enabled(w.flights[id].x, PX.HeaderRead(head, fault))
    requires Fair(head, w.book.max - w.book.current, w.flights[id].x.streams, parsed)
    ensures var book := Granted(w.book, id, w.flights[id].x, head, kept, fault);
      book.max == w.book.max && Inv(Moved(w, id, PX.HeaderRead(head, fault), LengthAfter(w.flights[id], parsed), book))
  {
    var f := w.flights[id];
    var book := Granted(w.book, id, f.x, head, kept, fault);
    HeaderKeepsFlight(w.book, id, f, head, parsed, kept, fault);
    HeaderIsLocal(w.book, id, f.x, head, kept, fault);
    MoveKeepsInv(w, id, PX.HeaderRead(head, fault), LengthAfter(f, parsed), book);
  }

  lemma BodyStepKeepsInv(w: World, e: Event)
    requires Inv(w) && e.OnBody? && e.id in w.flights && PX.Enabled(w.flights[e.id].x, BodyEvent(w, e))
    ensures Inv(Moved(w, e.id, BodyEvent(w, e), w.flights[e.id].length, AfterBody(w, e)))
    ensures AfterBody(w, e).max == w.book.max
  {
    var f := w.flights[e.id];
    BodyKeepsFlight(w.book, e.id, f, BodyEvent(w, e), AfterBody(w, e));
    BodyIsLocal(w, e);
    MoveKeepsInv(w, e.id, BodyEvent(w, e), f.length, AfterBody(w, e));
  }

  lemma OtherStepKeepsInv(w: World, id: nat, event: PX.Event)
    requires Inv(w) && id in w.flights && PX.Enabled(w.flights[id].x, event) && !event.HeaderRead? && !event.BodyRead?
    ensures Inv(Moved(w, id, event, w.flights[id].length, w.book))
  {
    var f := w.flights[id];
    OtherStaysSolvent(Held(w.book, id), f, event);
    ClaimStays(f.x, event);
    MoveKeepsInv(w, id, event, f.length, w.book);
  }

  /** A change of the book that no flight notices. */
  lemma BookMoves(w: World, book: Book, flights: map<nat, Flight>)
    requires Inv(w) && book.Valid() && flights.Keys <= w.flights.Keys && (forall id :: id in flights ==> flights[id] == w.flights[id])
    requires forall id: nat :: id in flights ==> SameFor(w.book, book, id)
    requires forall id: nat :: OfExchange(id) in book.held || OfResponse(id) in book.held ==> id < w.created
    ensures Inv(World(book, flights, w.created))
  {
    forall id | id in flights ensures id < w.created && FlightInv(book, id, flights[id]) {
      FlightKept(w.book, book, id, w.flights[id]);
    }
  }

  lemma OpenKeepsInv(w: World, e: Event)
    requires Inv(w) && Can(w, e) && e.Open?
    ensures Inv(Next(w, e))
  {
    assert OfExchange(w.created) !in w.book.held && OfResponse(w.created) !in w.book.held;
  }

  lemma DestroyKeepsInv(w: World, id: nat)
    requires Inv(w)
    ensures Inv(w.(book := w.book.Released(OfExchange(id)), flights := w.flights - {id}))
  {
    L.ReleaseConserves(w.book, OfExchange(id));
    BookMoves(w, w.book.Released(OfExchange(id)), w.flights - {id});
  }

  lemma ResponseDoneKeepsInv(w: World, id: nat)
    requires Inv(w)
    ensures Inv(w.(book := w.book.Released(OfResponse(id))))
  {
    L.ReleaseConserves(w.book, OfResponse(id));
    BookMoves(w, w.book.Released(OfResponse(id)), w.flights);
  }

  lemma RequestKeepsInv(w: World, op: L.Op<Holder>)
    requires Inv(w) && IsRequestOp(op)
    ensures var book := L.Step(L.World(w.book, map[]), op).ledger; Inv(w.(book := book)) && book.max == w.book.max
  {
    L.StepConserves(L.World(w.book, map[]), op);
    BookMoves(w, L.Step(L.World(w.book, map[]), op).ledger, w.flights);
  }

  lemma StepKeepsInv(w: World, e: Event)
    requires Inv(w) && Can(w, e)
    ensures Inv(Next(w, e)) && Next(w, e).book.max == w.book.max
  {
    match e
    case Open(_, _) => OpenKeepsInv(w, e);
    case Destroy(id) => DestroyKeepsInv(w, id);
    case ResponseDone(id) => ResponseDoneKeepsInv(w, id);
    case Request(op) => RequestKeepsInv(w, op);
    case OnHeader(id, parsed, kept, f) => HeaderStepKeepsInv(w, id, HeaderEvent(w, e).head, parsed, kept, f);
    case OnBody(_, _, _, _, _) => BodyStepKeepsInv(w, e);
    case OnOther(id, event) => OtherStepKeepsInv(w, id, event);
  }

  // ----- whole runs

  ghost predicate Run(worlds: seq<World>, events: seq<Event>) {
    && |worlds| == |events| + 1
    && worlds[0].book.current == 0 && worlds[0].book.held == map[] && worlds[0].flights == map[] && worlds[0].created == 0
    && (forall k :: 0 <= k < |events| ==> StepAt(worlds, events, k))
  }

  predicate StepAt(worlds: seq<World>, events: seq<Event>, k: nat)
    requires |worlds| == |events| + 1 && k < |events|
  {
    Can(worlds[k], events[k]) && worlds[k + 1] == Next(worlds[k], events[k])
  }

  lemma {:induction false} RunKeepsInv(worlds: seq<World>, events: seq<Event>, k: nat)
    requires Run(worlds, events) && k <= |events|
    ensures Inv(worlds[k]) && worlds[k].book.max == worlds[0].book.max
  {
    if k > 0 {
      RunKeepsInv(worlds, events, k - 1);
      assert StepAt(worlds, events, k - 1);
      StepKeepsInv(worlds[k - 1], events[k - 1]);
    }
  }

  /** With any number of exchanges, responses and requests, the counter is the sum of what they hold, within the limit. */
  lemma CounterIsTheSum(worlds: seq<World>, events: seq<Event>, k: nat)
    requires Run(worlds, events) && k <= |events|
    ensures worlds[k].book.current == L.Sum(worlds[k].book.held) <= worlds[0].book.max
  {
    RunKeepsInv(worlds, events, k);
  }

  lemma ShrinkSucceeds(book: Book, id: nat, f: Flight, size: uint64)
    requires book.Valid() && FlightInv(book, id, f) && PX.ReadingBody in f.x.ops && B.ParserYields(f.length, MAX_BODY, size)
    ensures book.Shrinks(OfExchange(id), size as int)
  {
    assert PaidBy(Held(book, id), f, PX.ReadingBody);
    L.ShrinkConserves(book, OfExchange(id), size as int);
  }

  /** The shrink of a response body never fails: that branch of the handler is unreachable. */
  lemma ShrinkNeverFails(worlds: seq<World>, events: seq<Event>, k: nat)
    requires Run(worlds, events) && k < |events| && events[k].OnBody? && !events[k].error
    ensures events[k].id in worlds[k].flights && BodyEvent(worlds[k], events[k]).shrunk
  {
    RunKeepsInv(worlds, events, k);
    assert StepAt(worlds, events, k);
    var w, e := worlds[k], events[k];
    BodyIsAwaited(w, e);
    FlightOf(w, e.id);
    ShrinkSucceeds(w.book, e.id, w.flights[e.id], e.size);
  }

  lemma FlightOf(w: World, id: nat)
    requires Inv(w) && id in w.flights
    ensures w.book.Valid() && FlightInv(w.book, id, w.flights[id])
  {
  }

  lemma BodyIsAwaited(w: World, e: Event)
    requires Can(w, e) && e.OnBody? && !e.error
    ensures e.id in w.flights && PX.ReadingBody in w.flights[e.id].x.ops && B.ParserYields(w.flights[e.id].length, MAX_BODY, e.size)
  {
  }

  /** While a block is being read or written it has 1 to 16384 bytes, and exactly those are reserved. */
  lemma BlocksArePaidFor(worlds: seq<World>, events: seq<Event>, k: nat, id: nat)
    requires Run(worlds, events) && k <= |events| && id in worlds[k].flights
    requires var x := worlds[k].flights[id].x; PX.ReadingBlock in x.ops || exists n: nat, final :: PX.SendingBody(n, final) in x.ops
    ensures var x := worlds[k].flights[id].x;
      1 <= |x.block| <= PX.MAX_BLOCK && OfExchange(id) in worlds[k].book.held && worlds[k].book.held[OfExchange(id)] == |x.block|
  {
    RunKeepsInv(worlds, events, k);
    var f := worlds[k].flights[id];
    var op :| op in f.x.ops && (op.ReadingBlock? || op.SendingBody?);
    assert PaidBy(Held(worlds[k].book, id), f, op) && Safety.OpFits(f.x, op);
  }

  /** Nothing is reserved for a response before its header is there. */
  lemma NothingReservedEarly(worlds: seq<World>, events: seq<Event>, k: nat, id: nat)
    requires Run(worlds, events) && k <= |events| && id in worlds[k].flights
    requires var x := worlds[k].flights[id].x; !x.started || exists op :: op in x.ops && IsEarly(op)
    ensures OfExchange(id) !in worlds[k].book.held
  {
    RunKeepsInv(worlds, events, k);
    var f := worlds[k].flights[id];
    if f.x.started {
      var op :| op in f.x.ops && IsEarly(op);
      assert PaidBy(Held(worlds[k].book, id), f, op);
    }
  }
}
