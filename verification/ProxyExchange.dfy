/**
 One proxied exchange as a state machine. Every handler of the exchange is one atomic step; sockets,
 the resolver, the response parser and the session behind the callbacks are the environment, whose
 choices arrive in the events. A handler may raise an exception at any of its throwing points.
 */
module ProxyExchange {
  import opened Common

  type Byte = bv8

  /** The largest stream block. */
  const MAX_BLOCK := 16384

  /** An asynchronous operation that has been started and has not completed. */
  datatype Op =
    | Resolving
    | Connecting
    | Handshaking
    | Writing
    | ReadingHeader
    | ReadingBody
    | ReadingBlock
    | SendingHeader(final: bool)             // downstream write of the header, with its resume callback
    | SendingBody(bytes: nat, final: bool)   // downstream write of the first `bytes` bytes of the block

  /** What the owner of the exchange is told. `threw` marks a callback that threw. */
  datatype Notice =
    | OnComplete(threw: bool)
    | Finish(success: bool, threw: bool)
    | OnAbort

  /** The throwing point at which a handler raises, if any. */
  datatype Fault = NoFault | AtEntry | ArmFails | StartFails | BuildFails | CallbackThrows

  datatype Exchange = Exchange(
    streams: bool,               // the response is streamed
    started: bool,
    claimed: bool,               // the one-shot completion claim
    observed: bool,              // handlers return early from now on
    streamStarted: bool,         // the response header was handed down
    canComplete: bool,           // on_complete_ is set
    canAbort: bool,              // on_abort_ is set
    generation: nat,             // of the deadline
    waits: set<nat>,             // pending deadline waits, by generation
    cancelled: set<nat>,         // waits that were cancelled
    readDeadline: nat,           // generation of the deadline armed when the response read began
    ops: multiset<Op>,
    lease: Option<nat>,          // the connection held
    closed: bool,                // the held connection was closed
    block: seq<Byte>,            // the one stream block
    decoded: seq<Byte>,          // body bytes the parser has produced so far
    done: bool,                  // the parser has produced the whole body
    delivered: seq<Byte>,        // body bytes written downstream and acknowledged
    notices: seq<Notice>)

  function Fresh(streams: bool, lease: nat): Exchange {
    Exchange(streams, false, false, false, false, true, true, 0, {}, {}, 0, multiset{}, Some(lease), false, [], [], false, [], [])
  }

  /** What nothing changes back: configuration stays, flags are one-way, and a lease can only leave. */
  predicate Keeps(x: Exchange, y: Exchange) {
    && y.streams == x.streams && (x.started ==> y.started)
    && (x.streamStarted ==> y.streamStarted) && (x.closed ==> y.closed)
    && (y.lease == x.lease || y.lease.None?)
  }

  /** No operation is started or completed, and the block is left alone. */
  predicate SameOps(x: Exchange, y: Exchange) {
    y.ops == x.ops && y.block == x.block
  }

  /** At most `op` is started. */
  predicate MayStart(x: Exchange, y: Exchange, op: Op) {
    (y.ops == x.ops || y.ops == x.ops + multiset{op}) && y.block == x.block
  }

  /** A streaming header handler starts at most the downstream write of the header, with a block if a body follows. */
  predicate StreamStarts(x: Exchange, head: Head, y: Exchange) {
    match head
    case NoBodyLeft(_) => MayStart(x, y, SendingHeader(true))
    case BodyFollows(size) => SameOps(x, y) || MayStart(x.(block := Zeroed(size)), y, SendingHeader(x.done))
    case _ => SameOps(x, y)
  }

  predicate HeaderStarts(x: Exchange, head: Head, y: Exchange) {
    if x.streams then StreamStarts(x, head, y)
    else if head.BodyFollows? then MayStart(x, y, ReadingBody)
    else SameOps(x, y)
  }

  /** The outcome of a handler body: it returned, or it raised. */
  datatype Flow = Done(x: Exchange) | Raised(x: Exchange)

  // ----- primitive effects

  function FinishDeadline(x: Exchange): (y: Exchange)
    ensures Keeps(x, y) && y.lease == x.lease
    ensures SameOps(x, y)
  {
    x.(generation := x.generation + 1, cancelled := x.cancelled + x.waits)
  }

  /** Re-arming cancels the previous wait; a failure leaves the new generation without a wait. */
  function BeginDeadline(x: Exchange, f: Fault): (r: Flow)
    ensures Keeps(x, r.x) && r.x.lease == x.lease
    ensures SameOps(x, r.x)
  {
    var y := FinishDeadline(x);
    if f == ArmFails then Raised(y) else Done(y.(waits := y.waits + {y.generation}))
  }

  function StartOp(x: Exchange, op: Op, f: Fault): (r: Flow)
    ensures Keeps(x, r.x) && r.x.lease == x.lease
    ensures MayStart(x, r.x, op)
  {
    if f == StartFails then Raised(x) else Done(x.(ops := x.ops + multiset{op}))
  }

  function ArmAndStart(x: Exchange, op: Op, f: Fault): (r: Flow)
    ensures Keeps(x, r.x) && r.x.lease == x.lease
    ensures MayStart(x, r.x, op)
  {
    var armed := BeginDeadline(x, f);
    if armed.Raised? then armed else StartOp(armed.x, op, f)
  }

  function CloseUpstream(x: Exchange): (y: Exchange)
    ensures Keeps(x, y) && y.lease == x.lease
    ensures SameOps(x, y)
  {
    if x.lease.Some? then x.(closed := true) else x
  }

  function CancelOperations(x: Exchange): (y: Exchange)
    ensures Keeps(x, y) && y.lease == x.lease
    ensures SameOps(x, y)
  {
    CloseUpstream(x.(observed := true, cancelled := x.cancelled + x.waits))
  }

  function NotifyAbort(x: Exchange): (y: Exchange)
    ensures Keeps(x, y) && y.lease == x.lease
    ensures SameOps(x, y)
  {
    if x.canAbort then x.(canComplete := false, canAbort := false, notices := x.notices + [OnAbort])
    else x.(canComplete := false)
  }

  /** Returning the lease to the pool moves it away; otherwise it is closed in place. */
  function SettleLease(x: Exchange, reusable: bool): (y: Exchange)
    ensures Keeps(x, y)
    ensures SameOps(x, y)
  {
    if reusable then x.(lease := None) else CloseUpstream(x)
  }

  // ----- completion

  function Complete(x: Exchange, f: Fault): (y: Exchange)
    ensures Keeps(x, y) && y.lease == x.lease
    ensures SameOps(x, y)
  {
    if x.claimed then x
    else
      var y := x.(claimed := true, observed := true);
      if !y.canComplete then NotifyAbort(y)
      else
        var told := y.(canComplete := false, notices := y.notices + [OnComplete(f == CallbackThrows)]);
        if f == CallbackThrows then NotifyAbort(told) else told.(canAbort := false)
  }

  function CompleteStream(x: Exchange, success: bool, f: Fault): (y: Exchange)
    ensures Keeps(x, y) && y.lease == x.lease
    ensures SameOps(x, y)
  {
    if x.claimed then x
    else
      var told := x.(claimed := true, observed := true, canComplete := false, notices := x.notices + [Finish(success, f == CallbackThrows)]);
      if f == CallbackThrows then NotifyAbort(told) else told.(canAbort := false)
  }

  function Fail(x: Exchange, f: Fault): (r: Flow)
    ensures Keeps(x, r.x) && r.x.lease == x.lease
    ensures SameOps(x, r.x)
  {
    if x.observed then Done(x)
    else
      var y := CancelOperations(FinishDeadline(x));
      if y.streamStarted then Done(CompleteStream(y, false, f))
      else if f == BuildFails then Raised(y)
      else Done(Complete(y, f))
  }

  function RejectBudget(x: Exchange, f: Fault): (r: Flow)
    ensures Keeps(x, r.x) && r.x.lease == x.lease
    ensures SameOps(x, r.x)
  {
    var y := CancelOperations(x);
    if f == BuildFails then Raised(y) else Done(Complete(y, f))
  }

  function FinishResponse(x: Exchange, reusable: bool, f: Fault): (r: Flow)
    ensures Keeps(x, r.x) && r.x.lease == if reusable && f != AtEntry then None else x.lease
    ensures SameOps(x, r.x)
  {
    if f == AtEntry then Raised(x)
    else
      var y := SettleLease(FinishDeadline(x), reusable);
      if f == BuildFails then Raised(y) else Done(Complete(y, f))
  }

  function FinishStream(x: Exchange, reusable: bool, f: Fault): (r: Flow)
    ensures Keeps(x, r.x) && r.x.lease == if reusable && f != AtEntry then None else x.lease
    ensures SameOps(x, r.x)
  {
    if f == AtEntry then Raised(x)
    else Done(CompleteStream(SettleLease(FinishDeadline(x), reusable), true, f))
  }

  function Cancel(x: Exchange): (y: Exchange)
    ensures Keeps(x, y) && y.lease == x.lease
    ensures SameOps(x, y)
  {
    if x.claimed then x
    else CancelOperations(x.(claimed := true, canComplete := false, canAbort := false))
  }

  /** `run_handler`: an exception claims the completion, cleans up and aborts, unless already claimed. */
  function RunHandler(flow: Flow): (y: Exchange)
    ensures Keeps(flow.x, y) && y.lease == flow.x.lease
    ensures SameOps(flow.x, y)
  {
    if flow.Done? || flow.x.claimed then flow.x
    else NotifyAbort(CancelOperations(flow.x.(claimed := true)))
  }

  // ----- stage handlers; each is entered with its operation already removed from `ops`

  function OnResolve(x: Exchange, error: bool, f: Fault): (r: Flow)
    ensures Keeps(x, r.x) && r.x.lease == x.lease
    ensures MayStart(x, r.x, Connecting)
  {
    if x.observed then Done(x)
    else
      var y := FinishDeadline(x);
      if error then Fail(y, f) else ArmAndStart(y, Connecting, f)
  }

  datatype ConnectResult = ConnectError | Plain | Tls | TlsIdentityRejected

  function OnConnect(x: Exchange, result: ConnectResult, f: Fault): (r: Flow)
    ensures Keeps(x, r.x) && r.x.lease == x.lease
    ensures MayStart(x, r.x, if result.Tls? then Handshaking else Writing)
  {
    if x.observed then Done(x)
    else
      var y := FinishDeadline(x);
      match result
      case ConnectError => Fail(y, f)
      case TlsIdentityRejected => Fail(y, f)
      case Tls => ArmAndStart(y, Handshaking, f)
      case Plain => ArmAndStart(y, Writing, f)
  }

  function OnHandshake(x: Exchange, error: bool, f: Fault): (r: Flow)
    ensures Keeps(x, r.x) && r.x.lease == x.lease
    ensures MayStart(x, r.x, Writing)
  {
    if x.observed then Done(x)
    else
      var y := FinishDeadline(x);
      if error then Fail(y, f) else ArmAndStart(y, Writing, f)
  }

  /** The only place where the read deadline is armed. */
  function StartReading(x: Exchange, f: Fault): (r: Flow)
    ensures Keeps(x, r.x) && r.x.lease == x.lease
    ensures MayStart(x, r.x, ReadingHeader)
  {
    ArmAndStart(x.(readDeadline := x.generation + 1), ReadingHeader, f)
  }

  function OnWrite(x: Exchange, error: bool, f: Fault): (r: Flow)
    ensures Keeps(x, r.x) && r.x.lease == x.lease
    ensures MayStart(x, r.x, ReadingHeader)
  {
    if x.observed then Done(x)
    else
      var y := FinishDeadline(x);
      if error then Fail(y, f) else StartReading(y, f)
  }

  /** What the parsed response header means to the exchange. */
  datatype Head =
    | HeadError
    | Invalid                                  // informational status, or an upgrade when streaming
    | TooLarge                                 // declared length over the body limit
    | NoBodyLeft(reusable: bool)               // the message is complete
    | BudgetRejected
    | BodyFollows(blockSize: nat)              // budget granted; the stream block has this size

  function OnReadHeader(x: Exchange, head: Head, f: Fault): (r: Flow)
    ensures Keeps(x, r.x)
    ensures HeaderStarts(x, head, r.x) && (x.observed || (x.streams && f == BuildFails) ==> SameOps(x, r.x))
  {
    if x.observed then Done(x)
    else if head.HeadError? then Fail(FinishDeadline(x), f)
    else if x.streams then StartStream(x, head, f)
    else StartBuffered(x, head, f)
  }

  /** A response that is collected whole: read the rest of it, or finish at once. */
  function StartBuffered(x: Exchange, head: Head, f: Fault): (r: Flow)
    ensures Keeps(x, r.x)
    ensures MayStart(x, r.x, ReadingBody) && (!head.BodyFollows? ==> SameOps(x, r.x))
  {
    match head
    case NoBodyLeft(reusable) => FinishResponse(FinishDeadline(x), reusable, f)
    case BudgetRejected => RejectBudget(FinishDeadline(x), f)
    case BodyFollows(_) => StartOp(x, ReadingBody, f)
    case _ => Fail(FinishDeadline(x), f)
  }

  /** A stream block as it is allocated. */
  function Zeroed(size: nat): seq<Byte> { seq(size, _ => 0 as Byte) }

  function StartStream(x: Exchange, head: Head, f: Fault): (r: Flow)
    ensures Keeps(x, r.x) && r.x.lease == x.lease
    ensures StreamStarts(x, head, r.x) && (f == BuildFails ==> SameOps(x, r.x))
  {
    match head
    case NoBodyLeft(_) => if f == BuildFails then Raised(x) else HandHeader(x.(done := true), f)
    case BodyFollows(size) =>
      if f == BuildFails then Raised(x) else HandHeader(x.(block := Zeroed(size)), f)
    case BudgetRejected => RejectBudget(x, f)
    case _ => Fail(x, f)
  }

  /** The header callback may throw before or after it starts the downstream write. */
  function HandHeader(x: Exchange, f: Fault): (r: Flow)
    ensures Keeps(x, r.x) && r.x.lease == x.lease
    ensures MayStart(x, r.x, SendingHeader(x.done))
  {
    var y := x.(streamStarted := true);
    var sent := StartOp(y, SendingHeader(y.done), f);
    if f == CallbackThrows then Raised(sent.x) else sent
  }

  function OnReadBody(x: Exchange, error: bool, shrunk: bool, reusable: bool, f: Fault): (r: Flow)
    ensures Keeps(x, r.x)
    ensures SameOps(x, r.x)
  {
    if x.observed then Done(x)
    else
      var y := FinishDeadline(x);
      if error || !shrunk then Fail(y, f) else FinishResponse(y, reusable, f)
  }

  /** A block read completes: the parser has put `chunk` at the front of the block. */
  function OnReadBlock(x: Exchange, error: bool, bytes: nat, f: Fault): (r: Flow)
    requires bytes <= |x.block|
    ensures Keeps(x, r.x) && r.x.lease == x.lease
    ensures MayStart(x, r.x, ReadingBlock) || MayStart(x, r.x, SendingBody(bytes, x.done))
  {
    if x.observed then Done(x)
    else if error then Fail(x, f)
    else if bytes == 0 && !x.done then StartOp(x, ReadingBlock, f)
    else
      var sent := StartOp(x, SendingBody(bytes, x.done), f);
      if f == CallbackThrows then Raised(sent.x) else sent
  }

  /** The resume callback of a downstream write. */
  function OnSent(x: Exchange, final: bool, error: bool, reusable: bool, f: Fault): (r: Flow)
    ensures Keeps(x, r.x)
    ensures MayStart(x, r.x, ReadingBlock) && (final ==> SameOps(x, r.x))
  {
    if x.observed then Done(x)
    else if error then Done(CompleteStream(CancelOperations(x), false, f))
    else if final then FinishStream(x, reusable, f)
    else StartOp(x, ReadingBlock, f)
  }

  /** `start`, as the session calls it: an exception reaches the session, which cancels the exchange. */
  function OnStart(x: Exchange, reused: bool, f: Fault): (y: Exchange)
    ensures Keeps(x, y) && y.lease == x.lease
    ensures MayStart(x, y, if reused then Writing else Resolving)
  {
    var flow := ArmAndStart(x.(started := true), if reused then Writing else Resolving, f);
    if flow.Done? then flow.x else Cancel(flow.x)
  }

  function OnDeadline(x: Exchange, generation: nat, expired: bool, f: Fault): (r: Flow)
    ensures Keeps(x, r.x) && r.x.lease == x.lease
    ensures SameOps(x, r.x)
  {
    if expired && generation == x.generation then Fail(x, f) else Done(x)
  }

  /** A deadline wait completes: it is no longer pending when its handler runs. */
  function WaitDone(x: Exchange, generation: nat, expired: bool, f: Fault): (y: Exchange)
    ensures Keeps(x, y) && y.lease == x.lease
    ensures SameOps(x, y)
  {
    RunHandler(OnDeadline(x.(waits := x.waits - {generation}), generation, expired, f))
  }

  // ----- events and steps

  datatype Event =
    | Start(reused: bool, f: Fault)
    | Resolved(error: bool, f: Fault)
    | Connected(result: ConnectResult, f: Fault)
    | Handshaken(error: bool, f: Fault)
    | Written(error: bool, f: Fault)
    | HeaderRead(head: Head, f: Fault)
    | BodyRead(error: bool, shrunk: bool, reusable: bool, f: Fault)
    | BlockRead(error: bool, block: seq<Byte>, bytes: nat, done: bool, f: Fault)
    | Sent(op: Op, error: bool, reusable: bool, f: Fault)
    | DeadlineFired(generation: nat, expired: bool, f: Fault)
    | CancelCalled

  /** The operation whose completion an event is. */
  function Completes(e: Event): Option<Op> {
    match e
    case Resolved(_, _) => Some(Resolving)
    case Connected(_, _) => Some(Connecting)
    case Handshaken(_, _) => Some(Handshaking)
    case Written(_, _) => Some(Writing)
    case HeaderRead(_, _) => Some(ReadingHeader)
    case BodyRead(_, _, _, _) => Some(ReadingBody)
    case BlockRead(_, _, _, _, _) => Some(ReadingBlock)
    case Sent(op, _, _, _) => Some(op)
    case _ => None
  }

  /**
   The environment's contract: only started operations complete; a wait reports an error only if it was
   cancelled; a block read fills at most the block; a granted stream block has 1 to 16384 bytes; the session starts an exchange once, before
   anything could claim it.
   */
  predicate Enabled(x: Exchange, e: Event) {
    && (Completes(e).Some? ==> Completes(e).value in x.ops)
    && (e.Start? ==> !x.started && !x.claimed)
    && (e.DeadlineFired? ==> e.generation in x.waits && (!e.expired ==> e.generation in x.cancelled))
    && (e.BlockRead? ==> |e.block| == |x.block| && e.bytes <= |e.block|)
    && (e.Sent? ==> e.op.SendingHeader? || e.op.SendingBody?)
    && (e.HeaderRead? && e.head.BodyFollows? && x.streams ==> 1 <= e.head.blockSize <= MAX_BLOCK)
  }

  /** The claim, what was told, the lease and the deadline are the same in both. */
  predicate SameRole(x: Exchange, y: Exchange) {
    && y.claimed == x.claimed && y.notices == x.notices
    && y.lease == x.lease && y.closed == x.closed && y.generation == x.generation
  }

  /** A block read changes the block whether or not anyone still listens. */
  function ParserFills(x: Exchange, e: Event): (y: Exchange)
    requires e.BlockRead? && e.bytes <= |e.block|
    ensures y.block == e.block
    ensures Keeps(x, y) && SameRole(x, y) && y.ops == x.ops && y.waits == x.waits
  {
    if e.error then x.(block := e.block)
    else x.(block := e.block, decoded := x.decoded + e.block[..e.bytes], done := e.done)
  }

  /** An acknowledged downstream write has carried the first bytes the block holds by now. */
  function DownstreamTakes(x: Exchange, op: Op): (y: Exchange)
    ensures Keeps(x, y) && SameRole(x, y) && y.ops == x.ops && y.waits == x.waits
  {
    if op.SendingBody? && op.bytes <= |x.block| then x.(delivered := x.delivered + x.block[..op.bytes]) else x
  }

  /** The completed operation is no longer outstanding when its handler runs. */
  function Entered(x: Exchange, e: Event): (y: Exchange)
    ensures Keeps(x, y) && SameRole(x, y) && y.waits == x.waits
  {
    if Completes(e).Some? then x.(ops := x.ops - multiset{Completes(e).value}) else x
  }

  predicate IsConnectionStage(e: Event) {
    e.Resolved? || e.Connected? || e.Handshaken? || e.Written?
  }

  predicate IsResponseStage(e: Event) {
    e.HeaderRead? || e.BodyRead? || e.BlockRead? || e.Sent?
  }

  function ConnectionStage(x: Exchange, e: Event): (r: Flow)
    requires IsConnectionStage(e)
    ensures Keeps(x, r.x) && r.x.lease == x.lease
  {
    match e
    case Resolved(error, f) => OnResolve(x, error, f)
    case Connected(result, f) => OnConnect(x, result, f)
    case Handshaken(error, f) => OnHandshake(x, error, f)
    case Written(error, f) => OnWrite(x, error, f)
  }

  function ResponseStage(x: Exchange, e: Event): (r: Flow)
    requires IsResponseStage(e) && (e.BlockRead? ==> e.bytes <= |e.block|) && (e.Sent? ==> e.op.SendingHeader? || e.op.SendingBody?)
    ensures Keeps(x, r.x)
  {
    match e
    case HeaderRead(head, f) => OnReadHeader(x, head, f)
    case BodyRead(error, shrunk, reusable, f) => OnReadBody(x, error, shrunk, reusable, f)
    case BlockRead(error, _, bytes, _, f) => OnReadBlock(ParserFills(x, e), error, bytes, f)
    case Sent(op, error, reusable, f) =>
      OnSent(if error then x else DownstreamTakes(x, op), op.final, error, reusable, f)
  }

  /** One atomic step of the io_context. */
  function Step(x: Exchange, e: Event): (z: Exchange)
    requires Enabled(x, e)
    ensures Keeps(x, z)
  {
    if IsConnectionStage(e) then RunHandler(ConnectionStage(Entered(x, e), e))
    else if IsResponseStage(e) then RunHandler(ResponseStage(Entered(x, e), e))
    else
      match e
      case Start(reused, f) => OnStart(x, reused, f)
      case DeadlineFired(g, expired, f) => WaitDone(x, g, expired, f)
      case CancelCalled => Cancel(x)
  }
}
