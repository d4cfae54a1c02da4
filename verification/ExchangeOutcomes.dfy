/**
 What every event does to a live exchange, read off the event alone: which operation follows, which
 verdict is given, what happens to the connection. Together with the inertness of ended exchanges
 this determines the protocol.
 */
module ExchangeOutcomes {
  import opened Common
  import opened ProxyExchange
  import opened ExchangeSafety

  // ----- the table

  /** A stage failed, or the response cannot be used. */
  predicate StageError(e: Event) {
    match e
    case Resolved(error, _) => error
    case Connected(result, _) => result == ConnectError || result == TlsIdentityRejected
    case Handshaken(error, _) => error
    case Written(error, _) => error
    case HeaderRead(head, _) => head.HeadError? || head.Invalid? || head.TooLarge? || head.BudgetRejected?
    case BodyRead(error, shrunk, _, _) => error || !shrunk
    case BlockRead(error, _, _, _, _) => error
    case Sent(_, error, _, _) => error
    case _ => false
  }

  /** The operation that follows an event without an error, if the exchange goes on. */
  function NextOp(x: Exchange, e: Event): Option<Op> {
    match e
    case Resolved(_, _) => Some(Connecting)
    case Connected(result, _) => Some(if result == Tls then Handshaking else Writing)
    case Handshaken(_, _) => Some(Writing)
    case Written(_, _) => Some(ReadingHeader)
    case HeaderRead(head, _) =>
      if x.streams then Some(SendingHeader(head.NoBodyLeft?))
      else if head.BodyFollows? then Some(ReadingBody) else None
    case BlockRead(_, _, bytes, done, _) => Some(if bytes == 0 && !done then ReadingBlock else SendingBody(bytes, done))
    case Sent(op, _, _, _) => if (op.SendingHeader? || op.SendingBody?) && op.final then None else Some(ReadingBlock)
    case _ => None
  }

  function FaultOf(e: Event): Fault { if e.CancelCalled? then NoFault else e.f }

  predicate IsHandedDown(op: Op) { op.SendingHeader? || op.SendingBody? }

  /** The handler raises before the next operation is under way. */
  predicate BreaksBefore(x: Exchange, e: Event) {
    || FaultOf(e) == StartFails
    || (FaultOf(e) == ArmFails && IsConnectionStage(e))
    || (FaultOf(e) == BuildFails && e.HeaderRead? && x.streams)
  }

  /** The session's callback throws once the downstream write is under way. */
  predicate BreaksAfter(x: Exchange, e: Event) {
    FaultOf(e) == CallbackThrows && NextOp(x, e).Some? && IsHandedDown(NextOp(x, e).value)
  }

  /** The verdict of a failure: through finish once the header was handed down, through on_complete before. */
  function FailureVerdict(x: Exchange, f: Fault): Notice {
    if x.streamStarted then Finish(false, f == CallbackThrows)
    else if f == BuildFails then OnAbort
    else OnComplete(f == CallbackThrows)
  }

  /** The exchange has ended with `first` as its verdict, and the connection is closed. */
  predicate EndsClosed(x: Exchange, y: Exchange, first: Notice, left: multiset<Op>) {
    && y.claimed && y.closed && y.lease == x.lease && y.ops == left
    && y.notices != [] && y.notices[0] == first
  }

  /** The exchange goes on with exactly `op`, nobody has been told anything, and the connection is kept. */
  predicate GoesOn(x: Exchange, e: Event, y: Exchange, op: Op) {
    && !y.claimed && y.ops == multiset{op} && y.notices == [] && y.lease == x.lease && !y.closed
    && y.streamStarted == (x.streamStarted || op.SendingHeader?)
    && (if IsConnectionStage(e) then y.generation > x.generation else y.generation == x.generation && y.waits == x.waits)
    && (e.HeaderRead? && e.head.BodyFollows? && x.streams ==> |y.block| == e.head.blockSize)
  }

  /** The response is complete: the connection is given back if it can be used again, closed otherwise. */
  predicate Concludes(x: Exchange, e: Event, y: Exchange, reusable: bool) {
    && y.claimed && y.ops == multiset{} && y.notices != []
    && y.notices[0] == (if FaultOf(e) == AtEntry then OnAbort
                        else if e.Sent? then Finish(true, FaultOf(e) == CallbackThrows)
                        else if FaultOf(e) == BuildFails then OnAbort
                        else OnComplete(FaultOf(e) == CallbackThrows))
    && (if reusable && FaultOf(e) != AtEntry then y.lease.None? && !y.closed else y.lease == x.lease && y.closed)
  }

  function Reusable(e: Event): bool {
    match e
    case HeaderRead(head, _) => head.NoBodyLeft? && head.reusable
    case BodyRead(_, _, reusable, _) => reusable
    case Sent(_, _, reusable, _) => reusable
    case _ => false
  }

  /** What the event `e` makes of a live exchange `x`. */
  predicate Meets(x: Exchange, e: Event, y: Exchange) {
    if StageError(e) then EndsClosed(x, y, FailureVerdict(x, FaultOf(e)), multiset{})
    else if NextOp(x, e).None? then Concludes(x, e, y, Reusable(e))
    else if BreaksBefore(x, e) then EndsClosed(x, y, OnAbort, multiset{})
    else if BreaksAfter(x, e) then EndsClosed(x, y, OnAbort, multiset{NextOp(x, e).value})
    else GoesOn(x, e, y, NextOp(x, e).value)
  }

  // ----- handlers

  lemma FailVerdict(x: Exchange, f: Fault)
    requires Acting(x)
    ensures EndsClosed(x, RunHandler(Fail(x, f)), FailureVerdict(x, f), x.ops)
  {
  }

  lemma RejectVerdict(x: Exchange, f: Fault)
    requires Acting(x) && !x.streamStarted
    ensures EndsClosed(x, RunHandler(RejectBudget(x, f)), FailureVerdict(x, f), x.ops)
  {
  }

  lemma RaiseVerdict(x: Exchange)
    requires !x.claimed && x.canAbort && x.notices == [] && x.lease.Some?
    ensures EndsClosed(x, RunHandler(Raised(x)), OnAbort, x.ops)
  {
  }

  lemma ArmVerdict(x: Exchange, op: Op, f: Fault)
    requires Acting(x) && x.ops == multiset{}
    ensures var y := RunHandler(ArmAndStart(x, op, f));
      if f == ArmFails || f == StartFails then EndsClosed(x, y, OnAbort, multiset{})
      else !y.claimed && y.ops == multiset{op} && y.notices == [] && y.lease == x.lease && !y.closed
           && y.streamStarted == x.streamStarted && y.generation > x.generation
  {
    var flow := ArmAndStart(x, op, f);
    if flow.Raised? {
      RaiseVerdict(flow.x);
    }
  }

  /** What a handler that continues under the read deadline leaves. */
  predicate StaysOn(x: Exchange, y: Exchange, op: Op) {
    && !y.claimed && y.ops == multiset{op} && y.notices == [] && y.lease == x.lease && !y.closed
    && y.streamStarted == x.streamStarted && y.generation == x.generation && y.waits == x.waits && y.block == x.block
  }

  lemma StartVerdict(x: Exchange, op: Op, f: Fault)
    requires Reading(x)
    ensures var y := RunHandler(StartOp(x, op, f)); if f == StartFails then EndsClosed(x, y, OnAbort, multiset{}) else StaysOn(x, y, op)
  {
    if f == StartFails {
      RaiseVerdict(x);
    }
  }

  lemma HandVerdict(x: Exchange, op: Op, f: Fault)
    requires Reading(x)
    ensures var sent := StartOp(x, op, f); var y := RunHandler(if f == CallbackThrows then Raised(sent.x) else sent);
      if f == StartFails then EndsClosed(x, y, OnAbort, multiset{})
      else if f == CallbackThrows then EndsClosed(x, y, OnAbort, multiset{op})
      else StaysOn(x, y, op)
  {
    if f == CallbackThrows {
      RaiseVerdict(x.(ops := x.ops + multiset{op}));
    } else {
      StartVerdict(x, op, f);
    }
  }

  /** How a complete response is concluded; `told` is the verdict when nothing raises. */
  predicate Concluded(z: Exchange, y: Exchange, first: Notice, returned: bool) {
    && y.claimed && y.ops == z.ops && y.notices != [] && y.notices[0] == first
    && (if returned then y.lease.None? && !y.closed else y.lease == z.lease && y.closed)
  }

  lemma ResponseVerdict(z: Exchange, reusable: bool, f: Fault)
    requires Acting(z)
    ensures Concluded(z, RunHandler(FinishResponse(z, reusable, f)),
                      if f == AtEntry || f == BuildFails then OnAbort else OnComplete(f == CallbackThrows), reusable && f != AtEntry)
  {
  }

  lemma StreamVerdict(z: Exchange, reusable: bool, f: Fault)
    requires Acting(z)
    ensures Concluded(z, RunHandler(FinishStream(z, reusable, f)),
                      if f == AtEntry then OnAbort else Finish(true, f == CallbackThrows), reusable && f != AtEntry)
  {
  }

  // ----- events

  lemma ResolvedMeets(x: Exchange, e: Event)
    requires Inv(x) && !x.claimed && Enabled(x, e) && e.Resolved?
    ensures Meets(x, e, Step(x, e))
  {
    var z := StageEntered(x, Resolving);
    if e.error {
      FailVerdict(z, e.f);
    } else {
      ArmVerdict(z, Connecting, e.f);
    }
  }

  lemma ConnectFails(x: Exchange, e: Event)
    requires Inv(x) && !x.claimed && Enabled(x, e) && e.Connected? && StageError(e)
    ensures Meets(x, e, Step(x, e))
  {
    var z := StageEntered(x, Connecting);
    FailVerdict(z, e.f);
  }

  lemma ConnectSucceeds(x: Exchange, e: Event)
    requires Inv(x) && !x.claimed && Enabled(x, e) && e.Connected? && !StageError(e)
    ensures Meets(x, e, Step(x, e))
  {
    var z := StageEntered(x, Connecting);
    ArmVerdict(z, if e.result == Tls then Handshaking else Writing, e.f);
  }

  lemma HandshakenMeets(x: Exchange, e: Event)
    requires Inv(x) && !x.claimed && Enabled(x, e) && e.Handshaken?
    ensures Meets(x, e, Step(x, e))
  {
    var z := StageEntered(x, Handshaking);
    if e.error {
      FailVerdict(z, e.f);
    } else {
      ArmVerdict(z, Writing, e.f);
    }
  }

  lemma WrittenMeets(x: Exchange, e: Event)
    requires Inv(x) && !x.claimed && Enabled(x, e) && e.Written?
    ensures Meets(x, e, Step(x, e))
  {
    var z := StageEntered(x, Writing);
    if e.error {
      FailVerdict(z, e.f);
    } else {
      ArmVerdict(z.(readDeadline := z.generation + 1), ReadingHeader, e.f);
    }
  }

  lemma HeaderEntered(x: Exchange, e: Event) returns (z: Exchange)
    requires Inv(x) && !x.claimed && Enabled(x, e) && e.HeaderRead?
    ensures z == Entered(x, e) && Reading(z) && !z.streamStarted && !z.done && z.block == x.block && z.lease == x.lease
  {
    z := Entered(x, e);
    assert Busy(x, ReadingHeader);
  }

  lemma HeaderFails(x: Exchange, e: Event)
    requires Inv(x) && !x.claimed && Enabled(x, e) && e.HeaderRead? && (e.head.HeadError? || e.head.Invalid? || e.head.TooLarge?)
    ensures Meets(x, e, Step(x, e))
  {
    var z := HeaderEntered(x, e);
    FailVerdict(if x.streams && !e.head.HeadError? then z else FinishDeadline(z), e.f);
  }

  lemma HeaderIsRejected(x: Exchange, e: Event)
    requires Inv(x) && !x.claimed && Enabled(x, e) && e.HeaderRead? && e.head.BudgetRejected?
    ensures Meets(x, e, Step(x, e))
  {
    var z := HeaderEntered(x, e);
    RejectVerdict(if x.streams then z else FinishDeadline(z), e.f);
  }

  lemma StreamBegins(x: Exchange, e: Event)
    requires Inv(x) && !x.claimed && Enabled(x, e) && e.HeaderRead? && !StageError(e) && x.streams
    ensures Meets(x, e, Step(x, e))
  {
    var z := HeaderEntered(x, e);
    if e.f == BuildFails {
      RaiseVerdict(z);
    } else {
      var ready := if e.head.NoBodyLeft? then z.(done := true) else z.(block := Zeroed(e.head.blockSize));
      HandVerdict(ready.(streamStarted := true), SendingHeader(ready.done), e.f);
    }
  }

  lemma BodyBegins(x: Exchange, e: Event)
    requires Inv(x) && !x.claimed && Enabled(x, e) && e.HeaderRead? && !StageError(e) && !x.streams
    ensures Meets(x, e, Step(x, e))
  {
    var z := HeaderEntered(x, e);
    if e.head.BodyFollows? {
      StartVerdict(z, ReadingBody, e.f);
    } else {
      ResponseVerdict(FinishDeadline(z), e.head.reusable, e.f);
    }
  }

  lemma BodyMeets(x: Exchange, e: Event)
    requires Inv(x) && !x.claimed && Enabled(x, e) && e.BodyRead?
    ensures Meets(x, e, Step(x, e))
  {
    var z := FinishDeadline(Entered(x, e));
    assert Busy(x, ReadingBody);
    if StageError(e) {
      FailVerdict(z, e.f);
    } else {
      ResponseVerdict(z, e.reusable, e.f);
    }
  }

  lemma BlockEntered(x: Exchange, e: Event) returns (z: Exchange)
    requires Inv(x) && !x.claimed && Enabled(x, e) && e.BlockRead?
    ensures z == ParserFills(Entered(x, e), e) && Reading(z) && z.streamStarted == x.streamStarted
    ensures z.lease == x.lease && z.generation == x.generation && z.waits == x.waits && (!e.error ==> z.done == e.done)
  {
    assert Busy(x, ReadingBlock);
    z := ParserFills(Entered(x, e), e);
  }

  lemma BlockFails(x: Exchange, e: Event)
    requires Inv(x) && !x.claimed && Enabled(x, e) && e.BlockRead? && e.error
    ensures Meets(x, e, Step(x, e))
  {
    var z := BlockEntered(x, e);
    FailVerdict(z, e.f);
  }

  lemma BlockSucceeds(x: Exchange, e: Event)
    requires Inv(x) && !x.claimed && Enabled(x, e) && e.BlockRead? && !e.error
    ensures Meets(x, e, Step(x, e))
  {
    var z := BlockEntered(x, e);
    if e.bytes == 0 && !e.done {
      StartVerdict(z, ReadingBlock, e.f);
    } else {
      HandVerdict(z, SendingBody(e.bytes, e.done), e.f);
    }
  }

  lemma SentFails(x: Exchange, e: Event)
    requires Inv(x) && !x.claimed && Enabled(x, e) && e.Sent? && e.error
    ensures Meets(x, e, Step(x, e))
  {
    assert Busy(x, e.op);
    var z := Entered(x, e);
    AcknowledgedIsReading(x, e.op, true);
    assert z.ops == multiset{};
  }

  lemma SentSucceeds(x: Exchange, e: Event)
    requires Inv(x) && !x.claimed && Enabled(x, e) && e.Sent? && !e.error
    ensures Meets(x, e, Step(x, e))
  {
    assert Busy(x, e.op);
    var z := DownstreamTakes(Entered(x, e), e.op);
    AcknowledgedIsReading(x, e.op, false);
    if e.op.final {
      StreamVerdict(z, e.reusable, e.f);
    } else {
      StartVerdict(z, ReadingBlock, e.f);
    }
  }

  // ----- main results

  /** Every completion on a live exchange does what the table says, whatever raises. */
  lemma StepMeetsTable(x: Exchange, e: Event)
    requires Inv(x) && !x.claimed && Enabled(x, e) && Completes(e).Some?
    ensures Meets(x, e, Step(x, e))
  {
    match e
    case Resolved(_, _) => ResolvedMeets(x, e);
    case Connected(_, _) => if StageError(e) { ConnectFails(x, e); } else { ConnectSucceeds(x, e); }
    case Handshaken(_, _) => HandshakenMeets(x, e);
    case Written(_, _) => WrittenMeets(x, e);
    case HeaderRead(_, _) =>
      if e.head.BudgetRejected? { HeaderIsRejected(x, e); } else if StageError(e) { HeaderFails(x, e); } else if x.streams { StreamBegins(x, e); } else { BodyBegins(x, e); }
    case BodyRead(_, _, _, _) => BodyMeets(x, e);
    case BlockRead(_, _, _, _, _) => if e.error { BlockFails(x, e); } else { BlockSucceeds(x, e); }
    case Sent(_, _, _, _) => if e.error { SentFails(x, e); } else { SentSucceeds(x, e); }
  }

  /** A failed stage ends the exchange: nothing is outstanding, the connection is closed, the failure is reported. */
  lemma StageErrorEnds(x: Exchange, e: Event)
    requires Inv(x) && !x.claimed && Enabled(x, e) && StageError(e)
    ensures var y := Step(x, e);
      && y.claimed && y.closed && y.lease == x.lease && y.ops == multiset{} && y.notices != []
      && (x.streamStarted ==> y.notices[0] == Finish(false, FaultOf(e) == CallbackThrows))
      && (!x.streamStarted ==> y.notices[0] == if FaultOf(e) == BuildFails then OnAbort else OnComplete(FaultOf(e) == CallbackThrows))
  {
    StepMeetsTable(x, e);
  }

  /** Without an error and without an exception the exchange stays live with exactly the next stage's operation. */
  lemma CleanStageGoesOn(x: Exchange, e: Event)
    requires Inv(x) && !x.claimed && Enabled(x, e) && Completes(e).Some? && !StageError(e) && FaultOf(e) == NoFault && NextOp(x, e).Some?
    ensures var y := Step(x, e);
      !y.claimed && y.ops == multiset{NextOp(x, e).value} && y.notices == [] && y.lease == x.lease && !y.closed
  {
    StepMeetsTable(x, e);
  }

  /** A start leaves exactly the first operation under a deadline; if it throws, the session cancels without a verdict. */
  lemma StartMeets(x: Exchange, reused: bool, f: Fault)
    requires Inv(x) && !x.started && !x.claimed
    ensures var y := Step(x, Start(reused, f));
      if f == ArmFails || f == StartFails then y.claimed && y.closed && y.notices == [] && y.ops == multiset{} && y.lease == x.lease
      else !y.claimed && y.ops == multiset{if reused then Writing else Resolving} && y.notices == [] && y.lease == x.lease && !y.closed
  {
  }

  /** A cancel ends the exchange without a verdict; what was outstanding becomes stale. */
  lemma CancelMeets(x: Exchange)
    requires Inv(x) && !x.claimed
    ensures var y := Step(x, CancelCalled); y.claimed && y.closed && y.notices == [] && y.ops == x.ops && y.lease == x.lease
  {
  }
}
