/** What every run of an exchange keeps: one claim, one operation, one deadline, faithful streaming. */
module ExchangeSafety {
  import opened Common
  import opened ProxyExchange

  // ----- the invariant

  /** Everything the owner can ever have been told: one verdict, plus an abort only after a callback that threw. */
  predicate Told(n: seq<Notice>) {
    || n == []
    || n == [OnComplete(false)]
    || n == [OnComplete(true), OnAbort]
    || (|n| == 1 && n[0].Finish? && !n[0].threw)
    || (|n| == 2 && n[0].Finish? && n[0].threw && n[1] == OnAbort)
    || n == [OnAbort]
  }

  predicate IsRead(op: Op) {
    op.ReadingHeader? || op.ReadingBody? || op.ReadingBlock? || op.SendingHeader? || op.SendingBody?
  }

  predicate HasBlock(x: Exchange) { 1 <= |x.block| <= MAX_BLOCK }

  /** Where the exchange and its body bytes stand while `op` is outstanding. */
  predicate OpFits(x: Exchange, op: Op) {
    match op
    case ReadingBlock => x.streamStarted && HasBlock(x) && !x.done && x.delivered == x.decoded
    case SendingHeader(final) => x.streamStarted && (!final ==> HasBlock(x)) && final == x.done && x.decoded == [] && x.delivered == []
    case SendingBody(n, final) =>
      x.streamStarted && HasBlock(x) && final == x.done && n <= |x.block| && x.decoded == x.delivered + x.block[..n]
    case ReadingBody => !x.streamStarted && !x.streams && x.decoded == [] && x.delivered == []
    case _ => !x.streamStarted && x.decoded == [] && x.delivered == [] && !x.done
  }

  /** The lease has been returned or closed, and no wait is left that was not cancelled. */
  predicate CleanedUp(x: Exchange) {
    (x.lease.None? || x.closed) && x.waits <= x.cancelled
  }

  /** Facts that hold with any operations outstanding, inside and between handlers. */
  ghost predicate Steady(x: Exchange) {
    && x.delivered <= x.decoded
    && (x.streamStarted ==> x.streams && x.started)
    && (forall g :: g in x.waits || g in x.cancelled ==> g <= x.generation)
    && x.claimed == x.observed
    && Told(x.notices)
    && (forall n :: n in x.notices ==> (n.OnComplete? ==> !x.streamStarted) && (n.Finish? ==> x.streamStarted))
    && (forall n :: n in x.notices && n.Finish? && n.success ==> x.done && x.delivered == x.decoded)
    && (if x.claimed then !x.canComplete && !x.canAbort && CleanedUp(x)
        else x.canComplete && x.canAbort && x.notices == [] && x.lease.Some? && !x.closed)
  }

  /** A started exchange that has not ended has exactly one operation and one live deadline. */
  ghost predicate Busy(x: Exchange, op: Op) {
    && x.ops == multiset{op} && OpFits(x, op)
    && x.generation in x.waits && x.generation !in x.cancelled
    && (IsRead(op) ==> x.generation == x.readDeadline)
  }

  ghost predicate Inv(x: Exchange) {
    && Steady(x)
    && (x.ops == multiset{} || exists op :: x.ops == multiset{op} && OpFits(x, op))
    && (x.started && !x.claimed ==> exists op :: Busy(x, op))
    && (!x.started ==> x.ops == multiset{} && x.waits == {} && x.decoded == [] && x.delivered == [] && !x.done)
    && (forall n :: n in x.notices && n.Finish? && n.success ==> x.ops == multiset{})
  }

  /** A handler runs on a live exchange. */
  ghost predicate Acting(x: Exchange) {
    Steady(x) && x.started && !x.claimed
  }

  /** A handler has begun to wind a live exchange down: handlers are shut out and the lease is settled. */
  ghost predicate Winding(x: Exchange) {
    Acting(x.(observed := false, closed := false, lease := Some(0)))
  }

  ghost predicate Ended(x: Exchange) {
    Steady(x) && x.started && x.claimed
  }

  /** The operations and the body bytes are the same in both. */
  predicate SameWork(x: Exchange, y: Exchange) {
    && x.ops == y.ops && x.streamStarted == y.streamStarted && x.streams == y.streams
    && x.block == y.block && x.decoded == y.decoded && x.done == y.done && x.delivered == y.delivered
  }

  predicate NoSuccess(x: Exchange) {
    forall n :: n in x.notices && n.Finish? ==> !n.success
  }

  lemma EndedIsSafe(x: Exchange)
    requires Ended(x) && x.ops == multiset{}
    ensures Inv(x)
  {
  }

  lemma EndedWithOpIsSafe(x: Exchange, op: Op)
    requires Ended(x) && NoSuccess(x) && x.ops == multiset{op} && OpFits(x, op)
    ensures Inv(x)
  {
  }

  lemma BusyIsSafe(x: Exchange, op: Op)
    requires Acting(x) && Busy(x, op)
    ensures Inv(x)
  {
  }

  // ----- every way a handler can end

  lemma RaisingEnds(x: Exchange)
    requires Winding(x)
    ensures var y := RunHandler(Raised(x)); Ended(y) && SameWork(x, y) && NoSuccess(y)
  {
  }

  lemma CompletingEnds(x: Exchange, f: Fault)
    requires Winding(x) && CleanedUp(x) && !x.streamStarted
    ensures var y := Complete(x, f); Ended(y) && SameWork(x, y) && NoSuccess(y)
  {
  }

  lemma CompletingStreamEnds(x: Exchange, success: bool, f: Fault)
    requires Winding(x) && CleanedUp(x) && x.streamStarted
    requires success ==> x.done && x.delivered == x.decoded
    ensures var y := CompleteStream(x, success, f); Ended(y) && SameWork(x, y) && (!success ==> NoSuccess(y))
  {
  }

  lemma FailingEnds(x: Exchange, f: Fault)
    requires Acting(x)
    ensures var y := RunHandler(Fail(x, f)); Ended(y) && SameWork(x, y) && NoSuccess(y)
  {
    var y := CancelOperations(FinishDeadline(x));
    assert Winding(y) && SameWork(x, y);
    if y.streamStarted {
      CompletingStreamEnds(y, false, f);
    } else if f == BuildFails {
      RaisingEnds(y);
    } else {
      CompletingEnds(y, f);
    }
  }

  lemma RejectingEnds(x: Exchange, f: Fault)
    requires Acting(x) && !x.streamStarted
    ensures var y := RunHandler(RejectBudget(x, f)); Ended(y) && SameWork(x, y)
  {
    var y := CancelOperations(x);
    if f == BuildFails {
      RaisingEnds(y);
    } else {
      CompletingEnds(y, f);
    }
  }

  lemma FinishingResponseEnds(x: Exchange, reusable: bool, f: Fault)
    requires Acting(x) && !x.streamStarted
    ensures var y := RunHandler(FinishResponse(x, reusable, f)); Ended(y) && SameWork(x, y)
  {
    var y := SettleLease(FinishDeadline(x), reusable);
    if f == AtEntry {
      RaisingEnds(x);
    } else if f == BuildFails {
      RaisingEnds(y);
    } else {
      CompletingEnds(y, f);
    }
  }

  lemma FinishingStreamEnds(x: Exchange, reusable: bool, f: Fault)
    requires Acting(x) && x.streamStarted && x.done && x.delivered == x.decoded
    ensures var y := RunHandler(FinishStream(x, reusable, f)); Ended(y) && SameWork(x, y)
  {
    if f == AtEntry {
      RaisingEnds(x);
    } else {
      CompletingStreamEnds(SettleLease(FinishDeadline(x), reusable), true, f);
    }
  }

  /** Arming a deadline and starting the next operation leaves the exchange busy, or a failure ends it. */
  lemma ArmingContinues(x: Exchange, op: Op, f: Fault)
    requires Acting(x) && x.ops == multiset{} && OpFits(x, op) && (IsRead(op) ==> x.readDeadline == x.generation + 1)
    ensures Inv(RunHandler(ArmAndStart(x, op, f)))
  {
    var flow := ArmAndStart(x, op, f);
    if flow.Raised? {
      RaisingEnds(flow.x);
    } else {
      BusyIsSafe(flow.x, op);
    }
  }

  /** The deadline armed for reading the response is live. */
  ghost predicate Reading(x: Exchange) {
    Acting(x) && x.ops == multiset{} && x.generation in x.waits && x.generation !in x.cancelled && x.generation == x.readDeadline
  }

  /** Starting an operation under the deadline already armed. */
  lemma StartingContinues(x: Exchange, op: Op, f: Fault)
    requires Reading(x) && OpFits(x, op)
    ensures Inv(RunHandler(StartOp(x, op, f)))
  {
    if f == StartFails {
      RaisingEnds(x);
    } else {
      BusyIsSafe(x.(ops := x.ops + multiset{op}), op);
    }
  }

  /** Handing something down; the callback may throw once the write is under way. */
  lemma HandingContinues(x: Exchange, op: Op, f: Fault)
    requires Reading(x) && OpFits(x, op)
    ensures var sent := StartOp(x, op, f);
      Inv(RunHandler(if f == CallbackThrows then Raised(sent.x) else sent))
  {
    if f == CallbackThrows {
      var y := StartOp(x, op, f).x;
      RaisingEnds(y);
      EndedWithOpIsSafe(RunHandler(Raised(y)), op);
    } else {
      StartingContinues(x, op, f);
    }
  }

  // ----- every step

  /** Nothing is told, nothing is started, the lease is left alone. */
  predicate Inert(x: Exchange, y: Exchange) {
    y.claimed && SameRole(x, y) && y.ops <= x.ops && y.waits <= x.waits
  }

  /** What a step does to an exchange that has ended: only the environment's own effects. */
  function Stale(x: Exchange, e: Event): (y: Exchange)
    requires Enabled(x, e)
    ensures SameRole(x, y) && y.ops == Entered(x, e).ops && y.waits <= x.waits
  {
    var y := Entered(x, e);
    match e
    case BlockRead(_, _, _, _, _) => ParserFills(y, e)
    case Sent(op, error, _, _) => if error then y else DownstreamTakes(y, op)
    case DeadlineFired(g, _, _) => y.(waits := y.waits - {g})
    case _ => y
  }

  lemma EndedStagesReturn(x: Exchange, e: Event)
    requires x.claimed && x.observed && Enabled(x, e)
    requires e.Resolved? || e.Connected? || e.Handshaken? || e.Written? || e.CancelCalled? || e.DeadlineFired?
    ensures Step(x, e) == Stale(x, e)
  {
  }

  lemma EndedReadsReturn(x: Exchange, e: Event)
    requires x.claimed && x.observed && Enabled(x, e)
    requires e.HeaderRead? || e.BodyRead?
    ensures Step(x, e) == Stale(x, e)
  {
  }

  lemma EndedBlockReturns(x: Exchange, e: Event)
    requires x.claimed && x.observed && Enabled(x, e) && e.BlockRead?
    ensures Step(x, e) == Stale(x, e)
  {
  }

  lemma EndedSendReturns(x: Exchange, e: Event)
    requires x.claimed && x.observed && Enabled(x, e) && e.Sent?
    ensures Step(x, e) == Stale(x, e)
  {
  }

  lemma EndedHandlersReturn(x: Exchange, e: Event)
    requires x.claimed && x.observed && Enabled(x, e)
    ensures Step(x, e) == Stale(x, e)
  {
    if e.HeaderRead? || e.BodyRead? {
      EndedReadsReturn(x, e);
    } else if e.BlockRead? {
      EndedBlockReturns(x, e);
    } else if e.Sent? {
      EndedSendReturns(x, e);
    } else {
      EndedStagesReturn(x, e);
    }
  }

  /** A stale completion takes its operation away and, at most, moves bytes nobody will be told about. */
  lemma StaleCompletionKeepsInv(x: Exchange, e: Event, op: Op)
    requires Inv(x) && x.claimed && Enabled(x, e) && Completes(e) == Some(op)
    ensures Ended(Stale(x, e)) && Stale(x, e).ops == multiset{}
  {
    assert x.ops == multiset{op} && OpFits(x, op);
    assert x.ops - multiset{op} == multiset{};
    assert NoSuccess(x);
  }

  lemma StaleWaitKeepsInv(x: Exchange, e: Event)
    requires Inv(x) && x.claimed && Enabled(x, e) && Completes(e).None?
    ensures Inv(Stale(x, e))
  {
    if e.DeadlineFired? {
      var y := x.(waits := x.waits - {e.generation});
      assert Stale(x, e) == y && Steady(y);
      if x.ops != multiset{} {
        var op :| x.ops == multiset{op} && OpFits(x, op);
        assert OpFits(y, op);
      }
    }
  }

  lemma StaleKeepsInv(x: Exchange, e: Event)
    requires Inv(x) && x.claimed && Enabled(x, e)
    ensures Inv(Stale(x, e))
  {
    if Completes(e).Some? {
      StaleCompletionKeepsInv(x, e, Completes(e).value);
      EndedIsSafe(Stale(x, e));
    } else {
      StaleWaitKeepsInv(x, e);
    }
  }

  lemma EnteringStartsNothing(x: Exchange, e: Event)
    ensures Entered(x, e).ops <= x.ops
  {
    if Completes(e).Some? {
      var op := Completes(e).value;
      assert forall o :: (x.ops - multiset{op})[o] <= x.ops[o];
    }
  }

  lemma StaleIsInert(x: Exchange, e: Event)
    requires x.claimed && Enabled(x, e)
    ensures Inert(x, Stale(x, e))
  {
    EnteringStartsNothing(x, e);
  }

  /** A handler that finds the exchange ended starts nothing, tells no one, and leaves the lease alone. */
  lemma EndedStepIsInert(x: Exchange, e: Event)
    requires Inv(x) && x.claimed && Enabled(x, e)
    ensures Inv(Step(x, e)) && Inert(x, Step(x, e))
  {
    EndedHandlersReturn(x, e);
    StaleKeepsInv(x, e);
    StaleIsInert(x, e);
  }

  /** An exception while starting reaches the session, which cancels. */
  lemma CancellingEnds(x: Exchange)
    requires Acting(x)
    ensures Ended(Cancel(x)) && SameWork(x, Cancel(x))
  {
  }

  lemma StartStepKeepsInv(x: Exchange, e: Event)
    requires Inv(x) && !x.claimed && Enabled(x, e) && e.Start?
    ensures Inv(Step(x, e))
  {
    var y := x.(started := true);
    assert Acting(y) && y.ops == multiset{};
    StartingKeepsInv(y, if e.reused then Writing else Resolving, e.f);
  }

  lemma StartingKeepsInv(y: Exchange, op: Op, f: Fault)
    requires Acting(y) && y.ops == multiset{} && OpFits(y, op) && !IsRead(op)
    ensures var flow := ArmAndStart(y, op, f); Inv(if flow.Done? then flow.x else Cancel(flow.x))
  {
    var flow := ArmAndStart(y, op, f);
    if flow.Done? {
      BusyIsSafe(flow.x, op);
    } else {
      CancellingEnds(flow.x);
      EndedIsSafe(Cancel(flow.x));
    }
  }

  lemma CancelKeepsInv(x: Exchange)
    requires Inv(x) && !x.claimed
    ensures Inv(Cancel(x))
  {
    if x.started {
      var op :| Busy(x, op);
      assert OpFits(Cancel(x), op);
    }
  }

  lemma DeadlineStepKeepsInv(x: Exchange, e: Event)
    requires Inv(x) && !x.claimed && Enabled(x, e) && e.DeadlineFired?
    ensures Inv(Step(x, e))
  {
    assert x.started;
    var op :| Busy(x, op);
    assert !e.expired ==> e.generation != x.generation;
    WaitKeepsInv(x, e.generation, e.expired, op, e.f);
  }

  lemma WaitKeepsInv(x: Exchange, generation: nat, expired: bool, op: Op, f: Fault)
    requires Acting(x) && Busy(x, op) && (expired || generation != x.generation)
    ensures Inv(WaitDone(x, generation, expired, f))
  {
    if generation == x.generation {
      WaitTakenIsActing(x, generation, op);
      DeadlineEnds(x.(waits := x.waits - {generation}), op, f);
    } else {
      LateWaitIsHarmless(x, generation, op);
    }
  }

  lemma WaitTakenIsActing(x: Exchange, generation: nat, op: Op)
    requires Acting(x) && OpFits(x, op)
    ensures var y := x.(waits := x.waits - {generation}); Acting(y) && OpFits(y, op)
  {
  }

  lemma LateWaitIsHarmless(x: Exchange, generation: nat, op: Op)
    requires Acting(x) && Busy(x, op) && generation != x.generation
    ensures Inv(x.(waits := x.waits - {generation}))
  {
    WaitTakenIsActing(x, generation, op);
    BusyIsSafe(x.(waits := x.waits - {generation}), op);
  }

  /** A completed connection stage: its deadline is finished, and the exchange may fail or go on. */
  lemma StageEntered(x: Exchange, op: Op) returns (z: Exchange)
    requires Inv(x) && !x.claimed && op in x.ops && (op.Resolving? || op.Connecting? || op.Handshaking? || op.Writing?)
    ensures z == FinishDeadline(x.(ops := x.ops - multiset{op}))
    ensures !x.observed && Acting(z) && z.ops == multiset{} && OpFits(z, op)
  {
    z := FinishDeadline(x.(ops := x.ops - multiset{op}));
    assert Busy(x, op);
  }

  lemma ResolvedStepKeepsInv(x: Exchange, e: Event)
    requires Inv(x) && !x.claimed && Enabled(x, e) && e.Resolved?
    ensures Inv(Step(x, e))
  {
    var z := StageEntered(x, Resolving);
    FailingEnds(z, e.f);
    ArmingContinues(z, Connecting, e.f);
  }

  lemma ConnectedStepKeepsInv(x: Exchange, e: Event)
    requires Inv(x) && !x.claimed && Enabled(x, e) && e.Connected?
    ensures Inv(Step(x, e))
  {
    var z := StageEntered(x, Connecting);
    match e.result
    case Tls => ArmingContinues(z, Handshaking, e.f);
    case Plain => ArmingContinues(z, Writing, e.f);
    case _ => FailingEnds(z, e.f);
  }

  lemma HandshakenStepKeepsInv(x: Exchange, e: Event)
    requires Inv(x) && !x.claimed && Enabled(x, e) && e.Handshaken?
    ensures Inv(Step(x, e))
  {
    var z := StageEntered(x, Handshaking);
    FailingEnds(z, e.f);
    ArmingContinues(z, Writing, e.f);
  }

  lemma WrittenStepKeepsInv(x: Exchange, e: Event)
    requires Inv(x) && !x.claimed && Enabled(x, e) && e.Written?
    ensures Inv(Step(x, e))
  {
    var z := StageEntered(x, Writing);
    if e.error {
      FailingEnds(z, e.f);
      EndedIsSafe(RunHandler(Fail(z, e.f)));
    } else {
      ArmingContinues(z.(readDeadline := z.generation + 1), ReadingHeader, e.f);
    }
  }

  /** The deadline fires while an operation is outstanding: the exchange ends and the operation becomes stale. */
  lemma DeadlineEnds(x: Exchange, op: Op, f: Fault)
    requires Steady(x) && x.started && !x.claimed && x.ops == multiset{op} && OpFits(x, op)
    ensures Inv(RunHandler(Fail(x, f)))
  {
    FailingEnds(x, f);
    EndedWithOpIsSafe(RunHandler(Fail(x, f)), op);
  }

  lemma BuildingContinues(x: Exchange, y: Exchange, f: Fault)
    requires Reading(x) && Reading(y) && y.streams && y.decoded == [] && y.delivered == [] && (y.done || HasBlock(y))
    ensures Inv(RunHandler(if f == BuildFails then Raised(x) else HandHeader(y, f)))
  {
    if f == BuildFails {
      RaisingEnds(x);
      EndedIsSafe(RunHandler(Raised(x)));
    } else {
      HeaderHandingContinues(y, f);
    }
  }

  lemma StreamHeaderKeepsInv(y: Exchange, head: Head, f: Fault)
    requires Reading(y) && y.streams && !y.streamStarted && y.decoded == [] && y.delivered == [] && !head.HeadError?
    requires head.BodyFollows? ==> 1 <= head.blockSize <= MAX_BLOCK
    ensures Inv(RunHandler(StartStream(y, head, f)))
  {
    if head.NoBodyLeft? {
      BuildingContinues(y, y.(done := true), f);
    } else if head.BodyFollows? {
      BuildingContinues(y, y.(block := Zeroed(head.blockSize)), f);
    } else {
      if head.BudgetRejected? {
        RejectingEnds(y, f);
      } else {
        FailingEnds(y, f);
      }
      EndedIsSafe(RunHandler(StartStream(y, head, f)));
    }
  }

  lemma BufferedHeaderKeepsInv(y: Exchange, head: Head, f: Fault)
    requires Reading(y) && !y.streams && !y.streamStarted && y.decoded == [] && y.delivered == []
    ensures Inv(RunHandler(StartBuffered(y, head, f)))
  {
    var z := FinishDeadline(y);
    if head.BodyFollows? {
      StartingContinues(y, ReadingBody, f);
    } else {
      if head.BudgetRejected? {
        RejectingEnds(z, f);
      } else if head.NoBodyLeft? {
        FinishingResponseEnds(z, head.reusable, f);
      } else {
        FailingEnds(z, f);
      }
      EndedIsSafe(RunHandler(StartBuffered(y, head, f)));
    }
  }

  lemma HeaderStepKeepsInv(x: Exchange, e: Event)
    requires Inv(x) && !x.claimed && Enabled(x, e) && e.HeaderRead?
    ensures Inv(Step(x, e))
  {
    var y := x.(ops := x.ops - multiset{ReadingHeader});
    assert Busy(x, ReadingHeader) && Reading(y);
    if e.head.HeadError? {
      FailingEnds(FinishDeadline(y), e.f);
    } else if x.streams {
      StreamHeaderKeepsInv(y, e.head, e.f);
    } else {
      BufferedHeaderKeepsInv(y, e.head, e.f);
    }
  }

  lemma HeaderHandingContinues(x: Exchange, f: Fault)
    requires Reading(x) && x.streams && x.decoded == [] && x.delivered == [] && (x.done || HasBlock(x))
    ensures Inv(RunHandler(HandHeader(x, f)))
  {
    var y := x.(streamStarted := true);
    HandingContinues(y, SendingHeader(y.done), f);
  }

  lemma BodyStepKeepsInv(x: Exchange, e: Event)
    requires Inv(x) && !x.claimed && Enabled(x, e) && e.BodyRead?
    ensures Inv(Step(x, e))
  {
    var y := x.(ops := x.ops - multiset{ReadingBody});
    assert Busy(x, ReadingBody);
    FailingEnds(FinishDeadline(y), e.f);
    FinishingResponseEnds(FinishDeadline(y), e.reusable, e.f);
  }

  lemma BlockStepKeepsInv(x: Exchange, e: Event)
    requires Inv(x) && !x.claimed && Enabled(x, e) && e.BlockRead?
    ensures Inv(Step(x, e))
  {
    var y := x.(ops := x.ops - multiset{ReadingBlock});
    assert Busy(x, ReadingBlock);
    var z := ParserFills(y, e);
    assert Reading(z);
    if e.error {
      FailingEnds(z, e.f);
    } else if e.bytes == 0 && !z.done {
      assert e.block[..0] == [];
      StartingContinues(z, ReadingBlock, e.f);
    } else {
      HandingContinues(z, SendingBody(e.bytes, z.done), e.f);
    }
  }

  lemma SentStepKeepsInv(x: Exchange, e: Event)
    requires Inv(x) && !x.claimed && Enabled(x, e) && e.Sent?
    ensures Inv(Step(x, e))
  {
    assert Busy(x, e.op);
    var z := if e.error then Entered(x, e) else DownstreamTakes(Entered(x, e), e.op);
    AcknowledgedIsReading(x, e.op, e.error);
    ResumingKeepsInv(z, e.op.final, e.error, e.reusable, e.f);
  }

  /** When a write is acknowledged, everything decoded so far has been delivered. */
  lemma AcknowledgedIsReading(x: Exchange, op: Op, error: bool)
    requires Acting(x) && Busy(x, op) && (op.SendingHeader? || op.SendingBody?)
    ensures var y := x.(ops := x.ops - multiset{op}); var z := if error then y else DownstreamTakes(y, op);
      && Reading(z) && z.streamStarted
      && (!error ==> z.delivered == z.decoded && z.done == op.final && (!op.final ==> HasBlock(z)))
  {
    assert x.ops - multiset{op} == multiset{};
  }

  lemma ResumingKeepsInv(z: Exchange, final: bool, error: bool, reusable: bool, f: Fault)
    requires Reading(z) && z.streamStarted
    requires !error ==> z.delivered == z.decoded && z.done == final && (!final ==> HasBlock(z))
    ensures Inv(RunHandler(OnSent(z, final, error, reusable, f)))
  {
    if error {
      CompletingStreamEnds(CancelOperations(z), false, f);
      EndedIsSafe(CompleteStream(CancelOperations(z), false, f));
    } else if final {
      FinishingStreamEnds(z, reusable, f);
      EndedIsSafe(RunHandler(FinishStream(z, reusable, f)));
    } else {
      StartingContinues(z, ReadingBlock, f);
    }
  }

  lemma StepKeepsInv(x: Exchange, e: Event)
    requires Inv(x) && Enabled(x, e)
    ensures Inv(Step(x, e))
  {
    if x.claimed {
      EndedStepIsInert(x, e);
    } else {
      match e
      case Start(_, _) => StartStepKeepsInv(x, e);
      case HeaderRead(_, _) => HeaderStepKeepsInv(x, e);
      case BodyRead(_, _, _, _) => BodyStepKeepsInv(x, e);
      case BlockRead(_, _, _, _, _) => BlockStepKeepsInv(x, e);
      case Sent(_, _, _, _) => SentStepKeepsInv(x, e);
      case DeadlineFired(_, _, _) => DeadlineStepKeepsInv(x, e);
      case CancelCalled => CancelKeepsInv(x);
      case Resolved(_, _) => ResolvedStepKeepsInv(x, e);
      case Connected(_, _) => ConnectedStepKeepsInv(x, e);
      case Handshaken(_, _) => HandshakenStepKeepsInv(x, e);
      case Written(_, _) => WrittenStepKeepsInv(x, e);
    }
  }
}
