/** Safety of an exchange over whole runs: every interleaving of handlers, stale timers, cancel and exceptions. */
module ExchangeRuns {
  import opened ProxyExchange
  import opened ExchangeSafety

  /** `states[k]` steps to `states[k + 1]` by `events[k]`, from a newly built exchange. */
  ghost predicate Run(states: seq<Exchange>, events: seq<Event>) {
    && |states| == |events| + 1
    && (exists streams: bool, lease: nat :: states[0] == Fresh(streams, lease))
    && (forall k :: 0 <= k < |events| ==> StepAt(states, events, k))
  }

  predicate StepAt(states: seq<Exchange>, events: seq<Event>, k: nat)
    requires |states| == |events| + 1 && k < |events|
  {
    Enabled(states[k], events[k]) && states[k + 1] == Step(states[k], events[k])
  }

  lemma RunGrows(states: seq<Exchange>, events: seq<Event>, e: Event, y: Exchange)
    requires Run(states, events) && Enabled(states[|events|], e) && y == Step(states[|events|], e)
    ensures Run(states + [y], events + [e])
  {
    var more, longer := states + [y], events + [e];
    assert more[0] == states[0];
    forall k | 0 <= k < |events| ensures StepAt(more, longer, k) {
      assert StepAt(states, events, k);
      SameStep(states, events, more, longer, k);
    }
    assert StepAt(more, longer, |events|);
  }

  lemma SameStep(states: seq<Exchange>, events: seq<Event>, more: seq<Exchange>, longer: seq<Event>, k: nat)
    requires |states| == |events| + 1 && |more| == |longer| + 1 && k < |events| <= |longer| && StepAt(states, events, k)
    requires more[k] == states[k] && more[k + 1] == states[k + 1] && longer[k] == events[k]
    ensures StepAt(more, longer, k)
  {
  }

  /** What every step of a run keeps, without the step itself. */
  lemma RunAdvances(states: seq<Exchange>, events: seq<Event>, k: nat)
    requires Run(states, events) && k < |events| && Inv(states[k])
    ensures Inv(states[k + 1]) && Keeps(states[k], states[k + 1])
    ensures states[k].claimed ==> Inert(states[k], states[k + 1])
  {
    assert StepAt(states, events, k);
    StepKeepsInv(states[k], events[k]);
    if states[k].claimed {
      EndedStepIsInert(states[k], events[k]);
    }
  }

  // ----- whole runs

  lemma {:induction false} RunKeepsInv(states: seq<Exchange>, events: seq<Event>, k: nat)
    requires Run(states, events) && k <= |events|
    ensures Inv(states[k])
  {
    if k > 0 {
      RunKeepsInv(states, events, k - 1);
      RunAdvances(states, events, k - 1);
    }
  }

  /** At most one of on_complete, finish and on_abort is ever called, but for an abort after a callback that threw. */
  lemma OneVerdict(states: seq<Exchange>, events: seq<Event>, k: nat)
    requires Run(states, events) && k <= |events|
    ensures Told(states[k].notices)
    ensures |states[k].notices| <= 1 || (|states[k].notices| == 2 && states[k].notices[1] == OnAbort && !states[k].notices[0].OnAbort? && states[k].notices[0].threw)
    ensures states[k].notices != [] ==> states[k].claimed
  {
    RunKeepsInv(states, events, k);
  }

  /** Once the claim is taken, no later handler starts an operation, arms a wait, tells anyone or touches the lease. */
  lemma {:induction false} NothingAfterTheClaim(states: seq<Exchange>, events: seq<Event>, s: nat, k: nat)
    requires Run(states, events) && s <= k <= |events| && states[s].claimed
    ensures states[k].claimed && states[k].notices == states[s].notices
    ensures states[k].ops <= states[s].ops && states[k].waits <= states[s].waits
    ensures states[k].lease == states[s].lease && states[k].closed == states[s].closed
    decreases k
  {
    if s < k {
      NothingAfterTheClaim(states, events, s, k - 1);
      RunKeepsInv(states, events, k - 1);
      RunAdvances(states, events, k - 1);
    }
  }

  lemma {:induction false} StreamStaysStarted(states: seq<Exchange>, events: seq<Event>, s: nat, k: nat)
    requires Run(states, events) && s <= k <= |events| && states[s].streamStarted
    ensures states[k].streamStarted
    decreases k
  {
    if s < k {
      StreamStaysStarted(states, events, s, k - 1);
      RunKeepsInv(states, events, k - 1);
      RunAdvances(states, events, k - 1);
    }
  }

  /** Once a stream header has been handed down, on_complete is never called. */
  lemma NoCompletionAfterStreamHeader(states: seq<Exchange>, events: seq<Event>, s: nat, k: nat)
    requires Run(states, events) && s <= |events| && k <= |events| && states[s].streamStarted
    ensures forall n :: n in states[k].notices ==> !n.OnComplete?
  {
    if k < s {
      RunKeepsInv(states, events, k);
      if states[k].claimed {
        NothingAfterTheClaim(states, events, k, s);
        RunKeepsInv(states, events, s);
      }
    } else {
      StreamStaysStarted(states, events, s, k);
      RunKeepsInv(states, events, k);
    }
  }

  /** Backpressure: at most one operation, upstream or downstream, is ever outstanding. */
  lemma OneOperationAtATime(states: seq<Exchange>, events: seq<Event>, k: nat)
    requires Run(states, events) && k <= |events|
    ensures |states[k].ops| <= 1
    ensures states[k].started && !states[k].claimed ==> |states[k].ops| == 1
  {
    RunKeepsInv(states, events, k);
    var x := states[k];
    if x.started && !x.claimed {
      var op :| Busy(x, op);
    }
  }

  /**
   Fidelity: what was written downstream is an in-order prefix of the decoded body, a write under way
   carries exactly the rest of it, and a reported success means all of it.
   */
  lemma StreamIsFaithful(states: seq<Exchange>, events: seq<Event>, k: nat)
    requires Run(states, events) && k <= |events|
    ensures states[k].delivered <= states[k].decoded
    ensures forall n: nat, final :: SendingBody(n, final) in states[k].ops ==>
      n <= |states[k].block| && states[k].delivered + states[k].block[..n] == states[k].decoded && final == states[k].done
    ensures forall n :: n in states[k].notices && n.Finish? && n.success ==>
      states[k].done && states[k].delivered == states[k].decoded && states[k].ops == multiset{}
  {
    RunKeepsInv(states, events, k);
  }

  /** A live exchange always has a deadline armed, and from the first byte of the response on it is the one armed when the read began. */
  lemma DeadlineIsAlwaysArmed(states: seq<Exchange>, events: seq<Event>, k: nat)
    requires Run(states, events) && k <= |events| && states[k].started && !states[k].claimed
    ensures states[k].generation in states[k].waits && states[k].generation !in states[k].cancelled
    ensures forall op :: op in states[k].ops && IsRead(op) ==> states[k].generation == states[k].readDeadline
  {
    RunKeepsInv(states, events, k);
    var op :| Busy(states[k], op);
  }

  /** A deadline wait of an older generation does nothing, whatever its outcome. */
  lemma StaleDeadlineIsIgnored(x: Exchange, e: Event)
    requires Enabled(x, e) && e.DeadlineFired? && e.generation != x.generation
    ensures Step(x, e) == x.(waits := x.waits - {e.generation})
  {
  }

  // ----- what an exchange leaves behind

  /** An exchange that has ended has returned or closed its connection and cancelled every wait. */
  lemma EndedIsCleanedUp(states: seq<Exchange>, events: seq<Event>, k: nat)
    requires Run(states, events) && k <= |events| && states[k].claimed
    ensures states[k].lease.None? || states[k].closed
    ensures states[k].waits <= states[k].cancelled
  {
    RunKeepsInv(states, events, k);
  }

  /** The response has been received to its end over a connection that can be used again. */
  predicate EndsReusably(x: Exchange, e: Event) {
    match e
    case HeaderRead(head, f) => !x.streams && head.NoBodyLeft? && head.reusable && f != AtEntry
    case BodyRead(error, shrunk, reusable, f) => !error && shrunk && reusable && f != AtEntry
    case Sent(op, error, reusable, f) =>
      (op.SendingHeader? || op.SendingBody?) && op.final && !error && reusable && f != AtEntry
    case _ => false
  }

  /** A connection is given back exactly then, and only by an exchange that has not ended. */
  lemma LeaseReturnedIff(x: Exchange, e: Event)
    requires Inv(x) && Enabled(x, e) && x.lease.Some?
    ensures Step(x, e).lease.None? <==> !x.claimed && EndsReusably(x, e)
  {
    if x.claimed {
      EndedStepIsInert(x, e);
    } else if IsResponseStage(e) {
      ResponseLeaseIff(Entered(x, e), e);
    }
  }

  lemma ResponseLeaseIff(x: Exchange, e: Event)
    requires !x.observed && x.lease.Some? && IsResponseStage(e)
    requires (e.BlockRead? ==> e.bytes <= |e.block|) && (e.Sent? ==> e.op.SendingHeader? || e.op.SendingBody?)
    ensures ResponseStage(x, e).x.lease.None? <==> EndsReusably(x, e)
  {
  }

  /** The acknowledgement of the last write ends the stream, and reports success. */
  lemma FinalAcknowledgementSucceeds(x: Exchange, e: Event)
    requires Inv(x) && !x.claimed && Enabled(x, e) && e.Sent? && e.op.final && !e.error && e.f != AtEntry
    ensures var y := Step(x, e);
      && y.claimed && y.notices != [] && y.notices[0] == Finish(true, e.f == CallbackThrows)
      && y.done && y.delivered == y.decoded
  {
    StepKeepsInv(x, e);
    assert Busy(x, e.op);
    FirstNotice(SettleLease(FinishDeadline(DownstreamTakes(Entered(x, e), e.op)), e.reusable), true, e.f);
  }

  lemma FirstNotice(x: Exchange, success: bool, f: Fault)
    requires !x.claimed && x.notices == []
    ensures var y := CompleteStream(x, success, f); y.claimed && y.notices != [] && y.notices[0] == Finish(success, f == CallbackThrows)
  {
  }

  /** The live deadline ends whatever the exchange is waiting for: the connection is closed and the failure reported. */
  lemma ExpiryEnds(x: Exchange, e: Event)
    requires Inv(x) && !x.claimed && Enabled(x, e) && e.DeadlineFired? && e.expired && e.generation == x.generation
    ensures var y := Step(x, e);
      && y.claimed && y.closed && y.lease == x.lease && y.notices != []
      && (x.streamStarted ==> y.notices[0] == Finish(false, e.f == CallbackThrows))
      && (!x.streamStarted ==> y.notices[0] == if e.f == BuildFails then OnAbort else OnComplete(e.f == CallbackThrows))
  {
    assert x.started;
    var y := CancelOperations(FinishDeadline(x.(waits := x.waits - {e.generation})));
    assert y.notices == [] && !y.claimed && y.closed;
    FirstNotice(y, false, e.f);
  }
}
