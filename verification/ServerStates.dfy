/** The server's small one-purpose states: drain phase, accept capacity, shutdown signals. */
module ServerStates {

  datatype Phase = Running | Draining | ForceStopping | Completed {
    /** Phases are ordered; a server only moves forward. */
    function Rank(): nat {
      match this
      case Running => 0
      case Draining => 1
      case ForceStopping => 2
      case Completed => 3
    }
  }

  datatype DrainStart = Unchanged | Started | NothingActive

  class DrainState {
    var phase: Phase
    var activeSessions: nat

    constructor ()
      ensures phase == Running && activeSessions == 0
    {
      phase, activeSessions := Running, 0;
    }

    method SessionStarted()
      modifies this
      ensures phase == old(phase)
      ensures activeSessions == old(activeSessions) + (if phase == Running then 1 else 0)
    {
      if phase == Running {
        activeSessions := activeSessions + 1;
      }
    }

    /** Reports, once, that the last session of a shutdown has left. */
    method SessionFinished() returns (drained: bool)
      modifies this
      ensures activeSessions == if old(activeSessions) == 0 then 0 else old(activeSessions) - 1
      ensures drained <==> old(activeSessions) == 1 && (old(phase) == Draining || old(phase) == ForceStopping)
      ensures phase == if drained then Completed else old(phase)
    {
      if activeSessions == 0 {
        return false;
      }
      activeSessions := activeSessions - 1;
      if activeSessions == 0 && (phase == Draining || phase == ForceStopping) {
        phase := Completed;
        return true;
      }
      return false;
    }

    method BeginDrain() returns (r: DrainStart)
      modifies `phase
      ensures r == Unchanged <==> old(phase) != Running
      ensures phase == if r == Unchanged then old(phase) else if activeSessions == 0 then Completed else Draining
      ensures r == NothingActive <==> old(phase) == Running && activeSessions == 0
    {
      if phase != Running {
        return Unchanged;
      }
      r := TransitionTo(Draining);
    }

    method BeginForceStop() returns (r: DrainStart)
      modifies `phase
      ensures r == Unchanged <==> old(phase) == ForceStopping || old(phase) == Completed
      ensures phase == if r == Unchanged then old(phase) else if activeSessions == 0 then Completed else ForceStopping
      ensures r == NothingActive <==> r != Unchanged && activeSessions == 0
    {
      if phase == ForceStopping || phase == Completed {
        return Unchanged;
      }
      r := TransitionTo(ForceStopping);
    }

    method TransitionTo(target: Phase) returns (r: DrainStart)
      modifies `phase
      ensures phase == if activeSessions == 0 then Completed else target
      ensures r == if activeSessions == 0 then NothingActive else Started
    {
      phase := target;
      if activeSessions == 0 {
        phase := Completed;
        return NothingActive;
      }
      return Started;
    }
  }

  datatype AcceptAction = NoAction | StartAccept | Pause | ResumeAndStart

  class AcceptCapacityState {
    const maxConnections: nat
    var activeConnections: nat
    var acceptPending: bool
    var retryPending: bool
    var paused: bool
    var stopped: bool

    constructor (maxConnections: nat)
      ensures this.maxConnections == maxConnections && activeConnections == 0
      ensures !acceptPending && !retryPending && !paused && !stopped
    {
      this.maxConnections, activeConnections := maxConnections, 0;
      acceptPending, retryPending, paused, stopped := false, false, false, false;
    }

    /** At most one accept or retry at a time, and none beyond the connection limit. */
    ghost predicate Bounded()
      reads this
    {
      && !(acceptPending && retryPending)
      && activeConnections + (if acceptPending then 1 else 0) <= maxConnections
      && (paused ==> activeConnections == maxConnections && !acceptPending && !retryPending)
    }

    /** No lost wake-up: something will accept the next connection, or the server is paused at its limit. */
    ghost predicate Awake()
      reads this
    {
      Bounded() && (acceptPending || retryPending || (paused && activeConnections == maxConnections))
    }

    /** What the next decision relies on; a session that leaves keeps it. */
    ghost predicate Calm()
      reads this
    {
      && activeConnections <= maxConnections && !(acceptPending && retryPending)
      && (acceptPending ==> activeConnections < maxConnections && !paused)
      && (retryPending ==> !paused)
    }

    /** Decides what to do next; afterwards the server is awake, whatever it was before. */
    method NextAction() returns (action: AcceptAction)
      requires Calm()
      modifies this
      ensures activeConnections == old(activeConnections) && retryPending == old(retryPending) && stopped == old(stopped)
      ensures Calm() && (!stopped ==> Awake())
      ensures action == StartAccept || action == ResumeAndStart <==> acceptPending && !old(acceptPending)
      ensures action == ResumeAndStart <==> old(paused) && acceptPending && !old(acceptPending)
      ensures action == Pause <==> paused && !old(paused)
      ensures stopped ==> action == NoAction && acceptPending == old(acceptPending) && paused == old(paused)
    {
      if stopped || acceptPending || retryPending {
        return NoAction;
      }
      if activeConnections >= maxConnections {
        if paused {
          return NoAction;
        }
        paused := true;
        return Pause;
      }
      acceptPending := true;
      if paused {
        paused := false;
        return ResumeAndStart;
      }
      return StartAccept;
    }

    method AcceptCompleted() modifies `acceptPending ensures !acceptPending { acceptPending := false; }

    method RetryScheduled() modifies `retryPending ensures retryPending { retryPending := true; }

    method RetryCompleted() modifies `retryPending ensures !retryPending { retryPending := false; }

    method SessionStarted()
      modifies `activeConnections
      ensures activeConnections == old(activeConnections) + 1
    {
      activeConnections := activeConnections + 1;
    }

    method SessionFinished()
      modifies `activeConnections
      ensures activeConnections == if old(activeConnections) > 0 then old(activeConnections) - 1 else 0
    {
      if activeConnections > 0 {
        activeConnections := activeConnections - 1;
      }
    }

    method Stop() modifies `stopped ensures stopped { stopped := true; }
  }

  // ----- shutdown signals

  datatype WaitError = NoError | Aborted | OtherError

  datatype SignalDisposition = BeginDrainNow | ForceStopNow | Ignored | Fatal

  /** The three one-way flags of `ShutdownSignalState`. */
  datatype Signals = Signals(draining: bool, forceRequested: bool, completed: bool)

  function OnWait(s: Signals, error: WaitError): (Signals, SignalDisposition) {
    if error != NoError then (s, if s.completed && error == Aborted then Ignored else Fatal)
    else if s.completed || s.forceRequested then (s, Ignored)
    else if !s.draining then (s.(draining := true), BeginDrainNow)
    else (s.(forceRequested := true), ForceStopNow)
  }

  class ShutdownSignalState {
    var draining: bool
    var forceRequested: bool
    var completed: bool

    ghost function State(): Signals
      reads this
    {
      Signals(draining, forceRequested, completed)
    }

    constructor ()
      ensures State() == Signals(false, false, false)
    {
      draining, forceRequested, completed := false, false, false;
    }

    method OnWaitCompletion(error: WaitError) returns (d: SignalDisposition)
      modifies this
      ensures (State(), d) == OnWait(old(State()), error)
    {
      if error != NoError {
        if completed && error == Aborted {
          return Ignored;
        }
        return Fatal;
      }
      if completed || forceRequested {
        return Ignored;
      }
      if !draining {
        draining := true;
        return BeginDrainNow;
      }
      forceRequested := true;
      return ForceStopNow;
    }

    method MarkCompleted()
      modifies this
      ensures State() == old(State()).(completed := true)
    {
      completed := true;
    }

    /** Whole runs of the object report what the automaton reports. */
    method Observe(events: seq<SignalEvent>) returns (reports: seq<SignalDisposition>)
      modifies this
      ensures reports == Reports(old(State()), events)
    {
      reports := [];
      assert events[0..] == events;
      for k := 0 to |events|
        invariant reports + Reports(State(), events[k..]) == Reports(old(State()), events)
      {
        assert events[k..][1..] == events[k + 1..];
        match events[k]
        case Wait(error) =>
          var d := OnWaitCompletion(error);
          reports := reports + [d];
        case Complete => MarkCompleted();
      }
    }
  }

  datatype SignalEvent = Wait(error: WaitError) | Complete

  /** The dispositions reported over a whole sequence of waits and completions. */
  function Reports(s: Signals, events: seq<SignalEvent>): seq<SignalDisposition>
    decreases events
  {
    if events == [] then []
    else
      match events[0]
      case Wait(error) => var (s', d) := OnWait(s, error); [d] + Reports(s', events[1..])
      case Complete => Reports(s.(completed := true), events[1..])
  }

  /** How many signals arrived without an error before the shutdown was complete. */
  function CleanSignals(history: seq<SignalEvent>): nat {
    if history == [] then 0
    else
      var before := history[..|history| - 1];
      CleanSignals(before) + (if history[|history| - 1] == Wait(NoError) && Complete !in before then 1 else 0)
  }

  /** What a wait must report after a history: the first signal drains, the second forces, later and late ones are ignored. */
  function Expected(history: seq<SignalEvent>, error: WaitError): SignalDisposition {
    if error == OtherError then Fatal
    else if error == Aborted then (if Complete in history then Ignored else Fatal)
    else if Complete in history || CleanSignals(history) >= 2 then Ignored
    else if CleanSignals(history) == 0 then BeginDrainNow
    else ForceStopNow
  }

  const NO_SIGNALS := Signals(false, false, false)

  function After(s: Signals, events: seq<SignalEvent>): Signals {
    if events == [] then s
    else
      var before := After(s, events[..|events| - 1]);
      match events[|events| - 1]
      case Wait(error) => OnWait(before, error).0
      case Complete => before.(completed := true)
  }

  /** The flags are what the history makes of them. */
  lemma {:induction false} FlagsSummariseHistory(history: seq<SignalEvent>)
    ensures var s := After(NO_SIGNALS, history);
      && s.draining == (CleanSignals(history) >= 1) && s.forceRequested == (CleanSignals(history) >= 2)
      && s.completed == (Complete in history)
  {
    if history != [] {
      var before := history[..|history| - 1];
      FlagsSummariseHistory(before);
      assert history == before + [history[|history| - 1]];
    }
  }

  lemma {:induction false} ReportsGrow(s: Signals, history: seq<SignalEvent>, e: SignalEvent)
    ensures Reports(s, history + [e]) == Reports(s, history) + (if e.Wait? then [OnWait(After(s, history), e.error).1] else [])
    decreases |history|
  {
    var all := history + [e];
    if history == [] {
      assert all[1..] == [];
    } else {
      var s' := match history[0] case Wait(error) => OnWait(s, error).0 case Complete => s.(completed := true);
      assert all[1..] == history[1..] + [e];
      ReportsGrow(s', history[1..], e);
      AfterFirst(s, history);
    }
  }

  lemma {:induction false} AfterFirst(s: Signals, events: seq<SignalEvent>)
    requires events != []
    ensures After(s, events) == After(match events[0] case Wait(error) => OnWait(s, error).0 case Complete => s.(completed := true), events[1..])
    decreases |events|
  {
    if |events| > 1 {
      AfterFirst(s, events[..|events| - 1]);
      assert events[..|events| - 1][1..] == events[1..][..|events| - 2];
    } else {
      assert events[..0] == [];
    }
  }

  /** Exactly what is reported, over any run: each wait reports what its history calls for. */
  lemma ReportsAreExpected(history: seq<SignalEvent>, error: WaitError)
    ensures Reports(NO_SIGNALS, history + [Wait(error)]) == Reports(NO_SIGNALS, history) + [Expected(history, error)]
  {
    ReportsGrow(NO_SIGNALS, history, Wait(error));
    FlagsSummariseHistory(history);
  }

  /** Over any run a drain is begun at most once, and after a force stop every later signal is ignored or fatal. */
  lemma {:induction false} SignalsEscalateOnce(s: Signals, events: seq<SignalEvent>, i: nat, j: nat)
    requires i < j < |Reports(s, events)| && (s.forceRequested ==> s.draining)
    ensures Reports(s, events)[i] == BeginDrainNow || Reports(s, events)[i] == ForceStopNow ==> Reports(s, events)[j] != BeginDrainNow
    ensures Reports(s, events)[i] == ForceStopNow ==> Reports(s, events)[j] == Ignored || Reports(s, events)[j] == Fatal
    decreases events
  {
    match events[0]
    case Wait(error) =>
      var (s', d) := OnWait(s, error);
      if i == 0 {
        LaterReports(s', events[1..], j - 1);
      } else {
        SignalsEscalateOnce(s', events[1..], i - 1, j - 1);
      }
    case Complete => SignalsEscalateOnce(s.(completed := true), events[1..], i, j);
  }

  /** Once forced or completed nothing more is requested; once draining no second drain is. */
  lemma {:induction false} LaterReports(s: Signals, events: seq<SignalEvent>, j: nat)
    requires j < |Reports(s, events)|
    ensures s.draining ==> Reports(s, events)[j] != BeginDrainNow
    ensures s.forceRequested || s.completed ==> Reports(s, events)[j] == Ignored || Reports(s, events)[j] == Fatal
    decreases events
  {
    match events[0]
    case Wait(error) =>
      if j > 0 {
        LaterReports(OnWait(s, error).0, events[1..], j - 1);
      }
    case Complete => LaterReports(s.(completed := true), events[1..], j);
  }
}
