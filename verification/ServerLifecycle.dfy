/**
 Accepting, draining and stopping. Sessions call back into the server synchronously when they close,
 so a handler may remove sessions, resume accepting, finish the drain or fail the runtime while it is
 still looping over its sessions. An undisturbed handler runs as written; in a disturbed one every place
 that may throw does so or not, and the drain callback may call back.
 */
module ServerLifecycle {
  import opened ServerStates

  datatype SessionPhase = Handshaking | Reading | Proxying | Writing | Closing | Finished

  /** `classify_session_drain`: a session still waiting for a request is closed at once. */
  predicate ClosesOnDrain(phase: SessionPhase) { phase == Handshaking || phase == Reading }

  predicate Stopping(phase: Phase) { phase == ForceStopping || phase == Completed }

  class HttpSession {
    const server: HttpServer
    var phase: SessionPhase
    var draining: bool
    var stopping: bool
    var finished: bool

    constructor (server: HttpServer, tls: bool)
      ensures this.server == server && !finished && !draining && !stopping
      ensures phase == if tls then Handshaking else Reading
    {
      this.server, phase := server, if tls then Handshaking else Reading;
      draining, stopping, finished := false, false, false;
    }

    /** Closes the session once and tells the server, which may react at length before this returns. */
    method Finish()
      requires this in server.sessions && server.Sound({})
      modifies server, server.drain, server.capacity, server.sessions
      ensures server.Sound({}) && server.Quiet() && server.Without(this)
      decreases |server.sessions|, 2
    {
      finished := true;
      phase := Finished;
      server.RemoveSession(this);
    }

    /** `stop` and `close_socket` both end here; an unfinished session always leaves the server. */
    method Stop()
      requires this in server.sessions && server.Sound({})
      modifies server, server.drain, server.capacity, server.sessions
      ensures server.Sound({}) && server.Quiet() && server.Without(this)
      decreases |server.sessions|, 3
    {
      stopping := true;
      Finish();
    }

    /** Closes now if it is only waiting for a request; otherwise remembers to close after the current one. */
    method BeginDrain()
      requires this in server.sessions && server.Sound({}) && server.drain.phase == Draining
      modifies server, server.drain, server.capacity, server.sessions
      ensures server.Sound({}) && server.Forward() && server.Peaceful() && server.drainBegun == old(server.drainBegun)
      ensures server.sessions == old(server.sessions) - (if !old(draining) && ClosesOnDrain(old(phase)) then {this} else {})
      ensures this in server.sessions ==> draining && phase == old(phase)
      ensures forall t :: t in server.sessions && t != this ==> unchanged(t)
      ensures server.sessions != {} ==> server.drain.phase == Draining && server.drainEnabled == old(server.drainEnabled)
      ensures server.sessions == {} ==> server.drain.phase == Completed
      ensures !server.disturbed ==> server.drainEnabled == old(server.drainEnabled)
    {
      if draining || finished {
        return;
      }
      draining := true;
      if ClosesOnDrain(phase) {
        Stop();
      }
    }
  }

  class HttpServer {
    const drain: DrainState
    const capacity: AcceptCapacityState
    var sessions: set<HttpSession>
    var started: bool
    var drainEnabled: bool
    var drainClaimed: bool
    var failureClaimed: bool
    var drainCallbacks: nat      // calls of on_drain_complete
    var failureCallbacks: nat    // calls of on_runtime_failure
    var disturbed: bool          // something may throw, or call back, in the present handler
    ghost var drainBegun: bool   // a drain has been begun
    ghost var halted: bool       // `stop` has been called, by its user or by a runtime failure

    /** Counters, phase and claims agree with the session set; `closing` are sessions on their way out. */
    ghost predicate Core(closing: set<HttpSession>)
      reads this, drain, capacity, sessions
    {
      && (forall s :: s in sessions ==> s.server == this && (s.finished <==> s in closing))
      && drain.activeSessions == capacity.activeConnections == |sessions|
      && (drain.phase == Draining || drain.phase == ForceStopping ==> |sessions| > 0)
      && (drain.phase == Completed ==> |sessions| == 0)
      && (drain.phase == Running ==> !drainEnabled && !capacity.stopped && capacity.Calm())
      && (drain.phase != Running ==> capacity.stopped)
      && drainCallbacks == (if drainClaimed then 1 else 0)
      && (drainClaimed ==> drain.phase == Completed)
      && failureCallbacks <= (if failureClaimed then 1 else 0)
    }

    /** Holds wherever a session can call back: a failed server is stopping, and a completed drain has been announced. */
    ghost predicate Sound(closing: set<HttpSession>)
      reads this, drain, capacity, sessions
    {
      && Core(closing)
      && (failureClaimed ==> Stopping(drain.phase) && !drainEnabled && halted)
      && (if drain.phase == Running then !drainBegun && !halted else drainBegun || halted)
      && (drainBegun && !halted ==> drainEnabled)
      && (drain.phase == Completed && drainEnabled ==> drainClaimed)
    }

    /** No lost wake-up while running. */
    ghost predicate Quiet()
      reads this, drain, capacity
    {
      drain.phase == Running && started ==> capacity.Awake()
    }

    /** While draining every session knows it, and none is waiting for another request. */
    ghost predicate Marked()
      reads this, drain, sessions
    {
      && (drain.phase == Running ==> forall s :: s in sessions ==> !s.draining)
      && (drain.phase == Draining ==> forall s :: s in sessions ==> s.draining && !ClosesOnDrain(s.phase))
    }

    /** Holds between handlers. */
    ghost predicate Ready()
      reads this, drain, capacity, sessions
    {
      && Sound({}) && Quiet() && Marked() && drain.phase != ForceStopping
      && failureCallbacks == (if failureClaimed then 1 else 0)
    }

    /** Flags are one-way and the phase only moves forward. */
    twostate predicate Forward()
      reads this, drain
    {
      && drain.phase.Rank() >= old(drain.phase).Rank()
      && started == old(started)
      && (old(failureClaimed) ==> failureClaimed) && (old(drainClaimed) ==> drainClaimed)
      && (old(drainBegun) ==> drainBegun) && (old(halted) ==> halted) && Told()
    }

    /** A failure that has been claimed since has also been reported since, once. */
    twostate predicate Told()
      reads this
    {
      failureCallbacks == old(failureCallbacks) + (if failureClaimed && !old(failureClaimed) then 1 else 0)
    }

    /** An undisturbed handler fails nothing, halts nothing and leaves an announced drain announced. */
    twostate predicate Peaceful()
      reads this
    {
      && disturbed == old(disturbed)
      && (!disturbed ==> failureClaimed == old(failureClaimed) && halted == old(halted))
    }

    /**
     Session `s` has left since the old state. Nothing else happened to the other sessions, unless an
     exception while resuming to accept has failed the runtime and stopped them all.
     */
    twostate predicate Without(s: HttpSession)
      reads this, drain, capacity, sessions
    {
      && Forward()
      && sessions <= old(sessions) - {s}
      && (forall t :: t in sessions ==> unchanged(t))
      && (old(drain.phase) == Running && drain.phase != Running ==> drain.phase == Completed && sessions == {})
      && (drain.phase == Running || old(drain.phase) != Running ==> sessions == old(sessions) - {s})
      && (old(drain.phase) != Running && sessions != {} ==> drain.phase == old(drain.phase) && drainEnabled == old(drainEnabled))
      && (old(drain.phase) != Running && sessions == {} && old(drainEnabled) ==> drainClaimed)
      && (old(drain.phase) != Running && !old(drainEnabled) ==> Silent())
      && Peaceful() && drainBegun == old(drainBegun)
      && (!disturbed ==> drainEnabled == old(drainEnabled) && (old(drain.phase) == Running ==> drain.phase == Running))
    }

    /** No callback has run, and none will for this shutdown. */
    twostate predicate Silent()
      reads this
    {
      && !drainEnabled && drainClaimed == old(drainClaimed)
      && failureClaimed == old(failureClaimed) && failureCallbacks == old(failureCallbacks) && halted == old(halted)
    }

    constructor (maxConnections: nat)
      ensures Ready() && fresh(drain) && fresh(capacity) && sessions == {} && !started && drain.phase == Running
      ensures capacity.maxConnections == maxConnections
    {
      drain := new DrainState();
      capacity := new AcceptCapacityState(maxConnections);
      sessions := {};
      started, drainEnabled, drainClaimed, failureClaimed := false, false, false, false;
      drainCallbacks, failureCallbacks := 0, 0;
      disturbed, drainBegun, halted := false, false, false;
    }

    // ----- the re-entrant core

    /** Starts the next accept if there is room; the call that starts it may throw. */
    method DriveAccept() returns (threw: bool)
      requires drain.phase == Running ==> capacity.Calm() && !capacity.stopped
      modifies capacity
      ensures capacity.activeConnections == old(capacity.activeConnections) && capacity.stopped == old(capacity.stopped)
      ensures drain.phase == Running ==> capacity.Calm() && capacity.Awake()
      ensures threw ==> drain.phase == Running && disturbed
      ensures capacity.retryPending == old(capacity.retryPending)
    {
      if drain.phase != Running {
        return false;
      }
      var action := capacity.NextAction();
      if action == NoAction || action == Pause {
        return false;
      }
      threw := *;
      threw := threw && disturbed;
    }

    method RemoveSession(s: HttpSession)
      requires s in sessions && Sound({s})
      modifies this, drain, capacity, sessions
      ensures Sound({}) && Quiet() && Without(s)
      decreases |sessions|, 1
    {
      sessions := sessions - {s};
      capacity.SessionFinished();
      var drained := drain.SessionFinished();
      if drained {
        if drainEnabled {
          FinishDrain();
        }
        return;
      }
      var threw := DriveAccept();
      if threw {
        FailRuntime();
      }
    }

    /** Announces a completed drain once. The callback may stop the server again, and may throw. */
    method FinishDrain()
      requires Core({}) && drain.phase == Completed && (failureClaimed ==> !drainEnabled && halted)
      requires (drainBegun || halted) && (drainBegun && !halted ==> drainEnabled)
      modifies this, drain, capacity, sessions
      ensures Sound({}) && drain.phase == Completed && sessions == {} && started == old(started)
      ensures Told() && (old(failureClaimed) ==> failureClaimed)
      ensures drainClaimed <==> old(drainClaimed) || old(drainEnabled)
      ensures Peaceful() && drainBegun == old(drainBegun) && (!disturbed ==> drainEnabled == old(drainEnabled))
      ensures old(halted) ==> halted
      decreases |sessions|, 7
    {
      if drainClaimed || !drainEnabled {
        return;
      }
      drainClaimed := true;
      drainCallbacks := drainCallbacks + 1;
      var callsBack, throws := *, *;
      if disturbed && callsBack {
        Stop();
      }
      if disturbed && throws {
        FailRuntime();
      }
    }

    /** The one-shot runtime failure: everything is stopped before the callback. */
    method FailRuntime()
      requires Sound({})
      modifies this, drain, capacity, sessions
      ensures Sound({}) && Stopping(drain.phase) && failureClaimed && halted && started == old(started)
      ensures Told() && disturbed == old(disturbed) && drainBegun == old(drainBegun)
      ensures drain.phase.Rank() >= old(drain.phase).Rank() && drainClaimed == old(drainClaimed)
      ensures Stopping(old(drain.phase)) ==> drain.phase == old(drain.phase) && sessions == old(sessions)
      ensures Stopping(old(drain.phase)) ==> forall t :: t in sessions ==> unchanged(t)
      ensures !Stopping(old(drain.phase)) ==> drain.phase == Completed && sessions == {}
      decreases |sessions|, 6
    {
      if failureClaimed {
        return;
      }
      failureClaimed := true;
      Stop();
      failureCallbacks := failureCallbacks + 1;
    }

    method StopAccepting()
      modifies capacity
      ensures capacity.stopped && capacity.activeConnections == old(capacity.activeConnections)
    {
      capacity.Stop();
    }

    /** Immediate stop, without a drain announcement. */
    method Stop()
      requires Core({})
      modifies this, drain, capacity, sessions
      ensures Sound({}) && Stopping(drain.phase) && !drainEnabled && halted && started == old(started)
      ensures disturbed == old(disturbed) && drainBegun == old(drainBegun)
      ensures failureClaimed == old(failureClaimed) && failureCallbacks == old(failureCallbacks) && drainClaimed == old(drainClaimed)
      ensures drain.phase.Rank() >= old(drain.phase).Rank()
      ensures Stopping(old(drain.phase)) ==> drain.phase == old(drain.phase) && sessions == old(sessions)
      ensures Stopping(old(drain.phase)) ==> forall t :: t in sessions ==> unchanged(t)
      ensures !Stopping(old(drain.phase)) ==> drain.phase == Completed && sessions == {}
      decreases |sessions|, 5
    {
      drainEnabled := false;
      halted := true;
      var result := drain.BeginForceStop();
      if result == Unchanged {
        return;
      }
      StopAccepting();
      StopAllSessions();
    }

    /** Terminates because every session in the set is unfinished, so each stop removes one. */
    method StopAllSessions()
      requires Sound({}) && Stopping(drain.phase)
      modifies this, drain, capacity, sessions
      ensures Sound({}) && sessions == {} && drain.phase == Completed && Forward()
      ensures !old(drainEnabled) ==> Silent()
      ensures old(drainEnabled) ==> drainClaimed
      ensures Peaceful() && drainBegun == old(drainBegun)
      decreases |sessions|, 4
    {
      while sessions != {}
        invariant Sound({}) && sessions <= old(sessions) && Stopping(drain.phase) && Forward()
        invariant !old(drainEnabled) ==> Silent()
        invariant Peaceful() && drainBegun == old(drainBegun)
        invariant old(drainEnabled) ==> if sessions == {} then drainClaimed else drainEnabled
        decreases |sessions|
      {
        var s :| s in sessions;
        s.Stop();
      }
    }

    // ----- the handlers

    /** Listening begins; a failure to start destroys the server, which stops it. */
    method Start()
      requires Ready()
      modifies this, drain, capacity, sessions
      ensures Ready() && drain.phase.Rank() >= old(drain.phase).Rank()
      ensures started ==> old(started) || drain.phase != Running || capacity.Awake()
      ensures !disturbed ==> started && drain.phase == old(drain.phase) && sessions == old(sessions) && halted == old(halted)
    {
      if started {
        return;
      }
      started := true;
      var threw := DriveAccept();
      if threw {
        Stop();
      }
    }

    /** A session is created for an accepted connection and counted by both states. */
    method Join(tls: bool)
      requires Sound({}) && Marked() && drain.phase == Running
      requires capacity.activeConnections < capacity.maxConnections && !capacity.acceptPending && !capacity.retryPending
      modifies this, drain, capacity
      ensures Sound({}) && Marked() && Forward() && Peaceful() && drain.phase == Running
      ensures old(sessions) < sessions && |sessions| == |old(sessions)| + 1 && fresh(sessions - old(sessions))
      ensures forall s :: s in sessions - old(sessions) ==> s.phase == if tls then Handshaking else Reading
    {
      var session := new HttpSession(this, tls);
      sessions := sessions + {session};
      capacity.SessionStarted();
      drain.SessionStarted();
    }

    /** An accept completes. A new session joins, or a retry is scheduled, or an exception fails the runtime. */
    method OnAccept(error: bool, tls: bool)
      requires Ready() && started && capacity.acceptPending
      modifies this, drain, capacity, sessions
      ensures Ready() && Forward() && fresh(sessions - old(sessions))
      ensures old(drain.phase) != Running ==> sessions == old(sessions) && drain.phase == old(drain.phase)
      ensures drain.phase == Running && !error ==> |sessions| == |old(sessions)| + 1
      ensures drain.phase == Running && error ==> sessions == old(sessions) && capacity.retryPending
      ensures !disturbed ==> drain.phase == old(drain.phase) && old(sessions) <= sessions
      ensures Peaceful()
    {
      capacity.AcceptCompleted();
      if drain.phase != Running {
        return;
      }
      var loggingThrows, waitThrows, startThrows := *, *, *;
      if disturbed && loggingThrows {
        FailRuntime();
        return;
      }
      if error {
        capacity.RetryScheduled();
        if disturbed && waitThrows {
          FailRuntime();
        }
        return;
      }
      Join(tls);
      var threw := disturbed && startThrows;
      if !threw {
        threw := DriveAccept();
      }
      if threw {
        FailRuntime();
      }
    }

    method OnAcceptRetryTimer(error: bool)
      requires Ready() && started && capacity.retryPending
      modifies this, drain, capacity, sessions
      ensures Ready() && Forward() && sessions <= old(sessions)
      ensures old(drain.phase) == Running && error ==> failureClaimed && drain.phase == Completed
      ensures !disturbed && !error ==> drain.phase == old(drain.phase) && sessions == old(sessions) && failureClaimed == old(failureClaimed)
      ensures drain.phase == Running ==> capacity.acceptPending || capacity.activeConnections == capacity.maxConnections
    {
      capacity.RetryCompleted();
      if drain.phase != Running {
        return;
      }
      if error {
        FailRuntime();
        return;
      }
      var threw := DriveAccept();
      if threw {
        FailRuntime();
      }
    }

    /**
     The first shutdown signal: sessions waiting for a request close, the others finish their current one.
     The drain is announced when the last of them has left, which may be now.
     */
    method BeginDrain()
      requires Ready()
      modifies this, drain, capacity, sessions
      ensures Ready() && Forward() && Peaceful() && sessions <= old(sessions) && drain.phase != Running
      ensures old(drain.phase) != Running ==> drain.phase == old(drain.phase) && sessions == old(sessions) && drainCallbacks == old(drainCallbacks)
      ensures old(drain.phase) == Running ==> drainBegun
      // undisturbed, a session survives exactly if it was busy with a request, and is left to finish it
      ensures !disturbed && old(drain.phase) == Running ==> drainEnabled
      ensures !disturbed && old(drain.phase) == Running ==>
        forall s :: s in old(sessions) ==> (s in sessions <==> old(s.phase) != Handshaking && old(s.phase) != Reading)
      ensures !disturbed && old(drain.phase) == Running ==>
        forall s :: s in sessions ==> !s.finished && s.draining && s.phase == old(s.phase)
      ensures !disturbed && old(drain.phase) == Running ==>
        if sessions == {} then drain.phase == Completed && drainCallbacks == 1 else drain.phase == Draining && drainCallbacks == 0
    {
      var result := drain.BeginDrain();
      if result == Unchanged {
        return;
      }
      drainEnabled := true;
      drainBegun := true;
      StopAccepting();
      if result == NothingActive {
        FinishDrain();
        return;
      }
      var snapshotThrows, timerThrows := *, *;
      if disturbed && snapshotThrows {
        FailRuntime();
        return;
      }
      DrainSessions();
      if drain.phase != Draining {
        return;
      }
      if disturbed && timerThrows {
        FailRuntime();
      }
    }

    /** The loop over a snapshot of the sessions; closing one may complete the drain in the middle of it. */
    method DrainSessions()
      requires Sound({}) && drain.phase == Draining && forall s :: s in sessions ==> !s.draining
      modifies this, drain, capacity, sessions
      ensures Sound({}) && Marked() && Forward() && Peaceful() && sessions <= old(sessions) && drainBegun == old(drainBegun)
      ensures forall s :: s in old(sessions) ==> (s in sessions <==> !ClosesOnDrain(old(s.phase)))
      ensures forall s :: s in sessions ==> s.draining && s.phase == old(s.phase)
      ensures sessions != {} ==> drain.phase == Draining
      ensures sessions == {} ==> drain.phase == Completed
      ensures !disturbed ==> drainEnabled == old(drainEnabled)
    {
      var snapshot := sessions;
      ghost var phases := map s | s in sessions :: s.phase;
      while snapshot != {}
        invariant Halfway(phases, snapshot) && sessions <= old(sessions)
        invariant Sound({}) && Forward() && Peaceful() && drainBegun == old(drainBegun)
        invariant if sessions == {} then drain.phase == Completed else drain.phase == Draining
        invariant !disturbed ==> drainEnabled == old(drainEnabled)
        decreases |snapshot|
      {
        var s :| s in snapshot;
        snapshot := snapshot - {s};
        DrainNext(s, phases, snapshot);
      }
    }

    /** Of the sessions that were there, with these phases, all but the snapshot have been told to drain. */
    ghost predicate Halfway(phases: map<HttpSession, SessionPhase>, snapshot: set<HttpSession>)
      reads this, sessions
    {
      && snapshot <= sessions <= phases.Keys
      && (forall s :: s in phases && s !in snapshot ==> (s in sessions <==> !ClosesOnDrain(phases[s])))
      && (forall s :: s in sessions ==> s.phase == phases[s] && s.draining == (s !in snapshot))
    }

    method DrainNext(s: HttpSession, ghost phases: map<HttpSession, SessionPhase>, ghost rest: set<HttpSession>)
      requires Sound({}) && drain.phase == Draining && s !in rest && Halfway(phases, rest + {s})
      modifies this, drain, capacity, sessions
      ensures Sound({}) && Forward() && Peaceful() && Halfway(phases, rest) && sessions <= old(sessions)
      ensures drainBegun == old(drainBegun) && (!disturbed ==> drainEnabled == old(drainEnabled))
      ensures if sessions == {} then drain.phase == Completed else drain.phase == Draining
    {
      s.BeginDrain();
    }

    /** The end of every forced shutdown: stop accepting, stop every session. */
    method ForceStop()
      requires Ready() && drain.phase == Draining
      modifies this, drain, capacity, sessions
      ensures Ready() && Forward() && Peaceful() && sessions == {} && drain.phase == Completed && drainBegun == old(drainBegun)
      ensures old(drainEnabled) ==> drainCallbacks == 1
    {
      var result := drain.BeginForceStop();
      StopAccepting();
      StopAllSessions();
      // a draining server has an active session, so the stop is never already complete
      assert result != NothingActive;
    }

    /** The second shutdown signal. */
    method ForceStopDrain()
      requires Ready()
      modifies this, drain, capacity, sessions
      ensures Ready() && Forward() && sessions <= old(sessions)
      ensures old(drain.phase) == Draining ==> drain.phase == Completed && (old(drainEnabled) ==> drainCallbacks == 1)
      ensures old(drain.phase) != Draining ==> drain.phase == old(drain.phase) && sessions == old(sessions)
      ensures Peaceful()
    {
      if drain.phase != Draining {
        return;
      }
      ForceStop();
    }

    /** The drain deadline: late completions are ignored, an error is a runtime failure. */
    method OnDrainTimer(error: bool)
      requires Ready()
      modifies this, drain, capacity, sessions
      ensures Ready() && Forward() && sessions <= old(sessions)
      ensures old(drain.phase) == Draining ==> drain.phase == Completed
      ensures old(drain.phase) == Draining && error ==> failureClaimed
      ensures old(drain.phase) == Draining && !error && old(drainEnabled) ==> drainCallbacks == 1
      ensures old(drain.phase) != Draining ==> drain.phase == old(drain.phase) && sessions == old(sessions)
      ensures !error ==> Peaceful()
    {
      if drain.phase != Draining {
        return;
      }
      if error {
        FailRuntime();
      } else {
        ForceStop();
      }
    }

    /** A session closes on its own. */
    method OnSessionClosed(s: HttpSession)
      requires Ready() && s in sessions
      modifies this, drain, capacity, sessions
      ensures Ready() && Forward() && s !in sessions && sessions <= old(sessions)
      ensures old(drain.phase) == Draining && old(sessions) == {s} && old(drainEnabled) ==> drain.phase == Completed && drainCallbacks == 1
      ensures !disturbed ==> sessions == old(sessions) - {s}
      ensures !disturbed && (old(drain.phase) == Running || sessions != {}) ==> drain.phase == old(drain.phase)
      ensures Peaceful()
    {
      s.Finish();
    }

    /** A session asks for its next request; a draining or stopping one closes instead. */
    method OnSessionReads(s: HttpSession)
      requires Ready() && s in sessions
      modifies this, drain, capacity, sessions
      ensures Ready() && Forward() && sessions <= old(sessions)
      ensures old(drain.phase) == Draining ==> s !in sessions
      ensures !disturbed ==> sessions == old(sessions) - (if old(s.stopping || s.draining) then {s} else {})
      ensures s in sessions ==> s.phase == Reading
      ensures Peaceful()
    {
      if s.stopping || s.draining {
        s.Finish();
      } else {
        s.phase := Reading;
      }
    }

    /** A session moves on with its current request. */
    method OnSessionAdvances(s: HttpSession, phase: SessionPhase)
      requires Ready() && s in sessions && (phase == Proxying || phase == Writing || phase == Closing)
      modifies s
      ensures Ready() && s.phase == phase && s.draining == old(s.draining)
    {
      s.phase := phase;
    }

    // ----- whole runs

    /** One handler, chosen by the environment among those that can run, and disturbed or not. */
    method AnyHandler()
      requires Ready() && started
      modifies this, drain, capacity, sessions
      ensures Ready() && Forward() && fresh(sessions - old(sessions))
    {
      disturbed := *;
      if {
        case capacity.acceptPending => var error, tls := *, *; OnAccept(error, tls);
        case capacity.retryPending => var error := *; OnAcceptRetryTimer(error);
        case true => AnyShutdown();
        case sessions != {} => AnySession();
      }
    }

    method AnyShutdown()
      requires Ready() && started
      modifies this, drain, capacity, sessions
      ensures Ready() && Forward() && sessions <= old(sessions)
    {
      if {
        case true => BeginDrain();
        case true => ForceStopDrain();
        case true => var error := *; OnDrainTimer(error);
        case true => FailRuntime();
        case true => Stop();
      }
    }

    method AnySession()
      requires Ready() && started && sessions != {}
      modifies this, drain, capacity, sessions
      ensures Ready() && Forward() && sessions <= old(sessions)
    {
      var s :| s in sessions;
      if {
        case true => OnSessionClosed(s);
        case true => OnSessionReads(s);
        case true =>
          var phase :| phase == Proxying || phase == Writing || phase == Closing;
          OnSessionAdvances(s, phase);
      }
    }

    /**
     Every run of any length, in any order, with any exceptions: between handlers the counters equal the
     session set, the server is awake or paused at its limit, the phase has only moved forward, and the
     drain callback has run at most once, and exactly when an undisturbed drain has completed.
     */
    method Serve(handlers: nat)
      requires Ready() && started
      modifies this, drain, capacity, sessions
      ensures Ready() && Forward() && drainCallbacks <= 1 && failureCallbacks == (if failureClaimed then 1 else 0)
      ensures drain.phase == Running ==>
        capacity.activeConnections + (if capacity.acceptPending then 1 else 0) <= capacity.maxConnections
      ensures drain.phase == Running ==>
        capacity.acceptPending || capacity.retryPending || capacity.activeConnections == capacity.maxConnections
      ensures capacity.activeConnections == drain.activeSessions == |sessions|
      // a drain that nothing halted is announced exactly when the last session has left
      ensures drainBegun && !halted ==> (drainCallbacks == 1 <==> sessions == {})
      ensures drainBegun && !halted ==> drain.phase == if sessions == {} then Completed else Draining
    {
      for k := 0 to handlers
        invariant Ready() && Forward() && started && fresh(sessions - old(sessions))
      {
        AnyHandler();
      }
    }
  }
}
