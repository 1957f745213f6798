/** `LanControllerServer`: the fields under `mutex_`, the sections that change them, and the object that runs them. */
module LanControllerServer {
  import opened ControllerOutput
  import opened DeadlineWait
  import opened Protocol

  datatype Server = Server(state: SessionState, stopRequested: bool, out: Output)

  function NewServer(epoch: nat): Server {
    Server(Created, false, NewOutput(epoch))
  }

  predicate Over(s: Server) {
    s.state == Stopped || s.state == Disconnected || s.state == Faulted
  }

  function BeginRunning(s: Server): Server {
    s.(state := Running, stopRequested := false)
  }

  predicate Takes(s: Server, f: StateFrame) {
    s.state == Running && !s.stopRequested && !Stale(s.out, f)
  }

  /** `OnState`; `submitted` is what the virtual pad answers. */
  function OnState(s: Server, f: StateFrame, now: nat, submitted: bool): Server {
    if !Takes(s, f) then s
    else if !submitted then s.(state := Faulted, out := Neutralize(s.out))
    else s.(out := Accept(s.out, f, now))
  }

  function OnTransportDisconnected(s: Server): Server {
    if s.state != Running then s else s.(state := Disconnected, out := Neutralize(s.out))
  }

  function TransportFailed(s: Server): Server {
    if !s.stopRequested && s.state == Running then s.(state := Faulted, out := Neutralize(s.out)) else s
  }

  function StopSection(s: Server): Server {
    if s.state == Stopped then s
    else Server(Stopped, true, if s.state == Running then Neutralize(s.out) else s.out)
  }

  /** The worker's loop is left. */
  predicate LoopOver(s: Server) {
    s.stopRequested || s.state != Running
  }

  /** What the worker does between the end of one wait and the start of the next. */
  function TurnSection(s: Server, w: Thread, now: nat, timeout: nat, timedOut: bool): (Server, Thread) {
    var (out, next) := TakeTurn(LoopOver(s), s.out, w, now, timeout, timedOut);
    (s.(out := out), next)
  }

  class LanControllerServer {
    var state: SessionState
    var stopRequested: bool
    var currentState: GamepadState
    var latestSequence: U64
    var receivedStateCount: nat
    var neutralizationCount: nat
    var lastInputTimestampUs: U64
    var lastInputArrival: nat
    var watchdogArmed: bool
    /** The virtual pad, as a recorder of the reports it was given. */
    var reports: seq<GamepadState>
    const inputTimeout: nat

    ghost function Model(): Server
      reads this
    {
      Server(state, stopRequested,
             Output(currentState, latestSequence, receivedStateCount, neutralizationCount,
                    lastInputTimestampUs, lastInputArrival, watchdogArmed, reports))
    }

    constructor (timeout: nat)
      ensures Model() == NewServer(0) && inputTimeout == timeout
    {
      state, stopRequested := Created, false;
      currentState, latestSequence := NEUTRAL, 0;
      receivedStateCount, neutralizationCount := 0, 0;
      lastInputTimestampUs, lastInputArrival := 0, 0;
      watchdogArmed, reports := false, [];
      inputTimeout := timeout;
    }

    /** The second locked section of `Start`, after the virtual pad was created. */
    method BeginRunningSection()
      modifies this
      ensures Model() == BeginRunning(old(Model())) && state == Running && !stopRequested
    {
      state := Running;
      stopRequested := false;
    }

    method NeutralizeLocked()
      modifies this
      ensures Model() == old(Model()).(out := Neutralize(old(Model()).out))
    {
      reports := reports + [NEUTRAL];
      currentState := NEUTRAL;
      neutralizationCount := neutralizationCount + 1;
      watchdogArmed := false;
    }

    /** `submitted` is the virtual pad's answer to `SubmitState`, `now` the steady clock. */
    method OnStateLocked(frame: StateFrame, now: nat, submitted: bool)
      modifies this
      ensures Model() == OnState(old(Model()), frame, now, submitted)
    {
      if state != Running || stopRequested || (receivedStateCount != 0 && frame.sequence <= latestSequence) {
        return;
      }
      if !submitted {
        state := Faulted;
        NeutralizeLocked();
        return;
      }
      reports := reports + [frame.state];
      currentState := frame.state;
      latestSequence := frame.sequence;
      receivedStateCount := receivedStateCount + 1;
      lastInputTimestampUs := frame.timestampUs;
      lastInputArrival := now;
      watchdogArmed := true;
    }

    method OnTransportDisconnectedLocked()
      modifies this
      ensures Model() == OnTransportDisconnected(old(Model()))
    {
      if state != Running {
        return;
      }
      state := Disconnected;
      NeutralizeLocked();
    }

    /** The worker's section when the transport did not start. */
    method TransportFailedLocked()
      modifies this
      ensures Model() == TransportFailed(old(Model()))
    {
      if !stopRequested && state == Running {
        state := Faulted;
        NeutralizeLocked();
      }
    }

    method StopLocked()
      modifies this
      ensures Model() == StopSection(old(Model()))
    {
      if state == Stopped {
        return;
      }
      if state == Running {
        NeutralizeLocked();
      }
      state := Stopped;
      stopRequested := true;
    }

    /** The worker's loop from the end of one wait on the condition variable to the next. */
    method TurnLocked(waiting: Thread, now: nat, timedOut: bool) returns (next: Thread)
      modifies this
      ensures (Model(), next) == TurnSection(old(Model()), waiting, now, inputTimeout, timedOut)
    {
      if waiting == AwaitingInput && !(stopRequested || state != Running || watchdogArmed) {
        return waiting;
      }
      if waiting.AwaitingDeadline? && timedOut && !stopRequested && state == Running
         && watchdogArmed && now >= waiting.deadline {
        NeutralizeLocked();
        watchdogArmed := false;
      }
      if stopRequested || state != Running {
        return Exited;
      }
      if !watchdogArmed {
        return AwaitingInput;
      }
      var deadline := lastInputArrival + inputTimeout;
      return AwaitingDeadline(deadline, false);
    }
  }
}
