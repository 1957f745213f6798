/** `Session`: the fields under `mutex_`, the sections that change them, and the object that runs them. */
module SessionObject {
  import opened ControllerOutput
  import opened DeadlineWait
  import opened Protocol

  datatype Result = Ok | InvalidState | StaleSequence | BackendFailure

  datatype SessionFields = SessionFields(
    state: SessionState, hasSubmitted: bool, highestSubmitted: U64, watchdogExit: bool, out: Output)

  function NewSession(epoch: nat): SessionFields {
    SessionFields(Created, false, 0, false, NewOutput(epoch))
  }

  function BeginRunning(s: SessionFields): SessionFields {
    s.(state := Running, watchdogExit := false)
  }

  /** The virtual pad could not be created. */
  function CreateFailed(s: SessionFields): SessionFields {
    s.(state := Faulted)
  }

  function Admit(s: SessionFields, f: StateFrame): Result {
    if s.state != Running then InvalidState
    else if s.hasSubmitted && f.sequence <= s.highestSubmitted then StaleSequence
    else Ok
  }

  function Submitted(s: SessionFields, f: StateFrame): SessionFields {
    if Admit(s, f) == Ok then s.(hasSubmitted := true, highestSubmitted := f.sequence) else s
  }

  predicate Takes(s: SessionFields, f: StateFrame) {
    s.state == Running && !Stale(s.out, f)
  }

  function OnStateFrame(s: SessionFields, f: StateFrame, now: nat, submitted: bool): SessionFields {
    if !Takes(s, f) then s
    else if !submitted then s.(state := Faulted, out := Neutralize(s.out), watchdogExit := true)
    else s.(out := Accept(s.out, f, now))
  }

  function OnDisconnected(s: SessionFields): SessionFields {
    if s.state != Running then s else s.(state := Disconnected, out := Neutralize(s.out), watchdogExit := true)
  }

  /** `Stop`: a disconnected or faulted session keeps its state. */
  function StopSection(s: SessionFields): SessionFields {
    match s.state
    case Created => s.(state := Stopped)
    case Stopped => s
    case Running => s.(state := Stopped, out := Neutralize(s.out), watchdogExit := true)
    case _ => s.(watchdogExit := true)
  }

  predicate StopsTransport(s: SessionFields) {
    s.state == Running || s.state == Disconnected || s.state == Faulted
  }

  /** The watchdog finds its deadline passed. */
  function WatchdogExpired(s: SessionFields): SessionFields
    requires !s.watchdogExit && s.out.armed
  {
    s.(out := Neutralize(s.out))
  }

  /** What the watchdog does between the end of one wait and the start of the next. */
  function TurnSection(
    s: SessionFields, t: Thread, now: nat, timeout: nat, timedOut: bool): (SessionFields, Thread)
  {
    var (out, next) := TakeTurn(s.watchdogExit, s.out, t, now, timeout, timedOut);
    (s.(out := out), next)
  }

  class Session {
    var state: SessionState
    var outputState: GamepadState
    var highestSubmittedSequence: U64
    var latestSequence: U64
    var acceptedStateCount: nat
    var neutralizationCount: nat
    var lastInputTimestampUs: U64
    var lastInputArrival: nat
    var hasSubmittedSequence: bool
    var watchdogArmed: bool
    var watchdogExit: bool
    /** The virtual pad, as a recorder of the reports it was given. */
    var reports: seq<GamepadState>
    const inputTimeout: nat

    ghost function Model(): SessionFields
      reads this
    {
      SessionFields(state, hasSubmittedSequence, highestSubmittedSequence, watchdogExit,
                Output(outputState, latestSequence, acceptedStateCount, neutralizationCount,
                       lastInputTimestampUs, lastInputArrival, watchdogArmed, reports))
    }

    constructor (epoch: nat, timeout: nat)
      ensures Model() == NewSession(epoch) && inputTimeout == timeout
    {
      inputTimeout := timeout;
      state, outputState := Created, NEUTRAL;
      highestSubmittedSequence, latestSequence := 0, 0;
      acceptedStateCount, neutralizationCount := 0, 0;
      lastInputTimestampUs, lastInputArrival := 0, epoch;
      hasSubmittedSequence, watchdogArmed, watchdogExit := false, false, false;
      reports := [];
    }

    /** The locked section of `Start`; `created` is what creating the virtual pad answers. */
    method StartLocked(created: bool) returns (r: Result)
      modifies this
      ensures r == Ok <==> old(state) == Created && created
      ensures r == BackendFailure <==> old(state) == Created && !created
      ensures r == InvalidState <==> old(state) != Created
      ensures Model() == match r
                         case Ok => BeginRunning(old(Model()))
                         case BackendFailure => CreateFailed(old(Model()))
                         case _ => old(Model())
    {
      if state != Created {
        return InvalidState;
      }
      if !created {
        state := Faulted;
        return BackendFailure;
      }
      state := Running;
      watchdogExit := false;
      return Ok;
    }

    /** The check before a frame is handed to the transport. */
    method SubmitLocked(f: StateFrame) returns (r: Result)
      modifies this
      ensures Model() == Submitted(old(Model()), f)
      ensures r == Admit(old(Model()), f)
    {
      if state != Running {
        return InvalidState;
      }
      if hasSubmittedSequence && f.sequence <= highestSubmittedSequence {
        return StaleSequence;
      }
      hasSubmittedSequence := true;
      highestSubmittedSequence := f.sequence;
      return Ok;
    }

    method NeutralizeLocked()
      modifies this
      ensures Model() == old(Model()).(out := Neutralize(old(Model()).out))
    {
      reports := reports + [NEUTRAL];
      outputState := NEUTRAL;
      neutralizationCount := neutralizationCount + 1;
      watchdogArmed := false;
    }

    method OnStateFrameLocked(frame: StateFrame, now: nat, submitted: bool)
      modifies this
      ensures Model() == OnStateFrame(old(Model()), frame, now, submitted)
    {
      if state != Running || (acceptedStateCount != 0 && frame.sequence <= latestSequence) {
        return;
      }
      if !submitted {
        state := Faulted;
        NeutralizeLocked();
        watchdogExit := true;
        return;
      }
      reports := reports + [frame.state];
      outputState := frame.state;
      latestSequence := frame.sequence;
      acceptedStateCount := acceptedStateCount + 1;
      lastInputTimestampUs := frame.timestampUs;
      lastInputArrival := now;
      watchdogArmed := true;
    }

    method OnDisconnectedLocked()
      modifies this
      ensures Model() == OnDisconnected(old(Model()))
    {
      if state != Running {
        return;
      }
      state := Disconnected;
      NeutralizeLocked();
      watchdogExit := true;
    }

    method StopLocked() returns (shouldStopTransport: bool)
      modifies this
      ensures Model() == StopSection(old(Model()))
      ensures shouldStopTransport == StopsTransport(old(Model()))
    {
      shouldStopTransport := false;
      if state == Created {
        state := Stopped;
        return;
      }
      if state == Stopped {
        return;
      }
      if state == Running {
        state := Stopped;
        NeutralizeLocked();
        shouldStopTransport := true;
      } else if state == Disconnected || state == Faulted {
        shouldStopTransport := true;
      }
      watchdogExit := true;
    }

    /** The watchdog's loop from the end of one wait on the condition variable to the next. */
    method WatchdogTurnLocked(waiting: Thread, now: nat, timedOut: bool) returns (next: Thread)
      modifies this
      ensures (Model(), next) == TurnSection(old(Model()), waiting, now, inputTimeout, timedOut)
    {
      if waiting == AwaitingInput && !(watchdogExit || watchdogArmed) {
        return waiting;
      }
      if waiting.AwaitingDeadline? && timedOut && !watchdogExit && watchdogArmed && now >= waiting.deadline {
        NeutralizeLocked();
        watchdogArmed := false;
      }
      if watchdogExit {
        return Exited;
      }
      if !watchdogArmed {
        return AwaitingInput;
      }
      var deadline := lastInputArrival + inputTimeout;
      return AwaitingDeadline(deadline, false);
    }
  }
}
