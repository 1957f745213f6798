/** `LocalControllerBridge`: the snapshot under `mutex_`, the sections that change it, and the object that runs them. */
module LocalControllerBridge {
  import opened ControllerOutput
  import opened Protocol

  /** The fields under `mutex_`. */
  datatype Snapshot = Snapshot(state: SessionState, current: GamepadState, timestampUs: U64, samples: nat)

  function BeginRunning(s: Snapshot): Snapshot {
    s.(state := Running)
  }

  /** The section behind a successful submission. */
  function Record(s: Snapshot, g: GamepadState, timestampUs: U64): Snapshot {
    if s.state == Running then s.(current := g, timestampUs := timestampUs, samples := s.samples + 1) else s
  }

  /** A running session ends in this state; any other keeps its own. */
  function EndAs(s: Snapshot, state: SessionState): Snapshot {
    if s.state == Running then s.(state := state, current := NEUTRAL) else s
  }

  function OpenFailed(s: Snapshot): Snapshot {
    s.(state := Faulted, current := NEUTRAL)
  }

  function MarkStopped(s: Snapshot): Snapshot {
    if s.state == Stopped then s else s.(state := Stopped, current := NEUTRAL)
  }

  predicate IsBlank(s: Snapshot) {
    s.state == Created && s.current == NEUTRAL && s.timestampUs == 0 && s.samples == 0
  }

  class LocalControllerBridge {
    var state: SessionState
    var currentState: GamepadState
    var timestampUs: U64
    var sampleCount: nat

    ghost function Model(): Snapshot
      reads this
    {
      Snapshot(state, currentState, timestampUs, sampleCount)
    }

    constructor ()
      ensures IsBlank(Model())
    {
      state, currentState, timestampUs, sampleCount := Created, NEUTRAL, 0, 0;
    }

    /** The section of `Start` behind the creation of the virtual pad. */
    method BeginRunningSection()
      modifies this
      ensures Model() == BeginRunning(old(Model()))
    {
      state := Running;
    }

    method OpenFailedLocked()
      modifies this
      ensures Model() == OpenFailed(old(Model()))
    {
      state := Faulted;
      currentState := NEUTRAL;
    }

    /** The second section of `OnState`, after the pad took the report. */
    method RecordLocked(g: GamepadState, timestamp: U64)
      modifies this
      ensures Model() == Record(old(Model()), g, timestamp)
    {
      if state == Running {
        currentState := g;
        timestampUs := timestamp;
        sampleCount := sampleCount + 1;
      }
    }

    /** The section of `OnState` after the pad refused the report. */
    method FaultLocked()
      modifies this
      ensures Model() == EndAs(old(Model()), Faulted)
    {
      if state == Running {
        state := Faulted;
        currentState := NEUTRAL;
      }
    }

    /** True if the caller has to submit the neutral report. */
    method OnDisconnectedLocked() returns (release: bool)
      modifies this
      ensures Model() == EndAs(old(Model()), Disconnected)
      ensures release <==> old(state) == Running
    {
      if state != Running {
        return false;
      }
      state := Disconnected;
      currentState := NEUTRAL;
      release := true;
    }

    /** True if the caller goes on to close the input and release the pad. */
    method StopLocked() returns (first: bool)
      modifies this
      ensures Model() == MarkStopped(old(Model()))
      ensures first <==> old(state) != Stopped
    {
      if state == Stopped {
        return false;
      }
      state := Stopped;
      currentState := NEUTRAL;
      first := true;
    }
  }
}
