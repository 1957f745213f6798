/** `LanControllerClient`: the fields under `mutex_`, the sections that change them, and the object that runs them. */
module LanControllerClient {
  import opened ControllerOutput
  import opened Options
  import opened Protocol

  datatype Client = Client(state: SessionState, stopRequested: bool, latestSequence: U64, current: GamepadState)

  function NewClient(): Client {
    Client(Created, false, 0, NEUTRAL)
  }

  const LAST_SEQUENCE: U64 := 0xFFFF_FFFF_FFFF_FFFF

  predicate Live(c: Client) {
    c.state == Running && !c.stopRequested
  }

  function NextSequence(c: Client): Client
    requires c.latestSequence < LAST_SEQUENCE
  {
    c.(latestSequence := c.latestSequence + 1)
  }

  /** `OnInputDisconnected` and `OnTransportDisconnected`. */
  function OnDisconnected(c: Client): Client {
    if c.state == Running then c.(state := Disconnected, current := NEUTRAL) else c
  }

  /** The start worker could not start the transport or open the pad. */
  function StartFailed(c: Client): Client {
    if Live(c) then c.(state := Faulted) else c
  }

  /** The section behind a successful `SendState` of a sample. */
  function SampleSent(c: Client, state: GamepadState): Client {
    if c.state == Running then c.(current := state) else c
  }

  function StopSection(c: Client): Client {
    c.(state := Stopped, stopRequested := true, current := NEUTRAL)
  }

  class LanControllerClient {
    var state: SessionState
    var stopRequested: bool
    var latestSequence: U64
    var currentState: GamepadState
    var lastInputTimestampUs: U64

    ghost function Model(): Client
      reads this
    {
      Client(state, stopRequested, latestSequence, currentState)
    }

    constructor ()
      ensures Model() == NewClient() && lastInputTimestampUs == 0
    {
      state, stopRequested := Created, false;
      latestSequence, currentState := 0, NEUTRAL;
      lastInputTimestampUs := 0;
    }

    method StartLocked() returns (ok: bool)
      modifies this
      ensures ok <==> old(state) == Created
      ensures ok ==> Model() == old(Model()).(state := Running, stopRequested := false)
      ensures !ok ==> unchanged(this)
    {
      if state != Created {
        return false;
      }
      state := Running;
      stopRequested := false;
      return true;
    }

    /** The worker's section when the transport did not start or the pad did not open. */
    method StartFailedLocked()
      modifies this
      ensures Model() == StartFailed(old(Model())) && lastInputTimestampUs == old(lastInputTimestampUs)
    {
      if !stopRequested && state == Running {
        state := Faulted;
      }
    }

    /** The first section of `OnInputState`: None drops the sample. */
    method NumberSampleLocked() returns (sequence: Option<U64>)
      requires latestSequence < LAST_SEQUENCE
      modifies this
      ensures lastInputTimestampUs == old(lastInputTimestampUs)
      ensures Live(old(Model())) ==>
                Model() == NextSequence(old(Model())) && sequence == Some(latestSequence)
      ensures !Live(old(Model())) ==> Model() == old(Model()) && sequence == None
    {
      if state != Running || stopRequested {
        return None;
      }
      latestSequence := latestSequence + 1;
      return Some(latestSequence);
    }

    /** The last section of `OnInputState`, after the transport took the sample. */
    method SampleSentLocked(sample: GamepadState, timestampUs: U64)
      modifies this
      ensures Model() == SampleSent(old(Model()), sample)
      ensures lastInputTimestampUs == if old(state) == Running then timestampUs else old(lastInputTimestampUs)
    {
      if state == Running {
        currentState := sample;
        lastInputTimestampUs := timestampUs;
      }
    }

    /** `OnInputDisconnected` and `OnTransportDisconnected`; true if waiters are notified. */
    method OnDisconnectedLocked() returns (notify: bool)
      modifies this
      ensures Model() == OnDisconnected(old(Model())) && notify == (old(state) == Running)
      ensures lastInputTimestampUs == old(lastInputTimestampUs)
    {
      if state != Running {
        return false;
      }
      state := Disconnected;
      currentState := NEUTRAL;
      return true;
    }

    /** The first section of `Stop`; None if the client was stopped before. */
    method StopLocked() returns (sendNeutral: Option<bool>)
      modifies this
      ensures old(state) == Stopped ==> sendNeutral == None && unchanged(this)
      ensures old(state) != Stopped ==>
                && Model() == StopSection(old(Model()))
                && sendNeutral == Some(old(state) == Running)
                && lastInputTimestampUs == old(lastInputTimestampUs)
    {
      if state == Stopped {
        return None;
      }
      sendNeutral := Some(state == Running);
      state := Stopped;
      stopRequested := true;
      currentState := NEUTRAL;
    }

    /** The section of `Stop` that numbers the final neutral frame. */
    method NumberNeutralLocked(timestampUs: U64) returns (sequence: U64)
      requires latestSequence < LAST_SEQUENCE
      modifies this
      ensures Model() == NextSequence(old(Model())) && sequence == latestSequence
      ensures lastInputTimestampUs == timestampUs
    {
      latestSequence := latestSequence + 1;
      sequence := latestSequence;
      lastInputTimestampUs := timestampUs;
    }
  }
}
