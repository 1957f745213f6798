/**
 The output side that the loopback session and the LAN server session share: the state
 shown on the virtual pad, the sequence filter, the watchdog flag and the counters.
 */
module ControllerOutput {
  import opened Protocol
  import opened Seqs

  datatype SessionState = Created | Running | Stopped | Disconnected | Faulted

  /** `pad` records every report the virtual pad was given, oldest first. */
  datatype Output = Output(
    current: GamepadState, latestSequence: U64, acceptedCount: nat, neutralizations: nat,
    lastTimestampUs: U64, lastArrival: nat, armed: bool, pad: seq<GamepadState>)

  /** A new session's output; `epoch` is the value of a clock that was never read. */
  function NewOutput(epoch: nat): Output {
    Output(NEUTRAL, 0, 0, 0, 0, epoch, false, [])
  }

  predicate Stale(o: Output, f: StateFrame) {
    o.acceptedCount != 0 && f.sequence <= o.latestSequence
  }

  function Accept(o: Output, f: StateFrame, now: nat): Output {
    Output(f.state, f.sequence, o.acceptedCount + 1, o.neutralizations, f.timestampUs, now, true, o.pad + [f.state])
  }

  function Neutralize(o: Output): Output {
    o.(current := NEUTRAL, neutralizations := o.neutralizations + 1, armed := false, pad := o.pad + [NEUTRAL])
  }

  /** What the virtual pad shows. */
  function Shown(o: Output): GamepadState {
    if o.pad == [] then NEUTRAL else Last(o.pad)
  }

  // ------------------------------------------------------------------ history

  /** An accepted frame and the instant it was accepted. */
  datatype Arrival = Arrival(frame: StateFrame, at: nat)

  /** Every acceptance and every neutralisation of a run, by cause. */
  datatype History = History(accepted: seq<Arrival>, watchdog: nat, terminal: nat)

  const NO_HISTORY := History([], 0, 0)

  /** Later acceptances have strictly greater sequence numbers. */
  predicate InOrder(a: seq<Arrival>) {
    forall i, j :: 0 <= i < j < |a| ==> a[i].frame.sequence < a[j].frame.sequence
  }

  /** Every acceptance and every neutralisation is counted, once, and gave one report. */
  ghost predicate Counted(o: Output, h: History) {
    && o.acceptedCount == |h.accepted|
    && o.neutralizations == h.watchdog + h.terminal
    && |o.pad| == |h.accepted| + o.neutralizations
    && h.watchdog + (if o.armed then 1 else 0) <= |h.accepted|
  }

  /** The output agrees with its history. */
  ghost predicate Accounted(o: Output, h: History) {
    && Counted(o, h)
    && InOrder(h.accepted)
    && (h.accepted != [] ==>
          && o.latestSequence == Last(h.accepted).frame.sequence
          && o.lastTimestampUs == Last(h.accepted).frame.timestampUs
          && o.lastArrival == Last(h.accepted).at)
    && Shown(o) == o.current
    && o.current == if o.armed && h.accepted != [] then Last(h.accepted).frame.state else NEUTRAL
  }

  lemma NothingAccounted(epoch: nat)
    ensures Accounted(NewOutput(epoch), NO_HISTORY)
  {
  }

  lemma AcceptAccounted(o: Output, h: History, f: StateFrame, now: nat)
    requires Accounted(o, h) && !Stale(o, f)
    ensures Accounted(Accept(o, f, now), h.(accepted := h.accepted + [Arrival(f, now)]))
  {
  }

  lemma NeutralizeAccounted(o: Output, h: History, h': History)
    requires Accounted(o, h)
    requires (h' == h.(watchdog := h.watchdog + 1) && o.armed) || h' == h.(terminal := h.terminal + 1)
    ensures Accounted(Neutralize(o), h')
  {
  }
}
