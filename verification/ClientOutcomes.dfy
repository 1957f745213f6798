/**
 What the steps of a LAN client lead to: what becomes of a sample, which step led to which end
 state, and that Stop can return from every state.
 */
module ClientOutcomes {
  import opened ControllerOutput
  import opened LanClient
  import opened LanControllerClient
  import opened Options
  import opened Protocol
  import opened Seqs

  // ------------------------------------------------------ what becomes of a sample

  predicate Possible(s: System, events: seq<Event>)
    decreases |events|
  {
    events == [] || (Enabled(s, events[0]) && Possible(Apply(s, events[0]), events[1..]))
  }

  /** The state after the events, one after the other. */
  function After(s: System, events: seq<Event>): System
    requires Possible(s, events)
    decreases |events|
  {
    if events == [] then s else After(Apply(s, events[0]), events[1..])
  }

  lemma OneMore(s: System, e: Event, rest: seq<Event>)
    ensures ([e] + rest)[1..] == rest
    ensures Possible(s, [e] + rest) <==> Enabled(s, e) && Possible(Apply(s, e), rest)
    ensures Possible(s, [e] + rest) ==> After(s, [e] + rest) == After(Apply(s, e), rest)
  {
    assert ([e] + rest)[1..] == rest;
  }

  /** The poll thread of a live client that can still number a sample. */
  predicate CanSample(s: System) {
    s.poll == Idle && Live(s.client) && s.connected && s.client.latestSequence < LAST_SEQUENCE
  }

  function SamplePath(g: GamepadState, timestampUs: U64, outcome: Outcome): seq<Event> {
    [Sample(g, timestampUs)] + ([CheckConnected] + ([LoadSession] + ([SendSample(outcome)] + [])))
  }

  lemma Addressing(s: System, g: GamepadState, timestampUs: U64, outcome: Outcome)
    requires Invariant(s) && CanSample(s)
    ensures Possible(s, SamplePath(g, timestampUs, outcome))
    ensures var n := s.client.latestSequence + 1;
            var held := s.(client := s.client.(latestSequence := n),
                           poll := Addressed(Datagram(s.agreed, StateFrame(g, n, timestampUs))));
            && Enabled(held, SendSample(outcome))
            && After(s, SamplePath(g, timestampUs, outcome)) == Apply(held, SendSample(outcome))
  {
    var s1 := Apply(s, Sample(g, timestampUs));
    var s2 := Apply(s1, CheckConnected);
    var s3 := Apply(s2, LoadSession);
    OneMore(s3, SendSample(outcome), []);
    OneMore(s2, LoadSession, [SendSample(outcome)] + []);
    OneMore(s1, CheckConnected, [LoadSession] + ([SendSample(outcome)] + []));
    OneMore(s, Sample(g, timestampUs), [CheckConnected] + ([LoadSession] + ([SendSample(outcome)] + [])));
  }

  lemma SampleLeaves(s: System, g: GamepadState, timestampUs: U64)
    requires Invariant(s) && CanSample(s)
    ensures Possible(s, SamplePath(g, timestampUs, OnWire))
    ensures var t := After(s, SamplePath(g, timestampUs, OnWire));
            var f := StateFrame(g, s.client.latestSequence + 1, timestampUs);
            t.agreed == s.agreed && t.log == s.log + [Datagram(s.agreed, f)] && Datagram(s.agreed, f) in t.log
  {
    Addressing(s, g, timestampUs, OnWire);
  }

  /**
   What is sampled is what leaves: on a connected client the four steps put exactly the pad's
   state on the wire, under the agreed session, with the next number and its own timestamp,
   and the snapshot shows it. A full send buffer costs the datagram only; a failed send ends
   the session, and the snapshot is neutral again.
   */
  lemma SampleGoesOut(trace: seq<System>, g: GamepadState, timestampUs: U64, outcome: Outcome)
    requires IsRun(trace) && CanSample(Last(trace))
    ensures Possible(Last(trace), SamplePath(g, timestampUs, outcome))
    ensures var s, n := Last(trace), Last(trace).client.latestSequence + 1;
            After(s, SamplePath(g, timestampUs, outcome)) ==
            match outcome
            case OnWire => s.(client := Client(Running, false, n, g),
                              log := s.log + [Datagram(s.agreed, StateFrame(g, n, timestampUs))])
            case Dropped => s.(client := Client(Running, false, n, g))
            case Failed => s.(client := Client(Disconnected, false, n, NEUTRAL), connected := false)
  {
    RunInvariant(trace, |trace| - 1);
    Addressing(Last(trace), g, timestampUs, outcome);
  }

  // ------------------------------------------------------------ start, end and stop

  /** What ended a running client can be read off its state, whichever step it was. */
  lemma EndingsTellTheCause(trace: seq<System>, i: nat, e: Event)
    requires IsRun(trace) && i < |trace| && trace[i].client.state == Running && Enabled(trace[i], e)
    ensures var s, state := trace[i], Apply(trace[i], e).client.state;
            && (state == Stopped <==> e == CallStop)
            && (state == Faulted <==> e == HandshakeFails || e == Open(false) || (e == LastCheck && s.transportStop))
            && (state == Disconnected <==>
                  || e == NotifyLost || (e == LosePad && !s.padStop)
                  || (e == CheckConnected && !s.connected) || e == SendSample(Failed))
            && state != Created
  {
    RunInvariant(trace, i);
    EndOfStep(trace[i], e);
  }

  /** The state a step leaves a running client in. */
  function EndState(s: System, e: Event): SessionState {
    match e
    case CallStop => Stopped
    case HandshakeFails => Faulted
    case Open(ok) => if ok then Running else Faulted
    case LastCheck => if s.transportStop then Faulted else Running
    case NotifyLost => Disconnected
    case LosePad => if s.padStop then Running else Disconnected
    case CheckConnected => if s.connected then Running else Disconnected
    case SendSample(outcome) => if outcome == Failed then Disconnected else Running
    case _ => Running
  }

  lemma EndOfWorker(s: System, e: Event)
    requires PhaseInvariant(s) && s.client.state == Running && Enabled(s, e) && WorkerEvent(e)
    ensures Apply(s, e).client.state == EndState(s, e)
  {
  }

  lemma EndOfSample(s: System, e: Event)
    requires PhaseInvariant(s) && s.client.state == Running && Enabled(s, e)
    requires e.Sample? || e.CheckConnected? || e.LoadSession? || e.SendSample?
    ensures Apply(s, e).client.state == EndState(s, e)
  {
  }

  lemma EndOfStep(s: System, e: Event)
    requires PhaseInvariant(s) && s.client.state == Running && Enabled(s, e)
    ensures Apply(s, e).client.state == EndState(s, e)
  {
    if WorkerEvent(e) {
      EndOfWorker(s, e);
    } else if e.Sample? || e.CheckConnected? || e.LoadSession? || e.SendSample? {
      EndOfSample(s, e);
    }
  }

  /** Nothing keeps an undisturbed client from starting: it samples under the agreed session. */
  lemma Starts(agreed: U32) returns (trace: seq<System>)
    ensures IsRun(trace)
    ensures Last(trace) == Initial(agreed).(client := Client(Running, false, 0, NEUTRAL), connected := true,
                                            sessionId := agreed, worker := Waiting, poll := Idle, padOpen := true)
  {
    trace := ConnectUnnumbered(agreed);
    var s := Last(trace);
    trace := Extend(trace, NumberSession);
    assert Last(trace) == s.(sessionId := agreed, worker := Numbered);
    trace := Extend(trace, LastCheck);
    assert Last(trace) == s.(sessionId := agreed, worker := Started);
    trace := Extend(trace, EnterOpen);
    assert Last(trace) == s.(sessionId := agreed, worker := Opening);
    trace := Extend(trace, Open(true));
  }

  /** Nothing keeps the Stop of a connected client from sending a neutral datagram under its session. */
  lemma StopSendsNeutral(before: seq<System>, timestampUs: U64) returns (trace: seq<System>)
    requires IsRun(before) && CanSample(Last(before)) && Last(before).worker == Waiting
    requires Last(before).stopper == NotCalled
    ensures IsRun(trace) && Last(trace).stopper == Returned
    ensures var s, n := Last(before), Last(before).client.latestSequence + 1;
            var d := Datagram(s.agreed, StateFrame(NEUTRAL, n, timestampUs));
            && Last(trace).log == s.log + [d] && Last(trace).final == Some(d)
            && Last(trace).client == Client(Stopped, true, n, NEUTRAL)
  {
    trace := CloseInput(before);
    var f := StateFrame(NEUTRAL, Last(before).client.latestSequence + 1, timestampUs);
    trace := NumberFinal(trace, timestampUs);
    trace := SendFinal(trace, f);
    trace := FinishStop(trace);
  }

  lemma NumberFinal(before: seq<System>, timestampUs: U64) returns (trace: seq<System>)
    requires IsRun(before) && Last(before).stopper == InputClosed(true) && Last(before).connected
    requires Last(before).client.latestSequence < LAST_SEQUENCE
    ensures IsRun(trace)
    ensures var s, n := Last(before), Last(before).client.latestSequence + 1;
            Last(trace) == s.(client := s.client.(latestSequence := n),
                              stopper := HasNeutral(StateFrame(NEUTRAL, n, timestampUs)))
  {
    trace := Extend(before, CheckSend);
    assert Last(trace) == Last(before).(stopper := WillSend);
    trace := Extend(trace, NumberNeutral(timestampUs));
  }

  lemma SendFinal(before: seq<System>, f: StateFrame) returns (trace: seq<System>)
    requires IsRun(before) && Last(before).stopper == HasNeutral(f) && Last(before).connected
    ensures IsRun(trace)
    ensures var s := Last(before);
            var d := Datagram(s.sessionId, f);
            Last(trace) == s.(stopper := WillStopTransport, log := s.log + [d], final := Some(d))
  {
    var s := Last(before);
    trace := Extend(before, CheckNeutral);
    assert Last(trace) == s.(stopper := SendingNeutral(f));
    trace := Extend(trace, LoadNeutralSession);
    assert Last(trace) == s.(stopper := AddressedNeutral(Datagram(s.sessionId, f)));
    trace := Extend(trace, SendNeutral(OnWire));
  }

  lemma CloseInput(before: seq<System>) returns (trace: seq<System>)
    requires IsRun(before) && CanSample(Last(before)) && Last(before).worker == Waiting
    requires Last(before).stopper == NotCalled
    ensures IsRun(trace)
    ensures var s := Last(before);
            Last(trace) == s.(client := StopSection(s.client), sessionId := s.agreed, poll := NoThread,
                              padOpen := false, padStop := true, stopper := InputClosed(true))
  {
    RunInvariant(before, |before| - 1);
    trace := TellPadToStop(before);
    var s := Last(trace);
    trace := Extend(trace, ExitPoll);
    assert Last(trace) == s.(poll := Exited);
    trace := Extend(trace, StopClosed);
  }

  lemma TellPadToStop(before: seq<System>) returns (trace: seq<System>)
    requires IsRun(before) && Last(before).client.state == Running && Last(before).worker == Waiting
    requires Last(before).stopper == NotCalled
    ensures IsRun(trace)
    ensures var s := Last(before);
            Last(trace) == s.(client := StopSection(s.client), padStop := true, stopper := ClosingInput(true))
  {
    var s := Last(before);
    trace := Extend(before, CallStop);
    assert Last(trace) == s.(client := StopSection(s.client), stopper := Flagged(true));
    trace := Extend(trace, StopClose);
  }

  lemma FinishStop(before: seq<System>) returns (trace: seq<System>)
    requires IsRun(before) && Last(before).worker == Waiting && !Live(Last(before).client)
    requires Last(before).stopper == WillStopTransport && Last(before).poll == NoThread
    ensures IsRun(trace) && Last(trace).stopper == Returned
    ensures Last(trace).log == Last(before).log && Last(trace).final == Last(before).final
    ensures Last(trace).client == Last(before).client
  {
    trace := Extend(before, StopTransport);
    trace := Extend(trace, WakeWorker);
    var s := Last(trace);
    trace := Extend(trace, WorkerClose);
    trace := Extend(trace, WorkerClosed);
    assert Last(trace).stopper == s.stopper == WillJoin;
    trace := Extend(trace, Join);
  }

  // ------------------------------------------------------------- Stop always returns

  function StopperRank(p: Stopper): nat {
    match p
    case NotCalled => 11
    case Flagged(_) => 10
    case ClosingInput(_) => 9
    case InputClosed(_) => 8
    case WillSend => 7
    case HasNeutral(_) => 6
    case SendingNeutral(_) => 5
    case AddressedNeutral(_) => 4
    case WillStopTransport => 3
    case WillJoin => 2
    case Returned => 0
  }

  function WorkerRank(w: Worker): nat {
    match w
    case Handshaking => 8
    case Connected => 7
    case Numbered => 6
    case Started => 5
    case Opening => 4
    case Waiting => 4
    case WantsClose => 3
    case Closing => 2
    case OpenFailed => 1
    case NoWorker => 0
    case Done => 0
  }

  function PollRank(p: Poll): nat {
    match p
    case HasFrame(_) => 4
    case Sending(_) => 3
    case Addressed(_) => 2
    case Idle => 1
    case NoThread => 0
    case Exited => 0
  }

  function Rank(s: System): nat {
    StopperRank(s.stopper) + WorkerRank(s.worker) + PollRank(s.poll)
  }

  /** What a poll thread that was told to stop does next. */
  function PollGoesOn(p: Poll, outcome: Outcome): Event {
    match p
    case HasFrame(_) => CheckConnected
    case Sending(_) => LoadSession
    case Addressed(_) => SendSample(outcome)
    case _ => ExitPoll
  }

  function WorkerGoesOn(w: Worker): Event {
    match w
    case Handshaking => HandshakeFails
    case Connected => NumberSession
    case Numbered => LastCheck
    case Started => EnterOpen
    case Opening => Open(false)
    case OpenFailed => StopAfterOpenFailure
    case Waiting => WakeWorker
    case WantsClose => WorkerClose
    case _ => WorkerClosed
  }

  function StopperGoesOn(p: Stopper, timestampUs: U64, outcome: Outcome): Event {
    match p
    case NotCalled => CallStop
    case Flagged(_) => StopClose
    case ClosingInput(_) => StopClosed
    case InputClosed(_) => CheckSend
    case WillSend => NumberNeutral(timestampUs)
    case HasNeutral(_) => CheckNeutral
    case SendingNeutral(_) => LoadNeutralSession
    case AddressedNeutral(_) => SendNeutral(outcome)
    case WillStopTransport => StopTransport
    case _ => Join
  }

  /** The pad's thread is to be waited for. */
  predicate WaitsForPoll(s: System) {
    && (s.worker == Closing || s.stopper.ClosingInput?)
    && s.poll != NoThread && s.poll != Exited
  }

  /** Somebody other than Stop has to go on: the pad's thread, or the worker. */
  predicate WaitsForWorker(s: System) {
    || (s.stopper.Flagged? && WorkerHoldsLifecycle(s))
    || (s.stopper == WillJoin && s.worker != NoWorker && s.worker != Done)
  }

  /** What brings Stop nearer to its end, in any state. */
  function GoesOn(s: System, timestampUs: U64, outcome: Outcome): Event {
    if WaitsForPoll(s) then PollGoesOn(s.poll, outcome)
    else if WaitsForWorker(s) then WorkerGoesOn(s.worker)
    else StopperGoesOn(s.stopper, timestampUs, outcome)
  }

  /** A pad that is waited for was told to stop; a stopped transport stays down; a faulted client is not connected. */
  predicate EndInvariant(s: System) {
    && ((s.worker == Closing || s.stopper.ClosingInput?) && s.poll != NoThread ==> s.padStop)
    && (s.stopper in {WillJoin, Returned} ==>
          s.transportStop && (s.connected ==> s.worker in {Connected, Numbered}))
    && (s.stopper == Returned ==> s.worker in {NoWorker, Done})
    && (s.worker in {WantsClose, Closing} ==> !Live(s.client))
    && (s.client.state == Faulted ==> !s.padOpen && (s.worker == OpenFailed || (s.worker == Done && !s.connected)))
  }

  lemma EndOfWorkerStep(s: System, e: Event)
    requires PhaseInvariant(s) && EndInvariant(s) && Enabled(s, e) && WorkerEvent(e)
    ensures EndInvariant(Apply(s, e))
  {
  }

  lemma EndOfPadStep(s: System, e: Event)
    requires PhaseInvariant(s) && EndInvariant(s) && Enabled(s, e) && PadEvent(e)
    ensures EndInvariant(Apply(s, e))
  {
  }

  lemma EndOfStopperStep(s: System, e: Event)
    requires PhaseInvariant(s) && EndInvariant(s) && Enabled(s, e) && !WorkerEvent(e) && !PadEvent(e)
    ensures EndInvariant(Apply(s, e))
  {
  }

  lemma {:induction false} RunEnd(trace: seq<System>, i: nat)
    requires IsRun(trace) && i < |trace|
    ensures EndInvariant(trace[i])
  {
    if i > 0 {
      RunEnd(trace, i - 1);
      MoveKeepsEnd(trace, i - 1);
    }
  }

  lemma MoveKeepsEnd(trace: seq<System>, i: nat)
    requires IsRun(trace) && i + 1 < |trace| && EndInvariant(trace[i])
    ensures EndInvariant(trace[i + 1])
  {
    RunInvariant(trace, i);
    assert Moves(trace, i);
    var e :| Enabled(trace[i], e) && trace[i + 1] == Apply(trace[i], e);
    StepKeepsEnd(trace[i], e);
  }

  lemma StepKeepsEnd(s: System, e: Event)
    requires PhaseInvariant(s) && EndInvariant(s) && Enabled(s, e)
    ensures EndInvariant(Apply(s, e))
  {
    if WorkerEvent(e) {
      EndOfWorkerStep(s, e);
    } else if PadEvent(e) {
      EndOfPadStep(s, e);
    } else {
      EndOfStopperStep(s, e);
    }
  }

  lemma PollGoesOnStep(s: System, outcome: Outcome)
    requires PhaseInvariant(s) && EndInvariant(s) && WaitsForPoll(s)
    ensures Enabled(s, PollGoesOn(s.poll, outcome)) && Rank(Apply(s, PollGoesOn(s.poll, outcome))) < Rank(s)
    ensures Apply(s, PollGoesOn(s.poll, outcome)).client.latestSequence == s.client.latestSequence
  {
  }

  lemma WorkerGoesOnStep(s: System)
    requires PhaseInvariant(s) && !WaitsForPoll(s) && WaitsForWorker(s)
    ensures Enabled(s, WorkerGoesOn(s.worker)) && Rank(Apply(s, WorkerGoesOn(s.worker))) < Rank(s)
    ensures Apply(s, WorkerGoesOn(s.worker)).client.latestSequence == s.client.latestSequence
  {
  }

  /** The neutral frame of Stop can be numbered, or need not be any more. */
  predicate CanNumber(s: System) {
    s.client.latestSequence < LAST_SEQUENCE || StopperRank(s.stopper) < 7
  }

  lemma StopperCloses(s: System, timestampUs: U64, outcome: Outcome)
    requires PhaseInvariant(s) && !WaitsForPoll(s) && !WaitsForWorker(s) && CanNumber(s)
    requires StopperRank(s.stopper) >= 8
    ensures var e := StopperGoesOn(s.stopper, timestampUs, outcome);
            && Enabled(s, e) && Rank(Apply(s, e)) < Rank(s) && CanNumber(Apply(s, e))
  {
  }

  lemma StopperEnds(s: System, timestampUs: U64, outcome: Outcome)
    requires PhaseInvariant(s) && !WaitsForPoll(s) && !WaitsForWorker(s) && s.stopper != Returned && CanNumber(s)
    requires StopperRank(s.stopper) < 8
    ensures var e := StopperGoesOn(s.stopper, timestampUs, outcome);
            && Enabled(s, e) && Rank(Apply(s, e)) < Rank(s) && CanNumber(Apply(s, e))
  {
  }

  lemma GoesOnStep(s: System, timestampUs: U64, outcome: Outcome)
    requires PhaseInvariant(s) && EndInvariant(s) && s.stopper != Returned && CanNumber(s)
    ensures var e := GoesOn(s, timestampUs, outcome);
            && Enabled(s, e) && Rank(Apply(s, e)) < Rank(s) && CanNumber(Apply(s, e))
  {
    if WaitsForPoll(s) {
      PollGoesOnStep(s, outcome);
    } else if WaitsForWorker(s) {
      WorkerGoesOnStep(s);
    } else if StopperRank(s.stopper) >= 8 {
      StopperCloses(s, timestampUs, outcome);
    } else {
      StopperEnds(s, timestampUs, outcome);
    }
  }

  /**
   No deadlock: from every state of every run Stop can return, whatever worker, pad and
   transport are doing, and whether the send calls succeed or not.
   */
  lemma StopCanReturn(trace: seq<System>, timestampUs: U64, outcome: Outcome) returns (longer: seq<System>)
    requires IsRun(trace) && CanNumber(Last(trace))
    ensures IsRun(longer) && trace <= longer && Last(longer).stopper == Returned
    decreases Rank(Last(trace))
  {
    longer := trace;
    if Last(trace).stopper != Returned {
      RunInvariant(trace, |trace| - 1);
      RunEnd(trace, |trace| - 1);
      GoesOnStep(Last(trace), timestampUs, outcome);
      longer := Extend(trace, GoesOn(Last(trace), timestampUs, outcome));
      longer := StopCanReturn(longer, timestampUs, outcome);
    }
  }

  /** Once Stop has returned the transport is down, and the worker is done. */
  lemma StoppedClientIsDown(trace: seq<System>, i: nat)
    requires IsRun(trace) && i < |trace| && trace[i].stopper == Returned
    ensures !trace[i].connected && trace[i].transportStop && trace[i].worker in {NoWorker, Done}
  {
    RunEnd(trace, i);
  }

  /** The worker closes the pad only of a client that is over. */
  lemma PadIsClosedOnlyAtTheEnd(trace: seq<System>, i: nat)
    requires IsRun(trace) && i < |trace| && trace[i].worker in {WantsClose, Closing}
    ensures trace[i].client.state != Running
  {
    RunEnd(trace, i);
    RunInvariant(trace, i);
  }

  /** How the pad's thread may end: it leaves when told to stop, or its pad is lost, and only then is it joined. */
  predicate ThreadEnds(s: System, t: System) {
    && (t.poll == Exited && s.poll != Exited ==> s.poll == Idle && (s.padStop || t.client.state != Running))
    && (t.poll == NoThread && s.poll != NoThread ==> s.poll == Exited)
  }

  lemma ThreadEndsInStep(s: System, e: Event)
    requires PhaseInvariant(s) && Enabled(s, e)
    ensures ThreadEnds(s, Apply(s, e))
  {
    if WorkerEvent(e) {
      WorkerKeepsThread(s, e);
    }
  }

  lemma WorkerKeepsThread(s: System, e: Event)
    requires PhaseInvariant(s) && Enabled(s, e) && WorkerEvent(e)
    ensures ThreadEnds(s, Apply(s, e))
  {
  }

  lemma PadThreadIsJoined(trace: seq<System>, i: nat)
    requires IsRun(trace) && i + 1 < |trace|
    ensures ThreadEnds(trace[i], trace[i + 1])
  {
    RunInvariant(trace, i);
    assert Moves(trace, i);
    var e :| Enabled(trace[i], e) && trace[i + 1] == Apply(trace[i], e);
    ThreadEndsInStep(trace[i], e);
  }

  /** A client that could not start is not connected once its worker is done. */
  lemma FaultedClientIsDown(trace: seq<System>, i: nat)
    requires IsRun(trace) && i < |trace| && trace[i].client.state == Faulted && trace[i].worker == Done
    ensures !trace[i].connected && trace[i].poll == NoThread && !trace[i].padOpen
  {
    RunEnd(trace, i);
    RunInvariant(trace, i);
  }

  /** A client that is not live numbers nothing, whatever the pad still reports. */
  lemma OnlyTheLiveSample(trace: seq<System>, i: nat, g: GamepadState, timestampUs: U64)
    requires IsRun(trace) && i < |trace| && Enabled(trace[i], Sample(g, timestampUs))
    ensures if Live(trace[i].client) then Apply(trace[i], Sample(g, timestampUs)).poll.HasFrame?
            else Apply(trace[i], Sample(g, timestampUs)) == trace[i]
  {
  }

  /** Stop sends nothing if the client did not run when it was called, or is not connected when it looks. */
  predicate SilentStop(s: System) {
    s.final == None && s.stopper in {WillStopTransport, WillJoin, Returned}
  }

  lemma {:induction false} StaysSilent(trace: seq<System>, i: nat, j: nat)
    requires IsRun(trace) && i <= j < |trace| && SilentStop(trace[i])
    ensures SilentStop(trace[j])
  {
    if i < j {
      StaysSilent(trace, i, j - 1);
      MoveSilent(trace, j - 1);
    }
  }

  lemma MoveSilent(trace: seq<System>, i: nat)
    requires IsRun(trace) && i + 1 < |trace| && SilentStop(trace[i])
    ensures SilentStop(trace[i + 1])
  {
    RunInvariant(trace, i);
    RunEffect(trace, i);
  }

  lemma NoNeutralUnlessConnected(trace: seq<System>, m: nat, j: nat)
    requires IsRun(trace) && m < j < |trace|
    requires trace[m].stopper.InputClosed? && !(trace[m].stopper.neutral && trace[m].connected)
    requires trace[m + 1].stopper != trace[m].stopper
    ensures trace[j].final == None && trace[j].log == trace[m].log
  {
    RunInvariant(trace, m);
    LooksOnce(trace, m);
    StaysSilent(trace, m + 1, j);
    NeverReopened(trace, m, j);
  }

  lemma LooksOnce(trace: seq<System>, m: nat)
    requires IsRun(trace) && m + 1 < |trace| && Invariant(trace[m])
    requires trace[m].stopper.InputClosed? && !(trace[m].stopper.neutral && trace[m].connected)
    requires trace[m + 1].stopper != trace[m].stopper
    ensures SilentStop(trace[m + 1])
  {
    assert Moves(trace, m);
    var e :| Enabled(trace[m], e) && trace[m + 1] == Apply(trace[m], e);
    if WorkerEvent(e) {
      WorkerKeepsStopper(trace[m], e);
    }
  }

  lemma WorkerKeepsStopper(s: System, e: Event)
    requires Enabled(s, e) && WorkerEvent(e)
    ensures Apply(s, e).stopper == s.stopper
  {
  }

  // ---------------------------------------------------------- what a loss leads to

  /** A lost connection ends the client as disconnected, and its worker closes the pad. */
  lemma LossClosesThePad(before: seq<System>) returns (trace: seq<System>)
    requires IsRun(before) && CanSample(Last(before)) && Last(before).worker == Waiting
    requires Last(before).stopper == NotCalled
    ensures IsRun(trace)
    ensures Last(trace).client == OnDisconnected(Last(before).client) && Last(trace).client.state == Disconnected
    ensures !Last(trace).connected && !Last(trace).padOpen && Last(trace).poll == NoThread && Last(trace).worker == Done
  {
    trace := Extend(before, LoseConnection);
    assert Last(trace) == Last(before).(connected := false);
    trace := Extend(trace, NotifyLost);
    trace := PadIsClosed(trace);
  }

  /** So does a lost pad. */
  lemma PadLossDisconnects(before: seq<System>) returns (trace: seq<System>)
    requires IsRun(before) && CanSample(Last(before)) && Last(before).worker == Waiting
    requires Last(before).stopper == NotCalled && !Last(before).padStop
    ensures IsRun(trace)
    ensures Last(trace).client == OnDisconnected(Last(before).client) && Last(trace).client.state == Disconnected
    ensures !Last(trace).padOpen && Last(trace).poll == NoThread && Last(trace).worker == Done
  {
    trace := Extend(before, LosePad);
    var s := Last(trace);
    assert s.poll == Exited && s.client.state == Disconnected;
    trace := Extend(trace, WakeWorker);
    trace := Extend(trace, WorkerClose);
    assert Last(trace) == s.(worker := Closing, padStop := true);
    trace := Extend(trace, WorkerClosed);
  }

  lemma PadIsClosed(before: seq<System>) returns (trace: seq<System>)
    requires IsRun(before) && Last(before).poll == Idle && Last(before).worker == Waiting
    requires !Live(Last(before).client) && Last(before).stopper == NotCalled
    ensures IsRun(trace)
    ensures Last(trace) == Last(before).(worker := Done, padStop := true, poll := NoThread, padOpen := false)
  {
    var s := Last(before);
    trace := Extend(before, WakeWorker);
    trace := Extend(trace, WorkerClose);
    assert Last(trace) == s.(worker := Closing, padStop := true);
    trace := Extend(trace, ExitPoll);
    trace := Extend(trace, WorkerClosed);
  }
}
