/**
 The LAN client session as a step system: the start worker, the SDL poll thread, the
 transport's callbacks and the owner's Stop, interleaved at every lock and at every call
 into the transport or the pad.
 */
module LanClient {
  import opened ControllerOutput
  import opened LanControllerClient
  import opened Options
  import opened Protocol
  import opened Seqs

  // ------------------------------------------------------------ the step system

  /** A packet as it leaves: the session id the transport held and the frame. */
  datatype Datagram = Datagram(session: U32, frame: StateFrame)

  datatype Worker =
    | NoWorker
    | Handshaking   // inside StartClient, not connected
    | Connected     // connected_ set, session_id_ not yet
    | Numbered      // session_id_ set, before the last stop check of StartClient
    | Started       // StartClient returned true
    | Opening       // holds the lifecycle mutex, found the session live
    | OpenFailed
    | Waiting
    | WantsClose
    | Closing       // holds the lifecycle mutex, told the pad to stop
    | Done

  datatype Poll =
    | NoThread
    | Idle
    | HasFrame(frame: StateFrame)    // sequence assigned
    | Sending(frame: StateFrame)     // SendState found the transport connected
    | Addressed(datagram: Datagram)  // and loaded its session id
    | Exited                         // not joined yet

  datatype Stopper =
    | NotCalled
    | Flagged(neutral: bool)
    | ClosingInput(neutral: bool)    // holds the lifecycle mutex, told the pad to stop
    | InputClosed(neutral: bool)
    | WillSend
    | HasNeutral(frame: StateFrame)
    | SendingNeutral(frame: StateFrame)
    | AddressedNeutral(datagram: Datagram)
    | WillStopTransport
    | WillJoin
    | Returned

  /** `log`: datagrams in the order they left; `final`: the neutral datagram of Stop, if it left. */
  datatype System = System(
    client: Client, connected: bool, sessionId: U32, transportStop: bool, agreed: U32,
    worker: Worker, poll: Poll, padOpen: bool, padStop: bool, stopper: Stopper,
    log: seq<Datagram>, final: Option<Datagram>)

  datatype Outcome = OnWire | Dropped | Failed

  datatype Event =
    | Start
    | HandshakeFails
    | HandshakeSucceeds
    | NumberSession
    | LastCheck
    | EnterOpen
    | Open(ok: bool)
    | StopAfterOpenFailure
    | WakeWorker
    | WorkerClose
    | WorkerClosed
    | Sample(state: GamepadState, timestampUs: U64)
    | CheckConnected
    | LoadSession
    | SendSample(outcome: Outcome)
    | LosePad
    | ExitPoll
    | LoseConnection
    | NotifyLost
    | CallStop
    | StopClose
    | StopClosed
    | CheckSend
    | NumberNeutral(timestampUs: U64)
    | CheckNeutral
    | LoadNeutralSession
    | SendNeutral(outcome: Outcome)
    | StopTransport
    | Join

  /** `agreed` is the session id this client's handshake will settle on. */
  function Initial(agreed: U32): System {
    System(NewClient(), false, 0, false, agreed, NoWorker, NoThread, false, false,
           NotCalled, [], None)
  }

  predicate WorkerHoldsLifecycle(s: System) {
    s.worker == Opening || s.worker == Closing
  }

  predicate StopperHoldsLifecycle(s: System) {
    s.stopper.ClosingInput?
  }

  predicate Enabled(s: System, e: Event) {
    match e
    case Start => s.client.state == Created && s.stopper == NotCalled
    case HandshakeFails => s.worker == Handshaking
    case HandshakeSucceeds => s.worker == Handshaking
    case NumberSession => s.worker == Connected
    case LastCheck => s.worker == Numbered
    case EnterOpen => s.worker == Started && !StopperHoldsLifecycle(s)
    case Open(ok) => s.worker == Opening && (ok ==> !s.padOpen && s.poll == NoThread)
    case StopAfterOpenFailure => s.worker == OpenFailed
    case WakeWorker => s.worker == Waiting && !Live(s.client)
    case WorkerClose => s.worker == WantsClose && !StopperHoldsLifecycle(s)
    case WorkerClosed => s.worker == Closing && (s.poll == NoThread || s.poll == Exited)
    case Sample(_, _) => s.poll == Idle && s.client.latestSequence < LAST_SEQUENCE
    case CheckConnected => s.poll.HasFrame?
    case LoadSession => s.poll.Sending?
    case SendSample(_) => s.poll.Addressed?
    case LosePad => s.poll == Idle
    case ExitPoll => s.poll == Idle && s.padStop
    case LoseConnection => s.connected
    case NotifyLost => s.worker !in {NoWorker, Handshaking}
    case CallStop => s.stopper == NotCalled || s.stopper == Returned
    case StopClose => s.stopper.Flagged? && !WorkerHoldsLifecycle(s)
    case StopClosed => s.stopper.ClosingInput? && (s.poll == NoThread || s.poll == Exited)
    case CheckSend => s.stopper.InputClosed?
    case NumberNeutral(_) => s.stopper == WillSend && s.client.latestSequence < LAST_SEQUENCE
    case CheckNeutral => s.stopper.HasNeutral?
    case LoadNeutralSession => s.stopper.SendingNeutral?
    case SendNeutral(_) => s.stopper.AddressedNeutral?
    case StopTransport => s.stopper == WillStopTransport
    case Join => s.stopper == WillJoin && (s.worker == NoWorker || s.worker == Done)
  }

  predicate WorkerEvent(e: Event) {
    e.Start? || e.HandshakeFails? || e.HandshakeSucceeds? || e.NumberSession? || e.LastCheck? || e.EnterOpen?
    || e.Open? || e.StopAfterOpenFailure? || e.WakeWorker? || e.WorkerClose? || e.WorkerClosed?
  }

  predicate PadEvent(e: Event) {
    e.Sample? || e.CheckConnected? || e.LoadSession? || e.SendSample?
    || e.LosePad? || e.ExitPoll? || e.LoseConnection? || e.NotifyLost?
  }

  function ApplyWorker(s: System, e: Event): System
    requires Enabled(s, e) && WorkerEvent(e)
  {
    match e
    case Start => s.(client := s.client.(state := Running, stopRequested := false), worker := Handshaking)
    case HandshakeFails => s.(client := StartFailed(s.client), connected := false, worker := Done)
    case HandshakeSucceeds => s.(connected := true, worker := Connected)
    case NumberSession => s.(sessionId := s.agreed, worker := Numbered)
    case LastCheck =>
      if s.transportStop then s.(client := StartFailed(s.client), connected := false, worker := Done)
      else s.(worker := Started)
    case EnterOpen => s.(worker := if Live(s.client) then Opening else Done)
    case Open(ok) =>
      if ok then s.(worker := Waiting, poll := Idle, padOpen := true, padStop := false)
      else s.(client := StartFailed(s.client), worker := OpenFailed)
    case StopAfterOpenFailure => s.(connected := false, transportStop := true, worker := Done)
    case WakeWorker => s.(worker := WantsClose)
    case WorkerClose => s.(worker := Closing, padStop := true)
    case WorkerClosed => s.(worker := Done, poll := NoThread, padOpen := false)
  }

  /** The poll thread and the transport's callbacks. */
  function ApplyPad(s: System, e: Event): System
    requires Enabled(s, e) && PadEvent(e)
  {
    match e
    case Sample(state, timestampUs) =>
      if Live(s.client) then
        var client := NextSequence(s.client);
        s.(client := client, poll := HasFrame(StateFrame(state, client.latestSequence, timestampUs)))
      else s
    case CheckConnected =>
      if s.connected then s.(poll := Sending(s.poll.frame))
      else s.(client := OnDisconnected(s.client), poll := Idle)
    case LoadSession => s.(poll := Addressed(Datagram(s.sessionId, s.poll.frame)))
    case SendSample(outcome) =>
      var d := s.poll.datagram;
      (match outcome
       case OnWire => s.(client := SampleSent(s.client, d.frame.state), poll := Idle, log := s.log + [d])
       case Dropped => s.(client := SampleSent(s.client, d.frame.state), poll := Idle)
       case Failed => s.(client := OnDisconnected(s.client), connected := false, poll := Idle))
    case LosePad => s.(client := if s.padStop then s.client else OnDisconnected(s.client), poll := Exited)
    case ExitPoll => s.(poll := Exited)
    case LoseConnection => s.(connected := false)
    case NotifyLost => s.(client := OnDisconnected(s.client))
  }

  function ApplyStopper(s: System, e: Event): System
    requires Enabled(s, e) && !WorkerEvent(e) && !PadEvent(e)
  {
    match e
    case CallStop =>
      if s.client.state == Stopped then s
      else s.(client := StopSection(s.client), stopper := Flagged(s.client.state == Running))
    case StopClose => s.(stopper := ClosingInput(s.stopper.neutral), padStop := true)
    case StopClosed => s.(stopper := InputClosed(s.stopper.neutral), poll := NoThread, padOpen := false)
    case CheckSend => s.(stopper := if s.stopper.neutral && s.connected then WillSend else WillStopTransport)
    case NumberNeutral(timestampUs) =>
      var client := NextSequence(s.client);
      s.(client := client, stopper := HasNeutral(StateFrame(NEUTRAL, client.latestSequence, timestampUs)))
    case CheckNeutral =>
      s.(stopper := if s.connected then SendingNeutral(s.stopper.frame) else WillStopTransport)
    case LoadNeutralSession => s.(stopper := AddressedNeutral(Datagram(s.sessionId, s.stopper.frame)))
    case SendNeutral(outcome) =>
      var d := s.stopper.datagram;
      (match outcome
       case OnWire => s.(stopper := WillStopTransport, log := s.log + [d], final := Some(d))
       case Dropped => s.(stopper := WillStopTransport)
       case Failed => s.(stopper := WillStopTransport, connected := false))
    case StopTransport => s.(stopper := WillJoin, transportStop := true, connected := false)
    case Join => s.(stopper := Returned)
  }

  function Apply(s: System, e: Event): System
    requires Enabled(s, e)
  {
    if WorkerEvent(e) then ApplyWorker(s, e) else if PadEvent(e) then ApplyPad(s, e) else ApplyStopper(s, e)
  }

  // --------------------------------------------------------------------- runs

  ghost predicate Next(s: System, t: System) {
    exists e :: Enabled(s, e) && t == Apply(s, e)
  }

  ghost predicate Moves(trace: seq<System>, i: nat)
    requires i + 1 < |trace|
  {
    Next(trace[i], trace[i + 1])
  }

  ghost predicate IsRun(trace: seq<System>) {
    && trace != []
    && trace[0] == Initial(trace[0].agreed)
    && forall i: nat {:trigger Moves(trace, i)} :: i + 1 < |trace| ==> Moves(trace, i)
  }

  // --------------------------------------------------------------- invariants

  /** Stop has been through `CloseInput`. */
  predicate InputIsClosed(s: System) {
    s.stopper.InputClosed? || s.stopper == WillSend || s.stopper.HasNeutral? || s.stopper.SendingNeutral?
    || s.stopper.AddressedNeutral? || s.stopper == WillStopTransport || s.stopper == WillJoin || s.stopper == Returned
  }

  /** `session_id_` is stored behind `connected_`, by the worker alone. */
  predicate SessionInvariant(s: System) {
    && (s.worker in {NoWorker, Handshaking, Connected} ==> s.sessionId == 0)
    && (s.worker in {Numbered, Started, Opening, OpenFailed, Waiting, WantsClose, Closing} ==> s.sessionId == s.agreed)
    && (s.connected || s.stopper.SendingNeutral? || s.poll.Sending? ==>
          s.worker !in {NoWorker, Handshaking} && (s.worker == Done ==> s.sessionId == s.agreed))
  }

  ghost predicate PhaseInvariant(s: System) {
    && (s.stopper != NotCalled <==> s.client.stopRequested)
    && (s.client.stopRequested ==> s.client.state == Stopped)
    && (s.client.state == Stopped ==> s.client.stopRequested)
    && !(WorkerHoldsLifecycle(s) && StopperHoldsLifecycle(s))
    && (InputIsClosed(s) ==> s.poll == NoThread && !s.padOpen && s.worker != Opening)
    && (s.poll != NoThread ==> s.padOpen && s.worker in {Waiting, WantsClose, Closing})
    && (s.client.state == Created ==> s.worker == NoWorker)
    && (s.worker in {NoWorker, Handshaking, Connected, Numbered, Started, Opening} ==> !s.padOpen)
    && (s.client.state != Running ==> s.client.current == NEUTRAL)
    && (s.worker in {NoWorker, Handshaking, Connected, Numbered, Started, Opening} ==> s.client.current == NEUTRAL)
    && SessionInvariant(s)
  }

  predicate Ascending(log: seq<Datagram>) {
    forall i, j :: 0 <= i < j < |log| ==> log[i].frame.sequence < log[j].frame.sequence
  }

  predicate AllBelow(log: seq<Datagram>, bound: nat) {
    forall d :: d in log ==> d.frame.sequence < bound
  }

  /** The neutral frame of Stop while it is numbered and has not left. */
  function NeutralInHand(stopper: Stopper): Option<StateFrame> {
    if stopper.HasNeutral? || stopper.SendingNeutral? then Some(stopper.frame)
    else if stopper.AddressedNeutral? then Some(stopper.datagram.frame)
    else None
  }

  /** The numbered frame that has not left yet, if any. */
  function Unsent(s: System): Option<StateFrame> {
    if s.poll.HasFrame? || s.poll.Sending? then Some(s.poll.frame)
    else if s.poll.Addressed? then Some(s.poll.datagram.frame)
    else NeutralInHand(s.stopper)
  }

  ghost predicate LogInvariant(s: System) {
    && Ascending(s.log)
    && AllBelow(s.log, s.client.latestSequence + 1)
    && (Unsent(s).Some? ==>
          Unsent(s).value.sequence == s.client.latestSequence && AllBelow(s.log, s.client.latestSequence))
    && (forall d :: d in s.log ==> d.session == 0 || d.session == s.agreed)
    && (s.sessionId == 0 || s.sessionId == s.agreed)
    && (s.final.Some? ==>
          && s.log != [] && Last(s.log) == s.final.value
          && s.final.value.frame.state == NEUTRAL
          && s.stopper in {WillStopTransport, WillJoin, Returned})
    && (NeutralInHand(s.stopper).Some? ==> NeutralInHand(s.stopper).value.state == NEUTRAL)
    && (s.poll.Addressed? ==> s.poll.datagram.session == 0 || s.poll.datagram.session == s.agreed)
    && (s.stopper.AddressedNeutral? ==> s.stopper.datagram.session == 0 || s.stopper.datagram.session == s.agreed)
  }

  ghost predicate Invariant(s: System) {
    PhaseInvariant(s) && LogInvariant(s)
  }

  lemma PhaseWorker(s: System, e: Event)
    requires PhaseInvariant(s) && Enabled(s, e) && WorkerEvent(e)
    ensures PhaseInvariant(Apply(s, e))
  {
  }

  lemma PhaseSample(s: System, e: Event)
    requires PhaseInvariant(s) && Enabled(s, e) && (e.Sample? || e.CheckConnected? || e.LoadSession? || e.SendSample?)
    ensures PhaseInvariant(Apply(s, e))
  {
  }

  lemma PhaseLoss(s: System, e: Event)
    requires PhaseInvariant(s) && Enabled(s, e) && (e.LosePad? || e.ExitPoll? || e.LoseConnection? || e.NotifyLost?)
    ensures PhaseInvariant(Apply(s, e))
  {
  }

  lemma PhaseStopper(s: System, e: Event)
    requires PhaseInvariant(s) && Enabled(s, e) && !WorkerEvent(e) && !PadEvent(e)
    ensures PhaseInvariant(Apply(s, e))
  {
  }

  /** The datagram that has its session id and waits for `sendto`. */
  function InHand(s: System): Option<Datagram> {
    if s.poll.Addressed? then Some(s.poll.datagram)
    else if s.stopper.AddressedNeutral? then Some(s.stopper.datagram)
    else None
  }

  /** A datagram is in hand because it was before, or because this step loaded its session id. */
  predicate LoadsOrHolds(s: System, t: System) {
    InHand(t).None? || InHand(t) == InHand(s) ||
    (&& InHand(s) == None && InHand(t).value.session == s.sessionId
     && (s.poll.Sending? || (s.stopper.SendingNeutral? && s.poll == NoThread)))
  }

  /** What a step does to the frame that was numbered and has not left. */
  predicate NumbersOrKeeps(s: System, t: System) {
    if t.client.latestSequence == s.client.latestSequence then Unsent(t) == Unsent(s) || Unsent(t) == None
    else
      && t.client.latestSequence == s.client.latestSequence + 1 && t.log == s.log
      && Unsent(s) == None && Unsent(t).Some? && Unsent(t).value.sequence == t.client.latestSequence
  }

  /** The log is unchanged, or the datagram in hand left; Stop's is remembered as the final one. */
  predicate LogsOrKeeps(s: System, t: System) {
    if t.log == s.log then t.final == s.final
    else
      && InHand(s).Some? && t.log == s.log + [InHand(s).value] && Unsent(t) == None
      && t.final == (if s.poll == NoThread then InHand(s) else s.final)
      && (s.poll == NoThread ==> t.stopper == WillStopTransport)
  }

  /** Everything one step does to numbers, datagrams and log. */
  predicate Effect(s: System, t: System) {
    && t.agreed == s.agreed && (t.sessionId == s.sessionId || t.sessionId == s.agreed)
    && LoadsOrHolds(s, t) && NumbersOrKeeps(s, t) && LogsOrKeeps(s, t)
    && (NeutralInHand(t.stopper).Some? ==>
          NeutralInHand(t.stopper) == NeutralInHand(s.stopper) || NeutralInHand(t.stopper).value.state == NEUTRAL)
    && (InputIsClosed(s) ==> InputIsClosed(t))
    && (s.stopper in {WillStopTransport, WillJoin, Returned} ==> t.stopper in {WillStopTransport, WillJoin, Returned})
  }

  lemma EffectWorker(s: System, e: Event)
    requires PhaseInvariant(s) && Enabled(s, e) && WorkerEvent(e)
    ensures Effect(s, Apply(s, e))
  {
  }

  lemma EffectSample(s: System, e: Event)
    requires PhaseInvariant(s) && Enabled(s, e) && (e.Sample? || e.CheckConnected? || e.LoadSession? || e.SendSample?)
    ensures Effect(s, Apply(s, e))
  {
  }

  lemma EffectLoss(s: System, e: Event)
    requires PhaseInvariant(s) && Enabled(s, e) && (e.LosePad? || e.ExitPoll? || e.LoseConnection? || e.NotifyLost?)
    ensures Effect(s, Apply(s, e))
  {
  }

  lemma EffectStopper(s: System, e: Event)
    requires PhaseInvariant(s) && Enabled(s, e) && !WorkerEvent(e) && !PadEvent(e)
    ensures Effect(s, Apply(s, e))
  {
  }

  lemma AppendAscending(log: seq<Datagram>, d: Datagram)
    requires Ascending(log) && AllBelow(log, d.frame.sequence)
    ensures Ascending(log + [d]) && AllBelow(log + [d], d.frame.sequence + 1)
  {
    forall i, j | 0 <= i < j < |log| + 1
      ensures (log + [d])[i].frame.sequence < (log + [d])[j].frame.sequence
    {
      assert log[i] in log;
    }
  }

  /** A step with that effect keeps the log in order, whichever it is. */
  lemma EffectKeepsLog(s: System, t: System)
    requires PhaseInvariant(s) && LogInvariant(s) && PhaseInvariant(t) && Effect(s, t)
    ensures LogInvariant(t)
  {
    if t.log != s.log {
      assert Unsent(s) == Some(InHand(s).value.frame);
      AppendAscending(s.log, InHand(s).value);
    }
  }

  lemma StepKeepsInvariant(s: System, e: Event)
    requires Invariant(s) && Enabled(s, e)
    ensures Invariant(Apply(s, e)) && Effect(s, Apply(s, e))
  {
    if WorkerEvent(e) {
      PhaseWorker(s, e);
      EffectWorker(s, e);
    } else if !PadEvent(e) {
      PhaseStopper(s, e);
      EffectStopper(s, e);
    } else if e.LosePad? || e.ExitPoll? || e.LoseConnection? || e.NotifyLost? {
      PhaseLoss(s, e);
      EffectLoss(s, e);
    } else {
      PhaseSample(s, e);
      EffectSample(s, e);
    }
    EffectKeepsLog(s, Apply(s, e));
  }

  lemma Move(trace: seq<System>, i: nat)
    requires IsRun(trace) && i + 1 < |trace| && Invariant(trace[i])
    ensures Invariant(trace[i + 1]) && Effect(trace[i], trace[i + 1])
  {
    assert Moves(trace, i);
    var e :| Enabled(trace[i], e) && trace[i + 1] == Apply(trace[i], e);
    StepKeepsInvariant(trace[i], e);
  }

  lemma {:induction false} RunInvariant(trace: seq<System>, i: nat)
    requires IsRun(trace) && i < |trace|
    ensures Invariant(trace[i])
  {
    if i > 0 {
      RunInvariant(trace, i - 1);
      Move(trace, i - 1);
    }
  }

  lemma RunEffect(trace: seq<System>, i: nat)
    requires IsRun(trace) && i + 1 < |trace|
    ensures Effect(trace[i], trace[i + 1])
  {
    RunInvariant(trace, i);
    Move(trace, i);
  }

  // ------------------------------------------------------------------ theorems

  /** In every interleaving the datagrams leave in strictly ascending sequence order. */
  lemma DatagramsLeaveInOrder(trace: seq<System>, i: nat)
    requires IsRun(trace) && i < |trace|
    ensures Ascending(trace[i].log)
    ensures forall d :: d in trace[i].log ==> d.session == 0 || d.session == trace[i].agreed
  {
    RunInvariant(trace, i);
  }

  /** No datagram is ever taken back, and the session agreed on never changes. */
  lemma {:induction false} LogOnlyGrows(trace: seq<System>, i: nat, j: nat)
    requires IsRun(trace) && i <= j < |trace|
    ensures trace[i].log <= trace[j].log && trace[i].agreed == trace[j].agreed
  {
    if i < j {
      LogOnlyGrows(trace, i, j - 1);
      RunEffect(trace, j - 1);
    }
  }

  lemma ClosedMove(trace: seq<System>, i: nat)
    requires IsRun(trace) && i + 1 < |trace| && InputIsClosed(trace[i])
    ensures var s, t := trace[i], trace[i + 1];
            && InputIsClosed(t) && !t.padOpen && t.poll == NoThread
            && if s.final.Some? then t.log == s.log && t.final == s.final
               else t.log == s.log + if t.final.Some? then [t.final.value] else []
  {
    RunInvariant(trace, i);
    Move(trace, i);
  }

  /**
   After Stop's CloseInput the pad is never open again and no poll thread runs; the only
   datagram that may still leave is the neutral one.
   */
  lemma {:induction false} NeverReopened(trace: seq<System>, i: nat, j: nat)
    requires IsRun(trace) && i <= j < |trace| && InputIsClosed(trace[i])
    ensures InputIsClosed(trace[j]) && !trace[j].padOpen && trace[j].poll == NoThread
    ensures trace[i].final.None? ==>
              trace[j].log == trace[i].log + if trace[j].final.Some? then [trace[j].final.value] else []
    ensures trace[i].final.Some? ==> trace[j].log == trace[i].log && trace[j].final == trace[i].final
  {
    if i < j {
      NeverReopened(trace, i, j - 1);
      ClosedMove(trace, j - 1);
    } else {
      RunInvariant(trace, i);
    }
  }

  lemma FinalImpliesClosed(s: System)
    requires Invariant(s) && s.final.Some?
    ensures InputIsClosed(s)
  {
  }

  /** The neutral datagram of Stop, if it leaves, is the last one and has the greatest sequence. */
  lemma FinalNeutralIsLast(trace: seq<System>, i: nat, j: nat)
    requires IsRun(trace) && i <= j < |trace| && trace[i].final.Some?
    ensures var log := trace[j].log;
            && log != [] && Last(log) == trace[i].final.value
            && Last(log).frame.state == NEUTRAL
            && forall k :: 0 <= k < |log| - 1 ==> log[k].frame.sequence < Last(log).frame.sequence
  {
    RunInvariant(trace, i);
    RunInvariant(trace, j);
    FinalImpliesClosed(trace[i]);
    NeverReopened(trace, i, j);
  }

  /** Once the owner's Stop has returned nothing runs, and the client shows neutral. */
  lemma StoppedClientIsQuiet(trace: seq<System>, i: nat)
    requires IsRun(trace) && i < |trace| && trace[i].stopper == Returned
    ensures trace[i].client.state == Stopped && trace[i].client.current == NEUTRAL
    ensures !trace[i].padOpen && trace[i].poll == NoThread
  {
    RunInvariant(trace, i);
  }

  // ------------------------------------------------------- session id on the wire

  /** Step `m` loads the session id of datagram `d`. */
  predicate Loads(trace: seq<System>, m: nat, d: Datagram)
    requires m + 1 < |trace|
  {
    && InHand(trace[m]) == None && InHand(trace[m + 1]) == Some(d)
    && d.session == trace[m].sessionId
    && (trace[m].poll.Sending? || trace[m].stopper.SendingNeutral?)
  }

  lemma {:induction false} LoadedBefore(trace: seq<System>, i: nat) returns (m: nat)
    requires IsRun(trace) && i < |trace| && InHand(trace[i]).Some?
    ensures m < i && Loads(trace, m, InHand(trace[i]).value) && trace[m].agreed == trace[i].agreed
  {
    assert i > 0;
    RunEffect(trace, i - 1);
    m := i - 1;
    if InHand(trace[i - 1]) == InHand(trace[i]) {
      m := LoadedBefore(trace, i - 1);
    }
  }

  /**
   The session id of a datagram is decided when it is loaded, not when the datagram leaves.
   Every datagram that leaves was loaded at an earlier step, and it carries the agreed id if
   and only if the worker was not, at that step, between its stores to `connected_` and to
   `session_id_`; only Stop's neutral datagram can be loaded at such a step.
   */
  lemma SessionOnTheWire(trace: seq<System>, i: nat) returns (m: nat)
    requires IsRun(trace) && i + 1 < |trace| && trace[i].agreed != 0 && trace[i + 1].log != trace[i].log
    ensures trace[i + 1].log != [] && m < i
    ensures var d := Last(trace[i + 1].log);
            && trace[i + 1].log == trace[i].log + [d] && Loads(trace, m, d)
            && (d.session == trace[i].agreed <==> trace[m].worker != Connected)
            && (trace[m].worker == Connected ==> trace[m].stopper.SendingNeutral?)
  {
    RunEffect(trace, i);
    m := LoadedBefore(trace, i);
    RunInvariant(trace, m);
  }

  lemma Extend(trace: seq<System>, e: Event) returns (longer: seq<System>)
    requires IsRun(trace) && Enabled(Last(trace), e)
    ensures IsRun(longer) && trace <= longer && Last(longer) == Apply(Last(trace), e)
  {
    longer := trace + [Apply(Last(trace), e)];
    forall i: nat | i + 1 < |longer| ensures Moves(longer, i) {
      if i + 1 < |trace| {
        assert Moves(trace, i);
        assert longer[i] == trace[i] && longer[i + 1] == trace[i + 1];
      } else {
        assert Enabled(longer[i], e) && longer[i + 1] == Apply(longer[i], e);
      }
    }
  }

  /**
   A Stop that loads the session id after `connected_` was set and before `session_id_` was
   stored sends its neutral datagram under session id 0, which no server accepts, even if the
   transport is completely started by the time the datagram leaves.
   */
  lemma NeutralMayCarrySessionZero(agreed: U32, timestampUs: U64) returns (trace: seq<System>)
    ensures IsRun(trace) && Last(trace).agreed == agreed
    ensures Last(trace).final == Some(Datagram(0, StateFrame(NEUTRAL, 1, timestampUs)))
    ensures Last(trace).worker == Started
  {
    trace := StopWhileConnecting(agreed);
    var s := Last(trace);
    trace := Extend(trace, CheckSend);
    assert Last(trace) == s.(stopper := WillSend);
    trace := Extend(trace, NumberNeutral(timestampUs));
    var f := StateFrame(NEUTRAL, 1, timestampUs);
    assert Last(trace) == s.(stopper := HasNeutral(f), client := s.client.(latestSequence := 1));
    trace := Extend(trace, CheckNeutral);
    assert Last(trace) == s.(stopper := SendingNeutral(f), client := s.client.(latestSequence := 1));
    trace := Extend(trace, LoadNeutralSession);
    assert Last(trace) == s.(stopper := AddressedNeutral(Datagram(0, f)), client := s.client.(latestSequence := 1));
    trace := LateSend(trace, Datagram(0, f));
  }

  /** The worker may store the id and finish its start between the load and `sendto`. */
  lemma LateSend(before: seq<System>, d: Datagram) returns (trace: seq<System>)
    requires IsRun(before) && Last(before).worker == Connected && Last(before).stopper == AddressedNeutral(d)
    requires !Last(before).transportStop
    ensures IsRun(trace) && Last(trace).agreed == Last(before).agreed
    ensures Last(trace).final == Some(d) && Last(trace).worker == Started
  {
    var s := Last(before);
    trace := Extend(before, NumberSession);
    assert Last(trace) == s.(sessionId := s.agreed, worker := Numbered);
    trace := Extend(trace, LastCheck);
    assert Last(trace) == s.(sessionId := s.agreed, worker := Started);
    trace := Extend(trace, SendNeutral(OnWire));
  }

  lemma ConnectUnnumbered(agreed: U32) returns (trace: seq<System>)
    ensures IsRun(trace)
    ensures Last(trace) == Initial(agreed).(client := Client(Running, false, 0, NEUTRAL), connected := true,
                                            worker := Connected)
  {
    trace := [Initial(agreed)];
    trace := Extend(trace, Start);
    assert Last(trace) == Initial(agreed).(client := Client(Running, false, 0, NEUTRAL), worker := Handshaking);
    trace := Extend(trace, HandshakeSucceeds);
  }

  lemma StopWhileConnecting(agreed: U32) returns (trace: seq<System>)
    ensures IsRun(trace)
    ensures Last(trace) == Initial(agreed).(client := Client(Stopped, true, 0, NEUTRAL), connected := true,
                                            worker := Connected, padStop := true, stopper := InputClosed(true))
  {
    trace := ConnectUnnumbered(agreed);
    var s := Last(trace);
    trace := Extend(trace, CallStop);
    var c := Client(Stopped, true, 0, NEUTRAL);
    assert Last(trace) == s.(client := c, stopper := Flagged(true));
    trace := Extend(trace, StopClose);
    assert Last(trace) == s.(client := c, stopper := ClosingInput(true), padStop := true);
    trace := Extend(trace, StopClosed);
  }
}
