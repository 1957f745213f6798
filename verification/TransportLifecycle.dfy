/**
 The life of one trusted-LAN transport: the thread that starts it, the session's Stop, and
 whichever thread signals a disconnect, interleaved at every access to the shared flags.
 */
module TransportLifecycle {
  import opened Protocol
  import opened Seqs

  /** `stop_requested_`, `connected_`, `disconnected_signaled_` and `session_id_`. */
  datatype Flags = Flags(stopRequested: bool, connected: bool, signaled: bool, sessionId: U32)

  datatype Starter =
    | NotStarted
    | Handshaking
    | Assigning      // the handshake's stop check has passed
    | Assigned       // connected_ was set
    | Numbered       // session_id_ was stored behind it
    | StoppingItself // the check behind the handshake saw the stop request
    | Failed
    | Running        // start returned true
    | GivingUp       // the client's worker stops the transport because the pad did not open
    | GaveUp

  /** The thread that won `disconnected_signaled_`; the others return at once. */
  datatype Signaler = Nobody | Won | Cleared | Finished

  datatype Stopper = NotCalled | Exchanged | Cleaned | Returned

  /** `agreed` is the session id the handshake settles on. */
  datatype System = System(
    flags: Flags, agreed: U32, starter: Starter, signaler: Signaler, stopper: Stopper, connects: nat, callbacks: nat)

  datatype Event =
    | Begin
    | HandshakeFails
    | CheckStop
    | Assign
    | StoreSession
    | CheckAgain
    | StopItself
    | GiveUp
    | GaveUpClean
    | Signal
    | SignalClear
    | SignalCall
    | StopExchange
    | StopClean
    | StopJoin

  function Initial(agreed: U32): System {
    System(Flags(false, false, false, 0), agreed, NotStarted, Nobody, NotCalled, 0, 0)
  }

  /** The worker that runs the starter has nothing left to do for Stop to wait for. */
  predicate StarterDone(s: System) {
    s.starter in {NotStarted, Failed, Running, GaveUp}
  }

  predicate Enabled(s: System, e: Event) {
    match e
    case Begin => s.starter == NotStarted && s.stopper == NotCalled
    case HandshakeFails => s.starter == Handshaking
    case CheckStop => s.starter == Handshaking
    case Assign => s.starter == Assigning
    case StoreSession => s.starter == Assigned
    case CheckAgain => s.starter == Numbered
    case StopItself => s.starter == StoppingItself
    case GiveUp => s.starter == Running
    case GaveUpClean => s.starter == GivingUp
    case Signal => s.connects > 0
    case SignalClear => s.signaler == Won
    case SignalCall => s.signaler == Cleared
    case StopExchange => s.stopper == NotCalled
    case StopClean => s.stopper == Exchanged
    case StopJoin => s.stopper == Cleaned && StarterDone(s)
  }

  function Disconnect(f: Flags): Flags {
    f.(connected := false)
  }

  function Apply(s: System, e: Event): System
    requires Enabled(s, e)
  {
    match e
    case Begin => s.(starter := Handshaking)
    case HandshakeFails => s.(flags := Disconnect(s.flags), starter := Failed)
    case CheckStop => s.(starter := if s.flags.stopRequested then Failed else Assigning)
    case Assign => s.(flags := s.flags.(connected := true), starter := Assigned, connects := s.connects + 1)
    case StoreSession => s.(flags := s.flags.(sessionId := s.agreed), starter := Numbered)
    case CheckAgain => s.(starter := if s.flags.stopRequested then StoppingItself else Running)
    case StopItself => s.(flags := Disconnect(s.flags), starter := Failed)
    case GiveUp => s.(flags := s.flags.(stopRequested := true), starter := GivingUp)
    case GaveUpClean => s.(flags := Disconnect(s.flags), starter := GaveUp)
    case Signal => if s.flags.signaled then s else s.(flags := s.flags.(signaled := true), signaler := Won)
    case SignalClear => s.(flags := Disconnect(s.flags), signaler := Cleared)
    case SignalCall =>
      s.(signaler := Finished, callbacks := if s.flags.stopRequested then s.callbacks else s.callbacks + 1)
    case StopExchange => s.(flags := s.flags.(stopRequested := true), stopper := Exchanged)
    case StopClean => s.(flags := Disconnect(s.flags), stopper := Cleaned)
    case StopJoin => s.(stopper := Returned)
  }

  ghost predicate Next(s: System, t: System) {
    exists e :: Enabled(s, e) && t == Apply(s, e)
  }

  ghost predicate Moves(trace: seq<System>, i: nat)
    requires i + 1 < |trace|
  {
    Next(trace[i], trace[i + 1])
  }

  ghost predicate IsRun(trace: seq<System>) {
    && trace != []
    && trace[0] == Initial(trace[0].agreed)
    && forall i: nat {:trigger Moves(trace, i)} :: i + 1 < |trace| ==> Moves(trace, i)
  }

  lemma Extend(trace: seq<System>, e: Event) returns (longer: seq<System>)
    requires IsRun(trace) && Enabled(Last(trace), e)
    ensures IsRun(longer) && trace <= longer && Last(longer) == Apply(Last(trace), e)
  {
    longer := trace + [Apply(Last(trace), e)];
    forall i: nat | i + 1 < |longer| ensures Moves(longer, i) {
      if i + 1 < |trace| {
        assert Moves(trace, i);
        assert longer[i] == trace[i] && longer[i + 1] == trace[i + 1];
      } else {
        assert Enabled(longer[i], e) && longer[i + 1] == Apply(longer[i], e);
      }
    }
  }

  ghost predicate Invariant(s: System) {
    && s.connects <= 1
    && (s.starter in {NotStarted, Handshaking, Assigning} ==> s.connects == 0)
    && (s.flags.connected ==> s.connects == 1 && s.starter in {Assigned, Numbered, StoppingItself, Running, GivingUp})
    && (s.starter in {NotStarted, Handshaking, Assigning, Assigned} ==> s.flags.sessionId == 0)
    && (s.starter in {Numbered, StoppingItself, Running, GivingUp, GaveUp} ==> s.flags.sessionId == s.agreed)
    && (s.flags.signaled <==> s.signaler != Nobody)
    && s.callbacks <= (if s.signaler == Finished then 1 else 0)
    && (s.stopper != NotCalled ==> s.flags.stopRequested)
    && (s.stopper in {Cleaned, Returned} && s.starter in {Running, GivingUp} ==> !s.flags.connected)
    && (s.stopper == Returned ==> StarterDone(s) || s.starter == GivingUp)
    && (s.starter in {StoppingItself, GivingUp, GaveUp} ==> s.flags.stopRequested)
  }

  lemma StepKeepsInvariant(s: System, e: Event)
    requires Invariant(s) && Enabled(s, e)
    ensures Invariant(Apply(s, e))
  {
  }

  lemma {:induction false} RunInvariant(trace: seq<System>, i: nat)
    requires IsRun(trace) && i < |trace|
    ensures Invariant(trace[i])
  {
    if i > 0 {
      RunInvariant(trace, i - 1);
      assert Moves(trace, i - 1);
      var e :| Enabled(trace[i - 1], e) && trace[i] == Apply(trace[i - 1], e);
      StepKeepsInvariant(trace[i - 1], e);
    }
  }

  // ------------------------------------------------------------------ theorems

  /** The disconnect callback runs at most once in the life of a transport. */
  lemma CallbackAtMostOnce(trace: seq<System>, i: nat)
    requires IsRun(trace) && i < |trace|
    ensures trace[i].callbacks <= 1
  {
    RunInvariant(trace, i);
  }

  predicate Rises(trace: seq<System>, i: nat)
    requires i + 1 < |trace|
  {
    !trace[i].flags.connected && trace[i + 1].flags.connected
  }

  lemma ConnectsOnly(trace: seq<System>, i: nat)
    requires IsRun(trace) && i + 1 < |trace|
    ensures trace[i].connects <= trace[i + 1].connects
    ensures Rises(trace, i) ==> trace[i].connects < trace[i + 1].connects
  {
    assert Moves(trace, i);
    var e :| Enabled(trace[i], e) && trace[i + 1] == Apply(trace[i], e);
  }

  lemma {:induction false} ConnectsGrow(trace: seq<System>, i: nat, j: nat)
    requires IsRun(trace) && i <= j < |trace|
    ensures trace[i].connects <= trace[j].connects
  {
    if i < j {
      ConnectsGrow(trace, i, j - 1);
      ConnectsOnly(trace, j - 1);
    }
  }

  /** `connected_` goes from false to true at most once. */
  lemma ConnectedAtMostOnce(trace: seq<System>, i: nat, j: nat)
    requires IsRun(trace) && i < j && j + 1 < |trace|
    ensures !(Rises(trace, i) && Rises(trace, j))
  {
    ConnectsOnly(trace, i);
    ConnectsGrow(trace, i + 1, j);
    ConnectsOnly(trace, j);
    RunInvariant(trace, j + 1);
  }

  lemma StepAfterReturn(s: System, e: Event)
    requires Invariant(s) && s.stopper == Returned && Enabled(s, e)
    ensures Apply(s, e).stopper == Returned
  {
  }

  lemma MoveAfterReturn(trace: seq<System>, i: nat)
    requires IsRun(trace) && i + 1 < |trace| && trace[i].stopper == Returned
    ensures trace[i + 1].stopper == Returned
  {
    RunInvariant(trace, i);
    assert Moves(trace, i);
    var e :| Enabled(trace[i], e) && trace[i + 1] == Apply(trace[i], e);
    StepAfterReturn(trace[i], e);
  }

  /** Once the session's Stop has returned the transport is disconnected for ever. */
  lemma {:induction false} StoppedIsDisconnected(trace: seq<System>, i: nat, j: nat)
    requires IsRun(trace) && i <= j < |trace| && trace[i].stopper == Returned
    ensures trace[j].stopper == Returned && !trace[j].flags.connected
  {
    RunInvariant(trace, j);
    if i < j {
      StoppedIsDisconnected(trace, i, j - 1);
      MoveAfterReturn(trace, j - 1);
    }
  }

  /**
   The transport's own Stop does not promise as much. If it runs between the handshake's stop
   check and the assignment, the flag is set behind it; only the join makes the promise true.
   */
  lemma TransportStopAloneIsNotEnough(agreed: U32) returns (trace: seq<System>)
    ensures IsRun(trace) && Last(trace).agreed == agreed
    ensures Last(trace).stopper == Cleaned && Last(trace).flags.connected
  {
    trace := [Initial(agreed)];
    trace := Extend(trace, Begin);
    trace := Extend(trace, CheckStop);
    var s := Last(trace);
    assert s == Initial(agreed).(starter := Assigning);
    trace := Extend(trace, StopExchange);
    trace := Extend(trace, StopClean);
    assert Last(trace) == s.(flags := Flags(true, false, false, 0), stopper := Cleaned);
    trace := Extend(trace, Assign);
  }

  /** A connected transport knows its session id, but for the instant between the two stores. */
  lemma ConnectedIsNumbered(trace: seq<System>, i: nat)
    requires IsRun(trace) && i < |trace| && trace[i].flags.connected && trace[i].agreed != 0
    ensures trace[i].flags.sessionId == trace[i].agreed <==> trace[i].starter != Assigned
  {
    RunInvariant(trace, i);
  }

  predicate Settled(s: System) {
    s.stopper in {Cleaned, Returned} && s.starter != Assigning && !s.flags.connected
  }

  lemma MoveSettled(trace: seq<System>, i: nat)
    requires IsRun(trace) && i + 1 < |trace| && Settled(trace[i])
    ensures Settled(trace[i + 1])
  {
    RunInvariant(trace, i);
    assert Moves(trace, i);
    var e :| Enabled(trace[i], e) && trace[i + 1] == Apply(trace[i], e);
  }

  lemma {:induction false} StaysSettled(trace: seq<System>, i: nat, j: nat)
    requires IsRun(trace) && i <= j < |trace| && Settled(trace[i])
    ensures Settled(trace[j])
  {
    if i < j {
      StaysSettled(trace, i, j - 1);
      MoveSettled(trace, j - 1);
    }
  }

  /**
   Exactly when the transport's own Stop leaves the flag to be set again: if and only if the
   starter is between its stop check and the assignment.
   */
  lemma ReconnectsIffAssigning(trace: seq<System>)
    requires IsRun(trace) && Last(trace).stopper == Cleaned && !Last(trace).flags.connected
    ensures (exists longer :: IsRun(longer) && trace <= longer && Last(longer).flags.connected)
            <==> Last(trace).starter == Assigning
  {
    if Last(trace).starter == Assigning {
      var longer := Extend(trace, Assign);
      assert trace <= longer && Last(longer).flags.connected;
    } else {
      forall longer | IsRun(longer) && trace <= longer ensures !Last(longer).flags.connected {
        StaysSettled(longer, |trace| - 1, |longer| - 1);
      }
    }
  }

  /** Nothing keeps an undisturbed transport from starting: it is connected under the agreed id. */
  lemma Starts(agreed: U32) returns (trace: seq<System>)
    ensures IsRun(trace)
    ensures Last(trace) == System(Flags(false, true, false, agreed), agreed, Running, Nobody, NotCalled, 1, 0)
  {
    trace := [Initial(agreed)];
    trace := Extend(trace, Begin);
    trace := Extend(trace, CheckStop);
    assert Last(trace) == Initial(agreed).(starter := Assigning);
    trace := Extend(trace, Assign);
    trace := Extend(trace, StoreSession);
    assert Last(trace) == System(Flags(false, true, false, agreed), agreed, Numbered, Nobody, NotCalled, 1, 0);
    trace := Extend(trace, CheckAgain);
  }

  /** A lost connection of a transport that nobody stops is reported, once. */
  lemma LossIsReported(before: seq<System>) returns (trace: seq<System>)
    requires IsRun(before) && Last(before).flags.connected && Last(before).signaler == Nobody
    requires !Last(before).flags.stopRequested
    ensures IsRun(trace)
    ensures var s := Last(before);
            Last(trace) == s.(flags := s.flags.(connected := false, signaled := true), signaler := Finished,
                              callbacks := 1)
  {
    RunInvariant(before, |before| - 1);
    var s := Last(before);
    trace := Extend(before, Signal);
    trace := Extend(trace, SignalClear);
    assert Last(trace) == s.(flags := s.flags.(connected := false, signaled := true), signaler := Cleared);
    trace := Extend(trace, SignalCall);
  }

  /** Behind a stop request the loss is not reported. */
  predicate NotReported(s: System, callbacks: nat) {
    s.flags.stopRequested && s.callbacks == callbacks
  }

  lemma {:induction false} StoppedIsNotReported(trace: seq<System>, i: nat, j: nat)
    requires IsRun(trace) && i <= j < |trace| && trace[i].flags.stopRequested
    ensures NotReported(trace[j], trace[i].callbacks)
  {
    if i < j {
      StoppedIsNotReported(trace, i, j - 1);
      assert Moves(trace, j - 1);
      var e :| Enabled(trace[j - 1], e) && trace[j] == Apply(trace[j - 1], e);
    }
  }

  /** A handshake that finds the stop request behind its last message, or after all, never ends connected. */
  lemma StoppedStartFails(trace: seq<System>, m: nat)
    requires IsRun(trace) && m + 1 < |trace| && trace[m].flags.stopRequested
    requires trace[m].starter in {Handshaking, Numbered} && trace[m + 1].starter != trace[m].starter
    ensures trace[m + 1].starter in {Failed, StoppingItself}
  {
    assert Moves(trace, m);
    var e :| Enabled(trace[m], e) && trace[m + 1] == Apply(trace[m], e);
  }

  /** A worker whose pad does not open stops the transport, which ends disconnected and is not reported. */
  lemma GivesUp(before: seq<System>) returns (trace: seq<System>)
    requires IsRun(before) && Last(before).starter == Running
    ensures IsRun(trace)
    ensures var s := Last(before);
            Last(trace) == s.(flags := s.flags.(stopRequested := true, connected := false), starter := GaveUp)
  {
    var s := Last(before);
    trace := Extend(before, GiveUp);
    assert Last(trace) == s.(flags := s.flags.(stopRequested := true), starter := GivingUp);
    trace := Extend(trace, GaveUpClean);
  }

  /** A handshake may fail, and then the start has failed and nothing was ever connected. */
  lemma HandshakeMayFail(agreed: U32) returns (trace: seq<System>)
    ensures IsRun(trace)
    ensures Last(trace) == Initial(agreed).(starter := Failed)
  {
    trace := [Initial(agreed)];
    trace := Extend(trace, Begin);
    assert Last(trace) == Initial(agreed).(starter := Handshaking);
    trace := Extend(trace, HandshakeFails);
  }

  function StarterRank(s: Starter): nat {
    match s
    case Handshaking => 6
    case Assigning => 5
    case Assigned => 4
    case Numbered => 3
    case StoppingItself => 2
    case GivingUp => 2
    case _ => 0
  }

  function Rank(s: System): nat {
    StarterRank(s.starter)
    + match s.stopper
      case NotCalled => 3
      case Exchanged => 2
      case Cleaned => 1
      case Returned => 0
  }

  /** What brings Stop nearer to its end, in any state. */
  function GoesOn(s: System): Event {
    if s.stopper == NotCalled then StopExchange
    else if s.stopper == Exchanged then StopClean
    else match s.starter
         case Handshaking => CheckStop
         case Assigning => Assign
         case Assigned => StoreSession
         case Numbered => CheckAgain
         case StoppingItself => StopItself
         case GivingUp => GaveUpClean
         case _ => StopJoin
  }

  /** No deadlock: wherever the starter is, Stop can return, and the starter is then done. */
  lemma StopCanReturn(trace: seq<System>) returns (longer: seq<System>)
    requires IsRun(trace)
    ensures IsRun(longer) && trace <= longer && Last(longer).stopper == Returned
    decreases Rank(Last(trace))
  {
    longer := trace;
    if Last(trace).stopper != Returned {
      RunInvariant(trace, |trace| - 1);
      longer := Extend(trace, GoesOn(Last(trace)));
      longer := StopCanReturn(longer);
    }
  }

  /** Behind Stop's own cleaning a starter that has not failed takes the flag back itself. */
  lemma StarterCleansUp(before: seq<System>) returns (trace: seq<System>)
    requires IsRun(before) && Last(before).stopper == Cleaned && Last(before).starter == Assigning
    ensures IsRun(trace) && Last(trace).starter == Failed && !Last(trace).flags.connected
    ensures Last(trace).stopper == Cleaned && Last(trace).connects == 1
  {
    RunInvariant(before, |before| - 1);
    var s := Last(before);
    trace := Extend(before, Assign);
    trace := Extend(trace, StoreSession);
    assert Last(trace).starter == Numbered && Last(trace).flags.stopRequested && Last(trace).stopper == Cleaned;
    trace := Extend(trace, CheckAgain);
    assert Last(trace).starter == StoppingItself && Last(trace).connects == 1;
    trace := Extend(trace, StopItself);
  }

  // -------------------------------------------------------------------- object

  /** The steps that clear `connected_` under the mutex: `SetError`, `Stop`, `SignalDisconnected`. */
  predicate Clears(e: Event) {
    e == HandshakeFails || e == StopItself || e == GaveUpClean || e == SignalClear || e == StopClean
  }

  /**
   The flags of `UdpLanTransportBackend` and the accesses to them. `system` is the state of
   all threads: each method is one step of it and keeps the invariant of every run.
   */
  class UdpLanTransportBackend {
    var stopRequested: bool
    var connected: bool
    var disconnectedSignaled: bool
    var sessionId: U32
    ghost var system: System

    ghost predicate Valid()
      reads this
    {
      && Invariant(system)
      && system.flags == Flags(stopRequested, connected, disconnectedSignaled, sessionId)
    }

    constructor (ghost agreed: U32)
      ensures Valid() && system == Initial(agreed)
    {
      stopRequested, connected, disconnectedSignaled, sessionId := false, false, false, 0;
      system := Initial(agreed);
    }

    /** The check at the head of `StartClient` and `StartServer`. */
    method BeginStart() returns (ok: bool)
      requires Valid() && system.starter == NotStarted
      modifies this
      ensures Valid() && (ok <==> !old(stopRequested))
      ensures system == if ok then Apply(old(system), Begin) else old(system)
    {
      if stopRequested {
        return false;
      }
      StepKeepsInvariant(system, Begin);
      system, ok := Apply(system, Begin), true;
    }

    /** The stop check behind the handshake's last message; false if the handshake gives up. */
    method CheckStopRequested() returns (goOn: bool)
      requires Valid() && system.starter == Handshaking
      modifies this
      ensures Valid() && system == Apply(old(system), CheckStop)
      ensures goOn <==> system.starter == Assigning
    {
      StepKeepsInvariant(system, CheckStop);
      goOn := !stopRequested;
      system := Apply(system, CheckStop);
    }

    /** The last section of a handshake: the first time the flag rises, and the only one. */
    method MarkConnected()
      requires Valid() && system.starter == Assigning
      modifies this
      ensures Valid() && system == Apply(old(system), Assign)
      ensures old(system.connects) == 0 && system.connects == 1 && connected
    {
      StepKeepsInvariant(system, Assign);
      connected := true;
      system := Apply(system, Assign);
    }

    /** The store behind it, outside the mutex; the id is final from here on. */
    method StoreSessionId(id: U32)
      requires Valid() && system.starter == Assigned && id == system.agreed
      modifies this
      ensures Valid() && system == Apply(old(system), StoreSession)
      ensures old(sessionId) == 0 && sessionId == system.agreed && connected == old(connected)
    {
      StepKeepsInvariant(system, StoreSession);
      sessionId := id;
      system := Apply(system, StoreSession);
    }

    /** The locked section of `SetError`, `Stop` and `SignalDisconnected`, for the thread whose step `e` it is. */
    method ClearConnected(ghost e: Event)
      requires Valid() && Clears(e) && Enabled(system, e)
      modifies this
      ensures Valid() && system == Apply(old(system), e)
      ensures !connected && system.callbacks == old(system.callbacks)
    {
      StepKeepsInvariant(system, e);
      connected := false;
      system := Apply(system, e);
    }

    /** The head of `Stop`, by the session or by its worker; true if it has a stop frame to send. */
    method ExchangeStop(ghost e: Event) returns (sendStopFrame: bool)
      requires Valid() && (e == StopExchange || e == GiveUp) && Enabled(system, e)
      modifies this
      ensures Valid() && system == Apply(old(system), e)
      ensures sendStopFrame <==> !old(stopRequested) && old(connected)
    {
      StepKeepsInvariant(system, e);
      var alreadyStopping := stopRequested;
      stopRequested := true;
      sendStopFrame := !alreadyStopping && connected;
      system := Apply(system, e);
    }

    /** The head of `SignalDisconnected`; true for the one caller that goes on. */
    method ExchangeSignaled() returns (won: bool)
      requires Valid() && Enabled(system, Signal)
      modifies this
      ensures Valid() && system == Apply(old(system), Signal)
      ensures won <==> old(system.signaler) == Nobody
    {
      StepKeepsInvariant(system, Signal);
      won := !disconnectedSignaled;
      disconnectedSignaled := true;
      system := Apply(system, Signal);
    }

    /** The end of `SignalDisconnected`: true if the callback is to be called, the first time ever. */
    method MayCallBack() returns (call: bool)
      requires Valid() && system.signaler == Cleared
      modifies this
      ensures Valid() && system == Apply(old(system), SignalCall)
      ensures call <==> !old(stopRequested)
      ensures call ==> old(system.callbacks) == 0 && system.callbacks == 1
    {
      StepKeepsInvariant(system, SignalCall);
      call := !stopRequested;
      system := Apply(system, SignalCall);
    }
  }
}
