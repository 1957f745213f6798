/**
 What the steps of the loopback session lead to: Stop can return from every state, and each
 way for a session to end has the outcome its code names.
 */
module LoopbackOutcomes {
  import opened ControllerOutput
  import opened LoopbackSession
  import opened Protocol
  import opened Seqs
  import opened SessionObject

  // ------------------------------------------------------------- Stop always returns

  /** How far the owner is with the transport, and what that means for the transport and its worker. */
  predicate OwnerInvariant(s: System) {
    && (s.stopRequested <==> s.owner.Joining?)
    && (s.owner.Joining? ==> !s.accepting && s.worker != NoWorker)
    && (!s.owner.Joining? ==> (s.accepting <==> s.worker != NoWorker) && s.worker != Done)
    && (s.owner == StartingTransport ==> !s.accepting)
    && (s.owner == Notifying ==> !s.accepting)
    && (s.session.state == Running && s.owner == Free ==> s.accepting)
    && (s.session.state == Running ==> s.owner != ClosingTransport(false) && s.owner != Joining(false))
    && (s.owner == ClosingTransport(true) ==> s.accepting)
    && (s.session.state == Created ==> !s.accepting && s.owner == Free)
    && (s.session.state == Stopped && s.owner == Free ==> !s.accepting)
    && (s.session.state == Stopped ==> s.owner in {Free, ClosingTransport(false), Joining(false)})
  }

  lemma OwnerKeepsOwner(s: System, e: Event)
    requires OwnerInvariant(s) && Enabled(s, e)
    requires e.Start? || e == StartTransport || e == Stop || e == SimulateDisconnect || e == Shutdown
             || e == Join || e == NotifyDisconnect
    ensures OwnerInvariant(Apply(s, e))
  {
  }

  lemma OthersKeepOwner(s: System, e: Event)
    requires OwnerInvariant(s) && Enabled(s, e)
    requires e.Submit? || e == Send || e == GiveUp || e == Take || e.Deliver? || e == EndWorker || e == Watchdog
    ensures OwnerInvariant(Apply(s, e))
  {
  }

  lemma StepKeepsOwner(s: System, e: Event)
    requires OwnerInvariant(s) && Enabled(s, e)
    ensures OwnerInvariant(Apply(s, e))
  {
    if e.Submit? || e == Send || e == GiveUp || e == Take || e.Deliver? || e == EndWorker || e == Watchdog {
      OthersKeepOwner(s, e);
    } else {
      OwnerKeepsOwner(s, e);
    }
  }

  lemma {:induction false} RunOwner(trace: seq<System>, i: nat)
    requires IsRun(trace) && i < |trace|
    ensures OwnerInvariant(trace[i])
  {
    if i > 0 {
      RunOwner(trace, i - 1);
      assert Moves(trace, i - 1);
      var e :| Enabled(trace[i - 1], e) && trace[i] == Apply(trace[i - 1], e);
      StepKeepsOwner(trace[i - 1], e);
    }
  }

  /** Nothing is left to stop. */
  predicate IsDown(s: System) {
    && s.owner == Free && !s.accepting && s.worker == NoWorker
    && s.session.state != Created && s.session.state != Running
  }

  function Rank(s: System): nat {
    match s.owner
    case StartingTransport => 20
    case Free => if IsDown(s) then 0 else 15
    case ClosingTransport(_) => 10
    case Joining(_) => 5 + (if s.worker.Holding? then 2 else if s.worker == Waiting then 1 else 0)
    case Notifying => 2
  }

  /** What brings the owner nearer to the end of a Stop, in any state. */
  function GoesOn(s: System, now: nat, submitted: bool): Event {
    match s.owner
    case StartingTransport => StartTransport
    case Free => Stop
    case ClosingTransport(_) => Shutdown
    case Joining(_) =>
      if s.worker.Holding? then Deliver(now, submitted) else if s.worker == Waiting then EndWorker else Join
    case Notifying => NotifyDisconnect
  }

  lemma GoesOnStep(s: System, now: nat, submitted: bool)
    requires OwnerInvariant(s) && !IsDown(s)
    ensures Enabled(s, GoesOn(s, now, submitted)) && Rank(Apply(s, GoesOn(s, now, submitted))) < Rank(s)
  {
  }

  /** No deadlock: from every state of every run the session can be stopped and its worker joined. */
  lemma StopCanReturn(trace: seq<System>, now: nat, submitted: bool) returns (longer: seq<System>)
    requires IsRun(trace)
    ensures IsRun(longer) && trace <= longer && IsDown(Last(longer))
    decreases Rank(Last(trace))
  {
    longer := trace;
    if !IsDown(Last(trace)) {
      RunOwner(trace, |trace| - 1);
      GoesOnStep(Last(trace), now, submitted);
      longer := Extend(trace, GoesOn(Last(trace), now, submitted));
      longer := StopCanReturn(longer, now, submitted);
    }
  }

  // ---------------------------------------------------------------- the other ends

  /** A virtual pad that cannot be created faults the session: nothing runs, and nothing was shown. */
  lemma FailedStartFaults(epoch: nat) returns (trace: seq<System>)
    ensures IsRun(trace) && Last(trace) == Initial(epoch).(session := NewSession(epoch).(state := Faulted))
  {
    trace := [Initial(epoch)];
    trace := Extend(trace, Start(false));
  }

  /** The session that is told of a refused frame ends, released; SubmitState then returns its failure. */
  lemma RefusalEndsTheSession(trace: seq<System>, i: nat)
    requires IsRun(trace) && i < |trace| && trace[i].submitter.Refused?
    ensures Enabled(trace[i], GiveUp)
    ensures var s, t := trace[i], Apply(trace[i], GiveUp);
            && t.submitter == Ready && t.failed && Shown(t.session.out) == NEUTRAL && !t.session.out.armed
            && t.session.state == if s.session.state == Running then Disconnected else s.session.state
  {
    RunInvariant(trace, i);
    StepKeepsInvariant(trace[i], GiveUp);
  }

  /** The watchdog may release a report at any time, and the session goes on. */
  lemma WatchdogReleases(trace: seq<System>, i: nat)
    requires IsRun(trace) && i < |trace| && trace[i].session.out.armed
    ensures Enabled(trace[i], Watchdog)
    ensures var s, t := trace[i], Apply(trace[i], Watchdog);
            && Shown(t.session.out) == NEUTRAL && !t.session.out.armed && t.session.state == Running
            && t.history == s.history.(watchdog := s.history.watchdog + 1)
  {
    RunInvariant(trace, i);
  }

  /** A simulated disconnect of a running session ends it as disconnected, with the transport down. */
  lemma SimulatedDisconnectEnds(before: seq<System>) returns (trace: seq<System>)
    requires IsRun(before) && Last(before).session.state == Running && Last(before).owner == Free
    requires Last(before).worker == Waiting
    ensures IsRun(trace) && IsDown(Last(trace)) && Last(trace).session == OnDisconnected(Last(before).session)
  {
    RunOwner(before, |before| - 1);
    var s := Last(before);
    trace := Extend(before, SimulateDisconnect);
    trace := Extend(trace, Shutdown);
    assert Last(trace) == s.(accepting := false, stopRequested := true, pending := [], owner := Joining(true));
    trace := Extend(trace, EndWorker);
    trace := Extend(trace, Join);
    assert Last(trace).owner == Notifying && Last(trace).session == s.session;
    trace := Extend(trace, NotifyDisconnect);
  }
}
