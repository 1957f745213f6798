/**
 The LAN server session as a timed step system: the transport's callbacks, the owner's
 Stop, and the worker thread that waits on the watchdog's condition variable.
 */
module LanServer {
  import opened ControllerOutput
  import opened DeadlineWait
  import opened LanControllerServer
  import opened Options
  import opened Protocol
  import opened Seqs

  // ------------------------------------------------------------ the step system

  /**
   `due` is the instant by which the worker will have taken its next turn: the scheduler
   runs a runnable or notified or timed-out worker at most `latency` later.
   */
  datatype System = System(
    server: Server, worker: Thread, due: Option<nat>, now: nat,
    timeout: nat, latency: nat, history: History)

  datatype Event =
    | Tick
    | Start
    | CreateFailed
    | TransportUp
    | TransportDown
    | Frame(frame: StateFrame, submitted: bool)
    | Disconnect
    | Stop
    | Turn(timedOut: bool)

  function Initial(timeout: nat, latency: nat, start: nat): System {
    System(NewServer(start), NotStarted, None, start, timeout, latency, NO_HISTORY)
  }

  predicate TransportRunning(s: System) {
    s.worker.Entering? || s.worker.AwaitingInput? || s.worker.AwaitingDeadline? || s.worker.Exited?
  }

  predicate Enabled(s: System, e: Event) {
    match e
    case Tick => s.due.Some? ==> s.now < s.due.value
    case Start => s.server.state == Created
    case CreateFailed => s.server.state == Created
    case TransportUp => s.worker == Starting
    case TransportDown => s.worker == Starting
    case Frame(_, _) => TransportRunning(s)
    case Disconnect => TransportRunning(s)
    case Stop => true
    case Turn(timedOut) => MayTurn(s.worker, s.now, timedOut)
  }

  /** `condition_.notify_all()`. */
  function Notify(s: System): System {
    s.(worker := Notified(s.worker), due := DueNotified(s.worker, s.due, s.now, s.latency))
  }

  function Apply(s: System, e: Event): System
    requires Enabled(s, e)
  {
    match e
    case Tick => s.(now := s.now + 1)
    case Start => s.(server := BeginRunning(s.server), worker := Starting)
    case CreateFailed => s.(server := s.server.(state := Faulted))
    case TransportUp => s.(worker := Entering, due := Some(s.now + s.latency))
    case TransportDown =>
      var server := TransportFailed(s.server);
      s.(server := server, worker := Exited, history := Terminal(s, server))
    case Frame(f, submitted) =>
      var server := OnState(s.server, f, s.now, submitted);
      if server == s.server then s
      else if !submitted then Notify(s.(server := server, history := Terminal(s, server)))
      else Notify(s.(server := server, history := s.history.(accepted := s.history.accepted + [Arrival(f, s.now)])))
    case Disconnect =>
      var server := OnTransportDisconnected(s.server);
      if server == s.server then s else Notify(s.(server := server, history := Terminal(s, server)))
    case Stop =>
      var server := StopSection(s.server);
      Notify(s.(server := server, history := Terminal(s, server)))
    case Turn(timedOut) =>
      var (server, worker) := TurnSection(s.server, s.worker, s.now, s.timeout, timedOut);
      var expired := if server.out.neutralizations > s.server.out.neutralizations then 1 else 0;
      s.(server := server, worker := worker, due := DueAfterTurn(worker, s.now, s.latency),
         history := s.history.(watchdog := s.history.watchdog + expired))
  }

  /** A section other than the watchdog's that neutralised counts as terminal. */
  function Terminal(s: System, server: Server): History {
    if server.out.neutralizations > s.server.out.neutralizations
    then s.history.(terminal := s.history.terminal + 1) else s.history
  }

  // --------------------------------------------------------------------- runs

  ghost predicate Next(s: System, t: System) {
    exists e :: Enabled(s, e) && t == Apply(s, e)
  }

  ghost predicate Moves(trace: seq<System>, i: nat)
    requires i + 1 < |trace|
  {
    Next(trace[i], trace[i + 1])
  }

  /** A run: the states a session with these parameters passes through. */
  ghost predicate IsRun(trace: seq<System>, timeout: nat, latency: nat) {
    && trace != []
    && trace[0] == Initial(timeout, latency, trace[0].now)
    && forall i: nat {:trigger Moves(trace, i)} :: i + 1 < |trace| ==> Moves(trace, i)
  }

  lemma Extend(trace: seq<System>, e: Event, timeout: nat, latency: nat) returns (longer: seq<System>)
    requires IsRun(trace, timeout, latency) && Enabled(Last(trace), e)
    ensures IsRun(longer, timeout, latency) && trace <= longer && Last(longer) == Apply(Last(trace), e)
  {
    longer := trace + [Apply(Last(trace), e)];
    forall i: nat | i + 1 < |longer| ensures Moves(longer, i) {
      if i + 1 < |trace| {
        assert Moves(trace, i);
        assert longer[i] == trace[i] && longer[i + 1] == trace[i + 1];
      } else {
        assert Enabled(longer[i], e) && longer[i + 1] == Apply(longer[i], e);
      }
    }
  }

  ghost predicate AccountInvariant(s: System) {
    && Accounted(s.server.out, s.history)
    && s.history.terminal == (if Over(s.server) && s.worker != NotStarted then 1 else 0)
    && (s.server.stopRequested <==> s.server.state == Stopped)
    && (s.server.state != Running ==> !s.server.out.armed)
    && (s.worker == NotStarted ==> s.history.accepted == [])
    && (s.server.state == Created ==> s.worker == NotStarted)
    && (s.server.state == Running ==> s.worker != NotStarted)
    && (s.worker == Starting ==> !s.server.out.armed)
    && (s.worker == Exited ==> Over(s.server))
    && (s.server.state == Running && s.worker.AwaitingDeadline? ==> s.server.out.armed)
  }

  predicate TimingInvariant(s: System) {
    && Timely(s.server.out, s.worker, s.due, s.now, s.timeout, s.latency, 0)
    && (s.due.Some? ==> CanTurn(s.worker))
  }

  lemma AccountFrame(s: System, f: StateFrame, submitted: bool)
    requires AccountInvariant(s) && Enabled(s, Frame(f, submitted))
    ensures AccountInvariant(Apply(s, Frame(f, submitted)))
  {
    if Takes(s.server, f) {
      if submitted {
        AcceptAccounted(s.server.out, s.history, f, s.now);
      } else {
        NeutralizeAccounted(s.server.out, s.history, s.history.(terminal := 1));
      }
    }
  }

  lemma AccountTurn(s: System, timedOut: bool)
    requires AccountInvariant(s) && Enabled(s, Turn(timedOut))
    ensures AccountInvariant(Apply(s, Turn(timedOut)))
  {
    if s.server.out.armed {
      NeutralizeAccounted(s.server.out, s.history, s.history.(watchdog := s.history.watchdog + 1));
    }
  }

  lemma AccountStep(s: System, e: Event)
    requires AccountInvariant(s) && Enabled(s, e)
    ensures AccountInvariant(Apply(s, e))
  {
    match e
    case Frame(f, submitted) => AccountFrame(s, f, submitted);
    case Turn(timedOut) => AccountTurn(s, timedOut);
    case Tick =>
    case Start =>
    case CreateFailed =>
    case TransportUp =>
    case _ => AccountEnding(s, e);
  }

  lemma AccountEnding(s: System, e: Event)
    requires AccountInvariant(s) && Enabled(s, e) && (e == TransportDown || e == Disconnect || e == Stop)
    ensures AccountInvariant(Apply(s, e))
  {
    NeutralizeAccounted(s.server.out, s.history, s.history.(terminal := s.history.terminal + 1));
  }

  lemma TimingTurn(s: System, timedOut: bool)
    requires AccountInvariant(s) && TimingInvariant(s) && Enabled(s, Turn(timedOut))
    ensures TimingInvariant(Apply(s, Turn(timedOut)))
  {
    TurnIsTimely(LoopOver(s.server), s.server.out, s.worker, s.due, s.now, timedOut, s.timeout, s.latency, 0);
  }

  lemma TimingStep(s: System, e: Event)
    requires AccountInvariant(s) && TimingInvariant(s) && Enabled(s, e)
    ensures TimingInvariant(Apply(s, e))
  {
    if e.Turn? {
      TimingTurn(s, e.timedOut);
    }
  }

  lemma FrameOutcome(s: System, f: StateFrame, submitted: bool)
    requires Enabled(s, Frame(f, submitted))
    ensures var t := Apply(s, Frame(f, submitted));
            && (t.history.accepted == s.history.accepted
                || t.history.accepted == s.history.accepted + [Arrival(f, s.now)])
            && (t.server.out.latestSequence == s.server.out.latestSequence || t.server.out.latestSequence == f.sequence)
  {
  }

  lemma OtherOutcome(s: System, e: Event)
    requires Enabled(s, e) && !e.Frame?
    ensures var t := Apply(s, e);
            && t.history.accepted == s.history.accepted
            && t.server.out.latestSequence == s.server.out.latestSequence
  {
  }

  lemma FreshFrameIsTaken(s: System, f: StateFrame)
    requires Enabled(s, Frame(f, true)) && s.server.state == Running && !s.server.stopRequested
    requires f.sequence > s.server.out.latestSequence
    ensures var t := Apply(s, Frame(f, true));
            && t.history.accepted == s.history.accepted + [Arrival(f, s.now)]
            && t.server.state == Running && t.server.out.armed
            && Shown(t.server.out) == f.state && t.server.out.lastTimestampUs == f.timestampUs
  {
  }

  ghost predicate Invariant(s: System, timeout: nat, latency: nat) {
    AccountInvariant(s) && TimingInvariant(s) && s.timeout == timeout && s.latency == latency
  }

  lemma StepKeepsInvariant(s: System, e: Event, timeout: nat, latency: nat)
    requires Invariant(s, timeout, latency) && Enabled(s, e)
    ensures Invariant(Apply(s, e), timeout, latency)
  {
    AccountStep(s, e);
    TimingStep(s, e);
  }

  lemma {:induction false} RunInvariant(trace: seq<System>, i: nat, timeout: nat, latency: nat)
    requires IsRun(trace, timeout, latency) && i < |trace|
    ensures Invariant(trace[i], timeout, latency)
  {
    if i > 0 {
      RunInvariant(trace, i - 1, timeout, latency);
      assert Moves(trace, i - 1);
      var e :| Enabled(trace[i - 1], e) && trace[i] == Apply(trace[i - 1], e);
      StepKeepsInvariant(trace[i - 1], e, timeout, latency);
    }
  }

  /**
   Timed safe release. At every instant of every run a report other than neutral means: the
   session runs, the watchdog is armed, the report is the last accepted frame, and that
   frame was accepted at most the timeout ago, give or take the scheduling latency.
   */
  lemma TimedSafeRelease(trace: seq<System>, i: nat, timeout: nat, latency: nat)
    requires IsRun(trace, timeout, latency) && i < |trace|
    ensures var s := trace[i];
            Shown(s.server.out) != NEUTRAL ==>
              && s.server.state == Running && s.server.out.armed
              && s.history.accepted != []
              && Shown(s.server.out) == Last(s.history.accepted).frame.state
              && Last(s.history.accepted).at <= s.now
              && s.now <= Last(s.history.accepted).at + Max(timeout, latency) + latency
  {
    RunInvariant(trace, i, timeout, latency);
  }

  /** With a worker that wakes exactly at its deadline the bound is the timeout itself. */
  lemma PunctualRelease(trace: seq<System>, i: nat, timeout: nat)
    requires IsRun(trace, timeout, 0) && i < |trace|
    ensures Shown(trace[i].server.out) != NEUTRAL ==>
              trace[i].history.accepted != [] && trace[i].now - Last(trace[i].history.accepted).at <= timeout
  {
    TimedSafeRelease(trace, i, timeout, 0);
  }

  /**
   Silence is released once per accepted frame at most, and a session that was started is
   neutralised exactly once when it ends.
   */
  lemma NeutralizationAccounting(trace: seq<System>, i: nat, timeout: nat, latency: nat)
    requires IsRun(trace, timeout, latency) && i < |trace|
    ensures var s := trace[i];
            var o := s.server.out;
            && s.history.watchdog + (if o.armed then 1 else 0) <= o.acceptedCount == |s.history.accepted|
            && s.history.terminal == (if Over(s.server) && s.worker != NotStarted then 1 else 0)
            && o.neutralizations == s.history.watchdog + s.history.terminal <= o.acceptedCount + 1
            && |o.pad| == o.acceptedCount + o.neutralizations
            && (!o.armed ==> Shown(o) == NEUTRAL == o.current)
            && (s.server.state != Running ==> !o.armed)
            && InOrder(s.history.accepted)
  {
    RunInvariant(trace, i, timeout, latency);
  }

  /** The state a step leaves a running session in. */
  function EndState(s: System, e: Event): SessionState {
    match e
    case Stop => Stopped
    case Disconnect => Disconnected
    case TransportDown => Faulted
    case Frame(f, submitted) => if submitted || Stale(s.server.out, f) then Running else Faulted
    case _ => Running
  }

  lemma EndOfStep(s: System, e: Event)
    requires AccountInvariant(s) && s.server.state == Running && Enabled(s, e)
    ensures Apply(s, e).server.state == EndState(s, e)
  {
  }

  /** What ended a running session can be read off its state, whichever step it was. */
  lemma EndingsTellTheCause(trace: seq<System>, i: nat, e: Event, timeout: nat, latency: nat)
    requires IsRun(trace, timeout, latency) && i < |trace| && trace[i].server.state == Running && Enabled(trace[i], e)
    ensures var s, state := trace[i], Apply(trace[i], e).server.state;
            && (state == Stopped <==> e == Stop)
            && (state == Disconnected <==> e == Disconnect)
            && (state == Faulted <==> e == TransportDown || (e.Frame? && !e.submitted && !Stale(s.server.out, e.frame)))
            && state != Created
  {
    RunInvariant(trace, i, timeout, latency);
    EndOfStep(trace[i], e);
  }

  /** A waiting worker was notified: its turn comes within the latency. */
  predicate Woken(s: System) {
    s.worker == AwaitingInput || s.worker.AwaitingDeadline? ==>
      s.due.Some? && s.due.value <= s.now + s.latency && (s.worker.AwaitingDeadline? ==> s.worker.notified)
  }

  /** Stop stops every session, a second one changes nothing, and a waiting worker learns of it. */
  lemma StopStops(trace: seq<System>, i: nat, timeout: nat, latency: nat)
    requires IsRun(trace, timeout, latency) && i < |trace|
    ensures Enabled(trace[i], Stop)
    ensures var s, t := trace[i], Apply(trace[i], Stop);
            && t.server.state == Stopped && t.server.stopRequested && t.worker.NotStarted? == s.worker.NotStarted?
            && t.server.out == (if s.server.state == Running then Neutralize(s.server.out) else s.server.out)
            && Apply(t, Stop).server == t.server && Apply(t, Stop).history == t.history
            && Woken(t)
  {
    RunInvariant(trace, i, timeout, latency);
  }

  /** So does a disconnect that the transport reports of a running session. */
  lemma DisconnectReleases(trace: seq<System>, i: nat, timeout: nat, latency: nat)
    requires IsRun(trace, timeout, latency) && i < |trace|
    requires TransportRunning(trace[i]) && trace[i].server.state == Running
    ensures Enabled(trace[i], Disconnect)
    ensures var s, t := trace[i], Apply(trace[i], Disconnect);
            && t.server == s.server.(state := Disconnected, out := Neutralize(s.server.out))
            && Shown(t.server.out) == NEUTRAL && Woken(t)
  {
    RunInvariant(trace, i, timeout, latency);
  }

  /** A disconnect reported of a session that does not run any more changes nothing at all. */
  lemma LateDisconnectChangesNothing(trace: seq<System>, i: nat, timeout: nat, latency: nat)
    requires IsRun(trace, timeout, latency) && i < |trace|
    requires TransportRunning(trace[i]) && trace[i].server.state != Running
    ensures Enabled(trace[i], Disconnect) && Apply(trace[i], Disconnect) == trace[i]
  {
  }

  /** A stale frame, or one for a session that does not run, changes nothing at all. */
  lemma StaleFrameChangesNothing(trace: seq<System>, i: nat, f: StateFrame, submitted: bool, timeout: nat, latency: nat)
    requires IsRun(trace, timeout, latency) && i < |trace| && Enabled(trace[i], Frame(f, submitted))
    requires trace[i].server.state != Running
             || exists a :: a in trace[i].history.accepted && f.sequence <= a.frame.sequence
    ensures Apply(trace[i], Frame(f, submitted)) == trace[i]
  {
    RunInvariant(trace, i, timeout, latency);
    var accepted := trace[i].history.accepted;
    if trace[i].server.state == Running {
      var a :| a in accepted && f.sequence <= a.frame.sequence;
      var k :| 0 <= k < |accepted| && accepted[k] == a;
      assert k == |accepted| - 1 || accepted[k].frame.sequence < Last(accepted).frame.sequence;
    }
  }

  /** A frame the virtual pad refuses faults the session, is not accepted, and the pad is released. */
  lemma RefusedFrameFaults(trace: seq<System>, i: nat, f: StateFrame, timeout: nat, latency: nat)
    requires IsRun(trace, timeout, latency) && i < |trace| && Enabled(trace[i], Frame(f, false))
    requires trace[i].server.state == Running && !Stale(trace[i].server.out, f)
    ensures var s, t := trace[i], Apply(trace[i], Frame(f, false));
            && t.server == s.server.(state := Faulted, out := Neutralize(s.server.out))
            && t.history.accepted == s.history.accepted && Shown(t.server.out) == NEUTRAL && Woken(t)
  {
    RunInvariant(trace, i, timeout, latency);
  }

  /** The end of a worker whose session is over: no transport to start, or its next turn. */
  lemma WorkerLeaves(trace: seq<System>, timeout: nat, latency: nat) returns (longer: seq<System>)
    requires IsRun(trace, timeout, latency) && Over(Last(trace).server) && Last(trace).worker != NotStarted
    ensures IsRun(longer, timeout, latency) && trace <= longer && Last(longer).worker == Exited
    ensures Last(longer).server == Last(trace).server && Last(longer).now == Last(trace).now
  {
    RunInvariant(trace, |trace| - 1, timeout, latency);
    longer := trace;
    if Last(trace).worker == Starting {
      longer := Extend(trace, TransportDown, timeout, latency);
    } else if Last(trace).worker != Exited {
      longer := Extend(trace, Turn(Last(trace).worker.AwaitingDeadline?), timeout, latency);
    }
  }

  /** No deadlock: from every state of every run the session can be stopped and its worker joined. */
  lemma StopCanReturn(trace: seq<System>, timeout: nat, latency: nat) returns (longer: seq<System>)
    requires IsRun(trace, timeout, latency)
    ensures IsRun(longer, timeout, latency) && trace <= longer && Last(longer).server.state == Stopped
    ensures Last(longer).worker == NotStarted || Last(longer).worker == Exited
    ensures Last(longer).now == Last(trace).now
  {
    longer := Extend(trace, Stop, timeout, latency);
    if Last(longer).worker != NotStarted {
      longer := WorkerLeaves(longer, timeout, latency);
    }
  }

  /** A virtual pad that cannot be created, or a transport that does not start, faults the session. */
  lemma FailedStartFaults(start: nat, timeout: nat, latency: nat) returns (pad: seq<System>, transport: seq<System>)
    ensures IsRun(pad, timeout, latency) && IsRun(transport, timeout, latency)
    ensures Last(pad).server.state == Faulted && Last(pad).worker == NotStarted && Last(pad).server.out.pad == []
    ensures Last(transport).server.state == Faulted && Last(transport).worker == Exited
    ensures Last(transport).server.out.pad == [NEUTRAL]
  {
    pad := [Initial(timeout, latency, start)];
    transport := pad;
    pad := Extend(pad, CreateFailed, timeout, latency);
    transport := Extend(transport, Start, timeout, latency);
    transport := Extend(transport, TransportDown, timeout, latency);
  }

  /** How many turns may be due at once: one, and an expired wait behind it. */
  function Urgency(s: System): nat {
    if s.due != Some(s.now) then 0
    else if s.worker.AwaitingDeadline? && s.worker.deadline <= s.now then 1
    else 2
  }

  lemma TakeDueTurn(trace: seq<System>, timeout: nat, latency: nat) returns (longer: seq<System>)
    requires IsRun(trace, timeout, latency) && Urgency(Last(trace)) > 0
    ensures IsRun(longer, timeout, latency) && trace <= longer && Last(longer).now == Last(trace).now
    ensures Urgency(Last(longer)) < Urgency(Last(trace))
  {
    RunInvariant(trace, |trace| - 1, timeout, latency);
    longer := Extend(trace, Turn(Last(trace).worker.AwaitingDeadline?), timeout, latency);
    RunInvariant(longer, |longer| - 1, timeout, latency);
  }

  /** No state of a run stops the clock: the worker can always take the turns that are due. */
  lemma TimePasses(trace: seq<System>, timeout: nat, latency: nat) returns (longer: seq<System>)
    requires IsRun(trace, timeout, latency)
    ensures IsRun(longer, timeout, latency) && trace <= longer && Last(longer).now == Last(trace).now + 1
    decreases Urgency(Last(trace))
  {
    RunInvariant(trace, |trace| - 1, timeout, latency);
    if Urgency(Last(trace)) > 0 {
      longer := TakeDueTurn(trace, timeout, latency);
      longer := TimePasses(longer, timeout, latency);
    } else {
      longer := Extend(trace, Tick, timeout, latency);
    }
  }

  /** A session that is over stays over: it shows neutral and takes nothing more. */
  lemma {:induction false} OverIsForEver(trace: seq<System>, i: nat, j: nat, timeout: nat, latency: nat)
    requires IsRun(trace, timeout, latency) && i <= j < |trace|
    requires Over(trace[i].server)
    ensures Over(trace[j].server) && trace[j].server.out == trace[i].server.out
    ensures trace[j].history == trace[i].history
    ensures Shown(trace[j].server.out) == NEUTRAL
  {
    RunInvariant(trace, j, timeout, latency);
    if i < j {
      OverIsForEver(trace, i, j - 1, timeout, latency);
      MoveOver(trace, j - 1, timeout, latency);
    }
  }

  lemma MoveOver(trace: seq<System>, i: nat, timeout: nat, latency: nat)
    requires IsRun(trace, timeout, latency) && i + 1 < |trace| && Over(trace[i].server)
    ensures Over(trace[i + 1].server) && trace[i + 1].server.out == trace[i].server.out
    ensures trace[i + 1].history == trace[i].history
  {
    RunInvariant(trace, i, timeout, latency);
    assert Moves(trace, i);
    var e :| Enabled(trace[i], e) && trace[i + 1] == Apply(trace[i], e);
    StepOver(trace[i], e);
  }

  lemma StepOver(s: System, e: Event)
    requires AccountInvariant(s) && Over(s.server) && Enabled(s, e)
    ensures var t := Apply(s, e);
            Over(t.server) && t.server.out == s.server.out && t.history == s.history
  {
  }

  /**
   Exactly when a fresh frame can be released early: while its own deadline lies ahead, the
   worker's next turn may release it if and only if the worker waits on a deadline that has
   passed.
   */
  lemma EarlyReleaseIffDeadlinePassed(trace: seq<System>, i: nat, timeout: nat, latency: nat)
    requires IsRun(trace, timeout, latency) && i < |trace|
    requires var o := trace[i].server.out; o.armed && trace[i].now < o.lastArrival + timeout
    ensures var s := trace[i];
            (exists b :: Enabled(s, Turn(b)) && !Apply(s, Turn(b)).server.out.armed)
            <==> s.worker.AwaitingDeadline? && s.worker.deadline <= s.now
  {
    RunInvariant(trace, i, timeout, latency);
    var s := trace[i];
    if s.worker.AwaitingDeadline? && s.worker.deadline <= s.now {
      assert Enabled(s, Turn(true)) && !Apply(s, Turn(true)).server.out.armed;
    }
  }

  /** The worker waits on a deadline older than the frame's, and may find it passed before its turn is due. */
  predicate MayReleaseEarly(s: System) {
    && s.worker.AwaitingDeadline? && s.due.Some?
    && s.worker.deadline <= s.due.value
    && Max(s.now, s.worker.deadline) < s.server.out.lastArrival + s.timeout
  }

  /** Since state `s` the watchdog released its last accepted frame before that frame's own deadline. */
  predicate ReleasedEarly(s: System, t: System) {
    && t.history.accepted == s.history.accepted && t.history.watchdog > s.history.watchdog
    && t.now < s.server.out.lastArrival + s.timeout
  }

  /** Nothing is released before `limit` unless a frame beyond the first `n` is accepted. */
  predicate Unhurried(s: System, n: nat, released: nat, limit: nat) {
    || |s.history.accepted| > n
    || s.now >= limit
    || (&& s.history.watchdog == released
        && (s.server.out.armed ==> s.server.out.lastArrival + s.timeout == limit && !MayReleaseEarly(s)))
  }

  lemma TurnUnhurried(s: System, timedOut: bool, n: nat, released: nat, limit: nat)
    requires AccountInvariant(s) && TimingInvariant(s) && Unhurried(s, n, released, limit)
    requires Enabled(s, Turn(timedOut))
    ensures Unhurried(Apply(s, Turn(timedOut)), n, released, limit)
  {
  }

  lemma StepUnhurried(s: System, e: Event, n: nat, released: nat, limit: nat)
    requires AccountInvariant(s) && TimingInvariant(s) && Unhurried(s, n, released, limit) && Enabled(s, e)
    requires |s.history.accepted| >= n
    ensures Unhurried(Apply(s, e), n, released, limit) && |Apply(s, e).history.accepted| >= n
  {
    if e.Turn? {
      TurnUnhurried(s, e.timedOut, n, released, limit);
    }
  }

  lemma {:induction false} StaysUnhurried(
    trace: seq<System>, i: nat, j: nat, released: nat, limit: nat, timeout: nat, latency: nat)
    requires IsRun(trace, timeout, latency) && i <= j < |trace|
    requires Unhurried(trace[i], |trace[i].history.accepted|, released, limit)
    ensures var n := |trace[i].history.accepted|;
            |trace[j].history.accepted| >= n && Unhurried(trace[j], n, released, limit)
  {
    if i < j {
      StaysUnhurried(trace, i, j - 1, released, limit, timeout, latency);
      RunInvariant(trace, j - 1, timeout, latency);
      assert Moves(trace, j - 1);
      var e :| Enabled(trace[j - 1], e) && trace[j] == Apply(trace[j - 1], e);
      StepUnhurried(trace[j - 1], e, |trace[i].history.accepted|, released, limit);
    }
  }

  lemma ReleaseEarly(trace: seq<System>, timeout: nat, latency: nat) returns (longer: seq<System>)
    requires IsRun(trace, timeout, latency)
    requires Last(trace).server.out.armed && MayReleaseEarly(Last(trace))
    ensures IsRun(longer, timeout, latency) && trace <= longer && ReleasedEarly(Last(trace), Last(longer))
  {
    RunInvariant(trace, |trace| - 1, timeout, latency);
    longer := trace;
    if Last(trace).now < Last(trace).worker.deadline {
      longer := UntilDeadline(trace, timeout, latency);
    }
    longer := Extend(longer, Turn(true), timeout, latency);
  }

  /**
   The same over runs: from a state in which the last accepted frame is shown and its deadline
   lies ahead, some continuation releases it before that deadline if and only if the worker
   waits on an older deadline that passes before the worker's turn is due.
   */
  lemma EarlyReleaseIff(trace: seq<System>, timeout: nat, latency: nat)
    requires IsRun(trace, timeout, latency) && Last(trace).server.out.armed
    requires Last(trace).now < Last(trace).server.out.lastArrival + timeout
    ensures (exists longer :: IsRun(longer, timeout, latency) && trace <= longer
                              && ReleasedEarly(Last(trace), Last(longer)))
            <==> MayReleaseEarly(Last(trace))
  {
    var s, i := Last(trace), |trace| - 1;
    RunInvariant(trace, i, timeout, latency);
    if MayReleaseEarly(s) {
      var longer := ReleaseEarly(trace, timeout, latency);
    } else {
      forall longer | IsRun(longer, timeout, latency) && trace <= longer
        ensures !ReleasedEarly(s, Last(longer))
      {
        assert longer[i] == s;
        StaysUnhurried(longer, i, |longer| - 1, s.history.watchdog, s.server.out.lastArrival + timeout,
                       timeout, latency);
      }
    }
  }

  /** Such a worker was notified: the frame came during its wait. */
  lemma EarlyReleaseNeedsARace(trace: seq<System>, i: nat, timedOut: bool, timeout: nat, latency: nat)
    requires IsRun(trace, timeout, latency) && i < |trace| && Enabled(trace[i], Turn(timedOut))
    requires trace[i].server.out.armed && !Apply(trace[i], Turn(timedOut)).server.out.armed
    ensures trace[i].worker.AwaitingDeadline? && trace[i].history.accepted != []
    ensures trace[i].now >= Last(trace[i].history.accepted).at + timeout || trace[i].worker.notified
  {
    RunInvariant(trace, i, timeout, latency);
  }

  /**
   It happens for any two frames, any positive timeout and any latency. The worker may have
   timed out on the deadline of an older frame and get the mutex only after a fresh frame,
   which it then releases at once.
   */
  lemma FreshFrameMayBeReleasedEarly(f: StateFrame, g: StateFrame, start: nat, timeout: nat, latency: nat)
    returns (trace: seq<System>)
    requires f.sequence < g.sequence && timeout > 0
    ensures IsRun(trace, timeout, latency)
    ensures var s := Last(trace);
            && s.server.state == Running && Shown(s.server.out) == NEUTRAL
            && s.history.accepted == [Arrival(f, start), Arrival(g, s.now)]
  {
    trace := FirstFrameOnDeadline(f, start, timeout, latency);
    trace := UntilDeadline(trace, timeout, latency);
    trace := Extend(trace, Frame(g, true), timeout, latency);
    assert Last(trace).worker == AwaitingDeadline(start + timeout, true) && Last(trace).now == start + timeout;
    trace := Extend(trace, Turn(true), timeout, latency);
  }

  lemma UntilDeadline(before: seq<System>, timeout: nat, latency: nat) returns (trace: seq<System>)
    requires IsRun(before, timeout, latency)
    requires var s := Last(before);
             && s.worker.AwaitingDeadline? && s.now <= s.worker.deadline
             && s.due.Some? && s.worker.deadline <= s.due.value
    ensures IsRun(trace, timeout, latency) && before <= trace
    ensures Last(trace) == Last(before).(now := Last(before).worker.deadline)
    decreases Last(before).worker.deadline - Last(before).now
  {
    trace := before;
    if Last(trace).now < Last(trace).worker.deadline {
      trace := Extend(trace, Tick, timeout, latency);
      trace := UntilDeadline(trace, timeout, latency);
    }
  }

  lemma FirstFrameOnDeadline(f: StateFrame, start: nat, timeout: nat, latency: nat) returns (trace: seq<System>)
    requires timeout > 0
    ensures IsRun(trace, timeout, latency)
    ensures Last(trace) == System(Server(Running, false, Accept(NewOutput(start), f, start)),
                                  AwaitingDeadline(start + timeout, false), Some(start + timeout + latency),
                                  start, timeout, latency, History([Arrival(f, start)], 0, 0))
  {
    trace := WaitingForInput(start, timeout, latency);
    trace := Extend(trace, Frame(f, true), timeout, latency);
    assert Last(trace).server.out == Accept(NewOutput(start), f, start) && Last(trace).worker == AwaitingInput;
    trace := Extend(trace, Turn(false), timeout, latency);
  }

  lemma WaitingForInput(start: nat, timeout: nat, latency: nat) returns (trace: seq<System>)
    ensures IsRun(trace, timeout, latency)
    ensures Last(trace) == System(Server(Running, false, NewOutput(start)), AwaitingInput, None, start,
                                  timeout, latency, NO_HISTORY)
  {
    trace := [Initial(timeout, latency, start)];
    trace := Extend(trace, Start, timeout, latency);
    var s := Last(trace);
    assert s.worker == Starting;
    trace := Extend(trace, TransportUp, timeout, latency);
    assert Last(trace) == s.(worker := Entering, due := Some(start + latency));
    trace := Extend(trace, Turn(false), timeout, latency);
  }
}
