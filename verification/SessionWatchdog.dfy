/**
 The watchdog of the loopback session on a clock: the thread, which Start creates behind the
 transport, waits on its condition variable while frames, disconnects and Stop change the
 session under the mutex.
 */
module SessionWatchdog {
  import opened ControllerOutput
  import opened DeadlineWait
  import opened Options
  import opened Protocol
  import opened Seqs
  import L = SessionObject

  /**
   `due` is the instant by which the thread will have taken its next turn; while Start is
   still starting the transport, the instant by which the thread will exist.
   */
  datatype System = System(
    session: L.SessionFields, watchdog: Thread, due: Option<nat>, now: nat,
    timeout: nat, latency: nat, startup: nat, history: History)

  datatype Event =
    | Tick
    | Start
    | CreateFailed
    | CreateThread
    | Frame(frame: StateFrame, submitted: bool)
    | Disconnect
    | Stop
    | Turn(timedOut: bool)

  function Initial(timeout: nat, latency: nat, startup: nat, start: nat): System {
    System(L.NewSession(start), NotStarted, None, start, timeout, latency, startup, NO_HISTORY)
  }

  predicate Enabled(s: System, e: Event) {
    match e
    case Tick => s.due.Some? ==> s.now < s.due.value
    case Start => s.session.state == Created && s.watchdog == NotStarted
    case CreateFailed => s.session.state == Created && s.watchdog == NotStarted
    case CreateThread => s.watchdog == Starting
    case Frame(_, _) => s.watchdog != NotStarted
    case Disconnect => true
    // Start and Stop do not overlap
    case Stop => s.watchdog != Starting
    case Turn(timedOut) => MayTurn(s.watchdog, s.now, timedOut)
  }

  /** `watchdog_condition_.notify_all()`. */
  function Notify(s: System): System {
    s.(watchdog := Notified(s.watchdog), due := DueNotified(s.watchdog, s.due, s.now, s.latency))
  }

  /** A section other than the watchdog's: one that neutralised counts as terminal. */
  function Put(s: System, session: L.SessionFields): System {
    s.(session := session,
       history := if session.out.neutralizations > s.session.out.neutralizations
                  then s.history.(terminal := s.history.terminal + 1) else s.history)
  }

  function Apply(s: System, e: Event): System
    requires Enabled(s, e)
  {
    match e
    case Tick => s.(now := s.now + 1)
    case Start => s.(session := L.BeginRunning(s.session), watchdog := Starting, due := Some(s.now + s.startup))
    case CreateFailed => s.(session := L.CreateFailed(s.session))
    case CreateThread => s.(watchdog := Entering, due := Some(s.now + s.latency))
    case Frame(f, submitted) =>
      var session := L.OnStateFrame(s.session, f, s.now, submitted);
      if session == s.session then s
      else if !submitted then Notify(Put(s, session))
      else Notify(s.(session := session, history := s.history.(accepted := s.history.accepted + [Arrival(f, s.now)])))
    case Disconnect => Notify(Put(s, L.OnDisconnected(s.session)))
    case Stop => Notify(Put(s, L.StopSection(s.session)))
    case Turn(timedOut) =>
      var (session, watchdog) := L.TurnSection(s.session, s.watchdog, s.now, s.timeout, timedOut);
      var expired := if session.out.neutralizations > s.session.out.neutralizations then 1 else 0;
      s.(session := session, watchdog := watchdog, due := DueAfterTurn(watchdog, s.now, s.latency),
         history := s.history.(watchdog := s.history.watchdog + expired))
  }

  ghost predicate Next(s: System, t: System) {
    exists e :: Enabled(s, e) && t == Apply(s, e)
  }

  ghost predicate Moves(trace: seq<System>, i: nat)
    requires i + 1 < |trace|
  {
    Next(trace[i], trace[i + 1])
  }

  ghost predicate IsRun(trace: seq<System>, timeout: nat, latency: nat, startup: nat) {
    && trace != []
    && trace[0] == Initial(timeout, latency, startup, trace[0].now)
    && forall i: nat {:trigger Moves(trace, i)} :: i + 1 < |trace| ==> Moves(trace, i)
  }

  // ---------------------------------------------------------------- invariants

  ghost predicate AccountInvariant(s: System) {
    && Accounted(s.session.out, s.history)
    && (s.session.state == Running ==> !s.session.watchdogExit && s.watchdog != NotStarted)
    && (s.session.state != Running ==> !s.session.out.armed)
    && (s.watchdog == Exited ==> s.session.watchdogExit)
    && (s.session.state == Running && s.watchdog.AwaitingDeadline? ==> s.session.out.armed)
    && (s.watchdog != NotStarted && s.session.state != Running ==> s.session.watchdogExit)
    && (s.session.state == Created ==> s.watchdog == NotStarted)
  }

  predicate TimingInvariant(s: System) {
    && Timely(s.session.out, s.watchdog, s.due, s.now, s.timeout, s.latency, s.startup)
    && (s.watchdog == Starting ==> s.due.Some?)
    && (s.due.Some? ==> CanTurn(s.watchdog) || s.watchdog == Starting)
  }

  ghost predicate Invariant(s: System, timeout: nat, latency: nat, startup: nat) {
    && AccountInvariant(s) && TimingInvariant(s)
    && s.timeout == timeout && s.latency == latency && s.startup == startup
  }

  lemma AccountFrame(s: System, f: StateFrame, submitted: bool)
    requires AccountInvariant(s) && Enabled(s, Frame(f, submitted))
    ensures AccountInvariant(Apply(s, Frame(f, submitted)))
  {
    if L.Takes(s.session, f) {
      if submitted {
        AcceptAccounted(s.session.out, s.history, f, s.now);
      } else {
        NeutralizeAccounted(s.session.out, s.history, s.history.(terminal := s.history.terminal + 1));
      }
    }
  }

  lemma AccountTurn(s: System, timedOut: bool)
    requires AccountInvariant(s) && Enabled(s, Turn(timedOut))
    ensures AccountInvariant(Apply(s, Turn(timedOut)))
  {
    if s.session.out.armed {
      NeutralizeAccounted(s.session.out, s.history, s.history.(watchdog := s.history.watchdog + 1));
    }
  }

  lemma AccountEnding(s: System, e: Event)
    requires AccountInvariant(s) && Enabled(s, e) && (e == Disconnect || e == Stop)
    ensures AccountInvariant(Apply(s, e))
  {
    NeutralizeAccounted(s.session.out, s.history, s.history.(terminal := s.history.terminal + 1));
  }

  lemma AccountStep(s: System, e: Event)
    requires AccountInvariant(s) && Enabled(s, e)
    ensures AccountInvariant(Apply(s, e))
  {
    if e.Frame? {
      AccountFrame(s, e.frame, e.submitted);
    } else if e.Turn? {
      AccountTurn(s, e.timedOut);
    } else if e == Disconnect || e == Stop {
      AccountEnding(s, e);
    }
  }

  lemma TimingTurn(s: System, timedOut: bool)
    requires AccountInvariant(s) && TimingInvariant(s) && Enabled(s, Turn(timedOut))
    ensures TimingInvariant(Apply(s, Turn(timedOut)))
  {
    TurnIsTimely(s.session.watchdogExit, s.session.out, s.watchdog, s.due, s.now, timedOut,
                 s.timeout, s.latency, s.startup);
  }

  lemma TimingFrame(s: System, f: StateFrame, submitted: bool)
    requires AccountInvariant(s) && TimingInvariant(s) && Enabled(s, Frame(f, submitted))
    ensures TimingInvariant(Apply(s, Frame(f, submitted)))
  {
    if L.Takes(s.session, f) && submitted {
      ArrivalIsTimely(s.session.out, Accept(s.session.out, f, s.now), s.watchdog, s.due, s.now,
                      s.timeout, s.latency, s.startup);
    }
  }

  lemma TimingStep(s: System, e: Event)
    requires AccountInvariant(s) && TimingInvariant(s) && Enabled(s, e)
    ensures TimingInvariant(Apply(s, e))
  {
    if e.Turn? {
      TimingTurn(s, e.timedOut);
    } else if e.Frame? {
      TimingFrame(s, e.frame, e.submitted);
    }
  }

  lemma StepKeepsInvariant(s: System, e: Event, timeout: nat, latency: nat, startup: nat)
    requires Invariant(s, timeout, latency, startup) && Enabled(s, e)
    ensures Invariant(Apply(s, e), timeout, latency, startup)
  {
    AccountStep(s, e);
    TimingStep(s, e);
  }

  lemma FirstInvariant(trace: seq<System>, timeout: nat, latency: nat, startup: nat)
    requires IsRun(trace, timeout, latency, startup)
    ensures Invariant(trace[0], timeout, latency, startup)
  {
    NothingAccounted(trace[0].now);
  }

  lemma {:induction false} RunInvariant(trace: seq<System>, i: nat, timeout: nat, latency: nat, startup: nat)
    requires IsRun(trace, timeout, latency, startup) && i < |trace|
    ensures Invariant(trace[i], timeout, latency, startup)
  {
    if i == 0 {
      FirstInvariant(trace, timeout, latency, startup);
    } else {
      RunInvariant(trace, i - 1, timeout, latency, startup);
      assert Moves(trace, i - 1);
      var e :| Enabled(trace[i - 1], e) && trace[i] == Apply(trace[i - 1], e);
      StepKeepsInvariant(trace[i - 1], e, timeout, latency, startup);
    }
  }

  /**
   Timed safe release in the loopback session. At every instant of every run a report other
   than neutral means: the session runs, the watchdog is armed, the report is the last
   accepted frame, accepted at most the timeout ago, give or take the scheduling latency. The
   time Start takes to create the thread counts only where it exceeds the timeout.
   */
  lemma TimedSafeRelease(trace: seq<System>, i: nat, timeout: nat, latency: nat, startup: nat)
    requires IsRun(trace, timeout, latency, startup) && i < |trace|
    ensures var s := trace[i];
            Shown(s.session.out) != NEUTRAL ==>
              && s.session.state == Running && s.session.out.armed
              && s.history.accepted != []
              && Shown(s.session.out) == Last(s.history.accepted).frame.state
              && Last(s.history.accepted).at <= s.now
              && s.now <= Last(s.history.accepted).at + Max(timeout, startup + latency) + latency
  {
    RunInvariant(trace, i, timeout, latency, startup);
  }

  /** While the session runs a frame that is not stale is shown at once. */
  lemma FreshFrameIsShown(trace: seq<System>, i: nat, f: StateFrame, timeout: nat, latency: nat, startup: nat)
    requires IsRun(trace, timeout, latency, startup) && i < |trace| && trace[i].session.state == Running
    requires forall a :: a in trace[i].history.accepted ==> a.frame.sequence < f.sequence
    ensures var s := trace[i];
            && Enabled(s, Frame(f, true)) && var t := Apply(s, Frame(f, true));
            && t.history.accepted == s.history.accepted + [Arrival(f, s.now)]
            && t.session.state == Running && t.session.out.armed
            && Shown(t.session.out) == f.state && t.session.out.lastTimestampUs == f.timestampUs
  {
    RunInvariant(trace, i, timeout, latency, startup);
    var a := trace[i].history.accepted;
    assert a != [] ==> Last(a) in a;
  }

  /** A session that is over, however it ended, sends its watchdog home at the next turn. */
  lemma WatchdogLeaves(trace: seq<System>, i: nat, timedOut: bool, timeout: nat, latency: nat, startup: nat)
    requires IsRun(trace, timeout, latency, startup) && i < |trace| && trace[i].session.state != Running
    requires Enabled(trace[i], Turn(timedOut))
    ensures Apply(trace[i], Turn(timedOut)).watchdog == Exited
    ensures Apply(trace[i], Turn(timedOut)).session == trace[i].session
  {
    RunInvariant(trace, i, timeout, latency, startup);
  }

  /** Stop tells the watchdog of every session that was created to leave, and its next turn is due. */
  lemma StopTellsTheWatchdog(trace: seq<System>, i: nat, timeout: nat, latency: nat, startup: nat)
    requires IsRun(trace, timeout, latency, startup) && i < |trace| && Enabled(trace[i], Stop)
    requires trace[i].session.state != Created && trace[i].session.state != Stopped
    ensures var t := Apply(trace[i], Stop);
            && t.session.watchdogExit && t.session.state != Running && Shown(t.session.out) == NEUTRAL
            && (t.watchdog == AwaitingInput || t.watchdog.AwaitingDeadline? ==>
                  t.due.Some? && t.due.value <= t.now + latency)
  {
    RunInvariant(trace, i, timeout, latency, startup);
  }

  lemma Extend(trace: seq<System>, e: Event, timeout: nat, latency: nat, startup: nat) returns (longer: seq<System>)
    requires IsRun(trace, timeout, latency, startup) && Enabled(Last(trace), e)
    ensures IsRun(longer, timeout, latency, startup) && trace <= longer && Last(longer) == Apply(Last(trace), e)
  {
    longer := trace + [Apply(Last(trace), e)];
    forall i: nat | i + 1 < |longer| ensures Moves(longer, i) {
      if i + 1 < |trace| {
        assert Moves(trace, i);
        assert longer[i] == trace[i] && longer[i + 1] == trace[i + 1];
      } else {
        assert Enabled(longer[i], e) && longer[i + 1] == Apply(longer[i], e);
      }
    }
  }

  /** How many steps may be due at once: creating the thread, its first turn, and an expired wait. */
  function Urgency(s: System): nat {
    if s.due != Some(s.now) then 0
    else if s.watchdog == Starting then 3
    else if s.watchdog.AwaitingDeadline? && s.watchdog.deadline <= s.now then 1
    else 2
  }

  lemma TakeDueStep(trace: seq<System>, timeout: nat, latency: nat, startup: nat) returns (longer: seq<System>)
    requires IsRun(trace, timeout, latency, startup) && Urgency(Last(trace)) > 0
    ensures IsRun(longer, timeout, latency, startup) && trace <= longer && Last(longer).now == Last(trace).now
    ensures Urgency(Last(longer)) < Urgency(Last(trace))
  {
    RunInvariant(trace, |trace| - 1, timeout, latency, startup);
    var e := if Last(trace).watchdog == Starting then CreateThread else Turn(Last(trace).watchdog.AwaitingDeadline?);
    longer := Extend(trace, e, timeout, latency, startup);
    RunInvariant(longer, |longer| - 1, timeout, latency, startup);
  }

  /** No state of a run stops the clock: what is due can always be done. */
  lemma TimePasses(trace: seq<System>, timeout: nat, latency: nat, startup: nat) returns (longer: seq<System>)
    requires IsRun(trace, timeout, latency, startup)
    ensures IsRun(longer, timeout, latency, startup) && trace <= longer && Last(longer).now == Last(trace).now + 1
    decreases Urgency(Last(trace))
  {
    RunInvariant(trace, |trace| - 1, timeout, latency, startup);
    if Urgency(Last(trace)) > 0 {
      longer := TakeDueStep(trace, timeout, latency, startup);
      longer := TimePasses(longer, timeout, latency, startup);
    } else {
      longer := Extend(trace, Tick, timeout, latency, startup);
    }
  }

  /** A session that starts runs, and its watchdog waits for input. */
  lemma Starts(start: nat, timeout: nat, latency: nat, startup: nat) returns (trace: seq<System>)
    ensures IsRun(trace, timeout, latency, startup)
    ensures Last(trace).session == L.NewSession(start).(state := Running) && Last(trace).watchdog == AwaitingInput
  {
    trace := [Initial(timeout, latency, startup, start)];
    trace := Extend(trace, Start, timeout, latency, startup);
    trace := Extend(trace, CreateThread, timeout, latency, startup);
    assert Last(trace).watchdog == Entering;
    trace := Extend(trace, Turn(false), timeout, latency, startup);
  }

  /** No deadlock: from every state of every run the session can be stopped and its watchdog joined. */
  lemma StopCanReturn(trace: seq<System>, timeout: nat, latency: nat, startup: nat) returns (longer: seq<System>)
    requires IsRun(trace, timeout, latency, startup)
    ensures IsRun(longer, timeout, latency, startup) && trace <= longer
    ensures Last(longer).session.state !in {Created, Running}
    ensures Last(longer).watchdog == NotStarted || Last(longer).watchdog == Exited
    ensures Last(longer).now == Last(trace).now
  {
    RunInvariant(trace, |trace| - 1, timeout, latency, startup);
    longer := trace;
    if Last(longer).watchdog == Starting {
      longer := Extend(longer, CreateThread, timeout, latency, startup);
    }
    longer := Extend(longer, Stop, timeout, latency, startup);
    RunInvariant(longer, |longer| - 1, timeout, latency, startup);
    if CanTurn(Last(longer).watchdog) {
      longer := Extend(longer, Turn(Last(longer).watchdog.AwaitingDeadline?), timeout, latency, startup);
    }
  }

  /** A disconnect releases a running session, and a virtual pad that cannot be created faults a new one. */
  lemma OtherEnds(trace: seq<System>, i: nat, timeout: nat, latency: nat, startup: nat)
    requires IsRun(trace, timeout, latency, startup) && i < |trace|
    ensures trace[i].session.state == Running ==>
              && Enabled(trace[i], Disconnect)
              && var t := Apply(trace[i], Disconnect);
                 t.session.state == Disconnected && Shown(t.session.out) == NEUTRAL && t.session.watchdogExit
    ensures trace[i].session.state == Created ==>
              && Enabled(trace[i], CreateFailed)
              && Apply(trace[i], CreateFailed).session.state == Faulted
              && Apply(trace[i], CreateFailed).watchdog == NotStarted
  {
    RunInvariant(trace, i, timeout, latency, startup);
  }
}
