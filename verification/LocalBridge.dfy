/**
 The local bridge from a physical to a virtual pad. It submits reports outside its mutex, so
 a report may be on its way while Stop, a fault or a disconnect changes the state.
 */
module LocalBridge {
  import opened ControllerOutput
  import opened LocalControllerBridge
  import opened Protocol
  import opened Seqs

  datatype Starter = NotStarted | Opening | OpenHasFailed | Settled

  /** The poll thread, between and inside its callbacks. */
  datatype Poll =
    | NotRunning
    | Idle
    | Passed(report: GamepadState)     // OnState saw kRunning
    | Submitted(report: GamepadState)
    | SubmitFailed
    | FaultMarked
    | DisconnectMarked
    | Ended

  datatype Stopper = NotCalled | Marked | InputClosed | Neutralized | Returned

  /**
   `reports` is everything the virtual pad was given, failed submissions included; `samples`
   counts those that `OnState` gave it.
   */
  datatype System = System(
    snapshot: Snapshot, starter: Starter, poll: Poll, stopper: Stopper, reports: seq<GamepadState>, samples: nat)

  datatype Event =
    | Start(created: bool)
    | Open(padOpened: bool)
    | OpenFailedNeutral
    | CheckState(sample: GamepadState)
    | Submit(ok: bool)
    | RecordState(timestampUs: U64)
    | MarkFault
    | FaultNeutral
    | CheckDisconnect
    | DisconnectNeutral
    | PollEnds
    | StopMark
    | StopClose
    | StopNeutral
    | StopReturn
    | StopAgain

  function Initial(blank: Snapshot): System {
    System(blank, NotStarted, NotRunning, NotCalled, [], 0)
  }

  /** Calls of Start and Stop do not overlap; closing the input waits for the poll thread. */
  predicate Enabled(s: System, e: Event) {
    match e
    case Start(_) => s.starter == NotStarted && s.stopper == NotCalled
    case Open(_) => s.starter == Opening
    case OpenFailedNeutral => s.starter == OpenHasFailed
    case CheckState(_) => s.poll == Idle
    case Submit(_) => s.poll.Passed?
    case RecordState(_) => s.poll.Submitted?
    case MarkFault => s.poll == SubmitFailed
    case FaultNeutral => s.poll == FaultMarked
    case CheckDisconnect => s.poll == Idle
    case DisconnectNeutral => s.poll == DisconnectMarked
    case PollEnds => s.poll == Idle
    case StopMark => s.stopper == NotCalled && (s.starter == NotStarted || s.starter == Settled)
    case StopClose => s.stopper == Marked && (s.poll == NotRunning || s.poll == Ended)
    case StopNeutral => s.stopper == InputClosed
    case StopReturn => s.stopper == Neutralized
    case StopAgain => s.stopper == Returned
  }

  function Give(s: System, report: GamepadState): System {
    s.(reports := s.reports + [report])
  }

  function Apply(s: System, e: Event): System
    requires Enabled(s, e)
  {
    match e
    case Start(created) =>
      if created then s.(snapshot := BeginRunning(s.snapshot), starter := Opening)
      else s.(snapshot := s.snapshot.(state := Faulted), starter := Settled)
    case Open(padOpened) =>
      if padOpened then s.(poll := Idle, starter := Settled)
      else s.(snapshot := OpenFailed(s.snapshot), starter := OpenHasFailed)
    case OpenFailedNeutral => Give(s, NEUTRAL).(starter := Settled)
    case CheckState(sample) => s.(poll := if s.snapshot.state == Running then Passed(sample) else Idle)
    case Submit(ok) =>
      Give(s, s.poll.report).(poll := if ok then Submitted(s.poll.report) else SubmitFailed, samples := s.samples + 1)
    case RecordState(at) => s.(snapshot := Record(s.snapshot, s.poll.report, at), poll := Idle)
    case MarkFault => s.(snapshot := EndAs(s.snapshot, Faulted), poll := FaultMarked)
    case FaultNeutral => Give(s, NEUTRAL).(poll := Idle)
    case CheckDisconnect =>
      s.(snapshot := EndAs(s.snapshot, Disconnected),
         poll := if s.snapshot.state == Running then DisconnectMarked else Ended)
    case DisconnectNeutral => Give(s, NEUTRAL).(poll := Ended)
    case PollEnds => s.(poll := Ended)
    case StopMark =>
      s.(snapshot := MarkStopped(s.snapshot), stopper := Marked)
    case StopClose => s.(stopper := InputClosed)
    case StopNeutral => Give(s, NEUTRAL).(stopper := Neutralized)
    case StopReturn => s.(stopper := Returned)
    case StopAgain => s.(snapshot := MarkStopped(s.snapshot))
  }

  ghost predicate Next(s: System, t: System) {
    exists e :: Enabled(s, e) && t == Apply(s, e)
  }

  ghost predicate Moves(trace: seq<System>, i: nat)
    requires i + 1 < |trace|
  {
    Next(trace[i], trace[i + 1])
  }

  ghost predicate IsRun(trace: seq<System>) {
    && trace != []
    && trace[0] == Initial(trace[0].snapshot) && IsBlank(trace[0].snapshot)
    && forall i: nat {:trigger Moves(trace, i)} :: i + 1 < |trace| ==> Moves(trace, i)
  }

  lemma Extend(trace: seq<System>, e: Event) returns (longer: seq<System>)
    requires IsRun(trace) && Enabled(Last(trace), e)
    ensures IsRun(longer) && trace <= longer && Last(longer) == Apply(Last(trace), e)
  {
    longer := trace + [Apply(Last(trace), e)];
    forall i: nat | i + 1 < |longer| ensures Moves(longer, i) {
      if i + 1 < |trace| {
        assert Moves(trace, i);
        assert longer[i] == trace[i] && longer[i + 1] == trace[i + 1];
      } else {
        assert Enabled(longer[i], e) && longer[i + 1] == Apply(longer[i], e);
      }
    }
  }

  /** What the virtual pad shows. */
  function Shows(s: System): GamepadState {
    if s.reports == [] then NEUTRAL else Last(s.reports)
  }

  predicate Over(s: System) {
    s.snapshot.state == Disconnected || s.snapshot.state == Faulted
  }

  /** Which states of the session go with which point of the poll thread. */
  predicate PollInvariant(s: System) {
    match s.poll
    case NotRunning => true
    case Idle => s.starter == Settled && s.snapshot.state != Created
    case Passed(_) => s.starter == Settled && s.snapshot.state in {Running, Stopped}
    case Submitted(g) => s.starter == Settled && s.snapshot.state in {Running, Stopped} && Shows(s) == g
    case SubmitFailed => s.starter == Settled && s.snapshot.state in {Running, Stopped}
    case FaultMarked => s.starter == Settled && s.snapshot.state in {Faulted, Stopped}
    case DisconnectMarked => s.starter == Settled && s.snapshot.state in {Disconnected, Stopped}
    case Ended => s.starter == Settled && s.snapshot.state != Created
  }

  predicate StartInvariant(s: System) {
    && (s.starter == NotStarted && s.stopper == NotCalled ==> s.reports == [])
    && (s.starter == NotStarted ==> s.poll == NotRunning && s.snapshot.state in {Created, Stopped})
    && (s.starter == Opening ==> s.poll == NotRunning && s.snapshot.state == Running && s.reports == [])
    && (s.starter == OpenHasFailed ==> s.poll == NotRunning && s.snapshot.state == Faulted)
    && (s.starter == Opening || s.starter == OpenHasFailed ==> s.stopper == NotCalled)
    && (s.starter == Settled && s.poll == NotRunning ==> s.snapshot.state in {Faulted, Stopped} && Shows(s) == NEUTRAL)
  }

  predicate StopInvariant(s: System) {
    && (s.stopper != NotCalled <==> s.snapshot.state == Stopped)
    && (s.stopper in {InputClosed, Neutralized, Returned} ==> s.poll in {NotRunning, Ended})
    && (s.stopper in {Neutralized, Returned} ==> s.reports != [] && Last(s.reports) == NEUTRAL)
  }

  predicate Released(s: System) {
    && (s.snapshot.state != Running ==> s.snapshot.current == NEUTRAL)
    && (s.snapshot.state == Running && s.poll in {NotRunning, Idle, Ended} ==> s.snapshot.current == Shows(s))
    && (s.snapshot.state == Running && s.poll.Passed? ==> s.snapshot.current == Shows(s))
    && (Over(s) && s.poll in {Idle, Ended} ==> Shows(s) == NEUTRAL)
  }

  predicate Invariant(s: System) {
    PollInvariant(s) && StartInvariant(s) && StopInvariant(s) && Released(s)
  }

  lemma StepKeepsInvariant(s: System, e: Event)
    requires Invariant(s) && Enabled(s, e)
    ensures Invariant(Apply(s, e))
  {
  }

  lemma {:induction false} RunInvariant(trace: seq<System>, i: nat)
    requires IsRun(trace) && i < |trace|
    ensures Invariant(trace[i])
  {
    if i > 0 {
      RunInvariant(trace, i - 1);
      assert Moves(trace, i - 1);
      var e :| Enabled(trace[i - 1], e) && trace[i] == Apply(trace[i - 1], e);
      StepKeepsInvariant(trace[i - 1], e);
    }
  }

  // ------------------------------------------------------------------ theorems

  lemma StepAfterReturn(s: System, e: Event)
    requires Invariant(s) && s.stopper == Returned && Enabled(s, e)
    ensures Apply(s, e).stopper == Returned && Apply(s, e).reports == s.reports
  {
  }

  lemma MoveAfterReturn(trace: seq<System>, i: nat)
    requires IsRun(trace) && i + 1 < |trace| && trace[i].stopper == Returned
    ensures trace[i + 1].stopper == Returned && trace[i + 1].reports == trace[i].reports
  {
    RunInvariant(trace, i);
    assert Moves(trace, i);
    var e :| Enabled(trace[i], e) && trace[i + 1] == Apply(trace[i], e);
    StepAfterReturn(trace[i], e);
  }

  /** Once Stop has returned the last report is neutral, and no report follows it ever. */
  lemma {:induction false} StopReleases(trace: seq<System>, i: nat, j: nat)
    requires IsRun(trace) && i <= j < |trace| && trace[i].stopper == Returned
    ensures trace[j].stopper == Returned && trace[j].reports == trace[i].reports
    ensures trace[j].reports != [] && Last(trace[j].reports) == NEUTRAL
  {
    RunInvariant(trace, j);
    if i < j {
      StopReleases(trace, i, j - 1);
      MoveAfterReturn(trace, j - 1);
    }
  }

  /** A submission failed or a disconnect was marked: the neutral report is owed, or was given. */
  predicate Ending(s: System) {
    || s.poll in {SubmitFailed, FaultMarked, DisconnectMarked}
    || (s.poll in {Idle, Ended} && s.snapshot.state != Running && Shows(s) == NEUTRAL)
  }

  lemma StepEnding(s: System, e: Event)
    requires Invariant(s) && Ending(s) && Enabled(s, e)
    ensures Ending(Apply(s, e))
  {
  }

  lemma {:induction false} EndingLasts(trace: seq<System>, i: nat, j: nat)
    requires IsRun(trace) && i <= j < |trace| && Ending(trace[i])
    ensures Ending(trace[j])
  {
    if i < j {
      EndingLasts(trace, i, j - 1);
      RunInvariant(trace, j - 1);
      assert Moves(trace, j - 1);
      var e :| Enabled(trace[j - 1], e) && trace[j] == Apply(trace[j - 1], e);
      StepEnding(trace[j - 1], e);
    }
  }

  /**
   After a failed submission or a disconnect of the running session the pad is released as
   soon as the poll thread is back between callbacks, and for ever, whatever Stop has done to
   the state in between.
   */
  lemma EndReleases(trace: seq<System>, i: nat, j: nat)
    requires IsRun(trace) && i <= j < |trace| && trace[i].poll in {SubmitFailed, FaultMarked, DisconnectMarked}
    ensures trace[j].poll in {Idle, Ended} ==> Shows(trace[j]) == NEUTRAL && trace[j].snapshot.state != Running
    ensures trace[j].poll !in {Idle, Ended} ==> trace[j].poll in {SubmitFailed, FaultMarked, DisconnectMarked}
  {
    EndingLasts(trace, i, j);
  }

  /** A session that is Disconnected or Faulted shows neutral as soon as no callback runs, Start included. */
  lemma OverIsReleased(trace: seq<System>, i: nat)
    requires IsRun(trace) && i < |trace|
    ensures Over(trace[i]) && trace[i].poll in {Idle, Ended} ==> Shows(trace[i]) == NEUTRAL
    ensures trace[i].poll == NotRunning && trace[i].starter == Settled ==> Shows(trace[i]) == NEUTRAL
  {
    RunInvariant(trace, i);
  }

  /** Between callbacks the snapshot of a running session is what the pad shows; otherwise it is neutral. */
  lemma SnapshotAgrees(trace: seq<System>, i: nat)
    requires IsRun(trace) && i < |trace|
    ensures trace[i].snapshot.state == Running && trace[i].poll == Idle ==> trace[i].snapshot.current == Shows(trace[i])
    ensures trace[i].snapshot.state != Running ==> trace[i].snapshot.current == NEUTRAL
  {
    RunInvariant(trace, i);
  }

  /** The snapshot has counted the samples given to the pad, but for the one in hand. */
  predicate CountInvariant(s: System) {
    && (s.snapshot.state in {Created, Running} ==>
          s.samples == s.snapshot.samples + if s.poll.Submitted? || s.poll == SubmitFailed then 1 else 0)
    && s.snapshot.samples <= s.samples
    && (s.samples == 0 ==> s.snapshot.timestampUs == 0)
  }

  lemma StepKeepsCount(s: System, e: Event)
    requires Invariant(s) && CountInvariant(s) && Enabled(s, e)
    ensures CountInvariant(Apply(s, e))
  {
  }

  /** Between callbacks a running session's snapshot has counted every sample the pad was given. */
  lemma {:induction false} SnapshotCounts(trace: seq<System>, i: nat)
    requires IsRun(trace) && i < |trace|
    ensures CountInvariant(trace[i])
  {
    if i > 0 {
      SnapshotCounts(trace, i - 1);
      RunInvariant(trace, i - 1);
      assert Moves(trace, i - 1);
      var e :| Enabled(trace[i - 1], e) && trace[i] == Apply(trace[i - 1], e);
      StepKeepsCount(trace[i - 1], e);
    }
  }

  lemma StepNoSample(s: System, e: Event)
    requires Invariant(s) && s.stopper != NotCalled && !s.poll.Passed? && Enabled(s, e)
    ensures var t := Apply(s, e); t.stopper != NotCalled && !t.poll.Passed? && t.samples == s.samples
  {
  }

  lemma MoveNoSample(trace: seq<System>, i: nat)
    requires IsRun(trace) && i + 1 < |trace| && trace[i].stopper != NotCalled && !trace[i].poll.Passed?
    ensures var t := trace[i + 1]; t.stopper != NotCalled && !t.poll.Passed? && t.samples == trace[i].samples
  {
    RunInvariant(trace, i);
    assert Moves(trace, i);
    var e :| Enabled(trace[i], e) && trace[i + 1] == Apply(trace[i], e);
    StepNoSample(trace[i], e);
  }

  lemma {:induction false} NoSampleAgain(trace: seq<System>, i: nat, j: nat)
    requires IsRun(trace) && i <= j < |trace| && trace[i].stopper != NotCalled && !trace[i].poll.Passed?
    ensures trace[j].stopper != NotCalled && !trace[j].poll.Passed? && trace[j].samples == trace[i].samples
  {
    if i < j {
      NoSampleAgain(trace, i, j - 1);
      MoveNoSample(trace, j - 1);
    }
  }

  /** From Stop's first section on another sample may reach the pad if and only if one has passed its check. */
  lemma SampleAfterStopIff(trace: seq<System>)
    requires IsRun(trace) && Last(trace).stopper != NotCalled
    ensures (exists longer :: IsRun(longer) && trace <= longer && Last(longer).samples > Last(trace).samples)
            <==> Last(trace).poll.Passed?
  {
    if Last(trace).poll.Passed? {
      var longer := Extend(trace, Submit(true));
      assert Last(longer).samples > Last(trace).samples;
    } else {
      forall longer | IsRun(longer) && trace <= longer ensures Last(longer).samples == Last(trace).samples {
        NoSampleAgain(longer, |trace| - 1, |longer| - 1);
      }
    }
  }

  /**
   Setting the state is not enough: a report that passed the check before may reach the pad
   after Stop has set kStopped. Only the neutral report behind the join undoes it.
   */
  lemma ReportAfterStopWasMarked(blank: Snapshot, g: GamepadState) returns (trace: seq<System>)
    requires IsBlank(blank)
    ensures IsRun(trace)
    ensures Last(trace).snapshot.state == Stopped && Shows(Last(trace)) == g
  {
    trace := Opened(blank);
    trace := Extend(trace, CheckState(g));
    trace := Extend(trace, StopMark);
    assert Last(trace).poll == Passed(g) && Last(trace).snapshot.state == Stopped;
    trace := Extend(trace, Submit(true));
  }

  // ------------------------------------------------------ what becomes of a sample

  lemma Opened(blank: Snapshot) returns (trace: seq<System>)
    requires IsBlank(blank)
    ensures IsRun(trace) && Last(trace) == System(BeginRunning(blank), Settled, Idle, NotCalled, [], 0)
  {
    trace := [Initial(blank)];
    trace := Extend(trace, Start(true));
    trace := Extend(trace, Open(true));
  }

  /**
   What is sampled is what is shown: on a running bridge the three steps give the virtual pad
   exactly the physical pad's state, and the snapshot shows and counts it.
   */
  lemma SampleIsShown(trace: seq<System>, g: GamepadState, timestampUs: U64)
    requires IsRun(trace) && Last(trace).poll == Idle && Last(trace).snapshot.state == Running
    ensures var s := Last(trace);
            && Enabled(s, CheckState(g)) && var s1 := Apply(s, CheckState(g));
            && Enabled(s1, Submit(true)) && var s2 := Apply(s1, Submit(true));
            && Enabled(s2, RecordState(timestampUs)) && var s3 := Apply(s2, RecordState(timestampUs));
            && s3.reports == s.reports + [g] && s3.poll == Idle
            && s3.snapshot == s.snapshot.(current := g, timestampUs := timestampUs,
                                          samples := s.snapshot.samples + 1)
  {
  }

  /** A state the virtual pad refuses ends the bridge as faulted, and the pad is released. */
  lemma RefusedSampleFaults(trace: seq<System>, g: GamepadState)
    requires IsRun(trace) && Last(trace).poll == Idle && Last(trace).snapshot.state == Running
    ensures var s := Last(trace);
            && Enabled(s, CheckState(g)) && var s1 := Apply(s, CheckState(g));
            && Enabled(s1, Submit(false)) && var s2 := Apply(s1, Submit(false));
            && Enabled(s2, MarkFault) && var s3 := Apply(s2, MarkFault);
            && Enabled(s3, FaultNeutral) && var s4 := Apply(s3, FaultNeutral);
            && s4.reports == s.reports + [g] + [NEUTRAL] && s4.poll == Idle
            && s4.snapshot == s.snapshot.(state := Faulted, current := NEUTRAL)
  {
  }

  /** A physical pad that is lost ends the bridge as disconnected, and the virtual one is released. */
  lemma LostPadDisconnects(trace: seq<System>)
    requires IsRun(trace) && Last(trace).poll == Idle && Last(trace).snapshot.state == Running
    ensures var s := Last(trace);
            && Enabled(s, CheckDisconnect) && var s1 := Apply(s, CheckDisconnect);
            && Enabled(s1, DisconnectNeutral) && var s2 := Apply(s1, DisconnectNeutral);
            && s2.reports == s.reports + [NEUTRAL] && s2.poll == Ended
            && s2.snapshot == s.snapshot.(state := Disconnected, current := NEUTRAL)
  {
  }

  /** What ended a running bridge can be read off its state, whichever step it was. */
  lemma EndingsTellTheCause(trace: seq<System>, i: nat, e: Event)
    requires IsRun(trace) && i < |trace| && trace[i].snapshot.state == Running && Enabled(trace[i], e)
    ensures var state := Apply(trace[i], e).snapshot.state;
            && (state == Stopped <==> e == StopMark)
            && (state == Disconnected <==> e == CheckDisconnect)
            && (state == Faulted <==> e == MarkFault || e == Open(false))
            && state != Created
  {
    RunInvariant(trace, i);
  }

  /** Nothing keeps Stop from ending a bridge whose pad is sampled. */
  lemma Stops(before: seq<System>) returns (trace: seq<System>)
    requires IsRun(before) && Last(before).poll == Idle && Last(before).stopper == NotCalled
    ensures IsRun(trace) && Last(trace).stopper == Returned && Last(trace).poll == Ended
    ensures Last(trace).reports == Last(before).reports + [NEUTRAL]
    ensures Last(trace).snapshot == MarkStopped(Last(before).snapshot)
  {
    RunInvariant(before, |before| - 1);
    var s := Last(before);
    trace := Extend(before, StopMark);
    trace := Extend(trace, PollEnds);
    assert Last(trace) == s.(snapshot := MarkStopped(s.snapshot), stopper := Marked, poll := Ended);
    trace := Extend(trace, StopClose);
    trace := Extend(trace, StopNeutral);
    trace := Extend(trace, StopReturn);
  }

  /** A virtual pad that cannot be created, or a physical one that cannot be opened, ends the bridge as faulted. */
  lemma FailedStartFaults(trace: seq<System>)
    requires IsRun(trace) && Last(trace).starter == NotStarted && Last(trace).stopper == NotCalled
    ensures var s := Last(trace);
            && Enabled(s, Start(false))
            && Apply(s, Start(false)) == s.(snapshot := s.snapshot.(state := Faulted), starter := Settled)
            && Enabled(s, Start(true)) && var s1 := Apply(s, Start(true));
            && Enabled(s1, Open(false)) && var s2 := Apply(s1, Open(false));
            && s2.snapshot == s.snapshot.(state := Faulted, current := NEUTRAL)
            && Enabled(s2, OpenFailedNeutral)
            && Apply(s2, OpenFailedNeutral).reports == s.reports + [NEUTRAL]
            && Apply(s2, OpenFailedNeutral).starter == Settled
  {
  }

  // ------------------------------------------------------------- Stop always returns

  function StarterRank(s: Starter): nat {
    match s
    case Opening => 2
    case OpenHasFailed => 1
    case _ => 0
  }

  function PollRank(p: Poll): nat {
    match p
    case Passed(_) => 5
    case SubmitFailed => 4
    case FaultMarked => 3
    case Submitted(_) => 3
    case Idle => 2
    case DisconnectMarked => 1
    case _ => 0
  }

  function StopperRank(s: Stopper): nat {
    match s
    case NotCalled => 5
    case Marked => 4
    case InputClosed => 3
    case Neutralized => 2
    case Returned => 0
  }

  function Rank(s: System): nat {
    StarterRank(s.starter) + PollRank(s.poll) + StopperRank(s.stopper)
  }

  /** What brings Stop nearer to its end, in any state; `ok` is the virtual pad's answer. */
  function GoesOn(s: System, ok: bool, timestampUs: U64): Event {
    if s.starter == Opening then Open(false)
    else if s.starter == OpenHasFailed then OpenFailedNeutral
    else if s.stopper == NotCalled then StopMark
    else match s.poll
         case Passed(_) => Submit(ok)
         case Submitted(_) => RecordState(timestampUs)
         case SubmitFailed => MarkFault
         case FaultMarked => FaultNeutral
         case DisconnectMarked => DisconnectNeutral
         case Idle => PollEnds
         case _ =>
           if s.stopper == Marked then StopClose else if s.stopper == InputClosed then StopNeutral else StopReturn
  }

  lemma GoesOnStep(s: System, ok: bool, timestampUs: U64)
    requires Invariant(s) && s.stopper != Returned
    ensures Enabled(s, GoesOn(s, ok, timestampUs)) && Rank(Apply(s, GoesOn(s, ok, timestampUs))) < Rank(s)
  {
  }

  /** No deadlock: from every state of every run Stop can return, whatever start and pads are doing. */
  lemma StopCanReturn(trace: seq<System>, ok: bool, timestampUs: U64) returns (longer: seq<System>)
    requires IsRun(trace)
    ensures IsRun(longer) && trace <= longer && Last(longer).stopper == Returned
    decreases Rank(Last(trace))
  {
    longer := trace;
    if Last(trace).stopper != Returned {
      RunInvariant(trace, |trace| - 1);
      GoesOnStep(Last(trace), ok, timestampUs);
      longer := Extend(trace, GoesOn(Last(trace), ok, timestampUs));
      longer := StopCanReturn(longer, ok, timestampUs);
    }
  }

  /** A second Stop is accepted and changes nothing. */
  lemma SecondStopChangesNothing(trace: seq<System>, i: nat)
    requires IsRun(trace) && i < |trace| && trace[i].stopper == Returned
    ensures Enabled(trace[i], StopAgain) && Apply(trace[i], StopAgain) == trace[i]
  {
    RunInvariant(trace, i);
  }
}
