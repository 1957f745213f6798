/**
 The loopback session as a step system: one submitter, the transport's worker, the
 watchdog, and an owner who stops the session or simulates a disconnect. Every section
 under a mutex is one step; time is abstracted to "the watchdog may fire while armed".
 */
module LoopbackSession {
  import opened ControllerOutput
  import opened Loopback
  import opened Options
  import opened Protocol
  import opened Seqs
  import opened SessionObject

  // ------------------------------------------------------------ the step system

  datatype Submitter = Ready | Sending(frame: StateFrame) | Refused(frame: StateFrame)
  datatype Worker = NoWorker | Waiting | Holding(frame: StateFrame) | Done
  datatype Owner = Free | StartingTransport | ClosingTransport(notify: bool) | Joining(notify: bool) | Notifying

  /**
   `admitted`: frames that passed SubmitState's own checks. `sent`: those the transport took.
   `handled`: frames whose callback returned. `failed`: a SubmitState returned a failure.
   */
  datatype System = System(
    session: SessionFields, accepting: bool, stopRequested: bool, pending: seq<StateFrame>,
    submitter: Submitter, worker: Worker, owner: Owner, started: bool,
    history: History, admitted: seq<StateFrame>, sent: seq<StateFrame>, handled: seq<StateFrame>, failed: bool)

  datatype Event =
    | Start(created: bool)
    | StartTransport
    | Submit(frame: StateFrame)
    | Send
    | GiveUp
    | Take
    | Deliver(now: nat, submitted: bool)
    | EndWorker
    | Watchdog
    | Stop
    | SimulateDisconnect
    | Shutdown
    | Join
    | NotifyDisconnect

  function Initial(epoch: nat): System {
    System(NewSession(epoch), false, false, [], Ready, NoWorker, Free, false,
           NO_HISTORY, [], [], [], false)
  }

  predicate Enabled(s: System, e: Event) {
    match e
    case Start(_) => s.owner == Free && s.session.state == Created
    case StartTransport => s.owner == StartingTransport
    case Submit(_) => s.submitter == Ready
    case Send => s.submitter.Sending?
    case GiveUp => s.submitter.Refused?
    case Take => s.worker == Waiting && !s.stopRequested && s.pending != []
    case Deliver(_, _) => s.worker.Holding?
    case EndWorker => s.worker == Waiting && s.stopRequested
    case Watchdog => !s.session.watchdogExit && s.session.out.armed
    case Stop => s.owner == Free
    case SimulateDisconnect => s.owner == Free && s.session.state == Running
    case Shutdown => s.owner.ClosingTransport?
    case Join => s.owner.Joining? && s.worker == Done
    case NotifyDisconnect => s.owner == Notifying
  }

  function Terminal(s: System, session: SessionFields): History {
    if session.out.neutralizations > s.session.out.neutralizations
    then s.history.(terminal := s.history.terminal + 1) else s.history
  }

  function Apply(s: System, e: Event): System
    requires Enabled(s, e)
  {
    match e
    case Start(created) =>
      if created then s.(session := BeginRunning(s.session), started := true, owner := StartingTransport)
      else s.(session := CreateFailed(s.session))
    case StartTransport => s.(accepting := true, pending := [], worker := Waiting, owner := Free)
    case Submit(f) =>
      if Admit(s.session, f) == Ok
      then s.(session := Submitted(s.session, f), submitter := Sending(f), admitted := s.admitted + [f])
      else s.(session := Submitted(s.session, f))
    case Send =>
      var f := s.submitter.frame;
      if s.accepting && Push(s.pending, f).Some? then
        s.(pending := Push(s.pending, f).value, sent := s.sent + [f], submitter := Ready)
      else s.(submitter := Refused(f))
    case GiveUp =>
      var session := OnDisconnected(s.session);
      s.(session := session, history := Terminal(s, session), submitter := Ready, failed := true)
    case Take => s.(worker := Holding(s.pending[0]), pending := s.pending[1..])
    case Deliver(now, submitted) =>
      var f := s.worker.frame;
      var session := OnStateFrame(s.session, f, now, submitted);
      var history :=
        if Takes(s.session, f) && submitted then s.history.(accepted := s.history.accepted + [Arrival(f, now)])
        else Terminal(s, session);
      s.(session := session, history := history, worker := Waiting, handled := s.handled + [f])
    case EndWorker => s.(worker := Done)
    case Watchdog =>
      s.(session := WatchdogExpired(s.session), history := s.history.(watchdog := s.history.watchdog + 1))
    case Stop =>
      var session := StopSection(s.session);
      s.(session := session, history := Terminal(s, session),
         owner := if StopsTransport(s.session) then ClosingTransport(false) else Free)
    case SimulateDisconnect => s.(owner := ClosingTransport(true))
    case Shutdown =>
      if !s.accepting && s.worker == NoWorker then s.(owner := Free)
      else s.(accepting := false, stopRequested := true, pending := [], owner := Joining(s.owner.notify))
    case Join => s.(worker := NoWorker, stopRequested := false, owner := if s.owner.notify then Notifying else Free)
    case NotifyDisconnect =>
      var session := OnDisconnected(s.session);
      s.(session := session, history := Terminal(s, session), owner := Free)
  }

  // --------------------------------------------------------------------- runs

  ghost predicate Next(s: System, t: System) {
    exists e :: Enabled(s, e) && t == Apply(s, e)
  }

  ghost predicate Moves(trace: seq<System>, i: nat)
    requires i + 1 < |trace|
  {
    Next(trace[i], trace[i + 1])
  }

  ghost predicate IsRun(trace: seq<System>) {
    && trace != []
    && trace[0] == Initial(trace[0].session.out.lastArrival)
    && forall i: nat {:trigger Moves(trace, i)} :: i + 1 < |trace| ==> Moves(trace, i)
  }

  lemma Extend(trace: seq<System>, e: Event) returns (longer: seq<System>)
    requires IsRun(trace) && Enabled(Last(trace), e)
    ensures IsRun(longer) && longer == trace + [Apply(Last(trace), e)]
  {
    longer := trace + [Apply(Last(trace), e)];
    forall i: nat | i + 1 < |longer| ensures Moves(longer, i) {
      if i + 1 < |trace| {
        assert Moves(trace, i);
        assert longer[i] == trace[i] && longer[i + 1] == trace[i + 1];
      } else {
        assert Enabled(longer[i], e) && longer[i + 1] == Apply(longer[i], e);
      }
    }
  }

  // --------------------------------------------------------------- invariants

  function InHand(w: Worker): seq<StateFrame> {
    if w.Holding? then [w.frame] else []
  }

  /** Everything that came through the queue so far and is still coming. */
  function Line(s: System): seq<StateFrame> {
    s.handled + InHand(s.worker) + s.pending
  }

  predicate Ordered(frames: seq<StateFrame>) {
    forall i, j :: 0 <= i < j < |frames| ==> frames[i].sequence < frames[j].sequence
  }

  ghost predicate AccountInvariant(s: System) {
    && Accounted(s.session.out, s.history)
    && s.history.terminal == (if s.started && s.session.state != Running then 1 else 0)
    && (s.session.state == Running ==> s.started && !s.session.watchdogExit)
    && (s.session.state != Running ==> !s.session.out.armed)
    && (s.failed ==> s.started && s.session.state != Running)
    && (!s.started ==> s.session.state in {Created, Stopped, Faulted} && s.history == NO_HISTORY)
  }

  /** Before the transport is started nothing moves. */
  ghost predicate LaunchInvariant(s: System) {
    && (s.session.state == Created ==> !s.started)
    && (!s.started ==> 
          && s.submitter == Ready && (s.owner == Free || s.owner == ClosingTransport(false))
          && s.session.state in {Created, Stopped, Faulted})
    && (!s.started || s.owner == StartingTransport ==>
          s.worker == NoWorker && !s.accepting && s.sent == [] && Line(s) == [])
  }

  ghost predicate OrderInvariant(s: System) {
    && Ordered(Line(s))
    && (forall f :: f in Line(s) ==> s.session.hasSubmitted && f.sequence <= s.session.highestSubmitted)
    && (s.submitter.Sending? ==>
          && s.session.hasSubmitted && s.submitter.frame.sequence == s.session.highestSubmitted
          && forall f :: f in Line(s) ==> f.sequence < s.submitter.frame.sequence)
  }

  /** While the session runs its history is exactly what was handed to it. */
  ghost predicate HandledInvariant(s: System) {
    s.session.state == Running ==> s.handled == Frames(s.history.accepted)
  }

  function Frames(a: seq<Arrival>): (r: seq<StateFrame>)
    ensures |r| == |a|
  {
    seq(|a|, i requires 0 <= i < |a| => a[i].frame)
  }

  ghost predicate QueueInvariant(s: System) {
    && |s.pending| <= MAXIMUM_QUEUED_FRAMES
    && AdjacentDistinct(Masks(s.pending))
    && (s.accepting ==> Coalesced(Line(s), s.sent))
  }

  /** The frame that was admitted and that the transport has not taken. */
  function InSubmission(s: Submitter): seq<StateFrame> {
    if s.Ready? then [] else [s.frame]
  }

  ghost predicate AdmittedInvariant(s: System) {
    && Ordered(s.admitted)
    && (s.session.hasSubmitted <==> s.admitted != [])
    && (s.admitted != [] ==> s.session.highestSubmitted == Last(s.admitted).sequence)
    && (s.session.state == Running || !s.started ==> s.admitted == s.sent + InSubmission(s.submitter))
  }

  ghost predicate Invariant(s: System) {
    && AccountInvariant(s) && LaunchInvariant(s) && OrderInvariant(s)
    && HandledInvariant(s) && QueueInvariant(s) && AdmittedInvariant(s)
  }

  lemma AdmittedSubmit(s: System, f: StateFrame)
    requires AdmittedInvariant(s) && Enabled(s, Submit(f))
    ensures AdmittedInvariant(Apply(s, Submit(f)))
  {
    if Admit(s.session, f) == Ok {
      assert s.admitted + [f] == s.sent + [] + [f] == s.sent + [f];
    }
  }

  lemma AdmittedSend(s: System)
    requires AdmittedInvariant(s) && Enabled(s, Send)
    ensures AdmittedInvariant(Apply(s, Send))
  {
    assert s.sent + [s.submitter.frame] + [] == s.sent + [s.submitter.frame];
  }

  lemma AdmittedStep(s: System, e: Event)
    requires AccountInvariant(s) && LaunchInvariant(s) && AdmittedInvariant(s) && Enabled(s, e)
    ensures AdmittedInvariant(Apply(s, e))
  {
    if e.Submit? {
      AdmittedSubmit(s, e.frame);
    } else if e == Send {
      AdmittedSend(s);
    } else {
      AdmittedOther(s, e);
    }
  }

  /** A step that neither submits nor sends leaves the submitted frames alone, or ends the session. */
  predicate SubmissionKept(s: System, t: System) {
    && t.admitted == s.admitted && t.sent == s.sent
    && t.session.hasSubmitted == s.session.hasSubmitted
    && t.session.highestSubmitted == s.session.highestSubmitted
    && (t.session.state == Running || !t.started ==>
          t.submitter == s.submitter && (s.session.state == Running || !s.started))
  }

  lemma OtherKeepsSubmission(s: System, e: Event)
    requires AccountInvariant(s) && LaunchInvariant(s) && Enabled(s, e) && !e.Submit? && e != Send
    ensures SubmissionKept(s, Apply(s, e))
  {
  }

  lemma AdmittedOther(s: System, e: Event)
    requires AccountInvariant(s) && LaunchInvariant(s) && AdmittedInvariant(s) && Enabled(s, e)
    requires !e.Submit? && e != Send
    ensures AdmittedInvariant(Apply(s, e))
  {
    OtherKeepsSubmission(s, e);
    KeptAdmitted(s, Apply(s, e));
  }

  lemma KeptAdmitted(s: System, t: System)
    requires AdmittedInvariant(s) && SubmissionKept(s, t)
    ensures AdmittedInvariant(t)
  {
  }

  lemma TakeOne(handled: seq<StateFrame>, pending: seq<StateFrame>)
    requires pending != []
    ensures handled + [] + pending == handled + [pending[0]] + pending[1..]
  {
  }

  lemma LineTaken(s: System)
    requires Enabled(s, Take)
    ensures Line(Apply(s, Take)) == Line(s)
  {
    TakeOne(s.handled, s.pending);
  }

  lemma LineDelivered(s: System, now: nat, submitted: bool)
    requires Enabled(s, Deliver(now, submitted))
    ensures Line(Apply(s, Deliver(now, submitted))) == Line(s)
  {
    var t := Apply(s, Deliver(now, submitted));
    assert t.handled == s.handled + [s.worker.frame] && t.pending == s.pending && InHand(t.worker) == [];
  }

  /** Only sending and shutting down change what is in the line. */
  lemma LineKept(s: System, e: Event)
    requires Enabled(s, e) && e != Send && e != Shutdown && (e == StartTransport ==> Line(s) == [])
    ensures Line(Apply(s, e)) == Line(s)
  {
    if e == Take {
      LineTaken(s);
    } else if e.Deliver? {
      LineDelivered(s, e.now, e.submitted);
    } else {
      var t := Apply(s, e);
      assert InHand(t.worker) == InHand(s.worker) && t.handled == s.handled;
    }
  }

  lemma AccountDeliver(s: System, now: nat, submitted: bool)
    requires AccountInvariant(s) && Enabled(s, Deliver(now, submitted))
    ensures AccountInvariant(Apply(s, Deliver(now, submitted)))
  {
    if Takes(s.session, s.worker.frame) {
      if submitted {
        AcceptAccounted(s.session.out, s.history, s.worker.frame, now);
      } else {
        NeutralizeAccounted(s.session.out, s.history, s.history.(terminal := s.history.terminal + 1));
      }
    }
  }

  lemma AccountEnding(s: System, e: Event)
    requires AccountInvariant(s) && LaunchInvariant(s) && Enabled(s, e)
    requires e == GiveUp || e == Stop || e == NotifyDisconnect
    ensures AccountInvariant(Apply(s, e))
  {
    NeutralizeAccounted(s.session.out, s.history, s.history.(terminal := s.history.terminal + 1));
  }

  predicate Quiet(e: Event) {
    e.StartTransport? || e.Submit? || e.Send? || e.Take? || e.EndWorker? || e.SimulateDisconnect?
    || e.Shutdown? || e.Join?
  }

  /** The output side of the session is untouched. */
  predicate OutputKept(s: System, t: System) {
    && t.session.state == s.session.state && t.session.out == s.session.out
    && t.session.watchdogExit == s.session.watchdogExit && t.history == s.history
    && t.started == s.started && t.failed == s.failed && t.handled == s.handled
  }

  lemma QueueStep(s: System, e: Event)
    requires Enabled(s, e) && (e.Submit? || e.Send? || e.Take? || e.EndWorker?)
    ensures OutputKept(s, Apply(s, e))
  {
  }

  lemma OwnerStep(s: System, e: Event)
    requires Enabled(s, e) && (e.StartTransport? || e.SimulateDisconnect? || e.Shutdown? || e.Join?)
    ensures OutputKept(s, Apply(s, e))
  {
  }

  /** The steps of the queue and of its owner do not touch the output side of the session. */
  lemma QuietStep(s: System, e: Event)
    requires Enabled(s, e) && Quiet(e)
    ensures OutputKept(s, Apply(s, e))
  {
    if e.Submit? || e.Send? || e.Take? || e.EndWorker? {
      QueueStep(s, e);
    } else {
      OwnerStep(s, e);
    }
  }

  lemma AccountStep(s: System, e: Event)
    requires AccountInvariant(s) && LaunchInvariant(s) && Enabled(s, e)
    ensures AccountInvariant(Apply(s, e))
  {
    if Quiet(e) {
      QuietStep(s, e);
    } else if e.Deliver? {
      AccountDeliver(s, e.now, e.submitted);
    } else if e == Watchdog {
      NeutralizeAccounted(s.session.out, s.history, s.history.(watchdog := s.history.watchdog + 1));
    } else if !e.Start? {
      AccountEnding(s, e);
    }
  }

  lemma LaunchStep(s: System, e: Event)
    requires LaunchInvariant(s) && Enabled(s, e)
    ensures LaunchInvariant(Apply(s, e))
  {
  }

  // -------------------------------------------------- the queue and its order

  lemma ShutdownOrder(s: System)
    requires OrderInvariant(s) && QueueInvariant(s) && Enabled(s, Shutdown)
    ensures OrderInvariant(Apply(s, Shutdown)) && QueueInvariant(Apply(s, Shutdown))
  {
    var taken := s.handled + InHand(s.worker);
    assert Line(s) == taken + s.pending;
    if s.accepting || s.worker != NoWorker {
      assert Line(Apply(s, Shutdown)) == taken == Line(s)[..|taken|];
    }
  }

  /** The line after a frame was sent: one frame longer, or its newest frame replaced. */
  lemma LineSent(s: System)
    requires Enabled(s, Send) && s.accepting && Push(s.pending, s.submitter.frame).Some?
    ensures var f, line := s.submitter.frame, Line(s);
            Line(Apply(s, Send)) == line + [f] || (line != [] && Line(Apply(s, Send)) == Front(line) + [f])
  {
    var f, taken := s.submitter.frame, s.handled + InHand(s.worker);
    var pushed := Push(s.pending, f).value;
    assert Line(s) == taken + s.pending && Line(Apply(s, Send)) == taken + pushed;
    if pushed == s.pending + [f] {
      assert taken + pushed == Line(s) + [f];
    } else {
      assert taken + pushed == Front(Line(s)) + [f];
    }
  }

  lemma SendOrder(s: System)
    requires OrderInvariant(s) && Enabled(s, Send)
    ensures OrderInvariant(Apply(s, Send))
  {
    if s.accepting && Push(s.pending, s.submitter.frame).Some? {
      LineSent(s);
    }
  }

  lemma SendQueue(s: System)
    requires QueueInvariant(s) && Enabled(s, Send)
    ensures QueueInvariant(Apply(s, Send))
  {
    var f := s.submitter.frame;
    if s.accepting && Push(s.pending, f).Some? {
      PushDistinct(s.pending, f);
      var taken, t := s.handled + InHand(s.worker), Apply(s, Send);
      PushCoalesced(taken, s.pending, s.sent, f);
      SameLine(taken + Push(s.pending, f).value, Line(t), t.sent);
    }
  }

  lemma OrderStep(s: System, e: Event)
    requires LaunchInvariant(s) && OrderInvariant(s) && QueueInvariant(s) && Enabled(s, e)
    ensures OrderInvariant(Apply(s, e)) && QueueInvariant(Apply(s, e))
  {
    if e == Send {
      SendOrder(s);
      SendQueue(s);
    } else if e == Shutdown {
      ShutdownOrder(s);
    } else {
      LineKept(s, e);
      KeptOrder(s, e);
      KeptQueue(s, e);
    }
  }

  lemma KeptOrder(s: System, e: Event)
    requires OrderInvariant(s) && Enabled(s, e)
    requires e != Send && e != Shutdown && Line(Apply(s, e)) == Line(s)
    ensures OrderInvariant(Apply(s, e))
  {
  }

  lemma KeptQueue(s: System, e: Event)
    requires LaunchInvariant(s) && QueueInvariant(s) && Enabled(s, e)
    requires e != Send && e != Shutdown && Line(Apply(s, e)) == Line(s)
    ensures QueueInvariant(Apply(s, e))
  {
    if e == Take {
      PopDistinct(s.pending);
    }
    if e == StartTransport {
      var t := Apply(s, e);
      EmptyCoalesced(Line(t), t.sent);
    }
  }

  /** A frame in hand is newer than everything handled, so a running session takes it. */
  lemma HeldFrameIsFresh(s: System)
    requires Invariant(s) && s.worker.Holding? && s.session.state == Running
    ensures Takes(s.session, s.worker.frame)
  {
    var n := |s.handled|;
    assert Line(s)[n] == s.worker.frame;
    if n > 0 {
      assert Line(s)[n - 1] == s.handled[n - 1] == Last(s.history.accepted).frame;
    }
  }

  lemma HandledDeliver(s: System, now: nat, submitted: bool)
    requires Invariant(s) && Enabled(s, Deliver(now, submitted)) && s.session.state == Running
    ensures HandledInvariant(Apply(s, Deliver(now, submitted)))
  {
    HeldFrameIsFresh(s);
    var arrival := Arrival(s.worker.frame, now);
    assert Frames(s.history.accepted + [arrival]) == Frames(s.history.accepted) + [arrival.frame];
  }

  lemma HandledStep(s: System, e: Event)
    requires AccountInvariant(s) && LaunchInvariant(s) && HandledInvariant(s) && Enabled(s, e)
    requires e.Deliver? ==> s.session.state != Running
    ensures HandledInvariant(Apply(s, e))
  {
    if Quiet(e) {
      QuietStep(s, e);
    } else if e.Start? {
      assert Line(s) == [] && s.handled == [];
    }
  }

  lemma StepKeepsInvariant(s: System, e: Event)
    requires Invariant(s) && Enabled(s, e)
    ensures Invariant(Apply(s, e))
  {
    AccountStep(s, e);
    LaunchStep(s, e);
    OrderStep(s, e);
    AdmittedStep(s, e);
    if e.Deliver? && s.session.state == Running {
      HandledDeliver(s, e.now, e.submitted);
    } else {
      HandledStep(s, e);
    }
  }

  lemma InitialInvariant(epoch: nat)
    ensures Invariant(Initial(epoch))
  {
    NothingAccounted(epoch);
    assert Line(Initial(epoch)) == [];
  }

  lemma FirstInvariant(trace: seq<System>)
    requires IsRun(trace)
    ensures Invariant(trace[0])
  {
    InitialInvariant(trace[0].session.out.lastArrival);
  }

  lemma {:induction false} RunInvariant(trace: seq<System>, i: nat)
    requires IsRun(trace) && i < |trace|
    ensures Invariant(trace[i])
  {
    if i == 0 {
      FirstInvariant(trace);
    } else {
      RunInvariant(trace, i - 1);
      assert Moves(trace, i - 1);
      var e :| Enabled(trace[i - 1], e) && trace[i] == Apply(trace[i - 1], e);
      StepKeepsInvariant(trace[i - 1], e);
    }
  }

  // ------------------------------------------------------------------ theorems

  /**
   End to end no button edge is lost: while the session runs and accepts, the frames it
   accepted, the one in the worker's hand and the pending ones are part of what was sent,
   end in the newest frame, and show every change of the button mask.
   */
  lemma NoEdgeLost(trace: seq<System>, i: nat)
    requires IsRun(trace) && i < |trace|
    requires trace[i].session.state == Running && trace[i].accepting
    ensures Coalesced(Frames(trace[i].history.accepted) + InHand(trace[i].worker) + trace[i].pending, trace[i].sent)
    ensures InOrder(trace[i].history.accepted)
    ensures trace[i].admitted == trace[i].sent + InSubmission(trace[i].submitter)
  {
    RunInvariant(trace, i);
  }

  /** What `SubmitState` says of a frame before it hands it on, over the frames it let pass before. */
  lemma AdmissionTells(trace: seq<System>, i: nat, f: StateFrame)
    requires IsRun(trace) && i < |trace|
    ensures var s := trace[i];
            var running, stale := s.session.state == Running, exists g :: g in s.admitted && f.sequence <= g.sequence;
            && (Admit(s.session, f) == InvalidState <==> !running)
            && (Admit(s.session, f) == StaleSequence <==> running && stale)
            && (Admit(s.session, f) == Ok <==> running && !stale)
  {
    RunInvariant(trace, i);
    var s := trace[i];
    if s.admitted != [] {
      assert Last(s.admitted) in s.admitted;
      forall g | g in s.admitted ensures g.sequence <= Last(s.admitted).sequence {
        var k :| 0 <= k < |s.admitted| && s.admitted[k] == g;
      }
    }
  }

  /**
   What is submitted is what is shown: on a running session with an idle worker and an empty
   queue the four steps put exactly the frame submitted on the virtual pad.
   */
  lemma SubmittedIsShown(trace: seq<System>, f: StateFrame, now: nat)
    requires IsRun(trace) && Admit(Last(trace).session, f) == Ok && Last(trace).submitter == Ready
    requires var s := Last(trace); s.accepting && s.pending == [] && s.worker == Waiting && !s.stopRequested
    ensures var s := Last(trace);
            && Enabled(s, Submit(f)) && var s1 := Apply(s, Submit(f));
            && Enabled(s1, Send) && var s2 := Apply(s1, Send);
            && s2.submitter == Ready && s2.sent == s.sent + [f] && s2.pending == [f]
            && Enabled(s2, Take) && var s3 := Apply(s2, Take);
            && Enabled(s3, Deliver(now, true)) && var s4 := Apply(s3, Deliver(now, true));
            && s4.history.accepted == s.history.accepted + [Arrival(f, now)]
            && Shown(s4.session.out) == f.state && s4.session.out.lastTimestampUs == f.timestampUs
            && s4.session.out.armed && s4.pending == [] && s4.worker == Waiting
  {
    var s := Last(trace);
    RunInvariant(trace, |trace| - 1);
    StepKeepsInvariant(s, Submit(f));
    var s1 := Apply(s, Submit(f));
    SendToEmpty(s1, f);
    StepKeepsInvariant(s1, Send);
    TakenIsShown(Apply(s1, Send), f, now);
  }

  lemma TakenIsShown(s: System, f: StateFrame, now: nat)
    requires Invariant(s) && s.pending == [f] && s.worker == Waiting && !s.stopRequested
    requires s.session.state == Running
    ensures Enabled(s, Take) && Enabled(Apply(s, Take), Deliver(now, true))
    ensures var t := Apply(Apply(s, Take), Deliver(now, true));
            && t.history.accepted == s.history.accepted + [Arrival(f, now)]
            && Shown(t.session.out) == f.state && t.session.out.lastTimestampUs == f.timestampUs
            && t.session.out.armed && t.pending == [] && t.worker == Waiting
  {
    StepKeepsInvariant(s, Take);
    HeldFrameIsFresh(Apply(s, Take));
  }

  lemma SendToEmpty(s: System, f: StateFrame)
    requires s.submitter == Sending(f) && s.accepting && s.pending == []
    ensures Apply(s, Send) == s.(pending := [f], sent := s.sent + [f], submitter := Ready)
  {
  }

  /** Behind a queue that is not empty the frame submitted is the newest one pending. */
  lemma SubmittedIsPending(trace: seq<System>, f: StateFrame)
    requires IsRun(trace) && Admit(Last(trace).session, f) == Ok && Last(trace).submitter == Ready
    requires Last(trace).accepting && Push(Last(trace).pending, f).Some?
    ensures var s := Last(trace);
            && Enabled(s, Submit(f)) && var s1 := Apply(s, Submit(f));
            && Enabled(s1, Send) && var s2 := Apply(s1, Send);
            && s2.submitter == Ready && s2.sent == s.sent + [f] && s2.admitted == s.admitted + [f]
            && s2.pending != [] && Last(s2.pending) == f && s2.session.highestSubmitted == f.sequence
  {
  }

  /** What ended a running session can be read off its state, whichever step it was. */
  lemma EndingsTellTheCause(trace: seq<System>, i: nat, e: Event)
    requires IsRun(trace) && i < |trace| && trace[i].session.state == Running && Enabled(trace[i], e)
    ensures var state := Apply(trace[i], e).session.state;
            && (state == Stopped <==> e == Stop)
            && (state == Disconnected <==> e == GiveUp || e == NotifyDisconnect)
            && (state == Faulted <==> e.Deliver? && !e.submitted)
            && state != Created
  {
    RunInvariant(trace, i);
    if e.Deliver? {
      HeldFrameIsFresh(trace[i]);
    }
    EndOfStep(trace[i], e);
  }

  /** The state a step leaves a running session in. */
  function EndState(e: Event): SessionState {
    match e
    case Stop => Stopped
    case GiveUp => Disconnected
    case NotifyDisconnect => Disconnected
    case Deliver(_, submitted) => if submitted then Running else Faulted
    case _ => Running
  }

  lemma EndOfStep(s: System, e: Event)
    requires Enabled(s, e) && s.session.state == Running && (e.Deliver? ==> Takes(s.session, s.worker.frame))
    ensures Apply(s, e).session.state == EndState(e)
  {
    if Quiet(e) {
      QuietStep(s, e);
    }
  }

  /** Until the session ends every delivered frame that the virtual pad takes is accepted. */
  lemma DeliveredIsAccepted(trace: seq<System>, i: nat, now: nat)
    requires IsRun(trace) && i < |trace|
    requires trace[i].session.state == Running && trace[i].worker.Holding?
    ensures var t := Apply(trace[i], Deliver(now, true));
            && t.session.state == Running
            && t.history.accepted == trace[i].history.accepted + [Arrival(trace[i].worker.frame, now)]
            && Shown(t.session.out) == trace[i].worker.frame.state
  {
    RunInvariant(trace, i);
    HeldFrameIsFresh(trace[i]);
  }

  /** An accepting queue refuses only a new mask on top of 64 pending adjacent-distinct masks. */
  lemma RefusedOnlyWhenFull(trace: seq<System>, i: nat)
    requires IsRun(trace) && i < |trace|
    requires trace[i].submitter.Sending? && trace[i].accepting
    ensures AdjacentDistinct(Masks(trace[i].pending))
    ensures Apply(trace[i], Send).submitter.Refused? <==>
              |trace[i].pending| == 64 &&
              Last(trace[i].pending).state.buttonFlags != trace[i].submitter.frame.state.buttonFlags
  {
    RunInvariant(trace, i);
    RefusalMeaning(trace[i].pending, trace[i].submitter.frame);
    SendOutcome(trace[i]);
  }

  lemma SendOutcome(s: System)
    requires Enabled(s, Send) && s.accepting
    ensures Apply(s, Send).submitter.Refused? <==> Push(s.pending, s.submitter.frame).None?
  {
  }

  lemma RunAccounts(trace: seq<System>, i: nat)
    requires IsRun(trace) && i < |trace|
    ensures AccountInvariant(trace[i]) && LaunchInvariant(trace[i])
  {
    RunInvariant(trace, i);
  }

  lemma StepOver(s: System, e: Event)
    requires AccountInvariant(s) && LaunchInvariant(s) && s.started && s.session.state != Running && Enabled(s, e)
    ensures var t := Apply(s, e);
            && t.started && t.session.state != Running
            && t.session.out == s.session.out && t.history == s.history
  {
  }

  lemma MoveOver(trace: seq<System>, i: nat)
    requires IsRun(trace) && i + 1 < |trace|
    requires trace[i].started && trace[i].session.state != Running
    ensures trace[i + 1].started && trace[i + 1].session.state != Running
    ensures trace[i + 1].session.out == trace[i].session.out && trace[i + 1].history == trace[i].history
  {
    RunAccounts(trace, i);
    assert Moves(trace, i);
    var e :| Enabled(trace[i], e) && trace[i + 1] == Apply(trace[i], e);
    StepOver(trace[i], e);
  }

  /** A session that is over stays over: nothing more is accepted or shown. */
  lemma {:induction false} OverIsForEver(trace: seq<System>, i: nat, j: nat)
    requires IsRun(trace) && i <= j < |trace|
    requires trace[i].started && trace[i].session.state != Running
    ensures trace[j].started && trace[j].session.state != Running
    ensures trace[j].session.out == trace[i].session.out && trace[j].history == trace[i].history
  {
    if i < j {
      OverIsForEver(trace, i, j - 1);
      MoveOver(trace, j - 1);
    }
  }

  /** Once a `SubmitState` has returned a backend failure, no frame ever becomes output. */
  lemma NothingAfterFailure(trace: seq<System>, i: nat, j: nat)
    requires IsRun(trace) && i <= j < |trace| && trace[i].failed
    ensures Shown(trace[j].session.out) == NEUTRAL
    ensures trace[j].history.accepted == trace[i].history.accepted
  {
    RunAccounts(trace, i);
    OverIsForEver(trace, i, j);
  }

  /** The same accounts as on the LAN: see `LanServer.NeutralizationAccounting`. */
  lemma NeutralizationAccounting(trace: seq<System>, i: nat)
    requires IsRun(trace) && i < |trace|
    ensures var s := trace[i];
            var o := s.session.out;
            && s.history.watchdog + (if o.armed then 1 else 0) <= o.acceptedCount == |s.history.accepted|
            && s.history.terminal == (if s.started && s.session.state != Running then 1 else 0)
            && o.neutralizations == s.history.watchdog + s.history.terminal <= o.acceptedCount + 1
            && |o.pad| == o.acceptedCount + o.neutralizations
            && (!o.armed ==> Shown(o) == NEUTRAL == o.current)
            && (s.session.state != Running ==> !o.armed)
  {
    RunInvariant(trace, i);
  }

  // -------------------------------------------------- the gap before the failure

  /** Frames 1, 2, ..., n with masks 1, 0, 1, ... */
  function Toggling(n: nat): (r: seq<StateFrame>)
    requires n <= 100
    ensures |r| == n
  {
    seq(n, i requires 0 <= i < n => Toggle(i + 1))
  }

  function Toggle(k: nat): StateFrame
    requires k <= 100
  {
    StateFrame(NEUTRAL.(buttonFlags := k % 2), k, 0)
  }

  function Filled(n: nat, epoch: nat): System
    requires n <= 64
  {
    System(SessionFields(Running, n > 0, n, false, NewOutput(epoch)), true, false, Toggling(n), Ready, Waiting, Free,
           true, NO_HISTORY, Toggling(n), Toggling(n), [], false)
  }

  lemma {:induction false} Fill(n: nat, epoch: nat) returns (trace: seq<System>)
    requires n <= 64
    ensures IsRun(trace) && Last(trace) == Filled(n, epoch)
  {
    if n == 0 {
      trace := [Initial(epoch)];
      trace := Extend(trace, Start(true));
      trace := Extend(trace, StartTransport);
    } else {
      trace := Fill(n - 1, epoch);
      var s, f := Last(trace), Toggle(n);
      assert n > 1 ==> Last(s.pending) == Toggle(n - 1);
      trace := Extend(trace, Submit(f));
      assert Toggling(n) == Toggling(n - 1) + [f];
      assert Last(trace) == s.(session := s.session.(hasSubmitted := true, highestSubmitted := n),
                                 submitter := Sending(f), admitted := Toggling(n));
      trace := Extend(trace, Send);
    }
  }

  /** The worker has a frame, or will take one, for a session that still runs. */
  predicate CanAccept(s: System) {
    s.session.state == Running &&
    (s.worker.Holding? || (s.pending != [] && s.worker == Waiting && !s.stopRequested))
  }

  /** A session that is over, or one whose submitter was refused and whose worker has nothing to deliver. */
  predicate Barred(s: System) {
    s.started && (s.session.state == Running ==> s.submitter.Refused? && !CanAccept(s))
  }

  lemma BarredDeliver(s: System, now: nat, submitted: bool)
    requires Barred(s) && Enabled(s, Deliver(now, submitted))
    ensures Barred(Apply(s, Deliver(now, submitted)))
    ensures Apply(s, Deliver(now, submitted)).history.accepted == s.history.accepted
  {
  }

  lemma BarredEnding(s: System, e: Event)
    requires Barred(s) && Enabled(s, e) && (e == GiveUp || e == Stop || e == NotifyDisconnect || e == Watchdog)
    ensures Barred(Apply(s, e)) && Apply(s, e).history.accepted == s.history.accepted
  {
  }

  lemma BarredQuiet(s: System, e: Event)
    requires Barred(s) && Enabled(s, e) && Quiet(e)
    ensures Barred(Apply(s, e)) && Apply(s, e).history.accepted == s.history.accepted
  {
    QuietStep(s, e);
  }

  lemma MoveBarred(trace: seq<System>, i: nat)
    requires IsRun(trace) && i + 1 < |trace| && Barred(trace[i])
    ensures Barred(trace[i + 1]) && trace[i + 1].history.accepted == trace[i].history.accepted
  {
    RunAccounts(trace, i);
    assert Moves(trace, i);
    var s := trace[i];
    var e :| Enabled(s, e) && trace[i + 1] == Apply(s, e);
    if Quiet(e) {
      BarredQuiet(s, e);
    } else if e.Deliver? {
      BarredDeliver(s, e.now, e.submitted);
    } else {
      BarredEnding(s, e);
    }
  }

  lemma {:induction false} StaysBarred(trace: seq<System>, i: nat, j: nat)
    requires IsRun(trace) && i <= j < |trace| && Barred(trace[i])
    ensures trace[j].history.accepted == trace[i].history.accepted && Barred(trace[j])
  {
    if i < j {
      StaysBarred(trace, i, j - 1);
      MoveBarred(trace, j - 1);
    }
  }

  /** The run in which the worker delivers the frame it has or takes. */
  lemma DeliverNext(trace: seq<System>) returns (longer: seq<System>)
    requires IsRun(trace) && CanAccept(Last(trace))
    ensures IsRun(longer) && trace <= longer
    ensures |Last(longer).history.accepted| > |Last(trace).history.accepted|
  {
    longer := trace;
    if !Last(longer).worker.Holding? {
      longer := Extend(longer, Take);
    }
    RunInvariant(longer, |longer| - 1);
    HeldFrameIsFresh(Last(longer));
    longer := Extend(longer, Deliver(0, true));
  }

  /**
   Exactly when a refused frame is not the end of the output: from the refusal on, before the
   session is told, some frame may still be accepted if and only if the session runs and the
   worker holds a frame, or waits, unstopped, before a queue that is not empty.
   */
  lemma OutputAfterRefusalIff(trace: seq<System>)
    requires IsRun(trace) && Last(trace).submitter.Refused?
    ensures (exists longer :: IsRun(longer) && trace <= longer
                              && |Last(longer).history.accepted| > |Last(trace).history.accepted|)
            <==> CanAccept(Last(trace))
  {
    if CanAccept(Last(trace)) {
      var longer := DeliverNext(trace);
    } else {
      RunAccounts(trace, |trace| - 1);
      forall longer | IsRun(longer) && trace <= longer
        ensures |Last(longer).history.accepted| == |Last(trace).history.accepted|
      {
        StaysBarred(longer, |trace| - 1, |longer| - 1);
      }
    }
  }

  /**
   The failure is not final before it is returned: after the queue refused a frame, and
   before the session is told, the worker can still deliver one that becomes output.
   */
  lemma OutputAfterRefusal(epoch: nat) returns (trace: seq<System>)
    ensures IsRun(trace)
    ensures Last(trace).submitter == Refused(Toggle(65))
    ensures Last(trace).session.state == Running && Shown(Last(trace).session.out) == Toggle(1).state != NEUTRAL
  {
    trace := Fill(64, epoch);
    trace := FillOver(trace, epoch);
    var s := Last(trace);
    trace := Extend(trace, Take);
    assert Last(trace) == s.(worker := Holding(Toggle(1)), pending := s.pending[1..]);
    trace := Extend(trace, Deliver(0, true));
  }

  lemma FillOver(before: seq<System>, epoch: nat) returns (trace: seq<System>)
    requires IsRun(before) && Last(before) == Filled(64, epoch)
    ensures IsRun(trace)
    ensures Last(trace) == Filled(64, epoch).(session := Filled(64, epoch).session.(highestSubmitted := 65),
                                               submitter := Refused(Toggle(65)),
                                               admitted := Toggling(64) + [Toggle(65)])
  {
    trace := Extend(before, Submit(Toggle(65)));
    var s := Last(trace);
    assert s.submitter == Sending(Toggle(65)) && s.pending == Toggling(64) && Last(s.pending) == Toggle(64);
    trace := Extend(trace, Send);
  }
}
