/**
 Rumble end to end: the server's mailbox, the control stream, the client session, the SDL
 backend's mailbox and the motors, every atomic access being a step.
 */
module RumbleChain {
  import opened Protocol
  import opened Seqs
  import M = RumbleMailbox

  /** The client's control thread with a rumble frame: checks of session and pad, store, count. */
  datatype Forwarder = Waiting | Received(d: M.Delivery) | Admitted(d: M.Delivery) | Cleared(d: M.Delivery) | Stored

  datatype Pad = NotOpen | Open | Closed

  /**
   `received` counts the frames the client took off the stream; `kept` lists the positions of
   those that got as far as the second mailbox.
   */
  datatype System = System(
    server: M.Mailbox, received: nat, running: bool, forwarder: Forwarder, kept: seq<nat>,
    pad: Pad, polling: bool, client: M.Mailbox, motors: Rumble)

  datatype Event =
    | Command(command: Rumble)
    | CommandCounted
    | ServerGeneration
    | ServerPending
    | ServerSend
    | Receive
    | CheckSession
    | CheckPad
    | ForwardStore
    | ForwardCounted
    | PadGeneration
    | PadPending
    | PadRumble
    | SessionEnds
    | PadOpens
    | PollEnds
    | PadCloses

  function Initial(silence: Rumble): System {
    System(M.EMPTY, 0, true, Waiting, [], NotOpen, false, M.EMPTY, silence)
  }

  predicate Enabled(s: System, e: Event) {
    match e
    case Command(_) => true
    case CommandCounted => s.server.generation < |s.server.stored|
    case ServerGeneration => s.server.reader == M.AtTop
    case ServerPending => s.server.reader.SawGeneration?
    case ServerSend => s.server.reader.SawPending?
    case Receive => s.forwarder == Waiting && s.received < |s.server.out|
    case CheckSession => s.forwarder.Received?
    case CheckPad => s.forwarder.Admitted?
    case ForwardStore => s.forwarder.Cleared?
    case ForwardCounted => s.forwarder == Stored
    case PadGeneration => s.polling && s.client.reader == M.AtTop
    case PadPending => s.polling && s.client.reader.SawGeneration?
    case PadRumble => s.polling && s.client.reader.SawPending?
    case SessionEnds => true
    case PadOpens => s.pad == NotOpen
    case PollEnds => s.polling && s.client.reader == M.AtTop
    case PadCloses => s.pad == Open && !s.polling
  }

  /** The position on the stream of the frame in hand. */
  function Position(s: System): nat {
    if s.received == 0 then 0 else s.received - 1
  }

  function Apply(s: System, e: Event): System
    requires Enabled(s, e)
  {
    match e
    case Command(c) => s.(server := M.Store(s.server, M.Delivery(c, |s.server.stored|)))
    case CommandCounted => s.(server := M.Bump(s.server))
    case ServerGeneration => s.(server := M.LoadGeneration(s.server))
    case ServerPending => s.(server := M.LoadPending(s.server))
    case ServerSend => s.(server := M.Emit(s.server))
    case Receive => s.(forwarder := Received(s.server.out[s.received]), received := s.received + 1)
    case CheckSession => s.(forwarder := if s.running then Admitted(s.forwarder.d) else Waiting)
    case CheckPad => s.(forwarder := if s.pad == Open then Cleared(s.forwarder.d) else Waiting)
    case ForwardStore =>
      s.(client := M.Store(s.client, s.forwarder.d), forwarder := Stored, kept := s.kept + [Position(s)])
    case ForwardCounted => s.(client := M.Bump(s.client), forwarder := Waiting)
    case PadGeneration => s.(client := M.LoadGeneration(s.client))
    case PadPending => s.(client := M.LoadPending(s.client))
    case PadRumble =>
      var client := M.Emit(s.client);
      s.(client := client, motors := Last(client.out).command)
    case SessionEnds => s.(running := false)
    case PadOpens => s.(pad := Open, polling := true)
    case PollEnds => s.(polling := false, motors := Rumble(0, 0))
    case PadCloses => s.(pad := Closed)
  }

  ghost predicate Next(s: System, t: System) {
    exists e :: Enabled(s, e) && t == Apply(s, e)
  }

  ghost predicate Moves(trace: seq<System>, i: nat)
    requires i + 1 < |trace|
  {
    Next(trace[i], trace[i + 1])
  }

  ghost predicate IsRun(trace: seq<System>) {
    && trace != []
    && trace[0] == Initial(trace[0].motors) && trace[0].motors == Rumble(0, 0)
    && forall i: nat {:trigger Moves(trace, i)} :: i + 1 < |trace| ==> Moves(trace, i)
  }

  lemma Extend(trace: seq<System>, e: Event) returns (longer: seq<System>)
    requires IsRun(trace) && Enabled(Last(trace), e)
    ensures IsRun(longer) && Last(longer) == Apply(Last(trace), e)
  {
    longer := trace + [Apply(Last(trace), e)];
    forall i: nat | i + 1 < |longer| ensures Moves(longer, i) {
      if i + 1 < |trace| {
        assert Moves(trace, i);
        assert longer[i] == trace[i] && longer[i + 1] == trace[i + 1];
      } else {
        assert Enabled(longer[i], e) && longer[i + 1] == Apply(longer[i], e);
      }
    }
  }

  // ---------------------------------------------------------------- invariants

  /** Commands are numbered as they are issued. */
  ghost predicate Numbered(m: M.Mailbox) {
    forall i :: 0 <= i < |m.stored| ==> m.stored[i].index == i
  }

  predicate InHand(f: Forwarder) {
    f.Received? || f.Admitted? || f.Cleared?
  }

  /** The second mailbox is fed from the stream, in order. */
  ghost predicate Fed(s: System) {
    && s.received <= |s.server.out|
    && |s.kept| == |s.client.stored|
    && (forall i :: 0 <= i < |s.kept| ==> s.kept[i] < s.received && s.client.stored[i] == s.server.out[s.kept[i]])
    && (forall i, j :: 0 <= i < j < |s.kept| ==> s.kept[i] < s.kept[j])
    && (InHand(s.forwarder) ==>
          && s.received > 0 && s.forwarder.d == s.server.out[s.received - 1]
          && forall i :: 0 <= i < |s.kept| ==> s.kept[i] < s.received - 1)
  }

  ghost predicate Counting(s: System) {
    |s.client.stored| == s.client.generation + (if s.forwarder == Stored then 1 else 0)
  }

  ghost predicate Driven(s: System) {
    && (s.polling ==> s.pad == Open)
    && (s.pad == NotOpen ==> s.client.out == [])
    && s.motors == if s.polling && s.client.out != [] then Last(s.client.out).command else Rumble(0, 0)
  }

  ghost predicate Invariant(s: System) {
    && M.Invariant(s.server) && M.Invariant(s.client)
    && Numbered(s.server) && Fed(s) && Counting(s) && Driven(s)
  }

  lemma CommandStep(s: System, c: Rumble)
    requires Invariant(s)
    ensures Invariant(Apply(s, Command(c)))
  {
    M.StoreKeepsInvariant(s.server, M.Delivery(c, |s.server.stored|));
    StoreKeepsNumbered(s.server, c);
    SendKeepsFed(s, M.Store(s.server, M.Delivery(c, |s.server.stored|)));
  }

  lemma StoreKeepsNumbered(m: M.Mailbox, c: Rumble)
    requires Numbered(m)
    ensures Numbered(M.Store(m, M.Delivery(c, |m.stored|)))
  {
  }

  lemma ServerSendStep(s: System)
    requires Invariant(s) && Enabled(s, ServerSend)
    ensures Invariant(Apply(s, ServerSend))
  {
    M.EmitKeepsInvariant(s.server);
    SendKeepsFed(s, M.Emit(s.server));
  }

  lemma ServerStep(s: System, e: Event)
    requires Invariant(s) && Enabled(s, e)
    requires e.Command? || e == CommandCounted || e == ServerGeneration || e == ServerPending || e == ServerSend
    ensures Invariant(Apply(s, e))
  {
    if e.Command? {
      CommandStep(s, e.command);
    } else if e == CommandCounted {
      M.BumpKeepsInvariant(s.server);
    } else if e == ServerSend {
      ServerSendStep(s);
    } else {
      M.LoadKeepsInvariant(s.server);
    }
  }

  lemma SendKeepsFed(s: System, server: M.Mailbox)
    requires Fed(s) && s.server.out <= server.out
    ensures Fed(s.(server := server))
  {
    forall i | 0 <= i < |s.kept| ensures s.client.stored[i] == server.out[s.kept[i]] {
      assert server.out[s.kept[i]] == s.server.out[s.kept[i]];
    }
  }

  predicate IsForwarding(e: Event) {
    e == Receive || e == CheckSession || e == CheckPad || e == ForwardStore || e == ForwardCounted
  }

  lemma StoreStep(s: System)
    requires Invariant(s) && Enabled(s, ForwardStore)
    ensures Invariant(Apply(s, ForwardStore))
  {
    var n := |s.kept|;
    assert n > 0 ==> s.client.stored[n - 1] == s.server.out[s.kept[n - 1]];
    M.StoreKeepsInvariant(s.client, s.forwarder.d);
    StoreKeepsFed(s, M.Store(s.client, s.forwarder.d));
  }

  lemma StoreKeepsFed(s: System, client: M.Mailbox)
    requires Fed(s) && s.forwarder.Cleared? && client.stored == s.client.stored + [s.forwarder.d]
    ensures Fed(s.(client := client, forwarder := Stored, kept := s.kept + [Position(s)]))
  {
  }

  lemma CountStep(s: System)
    requires Invariant(s) && Enabled(s, ForwardCounted)
    ensures Invariant(Apply(s, ForwardCounted))
  {
    M.BumpKeepsInvariant(s.client);
  }

  lemma ReceiveStep(s: System)
    requires Fed(s) && Counting(s) && Enabled(s, Receive)
    ensures Fed(Apply(s, Receive)) && Counting(Apply(s, Receive))
  {
  }

  lemma CheckStep(s: System, e: Event)
    requires Fed(s) && Counting(s) && Enabled(s, e) && (e == CheckSession || e == CheckPad)
    ensures Fed(Apply(s, e)) && Counting(Apply(s, e))
  {
  }

  lemma ForwarderStep(s: System, e: Event)
    requires Invariant(s) && Enabled(s, e) && IsForwarding(e)
    ensures Invariant(Apply(s, e))
  {
    if e == ForwardStore {
      StoreStep(s);
    } else if e == ForwardCounted {
      CountStep(s);
    } else if e == Receive {
      ReceiveStep(s);
    } else {
      CheckStep(s, e);
    }
  }

  lemma PadLoad(s: System, e: Event)
    requires Invariant(s) && Enabled(s, e) && (e == PadGeneration || e == PadPending)
    ensures Invariant(Apply(s, e))
  {
    M.LoadKeepsInvariant(s.client);
  }

  lemma PadDrive(s: System)
    requires Invariant(s) && Enabled(s, PadRumble)
    ensures Invariant(Apply(s, PadRumble))
  {
    M.EmitKeepsInvariant(s.client);
  }

  lemma PadStep(s: System, e: Event)
    requires Invariant(s) && Enabled(s, e)
    requires e == PadGeneration || e == PadPending || e == PadRumble
    ensures Invariant(Apply(s, e))
  {
    if e == PadRumble {
      PadDrive(s);
    } else {
      PadLoad(s, e);
    }
  }

  predicate IsOwners(e: Event) {
    e == SessionEnds || e == PadOpens || e == PollEnds || e == PadCloses
  }

  lemma OwnerStep(s: System, e: Event)
    requires Invariant(s) && Enabled(s, e) && IsOwners(e)
    ensures Invariant(Apply(s, e))
  {
    OwnerDrives(s, e);
    var t := Apply(s, e);
    assert t.server == s.server && t.client == s.client && t.kept == s.kept;
    assert t.received == s.received && t.forwarder == s.forwarder;
  }

  lemma OwnerDrives(s: System, e: Event)
    requires Driven(s) && Enabled(s, e) && IsOwners(e)
    ensures Driven(Apply(s, e))
  {
  }

  lemma StepKeepsInvariant(s: System, e: Event)
    requires Invariant(s) && Enabled(s, e)
    ensures Invariant(Apply(s, e))
  {
    if IsForwarding(e) {
      ForwarderStep(s, e);
    } else if e == PadGeneration || e == PadPending || e == PadRumble {
      PadStep(s, e);
    } else if IsOwners(e) {
      OwnerStep(s, e);
    } else {
      ServerStep(s, e);
    }
  }

  lemma {:induction false} RunInvariant(trace: seq<System>, i: nat)
    requires IsRun(trace) && i < |trace|
    ensures Invariant(trace[i])
  {
    if i > 0 {
      RunInvariant(trace, i - 1);
      assert Moves(trace, i - 1);
      var e :| Enabled(trace[i - 1], e) && trace[i] == Apply(trace[i - 1], e);
      StepKeepsInvariant(trace[i - 1], e);
    }
  }

  // ------------------------------------------------------------------ theorems

  /** Both mailboxes quiet, the stream drained, no frame in hand, the poll loop running. */
  predicate AllQuiet(s: System) {
    && M.Quiet(s.server) && M.Quiet(s.client)
    && s.received == |s.server.out| && s.forwarder == Waiting && s.polling
  }

  /** A frame with the last command got as far as the second mailbox. */
  predicate LastCommandKept(s: System) {
    exists k :: k in s.kept && k < |s.server.out| && s.server.out[k].index == |s.server.stored| - 1
  }

  lemma LastOfBoth(s: System)
    requires Invariant(s) && s.server.stored != [] && s.client.stored != []
    ensures Last(s.client.stored) == Last(s.server.stored) <==> LastCommandKept(s)
  {
    var n, m := |s.server.stored| - 1, |s.kept| - 1;
    assert s.client.stored[m] == s.server.out[s.kept[m]] && s.kept[m] in s.kept;
    assert s.server.out[s.kept[m]] in s.server.stored;
    if LastCommandKept(s) {
      var k :| k in s.kept && k < |s.server.out| && s.server.out[k].index == n;
      var j :| 0 <= j < |s.kept| && s.kept[j] == k;
      assert s.client.stored[j].index == n && s.client.stored[m].index >= n;
    }
  }

  lemma KeptDecides(trace: seq<System>, i: nat)
    requires IsRun(trace) && i < |trace| && AllQuiet(trace[i]) && trace[i].server.stored != []
    ensures var s := trace[i];
            && (s.client.out != [] && Last(s.client.out) == Last(s.server.stored) <==> LastCommandKept(s))
            && (LastCommandKept(s) ==> s.motors == Last(s.server.stored).command)
  {
    RunInvariant(trace, i);
    var s := trace[i];
    if s.client.stored != [] {
      M.QuietMeansCurrent(s.client);
      LastOfBoth(s);
    }
  }

  // What the client's control thread found when it checked the frame at a position of the stream.

  /** Step `m` finds the session running for the frame at position `p`. */
  predicate Admits(trace: seq<System>, m: nat, p: nat)
    requires m + 1 < |trace|
  {
    trace[m].received == p + 1 && trace[m].forwarder.Received? && trace[m].running && trace[m + 1].forwarder.Admitted?
  }

  /** Step `m` finds the pad open for the frame at position `p`. */
  predicate Clears(trace: seq<System>, m: nat, p: nat)
    requires m + 1 < |trace|
  {
    && trace[m].received == p + 1 && trace[m].forwarder.Admitted? && trace[m].pad == Open
    && trace[m + 1].forwarder.Cleared?
  }

  /** Step `m` drops the frame at position `p`: the session does not run, or the pad is not open. */
  predicate Refuses(trace: seq<System>, m: nat, p: nat)
    requires m + 1 < |trace|
  {
    && trace[m].received == p + 1 && trace[m + 1].forwarder == Waiting
    && ((trace[m].forwarder.Received? && !trace[m].running) || (trace[m].forwarder.Admitted? && trace[m].pad != Open))
  }

  /** What one step does to the frame in hand. */
  predicate Handles(s: System, t: System) {
    || (t.forwarder == s.forwarder && t.received == s.received && t.kept == s.kept)
    || (s.forwarder == Waiting && t.forwarder.Received? && t.received == s.received + 1 && t.kept == s.kept)
    || (s.forwarder.Received? && t.received == s.received && t.kept == s.kept
        && if s.running then t.forwarder.Admitted? else t.forwarder == Waiting)
    || (s.forwarder.Admitted? && t.received == s.received && t.kept == s.kept
        && if s.pad == Open then t.forwarder.Cleared? else t.forwarder == Waiting)
    || (s.forwarder.Cleared? && t.received == s.received && t.forwarder == Stored && t.kept == s.kept + [Position(s)])
    || (s.forwarder == Stored && t.received == s.received && t.forwarder == Waiting && t.kept == s.kept)
  }

  /** A session that ended, and a pad that closed, stay so. */
  predicate GatesShut(s: System, t: System) {
    && (t.running ==> s.running)
    && (s.pad != NotOpen ==> t.pad != NotOpen)
    && (s.pad == Closed ==> t.pad == Closed)
  }

  lemma StepHandles(s: System, e: Event)
    requires Enabled(s, e)
    ensures Handles(s, Apply(s, e)) && GatesShut(s, Apply(s, e))
  {
  }

  lemma MoveHandles(trace: seq<System>, i: nat)
    requires IsRun(trace) && i + 1 < |trace|
    ensures Handles(trace[i], trace[i + 1]) && GatesShut(trace[i], trace[i + 1])
  {
    assert Moves(trace, i);
    var e :| Enabled(trace[i], e) && trace[i + 1] == Apply(trace[i], e);
    StepHandles(trace[i], e);
  }

  lemma {:induction false} Forward(trace: seq<System>, i: nat, j: nat)
    requires IsRun(trace) && i <= j < |trace|
    ensures trace[i].received <= trace[j].received && GatesShut(trace[i], trace[j])
  {
    if i < j {
      Forward(trace, i, j - 1);
      MoveHandles(trace, j - 1);
    }
  }

  /** The frame at position `p` is in the second mailbox, or will be after the store that comes next. */
  predicate IsThrough(s: System, p: nat) {
    p in s.kept || (s.forwarder.Cleared? && s.received == p + 1)
  }

  lemma {:induction false} ThroughWasCleared(trace: seq<System>, i: nat, p: nat) returns (m: nat)
    requires IsRun(trace) && i < |trace| && IsThrough(trace[i], p)
    ensures m < i && Clears(trace, m, p)
  {
    assert i > 0;
    MoveHandles(trace, i - 1);
    RunInvariant(trace, i - 1);
    if IsThrough(trace[i - 1], p) {
      m := ThroughWasCleared(trace, i - 1, p);
    } else {
      m := i - 1;
    }
  }

  lemma {:induction false} ClearedIsThrough(trace: seq<System>, m: nat, i: nat, p: nat)
    requires IsRun(trace) && m < i < |trace| && Clears(trace, m, p)
    ensures IsThrough(trace[i], p)
  {
    if m + 1 < i {
      ClearedIsThrough(trace, m, i - 1, p);
      MoveHandles(trace, i - 1);
      RunInvariant(trace, i - 1);
    } else {
      MoveHandles(trace, m);
    }
  }

  lemma {:induction false} ClearedWasAdmitted(trace: seq<System>, i: nat) returns (m: nat)
    requires IsRun(trace) && i < |trace| && trace[i].forwarder.Admitted?
    ensures m < i && trace[i].received > 0 && Admits(trace, m, trace[i].received - 1)
  {
    RunInvariant(trace, i);
    assert i > 0;
    MoveHandles(trace, i - 1);
    RunInvariant(trace, i - 1);
    if trace[i - 1].forwarder.Admitted? {
      m := ClearedWasAdmitted(trace, i - 1);
    } else {
      m := i - 1;
    }
  }

  /** A frame the client took that is neither in hand nor through was dropped at a closed gate. */
  lemma {:induction false} DroppedMetAClosedGate(trace: seq<System>, i: nat, p: nat) returns (m: nat)
    requires IsRun(trace) && i < |trace| && p < trace[i].received && p !in trace[i].kept
    requires InHand(trace[i].forwarder) ==> p + 1 < trace[i].received
    ensures m < i && Refuses(trace, m, p)
  {
    assert i > 0;
    MoveHandles(trace, i - 1);
    RunInvariant(trace, i - 1);
    var s := trace[i - 1];
    if p < s.received && (InHand(s.forwarder) ==> p + 1 < s.received) {
      m := DroppedMetAClosedGate(trace, i - 1, p);
    } else {
      m := i - 1;
    }
  }

  /** The checks of the frame at position `p` found the session running and then the pad open. */
  ghost predicate GotThrough(trace: seq<System>, i: nat, p: nat)
    requires i < |trace|
  {
    exists a: nat, c: nat :: a < c < i && Admits(trace, a, p) && Clears(trace, c, p)
  }

  lemma KeptIffGotThrough(trace: seq<System>, i: nat, p: nat)
    requires IsRun(trace) && i < |trace| && AllQuiet(trace[i])
    ensures p in trace[i].kept <==> GotThrough(trace, i, p)
  {
    if p in trace[i].kept {
      var c := ThroughWasCleared(trace, i, p);
      var a := ClearedWasAdmitted(trace, c);
      assert Admits(trace, a, p) && Clears(trace, c, p);
    }
    if GotThrough(trace, i, p) {
      var a: nat, c: nat :| a < c < i && Admits(trace, a, p) && Clears(trace, c, p);
      ClearedIsThrough(trace, c, i, p);
    }
  }

  /** The last command the server accepted was in a frame that got through. */
  ghost predicate LastCommandGotThrough(trace: seq<System>, i: nat)
    requires i < |trace|
  {
    var s := trace[i];
    exists p: nat :: GotThrough(trace, i, p) && p < |s.server.out| && s.server.out[p].index == |s.server.stored| - 1
  }

  /**
   When all is quiet the command given to the motors last is the last one the server accepted,
   if and only if a frame that carried it found the session running and the pad open.
   */
  lemma AgreesWhenQuiet(trace: seq<System>, i: nat)
    requires IsRun(trace) && i < |trace| && AllQuiet(trace[i]) && trace[i].server.stored != []
    ensures var s := trace[i];
            && (s.client.out != [] && Last(s.client.out) == Last(s.server.stored) <==> LastCommandGotThrough(trace, i))
            && (LastCommandGotThrough(trace, i) ==> s.motors == Last(s.server.stored).command)
  {
    KeptDecides(trace, i);
    var s := trace[i];
    if LastCommandKept(s) {
      var p :| p in s.kept && p < |s.server.out| && s.server.out[p].index == |s.server.stored| - 1;
      KeptIffGotThrough(trace, i, p);
    }
    if LastCommandGotThrough(trace, i) {
      var p: nat :| GotThrough(trace, i, p) && p < |s.server.out| && s.server.out[p].index == |s.server.stored| - 1;
      KeptIffGotThrough(trace, i, p);
    }
  }

  /** When all is quiet the motors run the command of the last frame that got through, or nothing. */
  lemma MotorsWhenQuiet(trace: seq<System>, i: nat)
    requires IsRun(trace) && i < |trace| && AllQuiet(trace[i])
    ensures var s := trace[i];
            && (forall p: nat :: GotThrough(trace, i, p) && (forall q: nat :: GotThrough(trace, i, q) ==> q <= p)
                  ==> p < |s.server.out| && s.motors == s.server.out[p].command)
            && ((forall q: nat :: !GotThrough(trace, i, q)) ==> s.motors == Rumble(0, 0))
  {
    RunInvariant(trace, i);
    var s := trace[i];
    forall q: nat ensures GotThrough(trace, i, q) <==> q in s.kept {
      KeptIffGotThrough(trace, i, q);
    }
    if s.kept != [] {
      M.QuietMeansCurrent(s.client);
      var last := Last(s.kept);
      assert last in s.kept && GotThrough(trace, i, last);
      assert Last(s.client.stored) == s.server.out[last];
    }
  }

  lemma LastFrameKeptIsEnough(trace: seq<System>, i: nat)
    requires IsRun(trace) && i < |trace| && AllQuiet(trace[i]) && trace[i].server.stored != []
    requires |trace[i].server.out| - 1 in trace[i].kept
    ensures trace[i].motors == Last(trace[i].server.stored).command
  {
    RunInvariant(trace, i);
    M.QuietMeansCurrent(trace[i].server);
    KeptDecides(trace, i);
  }

  /**
   While the pad stays open and the session runs the chain agrees: if the pad was open before
   the client took the last frame, and the session still runs when all is quiet, the motors
   run the last command the server accepted.
   */
  lemma OpenPadAgrees(trace: seq<System>, m: nat, i: nat)
    requires IsRun(trace) && m <= i < |trace| && AllQuiet(trace[i]) && trace[i].server.stored != []
    requires trace[m].pad == Open && trace[m].received < |trace[i].server.out| && trace[i].running
    ensures trace[i].motors == Last(trace[i].server.stored).command
  {
    RunInvariant(trace, i);
    var p := |trace[i].server.out| - 1;
    if p !in trace[i].kept {
      var k := DroppedMetAClosedGate(trace, i, p);
      Forward(trace, k, i);
      if k < m {
        Forward(trace, k, m);
        assert false;
      } else {
        Forward(trace, m, k);
        assert false;
      }
    }
    LastFrameKeptIsEnough(trace, i);
  }

  /** Every pair on the stream and every pair given to the motors is one issued command, never a mix. */
  lemma EveryPairWasIssued(trace: seq<System>, i: nat)
    requires IsRun(trace) && i < |trace|
    ensures forall d :: d in trace[i].server.out || d in trace[i].client.out ==>
              d.index < |trace[i].server.stored| && trace[i].server.stored[d.index] == d
    ensures trace[i].motors == Rumble(0, 0) || exists d :: d in trace[i].server.stored && d.command == trace[i].motors
  {
    RunInvariant(trace, i);
    var s := trace[i];
    forall d | d in s.client.out ensures d in s.server.out {
      var j :| 0 <= j < |s.client.stored| && s.client.stored[j] == d;
      assert s.server.out[s.kept[j]] == d;
    }
    forall d | d in s.server.out ensures d.index < |s.server.stored| && s.server.stored[d.index] == d {
      assert d in s.server.stored;
    }
    if s.polling && s.client.out != [] {
      var d := Last(s.client.out);
      assert d in s.client.out && d in s.server.out;
    }
  }

  /** The motors never go back to a command older than one they ran. */
  lemma NeverGoesBack(trace: seq<System>, i: nat)
    requires IsRun(trace) && i < |trace|
    ensures M.InStep(trace[i].server.out) && M.InStep(trace[i].client.out)
  {
    RunInvariant(trace, i);
  }

  lemma StepAfterPoll(s: System, e: Event)
    requires Invariant(s) && s.pad != NotOpen && !s.polling && Enabled(s, e)
    ensures Apply(s, e).pad != NotOpen && !Apply(s, e).polling
  {
  }

  lemma MoveAfterPoll(trace: seq<System>, i: nat)
    requires IsRun(trace) && i + 1 < |trace| && trace[i].pad != NotOpen && !trace[i].polling
    ensures trace[i + 1].pad != NotOpen && !trace[i + 1].polling
  {
    RunInvariant(trace, i);
    assert Moves(trace, i);
    var e :| Enabled(trace[i], e) && trace[i + 1] == Apply(trace[i], e);
    StepAfterPoll(trace[i], e);
  }

  /** Once the poll loop has ended the motors are off for ever, whatever still arrives. */
  lemma {:induction false} MotorsStayOff(trace: seq<System>, i: nat, j: nat)
    requires IsRun(trace) && i <= j < |trace| && trace[i].pad != NotOpen && !trace[i].polling
    ensures trace[j].pad != NotOpen && !trace[j].polling && trace[j].motors == Rumble(0, 0)
  {
    RunInvariant(trace, j);
    if i < j {
      MotorsStayOff(trace, i, j - 1);
      MoveAfterPoll(trace, j - 1);
    }
  }

  /**
   The proviso is needed: a command that reaches the client before its pad is open is lost,
   and nothing repeats it. All is quiet, and the motors are off.
   */
  lemma CommandBeforeThePadOpensIsLost(c: Rumble) returns (trace: seq<System>)
    ensures IsRun(trace) && AllQuiet(Last(trace))
    ensures |Last(trace).server.stored| == 1 && Last(trace).server.stored[0].command == c
    ensures Last(trace).running && Last(trace).pad == Open && Last(trace).motors == Rumble(0, 0)
  {
    trace := CommandOnTheStream(c);
    var s := Last(trace);
    trace := Extend(trace, Receive);
    trace := Extend(trace, CheckSession);
    trace := Extend(trace, CheckPad);
    assert Last(trace) == s.(received := 1);
    trace := Extend(trace, PadOpens);
  }

  lemma CommandOnTheStream(c: Rumble) returns (trace: seq<System>)
    ensures IsRun(trace)
    ensures var d := M.Delivery(c, 0);
            Last(trace) == Initial(Rumble(0, 0)).(server := M.Mailbox(M.Pack32(c), 1, [d], M.AtTop, 1, 1, [d]))
  {
    var start := Initial(Rumble(0, 0));
    trace := [start];
    var d := M.Delivery(c, 0);
    trace := Extend(trace, Command(c));
    trace := Extend(trace, CommandCounted);
    assert Last(trace).server == M.EMPTY.(pending := M.Pack32(c), generation := 1, stored := [d]);
    trace := Extend(trace, ServerGeneration);
    trace := Extend(trace, ServerPending);
    assert Last(trace).server.reader == M.SawPending(1, M.Pack32(c), 0, 1);
    M.UnpackPack32(c);
    trace := Extend(trace, ServerSend);
    assert Last(trace).server.out == [d];
  }

  // ------------------------------------------------------------ a command on its way

  /** A server mailbox whose reader has caught up passes a new command on. */
  lemma CommandLeaves(before: seq<System>, c: Rumble) returns (trace: seq<System>)
    requires IsRun(before) && AllQuiet(Last(before))
    ensures IsRun(trace)
    ensures var s := Last(before);
            var n, d := |s.server.stored| + 1, M.Delivery(c, |s.server.stored|);
            Last(trace) == s.(server :=
              M.Mailbox(M.Pack32(c), n, s.server.stored + [d], M.AtTop, n, n, s.server.out + [d]))
  {
    var s := Last(before);
    var n, d := |s.server.stored| + 1, M.Delivery(c, |s.server.stored|);
    trace := Extend(before, Command(c));
    trace := Extend(trace, CommandCounted);
    var m := s.server.(pending := M.Pack32(c), generation := n, stored := s.server.stored + [d]);
    assert Last(trace) == s.(server := m);
    trace := Extend(trace, ServerGeneration);
    assert Last(trace) == s.(server := m.(reader := M.SawGeneration(n)));
    trace := Extend(trace, ServerPending);
    assert Last(trace) == s.(server := m.(reader := M.SawPending(n, M.Pack32(c), d.index, n)));
    M.UnpackPack32(c);
    trace := Extend(trace, ServerSend);
  }

  /** A frame on the stream gets through to the second mailbox if session and pad let it. */
  lemma FrameGetsThrough(before: seq<System>, d: M.Delivery) returns (trace: seq<System>)
    requires IsRun(before)
    requires var s := Last(before);
             && s.forwarder == Waiting && s.received + 1 == |s.server.out| && Last(s.server.out) == d
             && s.running && s.pad == Open && s.polling && M.Quiet(s.client)
    ensures IsRun(trace)
    ensures var s, n := Last(before), |Last(before).client.stored| + 1;
            Last(trace) == s.(received := s.received + 1, kept := s.kept + [s.received],
                              client := s.client.(pending := M.Pack32(d.command), generation := n,
                                                  stored := s.client.stored + [d]))
  {
    var s := Last(before);
    trace := Extend(before, Receive);
    trace := Extend(trace, CheckSession);
    assert Last(trace) == s.(received := s.received + 1, forwarder := Admitted(d));
    trace := Extend(trace, CheckPad);
    assert Last(trace) == s.(received := s.received + 1, forwarder := Cleared(d));
    trace := Extend(trace, ForwardStore);
    trace := Extend(trace, ForwardCounted);
  }

  /** The poll loop passes a value it has not seen to the motors. */
  lemma MotorsFollow(before: seq<System>, d: M.Delivery) returns (trace: seq<System>)
    requires IsRun(before)
    requires var s := Last(before);
             && s.polling && s.client.reader == M.AtTop && s.client.applied < s.client.generation == |s.client.stored|
             && Last(s.client.stored) == d && s.client.pending == M.Pack32(d.command)
    ensures IsRun(trace)
    ensures var s, n := Last(before), |Last(before).client.stored|;
            Last(trace) == s.(motors := d.command,
                              client := s.client.(applied := n, storesSeen := n, out := s.client.out + [d]))
  {
    var s := Last(before);
    var n := |s.client.stored|;
    trace := Extend(before, PadGeneration);
    assert Last(trace) == s.(client := s.client.(reader := M.SawGeneration(n)));
    trace := Extend(trace, PadPending);
    assert Last(trace) == s.(client := s.client.(reader := M.SawPending(n, M.Pack32(d.command), d.index, n)));
    M.UnpackPack32(d.command);
    trace := Extend(trace, PadRumble);
  }

  /** Every command reaches the motors, motor for motor: when all is quiet and open nothing holds it up. */
  lemma CommandArrives(before: seq<System>, c: Rumble) returns (trace: seq<System>)
    requires IsRun(before) && AllQuiet(Last(before)) && Last(before).running
    ensures IsRun(trace) && AllQuiet(Last(trace)) && Last(trace).motors == c
    ensures Last(trace).server.stored == Last(before).server.stored + [M.Delivery(c, |Last(before).server.stored|)]
  {
    RunInvariant(before, |before| - 1);
    var s := Last(before);
    var d := M.Delivery(c, |s.server.stored|);
    trace := CommandLeaves(before, c);
    trace := FrameGetsThrough(trace, d);
    trace := MotorsFollow(trace, d);
  }

  /** A session that has ended drops the next command: all is quiet again, and the motors are as before. */
  lemma EndedSessionDropsCommand(before: seq<System>, c: Rumble) returns (trace: seq<System>)
    requires IsRun(before) && AllQuiet(Last(before))
    ensures IsRun(trace) && AllQuiet(Last(trace)) && !Last(trace).running
    ensures |Last(trace).server.out| == |Last(before).server.out| + 1
    ensures Last(trace).motors == Last(before).motors && Last(trace).kept == Last(before).kept
  {
    trace := CommandLeaves(before, c);
    var s := Last(trace);
    trace := Extend(trace, SessionEnds);
    assert Last(trace) == s.(running := false);
    trace := Extend(trace, Receive);
    trace := Extend(trace, CheckSession);
  }

  /** A pad that is closed has its motors off, and drops the next command. */
  lemma ClosedPadDropsCommand(before: seq<System>, c: Rumble) returns (trace: seq<System>)
    requires IsRun(before) && AllQuiet(Last(before)) && Last(before).running
    ensures IsRun(trace) && Last(trace).pad == Closed && Last(trace).motors == Rumble(0, 0)
    ensures Last(trace).received == |Last(trace).server.out| == |Last(before).server.out| + 1
    ensures Last(trace).forwarder == Waiting && Last(trace).kept == Last(before).kept
  {
    RunInvariant(before, |before| - 1);
    trace := CommandLeaves(before, c);
    var s := Last(trace);
    trace := Extend(trace, PollEnds);
    trace := Extend(trace, PadCloses);
    assert Last(trace) == s.(polling := false, motors := Rumble(0, 0), pad := Closed);
    trace := Extend(trace, Receive);
    trace := Extend(trace, CheckSession);
    assert Last(trace).forwarder.Admitted? && Last(trace).pad == Closed;
    trace := Extend(trace, CheckPad);
  }
}
