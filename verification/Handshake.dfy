/**
 The trusted-LAN handshake. First the code of the server's thread: the accept loop, the
 answers, and the two checks around the acknowledgement. Then a step system of a server, any
 number of honest clients and of other connections, a first-in-first-out channel to each
 client, and Stop on either side at any instant. A frame either arrives whole or its reader's
 `ReceiveAll` fails.
 */
module Handshake {
  import opened Options
  import opened Protocol
  import opened Seqs

  /**
   One turn of the accept loop: the 100 ms wait ends without a client, `accept` fails, or a
   client connects. `read` is the frame it sent, if a whole one came; `sendable` says whether
   `SendAll` can put an answer on the connection.
   */
  datatype Attempt = Timeout | AcceptFailed | Connection(read: Option<ControlFrame>, sendable: bool)

  /** What the two reads of `stop_requested_` around the acknowledgement return. */
  datatype Finish = Finish(stopBeforeAck: bool, stopAfterAck: bool)

  predicate ValidHello(hello: ControlFrame) {
    hello.sessionId != 0 && ValidControlFrame(hello, HELLO, hello.sessionId)
  }

  predicate SendsHello(a: Attempt) {
    a.Connection? && a.read.Some? && ValidHello(a.read.value)
  }

  predicate Acceptable(a: Attempt, key: U16) {
    SendsHello(a) && a.read.value.pairingKey == key
  }

  /** The loop ends with this attempt. */
  predicate Decides(a: Attempt, key: U16) {
    a.AcceptFailed? || Acceptable(a, key)
  }

  /** How many attempts the loop looks at before it ends or is stopped. */
  function Handled(attempts: seq<Attempt>, key: U16): (n: nat)
    ensures n <= |attempts|
    ensures forall j :: 0 <= j < n - 1 ==> !Decides(attempts[j], key)
    ensures n == |attempts| || (n > 0 && Decides(attempts[n - 1], key))
  {
    if attempts == [] then 0
    else if Decides(attempts[0], key) then 1
    else 1 + Handled(attempts[1..], key)
  }

  function Ack(session: U32): ControlFrame {
    MakeControlFrame(HELLO_ACK, session, 0, Rumble(0, 0), 0)
  }

  function Rejection(session: U32): ControlFrame {
    MakeControlFrame(ERROR, session, ERROR_PAIRING_KEY_MISMATCH, Rumble(0, 0), 0)
  }

  /** What the loop itself sends back: the reason to a client with a wrong key, nothing to others. */
  function Refusal(a: Attempt, key: U16): Option<ControlFrame> {
    if SendsHello(a) && a.read.value.pairingKey != key then Some(Rejection(a.read.value.sessionId)) else None
  }

  /** What a handled attempt is answered. */
  function Answer(a: Attempt, key: U16, finish: Finish): Option<ControlFrame> {
    if !Acceptable(a, key) then Refusal(a, key)
    else if finish.stopBeforeAck then None
    else Some(Ack(a.read.value.sessionId))
  }

  /** The session the server is connected to when the handshake is over. */
  function ServerSession(attempts: seq<Attempt>, key: U16, finish: Finish): Option<U32> {
    var n := Handled(attempts, key);
    if n > 0 && Acceptable(attempts[n - 1], key) && attempts[n - 1].sendable
       && !finish.stopBeforeAck && !finish.stopAfterAck
    then Some(attempts[n - 1].read.value.sessionId) else None
  }

  /** The loop; the list of attempts ends where Stop is seen. */
  method AcceptLoop(attempts: seq<Attempt>, expectedKey: U16)
    returns (chosen: Option<ControlFrame>, answers: seq<Option<ControlFrame>>)
    ensures |answers| == Handled(attempts, expectedKey)
    ensures chosen.Some? <==> |answers| > 0 && Acceptable(attempts[|answers| - 1], expectedKey)
    ensures chosen.Some? ==> chosen == attempts[|answers| - 1].read
    ensures forall i :: 0 <= i < |answers| ==> answers[i] == Refusal(attempts[i], expectedKey)
  {
    chosen, answers := None, [];
    var i := 0;
    while i < |attempts|
      invariant 0 <= i == |answers| <= |attempts|
      invariant forall j :: 0 <= j < i ==> !Decides(attempts[j], expectedKey)
      invariant forall j :: 0 <= j < i ==> answers[j] == Refusal(attempts[j], expectedKey)
    {
      var attempt := attempts[i];
      i := i + 1;
      if attempt.AcceptFailed? {
        answers := answers + [None];
        return;
      }
      if attempt.Timeout? {
        answers := answers + [None];
        continue;
      }
      if attempt.read.None? || attempt.read.value.sessionId == 0
         || !ValidControlFrame(attempt.read.value, HELLO, attempt.read.value.sessionId) {
        answers := answers + [None];
        continue;
      }
      var hello := attempt.read.value;
      if hello.pairingKey != expectedKey {
        answers := answers + [Some(Rejection(hello.sessionId))];
        continue;
      }
      chosen, answers := Some(hello), answers + [None];
      return;
    }
  }

  /** `StartServerSockets` from its accept loop on. */
  method StartServerSockets(attempts: seq<Attempt>, expectedKey: U16, finish: Finish)
    returns (session: Option<U32>, answers: seq<Option<ControlFrame>>)
    ensures session == ServerSession(attempts, expectedKey, finish)
    ensures |answers| == Handled(attempts, expectedKey)
    ensures forall i :: 0 <= i < |answers| ==> answers[i] == Answer(attempts[i], expectedKey, finish)
  {
    var hello;
    hello, answers := AcceptLoop(attempts, expectedKey);
    if finish.stopBeforeAck || hello.None? {
      return None, answers;
    }
    var n := |answers| - 1;
    answers := answers[n := Some(Ack(hello.value.sessionId))];
    if !attempts[n].sendable || finish.stopAfterAck {
      return None, answers;
    }
    session := Some(hello.value.sessionId);
  }

  /** The server is connected to a session exactly if the first client with the expected key asked for it. */
  lemma ServerChoosesFirst(attempts: seq<Attempt>, key: U16, finish: Finish, session: U32)
    ensures ServerSession(attempts, key, finish) == Some(session) <==>
            && !finish.stopBeforeAck && !finish.stopAfterAck
            && exists i :: 0 <= i < |attempts| && Acceptable(attempts[i], key) && attempts[i].sendable
                           && attempts[i].read.value.sessionId == session
                           && forall j :: 0 <= j < i ==> !Decides(attempts[j], key)
  {
    var n := Handled(attempts, key);
    if i :| 0 <= i < |attempts| && Acceptable(attempts[i], key)
            && forall j :: 0 <= j < i ==> !Decides(attempts[j], key) {
      assert Decides(attempts[i], key);
      assert n == i + 1;
    }
  }

  // ------------------------------------------------------------ the step system

  /**
   Whom the server chose: the session id of the hello, the honest client it came from, if any,
   and whether the acknowledgement can be put on the connection.
   */
  datatype Choice = Choice(session: U32, client: Option<nat>, sendable: bool)

  datatype Server =
    | AtHead                      // before the stop check at the head of the accept loop
    | AtAccept
    | Chosen(choice: Choice)      // left the loop, before the stop check
    | SendingAck(choice: Choice)
    | AckSent(choice: Choice)     // before the last stop check
    | Assigning(choice: Choice)
    | Holding(choice: Choice)     // connected
    | Gone                        // returned unconnected

  datatype Outcome = Connected | Mismatch | Failed

  datatype Progress = Idle | Waiting | Accepted | Done(outcome: Outcome)

  /** `sent` is everything the server put on the channel, `taken` how much of it the client read. */
  datatype Client = Client(
    session: U32, key: U16, progress: Progress, stop: bool, served: bool, sent: seq<ControlFrame>, taken: nat)

  /**
   `acked` is the honest client whose acknowledgement was sent, `handled` every attempt the
   accept loop has looked at, `finish` what the two checks around the acknowledgement saw.
   */
  datatype System = System(
    key: U16, server: Server, stop: bool, acked: Option<nat>, clients: seq<Client>,
    handled: seq<Attempt>, finish: Finish)

  datatype Event =
    | Connect(c: nat)
    | Head
    | Accept(a: Attempt)
    | Serve(c: nat, readable: bool, sendable: bool)
    | CheckBeforeAck
    | SendAck
    | CheckAfterAck
    | Assign
    | Stop
    | ReadAnswer(c: nat)
    | ReadFails(c: nat)
    | CheckStop(c: nat)
    | StopClient(c: nat)

  function Hello(session: U32, key: U16): ControlFrame {
    MakeControlFrame(HELLO, session, 0, Rumble(0, 0), key)
  }

  /** The connection of an honest client as the accept loop sees it. */
  function AttemptOf(client: Client, readable: bool, sendable: bool): Attempt {
    Connection(if readable then Some(Hello(client.session, client.key)) else None, sendable)
  }

  /** What a client makes of the answer it reads. */
  function Judge(f: ControlFrame, session: U32): Progress {
    if PairingMismatchResponse(f, session) then Done(Mismatch)
    else if ValidControlFrame(f, HELLO_ACK, session) then Accepted
    else Done(Failed)
  }

  predicate Enabled(s: System, e: Event) {
    match e
    case Connect(c) => c < |s.clients| && s.clients[c].progress == Idle
    case Head => s.server == AtHead
    case Accept(_) => s.server == AtAccept
    case Serve(c, _, _) =>
      s.server == AtAccept && c < |s.clients| && s.clients[c].progress != Idle && !s.clients[c].served
    case CheckBeforeAck => s.server.Chosen?
    case SendAck =>
      s.server.SendingAck? && (s.server.choice.client.Some? ==> s.server.choice.client.value < |s.clients|)
    case CheckAfterAck => s.server.AckSent?
    case Assign => s.server.Assigning?
    case Stop => true
    case ReadAnswer(c) =>
      c < |s.clients| && s.clients[c].progress == Waiting && s.clients[c].taken < |s.clients[c].sent|
    case ReadFails(c) => c < |s.clients| && s.clients[c].progress == Waiting
    case CheckStop(c) => c < |s.clients| && s.clients[c].progress == Accepted
    case StopClient(c) => c < |s.clients|
  }

  function Put1(s: System, c: nat, client: Client): System
    requires c < |s.clients|
  {
    s.(clients := s.clients[c := client])
  }

  function ServeClient(s: System, c: nat, readable: bool, sendable: bool): System
    requires c < |s.clients|
  {
    var client := s.clients[c];
    var a := AttemptOf(client, readable, sendable);
    if Acceptable(a, s.key) then
      Put1(s, c, client.(served := true)).(server := Chosen(Choice(client.session, Some(c), sendable)))
    else if Refusal(a, s.key).Some? && sendable then
      Put1(s, c, client.(served := true, sent := client.sent + [Refusal(a, s.key).value])).(server := AtHead)
    else
      Put1(s, c, client.(served := true)).(server := AtHead)
  }

  function Acknowledge(s: System): System
    requires Enabled(s, SendAck)
  {
    var choice := s.server.choice;
    if choice.client.None? then s.(server := AckSent(choice))
    else
      var client := s.clients[choice.client.value];
      Put1(s, choice.client.value, client.(sent := client.sent + [Ack(choice.session)]))
        .(server := AckSent(choice), acked := choice.client)
  }

  function Apply(s: System, e: Event): System
    requires Enabled(s, e)
  {
    match e
    case Connect(c) => Put1(s, c, s.clients[c].(progress := Waiting))
    case Head => s.(server := if s.stop then Gone else AtAccept)
    case Accept(a) =>
      s.(handled := s.handled + [a],
         server := if a.AcceptFailed? then Gone
                   else if Acceptable(a, s.key) then Chosen(Choice(a.read.value.sessionId, None, a.sendable))
                   else AtHead)
    case Serve(c, readable, sendable) =>
      ServeClient(s, c, readable, sendable)
        .(handled := s.handled + [AttemptOf(s.clients[c], readable, sendable)])
    case CheckBeforeAck =>
      s.(server := if s.stop then Gone else SendingAck(s.server.choice),
         finish := s.finish.(stopBeforeAck := s.stop))
    case SendAck => if s.server.choice.sendable then Acknowledge(s) else s.(server := Gone)
    case CheckAfterAck =>
      s.(server := if s.stop then Gone else Assigning(s.server.choice),
         finish := s.finish.(stopAfterAck := s.stop))
    case Assign => s.(server := Holding(s.server.choice))
    case Stop => s.(stop := true)
    case ReadAnswer(c) =>
      var client := s.clients[c];
      Put1(s, c, client.(progress := Judge(client.sent[client.taken], client.session), taken := client.taken + 1))
    case ReadFails(c) => Put1(s, c, s.clients[c].(progress := Done(Failed)))
    case CheckStop(c) => Put1(s, c, s.clients[c].(progress := Done(if s.clients[c].stop then Failed else Connected)))
    case StopClient(c) => Put1(s, c, s.clients[c].(stop := true))
  }

  predicate Fresh(client: Client) {
    && client.session != 0 && client.progress == Idle && !client.stop && !client.served
    && client.sent == [] && client.taken == 0
  }

  predicate IsInitial(s: System) {
    && s.server == AtHead && !s.stop && s.acked == None
    && s.handled == [] && s.finish == Finish(false, false)
    && forall c :: 0 <= c < |s.clients| ==> Fresh(s.clients[c])
  }

  ghost predicate Next(s: System, t: System) {
    exists e :: Enabled(s, e) && t == Apply(s, e)
  }

  ghost predicate Moves(trace: seq<System>, i: nat)
    requires i + 1 < |trace|
  {
    Next(trace[i], trace[i + 1])
  }

  ghost predicate IsRun(trace: seq<System>) {
    && trace != []
    && IsInitial(trace[0])
    && forall i: nat {:trigger Moves(trace, i)} :: i + 1 < |trace| ==> Moves(trace, i)
  }

  lemma Extend(trace: seq<System>, e: Event) returns (longer: seq<System>)
    requires IsRun(trace) && Enabled(Last(trace), e)
    ensures IsRun(longer) && Last(longer) == Apply(Last(trace), e)
  {
    longer := trace + [Apply(Last(trace), e)];
    forall i: nat | i + 1 < |longer| ensures Moves(longer, i) {
      if i + 1 < |trace| {
        assert Moves(trace, i);
        assert longer[i] == trace[i] && longer[i + 1] == trace[i + 1];
      } else {
        assert Enabled(longer[i], e) && longer[i + 1] == Apply(longer[i], e);
      }
    }
  }

  // ---------------------------------------------------------------- invariants

  /** What a client has been told, and what it made of it. */
  predicate ClientInvariant(client: Client, key: U16, acked: bool) {
    && client.session != 0
    && (client.progress == Idle ==> !client.served)
    && (!client.served ==> client.sent == [])
    && client.taken <= |client.sent|
    && (acked ==> client.served && client.key == key && client.sent == [Ack(client.session)])
    && (!acked ==> client.sent == [] || (client.sent == [Rejection(client.session)] && client.key != key))
    && (client.taken == 0 ==> client.progress in {Idle, Waiting, Done(Failed)})
    && (client.taken == 1 && acked ==>
          client.progress in {Accepted, Done(Connected)} || (client.progress == Done(Failed) && client.stop))
    && (client.taken == 1 && !acked ==> client.progress == Done(Mismatch))
  }

  /** The client a server that has not acknowledged yet is about to acknowledge. */
  predicate AboutTo(s: System, choice: Choice) {
    choice.client.Some? ==>
      && choice.client.value < |s.clients|
      && var client := s.clients[choice.client.value];
      client.served && client.sent == [] && client.key == s.key && client.session == choice.session
  }

  predicate ServerInvariant(s: System) {
    match s.server
    case AtHead => s.acked == None
    case AtAccept => s.acked == None
    case Chosen(choice) => s.acked == None && AboutTo(s, choice)
    case SendingAck(choice) => s.acked == None && AboutTo(s, choice)
    case AckSent(choice) => s.acked == choice.client && ChoiceOf(s)
    case Assigning(choice) => s.acked == choice.client && ChoiceOf(s)
    case Holding(choice) => s.acked == choice.client && ChoiceOf(s)
    case Gone => true
  }

  /** A choice that is an honest client is that client's session. */
  predicate ChoiceOf(s: System)
    requires s.server.AckSent? || s.server.Assigning? || s.server.Holding?
  {
    s.server.choice.client.Some? ==>
      && s.server.choice.client.value < |s.clients|
      && s.clients[s.server.choice.client.value].session == s.server.choice.session
  }

  predicate Invariant(s: System) {
    && (forall c :: 0 <= c < |s.clients| ==> ClientInvariant(s.clients[c], s.key, s.acked == Some(c)))
    && ServerInvariant(s)
  }

  lemma HonestHello(client: Client, key: U16, readable: bool, sendable: bool)
    requires client.session != 0
    ensures var a := AttemptOf(client, readable, sendable);
            && (Acceptable(a, key) <==> readable && client.key == key)
            && Refusal(a, key) == if readable && client.key != key then Some(Rejection(client.session)) else None
  {
  }

  lemma AnswersJudged(session: U32)
    ensures Judge(Ack(session), session) == Accepted
    ensures Judge(Rejection(session), session) == Done(Mismatch)
  {
  }

  lemma ServeStep(s: System, c: nat, readable: bool, sendable: bool)
    requires Invariant(s) && Enabled(s, Serve(c, readable, sendable))
    ensures Invariant(Apply(s, Serve(c, readable, sendable)))
  {
    HonestHello(s.clients[c], s.key, readable, sendable);
    assert ClientInvariant(s.clients[c], s.key, false);
  }

  lemma AckStep(s: System)
    requires Invariant(s) && Enabled(s, SendAck)
    ensures Invariant(Apply(s, SendAck))
  {
  }

  lemma ReadStep(s: System, c: nat)
    requires Invariant(s) && Enabled(s, ReadAnswer(c))
    ensures Invariant(Apply(s, ReadAnswer(c)))
  {
    AnswersJudged(s.clients[c].session);
    assert ClientInvariant(s.clients[c], s.key, s.acked == Some(c));
  }

  /** A step of a client that sends nothing to the server. */
  lemma PutKeeps(s: System, c: nat, client: Client)
    requires Invariant(s) && c < |s.clients|
    requires ClientInvariant(client, s.key, s.acked == Some(c))
    requires var before := s.clients[c];
             client.session == before.session && client.key == before.key
             && client.served == before.served && client.sent == before.sent
    ensures Invariant(Put1(s, c, client))
  {
  }

  lemma ClientStep(s: System, e: Event)
    requires Invariant(s) && Enabled(s, e) && (e.Connect? || e.ReadFails? || e.CheckStop? || e.StopClient?)
    ensures Invariant(Apply(s, e))
  {
    assert ClientInvariant(s.clients[e.c], s.key, s.acked == Some(e.c));
    PutKeeps(s, e.c, Apply(s, e).clients[e.c]);
  }

  lemma StepKeepsInvariant(s: System, e: Event)
    requires Invariant(s) && Enabled(s, e)
    ensures Invariant(Apply(s, e))
  {
    if e.Serve? {
      ServeStep(s, e.c, e.readable, e.sendable);
    } else if e == SendAck {
      AckStep(s);
    } else if e.ReadAnswer? {
      ReadStep(s, e.c);
    } else if e.Connect? || e.ReadFails? || e.CheckStop? || e.StopClient? {
      ClientStep(s, e);
    } else {
      assert Apply(s, e).clients == s.clients;
    }
  }

  lemma {:induction false} RunInvariant(trace: seq<System>, i: nat)
    requires IsRun(trace) && i < |trace|
    ensures Invariant(trace[i])
  {
    if i > 0 {
      RunInvariant(trace, i - 1);
      assert Moves(trace, i - 1);
      var e :| Enabled(trace[i - 1], e) && trace[i] == Apply(trace[i - 1], e);
      StepKeepsInvariant(trace[i - 1], e);
    }
  }

  // --------------------------------------------------- the steps and the code's thread

  /** The last attempt is the one chosen, and the first that decides the loop. */
  predicate ChoseLast(s: System, choice: Choice) {
    && s.handled != [] && Acceptable(Last(s.handled), s.key)
    && Last(s.handled).read.value.sessionId == choice.session
    && Last(s.handled).sendable == choice.sendable
    && !s.finish.stopAfterAck
  }

  predicate NoneDecided(attempts: seq<Attempt>, key: U16) {
    forall j :: 0 <= j < |attempts| ==> !Decides(attempts[j], key)
  }

  /** Where the server is, in terms of the attempts its loop has looked at. */
  predicate OutcomeInvariant(s: System) {
    && (s.handled != [] ==> NoneDecided(Front(s.handled), s.key))
    && match s.server
       case AtHead => NoneDecided(s.handled, s.key) && s.finish == Finish(false, false)
       case AtAccept => NoneDecided(s.handled, s.key) && s.finish == Finish(false, false)
       case Chosen(choice) => ChoseLast(s, choice)
       case SendingAck(choice) => ChoseLast(s, choice) && !s.finish.stopBeforeAck
       case AckSent(choice) => ChoseLast(s, choice) && !s.finish.stopBeforeAck && choice.sendable
       case Assigning(choice) => ChoseLast(s, choice) && !s.finish.stopBeforeAck && choice.sendable
       case Holding(choice) => ChoseLast(s, choice) && !s.finish.stopBeforeAck && choice.sendable
       case Gone => ServerSession(s.handled, s.key, s.finish) == None
  }

  lemma AllHandled(attempts: seq<Attempt>, key: U16)
    requires attempts != [] ==> NoneDecided(Front(attempts), key)
    ensures Handled(attempts, key) == |attempts|
  {
    forall j | 0 <= j < |attempts| - 1 ensures !Decides(attempts[j], key) {
      assert !Decides(Front(attempts)[j], key);
    }
  }

  lemma OneMoreHandled(attempts: seq<Attempt>, a: Attempt, key: U16)
    requires NoneDecided(attempts, key)
    ensures Front(attempts + [a]) == attempts && Last(attempts + [a]) == a
    ensures NoneDecided(attempts + [a], key) <==> !Decides(a, key)
  {
    var longer := attempts + [a];
    assert longer[|attempts|] == a && forall j :: 0 <= j < |attempts| ==> longer[j] == attempts[j];
  }

  lemma ServeOutcome(s: System, c: nat, readable: bool, sendable: bool)
    requires OutcomeInvariant(s) && Enabled(s, Serve(c, readable, sendable)) && s.clients[c].session != 0
    ensures OutcomeInvariant(Apply(s, Serve(c, readable, sendable)))
  {
    OneMoreHandled(s.handled, AttemptOf(s.clients[c], readable, sendable), s.key);
  }

  lemma AcceptOutcome(s: System, a: Attempt)
    requires OutcomeInvariant(s) && Enabled(s, Accept(a))
    ensures OutcomeInvariant(Apply(s, Accept(a)))
  {
    OneMoreHandled(s.handled, a, s.key);
    AllHandled(s.handled + [a], s.key);
  }

  lemma StepOutcome(s: System, e: Event)
    requires OutcomeInvariant(s) && Enabled(s, e) && !e.Serve? && !e.Accept?
    ensures OutcomeInvariant(Apply(s, e))
  {
    AllHandled(s.handled, s.key);
  }

  lemma AnyStepOutcome(s: System, e: Event)
    requires Invariant(s) && OutcomeInvariant(s) && Enabled(s, e)
    ensures OutcomeInvariant(Apply(s, e))
  {
    if e.Serve? {
      assert ClientInvariant(s.clients[e.c], s.key, s.acked == Some(e.c));
      ServeOutcome(s, e.c, e.readable, e.sendable);
    } else if e.Accept? {
      AcceptOutcome(s, e.a);
    } else {
      StepOutcome(s, e);
    }
  }

  lemma {:induction false} RunOutcome(trace: seq<System>, i: nat)
    requires IsRun(trace) && i < |trace|
    ensures OutcomeInvariant(trace[i])
  {
    if i > 0 {
      RunOutcome(trace, i - 1);
      RunInvariant(trace, i - 1);
      assert Moves(trace, i - 1);
      var e :| Enabled(trace[i - 1], e) && trace[i] == Apply(trace[i - 1], e);
      AnyStepOutcome(trace[i - 1], e);
    }
  }

  /**
   The step system's server is the thread of `StartServerSockets`: when it is over, it is
   connected to the session that this code returns for the attempts it looked at and for what
   its two checks saw, and unconnected if the code returns none.
   */
  lemma ServerRunsTheCode(trace: seq<System>, i: nat)
    requires IsRun(trace) && i < |trace| && (trace[i].server.Holding? || trace[i].server == Gone)
    ensures var s := trace[i];
            ServerSession(s.handled, s.key, s.finish)
            == if s.server.Holding? then Some(s.server.choice.session) else None
  {
    RunOutcome(trace, i);
    AllHandled(trace[i].handled, trace[i].key);
  }

  // ------------------------------------------------------------------ theorems

  /** At step `m` the server passes the check before the acknowledgement; `seen` is the stop request there. */
  predicate ChecksBeforeAck(trace: seq<System>, m: nat, seen: bool)
    requires m + 1 < |trace|
  {
    trace[m].server.Chosen? && trace[m].stop == seen && trace[m + 1].server != trace[m].server
  }

  /** At step `m` the server passes the check behind the acknowledgement, with Stop requested. */
  predicate SeesStop(trace: seq<System>, m: nat)
    requires m + 1 < |trace|
  {
    trace[m].server.AckSent? && trace[m].stop && trace[m + 1].server != trace[m].server
  }

  /** The acknowledgement is on its way, or was sent. */
  predicate Answering(s: System) {
    s.server.SendingAck? || s.server.AckSent? || s.server.Assigning? || s.server.Holding? || s.acked.Some?
  }

  /** Where a step may take the server and the stop request. */
  predicate ServerMoves(s: System, t: System) {
    && (s.stop ==> t.stop)
    && (s.server == Gone ==> t.server == Gone && t.acked == s.acked)
    && (s.server.AckSent? && s.stop && t.server != s.server ==> t.server == Gone)
    && (s.server != Gone && t.server == Gone && t.acked.Some? ==> s.acked.Some? && s.server.AckSent? && s.stop)
    && ((s.server == AtHead || s.server.Chosen?) && s.stop && t.server != s.server ==>
          t.server == Gone && t.acked == None)
    && (Answering(t) && !Answering(s) ==> s.server.Chosen? && !s.stop && t.server != s.server)
  }

  lemma StepServer(s: System, e: Event)
    requires ServerInvariant(s) && Enabled(s, e)
    ensures ServerMoves(s, Apply(s, e))
  {
  }

  lemma MoveServer(trace: seq<System>, i: nat)
    requires IsRun(trace) && i + 1 < |trace|
    ensures ServerMoves(trace[i], trace[i + 1])
  {
    RunInvariant(trace, i);
    assert Moves(trace, i);
    var e :| Enabled(trace[i], e) && trace[i + 1] == Apply(trace[i], e);
    StepServer(trace[i], e);
  }

  lemma {:induction false} GoneSawStop(trace: seq<System>, i: nat) returns (m: nat)
    requires IsRun(trace) && i < |trace| && trace[i].server == Gone && trace[i].acked.Some?
    ensures m < i && SeesStop(trace, m)
  {
    assert i > 0;
    MoveServer(trace, i - 1);
    m := i - 1;
    if trace[i - 1].server == Gone {
      m := GoneSawStop(trace, i - 1);
    }
  }

  lemma {:induction false} AnswerWasAllowed(trace: seq<System>, i: nat) returns (m: nat)
    requires IsRun(trace) && i < |trace| && Answering(trace[i])
    ensures m < i && ChecksBeforeAck(trace, m, false)
  {
    assert i > 0;
    MoveServer(trace, i - 1);
    m := i - 1;
    if Answering(trace[i - 1]) {
      m := AnswerWasAllowed(trace, i - 1);
    }
  }

  lemma {:induction false} Onward(trace: seq<System>, i: nat, j: nat)
    requires IsRun(trace) && i <= j < |trace|
    ensures trace[i].stop ==> trace[j].stop
    ensures trace[i].server == Gone ==> trace[j].server == Gone && trace[j].acked == trace[i].acked
  {
    if i < j {
      Onward(trace, i, j - 1);
      MoveServer(trace, j - 1);
    }
  }

  predicate SawStopBehindAck(trace: seq<System>, i: nat)
    requires i < |trace|
  {
    exists m :: 0 <= m < i && SeesStop(trace, m)
  }

  /** The server is at or behind the acknowledgement of this client's session, and has not given up. */
  predicate Keeps(server: Server, session: U32, c: nat) {
    && (server.AckSent? || server.Assigning? || server.Holding?)
    && server.choice.session == session && server.choice.client == Some(c)
  }

  /**
   Agreement. In every run an honest client that is connected has the server's key, and the
   server chose and acknowledged it, no Stop having been requested when it passed its check
   before that; the server keeps the client's session, or has returned unconnected, and the
   latter if and only if Stop was requested when it came to the check behind it.
   */
  lemma Agreement(trace: seq<System>, i: nat, c: nat) returns (m: nat)
    requires IsRun(trace) && i < |trace| && c < |trace[i].clients|
    requires trace[i].clients[c].progress == Done(Connected)
    ensures m < i && ChecksBeforeAck(trace, m, false)
    ensures var s, client := trace[i], trace[i].clients[c];
            && client.key == s.key && s.acked == Some(c)
            && (s.server == Gone || Keeps(s.server, client.session, c))
            && (s.server == Gone <==> SawStopBehindAck(trace, i))
  {
    RunInvariant(trace, i);
    assert ClientInvariant(trace[i].clients[c], trace[i].key, trace[i].acked == Some(c));
    m := AnswerWasAllowed(trace, i);
    if trace[i].server == Gone {
      var n := GoneSawStop(trace, i);
      assert SeesStop(trace, n);
    }
    if SawStopBehindAck(trace, i) {
      var n: nat :| n < i && SeesStop(trace, n);
      MoveServer(trace, n);
      Onward(trace, n + 1, i);
    }
  }

  /**
   A server that finds itself stopped at the head of its loop or before the acknowledgement
   answers nobody: it is unconnected for ever, and no honest client is ever connected to it.
   */
  lemma StoppedServerAnswersNobody(trace: seq<System>, m: nat, j: nat)
    requires IsRun(trace) && m < j < |trace| && trace[m].stop
    requires (trace[m].server == AtHead || trace[m].server.Chosen?) && trace[m + 1].server != trace[m].server
    ensures trace[j].server == Gone && trace[j].acked == None
    ensures forall c :: 0 <= c < |trace[j].clients| ==> trace[j].clients[c].progress != Done(Connected)
  {
    MoveServer(trace, m);
    Onward(trace, m + 1, j);
    RunInvariant(trace, j);
    forall c | 0 <= c < |trace[j].clients| ensures trace[j].clients[c].progress != Done(Connected) {
      assert ClientInvariant(trace[j].clients[c], trace[j].key, false);
    }
  }

  /** Without Stop on the server a connected client is never deceived. */
  lemma NobodyIsDeceivedWithoutStop(trace: seq<System>, i: nat, c: nat)
    requires IsRun(trace) && i < |trace| && c < |trace[i].clients|
    requires trace[i].clients[c].progress == Done(Connected) && !trace[i].stop
    ensures Keeps(trace[i].server, trace[i].clients[c].session, c)
  {
    var _ := Agreement(trace, i, c);
    if trace[i].server == Gone {
      var m: nat :| m < i && SeesStop(trace, m);
      Onward(trace, m, i);
    }
  }

  /** A server that is connected to an honest client has its session and its key. */
  lemma ServerHoldsAgreed(trace: seq<System>, i: nat, c: nat)
    requires IsRun(trace) && i < |trace| && trace[i].server.Holding? && trace[i].server.choice.client == Some(c)
    ensures c < |trace[i].clients|
    ensures trace[i].clients[c].session == trace[i].server.choice.session && trace[i].clients[c].key == trace[i].key
    ensures trace[i].clients[c].progress != Done(Mismatch)
  {
    RunInvariant(trace, i);
    assert ClientInvariant(trace[i].clients[c], trace[i].key, true);
  }

  /** The answer, once read, tells a client exactly whether its key was wrong. */
  lemma AnswerTellsTheKey(trace: seq<System>, i: nat, c: nat)
    requires IsRun(trace) && i < |trace| && c < |trace[i].clients| && trace[i].clients[c].taken > 0
    ensures var s, client := trace[i], trace[i].clients[c];
            && (client.progress == Done(Mismatch) <==> client.key != s.key)
            && (client.key == s.key ==>
                  client.progress in {Accepted, Done(Connected)} || (client.progress == Done(Failed) && client.stop))
  {
    RunInvariant(trace, i);
    assert ClientInvariant(trace[i].clients[c], trace[i].key, trace[i].acked == Some(c));
  }

  /** What a step makes of a client that has read its acknowledgement, or is done. */
  predicate ClientMoves(client: Client, next: Client) {
    && (client.progress == Accepted ==>
          next.progress in {Accepted, Done(if client.stop then Failed else Connected)})
    && (client.progress.Done? ==> next.progress == client.progress)
  }

  lemma MoveClient(trace: seq<System>, i: nat, c: nat)
    requires IsRun(trace) && i + 1 < |trace| && c < |trace[i].clients|
    ensures |trace[i + 1].clients| == |trace[i].clients|
    ensures ClientMoves(trace[i].clients[c], trace[i + 1].clients[c])
  {
    RunInvariant(trace, i);
    assert Moves(trace, i);
    var e :| Enabled(trace[i], e) && trace[i + 1] == Apply(trace[i], e);
    StepClient(trace[i], e, c);
  }

  lemma StepClient(s: System, e: Event, c: nat)
    requires Invariant(s) && Enabled(s, e) && c < |s.clients|
    ensures |Apply(s, e).clients| == |s.clients| && ClientMoves(s.clients[c], Apply(s, e).clients[c])
  {
    assert ClientInvariant(s.clients[c], s.key, s.acked == Some(c));
  }

  lemma {:induction false} ClientStaysDone(trace: seq<System>, i: nat, j: nat, c: nat)
    requires IsRun(trace) && i <= j < |trace| && c < |trace[i].clients| && trace[i].clients[c].progress.Done?
    ensures |trace[j].clients| == |trace[i].clients| && trace[j].clients[c].progress == trace[i].clients[c].progress
  {
    if i < j {
      ClientStaysDone(trace, i, j - 1, c);
      MoveClient(trace, j - 1, c);
    }
  }

  /** A client that finds itself stopped behind the acknowledgement is never connected, one that does not, is. */
  lemma ClientChecksStop(trace: seq<System>, m: nat, j: nat, c: nat)
    requires IsRun(trace) && m < j < |trace| && c < |trace[m].clients|
    requires trace[m].clients[c].progress == Accepted && |trace[m + 1].clients| == |trace[m].clients|
    requires trace[m + 1].clients[c].progress != Accepted
    ensures c < |trace[j].clients|
    ensures trace[j].clients[c].progress == Done(if trace[m].clients[c].stop then Failed else Connected)
  {
    MoveClient(trace, m, c);
    ClientStaysDone(trace, m + 1, j, c);
  }

  /** Two honest clients of one server are never both connected. */
  lemma OneClientConnects(trace: seq<System>, i: nat, c: nat, d: nat)
    requires IsRun(trace) && i < |trace| && c < |trace[i].clients| && d < |trace[i].clients|
    requires trace[i].clients[c].progress == Done(Connected) == trace[i].clients[d].progress
    ensures c == d
  {
    var _ := Agreement(trace, i, c);
    var _ := Agreement(trace, i, d);
  }

  // -------------------------------------------------------------------- two runs

  /**
   Agreement is not symmetric: if Stop lands behind the acknowledgement the server returns
   unconnected, while its client goes on to be connected.
   */
  lemma ClientOfAStoppedServer(session: U32, key: U16) returns (trace: seq<System>)
    requires session != 0
    ensures IsRun(trace) && Last(trace).server == Gone
    ensures |Last(trace).clients| == 1 && Last(trace).clients[0].progress == Done(Connected)
  {
    trace := Acknowledged(session, key);
    var s := Last(trace);
    var client := s.clients[0];
    trace := Extend(trace, Stop);
    trace := Extend(trace, CheckAfterAck);
    assert Last(trace) == s.(stop := true, server := Gone, finish := Finish(false, true));
    trace := Joins(trace);
  }

  /** The client reads the acknowledgement and finds no stop request. */
  lemma Joins(before: seq<System>) returns (trace: seq<System>)
    requires IsRun(before) && |Last(before).clients| == 1
    requires var client := Last(before).clients[0];
             client.progress == Waiting && !client.stop && client.taken == 0 && client.sent == [Ack(client.session)]
    ensures IsRun(trace)
    ensures var s := Last(before);
            Last(trace) == s.(clients := [s.clients[0].(progress := Done(Connected), taken := 1)])
  {
    var s, client := Last(before), Last(before).clients[0];
    AnswersJudged(client.session);
    trace := Extend(before, ReadAnswer(0));
    assert Last(trace) == s.(clients := [client.(progress := Accepted, taken := 1)]);
    trace := Extend(trace, CheckStop(0));
  }

  /** Undisturbed, a client with the server's key and the server connect to the same session. */
  lemma BothConnect(session: U32, key: U16) returns (trace: seq<System>)
    requires session != 0
    ensures IsRun(trace) && Last(trace).server == Holding(Choice(session, Some(0), true))
    ensures Last(trace).clients == [Client(session, key, Done(Connected), false, true, [Ack(session)], 1)]
  {
    trace := Acknowledged(session, key);
    var s := Last(trace);
    trace := Extend(trace, CheckAfterAck);
    assert Last(trace) == s.(server := Assigning(Choice(session, Some(0), true)), finish := Finish(false, false));
    trace := Extend(trace, Assign);
    trace := Joins(trace);
  }

  lemma Acknowledged(session: U32, key: U16) returns (trace: seq<System>)
    requires session != 0
    ensures IsRun(trace)
    ensures var client := Client(session, key, Waiting, false, true, [Ack(session)], 0);
            Last(trace) == System(key, AckSent(Choice(session, Some(0), true)), false, Some(0), [client],
                                  [AttemptOf(client, true, true)], Finish(false, false))
  {
    trace := ChosenFirst(session, key);
    trace := Extend(trace, CheckBeforeAck);
    var s, client := Last(trace), Last(trace).clients[0];
    assert s.server == SendingAck(Choice(session, Some(0), true));
    trace := Extend(trace, SendAck);
    assert s.clients[0 := client.(sent := [Ack(session)])] == [client.(sent := [Ack(session)])];
    assert client.sent + [Ack(session)] == [Ack(session)];
  }

  lemma ChosenFirst(session: U32, key: U16) returns (trace: seq<System>)
    requires session != 0
    ensures IsRun(trace)
    ensures var client := Client(session, key, Waiting, false, true, [], 0);
            Last(trace) == System(key, Chosen(Choice(session, Some(0), true)), false, None, [client],
                                  [AttemptOf(client, true, true)], Finish(false, false))
  {
    var client := Client(session, key, Idle, false, false, [], 0);
    trace := [System(key, AtHead, false, None, [client], [], Finish(false, false))];
    trace := Extend(trace, Connect(0));
    trace := Extend(trace, Head);
    assert Last(trace) == System(key, AtAccept, false, None, [client.(progress := Waiting)], [], Finish(false, false));
    HonestHello(client.(progress := Waiting), key, true, true);
    trace := Extend(trace, Serve(0, true, true));
  }
}
