/**
 The handshake's messages byte by byte, and what each step of server and client leads to.
 */
module HandshakeOutcomes {
  import opened ControlBytes
  import opened Handshake
  import opened LittleEndian
  import opened Options
  import opened Protocol
  import opened Seqs
  import opened Wire

  /** The three messages of a handshake on the wire: 1 carries the key, 2 accepts, 6 rejects for reason 1. */
  lemma HandshakeMessages(session: U32, key: U16)
    ensures var b := EncodeControl(Hello(session, key));
            b[..10] == FrameHead(1) && Two(b, 10) == key && Four(b, 12) == session
    ensures var b := EncodeControl(Ack(session));
            b[..10] == FrameHead(2) && Two(b, 10) == 0 && Four(b, 12) == session
    ensures var b := EncodeControl(Rejection(session));
            b[..10] == FrameHead(6) && Four(b, 12) == session && Eight(b, 16) == 1
  {
    FrameLayout(HELLO, session, 0, Rumble(0, 0), key);
    FrameLayout(HELLO_ACK, session, 0, Rumble(0, 0), 0);
    FrameLayout(ERROR, session, ERROR_PAIRING_KEY_MISMATCH, Rumble(0, 0), 0);
  }

  // ------------------------------------------------------- what is read, as bytes

  lemma HeadIff(b: Bytes, messageType: U8)
    requires |b| == 32
    ensures CheckedHead(b, messageType) <==> b[..10] == FrameHead(messageType)
  {
    var h, f := b[..10], FrameHead(messageType);
    assert forall i :: 0 <= i < 10 ==> h[i] == b[i];
    if h == f {
      assert h[0] == f[0] && h[1] == f[1] && h[2] == f[2] && h[3] == f[3] && h[4] == f[4];
      assert h[5] == f[5] && h[6] == f[6] && h[7] == f[7] && h[8] == f[8] && h[9] == f[9];
    } else {
      HeadOf2(b, messageType);
    }
  }

  lemma HeadOf2(b: Bytes, messageType: U8)
    requires |b| == 32
    ensures CheckedHead(b, messageType) ==> b[..10] == FrameHead(messageType)
  {
    if CheckedHead(b, messageType) {
      HeadOf(b, messageType);
    }
  }

  /** A connection is accepted if and only if its 32 bytes are a hello of some session that carries the key. */
  lemma AcceptableBytes(b: Bytes, sendable: bool, key: U16)
    requires |b| == 32
    ensures Acceptable(Connection(Some(DecodeControl(b)), sendable), key) <==>
            b[..10] == FrameHead(1) && Four(b, 12) != 0 && Two(b, 10) == key
  {
    HelloBytes(b);
  }

  lemma HelloBytes(b: Bytes)
    requires |b| == 32
    ensures ValidHello(DecodeControl(b)) <==> b[..10] == FrameHead(1) && Four(b, 12) != 0
    ensures DecodeControl(b).pairingKey == Two(b, 10) && DecodeControl(b).sessionId == Four(b, 12)
  {
    HeadFields(b, DecodeControl(b));
    RestOfFrame(b, DecodeControl(b));
    ValidBytes(b, HELLO, DecodeControl(b).sessionId);
    HeadIff(b, HELLO);
  }

  /** Nothing else is accepted: no silence, no failed accept, no short read. */
  lemma OnlyFramesAreAcceptable(a: Attempt, key: U16)
    ensures Acceptable(a, key) || Refusal(a, key).Some? ==> a.Connection? && a.read.Some?
  {
  }

  /** What each handled connection is answered, by the 32 bytes it sent. */
  lemma AnswerBytes(b: Bytes, sendable: bool, key: U16, finish: Finish)
    requires |b| == 32
    ensures var answer := Answer(Connection(Some(DecodeControl(b)), sendable), key, finish);
            if b[..10] != FrameHead(1) || Four(b, 12) == 0 then answer == None
            else if Two(b, 10) != key then answer == Some(Rejection(Four(b, 12)))
            else answer == if finish.stopBeforeAck then None else Some(Ack(Four(b, 12)))
  {
    HelloBytes(b);
  }

  /** What a client makes of the 32 bytes it reads back. */
  lemma JudgedBytes(b: Bytes, session: U32)
    requires |b| == 32
    ensures var progress := Judge(DecodeControl(b), session);
            && (progress == Accepted <==> b[..10] == FrameHead(2) && Four(b, 12) == session)
            && (b[..10] == FrameHead(6) && Four(b, 12) == session && Eight(b, 16) == 1 ==> progress == Done(Mismatch))
            && (progress == Done(Mismatch) ==> b[5] == 6 && Four(b, 12) == session && Eight(b, 16) == 1)
  {
    var f := DecodeControl(b);
    HeadFields(b, f);
    RestOfFrame(b, f);
    ValidBytes(b, HELLO_ACK, session);
    ValidBytes(b, ERROR, session);
    HeadIff(b, HELLO_ACK);
    HeadIff(b, ERROR);
  }

  // -------------------------------------------------------------- what steps lead to

  /** An honest client that is served is chosen if its hello can be read and has the key, else the loop goes on. */
  lemma ServedClient(trace: seq<System>, i: nat, c: nat, readable: bool, sendable: bool)
    requires IsRun(trace) && i < |trace| && Enabled(trace[i], Serve(c, readable, sendable))
    ensures var s, t := trace[i], Apply(trace[i], Serve(c, readable, sendable));
            var client := s.clients[c];
            && t.server == (if readable && client.key == s.key
                            then Chosen(Choice(client.session, Some(c), sendable)) else AtHead)
            && c < |t.clients| && t.clients[c].served
            && t.clients[c].sent == (if readable && sendable && client.key != s.key
                                     then [Rejection(client.session)] else [])
            && t.acked == None && t.stop == s.stop
  {
    RunInvariant(trace, i);
    assert ClientInvariant(trace[i].clients[c], trace[i].key, trace[i].acked == Some(c));
    HonestHello(trace[i].clients[c], trace[i].key, readable, sendable);
    assert trace[i].clients[c].sent == [];
  }

  /** Any other connection: chosen if acceptable, the end of a failed accept, else the loop goes on. */
  lemma OtherConnection(trace: seq<System>, i: nat, a: Attempt)
    requires IsRun(trace) && i < |trace| && trace[i].server == AtAccept
    ensures Enabled(trace[i], Accept(a))
    ensures var s, t := trace[i], Apply(trace[i], Accept(a));
            && t.clients == s.clients && t.handled == s.handled + [a]
            && (a.AcceptFailed? ==> t.server == Gone)
            && (!Decides(a, s.key) ==> t.server == AtHead)
            && (Acceptable(a, s.key) ==> t.server == Chosen(Choice(a.read.value.sessionId, None, a.sendable)))
  {
  }

  /** An acceptable client of any kind is served to the end: the server holds its session, unless it cannot answer. */
  lemma ServesAnyone(key: U16, a: Attempt) returns (trace: seq<System>)
    requires Acceptable(a, key)
    ensures IsRun(trace)
    ensures var choice := Choice(a.read.value.sessionId, None, a.sendable);
            Last(trace).server == if a.sendable then Holding(choice) else Gone
  {
    var choice := Choice(a.read.value.sessionId, None, a.sendable);
    var start := System(key, AtHead, false, None, [], [], Finish(false, false));
    trace := [start];
    trace := Extend(trace, Head);
    assert Last(trace) == start.(server := AtAccept);
    trace := Extend(trace, Accept(a));
    var s := start.(handled := [a]);
    assert Last(trace) == s.(server := Chosen(choice));
    trace := Extend(trace, CheckBeforeAck);
    assert Last(trace) == s.(server := SendingAck(choice));
    trace := Extend(trace, SendAck);
    if a.sendable {
      assert Last(trace) == s.(server := AckSent(choice));
      trace := Extend(trace, CheckAfterAck);
      assert Last(trace) == s.(server := Assigning(choice));
      trace := Extend(trace, Assign);
    }
  }

  /** A client with another key is told so, reads it, and the server goes on listening. */
  lemma WrongKeyIsTold(session: U32, key: U16, wrong: U16) returns (trace: seq<System>)
    requires session != 0 && wrong != key
    ensures IsRun(trace) && Last(trace).server == AtAccept
    ensures Last(trace).clients == [Client(session, wrong, Done(Mismatch), false, true, [Rejection(session)], 1)]
  {
    var client := Client(session, wrong, Idle, false, false, [], 0);
    trace := [System(key, AtHead, false, None, [client], [], Finish(false, false))];
    trace := Extend(trace, Connect(0));
    trace := Extend(trace, Head);
    var s := Last(trace);
    assert s.clients == [client.(progress := Waiting)] && s.server == AtAccept;
    HonestHello(client.(progress := Waiting), key, true, true);
    trace := Extend(trace, Serve(0, true, true));
    assert [] + [Rejection(session)] == [Rejection(session)];
    assert Last(trace).clients[0] == Client(session, wrong, Waiting, false, true, [Rejection(session)], 0);
    assert Last(trace).clients == [Client(session, wrong, Waiting, false, true, [Rejection(session)], 0)];
    AnswersJudged(session);
    trace := Extend(trace, ReadAnswer(0));
    assert Last(trace).clients == [Client(session, wrong, Done(Mismatch), false, true, [Rejection(session)], 1)];
    trace := Extend(trace, Head);
  }

  /** A client whose read fails, or that is stopped, can do nothing but fail. */
  lemma ClientFails(trace: seq<System>, i: nat, c: nat)
    requires IsRun(trace) && i < |trace| && c < |trace[i].clients|
    ensures trace[i].clients[c].progress == Waiting ==>
              && Enabled(trace[i], ReadFails(c))
              && Apply(trace[i], ReadFails(c)).clients[c].progress == Done(Failed)
    ensures Enabled(trace[i], StopClient(c)) && Apply(trace[i], StopClient(c)).clients[c].stop
    ensures Enabled(trace[i], Stop) && Apply(trace[i], Stop).stop
  {
  }

  /** A client stopped while it reads its acknowledgement is not connected, though the server will be. */
  lemma StoppedClientFails(session: U32, key: U16) returns (trace: seq<System>)
    requires session != 0
    ensures IsRun(trace) && Last(trace).server == AckSent(Choice(session, Some(0), true))
    ensures |Last(trace).clients| == 1 && Last(trace).clients[0].progress == Done(Failed)
  {
    trace := Acknowledged(session, key);
    var s, client := Last(trace), Last(trace).clients[0];
    AnswersJudged(session);
    trace := Extend(trace, ReadAnswer(0));
    assert Last(trace) == s.(clients := [client.(progress := Accepted, taken := 1)]);
    trace := Extend(trace, StopClient(0));
    assert Last(trace) == s.(clients := [client.(progress := Accepted, taken := 1, stop := true)]);
    trace := Extend(trace, CheckStop(0));
  }
}
