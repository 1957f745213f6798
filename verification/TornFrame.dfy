/**
 Where `k` bytes of one control frame meet another frame, the 32 bytes read there may pass
 the frame check: for which `k` and which session, and with which motors.
 */
module TornFrame {
  import opened ControlBytes
  import opened Framing
  import opened LittleEndian
  import opened Protocol
  import opened Wire

  /** The frame the peer reads where `k` bytes of one frame meet another frame. */
  function Torn32(f: ControlFrame, g: ControlFrame, k: nat): ControlFrame
    requires k <= 32
  {
    DecodeControl(Composite(EncodeControl(f), EncodeControl(g), k))
  }

  /**
   A frame torn behind byte `k` keeps its head and its session id: from byte 16 on always,
   between 10 and 15 if the id ends in the bytes with which a frame of type `second` begins.
   */
  predicate HeadSurvives(session: U32, k: nat, second: U8) {
    match k
    case 10 => session == Number(0x43, Number(0x31, Number(PROTOCOL_VERSION, second)))
    case 11 => session == 0x0131_4343
    case 12 => session == CONTROL_MAGIC
    case 13 => session / 0x100 == 0x43_4352
    case 14 => session / 0x1_0000 == 0x4352
    case 15 => session / 0x100_0000 == 0x52
    case _ => k >= 16
  }

  // -------------------------------------------------------- the check, as bytes

  lemma ShortTear(a: Bytes, b: Bytes, second: U8, k: nat, expected: U8)
    requires |a| == 32 && |b| == 32 && 0 < k < 10 && CheckedHead(b, second)
    ensures !CheckedHead(Composite(a, b, k), expected)
  {
    var c := Composite(a, b, k);
    assert c[k] == 0x52;
    assert k == 5 ==> c[6] == 0x43;
  }

  lemma LongTear(a: Bytes, b: Bytes, first: U8, k: nat, expected: U8)
    requires |a| == 32 && |b| == 32 && 10 <= k < 32 && CheckedHead(a, first)
    ensures CheckedHead(Composite(a, b, k), expected) <==> expected == first
  {
    var c := Composite(a, b, k);
    assert forall i :: 0 <= i < 10 ==> c[i] == a[i];
  }

  lemma SessionOfLongTear(a: Bytes, b: Bytes, second: U8, k: nat)
    requires |a| == 32 && |b| == 32 && 10 <= k < 32 && CheckedHead(b, second)
    ensures Four(Composite(a, b, k), 12) == Four(a, 12) <==> HeadSurvives(Four(a, 12), k, second)
  {
    var c := Composite(a, b, k);
    assert forall i {:trigger c[i]} :: 12 <= i < 16 ==> c[i] == if i < k then a[i] else b[i - k];
    SessionBytes(a[12], a[13], a[14], a[15], c[12], c[13], c[14], c[15]);
  }

  lemma SessionBytes(a: U8, b: U8, c: U8, d: U8, e: U8, f: U8, g: U8, h: U8)
    ensures Number(a, Number(b, Number(c, d))) == Number(e, Number(f, Number(g, h)))
            <==> a == e && b == f && c == g && d == h
  {
    NumberUnique(a, Number(b, Number(c, d)), e, Number(f, Number(g, h)));
    NumberUnique(b, Number(c, d), f, Number(g, h));
    NumberUnique(c, d, g, h);
  }

  lemma NumberUnique(a: U8, x: nat, b: U8, y: nat)
    ensures Number(a, x) == Number(b, y) <==> a == b && x == y
  {
  }

  lemma TornPacketIsValidIff(a: Bytes, b: Bytes, first: U8, second: U8, k: nat, expected: U8)
    requires |a| == 32 && |b| == 32 && 0 < k < 32 && CheckedHead(a, first) && CheckedHead(b, second)
    ensures ValidControlFrame(DecodeControl(Composite(a, b, k)), expected, Four(a, 12))
            <==> expected == first && HeadSurvives(Four(a, 12), k, second)
  {
    ValidBytes(Composite(a, b, k), expected, Four(a, 12));
    if k < 10 {
      ShortTear(a, b, second, k, expected);
    } else {
      LongTear(a, b, first, k, expected);
      SessionOfLongTear(a, b, second, k);
    }
  }

  /**
   For any two frames of the protocol: what is read behind a tear is never a frame of the
   second one's type, and one of the first's exactly if head and session id survive.
   */
  lemma TornFrameIsValidIff(f: ControlFrame, g: ControlFrame, k: nat, expected: U8, session: U32)
    requires 0 < k < 32
    requires ValidControlFrame(f, f.messageType, session) && ValidControlFrame(g, g.messageType, g.sessionId)
    ensures ValidControlFrame(Torn32(f, g, k), expected, session)
            <==> expected == f.messageType && HeadSurvives(session, k, g.messageType)
  {
    ValidEncoded(f, f.messageType, session);
    ValidEncoded(g, g.messageType, g.sessionId);
    TornPacketIsValidIff(EncodeControl(f), EncodeControl(g), f.messageType, g.messageType, k, expected);
  }

  // ------------------------------------------------------------------ the motors

  /** What the server's `Stop` sends. */
  function StopFrame(session: U32): ControlFrame {
    MakeControlFrame(STOP, session, 0, Rumble(0, 0), 0)
  }

  /** The motors of a rumble frame torn behind byte `k` by Stop's frame, where it passes the check. */
  function TornMotors(asked: Rumble, session: U32, k: nat): Rumble
    requires HeadSurvives(session, k, STOP)
  {
    match k
    case 10 => Rumble(0x0501, 0)
    case 11 => Rumble(0x3143, 0x0001)
    case 12 => Rumble(0x4352, 0x3143)
    case 13 => Rumble(Number(0, session % 0x100), 0x4352)
    case 14 => Rumble(0, session % 0x1_0000)
    case 15 => Rumble(0, Number(0, session % 0x100))
    case 16 => Rumble(0x0020, 0)
    case 17 => Rumble(0x2000, 0)
    case 18 => Rumble(0, 0x0020)
    case 19 => Rumble(0x0005, 0x2000)
    case 20 => Rumble(0x0501, 0)
    case 21 => Rumble(0x0131, 0x0005)
    case 22 => Rumble(0x3143, 0x0501)
    case 23 => Rumble(0x4343, 0x0131)
    case 24 => Rumble(0x4352, 0x3143)
    case 25 => Rumble(Number(asked.low % 0x100, 0x52), 0x4343)
    case 26 => Rumble(asked.low, 0x4352)
    case 27 => Rumble(asked.low, Number(asked.high % 0x100, 0x52))
    case _ => asked
  }

  predicate StopBytes(b: Bytes)
    requires |b| == 32
  {
    CheckedHead(b, STOP) && b[10] == 0 && b[11] == 0 && b[16] == 0 && b[17] == 0
  }

  lemma StopEncoded(session: U32)
    ensures StopBytes(EncodeControl(StopFrame(session))) && Four(EncodeControl(StopFrame(session)), 12) == session
  {
    var b := EncodeControl(StopFrame(session));
    ValidEncoded(StopFrame(session), STOP, session);
    DecodeEncodeControl(StopFrame(session));
    ControlField(b, 5);
    TwoBytes(b, 10, 0);
    ControlField(b, 7);
    ZeroSequence(b);
  }

  lemma ZeroSequence(b: Bytes)
    requires |b| == 32 && b[16..24] == Put(0, 8)
    ensures b[16] == 0 && b[17] == 0
  {
    var s := b[16..24];
    assert Put(0, 8) == [0] + Put(0, 7) && Put(0, 7) == [0] + Put(0, 6);
    assert s[0] == b[16] && s[1] == b[17];
  }

  lemma LateMotors(a: Bytes, b: Bytes, session: U32, k: nat)
    requires |a| == 32 && |b| == 32 && 24 <= k < 32 && StopBytes(b)
    ensures MotorsAt(Composite(a, b, k)) == TornMotors(MotorsAt(a), session, k)
  {
    var c := Composite(a, b, k);
    assert forall i {:trigger c[i]} :: 24 <= i < 28 ==> c[i] == if i < k then a[i] else b[i - k];
  }

  lemma MotorsOfStop(a: Bytes, b: Bytes, k: nat)
    requires |a| == 32 && |b| == 32 && k <= 24
    ensures MotorsAt(Composite(a, b, k)) == Rumble(Two(b, 24 - k), Two(b, 26 - k))
  {
    var c := Composite(a, b, k);
    assert c[24] == b[24 - k] && c[25] == b[25 - k] && c[26] == b[26 - k] && c[27] == b[27 - k];
  }

  lemma MiddleMotors(b: Bytes, asked: Rumble, session: U32, k: nat)
    requires |b| == 32 && 16 <= k < 24 && StopBytes(b)
    ensures Rumble(Two(b, 24 - k), Two(b, 26 - k)) == TornMotors(asked, session, k)
  {
    if k < 20 {
      assert k == 16 || k == 17 || k == 18 || k == 19;
    } else {
      assert k == 20 || k == 21 || k == 22 || k == 23;
    }
  }

  lemma SessionDigits(b: Bytes, session: U32)
    requires |b| == 32 && Four(b, 12) == session
    ensures b[12] == session % 0x100 && b[13] == session / 0x100 % 0x100
    ensures b[14] == session / 0x1_0000 % 0x100 && b[15] == session / 0x100_0000
  {
    FourDigits(session);
    SessionBytes(b[12], b[13], b[14], b[15], session % 0x100, session / 0x100 % 0x100,
                 session / 0x1_0000 % 0x100, session / 0x100_0000);
  }

  lemma PinnedMotors(b: Bytes, asked: Rumble, session: U32, k: nat)
    requires |b| == 32 && 10 <= k < 13 && StopBytes(b) && Four(b, 12) == session
    requires HeadSurvives(session, k, STOP)
    ensures Rumble(Two(b, 24 - k), Two(b, 26 - k)) == TornMotors(asked, session, k)
  {
    SessionDigits(b, session);
    if k == 10 {
      assert b[14] == 0x01 && b[15] == 0x05;
    } else if k == 11 {
      assert b[13] == 0x43 && b[14] == 0x31 && b[15] == 0x01;
    } else {
      assert b[12] == 0x52 && b[13] == 0x43 && b[14] == 0x43 && b[15] == 0x31;
    }
  }

  lemma EarlyMotors(b: Bytes, asked: Rumble, session: U32, k: nat)
    requires |b| == 32 && 13 <= k < 16 && StopBytes(b) && Four(b, 12) == session
    requires HeadSurvives(session, k, STOP)
    ensures Rumble(Two(b, 24 - k), Two(b, 26 - k)) == TornMotors(asked, session, k)
  {
    SessionDigits(b, session);
    if k == 13 {
      assert b[11] == 0 && b[14] == 0x43 && b[13] == 0x52;
    } else if k == 14 {
      assert b[10] == 0 && b[11] == 0 && session % 0x1_0000 == Number(session % 0x100, session / 0x100 % 0x100);
    } else {
      assert b[9] == 0 && b[10] == 0 && b[11] == 0;
    }
  }

  /** The motors the client reads, byte for byte, for every tear that passes the check. */
  lemma TornMotorsAreRead(f: ControlFrame, k: nat, session: U32)
    requires 0 < k < 32 && ValidControlFrame(f, RUMBLE, session) && HeadSurvives(session, k, STOP)
    ensures Torn32(f, StopFrame(session), k).rumble == TornMotors(f.rumble, session, k)
  {
    var a, b := EncodeControl(f), EncodeControl(StopFrame(session));
    ValidEncoded(f, RUMBLE, session);
    StopEncoded(session);
    MotorBytes(Composite(a, b, k));
    if k >= 24 {
      LateMotors(a, b, session, k);
    } else {
      MotorsOfStop(a, b, k);
      if k >= 16 {
        MiddleMotors(b, f.rumble, session, k);
      } else if k >= 13 {
        EarlyMotors(b, f.rumble, session, k);
      } else {
        PinnedMotors(b, f.rumble, session, k);
      }
    }
  }
}
