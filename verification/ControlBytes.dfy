/** The bytes of a control frame: where its fields lie, and what the frame check asks of them. */
module ControlBytes {
  import opened LittleEndian
  import opened Protocol
  import opened Wire

  function FieldOffset(i: nat): nat
    requires i <= 10
  {
    [0, 4, 5, 6, 8, 10, 12, 16, 24, 26, 28][i]
  }

  lemma {:induction false} FieldOffsets(i: nat)
    requires i <= 10
    ensures Sum(CONTROL_WIDTHS[..i]) == FieldOffset(i)
  {
    if i != 0 {
      FieldOffsets(i - 1);
      assert CONTROL_WIDTHS[..i] == CONTROL_WIDTHS[..i - 1] + [CONTROL_WIDTHS[i - 1]];
      SumSnoc(CONTROL_WIDTHS[..i - 1], CONTROL_WIDTHS[i - 1]);
    }
  }

  /** Each field of a decoded frame, as bytes of the stream. */
  lemma ControlField(b: Bytes, i: nat)
    requires |b| == 32 && i <= 10
    ensures FieldOffset(i) + CONTROL_WIDTHS[i] <= 32
    ensures b[FieldOffset(i)..FieldOffset(i) + CONTROL_WIDTHS[i]]
            == Put(ControlFields(DecodeControl(b))[i], CONTROL_WIDTHS[i])
  {
    ControlWidths();
    FieldOffsets(i);
    EncodeDecodeControl(b);
    PackAt(ControlFields(DecodeControl(b)), CONTROL_WIDTHS, i);
  }

  /** Magic number, version, type, flags and frame length, as bytes. */
  predicate CheckedHead(b: Bytes, expected: U8)
    requires |b| == 32
  {
    && b[0] == 0x52 && b[1] == 0x43 && b[2] == 0x43 && b[3] == 0x31
    && b[4] == 1 && b[5] == expected && b[6] == 0 && b[7] == 0 && b[8] == 32 && b[9] == 0
  }

  function MotorsAt(b: Bytes): Rumble
    requires |b| == 32
  {
    Rumble(Two(b, 24), Two(b, 26))
  }

  lemma HeadFields(b: Bytes, f: ControlFrame)
    requires |b| == 32 && f == DecodeControl(b)
    ensures f.magic == Four(b, 0)
    ensures f.version == b[4] && f.messageType == b[5] && f.flags == Two(b, 6)
    ensures f.frameLength == Two(b, 8) && f.sessionId == Four(b, 12)
  {
    ControlField(b, 0);
    ControlField(b, 1);
    ControlField(b, 2);
    ControlField(b, 3);
    ControlField(b, 4);
    ControlField(b, 6);
    FourBytes(b, 0, f.magic);
    OneByte(b, 4, f.version);
    OneByte(b, 5, f.messageType);
    TwoBytes(b, 6, f.flags);
    TwoBytes(b, 8, f.frameLength);
    FourBytes(b, 12, f.sessionId);
  }

  /** The frame check, as a condition on the bytes 0 to 9 and 12 to 15 of any packet. */
  lemma ValidBytes(b: Bytes, expected: U8, session: U32)
    requires |b| == 32
    ensures ValidControlFrame(DecodeControl(b), expected, session)
            <==> CheckedHead(b, expected) && Four(b, 12) == session
  {
    HeadFields(b, DecodeControl(b));
    MagicBytes(b);
  }

  lemma MagicBytes(b: Bytes)
    requires |b| == 32
    ensures Four(b, 0) == CONTROL_MAGIC <==> b[0] == 0x52 && b[1] == 0x43 && b[2] == 0x43 && b[3] == 0x31
  {
  }

  lemma MotorBytes(b: Bytes)
    requires |b| == 32
    ensures DecodeControl(b).rumble == MotorsAt(b)
  {
    ControlField(b, 8);
    ControlField(b, 9);
    TwoBytes(b, 24, DecodeControl(b).rumble.low);
    TwoBytes(b, 26, DecodeControl(b).rumble.high);
  }

  /** The bytes of a frame that passes the check. */
  lemma ValidEncoded(f: ControlFrame, expected: U8, session: U32)
    requires ValidControlFrame(f, expected, session)
    ensures CheckedHead(EncodeControl(f), expected) && Four(EncodeControl(f), 12) == session
    ensures MotorsAt(EncodeControl(f)) == f.rumble
  {
    DecodeEncodeControl(f);
    ValidBytes(EncodeControl(f), expected, session);
    MotorBytes(EncodeControl(f));
  }

  // ---------------------------------------------------------- frames as they are sent

  /** The first ten bytes of a frame of this type. */
  function FrameHead(messageType: U8): Bytes {
    [0x52, 0x43, 0x43, 0x31, 1, messageType, 0, 0, 32, 0]
  }

  lemma RestOfFrame(b: Bytes, f: ControlFrame)
    requires |b| == 32 && f == DecodeControl(b)
    ensures f.pairingKey == Two(b, 10) && f.sequence == Eight(b, 16) && f.capabilities == Four(b, 28)
  {
    ControlField(b, 5);
    ControlField(b, 7);
    ControlField(b, 10);
    TwoBytes(b, 10, f.pairingKey);
    EightBytes(b, 16, f.sequence);
    FourBytes(b, 28, f.capabilities);
  }

  /** What `MakeControlFrame` builds, byte by byte. */
  lemma FrameLayout(messageType: U8, session: U32, sequence: U64, rumble: Rumble, key: U16)
    ensures var b := EncodeControl(MakeControlFrame(messageType, session, sequence, rumble, key));
            && b[..10] == FrameHead(messageType)
            && Two(b, 10) == key && Four(b, 12) == session && Eight(b, 16) == sequence
            && Two(b, 24) == rumble.low && Two(b, 26) == rumble.high && Four(b, 28) == 0
  {
    var f := MakeControlFrame(messageType, session, sequence, rumble, key);
    DecodeEncodeControl(f);
    LayoutOf(EncodeControl(f), f, messageType, session);
  }

  lemma LayoutOf(b: Bytes, f: ControlFrame, messageType: U8, session: U32)
    requires |b| == 32 && f == DecodeControl(b) && ValidControlFrame(f, messageType, session)
    ensures b[..10] == FrameHead(messageType)
    ensures Two(b, 10) == f.pairingKey && Four(b, 12) == session && Eight(b, 16) == f.sequence
    ensures Two(b, 24) == f.rumble.low && Two(b, 26) == f.rumble.high && Four(b, 28) == f.capabilities
  {
    ValidBytes(b, messageType, session);
    MotorBytes(b);
    RestOfFrame(b, f);
    HeadOf(b, messageType);
  }

  lemma HeadOf(b: Bytes, messageType: U8)
    requires |b| == 32 && CheckedHead(b, messageType)
    ensures b[..10] == FrameHead(messageType)
  {
  }

  /** The three messages of a session that runs: 3 is a heartbeat, 4 a rumble command, 5 the stop. */
  lemma SessionMessages(session: U32, n: U64, r: Rumble)
    ensures var b := EncodeControl(MakeControlFrame(HEARTBEAT, session, n, Rumble(0, 0), 0));
            b[..10] == FrameHead(3) && Four(b, 12) == session && Eight(b, 16) == n
    ensures var b := EncodeControl(MakeControlFrame(RUMBLE, session, n, r, 0));
            && b[..10] == FrameHead(4) && Four(b, 12) == session && Eight(b, 16) == n
            && Two(b, 24) == r.low && Two(b, 26) == r.high
    ensures var b := EncodeControl(MakeControlFrame(STOP, session, 0, Rumble(0, 0), 0));
            b[..10] == FrameHead(5) && Four(b, 12) == session
  {
    FrameLayout(HEARTBEAT, session, n, Rumble(0, 0), 0);
    FrameLayout(RUMBLE, session, n, r, 0);
    FrameLayout(STOP, session, 0, Rumble(0, 0), 0);
  }
}
