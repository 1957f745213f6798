/** The input datagram byte by byte: what the receive loop asks of it, and what it reads. */
module InputBytes {
  import opened LittleEndian
  import opened Protocol
  import opened Wire

  /** Magic number, version, type, flags, packet length and header length. */
  const FIXED_HEADER: Bytes := [0x52, 0x43, 0x49, 0x31, 1, 1, 1, 0, 64, 0, 32, 0]

  predicate ZeroTagged(b: Bytes)
    requires |b| == 64
  {
    forall i :: 48 <= i < 64 ==> b[i] == 0
  }

  /** The two bytes at `o` are the 16-bit two's complement of `v`. */
  predicate AxisAt(b: Bytes, o: nat, v: I16)
    requires o + 2 <= |b|
  {
    Two(b, o) == if v < 0 then v + 0x1_0000 else v
  }

  lemma FixedBytes()
    ensures Put(INPUT_MAGIC, 4) + Put(PROTOCOL_VERSION, 1) + Put(FULL_STATE_MESSAGE, 1)
            + Put(INPUT_FLAG_TRUSTED_LAN_PLAINTEXT, 2) + Put(INPUT_DATAGRAM_SIZE, 2) + Put(INPUT_HEADER_SIZE, 2)
            == FIXED_HEADER
  {
    PutFour(INPUT_MAGIC);
    PutOne(PROTOCOL_VERSION);
    PutOne(FULL_STATE_MESSAGE);
    PutTwo(INPUT_FLAG_TRUSTED_LAN_PLAINTEXT);
    PutTwo(INPUT_DATAGRAM_SIZE);
    PutTwo(INPUT_HEADER_SIZE);
  }

  // ---------------------------------------------------------- where the fields lie

  function HeaderOffset(i: nat): nat
    requires i <= 8
  {
    [0, 4, 5, 6, 8, 10, 12, 16, 24][i]
  }

  lemma {:induction false} HeaderOffsets(i: nat)
    requires i <= 8
    ensures Sum(HEADER_WIDTHS[..i]) == HeaderOffset(i)
  {
    if i != 0 {
      HeaderOffsets(i - 1);
      assert HEADER_WIDTHS[..i] == HEADER_WIDTHS[..i - 1] + [HEADER_WIDTHS[i - 1]];
      SumSnoc(HEADER_WIDTHS[..i - 1], HEADER_WIDTHS[i - 1]);
    }
  }

  function HeaderOf(b: Bytes): (v: seq<nat>)
    requires |b| == 64
    ensures |v| == 9
  {
    HeaderWidths();
    Unpack(b[..32], HEADER_WIDTHS)
  }

  lemma HeaderField(b: Bytes, i: nat)
    requires |b| == 64 && i <= 8
    ensures HeaderOffset(i) + HEADER_WIDTHS[i] <= 32 && HeaderOf(b)[i] < Pow256(HEADER_WIDTHS[i])
    ensures b[HeaderOffset(i)..HeaderOffset(i) + HEADER_WIDTHS[i]] == Put(HeaderOf(b)[i], HEADER_WIDTHS[i])
  {
    HeaderWidths();
    HeaderOffsets(i);
    PackUnpack(b[..32], HEADER_WIDTHS);
    PackAt(HeaderOf(b), HEADER_WIDTHS, i);
    var o, w := HeaderOffset(i), HEADER_WIDTHS[i];
    assert b[..32][o..o + w] == b[o..o + w];
  }

  lemma HeaderFieldIff(b: Bytes, i: nat, v: nat)
    requires |b| == 64 && i <= 8 && v < Pow256(HEADER_WIDTHS[i])
    ensures HeaderOffset(i) + HEADER_WIDTHS[i] <= 32
    ensures HeaderOf(b)[i] == v <==> b[HeaderOffset(i)..HeaderOffset(i) + HEADER_WIDTHS[i]] == Put(v, HEADER_WIDTHS[i])
  {
    HeaderField(b, i);
    GetPut(v, HEADER_WIDTHS[i]);
    GetPut(HeaderOf(b)[i], HEADER_WIDTHS[i]);
  }

  lemma FixedIff(b: Bytes)
    requires |b| == 64
    ensures b[..12] == FIXED_HEADER <==>
            && b[0..4] == Put(INPUT_MAGIC, 4) && b[4..5] == Put(PROTOCOL_VERSION, 1)
            && b[5..6] == Put(FULL_STATE_MESSAGE, 1) && b[6..8] == Put(INPUT_FLAG_TRUSTED_LAN_PLAINTEXT, 2)
            && b[8..10] == Put(INPUT_DATAGRAM_SIZE, 2) && b[10..12] == Put(INPUT_HEADER_SIZE, 2)
  {
    FixedBytes();
    assert b[..12] == b[0..4] + b[4..5] + b[5..6] + b[6..8] + b[8..10] + b[10..12];
    var h := b[..12];
    assert h[0..4] == b[0..4] && h[4..5] == b[4..5] && h[5..6] == b[5..6];
    assert h[6..8] == b[6..8] && h[8..10] == b[8..10] && h[10..12] == b[10..12];
    SlicesOfFixed();
  }

  lemma SlicesOfFixed()
    ensures var h := FIXED_HEADER;
            && h[0..4] == Put(INPUT_MAGIC, 4) && h[4..5] == Put(PROTOCOL_VERSION, 1)
            && h[5..6] == Put(FULL_STATE_MESSAGE, 1) && h[6..8] == Put(INPUT_FLAG_TRUSTED_LAN_PLAINTEXT, 2)
            && h[8..10] == Put(INPUT_DATAGRAM_SIZE, 2) && h[10..12] == Put(INPUT_HEADER_SIZE, 2)
  {
    PutFour(INPUT_MAGIC);
    PutOne(PROTOCOL_VERSION);
    PutOne(FULL_STATE_MESSAGE);
    PutTwo(INPUT_FLAG_TRUSTED_LAN_PLAINTEXT);
    PutTwo(INPUT_DATAGRAM_SIZE);
    PutTwo(INPUT_HEADER_SIZE);
    var h := FIXED_HEADER;
    assert h[0..4] == [0x52, 0x43, 0x49, 0x31] && h[4..5] == [1] && h[5..6] == [1];
    assert h[6..8] == [1, 0] && h[8..10] == [64, 0] && h[10..12] == [32, 0];
  }

  lemma SessionIff(b: Bytes, session: U32)
    requires |b| == 64
    ensures Four(b, 12) == session <==> b[12..16] == Put(session, 4)
  {
    HeaderField(b, 6);
    Pow256Values();
    FourBytes(b, 12, HeaderOf(b)[6]);
    if b[12..16] == Put(session, 4) {
      FourBytes(b, 12, session);
    }
  }

  /** The checks of the receive loop, as a condition on the bytes of any datagram. */
  lemma AcceptedBytes(session: U32, b: Bytes)
    ensures AcceptsInput(session, b) <==>
            |b| == 64 && b[..12] == FIXED_HEADER && Four(b, 12) == session && ZeroTagged(b)
  {
    if |b| == 64 {
      Pow256Values();
      HeaderFieldIff(b, 0, INPUT_MAGIC);
      HeaderFieldIff(b, 1, PROTOCOL_VERSION);
      HeaderFieldIff(b, 2, FULL_STATE_MESSAGE);
      HeaderFieldIff(b, 3, INPUT_FLAG_TRUSTED_LAN_PLAINTEXT);
      HeaderFieldIff(b, 4, INPUT_DATAGRAM_SIZE);
      HeaderFieldIff(b, 5, INPUT_HEADER_SIZE);
      HeaderFieldIff(b, 6, session);
      FixedIff(b);
      SessionIff(b, session);
    }
  }

  // ------------------------------------------------------------------ what is read

  function StateOffset(i: nat): nat
    requires i <= 6
  {
    [0, 4, 6, 8, 10, 12, 14][i]
  }

  lemma {:induction false} StateOffsets(i: nat)
    requires i <= 6
    ensures Sum(STATE_WIDTHS[..i]) == StateOffset(i)
  {
    if i != 0 {
      StateOffsets(i - 1);
      assert STATE_WIDTHS[..i] == STATE_WIDTHS[..i - 1] + [STATE_WIDTHS[i - 1]];
      SumSnoc(STATE_WIDTHS[..i - 1], STATE_WIDTHS[i - 1]);
    }
  }

  lemma StateField(b: Bytes, i: nat)
    requires |b| == 64 && i <= 6
    ensures StateOffset(i) + STATE_WIDTHS[i] <= 16
    ensures var o := 32 + StateOffset(i);
            b[o..o + STATE_WIDTHS[i]] == Put(StateFields(DecodeState(b[32..48]))[i], STATE_WIDTHS[i])
  {
    StateWidths();
    StateOffsets(i);
    EncodeDecodeState(b[32..48]);
    PackAt(StateFields(DecodeState(b[32..48])), STATE_WIDTHS, i);
    Nested(b, 32, 48, StateOffset(i), StateOffset(i) + STATE_WIDTHS[i]);
  }

  lemma Nested(b: Bytes, start: nat, end: nat, o: nat, p: nat)
    requires start <= end <= |b| && o <= p <= end - start
    ensures b[start..end][o..p] == b[start + o..start + p]
  {
    var inner := b[start..end];
    assert forall k :: o <= k < p ==> inner[k] == b[start + k];
    assert inner[o..p] == b[start + o..start + p];
  }

  lemma SequenceBytes(b: Bytes)
    requires |b| == 64
    ensures DecodeInput(b).sequence == Eight(b, 16) && DecodeInput(b).timestampUs == Eight(b, 24)
  {
    HeaderField(b, 7);
    HeaderField(b, 8);
    EightBytes(b, 16, DecodeInput(b).sequence);
    EightBytes(b, 24, DecodeInput(b).timestampUs);
  }

  lemma ButtonBytes(b: Bytes, g: GamepadState)
    requires |b| == 64 && g == DecodeInput(b).state
    ensures Four(b, 32) == g.buttonFlags && Two(b, 36) == g.leftTrigger && Two(b, 38) == g.rightTrigger
  {
    StateField(b, 0);
    StateField(b, 1);
    StateField(b, 2);
    FourBytes(b, 32, g.buttonFlags);
    TwoBytes(b, 36, g.leftTrigger);
    TwoBytes(b, 38, g.rightTrigger);
  }

  lemma AxisBytes(b: Bytes, g: GamepadState)
    requires |b| == 64 && g == DecodeInput(b).state
    ensures AxisAt(b, 40, g.leftStickX) && AxisAt(b, 42, g.leftStickY)
    ensures AxisAt(b, 44, g.rightStickX) && AxisAt(b, 46, g.rightStickY)
  {
    StateField(b, 3);
    StateField(b, 4);
    StateField(b, 5);
    StateField(b, 6);
    TwoBytes(b, 40, ToUnsigned(g.leftStickX));
    TwoBytes(b, 42, ToUnsigned(g.leftStickY));
    TwoBytes(b, 44, ToUnsigned(g.rightStickX));
    TwoBytes(b, 46, ToUnsigned(g.rightStickY));
  }

  /** What the loop reads from 64 bytes, each field by its bytes as numbers. */
  lemma InputFields(b: Bytes)
    requires |b| == 64
    ensures var f := DecodeInput(b);
            && Eight(b, 16) == f.sequence && Eight(b, 24) == f.timestampUs
            && Four(b, 32) == f.state.buttonFlags
            && Two(b, 36) == f.state.leftTrigger && Two(b, 38) == f.state.rightTrigger
            && AxisAt(b, 40, f.state.leftStickX) && AxisAt(b, 42, f.state.leftStickY)
            && AxisAt(b, 44, f.state.rightStickX) && AxisAt(b, 46, f.state.rightStickY)
  {
    SequenceBytes(b);
    ButtonBytes(b, DecodeInput(b).state);
    AxisBytes(b, DecodeInput(b).state);
  }

  /** The packet that is sent, byte by byte. */
  lemma InputLayout(session: U32, f: StateFrame)
    ensures var b := EncodeInput(session, f);
            && b[..12] == FIXED_HEADER && Four(b, 12) == session && ZeroTagged(b)
            && Eight(b, 16) == f.sequence && Eight(b, 24) == f.timestampUs
            && Four(b, 32) == f.state.buttonFlags
            && Two(b, 36) == f.state.leftTrigger && Two(b, 38) == f.state.rightTrigger
            && AxisAt(b, 40, f.state.leftStickX) && AxisAt(b, 42, f.state.leftStickY)
            && AxisAt(b, 44, f.state.rightStickX) && AxisAt(b, 46, f.state.rightStickY)
  {
    InputRoundTrip(session, session, f);
    AcceptedBytes(session, EncodeInput(session, f));
    InputFields(EncodeInput(session, f));
  }
}
