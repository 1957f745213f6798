/**
 The packed little-endian layouts of the trusted-LAN protocol: the 64-byte input
 datagram and the 32-byte control frame, as byte sequences.
 */
module Wire {
  import opened Protocol

  // ---------------------------------------------------------------- integers

  function Pow256(n: nat): nat {
    if n == 0 then 1 else 256 * Pow256(n - 1)
  }

  lemma Pow256Values()
    ensures Pow256(1) == 0x100 && Pow256(2) == 0x1_0000
    ensures Pow256(4) == 0x1_0000_0000 && Pow256(8) == 0x1_0000_0000_0000_0000
  {
    assert Pow256(3) == 0x100_0000;
    assert Pow256(5) == 0x100_0000_0000;
    assert Pow256(6) == 0x1_0000_0000_0000;
    assert Pow256(7) == 0x100_0000_0000_0000;
  }

  /** The `width` low-order bytes of `value`, least significant first. */
  function Put(value: nat, width: nat): (b: Bytes)
    ensures |b| == width
  {
    if width == 0 then [] else [value % 256] + Put(value / 256, width - 1)
  }

  function Get(b: Bytes): nat {
    if b == [] then 0 else b[0] + 256 * Get(b[1..])
  }

  lemma {:induction false} GetPut(value: nat, width: nat)
    requires value < Pow256(width)
    ensures Get(Put(value, width)) == value
  {
    if width != 0 {
      GetPut(value / 256, width - 1);
      assert Put(value, width)[1..] == Put(value / 256, width - 1);
    }
  }

  lemma {:induction false} PutGet(b: Bytes)
    ensures Get(b) < Pow256(|b|)
    ensures Put(Get(b), |b|) == b
  {
    if b != [] {
      PutGet(b[1..]);
      assert Get(b) / 256 == Get(b[1..]) && Get(b) % 256 == b[0];
    }
  }

  // ------------------------------------------------------------ packed structs

  function Sum(widths: seq<nat>): nat {
    if widths == [] then 0 else widths[0] + Sum(widths[1..])
  }

  predicate Fits(values: seq<nat>, widths: seq<nat>) {
    |values| == |widths| && forall i :: 0 <= i < |values| ==> values[i] < Pow256(widths[i])
  }

  /** Unsigned fields laid out one after the other without padding. */
  function Pack(values: seq<nat>, widths: seq<nat>): (b: Bytes)
    requires |values| == |widths|
    ensures |b| == Sum(widths)
  {
    if values == [] then [] else Put(values[0], widths[0]) + Pack(values[1..], widths[1..])
  }

  function Unpack(b: Bytes, widths: seq<nat>): (values: seq<nat>)
    requires |b| == Sum(widths)
    ensures |values| == |widths|
  {
    if widths == [] then [] else [Get(b[..widths[0]])] + Unpack(b[widths[0]..], widths[1..])
  }

  lemma {:induction false} UnpackPack(values: seq<nat>, widths: seq<nat>)
    requires Fits(values, widths)
    ensures Unpack(Pack(values, widths), widths) == values
  {
    if values != [] {
      UnpackPack(values[1..], widths[1..]);
      GetPut(values[0], widths[0]);
      var b := Pack(values, widths);
      assert b[..widths[0]] == Put(values[0], widths[0]);
      assert b[widths[0]..] == Pack(values[1..], widths[1..]);
    }
  }

  lemma {:induction false} PackUnpack(b: Bytes, widths: seq<nat>)
    requires |b| == Sum(widths)
    ensures Fits(Unpack(b, widths), widths)
    ensures Pack(Unpack(b, widths), widths) == b
  {
    if widths != [] {
      PackUnpack(b[widths[0]..], widths[1..]);
      PutGet(b[..widths[0]]);
      var v := Unpack(b, widths);
      assert v[1..] == Unpack(b[widths[0]..], widths[1..]);
      assert b == b[..widths[0]] + b[widths[0]..];
    }
  }

  /** Field `i` occupies the `widths[i]` bytes after the widths before it. */
  lemma {:induction false} PackAt(values: seq<nat>, widths: seq<nat>, i: nat)
    requires |values| == |widths| && i < |widths|
    ensures Sum(widths[..i]) + widths[i] <= Sum(widths)
    ensures Pack(values, widths)[Sum(widths[..i])..Sum(widths[..i]) + widths[i]] == Put(values[i], widths[i])
  {
    if i == 0 {
      assert widths[..0] == [];
      assert Pack(values, widths)[..widths[0]] == Put(values[0], widths[0]);
    } else {
      PackAt(values[1..], widths[1..], i - 1);
      assert widths[..i][1..] == widths[1..][..i - 1];
      var rest := Pack(values[1..], widths[1..]);
      var o := Sum(widths[1..][..i - 1]);
      assert Pack(values, widths)[widths[0] + o..widths[0] + o + widths[i]] == rest[o..o + widths[i]];
    }
  }

  // ------------------------------------------------------------ gamepad state

  const STATE_WIDTHS: seq<nat> := [4, 2, 2, 2, 2, 2, 2]

  /** Two's complement in 16 bits. */
  function ToUnsigned(v: I16): U16 {
    if v < 0 then v + 0x1_0000 else v
  }

  function ToSigned(u: U16): I16 {
    if u >= 0x8000 then u - 0x1_0000 else u
  }

  function StateFields(s: GamepadState): seq<nat> {
    [s.buttonFlags, s.leftTrigger, s.rightTrigger, ToUnsigned(s.leftStickX),
     ToUnsigned(s.leftStickY), ToUnsigned(s.rightStickX), ToUnsigned(s.rightStickY)]
  }

  lemma StateWidths()
    ensures Sum(STATE_WIDTHS) == 16
  {
    var w := STATE_WIDTHS;
    assert w[1..] == [2, 2, 2, 2, 2, 2] && w[1..][1..] == [2, 2, 2, 2, 2];
    assert w[1..][1..][1..] == [2, 2, 2, 2] && w[1..][1..][1..][1..] == [2, 2, 2];
    assert w[1..][1..][1..][1..][1..] == [2, 2];
  }

  lemma StateBounds(v: seq<nat>)
    requires Fits(v, STATE_WIDTHS)
    ensures v[0] < 0x1_0000_0000 && forall i :: 1 <= i < 7 ==> v[i] < 0x1_0000
  {
    Pow256Values();
  }

  lemma StateFits(s: GamepadState)
    ensures Fits(StateFields(s), STATE_WIDTHS)
  {
    Pow256Values();
  }

  function EncodeState(s: GamepadState): (b: Bytes)
    ensures |b| == 16
  {
    StateWidths();
    Pack(StateFields(s), STATE_WIDTHS)
  }

  function DecodeState(b: Bytes): GamepadState
    requires |b| == 16
  {
    StateWidths();
    PackUnpack(b, STATE_WIDTHS);
    var v := Unpack(b, STATE_WIDTHS);
    StateBounds(v);
    GamepadState(v[0], v[1], v[2], ToSigned(v[3]), ToSigned(v[4]), ToSigned(v[5]), ToSigned(v[6]))
  }

  lemma DecodeEncodeState(s: GamepadState)
    ensures DecodeState(EncodeState(s)) == s
  {
    StateWidths();
    StateFits(s);
    UnpackPack(StateFields(s), STATE_WIDTHS);
  }

  lemma EncodeDecodeState(b: Bytes)
    requires |b| == 16
    ensures EncodeState(DecodeState(b)) == b
  {
    StateWidths();
    PackUnpack(b, STATE_WIDTHS);
    StateBounds(Unpack(b, STATE_WIDTHS));
    assert StateFields(DecodeState(b)) == Unpack(b, STATE_WIDTHS);
  }

  // ------------------------------------------------------------ input datagram

  /** magic, version, type, flags, packet length, header length, session, sequence, timestamp */
  const HEADER_WIDTHS: seq<nat> := [4, 1, 1, 2, 2, 2, 4, 8, 8]

  const ZERO_TAG: Bytes := [0, 0, 0, 0, 0, 0, 0, 0, 0, 0, 0, 0, 0, 0, 0, 0]

  lemma HeaderWidths()
    ensures Sum(HEADER_WIDTHS) == 32
  {
    var w := HEADER_WIDTHS;
    assert w[1..] == [1, 1, 2, 2, 2, 4, 8, 8] && w[1..][1..] == [1, 2, 2, 2, 4, 8, 8];
    var x := w[1..][1..];
    assert x[1..] == [2, 2, 2, 4, 8, 8] && x[1..][1..] == [2, 2, 4, 8, 8];
    var y := x[1..][1..];
    assert y[1..] == [2, 4, 8, 8] && y[1..][1..] == [4, 8, 8] && y[1..][1..][1..] == [8, 8];
  }

  lemma HeaderBounds(v: seq<nat>)
    requires Fits(v, HEADER_WIDTHS)
    ensures v[6] < 0x1_0000_0000 && v[7] < 0x1_0000_0000_0000_0000 && v[8] < 0x1_0000_0000_0000_0000
  {
    Pow256Values();
  }

  lemma HeaderFits(session: U32, f: StateFrame)
    ensures Fits(HeaderFields(session, f), HEADER_WIDTHS)
  {
    Pow256Values();
  }

  function HeaderFields(session: U32, f: StateFrame): seq<nat> {
    [INPUT_MAGIC, PROTOCOL_VERSION, FULL_STATE_MESSAGE, INPUT_FLAG_TRUSTED_LAN_PLAINTEXT,
     INPUT_DATAGRAM_SIZE, INPUT_HEADER_SIZE, session, f.sequence, f.timestampUs]
  }

  /** The packet `SendState` hands to `sendto`. */
  function EncodeInput(session: U32, f: StateFrame): (b: Bytes)
    ensures |b| == 64
  {
    HeaderWidths();
    Pack(HeaderFields(session, f), HEADER_WIDTHS) + EncodeState(f.state) + ZERO_TAG
  }

  /** The header and tag checks of the server's receive loop for session `session`. */
  predicate AcceptsInput(session: U32, b: Bytes) {
    |b| == 64 &&
    (HeaderWidths();
     var v := Unpack(b[..32], HEADER_WIDTHS);
     && v[0] == INPUT_MAGIC
     && v[1] == PROTOCOL_VERSION
     && v[2] == FULL_STATE_MESSAGE
     && v[3] == INPUT_FLAG_TRUSTED_LAN_PLAINTEXT
     && v[4] == INPUT_DATAGRAM_SIZE
     && v[5] == INPUT_HEADER_SIZE
     && v[6] == session
     && forall i :: 48 <= i < 64 ==> b[i] == 0)
  }

  /** What the receive loop hands to the state callback. */
  function DecodeInput(b: Bytes): StateFrame
    requires |b| == 64
  {
    HeaderWidths();
    PackUnpack(b[..32], HEADER_WIDTHS);
    var v := Unpack(b[..32], HEADER_WIDTHS);
    HeaderBounds(v);
    StateFrame(DecodeState(b[32..48]), v[7], v[8])
  }

  lemma EncodedHeader(session: U32, f: StateFrame)
    ensures Sum(HEADER_WIDTHS) == 32
    ensures Unpack(EncodeInput(session, f)[..32], HEADER_WIDTHS) == HeaderFields(session, f)
  {
    HeaderWidths();
    HeaderFits(session, f);
    UnpackPack(HeaderFields(session, f), HEADER_WIDTHS);
    assert EncodeInput(session, f)[..32] == Pack(HeaderFields(session, f), HEADER_WIDTHS);
  }

  lemma EncodedBody(session: U32, f: StateFrame)
    ensures EncodeInput(session, f)[32..48] == EncodeState(f.state)
    ensures EncodeInput(session, f)[48..64] == ZERO_TAG
  {
    HeaderWidths();
    SliceOf(Pack(HeaderFields(session, f), HEADER_WIDTHS), EncodeState(f.state), ZERO_TAG);
  }

  lemma ZeroTag(b: Bytes)
    requires |b| == 64
    ensures b[48..64] == ZERO_TAG <==> forall i :: 48 <= i < 64 ==> b[i] == 0
  {
    assert forall i :: 48 <= i < 64 ==> b[i] == b[48..64][i - 48];
  }

  lemma SliceOf(h: Bytes, e: Bytes, t: Bytes)
    requires |h| == 32 && |e| == 16
    ensures forall i, j {:trigger (h + e + t)[i..j]} | 0 <= i <= j <= 32 :: (h + e + t)[i..j] == h[i..j]
    ensures forall i, j {:trigger (h + e + t)[i..j]} | 32 <= i <= j <= 48 ::
              (h + e + t)[i..j] == e[i - 32..j - 32]
    ensures (h + e + t)[48..] == t
  {
  }

  lemma {:induction false} SumSnoc(w: seq<nat>, x: nat)
    ensures Sum(w + [x]) == Sum(w) + x
  {
    if w != [] {
      SumSnoc(w[1..], x);
      assert (w + [x])[1..] == w[1..] + [x];
    } else {
      assert (w + [x])[1..] == [];
    }
  }

  /** Round trip: what was sent is accepted for its own session only, and read back unchanged. */
  lemma InputRoundTrip(session: U32, other: U32, f: StateFrame)
    ensures AcceptsInput(other, EncodeInput(session, f)) <==> other == session
    ensures DecodeInput(EncodeInput(session, f)) == f
  {
    EncodedHeader(session, f);
    EncodedBody(session, f);
    ZeroTag(EncodeInput(session, f));
    DecodeEncodeState(f.state);
  }

  lemma AcceptedHeader(session: U32, b: Bytes)
    requires AcceptsInput(session, b)
    ensures b[..32] == Pack(HeaderFields(session, DecodeInput(b)), HEADER_WIDTHS)
  {
    HeaderWidths();
    PackUnpack(b[..32], HEADER_WIDTHS);
    HeaderBounds(Unpack(b[..32], HEADER_WIDTHS));
    assert HeaderFields(session, DecodeInput(b)) == Unpack(b[..32], HEADER_WIDTHS);
  }

  lemma AcceptedIsEncoded(session: U32, b: Bytes)
    requires AcceptsInput(session, b)
    ensures b == EncodeInput(session, DecodeInput(b))
  {
    AcceptedHeader(session, b);
    EncodeDecodeState(b[32..48]);
    ZeroTag(b);
    Rejoin(b);
  }

  lemma Rejoin(b: Bytes)
    requires |b| == 64
    ensures b == b[..32] + b[32..48] + b[48..64]
  {
  }

  /** Exactness: the accepted packets of a session are its encodings, nothing else. */
  lemma InputAcceptedIffEncoded(session: U32, b: Bytes)
    ensures AcceptsInput(session, b) <==> exists f :: b == EncodeInput(session, f)
  {
    if AcceptsInput(session, b) {
      AcceptedIsEncoded(session, b);
    }
    forall f | b == EncodeInput(session, f) ensures AcceptsInput(session, b) {
      InputRoundTrip(session, session, f);
    }
  }

  /** No packet is the encoding of two different triples, or of two sessions. */
  lemma InputEncodingInjective(s1: U32, f1: StateFrame, s2: U32, f2: StateFrame)
    requires EncodeInput(s1, f1) == EncodeInput(s2, f2)
    ensures s1 == s2 && f1 == f2
  {
    InputRoundTrip(s1, s2, f1);
    InputRoundTrip(s2, s2, f2);
  }

  // ------------------------------------------------------------- control frame

  const CONTROL_WIDTHS: seq<nat> := [4, 1, 1, 2, 2, 2, 4, 8, 2, 2, 4]

  lemma ControlWidths()
    ensures Sum(CONTROL_WIDTHS) == 32
  {
    var w := CONTROL_WIDTHS;
    assert w[1..] == [1, 1, 2, 2, 2, 4, 8, 2, 2, 4] && w[1..][1..] == [1, 2, 2, 2, 4, 8, 2, 2, 4];
    var x := w[1..][1..];
    assert x[1..] == [2, 2, 2, 4, 8, 2, 2, 4] && x[1..][1..] == [2, 2, 4, 8, 2, 2, 4];
    var y := x[1..][1..];
    assert y[1..] == [2, 4, 8, 2, 2, 4] && y[1..][1..] == [4, 8, 2, 2, 4];
    var z := y[1..][1..];
    assert z[1..] == [8, 2, 2, 4] && z[1..][1..] == [2, 2, 4] && z[1..][1..][1..] == [2, 4];
  }

  lemma ControlBounds(v: seq<nat>)
    requires Fits(v, CONTROL_WIDTHS)
    ensures v[0] < 0x1_0000_0000 && v[1] < 0x100 && v[2] < 0x100 && v[3] < 0x1_0000
    ensures v[4] < 0x1_0000 && v[5] < 0x1_0000 && v[6] < 0x1_0000_0000
    ensures v[7] < 0x1_0000_0000_0000_0000 && v[8] < 0x1_0000 && v[9] < 0x1_0000
    ensures v[10] < 0x1_0000_0000
  {
    Pow256Values();
  }

  function ControlFields(f: ControlFrame): seq<nat> {
    [f.magic, f.version, f.messageType, f.flags, f.frameLength, f.pairingKey, f.sessionId,
     f.sequence, f.rumble.low, f.rumble.high, f.capabilities]
  }

  lemma ControlFits(f: ControlFrame)
    ensures Fits(ControlFields(f), CONTROL_WIDTHS)
  {
    Pow256Values();
  }

  function EncodeControl(f: ControlFrame): (b: Bytes)
    ensures |b| == 32
  {
    ControlWidths();
    Pack(ControlFields(f), CONTROL_WIDTHS)
  }

  function DecodeControl(b: Bytes): ControlFrame
    requires |b| == 32
  {
    ControlWidths();
    PackUnpack(b, CONTROL_WIDTHS);
    var v := Unpack(b, CONTROL_WIDTHS);
    ControlBounds(v);
    ControlFrame(v[0], v[1], v[2], v[3], v[4], v[5], v[6], v[7], Rumble(v[8], v[9]), v[10])
  }

  lemma DecodeEncodeControl(f: ControlFrame)
    ensures DecodeControl(EncodeControl(f)) == f
  {
    ControlWidths();
    ControlFits(f);
    UnpackPack(ControlFields(f), CONTROL_WIDTHS);
  }

  lemma EncodeDecodeControl(b: Bytes)
    requires |b| == 32
    ensures EncodeControl(DecodeControl(b)) == b
  {
    ControlWidths();
    PackUnpack(b, CONTROL_WIDTHS);
    ControlBounds(Unpack(b, CONTROL_WIDTHS));
    assert ControlFields(DecodeControl(b)) == Unpack(b, CONTROL_WIDTHS);
  }
}
