/** The protocol's integers, states and frames, its constants, and the checks on a control frame. */
module Protocol {

  type U8 = x: int | 0 <= x < 0x100
  type U16 = x: int | 0 <= x < 0x1_0000
  type U32 = x: int | 0 <= x < 0x1_0000_0000
  type U64 = x: int | 0 <= x < 0x1_0000_0000_0000_0000
  type I16 = x: int | -0x8000 <= x < 0x8000
  type Bytes = seq<U8>

  // ------------------------------------------------------------ gamepad state

  datatype GamepadState = GamepadState(
    buttonFlags: U32, leftTrigger: U16, rightTrigger: U16,
    leftStickX: I16, leftStickY: I16, rightStickX: I16, rightStickY: I16)

  const NEUTRAL := GamepadState(0, 0, 0, 0, 0, 0, 0)

  datatype StateFrame = StateFrame(state: GamepadState, sequence: U64, timestampUs: U64)

  // ------------------------------------------------------------ input datagram

  const INPUT_MAGIC: U32 := 0x31494352
  const PROTOCOL_VERSION: U8 := 1
  const INPUT_DATAGRAM_SIZE: U16 := 64
  const INPUT_HEADER_SIZE: U16 := 32
  const INPUT_FLAG_TRUSTED_LAN_PLAINTEXT: U16 := 1
  const FULL_STATE_MESSAGE: U8 := 1

  // ------------------------------------------------------------- control frame

  const CONTROL_MAGIC: U32 := 0x31434352
  const CONTROL_FRAME_SIZE: U16 := 32
  const ERROR_PAIRING_KEY_MISMATCH: U64 := 1

  const HELLO: U8 := 1
  const HELLO_ACK: U8 := 2
  const HEARTBEAT: U8 := 3
  const RUMBLE: U8 := 4
  const STOP: U8 := 5
  const ERROR: U8 := 6

  datatype Rumble = Rumble(low: U16, high: U16)

  datatype ControlFrame = ControlFrame(
    magic: U32, version: U8, messageType: U8, flags: U16, frameLength: U16, pairingKey: U16,
    sessionId: U32, sequence: U64, rumble: Rumble, capabilities: U32)

  function MakeControlFrame(messageType: U8, session: U32, sequence: U64, rumble: Rumble, key: U16): ControlFrame {
    ControlFrame(CONTROL_MAGIC, PROTOCOL_VERSION, messageType, 0, CONTROL_FRAME_SIZE, key,
                 session, sequence, rumble, 0)
  }

  predicate ValidControlFrame(f: ControlFrame, expected: U8, session: U32) {
    && f.magic == CONTROL_MAGIC
    && f.version == PROTOCOL_VERSION
    && f.flags == 0
    && f.frameLength == CONTROL_FRAME_SIZE
    && f.messageType == expected
    && f.sessionId == session
  }

  predicate PairingMismatchResponse(f: ControlFrame, session: U32) {
    && f.magic == CONTROL_MAGIC
    && f.version == PROTOCOL_VERSION
    && f.frameLength == CONTROL_FRAME_SIZE
    && f.messageType == ERROR
    && f.sessionId == session
    && f.sequence == ERROR_PAIRING_KEY_MISMATCH
  }

  /** The check leaves exactly key, sequence, motors and capabilities free. */
  lemma ValidControlFrameMeaning(f: ControlFrame, expected: U8, session: U32)
    ensures ValidControlFrame(f, expected, session) <==>
            f == MakeControlFrame(expected, session, f.sequence, f.rumble, f.pairingKey)
                   .(capabilities := f.capabilities)
  {
  }
}
