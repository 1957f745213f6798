/**
 One lock-free "latest value wins" mailbox: a packed slot and a generation counter. Writers
 store and then count; the reader compares the counter, loads the slot, and passes it on.
 */
module RumbleMailbox {
  import opened Protocol
  import opened Seqs

  /** The high motor in the upper half word, as `(high << 16) | low`. */
  function Pack32(c: Rumble): U32 {
    c.high * 0x1_0000 + c.low
  }

  function Unpack32(packed: U32): Rumble {
    Rumble(packed % 0x1_0000, packed / 0x1_0000)
  }

  lemma UnpackPack32(c: Rumble)
    ensures Unpack32(Pack32(c)) == c
  {
  }

  /** The virtual pad's 8-bit motor values, widened to 16 bits. */
  function Widen(motor: U8): U16 {
    motor * 257
  }

  /** Widening keeps the ratio to full scale exactly, and nothing is lost in the upper byte. */
  lemma WidenIsExact(motor: U8)
    ensures Widen(motor) * 255 == motor * 65535
    ensures Widen(motor) / 256 == motor == Widen(motor) % 256
  {
  }

  /** A command on its way; `index` numbers the commands issued and is not part of the data. */
  datatype Delivery = Delivery(command: Rumble, index: nat)

  datatype Reader =
    | AtTop
    | SawGeneration(generation: nat)
    | SawPending(generation: nat, packed: U32, index: nat, storesSeen: nat)

  /**
   `stored` is every value ever stored, `out` everything the reader passed on; `storesSeen`
   counts the stores before the load behind the last of them.
   */
  datatype Mailbox = Mailbox(
    pending: U32, generation: nat, stored: seq<Delivery>,
    reader: Reader, applied: nat, storesSeen: nat, out: seq<Delivery>)

  const EMPTY := Mailbox(0, 0, [], AtTop, 0, 0, [])

  function Store(m: Mailbox, d: Delivery): Mailbox {
    m.(pending := Pack32(d.command), stored := m.stored + [d])
  }

  function Bump(m: Mailbox): Mailbox {
    m.(generation := m.generation + 1)
  }

  function LoadGeneration(m: Mailbox): Mailbox {
    m.(reader := if m.generation != m.applied then SawGeneration(m.generation) else AtTop)
  }

  function LoadPending(m: Mailbox): Mailbox
    requires m.reader.SawGeneration?
  {
    var index := if m.stored == [] then 0 else Last(m.stored).index;
    m.(reader := SawPending(m.reader.generation, m.pending, index, |m.stored|))
  }

  function Emit(m: Mailbox): Mailbox
    requires m.reader.SawPending?
  {
    m.(out := m.out + [Delivery(Unpack32(m.reader.packed), m.reader.index)], storesSeen := m.reader.storesSeen,
       applied := m.reader.generation, reader := AtTop)
  }

  predicate InStep(d: seq<Delivery>) {
    forall i, j :: 0 <= i <= j < |d| ==> d[i].index <= d[j].index
  }

  /** The delivery is the value of store number `n`. */
  predicate IsStore(m: Mailbox, d: Delivery, n: nat) {
    0 < n <= |m.stored| && m.stored[n - 1] == d
  }

  ghost predicate ReaderInvariant(m: Mailbox) {
    match m.reader
    case AtTop => true
    case SawGeneration(g) => m.applied < g <= m.generation
    case SawPending(g, packed, index, n) =>
      && m.applied < g <= n && g <= m.generation && m.storesSeen <= n
      && IsStore(m, Delivery(Unpack32(packed), index), n)
  }

  ghost predicate Invariant(m: Mailbox) {
    && m.applied <= m.generation <= |m.stored|
    && m.applied <= m.storesSeen
    && (m.stored != [] ==> m.pending == Pack32(Last(m.stored).command))
    && ReaderInvariant(m)
    && (if m.out == [] then m.applied == m.storesSeen == 0 else IsStore(m, Last(m.out), m.storesSeen))
    && InStep(m.stored) && InStep(m.out)
    && forall d :: d in m.out ==> d in m.stored
  }

  /** No writer between store and count, and the reader has caught up. */
  predicate Quiet(m: Mailbox) {
    m.generation == |m.stored| && m.reader == AtTop && m.applied == m.generation
  }

  lemma StoreKeepsInvariant(m: Mailbox, d: Delivery)
    requires Invariant(m) && (m.stored != [] ==> Last(m.stored).index <= d.index)
    ensures Invariant(Store(m, d))
  {
  }

  lemma BumpKeepsInvariant(m: Mailbox)
    requires Invariant(m) && m.generation < |m.stored|
    ensures Invariant(Bump(m))
  {
  }

  lemma LoadKeepsInvariant(m: Mailbox)
    requires Invariant(m)
    ensures m.reader == AtTop ==> Invariant(LoadGeneration(m))
    ensures m.reader.SawGeneration? ==> Invariant(LoadPending(m))
  {
    if m.reader.SawGeneration? {
      var last := Last(m.stored);
      UnpackPack32(last.command);
      assert last == Delivery(Unpack32(m.pending), last.index);
    }
  }

  lemma EmitKeepsInvariant(m: Mailbox)
    requires Invariant(m) && m.reader.SawPending?
    ensures Invariant(Emit(m))
    ensures Last(Emit(m).out) in m.stored
  {
    var d := Delivery(Unpack32(m.reader.packed), m.reader.index);
    assert m.stored[m.reader.storesSeen - 1] == d;
    if m.out != [] {
      assert m.stored[m.storesSeen - 1] == Last(m.out);
    }
  }

  /** A quiet mailbox has passed on the last value stored. */
  lemma QuietMeansCurrent(m: Mailbox)
    requires Invariant(m) && Quiet(m) && m.stored != []
    ensures m.out != [] && Last(m.out) == Last(m.stored)
  {
  }

  /** The two atomics of one mailbox and the generation its reader applied last. */
  class RumbleMailbox {
    var pendingRumble: U32
    var rumbleGeneration: nat
    var appliedGeneration: nat
    ghost var model: Mailbox

    ghost predicate Valid()
      reads this
    {
      && Invariant(model)
      && pendingRumble == model.pending
      && rumbleGeneration == model.generation
      && appliedGeneration == model.applied
    }

    constructor ()
      ensures Valid() && model == EMPTY
    {
      pendingRumble, rumbleGeneration, appliedGeneration := 0, 0, 0;
      model := EMPTY;
    }

    /** `SendRumble` and `SetRumble` behind their checks; `ghost index` numbers the command. */
    method Send(command: Rumble, ghost index: nat)
      requires Valid() && (model.stored != [] ==> Last(model.stored).index <= index)
      modifies this
      ensures Valid() && model == Bump(Store(old(model), Delivery(command, index)))
    {
      StoreKeepsInvariant(model, Delivery(command, index));
      BumpKeepsInvariant(Store(model, Delivery(command, index)));
      pendingRumble := command.high * 0x1_0000 + command.low;
      rumbleGeneration := rumbleGeneration + 1;
      model := Bump(Store(model, Delivery(command, index)));
    }

    /** One pass of the reading loop, undisturbed by a writer. */
    method Poll() returns (found: bool, command: Rumble)
      requires Valid() && model.reader == AtTop
      modifies this
      ensures Valid() && model.reader == AtTop
      ensures found <==> old(model.generation) != old(model.applied)
      ensures !found ==> model == old(model)
      ensures found ==> model == Emit(LoadPending(LoadGeneration(old(model)))) && command == Last(model.out).command
    {
      LoadKeepsInvariant(model);
      var generation := rumbleGeneration;
      if generation == appliedGeneration {
        return false, Rumble(0, 0);
      }
      var packed := pendingRumble;
      ghost var loaded := LoadPending(LoadGeneration(model));
      LoadKeepsInvariant(LoadGeneration(model));
      EmitKeepsInvariant(loaded);
      model := Emit(loaded);
      found, command := true, Rumble(packed % 0x1_0000, packed / 0x1_0000);
      appliedGeneration := generation;
    }
  }
}
