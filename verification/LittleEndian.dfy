/** Bytes of a packet as the numbers they spell, least significant byte first. */
module LittleEndian {
  import opened Protocol
  import opened Wire

  lemma PutOne(v: U8)
    ensures Put(v, 1) == [v]
  {
  }

  lemma PutTwo(v: U16)
    ensures Put(v, 2) == [v % 0x100, v / 0x100]
  {
    PutOne(v / 0x100);
  }

  lemma PutFour(v: U32)
    ensures Put(v, 4) == [v % 0x100, v / 0x100 % 0x100, v / 0x1_0000 % 0x100, v / 0x100_0000]
  {
    PutTwo(v / 0x1_0000);
    assert Put(v / 0x100, 3) == [v / 0x100 % 0x100] + Put(v / 0x100 / 0x100, 2);
    assert v / 0x100 / 0x100 == v / 0x1_0000 && v / 0x1_0000 / 0x100 == v / 0x100_0000;
  }

  /** The number in `low` and `high`, least significant byte first. */
  function Number(low: int, high: int): int {
    low + 0x100 * high
  }

  function Two(b: Bytes, o: nat): (v: U16)
    requires o + 2 <= |b|
  {
    Number(b[o], b[o + 1])
  }

  function Four(b: Bytes, o: nat): (v: U32)
    requires o + 4 <= |b|
  {
    Number(b[o], Number(b[o + 1], Number(b[o + 2], b[o + 3])))
  }

  lemma FourDigits(v: nat)
    ensures v == Number(v % 0x100, Number(v / 0x100 % 0x100, Number(v / 0x1_0000 % 0x100, v / 0x100_0000)))
  {
    assert v / 0x100 / 0x100 == v / 0x1_0000 && v / 0x1_0000 / 0x100 == v / 0x100_0000;
  }

  lemma FourOf(b: Bytes, o: nat, s: Bytes)
    requires o + 4 <= |b| && b[o..o + 4] == s
    ensures Four(b, o) == Number(s[0], Number(s[1], Number(s[2], s[3])))
  {
    assert s[0] == b[o] && s[1] == b[o + 1] && s[2] == b[o + 2] && s[3] == b[o + 3];
  }

  lemma FourBytes(b: Bytes, o: nat, v: U32)
    requires o + 4 <= |b| && b[o..o + 4] == Put(v, 4)
    ensures v == Four(b, o)
  {
    PutFour(v);
    FourOf(b, o, Put(v, 4));
    FourDigits(v);
  }

  lemma TwoBytes(b: Bytes, o: nat, v: U16)
    requires o + 2 <= |b| && b[o..o + 2] == Put(v, 2)
    ensures v == Two(b, o)
  {
    PutTwo(v);
    var s := b[o..o + 2];
    assert s[0] == b[o] && s[1] == b[o + 1];
  }

  lemma OneByte(b: Bytes, o: nat, v: U8)
    requires o + 1 <= |b| && b[o..o + 1] == Put(v, 1)
    ensures v == b[o]
  {
    PutOne(v);
    assert b[o..o + 1][0] == b[o];
  }

  function Eight(b: Bytes, o: nat): int
    requires o + 8 <= |b|
  {
    Four(b, o) + 0x1_0000_0000 * Four(b, o + 4)
  }

  lemma GetTwo(s: Bytes)
    requires |s| >= 2
    ensures Get(s) == s[0] + 0x100 * (s[1] + 0x100 * Get(s[2..]))
  {
    assert s[1..][1..] == s[2..];
  }

  lemma GetFour(s: Bytes)
    requires |s| >= 4
    ensures Get(s) == Four(s, 0) + 0x1_0000_0000 * Get(s[4..])
  {
    GetTwo(s);
    GetTwo(s[2..]);
    assert s[2..][2..] == s[4..];
  }

  lemma EightBytes(b: Bytes, o: nat, v: U64)
    requires o + 8 <= |b| && b[o..o + 8] == Put(v, 8)
    ensures v == Eight(b, o)
  {
    var s := b[o..o + 8];
    Pow256Values();
    GetPut(v, 8);
    GetFour(s);
    GetFour(s[4..]);
    assert s[4..][4..] == [];
    FourAt(b, o, s, 0);
    FourAt(b, o + 4, s[4..], 0);
  }

  lemma FourAt(b: Bytes, o: nat, s: Bytes, i: nat)
    requires i + 4 <= |s| && o + 4 <= |b| && b[o..o + 4] == s[i..i + 4]
    ensures Four(b, o) == Four(s, i)
  {
    var x, y := b[o..o + 4], s[i..i + 4];
    assert x[0] == b[o] && x[1] == b[o + 1] && x[2] == b[o + 2] && x[3] == b[o + 3];
    assert y[0] == s[i] && y[1] == s[i + 1] && y[2] == s[i + 2] && y[3] == s[i + 3];
  }
}
