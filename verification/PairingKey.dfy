/** The pairing key file: the printer `Persist` and the scanner `ReadPersisted`. */
module PairingKey {
  import opened Options
  import opened Protocol

  const MAX_CODE: U32 := 9999
  const KEY_NAME := "\"pairing_key\""

  predicate IsDigit(c: char) {
    '0' <= c <= '9'
  }

  predicate IsBlank(c: char) {
    c == ' ' || c == '\t' || c == '\r' || c == '\n'
  }

  function DigitValue(c: char): nat
    requires IsDigit(c)
  {
    c as int - '0' as int
  }

  predicate AllDigits(s: string) {
    forall i :: 0 <= i < |s| ==> IsDigit(s[i])
  }

  predicate AllBlank(s: string) {
    forall i :: 0 <= i < |s| ==> IsBlank(s[i])
  }

  /** The ten digits, by name. */
  lemma DigitCharacters(c: char)
    ensures IsDigit(c) <==> c in "0123456789"
  {
    assert "0123456789"[0] == '0' && "0123456789"[1] == '1' && "0123456789"[2] == '2' && "0123456789"[3] == '3';
    assert "0123456789"[4] == '4' && "0123456789"[5] == '5' && "0123456789"[6] == '6' && "0123456789"[7] == '7';
    assert "0123456789"[8] == '8' && "0123456789"[9] == '9';
  }

  /** A blank is a space, a tabulator or either half of a line end, nothing else. */
  lemma BlankCharacters(c: char)
    ensures IsBlank(c) <==> c in " \t\r\n"
  {
    assert " \t\r\n"[0] == ' ' && " \t\r\n"[1] == '\t' && " \t\r\n"[2] == '\r' && " \t\r\n"[3] == '\n';
  }

  /** The number a digit string denotes in base ten. */
  function Decimal(s: string): nat
    requires AllDigits(s)
  {
    if s == "" then 0 else 10 * Decimal(s[..|s| - 1]) + DigitValue(s[|s| - 1])
  }

  predicate OccursAt(text: string, pattern: string, i: nat) {
    i + |pattern| <= |text| && text[i..i + |pattern|] == pattern
  }

  /** `std::string::find`: the first occurrence at or after `from`. */
  function Find(text: string, pattern: string, from: nat): (r: Option<nat>)
    ensures r.Some? ==> from <= r.value && OccursAt(text, pattern, r.value)
    ensures forall i: nat :: from <= i && (r.Some? ==> i < r.value) ==> !OccursAt(text, pattern, i)
    decreases |text| - from
  {
    if from + |pattern| > |text| then None
    else if OccursAt(text, pattern, from) then Some(from)
    else Find(text, pattern, from + 1)
  }

  /** What stands between the first colon after the key name and the end of the file. */
  function AfterColon(content: string): (r: Option<string>) {
    var name := Find(content, KEY_NAME, 0);
    if name.None? then None else
    var colon := Find(content, ":", name.value);
    if colon.None? then None else Some(content[colon.value + 1..])
  }

  /** The key name first occurs at `i`, the first colon from there on is at `j`. */
  ghost predicate NameAndColon(content: string, i: nat, j: nat) {
    && OccursAt(content, "\"pairing_key\"", i) && (forall k: nat :: k < i ==> !OccursAt(content, "\"pairing_key\"", k))
    && i <= j && OccursAt(content, ":", j) && (forall k: nat :: i <= k < j ==> !OccursAt(content, ":", k))
  }

  lemma AfterColonIff(content: string, tail: string)
    ensures AfterColon(content) == Some(tail) <==>
            exists i: nat, j: nat :: NameAndColon(content, i, j) && j < |content| && tail == content[j + 1..]
  {
    if AfterColon(content) == Some(tail) {
      var name := Find(content, KEY_NAME, 0);
      var colon := Find(content, ":", name.value);
      assert NameAndColon(content, name.value, colon.value);
    }
    if i: nat, j: nat :| NameAndColon(content, i, j) && j < |content| && tail == content[j + 1..] {
      FoundAt(content, i, j);
    }
  }

  lemma FoundAt(content: string, i: nat, j: nat)
    requires NameAndColon(content, i, j)
    ensures Find(content, KEY_NAME, 0) == Some(i) && Find(content, ":", i) == Some(j)
  {
    assert OccursAt(content, KEY_NAME, i) && OccursAt(content, ":", j);
  }

  /** Blanks, then a nonempty run of digits that nothing extends. */
  predicate Spells(tail: string, blanks: string, run: string, rest: string) {
    && tail == blanks + run + rest
    && AllBlank(blanks)
    && run != "" && AllDigits(run)
    && (rest == "" || !IsDigit(rest[0]))
  }

  ghost predicate SpellsKey(tail: string, key: nat) {
    exists blanks, run, rest :: Spells(tail, blanks, run, rest) && Decimal(run) == key
  }

  /** The key that file content denotes. */
  ghost predicate Denotes(content: string, key: nat) {
    AfterColon(content).Some? && SpellsKey(AfterColon(content).value, key)
  }

  lemma {:induction false} DecimalGrows(s: string, k: nat)
    requires AllDigits(s) && k <= |s|
    ensures Decimal(s[..k]) <= Decimal(s)
  {
    if k < |s| {
      DecimalGrows(s[..|s| - 1], k);
      assert s[..|s| - 1][..k] == s[..k];
    } else {
      assert s[..k] == s;
    }
  }

  lemma SpelledCharacters(tail: string, blanks: string, run: string, rest: string)
    requires Spells(tail, blanks, run, rest)
    ensures forall i :: 0 <= i < |blanks| ==> IsBlank(tail[i])
    ensures forall i :: |blanks| <= i < |blanks| + |run| ==> IsDigit(tail[i])
    ensures |blanks| + |run| < |tail| ==> !IsDigit(tail[|blanks| + |run|])
    ensures |blanks| < |tail| && IsDigit(tail[|blanks|])
    ensures tail[..|blanks|] == blanks && tail[|blanks|..|blanks| + |run|] == run
  {
    assert forall i :: |blanks| <= i < |blanks| + |run| ==> tail[i] == run[i - |blanks|];
    assert |blanks| + |run| < |tail| ==> tail[|blanks| + |run|] == rest[0];
  }

  /** A tail is spelled in one way only. */
  lemma SpellingUnique(tail: string, b1: string, d1: string, r1: string, b2: string, d2: string, r2: string)
    requires Spells(tail, b1, d1, r1) && Spells(tail, b2, d2, r2)
    ensures b1 == b2 && d1 == d2
  {
    SpelledCharacters(tail, b1, d1, r1);
    SpelledCharacters(tail, b2, d2, r2);
    assert IsDigit(tail[|b1|]) && IsDigit(tail[|b2|]);
    assert |b1| == |b2|;
    assert |d1| == |d2|;
  }

  lemma DenotesUnique(content: string, k1: nat, k2: nat)
    requires Denotes(content, k1) && Denotes(content, k2)
    ensures k1 == k2
  {
    var tail := AfterColon(content).value;
    var b1, d1, r1 :| Spells(tail, b1, d1, r1) && Decimal(d1) == k1;
    var b2, d2, r2 :| Spells(tail, b2, d2, r2) && Decimal(d2) == k2;
    SpellingUnique(tail, b1, d1, r1, b2, d2, r2);
  }

  function Wrap32(x: nat): U32 {
    x % 0x1_0000_0000
  }

  /**
   The scanner. It answers with the denoted number exactly when there is one and it is at
   most 9999; neither the early exit nor 32-bit wrap-around is visible in the answer.
   */
  method ReadPersisted(content: string) returns (key: Option<U16>)
    ensures key.Some? ==> Denotes(content, key.value) && key.value <= 9999
    ensures key.None? ==> forall k: nat :: Denotes(content, k) ==> k > 9999
  {
    var name := Find(content, KEY_NAME, 0);
    if name.None? {
      return None;
    }
    var colon := Find(content, ":", name.value);
    if colon.None? {
      return None;
    }
    key := ScanKey(content, colon.value + 1);
  }

  /** The scanning loop behind the colon. */
  method ScanKey(content: string, first: nat) returns (key: Option<U16>)
    requires first <= |content|
    ensures key.Some? ==> SpellsKey(content[first..], key.value) && key.value <= 9999
    ensures key.None? ==> forall k: nat :: SpellsKey(content[first..], k) ==> k > 9999
  {
    ghost var start := first;
    var value: U32 := 0;
    var anyDigit := false;
    var i := first;
    while i < |content|
      invariant first <= start <= i <= |content|
      invariant AllBlank(content[first..start]) && AllDigits(content[start..i])
      invariant anyDigit <==> start < i
      invariant value == Decimal(content[start..i]) <= MAX_CODE
    {
      var c := content[i];
      if IsDigit(c) {
        value := Wrap32(value * 10 + DigitValue(c));
        anyDigit := true;
        TakeDigit(content, start, i);
        if value > MAX_CODE {
          TooLarge(content, first, start, i + 1);
          return None;
        }
      } else if anyDigit {
        break;
      } else if !IsBlank(c) {
        break;
      } else {
        TakeBlank(content, first, i);
        start := i + 1;
      }
      i := i + 1;
    }
    SplitTail(content, first, start, i);
    if !anyDigit {
      Unspelled(content[first..], content[first..start], content[start..]);
      return None;
    }
    assert Spells(content[first..], content[first..start], content[start..i], content[i..]);
    return Some(value);
  }

  lemma TakeDigit(content: string, start: nat, i: nat)
    requires start <= i < |content| && AllDigits(content[start..i]) && IsDigit(content[i])
    ensures AllDigits(content[start..i + 1])
    ensures Decimal(content[start..i + 1]) == 10 * Decimal(content[start..i]) + DigitValue(content[i])
  {
    assert content[start..i + 1][..i - start] == content[start..i];
  }

  lemma TakeBlank(content: string, first: nat, i: nat)
    requires first <= i < |content| && AllBlank(content[first..i]) && IsBlank(content[i])
    ensures AllBlank(content[first..i + 1])
    ensures AllDigits(content[i + 1..i + 1])
  {
    assert content[first..i + 1] == content[first..i] + [content[i]];
  }

  lemma SplitTail(content: string, first: nat, start: nat, i: nat)
    requires first <= start <= i <= |content|
    ensures content[first..] == content[first..start] + content[start..i] + content[i..]
    ensures content[first..] == content[first..start] + content[start..]
  {
  }

  /** The early exit is sound: more digits only make the number larger. */
  lemma TooLarge(content: string, first: nat, start: nat, end: nat)
    requires first <= start < end <= |content|
    requires AllBlank(content[first..start]) && AllDigits(content[start..end])
    requires Decimal(content[start..end]) > MAX_CODE
    ensures forall k: nat | SpellsKey(content[first..], k) :: k > MAX_CODE
  {
    SplitTail(content, first, start, end);
    var tail, blanks, run, rest := content[first..], content[first..start], content[start..end], content[end..];
    forall k: nat | SpellsKey(tail, k) ensures k > MAX_CODE {
      var b, d, r :| Spells(tail, b, d, r) && Decimal(d) == k;
      RunExtends(tail, blanks, run, rest, b, d, r);
      DecimalGrows(d, |run|);
    }
  }

  lemma RunExtends(tail: string, blanks: string, run: string, rest: string, b: string, d: string, r: string)
    requires tail == blanks + run + rest && AllBlank(blanks) && run != "" && AllDigits(run)
    requires Spells(tail, b, d, r)
    ensures |run| <= |d| && d[..|run|] == run
  {
    SpelledCharacters(tail, b, d, r);
    var n := |blanks|;
    assert forall i :: n <= i < n + |run| ==> tail[i] == run[i - n];
    assert IsDigit(tail[n]) && IsDigit(tail[|b|]);
    assert |b| == n && |run| <= |d|;
    assert d[..|run|] == tail[n..n + |run|] == run;
  }

  lemma Unspelled(tail: string, blanks: string, rest: string)
    requires tail == blanks + rest && AllBlank(blanks)
    requires rest == "" || (!IsDigit(rest[0]) && !IsBlank(rest[0]))
    ensures forall b, d, r :: !Spells(tail, b, d, r)
  {
    assert forall i :: 0 <= i < |blanks| ==> tail[i] == blanks[i];
    assert rest != "" ==> tail[|blanks|] == rest[0];
    forall b, d, r ensures !Spells(tail, b, d, r) {
      if Spells(tail, b, d, r) {
        SpelledCharacters(tail, b, d, r);
      }
    }
  }

  // ------------------------------------------------------------------ printer

  /** `%u`: base ten without leading zeros. */
  function PrintDecimal(n: nat): (s: string)
    ensures s != "" && AllDigits(s) && Decimal(s) == n
    ensures (n < 10 ==> |s| == 1) && (n < 100 ==> |s| <= 2) && (n < 1000 ==> |s| <= 3)
    ensures (n < 10000 ==> |s| <= 4) && (n < 100000 ==> |s| <= 5)
  {
    if n < 10 then
      var s := [('0' as int + n) as char];
      assert s[..0] == "";
      s
    else
      var high := PrintDecimal(n / 10);
      var s := high + [('0' as int + n % 10) as char];
      assert s[..|s| - 1] == high;
      s
  }

  const OPENING := "{\n  \"pairing_key\""
  const CLOSING := "\n}\n"

  /** The text `Persist` writes; it fits the 64-byte buffer with its terminator. */
  function Persisted(key: U16): (s: string)
    ensures |s| < 64
  {
    OPENING + ": " + PrintDecimal(key) + CLOSING
  }

  /** The text, character by character but for the digits of the key. */
  lemma PersistedText(key: U16) returns (digits: string)
    ensures AllDigits(digits) && Decimal(digits) == key && 1 <= |digits| <= 5
    ensures Persisted(key) == "{\n  \"pairing_key\": " + digits + "\n}\n"
  {
    digits := PrintDecimal(key);
    assert OPENING + ": " == "{\n  \"pairing_key\": ";
  }

  lemma PersistedTail(key: U16)
    ensures AfterColon(Persisted(key)) == Some(" " + PrintDecimal(key) + CLOSING)
  {
    var text := Persisted(key);
    var tail := " " + PrintDecimal(key) + CLOSING;
    assert text == OPENING + ":" + tail;
    assert forall i :: 0 <= i < 17 ==> text[i] == OPENING[i];
    assert text[4..17] == KEY_NAME;
    assert OccursAt(text, KEY_NAME, 4);
    forall i: nat | i < 4 ensures !OccursAt(text, KEY_NAME, i) {
      assert text[i..i + 13][0] == text[i] != '"';
    }
    assert Find(text, KEY_NAME, 0) == Some(4);
    assert text[17..18] == ":";
    assert OccursAt(text, ":", 17);
    forall i: nat | 4 <= i < 17 ensures !OccursAt(text, ":", i) {
      assert text[i..i + 1][0] == text[i] != ':';
    }
    assert Find(text, ":", 4) == Some(17);
    assert text[18..] == tail;
  }

  /** Round trip: a written file denotes the key written, and no other number. */
  lemma PersistedDenotes(key: U16, k: nat)
    ensures Denotes(Persisted(key), k) <==> k == key
  {
    PersistedTail(key);
    var tail := AfterColon(Persisted(key)).value;
    assert Spells(tail, " ", PrintDecimal(key), CLOSING);
    assert Denotes(Persisted(key), key);
    if Denotes(Persisted(key), k) {
      DenotesUnique(Persisted(key), key, k);
    }
  }

  // -------------------------------------------------------------------- store

  /** The file holds a key that `ReadPersisted` will return. */
  ghost predicate Holds(file: Option<string>, key: nat) {
    file.Some? && Denotes(file.value, key) && key <= MAX_CODE
  }

  /** Reading back works for exactly the keys of at most four digits. */
  lemma PersistRoundTrip(key: U16)
    ensures Holds(Some(Persisted(key)), key) <==> key <= 9999
    ensures forall k: nat :: Holds(Some(Persisted(key)), k) ==> k == key
  {
    forall k: nat ensures Denotes(Persisted(key), k) <==> k == key {
      PersistedDenotes(key, k);
    }
  }

  /** The store under its mutex; `file` is the file on disk, absent or with content. */
  class PairingKeyStore {
    var file: Option<string>

    constructor (initial: Option<string>)
      ensures file == initial
    {
      file := initial;
    }

    method Persist(key: U16, writable: bool)
      modifies this
      ensures file == if writable then Some(Persisted(key)) else old(file)
    {
      if writable {
        file := Some(Persisted(key));
      }
    }

    /** A key already on file is returned and kept; otherwise a four-digit key is made and written. */
    method Get(random: U32, writable: bool) returns (key: U16)
      modifies this
      ensures key <= 9999
      ensures forall k: nat :: old(Holds(file, k)) ==> key == k && file == old(file)
      ensures (forall k: nat :: !old(Holds(file, k))) ==>
                key == random % 10000 && file == if writable then Some(Persisted(key)) else old(file)
      ensures Holds(file, key) || !writable
    {
      if file.Some? {
        var stored := ReadPersisted(file.value);
        if stored.Some? {
          forall k: nat | Holds(file, k) ensures k == stored.value {
            DenotesUnique(file.value, k, stored.value);
          }
          assert Holds(old(file), stored.value);
          return stored.value;
        }
      }
      key := random % (MAX_CODE + 1);
      PersistRoundTrip(key);
      Persist(key, writable);
    }

    method Regenerate(random: U32, writable: bool) returns (key: U16)
      modifies this
      ensures key == random % 10000
      ensures file == if writable then Some(Persisted(key)) else old(file)
      ensures writable ==> Holds(file, key)
    {
      key := random % (MAX_CODE + 1);
      PersistRoundTrip(key);
      Persist(key, writable);
    }
  }
}
