/** The server's datagram loop: which of the packets that arrive reach the session. */
module InputReceiver {
  import opened Options
  import opened Protocol
  import opened Seqs
  import opened Wire

  /** A received datagram; `fromPeer` is the comparison of its source address with the client's. */
  datatype Packet = Packet(bytes: Bytes, fromPeer: bool)

  predicate Ascending(frames: seq<StateFrame>) {
    forall i, j :: 0 <= i < j < |frames| ==> frames[i].sequence < frames[j].sequence
  }

  /** The test a datagram from the client's address has to pass. */
  predicate PassesFilter(session: U32, highest: U64, bytes: Bytes) {
    AcceptsInput(session, bytes) && DecodeInput(bytes).sequence > highest
  }

  /** The frame in a packet, if the packet is genuine. */
  function Reading(p: Packet, session: U32): Option<StateFrame> {
    if p.fromPeer && AcceptsInput(session, p.bytes) then Some(DecodeInput(p.bytes)) else None
  }

  const BUFFER_SIZE := 64

  /** What `recvfrom` returns in one turn: nothing within 100 ms, an error, or a datagram. */
  datatype Reception = TimedOut | Failed | Arrived(packet: Packet)

  /** The turn that ends the loop: a datagram that does not fit the buffer is an error, too. */
  predicate Ends(r: Reception) {
    r.Failed? || (r.Arrived? && |r.packet.bytes| > BUFFER_SIZE)
  }

  /** The number of turns before the one that ends the loop. */
  function Heard(receptions: seq<Reception>): (n: nat)
    ensures n <= |receptions|
    ensures forall j :: 0 <= j < n ==> !Ends(receptions[j])
    ensures n == |receptions| || Ends(receptions[n])
  {
    if receptions == [] || Ends(receptions[0]) then 0 else 1 + Heard(receptions[1..])
  }

  /** The loop is left at the first error, or at the first datagram of more than 64 bytes. */
  lemma HeardIff(receptions: seq<Reception>, n: nat)
    requires n <= |receptions|
    ensures Heard(receptions) >= n <==>
            forall i: nat :: i < n ==>
              receptions[i] != Failed && (receptions[i].Arrived? ==> |receptions[i].packet.bytes| <= 64)
  {
    var h := Heard(receptions);
    if h < n {
      assert Ends(receptions[h]);
    } else {
      forall i: nat | i < n ensures !Ends(receptions[i]) {
      }
    }
  }

  lemma HeardUpTo(receptions: seq<Reception>, i: nat)
    requires i < |receptions| && i <= Heard(receptions)
    ensures i == Heard(receptions) <==> Ends(receptions[i])
  {
  }

  /** The datagrams among the first `n` turns. */
  function Arrivals(receptions: seq<Reception>, n: nat): nat
    requires n <= |receptions|
  {
    if n == 0 then 0 else Arrivals(receptions, n - 1) + if receptions[n - 1].Arrived? then 1 else 0
  }

  function ReadingOf(r: Reception, session: U32): Option<StateFrame> {
    if r.Arrived? then Reading(r.packet, session) else None
  }

  function Readings(receptions: seq<Reception>, session: U32, n: nat): seq<Option<StateFrame>>
    requires n <= |receptions|
  {
    if n == 0 then [] else Readings(receptions, session, n - 1) + [ReadingOf(receptions[n - 1], session)]
  }

  /** In turn `i` the client's address sent the encoding of `f` under this session. */
  predicate Brings(receptions: seq<Reception>, session: U32, i: nat, f: StateFrame)
    requires i < |receptions|
  {
    && receptions[i].Arrived? && receptions[i].packet.fromPeer
    && receptions[i].packet.bytes == EncodeInput(session, f)
  }

  /** What is read are exactly the encodings under this session that came from the client's address. */
  lemma {:induction false} ReadingsAt(receptions: seq<Reception>, session: U32, n: nat, i: nat, f: StateFrame)
    requires i < n <= |receptions|
    ensures |Readings(receptions, session, n)| == n
    ensures Readings(receptions, session, n)[i] == Some(f) <==> Brings(receptions, session, i, f)
  {
    ReadingsLength(receptions, session, n - 1);
    if i < n - 1 {
      ReadingsAt(receptions, session, n - 1, i, f);
    } else {
      ReadingOfIff(receptions[i], session, f);
    }
  }

  lemma {:induction false} ReadingsLength(receptions: seq<Reception>, session: U32, n: nat)
    requires n <= |receptions|
    ensures |Readings(receptions, session, n)| == n
  {
    if n > 0 {
      ReadingsLength(receptions, session, n - 1);
    }
  }

  lemma ReadingOfIff(r: Reception, session: U32, f: StateFrame)
    ensures ReadingOf(r, session) == Some(f) <==>
            r.Arrived? && r.packet.fromPeer && r.packet.bytes == EncodeInput(session, f)
  {
    InputRoundTrip(session, session, f);
    if r.Arrived? && AcceptsInput(session, r.packet.bytes) {
      AcceptedIsEncoded(session, r.packet.bytes);
    }
  }

  /** Turn `i` brings `f`, whose number is above zero and above all that the client's packets had before. */
  ghost predicate BringsFresh(receptions: seq<Reception>, session: U32, i: nat, f: StateFrame)
    requires i < |receptions|
  {
    && Brings(receptions, session, i, f) && f.sequence > 0
    && forall j: nat, g :: j < i && Brings(receptions, session, j, g) ==> g.sequence < f.sequence
  }

  /** A frame whose sequence number is above zero and above all those that arrived before it. */
  predicate Beats(f: Option<StateFrame>, earlier: seq<Option<StateFrame>>) {
    && f.Some? && f.value.sequence > 0
    && forall j :: 0 <= j < |earlier| && earlier[j].Some? ==> earlier[j].value.sequence < f.value.sequence
  }

  /** The frames that beat what arrived before them, in order of arrival. */
  function Records(r: seq<Option<StateFrame>>): seq<StateFrame> {
    if r == [] then []
    else Records(Front(r)) + if Beats(Last(r), Front(r)) then [Last(r).value] else []
  }

  lemma RecordsNext(r: seq<Option<StateFrame>>, f: Option<StateFrame>)
    ensures Records(r + [f]) == Records(r) + if Beats(f, r) then [f.value] else []
  {
    assert Front(r + [f]) == r;
  }

  /** One of the first `n` turns brings `f` fresh. */
  ghost predicate SomeFresh(receptions: seq<Reception>, session: U32, n: nat, f: StateFrame)
    requires n <= |receptions|
  {
    exists i: nat :: i < n && BringsFresh(receptions, session, i, f)
  }

  lemma SomeFreshNext(receptions: seq<Reception>, session: U32, n: nat, f: StateFrame)
    requires n < |receptions|
    ensures SomeFresh(receptions, session, n + 1, f) <==>
            SomeFresh(receptions, session, n, f) || BringsFresh(receptions, session, n, f)
  {
  }

  /** A frame is delivered if and only if some turn brings it fresh. */
  lemma {:induction false} DeliveredIff(receptions: seq<Reception>, session: U32, n: nat, f: StateFrame)
    requires n <= |receptions|
    ensures f in Records(Readings(receptions, session, n)) <==> SomeFresh(receptions, session, n, f)
  {
    if n > 0 {
      DeliveredIff(receptions, session, n - 1, f);
      DeliveredNext(receptions, session, n - 1, f);
      SomeFreshNext(receptions, session, n - 1, f);
    }
  }

  lemma DeliveredNext(receptions: seq<Reception>, session: U32, n: nat, f: StateFrame)
    requires n < |receptions|
    ensures f in Records(Readings(receptions, session, n + 1)) <==>
            f in Records(Readings(receptions, session, n)) || BringsFresh(receptions, session, n, f)
  {
    RecordsNext(Readings(receptions, session, n), ReadingOf(receptions[n], session));
    BeatsIffFresh(receptions, session, n, f);
  }

  lemma BeatsIffFresh(receptions: seq<Reception>, session: U32, i: nat, f: StateFrame)
    requires i < |receptions|
    ensures var last := ReadingOf(receptions[i], session);
            last == Some(f) && Beats(last, Readings(receptions, session, i)) <==> BringsFresh(receptions, session, i, f)
  {
    ReadingOfIff(receptions[i], session, f);
    var r := Readings(receptions, session, i);
    ReadingsLength(receptions, session, i);
    forall j: nat, g | j < i ensures r[j] == Some(g) <==> Brings(receptions, session, j, g) {
      ReadingsAt(receptions, session, i, j, g);
    }
    if BringsFresh(receptions, session, i, f) {
      forall j: nat | j < i && r[j].Some? ensures r[j].value.sequence < f.sequence {
        assert Brings(receptions, session, j, r[j].value);
      }
    }
  }

  /** `highest` bounds the frames that arrived and belongs to one of them, or is zero. */
  ghost predicate IsHighest(r: seq<Option<StateFrame>>, highest: U64) {
    && (forall j :: 0 <= j < |r| && r[j].Some? ==> r[j].value.sequence <= highest)
    && (highest == 0 || exists j :: 0 <= j < |r| && r[j].Some? && r[j].value.sequence == highest)
  }

  /** Comparing with the highest number so far recognises the records, and keeps it up to date. */
  lemma BeatsIffHigher(r: seq<Option<StateFrame>>, highest: U64, f: Option<StateFrame>)
    requires IsHighest(r, highest)
    ensures Beats(f, r) <==> f.Some? && f.value.sequence > highest
    ensures IsHighest(r + [f], if Beats(f, r) then f.value.sequence else highest)
  {
    var s, h := r + [f], if Beats(f, r) then f.value.sequence else highest;
    if Beats(f, r) {
      assert s[|r|] == f;
    } else if highest != 0 {
      var j :| 0 <= j < |r| && r[j].Some? && r[j].value.sequence == highest;
      assert s[j] == r[j];
    }
  }

  /** The frame that goes to the session in a turn that reads `f`. */
  function Fresh(f: Option<StateFrame>, highest: U64): Option<StateFrame> {
    if f.Some? && f.value.sequence > highest then f else None
  }

  /** One turn of the loop: the frame that goes to the session, if any. */
  method Receive(packet: Packet, session: U32, highest: U64) returns (frame: Option<StateFrame>)
    ensures frame == Fresh(Reading(packet, session), highest)
    ensures forall f :: frame == Some(f) <==>
              packet.fromPeer && packet.bytes == EncodeInput(session, f) && f.sequence > highest
  {
    forall f
      ensures Reading(packet, session) == Some(f) <==> packet.fromPeer && packet.bytes == EncodeInput(session, f)
    {
      ReadingOfIff(Arrived(packet), session, f);
    }
    if !packet.fromPeer || !PassesFilter(session, highest, packet.bytes) {
      return None;
    }
    frame := Some(DecodeInput(packet.bytes));
  }

  lemma TurnOver(r: seq<Option<StateFrame>>, highest: U64, f: Option<StateFrame>)
    requires IsHighest(r, highest)
    ensures Records(r + [f]) == Records(r) + if Fresh(f, highest).Some? then [f.value] else []
    ensures IsHighest(r + [f], if Fresh(f, highest).Some? then f.value.sequence else highest)
  {
    BeatsIffHigher(r, highest, f);
    RecordsNext(r, f);
  }

  /** What the loop has done after `n` turns. */
  ghost predicate Progress(receptions: seq<Reception>, session: U32, n: nat,
                           delivered: seq<StateFrame>, dropped: nat, highest: U64)
    requires n <= |receptions|
  {
    && delivered == Records(Readings(receptions, session, n))
    && |delivered| + dropped == Arrivals(receptions, n)
    && IsHighest(Readings(receptions, session, n), highest)
  }

  lemma QuietTurn(
    receptions: seq<Reception>, session: U32, n: nat, delivered: seq<StateFrame>, dropped: nat, highest: U64)
    requires n < |receptions| && Progress(receptions, session, n, delivered, dropped, highest)
    requires receptions[n].TimedOut?
    ensures Progress(receptions, session, n + 1, delivered, dropped, highest)
  {
    TurnOver(Readings(receptions, session, n), highest, None);
  }

  lemma PacketTurn(
    receptions: seq<Reception>, session: U32, n: nat, delivered: seq<StateFrame>, dropped: nat, highest: U64,
    reading: Option<StateFrame>)
    requires n < |receptions| && Progress(receptions, session, n, delivered, dropped, highest)
    requires receptions[n].Arrived? && reading == Reading(receptions[n].packet, session)
    ensures var f := Fresh(reading, highest);
            if f.None? then Progress(receptions, session, n + 1, delivered, dropped + 1, highest)
            else Progress(receptions, session, n + 1, delivered + [f.value], dropped, f.value.sequence)
  {
    TurnOver(Readings(receptions, session, n), highest, reading);
  }

  /** The loop over what `recvfrom` returns while the session is connected; true if it ends by an error. */
  method ServerInputLoop(receptions: seq<Reception>, session: U32)
    returns (delivered: seq<StateFrame>, dropped: nat, highest: U64, disconnected: bool)
    ensures disconnected <==> Heard(receptions) < |receptions|
    ensures Ascending(delivered)
    ensures forall f :: f in delivered <==> SomeFresh(receptions, session, Heard(receptions), f)
    ensures delivered == Records(Readings(receptions, session, Heard(receptions)))
    ensures |delivered| + dropped == Arrivals(receptions, Heard(receptions))
    ensures IsHighest(Readings(receptions, session, Heard(receptions)), highest)
  {
    delivered, dropped, highest, disconnected := [], 0, 0, false;
    var i := 0;
    while i < |receptions|
      invariant 0 <= i <= Heard(receptions)
      invariant Progress(receptions, session, i, delivered, dropped, highest)
    {
      var received := receptions[i];
      HeardUpTo(receptions, i);
      if received.Failed? || (received.Arrived? && |received.packet.bytes| > BUFFER_SIZE) {
        disconnected := true;
        Delivered(receptions, session, i, delivered);
        return;
      }
      if received.TimedOut? {
        QuietTurn(receptions, session, i, delivered, dropped, highest);
        i := i + 1;
        continue;
      }
      PacketTurn(receptions, session, i, delivered, dropped, highest, Reading(received.packet, session));
      var frame := Receive(received.packet, session, highest);
      if frame.None? {
        dropped := dropped + 1;
      } else {
        highest := frame.value.sequence;
        delivered := delivered + [frame.value];
      }
      i := i + 1;
    }
    Delivered(receptions, session, i, delivered);
  }

  lemma Delivered(receptions: seq<Reception>, session: U32, n: nat, delivered: seq<StateFrame>)
    requires n <= |receptions| && delivered == Records(Readings(receptions, session, n))
    ensures Ascending(delivered)
    ensures forall f :: f in delivered <==> SomeFresh(receptions, session, n, f)
  {
    RecordsAscend(Readings(receptions, session, n));
    forall f ensures f in delivered <==> SomeFresh(receptions, session, n, f) {
      DeliveredIff(receptions, session, n, f);
    }
  }

  lemma {:induction false} RecordsBounded(r: seq<Option<StateFrame>>, bound: nat)
    requires forall j :: 0 <= j < |r| && r[j].Some? ==> r[j].value.sequence < bound
    ensures forall k :: 0 <= k < |Records(r)| ==> Records(r)[k].sequence < bound
  {
    if r != [] {
      RecordsBounded(Front(r), bound);
    }
  }

  /** Whatever arrives, in whatever order, however often: what is delivered ascends strictly. */
  lemma {:induction false} RecordsAscend(r: seq<Option<StateFrame>>)
    ensures Ascending(Records(r))
  {
    if r != [] {
      RecordsAscend(Front(r));
      if Beats(Last(r), Front(r)) {
        RecordsBounded(Front(r), Last(r).value.sequence);
      }
    }
  }

  /**
   The newest frame always gets through: if any frame with a positive sequence number
   arrived, the last one delivered carries the greatest such number.
   */
  lemma {:induction false} NewestIsDelivered(r: seq<Option<StateFrame>>) returns (highest: U64)
    ensures IsHighest(r, highest)
    ensures if highest == 0 then Records(r) == [] else Records(r) != [] && Last(Records(r)).sequence == highest
  {
    highest := 0;
    if r != [] {
      highest := NewestIsDelivered(Front(r));
      BeatsIffHigher(Front(r), highest, Last(r));
      assert Front(r) + [Last(r)] == r;
      if Beats(Last(r), Front(r)) {
        highest := Last(r).value.sequence;
      }
    }
  }
}
