/**
 The control connection below the frames: `SendAll` and `ReceiveAll` over any segmentation,
 and what 32-byte reads find in a stream of 32-byte packets that may have gone out in part.
 */
module Framing {
  import opened Protocol

  function Min(a: nat, b: nat): nat {
    if a < b then a else b
  }

  /**
   A schedule lists what the successive socket calls of one operation are ready to move;
   a call that moves nothing fails. In total it is ready for the bytes before the first failure.
   */
  function Willing(calls: seq<int>): nat {
    if calls == [] || calls[0] <= 0 then 0 else calls[0] + Willing(calls[1..])
  }

  lemma WillingFrom(calls: seq<int>, i: nat)
    requires i < |calls|
    ensures Willing(calls[i..]) == if calls[i] <= 0 then 0 else calls[i] + Willing(calls[i + 1..])
  {
    assert calls[i..][1..] == calls[i + 1..];
  }

  /** What 32-byte reads find in a stream. */
  function Chunks(stream: Bytes): (c: seq<Bytes>)
    ensures forall i :: 0 <= i < |c| ==> |c[i]| == 32
  {
    if |stream| < 32 then [] else [stream[..32]] + Chunks(stream[32..])
  }

  class SendingSocket {
    /** Every byte the network stack took for delivery. */
    var wire: Bytes

    constructor ()
      ensures wire == []
    {
      wire := [];
    }

    method SendAll(data: Bytes, calls: seq<int>) returns (ok: bool)
      modifies this
      ensures wire == old(wire) + data[..Min(|data|, Willing(calls))]
      ensures ok <==> |data| <= Willing(calls)
    {
      var sent, i := 0, 0;
      while sent < |data|
        invariant 0 <= sent <= |data| && 0 <= i <= |calls|
        invariant wire == old(wire) + data[..sent]
        invariant sent < |data| ==> sent + Willing(calls[i..]) == Willing(calls)
        invariant sent <= Willing(calls)
        decreases |data| - sent
      {
        if i == |calls| || calls[i] <= 0 {
          return false;
        }
        WillingFrom(calls, i);
        var result := if calls[i] < |data| - sent then calls[i] else |data| - sent;
        wire := wire + data[sent..sent + result];
        assert data[..sent] + data[sent..sent + result] == data[..sent + result];
        sent, i := sent + result, i + 1;
      }
      ok := true;
    }
  }

  class ReceivingSocket {
    /** Every byte that reaches this side over the life of the connection. */
    const incoming: Bytes
    var position: nat

    ghost predicate Valid()
      reads this
    {
      position <= |incoming|
    }

    constructor (stream: Bytes)
      ensures Valid() && incoming == stream && position == 0
    {
      incoming, position := stream, 0;
    }

    method ReceiveAll(length: nat, calls: seq<int>) returns (ok: bool, data: Bytes)
      requires Valid()
      modifies this
      ensures Valid()
      ensures ok <==> length <= Willing(calls) && old(position) + length <= |incoming|
      ensures position == old(position) + Min(length, Min(Willing(calls), |incoming| - old(position)))
      ensures data == incoming[old(position)..position]
    {
      var received, i := 0, 0;
      data := [];
      while received < length
        invariant 0 <= received <= length && 0 <= i <= |calls|
        invariant Valid() && position == old(position) + received
        invariant data == incoming[old(position)..position]
        invariant received < length && position < |incoming| ==> received + Willing(calls[i..]) == Willing(calls)
        invariant received <= Willing(calls)
        decreases length - received
      {
        if i == |calls| || calls[i] <= 0 || position == |incoming| {
          return false, data;
        }
        WillingFrom(calls, i);
        var result := Min(calls[i], Min(length - received, |incoming| - position));
        data := data + incoming[position..position + result];
        position := position + result;
        received, i := received + result, i + 1;
      }
      ok := true;
    }

    /** One `ReceiveAll` for each schedule, until one fails: the receiving half of both control loops. */
    method ReceiveFrames(schedules: seq<seq<int>>) returns (frames: seq<Bytes>)
      requires Valid()
      modifies this
      ensures Valid()
      ensures frames <= Chunks(incoming[old(position)..]) && |frames| <= |schedules|
      ensures (forall i :: 0 <= i < |schedules| ==> 32 <= Willing(schedules[i])) ==>
                frames == Chunks(incoming[old(position)..]) || |frames| == |schedules|
    {
      frames := [];
      ghost var all := Chunks(incoming[position..]);
      while |frames| < |schedules|
        invariant |frames| <= |schedules| && Valid()
        invariant frames + Chunks(incoming[position..]) == all
        decreases |schedules| - |frames|
      {
        ghost var rest := incoming[position..];
        var ok, data := ReceiveAll(32, schedules[|frames|]);
        if !ok {
          return;
        }
        NextChunk(rest, data, incoming[position..], frames, all);
        frames := frames + [data];
      }
    }
  }

  lemma NextChunk(rest: Bytes, data: Bytes, later: Bytes, before: seq<Bytes>, all: seq<Bytes>)
    requires |data| == 32 && rest == data + later && before + Chunks(rest) == all
    ensures before + [data] + Chunks(later) == all
  {
    assert rest[..32] == data && rest[32..] == later;
  }

  // ------------------------------------------------------------- several sends

  /** One `SendAll` of a 32-byte packet and how much of it went out. */
  datatype Piece = Piece(bytes: Bytes, taken: nat)

  predicate Sane(p: Piece) {
    |p.bytes| == 32 && p.taken <= 32
  }

  predicate AllSane(pieces: seq<Piece>) {
    forall i :: 0 <= i < |pieces| ==> Sane(pieces[i])
  }

  predicate Partial(p: Piece) {
    0 < p.taken < 32
  }

  function Taken(pieces: seq<Piece>): nat {
    if pieces == [] then 0 else pieces[0].taken + Taken(pieces[1..])
  }

  function OnWire(pieces: seq<Piece>): (b: Bytes)
    requires AllSane(pieces)
    ensures |b| == Taken(pieces)
  {
    if pieces == [] then [] else pieces[0].bytes[..pieces[0].taken] + OnWire(pieces[1..])
  }

  /** The packets that went out completely. */
  function Whole(pieces: seq<Piece>): seq<Bytes> {
    if pieces == [] then []
    else (if pieces[0].taken == 32 then [pieces[0].bytes] else []) + Whole(pieces[1..])
  }

  /** Bytes follow a packet that went out in part. */
  predicate Torn(pieces: seq<Piece>) {
    exists i, j :: 0 <= i < j < |pieces| && Partial(pieces[i]) && pieces[j].taken > 0
  }

  predicate NonePartial(pieces: seq<Piece>) {
    forall i :: 0 <= i < |pieces| ==> !Partial(pieces[i])
  }

  lemma NextWhole(p: Piece, rest: Bytes)
    requires Sane(p) && !Partial(p)
    ensures Chunks(p.bytes[..p.taken] + rest) == (if p.taken == 32 then [p.bytes] else []) + Chunks(rest)
  {
    var b := p.bytes[..p.taken];
    if p.taken == 32 {
      assert b == p.bytes && (b + rest)[..32] == b && (b + rest)[32..] == rest;
    } else {
      assert b + rest == rest;
    }
  }

  lemma {:induction false} OnWireAppend(before: seq<Piece>, rest: seq<Piece>)
    requires AllSane(before) && AllSane(rest)
    ensures AllSane(before + rest)
    ensures OnWire(before + rest) == OnWire(before) + OnWire(rest)
  {
    if before == [] {
      assert before + rest == rest;
    } else {
      OnWireAppend(before[1..], rest);
      assert (before + rest)[1..] == before[1..] + rest;
      Associate(before[0].bytes[..before[0].taken], OnWire(before[1..]), OnWire(rest));
    }
  }

  lemma Associate<T>(a: seq<T>, b: seq<T>, c: seq<T>)
    ensures a + (b + c) == (a + b) + c
  {
  }

  lemma {:induction false} WholeAppend(before: seq<Piece>, rest: seq<Piece>)
    ensures Whole(before + rest) == Whole(before) + Whole(rest)
  {
    if before == [] {
      assert before + rest == rest;
    } else {
      WholeAppend(before[1..], rest);
      assert (before + rest)[1..] == before[1..] + rest;
      Associate(if before[0].taken == 32 then [before[0].bytes] else [], Whole(before[1..]), Whole(rest));
    }
  }

  lemma {:induction false} ChunksAfter(before: seq<Piece>, rest: Bytes)
    requires AllSane(before) && NonePartial(before)
    ensures Chunks(OnWire(before) + rest) == Whole(before) + Chunks(rest)
  {
    if before == [] {
      assert OnWire(before) + rest == rest;
    } else {
      ChunksAfter(before[1..], rest);
      var later := OnWire(before[1..]) + rest;
      Associate(before[0].bytes[..before[0].taken], OnWire(before[1..]), rest);
      NextWhole(before[0], later);
    }
  }

  /** Packets sent whole, or not at all, are read as they are; the reads go on behind them. */
  lemma AfterWhole(before: seq<Piece>, rest: seq<Piece>)
    requires AllSane(before) && AllSane(rest) && NonePartial(before)
    ensures AllSane(before + rest)
    ensures Chunks(OnWire(before + rest)) == Whole(before) + Chunks(OnWire(rest))
    ensures Whole(before + rest) == Whole(before) + Whole(rest)
  {
    OnWireAppend(before, rest);
    WholeAppend(before, rest);
    ChunksAfter(before, OnWire(rest));
  }

  lemma {:induction false} NothingSent(pieces: seq<Piece>)
    requires AllSane(pieces) && forall i :: 0 <= i < |pieces| ==> pieces[i].taken == 0
    ensures OnWire(pieces) == [] && Whole(pieces) == []
  {
    if pieces != [] {
      NothingSent(pieces[1..]);
    }
  }

  lemma {:induction false} FirstPartial(pieces: seq<Piece>) returns (i: nat)
    requires !NonePartial(pieces)
    ensures i < |pieces| && Partial(pieces[i]) && NonePartial(pieces[..i])
  {
    if Partial(pieces[0]) {
      i := 0;
    } else {
      assert !NonePartial(pieces[1..]) by {
        var k :| 0 <= k < |pieces| && Partial(pieces[k]);
        assert Partial(pieces[1..][k - 1]);
      }
      var n := FirstPartial(pieces[1..]);
      i := n + 1;
      forall k | 0 <= k < i ensures !Partial(pieces[..i][k]) {
        assert k > 0 ==> pieces[1..][..n][k - 1] == pieces[k];
      }
    }
  }

  /**
   Framing. If no bytes follow a partial send, 32-byte reads recover exactly the packets that
   went out completely, in order.
   */
  lemma WholeRecovered(pieces: seq<Piece>)
    requires AllSane(pieces) && !Torn(pieces)
    ensures Chunks(OnWire(pieces)) == Whole(pieces)
  {
    if NonePartial(pieces) {
      AfterWhole(pieces, []);
      assert pieces + [] == pieces;
    } else {
      var i := FirstPartial(pieces);
      var before, head, tail := pieces[..i], pieces[i], pieces[i + 1..];
      assert pieces == before + ([head] + tail);
      forall j | 0 <= j < |tail| ensures tail[j].taken == 0 {
        assert pieces[i + 1 + j] == tail[j];
      }
      NothingSent(tail);
      AfterWhole(before, [head] + tail);
      assert ([head] + tail)[1..] == tail;
    }
  }

  // ----------------------------------------------------------------- alignment

  lemma {:induction false} TakenSnoc(pieces: seq<Piece>, x: Piece)
    ensures Taken(pieces + [x]) == Taken(pieces) + x.taken
  {
    if pieces == [] {
      assert pieces + [x] == [x];
    } else {
      assert (pieces + [x])[1..] == pieces[1..] + [x];
      TakenSnoc(pieces[1..], x);
    }
  }

  /** Where on the wire packet `i` starts. */
  function Offset(pieces: seq<Piece>, i: nat): nat
    requires i <= |pieces|
  {
    Taken(pieces[..i])
  }

  lemma OffsetNext(pieces: seq<Piece>, i: nat)
    requires i < |pieces|
    ensures Offset(pieces, i + 1) == Offset(pieces, i) + pieces[i].taken
  {
    assert pieces[..i + 1] == pieces[..i] + [pieces[i]];
    TakenSnoc(pieces[..i], pieces[i]);
  }

  predicate Aligned(pieces: seq<Piece>, i: nat)
    requires i <= |pieces|
  {
    Offset(pieces, i) % 32 == 0
  }

  /** Every packet that put bytes on the wire starts on a packet boundary. */
  predicate AllAligned(pieces: seq<Piece>) {
    forall i: nat :: i < |pieces| && pieces[i].taken > 0 ==> Aligned(pieces, i)
  }

  lemma {:induction false} AlignedBeforePartial(pieces: seq<Piece>, i: nat)
    requires AllSane(pieces) && i <= |pieces| && forall j :: 0 <= j < i ==> !Partial(pieces[j])
    ensures Aligned(pieces, i)
  {
    if i > 0 {
      AlignedBeforePartial(pieces, i - 1);
      OffsetNext(pieces, i - 1);
    }
  }

  lemma {:induction false} SilentBetween(pieces: seq<Piece>, i: nat, j: nat)
    requires i <= j <= |pieces| && forall k :: i <= k < j ==> pieces[k].taken == 0
    ensures Offset(pieces, j) == Offset(pieces, i)
  {
    if i < j {
      SilentBetween(pieces, i, j - 1);
      OffsetNext(pieces, j - 1);
    }
  }

  /** Exactness: every packet starts on a packet boundary if and only if the stream is not torn. */
  lemma AlignedIffNotTorn(pieces: seq<Piece>)
    requires AllSane(pieces)
    ensures AllAligned(pieces) <==> !Torn(pieces)
  {
    if Torn(pieces) {
      var j := FirstBytesAfterPartial(pieces);
      assert !Aligned(pieces, j);
    } else {
      forall i: nat | i < |pieces| && pieces[i].taken > 0 ensures Aligned(pieces, i) {
        AlignedBeforePartial(pieces, i);
      }
    }
  }

  lemma FirstBytesAfterPartial(pieces: seq<Piece>) returns (j: nat)
    requires AllSane(pieces) && Torn(pieces)
    ensures j < |pieces| && pieces[j].taken > 0 && !Aligned(pieces, j)
  {
    var p, q :| 0 <= p < q < |pieces| && Partial(pieces[p]) && pieces[q].taken > 0;
    var i := FirstPartial(pieces);
    assert forall k :: 0 <= k < i ==> pieces[..i][k] == pieces[k];
    j := i + 1;
    while pieces[j].taken == 0
      invariant i < j <= q && forall k :: i < k < j ==> pieces[k].taken == 0
      decreases q - j
    {
      j := j + 1;
    }
    AlignedBeforePartial(pieces, i);
    OffsetNext(pieces, i);
    SilentBetween(pieces, i + 1, j);
  }

  // --------------------------------------------------------- the first torn pair

  /** What is read where `k` bytes of one packet meet another. */
  function Composite(a: Bytes, b: Bytes, k: nat): (c: Bytes)
    requires |a| == 32 && |b| == 32 && k <= 32
    ensures |c| == 32
  {
    a[..k] + b[..32 - k]
  }

  /** A torn packet, and a whole one behind it that is not what is read there. */
  lemma WholeBehindATear(x: Piece, y: Piece, later: seq<Piece>)
    requires Sane(x) && Sane(y) && AllSane(later) && Partial(x) && y.taken == 32
    requires Composite(x.bytes, y.bytes, x.taken) != y.bytes
    ensures AllSane([x, y] + later)
    ensures Chunks(OnWire([x, y] + later)) != Whole([x, y] + later)
  {
    var all := [x, y] + later;
    assert all[1..] == [y] + later && all[1..][1..] == later;
    assert Whole([y] + later) == [y.bytes] + Whole(later);
    assert Whole(all) == [y.bytes] + Whole(later);
    assert OnWire([y] + later) == y.bytes + OnWire(later);
    assert OnWire(all) == x.bytes[..x.taken] + (y.bytes + OnWire(later));
    assert OnWire(all)[..32] == Composite(x.bytes, y.bytes, x.taken);
    assert Chunks(OnWire(all))[0] != Whole(all)[0];
  }

  /** A torn pair at the end, neither packet whole: a packet is read if and only if 32 bytes went out. */
  lemma TornPairAtTheEnd(x: Piece, y: Piece)
    requires Sane(x) && Sane(y) && x.taken < 32 && y.taken < 32
    ensures Chunks(OnWire([x, y])) == Whole([x, y]) <==> x.taken + y.taken < 32
  {
    assert [x, y][1..] == [y] && [y][1..] == [];
    assert OnWire([y]) == y.bytes[..y.taken];
    assert Whole([y]) == [] == Whole([x, y]);
  }

  /** The pair is read as one composite packet if its second half is whole and nothing follows. */
  lemma CompositeIsRead(x: Piece, y: Piece)
    requires Sane(x) && Sane(y) && Partial(x) && y.taken == 32
    ensures Chunks(OnWire([x, y])) == [Composite(x.bytes, y.bytes, x.taken)]
  {
    assert [x, y][1..] == [y] && [y][1..] == [];
    assert OnWire([y]) == y.bytes;
    var all := OnWire([x, y]);
    assert all == x.bytes[..x.taken] + y.bytes;
    assert all[..32] == Composite(x.bytes, y.bytes, x.taken);
    assert |all[32..]| < 32;
  }

  /**
   The only torn pair of a stream: nothing before it is torn, nothing follows it unless its
   second packet is whole, and that packet is not what is read there. Then the packets sent
   whole are the packets read if and only if the pair does not amount to 32 bytes.
   */
  lemma TornPairMisread(pieces: seq<Piece>, i: nat)
    requires AllSane(pieces) && i + 1 < |pieces| && Partial(pieces[i]) && NonePartial(pieces[..i])
    requires pieces[i + 1].taken < 32 ==> i + 2 == |pieces|
    requires Composite(pieces[i].bytes, pieces[i + 1].bytes, pieces[i].taken) != pieces[i + 1].bytes
    ensures Chunks(OnWire(pieces)) == Whole(pieces) <==> pieces[i].taken + pieces[i + 1].taken < 32
  {
    var before, x, y, later := pieces[..i], pieces[i], pieces[i + 1], pieces[i + 2..];
    SplitAtPair(pieces, i);
    if y.taken == 32 {
      WholeBehindATear(x, y, later);
      Prefixed(pieces, before, [x, y] + later);
    } else {
      TornPairAtTheEnd(x, y);
      Prefixed(pieces, before, [x, y]);
    }
  }

  lemma SplitAtPair(pieces: seq<Piece>, i: nat)
    requires i + 1 < |pieces|
    ensures pieces == pieces[..i] + ([pieces[i], pieces[i + 1]] + pieces[i + 2..])
    ensures i + 2 == |pieces| ==> pieces == pieces[..i] + [pieces[i], pieces[i + 1]]
  {
  }

  /** Packets sent whole, or not at all, in front change nothing about what is read behind them. */
  lemma Prefixed(pieces: seq<Piece>, before: seq<Piece>, rest: seq<Piece>)
    requires pieces == before + rest && AllSane(before) && AllSane(rest) && NonePartial(before)
    ensures AllSane(pieces)
    ensures Chunks(OnWire(pieces)) == Whole(pieces) <==> Chunks(OnWire(rest)) == Whole(rest)
  {
    AfterWhole(before, rest);
    SameTails(Whole(before), Chunks(OnWire(rest)), Whole(rest));
  }

  lemma SameTails(a: seq<Bytes>, b: seq<Bytes>, c: seq<Bytes>)
    ensures a + b == a + c <==> b == c
  {
    if a + b == a + c {
      assert b == (a + b)[|a|..] == (a + c)[|a|..] == c;
    }
  }
}
