/**
 The two threads of one side that send on the control connection under
 `control_send_mutex_`: the control loop, and the thread in Stop.
 */
module ControlStream {
  import opened ControlBytes
  import opened Framing
  import opened Protocol
  import opened Seqs
  import opened Wire

  /** One `SendAll` of a frame, how many of its 32 bytes went out, and whether `Stop` called it. */
  datatype Send = Send(frame: ControlFrame, taken: nat, byStop: bool)

  predicate Fits32(sends: seq<Send>) {
    forall i :: 0 <= i < |sends| ==> sends[i].taken <= 32
  }

  function PieceOf(send: Send): (p: Piece)
    ensures p.taken == send.taken && |p.bytes| == 32
  {
    Piece(EncodeControl(send.frame), send.taken)
  }

  function Pieces(sends: seq<Send>): (p: seq<Piece>)
    ensures |p| == |sends|
    ensures forall i :: 0 <= i < |p| ==> p[i] == PieceOf(sends[i])
  {
    seq(|sends|, i requires 0 <= i < |sends| => PieceOf(sends[i]))
  }

  lemma PieceAt(sends: seq<Send>, i: nat)
    requires i < |sends|
    ensures Pieces(sends)[i].bytes == EncodeControl(sends[i].frame)
  {
  }

  /** What 32-byte reads of the peer find, packet by packet. */
  function Read(sends: seq<Send>): seq<Bytes>
    requires Fits32(sends)
  {
    Chunks(OnWire(Pieces(sends)))
  }

  /** The frames that went out completely, as packets; `EncodeControl` loses nothing. */
  function SentWhole(sends: seq<Send>): seq<Bytes> {
    Whole(Pieces(sends))
  }

  // ------------------------------------------------- the two senders of a side

  /** The control loop; `SendFailed` lies between a failed `SendAll` and `SignalDisconnected`. */
  datatype Loop = Sending | SendFailed | Ended

  /** The thread in `Stop`; `Waiting` saw `connected_` and now wants the send mutex. */
  datatype Stopper = NotCalled | Waiting | Passed

  datatype System = System(connected: bool, loop: Loop, stopper: Stopper, sends: seq<Send>)

  datatype Event =
    | LoopSend(frame: ControlFrame, taken: nat)
    | LoopSignal
    | LoopEnd
    | Disconnect
    | StopCheck
    | StopSend(frame: ControlFrame, taken: nat)

  const INITIAL := System(true, Sending, NotCalled, [])

  /** What the control loops send: heartbeats on the one side, rumble on the other. */
  predicate FromLoop(f: ControlFrame) {
    ValidControlFrame(f, HEARTBEAT, f.sessionId) || ValidControlFrame(f, RUMBLE, f.sessionId)
  }

  predicate FromStop(f: ControlFrame) {
    ValidControlFrame(f, STOP, f.sessionId)
  }

  predicate Enabled(s: System, e: Event) {
    match e
    case LoopSend(frame, taken) => s.loop == Sending && taken <= 32 && FromLoop(frame)
    case LoopSignal => s.loop == SendFailed
    case LoopEnd => s.loop == Sending
    case Disconnect => true
    case StopCheck => s.stopper == NotCalled
    case StopSend(frame, taken) => s.stopper == Waiting && taken <= 32 && FromStop(frame)
  }

  function Apply(s: System, e: Event): System
    requires Enabled(s, e)
  {
    match e
    case LoopSend(frame, taken) =>
      s.(sends := s.sends + [Send(frame, taken, false)], loop := if taken == 32 then Sending else SendFailed)
    case LoopSignal => s.(connected := false, loop := Ended)
    case LoopEnd => s.(loop := Ended)
    case Disconnect => s.(connected := false)
    case StopCheck => s.(stopper := if s.connected then Waiting else Passed)
    case StopSend(frame, taken) =>
      s.(sends := s.sends + [Send(frame, taken, true)], stopper := Passed)
  }

  ghost predicate Next(s: System, t: System) {
    exists e :: Enabled(s, e) && t == Apply(s, e)
  }

  ghost predicate Moves(trace: seq<System>, i: nat)
    requires i + 1 < |trace|
  {
    Next(trace[i], trace[i + 1])
  }

  ghost predicate IsRun(trace: seq<System>) {
    && trace != []
    && trace[0] == INITIAL
    && forall i: nat {:trigger Moves(trace, i)} :: i + 1 < |trace| ==> Moves(trace, i)
  }

  lemma Extend(trace: seq<System>, e: Event) returns (longer: seq<System>)
    requires IsRun(trace) && Enabled(Last(trace), e)
    ensures IsRun(longer) && Last(longer) == Apply(Last(trace), e)
  {
    longer := trace + [Apply(Last(trace), e)];
    forall i: nat | i + 1 < |longer| ensures Moves(longer, i) {
      if i + 1 < |trace| {
        assert Moves(trace, i);
        assert longer[i] == trace[i] && longer[i + 1] == trace[i + 1];
      } else {
        assert Enabled(longer[i], e) && longer[i + 1] == Apply(longer[i], e);
      }
    }
  }

  /** Stop sends once; of the loop's sends only the last may have failed. */
  ghost predicate Invariant(s: System) {
    && Fits32(s.sends)
    && (forall i :: 0 <= i < |s.sends| ==>
          if s.sends[i].byStop then FromStop(s.sends[i].frame) else FromLoop(s.sends[i].frame))
    && (forall i :: 0 <= i < |s.sends| && s.sends[i].byStop ==> s.stopper == Passed)
    && (forall i, j :: 0 <= i < j < |s.sends| ==> !(s.sends[i].byStop && s.sends[j].byStop))
    && (s.loop == Sending ==> forall i :: 0 <= i < |s.sends| ==> s.sends[i].byStop || s.sends[i].taken == 32)
    && (forall i, j :: 0 <= i < j < |s.sends| && !s.sends[i].byStop && s.sends[i].taken != 32 ==> s.sends[j].byStop)
  }

  lemma StepKeepsInvariant(s: System, e: Event)
    requires Invariant(s) && Enabled(s, e)
    ensures Invariant(Apply(s, e))
  {
  }

  lemma {:induction false} RunInvariant(trace: seq<System>, i: nat)
    requires IsRun(trace) && i < |trace|
    ensures Invariant(trace[i])
  {
    if i > 0 {
      RunInvariant(trace, i - 1);
      assert Moves(trace, i - 1);
      var e :| Enabled(trace[i - 1], e) && trace[i] == Apply(trace[i - 1], e);
      StepKeepsInvariant(trace[i - 1], e);
    }
  }

  predicate IsPartial(s: Send) {
    0 < s.taken < 32
  }

  /** Stop's frame comes right behind a partial send, or is one and has bytes right behind it. */
  predicate StopTears(s: System) {
    exists i, j :: 0 <= i && j == i + 1 < |s.sends| && IsPartial(s.sends[i]) && s.sends[j].taken > 0
                   && (s.sends[i].byStop || s.sends[j].byStop)
  }

  /** Bytes follow a frame that went out in part. */
  predicate TornSends(sends: seq<Send>) {
    exists i, j :: 0 <= i < j < |sends| && IsPartial(sends[i]) && sends[j].taken > 0
  }

  lemma TornPieces(sends: seq<Send>, p: seq<Piece>)
    requires |p| == |sends| && forall i :: 0 <= i < |p| ==> p[i].taken == sends[i].taken
    ensures Torn(p) <==> TornSends(sends)
  {
    if Torn(p) {
      var i, j :| 0 <= i < j < |p| && Partial(p[i]) && p[j].taken > 0;
      assert IsPartial(sends[i]) && sends[j].taken > 0;
    }
    if TornSends(sends) {
      var i, j :| 0 <= i < j < |sends| && IsPartial(sends[i]) && sends[j].taken > 0;
      assert Partial(p[i]) && p[j].taken > 0;
    }
  }

  lemma TornOnlyByStop(s: System)
    requires Invariant(s)
    ensures TornSends(s.sends) <==> StopTears(s)
  {
    if TornSends(s.sends) {
      var i, j :| 0 <= i < j < |s.sends| && IsPartial(s.sends[i]) && s.sends[j].taken > 0;
      var next := i + 1;
      assert !s.sends[i].byStop ==> s.sends[next].byStop && next == j;
      assert s.sends[i].byStop && next != j ==> s.sends[next].taken == 32;
      assert IsPartial(s.sends[i]) && s.sends[next].taken > 0;
    }
  }

  // ---------------------------------------------------------- what tearing does

  predicate OneOfEach(f: ControlFrame, g: ControlFrame) {
    (FromLoop(f) && FromStop(g)) || (FromStop(f) && FromLoop(g))
  }

  lemma ShiftedHead(a: Bytes, b: Bytes, first: U8, second: U8, k: nat)
    requires |a| == 32 && |b| == 32 && 0 < k < 32 && first != second && second != 0x52
    requires CheckedHead(a, first) && CheckedHead(b, second)
    ensures Composite(a, b, k) != b
  {
    var c := Composite(a, b, k);
    if k >= 6 {
      assert c[5] == a[5];
    } else {
      assert c[k] == b[0];
    }
  }

  /**
   A frame never hides behind a torn frame of the other thread: a tear of up to five bytes
   shifts the magic number, a longer one keeps the other's type.
   */
  lemma CompositeIsNotTheSecond(f: ControlFrame, g: ControlFrame, k: nat)
    requires 0 < k < 32 && OneOfEach(f, g)
    ensures Composite(EncodeControl(f), EncodeControl(g), k) != EncodeControl(g)
  {
    ValidEncoded(f, f.messageType, f.sessionId);
    ValidEncoded(g, g.messageType, g.sessionId);
    ShiftedHead(EncodeControl(f), EncodeControl(g), f.messageType, g.messageType, k);
  }

  /** Stop's frame and its neighbour, the first of them torn, amount to a frame that nobody sent. */
  predicate StopConfuses(s: System) {
    exists i, j :: 0 <= i && j == i + 1 < |s.sends| && IsPartial(s.sends[i])
                   && s.sends[i].taken + s.sends[j].taken >= 32 && (s.sends[i].byStop || s.sends[j].byStop)
  }

  predicate IsTornPair(s: System, i: nat) {
    && i + 1 < |s.sends| && IsPartial(s.sends[i]) && s.sends[i + 1].taken > 0
    && s.sends[i].byStop != s.sends[i + 1].byStop
  }

  lemma SomeTornPair(s: System) returns (i: nat)
    requires Invariant(s) && StopTears(s)
    ensures IsTornPair(s, i)
  {
    var n, m :| 0 <= n && m == n + 1 < |s.sends| && IsPartial(s.sends[n]) && s.sends[m].taken > 0
                && (s.sends[n].byStop || s.sends[m].byStop);
    i := n;
    assert !(s.sends[n].byStop && s.sends[m].byStop);
  }

  /** Nothing before the torn pair is torn. */
  lemma NothingTornBefore(s: System, i: nat, j: nat)
    requires Invariant(s) && IsTornPair(s, i) && j < i
    ensures !IsPartial(s.sends[j])
  {
    var earlier, first, second := s.sends[j], s.sends[i], s.sends[i + 1];
    assert !earlier.byStop;
    assert earlier.taken == 32 || first.byStop;
    assert earlier.taken == 32 || second.byStop;
  }

  /** Something follows the torn pair only if its second frame went out whole. */
  lemma WholeBeforeMore(s: System, i: nat, k: nat)
    requires Invariant(s) && IsTornPair(s, i) && i + 1 < k < |s.sends|
    ensures s.sends[i + 1].taken == 32
  {
    var first, second, later := s.sends[i], s.sends[i + 1], s.sends[k];
    assert !(second.byStop && later.byStop);
    assert first.byStop && !second.byStop && !later.byStop;
  }

  lemma TornPairUnique(s: System, i: nat, n: nat)
    requires Invariant(s) && IsTornPair(s, i) && IsTornPair(s, n)
    ensures i == n
  {
    forall j: nat | j < i ensures !IsPartial(s.sends[j]) {
      NothingTornBefore(s, i, j);
    }
    forall j: nat | j < n ensures !IsPartial(s.sends[j]) {
      NothingTornBefore(s, n, j);
    }
  }

  lemma OneTornPair(s: System, i: nat)
    requires Invariant(s) && IsTornPair(s, i)
    ensures StopConfuses(s) <==> s.sends[i].taken + s.sends[i + 1].taken >= 32
  {
    if StopConfuses(s) {
      var n, m :| 0 <= n && m == n + 1 < |s.sends| && IsPartial(s.sends[n])
                  && s.sends[n].taken + s.sends[m].taken >= 32 && (s.sends[n].byStop || s.sends[m].byStop);
      assert !(s.sends[n].byStop && s.sends[m].byStop);
      TornPairUnique(s, i, n);
    } else {
      var m := i + 1;
      assert s.sends[i].taken + s.sends[m].taken < 32;
    }
  }

  lemma SameComposite(a: Bytes, b: Bytes, x: Bytes, y: Bytes, k: nat)
    requires |a| == 32 && |b| == 32 && k <= 32 && a == x && b == y && Composite(a, b, k) != b
    ensures Composite(x, y, k) != y
  {
  }

  lemma PairDiffers(s: System, i: nat)
    requires Invariant(s) && IsTornPair(s, i)
    ensures Composite(Pieces(s.sends)[i].bytes, Pieces(s.sends)[i + 1].bytes, s.sends[i].taken)
            != Pieces(s.sends)[i + 1].bytes
  {
    var x, y := s.sends[i], s.sends[i + 1];
    CompositeIsNotTheSecond(x.frame, y.frame, x.taken);
    PieceAt(s.sends, i);
    PieceAt(s.sends, i + 1);
    SameComposite(EncodeControl(x.frame), EncodeControl(y.frame),
                  Pieces(s.sends)[i].bytes, Pieces(s.sends)[i + 1].bytes, x.taken);
  }

  lemma TornPairPlace(s: System, i: nat, p: seq<Piece>)
    requires Invariant(s) && IsTornPair(s, i)
    requires |p| == |s.sends| && forall k :: 0 <= k < |p| ==> p[k].taken == s.sends[k].taken
    ensures NonePartial(p[..i])
    ensures p[i + 1].taken < 32 ==> i + 2 == |p|
  {
    forall j: nat | j < i ensures !Partial(p[j]) {
      NothingTornBefore(s, i, j);
    }
    if i + 2 < |p| {
      WholeBeforeMore(s, i, i + 2);
    }
  }

  lemma NotTornNotConfused(s: System)
    requires !StopTears(s)
    ensures !StopConfuses(s)
  {
    forall i, j | 0 <= i && j == i + 1 < |s.sends| && IsPartial(s.sends[i]) && (s.sends[i].byStop || s.sends[j].byStop)
      ensures s.sends[i].taken + s.sends[j].taken < 32
    {
      assert s.sends[j].taken == 0;
    }
  }

  /**
   The frames the peer reads are exactly the frames sent whole, whatever the segmentation, if
   and only if Stop's frame and a torn neighbour do not amount to 32 bytes. Every frame starts
   on a frame boundary if and only if Stop's frame does not meet a tear at all.
   */
  lemma PeerReadsWhatWasSent(trace: seq<System>, i: nat)
    requires IsRun(trace) && i < |trace|
    ensures Fits32(trace[i].sends)
    ensures Read(trace[i].sends) == SentWhole(trace[i].sends) <==> !StopConfuses(trace[i])
    ensures AllAligned(Pieces(trace[i].sends)) <==> !StopTears(trace[i])
  {
    RunInvariant(trace, i);
    PiecesOf(trace[i]);
    ReadsOfPieces(trace[i], Pieces(trace[i].sends));
    PiecesAligned(trace[i], Pieces(trace[i].sends));
  }

  /** The packets of the sends; no torn pair hides its second packet. */
  ghost predicate ArePieces(s: System, p: seq<Piece>) {
    && |p| == |s.sends| && AllSane(p)
    && (forall i :: 0 <= i < |p| ==> p[i].taken == s.sends[i].taken)
    && forall i: nat :: IsTornPair(s, i) ==> Composite(p[i].bytes, p[i + 1].bytes, p[i].taken) != p[i + 1].bytes
  }

  lemma ReadsOfPieces(s: System, p: seq<Piece>)
    requires Invariant(s) && ArePieces(s, p)
    ensures Chunks(OnWire(p)) == Whole(p) <==> !StopConfuses(s)
  {
    if StopTears(s) {
      var i := SomeTornPair(s);
      OneTornPair(s, i);
      TornPairPlace(s, i, p);
      TornPairMisread(p, i);
    } else {
      TornOnlyByStop(s);
      TornPieces(s.sends, p);
      WholeRecovered(p);
      NotTornNotConfused(s);
    }
  }

  lemma PiecesOf(s: System)
    requires Invariant(s)
    ensures ArePieces(s, Pieces(s.sends))
  {
    forall i: nat | IsTornPair(s, i)
      ensures Composite(Pieces(s.sends)[i].bytes, Pieces(s.sends)[i + 1].bytes, Pieces(s.sends)[i].taken)
              != Pieces(s.sends)[i + 1].bytes
    {
      PairDiffers(s, i);
    }
  }

  lemma PiecesAligned(s: System, p: seq<Piece>)
    requires Invariant(s)
    requires ArePieces(s, p)
    ensures AllAligned(p) <==> !StopTears(s)
  {
    TornOnlyByStop(s);
    TornPieces(s.sends, p);
    AlignedIffNotTorn(p);
  }

  /**
   It happens: for every frame and every tear there is a run in which Stop read `connected_`
   before the loop's failed send was signalled, and the peer reads one composite frame.
   */
  lemma StopBehindATornFrame(f: ControlFrame, stop: ControlFrame, k: nat) returns (trace: seq<System>)
    requires 0 < k < 32 && FromLoop(f) && FromStop(stop)
    ensures IsRun(trace) && StopConfuses(Last(trace))
    ensures Last(trace).sends == [Send(f, k, false), Send(stop, 32, true)]
    ensures Read(Last(trace).sends) == [Composite(EncodeControl(f), EncodeControl(stop), k)]
  {
    trace := [INITIAL];
    trace := Extend(trace, StopCheck);
    trace := Extend(trace, LoopSend(f, k));
    var s := Last(trace);
    assert s == INITIAL.(stopper := Waiting, loop := SendFailed, sends := [Send(f, k, false)]);
    trace := Extend(trace, StopSend(stop, 32));
    var sends := [Send(f, k, false), Send(stop, 32, true)];
    assert Last(trace).sends == sends;
    assert IsPartial(sends[0]) && sends[1].byStop && sends[0].taken + sends[1].taken >= 32;
    TwoSends(f, stop, k);
  }

  lemma TwoSends(f: ControlFrame, stop: ControlFrame, k: nat)
    requires 0 < k < 32
    ensures Read([Send(f, k, false), Send(stop, 32, true)]) == [Composite(EncodeControl(f), EncodeControl(stop), k)]
  {
    var sends := [Send(f, k, false), Send(stop, 32, true)];
    var x, y := PieceOf(sends[0]), PieceOf(sends[1]);
    PiecesOfTwo(sends);
    CompositeIsRead(x, y);
  }

  lemma PiecesOfTwo(sends: seq<Send>)
    requires |sends| == 2
    ensures Pieces(sends) == [PieceOf(sends[0]), PieceOf(sends[1])]
  {
  }

  // ------------------------------------------------------------------ what Stop sends

  /** `connected_` never rises again; a Stop that saw it false sends nothing. */
  predicate SilentStop(s: System) {
    && !s.connected && s.stopper in {NotCalled, Passed}
    && forall i :: 0 <= i < |s.sends| ==> !s.sends[i].byStop
  }

  lemma {:induction false} StaysSilent(trace: seq<System>, i: nat, j: nat)
    requires IsRun(trace) && i <= j < |trace| && SilentStop(trace[i])
    ensures SilentStop(trace[j])
  {
    if i < j {
      StaysSilent(trace, i, j - 1);
      assert Moves(trace, j - 1);
      var e :| Enabled(trace[j - 1], e) && trace[j] == Apply(trace[j - 1], e);
    }
  }

  /** Stop sends its frame if and only if the transport was still connected when it looked. */
  lemma StopSendsIffConnected(trace: seq<System>, session: U32)
    requires IsRun(trace) && Last(trace).stopper == NotCalled
    ensures Last(trace).connected ==>
              var s, frame := Last(trace), MakeControlFrame(STOP, session, 0, Rumble(0, 0), 0);
              && Enabled(s, StopCheck) && Enabled(Apply(s, StopCheck), StopSend(frame, 32))
              && Apply(Apply(s, StopCheck), StopSend(frame, 32)).sends == s.sends + [Send(frame, 32, true)]
    ensures !Last(trace).connected ==>
              forall longer, i :: IsRun(longer) && trace <= longer && 0 <= i < |Last(longer).sends|
                                  ==> !Last(longer).sends[i].byStop
  {
    RunInvariant(trace, |trace| - 1);
    if !Last(trace).connected {
      forall longer, i | IsRun(longer) && trace <= longer && 0 <= i < |Last(longer).sends|
        ensures !Last(longer).sends[i].byStop
      {
        StaysSilent(longer, |trace| - 1, |longer| - 1);
      }
    }
  }

  /** The frame goes out, whole or in part; the loop goes on behind a whole one and disconnects behind another. */
  predicate GoesOut(s: System, frame: ControlFrame, taken: nat) {
    && taken <= 32 && Enabled(s, LoopSend(frame, taken))
    && var t := Apply(s, LoopSend(frame, taken));
       && t.sends == s.sends + [Send(frame, taken, false)] && t.connected == s.connected
       && (taken == 32 ==> t.loop == Sending)
       && (taken < 32 ==>
             Enabled(t, LoopSignal) && Apply(t, LoopSignal).loop == Ended && !Apply(t, LoopSignal).connected)
  }

  /** A control loop that goes on puts its heartbeats or its rumble on the wire, under its session. */
  lemma LoopSends(trace: seq<System>, session: U32, n: U64, r: Rumble, taken: nat)
    requires IsRun(trace) && Last(trace).loop == Sending && taken <= 32
    ensures GoesOut(Last(trace), MakeControlFrame(HEARTBEAT, session, n, Rumble(0, 0), 0), taken)
    ensures GoesOut(Last(trace), MakeControlFrame(RUMBLE, session, n, r, 0), taken)
  {
  }

  /** The number of frames the control loop has sent. */
  function LoopSent(sends: seq<Send>): nat {
    if sends == [] then 0 else LoopSent(Front(sends)) + if Last(sends).byStop then 0 else 1
  }

  /** A loop that ended, whether by itself, by a received stop or by a failure, sends nothing more. */
  lemma {:induction false} EndedLoopIsSilent(trace: seq<System>, i: nat, j: nat)
    requires IsRun(trace) && i <= j < |trace| && trace[i].loop == Ended
    ensures trace[j].loop == Ended && LoopSent(trace[j].sends) == LoopSent(trace[i].sends)
  {
    if i < j {
      EndedLoopIsSilent(trace, i, j - 1);
      assert Moves(trace, j - 1);
      var s := trace[j - 1];
      var e :| Enabled(s, e) && trace[j] == Apply(s, e);
      if e.StopSend? {
        assert Front(trace[j].sends) == s.sends;
      }
    }
  }

  /** A loop may end, and the connection may be lost, at any time. */
  lemma LoopEnds(trace: seq<System>)
    requires IsRun(trace) && Last(trace).loop == Sending
    ensures var s := Last(trace);
            && Enabled(s, LoopEnd) && Apply(s, LoopEnd) == s.(loop := Ended)
            && Enabled(s, Disconnect) && Apply(s, Disconnect) == s.(connected := false)
  {
  }
}
