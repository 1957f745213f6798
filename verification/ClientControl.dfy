/**
 What the client makes of the server's control stream: the commands its control loop hands
 on, and when there is one among them that no frame of the server asked for.
 */
module ClientControl {
  import opened ControlStream
  import opened Framing
  import opened Protocol
  import opened Seqs
  import opened TornFrame
  import opened Wire

  /** The commands that `ClientControlLoop` hands on: it reads until a frame that is no rumble. */
  function Applied(packets: seq<Bytes>, session: U32): seq<Rumble>
    requires forall i :: 0 <= i < |packets| ==> |packets[i]| == 32
  {
    if packets == [] || !ValidControlFrame(DecodeControl(packets[0]), RUMBLE, session) then []
    else [DecodeControl(packets[0]).rumble] + Applied(packets[1..], session)
  }

  /** The control loop over the packets read; `goesOn` if it would read another. */
  method ClientControlLoop(packets: seq<Bytes>, session: U32) returns (applied: seq<Rumble>, goesOn: bool)
    requires forall i :: 0 <= i < |packets| ==> |packets[i]| == 32
    ensures applied == Applied(packets, session)
    ensures goesOn <==> forall i :: 0 <= i < |packets| ==> ValidControlFrame(DecodeControl(packets[i]), RUMBLE, session)
  {
    applied := [];
    var i := 0;
    while i < |packets|
      invariant 0 <= i <= |packets|
      invariant Applied(packets, session) == applied + Applied(packets[i..], session)
      invariant forall j :: 0 <= j < i ==> ValidControlFrame(DecodeControl(packets[j]), RUMBLE, session)
    {
      var frame := DecodeControl(packets[i]);
      if !ValidControlFrame(frame, RUMBLE, session) {
        return applied, false;
      }
      assert packets[i..][1..] == packets[i + 1..];
      applied := applied + [frame.rumble];
      i := i + 1;
    }
    goesOn := true;
  }

  /** The server's frames carry its session id; its control loop sends rumble only. */
  predicate SentByServer(sends: seq<Send>, session: U32) {
    forall i :: 0 <= i < |sends| ==>
      if sends[i].byStop then sends[i].frame == StopFrame(session)
      else ValidControlFrame(sends[i].frame, RUMBLE, session)
  }

  predicate Shape(sends: seq<Send>, session: U32) {
    && Fits32(sends) && SentByServer(sends, session)
    && (forall i, j :: 0 <= i < j < |sends| ==> !(sends[i].byStop && sends[j].byStop))
    && (forall i, j :: 0 <= i < j < |sends| && !sends[i].byStop && sends[i].taken != 32 ==> sends[j].byStop)
  }

  /** The commands of the frames that went out whole before Stop's frame began. */
  function Heard(sends: seq<Send>): seq<Rumble> {
    if sends == [] then []
    else if sends[0].byStop then if sends[0].taken == 0 then Heard(sends[1..]) else []
    else if sends[0].taken == 32 then [sends[0].frame.rumble] + Heard(sends[1..])
    else []
  }

  /** The last rumble frame went out in part, Stop's frame filled it up, and the head survives. */
  predicate Misheard(sends: seq<Send>, session: U32) {
    && |sends| >= 2
    && var f, stop := sends[|sends| - 2], sends[|sends| - 1];
       && !f.byStop && stop.byStop && IsPartial(f) && f.taken + stop.taken >= 32
       && HeadSurvives(session, f.taken, STOP)
  }

  function Invented(sends: seq<Send>, session: U32): seq<Rumble> {
    if Misheard(sends, session)
    then [TornMotors(sends[|sends| - 2].frame.rumble, session, sends[|sends| - 2].taken)]
    else []
  }

  lemma FirstChunk(x: Piece, y: Piece, later: seq<Piece>)
    requires Sane(x) && Sane(y) && AllSane(later) && x.taken < 32 && x.taken + y.taken >= 32
    requires y.taken < 32 ==> later == []
    ensures AllSane([x, y] + later)
    ensures Chunks(OnWire([x, y] + later)) != []
    ensures Chunks(OnWire([x, y] + later))[0] == Composite(x.bytes, y.bytes, x.taken)
    ensures later == [] ==> |Chunks(OnWire([x, y] + later))| == 1
  {
    var all := [x, y] + later;
    assert all[1..] == [y] + later && all[1..][1..] == later;
    assert OnWire(all) == x.bytes[..x.taken] + (y.bytes[..y.taken] + OnWire(later));
    assert OnWire(all)[..32] == Composite(x.bytes, y.bytes, x.taken);
    assert later == [] ==> |OnWire(all)[32..]| < 32;
  }

  lemma ShapeTail(sends: seq<Send>, session: U32)
    requires Shape(sends, session) && sends != []
    ensures Shape(sends[1..], session)
  {
  }

  lemma PiecesTail(sends: seq<Send>)
    requires sends != []
    ensures Pieces(sends) == [Piece(EncodeControl(sends[0].frame), sends[0].taken)] + Pieces(sends[1..])
  {
  }

  lemma ReadTail(sends: seq<Send>)
    requires Fits32(sends) && sends != [] && !IsPartial(sends[0])
    ensures Fits32(sends[1..])
    ensures Read(sends)
            == (if sends[0].taken == 32 then [EncodeControl(sends[0].frame)] else []) + Read(sends[1..])
  {
    PiecesTail(sends);
    var p := Pieces(sends);
    assert OnWire(p) == p[0].bytes[..p[0].taken] + OnWire(p[1..]);
    NextWhole(p[0], OnWire(p[1..]));
  }

  lemma TornPair(sends: seq<Send>)
    requires Fits32(sends) && |sends| >= 2
    requires sends[0].taken < 32 && sends[0].taken + sends[1].taken >= 32
    requires sends[1].taken < 32 ==> |sends| == 2
    ensures Read(sends) != []
    ensures Read(sends)[0] == Composite(EncodeControl(sends[0].frame), EncodeControl(sends[1].frame), sends[0].taken)
    ensures |sends| == 2 ==> |Read(sends)| == 1
  {
    var later := sends[1..][1..];
    PiecesTail(sends);
    PiecesTail(sends[1..]);
    var x, y := Pieces(sends)[0], Pieces(sends)[1];
    assert Pieces(sends) == [x, y] + Pieces(later);
    FirstChunk(x, y, Pieces(later));
  }

  /** A frame that went out whole is applied if it is rumble, and ends the reading if it is Stop's. */
  lemma WholeFrame(sends: seq<Send>, session: U32)
    requires Shape(sends, session) && sends != [] && sends[0].taken == 32
    ensures Fits32(sends[1..])
    ensures Applied(Read(sends), session)
            == if sends[0].byStop then [] else [sends[0].frame.rumble] + Applied(Read(sends[1..]), session)
  {
    var rest := Read(sends[1..]);
    ReadTail(sends);
    DecodeEncodeControl(sends[0].frame);
    AppliedHead(EncodeControl(sends[0].frame), rest, session);
  }

  lemma AppliedHead(p: Bytes, rest: seq<Bytes>, session: U32)
    requires |p| == 32 && forall i :: 0 <= i < |rest| ==> |rest[i]| == 32
    ensures Applied([p] + rest, session)
            == if ValidControlFrame(DecodeControl(p), RUMBLE, session)
               then [DecodeControl(p).rumble] + Applied(rest, session) else []
  {
    assert ([p] + rest)[1..] == rest;
  }

  lemma OneStop(sends: seq<Send>, session: U32, i: nat, j: nat)
    requires Shape(sends, session) && i < j < |sends|
    ensures !(sends[i].byStop && sends[j].byStop)
  {
  }

  /** Where each of the two senders failed, nothing more is sent. */
  lemma NothingBehindAPair(sends: seq<Send>, session: U32)
    requires Shape(sends, session) && |sends| >= 2
    requires if sends[0].byStop then sends[1].taken < 32 else sends[0].taken < 32
    ensures |sends| == 2 && sends[0].byStop != sends[1].byStop
  {
    assert sends[0].byStop ==> !sends[1].byStop;
    if |sends| > 2 {
      OneStop(sends, session, 0, 2);
      OneStop(sends, session, 1, 2);
    }
  }

  /** What follows Stop's torn frame is not applied. */
  lemma BehindTornStop(sends: seq<Send>, session: U32)
    requires Shape(sends, session) && sends != [] && sends[0].byStop && IsPartial(sends[0])
    ensures Applied(Read(sends), session) == []
  {
    if |sends| == 1 {
      Short(sends);
    } else if sends[0].taken + sends[1].taken < 32 {
      NothingBehindAPair(sends, session);
      Short(sends);
    } else {
      if sends[1].taken < 32 {
        NothingBehindAPair(sends, session);
      }
      TornPair(sends);
      TornFrameIsValidIff(sends[0].frame, sends[1].frame, sends[0].taken, RUMBLE, session);
    }
  }

  lemma Short(sends: seq<Send>)
    requires Fits32(sends) && 0 < |sends| <= 2
    requires sends[0].taken + (if |sends| == 2 then sends[1].taken else 0) < 32
    ensures Read(sends) == []
  {
    if |sends| == 2 {
      TakenOf(sends[1..]);
    }
    TakenOf(sends);
  }

  lemma TakenOf(sends: seq<Send>)
    requires Fits32(sends) && sends != []
    ensures |OnWire(Pieces(sends))| == sends[0].taken + |OnWire(Pieces(sends[1..]))|
    ensures |sends| == 1 ==> OnWire(Pieces(sends[1..])) == []
  {
    PiecesTail(sends);
  }

  /** A rumble frame that did not go out whole is the loop's last; Stop's frame may follow it. */
  lemma BehindTornRumble(sends: seq<Send>, session: U32)
    requires Shape(sends, session) && sends != [] && !sends[0].byStop && sends[0].taken < 32
    ensures Applied(Read(sends), session) == Invented(sends, session)
  {
    if |sends| == 1 {
      Short(sends);
    } else {
      NothingBehindAPair(sends, session);
      StopBehindRumble(sends[0], sends[1], session);
      assert sends == [sends[0], sends[1]];
    }
  }

  lemma StopBehindRumble(f: Send, stop: Send, session: U32)
    requires f.taken < 32 && stop.taken <= 32 && !f.byStop && stop.byStop
    requires ValidControlFrame(f.frame, RUMBLE, session) && stop.frame == StopFrame(session)
    ensures Applied(Read([f, stop]), session) == Invented([f, stop], session)
  {
    var sends := [f, stop];
    if f.taken + stop.taken < 32 {
      Short(sends);
    } else {
      TornPair(sends);
      assert Read(sends) == [Read(sends)[0]] + [];
      AppliedHead(Read(sends)[0], [], session);
      PassesIff(f, stop, session);
    }
  }

  lemma PassesIff(f: Send, stop: Send, session: U32)
    requires f.taken < 32 && ValidControlFrame(f.frame, RUMBLE, session) && stop.frame == StopFrame(session)
    ensures ValidControlFrame(Torn32(f.frame, stop.frame, f.taken), RUMBLE, session)
            <==> IsPartial(f) && HeadSurvives(session, f.taken, STOP)
    ensures IsPartial(f) && HeadSurvives(session, f.taken, STOP)
            ==> Torn32(f.frame, stop.frame, f.taken).rumble == TornMotors(f.frame.rumble, session, f.taken)
  {
    if f.taken == 0 {
      OnlyStop(f, stop, session);
    } else {
      TornFrameIsValidIff(f.frame, stop.frame, f.taken, RUMBLE, session);
      if HeadSurvives(session, f.taken, STOP) {
        TornMotorsAreRead(f.frame, f.taken, session);
      }
    }
  }

  lemma OnlyStop(f: Send, stop: Send, session: U32)
    requires f.taken == 0 && stop.frame == StopFrame(session)
    ensures !ValidControlFrame(Torn32(f.frame, stop.frame, 0), RUMBLE, session)
  {
    assert Composite(EncodeControl(f.frame), EncodeControl(stop.frame), 0) == EncodeControl(stop.frame);
    DecodeEncodeControl(stop.frame);
  }

  lemma SameInvention(sends: seq<Send>, session: U32)
    requires |sends| >= 3 || (sends != [] && (sends[0].byStop || sends[0].taken == 32))
    ensures Invented(sends, session) == Invented(sends[1..], session)
  {
    if |sends| >= 3 {
      var rest := sends[1..];
      assert rest[|rest| - 2] == sends[|sends| - 2] && rest[|rest| - 1] == sends[|sends| - 1];
    }
  }

  lemma NothingInvented(sends: seq<Send>, session: U32)
    requires Shape(sends, session) && sends != [] && sends[0].byStop
    ensures Invented(sends, session) == []
  {
    assert |sends| >= 2 ==> !sends[|sends| - 1].byStop;
  }

  lemma AppliedRumble(sends: seq<Send>, session: U32)
    requires Shape(sends, session) && sends != [] && Shape(sends[1..], session)
    requires !sends[0].byStop && sends[0].taken == 32
    requires Applied(Read(sends[1..]), session) == Heard(sends[1..]) + Invented(sends[1..], session)
    ensures Applied(Read(sends), session) == Heard(sends) + Invented(sends, session)
  {
    WholeFrame(sends, session);
    SameInvention(sends, session);
    Associate([sends[0].frame.rumble], Heard(sends[1..]), Invented(sends, session));
  }

  lemma AppliedBehindNoStop(sends: seq<Send>, session: U32)
    requires Shape(sends, session) && sends != [] && Shape(sends[1..], session)
    requires sends[0].byStop && sends[0].taken == 0
    requires Applied(Read(sends[1..]), session) == Heard(sends[1..]) + Invented(sends[1..], session)
    ensures Applied(Read(sends), session) == Heard(sends) + Invented(sends, session)
  {
    NoStop(sends);
    SameInvention(sends, session);
    assert Heard(sends) == Heard(sends[1..]);
  }

  lemma NoStop(sends: seq<Send>)
    requires Fits32(sends) && sends != [] && sends[0].taken == 0
    ensures Fits32(sends[1..]) && Read(sends) == Read(sends[1..])
  {
    ReadTail(sends);
    assert [] + Read(sends[1..]) == Read(sends[1..]);
  }

  lemma NothingBehindStop(sends: seq<Send>, session: U32)
    requires Shape(sends, session) && sends != [] && sends[0].byStop && sends[0].taken > 0
    ensures Applied(Read(sends), session) == Heard(sends) + Invented(sends, session)
  {
    NothingInvented(sends, session);
    if sends[0].taken == 32 {
      WholeFrame(sends, session);
    } else {
      BehindTornStop(sends, session);
    }
  }

  lemma {:induction false} AppliedOf(sends: seq<Send>, session: U32)
    requires Shape(sends, session)
    ensures Applied(Read(sends), session) == Heard(sends) + Invented(sends, session)
  {
    if sends != [] {
      ShapeTail(sends, session);
      if sends[0].byStop && sends[0].taken > 0 {
        NothingBehindStop(sends, session);
      } else if sends[0].byStop {
        AppliedOf(sends[1..], session);
        AppliedBehindNoStop(sends, session);
      } else if sends[0].taken == 32 {
        AppliedOf(sends[1..], session);
        AppliedRumble(sends, session);
      } else {
        BehindTornRumble(sends, session);
      }
    }
  }

  // ------------------------------------------------------------------ theorems

  lemma ShapeOfRun(s: System, session: U32)
    requires Invariant(s) && SentByServer(s.sends, session)
    ensures Shape(s.sends, session)
  {
  }

  lemma AppliedInState(s: System, session: U32)
    requires Invariant(s) && SentByServer(s.sends, session)
    ensures Fits32(s.sends)
    ensures Applied(Read(s.sends), session) == Heard(s.sends) + Invented(s.sends, session)
  {
    ShapeOfRun(s, session);
    AppliedOf(s.sends, session);
  }

  /**
   What the client applies, exactly: the commands of the frames that went out whole before
   Stop's frame began, and one more if Stop's frame fills up a torn one whose head survives.
   */
  lemma ClientApplies(trace: seq<System>, i: nat, session: U32)
    requires IsRun(trace) && i < |trace| && SentByServer(trace[i].sends, session)
    ensures Fits32(trace[i].sends)
    ensures Applied(Read(trace[i].sends), session) == Heard(trace[i].sends) + Invented(trace[i].sends, session)
    ensures Misheard(trace[i].sends, session) ==> StopConfuses(trace[i])
  {
    RunInvariant(trace, i);
    AppliedInState(trace[i], session);
    if Misheard(trace[i].sends, session) {
      MisheardConfuses(trace[i], session);
    }
  }

  lemma MisheardConfuses(s: System, session: U32)
    requires Misheard(s.sends, session)
    ensures StopConfuses(s)
  {
    var i, j := |s.sends| - 2, |s.sends| - 1;
    assert j == i + 1 && IsPartial(s.sends[i]) && s.sends[j].byStop;
  }

  /** Some rumble frame of the control loop asks for the command. */
  predicate Issued(sends: seq<Send>, r: Rumble) {
    exists i :: 0 <= i < |sends| && !sends[i].byStop && sends[i].frame.rumble == r
  }

  lemma {:induction false} HeardWasIssued(sends: seq<Send>, r: Rumble)
    requires r in Heard(sends)
    ensures Issued(sends, r)
  {
    if sends[0].byStop || r != sends[0].frame.rumble {
      HeardWasIssued(sends[1..], r);
      var i :| 0 <= i < |sends[1..]| && !sends[1..][i].byStop && sends[1..][i].frame.rumble == r;
      var j := i + 1;
      assert !sends[j].byStop && sends[j].frame.rumble == r;
    }
  }

  /** Stop's frame fills up a rumble frame torn before its last motor byte, and the motors change. */
  predicate InventsACommand(sends: seq<Send>, session: U32) {
    && Misheard(sends, session)
    && sends[|sends| - 2].taken < 28
    && !Issued(sends, TornMotors(sends[|sends| - 2].frame.rumble, session, sends[|sends| - 2].taken))
  }

  lemma OnlyTheInventedIsUnissued(sends: seq<Send>, session: U32, applied: seq<Rumble>)
    requires applied == Heard(sends) + Invented(sends, session)
    ensures (exists r :: r in applied && !Issued(sends, r)) <==> InventsACommand(sends, session)
  {
    forall r | r in Heard(sends) ensures Issued(sends, r) {
      HeardWasIssued(sends, r);
    }
    if Misheard(sends, session) {
      var n := |sends| - 2;
      var r := TornMotors(sends[n].frame.rumble, session, sends[n].taken);
      assert r in applied;
      assert sends[n].taken >= 28 ==> r == sends[n].frame.rumble;
    }
  }

  /** Exactly when the client applies motors that no frame of the server asked for. */
  lemma UnissuedCommandIff(trace: seq<System>, i: nat, session: U32)
    requires IsRun(trace) && i < |trace| && SentByServer(trace[i].sends, session)
    ensures Fits32(trace[i].sends)
    ensures (exists r :: r in Applied(Read(trace[i].sends), session) && !Issued(trace[i].sends, r))
            <==> InventsACommand(trace[i].sends, session)
  {
    ClientApplies(trace, i, session);
    OnlyTheInventedIsUnissued(trace[i].sends, session, Applied(Read(trace[i].sends), session));
  }

  /**
   It happens at every tear that keeps the head: Stop read `connected_` before the failed send
   was signalled, and the only command the client applies is made of the bytes of Stop's frame.
   */
  lemma TornRumbleInventsACommand(f: ControlFrame, session: U32, k: nat) returns (trace: seq<System>)
    requires 0 < k < 32 && ValidControlFrame(f, RUMBLE, session) && HeadSurvives(session, k, STOP)
    ensures IsRun(trace) && Last(trace).sends == [Send(f, k, false), Send(StopFrame(session), 32, true)]
    ensures Applied(Read(Last(trace).sends), session) == [TornMotors(f.rumble, session, k)]
  {
    trace := StopBehindATornFrame(f, StopFrame(session), k);
    StopBehindRumble(Send(f, k, false), Send(StopFrame(session), 32, true), session);
  }
}
