/**
 Client, network and server together. The network loses, duplicates and reorders: a packet
 once on it may be received any number of times, or never. It also carries packets of
 earlier sessions and of other programs, none of which bears this session's id.
 */
module EndToEnd {
  import opened ControllerOutput
  import opened DeadlineWait
  import opened InputReceiver
  import opened Protocol
  import opened Seqs
  import opened Wire
  import C = LanClient
  import O = ClientOutcomes
  import S = LanServer

  /** `highest` is `highest_received_sequence_` of the server's transport. */
  datatype System = System(client: C.System, foreign: set<Bytes>, highest: U64, server: S.System)

  datatype Event =
    | ClientStep(clientEvent: C.Event)
    | Foreign(packet: Bytes)
    | Receive(received: Bytes, submitted: bool)
    | ServerStep(serverEvent: S.Event)

  function Session(s: System): U32 {
    s.client.agreed
  }

  /** The packet is or was on the network. */
  predicate OnNetwork(s: System, packet: Bytes) {
    packet in s.foreign || exists d :: d in s.client.log && packet == EncodeInput(d.session, d.frame)
  }

  predicate Enabled(s: System, e: Event) {
    match e
    case ClientStep(ce) => C.Enabled(s.client, ce)
    case Foreign(packet) => !AcceptsInput(Session(s), packet)
    // a datagram that does not fit the buffer ends the loop instead: the server is disconnected
    case Receive(packet, _) => S.TransportRunning(s.server) && OnNetwork(s, packet) && |packet| <= BUFFER_SIZE
    case ServerStep(se) => !se.Frame? && S.Enabled(s.server, se)
  }

  function Apply(s: System, e: Event): System
    requires Enabled(s, e)
  {
    match e
    case ClientStep(ce) => s.(client := C.Apply(s.client, ce))
    case Foreign(packet) => s.(foreign := s.foreign + {packet})
    case Receive(packet, submitted) =>
      if !PassesFilter(Session(s), s.highest, packet) then s
      else
        var f := DecodeInput(packet);
        s.(highest := f.sequence, server := S.Apply(s.server, S.Frame(f, submitted)))
    case ServerStep(se) => s.(server := S.Apply(s.server, se))
  }

  ghost predicate IsInitial(s: System, timeout: nat, latency: nat) {
    && s.client == C.Initial(s.client.agreed) && s.client.agreed != 0
    && s.foreign == {} && s.highest == 0
    && s.server == S.Initial(timeout, latency, s.server.now)
  }

  ghost predicate Next(s: System, t: System) {
    exists e :: Enabled(s, e) && t == Apply(s, e)
  }

  ghost predicate Moves(trace: seq<System>, i: nat)
    requires i + 1 < |trace|
  {
    Next(trace[i], trace[i + 1])
  }

  ghost predicate IsRun(trace: seq<System>, timeout: nat, latency: nat) {
    && trace != []
    && IsInitial(trace[0], timeout, latency)
    && forall i: nat {:trigger Moves(trace, i)} :: i + 1 < |trace| ==> Moves(trace, i)
  }

  // --------------------------------------------------------------- invariants

  /** The client sent this frame in this session. */
  predicate Sent(log: seq<C.Datagram>, session: U32, f: StateFrame) {
    C.Datagram(session, f) in log
  }

  ghost predicate Linked(s: System) {
    && Session(s) != 0
    && (forall p :: p in s.foreign ==> !AcceptsInput(Session(s), p))
    && (forall i :: 0 <= i < |s.server.history.accepted| ==>
          Sent(s.client.log, Session(s), s.server.history.accepted[i].frame))
    && s.server.server.out.latestSequence <= s.highest <= s.client.client.latestSequence
  }

  ghost predicate Invariant(s: System, timeout: nat, latency: nat) {
    C.Invariant(s.client) && S.Invariant(s.server, timeout, latency) && Linked(s)
  }

  /** Only the client's own packets of this session pass the filter, and they decode to what was sent. */
  lemma FilterIsSound(s: System, packet: Bytes)
    requires Linked(s) && OnNetwork(s, packet) && AcceptsInput(Session(s), packet)
    ensures Sent(s.client.log, Session(s), DecodeInput(packet))
  {
    var d :| d in s.client.log && packet == EncodeInput(d.session, d.frame);
    InputRoundTrip(d.session, Session(s), d.frame);
  }

  lemma LinkedClient(s: System, ce: C.Event)
    requires Linked(s) && Enabled(s, ClientStep(ce)) && C.Effect(s.client, C.Apply(s.client, ce))
    ensures Linked(Apply(s, ClientStep(ce)))
  {
  }

  lemma LinkedAccept(s: System, f: StateFrame, t: S.System)
    requires Linked(s) && Sent(s.client.log, Session(s), f) && s.highest < f.sequence <= s.client.client.latestSequence
    requires t.history.accepted == s.server.history.accepted
             || t.history.accepted == s.server.history.accepted + [Arrival(f, s.server.now)]
    requires t.server.out.latestSequence == s.server.server.out.latestSequence
             || t.server.out.latestSequence == f.sequence
    ensures Linked(s.(highest := f.sequence, server := t))
  {
  }

  lemma LinkedReceive(s: System, packet: Bytes, submitted: bool)
    requires Linked(s) && C.LogInvariant(s.client)
    requires Enabled(s, Receive(packet, submitted)) && PassesFilter(Session(s), s.highest, packet)
    ensures Linked(Apply(s, Receive(packet, submitted)))
  {
    FilterIsSound(s, packet);
    var f := DecodeInput(packet);
    S.FrameOutcome(s.server, f, submitted);
    LinkedAccept(s, f, S.Apply(s.server, S.Frame(f, submitted)));
  }

  lemma LinkedServer(s: System, se: S.Event)
    requires Linked(s) && Enabled(s, ServerStep(se))
    ensures Linked(Apply(s, ServerStep(se)))
  {
    S.OtherOutcome(s.server, se);
  }

  lemma ReceiveKeepsInvariant(s: System, packet: Bytes, submitted: bool, timeout: nat, latency: nat)
    requires Invariant(s, timeout, latency) && Enabled(s, Receive(packet, submitted))
    ensures Invariant(Apply(s, Receive(packet, submitted)), timeout, latency)
  {
    if PassesFilter(Session(s), s.highest, packet) {
      S.StepKeepsInvariant(s.server, S.Frame(DecodeInput(packet), submitted), timeout, latency);
      LinkedReceive(s, packet, submitted);
    }
  }

  lemma StepKeepsInvariant(s: System, e: Event, timeout: nat, latency: nat)
    requires Invariant(s, timeout, latency) && Enabled(s, e)
    ensures Invariant(Apply(s, e), timeout, latency)
  {
    if e.ClientStep? {
      C.StepKeepsInvariant(s.client, e.clientEvent);
      LinkedClient(s, e.clientEvent);
    } else if e.ServerStep? {
      S.StepKeepsInvariant(s.server, e.serverEvent, timeout, latency);
      LinkedServer(s, e.serverEvent);
    } else if e.Receive? {
      ReceiveKeepsInvariant(s, e.received, e.submitted, timeout, latency);
    }
  }

  lemma MoveKeepsInvariant(trace: seq<System>, i: nat, timeout: nat, latency: nat)
    requires IsRun(trace, timeout, latency) && i + 1 < |trace| && Invariant(trace[i], timeout, latency)
    ensures Invariant(trace[i + 1], timeout, latency)
  {
    assert Moves(trace, i);
    var e :| Enabled(trace[i], e) && trace[i + 1] == Apply(trace[i], e);
    StepKeepsInvariant(trace[i], e, timeout, latency);
  }

  lemma FirstInvariant(trace: seq<System>, timeout: nat, latency: nat)
    requires IsRun(trace, timeout, latency)
    ensures Invariant(trace[0], timeout, latency)
  {
    NothingAccounted(trace[0].server.now);
  }

  lemma {:induction false} RunInvariant(trace: seq<System>, i: nat, timeout: nat, latency: nat)
    requires IsRun(trace, timeout, latency) && i < |trace|
    ensures Invariant(trace[i], timeout, latency)
  {
    FirstInvariant(trace, timeout, latency);
    var j := 0;
    while j < i
      invariant j <= i && Invariant(trace[j], timeout, latency)
    {
      MoveKeepsInvariant(trace, j, timeout, latency);
      j := j + 1;
    }
  }

  // ------------------------------------------------------------------ theorems

  function AcceptedFrames(s: System): seq<StateFrame> {
    var a := s.server.history.accepted;
    seq(|a|, i requires 0 <= i < |a| => a[i].frame)
  }

  function SentFrames(s: System): seq<StateFrame> {
    var log := s.client.log;
    seq(|log|, i requires 0 <= i < |log| => log[i].frame)
  }

  /** Ascending members of an ascending sequence form a subsequence of it. */
  lemma {:induction false} AscendingMembers(part: seq<StateFrame>, whole: seq<StateFrame>)
    requires Ascending(part) && Ascending(whole) && forall f :: f in part ==> f in whole
    ensures Subsequence(part, whole)
    decreases |whole|
  {
    if part != [] {
      var p := Last(part);
      assert p in part;
      assert whole != [];
      var n, rest := |whole| - 1, Front(whole);
      if p == Last(whole) {
        forall f | f in Front(part) ensures f in rest {
          assert f in part && f.sequence < p.sequence;
          var k :| 0 <= k < |whole| && whole[k] == f;
          assert k < n && rest[k] == f;
        }
        AscendingMembers(Front(part), rest);
      } else {
        forall f | f in part ensures f in rest {
          var k :| 0 <= k < |whole| && whole[k] == f;
          var m :| 0 <= m < |whole| && whole[m] == p;
          assert m < n && f.sequence <= p.sequence < whole[n].sequence;
          assert rest[k] == f;
        }
        AscendingMembers(part, rest);
      }
    }
  }

  /**
   End-to-end refinement: whatever the network does, the frames the server accepts are a
   subsequence of the frames the client sent, each bit for bit, in strictly ascending
   sequence order; the virtual pad shows neutral or the last of them.
   */
  lemma ServerShowsASubsequence(trace: seq<System>, i: nat, timeout: nat, latency: nat)
    requires IsRun(trace, timeout, latency) && i < |trace|
    ensures var s := trace[i];
            && Subsequence(AcceptedFrames(s), SentFrames(s))
            && Ascending(AcceptedFrames(s))
            && var shown := Shown(s.server.server.out);
            && (shown == NEUTRAL || (AcceptedFrames(s) != [] && shown == Last(AcceptedFrames(s)).state))
  {
    RunInvariant(trace, i, timeout, latency);
    var s := trace[i];
    forall f | f in AcceptedFrames(s) ensures f in SentFrames(s) {
      var k :| 0 <= k < |AcceptedFrames(s)| && AcceptedFrames(s)[k] == f;
      assert Sent(s.client.log, Session(s), s.server.history.accepted[k].frame);
      var m :| 0 <= m < |s.client.log| && s.client.log[m] == C.Datagram(Session(s), f);
      assert SentFrames(s)[m] == f;
    }
    AscendingMembers(AcceptedFrames(s), SentFrames(s));
  }

  lemma AcceptedOnlyGrows(trace: seq<System>, i: nat, timeout: nat, latency: nat)
    requires IsRun(trace, timeout, latency) && i + 1 < |trace|
    ensures trace[i].server.history.accepted <= trace[i + 1].server.history.accepted
  {
    assert Moves(trace, i);
    var s := trace[i];
    var e :| Enabled(s, e) && trace[i + 1] == Apply(s, e);
    if e.Receive? && PassesFilter(Session(s), s.highest, e.received) {
      S.FrameOutcome(s.server, DecodeInput(e.received), e.submitted);
    } else if e.ServerStep? {
      S.OtherOutcome(s.server, e.serverEvent);
    }
  }

  lemma {:induction false} AcceptedIsPrefix(trace: seq<System>, i: nat, j: nat, timeout: nat, latency: nat)
    requires IsRun(trace, timeout, latency) && i <= j < |trace|
    ensures trace[i].server.history.accepted <= trace[j].server.history.accepted
  {
    if i < j {
      AcceptedIsPrefix(trace, i, j - 1, timeout, latency);
      AcceptedOnlyGrows(trace, j - 1, timeout, latency);
    }
  }

  /**
   A superseded frame never becomes the output again: any later report that is not neutral
   stems from a frame with a greater sequence number.
   */
  lemma SupersededNeverReturns(trace: seq<System>, i: nat, j: nat, k: nat, timeout: nat, latency: nat)
    requires IsRun(trace, timeout, latency) && i <= j < |trace|
    requires k + 1 < |trace[i].server.history.accepted|
    ensures var before, now := trace[i].server.history.accepted[k].frame, trace[j].server;
            Shown(now.server.out) != NEUTRAL ==>
              && now.history.accepted != []
              && Shown(now.server.out) == Last(now.history.accepted).frame.state
              && Last(now.history.accepted).frame.sequence > before.sequence
  {
    AcceptedIsPrefix(trace, i, j, timeout, latency);
    RunInvariant(trace, j, timeout, latency);
    var a := trace[j].server.history.accepted;
    assert a[k] == trace[i].server.history.accepted[k] && k < |a| - 1;
  }

  /** The server part of every run keeps its timed release: silence of the network is released. */
  lemma SilenceIsReleased(trace: seq<System>, i: nat, timeout: nat, latency: nat)
    requires IsRun(trace, timeout, latency) && i < |trace|
    ensures var s := trace[i].server;
            Shown(s.server.out) != NEUTRAL ==>
              && s.history.accepted != []
              && s.now <= Last(s.history.accepted).at + Max(timeout, latency) + latency
  {
    RunInvariant(trace, i, timeout, latency);
  }

  /**
   And nothing new is held back: while the session runs, a packet that passes the filter is
   accepted and shown at once.
   */
  lemma FreshPacketIsShown(trace: seq<System>, i: nat, packet: Bytes, timeout: nat, latency: nat)
    requires IsRun(trace, timeout, latency) && i < |trace|
    requires Enabled(trace[i], Receive(packet, true)) && trace[i].server.server.state == Running
    requires PassesFilter(Session(trace[i]), trace[i].highest, packet)
    ensures var s, t := trace[i].server, Apply(trace[i], Receive(packet, true)).server;
            && t.history.accepted == s.history.accepted + [Arrival(DecodeInput(packet), s.now)]
            && Shown(t.server.out) == DecodeInput(packet).state
  {
    RunInvariant(trace, i, timeout, latency);
    S.FreshFrameIsTaken(trace[i].server, DecodeInput(packet));
  }

  /** The frame is shown when its packet is received: accepted now, and on the pad bit for bit. */
  predicate ShowsWhenReceived(s: System, f: StateFrame) {
    var e := Receive(EncodeInput(Session(s), f), true);
    && Enabled(s, e)
    && var t := Apply(s, e).server;
       && t.history.accepted == s.server.history.accepted + [Arrival(f, s.server.now)]
       && Shown(t.server.out) == f.state && t.server.out.lastTimestampUs == f.timestampUs
  }

  predicate ServerListens(s: System) {
    S.TransportRunning(s.server) && s.server.server.state == Running && !s.server.server.stopRequested
  }

  lemma LoggedIsShown(s: System, f: StateFrame)
    requires Sent(s.client.log, Session(s), f) && ServerListens(s)
    requires s.server.server.out.latestSequence <= s.highest < f.sequence
    ensures ShowsWhenReceived(s, f)
  {
    PacketPasses(Session(s), s.highest, f);
    ReceiveShows(s, f, EncodeInput(Session(s), f));
  }

  lemma PacketPasses(session: U32, highest: U64, f: StateFrame)
    requires f.sequence > highest
    ensures PassesFilter(session, highest, EncodeInput(session, f)) && DecodeInput(EncodeInput(session, f)) == f
  {
    InputRoundTrip(session, session, f);
  }

  lemma ReceiveShows(s: System, f: StateFrame, packet: Bytes)
    requires ServerListens(s) && OnNetwork(s, packet) && |packet| == 64
    requires PassesFilter(Session(s), s.highest, packet) && DecodeInput(packet) == f
    requires s.server.server.out.latestSequence < f.sequence
    ensures Enabled(s, Receive(packet, true))
    ensures var t := Apply(s, Receive(packet, true)).server;
            && t.history.accepted == s.server.history.accepted + [Arrival(f, s.server.now)]
            && Shown(t.server.out) == f.state && t.server.out.lastTimestampUs == f.timestampUs
  {
    S.FreshFrameIsTaken(s.server, f);
  }

  /** Whatever left the client under its session is shown if it is received before anything newer. */
  lemma SentFrameIsShown(trace: seq<System>, i: nat, f: StateFrame, timeout: nat, latency: nat)
    requires IsRun(trace, timeout, latency) && i < |trace| && ServerListens(trace[i])
    requires Sent(trace[i].client.log, Session(trace[i]), f) && trace[i].highest < f.sequence
    ensures ShowsWhenReceived(trace[i], f)
  {
    RunInvariant(trace, i, timeout, latency);
    LoggedIsShown(trace[i], f);
  }

  /** The system when the client has taken, numbered and sent a sample. */
  function Sampled(s: System, g: GamepadState, timestampUs: U64): System
    requires O.Possible(s.client, O.SamplePath(g, timestampUs, C.OnWire))
  {
    s.(client := O.After(s.client, O.SamplePath(g, timestampUs, C.OnWire)))
  }

  /**
   From the pad of the client to the pad of the server: whatever state a connected client
   samples, the server's pad shows that state bit for bit when the datagram is received. That
   the datagram is newer than all received so far is no assumption.
   */
  lemma SampleIsShown(trace: seq<System>, i: nat, g: GamepadState, timestampUs: U64, timeout: nat, latency: nat)
    requires IsRun(trace, timeout, latency) && i < |trace|
    requires O.CanSample(trace[i].client) && ServerListens(trace[i])
    ensures O.Possible(trace[i].client, O.SamplePath(g, timestampUs, C.OnWire))
    ensures var f := StateFrame(g, trace[i].client.client.latestSequence + 1, timestampUs);
            ShowsWhenReceived(Sampled(trace[i], g, timestampUs), f)
  {
    RunInvariant(trace, i, timeout, latency);
    O.SampleLeaves(trace[i].client, g, timestampUs);
    var f := StateFrame(g, trace[i].client.client.latestSequence + 1, timestampUs);
    LoggedIsShown(Sampled(trace[i], g, timestampUs), f);
  }

  // ------------------------------------------------------------------ a whole session

  lemma Extend(trace: seq<System>, e: Event, timeout: nat, latency: nat) returns (longer: seq<System>)
    requires IsRun(trace, timeout, latency) && Enabled(Last(trace), e)
    ensures IsRun(longer, timeout, latency) && trace <= longer && Last(longer) == Apply(Last(trace), e)
  {
    longer := trace + [Apply(Last(trace), e)];
    forall i: nat | i + 1 < |longer| ensures Moves(longer, i) {
      if i + 1 < |trace| {
        assert Moves(trace, i);
        assert longer[i] == trace[i] && longer[i + 1] == trace[i + 1];
      } else {
        assert Enabled(longer[i], e) && longer[i + 1] == Apply(longer[i], e);
      }
    }
  }

  lemma ClientMoves(before: seq<System>, next: C.System, timeout: nat, latency: nat) returns (trace: seq<System>)
    requires IsRun(before, timeout, latency) && C.Next(Last(before).client, next)
    ensures IsRun(trace, timeout, latency) && Last(trace) == Last(before).(client := next)
  {
    var e :| C.Enabled(Last(before).client, e) && next == C.Apply(Last(before).client, e);
    trace := Extend(before, ClientStep(e), timeout, latency);
  }

  /** The client takes the steps of a run of its own. */
  lemma {:induction false} ClientGoes(before: seq<System>, own: seq<C.System>, n: nat, timeout: nat, latency: nat)
    returns (trace: seq<System>)
    requires IsRun(before, timeout, latency) && C.IsRun(own) && n < |own| && Last(before).client == own[0]
    ensures IsRun(trace, timeout, latency) && Last(trace) == Last(before).(client := own[n])
  {
    trace := before;
    if n > 0 {
      trace := ClientGoes(before, own, n - 1, timeout, latency);
      assert C.Moves(own, n - 1);
      trace := ClientMoves(trace, own[n], timeout, latency);
    }
  }

  /** So does the server, but for the frames it is given, which come from the network. */
  lemma ServerStarts(before: seq<System>, timeout: nat, latency: nat) returns (trace: seq<System>)
    requires IsRun(before, timeout, latency)
    requires Last(before).server == S.Initial(timeout, latency, Last(before).server.now)
    ensures IsRun(trace, timeout, latency) && ServerListens(Last(trace))
    ensures Last(trace) == Last(before).(server := Last(trace).server)
    ensures Last(trace).server.history.accepted == []
  {
    trace := Extend(before, ServerStep(S.Start), timeout, latency);
    trace := Extend(trace, ServerStep(S.TransportUp), timeout, latency);
  }

  /**
   A whole session: client and server start, foreign traffic comes in and changes nothing, the
   client samples, and the server's pad shows the sample.
   */
  lemma FirstSampleArrives(
    agreed: U32, g: GamepadState, timestampUs: U64, noise: Bytes, start: nat, timeout: nat, latency: nat)
    returns (trace: seq<System>)
    requires agreed != 0 && !AcceptsInput(agreed, noise) && |noise| <= BUFFER_SIZE
    ensures IsRun(trace, timeout, latency) && noise in Last(trace).foreign
    ensures Shown(Last(trace).server.server.out) == g && |Last(trace).server.history.accepted| == 1
  {
    trace := [System(C.Initial(agreed), {}, 0, S.Initial(timeout, latency, start))];
    var own := O.Starts(agreed);
    C.LogOnlyGrows(own, 0, |own| - 1);
    trace := ClientGoes(trace, own, |own| - 1, timeout, latency);
    trace := ServerStarts(trace, timeout, latency);
    var s := Last(trace);
    assert O.CanSample(s.client) && Session(s) == agreed;
    trace := Extend(trace, Foreign(noise), timeout, latency);
    trace := Extend(trace, Receive(noise, true), timeout, latency);
    assert Last(trace) == s.(foreign := {noise});
    trace := SampleArrives(trace, g, timestampUs, timeout, latency);
  }

  lemma SampleArrives(before: seq<System>, g: GamepadState, timestampUs: U64, timeout: nat, latency: nat)
    returns (trace: seq<System>)
    requires IsRun(before, timeout, latency) && O.CanSample(Last(before).client) && ServerListens(Last(before))
    ensures IsRun(trace, timeout, latency) && Shown(Last(trace).server.server.out) == g
    ensures Last(trace).foreign == Last(before).foreign
    ensures |Last(trace).server.history.accepted| == |Last(before).server.history.accepted| + 1
  {
    var events, f := SampleSteps(before, g, timestampUs, timeout, latency);
    trace := ClientTakes(before, events, timeout, latency);
    trace := Delivered(trace, f, timeout, latency);
  }

  lemma SampleSteps(before: seq<System>, g: GamepadState, timestampUs: U64, timeout: nat, latency: nat)
    returns (events: seq<C.Event>, f: StateFrame)
    requires IsRun(before, timeout, latency) && O.CanSample(Last(before).client) && ServerListens(Last(before))
    ensures O.Possible(Last(before).client, events) && f.state == g
    ensures ShowsWhenReceived(Last(before).(client := O.After(Last(before).client, events)), f)
  {
    var s := Last(before);
    RunInvariant(before, |before| - 1, timeout, latency);
    O.SampleLeaves(s.client, g, timestampUs);
    events := O.SamplePath(g, timestampUs, C.OnWire);
    f := StateFrame(g, s.client.client.latestSequence + 1, timestampUs);
    LoggedIsShown(s.(client := O.After(s.client, events)), f);
  }

  lemma Delivered(before: seq<System>, f: StateFrame, timeout: nat, latency: nat) returns (trace: seq<System>)
    requires IsRun(before, timeout, latency) && ShowsWhenReceived(Last(before), f)
    ensures IsRun(trace, timeout, latency) && Shown(Last(trace).server.server.out) == f.state
    ensures Last(trace).foreign == Last(before).foreign
    ensures |Last(trace).server.history.accepted| == |Last(before).server.history.accepted| + 1
  {
    trace := Extend(before, Receive(EncodeInput(Session(Last(before)), f), true), timeout, latency);
  }

  lemma {:induction false} ClientTakes(before: seq<System>, events: seq<C.Event>, timeout: nat, latency: nat)
    returns (trace: seq<System>)
    requires IsRun(before, timeout, latency) && O.Possible(Last(before).client, events)
    ensures IsRun(trace, timeout, latency)
    ensures Last(trace) == Last(before).(client := O.After(Last(before).client, events))
    decreases |events|
  {
    trace := before;
    if events != [] {
      trace := Extend(trace, ClientStep(events[0]), timeout, latency);
      trace := ClientTakes(trace, events[1..], timeout, latency);
    }
  }
}
