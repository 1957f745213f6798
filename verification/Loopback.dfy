/**
 The bounded, coalescing frame queue of the loopback transport: a frame overwrites the
 newest pending one only if their button masks are equal.
 */
module Loopback {
  import opened Options
  import opened Protocol
  import opened Seqs

  const MAXIMUM_QUEUED_FRAMES := 64

  /** The queue after `SendState`, or None if it refuses the frame. */
  function Push(pending: seq<StateFrame>, f: StateFrame): Option<seq<StateFrame>> {
    if pending != [] && Last(pending).state.buttonFlags == f.state.buttonFlags then Some(Front(pending) + [f])
    else if |pending| >= MAXIMUM_QUEUED_FRAMES then None
    else Some(pending + [f])
  }

  function Masks(frames: seq<StateFrame>): (m: seq<U32>)
    ensures |m| == |frames|
  {
    seq(|frames|, i requires 0 <= i < |frames| => frames[i].state.buttonFlags)
  }

  predicate AdjacentDistinct(m: seq<U32>) {
    forall i, j :: 0 <= i && j == i + 1 < |m| ==> m[i] != m[j]
  }

  /**
   The promise of the queue: what was and will be delivered is part of what was sent, ends
   in the newest frame, and shows every change of the button mask that was sent.
   */
  ghost predicate Coalesced(line: seq<StateFrame>, sent: seq<StateFrame>) {
    && Subsequence(line, sent)
    && (sent != [] ==> line != [] && Last(line) == Last(sent))
    && Squeeze(Masks(line)) == Squeeze(Masks(sent))
  }

  lemma MasksAppend(a: seq<StateFrame>, f: StateFrame)
    ensures Masks(a + [f]) == Masks(a) + [f.state.buttonFlags]
    ensures a != [] ==> Last(Masks(a)) == Last(a).state.buttonFlags
  {
  }

  lemma EmptyCoalesced(line: seq<StateFrame>, sent: seq<StateFrame>)
    requires line == [] && sent == []
    ensures Coalesced(line, sent)
  {
  }

  lemma AppendCoalesced(line: seq<StateFrame>, sent: seq<StateFrame>, f: StateFrame)
    requires Coalesced(line, sent)
    ensures Coalesced(line + [f], sent + [f])
  {
    SubsequenceTake(line, sent, f);
    var mask := f.state.buttonFlags;
    MasksAppend(line, f);
    MasksAppend(sent, f);
    SqueezeAppend(Masks(line), mask);
    SqueezeAppend(Masks(sent), mask);
    assert line == [] ==> Masks(line) == [] == Squeeze(Masks(sent));
  }

  lemma OverwriteCoalesced(line: seq<StateFrame>, sent: seq<StateFrame>, f: StateFrame)
    requires Coalesced(line, sent) && line != [] && Last(line).state.buttonFlags == f.state.buttonFlags
    ensures Coalesced(Front(line) + [f], sent + [f])
  {
    SubsequenceDropLast(line, sent);
    SubsequenceTake(Front(line), sent, f);
    var mask := f.state.buttonFlags;
    assert Masks(Front(line) + [f]) == Masks(line);
    SubsequenceMembers(line, sent);
    assert Last(line) in sent;
    MasksAppend(sent, f);
    MasksAppend(line, f);
    SqueezeAppend(Masks(sent), mask);
  }

  /** Sending keeps the promise for any frames already taken out of the queue. */
  lemma PushCoalesced(taken: seq<StateFrame>, pending: seq<StateFrame>, sent: seq<StateFrame>, f: StateFrame)
    requires Coalesced(taken + pending, sent) && Push(pending, f).Some?
    ensures Coalesced(taken + Push(pending, f).value, sent + [f])
  {
    var line, longer := taken + pending, taken + Push(pending, f).value;
    if pending != [] && Last(pending).state.buttonFlags == f.state.buttonFlags {
      OverwriteCoalesced(line, sent, f);
      SameLine(Front(line) + [f], longer, sent + [f]);
    } else {
      AppendCoalesced(line, sent, f);
      SameLine(line + [f], longer, sent + [f]);
    }
  }

  lemma SameLine(line: seq<StateFrame>, same: seq<StateFrame>, sent: seq<StateFrame>)
    requires line == same && Coalesced(line, sent)
    ensures Coalesced(same, sent)
  {
  }

  lemma TakeCoalesced(taken: seq<StateFrame>, pending: seq<StateFrame>, sent: seq<StateFrame>)
    requires pending != []
    ensures Coalesced(taken + pending, sent) == Coalesced(taken + [pending[0]] + pending[1..], sent)
  {
    assert taken + pending == taken + [pending[0]] + pending[1..];
  }

  lemma PushDistinct(pending: seq<StateFrame>, f: StateFrame)
    requires AdjacentDistinct(Masks(pending)) && |pending| <= MAXIMUM_QUEUED_FRAMES && Push(pending, f).Some?
    ensures AdjacentDistinct(Masks(Push(pending, f).value)) && |Push(pending, f).value| <= MAXIMUM_QUEUED_FRAMES
  {
    var q := Push(pending, f).value;
    forall i, j | 0 <= i && j == i + 1 < |q| ensures Masks(q)[i] != Masks(q)[j] {
      if j < |pending| {
        assert Masks(pending)[i] != Masks(pending)[j];
      }
    }
  }

  lemma PopDistinct(pending: seq<StateFrame>)
    requires AdjacentDistinct(Masks(pending)) && pending != []
    ensures AdjacentDistinct(Masks(pending[1..]))
  {
    forall i, j | 0 <= i && j == i + 1 < |pending[1..]| ensures Masks(pending[1..])[i] != Masks(pending[1..])[j] {
      assert Masks(pending)[i + 1] != Masks(pending)[j + 1];
    }
  }

  /** A queue with distinct neighbours refuses exactly a 65th change of the mask. */
  lemma RefusalMeaning(pending: seq<StateFrame>, f: StateFrame)
    requires |pending| <= MAXIMUM_QUEUED_FRAMES
    ensures Push(pending, f).None? <==>
            |pending| == 64 && Last(pending).state.buttonFlags != f.state.buttonFlags
  {
  }

  /** The queue of an accepting transport: bounded, neighbours distinct, the promise kept. */
  ghost predicate Keeps(delivered: seq<StateFrame>, pending: seq<StateFrame>, sent: seq<StateFrame>) {
    && |pending| <= MAXIMUM_QUEUED_FRAMES
    && AdjacentDistinct(Masks(pending))
    && Coalesced(delivered + pending, sent)
  }

  lemma NothingKeeps(delivered: seq<StateFrame>, pending: seq<StateFrame>, sent: seq<StateFrame>)
    requires delivered == [] && pending == [] && sent == []
    ensures Keeps(delivered, pending, sent)
  {
    EmptyCoalesced(delivered + pending, sent);
  }

  lemma PushKeeps(delivered: seq<StateFrame>, pending: seq<StateFrame>, sent: seq<StateFrame>, f: StateFrame)
    requires Keeps(delivered, pending, sent) && Push(pending, f).Some?
    ensures Keeps(delivered, Push(pending, f).value, sent + [f])
  {
    PushCoalesced(delivered, pending, sent, f);
    PushDistinct(pending, f);
  }

  lemma TakeKeeps(delivered: seq<StateFrame>, pending: seq<StateFrame>, sent: seq<StateFrame>)
    requires Keeps(delivered, pending, sent) && pending != []
    ensures Keeps(delivered + [pending[0]], pending[1..], sent)
  {
    TakeCoalesced(delivered, pending, sent);
    PopDistinct(pending);
  }

  /** The transport under its mutex. `sent` and `delivered` are the history since `Start`. */
  class LoopbackTransportBackend {
    var pendingStates: seq<StateFrame>
    var accepting: bool
    var stopRequested: bool
    ghost var sent: seq<StateFrame>
    ghost var delivered: seq<StateFrame>

    ghost predicate Valid()
      reads this
    {
      && (accepting ==> !stopRequested && Keeps(delivered, pendingStates, sent))
      && (!accepting ==> pendingStates == [])
    }

    constructor ()
      ensures Valid() && !accepting && !stopRequested
    {
      pendingStates, accepting, stopRequested := [], false, false;
      sent, delivered := [], [];
    }

    /** `workerJoinable`: a worker of an earlier start has not been joined. */
    method StartLocked(workerJoinable: bool, hasCallback: bool) returns (ok: bool)
      requires Valid()
      modifies this
      ensures Valid()
      ensures ok <==> !old(accepting) && !workerJoinable && hasCallback
      ensures ok ==> accepting && pendingStates == [] && sent == [] && delivered == []
      ensures !ok ==> unchanged(this)
    {
      if accepting || workerJoinable || !hasCallback {
        return false;
      }
      pendingStates := [];
      stopRequested := false;
      accepting := true;
      sent, delivered := [], [];
      NothingKeeps(delivered, pendingStates, sent);
      return true;
    }

    method SendState(state: GamepadState, sequence: U64, timestampUs: U64) returns (ok: bool)
      requires Valid()
      modifies this
      ensures Valid() && accepting == old(accepting) && delivered == old(delivered)
      ensures var f := StateFrame(state, sequence, timestampUs);
              && (ok <==> old(accepting) && Push(old(pendingStates), f).Some?)
              && (ok ==> pendingStates == Push(old(pendingStates), f).value && sent == old(sent) + [f])
              && (!ok ==> unchanged(this))
    {
      if !accepting {
        return false;
      }
      var frame := StateFrame(state, sequence, timestampUs);
      ghost var queue, before := pendingStates, sent;
      if pendingStates != [] && Last(pendingStates).state.buttonFlags == state.buttonFlags {
        pendingStates := Front(pendingStates) + [frame];
      } else {
        if |pendingStates| >= MAXIMUM_QUEUED_FRAMES {
          return false;
        }
        pendingStates := pendingStates + [frame];
      }
      sent := sent + [frame];
      assert Push(queue, frame) == Some(pendingStates);
      PushKeeps(delivered, queue, before, frame);
      return true;
    }

    /** The worker's locked section once its wait is over; None ends the worker. */
    method TakeLocked() returns (frame: Option<StateFrame>)
      requires Valid() && (stopRequested || pendingStates != [])
      modifies this
      ensures Valid() && accepting == old(accepting) && sent == old(sent)
      ensures old(stopRequested) ==> frame.None? && unchanged(this)
      ensures !old(stopRequested) ==>
                && frame == Some(old(pendingStates)[0])
                && pendingStates == old(pendingStates)[1..]
                && delivered == old(delivered) + [frame.value]
    {
      if stopRequested {
        return None;
      }
      frame := Some(pendingStates[0]);
      if accepting {
        TakeKeeps(delivered, pendingStates, sent);
      }
      delivered := delivered + [pendingStates[0]];
      pendingStates := pendingStates[1..];
    }

    /** The first section of `Shutdown`; false if there is nothing to shut down. */
    method ShutdownLocked(workerJoinable: bool) returns (goOn: bool)
      requires Valid()
      modifies this
      ensures Valid()
      ensures goOn <==> old(accepting) || workerJoinable
      ensures goOn ==> !accepting && stopRequested && pendingStates == []
      ensures goOn ==> sent == old(sent) && delivered == old(delivered)
      ensures !goOn ==> unchanged(this)
    {
      if !accepting && !workerJoinable {
        return false;
      }
      accepting := false;
      stopRequested := true;
      pendingStates := [];
      return true;
    }

    /** The last section of `Shutdown`, after the worker was joined. */
    method FinishShutdownLocked()
      requires Valid() && !accepting
      modifies this
      ensures Valid() && !stopRequested && !accepting && pendingStates == []
      ensures sent == old(sent) && delivered == old(delivered)
    {
      stopRequested := false;
    }
  }
}
