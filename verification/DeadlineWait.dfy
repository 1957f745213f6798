/**
 The loop that both watchdogs run on a condition variable: wait for input, then wait until a
 deadline after the last arrival, and neutralise if it passed. `over` is the loop's exit flag.
 */
module DeadlineWait {
  import opened ControllerOutput
  import opened Options

  /** Where the thread is; `notified` since it began to wait. */
  datatype Thread =
    | NotStarted
    | Starting
    | Entering
    | AwaitingInput
    | AwaitingDeadline(deadline: nat, notified: bool)
    | Exited

  /** The test behind a wait that was given `deadline`. */
  predicate Expired(over: bool, out: Output, deadline: nat, now: nat, timedOut: bool) {
    timedOut && !over && out.armed && now >= deadline
  }

  /** The head of the loop, up to the next wait. */
  function NextWait(over: bool, out: Output, timeout: nat): Thread {
    if over then Exited
    else if !out.armed then AwaitingInput
    else AwaitingDeadline(out.lastArrival + timeout, false)
  }

  /** What the thread does between the end of one wait and the start of the next. */
  function TakeTurn(over: bool, out: Output, t: Thread, now: nat, timeout: nat, timedOut: bool): (Output, Thread) {
    match t
    case AwaitingInput => if over || out.armed then (out, NextWait(over, out, timeout)) else (out, t)
    case AwaitingDeadline(deadline, _) =>
      var out' := if Expired(over, out, deadline, now, timedOut) then Neutralize(out) else out;
      (out', NextWait(over, out', timeout))
    case _ => (out, NextWait(over, out, timeout))
  }

  /** A wait that ends at or after its deadline without a notification reports a timeout. */
  predicate MayTurn(t: Thread, now: nat, timedOut: bool) {
    match t
    case Entering => true
    case AwaitingInput => true
    case AwaitingDeadline(d, notified) => now >= d && !notified ==> timedOut
    case _ => false
  }

  /** The thread waits, or is about to. */
  predicate CanTurn(t: Thread) {
    t == Entering || t == AwaitingInput || t.AwaitingDeadline?
  }

  // The scheduler runs a runnable, notified or timed-out thread at most `latency` later:
  // `due` is the instant by which the thread will have taken its next turn.

  function Max(a: nat, b: nat): nat {
    if a < b then b else a
  }

  function Sooner(due: Option<nat>, at: nat): Option<nat> {
    if due.Some? && due.value <= at then due else Some(at)
  }

  function DueAfterTurn(t: Thread, now: nat, latency: nat): Option<nat> {
    if t.AwaitingDeadline? then Some(Max(now, t.deadline) + latency) else None
  }

  /** The condition variable is notified. */
  function Notified(t: Thread): Thread {
    if t.AwaitingDeadline? then AwaitingDeadline(t.deadline, true) else t
  }

  function DueNotified(t: Thread, due: Option<nat>, now: nat, latency: nat): Option<nat> {
    if t.AwaitingInput? || t.AwaitingDeadline? then Sooner(due, now + latency) else due
  }

  /**
   While a report may be showing, the thread is bound to act in time; `lead` bounds how long
   it may take until a thread exists.
   */
  predicate Timely(out: Output, t: Thread, due: Option<nat>, now: nat, timeout: nat, latency: nat, lead: nat) {
    && (due.Some? ==> now <= due.value && t != NotStarted)
    && (t == Starting && due.Some? ==> due.value <= now + lead)
    && (t == Entering ==> due.Some? && due.value <= now + latency)
    && (out.armed ==>
          var arrival := out.lastArrival;
          && arrival <= now && due.Some?
          && due.value <= arrival + Max(timeout, lead + latency) + latency
          && t != NotStarted && t != Exited
          && (t == Starting ==> due.value <= arrival + lead)
          && (t == Entering ==> due.value <= arrival + lead + latency)
          && (t == AwaitingInput ==> due.value <= arrival + latency)
          && (t.AwaitingDeadline? ==>
                && t.deadline <= arrival + timeout
                && (t.notified ==> due.value <= arrival + latency)
                && (!t.notified ==> t.deadline == arrival + timeout)))
  }

  lemma TurnIsTimely(
    over: bool, out: Output, t: Thread, due: Option<nat>, now: nat, timedOut: bool,
    timeout: nat, latency: nat, lead: nat)
    requires Timely(out, t, due, now, timeout, latency, lead) && MayTurn(t, now, timedOut)
    requires over ==> !out.armed
    ensures var (out', t') := TakeTurn(over, out, t, now, timeout, timedOut);
            Timely(out', t', DueAfterTurn(t', now, latency), now, timeout, latency, lead)
  {
  }

  /** A frame was accepted, and the thread notified. */
  lemma ArrivalIsTimely(
    out: Output, out': Output, t: Thread, due: Option<nat>, now: nat, timeout: nat, latency: nat, lead: nat)
    requires Timely(out, t, due, now, timeout, latency, lead)
    requires t != NotStarted && t != Exited && (t == Starting ==> due.Some?)
    requires out'.armed && out'.lastArrival == now
    requires t.AwaitingDeadline? ==> out.armed
    ensures Timely(out', Notified(t), DueNotified(t, due, now, latency), now, timeout, latency, lead)
  {
  }
}
