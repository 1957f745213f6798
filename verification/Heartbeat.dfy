/**
 Heartbeats on a discrete clock: the client's control loop sends one per period, the server's
 loop checks how long ago it read the last one.
 */
module Heartbeat {
  import opened Seqs

  /**
   `period` between heartbeats; a client pass takes at most `pass`, delivery at most
   `delivery`, a server pass at most `serverPass`; the server gives up after `timeout`.
   */
  datatype Bounds = Bounds(period: nat, pass: nat, delivery: nat, serverPass: nat, timeout: nat)

  predicate Sensible(b: Bounds) {
    b.period > 0 && b.pass > 0 && b.serverPass > 0
  }

  datatype Server = AtCheck | AtWait | TimedOut

  /**
   `line` holds the sending times of the heartbeats not yet read, oldest first; the first
   `delivered` of them can be read, the others are on their way.
   */
  datatype System = System(
    now: nat, alive: bool, lastPass: nat, nextHeartbeat: nat, line: seq<nat>, delivered: nat,
    server: Server, lastHeartbeat: nat, lastCheck: nat)

  datatype Event = Tick | ClientPass | ClientDies | Deliver | Check | Wait

  /** Time does not pass over anything that is due. */
  predicate Enabled(s: System, e: Event, b: Bounds) {
    match e
    case Tick =>
      && (s.alive ==> s.now < s.lastPass + b.pass)
      && (s.delivered < |s.line| ==> s.now < s.line[s.delivered] + b.delivery)
      && (s.server != TimedOut ==> s.now < s.lastCheck + b.serverPass)
    case ClientPass => s.alive
    case ClientDies => s.alive
    case Deliver => s.delivered < |s.line|
    case Check => s.server == AtCheck
    case Wait => s.server == AtWait
  }

  function Apply(s: System, e: Event, b: Bounds): System
    requires Enabled(s, e, b)
  {
    match e
    case Tick => s.(now := s.now + 1)
    case ClientPass =>
      if s.now >= s.nextHeartbeat
      then s.(lastPass := s.now, line := s.line + [s.now], nextHeartbeat := s.now + b.period)
      else s.(lastPass := s.now)
    case ClientDies => s.(alive := false)
    case Deliver => s.(delivered := s.delivered + 1)
    case Check =>
      s.(lastCheck := s.now, server := if s.now - s.lastHeartbeat > b.timeout then TimedOut else AtWait)
    case Wait =>
      if s.delivered == 0 || s.line == [] then s.(server := AtCheck)
      else s.(line := s.line[1..], delivered := s.delivered - 1, lastHeartbeat := s.now, server := AtCheck)
  }

  /** Both loops start; the client's first heartbeat is due at most one period later. */
  predicate IsInitial(s: System, b: Bounds) {
    && s.lastPass == s.now == s.lastHeartbeat == s.lastCheck
    && s.alive && s.nextHeartbeat <= s.now + b.period
    && s.line == [] && s.delivered == 0 && s.server == AtCheck
  }

  ghost predicate Next(s: System, t: System, b: Bounds) {
    exists e :: Enabled(s, e, b) && t == Apply(s, e, b)
  }

  ghost predicate Moves(trace: seq<System>, i: nat, b: Bounds)
    requires i + 1 < |trace|
  {
    Next(trace[i], trace[i + 1], b)
  }

  ghost predicate IsRun(trace: seq<System>, b: Bounds) {
    && trace != []
    && IsInitial(trace[0], b)
    && forall i: nat {:trigger Moves(trace, i, b)} :: i + 1 < |trace| ==> Moves(trace, i, b)
  }

  lemma Extend(trace: seq<System>, e: Event, b: Bounds) returns (longer: seq<System>)
    requires IsRun(trace, b) && Enabled(Last(trace), e, b)
    ensures IsRun(longer, b) && trace <= longer && Last(longer) == Apply(Last(trace), e, b)
  {
    longer := trace + [Apply(Last(trace), e, b)];
    forall i: nat | i + 1 < |longer| ensures Moves(longer, i, b) {
      if i + 1 < |trace| {
        assert Moves(trace, i, b);
        assert longer[i] == trace[i] && longer[i + 1] == trace[i + 1];
      } else {
        assert Enabled(longer[i], e, b) && longer[i + 1] == Apply(longer[i], e, b);
      }
    }
  }

  // ---------------------------------------------------------------- invariant

  function Max(a: int, b: int): int {
    if a < b then b else a
  }

  /** The longest that two successive sending times are apart. */
  function Gap(b: Bounds): int {
    b.period + b.pass - 1
  }

  predicate Spaced(line: seq<nat>, gap: int) {
    forall i, j :: 0 <= i && j == i + 1 < |line| ==> line[i] <= line[j] <= line[i] + gap
  }

  ghost predicate ClientInvariant(s: System, b: Bounds) {
    && s.lastPass <= s.now && (s.alive ==> s.now <= s.lastPass + b.pass)
    && s.delivered <= |s.line|
    && (s.delivered < |s.line| ==> s.now <= s.line[s.delivered] + b.delivery)
    && Spaced(s.line, Gap(b))
    && (s.line != [] ==>
          && Last(s.line) <= s.now
          && s.nextHeartbeat == Last(s.line) + b.period && s.lastPass < s.nextHeartbeat)
  }

  /** The oldest heartbeat not yet read, or else the next to be sent, follows the last one read closely. */
  ghost predicate ServerInvariant(s: System, b: Bounds) {
    && s.lastHeartbeat <= s.now && s.lastCheck <= s.now
    && (s.server != TimedOut ==> s.now <= s.lastCheck + b.serverPass && s.lastCheck <= s.lastHeartbeat + b.timeout)
    && (s.line != [] ==> s.line[0] <= s.lastHeartbeat + Gap(b))
    && (s.line == [] ==> Max(s.nextHeartbeat - 1, s.lastPass) <= s.lastHeartbeat + b.period - 1)
    && (s.alive && s.server == AtCheck ==> s.lastCheck <= s.lastHeartbeat + Gap(b) + b.delivery)
  }

  ghost predicate Invariant(s: System, b: Bounds) {
    ClientInvariant(s, b) && ServerInvariant(s, b)
  }

  lemma {:induction false} OldestFirst(line: seq<nat>, gap: int)
    requires Spaced(line, gap) && line != []
    ensures line[0] <= Last(line)
  {
    if |line| > 1 {
      OldestFirst(Front(line), gap);
      assert Front(line)[|line| - 2] <= line[|line| - 1];
    }
  }

  lemma SpacedAppend(line: seq<nat>, x: nat, gap: int)
    requires Spaced(line, gap) && (line != [] ==> Last(line) <= x <= Last(line) + gap)
    ensures Spaced(line + [x], gap)
  {
  }

  lemma SpacedDrop(line: seq<nat>, gap: int)
    requires Spaced(line, gap) && line != []
    ensures Spaced(line[1..], gap)
    ensures |line| > 1 ==> line[1..][0] <= line[0] + gap && Last(line[1..]) == Last(line)
  {
    var rest := line[1..];
    forall i, j | 0 <= i && j == i + 1 < |rest| ensures rest[i] <= rest[j] <= rest[i] + gap {
      assert rest[i] == line[i + 1] && rest[j] == line[j + 1];
    }
  }

  lemma ClientPassKeepsInvariant(s: System, b: Bounds)
    requires Sensible(b) && Invariant(s, b) && s.alive
    ensures Invariant(Apply(s, ClientPass, b), b)
  {
    if s.now >= s.nextHeartbeat {
      SpacedAppend(s.line, s.now, Gap(b));
    }
  }

  lemma ReadKeepsInvariant(s: System, b: Bounds)
    requires Sensible(b) && Invariant(s, b) && Enabled(s, Wait, b) && s.delivered > 0
    ensures Invariant(Apply(s, Wait, b), b)
  {
    SpacedDrop(s.line, Gap(b));
    OldestFirst(s.line, Gap(b));
  }

  lemma WaitKeepsInvariant(s: System, b: Bounds)
    requires Sensible(b) && Invariant(s, b) && Enabled(s, Wait, b)
    ensures Invariant(Apply(s, Wait, b), b)
  {
    if s.delivered > 0 {
      ReadKeepsInvariant(s, b);
    }
  }

  lemma StepKeepsInvariant(s: System, e: Event, b: Bounds)
    requires Sensible(b) && Invariant(s, b) && Enabled(s, e, b)
    ensures Invariant(Apply(s, e, b), b)
  {
    if e == ClientPass {
      ClientPassKeepsInvariant(s, b);
    } else if e == Wait {
      WaitKeepsInvariant(s, b);
    }
  }

  /** The four delays together exceed the timeout by one tick at most. */
  predicate Fits(b: Bounds) {
    b.period + b.pass + b.delivery + b.serverPass <= b.timeout + 1
  }

  predicate Lives(s: System) {
    s.alive ==> s.server != TimedOut
  }

  lemma MoveKeepsInvariant(trace: seq<System>, i: nat, b: Bounds)
    requires Sensible(b) && IsRun(trace, b) && i + 1 < |trace| && Invariant(trace[i], b)
    ensures Invariant(trace[i + 1], b)
    ensures Fits(b) && Lives(trace[i]) ==> Lives(trace[i + 1])
  {
    assert Moves(trace, i, b);
    var e :| Enabled(trace[i], e, b) && trace[i + 1] == Apply(trace[i], e, b);
    StepKeepsInvariant(trace[i], e, b);
  }

  lemma {:induction false} RunInvariant(trace: seq<System>, i: nat, b: Bounds)
    requires Sensible(b) && IsRun(trace, b) && i < |trace|
    ensures Invariant(trace[i], b)
    ensures Fits(b) ==> Lives(trace[i])
  {
    if i > 0 {
      RunInvariant(trace, i - 1, b);
      MoveKeepsInvariant(trace, i - 1, b);
    }
  }

  // ------------------------------------------------------------------ theorems

  /** A live client is never timed out. */
  lemma LiveClientIsNeverTimedOut(trace: seq<System>, i: nat, b: Bounds)
    requires Sensible(b) && IsRun(trace, b) && i < |trace|
    requires b.period + b.pass + b.delivery + b.serverPass <= b.timeout
    ensures trace[i].alive ==> trace[i].server != TimedOut
  {
    RunInvariant(trace, i, b);
  }

  // ----------------------------------------------------------------- sharpness

  /** What happens in each tick of a stretch of a run. */
  datatype Pace = Pace(passing: bool, checking: bool, delivering: bool)

  predicate CanGoOn(s: System, p: Pace) {
    && s.alive && s.server == AtCheck && s.delivered <= |s.line|
    && (p.passing ==> s.lastPass == s.now)
    && (p.checking ==> s.lastCheck == s.now && s.delivered == 0 && !p.delivering)
    && (p.delivering ==> s.delivered == |s.line|)
  }

  /** The end of a stretch is not past anything that its pace leaves undone. */
  predicate Reaches(s: System, p: Pace, b: Bounds, until: nat) {
    && s.now <= until
    && (!p.passing ==> until <= s.lastPass + b.pass)
    && (!p.checking ==> until <= s.lastCheck + b.serverPass)
    && (!p.delivering && s.line != [] ==> s.delivered == 0 && until <= s.line[0] + b.delivery)
    && (!p.delivering && s.line == [] ==> !p.passing || until < s.nextHeartbeat)
  }

  function AfterTick(s: System, p: Pace, b: Bounds): System
    requires p.passing ==> s.alive
  {
    var t := s.(now := s.now + 1);
    if p.passing then Apply(t, ClientPass, b) else t
  }

  lemma ClientTick(trace: seq<System>, p: Pace, b: Bounds, until: nat) returns (longer: seq<System>)
    requires Sensible(b) && IsRun(trace, b)
    requires var s := Last(trace); CanGoOn(s, p) && Reaches(s, p, b, until) && s.now < until
    ensures IsRun(longer, b)
    ensures Last(longer) == AfterTick(Last(trace), p, b)
  {
    longer := Extend(trace, Tick, b);
    if p.passing {
      longer := Extend(longer, ClientPass, b);
    }
  }

  lemma ServerTick(trace: seq<System>, p: Pace, b: Bounds) returns (longer: seq<System>)
    requires IsRun(trace, b) && Last(trace).server == AtCheck && Last(trace).alive
    requires p.checking ==> Last(trace).delivered == 0 && !p.delivering
    ensures IsRun(longer, b)
    ensures var s, t := Last(trace), Last(longer);
            if p.checking then (t.server == TimedOut && t.alive) || t == s.(lastCheck := s.now)
            else if p.delivering && s.delivered < |s.line| then t == s.(delivered := s.delivered + 1)
            else t == s
  {
    longer := trace;
    if p.checking {
      longer := Extend(longer, Check, b);
      if Last(longer).server != TimedOut {
        longer := Extend(longer, Wait, b);
      }
    } else if p.delivering && Last(trace).delivered < |Last(trace).line| {
      longer := Extend(longer, Deliver, b);
    }
  }

  /** A run can be continued at a pace to the end of a stretch, unless it times out before. */
  lemma Stretch(trace: seq<System>, p: Pace, b: Bounds, until: nat) returns (longer: seq<System>)
    requires Sensible(b) && IsRun(trace, b)
    requires CanGoOn(Last(trace), p) && Reaches(Last(trace), p, b, until)
    ensures IsRun(longer, b)
    ensures var s, t := Last(trace), Last(longer);
            (t.server == TimedOut && t.alive) ||
            (&& t.now == until && CanGoOn(t, p) && t.lastHeartbeat == s.lastHeartbeat
             && (!p.passing ==> t.lastPass == s.lastPass && t.line == s.line && t.nextHeartbeat == s.nextHeartbeat)
             && (!p.checking ==> t.lastCheck == s.lastCheck)
             && (!p.delivering ==> t.delivered == s.delivered)
             && (until < s.nextHeartbeat ==> t.line == s.line && t.nextHeartbeat == s.nextHeartbeat)
             && (s.line != [] ==> t.line != [] && t.line[0] == s.line[0]))
    decreases until - Last(trace).now
  {
    longer := trace;
    if Last(trace).now < until {
      longer := ClientTick(longer, p, b, until);
      longer := ServerTick(longer, p, b);
      if Last(longer).server != TimedOut {
        longer := Stretch(longer, p, b, until);
      }
    }
  }

  lemma DeliverAll(trace: seq<System>, b: Bounds) returns (longer: seq<System>)
    requires IsRun(trace, b) && Last(trace).delivered <= |Last(trace).line|
    ensures IsRun(longer, b) && trace <= longer
    ensures Last(longer) == Last(trace).(delivered := |Last(trace).line|)
    decreases |Last(trace).line| - Last(trace).delivered
  {
    longer := trace;
    if Last(trace).delivered < |Last(trace).line| {
      longer := Extend(longer, Deliver, b);
      longer := DeliverAll(longer, b);
    }
  }

  /** The first heartbeat is sent as late as the bounds allow, and nothing was read before. */
  lemma LateHeartbeat(b: Bounds) returns (trace: seq<System>)
    requires Sensible(b)
    ensures IsRun(trace, b)
    ensures var s := Last(trace);
            (s.server == TimedOut && s.alive) ||
            (&& s.alive && s.now == s.lastPass == s.lastCheck == b.period + b.pass - 1 && s.lastHeartbeat == 0
             && s.server == AtCheck && s.line == [s.now] && s.delivered == 0)
  {
    trace := [System(0, true, 0, b.period, [], 0, AtCheck, 0, 0)];
    trace := Stretch(trace, Pace(true, true, false), b, b.period - 1);
    if Last(trace).server != TimedOut {
      trace := Stretch(trace, Pace(false, true, false), b, b.period - 1 + b.pass);
      if Last(trace).server != TimedOut {
        trace := Extend(trace, ClientPass, b);
      }
    }
  }

  /** The bound is sharp: one more tick, and there is a run in which a live client is timed out. */
  lemma BoundIsSharp(b: Bounds) returns (trace: seq<System>)
    requires Sensible(b) && !Fits(b)
    ensures IsRun(trace, b) && Last(trace).alive && Last(trace).server == TimedOut
  {
    trace := LateHeartbeat(b);
    if Last(trace).server != TimedOut {
      var late := Last(trace).now;
      trace := Stretch(trace, Pace(true, true, false), b, late + b.delivery);
      if Last(trace).server != TimedOut {
        trace := DeliverAll(trace, b);
        trace := Stretch(trace, Pace(true, false, true), b, late + b.delivery + b.serverPass);
        if Last(trace).server != TimedOut {
          trace := Extend(trace, Check, b);
        }
      }
    }
  }

  /** No run times out a live client if and only if the four delays exceed the timeout by one tick at most. */
  lemma LiveIffBoundsFit(b: Bounds)
    requires Sensible(b)
    ensures (forall trace: seq<System>, i: nat :: IsRun(trace, b) && i < |trace| ==> Lives(trace[i])) <==> Fits(b)
  {
    if Fits(b) {
      forall trace: seq<System>, i: nat | IsRun(trace, b) && i < |trace| ensures Lives(trace[i]) {
        RunInvariant(trace, i, b);
      }
    } else {
      var trace := BoundIsSharp(b);
      var i: nat := |trace| - 1;
      assert !Lives(trace[i]);
    }
  }

  const HEARTBEAT_PERIOD_MS := 1000
  const HEARTBEAT_TIMEOUT_MS := 3000

  /** The constants of the code and three delays in milliseconds, on a clock of `k` ticks per millisecond. */
  function InTicks(k: nat, pass: nat, delivery: nat, serverPass: nat): Bounds {
    Bounds(HEARTBEAT_PERIOD_MS * k, pass * k, delivery * k, serverPass * k, HEARTBEAT_TIMEOUT_MS * k)
  }

  lemma FitsInMilliseconds(k: nat, pass: nat, delivery: nat, serverPass: nat)
    requires k > 1
    ensures Fits(InTicks(k, pass, delivery, serverPass)) <==> pass + delivery + serverPass <= 2000
  {
    var excess := pass + delivery + serverPass - 2000;
    assert HEARTBEAT_PERIOD_MS * k + pass * k + delivery * k + serverPass * k
        == HEARTBEAT_TIMEOUT_MS * k + excess * k;
    if excess >= 1 {
      assert excess * k >= k;
    } else {
      assert excess * k <= 0;
    }
  }

  /**
   With a clock finer than a millisecond, as the steady clock of the code is, a live client
   is never timed out if and only if the other three delays take 2000 ms at most together.
   */
  lemma LiveInMilliseconds(k: nat, pass: nat, delivery: nat, serverPass: nat)
    requires k > 1 && pass > 0 && serverPass > 0
    ensures var b := InTicks(k, pass, delivery, serverPass);
            (forall trace: seq<System>, i: nat :: IsRun(trace, b) && i < |trace| ==> Lives(trace[i]))
            <==> pass + delivery + serverPass <= 2000
  {
    var b := InTicks(k, pass, delivery, serverPass);
    assert pass * k > 0 && serverPass * k > 0;
    LiveIffBoundsFit(b);
    FitsInMilliseconds(k, pass, delivery, serverPass);
  }

  // ------------------------------------------------------------- silent clients

  /** Silence is noticed: until the disconnect the last heartbeat was read a timeout and a pass ago at most. */
  lemma SilenceIsNoticed(trace: seq<System>, i: nat, b: Bounds)
    requires Sensible(b) && IsRun(trace, b) && i < |trace|
    ensures trace[i].server != TimedOut ==> trace[i].now <= trace[i].lastHeartbeat + b.timeout + b.serverPass
  {
    RunInvariant(trace, i, b);
  }

  /** The longest that `passes` passes of the server's loop take. */
  function Spent(passes: nat, each: nat): nat {
    if passes == 0 then 0 else Spent(passes - 1, each) + each
  }

  lemma {:induction false} SpentGrows(m: nat, n: nat, each: nat)
    requires m <= n
    ensures Spent(m, each) <= Spent(n, each)
  {
    if m < n {
      SpentGrows(m, n - 1, each);
    }
  }

  lemma {:induction false} SpentIsProduct(passes: nat, each: nat)
    ensures Spent(passes, each) == passes * each
  {
    if passes > 0 {
      SpentIsProduct(passes - 1, each);
    }
  }

  /** The client died at `death` with `n` heartbeats unread; each pass reads one of those that have arrived. */
  ghost predicate Draining(s: System, death: nat, n: nat, b: Bounds) {
    && !s.alive && |s.line| <= n && s.delivered <= |s.line| && death <= s.now
    && (forall j :: 0 <= j < |s.line| ==> s.line[j] <= death)
    && (s.line != [] ==>
          s.lastCheck <= death + b.delivery + Spent(n - |s.line|, b.serverPass)
                         + (if s.server == AtCheck then 0 else b.serverPass))
    && s.lastHeartbeat <= death + b.delivery + Spent(n + 1, b.serverPass)
  }

  lemma DrainCheck(s: System, death: nat, n: nat, b: Bounds)
    requires Invariant(s, b) && Draining(s, death, n, b) && Enabled(s, Check, b)
    ensures Draining(Apply(s, Check, b), death, n, b)
  {
  }

  lemma DrainWait(s: System, death: nat, n: nat, b: Bounds)
    requires Invariant(s, b) && Draining(s, death, n, b) && Enabled(s, Wait, b)
    ensures Draining(Apply(s, Wait, b), death, n, b)
  {
    var read := n - |s.line|;
    if s.delivered > 0 {
      assert Spent(read + 2, b.serverPass) == Spent(read + 1, b.serverPass) + b.serverPass;
      SpentGrows(read + 2, n + 1, b.serverPass);
    } else if s.line != [] {
      assert s.now <= s.line[0] + b.delivery;
    }
  }

  lemma DrainMove(trace: seq<System>, i: nat, death: nat, n: nat, b: Bounds)
    requires Sensible(b) && IsRun(trace, b) && i + 1 < |trace| && Draining(trace[i], death, n, b)
    ensures Draining(trace[i + 1], death, n, b)
  {
    RunInvariant(trace, i, b);
    assert Moves(trace, i, b);
    var s := trace[i];
    var e :| Enabled(s, e, b) && trace[i + 1] == Apply(s, e, b);
    if e == Check {
      DrainCheck(s, death, n, b);
    } else if e == Wait {
      DrainWait(s, death, n, b);
    }
  }

  lemma {:induction false} StaysDraining(trace: seq<System>, i: nat, j: nat, death: nat, n: nat, b: Bounds)
    requires Sensible(b) && IsRun(trace, b) && i <= j < |trace| && Draining(trace[i], death, n, b)
    ensures Draining(trace[j], death, n, b)
  {
    if i < j {
      StaysDraining(trace, i, j - 1, death, n, b);
      DrainMove(trace, j - 1, death, n, b);
    }
  }

  lemma {:induction false} NewestLast(line: seq<nat>, gap: int, j: nat)
    requires Spaced(line, gap) && j < |line|
    ensures line[j] <= Last(line)
    decreases |line| - j
  {
    if j + 1 < |line| {
      assert line[j] <= line[j + 1];
      NewestLast(line, gap, j + 1);
    }
  }

  /**
   A client that falls silent is disconnected in bounded time: with `n` heartbeats unread at
   its death, at most delivery + (n + 2) server passes + timeout later.
   */
  lemma SilentClientIsDisconnected(trace: seq<System>, i: nat, j: nat, b: Bounds)
    requires Sensible(b) && IsRun(trace, b) && i <= j < |trace| && !trace[i].alive
    ensures trace[j].server != TimedOut ==>
              trace[j].now <= trace[i].now + b.delivery + (|trace[i].line| + 2) * b.serverPass + b.timeout
  {
    RunInvariant(trace, i, b);
    RunInvariant(trace, j, b);
    var s, n := trace[i], |trace[i].line|;
    forall k | 0 <= k < n ensures s.line[k] <= s.now {
      NewestLast(s.line, Gap(b), k);
    }
    SpentIsProduct(n + 2, b.serverPass);
    StaysDraining(trace, i, j, s.now, n, b);
  }

  // ------------------------------------------------------------- the clock goes on

  /** No state of a run stops the clock: what is due can always be done. */
  lemma TimePasses(trace: seq<System>, b: Bounds) returns (longer: seq<System>)
    requires Sensible(b) && IsRun(trace, b)
    ensures IsRun(longer, b) && trace <= longer && Last(longer).now == Last(trace).now + 1
    ensures !Last(trace).alive ==> !Last(longer).alive
  {
    longer := PassIfDue(trace, b);
    longer := DeliverAllIfDue(longer, b);
    longer := CheckIfDue(longer, b);
    longer := Extend(longer, Tick, b);
  }

  lemma PassIfDue(trace: seq<System>, b: Bounds) returns (longer: seq<System>)
    requires Sensible(b) && IsRun(trace, b)
    ensures IsRun(longer, b) && trace <= longer && Last(longer).now == Last(trace).now
    ensures Last(longer).alive == Last(trace).alive
    ensures Last(longer).alive ==> Last(longer).now < Last(longer).lastPass + b.pass
  {
    longer := trace;
    if Last(trace).alive {
      longer := Extend(trace, ClientPass, b);
    }
  }

  lemma DeliverAllIfDue(trace: seq<System>, b: Bounds) returns (longer: seq<System>)
    requires Sensible(b) && IsRun(trace, b)
    ensures IsRun(longer, b) && trace <= longer
    ensures Last(longer) == Last(trace).(delivered := |Last(trace).line|)
  {
    RunInvariant(trace, |trace| - 1, b);
    longer := DeliverAll(trace, b);
  }

  lemma CheckIfDue(trace: seq<System>, b: Bounds) returns (longer: seq<System>)
    requires Sensible(b) && IsRun(trace, b) && Last(trace).delivered == |Last(trace).line|
    ensures IsRun(longer, b) && trace <= longer && Last(longer).now == Last(trace).now
    ensures Last(longer).delivered == |Last(longer).line|
    ensures Last(longer).server != TimedOut ==> Last(longer).now < Last(longer).lastCheck + b.serverPass
    ensures Last(longer).alive == Last(trace).alive && Last(longer).lastPass == Last(trace).lastPass
  {
    longer := trace;
    if Last(longer).server == AtWait {
      longer := Extend(longer, Wait, b);
    }
    if Last(longer).server == AtCheck {
      longer := Extend(longer, Check, b);
    }
  }

  /** Waiting until the server has noticed; `limit` is the instant by which it must have. */
  lemma WaitForTimeout(trace: seq<System>, i: nat, limit: nat, b: Bounds) returns (longer: seq<System>)
    requires Sensible(b) && IsRun(trace, b) && i < |trace| && !trace[i].alive
    requires limit == trace[i].now + b.delivery + (|trace[i].line| + 2) * b.serverPass + b.timeout
    requires !Last(trace).alive
    ensures IsRun(longer, b) && trace <= longer && !Last(longer).alive && Last(longer).server == TimedOut
    decreases limit + 1 - Last(trace).now
  {
    longer := trace;
    if Last(trace).server != TimedOut {
      SilentClientIsDisconnected(trace, i, |trace| - 1, b);
      longer := TimePasses(trace, b);
      longer := WaitForTimeout(longer, i, limit, b);
    }
  }

  /** A client may die in every state, and then the server does time it out. */
  lemma DeadClientIsTimedOut(trace: seq<System>, b: Bounds) returns (longer: seq<System>)
    requires Sensible(b) && IsRun(trace, b) && Last(trace).alive
    ensures IsRun(longer, b) && trace <= longer && !Last(longer).alive && Last(longer).server == TimedOut
  {
    longer := Extend(trace, ClientDies, b);
    var i, s := |longer| - 1, Last(longer);
    var limit := s.now + b.delivery + (|s.line| + 2) * b.serverPass + b.timeout;
    longer := WaitForTimeout(longer, i, limit, b);
  }
}
