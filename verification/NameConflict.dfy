/** Any number of servers that share one name, as a timed transition system over the heartbeat
    decision of the server program.  Heartbeats travel as flights that must land within a bound;
    a landed heartbeat raises the receiver's conflict flag. */
module NameConflict {
  import opened Serving

  // The interval of the heartbeat timer.
  const HEARTBEAT_INTERVAL: int := 250
  // The earliest a server starts to broadcast: five heartbeats after its start.
  const PROBATION: int := 1250

  datatype Node = Node(start: int, order: nat, lastTick: int, control: Control)

  datatype Flight = Flight(from: nat, to: nat, sentAt: int)

  datatype System = System(now: int, live: map<nat, Node>, flights: set<Flight>, starts: nat)

  /** At most `period` between a server's heartbeat ticks, at most `delay` to every other server. */
  datatype Bounds = Bounds(period: nat, delay: nat)

  const INIT := System(0, map[], {}, 0)

  datatype Step =
    | Start(id: nat)
    | HeartbeatPass(id: nat)
    | Land(flight: Flight)
    | Hear(id: nat)          // a heartbeat with this name from anywhere else, or a duplicate
    | Stop(id: nat)          // the process ends for another reason
    | Wait(until: int)

  /** Ticks are an interval apart at least, the first counted from the start: tick number `n` comes
      no earlier than this. */
  predicate NotEarly(start: int, n: nat, now: int) {
    now >= start + HEARTBEAT_INTERVAL * (n + 1)
  }

  /** A live server's next tick comes no later than this. */
  predicate NotLate(lastTick: int, now: int, period: nat) {
    now <= lastTick + period
  }

  predicate Can(b: Bounds, s: System, step: Step) {
    match step
    case Start(id) => id !in s.live
    case HeartbeatPass(id) => id in s.live && NotEarly(s.live[id].start, s.live[id].control.nHeartbeat, s.now)
    case Land(f) => f in s.flights
    case Hear(id) => id in s.live
    case Stop(id) => id in s.live
    case Wait(until) =>
      && s.now <= until
      && (forall id <- s.live.Keys :: NotLate(s.live[id].lastTick, until, b.period))
      && (forall f <- s.flights :: until <= f.sentAt + b.delay)
  }

  function Warn(live: map<nat, Node>, id: nat): map<nat, Node> {
    if id in live then live[id := live[id].(control := live[id].control.(conflict := true))] else live
  }

  function Broadcast(s: System, id: nat): set<Flight> {
    set j | j in s.live.Keys && j != id :: Flight(id, j, s.now)
  }

  function Do(s: System, step: Step): System {
    match step
    case Start(id) => s.(live := s.live[id := Node(s.now, s.starts, s.now, FRESH)], starts := s.starts + 1)
    case HeartbeatPass(id) =>
      if id !in s.live then s else
      (match HeartbeatTick(s.live[id].control)
       case Abort => s.(live := s.live - {id})
       case Beat(c) => s.(live := s.live[id := s.live[id].(lastTick := s.now, control := c)],
                          flights := s.flights + Broadcast(s, id)))
    case Land(f) => s.(flights := s.flights - {f}, live := Warn(s.live, f.to))
    case Hear(id) => s.(live := Warn(s.live, id))
    case Stop(id) => s.(live := s.live - {id})
    case Wait(until) => s.(now := until)
  }

  function After(steps: seq<Step>): System {
    if steps == [] then INIT else Do(After(steps[..|steps| - 1]), steps[|steps| - 1])
  }

  predicate Allowed(b: Bounds, steps: seq<Step>) {
    steps == [] ||
    (Allowed(b, steps[..|steps| - 1]) && Can(b, After(steps[..|steps| - 1]), steps[|steps| - 1]))
  }

  ghost predicate Reachable(b: Bounds, s: System) {
    exists steps :: Allowed(b, steps) && After(steps) == s
  }

  predicate Enabled(s: System, id: nat) {
    id in s.live && s.live[id].control.enabled
  }

  // -------------------------------------------------------------------- the invariant

  predicate Punctual(b: Bounds, s: System, id: nat)
    requires id in s.live
  {
    var n := s.live[id];
    && n.start <= n.lastTick <= s.now <= n.lastTick + b.period
    && n.start + HEARTBEAT_INTERVAL * n.control.nHeartbeat <= n.lastTick
    && n.order < s.starts
  }

  /** A flight from `i` that reaches `j` in time. */
  ghost predicate Warning(b: Bounds, s: System, i: nat, j: nat, f: Flight)
    requires j in s.live
  {
    f in s.flights && f.from == i && f.to == j && f.sentAt <= s.live[j].start + b.period
  }

  /** `j` was started after `i`: it knows of the conflict, or will in time, or `i` has not ticked
      since; and it is not enabled. */
  ghost predicate Held(b: Bounds, s: System, i: nat, j: nat)
    requires i in s.live && j in s.live
  {
    && !s.live[j].control.enabled
    && (|| s.live[j].control.conflict
        || s.live[i].lastTick <= s.live[j].start
        || exists f :: Warning(b, s, i, j, f))
  }

  ghost predicate Inv(b: Bounds, s: System) {
    && (forall id <- s.live.Keys :: Punctual(b, s, id))
    && (forall f <- s.flights :: s.now <= f.sentAt + b.delay)
    && (forall i, j {:trigger s.live[i], s.live[j]} :: i in s.live && j in s.live && i != j ==>
          s.live[i].order != s.live[j].order)
    && (forall i, j {:trigger Held(b, s, i, j)} :: i in s.live && j in s.live && s.live[i].order < s.live[j].order ==>
          Held(b, s, i, j))
  }

  /** A held server that is not warned cannot have counted five heartbeats yet. */
  lemma HeldNotYet(b: Bounds, s: System, i: nat, j: nat)
    requires Inv(b, s) && b.period + b.delay < PROBATION
    requires i in s.live && j in s.live && s.live[i].order < s.live[j].order
    requires Can(b, s, HeartbeatPass(j))
    ensures s.live[j].control.conflict || s.live[j].control.nHeartbeat + 1 <= 4
  {
    assert Held(b, s, i, j);
    assert Punctual(b, s, i);
  }

  lemma TickKeepsInv(b: Bounds, s: System, id: nat)
    requires Inv(b, s) && b.period + b.delay < PROBATION
    requires Can(b, s, HeartbeatPass(id))
    ensures Inv(b, Do(s, HeartbeatPass(id)))
  {
    var t := Do(s, HeartbeatPass(id));
    forall i, j | i in t.live && j in t.live && t.live[i].order < t.live[j].order
      ensures Held(b, t, i, j)
    {
      assert Held(b, s, i, j);
      if j == id {
        HeldNotYet(b, s, i, j);
      }
      if i == id {
        assert Punctual(b, s, id);
        if s.live[i].lastTick <= s.live[j].start {
          assert Warning(b, t, i, j, Flight(i, j, s.now));
        }
      }
      if f :| Warning(b, s, i, j, f) {
        assert Warning(b, t, i, j, f);
      }
    }
  }

  lemma WarnKeepsInv(b: Bounds, s: System, id: nat, landed: set<Flight>)
    requires Inv(b, s) && forall f <- landed :: f.to == id
    ensures Inv(b, s.(live := Warn(s.live, id), flights := s.flights - landed))
  {
    var t := s.(live := Warn(s.live, id), flights := s.flights - landed);
    forall i, j | i in t.live && j in t.live && t.live[i].order < t.live[j].order
      ensures Held(b, t, i, j)
    {
      assert Held(b, s, i, j);
      if f :| Warning(b, s, i, j, f) {
        assert j != id ==> Warning(b, t, i, j, f);
      }
    }
  }

  lemma StartKeepsInv(b: Bounds, s: System, id: nat)
    requires Inv(b, s) && id !in s.live
    ensures Inv(b, Do(s, Start(id)))
  {
    var t := Do(s, Start(id));
    assert forall i <- s.live.Keys :: Punctual(b, s, i);
    forall i, j | i in t.live && j in t.live && t.live[i].order < t.live[j].order
      ensures Held(b, t, i, j)
    {
      if j != id {
        assert Held(b, s, i, j);
        if f :| Warning(b, s, i, j, f) {
          assert Warning(b, t, i, j, f);
        }
      }
    }
  }

  lemma StepKeepsInv(b: Bounds, s: System, step: Step)
    requires Inv(b, s) && b.period + b.delay < PROBATION
    requires Can(b, s, step)
    ensures Inv(b, Do(s, step))
  {
    var t := Do(s, step);
    match step
    case HeartbeatPass(id) =>
      TickKeepsInv(b, s, id);
    case Land(f) =>
      WarnKeepsInv(b, s, f.to, {f});
    case Hear(id) =>
      WarnKeepsInv(b, s, id, {});
      assert s.flights - {} == s.flights;
    case Start(id) =>
      StartKeepsInv(b, s, id);
    case _ =>
      forall i, j | i in t.live && j in t.live && t.live[i].order < t.live[j].order
        ensures Held(b, t, i, j)
      {
        assert Held(b, s, i, j);
        if f :| Warning(b, s, i, j, f) {
          assert Warning(b, t, i, j, f);
        }
      }
  }

  lemma {:induction false} ReachableInv(b: Bounds, steps: seq<Step>)
    requires Allowed(b, steps) && b.period + b.delay < PROBATION
    ensures Inv(b, After(steps))
  {
    if steps == [] {
    } else {
      ReachableInv(b, steps[..|steps| - 1]);
      StepKeepsInv(b, After(steps[..|steps| - 1]), steps[|steps| - 1]);
    }
  }

  /** Only the server that was started first among the live ones can be broadcasting positions. */
  lemma OldestOnly(b: Bounds, s: System, i: nat, j: nat)
    requires Reachable(b, s) && b.period + b.delay < PROBATION
    requires i in s.live && j in s.live && s.live[i].order < s.live[j].order
    ensures !Enabled(s, j)
  {
    var steps :| Allowed(b, steps) && After(steps) == s;
    ReachableInv(b, steps);
    assert Held(b, s, i, j);
  }

  /** With heartbeats at most `period` apart that arrive within `delay`, and period + delay below
      five heartbeat intervals, no two servers of one name ever broadcast positions together. */
  lemma MutualExclusion(b: Bounds, s: System, i: nat, j: nat)
    requires Reachable(b, s) && b.period + b.delay < PROBATION
    ensures i != j ==> !(Enabled(s, i) && Enabled(s, j))
  {
    var steps :| Allowed(b, steps) && After(steps) == s;
    ReachableInv(b, steps);
    if i in s.live && j in s.live && i != j {
      assert s.live[i].order != s.live[j].order;
      if s.live[i].order < s.live[j].order {
        OldestOnly(b, s, i, j);
      } else {
        OldestOnly(b, s, j, i);
      }
    }
  }

  /** A server that knows of a conflict before it broadcasts is gone with its next tick, without another
      heartbeat; any other stays, and its heartbeat sets out for all the others. */
  lemma LosersLeave(b: Bounds, s: System, id: nat)
    requires Can(b, s, HeartbeatPass(id))
    ensures var t, c := Do(s, HeartbeatPass(id)), s.live[id].control;
            if c.conflict && !c.enabled then t.live.Keys == s.live.Keys - {id} && t.flights == s.flights
            else
              && t.live.Keys == s.live.Keys && t.live[id].lastTick == s.now
              && t.live[id].control.nHeartbeat == c.nHeartbeat + 1
              && (forall j <- s.live.Keys :: j != id ==> Flight(id, j, s.now) in t.flights)
  {
  }

  // ------------------------------------------------------------- the bound is exact

  lemma Extend(b: Bounds, s: System, step: Step)
    requires Reachable(b, s) && Can(b, s, step)
    ensures Reachable(b, Do(s, step))
  {
    var steps :| Allowed(b, steps) && After(steps) == s;
    assert (steps + [step])[..|steps|] == steps;
    assert Allowed(b, steps + [step]) && After(steps + [step]) == Do(s, step);
  }

  /** One server alone after `k` punctual heartbeats. */
  function Alone(k: nat): System {
    System(250 * k, map[0 := Node(0, 0, 250 * k, Control(false, k, k > 4))], {}, 1)
  }

  lemma {:induction false} AloneReachable(b: Bounds, k: nat)
    requires b.period >= 250 && k <= 5
    ensures Reachable(b, Alone(k))
  {
    if k == 0 {
      assert Allowed(b, []) && After([]) == INIT;
      Extend(b, INIT, Start(0));
    } else {
      AloneReachable(b, k - 1);
      Extend(b, Alone(k - 1), Wait(250 * k));
      var s := Do(Alone(k - 1), Wait(250 * k));
      assert Broadcast(s, 0) == {};
      Extend(b, s, HeartbeatPass(0));
      assert Do(s, HeartbeatPass(0)).live == Alone(k).live;
    }
  }

  /** Server 0 broadcasts; server 1, started at 1250, has counted `m` heartbeats unwarned, and what
      server 0 sent to it is still on the way. */
  ghost predicate Rivals(b: Bounds, s: System, m: nat) {
    && s.live.Keys == {0, 1} && s.now == PROBATION + 250 * m
    && var first := s.live[0];
    && first.control.enabled && first.start == 0 && 250 * first.control.nHeartbeat <= first.lastTick
    && first.lastTick <= s.now <= first.lastTick + b.period
    && (first.lastTick == PROBATION || first.lastTick >= PROBATION + b.period)
    && s.live[1] == Node(PROBATION, 1, s.now, Control(false, m, m > 4))
    && forall f <- s.flights :: f.sentAt >= PROBATION + b.period
  }

  /** Server 0 ticks when its period runs out within the next interval. */
  lemma OldTick(b: Bounds, s: System, m: nat) returns (t: System)
    requires b.period >= 250 && b.period + b.delay >= PROBATION && m < 5
    requires Reachable(b, s) && Rivals(b, s, m) && s.live[0].lastTick + b.period < s.now + 250
    ensures Reachable(b, t) && t.live.Keys == {0, 1} && t.live[1] == s.live[1]
    ensures s.now <= t.now < s.now + 250
    ensures var first := t.live[0];
            && first.control.enabled && first.start == 0 && 250 * first.control.nHeartbeat <= first.lastTick
            && PROBATION + b.period <= first.lastTick == t.now
    ensures forall f <- t.flights :: f.sentAt >= PROBATION + b.period
  {
    var due := s.live[0].lastTick + b.period;
    Extend(b, s, Wait(due));
    var u := Do(s, Wait(due));
    Extend(b, u, HeartbeatPass(0));
    t := Do(u, HeartbeatPass(0));
  }

  lemma NewTick(b: Bounds, s: System, m: nat) returns (t: System)
    requires b.period >= 250 && b.period + b.delay >= PROBATION && m < 5
    requires Reachable(b, s) && s.live.Keys == {0, 1}
    requires PROBATION + 250 * m <= s.now <= PROBATION + 250 * m + 250
    requires s.live[1] == Node(PROBATION, 1, PROBATION + 250 * m, Control(false, m, m > 4))
    requires var first := s.live[0];
             && first.control.enabled && first.start == 0 && 250 * first.control.nHeartbeat <= first.lastTick
             && first.lastTick <= s.now && PROBATION + 250 * m + 250 <= first.lastTick + b.period
             && (first.lastTick == PROBATION || first.lastTick >= PROBATION + b.period)
    requires forall f <- s.flights :: f.sentAt >= PROBATION + b.period
    ensures Reachable(b, t) && Rivals(b, t, m + 1)
  {
    var at := PROBATION + 250 * (m + 1);
    Extend(b, s, Wait(at));
    var u := Do(s, Wait(at));
    Extend(b, u, HeartbeatPass(1));
    var v := Do(u, HeartbeatPass(1));
    var f := Flight(1, 0, at);
    assert Broadcast(u, 1) == {f} by {
      assert f in Broadcast(u, 1);
    }
    Extend(b, v, Land(f));
    t := Do(v, Land(f));
  }

  lemma {:induction false} RivalsReachable(b: Bounds, m: nat) returns (s: System)
    requires b.period >= 250 && b.period + b.delay >= PROBATION && m <= 5
    ensures Reachable(b, s) && Rivals(b, s, m)
  {
    if m == 0 {
      AloneReachable(b, 5);
      Extend(b, Alone(5), Start(1));
      s := Do(Alone(5), Start(1));
    } else {
      s := RivalsReachable(b, m - 1);
      if s.live[0].lastTick + b.period < s.now + 250 {
        s := OldTick(b, s, m - 1);
      }
      s := NewTick(b, s, m - 1);
    }
  }

  /** Below the timer interval no server ever ticks. */
  lemma {:induction false} NobodyTicks(b: Bounds, steps: seq<Step>)
    requires Allowed(b, steps) && b.period < HEARTBEAT_INTERVAL
    ensures forall id <- After(steps).live.Keys ::
              var n := After(steps).live[id];
              && n.lastTick == n.start <= After(steps).now <= n.start + b.period
              && n.control.nHeartbeat == 0 && !n.control.enabled
  {
    if steps == [] {
    } else {
      NobodyTicks(b, steps[..|steps| - 1]);
    }
  }

  ghost predicate Exclusive(b: Bounds) {
    forall s, i, j :: Reachable(b, s) && i != j ==> !(Enabled(s, i) && Enabled(s, j))
  }

  /** Mutual exclusion holds exactly when a heartbeat sent at the latest allowed moment still
      arrives before the fifth heartbeat interval is over (or the timer can never fire). */
  lemma ExclusiveIff(b: Bounds)
    ensures Exclusive(b) <==> b.period + b.delay < PROBATION || b.period < HEARTBEAT_INTERVAL
  {
    if b.period + b.delay < PROBATION {
      forall s, i, j | Reachable(b, s) && i != j ensures !(Enabled(s, i) && Enabled(s, j)) {
        MutualExclusion(b, s, i, j);
      }
    } else if b.period < HEARTBEAT_INTERVAL {
      forall s, i, j | Reachable(b, s) && i != j ensures !(Enabled(s, i) && Enabled(s, j)) {
        var steps :| Allowed(b, steps) && After(steps) == s;
        NobodyTicks(b, steps);
      }
    } else {
      var s := RivalsReachable(b, 5);
      assert Enabled(s, 0) && Enabled(s, 1);
    }
  }
}
