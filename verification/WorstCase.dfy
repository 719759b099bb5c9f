/** The bound on callback times and delay is exact: loops that just violate it, and the run in which
    their servers broadcast together. */
module WorstCases {
  import opened EventLoops
  import opened LoopTiming
  import opened Options
  import opened NameConflict
  import opened Serving
  import opened Deployment

  // ----------------------------------------------------------- loops put together by hand

  /** The loop is quick over the script, and timer 2 fires at the times `ticks`. */
  predicate RunTicksAt(st: LoopState, script: seq<Env>, f: nat, c: nat, ticks: seq<int>) {
    && AllFit(|st.timers|, script) && AllQuick(st, script, f, c)
    && EnteredTimes(Firings(Trace(st, script), 2)) == ticks
  }

  /** An iteration at which timer 2 fires as `ticks` says. */
  predicate IteratesTo(st: LoopState, env: Env, f: nat, c: nat, ticks: seq<int>, after: LoopState) {
    && EventLoops.Fits(st, env) && Quick(st, env, f, c)
    && var r := Iterate(st, env);
       r.status == Continued && r.state == after && EnteredTimes(Firings([r], 2)) == ticks
  }

  lemma EmptyRun(st: LoopState, f: nat, c: nat)
    ensures RunTicksAt(st, [], f, c, [])
  {
    assert Trace(st, []) == [] && Firings([], 2) == [];
  }

  lemma IterationThenRun(st: LoopState, env: Env, first: seq<int>, after: LoopState, rest: seq<Env>, ticks: seq<int>,
                         f: nat, c: nat)
    requires IteratesTo(st, env, f, c, first, after) && RunTicksAt(after, rest, f, c, ticks)
    ensures RunTicksAt(st, [env] + rest, f, c, first + ticks)
  {
    hide Iterate, Quick, Trace, Firings;
    var script, r := [env] + rest, Iterate(st, env);
    assert script[0] == env && script[1..] == rest;
    assert AllFit(|st.timers|, script);
    TraceStep(st, script);
    FiringsCons(r, Trace(after, rest), 2);
    assert EnteredTimes(Firings([r], 2) + Firings(Trace(after, rest), 2)) == first + ticks;
  }

  /** A loop with two timers that get in the way of a heartbeat timer behind them. */
  function BlockedLoop(block: int, delay: int, due: int, clock: int): LoopState {
    LoopState([Timer(10000, block), Timer(10000, delay), Timer(HEARTBEAT_INTERVAL, due)], clock)
  }

  lemma BlockedTimeout(block: int, delay: int, due: int, clock: int)
    ensures Timeout(BlockedLoop(block, delay, due, clock).timers, 3, clock) ==
            Min(Min(Min(INT_MAX, block - clock), delay - clock), due - clock)
  {
    var timers := BlockedLoop(block, delay, due, clock).timers;
    assert Timeout(timers, 1, clock) == Min(Timeout(timers, 0, clock), block - clock);
    assert Timeout(timers, 2, clock) == Min(Timeout(timers, 1, clock), delay - clock);
  }

  /** A pass over these timers in which nothing fails and the heartbeat takes no time. */
  lemma BlockedPass(block: int, delay: int, due: int, clock: int, x: nat, y: nat, t: int)
    ensures var runs := [CallbackRun(x, Continued), CallbackRun(y, Continued), INSTANT];
            var f := TimerPass(BlockedLoop(block, delay, due, clock).timers, runs, 3, t);
            var called := t + (if t >= block then x else 0) + (if t >= delay then y else 0);
            && f.Ok() && f.clock == called
            && f.entered[2] == (if t >= due then Some(called) else None)
            && f.timers == BlockedLoop(if t >= block then t + 10000 else block, if t >= delay then t + 10000 else delay,
                                       if t >= due then t + HEARTBEAT_INTERVAL else due, clock).timers
  {
    hide TimerPass;
    var timers := BlockedLoop(block, delay, due, clock).timers;
    var runs := [CallbackRun(x, Continued), CallbackRun(y, Continued), INSTANT];
    TimerPassStep(timers, runs, 0, t);
    TimerPassStep(timers, runs, 1, t);
    TimerPassStep(timers, runs, 2, t);
  }

  /** The environment of one iteration: `poll` sleeps `wait`, the socket callback takes `z` if the
      socket is ready, the two timers in front take `x` and `y`. */
  function IterationEnv(wait: nat, ready: bool, z: nat, x: nat, y: nat): Env {
    Env(wait, Ready([ready]), [CallbackRun(z, Continued)],
        [CallbackRun(x, Continued), CallbackRun(y, Continued), INSTANT])
  }

  /** The time of the pass, and when it comes to the heartbeat. */
  function PassTime(timeout: int, clock: int, ready: bool, z: nat): int {
    if timeout > 0 then clock + timeout + (if ready then z else 0) else clock
  }

  function HeartbeatEntered(block: int, delay: int, x: nat, y: nat, t: int): int {
    t + (if t >= block then x else 0) + (if t >= delay then y else 0)
  }

  lemma OneSocketPass(ready: bool, z: nat, clock: int)
    ensures var p := SocketPass([ready], [CallbackRun(z, Continued)], 1, clock);
            p.Ok() && p.clock == clock + if ready then z else 0
  {
    assert SocketPass([ready], [CallbackRun(z, Continued)], 0, clock).clock == clock;
  }

  /** Time to the next deadline. */
  function NextDeadlineIn(block: int, delay: int, due: int, clock: int): int {
    Min(Min(block - clock, delay - clock), due - clock)
  }

  lemma PolledPass(block: int, delay: int, due: int, clock: int, wait: nat, ready: bool, z: nat, x: nat, y: nat)
    requires var timeout := NextDeadlineIn(block, delay, due, clock);
             -5000 <= timeout <= HEARTBEAT_INTERVAL && (timeout > 0 ==> wait == timeout)
    ensures var st, env := BlockedLoop(block, delay, due, clock), IterationEnv(wait, ready, z, x, y);
            var timeout := NextDeadlineIn(block, delay, due, clock);
            var t := PassTime(timeout, clock, ready, z);
            && EventLoops.Fits(st, env) && Narrow(Timeout(st.timers, 3, clock)) == timeout
            && Iterate(st, env) ==
               FireTimers(st.timers, t, timeout > 0, if timeout > 0 then Iterate(st, env).called else [], env.timers)
  {
    hide TimerPass, Timeout, SocketPass;
    var st := BlockedLoop(block, delay, due, clock);
    BlockedTimeout(block, delay, due, clock);
    assert Narrow(Timeout(st.timers, 3, clock)) == NextDeadlineIn(block, delay, due, clock);
    OneSocketPass(ready, z, clock + wait);
  }

  lemma OneFiring(r: Result)
    requires r.pass.Some? && |r.pass.value.entered| == 3
    ensures EnteredTimes(Firings([r], 2)) ==
            if r.pass.value.entered[2].Some? then [r.pass.value.entered[2].value] else []
  {
    assert Firings([r][1..], 2) == [];
  }

  /** One iteration in which `poll`, if it is called, sleeps until the next deadline. */
  lemma PunctualIteration(block: int, delay: int, due: int, clock: int, wait: nat, ready: bool, z: nat, x: nat, y: nat,
                          f: nat, c: nat)
    requires var timeout := NextDeadlineIn(block, delay, due, clock);
             && -5000 <= timeout <= HEARTBEAT_INTERVAL && (timeout > 0 ==> wait == timeout)
             && (ready ==> z <= f)
             && var t := PassTime(timeout, clock, ready, z); HeartbeatEntered(block, delay, x, y, t) <= t + c
    ensures var t := PassTime(NextDeadlineIn(block, delay, due, clock), clock, ready, z);
            var called := HeartbeatEntered(block, delay, x, y, t);
            IteratesTo(BlockedLoop(block, delay, due, clock), IterationEnv(wait, ready, z, x, y), f, c,
                       if t >= due then [called] else [],
                       BlockedLoop(if t >= block then t + 10000 else block, if t >= delay then t + 10000 else delay,
                                   if t >= due then t + HEARTBEAT_INTERVAL else due, called))
  {
    hide TimerPass, Timeout, SocketPass, Iterate, Firings, Narrow, NextDeadlineIn;
    OneSocketPass(ready, z, clock + wait);
    var t := PassTime(NextDeadlineIn(block, delay, due, clock), clock, ready, z);
    BlockedPass(block, delay, due, clock, x, y, t);
    PolledPass(block, delay, due, clock, wait, ready, z, x, y);
    OneFiring(Iterate(BlockedLoop(block, delay, due, clock), IterationEnv(wait, ready, z, x, y)));
  }

  /** Instant iterations from one heartbeat to the next. */
  function BeatScript(n: nat): seq<Env> {
    if n == 0 then [] else [IterationEnv(HEARTBEAT_INTERVAL, false, 0, 0, 0)] + BeatScript(n - 1)
  }

  function BeatTimes(q: int, n: nat): seq<int>
    decreases n
  {
    if n == 0 then [] else [q + HEARTBEAT_INTERVAL] + BeatTimes(q + HEARTBEAT_INTERVAL, n - 1)
  }

  lemma {:induction false} BeatsThenRun(block: int, delay: int, q: int, n: nat, rest: seq<Env>, ticks: seq<int>,
                                        f: nat, c: nat)
    requires q + HEARTBEAT_INTERVAL * n < block && q + HEARTBEAT_INTERVAL * n < delay
    requires RunTicksAt(BlockedLoop(block, delay, q + HEARTBEAT_INTERVAL * n + HEARTBEAT_INTERVAL,
                                    q + HEARTBEAT_INTERVAL * n),
                        rest, f, c, ticks)
    ensures RunTicksAt(BlockedLoop(block, delay, q + HEARTBEAT_INTERVAL, q), BeatScript(n) + rest, f, c,
                       BeatTimes(q, n) + ticks)
    decreases n
  {
    hide RunTicksAt, IteratesTo, IterationEnv;
    if n == 0 {
      assert BeatScript(n) + rest == rest && BeatTimes(q, n) + ticks == ticks;
    } else {
      var p := q + HEARTBEAT_INTERVAL;
      BeatsThenRun(block, delay, p, n - 1, rest, ticks, f, c);
      PunctualIteration(block, delay, p, q, HEARTBEAT_INTERVAL, false, 0, 0, 0, f, c);
      var env := IterationEnv(HEARTBEAT_INTERVAL, false, 0, 0, 0);
      IterationThenRun(BlockedLoop(block, delay, p, q), env, [p],
                       BlockedLoop(block, delay, p + HEARTBEAT_INTERVAL, p), BeatScript(n - 1) + rest,
                       BeatTimes(p, n - 1) + ticks, f, c);
      assert BeatScript(n) + rest == [env] + (BeatScript(n - 1) + rest);
      assert BeatTimes(q, n) + ticks == [p] + (BeatTimes(p, n - 1) + ticks);
    }
  }

  /** Behind a late pass at `p` that took until `clock`. */
  lemma Afterwards(block: int, delay: int, p: int, clock: int, n: nat, f: nat, c: nat) returns (script: seq<Env>)
    requires p <= clock <= p + 2000 && n < 10 && clock + 5000 < block && clock + 5000 < delay
    ensures var q := Max(p + HEARTBEAT_INTERVAL, clock);
            RunTicksAt(BlockedLoop(block, delay, p + HEARTBEAT_INTERVAL, clock), script, f, c, [q] + BeatTimes(q, n))
  {
    hide RunTicksAt, IteratesTo, IterationEnv;
    var due := p + HEARTBEAT_INTERVAL;
    var q := Max(due, clock);
    EmptyRun(BlockedLoop(block, delay, q + HEARTBEAT_INTERVAL * n + HEARTBEAT_INTERVAL, q + HEARTBEAT_INTERVAL * n),
             f, c);
    BeatsThenRun(block, delay, q, n, [], [], f, c);
    PunctualIteration(block, delay, due, clock, q - clock, false, 0, 0, 0, f, c);
    script := [IterationEnv(q - clock, false, 0, 0, 0)] + (BeatScript(n) + []);
    IterationThenRun(BlockedLoop(block, delay, due, clock), IterationEnv(q - clock, false, 0, 0, 0), [q],
                     BlockedLoop(block, delay, q + HEARTBEAT_INTERVAL, q), BeatScript(n) + [], BeatTimes(q, n) + [],
                     f, c);
    assert BeatTimes(q, n) + [] == BeatTimes(q, n);
  }

  /** `a` of lateness to be had from the socket callback, or `b - 1` from a timer callback a millisecond
      before the deadline; the heartbeat then waits another `b` for a timer callback. */
  lemma LateTick(a: nat, b: nat, f: nat, c: nat) returns (script: seq<Env>)
    requires a <= 1000 && b <= 1000 && a <= f && b <= c
    ensures var p := 1500 + Slack(a, b);
            var q := p + Max(HEARTBEAT_INTERVAL, b);
            RunTicksAt(BlockedLoop(1499, 1500, 1500, 1250), script, f, c, [p + b, q] + BeatTimes(q, 4))
  {
    hide RunTicksAt, IteratesTo, IterationEnv, BeatTimes;
    var p := 1500 + Slack(a, b);
    var q := p + Max(HEARTBEAT_INTERVAL, b);
    var x, z := if a + 1 >= b then 0 else b, if a + 1 >= b then a else 0;
    script := Afterwards(11499, p + 10000, p, p + b, 4, f, c);
    var late, before := IterationEnv(1, true, z, 0, b), IterationEnv(249, false, 0, x, 0);
    PunctualIteration(11499, 1500, 1500, 1499 + x, 1, true, z, 0, b, f, c);
    IterationThenRun(BlockedLoop(11499, 1500, 1500, 1499 + x), late, [p + b],
                     BlockedLoop(11499, p + 10000, p + HEARTBEAT_INTERVAL, p + b),
                     script, [q] + BeatTimes(q, 4), f, c);
    script := [late] + script;
    PunctualIteration(1499, 1500, 1500, 1250, 249, false, 0, x, 0, f, c);
    IterationThenRun(BlockedLoop(1499, 1500, 1500, 1250), before, [], BlockedLoop(11499, 1500, 1500, 1499 + x), script,
                     [p + b] + ([q] + BeatTimes(q, 4)), f, c);
    script := [before] + script;
    assert [] + ([p + b] + ([q] + BeatTimes(q, 4))) == [p + b, q] + BeatTimes(q, 4);
  }

  // --------------------------------------------------------------------- the run itself

  /** A loop whose first five heartbeats come on the dot and whose sixth comes as late as it can (or
      not before 2500), the following ones 250 ms apart. */
  ghost predicate Laggard(h: Host, f: nat, c: nat) {
    OnTheDot(h, 5, f, c) && LateTicks(Ticks(h), f, c)
  }

  predicate LateTicks(ticks: seq<int>, f: nat, c: nat) {
    && |ticks| == 11
    && (ticks[5] >= 2500 || ticks[5] == PROBATION + HEARTBEAT_INTERVAL + Slack(f, c) + c)
    && 1750 <= ticks[6] && ticks[5] <= ticks[6]
    && (forall m :: 6 < m < 11 ==> ticks[m] == ticks[6] + HEARTBEAT_INTERVAL * (m - 6))
  }

  function FiveThen(t: int, q: int): seq<int> {
    [250, 500, 750, 1000, 1250, t, q, q + 250, q + 500, q + 750, q + 1000]
  }

  lemma FiveThenIs(t: int, q: int)
    ensures BeatTimes(0, 5) + ([t, q] + BeatTimes(q, 4)) == FiveThen(t, q)
  {
    assert BeatTimes(q, 4) == [q + 250, q + 500, q + 750, q + 1000] by {
      assert BeatTimes(q + 500, 2) == [q + 750, q + 1000];
    }
    assert BeatTimes(0, 5) == [250, 500, 750, 1000, 1250] by {
      assert BeatTimes(750, 2) == [1000, 1250];
      assert BeatTimes(250, 4) == [500, 750, 1000, 1250];
    }
  }

  lemma FiveThenLate(a: nat, b: nat, f: nat, c: nat)
    requires a == (if f < 1000 then f else 1000) && b == (if c < 1000 then c else 1000)
    ensures var p := 1500 + Slack(a, b); LateTicks(FiveThen(p + b, p + Max(HEARTBEAT_INTERVAL, b)), f, c)
  {
  }

  lemma LaggardExists(f: nat, c: nat) returns (h: Host)
    ensures Laggard(h, f, c)
  {
    hide RunTicksAt, BeatScript, BeatTimes, FiveThen, Slack, Max, BlockedLoop, LateTicks;
    var a, b := if f < 1000 then f else 1000, if c < 1000 then c else 1000;
    var script := LateTick(a, b, f, c);
    var p := 1500 + Slack(a, b);
    var q := p + Max(HEARTBEAT_INTERVAL, b);
    BeatsThenRun(1499, 1500, 0, 5, script, [p + b, q] + BeatTimes(q, 4), f, c);
    FiveThenIs(p + b, q);
    FiveThenLate(a, b, f, c);
    h := LaggardHost(BeatScript(5) + script, f, c, p + b, q);
  }

  lemma LaggardHost(script: seq<Env>, f: nat, c: nat, t: int, q: int) returns (h: Host)
    requires RunTicksAt(BlockedLoop(1499, 1500, 250, 0), script, f, c, FiveThen(t, q))
    ensures OnTheDot(h, 5, f, c) && Ticks(h) == FiveThen(t, q)
  {
    hide AllQuick, Trace, Firings, EnteredTimes;
    h := Loop(BlockedLoop(1499, 1500, 250, 0), script, 2);
    assert Hosted(h, 0, f, c);
    assert Ticks(h) == FiveThen(t, q);
  }

  /** Server 1 is started when server 0 begins to broadcast, and is at rest. */
  function OfPair(h: Host, n: nat): Host {
    if n == 0 then h else Resting(PROBATION, 5)
  }

  function Pair(h: Host): nat -> Host {
    n => OfPair(h, n)
  }

  /** Server 0 broadcasts and has counted `m` heartbeats; server 1 has counted `n` and is not warned;
      what is on the way to it need not arrive before 2500. */
  ghost predicate Duel(h: Host, d: nat, s: System, m: nat, n: nat) {
    && 5 <= m < 11 && n <= 5 && |Ticks(h)| == 11
    && s.live.Keys == {0, 1} && s.live[0].order == 0 && s.live[1].order == 1
    && s.live[0].control.enabled && s.live[0].control.nHeartbeat == m
    && s.live[1].control == Control(false, n, n > 4)
    && s.now <= Ticks(h)[m] && s.now <= PROBATION + HEARTBEAT_INTERVAL * (n + 1)
    && (forall flight <- s.flights :: flight.sentAt + d >= 2500)
  }

  ghost predicate Overtakes(h: Host, d: nat) {
    && |Ticks(h)| == 11
    && (forall m :: 5 <= m < 11 ==> Ticks(h)[m] + d >= 2500)
    && Ticks(h)[10] > 2500
  }

  lemma FirstTicks(h: Host, f: nat, c: nat, d: nat, s: System, m: nat, n: nat) returns (t: System)
    requires Overtakes(h, d) && Duel(h, d, s, m, n) && n < 5 && DrivenTo(Pair(h), f, c, d, s)
    requires m < 10 ==> Ticks(h)[m] <= Ticks(h)[m + 1]
    requires Ticks(h)[m] <= PROBATION + HEARTBEAT_INTERVAL * (n + 1)
    ensures DrivenTo(Pair(h), f, c, d, t) && m < 10 && Duel(h, d, t, m + 1, n)
  {
    hide Ticks, Resting, DrivenTo;
    RestingHosted(PROBATION, 5, f, c);
    DriveOn(Pair(h), f, c, d, s, Wait(Ticks(h)[m]));
    var u := Do(s, Wait(Ticks(h)[m]));
    DriveOn(Pair(h), f, c, d, u, HeartbeatPass(0));
    t := Do(u, HeartbeatPass(0));
  }

  lemma SecondTicks(h: Host, f: nat, c: nat, d: nat, s: System, m: nat, n: nat) returns (t: System)
    requires Duel(h, d, s, m, n) && n < 5 && DrivenTo(Pair(h), f, c, d, s)
    requires PROBATION + HEARTBEAT_INTERVAL * (n + 1) < Ticks(h)[m]
    ensures DrivenTo(Pair(h), f, c, d, t) && Duel(h, d, t, m, n + 1)
  {
    hide Ticks, Resting, DrivenTo;
    RestingHosted(PROBATION, 5, f, c);
    var due := PROBATION + HEARTBEAT_INTERVAL * (n + 1);
    DriveOn(Pair(h), f, c, d, s, Wait(due));
    var u := Do(s, Wait(due));
    DriveOn(Pair(h), f, c, d, u, HeartbeatPass(1));
    var v, flight := Do(u, HeartbeatPass(1)), Flight(1, 0, due);
    assert Broadcast(u, 1) == {flight} by {
      assert flight in Broadcast(u, 1);
    }
    DriveOn(Pair(h), f, c, d, v, Land(flight));
    t := Do(v, Land(flight));
  }

  lemma {:induction false} DuelEnds(h: Host, f: nat, c: nat, d: nat, s: System, m: nat, n: nat) returns (t: System)
    requires Overtakes(h, d) && Duel(h, d, s, m, n) && DrivenTo(Pair(h), f, c, d, s)
    requires forall k :: 5 <= k < 10 ==> Ticks(h)[k] <= Ticks(h)[k + 1]
    ensures DrivenTo(Pair(h), f, c, d, t) && Enabled(t, 0) && Enabled(t, 1)
    decreases 16 - m - n
  {
    hide Ticks, DrivenTo, Overtakes;
    if n == 5 {
      t := s;
    } else if Ticks(h)[m] <= PROBATION + HEARTBEAT_INTERVAL * (n + 1) {
      t := FirstTicks(h, f, c, d, s, m, n);
      t := DuelEnds(h, f, c, d, t, m + 1, n);
    } else {
      t := SecondTicks(h, f, c, d, s, m, n);
      t := DuelEnds(h, f, c, d, t, m, n + 1);
    }
  }

  /** With lateness, callback time and delay of a second in all, a laggard and a server that is started
      when the laggard begins to broadcast end up broadcasting together. */
  lemma Together(f: nat, c: nat, d: nat)
    requires Slack(f, c) + c + d >= 1000
    ensures !Exclusion(f, c, d)
  {
    hide Ticks, Driven, OnTheDot;
    var h := LaggardExists(f, c);
    assert forall m :: 5 <= m < 10 ==> Ticks(h)[m] <= Ticks(h)[m + 1];
    AloneDriven(Pair(h), 5, f, c, d);
    RestingHosted(PROBATION, 5, f, c);
    DriveOn(Pair(h), f, c, d, Alone(5), Start(1));
    var s := DuelEnds(h, f, c, d, Do(Alone(5), Start(1)), 5, 0);
  }

  ghost predicate Exclusion(f: nat, c: nat, d: nat) {
    forall hosts: nat -> Host, s, i, j ::
      DrivenTo(hosts, f, c, d, s) && i != j ==> !(Enabled(s, i) && Enabled(s, j))
  }

  /** Servers of one name that are run by event loops exclude each other, whatever their timers are,
      exactly if the lateness of a pass, the callback time in front of the heartbeat and the delay are
      less than a second together. */
  lemma DeployedExclusionIff(f: nat, c: nat, d: nat)
    ensures Exclusion(f, c, d) <==> Slack(f, c) + c + d < 1000
  {
    hide Driven, Enabled, Slack;
    if Slack(f, c) + c + d < 1000 {
      forall hosts: nat -> Host, s, i, j | DrivenTo(hosts, f, c, d, s) && i != j
        ensures !(Enabled(s, i) && Enabled(s, j))
      {
        var steps :| Driven(hosts, f, c, d, steps) && After(steps) == s;
        DeployedExclusion(hosts, f, c, d, steps, i, j);
      }
    } else {
      Together(f, c, d);
    }
  }
}
