/** The servers of one name, each run by its own event loop: the heartbeats of the conflict protocol
    come when, and only when, the loops' traces enter the heartbeat callback. */
module Deployment {
  import opened EventLoops
  import opened LoopTiming
  import opened Options
  import opened NameConflict
  import opened Serving

  // ------------------------------------------------------------------- the heartbeat timer

  function EnteredTimes(entries: seq<Entry>): (r: seq<int>)
    ensures |r| == |entries| && forall k :: 0 <= k < |r| ==> r[k] == entries[k].entered
  {
    seq(|entries|, k requires 0 <= k < |entries| => entries[k].entered)
  }

  lemma {:induction false} NotBeforeFrom(entries: seq<Entry>, start: int, next: int, n: nat, k: nat)
    requires NotBefore(entries, next, HEARTBEAT_INTERVAL) && next >= start + HEARTBEAT_INTERVAL * (n + 1)
    requires k < |entries|
    ensures NotEarly(start, n + k, entries[k].entered) && entries[k].pass <= entries[k].entered
  {
    if k == 0 {
    } else {
      NotBeforeFrom(entries[1..], start, entries[0].pass + HEARTBEAT_INTERVAL, n + 1, k - 1);
    }
  }

  lemma {:induction false} NotAfterFrom(entries: seq<Entry>, next: int, interval: int, slack: nat, c: nat, k: nat)
    requires NotAfter(entries, next, interval, slack, c) && k < |entries|
    ensures entries[k].entered <= (if k == 0 then next else entries[k - 1].pass + interval) + slack + c
  {
    if k == 0 {
    } else {
      NotAfterFrom(entries[1..], entries[0].pass + interval, interval, slack, c, k - 1);
    }
  }

  /** One server's event loop: its timers at the start, the script of its environment, and which of
      its timers is the heartbeat timer. */
  datatype Loop = Loop(st: LoopState, script: seq<Env>, timer: nat)

  type Host = h: Loop | AllFit(|h.st.timers|, h.script) witness Loop(LoopState([], 0), [], 0)

  /** When the heartbeat callback is entered, in order. */
  function Ticks(h: Host): seq<int> {
    EnteredTimes(Firings(Trace(h.st, h.script), h.timer))
  }

  /** How far the clock of the loop gets. */
  function Horizon(h: Host): int {
    EndClock(h.st, Trace(h.st, h.script))
  }

  /** A server started at `start`: its heartbeat timer is set to 250 ms, its loop is quick. */
  predicate Hosted(h: Host, start: int, f: nat, c: nat) {
    && h.timer < |h.st.timers| && h.st.timers[h.timer] == Timer(HEARTBEAT_INTERVAL, start + HEARTBEAT_INTERVAL)
    && OnTime(h.st, c) && AllQuick(h.st, h.script, f, c)
  }

  /** In every run a heartbeat timer is never early, counted from its start. */
  lemma TicksNotEarly(h: Host, start: int, n: nat)
    requires h.timer < |h.st.timers| && h.st.timers[h.timer] == Timer(HEARTBEAT_INTERVAL, start + HEARTBEAT_INTERVAL)
    requires n < |Ticks(h)|
    ensures NotEarly(start, n, Ticks(h)[n])
  {
    hide Firings, Trace, NotBefore;
    NeverEarly(h.st, h.script, h.timer);
    NotBeforeFrom(Firings(Trace(h.st, h.script), h.timer), start, start + HEARTBEAT_INTERVAL, 0, n);
  }

  /** The tick before number `n`, or the start. */
  function TickBefore(h: Host, start: int, n: nat): int
    requires n <= |Ticks(h)|
  {
    if n == 0 then start else Ticks(h)[n - 1]
  }

  /** The time up to which a server waits for its tick number `n`: the tick, or the end of the run. */
  function WaitsUntil(h: Host, n: nat): int {
    if n < |Ticks(h)| then Ticks(h)[n] else Horizon(h)
  }

  /** At any time up to the next tick, and up to the end of the run behind the last one, a server is
      within its period: 250 ms plus the callback times. */
  lemma TicksNotLate(h: Host, start: int, n: nat, f: nat, c: nat)
    requires Hosted(h, start, f, c) && c <= 0x8000_0000
    requires n <= |Ticks(h)|
    ensures NotLate(TickBefore(h, start, n), WaitsUntil(h, n), HEARTBEAT_INTERVAL + Slack(f, c) + c)
  {
    hide Firings, Trace, NotBefore, NotAfter, EndClock, AllQuick, OnTime;
    var entries := Firings(Trace(h.st, h.script), h.timer);
    NeverEarly(h.st, h.script, h.timer);
    NeverLate(h.st, h.script, h.timer, f, c);
    if n > 0 {
      NotBeforeFrom(entries, start, start + HEARTBEAT_INTERVAL, 0, n - 1);
    }
    if n < |entries| {
      NotAfterFrom(entries, start + HEARTBEAT_INTERVAL, HEARTBEAT_INTERVAL, Slack(f, c), c, n);
    }
  }

  // -------------------------------------------------------------- systems driven by loops

  /** What may happen next when the servers are run by the loops `hosts`, numbered in the order of
      their starts: a heartbeat is handled exactly at the time the loop's trace says, and time does
      not pass a live server's next heartbeat, nor the end of its run. */
  predicate Drives(hosts: nat -> Host, f: nat, c: nat, d: nat, s: System, step: Step) {
    match step
    case Start(id) => id !in s.live && Hosted(hosts(s.starts), s.now, f, c)
    case HeartbeatPass(id) =>
      && id in s.live
      && var n, ticks := s.live[id].control.nHeartbeat, Ticks(hosts(s.live[id].order));
         n < |ticks| && ticks[n] == s.now
    case Land(flight) => flight in s.flights
    case Hear(id) => id in s.live
    case Stop(id) => id in s.live
    case Wait(until) =>
      && s.now <= until
      && (forall id <- s.live.Keys :: until <= WaitsUntil(hosts(s.live[id].order), s.live[id].control.nHeartbeat))
      && (forall flight <- s.flights :: until <= flight.sentAt + d)
  }

  predicate Driven(hosts: nat -> Host, f: nat, c: nat, d: nat, steps: seq<Step>) {
    steps != [] ==>
      && Driven(hosts, f, c, d, steps[..|steps| - 1])
      && Drives(hosts, f, c, d, After(steps[..|steps| - 1]), steps[|steps| - 1])
  }

  /** A live server is where its loop's trace is. */
  predicate InStep(hosts: nat -> Host, f: nat, c: nat, n: Node) {
    var h := hosts(n.order);
    && Hosted(h, n.start, f, c)
    && n.control.nHeartbeat <= |Ticks(h)|
    && n.lastTick == TickBefore(h, n.start, n.control.nHeartbeat)
  }

  predicate AllInStep(hosts: nat -> Host, f: nat, c: nat, s: System) {
    forall id <- s.live.Keys :: InStep(hosts, f, c, s.live[id])
  }

  function PeriodOf(f: nat, c: nat): nat {
    HEARTBEAT_INTERVAL + Slack(f, c) + c
  }

  /** What the loops do, the protocol allows, and the servers stay in step with their loops. */
  lemma DrivenStep(hosts: nat -> Host, f: nat, c: nat, d: nat, s: System, step: Step)
    requires AllInStep(hosts, f, c, s) && Drives(hosts, f, c, d, s, step) && c <= 0x8000_0000
    ensures Can(Bounds(PeriodOf(f, c), d), s, step) && AllInStep(hosts, f, c, Do(s, step))
  {
    hide Ticks, Horizon, Hosted;
    match step
    case HeartbeatPass(id) =>
      var n := s.live[id];
      assert InStep(hosts, f, c, n);
      HostedTimer(hosts(n.order), n.start, f, c);
      TicksNotEarly(hosts(n.order), n.start, n.control.nHeartbeat);
    case Wait(until) =>
      forall id <- s.live.Keys ensures NotLate(s.live[id].lastTick, until, PeriodOf(f, c)) {
        var n := s.live[id];
        assert InStep(hosts, f, c, n);
        TicksNotLate(hosts(n.order), n.start, n.control.nHeartbeat, f, c);
      }
    case _ =>
  }

  lemma HostedTimer(h: Host, start: int, f: nat, c: nat)
    requires Hosted(h, start, f, c)
    ensures h.timer < |h.st.timers| && h.st.timers[h.timer] == Timer(HEARTBEAT_INTERVAL, start + HEARTBEAT_INTERVAL)
  {
  }

  /** Every run of servers driven by event loops is a run of the protocol, with the period the loops
      keep. */
  lemma {:induction false} DrivenAllowed(hosts: nat -> Host, f: nat, c: nat, d: nat, steps: seq<Step>)
    requires Driven(hosts, f, c, d, steps) && c <= 0x8000_0000
    ensures Allowed(Bounds(PeriodOf(f, c), d), steps) && AllInStep(hosts, f, c, After(steps))
  {
    hide Drives, InStep, Can, Do;
    if steps == [] {
    } else {
      DrivenAllowed(hosts, f, c, d, steps[..|steps| - 1]);
      DrivenStep(hosts, f, c, d, After(steps[..|steps| - 1]), steps[|steps| - 1]);
    }
  }

  /** Scheduler and protocol together: with at most `f` and `c` of callback time to an iteration and
      heartbeats handled within `d`, no two servers of one name broadcast together as long as the
      lateness of a pass, plus `c`, plus `d` stays below a second. */
  lemma DeployedExclusion(hosts: nat -> Host, f: nat, c: nat, d: nat, steps: seq<Step>, i: nat, j: nat)
    requires Driven(hosts, f, c, d, steps)
    requires Slack(f, c) + c + d < 1000
    ensures i != j ==> !(Enabled(After(steps), i) && Enabled(After(steps), j))
  {
    hide Driven, Allowed, After, Enabled;
    var b := Bounds(PeriodOf(f, c), d);
    DrivenAllowed(hosts, f, c, d, steps);
    assert Reachable(b, After(steps));
    MutualExclusion(b, After(steps), i, j);
  }

  // ------------------------------------------------------- the server's timers, at rest

  /** The loop of a server started at `start`, `10 * j` ms later, when nothing but its three timers
      happens. */
  function AtRest(start: int, j: nat): LoopState {
    LoopState([Timer(10, start + 10 * (j + 1)), Timer(1000, start + 1000 * (j / 100 + 1)),
               Timer(HEARTBEAT_INTERVAL, start + HEARTBEAT_INTERVAL * (j / 25 + 1))], start + 10 * j)
  }

  const INSTANT := CallbackRun(0, Continued)
  const QUIET := Env(10, Ready([false]), [INSTANT], [INSTANT, INSTANT, INSTANT])

  function Quiet(n: nat): (r: seq<Env>)
    ensures |r| == n && AllFit(3, r)
  {
    seq(n, i => QUIET)
  }

  lemma RestTimeout(start: int, j: nat)
    ensures Narrow(Timeout(AtRest(start, j).timers, 3, AtRest(start, j).clock)) == 10
  {
    var timers, now := AtRest(start, j).timers, AtRest(start, j).clock;
    assert Timeout(timers, 1, now) == Min(Timeout(timers, 0, now), timers[0].next - now);
    assert Timeout(timers, 2, now) == Min(Timeout(timers, 1, now), timers[1].next - now);
  }

  lemma {:induction false} InstantPass(timers: seq<Timer>, runs: seq<CallbackRun>, n: nat, t: int)
    requires n <= |timers| == |runs| && forall run <- runs :: run == INSTANT
    ensures TimerPass(timers, runs, n, t).Ok() && TimerPass(timers, runs, n, t).clock == t
  {
    if n == 0 {
    } else {
      InstantPass(timers, runs, n - 1, t);
      assert runs[n - 1] in runs;
    }
  }

  /** Which of the slower timers are due, and when they are due next. */
  lemma RestDue(j: nat)
    ensures var due := (j + 1) % 100 == 0;
            && (10 * (j + 1) >= 1000 * (j / 100 + 1) <==> due)
            && 1000 * ((j + 1) / 100 + 1) == if due then 10 * (j + 1) + 1000 else 1000 * (j / 100 + 1)
    ensures var due := (j + 1) % 25 == 0;
            && (10 * (j + 1) >= 250 * (j / 25 + 1) <==> due)
            && 250 * ((j + 1) / 25 + 1) == if due then 10 * (j + 1) + 250 else 250 * (j / 25 + 1)
  {
  }

  lemma RestPass(start: int, j: nat)
    ensures var t := start + 10 * (j + 1);
            var f := TimerPass(AtRest(start, j).timers, QUIET.timers, 3, t);
            && f.Ok() && LoopState(f.timers, f.clock) == AtRest(start, j + 1)
            && f.entered[2] == if (j + 1) % 25 == 0 then Some(t) else None
  {
    hide TimerPass, AtRest;
    var timers, t := AtRest(start, j).timers, start + 10 * (j + 1);
    RestTimers(start, j);
    RestTimers(start, j + 1);
    InstantPass(timers, QUIET.timers, 3, t);
    TimerPassFacts(timers, QUIET.timers, 3, t);
    RestDue(j);
    assert TimerPass(timers, QUIET.timers, 3, t).timers == AtRest(start, j + 1).timers;
  }

  lemma RestTimers(start: int, j: nat)
    ensures var s := AtRest(start, j);
            && |s.timers| == 3 && s.clock == start + 10 * j
            && s.timers[0] == Timer(10, start + 10 * (j + 1))
            && s.timers[1] == Timer(1000, start + 1000 * (j / 100 + 1))
            && s.timers[2] == Timer(250, start + 250 * (j / 25 + 1))
  {
  }

  /** The heartbeats of `n` iterations at rest. */
  function RestEntries(start: int, j: nat, n: nat): seq<Entry> {
    seq((j + n) / 25 - j / 25, m requires 0 <= m =>
      var t := start + HEARTBEAT_INTERVAL * (j / 25 + 1 + m); Entry(t, t))
  }

  /** One iteration at rest. */
  lemma RestStep(start: int, j: nat, f: nat, c: nat)
    ensures EventLoops.Fits(AtRest(start, j), QUIET) && Quick(AtRest(start, j), QUIET, f, c)
    ensures var r, t := Iterate(AtRest(start, j), QUIET), start + 10 * (j + 1);
            && r.state == AtRest(start, j + 1) && r.status == Continued
            && Firings([r], 2) == if (j + 1) % 25 == 0 then [Entry(t, t)] else []
  {
    hide TimerPass, Timeout;
    RestTimeout(start, j);
    RestPass(start, j);
    var t := start + 10 * (j + 1);
    assert SocketPass([false], [INSTANT], 0, t).clock == t;
    var r := Iterate(AtRest(start, j), QUIET);
    assert Firings([r][1..], 2) == [];
  }

  lemma RestEntriesStep(start: int, j: nat, n: nat)
    requires n > 0
    ensures var t := start + 10 * (j + 1);
            RestEntries(start, j, n) ==
            (if (j + 1) % 25 == 0 then [Entry(t, t)] else []) + RestEntries(start, j + 1, n - 1)
  {
    if (j + 1) % 25 == 0 {
      assert (j + 1) / 25 == j / 25 + 1 && 10 * (j + 1) == 250 * (j / 25 + 1);
    } else {
      assert (j + 1) / 25 == j / 25;
    }
  }

  lemma {:induction false} RestRun(start: int, j: nat, n: nat, f: nat, c: nat)
    ensures AllQuick(AtRest(start, j), Quiet(n), f, c)
    ensures Firings(Trace(AtRest(start, j), Quiet(n)), 2) == RestEntries(start, j, n)
    decreases n
  {
    if n == 0 {
      assert Trace(AtRest(start, j), Quiet(n)) == [];
    } else {
      hide Iterate, Quick, AtRest, Firings, RestEntries, Trace;
      RestStep(start, j, f, c);
      RestRun(start, j + 1, n - 1, f, c);
      assert Quiet(n)[0] == QUIET && Quiet(n)[1..] == Quiet(n - 1);
      TraceStep(AtRest(start, j), Quiet(n));
      FiringsCons(Iterate(AtRest(start, j), QUIET), Trace(AtRest(start, j + 1), Quiet(n - 1)), 2);
      RestEntriesStep(start, j, n);
    }
  }

  /** A server that is at rest for `k` heartbeats. */
  function Resting(start: int, k: nat): Host {
    Loop(AtRest(start, 0), Quiet(25 * k), 2)
  }

  lemma RestingHosted(start: int, k: nat, f: nat, c: nat)
    ensures Hosted(Resting(start, k), start, f, c)
    ensures |Ticks(Resting(start, k))| == k
    ensures forall m :: 0 <= m < k ==> Ticks(Resting(start, k))[m] == start + HEARTBEAT_INTERVAL * (m + 1)
  {
    hide AllQuick, Trace, Firings, Quiet;
    RestRun(start, 0, 25 * k, f, c);
    RestTicks(start, k);
  }

  lemma RestTicks(start: int, k: nat)
    ensures var entries := RestEntries(start, 0, 25 * k);
            |entries| == k && forall m :: 0 <= m < k ==> entries[m].entered == start + HEARTBEAT_INTERVAL * (m + 1)
  {
  }

  // ------------------------------------------------------------------ driven from the start

  ghost predicate DrivenTo(hosts: nat -> Host, f: nat, c: nat, d: nat, s: System) {
    exists steps :: Driven(hosts, f, c, d, steps) && After(steps) == s
  }

  lemma DriveOn(hosts: nat -> Host, f: nat, c: nat, d: nat, s: System, step: Step)
    requires DrivenTo(hosts, f, c, d, s) && Drives(hosts, f, c, d, s, step)
    ensures DrivenTo(hosts, f, c, d, Do(s, step))
  {
    var steps :| Driven(hosts, f, c, d, steps) && After(steps) == s;
    assert (steps + [step])[..|steps|] == steps;
    assert Driven(hosts, f, c, d, steps + [step]) && After(steps + [step]) == Do(s, step);
  }

  lemma NothingDriven(hosts: nat -> Host, f: nat, c: nat, d: nat)
    ensures DrivenTo(hosts, f, c, d, INIT)
  {
    assert Driven(hosts, f, c, d, []) && After([]) == INIT;
  }

  /** The loop is that of a server started at 0 whose first `k` heartbeats come on the dot. */
  predicate OnTheDot(h: Host, k: nat, f: nat, c: nat) {
    Hosted(h, 0, f, c) && k <= |Ticks(h)| && forall m :: 0 <= m < k ==> Ticks(h)[m] == HEARTBEAT_INTERVAL * (m + 1)
  }

  /** A server is driven through its heartbeats, and from the fifth on it broadcasts. */
  lemma {:induction false} AloneDriven(hosts: nat -> Host, k: nat, f: nat, c: nat, d: nat)
    requires OnTheDot(hosts(0), k, f, c)
    ensures DrivenTo(hosts, f, c, d, Alone(k))
    ensures Enabled(Alone(k), 0) <==> k > 4
  {
    hide Ticks, Hosted, Driven;
    if k == 0 {
      NothingDriven(hosts, f, c, d);
      DriveOn(hosts, f, c, d, INIT, Start(0));
    } else {
      AloneDriven(hosts, k - 1, f, c, d);
      var s := Alone(k - 1);
      DriveOn(hosts, f, c, d, s, Wait(250 * k));
      var t := Do(s, Wait(250 * k));
      assert Broadcast(t, 0) == {};
      DriveOn(hosts, f, c, d, t, HeartbeatPass(0));
      assert Do(t, HeartbeatPass(0)).live == Alone(k).live;
    }
  }

  /** The server program left to itself does run: its three timers drive it through any number of
      heartbeats, and from the fifth on it broadcasts. */
  lemma ServerRuns(k: nat, f: nat, c: nat, d: nat)
    ensures DrivenTo(n => Resting(0, k), f, c, d, Alone(k))
    ensures Enabled(Alone(k), 0) <==> k > 4
  {
    hide *;
    RestingOnTheDot(k, f, c);
    AloneDriven(n => Resting(0, k), k, f, c, d);
  }

  lemma RestingOnTheDot(k: nat, f: nat, c: nat)
    ensures OnTheDot(Resting(0, k), k, f, c)
  {
    hide Ticks, Hosted, Resting;
    RestingHosted(0, k, f, c);
  }
}
