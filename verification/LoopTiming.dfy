/** What the scheduler guarantees over every run: sockets are not starved, no timer is ever early,
    and none is late by more than the callbacks take if `poll` is punctual. */
module LoopTiming {
  import opened EventLoops

  // -------------------------------------------------------------------------- firings

  datatype Entry = Entry(pass: int, entered: int)

  /** The passes in which timer `i` fires, with the times its callback is entered. */
  function Firings(results: seq<Result>, i: nat): seq<Entry> {
    if results == [] then []
    else
      var p := results[0].pass;
      (if p.Some? && i < |p.value.entered| && p.value.entered[i].Some?
       then [Entry(p.value.time, p.value.entered[i].value)] else []) + Firings(results[1..], i)
  }

  lemma FiringsCons(r: Result, rest: seq<Result>, i: nat)
    ensures Firings([r] + rest, i) == Firings([r], i) + Firings(rest, i)
  {
    assert ([r] + rest)[1..] == rest && [r][1..] == [];
  }

  /** At most one firing, not before the deadline. */
  predicate FiresOnce(head: seq<Entry>, timer: Timer) {
    |head| <= 1 && (head != [] ==> timer.next <= head[0].pass <= head[0].entered)
  }

  /** The timer behind an iteration in which it fired as `head` says. */
  function Rescheduled(head: seq<Entry>, timer: Timer): Timer {
    if head == [] then timer else timer.(next := head[0].pass + timer.interval)
  }

  /** What one iteration does to timer `i`, whatever happens in it. */
  lemma IterationFirings(st: LoopState, env: Env, i: nat)
    requires EventLoops.Fits(st, env) && i < |st.timers|
    ensures var r := Iterate(st, env);
            var head := Firings([r], i);
            && FiresOnce(head, st.timers[i])
            && (head != [] ==> r.pass.Some? && head[0].pass == r.pass.value.time && head[0].entered <= r.state.clock)
            && (r.status == Continued ==> r.state.timers[i] == Rescheduled(head, st.timers[i]))
  {
    hide TimerPass, SocketPass, Timeout;
    var r := Iterate(st, env);
    assert Firings([r][1..], i) == [];
    if r.pass.Some? {
      TimerPassFacts(st.timers, env.timers, |st.timers|, r.pass.value.time);
    }
  }

  // ------------------------------------------------------------------ no starvation

  /** Every iteration of the run skips `poll`. */
  predicate Skipping(st: LoopState, script: seq<Env>)
    requires AllFit(|st.timers|, script)
  {
    forall r <- Trace(st, script) :: !r.polled
  }

  /** The cost of the first `n` timers that are not marked. */
  function Unspent(cost: seq<nat>, spent: seq<bool>, n: nat): nat
    requires n <= |cost| == |spent|
  {
    if n == 0 then 0 else Unspent(cost, spent, n - 1) + if spent[n - 1] then 0 else cost[n - 1]
  }

  function Unmarked(spent: seq<bool>, n: nat): nat
    requires n <= |spent|
  {
    if n == 0 then 0 else Unmarked(spent, n - 1) + if spent[n - 1] then 0 else 1
  }

  function MarkDue(timers: seq<Timer>, spent: seq<bool>, t: int): (r: seq<bool>)
    requires |timers| == |spent|
    ensures |r| == |spent| && forall i :: 0 <= i < |r| ==> r[i] == (spent[i] || t >= timers[i].next)
  {
    seq(|spent|, i requires 0 <= i < |spent| => spent[i] || t >= timers[i].next)
  }

  /** A pass takes at most the cost of the timers it marks. */
  lemma {:induction false} PassCost(timers: seq<Timer>, runs: seq<CallbackRun>, cost: seq<nat>, spent: seq<bool>,
                                    n: nat, t: int)
    requires n <= |timers| == |runs| == |cost| == |spent|
    requires forall i :: 0 <= i < |cost| ==> runs[i].duration <= cost[i]
    requires forall i :: 0 <= i < |cost| ==> spent[i] ==> t < timers[i].next
    ensures TimerPass(timers, runs, n, t).clock + Unspent(cost, MarkDue(timers, spent, t), n)
            <= t + Unspent(cost, spent, n)
    ensures Unmarked(MarkDue(timers, spent, t), n) <= Unmarked(spent, n)
    ensures (exists i :: 0 <= i < n && t >= timers[i].next) ==>
              Unmarked(MarkDue(timers, spent, t), n) < Unmarked(spent, n)
  {
    if n == 0 {
    } else {
      PassCost(timers, runs, cost, spent, n - 1, t);
    }
  }

  lemma NarrowPositive(v: int)
    requires v <= INT_MAX && Narrow(v) <= 0
    ensures v <= 0
  {
  }

  lemma {:induction false} StretchBound(st: LoopState, script: seq<Env>, cost: seq<nat>, spent: seq<bool>)
    requires AllFit(|st.timers|, script) && Skipping(st, script)
    requires |cost| == |spent| == |st.timers|
    requires forall env <- script :: forall i :: 0 <= i < |cost| ==> env.timers[i].duration <= cost[i]
    requires forall i :: 0 <= i < |cost| ==> Unspent(cost, spent, |cost|) < st.timers[i].interval
    requires forall i :: 0 <= i < |cost| ==> spent[i] ==> st.clock + Unspent(cost, spent, |cost|) < st.timers[i].next
    ensures |Trace(st, script)| <= Unmarked(spent, |cost|)
    ensures forall i :: 0 <= i < |cost| ==> |Firings(Trace(st, script), i)| <= if spent[i] then 0 else 1
    decreases |script|
  {
    if script == [] {
      assert Trace(st, script) == [];
    } else {
      hide Trace, Skipping, AllFit, Iterate, TimerPass;
      var env, n, t := script[0], |cost|, st.clock;
      assert env in script;
      TraceStep(st, script);
      SkipStep(st, script);
      TimerPassFacts(st.timers, env.timers, n, t);
      PassCost(st.timers, env.timers, cost, spent, n, t);
      var r, marked := Iterate(st, env), MarkDue(st.timers, spent, t);
      var rest := if r.status == Continued then Trace(r.state, script[1..]) else [];
      if r.status == Continued {
        StretchBound(r.state, script[1..], cost, marked);
      }
      forall i | 0 <= i < n ensures |Firings(Trace(st, script), i)| <= if spent[i] then 0 else 1 {
        IterationFirings(st, env, i);
        FiringsCons(r, rest, i);
      }
    }
  }

  /** An iteration that skips `poll` is a timer pass with something due. */
  lemma SkipStep(st: LoopState, script: seq<Env>)
    requires AllFit(|st.timers|, script) && Skipping(st, script) && script != []
    ensures EventLoops.Fits(st, script[0]) && AllFit(|st.timers|, script[1..])
    ensures var r := Iterate(st, script[0]);
            var f := TimerPass(st.timers, script[0].timers, |st.timers|, st.clock);
            && r.state == LoopState(f.timers, f.clock) && r.pass.Some? && r.pass.value.time == st.clock
            && (r.status == Continued ==> f.Ok() && Skipping(r.state, script[1..]))
    ensures exists i :: 0 <= i < |st.timers| && st.clock >= st.timers[i].next
  {
    var env := script[0];
    assert env in script;
    TraceStep(st, script);
    var r := Iterate(st, env);
    var rest := if r.status == Continued then Trace(r.state, script[1..]) else [];
    assert Trace(st, script)[0] == r && Trace(st, script)[1..] == rest;
    assert r in Trace(st, script);
    assert forall q <- rest :: q in Trace(st, script);
    NarrowPositive(Timeout(st.timers, |st.timers|, st.clock));
  }

  predicate FiresSome(r: Result) {
    r.pass.Some? && exists i :: 0 <= i < |r.pass.value.entered| && r.pass.value.entered[i].Some?
  }

  /** An iteration skips `poll` only to fire a timer. */
  lemma {:induction false} SkipFires(st: LoopState, script: seq<Env>)
    requires AllFit(|st.timers|, script) && Skipping(st, script)
    ensures forall r <- Trace(st, script) :: FiresSome(r)
    decreases |script|
  {
    if script == [] {
    } else {
      hide Iterate, Skipping, TimerPass, FiresSome, Trace;
      TraceStep(st, script);
      SkipStep(st, script);
      FirstFires(st, script[0]);
      var r := Iterate(st, script[0]);
      if r.status == Continued {
        SkipFires(r.state, script[1..]);
      }
    }
  }

  lemma FirstFires(st: LoopState, env: Env)
    requires EventLoops.Fits(st, env) && !Iterate(st, env).polled
    requires exists i :: 0 <= i < |st.timers| && st.clock >= st.timers[i].next
    ensures FiresSome(Iterate(st, env))
  {
    hide TimerPass, Timeout, SocketPass;
    TimerPassFacts(st.timers, env.timers, |st.timers|, st.clock);
    var i :| 0 <= i < |st.timers| && st.clock >= st.timers[i].next;
    var f := TimerPass(st.timers, env.timers, |st.timers|, st.clock);
    assert f.Ok() ==> f.entered[i].Some?;
  }

  lemma {:induction false} NothingMarked(spent: seq<bool>, n: nat)
    requires n <= |spent|
    ensures Unmarked(spent, n) <= n
  {
    if n == 0 {
    } else {
      NothingMarked(spent, n - 1);
    }
  }

  /** When time passes only in `poll` and in callbacks, and the timers' callbacks together take less
      than the smallest interval, no more iterations in a row than there are timers skip `poll`,
      whether the loop goes on behind the last of them or not; each of them fires a timer, and no timer
      fires twice in them. */
  lemma NoStarvation(st: LoopState, script: seq<Env>, cost: seq<nat>)
    requires AllFit(|st.timers|, script) && Skipping(st, script)
    requires |cost| == |st.timers|
    requires forall env <- script :: forall i :: 0 <= i < |cost| ==> env.timers[i].duration <= cost[i]
    requires var total := Unspent(cost, seq(|cost|, i => false), |cost|);
             forall i :: 0 <= i < |cost| ==> total < st.timers[i].interval
    ensures |Trace(st, script)| <= |st.timers|
    ensures forall i :: 0 <= i < |st.timers| ==> |Firings(Trace(st, script), i)| <= 1
    ensures forall r <- Trace(st, script) :: FiresSome(r)
  {
    var none := seq(|cost|, i => false);
    StretchBound(st, script, cost, none);
    SkipFires(st, script);
    NothingMarked(none, |cost|);
  }

  // ------------------------------------------------------- never early, in any run

  /** No deadline is further away than the timer's interval. */
  predicate Ahead(st: LoopState) {
    forall i :: 0 <= i < |st.timers| ==>
      st.timers[i].interval > 0 && st.timers[i].next <= st.clock + st.timers[i].interval
  }

  /** Behind each pass every deadline lies ahead, at most one interval away, however long `poll`
      slept and callbacks took. */
  lemma PassLooksAhead(st: LoopState, env: Env)
    requires EventLoops.Fits(st, env) && Ahead(st)
    ensures var r := Iterate(st, env);
            && (r.status == Continued ==> Ahead(r.state))
            && (r.status == Continued && r.pass.Some? ==> forall i :: 0 <= i < |st.timers| ==>
                  && r.state.timers[i].interval == st.timers[i].interval
                  && r.pass.value.time < r.state.timers[i].next <= r.pass.value.time + st.timers[i].interval)
  {
    hide TimerPass, SocketPass, Timeout;
    var r := Iterate(st, env);
    if r.pass.Some? {
      TimerPassFacts(st.timers, env.timers, |st.timers|, r.pass.value.time);
    }
  }

  /** Consecutive firings from the deadline `next` on, none before its deadline, the next deadline an
      interval behind the pass. */
  predicate NotBefore(entries: seq<Entry>, next: int, interval: int) {
    entries != [] ==>
      && next <= entries[0].pass <= entries[0].entered
      && NotBefore(entries[1..], entries[0].pass + interval, interval)
  }

  lemma NotBeforeStep(head: seq<Entry>, rest: seq<Entry>, timer: Timer)
    requires FiresOnce(head, timer) && NotBefore(rest, Rescheduled(head, timer).next, timer.interval)
    ensures NotBefore(head + rest, timer.next, timer.interval)
  {
    if head == [] {
      assert head + rest == rest;
    } else {
      assert (head + rest)[1..] == rest;
    }
  }

  lemma NotBeforeNothing(i: nat, next: int, interval: int)
    ensures Firings([], i) == [] && NotBefore([], next, interval)
  {
  }

  /** In every run, whatever `poll` and the callbacks do, no timer fires before its deadline. */
  lemma {:induction false} NeverEarly(st: LoopState, script: seq<Env>, i: nat)
    requires AllFit(|st.timers|, script) && i < |st.timers|
    ensures NotBefore(Firings(Trace(st, script), i), st.timers[i].next, st.timers[i].interval)
    decreases |script|
  {
    var timer := st.timers[i];
    if script == [] {
      assert Trace(st, script) == [];
    } else {
      hide *;
      TraceStep(st, script);
      var r := Iterate(st, script[0]);
      IterationFirings(st, script[0], i);
      var head, tail := Firings([r], i), if r.status == Continued then Trace(r.state, script[1..]) else [];
      FiringsCons(r, tail, i);
      RescheduledInterval(head, timer);
      if r.status == Continued {
        FitTail(|st.timers|, script);
        NeverEarly(r.state, script[1..], i);
      } else {
        NotBeforeNothing(i, Rescheduled(head, timer).next, timer.interval);
      }
      NotBeforeStep(head, Firings(tail, i), timer);
    }
  }

  lemma FitTail(n: nat, script: seq<Env>)
    requires AllFit(n, script) && script != []
    ensures AllFit(n, script[1..])
  {
  }

  lemma RescheduledInterval(head: seq<Entry>, timer: Timer)
    ensures Rescheduled(head, timer).interval == timer.interval
  {
  }

  /** Consecutive passes of a timer are an interval apart at least. */
  lemma {:induction false} PeriodAtLeast(entries: seq<Entry>, next: int, interval: int, k: nat)
    requires NotBefore(entries, next, interval) && k + 1 < |entries|
    ensures entries[k + 1].pass - entries[k].pass >= interval
  {
    if k == 0 {
    } else {
      PeriodAtLeast(entries[1..], entries[0].pass + interval, interval, k - 1);
    }
  }

  // ------------------------------------------------ never late, if `poll` is punctual

  /** One iteration's environment: at most `f` in socket callbacks and `c` in timer callbacks, and
      `poll` does not sleep longer than it was asked to. */
  predicate Quick(st: LoopState, env: Env, f: nat, c: nat)
    requires EventLoops.Fits(st, env)
  {
    var timeout := Narrow(Timeout(st.timers, |st.timers|, st.clock));
    var r := Iterate(st, env);
    && (timeout > 0 ==> env.wait <= timeout)
    && (timeout > 0 && env.poll.Ready? ==>
          SocketPass(env.poll.revents, env.sockets, |env.sockets|, st.clock + env.wait).clock
            <= st.clock + env.wait + f)
    && (r.pass.Some? ==> r.state.clock <= r.pass.value.time + c)
  }

  predicate AllQuick(st: LoopState, script: seq<Env>, f: nat, c: nat)
    requires AllFit(|st.timers|, script)
    decreases |script|
  {
    script == [] ||
    (assert script[0] in script;
     Quick(st, script[0], f, c) &&
     (Iterate(st, script[0]).status == Continued ==>
        AllQuick(Iterate(st, script[0]).state, script[1..], f, c)))
  }

  lemma QuickStep(st: LoopState, script: seq<Env>, f: nat, c: nat)
    requires AllFit(|st.timers|, script) && AllQuick(st, script, f, c) && script != []
    ensures EventLoops.Fits(st, script[0]) && Quick(st, script[0], f, c)
    ensures AllFit(|st.timers|, script[1..])
    ensures var r := Iterate(st, script[0]); r.status == Continued ==> AllQuick(r.state, script[1..], f, c)
  {
    assert script[0] in script;
  }

  /** How late a pass can be: a deadline falls due as `poll` returns and the sockets come first, or it
      falls due in the first millisecond of a timer pass. */
  function Slack(f: nat, c: nat): (r: nat)
    ensures r >= f && r + 1 >= c && (r == f || r + 1 == c)
  {
    Max(f, c - 1)
  }

  /** No deadline is overdue by more than one timer pass, none is further away than its interval. */
  predicate OnTime(st: LoopState, c: nat) {
    Ahead(st) && forall i :: 0 <= i < |st.timers| ==> st.clock <= st.timers[i].next + Slack(0, c)
  }

  /** Each pass comes at most `Slack(f, c)` after any deadline; an iteration is over at most `c` later,
      whether it comes to a pass or not. */
  lemma PassInTime(st: LoopState, env: Env, f: nat, c: nat)
    requires EventLoops.Fits(st, env) && OnTime(st, c) && Quick(st, env, f, c) && c <= 0x8000_0000
    ensures var r := Iterate(st, env);
            && (r.status == Continued ==> OnTime(r.state, c))
            && (forall i :: 0 <= i < |st.timers| ==> r.state.clock <= st.timers[i].next + Slack(f, c) + c)
            && (r.pass.Some? ==>
                  && r.state.clock <= r.pass.value.time + c
                  && forall i :: 0 <= i < |st.timers| ==> r.pass.value.time <= st.timers[i].next + Slack(f, c))
  {
    hide TimerPass, SocketPass, Timeout;
    var n := |st.timers|;
    var timeout := Timeout(st.timers, n, st.clock);
    assert timeout == INT_MAX || timeout >= -0x8000_0000;
    assert Narrow(timeout) == timeout;
    var r := Iterate(st, env);
    PassLooksAhead(st, env);
    if r.pass.Some? {
      TimerPassFacts(st.timers, env.timers, n, r.pass.value.time);
    }
  }

  /** What one quick iteration does to timer `i`. */
  predicate FiresInTime(head: seq<Entry>, timer: Timer, slack: nat, c: nat) {
    head != [] ==> head[0].pass <= timer.next + slack && head[0].entered <= head[0].pass + c
  }

  lemma QuickFirings(st: LoopState, env: Env, i: nat, f: nat, c: nat)
    requires EventLoops.Fits(st, env) && OnTime(st, c) && Quick(st, env, f, c) && c <= 0x8000_0000
    requires i < |st.timers|
    ensures var r := Iterate(st, env);
            && FiresInTime(Firings([r], i), st.timers[i], Slack(f, c), c)
            && r.state.clock <= Rescheduled(Firings([r], i), st.timers[i]).next + Slack(f, c) + c
            && (r.status == Continued ==> OnTime(r.state, c))
  {
    hide Quick, Iterate, Firings;
    PassInTime(st, env, f, c);
    IterationFirings(st, env, i);
  }

  /** Consecutive firings from the deadline `next` on, each pass at most `slack` behind its deadline,
      the callback entered at most `c` behind the pass. */
  predicate NotAfter(entries: seq<Entry>, next: int, interval: int, slack: nat, c: nat) {
    entries != [] ==>
      && entries[0].pass <= next + slack && entries[0].entered <= entries[0].pass + c
      && NotAfter(entries[1..], entries[0].pass + interval, interval, slack, c)
  }

  lemma NotAfterStep(head: seq<Entry>, rest: seq<Entry>, timer: Timer, slack: nat, c: nat)
    requires |head| <= 1 && FiresInTime(head, timer, slack, c)
    requires NotAfter(rest, Rescheduled(head, timer).next, timer.interval, slack, c)
    ensures NotAfter(head + rest, timer.next, timer.interval, slack, c)
  {
    if head == [] {
      assert head + rest == rest;
    } else {
      assert (head + rest)[1..] == rest;
    }
  }

  /** The deadline a timer is left with behind the firings `entries`. */
  function Pending(entries: seq<Entry>, timer: Timer): int {
    if entries == [] then timer.next else entries[|entries| - 1].pass + timer.interval
  }

  lemma PendingStep(head: seq<Entry>, rest: seq<Entry>, timer: Timer)
    requires |head| <= 1
    ensures Pending(head + rest, timer) == Pending(rest, Rescheduled(head, timer))
  {
    if rest == [] {
      assert head + rest == head;
    }
  }

  /** The clock at the end of a run. */
  function EndClock(st: LoopState, results: seq<Result>): int {
    if results == [] then st.clock else results[|results| - 1].state.clock
  }

  /** The end of a run: no deadline is missed by more than the callback bounds, not even the one that
      is left pending, however the run ends. */
  predicate EndsInTime(st: LoopState, results: seq<Result>, timer: Timer, i: nat, late: nat) {
    EndClock(st, results) <= Pending(Firings(results, i), timer) + late
  }

  lemma EndsStep(st: LoopState, r: Result, rest: seq<Result>, timer: Timer, i: nat, late: nat)
    requires |Firings([r], i)| <= 1
    requires EndsInTime(r.state, rest, Rescheduled(Firings([r], i), timer), i, late)
    ensures EndsInTime(st, [r] + rest, timer, i, late)
  {
    FiringsCons(r, rest, i);
    PendingStep(Firings([r], i), Firings(rest, i), timer);
  }

  lemma EndsNow(st: LoopState, timer: Timer, i: nat, late: nat)
    requires st.clock <= timer.next + late
    ensures EndsInTime(st, [], timer, i, late) && Firings([], i) == []
  {
  }

  lemma NotAfterNothing(next: int, interval: int, slack: nat, c: nat)
    ensures NotAfter([], next, interval, slack, c)
  {
  }

  /** How late a run can leave a timer's deadline: by one pass while it goes on, by more when it ends. */
  function Late(results: seq<Result>, f: nat, c: nat): nat {
    if results == [] || results[|results| - 1].status == Continued then Slack(0, c) else Slack(f, c) + c
  }

  lemma LateStep(r: Result, rest: seq<Result>, f: nat, c: nat)
    ensures rest == [] ==> Late([r] + rest, f, c) == if r.status == Continued then Late(rest, f, c) else Slack(f, c) + c
    ensures rest != [] ==> Late([r] + rest, f, c) == Late(rest, f, c)
  {
  }

  /** In every run with a punctual `poll` each firing comes at most `Slack(f, c)` behind its deadline,
      and no deadline is left without its firing for longer. */
  lemma {:induction false} NeverLate(st: LoopState, script: seq<Env>, i: nat, f: nat, c: nat)
    requires AllFit(|st.timers|, script) && OnTime(st, c) && AllQuick(st, script, f, c) && c <= 0x8000_0000
    requires i < |st.timers|
    ensures NotAfter(Firings(Trace(st, script), i), st.timers[i].next, st.timers[i].interval, Slack(f, c), c)
    ensures EndsInTime(st, Trace(st, script), st.timers[i], i, Late(Trace(st, script), f, c))
    decreases |script|
  {
    var timer, slack := st.timers[i], Slack(f, c);
    if script == [] {
      assert Trace(st, script) == [];
      EndsNow(st, timer, i, Slack(0, c));
      NotAfterNothing(timer.next, timer.interval, slack, c);
    } else {
      hide *;
      var env := script[0];
      TraceStep(st, script);
      QuickStep(st, script, f, c);
      var r := Iterate(st, env);
      IterationFirings(st, env, i);
      QuickFirings(st, env, i, f, c);
      var head, tail := Firings([r], i), if r.status == Continued then Trace(r.state, script[1..]) else [];
      if r.status == Continued {
        NeverLate(r.state, script[1..], i, f, c);
      } else {
        EndsNow(r.state, Rescheduled(head, timer), i, slack + c);
        NotAfterNothing(Rescheduled(head, timer).next, timer.interval, slack, c);
      }
      FiringsCons(r, tail, i);
      RescheduledInterval(head, timer);
      LateStep(r, tail, f, c);
      NotAfterStep(head, Firings(tail, i), timer, slack, c);
      EndsStep(st, r, tail, timer, i, if r.status == Continued then Late(tail, f, c) else slack + c);
    }
  }

  /** Consecutive passes of a timer are at most `slack` more than an interval apart. */
  lemma {:induction false} PeriodAtMost(entries: seq<Entry>, next: int, interval: int, slack: nat, c: nat, k: nat)
    requires NotAfter(entries, next, interval, slack, c) && k + 1 < |entries|
    ensures entries[k + 1].pass - entries[k].pass <= interval + slack
  {
    if k == 0 {
    } else {
      PeriodAtMost(entries[1..], entries[0].pass + interval, interval, slack, c, k - 1);
    }
  }

  /** Consecutive passes of a timer are at least an interval apart in every run, and at most
      `Slack(f, c)` more than an interval if `poll` is punctual. */
  lemma PeriodBounds(st: LoopState, script: seq<Env>, i: nat, k: nat)
    requires AllFit(|st.timers|, script) && i < |st.timers|
    requires k + 1 < |Firings(Trace(st, script), i)|
    ensures var passes, interval := Firings(Trace(st, script), i), st.timers[i].interval;
            && passes[k].pass + interval <= passes[k + 1].pass
            && forall f: nat, c: nat :: OnTime(st, c) && AllQuick(st, script, f, c) && c <= 0x8000_0000 ==>
                 passes[k + 1].pass <= passes[k].pass + interval + Slack(f, c)
  {
    hide Trace, Firings, NotBefore, NotAfter, AllQuick, OnTime, AllFit;
    var passes, timer := Firings(Trace(st, script), i), st.timers[i];
    NeverEarly(st, script, i);
    PeriodAtLeast(passes, timer.next, timer.interval, k);
    forall f: nat, c: nat | OnTime(st, c) && AllQuick(st, script, f, c) && c <= 0x8000_0000
      ensures passes[k + 1].pass <= passes[k].pass + timer.interval + Slack(f, c)
    {
      NeverLate(st, script, i, f, c);
      PeriodAtMost(passes, timer.next, timer.interval, Slack(f, c), c, k);
    }
  }
}
