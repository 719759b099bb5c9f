/** The event loop: a timer scheduler interleaved with `poll`.  The clock, the time spent in
    `poll` and in callbacks and their results are supplied as a script, one entry an iteration. */
module EventLoops {
  import opened Options

  const INT_MAX: int := 0x7FFF_FFFF

  datatype Timer = Timer(interval: int, next: int)

  /** How the loop goes on behind a callback, an iteration or a run: it continues, returns because a
      callback said so, or is left by an exception. */
  datatype Status = Continued | Returned | Thrown

  datatype CallbackRun = CallbackRun(duration: nat, status: Status) {
    predicate Ok() {
      status == Continued
    }
  }

  datatype PollResult = Ready(revents: seq<bool>) | Interrupted | Failed

  /** One iteration's environment: time slept in `poll` and its result, and what each socket and
      timer callback would do if it is called. */
  datatype Env = Env(wait: nat, poll: PollResult, sockets: seq<CallbackRun>, timers: seq<CallbackRun>)

  /** A timer pass: the time it compared with, and when each timer's callback was entered. */
  datatype Pass = Pass(time: int, entered: seq<Option<int>>)

  datatype LoopState = LoopState(timers: seq<Timer>, clock: int)

  /** One iteration: the state behind it, how it ended, whether `poll` was called, when each socket's
      callback was entered, and the timer pass, if it came to one. */
  datatype Result = Result(state: LoopState, status: Status, polled: bool, called: seq<Option<int>>, pass: Option<Pass>)

  // -------------------------------------------------------------------- specification

  function Min(a: int, b: int): int {
    if a < b then a else b
  }

  function Max(a: int, b: int): int {
    if a < b then b else a
  }

  /** Time to the next deadline of the first `n` timers, at most INT_MAX. */
  function Timeout(timers: seq<Timer>, n: nat, now: int): (r: int)
    requires n <= |timers|
    ensures r <= INT_MAX && forall i :: 0 <= i < n ==> r <= timers[i].next - now
    ensures r == INT_MAX || exists i :: 0 <= i < n && r == timers[i].next - now
  {
    if n == 0 then INT_MAX else Min(Timeout(timers, n - 1, now), timers[n - 1].next - now)
  }

  /** The conversion of a 64-bit number to the `int` that is returned. */
  function Narrow(v: int): int {
    (v + 0x8000_0000) % 0x1_0000_0000 - 0x8000_0000
  }

  datatype Progress = Progress(flags: seq<bool>, clock: int, status: Status, entered: seq<Option<int>>) {
    predicate Ok() {
      status == Continued
    }
  }

  /** The first `n` sockets: the callbacks of the flagged ones, up to one that fails. */
  function SocketPass(flags: seq<bool>, runs: seq<CallbackRun>, n: nat, clock: int): (r: Progress)
    requires n <= |flags| == |runs|
    ensures |r.flags| == |flags| && |r.entered| == n && r.clock >= clock
  {
    if n == 0 then Progress(flags, clock, Continued, [])
    else
      var p := SocketPass(flags, runs, n - 1, clock);
      if p.Ok() && flags[n - 1] then
        Progress(p.flags[n - 1 := false], p.clock + runs[n - 1].duration, runs[n - 1].status,
                 p.entered + [Some(p.clock)])
      else p.(entered := p.entered + [None])
  }

  lemma SocketPassStep(flags: seq<bool>, runs: seq<CallbackRun>, n: nat, clock: int)
    requires n <= |flags| == |runs|
    ensures SocketPass(flags, runs, 0, clock) == Progress(flags, clock, Continued, [])
    ensures n < |flags| ==>
              var p := SocketPass(flags, runs, n, clock);
              SocketPass(flags, runs, n + 1, clock) ==
              if p.Ok() && flags[n] then
                Progress(p.flags[n := false], p.clock + runs[n].duration, runs[n].status, p.entered + [Some(p.clock)])
              else p.(entered := p.entered + [None])
  {
  }

  /** Where a socket pass is cut short: the first flagged socket whose callback fails. */
  predicate FailsAt(flags: seq<bool>, runs: seq<CallbackRun>, n: nat, k: nat)
    requires n <= |flags| == |runs|
  {
    && k < n && flags[k] && !runs[k].Ok()
    && forall j :: 0 <= j < k && flags[j] ==> runs[j].Ok()
  }

  /** Exactly the flagged sockets up to the first failing one are called, during the pass, and
      exactly their flags are cleared. */
  lemma {:induction false} SocketPassFacts(flags: seq<bool>, runs: seq<CallbackRun>, n: nat, clock: int)
    requires n <= |flags| == |runs|
    ensures var p := SocketPass(flags, runs, n, clock);
            && (forall i :: 0 <= i < n ==> p.flags[i] == (flags[i] && p.entered[i].None?))
            && (forall i :: n <= i < |flags| ==> p.flags[i] == flags[i])
            && (forall i :: 0 <= i < n && p.entered[i].Some? ==> flags[i] && clock <= p.entered[i].value <= p.clock)
            && (p.Ok() <==> forall k :: 0 <= k < n && flags[k] ==> runs[k].Ok())
            && (p.Ok() ==> forall i :: 0 <= i < n ==> p.entered[i].Some? == flags[i])
            && (forall k :: 0 <= k < n && FailsAt(flags, runs, n, k) ==> CutShort(p, flags, runs, n, k))
  {
    hide SocketPass, CutShort;
    SocketPassStep(flags, runs, 0, clock);
    if n == 0 {
    } else {
      SocketPassStep(flags, runs, n - 1, clock);
      SocketPassFacts(flags, runs, n - 1, clock);
      forall k | 0 <= k < n && FailsAt(flags, runs, n, k)
        ensures CutShort(SocketPass(flags, runs, n, clock), flags, runs, n, k)
      {
        CutShortStep(flags, runs, n, clock, k);
      }
    }
  }

  /** Socket `k` was the last to be called, and the loop ends as its callback says. */
  predicate CutShort(p: Progress, flags: seq<bool>, runs: seq<CallbackRun>, n: nat, k: nat)
    requires k < n <= |flags| == |runs| && |p.entered| == n
  {
    p.status == runs[k].status && forall i :: 0 <= i < n ==> p.entered[i].Some? == (flags[i] && i <= k)
  }

  lemma CutShortStep(flags: seq<bool>, runs: seq<CallbackRun>, n: nat, clock: int, k: nat)
    requires k < n <= |flags| == |runs| && FailsAt(flags, runs, n, k)
    requires k < n - 1 && FailsAt(flags, runs, n - 1, k) ==>
               CutShort(SocketPass(flags, runs, n - 1, clock), flags, runs, n - 1, k)
    requires var p := SocketPass(flags, runs, n - 1, clock);
             && (p.Ok() <==> forall j :: 0 <= j < n - 1 && flags[j] ==> runs[j].Ok())
             && (p.Ok() ==> forall i :: 0 <= i < n - 1 ==> p.entered[i].Some? == flags[i])
    ensures CutShort(SocketPass(flags, runs, n, clock), flags, runs, n, k)
  {
    hide SocketPass;
    SocketPassStep(flags, runs, n - 1, clock);
  }

  datatype Firing = Firing(timers: seq<Timer>, clock: int, status: Status, entered: seq<Option<int>>) {
    predicate Ok() {
      status == Continued
    }
  }

  /** The first `n` timers at pass time `t`: those due are set to `t` plus their interval and called,
      up to one that fails. */
  function TimerPass(timers: seq<Timer>, runs: seq<CallbackRun>, n: nat, t: int): (r: Firing)
    requires n <= |timers| == |runs|
    ensures |r.timers| == |timers| && |r.entered| == n && r.clock >= t
    ensures forall i :: n <= i < |timers| ==> r.timers[i] == timers[i]
  {
    if n == 0 then Firing(timers, t, Continued, [])
    else
      var f := TimerPass(timers, runs, n - 1, t);
      var timer := timers[n - 1];
      if f.Ok() && t >= timer.next then
        Firing(f.timers[n - 1 := timer.(next := t + timer.interval)], f.clock + runs[n - 1].duration,
               runs[n - 1].status, f.entered + [Some(f.clock)])
      else f.(entered := f.entered + [None])
  }

  lemma TimerPassStep(timers: seq<Timer>, runs: seq<CallbackRun>, n: nat, t: int)
    requires n <= |timers| == |runs|
    ensures TimerPass(timers, runs, 0, t) == Firing(timers, t, Continued, [])
    ensures n < |timers| ==>
              var f, timer := TimerPass(timers, runs, n, t), timers[n];
              TimerPass(timers, runs, n + 1, t) ==
              if f.Ok() && t >= timer.next then
                Firing(f.timers[n := timer.(next := t + timer.interval)], f.clock + runs[n].duration,
                       runs[n].status, f.entered + [Some(f.clock)])
              else f.(entered := f.entered + [None])
  {
  }

  /** A callback is entered during the pass and only for a due timer; a pass that is not cut short
      serves every due timer and leaves the others alone; one that is ends as a callback says. */
  lemma {:induction false} TimerPassFacts(timers: seq<Timer>, runs: seq<CallbackRun>, n: nat, t: int)
    requires n <= |timers| == |runs|
    ensures var r := TimerPass(timers, runs, n, t);
            && (forall i :: 0 <= i < n && r.entered[i].Some? ==>
                  t >= timers[i].next && t <= r.entered[i].value <= r.clock)
            && (forall i :: 0 <= i < n ==>
                  r.timers[i] == if r.entered[i].Some? then timers[i].(next := t + timers[i].interval) else timers[i])
            && (r.Ok() ==> forall i :: 0 <= i < n ==> r.entered[i].Some? == (t >= timers[i].next))
            && (!r.Ok() ==> exists i :: 0 <= i < n && r.entered[i].Some? && r.status == runs[i].status)
  {
    hide TimerPass;
    TimerPassStep(timers, runs, 0, t);
    if n == 0 {
    } else {
      TimerPassFacts(timers, runs, n - 1, t);
      TimerPassStep(timers, runs, n - 1, t);
    }
  }

  predicate Fits(st: LoopState, env: Env) {
    && |env.timers| == |st.timers|
    && (env.poll.Ready? ==> |env.poll.revents| == |env.sockets|)
  }

  function FireTimers(timers: seq<Timer>, clock: int, polled: bool, called: seq<Option<int>>,
                      runs: seq<CallbackRun>): Result
    requires |runs| == |timers|
  {
    var f := TimerPass(timers, runs, |timers|, clock);
    Result(LoopState(f.timers, f.clock), f.status, polled, called,
           Some(Pass(clock, f.entered)))
  }

  /** One iteration of the loop. */
  function Iterate(st: LoopState, env: Env): (r: Result)
    requires Fits(st, env)
    ensures |r.state.timers| == |st.timers|
  {
    if Narrow(Timeout(st.timers, |st.timers|, st.clock)) > 0 then
      var woken := st.clock + env.wait;
      match env.poll
      case Interrupted => Result(LoopState(st.timers, woken), Continued, true, [], None)
      case Failed => Result(LoopState(st.timers, woken), Thrown, true, [], None)
      case Ready(flags) =>
        var p := SocketPass(flags, env.sockets, |flags|, woken);
        if !p.Ok() then Result(LoopState(st.timers, p.clock), p.status, true, p.entered, None)
        else FireTimers(st.timers, p.clock, true, p.entered, env.timers)
    else FireTimers(st.timers, st.clock, false, [], env.timers)
  }

  // -------------------------------------------------------------------------- the class

  class EventLoop {
    var timers: seq<Timer>
    var revents: seq<bool>
    var clock: int

    constructor (clock: int)
      ensures timers == [] && revents == [] && this.clock == clock
    {
      timers, revents, this.clock := [], [], clock;
    }

    function State(): LoopState
      reads this
    {
      LoopState(timers, clock)
    }

    method RegisterEvent()
      modifies this`revents
      ensures revents == old(revents) + [false]
    {
      revents := revents + [false];
    }

    method RegisterTimer(interval: int)
      modifies this`timers
      ensures timers == old(timers) + [Timer(interval, clock + interval)]
    {
      timers := timers + [Timer(interval, clock + interval)];
    }

    method ComputeTimeout() returns (timeout: int)
      ensures timeout == Narrow(Timeout(timers, |timers|, clock))
    {
      var least := INT_MAX;
      for i := 0 to |timers|
        invariant least == Timeout(timers, i, clock)
      {
        least := Min(least, timers[i].next - clock);
      }
      timeout := Narrow(least);
    }

    /** Which sockets are called, and when, is told by `SocketPassFacts`. */
    method CallSockets(runs: seq<CallbackRun>) returns (status: Status, ghost entered: seq<Option<int>>)
      requires |runs| == |revents|
      modifies this`revents, this`clock
      ensures Progress(revents, clock, status, entered) == SocketPass(old(revents), runs, |runs|, old(clock))
      ensures status == Continued ==> forall i :: 0 <= i < |revents| ==> !revents[i]
    {
      hide SocketPass, FailsAt;
      ghost var flags, start := revents, clock;
      SocketPassStep(flags, runs, 0, start);
      SocketPassFacts(flags, runs, |runs|, start);
      entered := SocketPass(flags, runs, |runs|, start).entered;
      for i := 0 to |revents|
        invariant |revents| == |runs|
        invariant var p := SocketPass(flags, runs, i, start); p.Ok() && p.flags == revents && p.clock == clock
        invariant forall j :: i <= j < |revents| ==> revents[j] == flags[j]
      {
        SocketPassStep(flags, runs, i, start);
        if revents[i] {
          revents := revents[i := false];
          clock := clock + runs[i].duration;
          if !runs[i].Ok() {
            SocketPassStops(flags, runs, i + 1, start);
            return runs[i].status, entered;
          }
        }
      }
      return Continued, entered;
    }

    method CallTimers(runs: seq<CallbackRun>) returns (status: Status, ghost pass: Pass)
      requires |runs| == |timers|
      modifies this`timers, this`clock
      ensures var f := TimerPass(old(timers), runs, |runs|, old(clock));
              timers == f.timers && clock == f.clock && status == f.status && pass == Pass(old(clock), f.entered)
    {
      hide TimerPass;
      var t := clock;
      TimerPassStep(timers, runs, 0, t);
      pass := Pass(t, TimerPass(timers, runs, |timers|, t).entered);
      for i := 0 to |timers|
        invariant |timers| == |runs|
        invariant var f := TimerPass(old(timers), runs, i, t); f.Ok() && timers == f.timers && clock == f.clock
      {
        TimerPassStep(old(timers), runs, i, t);
        if t >= timers[i].next {
          timers := timers[i := timers[i].(next := t + timers[i].interval)];
          clock := clock + runs[i].duration;
          if !runs[i].Ok() {
            TimerPassStops(old(timers), runs, i + 1, t);
            return runs[i].status, pass;
          }
        }
      }
      return Continued, pass;
    }

    method RunOnce(env: Env) returns (status: Status, ghost result: Result)
      requires Fits(State(), env) && |env.sockets| == |revents|
      requires forall i :: 0 <= i < |revents| ==> !revents[i]
      modifies this
      ensures |timers| == old(|timers|) && |revents| == old(|revents|)
      ensures result == Iterate(old(State()), env) && State() == result.state && status == result.status
      ensures status == Continued ==> forall i :: 0 <= i < |revents| ==> !revents[i]
    {
      hide TimerPass, SocketPass;
      result := Iterate(State(), env);
      var timeout := ComputeTimeout();
      if timeout > 0 {
        clock := clock + env.wait;
        if env.poll.Interrupted? {
          return Continued, result;
        }
        if env.poll.Failed? {
          return Thrown, result;
        }
        revents := env.poll.revents;
        var called, _ := CallSockets(env.sockets);
        if called != Continued {
          return called, result;
        }
      }
      var called, _ := CallTimers(env.timers);
      status := called;
    }

    /** The loop over a script; it ends where the source returns or throws, or with the script. */
    method Run(script: seq<Env>) returns (status: Status, ghost results: seq<Result>)
      requires AllFit(|timers|, script) && forall env <- script :: |env.sockets| == |revents|
      requires forall i :: 0 <= i < |revents| ==> !revents[i]
      modifies this
      ensures |timers| == |old(timers)|
      ensures results == Trace(old(State()), script)
      ensures results == [] ==> State() == old(State()) && status == Continued
      ensures results != [] ==> State() == results[|results| - 1].state && status == results[|results| - 1].status
    {
      hide Trace, Iterate;
      results := [];
      TraceStart(State(), script);
      status := Continued;
      for n := 0 to |script|
        invariant |timers| == |old(timers)| && |revents| == |old(revents)|
        invariant forall i :: 0 <= i < |revents| ==> !revents[i]
        invariant AllFit(|timers|, script[n..])
        invariant results + Trace(State(), script[n..]) == Trace(old(State()), script)
        invariant |results| == n && status == Continued
        invariant if n == 0 then State() == old(State())
                  else State() == results[n - 1].state && results[n - 1].status == Continued
      {
        var env := script[n];
        assert env in script;
        TraceStep(State(), script[n..]);
        ghost var sofar, r := results, Iterate(State(), env);
        assert script[n..][1..] == script[n + 1..];
        status, r := RunOnce(env);
        results := sofar + [r];
        if status != Continued {
          assert sofar + [r] == sofar + ([r] + []);
          return;
        }
        assert sofar + ([r] + Trace(r.state, script[n + 1..])) == results + Trace(r.state, script[n + 1..]);
      }
      TraceEnd(State(), script);
    }
  }

  lemma SocketPassStops(flags: seq<bool>, runs: seq<CallbackRun>, n: nat, clock: int)
    requires n <= |flags| == |runs| && !SocketPass(flags, runs, n, clock).Ok()
    ensures var p, q := SocketPass(flags, runs, |flags|, clock), SocketPass(flags, runs, n, clock);
            p.flags == q.flags && p.clock == q.clock && p.status == q.status
    decreases |flags| - n
  {
    if n < |flags| {
      SocketPassStops(flags, runs, n + 1, clock);
    }
  }

  lemma TimerPassStops(timers: seq<Timer>, runs: seq<CallbackRun>, n: nat, t: int)
    requires n <= |timers| == |runs| && !TimerPass(timers, runs, n, t).Ok()
    ensures var f, g := TimerPass(timers, runs, |timers|, t), TimerPass(timers, runs, n, t);
            f.timers == g.timers && f.clock == g.clock && f.status == g.status
    decreases |timers| - n
  {
    if n < |timers| {
      TimerPassStops(timers, runs, n + 1, t);
    }
  }

  // ------------------------------------------------------------------------------ traces

  predicate AllFit(n: nat, script: seq<Env>) {
    forall env <- script :: |env.timers| == n && (env.poll.Ready? ==> |env.poll.revents| == |env.sockets|)
  }

  /** The iterations of a run over a script, up to and including the one that ends it. */
  function Trace(st: LoopState, script: seq<Env>): seq<Result>
    requires AllFit(|st.timers|, script)
    decreases |script|
  {
    if script == [] then []
    else
      assert script[0] in script;
      var r := Iterate(st, script[0]);
      [r] + if r.status == Continued then Trace(r.state, script[1..]) else []
  }

  lemma TraceStart(st: LoopState, script: seq<Env>)
    requires AllFit(|st.timers|, script)
    ensures script[0..] == script && [] + Trace(st, script) == Trace(st, script)
  {
  }

  lemma TraceEnd(st: LoopState, script: seq<Env>)
    requires AllFit(|st.timers|, script)
    ensures forall a: seq<Result> :: a + Trace(st, script[|script|..]) == a
  {
    assert script[|script|..] == [];
  }

  lemma TraceStep(st: LoopState, script: seq<Env>)
    requires AllFit(|st.timers|, script) && script != []
    ensures Fits(st, script[0])
    ensures var r := Iterate(st, script[0]);
            Trace(st, script) == [r] + if r.status == Continued then Trace(r.state, script[1..]) else []
  {
    assert script[0] in script;
  }

  // ------------------------------------------------------------------------- entry times

  /** The time spent in the first `n` callbacks, those that are entered. */
  function TimeIn(runs: seq<CallbackRun>, entered: seq<Option<int>>, n: nat): nat
    requires n <= |entered| <= |runs|
  {
    if n == 0 then 0 else TimeIn(runs, entered, n - 1) + if entered[n - 1].Some? then runs[n - 1].duration else 0
  }

  /** One callback behind the other, the first at `t`, the last over at `end`. */
  predicate BackToBack(runs: seq<CallbackRun>, entered: seq<Option<int>>, t: int, end: int)
    requires |entered| <= |runs|
  {
    && end == t + TimeIn(runs, entered, |entered|)
    && forall i :: 0 <= i < |entered| && entered[i].Some? ==> entered[i].value == t + TimeIn(runs, entered, i)
  }

  lemma {:induction false} TimeInFront(runs: seq<CallbackRun>, entered: seq<Option<int>>, last: Option<int>, n: nat)
    requires n <= |entered| < |runs|
    ensures TimeIn(runs, entered + [last], n) == TimeIn(runs, entered, n)
  {
    if n == 0 {
    } else {
      TimeInFront(runs, entered, last, n - 1);
    }
  }

  lemma BackToBackStep(runs: seq<CallbackRun>, entered: seq<Option<int>>, t: int, end: int)
    requires |entered| < |runs| && BackToBack(runs, entered, t, end)
    ensures BackToBack(runs, entered + [None], t, end)
    ensures BackToBack(runs, entered + [Some(end)], t, end + runs[|entered|].duration)
  {
    forall i, last | 0 <= i <= |entered| ensures TimeIn(runs, entered + [last], i) == TimeIn(runs, entered, i) {
      TimeInFront(runs, entered, last, i);
    }
  }

  lemma {:induction false} SocketTimes(flags: seq<bool>, runs: seq<CallbackRun>, n: nat, clock: int)
    requires n <= |flags| == |runs|
    ensures var p := SocketPass(flags, runs, n, clock); BackToBack(runs, p.entered, clock, p.clock)
  {
    hide SocketPass, BackToBack;
    SocketPassStep(flags, runs, 0, clock);
    if n == 0 {
      NobodyEntered(runs, clock);
    } else {
      SocketTimes(flags, runs, n - 1, clock);
      SocketPassStep(flags, runs, n - 1, clock);
      var p := SocketPass(flags, runs, n - 1, clock);
      BackToBackStep(runs, p.entered, clock, p.clock);
    }
  }

  lemma {:induction false} TimerTimes(timers: seq<Timer>, runs: seq<CallbackRun>, n: nat, t: int)
    requires n <= |timers| == |runs|
    ensures var f := TimerPass(timers, runs, n, t); BackToBack(runs, f.entered, t, f.clock)
  {
    hide TimerPass, BackToBack;
    TimerPassStep(timers, runs, 0, t);
    if n == 0 {
      NobodyEntered(runs, t);
    } else {
      TimerTimes(timers, runs, n - 1, t);
      TimerPassStep(timers, runs, n - 1, t);
      var f := TimerPass(timers, runs, n - 1, t);
      BackToBackStep(runs, f.entered, t, f.clock);
    }
  }

  lemma NobodyEntered(runs: seq<CallbackRun>, t: int)
    ensures BackToBack(runs, [], t, t)
  {
  }

  /** The clock moves by the sleep in `poll` and by the callbacks that are entered, and by nothing else:
      the timers are compared with the time the last socket's callback is over. */
  lemma IterationTimes(st: LoopState, env: Env)
    requires Fits(st, env)
    ensures var r := Iterate(st, env);
            var woken := if r.polled then st.clock + env.wait else st.clock;
            if r.pass.None? then
              if r.called == [] then r.state.clock == woken
              else |r.called| <= |env.sockets| && BackToBack(env.sockets, r.called, woken, r.state.clock)
            else
              && |r.called| <= |env.sockets| && BackToBack(env.sockets, r.called, woken, r.pass.value.time)
              && |r.pass.value.entered| <= |env.timers|
              && BackToBack(env.timers, r.pass.value.entered, r.pass.value.time, r.state.clock)
  {
    hide TimerPass, SocketPass, Timeout, Narrow, BackToBack;
    var woken := st.clock + env.wait;
    NobodyEntered(env.sockets, st.clock);
    if env.poll.Ready? {
      var n := |env.sockets|;
      var p := SocketPass(env.poll.revents, env.sockets, n, woken);
      SocketTimes(env.poll.revents, env.sockets, n, woken);
      TimerTimes(st.timers, env.timers, |st.timers|, p.clock);
      SocketlessTimes(env.sockets, p.entered, woken, p.clock);
    }
    TimerTimes(st.timers, env.timers, |st.timers|, st.clock);
  }

  lemma SocketlessTimes(runs: seq<CallbackRun>, entered: seq<Option<int>>, t: int, end: int)
    requires |entered| <= |runs| && BackToBack(runs, entered, t, end)
    ensures entered == [] ==> end == t
  {
  }

  // ------------------------------------------------------------------ what ends a run

  /** The callbacks entered all let the loop go on, but possibly the last, which decides. */
  predicate Decided(runs: seq<CallbackRun>, entered: seq<Option<int>>, status: Status)
    requires |entered| <= |runs|
  {
    && (forall i :: 0 <= i < |entered| && entered[i].Some? ==> runs[i].status == Continued || runs[i].status == status)
    && (status != Continued ==> exists i :: 0 <= i < |entered| && entered[i].Some? && runs[i].status == status)
  }

  lemma {:induction false} SocketsDecide(flags: seq<bool>, runs: seq<CallbackRun>, n: nat, clock: int)
    requires n <= |flags| == |runs|
    ensures var p := SocketPass(flags, runs, n, clock); Decided(runs, p.entered, p.status)
  {
    hide SocketPass, Decided;
    SocketPassStep(flags, runs, 0, clock);
    if n == 0 {
      NothingDecided(runs);
    } else {
      SocketsDecide(flags, runs, n - 1, clock);
      SocketPassStep(flags, runs, n - 1, clock);
      var p := SocketPass(flags, runs, n - 1, clock);
      DecidedStep(runs, p.entered, p.status, p.clock);
    }
  }

  lemma {:induction false} TimersDecide(timers: seq<Timer>, runs: seq<CallbackRun>, n: nat, t: int)
    requires n <= |timers| == |runs|
    ensures var f := TimerPass(timers, runs, n, t); Decided(runs, f.entered, f.status)
  {
    hide TimerPass, Decided;
    TimerPassStep(timers, runs, 0, t);
    if n == 0 {
      NothingDecided(runs);
    } else {
      TimersDecide(timers, runs, n - 1, t);
      TimerPassStep(timers, runs, n - 1, t);
      var f := TimerPass(timers, runs, n - 1, t);
      DecidedStep(runs, f.entered, f.status, f.clock);
    }
  }

  lemma NothingDecided(runs: seq<CallbackRun>)
    ensures Decided(runs, [], Continued)
  {
  }

  lemma DecidedStep(runs: seq<CallbackRun>, entered: seq<Option<int>>, status: Status, t: int)
    requires |entered| < |runs| && Decided(runs, entered, status)
    ensures Decided(runs, entered + [None], status)
    ensures status == Continued ==> Decided(runs, entered + [Some(t)], runs[|entered|].status)
  {
    var k := |entered|;
    assert forall i :: 0 <= i < k ==> (entered + [None])[i] == (entered + [Some(t)])[i] == entered[i];
    assert (entered + [Some(t)])[k] == Some(t) && (entered + [None])[k] == None;
  }

  /** The timeout in literal numbers: the largest that is no later than any deadline and fits into 31
      bits. */
  lemma TimeoutIsLeast(timers: seq<Timer>, now: int, v: int)
    ensures v <= Timeout(timers, |timers|, now) <==>
            v <= 2147483647 && forall i :: 0 <= i < |timers| ==> now + v <= timers[i].next
  {
  }

  /** The returned `int` agrees with it modulo 2^32, and is it if it fits. */
  lemma NarrowIs(v: int)
    ensures -2147483648 <= Narrow(v) <= 2147483647 && (Narrow(v) - v) % 4294967296 == 0
    ensures -2147483648 <= v <= 2147483647 ==> Narrow(v) == v
  {
  }

  /** `poll` is called exactly if no timer is due (unless one is overdue by more than 24 days). */
  lemma PollsUnlessDue(st: LoopState, env: Env)
    requires Fits(st, env) && forall i :: 0 <= i < |st.timers| ==> st.clock - st.timers[i].next <= 0x8000_0000
    ensures Iterate(st, env).polled <==> forall i :: 0 <= i < |st.timers| ==> st.clock < st.timers[i].next
  {
    hide TimerPass, SocketPass;
  }

  /** An interrupted `poll` ends nothing and calls nothing; a failed one ends the run with an exception;
      otherwise the flagged sockets come first, and the timers behind them, also when `poll` was
      skipped, unless a socket's callback ends the run. */
  lemma PollOutcome(st: LoopState, env: Env)
    requires Fits(st, env)
    ensures var r := Iterate(st, env);
            var woken := st.clock + env.wait;
            if r.polled && env.poll.Interrupted? then
              r.status == Continued && r.state == LoopState(st.timers, woken) && r.called == [] && r.pass == None
            else if r.polled && env.poll.Failed? then
              r.status == Thrown && r.state == LoopState(st.timers, woken) && r.called == [] && r.pass == None
            else if r.polled then
              && |r.called| == |env.sockets|
              && Decided(env.sockets, r.called, if r.pass.None? then r.status else Continued)
              && (forall i :: 0 <= i < |r.called| && r.called[i].Some? ==>
                    env.poll.revents[i] && woken <= r.called[i].value <= r.state.clock)
              && (r.pass.None? <==> exists i :: 0 <= i < |r.called| && env.poll.revents[i] && !env.sockets[i].Ok())
              && (r.pass.Some? ==> forall i :: 0 <= i < |r.called| ==> r.called[i].Some? == env.poll.revents[i])
              && (r.pass.None? ==> r.state.timers == st.timers)
            else r.called == [] && r.pass.Some? && r.pass.value.time == st.clock
    ensures var r := Iterate(st, env);
            r.pass.Some? ==>
              |r.pass.value.entered| == |env.timers| && Decided(env.timers, r.pass.value.entered, r.status)
  {
    hide TimerPass, SocketPass, Timeout, Narrow, Decided, FailsAt, CutShort;
    var woken := st.clock + env.wait;
    if env.poll.Ready? {
      var n := |env.sockets|;
      SocketPassFacts(env.poll.revents, env.sockets, n, woken);
      SocketsDecide(env.poll.revents, env.sockets, n, woken);
      TimersDecide(st.timers, env.timers, |st.timers|, SocketPass(env.poll.revents, env.sockets, n, woken).clock);
    }
    TimersDecide(st.timers, env.timers, |st.timers|, st.clock);
  }

  /** Nothing in the environment ends the loop. */
  predicate Benign(env: Env) {
    !env.poll.Failed? && (forall run <- env.sockets :: run.Ok()) && (forall run <- env.timers :: run.Ok())
  }

  /** A run ends only by a failed `poll` or by a callback. */
  lemma {:induction false} BenignRunsOn(st: LoopState, script: seq<Env>)
    requires AllFit(|st.timers|, script) && forall env <- script :: Benign(env)
    ensures |Trace(st, script)| == |script| && forall r <- Trace(st, script) :: r.status == Continued
    decreases |script|
  {
    hide Iterate, Decided;
    if script == [] {
    } else {
      var env := script[0];
      assert env in script;
      BenignContinues(st, env);
      BenignRunsOn(Iterate(st, env).state, script[1..]);
    }
  }

  lemma BenignContinues(st: LoopState, env: Env)
    requires Fits(st, env) && Benign(env)
    ensures Iterate(st, env).status == Continued
  {
    hide Iterate;
    PollOutcome(st, env);
    assert forall i :: 0 <= i < |env.sockets| ==> env.sockets[i] in env.sockets;
    assert forall i :: 0 <= i < |env.timers| ==> env.timers[i] in env.timers;
  }
}
