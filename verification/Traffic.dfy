/** The device guarantees, carried over to runs of the machine. */
module Traffic {
  import opened Defs
  import opened Devices
  import opened Bus
  import opened Cpu
  import opened Safety
  import I = InputPort
  import O = OutputPort
  import T = Timer

  /** Number of cycles a run executes before it stops or its environment ends. */
  function Cycles(m: Machine, strict: bool, envs: seq<Env>): nat
    decreases |envs|
  {
    if envs == [] || m.exec != RUNNING then 0 else 1 + Cycles(Step(m, strict, envs[0]), strict, envs[1..])
  }

  function InputTrace(m: Machine, strict: bool, envs: seq<Env>): seq<I.InputEvent> { InputEvents(RunEvents(m, strict, envs)) }

  function OutputTrace(m: Machine, strict: bool, envs: seq<Env>): seq<O.OutputEvent> { OutputEvents(RunEvents(m, strict, envs)) }

  function TimerTrace(m: Machine, strict: bool, envs: seq<Env>): seq<T.TimerEvent> { TimerEvents(RunEvents(m, strict, envs)) }

  lemma {:induction false} EventsAppend(a: seq<DeviceEvent>, b: seq<DeviceEvent>)
    ensures OutputEvents(a + b) == OutputEvents(a) + OutputEvents(b)
    ensures TimerEvents(a + b) == TimerEvents(a) + TimerEvents(b)
    decreases |a|
  {
    hide OutputOf, TimerOf;
    if a == [] {
      assert a + b == b;
    } else {
      var rest := a[1..];
      assert (a + b)[1..] == rest + b && (a + b)[0] == a[0];
      EventsAppend(rest, b);
      assert OutputOf(a[0]) + (OutputEvents(rest) + OutputEvents(b)) == OutputOf(a[0]) + OutputEvents(rest) + OutputEvents(b);
      assert TimerOf(a[0]) + (TimerEvents(rest) + TimerEvents(b)) == TimerOf(a[0]) + TimerEvents(rest) + TimerEvents(b);
    }
  }

  lemma {:induction false} InputEventsAppend(a: seq<DeviceEvent>, b: seq<DeviceEvent>)
    ensures InputEvents(a + b) == InputEvents(a) + InputEvents(b)
    decreases |a|
  {
    hide InputOf;
    if a == [] {
      assert a + b == b;
    } else {
      var rest := a[1..];
      assert (a + b)[1..] == rest + b && (a + b)[0] == a[0];
      InputEventsAppend(rest, b);
      assert InputOf(a[0]) + (InputEvents(rest) + InputEvents(b)) == InputOf(a[0]) + InputEvents(rest) + InputEvents(b);
    }
  }

  lemma {:induction false} OutputTicksAppend(a: seq<O.OutputEvent>, b: seq<O.OutputEvent>)
    ensures O.Ticks(a + b) == O.Ticks(a) + O.Ticks(b)
    decreases |a|
  {
    if a == [] {
      assert a + b == b;
    } else {
      assert (a + b)[1..] == a[1..] + b;
      OutputTicksAppend(a[1..], b);
    }
  }

  lemma {:induction false} TimerTicksAppend(a: seq<T.TimerEvent>, b: seq<T.TimerEvent>)
    ensures T.Ticks(a + b) == T.Ticks(a) + T.Ticks(b)
    decreases |b|
  {
    if b == [] {
      assert a + b == a;
    } else {
      assert (a + b)[..|a + b| - 1] == a + b[..|b| - 1];
      TimerTicksAppend(a, b[..|b| - 1]);
    }
  }

  predicate TickFree(events: seq<DeviceEvent>) { forall e :: e in events ==> !e.Cycle? }

  lemma {:induction false} TickFreeTicks(events: seq<DeviceEvent>)
    requires TickFree(events)
    ensures O.Ticks(OutputEvents(events)) == 0 && T.Ticks(TimerEvents(events)) == 0
    decreases |events|
  {
    if events != [] {
      assert events[0] in events && TickFree(events[1..]);
      assert O.Ticks(OutputOf(events[0])) == 0 && T.Ticks(TimerOf(events[0])) == 0;
      hide OutputOf, TimerOf;
      TickFreeTicks(events[1..]);
      OutputTicksAppend(OutputOf(events[0]), OutputEvents(events[1..]));
      TimerTicksAppend(TimerOf(events[0]), TimerEvents(events[1..]));
    }
  }

  lemma StepTicks(m: Machine, strict: bool, e: Env)
    ensures var events := StepEvents(m, strict, e);
      && O.Ticks(OutputEvents(events)) == 1 && T.Ticks(TimerEvents(events)) == 1
      && OutputEvents(events) != [] && OutputEvents(events)[0].Tick?
  {
    var events := StepEvents(m, strict, e);
    assert events[0] == Cycle(e.stdin);
    var output, timer := OutputOf(events[0]), TimerOf(events[0]);
    assert output[1..] == [] && timer[..0] == [];
    assert TickFree(events[1..]);
    TickFreeTicks(events[1..]);
    OutputTicksAppend(output, OutputEvents(events[1..]));
    TimerTicksAppend(timer, TimerEvents(events[1..]));
  }

  lemma {:induction false} InputTicksAppend(a: seq<I.InputEvent>, b: seq<I.InputEvent>)
    ensures I.Ticks(a + b) == I.Ticks(a) + I.Ticks(b)
    decreases |a|
  {
    if a == [] {
      assert a + b == b;
    } else {
      assert (a + b)[1..] == a[1..] + b;
      InputTicksAppend(a[1..], b);
    }
  }

  function CycleCount(events: seq<DeviceEvent>): nat
  {
    if events == [] then 0 else (if events[0].Cycle? then 1 else 0) + CycleCount(events[1..])
  }

  lemma {:induction false} CycleCountAppend(a: seq<DeviceEvent>, b: seq<DeviceEvent>)
    ensures CycleCount(a + b) == CycleCount(a) + CycleCount(b)
    decreases |a|
  {
    if a == [] {
      assert a + b == b;
    } else {
      assert (a + b)[1..] == a[1..] + b;
      CycleCountAppend(a[1..], b);
    }
  }

  lemma {:induction false} NoCycles(events: seq<DeviceEvent>)
    requires TickFree(events)
    ensures CycleCount(events) == 0
    decreases |events|
  {
    if events != [] {
      assert events[0] in events && TickFree(events[1..]);
      NoCycles(events[1..]);
    }
  }

  /** The ticks the Input Port sees are the cycles, with the bytes offered in them. */
  lemma {:induction false} InputTicks(events: seq<DeviceEvent>)
    ensures I.Ticks(InputEvents(events)) == CycleCount(events)
    ensures forall x :: x in InputEvents(events) && x.Tick? ==> Cycle(x.stdin) in events
    decreases |events|
  {
    if events != [] {
      InputTicks(events[1..]);
      var first := InputOf(events[0]);
      assert first != [] ==> first[1..] == [];
      InputTicksAppend(first, InputEvents(events[1..]));
    }
  }

  /** A cycle's events start with its tick and contain no other. */
  lemma StepStart(m: Machine, strict: bool, e: Env)
    ensures var events := StepEvents(m, strict, e); events != [] && events[0] == Cycle(e.stdin) && TickFree(events[1..])
  {
  }

  /** Every cycle of a run is one of its environment's. */
  lemma {:induction false} CyclesOfRun(m: Machine, strict: bool, envs: seq<Env>)
    ensures CycleCount(RunEvents(m, strict, envs)) == Cycles(m, strict, envs)
    ensures forall x :: x in RunEvents(m, strict, envs) && x.Cycle? ==> exists e :: e in envs && e.stdin == x.stdin
    decreases |envs|
  {
    if envs != [] && m.exec == RUNNING {
      hide Step, Fetch, Enter, Decode, DataEvents, LoadEvents;
      var events, next := StepEvents(m, strict, envs[0]), Step(m, strict, envs[0]);
      StepStart(m, strict, envs[0]);
      hide StepEvents;
      assert events[0] == Cycle(envs[0].stdin) && TickFree(events[1..]);
      NoCycles(events[1..]);
      CyclesOfRun(next, strict, envs[1..]);
      CycleCountAppend(events, RunEvents(next, strict, envs[1..]));
      assert events == [events[0]] + events[1..];
      assert forall x :: x in events && x.Cycle? ==> x == events[0];
      assert forall e :: e in envs[1..] ==> e in envs;
    }
  }

  lemma {:induction false} PortTicks(m: Machine, strict: bool, envs: seq<Env>)
    ensures O.Ticks(OutputTrace(m, strict, envs)) == Cycles(m, strict, envs)
    ensures T.Ticks(TimerTrace(m, strict, envs)) == Cycles(m, strict, envs)
    ensures Cycles(m, strict, envs) > 0 ==> OutputTrace(m, strict, envs) != [] && OutputTrace(m, strict, envs)[0].Tick?
    decreases |envs|
  {
    hide Step, StepEvents, OutputEvents, TimerEvents, O.Ticks, T.Ticks;
    if envs != [] && m.exec == RUNNING {
      var next := Step(m, strict, envs[0]);
      var events, rest := StepEvents(m, strict, envs[0]), RunEvents(next, strict, envs[1..]);
      StepTicks(m, strict, envs[0]);
      PortTicks(next, strict, envs[1..]);
      EventsAppend(events, rest);
      OutputTicksAppend(OutputEvents(events), OutputEvents(rest));
      TimerTicksAppend(TimerEvents(events), TimerEvents(rest));
    } else {
      NoTicks();
    }
  }

  lemma NoTicks()
    ensures O.Ticks(OutputEvents([])) == 0 && T.Ticks(TimerEvents([])) == 0
  {
  }

  /** Every cycle starts with one tick phase of all devices, and there is no other: so the ports and the
      Timer tick exactly as often as the machine executes cycles. */
  lemma OneTickPerCycle(m: Machine, strict: bool, envs: seq<Env>)
    ensures CycleCount(RunEvents(m, strict, envs)) == Cycles(m, strict, envs)
    ensures I.Ticks(InputTrace(m, strict, envs)) == Cycles(m, strict, envs)
    ensures O.Ticks(OutputTrace(m, strict, envs)) == Cycles(m, strict, envs)
    ensures T.Ticks(TimerTrace(m, strict, envs)) == Cycles(m, strict, envs)
    ensures Cycles(m, strict, envs) > 0 ==> OutputTrace(m, strict, envs) != [] && OutputTrace(m, strict, envs)[0].Tick?
  {
    CyclesOfRun(m, strict, envs);
    InputTicks(RunEvents(m, strict, envs));
    PortTicks(m, strict, envs);
  }

  /** Over any run, the bytes consumed from the standard input are, in order, those returned by
      loads of the Input Port made while it was ready, plus the pending one. */
  lemma InputConserved(m: Machine, strict: bool, envs: seq<Env>)
    requires Inv(m)
    ensures var trace, last := InputTrace(m, strict, envs), Steps(m, strict, envs);
      && m.dev.input.Latched() + I.Consumed(m.dev.input, trace) == I.Delivered(m.dev.input, trace) + last.dev.input.Latched()
  {
    RunIsEvents(m, strict, envs);
    Independence(m.dev, RunEvents(m, strict, envs));
    I.Conservation(m.dev.input, InputTrace(m, strict, envs));
  }

  // ---- The Input Port keeps up with its input

  /** A run of at least 11 cycles that starts with a free latch and always has input to offer consumes a byte. */
  lemma InputKeepsUp(m: Machine, strict: bool, envs: seq<Env>)
    requires Inv(m) && !m.dev.input.ready
    requires forall e :: e in envs ==> e.stdin.Some?
    requires Cycles(m, strict, envs) >= 11
    ensures I.Consumed(m.dev.input, InputTrace(m, strict, envs)) != []
  {
    var events, trace := RunEvents(m, strict, envs), InputTrace(m, strict, envs);
    CyclesOfRun(m, strict, envs);
    InputTicks(events);
    forall x | x in trace && x.Tick? ensures x.stdin.Some? {
      assert Cycle(x.stdin) in events;
    }
    I.LatchedWithin11(m.dev.input, trace);
  }

  // ---- Output Port and Timer

  /** N cycles of any program add at most (N + 2) / 3 bytes to the standard output: those stored to the
      Output Port while it was ready. A program that polls before each store loses none. */
  lemma OutputRate(m: Machine, strict: bool, envs: seq<Env>)
    requires Inv(m)
    ensures var trace, before, after := OutputTrace(m, strict, envs), m.dev.output.sent, Steps(m, strict, envs).dev.output.sent;
      && after == before + O.Emitted(m.dev.output, trace)
      && |after| <= |before| + (Cycles(m, strict, envs) + 2) / 3
      && (O.Polls(m.dev.output, trace, false) ==> after == before + O.Written(trace))
  {
    var trace := OutputTrace(m, strict, envs);
    RunIsEvents(m, strict, envs);
    Independence(m.dev, RunEvents(m, strict, envs));
    O.SentIsEmitted(m.dev.output, trace);
    OneTickPerCycle(m, strict, envs);
    if Cycles(m, strict, envs) > 0 { O.Throughput(m.dev.output, trace); }
    if O.Polls(m.dev.output, trace, false) { O.PollingLosesNothing(m.dev.output, trace, false); }
  }

  /** The cycle stores a byte that the Output Port accepts. */
  predicate Emits(m: Machine, strict: bool, e: Env) { Step(m, strict, e).dev.output.sent != m.dev.output.sent }

  /** An accepted store leaves the port busy for its whole delay at the end of the cycle. */
  lemma EmitsBusy(m: Machine, strict: bool, e: Env)
    requires Inv(m) && m.exec == RUNNING && Emits(m, strict, e)
    ensures Step(m, strict, e).dev.output.delay == 3
  {
    hide Step, StepEvents, O.Ticks, O.Emitted;
    var s, events := m.dev.output, StepEvents(m, strict, e);
    StepIsEvents(m, strict, e);
    Independence(m.dev, events);
    StepStart(m, strict, e);
    var rest := OutputEvents(events[1..]);
    assert OutputEvents(events) == [O.Tick] + rest && ([O.Tick] + rest)[1..] == rest;
    O.SentIsEmitted(s.Tick(), rest);
    O.Debt(s.Tick(), rest);
    O.InvKept(s.Tick(), rest);
    TickFreeTicks(events[1..]);
  }

  /** Two accepted stores of one run are at least 3 cycles apart. */
  lemma StoresApart(m: Machine, strict: bool, e: Env, between: seq<Env>, e': Env)
    requires Inv(m) && m.exec == RUNNING && Emits(m, strict, e)
    requires var before := Steps(Step(m, strict, e), strict, between); before.exec == RUNNING && Emits(before, strict, e')
    ensures |between| + 1 >= 3
  {
    hide Step, Steps, RunEvents, O.Ticks, O.Emitted, Emits, Cycles, OutputEvents, Inv;
    var next, envs := Step(m, strict, e), between + [e'];
    var before, trace := Steps(next, strict, between), OutputTrace(next, strict, envs);
    EmitsBusy(m, strict, e);
    StepKeeps(m, strict, e);
    CyclesBound(next, strict, envs);
    OneTickPerCycle(next, strict, envs);
    RunIsEvents(next, strict, envs);
    Independence(next.dev, RunEvents(next, strict, envs));
    O.SentIsEmitted(next.dev.output, trace);
    InvOutput(next);
    O.Debt(next.dev.output, trace);
    O.InvKept(next.dev.output, trace);
    SentGrows(next, strict, between, e');
  }

  lemma InvOutput(m: Machine)
    requires Inv(m)
    ensures m.dev.output.Inv()
  {
  }

  lemma {:induction false} CyclesBound(m: Machine, strict: bool, envs: seq<Env>)
    ensures Cycles(m, strict, envs) <= |envs|
    decreases |envs|
  {
    hide Step;
    if envs != [] && m.exec == RUNNING { CyclesBound(Step(m, strict, envs[0]), strict, envs[1..]); }
  }

  /** The run up to an accepted store has sent at least its byte. */
  lemma SentGrows(m: Machine, strict: bool, between: seq<Env>, e: Env)
    requires Inv(m)
    requires var before := Steps(m, strict, between); before.exec == RUNNING && Emits(before, strict, e)
    ensures |Steps(m, strict, between + [e]).dev.output.sent| > |m.dev.output.sent|
  {
    hide Step, RunEvents, OutputEvents, O.Emitted, Inv;
    var before := Steps(m, strict, between);
    StepsAppend(m, strict, between, [e]);
    assert [e][1..] == [];
    assert Steps(m, strict, between + [e]) == Step(before, strict, e);
    RunKeeps(m, strict, between);
    OutputRate(m, strict, between);
    StepSends(before, strict, e);
  }

  lemma StepSends(m: Machine, strict: bool, e: Env)
    requires Inv(m) && m.exec == RUNNING
    ensures m.dev.output.sent <= Step(m, strict, e).dev.output.sent
  {
    hide Step, StepEvents, OutputEvents, O.Emitted;
    StepIsEvents(m, strict, e);
    Independence(m.dev, StepEvents(m, strict, e));
    O.SentIsEmitted(m.dev.output, OutputEvents(StepEvents(m, strict, e)));
  }

  /** N cycles after the period was set, and as long as it is not set again, the counter is N mod P, the
      status tells whether a multiple of P lies after the last acknowledgement, and the expirations seen,
      by acknowledgements that read 1 or by a pending status, are at most N / P: exactly
      N / P iff each expiration but the last was acknowledged before the next. */
  lemma TimerCycles(m: Machine, strict: bool, envs: seq<Env>)
    requires Inv(m) && m.dev.timer.period > 0 && m.dev.timer.counter == 0 && !m.dev.timer.status
    requires T.KeepsPeriod(TimerTrace(m, strict, envs))
    ensures var n, p, trace := Cycles(m, strict, envs), m.dev.timer.period, TimerTrace(m, strict, envs);
      && Steps(m, strict, envs).dev.timer.counter == n % p
      && (Steps(m, strict, envs).dev.timer.status <==> exists k :: T.LastAck(trace) < k <= n && k % p == 0)
      && T.Seen(m.dev.timer, trace) == T.AcksOfOne(m.dev.timer, trace) + (if Steps(m, strict, envs).dev.timer.status then 1 else 0)
      && T.Seen(m.dev.timer, trace) <= n / p
      && (T.Seen(m.dev.timer, trace) == n / p <==> T.AllAcked(trace, p))
  {
    RunIsEvents(m, strict, envs);
    Independence(m.dev, RunEvents(m, strict, envs));
    OneTickPerCycle(m, strict, envs);
    T.Exact(m.dev.timer, TimerTrace(m, strict, envs));
    T.StatusExact(m.dev.timer, TimerTrace(m, strict, envs));
    T.NoneLost(m.dev.timer, TimerTrace(m, strict, envs));
  }
}
