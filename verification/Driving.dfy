/** What a program gets from the devices it drives: the guarantees of the ports and the Timer, from the
    instructions that access them. */
module Driving {
  import opened Defs
  import opened Devices
  import opened Bus
  import opened Cpu
  import opened Safety
  import opened Interrupts
  import opened Traffic
  import opened MemoryMap
  import I = InputPort
  import O = OutputPort
  import T = Timer

  // ---- The access of a cycle

  /** The machine in which the instruction of the cycle is executed. */
  function Before(m: Machine, strict: bool, e: Env): Machine { Advance(Fetch(Enter(m, e), strict).m) }

  /** The cycle executes a store of this width to this address. */
  predicate StoresTo(m: Machine, strict: bool, e: Env, w: Width, address: word)
  {
    var i := Executed(m, strict, e);
    i.Some? && StoreWidth(i.value.opcode) == Some(w) && Address(Before(m, strict, e), i.value) == address
  }

  /** The datum of the store. */
  function Datum(m: Machine, strict: bool, e: Env): word
    requires Executed(m, strict, e).Some?
  {
    m.gpr[Executed(m, strict, e).value.rb]
  }

  /** The cycle executes a load of this width from this address. */
  predicate LoadsFrom(m: Machine, strict: bool, e: Env, w: Width, address: word)
  {
    var i := Executed(m, strict, e);
    i.Some? && LoadWidth(i.value.opcode) == Some(w) && Address(Before(m, strict, e), i.value) == address
  }

  lemma BeforeKeeps(m: Machine, strict: bool, e: Env)
    requires Inv(m) && m.exec == RUNNING
    ensures var b := Before(m, strict, e); b.gpr == m.gpr && b.devices == m.devices && b.gpr[0] == 0 && Installed(b.devices)
    ensures Executed(m, strict, e).Some? ==> Before(m, strict, e).exec == RUNNING
  {
    hide TickAll, Ien, ClearIen, Read;
    EnterKeeps(m, e);
    ReadKeeps(Enter(m, e), strict, Enter(m, e).pc, W32);
  }

  /** A cycle that stores leaves the devices as the store does, with the CPU line down. */
  lemma StoreStep(m: Machine, strict: bool, e: Env, w: Width, address: word)
    requires Inv(m) && m.exec == RUNNING && StoresTo(m, strict, e, w, address)
    ensures var b := Before(m, strict, e);
      var stored := Write(b, strict, address, Datum(m, strict, e), w);
      Step(m, strict, e).dev == Apply(stored.dev, EndCycle) && Step(m, strict, e).exec == stored.exec
  {
    hide Enter, Read, Decode, Write, Dispatch, Advance, Inv;
    var b, d := Before(m, strict, e), Executed(m, strict, e).value;
    BeforeKeeps(m, strict, e);
    DispatchStore(b, strict, d, e.clockOk);
  }

  // ---- The Timer

  /** SW of P to 0xC0140000 starts the Timer with this period, from any state it is in. */
  lemma PeriodStored(m: Machine, strict: bool, e: Env)
    requires Inv(m) && m.exec == RUNNING && StoresTo(m, strict, e, W32, 0xC014_0000)
    ensures var r := Step(m, strict, e);
      r.dev.timer == T.TimerState(Datum(m, strict, e), 0, false) && !r.dev.ic.lines[1] && r.exec == RUNNING
  {
    hide Step, Before, Write, Read, Executed, Inv, StoresTo;
    BeforeKeeps(m, strict, e);
    HasRun(m, strict, e);
    StoreStep(m, strict, e, W32, 0xC014_0000);
    StoreTimer(Before(m, strict, e), strict, Datum(m, strict, e));
  }

  lemma HasRun(m: Machine, strict: bool, e: Env)
    ensures forall w, address :: StoresTo(m, strict, e, w, address) ==> Executed(m, strict, e).Some?
    ensures forall w, address :: LoadsFrom(m, strict, e, w, address) ==> Executed(m, strict, e).Some?
  {
  }

  /** From then on, until the period is set again: for P > 0 the counter is the number of cycles modulo P and the
      status is 1 iff a multiple of P lies after the last acknowledgement; for P = 0 the Timer stays off. */
  lemma TimerFromStore(m: Machine, strict: bool, e: Env, envs: seq<Env>)
    requires Inv(m) && m.exec == RUNNING && StoresTo(m, strict, e, W32, 0xC014_0000)
    requires T.KeepsPeriod(TimerTrace(Step(m, strict, e), strict, envs))
    ensures var start, p := Step(m, strict, e), m.gpr[Executed(m, strict, e).value.rb];
      var r, n := Steps(start, strict, envs).dev.timer, Cycles(start, strict, envs);
      var ack := T.LastAck(TimerTrace(start, strict, envs));
      && r.period == p
      && (p > 0 ==> r.counter == n % p && (r.status <==> exists k :: ack < k <= n && k % p == 0))
      && (p == 0 ==> r.counter == 0 && !r.status)
  {
    hide Step, Steps, Executed, StoresTo, Inv, RunEvents, TimerEvents, Cycles;
    HasRun(m, strict, e);
    var start, p := Step(m, strict, e), Datum(m, strict, e);
    var trace := TimerTrace(start, strict, envs);
    PeriodStored(m, strict, e);
    StepKeeps(m, strict, e);
    RunIsEvents(start, strict, envs);
    Independence(start.dev, RunEvents(start, strict, envs));
    OneTickPerCycle(start, strict, envs);
    T.FromWrite(start.dev.timer, p, trace);
    assert [T.Write(0, p, 4)][..0] == [];
    T.RunAppend(start.dev.timer, [T.Write(0, p, 4)], trace);
    assert T.Run(start.dev.timer, [T.Write(0, p, 4)]) == start.dev.timer;
  }

  // ---- The Output Port

  /** A store to 0xC0080000 sends its low byte iff the port is ready in that cycle, after its tick. */
  lemma OutputStored(m: Machine, strict: bool, e: Env, w: Width)
    requires Inv(m) && m.exec == RUNNING && StoresTo(m, strict, e, w, 0xC008_0000)
    ensures Step(m, strict, e).dev.output.sent ==
      m.dev.output.sent + if Enter(m, e).dev.output.ready then [Datum(m, strict, e) % 0x100] else []
  {
    hide Step, Write, Read, Executed, Inv, StoresTo;
    BeforeKeeps(m, strict, e);
    HasRun(m, strict, e);
    StoreStep(m, strict, e, w, 0xC008_0000);
    StoreOutput(Before(m, strict, e), strict, Datum(m, strict, e), w);
    FetchKeepsOutput(m, strict, e);
    assert m.dev.output.sent + [] == m.dev.output.sent;
  }

  lemma FetchKeepsOutput(m: Machine, strict: bool, e: Env)
    requires Inv(m)
    ensures Before(m, strict, e).dev.output == Enter(m, e).dev.output == m.dev.output.Tick()
    ensures Enter(m, e).dev.output.sent == m.dev.output.sent
  {
    hide Enter, Find, BigEndian;
    EnterOutput(m, e);
  }

  lemma EnterOutput(m: Machine, e: Env)
    requires Inv(m)
    ensures Enter(m, e).dev.output == m.dev.output.Tick() && Enter(m, e).devices == m.devices
  {
    TickIsSummary(m.devices, m.dev, e.stdin);
  }

  /** n cycles in which no store is accepted take n from the delay, down to 0. */
  lemma DelayRun(m: Machine, strict: bool, envs: seq<Env>)
    requires Inv(m) && Steps(m, strict, envs).exec == RUNNING
    requires Steps(m, strict, envs).dev.output.sent == m.dev.output.sent
    ensures var output, d := Steps(m, strict, envs).dev.output, m.dev.output.delay;
      output.delay == (if |envs| >= d then 0 else d - |envs|) && (output.ready <==> |envs| >= d)
  {
    hide Step, Steps, RunEvents, OutputEvents, Inv, Cycles, O.Emitted, O.Ticks, O.Run;
    var trace := OutputTrace(m, strict, envs);
    RunIsEvents(m, strict, envs);
    Independence(m.dev, RunEvents(m, strict, envs));
    OneTickPerCycle(m, strict, envs);
    AllCycles(m, strict, envs);
    O.SentIsEmitted(m.dev.output, trace);
    NothingMore(m.dev.output.sent, O.Emitted(m.dev.output, trace));
    InvOutput(m);
    O.Waits(m.dev.output, trace);
  }

  lemma NothingMore(a: seq<byte>, b: seq<byte>)
    requires a + b == a
    ensures b == []
  {
    assert |a + b| == |a| + |b|;
  }

  /** What a load of the Output Port returns in a cycle. */
  lemma PollReturns(m: Machine, strict: bool, e: Env, w: Width)
    requires Inv(m) && m.exec == RUNNING
    ensures var ready := Enter(m, e).dev.output.ready;
      (ready <==> m.dev.output.delay <= 1) && Read(Before(m, strict, e), strict, 0xC008_0000, w).value == if ready then 1 else 0
  {
    InvOutput(m);
    hide Read, Inv, Enter, Before;
    FetchKeepsOutput(m, strict, e);
    BeforeKeeps(m, strict, e);
    LoadOutput(Before(m, strict, e), strict, w);
  }

  /** What loads of the Output Port return while a delay of 3 runs down. */
  lemma CountsDown(m: Machine, strict: bool, envs: seq<Env>, e: Env, w: Width)
    requires Inv(m) && m.dev.output.delay == 3 && Steps(m, strict, envs).exec == RUNNING
    requires Steps(m, strict, envs).dev.output.sent == m.dev.output.sent
    ensures var last := Steps(m, strict, envs);
      && (Enter(last, e).dev.output.ready <==> |envs| + 1 >= 3)
      && Read(Before(last, strict, e), strict, 0xC008_0000, w).value == (if |envs| + 1 >= 3 then 1 else 0)
  {
    hide Step, Steps, Read, Inv, Enter, Before;
    DelayRun(m, strict, envs);
    RunKeeps(m, strict, envs);
    PollReturns(Steps(m, strict, envs), strict, e, w);
  }

  /** After an accepted store the port is busy for two cycles, and ready from the third on until the next
      accepted one: there a load of it returns 1 and, by OutputStored, a store is accepted. */
  lemma ReadyAgain(m: Machine, strict: bool, e: Env, next: Machine, envs: seq<Env>, e': Env, w: Width)
    requires Inv(m) && m.exec == RUNNING && Emits(m, strict, e) && next == Step(m, strict, e)
    requires Steps(next, strict, envs).exec == RUNNING && Steps(next, strict, envs).dev.output.sent == next.dev.output.sent
    ensures var last := Steps(next, strict, envs);
      && (Enter(last, e').dev.output.ready <==> |envs| + 1 >= 3)
      && Read(Before(last, strict, e'), strict, 0xC008_0000, w).value == (if |envs| + 1 >= 3 then 1 else 0)
  {
    hide *;
    EmitsBusy(m, strict, e);
    StepKeeps(m, strict, e);
    CountsDown(next, strict, envs, e', w);
  }

  lemma {:induction false} AllCycles(m: Machine, strict: bool, envs: seq<Env>)
    requires Steps(m, strict, envs).exec == RUNNING
    ensures Cycles(m, strict, envs) == |envs|
    decreases |envs|
  {
    hide Step;
    if envs != [] && m.exec == RUNNING { AllCycles(Step(m, strict, envs[0]), strict, envs[1..]); }
  }

  /** Hence the next store is sent from the third cycle on, and lost before. */
  lemma NextStoreSent(m: Machine, strict: bool, e: Env, next: Machine, envs: seq<Env>, e': Env, w: Width)
    requires Inv(m) && m.exec == RUNNING && Emits(m, strict, e) && next == Step(m, strict, e)
    requires Steps(next, strict, envs).exec == RUNNING && Steps(next, strict, envs).dev.output.sent == next.dev.output.sent
    requires StoresTo(Steps(next, strict, envs), strict, e', w, 0xC008_0000)
    ensures var last := Steps(next, strict, envs);
      Step(last, strict, e').dev.output.sent ==
        next.dev.output.sent + if |envs| + 1 >= 3 then [last.gpr[Executed(last, strict, e').value.rb] % 0x100] else []
  {
    var last := Steps(next, strict, envs);
    HasRun(last, strict, e');
    hide Step, Steps, Inv, Emits, Enter, Executed, StoresTo, Read;
    ReadyAgain(m, strict, e, next, envs, e', w);
    StepKeeps(m, strict, e);
    RunKeeps(next, strict, envs);
    OutputStored(last, strict, e', w);
  }

  // ---- The Input Port

  /** What an access returns if it is a load of the Input Port with a byte latched. */
  function PortBytes(m: Machine, strict: bool, address: word, w: Width): seq<int>
  {
    if address == 0xC004_0000 && m.dev.input.ready then [Read(m, strict, address, w).value] else []
  }

  /** The values returned by the loads of the Input Port in a cycle, by the fetch and by the instruction. */
  function StepReturned(m: Machine, strict: bool, e: Env): seq<int>
  {
    var i := Executed(m, strict, e);
    PortBytes(Enter(m, e), strict, Enter(m, e).pc, W32) +
    if i.Some? && LoadWidth(i.value.opcode).Some?
    then PortBytes(Before(m, strict, e), strict, Address(Before(m, strict, e), i.value), LoadWidth(i.value.opcode).value)
    else []
  }

  /** The values returned by the loads of the Input Port over a run that found a byte latched, in order. */
  function Returned(m: Machine, strict: bool, envs: seq<Env>): seq<int>
    decreases |envs|
  {
    if envs == [] || m.exec != RUNNING then []
    else StepReturned(m, strict, envs[0]) + Returned(Step(m, strict, envs[0]), strict, envs[1..])
  }

  lemma AccessReturns(m: Machine, strict: bool, address: word, w: Width)
    requires Installed(m.devices)
    ensures var events := InputEvents(LoadEvents(m, address, w));
      I.Delivered(m.dev.input, events) == PortBytes(m, strict, address, w) &&
      I.Run(m.dev.input, events) == Read(m, strict, address, w).m.dev.input
  {
    var events := LoadEvents(m, address, w);
    Ranges(address);
    if address == 0xC004_0000 {
      RouteTo(m, address, 2);
      LoadInput(m, strict, w);
      hide Find, Read;
      assert events == [Load(Input, 0, w.Bytes())] && events[1..] == [];
      assert InputEvents(events) == [I.Read] && [I.Read][1..] == [];
    } else {
      NotInput(m, strict, address, w);
    }
  }

  lemma RouteElsewhere(m: Machine, address: word)
    requires Installed(m.devices) && address != 0xC004_0000
    ensures Route(m, address).Some? ==> Route(m, address).value.id != Input
  {
    var device := Route(m, address);
    if device.Some? {
      assert device.value in multiset(m.devices) && device.value in DEVICE_MAP;
      Ranges(address);
    }
  }

  lemma NotInput(m: Machine, strict: bool, address: word, w: Width)
    requires Installed(m.devices) && address != 0xC004_0000
    ensures InputEvents(LoadEvents(m, address, w)) == [] && Read(m, strict, address, w).m.dev.input == m.dev.input
  {
    hide Installed, Route, BigEndian;
    RouteElsewhere(m, address);
    var events := LoadEvents(m, address, w);
    assert events != [] ==> events[1..] == [] && InputOf(events[0]) == [];
    hide LoadEvents, InputOf;
    ReadCases(m, strict, address, w);
    hide Compose, Readable;
  }

  lemma OneInputEvent(s: I.InputState, x: I.InputEvent)
    ensures I.Run(s, [x]) == I.Apply(s, x) && (x.Tick? ==> I.Delivered(s, [x]) == [])
  {
    assert [x][1..] == [];
  }

  lemma DataReturns(b: Machine, strict: bool, d: Decoded)
    requires d.ra < GPR_COUNT && d.rb < GPR_COUNT && Installed(b.devices)
    ensures I.Delivered(b.dev.input, InputEvents(DataEvents(b, d))) ==
      if LoadWidth(d.opcode).Some? then PortBytes(b, strict, Address(b, d), LoadWidth(d.opcode).value) else []
  {
    hide PortBytes, LoadEvents, I.Delivered, Read;
    if LoadWidth(d.opcode).Some? {
      AccessReturns(b, strict, Address(b, d), LoadWidth(d.opcode).value);
    } else {
      NoLoads(DataEvents(b, d), b.dev.input);
    }
  }

  lemma NoLoads(events: seq<DeviceEvent>, s: I.InputState)
    requires |events| <= 1 && forall e :: e in events ==> e.Store? || e.EndCycle?
    ensures InputEvents(events) == [] && I.Delivered(s, InputEvents(events)) == []
  {
    if events != [] { assert events[0] in events && events[1..] == []; }
  }

  lemma TwoParts(s: I.InputState, a: seq<DeviceEvent>, b: seq<DeviceEvent>)
    ensures var next := I.Run(s, InputEvents(a));
      && I.Delivered(s, InputEvents(a + b)) == I.Delivered(s, InputEvents(a)) + I.Delivered(next, InputEvents(b))
      && I.Run(s, InputEvents(a + b)) == I.Run(next, InputEvents(b))
  {
    hide InputEvents, I.Delivered, I.Run;
    InputEventsAppend(a, b);
    I.DeliveredAppend(s, InputEvents(a), InputEvents(b));
    I.RunAppend(s, InputEvents(a), InputEvents(b));
  }

  /** The tick delivers nothing, and the fetch what it returns. */
  lemma FetchReturns(m: Machine, strict: bool, e: Env)
    requires Inv(m)
    ensures var start, entered := [Cycle(e.stdin)] + LoadEvents(Enter(m, e), Enter(m, e).pc, W32), Enter(m, e);
      && I.Delivered(m.dev.input, InputEvents(start)) == PortBytes(entered, strict, entered.pc, W32)
      && I.Run(m.dev.input, InputEvents(start)) == Fetch(entered, strict).m.dev.input
  {
    var entered, tick := Enter(m, e), [Cycle(e.stdin)];
    EnterInput(m, e);
    AccessReturns(entered, strict, entered.pc, W32);
    OneInputEvent(m.dev.input, I.Tick(e.stdin));
    assert InputEvents(tick) == [I.Tick(e.stdin)] by { assert tick[1..] == []; }
    hide Enter, Read, LoadEvents, PortBytes, Inv, I.Delivered, I.Run;
    TwoParts(m.dev.input, tick, LoadEvents(entered, entered.pc, W32));
  }

  /** The instruction delivers what its load returns. */
  lemma InstructionReturns(m: Machine, strict: bool, e: Env)
    requires Inv(m) && m.exec == RUNNING && Executed(m, strict, e).Some?
    ensures var b, d := Before(m, strict, e), Executed(m, strict, e).value;
      I.Delivered(b.dev.input, InputEvents(DataEvents(b, d) + [EndCycle])) ==
        if LoadWidth(d.opcode).Some? then PortBytes(b, strict, Address(b, d), LoadWidth(d.opcode).value) else []
  {
    hide Before, Read, PortBytes, DataEvents, Inv, I.Delivered, I.Run, InputEvents, Address;
    var b, d := Before(m, strict, e), Executed(m, strict, e).value;
    BeforeKeeps(m, strict, e);
    DataReturns(b, strict, d);
    NoLoads([EndCycle], I.Run(b.dev.input, InputEvents(DataEvents(b, d))));
    TwoParts(b.dev.input, DataEvents(b, d), [EndCycle]);
  }

  /** The bytes delivered in a cycle are the values its loads return. */
  lemma StepReturns(m: Machine, strict: bool, e: Env)
    requires Inv(m) && m.exec == RUNNING
    ensures I.Delivered(m.dev.input, InputEvents(StepEvents(m, strict, e))) == StepReturned(m, strict, e)
  {
    hide Enter, Read, LoadEvents, PortBytes, DataEvents, Inv, I.Delivered, I.Run, InputEvents, Decode, LoadWidth, Address;
    var entered, fetched := Enter(m, e), Fetch(Enter(m, e), strict);
    var start := [Cycle(e.stdin)] + LoadEvents(entered, entered.pc, W32);
    FetchReturns(m, strict, e);
    if fetched.m.exec == RUNNING {
      InstructionReturns(m, strict, e);
      TwoParts(m.dev.input, start, DataEvents(Before(m, strict, e), Decode(fetched.value)) + [EndCycle]);
    } else {
      NoLoads([], fetched.m.dev.input);
      TwoParts(m.dev.input, start, []);
    }
  }

  lemma EnterInput(m: Machine, e: Env)
    requires Inv(m)
    ensures Enter(m, e).dev.input == I.Apply(m.dev.input, I.Tick(e.stdin)) && Installed(Enter(m, e).devices)
  {
    TickIsSummary(m.devices, m.dev, e.stdin);
  }

  lemma {:induction false} RunReturns(m: Machine, strict: bool, envs: seq<Env>)
    requires Inv(m)
    ensures I.Delivered(m.dev.input, InputTrace(m, strict, envs)) == Returned(m, strict, envs)
    decreases |envs|
  {
    hide Step, StepEvents, StepReturned, Inv, InputEvents;
    if envs != [] && m.exec == RUNNING {
      var next, events := Step(m, strict, envs[0]), StepEvents(m, strict, envs[0]);
      StepReturns(m, strict, envs[0]);
      StepKeeps(m, strict, envs[0]);
      StepInput(m, strict, envs[0]);
      RunReturns(next, strict, envs[1..]);
      InputEventsAppend(events, RunEvents(next, strict, envs[1..]));
      I.DeliveredAppend(m.dev.input, InputEvents(events), InputEvents(RunEvents(next, strict, envs[1..])));
    } else {
      NoLoads([], m.dev.input);
    }
  }

  lemma StepInput(m: Machine, strict: bool, e: Env)
    requires Inv(m)
    ensures Step(m, strict, e).dev.input == I.Run(m.dev.input, InputEvents(StepEvents(m, strict, e)))
  {
    hide Step, StepEvents, InputEvents;
    StepIsEvents(m, strict, e);
    Independence(m.dev, StepEvents(m, strict, e));
  }

  /** Over any run, the bytes consumed from the standard input, after the one latched at the start if any, are exactly the
      values that loads of 0xC0040000 returned while a byte was latched, in order, and then the pending one if any. */
  lemma InputReturned(m: Machine, strict: bool, envs: seq<Env>)
    requires Inv(m)
    ensures var pending: seq<int>, left: seq<int> := m.dev.input.Latched(), Steps(m, strict, envs).dev.input.Latched();
      pending + I.Consumed(m.dev.input, InputTrace(m, strict, envs)) == Returned(m, strict, envs) + left
  {
    hide Steps, RunEvents, InputEvents, I.Delivered, I.Consumed, Inv;
    InputConserved(m, strict, envs);
    RunReturns(m, strict, envs);
  }

  /** LBU from the Input Port puts the latched byte into its register. */
  lemma InputLoaded(m: Machine, strict: bool, e: Env)
    requires Inv(m) && m.exec == RUNNING && LoadsFrom(m, strict, e, W8, 0xC004_0000)
    requires Executed(m, strict, e).value.opcode == 0x24 && Executed(m, strict, e).value.rb != 0
    ensures Step(m, strict, e).gpr[Executed(m, strict, e).value.rb] == Before(m, strict, e).dev.input.data
  {
    hide Enter, Read, Decode, Dispatch, Advance, Inv;
    var b, d := Before(m, strict, e), Executed(m, strict, e).value;
    BeforeKeeps(m, strict, e);
    DispatchLoad(b, strict, d, e.clockOk);
    LoadInput(b, strict, W8);
    ReadKeeps(b, strict, 0xC004_0000, W8);
  }

  // ---- The Startup Circuit

  /** Its bit stays as it is until the first store to it, and is 0 ever after. */
  lemma StartupRun(m: Machine, strict: bool, envs: seq<Env>)
    requires Inv(m)
    ensures Steps(m, strict, envs).dev.startup <==>
      m.dev.startup && forall x :: x in RunEvents(m, strict, envs) ==> !(x.Store? && x.id == Startup)
  {
    hide Steps, RunEvents, Inv;
    RunIsEvents(m, strict, envs);
    StartupIff(m.dev, RunEvents(m, strict, envs));
  }
}
