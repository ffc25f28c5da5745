/** What every run of the machine keeps, in both fault modes. */
module Safety {
  import opened Defs
  import opened Isa
  import opened Devices
  import opened Bus
  import opened Cpu

  // ---- The processor drives the devices by events

  function LoadEvents(m: Machine, address: word, w: Width): seq<DeviceEvent>
  {
    var device := Route(m, address);
    if w.Aligned(address) && device.Some? && Readable(device.value.id)
    then [Load(device.value.id, address - device.value.base, w.Bytes())] else []
  }

  function StoreEvents(m: Machine, address: word, data: word, w: Width): seq<DeviceEvent>
  {
    var device := Route(m, address);
    if w.Aligned(address) && !InRom(address) && device.Some? && Writable(device.value.id)
    then [Store(device.value.id, address - device.value.base, w.Truncate(data), w.Bytes())] else []
  }

  /** The data access of an instruction. */
  function DataEvents(m: Machine, d: Decoded): seq<DeviceEvent>
    requires d.ra < GPR_COUNT && d.rb < GPR_COUNT
  {
    if LoadWidth(d.opcode).Some? then LoadEvents(m, Address(m, d), LoadWidth(d.opcode).value)
    else if StoreWidth(d.opcode).Some? then StoreEvents(m, Address(m, d), m.gpr[d.rb], StoreWidth(d.opcode).value)
    else []
  }

  /** The events of one cycle: ticks, at most one load by the fetch, at most one data access. */
  function StepEvents(m: Machine, strict: bool, e: Env): seq<DeviceEvent>
  {
    var entered := Enter(m, e);
    var fetched := Fetch(entered, strict);
    [Cycle(e.stdin)] + LoadEvents(entered, entered.pc, W32) +
    (if fetched.m.exec != RUNNING then [] else DataEvents(Advance(fetched.m), Decode(fetched.value)) + [EndCycle])
  }

  function RunEvents(m: Machine, strict: bool, envs: seq<Env>): seq<DeviceEvent>
    decreases |envs|
  {
    if envs == [] || m.exec != RUNNING then []
    else StepEvents(m, strict, envs[0]) + RunEvents(Step(m, strict, envs[0]), strict, envs[1..])
  }

  lemma ReadEvent(m: Machine, strict: bool, address: word, w: Width)
    ensures Read(m, strict, address, w).m.dev == Run(m.dev, LoadEvents(m, address, w))
  {
    var events := LoadEvents(m, address, w);
    assert events != [] ==> events[1..] == [];
  }

  lemma WriteEvent(m: Machine, strict: bool, address: word, data: word, w: Width)
    ensures Write(m, strict, address, data, w).dev == Run(m.dev, StoreEvents(m, address, data, w))
  {
    var events := StoreEvents(m, address, data, w);
    assert events != [] ==> events[1..] == [];
  }

  lemma ExecuteEvent(m: Machine, strict: bool, d: Decoded, clockOk: bool)
    requires d.ra < GPR_COUNT && d.rb < GPR_COUNT && d.rc < GPR_COUNT
    ensures Execute(m, strict, d, clockOk).dev == Run(m.dev, DataEvents(m, d))
  {
    if LoadWidth(d.opcode).Some? { ReadEvent(m, strict, Address(m, d), LoadWidth(d.opcode).value); }
    if StoreWidth(d.opcode).Some? { WriteEvent(m, strict, Address(m, d), m.gpr[d.rb], StoreWidth(d.opcode).value); }
  }

  /** The devices see nothing but the events of the cycle, in whatever order they are registered. */
  lemma StepIsEvents(m: Machine, strict: bool, e: Env)
    requires Installed(m.devices)
    ensures Step(m, strict, e).dev == Run(m.dev, StepEvents(m, strict, e))
  {
    var entered := Enter(m, e);
    var fetched := Fetch(entered, strict);
    TickIsSummary(m.devices, m.dev, e.stdin);
    var tick, load := [Cycle(e.stdin)], LoadEvents(entered, entered.pc, W32);
    assert tick[1..] == [];
    ReadEvent(entered, strict, entered.pc, W32);
    RunAppend(m.dev, tick, load);
    if fetched.m.exec == RUNNING {
      var m', d := Advance(fetched.m), Decode(fetched.value);
      ExecuteEvent(m', strict, d, e.clockOk);
      var data, end := DataEvents(m', d), [EndCycle];
      assert end[1..] == [];
      RunAppend(m'.dev, data, end);
      RunAppend(m.dev, tick + load, data + end);
    } else {
      assert tick + load + [] == tick + load;
    }
  }

  // ---- Invariant

  predicate GoodSpr(spr: Sprs) { spr[SPR_SR] <= 1 && (spr[SPR_CR] == 0 || spr[SPR_CR] == 0x80) }

  /** State of the machine between two cycles. */
  predicate Inv(m: Machine)
  {
    && Installed(m.devices)
    && m.dev.Inv()
    && (m.exec == RUNNING ==> !m.dev.ic.cpuLine)
    && m.gpr[0] == 0
    && GoodSpr(m.spr)
  }

  lemma ExecuteRKeeps(m: Machine, strict: bool, d: Decoded)
    requires d.ra < GPR_COUNT && d.rb < GPR_COUNT && d.rc < GPR_COUNT
    requires GoodSpr(m.spr)
    ensures var r := ExecuteR(m, strict, d);
      r == m.(gpr := r.gpr, spr := r.spr, exec := r.exec) && GoodSpr(r.spr)
  {
    if d.rc < SPR_COUNT { MaskedWriteArithmetic(m.spr[d.rc], m.gpr[d.ra]); }
  }

  lemma ReadKeeps(m: Machine, strict: bool, address: word, w: Width)
    ensures var r := Read(m, strict, address, w).m; r == m.(dev := r.dev, exec := r.exec)
  {
  }

  lemma WriteKeeps(m: Machine, strict: bool, address: word, data: word, w: Width)
    ensures var r := Write(m, strict, address, data, w); r == m.(dev := r.dev, ram := r.ram, exec := r.exec)
  {
  }

  /** `execute` keeps ROM, the device list and the registers' invariants. */
  lemma ExecuteKeeps(m: Machine, strict: bool, d: Decoded, clockOk: bool)
    requires d.ra < GPR_COUNT && d.rb < GPR_COUNT && d.rc < GPR_COUNT
    requires GoodSpr(m.spr)
    ensures var r := Execute(m, strict, d, clockOk);
      r.rom == m.rom && r.devices == m.devices && r.gpr[0] == 0 && GoodSpr(r.spr)
  {
    IenArithmetic(m.spr[SPR_SR]);
    if d.opcode == I_RTYPE {
      ExecuteRKeeps(m, strict, d);
    } else if LoadWidth(d.opcode).Some? {
      ReadKeeps(m, strict, Address(m, d), LoadWidth(d.opcode).value);
    } else if StoreWidth(d.opcode).Some? {
      WriteKeeps(m, strict, Address(m, d), m.gpr[d.rb], StoreWidth(d.opcode).value);
    }
  }

  lemma EnterKeeps(m: Machine, e: Env)
    requires GoodSpr(m.spr)
    ensures var r := Enter(m, e);
      r == m.(spr := r.spr, pc := r.pc, dev := r.dev) && GoodSpr(r.spr)
  {
    IenArithmetic(m.spr[SPR_SR]);
  }

  lemma StepKeeps(m: Machine, strict: bool, e: Env)
    requires Inv(m) && m.exec == RUNNING
    ensures Inv(Step(m, strict, e)) && Step(m, strict, e).rom == m.rom
  {
    hide Read, Execute, Decode, TickAll, Installed, DeviceStates.Inv, StepEvents, Run;
    StepIsEvents(m, strict, e);
    InvRun(m.dev, StepEvents(m, strict, e));
    EnterKeeps(m, e);
    var entered := Enter(m, e);
    ReadKeeps(entered, strict, entered.pc, W32);
    var fetched := Fetch(entered, strict);
    if fetched.m.exec == RUNNING {
      ExecuteKeeps(Advance(fetched.m), strict, Decode(fetched.value), e.clockOk);
    }
  }

  lemma BootInv(image: seq<byte>, ram: Ram, gpr: Gprs)
    requires |image| <= ROM_SIZE
    ensures Inv(Boot(image, ram, gpr))
  {
  }

  /** The invariant holds at every point of every run, and no run changes ROM. */
  lemma {:induction false} RunKeeps(m: Machine, strict: bool, envs: seq<Env>)
    requires Inv(m)
    ensures Inv(Steps(m, strict, envs)) && Steps(m, strict, envs).rom == m.rom
    decreases |envs|
  {
    if envs != [] && m.exec == RUNNING {
      StepKeeps(m, strict, envs[0]);
      RunKeeps(Step(m, strict, envs[0]), strict, envs[1..]);
    }
  }

  /** The devices of a run are the devices after the run's events. */
  lemma {:induction false} RunIsEvents(m: Machine, strict: bool, envs: seq<Env>)
    requires Inv(m)
    ensures Steps(m, strict, envs).dev == Run(m.dev, RunEvents(m, strict, envs))
    decreases |envs|
  {
    if envs != [] && m.exec == RUNNING {
      var e, next := envs[0], Step(m, strict, envs[0]);
      StepKeeps(m, strict, e);
      StepIsEvents(m, strict, e);
      RunIsEvents(next, strict, envs[1..]);
      RunAppend(m.dev, StepEvents(m, strict, e), RunEvents(next, strict, envs[1..]));
    }
  }

  // ---- Strict mode refines normal mode

  lemma StrictRead(m: Machine, address: word, w: Width)
    requires Read(m, true, address, w).m.exec != FAULT
    ensures Read(m, true, address, w) == Read(m, false, address, w)
  {
  }

  lemma StrictExecute(m: Machine, d: Decoded, clockOk: bool)
    requires d.ra < GPR_COUNT && d.rb < GPR_COUNT && d.rc < GPR_COUNT
    requires Execute(m, true, d, clockOk).exec != FAULT
    ensures Execute(m, true, d, clockOk) == Execute(m, false, d, clockOk)
  {
  }

  lemma StrictStep(m: Machine, e: Env)
    requires Step(m, true, e).exec != FAULT
    ensures Step(m, true, e) == Step(m, false, e)
  {
    var entered := Enter(m, e);
    StrictRead(entered, entered.pc, W32);
    var fetched := Fetch(entered, true);
    if fetched.m.exec == RUNNING {
      StrictExecute(Advance(fetched.m), Decode(fetched.value), e.clockOk);
    }
  }

  /** A strict run that has not faulted is in exactly the state of the normal run. */
  lemma {:induction false} StrictRefinesNormal(m: Machine, envs: seq<Env>)
    requires Steps(m, true, envs).exec != FAULT
    ensures Steps(m, true, envs) == Steps(m, false, envs)
    decreases |envs|
  {
    if envs != [] && m.exec == RUNNING {
      StrictFaultStays(Step(m, true, envs[0]), envs[1..]);
      StrictStep(m, envs[0]);
      StrictRefinesNormal(Step(m, true, envs[0]), envs[1..]);
    }
  }

  /** A strict run that never faults passes through exactly the states of the normal run. */
  lemma StrictPassesThrough(m: Machine, envs: seq<Env>, k: nat)
    requires Steps(m, true, envs).exec != FAULT && k <= |envs|
    ensures Steps(m, true, envs[..k]) == Steps(m, false, envs[..k])
  {
    hide Step, Steps;
    assert envs == envs[..k] + envs[k..];
    StepsAppend(m, true, envs[..k], envs[k..]);
    StrictFaultStays(Steps(m, true, envs[..k]), envs[k..]);
    StrictRefinesNormal(m, envs[..k]);
  }

  lemma StrictFaultStays(m: Machine, envs: seq<Env>)
    ensures m.exec == FAULT ==> Steps(m, true, envs).exec == FAULT
  {
  }
}
