/** Handlers are invisible: a program interrupted any number of times computes what it computes undisturbed. */
module Transparency {
  import opened Defs
  import opened Isa
  import opened Devices
  import opened Bus
  import opened Cpu
  import opened Safety
  import opened Interrupts
  import opened Uninitialised

  /** All RAM offsets but those the handlers keep to themselves. */
  function Outside(x: set<int>): set<int> { set i | 0 <= i < RAM_SIZE && i !in x }

  /** Equal to a program that does not look at devices, special registers and the RAM in x: ROM, general
      registers, PC, execution state and the other RAM bytes. */
  ghost predicate SameView(a: Machine, b: Machine, x: set<int>)
  {
    Agree(a, b.(dev := a.dev, spr := a.spr), Outside(x))
  }

  lemma SameViewIff(a: Machine, b: Machine, x: set<int>)
    ensures SameView(a, b, x) <==>
      && b == a.(ram := b.ram, dev := b.dev, spr := b.spr)
      && forall i :: 0 <= i < RAM_SIZE && i !in x ==> a.ram[i] == b.ram[i]
  {
    assert forall i :: i in Outside(x) <==> 0 <= i < RAM_SIZE && i !in x;
  }

  // ---- Program cycles

  /** Instructions that only work on general registers, PC and memory: not INT, RFE, MOVI2S or MOVS2I. */
  predicate Unprivileged(d: Decoded)
  {
    d.opcode != I_INT && d.opcode != I_RFE && !(d.opcode == I_RTYPE && d.func in {I_MOVI2S_FUNC, I_MOVS2I_FUNC})
  }

  /** The access stays below the devices and outside x. */
  predicate Private(address: word, w: Width, x: set<int>) { address < DEVICES_BASE && Span(address, w) !! x }

  /** The instruction at the PC is unprivileged, and neither its fetch nor its data access touches a device or x. */
  predicate Plain(m: Machine, strict: bool, x: set<int>)
  {
    Private(m.pc, W32, x) &&
    var fetched := Fetch(m, strict);
    fetched.m.exec == RUNNING ==>
      var d := Decode(fetched.value);
      && Unprivileged(d)
      && (LoadWidth(d.opcode).Some? ==> Private(Address(m, d), LoadWidth(d.opcode).value, x))
      && (StoreWidth(d.opcode).Some? ==> Private(Address(m, d), StoreWidth(d.opcode).value, x))
  }

  lemma ReadIgnores(m: Machine, dev: DeviceStates, spr: Sprs, strict: bool, address: word, w: Width)
    requires address < DEVICES_BASE
    ensures var r := Read(m, strict, address, w); r.m == m.(exec := r.m.exec)
    ensures Read(m.(dev := dev, spr := spr), strict, address, w) ==
      var r := Read(m, strict, address, w); Loaded(r.value, r.m.(dev := dev, spr := spr))
  {
    hide BigEndian, Find;
  }

  lemma WriteIgnores(m: Machine, dev: DeviceStates, spr: Sprs, strict: bool, address: word, data: word, w: Width)
    requires address < DEVICES_BASE
    ensures Write(m.(dev := dev, spr := spr), strict, address, data, w) ==
      Write(m, strict, address, data, w).(dev := dev, spr := spr)
    ensures Write(m, strict, address, data, w).dev == m.dev && Write(m, strict, address, data, w).spr == m.spr
  {
    hide Split, Find;
  }

  lemma OthersIgnore(m: Machine, dev: DeviceStates, spr: Sprs, strict: bool, d: Decoded, clockOk: bool, clockOk': bool)
    requires d.ra < GPR_COUNT && d.rb < GPR_COUNT && d.rc < GPR_COUNT && Unprivileged(d)
    requires LoadWidth(d.opcode).None? && StoreWidth(d.opcode).None?
    ensures Dispatch(m.(dev := dev, spr := spr), strict, d, clockOk') == Dispatch(m, strict, d, clockOk).(dev := dev, spr := spr)
    ensures Dispatch(m, strict, d, clockOk).dev == m.dev && Dispatch(m, strict, d, clockOk).spr == m.spr
  {
    hide AluI, AluR, ExecuteInt;
  }

  /** An unprivileged instruction without device access neither sees nor changes devices and special registers. */
  lemma ExecuteIgnores(m: Machine, dev: DeviceStates, spr: Sprs, strict: bool, d: Decoded, clockOk: bool, clockOk': bool)
    requires d.ra < GPR_COUNT && d.rb < GPR_COUNT && d.rc < GPR_COUNT && Unprivileged(d)
    requires LoadWidth(d.opcode).Some? || StoreWidth(d.opcode).Some? ==> Address(m, d) < DEVICES_BASE
    ensures Execute(m.(dev := dev, spr := spr), strict, d, clockOk') == Execute(m, strict, d, clockOk).(dev := dev, spr := spr)
    ensures Execute(m, strict, d, clockOk).dev == m.dev && Execute(m, strict, d, clockOk).spr == m.spr
  {
    hide Dispatch, Read, Write, Extend, Unprivileged;
    var m' := m.(dev := dev, spr := spr);
    if LoadWidth(d.opcode).Some? {
      DispatchLoad(m, strict, d, clockOk);
      DispatchLoad(m', strict, d, clockOk');
      ReadIgnores(m, dev, spr, strict, Address(m, d), LoadWidth(d.opcode).value);
    } else if StoreWidth(d.opcode).Some? {
      DispatchStore(m, strict, d, clockOk);
      DispatchStore(m', strict, d, clockOk');
      WriteIgnores(m, dev, spr, strict, Address(m, d), m.gpr[d.rb], StoreWidth(d.opcode).value);
    } else {
      OthersIgnore(m, dev, spr, strict, d, clockOk, clockOk');
    }
  }

  /** The same instruction, executed in two machines with the same view. */
  lemma ExecuteSameView(a: Machine, b: Machine, x: set<int>, strict: bool, d: Decoded, clockOk: bool, clockOk': bool)
    requires d.ra < GPR_COUNT && d.rb < GPR_COUNT && d.rc < GPR_COUNT && SameView(a, b, x) && Unprivileged(d)
    requires LoadWidth(d.opcode).Some? ==> Private(Address(a, d), LoadWidth(d.opcode).value, x)
    requires StoreWidth(d.opcode).Some? ==> Private(Address(a, d), StoreWidth(d.opcode).value, x)
    ensures SameView(Execute(a, strict, d, clockOk), Execute(b, strict, d, clockOk'), x)
    ensures Execute(a, strict, d, clockOk).spr == a.spr && Execute(b, strict, d, clockOk').spr == b.spr
  {
    hide Execute, Unprivileged, Span;
    var b' := b.(dev := a.dev, spr := a.spr);
    SpanOutside(Address(a, d), if LoadWidth(d.opcode).Some? then LoadWidth(d.opcode).value else W8, x);
    ExecuteAgrees(a, b', strict, d, clockOk, Outside(x));
    ExecuteIgnores(a, a.dev, a.spr, strict, d, clockOk, clockOk);
    ExecuteIgnores(b, a.dev, a.spr, strict, d, clockOk', clockOk);
  }

  lemma SpanOutside(address: word, w: Width, x: set<int>)
    ensures Span(address, w) !! x ==> Span(address, w) <= Outside(x)
  {
    if Span(address, w) !! x {
      forall i | i in Span(address, w) ensures i in Outside(x) { }
    }
  }

  /** One program cycle, taken by an interrupted machine and by an undisturbed one. */
  lemma StepSameView(a: Machine, b: Machine, x: set<int>, strict: bool, e: Env, e': Env)
    requires SameView(a, b, x) && a.exec == RUNNING && Plain(a, strict, x)
    requires Inv(a) && Inv(b) && !HardwareEntry(a, e) && !HardwareEntry(b, e')
    ensures SameView(Step(a, strict, e), Step(b, strict, e'), x)
    ensures Step(a, strict, e).spr == a.spr && Step(b, strict, e').spr == b.spr
  {
    hide TickAll, Ien, ClearIen, Read, Execute, Decode, Unprivileged, LoadWidth, StoreWidth, Inv;
    var n, n' := Enter(a, e), Enter(b, e');
    assert n == a.(dev := n.dev) && n' == b.(dev := n'.dev);
    SpanOutside(a.pc, W32, x);
    ReadIgnores(a, n.dev, a.spr, strict, a.pc, W32);
    ReadIgnores(n', n.dev, a.spr, strict, a.pc, W32);
    ReadIgnores(n', n'.dev, n'.spr, strict, a.pc, W32);
    ReadAgrees(n, n'.(dev := n.dev, spr := n.spr), strict, a.pc, W32, Outside(x));
    var fetched, fetched' := Fetch(n, strict), Fetch(n', strict);
    if fetched.m.exec == RUNNING {
      var d := Decode(fetched.value);
      AdvanceKeeps(fetched.m, d);
      ExecuteSameView(Advance(fetched.m), Advance(fetched'.m), x, strict, d, e.clockOk, e'.clockOk);
    }
  }

  // ---- Interrupted runs

  /** A program cycle, or the cycles of a handler from its entry to its first RFE. */
  datatype Segment = Program(e: Env) | Handler(envs: seq<Env>)

  function Cycles(segments: seq<Segment>): seq<Env>
  {
    if segments == [] then []
    else (match segments[0] case Program(e) => [e] case Handler(envs) => envs) + Cycles(segments[1..])
  }

  function ProgramCycles(segments: seq<Segment>): nat
  {
    if segments == [] then 0 else (if segments[0].Program? then 1 else 0) + ProgramCycles(segments[1..])
  }

  /** The handler leaves the general registers and the RAM outside x as it found them. */
  predicate Restores(a: Machine, b: Machine, x: set<int>)
  {
    b.gpr == a.gpr && forall i :: 0 <= i < RAM_SIZE && i !in x ==> a.ram[i] == b.ram[i]
  }

  /** The run consists of the segments: plain program cycles, and complete handlers that restore what they use. */
  predicate Interleaves(m: Machine, strict: bool, x: set<int>, segments: seq<Segment>)
    decreases |segments|
  {
    segments == [] || m.exec != RUNNING ||
    match segments[0]
    case Program(e) =>
      !HardwareEntry(m, e) && Plain(m, strict, x) && Interleaves(Step(m, strict, e), strict, x, segments[1..])
    case Handler(envs) =>
      && ToFirstRfe(m, strict, envs) && HardwareEntry(m, envs[0])
      && Restores(m, Steps(m, strict, envs), x) && Interleaves(Steps(m, strict, envs), strict, x, segments[1..])
  }

  lemma HandlerSameView(a: Machine, b: Machine, x: set<int>, strict: bool, envs: seq<Env>)
    requires Inv(a) && a.spr[SPR_SR] == 1 && SameView(a, b, x)
    requires ToFirstRfe(a, strict, envs) && HardwareEntry(a, envs[0]) && Restores(a, Steps(a, strict, envs), x)
    ensures SameView(Steps(a, strict, envs), b, x) && Inv(Steps(a, strict, envs)) && Steps(a, strict, envs).spr[SPR_SR] == 1
  {
    assert a.exec == RUNNING;
    hide Steps, ToFirstRfe, HardwareEntry, SameView;
    var r := Steps(a, strict, envs);
    HardwareRoundTrip(a, strict, envs);
    RunKeeps(a, strict, envs);
    DevicesKept(a, strict, envs);
    SameViewIff(a, b, x);
    SameViewIff(r, b, x);
  }

  /** Transparency: an interrupted run, restricted to its program cycles, is the run of the same program on a
      machine with interrupts disabled, whatever devices, special registers and the RAM in x hold there. */
  lemma {:induction false} Transparent(a: Machine, b: Machine, x: set<int>, strict: bool, segments: seq<Segment>, envs: seq<Env>)
    requires Inv(a) && Inv(b) && a.spr[SPR_SR] == 1 && b.spr[SPR_SR] == 0 && SameView(a, b, x)
    requires Interleaves(a, strict, x, segments) && |envs| == ProgramCycles(segments)
    ensures SameView(Steps(a, strict, Cycles(segments)), Steps(b, strict, envs), x)
    decreases |segments|
  {
    hide Step, HardwareEntry, Plain, ToFirstRfe, Inv, Restores;
    SameViewIff(a, b, x);
    if segments != [] && a.exec == RUNNING {
      var rest := Cycles(segments[1..]);
      match segments[0] {
        case Program(e) =>
          NoEntryWhenOff(b, envs[0]);
          StepSameView(a, b, x, strict, e, envs[0]);
          StepKeeps(a, strict, e);
          StepKeeps(b, strict, envs[0]);
          Transparent(Step(a, strict, e), Step(b, strict, envs[0]), x, strict, segments[1..], envs[1..]);
          assert ([e] + rest)[1..] == rest;
        case Handler(hs) =>
          HandlerSameView(a, b, x, strict, hs);
          Transparent(Steps(a, strict, hs), b, x, strict, segments[1..], envs);
          StepsAppend(a, strict, hs, rest);
      }
    } else if segments == [] {
      assert envs == [];
    }
  }

  lemma NoEntryWhenOff(m: Machine, e: Env)
    requires Inv(m) && m.exec == RUNNING && m.spr[SPR_SR] == 0
    ensures !HardwareEntry(m, e)
  {
    TakenIff(m, e);
  }

  lemma {:induction false} DevicesKept(m: Machine, strict: bool, envs: seq<Env>)
    requires Inv(m)
    ensures Steps(m, strict, envs).devices == m.devices
    decreases |envs|
  {
    if envs != [] && m.exec == RUNNING {
      StepDevices(m, strict, envs[0]);
      StepKeeps(m, strict, envs[0]);
      DevicesKept(Step(m, strict, envs[0]), strict, envs[1..]);
    }
  }

  lemma StepDevices(m: Machine, strict: bool, e: Env)
    requires Inv(m) && m.exec == RUNNING
    ensures Step(m, strict, e).devices == m.devices
  {
    hide Read, Execute, Decode, TickAll;
    EnterKeeps(m, e);
    var entered := Enter(m, e);
    ReadKeeps(entered, strict, entered.pc, W32);
    var fetched := Fetch(entered, strict);
    if fetched.m.exec == RUNNING {
      ExecuteKeeps(Advance(fetched.m), strict, Decode(fetched.value), e.clockOk);
    }
  }
}
