/** Two programs the theorems apply to: their hypotheses can be met. */
module Example {
  import opened Defs
  import opened Isa
  import opened Devices
  import opened Bus
  import opened Cpu
  import opened Safety
  import opened Interrupts
  import opened Assembler
  import opened Source
  import opened Simulation
  import opened ProgramSimulation
  import T = Timer

  // ---- A handler that does nothing and returns

  // ADDI R0, R0, 0 and RFE
  const HANDLER: seq<byte> := [0x20, 0, 0, 0, 0xFC, 0, 0, 0]

  /** The handler is in ROM, interrupts are enabled and the Timer has expired. */
  predicate Expired(m: Machine)
  {
    Holds(m.rom, HANDLER) && m.exec == RUNNING && Inv(m) && m.spr[SPR_SR] == 1 && m.dev.timer.status
  }

  /** Such a machine exists, at any PC. */
  lemma CanExpire(ram: Ram, gpr: Gprs, pc: word) returns (m: Machine)
    ensures Expired(m) && m.pc == pc
  {
    var booted := Boot(HANDLER, ram, gpr);
    BootInv(HANDLER, ram, gpr);
    m := booted.(pc := pc, spr := [1, 0, 0], dev := booted.dev.(timer := T.TimerState(1000, 0, true)));
  }

  lemma FirstByte(b: byte)
    ensures BigEndian([b, 0, 0, 0]) == b * 0x100_0000
  {
    assert [b, 0, 0, 0][..3] == [b, 0, 0] && [b, 0, 0][..2] == [b, 0] && [b, 0][..1] == [b] && [b][..0] == [];
    assert BigEndian([b]) == b && BigEndian([b, 0]) == b * 0x100 && BigEndian([b, 0, 0]) == b * 0x1_0000;
  }

  lemma FetchImage(m: Machine, strict: bool, image: seq<byte>)
    requires Holds(m.rom, image) && m.pc % 4 == 0 && m.pc + 4 <= |image|
    ensures Fetch(m, strict).m == m && Fetch(m, strict).value == BigEndian(image[m.pc..m.pc + 4])
  {
    hide BigEndian;
    assert m.rom[m.pc..m.pc + 4] == image[m.pc..m.pc + 4];
  }

  lemma FetchHandler(m: Machine, strict: bool)
    requires Holds(m.rom, HANDLER) && m.pc in {0, 4}
    ensures Fetch(m, strict) == Loaded(if m.pc == 0 then 0x2000_0000 else 0xFC00_0000, m)
  {
    FirstByte(0x20);
    FirstByte(0xFC);
    hide BigEndian;
    assert m.rom[m.pc..m.pc + 4] == if m.pc == 0 then [0x20, 0, 0, 0] else [0xFC, 0, 0, 0];
  }

  lemma EntryState(m: Machine, e: Env)
    requires Expired(m)
    ensures HardwareEntry(m, e) && Holds(m.rom, HANDLER) && Inv(m) && m.exec == RUNNING
    ensures var r := Enter(m, e); r.pc == 0 && r.spr[SPR_SR] == 0 && r.exec == RUNNING && r.rom == m.rom
  {
    hide TickAll, Ien, ClearIen;
    TakenIff(m, e);
    EnterKeeps(m, e);
  }

  lemma NoOperation(m: Machine, strict: bool, clockOk: bool)
    ensures var r := Execute(m, strict, Decode(0x2000_0000), clockOk);
      r.pc == m.pc && r.exec == m.exec && r.spr == m.spr && r.rom == m.rom
  {
  }

  lemma FirstInstruction(m: Machine, strict: bool, e: Env)
    requires Expired(m)
    ensures HardwareEntry(m, e) && Executed(m, strict, e) == Some(Decode(0x2000_0000))
    ensures var r := Step(m, strict, e); r.pc == 4 && r.exec == RUNNING && r.spr[SPR_SR] == 0 && r.rom == m.rom && Inv(r)
  {
    hide Enter, Execute, Read, Decode, Inv, Holds, HardwareEntry;
    EntryState(m, e);
    StepKeeps(m, strict, e);
    FetchHandler(Enter(m, e), strict);
    NoOperation(Advance(Enter(m, e)), strict, e.clockOk);
  }

  lemma SecondInstruction(m: Machine, strict: bool, e: Env)
    requires Holds(m.rom, HANDLER) && Inv(m) && m.exec == RUNNING && m.pc == 4 && m.spr[SPR_SR] == 0
    ensures Executed(m, strict, e) == Some(Decode(0xFC00_0000))
  {
    hide TickAll, Ien, ClearIen, Read, Find, BigEndian;
    TakenIff(m, e);
    EnterKeeps(m, e);
    FetchHandler(Enter(m, e), strict);
  }

  lemma Opcodes()
    ensures !IsRfe(Some(Decode(0x2000_0000))) && !WritesState(Some(Decode(0x2000_0000)))
    ensures IsRfe(Some(Decode(0xFC00_0000))) && !WritesState(Some(Decode(0xFC00_0000)))
  {
  }

  /** The handler is entered, executes its first instruction and returns: the program goes on where it was. */
  lemma HandlerReturns(m: Machine, strict: bool, e: Env, e': Env)
    requires Expired(m)
    ensures HardwareEntry(m, e)
    ensures var r := Steps(m, strict, [e, e']); r.pc == m.pc && r.spr == [1, m.pc, 0] && r.exec == RUNNING
  {
    hide Step, Executed, Decode, Inv, Holds, HardwareEntry, IsRfe, WritesState;
    FirstInstruction(m, strict, e);
    SecondInstruction(Step(m, strict, e), strict, e');
    Opcodes();
    assert [e, e'][1..] == [e'];
    HardwareRoundTrip(m, strict, [e, e']);
  }

  // ---- A handler that acknowledges too late

  // At 0: three times ADDI R0, R0, 0, then LBU R2, 7(R1) and RFE; at 20 the program, three times ADDI R0, R0, 0
  const NOP: seq<byte> := [0x20, 0, 0, 0]
  const ACK: seq<byte> := [0x90, 0x22, 0, 7]
  const LATE: seq<byte> := NOP + NOP + NOP + ACK + [0xFC, 0, 0, 0] + NOP + NOP + NOP

  /** Between two cycles: R1 holds the address of the Timer and no byte is latched. */
  predicate LateAt(m: Machine, pc: word, sr: word, iar: word, timer: T.TimerState)
  {
    && Holds(m.rom, LATE) && Inv(m) && m.exec == RUNNING && m.gpr[1] == 0xC014_0000 && !m.dev.input.ready
    && m.pc == pc && m.spr[SPR_SR] == sr && m.spr[SPR_IAR] == iar && m.dev.timer == timer
  }

  lemma LateFetch(m: Machine, strict: bool)
    requires Holds(m.rom, LATE) && m.pc in {0, 4, 8, 12, 16, 20, 24, 28}
    ensures Fetch(m, strict) == Loaded(if m.pc == 12 then 0x9022_0007 else if m.pc == 16 then 0xFC00_0000 else 0x2000_0000, m)
  {
    hide BigEndian, Fetch;
    FirstByte(0x20);
    FirstByte(0xFC);
    AckWord();
    LateBytes(m.pc);
    FetchImage(m, strict, LATE);
  }

  lemma LateBytes(pc: word)
    requires pc in {0, 4, 8, 12, 16, 20, 24, 28}
    ensures LATE[pc..pc + 4] == if pc == 12 then [0x90, 0x22, 0, 7] else if pc == 16 then [0xFC, 0, 0, 0] else [0x20, 0, 0, 0]
  {
    var w := LATE[pc..pc + 4];
    assert w == if pc == 12 then ACK else if pc == 16 then [0xFC, 0, 0, 0] else NOP;
  }

  lemma AckWord()
    ensures BigEndian([0x90, 0x22, 0, 7]) == 0x9022_0007
  {
    assert [0x90, 0x22, 0, 7][..3] == [0x90, 0x22, 0] && [0x90, 0x22, 0][..2] == [0x90, 0x22];
    assert [0x90, 0x22][..1] == [0x90] && [0x90][..0] == [];
    assert BigEndian([0x90]) == 0x90 && BigEndian([0x90, 0x22]) == 0x9022 && BigEndian([0x90, 0x22, 0]) == 0x90_2200;
  }

  lemma LateEnter(m: Machine, e: Env, pc: word, sr: word, iar: word, timer: T.TimerState)
    requires LateAt(m, pc, sr, iar, timer) && e.stdin == None
    ensures HardwareEntry(m, e) <==> sr == 1 && timer.Tick().status
    ensures var r, taken := Enter(m, e), sr == 1 && timer.Tick().status;
      && r == m.(pc := r.pc, spr := r.spr, dev := r.dev) && r.dev.timer == timer.Tick() && !r.dev.input.ready
      && r.pc == (if taken then 0 else pc) && r.spr[SPR_SR] == (if taken then 0 else sr)
      && r.spr[SPR_IAR] == (if taken then pc else iar)
  {
    hide TickAll, Ien, ClearIen;
    TakenIff(m, e);
    EnterKeeps(m, e);
    TickIsSummary(m.devices, m.dev, e.stdin);
  }

  lemma NopExecutes(m: Machine, strict: bool, clockOk: bool)
    requires m.gpr[0] == 0
    ensures Execute(m, strict, Decode(0x2000_0000), clockOk) == m
  {
    assert m.gpr[0 := 0] == m.gpr;
  }

  /** A cycle that executes ADDI R0, R0, 0, entered by an interrupt or not. */
  lemma LateNop(m: Machine, strict: bool, e: Env, pc: word, sr: word, iar: word, timer: T.TimerState)
    requires LateAt(m, pc, sr, iar, timer) && e.stdin == None && Enter(m, e).pc in {0, 4, 8, 20, 24, 28}
    ensures Executed(m, strict, e) == Some(Decode(0x2000_0000))
    ensures var r := Enter(m, e); LateAt(Step(m, strict, e), r.pc + 4, r.spr[SPR_SR], r.spr[SPR_IAR], timer.Tick())
  {
    hide Enter, Execute, Read, Decode, Inv, Holds, HardwareEntry;
    LateEnter(m, e, pc, sr, iar, timer);
    ZeroRegister(m);
    LateFetch(Enter(m, e), strict);
    NopExecutes(Advance(Enter(m, e)), strict, e.clockOk);
    StepKeeps(m, strict, e);
  }

  lemma ZeroRegister(m: Machine)
    requires Inv(m)
    ensures m.gpr[0] == 0 && Installed(m.devices)
  {
  }

  lemma AckReads(m: Machine, strict: bool)
    requires Installed(m.devices)
    ensures Read(m, strict, 0xC014_0007, W8).m == m.(dev := m.dev.Read(Timer, 7, 1))
  {
    ReadCases(m, strict, 0xC014_0007, W8);
    RoutingUnique(m.devices, DEVICE_MAP[5], 0xC014_0007);
    hide Read, Find;
  }

  lemma AckDecodes()
    ensures var d := Decode(0x9022_0007); d.opcode == I_LBU && d.ra == 1 && d.rb == 2 && d.imm16Sext == 7
  {
  }

  lemma AckExecutes(m: Machine, strict: bool, clockOk: bool)
    requires m.gpr[0] == 0 && m.gpr[1] == 0xC014_0000 && Installed(m.devices)
    ensures var r := Execute(m, strict, Decode(0x9022_0007), clockOk);
      && r == m.(gpr := r.gpr, dev := r.dev) && r.gpr[1] == m.gpr[1]
      && r.dev.timer == m.dev.timer.(status := false) && r.dev.input == m.dev.input
  {
    hide Decode, Read, Dispatch, Extend;
    var d := Decode(0x9022_0007);
    AckDecodes();
    AckReads(m, strict);
    DispatchLoad(m, strict, d, clockOk);
    assert Address(m, d) == 0xC014_0007;
  }

  lemma LateAck(m: Machine, strict: bool, e: Env, iar: word, timer: T.TimerState)
    requires LateAt(m, 12, 0, iar, timer) && e.stdin == None
    ensures Executed(m, strict, e) == Some(Decode(0x9022_0007))
    ensures LateAt(Step(m, strict, e), 16, 0, iar, timer.Tick().(status := false))
  {
    hide Enter, Execute, Read, Decode, Inv, Holds, HardwareEntry, Installed;
    LateEnter(m, e, 12, 0, iar, timer);
    ZeroRegister(m);
    LateFetch(Enter(m, e), strict);
    AckExecutes(Advance(Enter(m, e)), strict, e.clockOk);
    StepKeeps(m, strict, e);
  }

  lemma RfeExecutes(m: Machine, strict: bool, clockOk: bool)
    requires m.gpr[0] == 0 && m.spr[SPR_SR] == 0
    ensures var r := Execute(m, strict, Decode(0xFC00_0000), clockOk);
      r == m.(pc := m.spr[SPR_IAR], spr := m.spr[SPR_SR := 1])
  {
    IenArithmetic(0);
    assert m.gpr[0 := 0] == m.gpr;
  }

  lemma LateRfe(m: Machine, strict: bool, e: Env, iar: word, timer: T.TimerState)
    requires LateAt(m, 16, 0, iar, timer) && e.stdin == None
    ensures Executed(m, strict, e) == Some(Decode(0xFC00_0000))
    ensures LateAt(Step(m, strict, e), iar, 1, iar, timer.Tick())
  {
    hide Enter, Execute, Read, Decode, Inv, Holds, HardwareEntry, Installed;
    LateEnter(m, e, 16, 0, iar, timer);
    ZeroRegister(m);
    LateFetch(Enter(m, e), strict);
    RfeExecutes(Advance(Enter(m, e)), strict, e.clockOk);
    StepKeeps(m, strict, e);
  }

  lemma LateProgram(m: Machine, strict: bool, iar: word, e0: Env, e1: Env) returns (r: Machine)
    requires LateAt(m, 20, 1, iar, T.TimerState(3, 0, false)) && e0.stdin == e1.stdin == None
    ensures r == Step(Step(m, strict, e0), strict, e1) && LateAt(r, 28, 1, iar, T.TimerState(3, 2, false))
  {
    hide Step, Enter, Executed, Decode, HardwareEntry, LateAt;
    LateEnter(m, e0, 20, 1, iar, T.TimerState(3, 0, false));
    LateNop(m, strict, e0, 20, 1, iar, T.TimerState(3, 0, false));
    var next := Step(m, strict, e0);
    LateEnter(next, e1, 24, 1, iar, T.TimerState(3, 1, false));
    LateNop(next, strict, e1, 24, 1, iar, T.TimerState(3, 1, false));
    r := Step(next, strict, e1);
  }

  /** Such a machine exists, with any RAM. */
  lemma CanBeLate(ram: Ram, gpr: Gprs) returns (m: Machine)
    ensures LateAt(m, 20, 1, 0, T.TimerState(3, 0, false))
  {
    var booted := Boot(LATE, ram, gpr[1 := 0xC014_0000]);
    BootInv(LATE, ram, gpr[1 := 0xC014_0000]);
    m := booted.(pc := 20, spr := [1, 0, 0], dev := booted.dev.(timer := T.TimerState(3, 0, false)));
  }

  lemma LateMachine(m: Machine, pc: word, sr: word, iar: word, timer: T.TimerState)
    requires LateAt(m, pc, sr, iar, timer)
    ensures m.exec == RUNNING && m.pc == pc && m.spr[SPR_SR] == sr
  {
  }

  lemma LateOpcodes()
    ensures forall w: word :: w == 0x2000_0000 || w == 0x9022_0007 ==> !IsRfe(Some(Decode(w))) && !WritesState(Some(Decode(w)))
    ensures IsRfe(Some(Decode(0xFC00_0000))) && !WritesState(Some(Decode(0xFC00_0000)))
  {
  }

  /** One more cycle in front of a handler's last ones. */
  lemma OneMore(m: Machine, strict: bool, e: Env, rest: seq<Env>)
    requires m.exec == RUNNING && ToFirstRfe(Step(m, strict, e), strict, rest)
    requires Executed(m, strict, e) in {Some(Decode(0x2000_0000)), Some(Decode(0x9022_0007))}
    ensures ToFirstRfe(m, strict, [e] + rest)
    ensures Steps(m, strict, [e] + rest) == Steps(Step(m, strict, e), strict, rest)
  {
    hide Step, Executed, Decode, IsRfe, WritesState;
    LateOpcodes();
    assert ([e] + rest)[1..] == rest;
  }

  lemma OnlyRfe(m: Machine, strict: bool, e: Env)
    requires m.exec == RUNNING && Executed(m, strict, e) == Some(Decode(0xFC00_0000))
    ensures ToFirstRfe(m, strict, [e]) && Steps(m, strict, [e]) == Step(m, strict, e)
  {
    hide Step, Executed, Decode, IsRfe, WritesState;
    LateOpcodes();
    assert [e][1..] == [];
  }

  /** With a period of 3, the handler is entered at tick 3, acknowledges after tick 6 and returns at tick 7:
      it took 5 cycles, two more than the period, and still the next cycle goes on with the program. */
  lemma LateAcknowledgement(m: Machine, strict: bool, iar: word, e0: Env, e1: Env, handler: seq<Env>, e7: Env)
    requires LateAt(m, 20, 1, iar, T.TimerState(3, 0, false)) && e0.stdin == e1.stdin == e7.stdin == None
    requires |handler| == 5 && forall e :: e in handler ==> e.stdin == None
    ensures var entered := Step(Step(m, strict, e0), strict, e1);
      var last := Steps(entered, strict, handler);
      && HardwareEntry(entered, handler[0]) && ToFirstRfe(entered, strict, handler)
      && last.exec == RUNNING && last.pc == entered.pc == 28 && last.spr[SPR_SR] == 1 && !HardwareEntry(last, e7)
  {
    hide Step, Enter, Executed, Decode, HardwareEntry, LateAt, IsRfe, WritesState;
    var m2 := LateProgram(m, strict, iar, e0, e1);
    var a, b, c, d, f := handler[0], handler[1], handler[2], handler[3], handler[4];
    assert handler == [a, b, c, d, f];
    LateEnter(m2, a, 28, 1, iar, T.TimerState(3, 2, false));
    LateNop(m2, strict, a, 28, 1, iar, T.TimerState(3, 2, false));
    var m3 := Step(m2, strict, a);
    LateEnter(m3, b, 4, 0, 28, T.TimerState(3, 0, true));
    LateNop(m3, strict, b, 4, 0, 28, T.TimerState(3, 0, true));
    var m4 := Step(m3, strict, b);
    LateEnter(m4, c, 8, 0, 28, T.TimerState(3, 1, true));
    LateNop(m4, strict, c, 8, 0, 28, T.TimerState(3, 1, true));
    var m5 := Step(m4, strict, c);
    LateAck(m5, strict, d, 28, T.TimerState(3, 2, true));
    var m6 := Step(m5, strict, d);
    LateRfe(m6, strict, f, 28, T.TimerState(3, 0, false));
    var m7 := Step(m6, strict, f);
    LateEnter(m7, e7, 28, 1, 28, T.TimerState(3, 1, false));
    LateMachine(m2, 28, 1, iar, T.TimerState(3, 2, false));
    LateMachine(m3, 4, 0, 28, T.TimerState(3, 0, true));
    LateMachine(m4, 8, 0, 28, T.TimerState(3, 1, true));
    LateMachine(m5, 12, 0, 28, T.TimerState(3, 2, true));
    LateMachine(m6, 16, 0, 28, T.TimerState(3, 0, false));
    LateMachine(m7, 28, 1, 28, T.TimerState(3, 1, false));
    OnlyRfe(m6, strict, f);
    OneMore(m5, strict, d, [f]);
    OneMore(m4, strict, c, [d] + [f]);
    OneMore(m3, strict, b, [c] + ([d] + [f]));
    OneMore(m2, strict, a, [b] + ([c] + ([d] + [f])));
    assert handler == [a] + ([b] + ([c] + ([d] + [f])));
  }

  // ---- LOOP: J LOOP

  const NAME := "LOOP"
  const JUMP := Token("J", Some(J), None, None, None)
  const LABEL := Token(NAME, None, None, None, None)
  const IDLE: seq<Line> := [Line(Some(NAME), Code([JUMP, LABEL]))]

  const IDLE_CONSTANTS: Constants := map[NAME := 0]
  const IDLE_JUMP := Instruction([JUMP, LABEL], 0)

  lemma IdleParses()
    ensures Parse(IDLE) == Ok(Layout([IDLE_JUMP], IDLE_CONSTANTS, 4))
  {
    assert IDLE[..0] == [] && ' ' !in NAME && NAME != "";
    assert PlaceLabel(Layout([], map[], 0), Some(NAME)) == Ok(Layout([], IDLE_CONSTANTS, 0));
    var before: Layout := Layout([], IDLE_CONSTANTS, 0);
    assert PlaceBody(before, IDLE[0].body) == Ok(Layout([IDLE_JUMP], IDLE_CONSTANTS, 4)) by {
      assert before.instructions + [IDLE_JUMP] == [IDLE_JUMP];
    }
    assert Parse(IDLE) == PlaceLine(Layout([], map[], 0), IDLE[0]);
  }

  lemma IdleReads()
    ensures ReadInstr(IDLE_JUMP, IDLE_CONSTANTS) == Ok(Jump(false, 0))
  {
    assert NAME in IDLE_CONSTANTS;
  }

  lemma IdleAssembles()
    ensures AssembleFile(IDLE).Ok? && ProgramOf(IDLE) == [Jump(false, 0)]
  {
    hide Parse, Assemble, ReadInstr, Split;
    IdleParses();
    IdleReads();
    AssembleIs(IDLE_JUMP, IDLE_CONSTANTS);
    assert [IDLE_JUMP][..0] == [];
    assert Image([IDLE_JUMP], IDLE_CONSTANTS).Ok?;
  }

  /** The idle loop never leaves its instruction, and so is simulated for any number of cycles. */
  lemma {:induction false} IdleStays(m: Machine, strict: bool, envs: seq<Env>)
    requires m.exec == RUNNING && m.pc == 0
    ensures Stays([Jump(false, 0)], m, strict, envs)
    ensures SourceSteps([Jump(false, 0)], m, strict, envs).pc == 0
    ensures SourceSteps([Jump(false, 0)], m, strict, envs).exec == RUNNING
    decreases |envs|
  {
    if envs != [] {
      IdleStays(SourceStep([Jump(false, 0)], m, strict, envs[0]), strict, envs[1..]);
    }
  }

  /** From reset the assembled idle loop runs forever, in either mode, whatever RAM and registers hold. */
  lemma IdleRuns(ram: Ram, gpr: Gprs, strict: bool, envs: seq<Env>)
    ensures AssembleFile(IDLE).Ok? && |AssembleFile(IDLE).value| <= ROM_SIZE
    ensures var r := Steps(Boot(AssembleFile(IDLE).value, ram, gpr), strict, envs); r.exec == RUNNING && r.pc == 0
  {
    hide AssembleFile, ProgramOf, Stays, SourceSteps;
    IdleAssembles();
    BootSimulates(IDLE, ram, gpr, strict, envs);
    IdleStays(Boot(AssembleFile(IDLE).value, ram, gpr), strict, envs);
  }
}
