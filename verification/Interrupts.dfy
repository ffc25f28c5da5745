/** Interrupt entry, handler sections and level triggering, over whole runs. */
module Interrupts {
  import opened Defs
  import opened Bits
  import opened Isa
  import opened Devices
  import opened Bus
  import opened Cpu
  import opened Safety

  /** The cycle enters the handler because of the interrupt line. */
  predicate HardwareEntry(m: Machine, e: Env)
  {
    TickAll(m.devices, m.dev, e.stdin).ic.cpuLine && Ien(m.spr[SPR_SR])
  }

  /** In every cycle of every run a hardware interrupt is taken exactly when IEN is set and,
      after the ticks, a byte is latched or a timer expiration is not acknowledged. Entry
      saves the PC, clears IEN and CR and jumps to 0; otherwise PC and SPRs stay. */
  lemma TakenIff(m: Machine, e: Env)
    requires Inv(m) && m.exec == RUNNING
    ensures HardwareEntry(m, e) <==> m.spr[SPR_SR] == 1 && Enter(m, e).dev.Requesting()
    ensures m.dev.Requesting() ==> Enter(m, e).dev.Requesting()
    ensures HardwareEntry(m, e) ==> Enter(m, e).spr == [0, m.pc, 0] && Enter(m, e).pc == 0
    ensures !HardwareEntry(m, e) ==> Enter(m, e).spr == m.spr && Enter(m, e).pc == m.pc
  {
    TickIsSummary(m.devices, m.dev, e.stdin);
    AfterTicks(m.dev, e.stdin);
    IenArithmetic(m.spr[SPR_SR]);
  }

  /** The instruction a cycle executes, if its fetch succeeds. */
  function Executed(m: Machine, strict: bool, e: Env): Option<Decoded>
  {
    var fetched := Fetch(Enter(m, e), strict);
    if fetched.m.exec == RUNNING then Some(Decode(fetched.value)) else None
  }

  predicate IsRfe(i: Option<Decoded>) { i.Some? && i.value.opcode == I_RFE }

  /** MOVI2S to SR or IAR */
  predicate WritesState(i: Option<Decoded>)
  {
    i.Some? && i.value.opcode == I_RTYPE && i.value.func == I_MOVI2S_FUNC && (i.value.rc == SPR_SR || i.value.rc == SPR_IAR)
  }

  lemma ExecuteKeepsSpr(m: Machine, strict: bool, d: Decoded, clockOk: bool)
    requires d.ra < GPR_COUNT && d.rb < GPR_COUNT && d.rc < GPR_COUNT
    requires !IsRfe(Some(d)) && !WritesState(Some(d)) && m.spr[SPR_SR] == 0
    ensures Execute(m, strict, d, clockOk).spr == m.spr
  {
    IenArithmetic(m.spr[SPR_SR]);
    if d.opcode == I_RTYPE {
      if d.func == I_MOVI2S_FUNC && d.rc == SPR_CR {
        MaskedWriteArithmetic(m.spr[SPR_CR], m.gpr[d.ra]);
        assert m.spr[SPR_CR := m.spr[SPR_CR]] == m.spr;
      }
      assert ExecuteR(m, strict, d).spr == m.spr;
    } else if LoadWidth(d.opcode).Some? {
      ReadKeeps(m, strict, Address(m, d), LoadWidth(d.opcode).value);
    } else if StoreWidth(d.opcode).Some? {
      WriteKeeps(m, strict, Address(m, d), m.gpr[d.rb], StoreWidth(d.opcode).value);
    }
  }

  lemma RfeResumes(m: Machine, strict: bool, d: Decoded, clockOk: bool)
    requires d.ra < GPR_COUNT && d.rb < GPR_COUNT && d.rc < GPR_COUNT
    requires d.opcode == I_RFE && m.spr[SPR_SR] == 0
    ensures var r := Execute(m, strict, d, clockOk);
      r.pc == m.spr[SPR_IAR] && r.spr == m.spr[SPR_SR := 1] && r.exec == m.exec
  {
    IenArithmetic(m.spr[SPR_SR]);
  }

  /** The effect of one cycle on the special registers when it executes in handler mode. */
  lemma HandlerStep(m: Machine, strict: bool, e: Env)
    requires Inv(m) && m.exec == RUNNING && Enter(m, e).spr[SPR_SR] == 0
    requires !WritesState(Executed(m, strict, e))
    ensures var r, entered := Step(m, strict, e), Enter(m, e);
      if IsRfe(Executed(m, strict, e))
      then r.pc == entered.spr[SPR_IAR] && r.spr == entered.spr[SPR_SR := 1] && r.exec == RUNNING
      else r.spr == entered.spr
  {
    hide Execute, Ien, TickAll;
    var entered := Enter(m, e);
    ReadKeeps(entered, strict, entered.pc, W32);
    var fetched := Fetch(entered, strict);
    if fetched.m.exec == RUNNING {
      var m', d := Advance(fetched.m), Decode(fetched.value);
      if d.opcode == I_RFE { RfeResumes(m', strict, d, e.clockOk); } else { ExecuteKeepsSpr(m', strict, d, e.clockOk); }
    }
  }

  // ---- Handler sections

  /** No cycle of the run executes RFE or MOVI2S to SR or IAR. */
  predicate Section(m: Machine, strict: bool, envs: seq<Env>)
    decreases |envs|
  {
    envs == [] || m.exec != RUNNING ||
    (var i := Executed(m, strict, envs[0]);
     !IsRfe(i) && !WritesState(i) && Section(Step(m, strict, envs[0]), strict, envs[1..]))
  }

  /** No cycle of the run enters a handler by the interrupt line. */
  predicate NoEntry(m: Machine, strict: bool, envs: seq<Env>)
    decreases |envs|
  {
    envs == [] || m.exec != RUNNING ||
    (!HardwareEntry(m, envs[0]) && NoEntry(Step(m, strict, envs[0]), strict, envs[1..]))
  }

  /** Inside a handler section IEN stays 0, IAR and CR keep their values and no interrupt enters. */
  lemma {:induction false} SectionSafe(m: Machine, strict: bool, envs: seq<Env>)
    requires Inv(m) && m.spr[SPR_SR] == 0 && Section(m, strict, envs)
    ensures Steps(m, strict, envs).spr == m.spr && NoEntry(m, strict, envs)
    decreases |envs|
  {
    if envs != [] && m.exec == RUNNING {
      TakenIff(m, envs[0]);
      HandlerStep(m, strict, envs[0]);
      StepKeeps(m, strict, envs[0]);
      SectionSafe(Step(m, strict, envs[0]), strict, envs[1..]);
    }
  }

  /** The last cycle of the run executes RFE, no earlier one does, and none executes MOVI2S to SR or IAR. */
  predicate ToFirstRfe(m: Machine, strict: bool, envs: seq<Env>)
    decreases |envs|
  {
    envs != [] && m.exec == RUNNING &&
    var i := Executed(m, strict, envs[0]);
    && !WritesState(i)
    && if |envs| == 1 then IsRfe(i) else !IsRfe(i) && ToFirstRfe(Step(m, strict, envs[0]), strict, envs[1..])
  }

  /** From any point inside a handler to its first RFE no interrupt enters, and execution resumes at IAR with IEN set. */
  lemma {:induction false} FirstRfeReturns(m: Machine, strict: bool, envs: seq<Env>)
    requires Inv(m) && m.spr[SPR_SR] == 0 && ToFirstRfe(m, strict, envs)
    ensures var r := Steps(m, strict, envs);
      r.pc == m.spr[SPR_IAR] && r.spr == m.spr[SPR_SR := 1] && r.exec == RUNNING
    ensures NoEntry(m, strict, envs)
    decreases |envs|
  {
    hide Step, Executed, TickAll, Enter, Ien;
    var next := Step(m, strict, envs[0]);
    TakenIff(m, envs[0]);
    HandlerStep(m, strict, envs[0]);
    StepKeeps(m, strict, envs[0]);
    if |envs| > 1 {
      FirstRfeReturns(next, strict, envs[1..]);
    } else {
      assert envs[1..] == [];
    }
  }

  /** From a hardware interrupt to the first RFE of its handler, which may be executed in the entry cycle
      itself: no further interrupt enters, the saved PC is intact, and execution resumes exactly where it
      was interrupted, with IEN set. */
  lemma HardwareRoundTrip(m: Machine, strict: bool, envs: seq<Env>)
    requires Inv(m) && ToFirstRfe(m, strict, envs) && HardwareEntry(m, envs[0])
    ensures var r := Steps(m, strict, envs);
      r.pc == m.pc && r.spr == [1, m.pc, 0] && r.exec == RUNNING
    ensures NoEntry(Step(m, strict, envs[0]), strict, envs[1..])
  {
    hide Step, Executed, TickAll, Enter, Ien;
    var next := Step(m, strict, envs[0]);
    TakenIff(m, envs[0]);
    HandlerStep(m, strict, envs[0]);
    StepKeeps(m, strict, envs[0]);
    if |envs| > 1 {
      FirstRfeReturns(next, strict, envs[1..]);
    } else {
      assert envs[1..] == [];
    }
  }

  /** The cycle executes INT 0x80 with interrupts enabled. */
  predicate SoftwareEntry(m: Machine, strict: bool, e: Env)
  {
    var i := Executed(m, strict, e);
    i.Some? && i.value.opcode == I_INT && i.value.imm26 == 0x80 && Enter(m, e).spr[SPR_SR] == 1
  }

  lemma IntEnters(m: Machine, strict: bool, d: Decoded, clockOk: bool)
    requires d.ra < GPR_COUNT && d.rb < GPR_COUNT && d.rc < GPR_COUNT
    requires d.opcode == I_INT && d.imm26 == 0x80 && m.spr[SPR_SR] == 1
    ensures var r := Execute(m, strict, d, clockOk);
      r.spr == [0, m.pc, 0x80] && r.pc == 0 && r.exec == m.exec
  {
    IenArithmetic(1);
  }

  lemma SoftwareStep(m: Machine, strict: bool, e: Env)
    requires Inv(m) && m.exec == RUNNING && SoftwareEntry(m, strict, e)
    ensures var r := Step(m, strict, e);
      r.spr == [0, Wrap(Enter(m, e).pc + 4), 0x80] && r.pc == 0 && r.exec == RUNNING
  {
    hide And, Or, Execute, Read, Decode, TickAll, Ien;
    var entered := Enter(m, e);
    ReadKeeps(entered, strict, entered.pc, W32);
    var fetched := Fetch(entered, strict);
    IntEnters(Advance(fetched.m), strict, Decode(fetched.value), e.clockOk);
  }

  /** From INT 0x80 to the first RFE of its handler: no interrupt enters and execution resumes after the INT. */
  lemma SoftwareRoundTrip(m: Machine, strict: bool, entry: Env, envs: seq<Env>)
    requires Inv(m) && m.exec == RUNNING && SoftwareEntry(m, strict, entry)
    requires ToFirstRfe(Step(m, strict, entry), strict, envs)
    ensures var r := Steps(Step(m, strict, entry), strict, envs);
      r.pc == Wrap(m.pc + 4) && r.spr == [1, Wrap(m.pc + 4), 0x80] && r.exec == RUNNING
    ensures !HardwareEntry(m, entry) && NoEntry(Step(m, strict, entry), strict, envs)
  {
    hide Step, Executed, TickAll, Enter, Ien;
    TakenIff(m, entry);
    SoftwareStep(m, strict, entry);
    StepKeeps(m, strict, entry);
    FirstRfeReturns(Step(m, strict, entry), strict, envs);
  }

  // ---- Level triggering

  /** Some device requests, at the latest by the ticks of the next cycle, whatever was read from the
      interrupt controller. */
  predicate StillRequesting(m: Machine, envs: seq<Env>)
  {
    envs == [] || m.exec != RUNNING || Enter(m, envs[0]).dev.Requesting()
  }

  /** No MOVI2S to SR or IAR, and after every RFE some device still requests. */
  predicate Unserviced(m: Machine, strict: bool, envs: seq<Env>)
    decreases |envs|
  {
    envs == [] || m.exec != RUNNING ||
    (var i, next := Executed(m, strict, envs[0]), Step(m, strict, envs[0]);
     !WritesState(i) && (IsRfe(i) ==> StillRequesting(next, envs[1..])) && Unserviced(next, strict, envs[1..]))
  }

  /** Every cycle of the run executes in handler mode with `saved` in IAR. */
  predicate AllInHandler(m: Machine, strict: bool, envs: seq<Env>, saved: word)
    decreases |envs|
  {
    envs == [] || m.exec != RUNNING ||
    (Enter(m, envs[0]).spr[SPR_SR] == 0 && Enter(m, envs[0]).spr[SPR_IAR] == saved &&
     AllInHandler(Step(m, strict, envs[0]), strict, envs[1..], saved))
  }

  /** Level triggering: as long as the handler returns with a request pending, each RFE is followed
      by a new entry at 0 with the same IAR, so the interrupted program executes no instruction. */
  lemma {:induction false} NoProgress(m: Machine, strict: bool, envs: seq<Env>, saved: word)
    requires Inv(m) && m.spr[SPR_IAR] == saved && Unserviced(m, strict, envs)
    requires m.spr[SPR_SR] == 0 || (m.pc == saved && StillRequesting(m, envs))
    ensures AllInHandler(m, strict, envs, saved)
    ensures Steps(m, strict, envs).spr[SPR_IAR] == saved
    decreases |envs|
  {
    if envs != [] && m.exec == RUNNING {
      TakenIff(m, envs[0]);
      HandlerStep(m, strict, envs[0]);
      StepKeeps(m, strict, envs[0]);
      NoProgress(Step(m, strict, envs[0]), strict, envs[1..], saved);
    }
  }

  /** One such return: the next cycle starts at address 0 again. */
  lemma Reentry(m: Machine, e: Env)
    requires Inv(m) && m.exec == RUNNING && m.spr[SPR_SR] == 1 && m.pc == m.spr[SPR_IAR] && m.dev.Requesting()
    ensures HardwareEntry(m, e) && Enter(m, e).pc == 0 && Enter(m, e).spr[SPR_IAR] == m.spr[SPR_IAR]
  {
    TakenIff(m, e);
  }
}
