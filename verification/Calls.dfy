/** Calls and returns: JAL and JALR leave the return address in R31, and JR R31 goes there. */
module Calls {
  import opened Defs
  import opened Bits
  import opened Devices
  import opened Bus
  import opened Cpu
  import opened Safety
  import opened Interrupts

  /** JAL or JALR */
  predicate IsCall(d: Decoded) { d.opcode == 0x03 || d.opcode == 0x13 }

  /** JR R31 */
  predicate IsReturn(d: Decoded) { d.opcode == 0x12 && d.ra == 31 }

  /** Where a call goes: JAL by its displacement from the next instruction, JALR by the register it
      names, read before the link is written. */
  function CallTarget(m: Machine, d: Decoded): word
    requires d.ra < 32
  {
    if d.opcode == 0x03 then Wrap(m.pc + 4 + d.imm26Sext) else m.gpr[d.ra]
  }

  /** A call executed at address a sets R31 to a + 4, keeps every other register, and jumps; nothing else changes. */
  lemma CallLinks(m: Machine, strict: bool, d: Decoded, clockOk: bool)
    requires d.ra < 32 && d.rb < 32 && d.rc < 32 && m.gpr[0] == 0 && IsCall(d)
    ensures var r := Execute(Advance(m), strict, d, clockOk);
      && r.gpr[31] == Wrap(m.pc + 4) && (forall i :: 0 <= i < 31 ==> r.gpr[i] == m.gpr[i])
      && r.pc == CallTarget(m, d)
      && r == m.(gpr := r.gpr, pc := r.pc)
  {
    hide ExecuteR, ExecuteLoad, ExecuteInt, Write;
    var x := m.gpr[d.ra];
    NoAluOpcode(d, x);
    hide AluI;
    if d.opcode == 0x03 { DispatchJump(Advance(m), strict, d, clockOk); }
    assert Dispatch(Advance(m), strict, d, clockOk).gpr == m.gpr[31 := Wrap(m.pc + 4)];
    hide Dispatch;
  }

  lemma ReturnJumps(m: Machine, strict: bool, d: Decoded, clockOk: bool)
    requires d.ra < 32 && d.rb < 32 && d.rc < 32 && m.gpr[0] == 0 && IsReturn(d)
    ensures Execute(Advance(m), strict, d, clockOk) == m.(pc := m.gpr[31])
  {
    hide ExecuteR, ExecuteLoad, ExecuteInt, Write;
    NoAluOpcode(d, m.gpr[d.ra]);
    hide AluI;
    assert Dispatch(Advance(m), strict, d, clockOk) == m.(pc := m.gpr[31]);
    hide Dispatch;
    assert m.gpr[0 := 0] == m.gpr;
  }

  lemma CallStep(m: Machine, strict: bool, e: Env)
    requires Inv(m) && m.exec == RUNNING && Executed(m, strict, e).Some? && IsCall(Executed(m, strict, e).value)
    ensures var r, a := Step(m, strict, e), Enter(m, e).pc;
      r.gpr[31] == Wrap(a + 4) && (forall i :: 0 <= i < 31 ==> r.gpr[i] == m.gpr[i]) && r.exec == RUNNING
  {
    hide Execute, Enter, Read, Decode, Advance, IsCall, Inv;
    StepParts(m, strict, e);
    CallLinks(Fetch(Enter(m, e), strict).m, strict, Executed(m, strict, e).value, e.clockOk);
  }

  lemma ReturnStep(m: Machine, strict: bool, e: Env)
    requires Inv(m) && m.exec == RUNNING && Executed(m, strict, e).Some? && IsReturn(Executed(m, strict, e).value)
    ensures var r := Step(m, strict, e); r.pc == m.gpr[31] && r.exec == RUNNING
  {
    hide Execute, Enter, Read, Decode, Advance, IsReturn, Inv;
    StepParts(m, strict, e);
    ReturnJumps(Fetch(Enter(m, e), strict).m, strict, Executed(m, strict, e).value, e.clockOk);
  }

  lemma StepParts(m: Machine, strict: bool, e: Env)
    requires Inv(m) && m.exec == RUNNING
    ensures var entered, fetched := Enter(m, e), Fetch(Enter(m, e), strict).m;
      && fetched == entered.(dev := fetched.dev, exec := fetched.exec)
      && fetched.gpr == m.gpr && fetched.gpr[0] == 0
  {
    hide Read, TickAll, Ien, ClearIen;
    EnterKeeps(m, e);
    ReadKeeps(Enter(m, e), strict, Enter(m, e).pc, W32);
  }

  /** From a call at address a through any run that leaves R31 as the call set it, JR R31 resumes at a + 4. */
  lemma CallReturns(m: Machine, strict: bool, e: Env, body: seq<Env>, e': Env)
    requires Inv(m) && m.exec == RUNNING && Executed(m, strict, e).Some? && IsCall(Executed(m, strict, e).value)
    requires var called := Step(m, strict, e);
      var last := Steps(called, strict, body);
      && last.exec == RUNNING && last.gpr[31] == called.gpr[31]
      && Executed(last, strict, e').Some? && IsReturn(Executed(last, strict, e').value)
    ensures Step(Steps(Step(m, strict, e), strict, body), strict, e').pc == Wrap(Enter(m, e).pc + 4)
  {
    hide Step, Steps, Executed, Enter, Inv;
    CallStep(m, strict, e);
    StepKeeps(m, strict, e);
    RunKeeps(Step(m, strict, e), strict, body);
    ReturnStep(Steps(Step(m, strict, e), strict, body), strict, e');
  }
}
