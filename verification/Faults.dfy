/** Exactly when a cycle ends in FAULT, and what an invalid access leaves behind. */
module Faults {
  import opened Defs
  import opened Isa
  import opened Devices
  import opened Bus
  import opened Cpu
  import opened Safety

  // The encodings of the instruction set table
  const OPCODES: set<nat> := {
    0x00, 0x02, 0x03, 0x04, 0x05, 0x08, 0x09, 0x0A, 0x0B, 0x0C, 0x0D, 0x0E, 0x0F, 0x12, 0x13, 0x14, 0x16, 0x17,
    0x19, 0x1A, 0x1B, 0x1C, 0x1D, 0x1E, 0x20, 0x21, 0x23, 0x24, 0x25, 0x28, 0x29, 0x2B, 0x39, 0x3F
  }
  const FUNCTIONS: set<nat> := {
    0x04, 0x06, 0x07, 0x20, 0x22, 0x24, 0x25, 0x26, 0x29, 0x2A, 0x2B, 0x2C, 0x2D, 0x2E, 0x30, 0x31
  }
  const INT_CODES: set<nat> := {0x80, 0xF0, 0xF1, 0xF2}

  /** Reserved opcode, function, special register number or INT code. */
  predicate Reserved(d: Decoded)
  {
    || d.opcode !in OPCODES
    || (d.opcode == I_RTYPE && d.func !in FUNCTIONS)
    || (d.opcode == I_RTYPE && d.func == I_MOVI2S_FUNC && d.rc > 2)
    || (d.opcode == I_RTYPE && d.func == I_MOVS2I_FUNC && d.ra > 2)
    || (d.opcode == I_INT && d.imm26 !in INT_CODES)
  }

  predicate NestedTrap(m: Machine, d: Decoded) { d.opcode == I_INT && d.imm26 == 0x80 && !Ien(m.spr[SPR_SR]) }

  /** The data access of the instruction is invalid. */
  predicate InvalidAccess(m: Machine, d: Decoded)
    requires d.ra < GPR_COUNT
  {
    || (LoadWidth(d.opcode).Some? && !LoadOk(Address(m, d), LoadWidth(d.opcode).value))
    || (StoreWidth(d.opcode).Some? && !StoreOk(Address(m, d), StoreWidth(d.opcode).value))
  }

  lemma ExecuteRFaults(m: Machine, strict: bool, d: Decoded)
    requires d.ra < GPR_COUNT && d.rb < GPR_COUNT && d.rc < GPR_COUNT
    requires m.exec == RUNNING && d.opcode == I_RTYPE
    ensures ExecuteR(m, strict, d).exec == FAULT <==> strict && Reserved(d)
  {
  }

  lemma MemoryFaults(m: Machine, strict: bool, d: Decoded)
    requires d.ra < GPR_COUNT && d.rb < GPR_COUNT
    requires Installed(m.devices) && m.exec == RUNNING
    ensures LoadWidth(d.opcode).Some? ==> (ExecuteLoad(m, strict, d).exec == FAULT <==> strict && InvalidAccess(m, d))
    ensures StoreWidth(d.opcode).Some? ==>
      (Write(m, strict, Address(m, d), m.gpr[d.rb], StoreWidth(d.opcode).value).exec == FAULT <==> strict && InvalidAccess(m, d))
  {
    hide Read, Write, LoadOk, StoreOk;
    if LoadWidth(d.opcode).Some? { AccessFaults(m, strict, Address(m, d), 0, LoadWidth(d.opcode).value); }
    if StoreWidth(d.opcode).Some? { AccessFaults(m, strict, Address(m, d), m.gpr[d.rb], StoreWidth(d.opcode).value); }
  }

  lemma ReservedComplains(m: Machine, strict: bool, d: Decoded, clockOk: bool)
    requires d.ra < GPR_COUNT && d.rb < GPR_COUNT && d.rc < GPR_COUNT && Reserved(d)
    ensures Dispatch(m, strict, d, clockOk) == m.Complain(strict)
  {
    if d.opcode == I_RTYPE { assert AluR(d.func, m.gpr[d.ra], m.gpr[d.rb]).None?; }
    else { assert AluI(d, m.gpr[d.ra]).None?; }
  }

  lemma ExecuteFaults(m: Machine, strict: bool, d: Decoded, clockOk: bool)
    requires d.ra < GPR_COUNT && d.rb < GPR_COUNT && d.rc < GPR_COUNT
    requires Installed(m.devices) && m.exec == RUNNING
    ensures Execute(m, strict, d, clockOk).exec == FAULT <==>
      NestedTrap(m, d) || (strict && (Reserved(d) || InvalidAccess(m, d)))
  {
    hide ExecuteR, ExecuteLoad, Write, LoadOk, StoreOk, Reserved, NestedTrap, InvalidAccess;
    var x := m.gpr[d.ra];
    if d.opcode == I_RTYPE {
      ExecuteRFaults(m, strict, d);
      KnownOpcode(m, d, x);
    } else if LoadWidth(d.opcode).Some? || StoreWidth(d.opcode).Some? {
      MemoryFaults(m, strict, d);
      KnownOpcode(m, d, x);
      if LoadWidth(d.opcode).Some? { DispatchLoad(m, strict, d, clockOk); } else { DispatchStore(m, strict, d, clockOk); }
      hide Dispatch;
    } else if AluI(d, x).Some? {
      KnownOpcode(m, d, x);
    } else {
      TransferFaults(m, strict, d, clockOk);
      hide Dispatch;
    }
  }

  lemma KnownOpcode(m: Machine, d: Decoded, x: word)
    requires d.ra < GPR_COUNT
    requires d.opcode == I_RTYPE || LoadWidth(d.opcode).Some? || StoreWidth(d.opcode).Some? || AluI(d, x).Some?
    ensures !NestedTrap(m, d) && (d.opcode != I_RTYPE ==> !Reserved(d))
    ensures LoadWidth(d.opcode).None? && StoreWidth(d.opcode).None? ==> !InvalidAccess(m, d)
  {
  }

  /** Branches, jumps, INT, RFE and unknown opcodes. */
  lemma TransferFaults(m: Machine, strict: bool, d: Decoded, clockOk: bool)
    requires d.ra < GPR_COUNT && d.rb < GPR_COUNT && d.rc < GPR_COUNT && m.exec == RUNNING
    requires d.opcode != I_RTYPE && LoadWidth(d.opcode).None? && StoreWidth(d.opcode).None? && AluI(d, m.gpr[d.ra]).None?
    ensures Dispatch(m, strict, d, clockOk).exec == FAULT <==> NestedTrap(m, d) || (strict && Reserved(d))
    ensures !InvalidAccess(m, d)
  {
    hide Ien;
    if Reserved(d) { ReservedComplains(m, strict, d, clockOk); }
  }

  /** A cycle faults iff INT 0x80 runs with interrupts disabled or, in strict mode only, the fetch
      or data access is invalid or the encoding is reserved. */
  lemma StepFaults(m: Machine, strict: bool, e: Env)
    requires Installed(m.devices) && m.exec == RUNNING
    ensures Step(m, strict, e).exec == FAULT <==>
      var entered := Enter(m, e);
      var m', d := Advance(Fetch(entered, strict).m), Decode(Fetch(entered, strict).value);
      || (strict && !LoadOk(entered.pc, W32))
      || NestedTrap(m', d)
      || (strict && (Reserved(d) || InvalidAccess(m', d)))
  {
    hide Read, LoadOk, Execute, Decode, TickAll, Ien, ClearIen, Reserved, InvalidAccess;
    var entered := Enter(m, e);
    AccessFaults(entered, strict, entered.pc, 0, W32);
    var fetched := Fetch(entered, strict);
    Safety.ReadKeeps(entered, strict, entered.pc, W32);
    if fetched.m.exec == RUNNING {
      ExecuteFaults(Advance(fetched.m), strict, Decode(fetched.value), e.clockOk);
    }
  }

  /** An instruction with a reserved encoding changes nothing at all but the fault state. */
  lemma ReservedHasNoEffect(m: Machine, strict: bool, d: Decoded, clockOk: bool)
    requires d.ra < GPR_COUNT && d.rb < GPR_COUNT && d.rc < GPR_COUNT && Reserved(d)
    requires m.gpr[0] == 0
    ensures Execute(m, strict, d, clockOk) == m.Complain(strict)
  {
    ReservedComplains(m, strict, d, clockOk);
    assert m.gpr[0 := 0] == m.gpr;
  }

  lemma ZeroReserved()
    ensures Reserved(Decode(0))
  {
  }

  /** An invalid fetch ends a strict run before the PC moves; in normal mode it is skipped like a reserved encoding. */
  lemma InvalidFetch(m: Machine, strict: bool, e: Env)
    requires Installed(m.devices) && m.exec == RUNNING && m.gpr[0] == 0 && !LoadOk(Enter(m, e).pc, W32)
    ensures Step(m, strict, e) ==
      if strict then Enter(m, e).(exec := FAULT)
      else var r := Enter(m, e); r.(pc := (r.pc + 4) % WORD, dev := r.dev.(ic := r.dev.ic.(cpuLine := false)))
  {
    var entered := Enter(m, e);
    assert entered.gpr == m.gpr && entered.devices == m.devices && entered.exec == RUNNING;
    ZeroReserved();
    hide Read, LoadOk, Execute, Decode, Enter, Reserved, Installed;
    AccessFaults(entered, strict, entered.pc, 0, W32);
    if !strict { ReservedHasNoEffect(Advance(entered), strict, Decode(0), e.clockOk); }
  }

  /** In either mode an invalid store changes no register, memory byte or device. */
  lemma InvalidStoreHasNoEffect(m: Machine, strict: bool, d: Decoded, clockOk: bool)
    requires d.ra < GPR_COUNT && d.rb < GPR_COUNT && d.rc < GPR_COUNT
    requires Installed(m.devices) && m.gpr[0] == 0
    requires StoreWidth(d.opcode).Some? && !StoreOk(Address(m, d), StoreWidth(d.opcode).value)
    ensures Execute(m, strict, d, clockOk) == m.Complain(strict)
  {
    hide Write, StoreOk, AluI, AluR, ExecuteR, Dispatch;
    var address, w := Address(m, d), StoreWidth(d.opcode).value;
    assert Write(m, strict, address, m.gpr[d.rb], w) == m.Complain(strict) by {
      AccessFaults(m, strict, address, m.gpr[d.rb], w);
    }
    DispatchStore(m, strict, d, clockOk);
    assert m.gpr[0 := 0] == m.gpr;
  }

  /** An invalid load puts 0 in its register and changes nothing else but the fault state; only
      LW, and only in strict mode, leaves the register alone. */
  lemma InvalidLoad(m: Machine, strict: bool, d: Decoded)
    requires d.ra < GPR_COUNT && d.rb < GPR_COUNT && LoadWidth(d.opcode).Some?
    requires Installed(m.devices) && m.exec == RUNNING && !LoadOk(Address(m, d), LoadWidth(d.opcode).value)
    ensures ExecuteLoad(m, strict, d) ==
      if strict && d.opcode == I_LW then m.(exec := FAULT) else SetReg(m.Complain(strict), d.rb, 0)
  {
    hide Read, LoadOk;
    var address, w := Address(m, d), LoadWidth(d.opcode).value;
    assert Read(m, strict, address, w) == Loaded(0, m.Complain(strict)) by {
      AccessFaults(m, strict, address, 0, w);
    }
  }
}
