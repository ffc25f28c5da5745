/** src/cpu_seq/dlx_seq_core.c: one cycle of the sequential core as a function of the state. */
module Cpu {
  import opened Defs
  import opened Bits
  import opened Isa
  import opened Devices
  import opened Bus

  // ---- Decoding

  datatype Decoded = Decoded(opcode: nat, ra: nat, rb: nat, rc: nat, func: nat,
                             imm16: half, imm26: nat, imm16Sext: int, imm26Sext: int)

  /** The fields by their bit positions: 31..26, 25..21, 20..16, 15..11, 15..0, 25..0, 5..0. */
  function Decode(raw: word): (d: Decoded)
    ensures d.opcode < 0x40 && d.ra < GPR_COUNT && d.rb < GPR_COUNT && d.rc < GPR_COUNT && d.func < 0x40
    ensures -0x8000 <= d.imm16Sext < 0x8000 && -0x200_0000 <= d.imm26Sext < 0x200_0000
  {
    var imm16: half, imm26 := raw % 0x1_0000, raw % 0x400_0000;
    Decoded(raw / 0x400_0000, raw / 0x20_0000 % 0x20, raw / 0x1_0000 % 0x20, raw / 0x800 % 0x20, raw % 0x40,
            imm16, imm26,
            if imm16 < 0x8000 then imm16 else imm16 - 0x1_0000,
            if imm26 < 0x200_0000 then imm26 else imm26 - 0x400_0000)
  }

  // ---- Special registers

  // Write masks: only IEN of SR, all of IAR, nothing of CR
  const SPR_MASK: Sprs := [SR_IEN, 0xFFFF_FFFF, 0]

  predicate Ien(sr: word) { And(sr, SR_IEN) != 0 }

  function ClearIen(sr: word): word { And(sr, Not32(SR_IEN)) }

  function SetIen(sr: word): word { Or32(sr, SR_IEN) }

  function MaskedWrite(old_: word, new_: word, mask: word): word { Or32(And(new_, mask), And(old_, Not32(mask))) }

  lemma Low31(x: nat)
    requires x < 0x8000_0000
    ensures And(x, 0x7FFF_FFFF) == x
  {
    hide And, Pow2;
    Pow2Values();
    AndMask(x, 31);
  }

  lemma AndEven(sr: word)
    ensures And(sr, 0xFFFF_FFFE) == sr - sr % 2
  {
    hide And;
    Low31(sr / 2);
    Halves(sr, 0xFFFF_FFFE);
  }

  lemma IenArithmetic(sr: word)
    ensures Ien(sr) <==> sr % 2 == 1
    ensures ClearIen(sr) == sr - sr % 2
    ensures SetIen(sr) == sr - sr % 2 + 1
  {
    hide Pow2;
    AndEven(sr);
    assert Or(sr, 1) == if sr == 0 then 1 else 1 + 2 * Or(sr / 2, 0);
  }

  lemma MaskedWriteArithmetic(old_: word, new_: word)
    ensures MaskedWrite(old_, new_, SPR_MASK[SPR_SR]) == old_ - old_ % 2 + new_ % 2
    ensures MaskedWrite(old_, new_, SPR_MASK[SPR_IAR]) == new_
    ensures MaskedWrite(old_, new_, SPR_MASK[SPR_CR]) == old_
  {
    hide And, Or, Pow2;
    Pow2Values();
    AndMask(old_, 32);
    AndMask(new_, 32);
    AndMask(new_, 1);
    AndEven(old_);
    OrLowBit(new_ % 2, old_ - old_ % 2);
    OrZero(new_);
    Masked(old_, new_);
  }

  lemma Masked(old_: word, new_: word)
    ensures MaskedWrite(old_, new_, SPR_MASK[SPR_SR]) == Or(And(new_, 1), And(old_, 0xFFFF_FFFE))
    ensures MaskedWrite(old_, new_, SPR_MASK[SPR_IAR]) == Or(And(new_, 0xFFFF_FFFF), 0)
    ensures MaskedWrite(old_, new_, SPR_MASK[SPR_CR]) == And(old_, 0xFFFF_FFFF)
  {
  }

  // ---- Execution

  function Flag(b: bool): word { if b then 1 else 0 }

  /** R-type results; None for the functions that move special registers and the reserved ones. */
  function AluR(func: nat, x: word, y: word): Option<word>
  {
    if func == I_ADD_FUNC then Some(Wrap(x + y))
    else if func == I_SUB_FUNC then Some(Wrap(x - y))
    else if func == I_AND_FUNC then Some(And(x, y))
    else if func == I_OR_FUNC then Some(Or32(x, y))
    else if func == I_XOR_FUNC then Some(Xor32(x, y))
    else if func == I_SLL_FUNC then Some(Shl(x, And(y, 0x1F)))
    else if func == I_SRL_FUNC then Some(Shr(x, And(y, 0x1F)))
    else if func == I_SRA_FUNC then Some(Sra(x, And(y, 0x1F)))
    else if func == I_SLT_FUNC then Some(Flag(Signed(x) < Signed(y)))
    else if func == I_SLE_FUNC then Some(Flag(Signed(x) <= Signed(y)))
    else if func == I_SGT_FUNC then Some(Flag(Signed(x) > Signed(y)))
    else if func == I_SGE_FUNC then Some(Flag(Signed(x) >= Signed(y)))
    else if func == I_SEQ_FUNC then Some(Flag(Signed(x) == Signed(y)))
    else if func == I_SNE_FUNC then Some(Flag(Signed(x) != Signed(y)))
    else None
  }

  /** Results of the I-type instructions that only write a register; None for the others. */
  function AluI(d: Decoded, x: word): Option<word>
  {
    if d.opcode == I_ADDI then Some(Wrap(x + d.imm16Sext))
    else if d.opcode == I_ADDUI then Some(Wrap(x + d.imm16))
    else if d.opcode == I_SUBI then Some(Wrap(x - d.imm16Sext))
    else if d.opcode == I_SUBUI then Some(Wrap(x - d.imm16))
    else if d.opcode == I_SLLI then Some(Shl(x, And(d.imm16, 0x1F)))
    else if d.opcode == I_SRLI then Some(Shr(x, And(d.imm16, 0x1F)))
    else if d.opcode == I_SRAI then Some(Sra(x, And(d.imm16, 0x1F)))
    else if d.opcode == I_ORI then Some(Or32(x, d.imm16))
    else if d.opcode == I_ANDI then Some(And(x, d.imm16))
    else if d.opcode == I_XORI then Some(Xor32(x, d.imm16))
    else if d.opcode == I_SLTI then Some(Flag(Signed(x) < d.imm16Sext))
    else if d.opcode == I_SLEI then Some(Flag(Signed(x) <= d.imm16Sext))
    else if d.opcode == I_SGTI then Some(Flag(Signed(x) > d.imm16Sext))
    else if d.opcode == I_SGEI then Some(Flag(Signed(x) >= d.imm16Sext))
    else if d.opcode == I_SEQI then Some(Flag(Signed(x) == d.imm16Sext))
    else if d.opcode == I_SNEI then Some(Flag(Signed(x) != d.imm16Sext))
    else if d.opcode == I_LHI then Some(Shl(d.imm16, 16))
    else None
  }

  function SetReg(m: Machine, r: nat, value: word): Machine
    requires r < GPR_COUNT
  {
    m.(gpr := m.gpr[r := value])
  }

  function LoadWidth(opcode: nat): Option<Width>
  {
    if opcode == I_LB || opcode == I_LBU then Some(W8)
    else if opcode == I_LH || opcode == I_LHU then Some(W16)
    else if opcode == I_LW then Some(W32)
    else None
  }

  function StoreWidth(opcode: nat): Option<Width>
  {
    if opcode == I_SB then Some(W8) else if opcode == I_SH then Some(W16) else if opcode == I_SW then Some(W32) else None
  }

  /** The register value of a load: LB and LH narrow to 8 and 16 bits and sign extend. */
  function Extend(opcode: nat, value: word): word
  {
    if opcode == I_LB then Wrap(if value % 0x100 < 0x80 then value % 0x100 else value % 0x100 - 0x100)
    else if opcode == I_LH then Wrap(if value % 0x1_0000 < 0x8000 then value % 0x1_0000 else value % 0x1_0000 - 0x1_0000)
    else value
  }

  function Address(m: Machine, d: Decoded): word
    requires d.ra < GPR_COUNT
  {
    Wrap(m.gpr[d.ra] + d.imm16Sext)
  }

  function ExecuteR(m: Machine, strict: bool, d: Decoded): Machine
    requires d.ra < GPR_COUNT && d.rb < GPR_COUNT && d.rc < GPR_COUNT
  {
    var result := AluR(d.func, m.gpr[d.ra], m.gpr[d.rb]);
    if result.Some? then SetReg(m, d.rc, result.value)
    else if d.func == I_MOVI2S_FUNC then
      if d.rc >= SPR_COUNT then m.Complain(strict)
      else m.(spr := m.spr[d.rc := MaskedWrite(m.spr[d.rc], m.gpr[d.ra], SPR_MASK[d.rc])])
    else if d.func == I_MOVS2I_FUNC then
      if d.ra >= SPR_COUNT then m.Complain(strict) else SetReg(m, d.rc, m.spr[d.ra])
    else m.Complain(strict)
  }

  /** Only LW leaves its register alone after a fault. */
  function ExecuteLoad(m: Machine, strict: bool, d: Decoded): Machine
    requires d.ra < GPR_COUNT && d.rb < GPR_COUNT && LoadWidth(d.opcode).Some?
  {
    var loaded := Read(m, strict, Address(m, d), LoadWidth(d.opcode).value);
    if d.opcode == I_LW && loaded.m.exec != RUNNING then loaded.m
    else SetReg(loaded.m, d.rb, Extend(d.opcode, loaded.value))
  }

  function ExecuteInt(m: Machine, strict: bool, code: nat, clockOk: bool): Machine
  {
    if code >= 0xF0 then
      if code == 0xF0 || code == 0xF1 then (if clockOk then m else m.(exec := CRITICAL))
      else if code == 0xF2 then m.(exec := HALT)
      else m.Complain(strict)
    else if code == 0x80 then
      if Ien(m.spr[SPR_SR]) then m.(spr := [ClearIen(m.spr[SPR_SR]), m.pc, 0x80], pc := 0)
      else m.(exec := FAULT)
    else m.Complain(strict)
  }

  function Dispatch(m: Machine, strict: bool, d: Decoded, clockOk: bool): Machine
    requires d.ra < GPR_COUNT && d.rb < GPR_COUNT && d.rc < GPR_COUNT
  {
    if d.opcode == I_RTYPE then ExecuteR(m, strict, d)
    else
      var result := AluI(d, m.gpr[d.ra]);
      if result.Some? then SetReg(m, d.rb, result.value)
      else if LoadWidth(d.opcode).Some? then ExecuteLoad(m, strict, d)
      else if StoreWidth(d.opcode).Some? then Write(m, strict, Address(m, d), m.gpr[d.rb], StoreWidth(d.opcode).value)
      else if d.opcode == I_BNEZ then (if m.gpr[d.ra] != 0 then m.(pc := Wrap(m.pc + d.imm16Sext)) else m)
      else if d.opcode == I_BEQZ then (if m.gpr[d.ra] == 0 then m.(pc := Wrap(m.pc + d.imm16Sext)) else m)
      else if d.opcode == I_JR then m.(pc := m.gpr[d.ra])
      else if d.opcode == I_JALR then SetReg(m, REG_LINK, m.pc).(pc := m.gpr[d.ra])
      else if d.opcode == I_J then m.(pc := Wrap(m.pc + d.imm26Sext))
      else if d.opcode == I_JAL then SetReg(m, REG_LINK, m.pc).(pc := Wrap(m.pc + d.imm26Sext))
      else if d.opcode == I_INT then ExecuteInt(m, strict, d.imm26, clockOk)
      else if d.opcode == I_RFE then m.(spr := m.spr[SPR_SR := SetIen(m.spr[SPR_SR])], pc := m.spr[SPR_IAR])
      else m.Complain(strict)
  }

  // The groups of the switch, one at a time

  lemma NoAluOpcode(d: Decoded, x: word)
    requires d.opcode in {I_LB, I_LBU, I_LH, I_LHU, I_LW, I_SB, I_SH, I_SW, I_BEQZ, I_BNEZ, I_JR, I_JALR, I_J, I_JAL, I_INT, I_RFE}
    ensures d.opcode != I_RTYPE && AluI(d, x).None?
  {
  }

  lemma DispatchLoad(m: Machine, strict: bool, d: Decoded, clockOk: bool)
    requires d.ra < GPR_COUNT && d.rb < GPR_COUNT && d.rc < GPR_COUNT && LoadWidth(d.opcode).Some?
    ensures Dispatch(m, strict, d, clockOk) == ExecuteLoad(m, strict, d)
  {
    NoAluOpcode(d, m.gpr[d.ra]);
    hide AluI, ExecuteR, ExecuteLoad, ExecuteInt, Write, And, Or;
  }

  lemma DispatchStore(m: Machine, strict: bool, d: Decoded, clockOk: bool)
    requires d.ra < GPR_COUNT && d.rb < GPR_COUNT && d.rc < GPR_COUNT && StoreWidth(d.opcode).Some?
    ensures Dispatch(m, strict, d, clockOk) == Write(m, strict, Address(m, d), m.gpr[d.rb], StoreWidth(d.opcode).value)
  {
    NoAluOpcode(d, m.gpr[d.ra]);
    hide AluI, ExecuteR, ExecuteLoad, ExecuteInt, Write, And, Or;
  }

  lemma DispatchBranch(m: Machine, strict: bool, d: Decoded, clockOk: bool)
    requires d.ra < GPR_COUNT && d.rb < GPR_COUNT && d.rc < GPR_COUNT && d.opcode in {I_BEQZ, I_BNEZ}
    ensures Dispatch(m, strict, d, clockOk) ==
      if (d.opcode == I_BEQZ) <==> (m.gpr[d.ra] == 0) then m.(pc := Wrap(m.pc + d.imm16Sext)) else m
  {
    NoAluOpcode(d, m.gpr[d.ra]);
    hide AluI, ExecuteR, ExecuteLoad, ExecuteInt, Write, And, Or;
  }

  lemma DispatchJump(m: Machine, strict: bool, d: Decoded, clockOk: bool)
    requires d.ra < GPR_COUNT && d.rb < GPR_COUNT && d.rc < GPR_COUNT && d.opcode in {I_J, I_JAL}
    ensures Dispatch(m, strict, d, clockOk) ==
      (if d.opcode == I_JAL then SetReg(m, REG_LINK, m.pc) else m).(pc := Wrap(m.pc + d.imm26Sext))
  {
    NoAluOpcode(d, m.gpr[d.ra]);
    hide AluI, ExecuteR, ExecuteLoad, ExecuteInt, Write, And, Or;
  }

  lemma DispatchSystem(m: Machine, strict: bool, d: Decoded, clockOk: bool)
    requires d.ra < GPR_COUNT && d.rb < GPR_COUNT && d.rc < GPR_COUNT && d.opcode in {I_INT, I_RFE}
    ensures Dispatch(m, strict, d, clockOk) ==
      if d.opcode == I_INT then ExecuteInt(m, strict, d.imm26, clockOk)
      else m.(spr := m.spr[SPR_SR := SetIen(m.spr[SPR_SR])], pc := m.spr[SPR_IAR])
  {
    NoAluOpcode(d, m.gpr[d.ra]);
    hide AluI, ExecuteR, ExecuteLoad, ExecuteInt, Write, And, Or;
  }

  /** `execute`: register 0 is wired to 0. */
  function Execute(m: Machine, strict: bool, d: Decoded, clockOk: bool): Machine
    requires d.ra < GPR_COUNT && d.rb < GPR_COUNT && d.rc < GPR_COUNT
  {
    var r := Dispatch(m, strict, d, clockOk);
    r.(gpr := r.gpr[0 := 0])
  }

  // ---- One cycle

  /** What the outside offers during a cycle: a byte on the standard input, and whether
      the host clock read by the debug timer codes works. */
  datatype Env = Env(stdin: Option<byte>, clockOk: bool)

  /** State after the ticks and the interrupt check, in which the instruction is fetched. */
  function Enter(m: Machine, e: Env): Machine
  {
    var ticked := m.(dev := TickAll(m.devices, m.dev, e.stdin));
    if ticked.dev.ic.cpuLine && Ien(m.spr[SPR_SR]) then ticked.(spr := [ClearIen(m.spr[SPR_SR]), m.pc, 0], pc := 0)
    else ticked
  }

  function Fetch(m: Machine, strict: bool): Loaded { Read(m, strict, m.pc, W32) }

  function Advance(m: Machine): Machine { m.(pc := Wrap(m.pc + 4)) }

  function Finish(m: Machine): Machine { m.(dev := Apply(m.dev, EndCycle)) }

  function Step(m: Machine, strict: bool, e: Env): Machine
  {
    var fetched := Fetch(Enter(m, e), strict);
    if fetched.m.exec != RUNNING then fetched.m
    else Finish(Execute(Advance(fetched.m), strict, Decode(fetched.value), e.clockOk))
  }

  /** Cycles until the environment is used up or the machine stops. */
  function Steps(m: Machine, strict: bool, envs: seq<Env>): Machine
    decreases |envs|
  {
    if envs == [] || m.exec != RUNNING then m else Steps(Step(m, strict, envs[0]), strict, envs[1..])
  }

  lemma {:induction false} StepsAppend(m: Machine, strict: bool, a: seq<Env>, b: seq<Env>)
    ensures Steps(m, strict, a + b) == Steps(Steps(m, strict, a), strict, b)
    decreases |a|
  {
    if a == [] {
      assert a + b == b;
    } else if m.exec == RUNNING {
      assert (a + b)[1..] == a[1..] + b;
      StepsAppend(Step(m, strict, a[0]), strict, a[1..], b);
    }
  }

  // ---- Initial state

  /** `dlx_state_init`, `setup_devices` and the loader: RAM and registers other than R0 are arbitrary. */
  function Boot(image: seq<byte>, ram: Ram, gpr: Gprs): Machine
    requires |image| <= ROM_SIZE
  {
    Machine(image + seq(ROM_SIZE - |image|, _ => 0), ram, gpr[0 := 0], [0, 0, 0], 0, RUNNING, DEVICE_MAP, RESET)
  }
}
