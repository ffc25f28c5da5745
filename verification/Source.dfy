/** Integer-valued meaning of source instructions: the tables of docs/architecture/ISA.md over
    operands as they are written, without encodings or fields. */
module Source {
  import opened Defs
  import opened Bits
  import opened Bus
  import opened Cpu
  import opened Assembler

  datatype Op = Plus | Minus | AndOp | OrOp | XorOp | ShiftLeft | ShiftRight | ShiftArithmetic
    | Less | LessEqual | Greater | GreaterEqual | Equal | NotEqual

  /** An instruction with its operands resolved: immediates are the integers written or the values
      of their constants, targets are absolute addresses. */
  datatype Instr =
    | Compute(op: Op, rc: nat, ra: nat, rb: nat)
    | ComputeImm(op: Op, signed: bool, rb: nat, ra: nat, imm: int)
    | LoadHigh(rb: nat, imm: int)
    | Branch(onZero: bool, ra: nat, target: int)
    | JumpRegister(link: bool, ra: nat)
    | LoadMem(w: Width, signed: bool, rb: nat, offset: int, ra: nat)
    | StoreMem(w: Width, rb: nat, offset: int, ra: nat)
    | Jump(link: bool, target: int)
    | Trap(code: int)
    | Return
    | ToSpecial(spr: nat, ra: nat)
    | FromSpecial(rc: nat, spr: nat)
  {
    predicate Valid()
    {
      match this
      case Compute(_, rc, ra, rb) => rc < GPR_COUNT && ra < GPR_COUNT && rb < GPR_COUNT
      case ComputeImm(_, _, rb, ra, _) => rb < GPR_COUNT && ra < GPR_COUNT
      case LoadHigh(rb, _) => rb < GPR_COUNT
      case Branch(_, ra, _) => ra < GPR_COUNT
      case JumpRegister(_, ra) => ra < GPR_COUNT
      case LoadMem(_, _, rb, _, ra) => rb < GPR_COUNT && ra < GPR_COUNT
      case StoreMem(_, rb, _, ra) => rb < GPR_COUNT && ra < GPR_COUNT
      case ToSpecial(spr, ra) => spr < SPR_COUNT && ra < GPR_COUNT
      case FromSpecial(rc, spr) => rc < GPR_COUNT && spr < SPR_COUNT
      case _ => true
    }
  }

  // ---- Reading an instruction

  /** The number of the general register a token names. */
  function RegisterOf(token: Token): (r: Result<nat, AsmError>)
  {
    match token.register
    case Some(n) => if 0 <= n < 32 then Ok(n) else Err(BadRegister)
    case None => Err(BadRegister)
  }

  /** The number of the special register a token names: SR, IAR or CR. */
  function SpecialOf(token: Token): (r: Result<nat, AsmError>)
  {
    match token.spr
    case Some(n) => if n < 3 then Ok(n) else Err(BadSpecialRegister)
    case None => Err(BadSpecialRegister)
  }

  function RegisterOp(mnemonic: Mnemonic): Option<Op>
  {
    match mnemonic
    case ADD => Some(Plus) case SUB => Some(Minus)
    case AND => Some(AndOp) case OR => Some(OrOp) case XOR => Some(XorOp)
    case SLL => Some(ShiftLeft) case SRL => Some(ShiftRight) case SRA => Some(ShiftArithmetic)
    case SLT => Some(Less) case SLE => Some(LessEqual) case SGT => Some(Greater) case SGE => Some(GreaterEqual)
    case SEQ => Some(Equal) case SNE => Some(NotEqual)
    case _ => None
  }

  /** The operation of an immediate instruction and whether it sign extends its immediate. */
  function ImmediateOp(mnemonic: Mnemonic): Option<(Op, bool)>
  {
    match mnemonic
    case ADDI => Some((Plus, true)) case ADDUI => Some((Plus, false))
    case SUBI => Some((Minus, true)) case SUBUI => Some((Minus, false))
    case ANDI => Some((AndOp, false)) case ORI => Some((OrOp, false)) case XORI => Some((XorOp, false))
    case SLLI => Some((ShiftLeft, false)) case SRLI => Some((ShiftRight, false)) case SRAI => Some((ShiftArithmetic, false))
    case SLTI => Some((Less, true)) case SLEI => Some((LessEqual, true))
    case SGTI => Some((Greater, true)) case SGEI => Some((GreaterEqual, true))
    case SEQI => Some((Equal, true)) case SNEI => Some((NotEqual, true))
    case _ => None
  }

  function LoadForm(mnemonic: Mnemonic): Option<(Width, bool)>
  {
    match mnemonic
    case LB => Some((W8, true)) case LBU => Some((W8, false))
    case LH => Some((W16, true)) case LHU => Some((W16, false))
    case LW => Some((W32, false))
    case _ => None
  }

  function StoreForm(mnemonic: Mnemonic): Option<Width>
  {
    match mnemonic case SB => Some(W8) case SH => Some(W16) case SW => Some(W32) case _ => None
  }

  /** A data operand: the value of a constant, or the number written. */
  function Data(token: Token, constants: Constants): Result<int, AsmError>
  {
    if token.name in constants then Ok(constants[token.name])
    else if token.value.Some? then Ok(token.value.value)
    else Err(BadOperand)
  }

  /** A branch or jump operand: the address a constant names, or a distance from the next instruction. */
  function Target(token: Token, constants: Constants, address: int): Result<int, AsmError>
  {
    if token.name in constants then Ok(constants[token.name])
    else if token.value.Some? then Ok(address + 4 + token.value.value)
    else Err(BadOperand)
  }

  function ReadRegister(op: Op, parts: seq<Token>): (r: Result<Instr, AsmError>)
    ensures r.Ok? ==> r.value.Valid()
  {
    if |parts| != 4 then Err(WrongArguments)
    else
      var rc :- RegisterOf(parts[1]);
      var ra :- RegisterOf(parts[2]);
      var rb :- RegisterOf(parts[3]);
      Ok(Compute(op, rc, ra, rb))
  }

  function ReadImmediate(op: Op, signed: bool, parts: seq<Token>, constants: Constants): (r: Result<Instr, AsmError>)
    ensures r.Ok? ==> r.value.Valid()
  {
    if |parts| != 4 then Err(WrongArguments)
    else
      var rb :- RegisterOf(parts[1]);
      var ra :- RegisterOf(parts[2]);
      var imm :- Data(parts[3], constants);
      Ok(ComputeImm(op, signed, rb, ra, imm))
  }

  function ReadMemory(mnemonic: Mnemonic, parts: seq<Token>, constants: Constants): (r: Result<Instr, AsmError>)
    requires LoadForm(mnemonic).Some? || StoreForm(mnemonic).Some?
    ensures r.Ok? ==> r.value.Valid()
  {
    if |parts| != 4 then Err(WrongArguments)
    else
      var rb :- RegisterOf(parts[1]);
      var offset :- Data(parts[2], constants);
      var ra :- RegisterOf(parts[3]);
      if LoadForm(mnemonic).Some? then Ok(LoadMem(LoadForm(mnemonic).value.0, LoadForm(mnemonic).value.1, rb, offset, ra))
      else Ok(StoreMem(StoreForm(mnemonic).value, rb, offset, ra))
  }

  function ReadBranch(onZero: bool, parts: seq<Token>, constants: Constants, address: int): (r: Result<Instr, AsmError>)
    ensures r.Ok? ==> r.value.Valid()
  {
    if |parts| != 3 then Err(WrongArguments)
    else
      var ra :- RegisterOf(parts[1]);
      var target :- Target(parts[2], constants, address);
      Ok(Branch(onZero, ra, target))
  }

  function ReadJump(link: bool, parts: seq<Token>, constants: Constants, address: int): (r: Result<Instr, AsmError>)
    ensures r.Ok? ==> r.value.Valid()
  {
    if |parts| != 2 then Err(WrongArguments)
    else
      var target :- Target(parts[1], constants, address);
      Ok(Jump(link, target))
  }

  /** Moves of special registers. */
  function ReadMove(mnemonic: Mnemonic, parts: seq<Token>): (r: Result<Instr, AsmError>)
    ensures r.Ok? ==> r.value.Valid()
  {
    if |parts| != 3 then Err(WrongArguments)
    else if mnemonic == MOVI2S then
      var spr :- SpecialOf(parts[1]);
      var ra :- RegisterOf(parts[2]);
      Ok(ToSpecial(spr, ra))
    else
      var rc :- RegisterOf(parts[1]);
      var spr :- SpecialOf(parts[2]);
      Ok(FromSpecial(rc, spr))
  }

  function ReadSystem(mnemonic: Mnemonic, parts: seq<Token>, constants: Constants): (r: Result<Instr, AsmError>)
    ensures r.Ok? ==> r.value.Valid()
  {
    if mnemonic == LHI then
      if |parts| != 3 then Err(WrongArguments)
      else
        var rb :- RegisterOf(parts[1]);
        var imm :- Data(parts[2], constants);
        Ok(LoadHigh(rb, imm))
    else if mnemonic == INT then
      if |parts| != 2 then Err(WrongArguments)
      else
        var code :- Data(parts[1], constants);
        Ok(Trap(code))
    else if mnemonic == JR || mnemonic == JALR then
      if |parts| != 2 then Err(WrongArguments)
      else
        var ra :- RegisterOf(parts[1]);
        Ok(JumpRegister(mnemonic == JALR, ra))
    else
      if |parts| != 1 then Err(WrongArguments) else Ok(Return)
  }

  /** The instruction a line denotes: `OP rc, ra, rb`, `OP rb, ra, Imm`, `OP rb, Imm(ra)`, ... */
  function ReadInstr(instr: Instruction, constants: Constants): (r: Result<Instr, AsmError>)
    ensures r.Ok? ==> r.value.Valid()
  {
    var parts := instr.parts;
    if parts == [] then Err(Internal)
    else if parts[0].mnemonic.None? then Err(UnknownInstruction)
    else
      var mnemonic := parts[0].mnemonic.value;
      if RegisterOp(mnemonic).Some? then ReadRegister(RegisterOp(mnemonic).value, parts)
      else if ImmediateOp(mnemonic).Some? then
        ReadImmediate(ImmediateOp(mnemonic).value.0, ImmediateOp(mnemonic).value.1, parts, constants)
      else if LoadForm(mnemonic).Some? || StoreForm(mnemonic).Some? then ReadMemory(mnemonic, parts, constants)
      else if mnemonic in {BEQZ, BNEZ} then ReadBranch(mnemonic == BEQZ, parts, constants, instr.address)
      else if mnemonic in {J, JAL} then ReadJump(mnemonic == JAL, parts, constants, instr.address)
      else if mnemonic in {MOVI2S, MOVS2I} then ReadMove(mnemonic, parts)
      else ReadSystem(mnemonic, parts, constants)
  }

  /** The operands fit their fields: data spans both readings of a bit pattern, a displacement
      only the signed one. */
  predicate Fits(i: Instr, address: int)
  {
    match i
    case ComputeImm(_, _, _, _, imm) => -0x8000 <= imm <= 0xFFFF
    case LoadHigh(_, imm) => -0x8000 <= imm <= 0xFFFF
    case LoadMem(_, _, _, offset, _) => -0x8000 <= offset <= 0xFFFF
    case StoreMem(_, _, offset, _) => -0x8000 <= offset <= 0xFFFF
    case Branch(_, _, target) => -0x8000 <= target - (address + 4) <= 0x7FFF
    case Jump(_, target) => -0x200_0000 <= target - (address + 4) <= 0x1FF_FFFF
    case Trap(code) => -0x200_0000 <= code <= 0x3FF_FFFF
    case _ => true
  }

  // ---- Meaning

  /** The integer of 16 bits with the same low bits: signed, or unsigned. */
  function SignExt(v: int): int { (v + 0x8000) % 0x1_0000 - 0x8000 }

  function ZeroExt(v: int): int { v % 0x1_0000 }

  function Compute2(op: Op, x: word, y: word): word
  {
    match op
    case Plus => (x + y) % WORD
    case Minus => (x - y) % WORD
    case AndOp => And(x, y)
    case OrOp => Or32(x, y)
    case XorOp => Xor32(x, y)
    case ShiftLeft => x * Pow2(y % 32) % WORD
    case ShiftRight => DivShrinks(x, Pow2(y % 32)); x / Pow2(y % 32)
    case ShiftArithmetic =>
      DivShrinks(x, Pow2(y % 32));
      DivShrinks(WORD - 1 - x, Pow2(y % 32));
      if x < 0x8000_0000 then x / Pow2(y % 32) else WORD - 1 - (WORD - 1 - x) / Pow2(y % 32)
    case Less => if Signed(x) < Signed(y) then 1 else 0
    case LessEqual => if Signed(x) <= Signed(y) then 1 else 0
    case Greater => if Signed(x) > Signed(y) then 1 else 0
    case GreaterEqual => if Signed(x) >= Signed(y) then 1 else 0
    case Equal => if x == y then 1 else 0
    case NotEqual => if x != y then 1 else 0
  }

  /** Register write: register 0 stays 0. */
  function Put(m: Machine, r: nat, value: word): Machine
    requires r < GPR_COUNT
  {
    if r == 0 then m else m.(gpr := m.gpr[r := value])
  }

  function At(m: Machine, ra: nat, offset: int): word
    requires ra < GPR_COUNT
  {
    (m.gpr[ra] + SignExt(offset)) % WORD
  }

  /** The register value of a load: the low bits of its width, zero or sign extended. */
  function Widen(value: word, w: Width, signed: bool): word
  {
    if !signed then w.Truncate(value)
    else match w
      case W8 => ((value + 0x80) % 0x100 - 0x80) % WORD
      case W16 => SignExt(value) % WORD
      case W32 => value
  }

  /** The special registers after a write of x: of SR only IEN changes, CR is read-only. */
  function SpecialWritten(spr: Sprs, index: nat, x: word): Sprs
    requires index < SPR_COUNT
  {
    if index == SPR_SR then spr[SPR_SR := spr[SPR_SR] - spr[SPR_SR] % 2 + x % 2]
    else if index == SPR_IAR then spr[SPR_IAR := x]
    else spr
  }

  /** Effect of the instruction at address m.pc. */
  function Meaning(i: Instr, m: Machine, strict: bool, clockOk: bool): Machine
    requires i.Valid()
  {
    var n := m.(pc := (m.pc + 4) % WORD);
    match i
    case Compute(op, rc, ra, rb) => Put(n, rc, Compute2(op, m.gpr[ra], m.gpr[rb]))
    case ComputeImm(op, signed, rb, ra, imm) =>
      Put(n, rb, Compute2(op, m.gpr[ra], (if signed then SignExt(imm) else ZeroExt(imm)) % WORD))
    case LoadHigh(rb, imm) => Put(n, rb, ZeroExt(imm) * 0x1_0000)
    case Branch(onZero, ra, target) => if onZero <==> m.gpr[ra] == 0 then n.(pc := target % WORD) else n
    case JumpRegister(link, ra) => (if link then Put(n, 31, n.pc) else n).(pc := m.gpr[ra])
    case LoadMem(w, signed, rb, offset, ra) =>
      var loaded := Read(n, strict, At(m, ra, offset), w);
      if w == W32 && loaded.m.exec != RUNNING then loaded.m
      else Put(loaded.m, rb, Widen(loaded.value, w, signed))
    case StoreMem(w, rb, offset, ra) => Write(n, strict, At(m, ra, offset), m.gpr[rb], w)
    case Jump(link, target) => (if link then Put(n, 31, n.pc) else n).(pc := target % WORD)
    case Trap(code) => Trapped(n, strict, code % 0x400_0000, clockOk)
    case Return => n.(spr := m.spr[SPR_SR := m.spr[SPR_SR] - m.spr[SPR_SR] % 2 + 1], pc := m.spr[SPR_IAR])
    case ToSpecial(spr, ra) => n.(spr := SpecialWritten(m.spr, spr, m.gpr[ra]))
    case FromSpecial(rc, spr) => Put(n, rc, m.spr[spr])
  }

  function Trapped(n: Machine, strict: bool, code: nat, clockOk: bool): Machine
  {
    if code == 0x80 then
      if n.spr[SPR_SR] % 2 == 1 then n.(spr := [n.spr[SPR_SR] - 1, n.pc, 0x80], pc := 0) else n.(exec := FAULT)
    else if code == 0xF2 then n.(exec := HALT)
    else if code == 0xF0 || code == 0xF1 then (if clockOk then n else n.(exec := CRITICAL))
    else n.Complain(strict)
  }

  // ---- Runs of the source program

  type Program = p: seq<Instr> | forall i :: i in p ==> i.Valid()

  /** The PC names an instruction of the program. */
  predicate AtInstruction(program: Program, pc: word) { pc % 4 == 0 && pc / 4 < |program| }

  /** One cycle of the source program: no fetch and no encoding. */
  function SourceStep(program: Program, m: Machine, strict: bool, e: Env): Machine
    requires AtInstruction(program, Enter(m, e).pc)
  {
    var entered := Enter(m, e);
    var i := program[entered.pc / 4];
    assert i in program;
    Finish(Meaning(i, entered, strict, e.clockOk))
  }

  /** Every cycle of the source run starts at an instruction of the program. */
  predicate Stays(program: Program, m: Machine, strict: bool, envs: seq<Env>)
    decreases |envs|
  {
    envs == [] || m.exec != RUNNING ||
    (AtInstruction(program, Enter(m, envs[0]).pc) && Stays(program, SourceStep(program, m, strict, envs[0]), strict, envs[1..]))
  }

  function SourceSteps(program: Program, m: Machine, strict: bool, envs: seq<Env>): Machine
    requires Stays(program, m, strict, envs)
    decreases |envs|
  {
    if envs == [] || m.exec != RUNNING then m
    else SourceSteps(program, SourceStep(program, m, strict, envs[0]), strict, envs[1..])
  }
}
