/** The machine running the assembled image simulates the source program. */
module Simulation {
  import opened Defs
  import opened Bits
  import opened Isa
  import opened Bus
  import opened Cpu
  import opened Assembler
  import opened Source
  import Safety

  // ---- Assembling is reading, checking and encoding

  /** The word of an instruction whose operands fit. */
  function EncodeWith(info: Info, i: Instr, address: int): nat
  {
    match i
    case Compute(_, rc, ra, rb) => EncodeR(info.op, ra, rb, rc, info.func)
    case ComputeImm(_, _, rb, ra, imm) => EncodeI(info.op, ra, rb, imm % 0x1_0000)
    case LoadHigh(rb, imm) => EncodeI(info.op, 0, rb, imm % 0x1_0000)
    case Branch(_, ra, target) => EncodeI(info.op, ra, 0, (target - address - 4) % 0x1_0000)
    case JumpRegister(_, ra) => EncodeI(info.op, ra, 0, 0)
    case LoadMem(_, _, rb, offset, ra) => EncodeI(info.op, ra, rb, offset % 0x1_0000)
    case StoreMem(_, rb, offset, ra) => EncodeI(info.op, ra, rb, offset % 0x1_0000)
    case Jump(_, target) => EncodeJ(info.op, (target - address - 4) % 0x400_0000)
    case Trap(code) => EncodeJ(info.op, code % 0x400_0000)
    case Return => EncodeJ(info.op, 0)
    case ToSpecial(spr, ra) => EncodeR(info.op, ra, 0, spr, info.func)
    case FromSpecial(rc, spr) => EncodeR(info.op, spr, 0, rc, info.func)
  }

  /** The mnemonic names the instruction. */
  predicate Denotes(mnemonic: Mnemonic, i: Instr)
  {
    match i
    case Compute(op, _, _, _) => RegisterOp(mnemonic) == Some(op)
    case ComputeImm(op, signed, _, _, _) => ImmediateOp(mnemonic) == Some((op, signed))
    case LoadHigh(_, _) => mnemonic == LHI
    case Branch(onZero, _, _) => mnemonic == if onZero then BEQZ else BNEZ
    case JumpRegister(link, _) => mnemonic == if link then JALR else JR
    case LoadMem(w, signed, _, _, _) => LoadForm(mnemonic) == Some((w, signed))
    case StoreMem(w, _, _, _) => StoreForm(mnemonic) == Some(w)
    case Jump(link, _) => mnemonic == if link then JAL else J
    case Trap(_) => mnemonic == INT
    case Return => mnemonic == RFE
    case ToSpecial(_, _) => mnemonic == MOVI2S
    case FromSpecial(_, _) => mnemonic == MOVS2I
  }

  lemma ResolveIs(token: Token, constants: Constants, address: int, limits: Limits)
    ensures ResolveImm(token, constants, limits).Ok? <==>
      Data(token, constants).Ok? && limits.min <= Data(token, constants).value <= limits.mask
    ensures ResolveImm(token, constants, limits).Ok? ==>
      ResolveImm(token, constants, limits).value == Data(token, constants).value % (limits.mask + 1)
    ensures ResolveDisp(token, constants, limits, address).Ok? <==>
      Target(token, constants, address).Ok? &&
      limits.min <= Target(token, constants, address).value - (address + 4) <= limits.signedMax
    ensures ResolveDisp(token, constants, limits, address).Ok? ==>
      ResolveDisp(token, constants, limits, address).value == (Target(token, constants, address).value - address - 4) % (limits.mask + 1)
  {
  }

  predicate Outcome(instr: Instruction, constants: Constants)
    requires instr.parts != [] && instr.parts[0].mnemonic.Some?
  {
    var mnemonic, read, assembled := instr.parts[0].mnemonic.value, ReadInstr(instr, constants), Assemble(instr, constants);
    && (assembled.Ok? <==> read.Ok? && Fits(read.value, instr.address))
    && (read.Ok? ==> Denotes(mnemonic, read.value))
    && (assembled.Ok? ==> assembled.value == EncodeWith(InfoOf(mnemonic), read.value, instr.address))
  }

  /** How the encoding formats divide the mnemonics. */
  lemma FormatOf(mnemonic: Mnemonic)
    ensures RegisterOp(mnemonic).Some? <==> InfoOf(mnemonic).format.RType?
    ensures ImmediateOp(mnemonic).Some? || mnemonic in {BEQZ, BNEZ, JR, JALR, LHI} <==> InfoOf(mnemonic).format.IType?
    ensures mnemonic in {BEQZ, BNEZ, JR, JALR, LHI} ==> ImmediateOp(mnemonic).None?
    ensures LoadForm(mnemonic).Some? || StoreForm(mnemonic).Some? <==> InfoOf(mnemonic).format.MType?
    ensures mnemonic in {J, JAL, RFE, INT} <==> InfoOf(mnemonic).format.JType?
    ensures mnemonic in {MOVI2S, MOVS2I} <==> InfoOf(mnemonic).format.SType?
  {
    match mnemonic {
      case SLL | SRL | SRA | ADD | SUB | AND | OR | XOR | SGT | SEQ | SGE | SLT | SNE | SLE =>
      case MOVI2S | MOVS2I | J | JAL | RFE | INT | BEQZ | BNEZ | JR | JALR | LHI =>
      case LB | LH | LW | LBU | LHU | SB | SH | SW =>
      case _ =>
    }
  }

  /** The assembler finds the registers that the operands name. */
  lemma OperandsAgree()
    ensures forall t :: Register(t).Ok? <==> RegisterOf(t).Ok?
    ensures forall t :: Register(t).Ok? ==> Register(t).value == RegisterOf(t).value
    ensures forall t :: Special(t).Ok? <==> SpecialOf(t).Ok?
    ensures forall t :: Special(t).Ok? ==> Special(t).value == SpecialOf(t).value
  {
  }

  lemma RegisterOutcome(instr: Instruction, constants: Constants)
    requires instr.parts != [] && instr.parts[0].mnemonic.Some?
    requires RegisterOp(instr.parts[0].mnemonic.value).Some?
    ensures Outcome(instr, constants)
  {
    hide EncodeI, EncodeJ, EncodeR, ResolveImm, ResolveDisp, Data, Target, Register, Special, RegisterOf, SpecialOf;
    hide InfoOf, RegisterOp, ImmediateOp, LoadForm, StoreForm;
    hide AssembleS, AssembleBranch, AssembleI, AssembleM, AssembleJ;
    hide ReadImmediate, ReadMemory, ReadBranch, ReadJump, ReadMove, ReadSystem;
    FormatOf(instr.parts[0].mnemonic.value);
    OperandsAgree();
  }

  lemma ImmediateOutcome(instr: Instruction, constants: Constants)
    requires instr.parts != [] && instr.parts[0].mnemonic.Some?
    requires ImmediateOp(instr.parts[0].mnemonic.value).Some?
    ensures Outcome(instr, constants)
  {
    hide EncodeI, EncodeJ, EncodeR, ResolveImm, ResolveDisp, Data, Target, Register, Special, RegisterOf, SpecialOf;
    hide InfoOf, RegisterOp, ImmediateOp, LoadForm, StoreForm;
    hide AssembleR, AssembleS, AssembleBranch, AssembleM, AssembleJ;
    hide ReadRegister, ReadMemory, ReadBranch, ReadJump, ReadMove, ReadSystem;
    FormatOf(instr.parts[0].mnemonic.value);
    OperandsAgree();
    if |instr.parts| == 4 { ResolveIs(instr.parts[3], constants, instr.address, IMM16); }
  }

  lemma MemoryOutcome(instr: Instruction, constants: Constants)
    requires instr.parts != [] && instr.parts[0].mnemonic.Some?
    requires LoadForm(instr.parts[0].mnemonic.value).Some? || StoreForm(instr.parts[0].mnemonic.value).Some?
    ensures Outcome(instr, constants)
  {
    hide EncodeI, EncodeJ, EncodeR, ResolveImm, ResolveDisp, Data, Target, Register, Special, RegisterOf, SpecialOf;
    hide InfoOf, RegisterOp, ImmediateOp, LoadForm, StoreForm;
    hide AssembleR, AssembleS, AssembleBranch, AssembleI, AssembleJ;
    hide ReadRegister, ReadImmediate, ReadBranch, ReadJump, ReadMove, ReadSystem;
    FormatOf(instr.parts[0].mnemonic.value);
    OperandsAgree();
    if |instr.parts| == 4 { ResolveIs(instr.parts[2], constants, instr.address, IMM16); }
  }

  lemma BranchOutcome(instr: Instruction, constants: Constants)
    requires instr.parts != [] && instr.parts[0].mnemonic.Some?
    requires instr.parts[0].mnemonic.value in {BEQZ, BNEZ}
    ensures Outcome(instr, constants)
  {
    hide EncodeI, EncodeJ, EncodeR, ResolveImm, ResolveDisp, Data, Target, Register, Special, RegisterOf, SpecialOf;
    hide InfoOf, RegisterOp, ImmediateOp, LoadForm, StoreForm;
    hide AssembleR, AssembleS, AssembleI, AssembleM, AssembleJ;
    hide ReadRegister, ReadImmediate, ReadMemory, ReadJump, ReadMove, ReadSystem;
    FormatOf(instr.parts[0].mnemonic.value);
    OperandsAgree();
    if |instr.parts| == 3 { ResolveIs(instr.parts[2], constants, instr.address, IMM16); }
  }

  lemma JumpIs(instr: Instruction, constants: Constants)
    requires instr.parts != [] && instr.parts[0].mnemonic.Some?
    requires instr.parts[0].mnemonic.value in {J, JAL}
    ensures var mnemonic, parts := instr.parts[0].mnemonic.value, instr.parts;
      && Assemble(instr, constants) == AssembleJ(mnemonic, InfoOf(mnemonic), parts, constants, instr.address)
      && ReadInstr(instr, constants) == ReadJump(mnemonic == JAL, parts, constants, instr.address)
  {
    hide InfoOf, RegisterOp, ImmediateOp, LoadForm, StoreForm;
    hide AssembleR, AssembleS, AssembleBranch, AssembleI, AssembleM, AssembleJ;
    hide ReadRegister, ReadImmediate, ReadMemory, ReadBranch, ReadJump, ReadMove, ReadSystem;
    FormatOf(instr.parts[0].mnemonic.value);
  }

  lemma JumpOutcome(instr: Instruction, constants: Constants)
    requires instr.parts != [] && instr.parts[0].mnemonic.Some?
    requires instr.parts[0].mnemonic.value in {J, JAL}
    ensures Outcome(instr, constants)
  {
    hide EncodeI, EncodeJ, EncodeR, ResolveImm, ResolveDisp, Data, Target, Register, Special, InfoOf;
    hide Assemble, ReadInstr, Fits, EncodeWith, Denotes;
    var mnemonic, parts := instr.parts[0].mnemonic.value, instr.parts;
    JumpIs(instr, constants);
    if |parts| == 2 {
      ResolveIs(parts[1], constants, instr.address, IMM26);
      var target := Target(parts[1], constants, instr.address);
      if target.Ok? { JumpForm(mnemonic, target.value, instr.address); }
    }
  }

  lemma JumpForm(mnemonic: Mnemonic, target: int, address: int)
    requires mnemonic in {J, JAL}
    ensures var i := Jump(mnemonic == JAL, target);
      && Denotes(mnemonic, i)
      && (Fits(i, address) <==> IMM26.min <= target - (address + 4) <= IMM26.signedMax)
      && EncodeWith(InfoOf(mnemonic), i, address) == EncodeJ(InfoOf(mnemonic).op, (target - address - 4) % (IMM26.mask + 1))
  {
    hide EncodeJ;
  }

  lemma MoveOutcome(instr: Instruction, constants: Constants)
    requires instr.parts != [] && instr.parts[0].mnemonic.Some?
    requires instr.parts[0].mnemonic.value in {MOVI2S, MOVS2I}
    ensures Outcome(instr, constants)
  {
    hide EncodeI, EncodeJ, EncodeR, ResolveImm, ResolveDisp, Data, Target, Register, Special, RegisterOf, SpecialOf;
    hide InfoOf, RegisterOp, ImmediateOp, LoadForm, StoreForm;
    hide AssembleR, AssembleBranch, AssembleI, AssembleM, AssembleJ;
    hide ReadRegister, ReadImmediate, ReadMemory, ReadBranch, ReadJump, ReadSystem;
    FormatOf(instr.parts[0].mnemonic.value);
    OperandsAgree();
  }

  lemma TrapOutcome(instr: Instruction, constants: Constants)
    requires instr.parts != [] && instr.parts[0].mnemonic.Some?
    requires instr.parts[0].mnemonic.value in {INT, RFE}
    ensures Outcome(instr, constants)
  {
    hide EncodeI, EncodeJ, EncodeR, ResolveImm, ResolveDisp, Data, Target, Register, Special, RegisterOf, SpecialOf;
    hide InfoOf, RegisterOp, ImmediateOp, LoadForm, StoreForm;
    hide AssembleR, AssembleS, AssembleBranch, AssembleI, AssembleM;
    hide ReadRegister, ReadImmediate, ReadMemory, ReadBranch, ReadJump, ReadMove;
    FormatOf(instr.parts[0].mnemonic.value);
    OperandsAgree();
    if |instr.parts| == 2 { ResolveIs(instr.parts[1], constants, instr.address, IMM26); }
  }

  lemma LoadHighOutcome(instr: Instruction, constants: Constants)
    requires instr.parts != [] && instr.parts[0].mnemonic.Some?
    requires instr.parts[0].mnemonic.value in {LHI, JR, JALR}
    ensures Outcome(instr, constants)
  {
    hide EncodeI, EncodeJ, EncodeR, ResolveImm, ResolveDisp, Data, Target, Register, Special, RegisterOf, SpecialOf;
    hide InfoOf, RegisterOp, ImmediateOp, LoadForm, StoreForm;
    hide AssembleR, AssembleS, AssembleBranch, AssembleM, AssembleJ;
    hide ReadRegister, ReadImmediate, ReadMemory, ReadBranch, ReadJump, ReadMove;
    FormatOf(instr.parts[0].mnemonic.value);
    OperandsAgree();
    if |instr.parts| == 3 { ResolveIs(instr.parts[2], constants, instr.address, IMM16); }
  }

  /** The assembler accepts an instruction exactly when it can be read and its operands fit, and
      emits the encoding of what was read. */
  lemma AssembleIs(instr: Instruction, constants: Constants)
    ensures Assemble(instr, constants).Ok? <==>
      ReadInstr(instr, constants).Ok? && Fits(ReadInstr(instr, constants).value, instr.address)
    ensures ReadInstr(instr, constants).Ok? ==>
      instr.parts != [] && instr.parts[0].mnemonic.Some? && Outcome(instr, constants)
  {
    if instr.parts != [] && instr.parts[0].mnemonic.Some? {
      var mnemonic := instr.parts[0].mnemonic.value;
      hide Outcome;
      if RegisterOp(mnemonic).Some? { RegisterOutcome(instr, constants); }
      else if ImmediateOp(mnemonic).Some? { ImmediateOutcome(instr, constants); }
      else if mnemonic in {BEQZ, BNEZ} { BranchOutcome(instr, constants); }
      else if mnemonic in {J, JAL} { JumpOutcome(instr, constants); }
      else if mnemonic in {MOVI2S, MOVS2I} { MoveOutcome(instr, constants); }
      else if mnemonic in {INT, RFE} { TrapOutcome(instr, constants); }
      else if mnemonic in {LHI, JR, JALR} { LoadHighOutcome(instr, constants); }
      else { MemoryOutcome(instr, constants); }
    }
  }

  // ---- Decoding inverts encoding

  lemma High2(op: nat, ra: nat)
    requires ra < 0x20
    ensures Or(op * 0x400_0000, ra * 0x20_0000) == (op * 0x20 + ra) * 0x20_0000
  {
    hide Or, And, Pow2;
    Pow2Values();
    OrAt(op, ra * 0x20_0000, 26, 0x400_0000);
  }

  lemma High3(op: nat, ra: nat, rb: nat)
    requires ra < 0x20 && rb < 0x20
    ensures Or(Or(op * 0x400_0000, ra * 0x20_0000), rb * 0x1_0000) == ((op * 0x20 + ra) * 0x20 + rb) * 0x1_0000
  {
    hide Or, And, Pow2;
    Pow2Values();
    High2(op, ra);
    OrAt(op * 0x20 + ra, rb * 0x1_0000, 21, 0x20_0000);
  }

  lemma EncodeISum(op: nat, ra: nat, rb: nat, imm: nat)
    requires ra < 0x20 && rb < 0x20 && imm < 0x1_0000
    ensures EncodeI(op, ra, rb, imm) == ((op * 0x20 + ra) * 0x20 + rb) * 0x1_0000 + imm
  {
    hide Or, And, Pow2;
    var high := (op * 0x20 + ra) * 0x20 + rb;
    assert EncodeI(op, ra, rb, imm) == Or(high * 0x1_0000, imm) by {
      LowBits(imm);
      High3(op, ra, rb);
    }
    hide EncodeI;
    assert Or(high * 0x1_0000, imm) == high * 0x1_0000 + imm by { Pow2Values(); OrAt(high, imm, 16, 0x1_0000); }
  }

  lemma EncodeRSum(op: nat, ra: nat, rb: nat, rc: nat, func: nat)
    requires ra < 0x20 && rb < 0x20 && rc < 0x20 && func < 0x40
    ensures EncodeR(op, ra, rb, rc, func) == ((op * 0x20 + ra) * 0x20 + rb) * 0x1_0000 + rc * 0x800 + func
  {
    hide Or, And, Pow2;
    Pow2Values();
    High3(op, ra, rb);
    var high := (op * 0x20 + ra) * 0x20 + rb;
    OrAt(high, rc * 0x800, 16, 0x1_0000);
    OrAt(high * 0x20 + rc, func, 11, 0x800);
  }

  lemma EncodeJSum(op: nat, imm: nat)
    requires imm < 0x400_0000
    ensures EncodeJ(op, imm) == op * 0x400_0000 + imm
  {
    hide Or, And, Pow2;
    assert And(imm, 0x3FF_FFFF) == imm by { LowBits(imm); }
    assert Or(op * 0x400_0000, imm) == op * 0x400_0000 + imm by { Pow2Values(); OrAt(op, imm, 26, 0x400_0000); }
  }

  lemma DecodeSum(raw: word, op: nat, ra: nat, rb: nat, rc: nat, low: nat)
    requires op < 0x40 && ra < 0x20 && rb < 0x20 && rc < 0x20 && low < 0x800
    requires raw == ((op * 0x20 + ra) * 0x20 + rb) * 0x1_0000 + rc * 0x800 + low
    ensures var d := Decode(raw);
      && d.opcode == op && d.ra == ra && d.rb == rb && d.rc == rc && d.func == low % 0x40
      && d.imm16 == rc * 0x800 + low && d.imm26 == (ra * 0x20 + rb) * 0x1_0000 + rc * 0x800 + low
  {
    var imm := rc * 0x800 + low;
    ModUnique(raw, 0x400_0000, op, (ra * 0x20 + rb) * 0x1_0000 + imm);
    ModUnique(raw, 0x20_0000, op * 0x20 + ra, rb * 0x1_0000 + imm);
    ModUnique(raw, 0x1_0000, (op * 0x20 + ra) * 0x20 + rb, imm);
    ModUnique(raw, 0x800, ((op * 0x20 + ra) * 0x20 + rb) * 0x20 + rc, low);
    ModUnique(op * 0x20 + ra, 0x20, op, ra);
    ModUnique((op * 0x20 + ra) * 0x20 + rb, 0x20, op * 0x20 + ra, rb);
    ModUnique(((op * 0x20 + ra) * 0x20 + rb) * 0x20 + rc, 0x20, (op * 0x20 + ra) * 0x20 + rb, rc);
  }

  lemma DecodeI(op: nat, ra: nat, rb: nat, v: int)
    requires op < 0x40 && ra < 0x20 && rb < 0x20
    ensures var raw := EncodeI(op, ra, rb, v % 0x1_0000);
      && raw < WORD
      && var d := Decode(raw);
         d.opcode == op && d.ra == ra && d.rb == rb && d.imm16 == ZeroExt(v) && d.imm16Sext == SignExt(v)
  {
    hide EncodeI;
    var imm := v % 0x1_0000;
    assert SignExt(v) == if imm < 0x8000 then imm else imm - 0x1_0000;
    hide SignExt;
    EncodeISum(op, ra, rb, imm);
    DecodeSum(EncodeI(op, ra, rb, imm), op, ra, rb, imm / 0x800, imm % 0x800);
  }

  lemma DecodeR(op: nat, ra: nat, rb: nat, rc: nat, func: nat)
    requires op < 0x40 && ra < 0x20 && rb < 0x20 && rc < 0x20 && func < 0x40
    ensures var raw := EncodeR(op, ra, rb, rc, func);
      && raw < WORD
      && var d := Decode(raw);
         d.opcode == op && d.ra == ra && d.rb == rb && d.rc == rc && d.func == func
  {
    hide Or, And, Pow2, EncodeI, EncodeR;
    EncodeRSum(op, ra, rb, rc, func);
    DecodeSum(EncodeR(op, ra, rb, rc, func), op, ra, rb, rc, func);
  }

  lemma Sext26(v: int)
    ensures var imm := v % 0x400_0000;
      (v + 0x200_0000) % 0x400_0000 - 0x200_0000 == if imm < 0x200_0000 then imm else imm - 0x400_0000
  {
  }

  lemma DecodeJ(op: nat, v: int)
    requires op < 0x40
    ensures var raw := EncodeJ(op, v % 0x400_0000);
      && raw < WORD
      && var d := Decode(raw);
         d.opcode == op && d.imm26 == v % 0x400_0000 && d.imm26Sext == (v + 0x200_0000) % 0x400_0000 - 0x200_0000
  {
    hide EncodeJ;
    var imm := v % 0x400_0000;
    EncodeJSum(op, imm);
    Sext26(v);
    ModUnique(op * 0x400_0000 + imm, 0x400_0000, op, imm);
  }

  // ---- The datapath computes the meaning

  /** A shift by the low five bits of its amount. */
  lemma Shifts(x: word, y: word)
    ensures And(y, 0x1F) == y % 32
    ensures Shl(x, y % 32) == Compute2(ShiftLeft, x, y)
    ensures Shr(x, y % 32) == Compute2(ShiftRight, x, y)
    ensures Sra(x, y % 32) == Compute2(ShiftArithmetic, x, y)
  {
    hide And, Pow2;
    Pow2Values();
    LowBits(y);
    SraRepeatsSign(x, y % 32);
  }

  lemma RegisterOpIs(mnemonic: Mnemonic, x: word, y: word)
    requires RegisterOp(mnemonic).Some?
    ensures InfoOf(mnemonic).op == I_RTYPE
    ensures AluR(InfoOf(mnemonic).func, x, y) == Some(Compute2(RegisterOp(mnemonic).value, x, y))
  {
    Shifts(x, y);
  }

  lemma SignedOperand(x: word, s: int)
    requires -0x8000 <= s < 0x8000
    ensures Signed(s % WORD) == s
    ensures (x + s % WORD) % WORD == (x + s) % WORD && (x - s % WORD) % WORD == (x - s) % WORD
    ensures x == s % WORD <==> Signed(x) == s
  {
  }

  lemma ImmediateOpIs(mnemonic: Mnemonic, d: Decoded, x: word, imm: int)
    requires ImmediateOp(mnemonic).Some?
    requires d.opcode == InfoOf(mnemonic).op && d.imm16 == ZeroExt(imm) && d.imm16Sext == SignExt(imm)
    ensures d.opcode != I_RTYPE
    ensures var (op, signed) := ImmediateOp(mnemonic).value;
      AluI(d, x) == Some(Compute2(op, x, (if signed then SignExt(imm) else ZeroExt(imm)) % WORD))
  {
    hide And, Or, Xor, Pow2, Shl, Shr, Sra;
    var (op, signed) := ImmediateOp(mnemonic).value;
    assert d.imm16 % WORD == d.imm16;
    Shifts(x, d.imm16);
    var s := SignExt(imm);
    assert -0x8000 <= s < 0x8000;
    SignedOperand(x, s);
    hide SignExt, ZeroExt, Signed;
  }

  lemma PutIs(m: Machine, r: nat, value: word)
    requires r < GPR_COUNT && m.gpr[0] == 0
    ensures var n := SetReg(m, r, value); n.(gpr := n.gpr[0 := 0]) == Put(m, r, value)
  {
    var n := SetReg(m, r, value);
    if r == 0 {
      assert n.gpr[0 := 0] == m.gpr;
    } else {
      assert n.gpr[0 := 0] == n.gpr;
    }
  }

  lemma ZeroStays(m: Machine)
    requires m.gpr[0] == 0
    ensures m.(gpr := m.gpr[0 := 0]) == m
  {
    assert m.gpr[0 := 0] == m.gpr;
  }

  /** Executing the decoded word of `i` at m.pc has the meaning of `i`. */
  predicate Executes(info: Info, i: Instr, m: Machine, strict: bool, clockOk: bool)
    requires i.Valid()
  {
    var raw := EncodeWith(info, i, m.pc);
    raw < WORD && Execute(Advance(m), strict, Decode(raw), clockOk) == Meaning(i, m, strict, clockOk)
  }

  lemma ExecuteCompute(mnemonic: Mnemonic, i: Instr, m: Machine, strict: bool, clockOk: bool)
    requires i.Valid() && Denotes(mnemonic, i) && m.gpr[0] == 0 && i.Compute?
    ensures Executes(InfoOf(mnemonic), i, m, strict, clockOk)
  {
    hide Decode, EncodeR, AluR, Compute2;
    DecodeR(InfoOf(mnemonic).op, i.ra, i.rb, i.rc, InfoOf(mnemonic).func);
    RegisterOpIs(mnemonic, m.gpr[i.ra], m.gpr[i.rb]);
    PutIs(Advance(m), i.rc, Compute2(i.op, m.gpr[i.ra], m.gpr[i.rb]));
  }

  lemma ExecuteImmediate(mnemonic: Mnemonic, i: Instr, m: Machine, strict: bool, clockOk: bool)
    requires i.Valid() && Denotes(mnemonic, i) && m.gpr[0] == 0 && i.ComputeImm?
    ensures Executes(InfoOf(mnemonic), i, m, strict, clockOk)
  {
    hide Decode, EncodeI, AluI, Compute2, SignExt, ZeroExt;
    var op := InfoOf(mnemonic).op;
    DecodeI(op, i.ra, i.rb, i.imm);
    ImmediateOpIs(mnemonic, Decode(EncodeI(op, i.ra, i.rb, i.imm % 0x1_0000)), m.gpr[i.ra], i.imm);
    PutIs(Advance(m), i.rb, Compute2(i.op, m.gpr[i.ra], (if i.signed then SignExt(i.imm) else ZeroExt(i.imm)) % WORD));
  }

  lemma ExecuteLoadHigh(mnemonic: Mnemonic, i: Instr, m: Machine, strict: bool, clockOk: bool)
    requires i.Valid() && Denotes(mnemonic, i) && m.gpr[0] == 0 && i.LoadHigh?
    ensures Executes(InfoOf(mnemonic), i, m, strict, clockOk)
  {
    hide Decode, EncodeI, Pow2;
    var n, raw := Advance(m), EncodeWith(InfoOf(mnemonic), i, m.pc);
    assert raw == EncodeI(I_LHI, 0, i.rb, i.imm % 0x1_0000);
    hide InfoOf, EncodeWith, Denotes;
    DecodeI(I_LHI, 0, i.rb, i.imm);
    var d := Decode(raw);
    Pow2Values();
    assert AluI(d, n.gpr[d.ra]) == Some(ZeroExt(i.imm) * 0x1_0000);
    hide AluI, SignExt, ZeroExt;
    PutIs(n, i.rb, ZeroExt(i.imm) * 0x1_0000);
  }

  /** A displacement that fits is read back by the sign extension: the target is reached exactly. */
  lemma TargetReached(pc: word, target: int)
    ensures -0x8000 <= target - (pc + 4) <= 0x7FFF ==>
      Wrap(Wrap(pc + 4) + SignExt(target - pc - 4)) == target % WORD
    ensures -0x200_0000 <= target - (pc + 4) <= 0x1FF_FFFF ==>
      Wrap(Wrap(pc + 4) + ((target - pc - 4 + 0x200_0000) % 0x400_0000 - 0x200_0000)) == target % WORD
  {
  }

  lemma ExecuteBranch(mnemonic: Mnemonic, i: Instr, m: Machine, strict: bool, clockOk: bool)
    requires i.Valid() && Denotes(mnemonic, i) && m.gpr[0] == 0 && i.Branch? && Fits(i, m.pc)
    ensures Executes(InfoOf(mnemonic), i, m, strict, clockOk)
  {
    hide Decode, EncodeI, SignExt, Dispatch;
    DecodeI(InfoOf(mnemonic).op, i.ra, 0, i.target - m.pc - 4);
    TargetReached(m.pc, i.target);
    DispatchBranch(Advance(m), strict, Decode(EncodeWith(InfoOf(mnemonic), i, m.pc)), clockOk);
    ZeroStays(Meaning(i, m, strict, clockOk));
  }

  lemma ExecuteJumpRegister(mnemonic: Mnemonic, i: Instr, m: Machine, strict: bool, clockOk: bool)
    requires i.Valid() && Denotes(mnemonic, i) && m.gpr[0] == 0 && i.JumpRegister?
    ensures Executes(InfoOf(mnemonic), i, m, strict, clockOk)
  {
    hide Decode, EncodeI, SignExt;
    var raw := EncodeWith(InfoOf(mnemonic), i, m.pc);
    DecodeI(InfoOf(mnemonic).op, i.ra, 0, 0);
    assert raw == EncodeI(InfoOf(mnemonic).op, i.ra, 0, 0) && InfoOf(mnemonic).op == if i.link then I_JALR else I_JR;
    hide InfoOf, EncodeWith, Denotes;
    NoAluOpcode(Decode(raw), m.gpr[i.ra]);
    hide AluI;
    ZeroStays(Meaning(i, m, strict, clockOk));
  }

  lemma WidenIs(value: word)
    ensures Extend(I_LB, value) == Widen(value, W8, true)
    ensures Extend(I_LH, value) == Widen(value, W16, true)
  {
    var b, h := value % 0x100, value % 0x1_0000;
    assert (value + 0x80) % 0x100 - 0x80 == if b < 0x80 then b else b - 0x100;
    assert SignExt(value) == if h < 0x8000 then h else h - 0x1_0000;
  }

  lemma LoadExtends(mnemonic: Mnemonic, value: word)
    requires LoadForm(mnemonic).Some? && LoadForm(mnemonic).value.0.Truncate(value) == value
    ensures var (w, signed) := LoadForm(mnemonic).value; Extend(InfoOf(mnemonic).op, value) == Widen(value, w, signed)
  {
    WidenIs(value);
    hide SignExt;
    assert mnemonic in {LB, LBU, LH, LHU, LW};
  }

  lemma LoadFormIs(mnemonic: Mnemonic)
    requires LoadForm(mnemonic).Some?
    ensures LoadWidth(InfoOf(mnemonic).op) == Some(LoadForm(mnemonic).value.0)
    ensures InfoOf(mnemonic).op == I_LW <==> LoadForm(mnemonic).value.0 == W32
  {
  }

  lemma ExecuteLoadMem(mnemonic: Mnemonic, i: Instr, m: Machine, strict: bool, clockOk: bool)
    requires i.Valid() && Denotes(mnemonic, i) && m.gpr[0] == 0 && i.LoadMem?
    ensures Executes(InfoOf(mnemonic), i, m, strict, clockOk)
  {
    hide Decode, EncodeI, SignExt, Extend, Widen, Read, Dispatch;
    var n, address, info := Advance(m), At(m, i.ra, i.offset), InfoOf(mnemonic);
    var raw := EncodeWith(info, i, m.pc);
    LoadFormIs(mnemonic);
    hide InfoOf, LoadForm, LoadWidth;
    assert raw == EncodeI(info.op, i.ra, i.rb, i.offset % 0x1_0000);
    hide EncodeWith;
    DecodeI(info.op, i.ra, i.rb, i.offset);
    var d := Decode(raw);
    DispatchLoad(n, strict, d, clockOk);
    assert Address(n, d) == address;
    var loaded := Read(n, strict, address, i.w);
    Safety.ReadKeeps(n, strict, address, i.w);
    LoadFits(n, strict, address, i.w);
    LoadExtends(mnemonic, loaded.value);
    ZeroStays(loaded.m);
    PutIs(loaded.m, i.rb, Extend(info.op, loaded.value));
  }

  lemma ExecuteStoreMem(mnemonic: Mnemonic, i: Instr, m: Machine, strict: bool, clockOk: bool)
    requires i.Valid() && Denotes(mnemonic, i) && m.gpr[0] == 0 && i.StoreMem?
    ensures Executes(InfoOf(mnemonic), i, m, strict, clockOk)
  {
    hide Decode, EncodeI, SignExt, Write, Dispatch;
    DecodeI(InfoOf(mnemonic).op, i.ra, i.rb, i.offset);
    DispatchStore(Advance(m), strict, Decode(EncodeWith(InfoOf(mnemonic), i, m.pc)), clockOk);
    Safety.WriteKeeps(Advance(m), strict, At(m, i.ra, i.offset), m.gpr[i.rb], i.w);
    ZeroStays(Meaning(i, m, strict, clockOk));
  }

  lemma ExecuteJump(mnemonic: Mnemonic, i: Instr, m: Machine, strict: bool, clockOk: bool)
    requires i.Valid() && Denotes(mnemonic, i) && m.gpr[0] == 0 && i.Jump? && Fits(i, m.pc)
    ensures Executes(InfoOf(mnemonic), i, m, strict, clockOk)
  {
    hide Decode, EncodeJ, SignExt, Dispatch;
    DecodeJ(InfoOf(mnemonic).op, i.target - m.pc - 4);
    TargetReached(m.pc, i.target);
    DispatchJump(Advance(m), strict, Decode(EncodeWith(InfoOf(mnemonic), i, m.pc)), clockOk);
    ZeroStays(Meaning(i, m, strict, clockOk));
  }

  lemma ExecuteTrap(mnemonic: Mnemonic, i: Instr, m: Machine, strict: bool, clockOk: bool)
    requires i.Valid() && Denotes(mnemonic, i) && m.gpr[0] == 0 && i.Trap?
    ensures Executes(InfoOf(mnemonic), i, m, strict, clockOk)
  {
    hide Decode, EncodeJ, Ien, SetIen, ClearIen, Dispatch;
    DecodeJ(InfoOf(mnemonic).op, i.code);
    IenArithmetic(m.spr[SPR_SR]);
    DispatchSystem(Advance(m), strict, Decode(EncodeWith(InfoOf(mnemonic), i, m.pc)), clockOk);
    ZeroStays(Meaning(i, m, strict, clockOk));
  }

  lemma ExecuteReturn(mnemonic: Mnemonic, i: Instr, m: Machine, strict: bool, clockOk: bool)
    requires i.Valid() && Denotes(mnemonic, i) && m.gpr[0] == 0 && i.Return?
    ensures Executes(InfoOf(mnemonic), i, m, strict, clockOk)
  {
    hide Decode, EncodeJ, Ien, SetIen, ClearIen, Dispatch;
    DecodeJ(InfoOf(mnemonic).op, 0);
    IenArithmetic(m.spr[SPR_SR]);
    DispatchSystem(Advance(m), strict, Decode(EncodeWith(InfoOf(mnemonic), i, m.pc)), clockOk);
    ZeroStays(Meaning(i, m, strict, clockOk));
  }

  lemma ExecuteSpecial(mnemonic: Mnemonic, i: Instr, m: Machine, strict: bool, clockOk: bool)
    requires i.Valid() && Denotes(mnemonic, i) && m.gpr[0] == 0 && (i.ToSpecial? || i.FromSpecial?)
    ensures Executes(InfoOf(mnemonic), i, m, strict, clockOk)
  {
    hide Decode, EncodeR, MaskedWrite;
    var info := InfoOf(mnemonic);
    if i.ToSpecial? {
      DecodeR(info.op, i.ra, 0, i.spr, info.func);
      MaskedWriteArithmetic(m.spr[i.spr], m.gpr[i.ra]);
      assert m.spr[SPR_CR := m.spr[SPR_CR]] == m.spr;
      ZeroStays(Meaning(i, m, strict, clockOk));
    } else {
      DecodeR(info.op, i.spr, 0, i.rc, info.func);
      PutIs(Advance(m), i.rc, m.spr[i.spr]);
    }
  }

  lemma ExecuteIs(mnemonic: Mnemonic, i: Instr, m: Machine, strict: bool, clockOk: bool)
    requires i.Valid() && Denotes(mnemonic, i) && Fits(i, m.pc) && m.gpr[0] == 0
    ensures Executes(InfoOf(mnemonic), i, m, strict, clockOk)
  {
    hide Executes;
    match i
    case Compute(_, _, _, _) => ExecuteCompute(mnemonic, i, m, strict, clockOk);
    case ComputeImm(_, _, _, _, _) => ExecuteImmediate(mnemonic, i, m, strict, clockOk);
    case LoadHigh(_, _) => ExecuteLoadHigh(mnemonic, i, m, strict, clockOk);
    case Branch(_, _, _) => ExecuteBranch(mnemonic, i, m, strict, clockOk);
    case JumpRegister(_, _) => ExecuteJumpRegister(mnemonic, i, m, strict, clockOk);
    case LoadMem(_, _, _, _, _) => ExecuteLoadMem(mnemonic, i, m, strict, clockOk);
    case StoreMem(_, _, _, _) => ExecuteStoreMem(mnemonic, i, m, strict, clockOk);
    case Jump(_, _) => ExecuteJump(mnemonic, i, m, strict, clockOk);
    case Trap(_) => ExecuteTrap(mnemonic, i, m, strict, clockOk);
    case Return => ExecuteReturn(mnemonic, i, m, strict, clockOk);
    case ToSpecial(_, _) => ExecuteSpecial(mnemonic, i, m, strict, clockOk);
    case FromSpecial(_, _) => ExecuteSpecial(mnemonic, i, m, strict, clockOk);
  }
}
