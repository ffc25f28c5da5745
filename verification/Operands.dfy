/** What an accepted instruction requires of its operands and where their numbers end up in its word. */
module Operands {
  import opened Defs
  import opened Cpu
  import opened Assembler
  import opened Source
  import opened Simulation
  import opened ProgramSimulation

  predicate IsRegister(t: Token) { t.register.Some? && 0 <= t.register.value <= 31 }

  predicate IsSpecial(t: Token) { t.spr.Some? && t.spr.value <= 2 }

  predicate DataWithin(t: Token, constants: Constants, low: int, high: int)
  {
    Data(t, constants).Ok? && low <= Data(t, constants).value <= high
  }

  predicate DistanceWithin(t: Token, constants: Constants, address: int, low: int, high: int)
  {
    Target(t, constants, address).Ok? && low <= Target(t, constants, address).value - (address + 4) <= high
  }

  /** The syntaxes of the assembler, over tokens. */
  predicate Acceptable(instr: Instruction, constants: Constants)
  {
    var parts := instr.parts;
    parts != [] && parts[0].mnemonic.Some? &&
    var m := parts[0].mnemonic.value;
    if RegisterOp(m).Some? then |parts| == 4 && IsRegister(parts[1]) && IsRegister(parts[2]) && IsRegister(parts[3])
    else if m == MOVI2S then |parts| == 3 && IsSpecial(parts[1]) && IsRegister(parts[2])
    else if m == MOVS2I then |parts| == 3 && IsRegister(parts[1]) && IsSpecial(parts[2])
    else if m == BEQZ || m == BNEZ then
      |parts| == 3 && IsRegister(parts[1]) && DistanceWithin(parts[2], constants, instr.address, -0x8000, 0x7FFF)
    else if m == JR || m == JALR then |parts| == 2 && IsRegister(parts[1])
    else if m == LHI then |parts| == 3 && IsRegister(parts[1]) && DataWithin(parts[2], constants, -0x8000, 0xFFFF)
    else if m == RFE then |parts| == 1
    else if m == INT then |parts| == 2 && DataWithin(parts[1], constants, -0x200_0000, 0x3FF_FFFF)
    else if m == J || m == JAL then |parts| == 2 && DistanceWithin(parts[1], constants, instr.address, -0x200_0000, 0x1FF_FFFF)
    else if ImmediateOp(m).Some? then
      |parts| == 4 && IsRegister(parts[1]) && IsRegister(parts[2]) && DataWithin(parts[3], constants, -0x8000, 0xFFFF)
    else
      |parts| == 4 && IsRegister(parts[1]) && DataWithin(parts[2], constants, -0x8000, 0xFFFF) && IsRegister(parts[3])
  }

  /** The fields of a decoded word are the numbers its tokens name, in the order of the syntax. */
  predicate Names(parts: seq<Token>, m: Mnemonic, d: Decoded)
  {
    if RegisterOp(m).Some? then
      |parts| == 4 && parts[1].register == Some(d.rc) && parts[2].register == Some(d.ra) && parts[3].register == Some(d.rb)
    else if m == MOVI2S then |parts| == 3 && parts[1].spr == Some(d.rc) && parts[2].register == Some(d.ra)
    else if m == MOVS2I then |parts| == 3 && parts[1].register == Some(d.rc) && parts[2].spr == Some(d.ra)
    else if m == BEQZ || m == BNEZ then |parts| == 3 && parts[1].register == Some(d.ra)
    else if m == JR || m == JALR then |parts| == 2 && parts[1].register == Some(d.ra)
    else if m == LHI then |parts| == 3 && parts[1].register == Some(d.rb)
    else if m in {RFE, INT, J, JAL} then true
    else if ImmediateOp(m).Some? then |parts| == 4 && parts[1].register == Some(d.rb) && parts[2].register == Some(d.ra)
    else |parts| == 4 && parts[1].register == Some(d.rb) && parts[3].register == Some(d.ra)
  }

  lemma OperandOf(t: Token)
    ensures RegisterOf(t).Ok? <==> IsRegister(t)
    ensures RegisterOf(t).Ok? ==> t.register == Some(RegisterOf(t).value)
    ensures SpecialOf(t).Ok? <==> IsSpecial(t)
    ensures SpecialOf(t).Ok? ==> t.spr == Some(SpecialOf(t).value)
  {
  }

  lemma AllOperands()
    ensures forall t :: (RegisterOf(t).Ok? <==> IsRegister(t)) && (RegisterOf(t).Ok? ==> t.register == Some(RegisterOf(t).value))
    ensures forall t :: (SpecialOf(t).Ok? <==> IsSpecial(t)) && (SpecialOf(t).Ok? ==> t.spr == Some(SpecialOf(t).value))
  {
    forall t ensures (RegisterOf(t).Ok? <==> IsRegister(t)) && (RegisterOf(t).Ok? ==> t.register == Some(RegisterOf(t).value)) {
      OperandOf(t);
    }
    forall t ensures (SpecialOf(t).Ok? <==> IsSpecial(t)) && (SpecialOf(t).Ok? ==> t.spr == Some(SpecialOf(t).value)) {
      OperandOf(t);
    }
  }

  /** Reading succeeds with fitting operands exactly on acceptable tokens. */
  lemma ReadIff(instr: Instruction, constants: Constants)
    ensures Acceptable(instr, constants) <==>
      ReadInstr(instr, constants).Ok? && Fits(ReadInstr(instr, constants).value, instr.address)
  {
    AllOperands();
    hide RegisterOf, SpecialOf, IsRegister, IsSpecial, Data, Target;
    if instr.parts != [] && instr.parts[0].mnemonic.Some? {
      var m := instr.parts[0].mnemonic.value;
      FormatOf(m);
    }
  }

  /** An instruction is accepted iff its tokens have one of the syntaxes: every register operand is a number
      from 0 to 31, every special register one of the three, every immediate and displacement in range. */
  lemma AcceptedIff(instr: Instruction, constants: Constants)
    ensures Assemble(instr, constants).Ok? <==> Acceptable(instr, constants)
  {
    hide Assemble, ReadInstr, Acceptable, Fits;
    AssembleIs(instr, constants);
    ReadIff(instr, constants);
  }

  /** The instruction is read, and d has its fields. */
  predicate FieldsOf(instr: Instruction, constants: Constants, info: Info, d: Decoded)
  {
    && instr.parts != [] && instr.parts[0].mnemonic.Some?
    && ReadInstr(instr, constants).Ok? && DecodesTo(d, info, ReadInstr(instr, constants).value, instr.address)
  }

  lemma RegisterNames(instr: Instruction, constants: Constants, info: Info, d: Decoded)
    requires FieldsOf(instr, constants, info, d)
    requires RegisterOp(instr.parts[0].mnemonic.value).Some?
    ensures Names(instr.parts, instr.parts[0].mnemonic.value, d)
  {
    AllOperands();
    FormatOf(instr.parts[0].mnemonic.value);
    hide RegisterOf, SpecialOf, Data, Target, ZeroExt, SignExt, RegisterOp, ImmediateOp, LoadForm, StoreForm, InfoOf;
    hide ReadImmediate, ReadMemory, ReadBranch, ReadJump, ReadMove, ReadSystem;
  }

  lemma ImmediateNames(instr: Instruction, constants: Constants, info: Info, d: Decoded)
    requires FieldsOf(instr, constants, info, d)
    requires ImmediateOp(instr.parts[0].mnemonic.value).Some?
    ensures Names(instr.parts, instr.parts[0].mnemonic.value, d)
  {
    AllOperands();
    FormatOf(instr.parts[0].mnemonic.value);
    hide RegisterOf, SpecialOf, Data, Target, ZeroExt, SignExt, RegisterOp, ImmediateOp, LoadForm, StoreForm, InfoOf;
    hide ReadRegister, ReadMemory, ReadBranch, ReadJump, ReadMove, ReadSystem;
  }

  lemma MemoryNames(instr: Instruction, constants: Constants, info: Info, d: Decoded)
    requires FieldsOf(instr, constants, info, d)
    requires LoadForm(instr.parts[0].mnemonic.value).Some? || StoreForm(instr.parts[0].mnemonic.value).Some?
    ensures Names(instr.parts, instr.parts[0].mnemonic.value, d)
  {
    AllOperands();
    FormatOf(instr.parts[0].mnemonic.value);
    hide RegisterOf, SpecialOf, Data, Target, ZeroExt, SignExt, RegisterOp, ImmediateOp, LoadForm, StoreForm, InfoOf;
    hide ReadRegister, ReadImmediate, ReadBranch, ReadJump, ReadMove, ReadSystem;
  }

  lemma BranchNames(instr: Instruction, constants: Constants, info: Info, d: Decoded)
    requires FieldsOf(instr, constants, info, d)
    requires instr.parts[0].mnemonic.value in {BEQZ, BNEZ}
    ensures Names(instr.parts, instr.parts[0].mnemonic.value, d)
  {
    AllOperands();
    FormatOf(instr.parts[0].mnemonic.value);
    hide RegisterOf, SpecialOf, Data, Target, ZeroExt, SignExt, RegisterOp, ImmediateOp, LoadForm, StoreForm, InfoOf;
    hide ReadRegister, ReadImmediate, ReadMemory, ReadJump, ReadMove, ReadSystem;
  }

  lemma MoveNames(instr: Instruction, constants: Constants, info: Info, d: Decoded)
    requires FieldsOf(instr, constants, info, d)
    requires instr.parts[0].mnemonic.value in {MOVI2S, MOVS2I}
    ensures Names(instr.parts, instr.parts[0].mnemonic.value, d)
  {
    AllOperands();
    FormatOf(instr.parts[0].mnemonic.value);
    hide RegisterOf, SpecialOf, Data, Target, ZeroExt, SignExt, RegisterOp, ImmediateOp, LoadForm, StoreForm, InfoOf;
    hide ReadRegister, ReadImmediate, ReadMemory, ReadBranch, ReadJump, ReadSystem;
  }

  lemma SystemNames(instr: Instruction, constants: Constants, info: Info, d: Decoded)
    requires FieldsOf(instr, constants, info, d)
    requires instr.parts[0].mnemonic.value in {LHI, JR, JALR}
    ensures Names(instr.parts, instr.parts[0].mnemonic.value, d)
  {
    AllOperands();
    FormatOf(instr.parts[0].mnemonic.value);
    hide RegisterOf, SpecialOf, Data, Target, ZeroExt, SignExt, RegisterOp, ImmediateOp, LoadForm, StoreForm, InfoOf;
    hide ReadRegister, ReadImmediate, ReadMemory, ReadBranch, ReadJump, ReadMove;
  }

  /** The instruction read from the tokens has the numbers they name. */
  lemma ReadNames(instr: Instruction, constants: Constants, info: Info, d: Decoded)
    requires FieldsOf(instr, constants, info, d)
    ensures Names(instr.parts, instr.parts[0].mnemonic.value, d)
  {
    var m := instr.parts[0].mnemonic.value;
    hide ReadInstr, DecodesTo;
    if RegisterOp(m).Some? { RegisterNames(instr, constants, info, d); }
    else if ImmediateOp(m).Some? { ImmediateNames(instr, constants, info, d); }
    else if LoadForm(m).Some? || StoreForm(m).Some? { MemoryNames(instr, constants, info, d); }
    else if m in {BEQZ, BNEZ} { BranchNames(instr, constants, info, d); }
    else if m in {MOVI2S, MOVS2I} { MoveNames(instr, constants, info, d); }
    else if m in {LHI, JR, JALR} { SystemNames(instr, constants, info, d); }
    else { assert m in {RFE, INT, J, JAL}; }
  }

  /** The word emitted for an instruction decodes to its mnemonic's opcode and to the very registers that
      its operands name: destination, first and second operand, base and special register. */
  lemma OperandFields(instr: Instruction, constants: Constants)
    requires Assemble(instr, constants).Ok?
    ensures instr.parts != [] && instr.parts[0].mnemonic.Some? && Assemble(instr, constants).value < WORD
    ensures Names(instr.parts, instr.parts[0].mnemonic.value, Decode(Assemble(instr, constants).value))
  {
    hide Assemble, ReadInstr, Names, DecodesTo, Decode, EncodeWith, Denotes, Fits;
    AssembleIs(instr, constants);
    var info, i := InfoOf(instr.parts[0].mnemonic.value), ReadInstr(instr, constants).value;
    EncodedWord(info, i, instr.address);
    ReadNames(instr, constants, info, Decode(EncodeWith(info, i, instr.address)));
  }

  /** `ADD R1, R2, R3` is 0x00430820. */
  lemma AddWord(instr: Instruction, constants: Constants)
    requires |instr.parts| == 4 && instr.parts[0].mnemonic == Some(ADD)
    requires instr.parts[1].register == Some(1) && instr.parts[2].register == Some(2) && instr.parts[3].register == Some(3)
    ensures Assemble(instr, constants) == Ok(0x0043_0820)
  {
    hide EncodeR, AssembleS, AssembleBranch, AssembleI, AssembleM, AssembleJ;
    assert InfoOf(ADD) == Info(RType, 0x00, 0x20);
    hide InfoOf;
    assert Assemble(instr, constants) == Ok(EncodeR(0x00, 2, 3, 1, 0x20));
    hide Assemble;
    EncodeRSum(0x00, 2, 3, 1, 0x20);
  }

  /** `MOVI2S IAR, R4` is 0x00800830. */
  lemma MoveWord(instr: Instruction, constants: Constants)
    requires |instr.parts| == 3 && instr.parts[0].mnemonic == Some(MOVI2S)
    requires instr.parts[1].spr == Some(1) && instr.parts[2].register == Some(4)
    ensures Assemble(instr, constants) == Ok(0x0080_0830)
  {
    hide EncodeR, AssembleR, AssembleBranch, AssembleI, AssembleM, AssembleJ;
    assert InfoOf(MOVI2S) == Info(SType, 0x00, 0x30);
    hide InfoOf;
    assert Assemble(instr, constants) == Ok(EncodeR(0x00, 4, 0, 1, 0x30));
    hide Assemble;
    EncodeRSum(0x00, 4, 0, 1, 0x30);
  }

  /** `LW R7, -8(R9)` is 0x8D27FFF8. */
  lemma LoadWord(instr: Instruction, constants: Constants)
    requires |instr.parts| == 4 && instr.parts[0].mnemonic == Some(LW) && instr.parts[2].name !in constants
    requires instr.parts[1].register == Some(7) && instr.parts[2].value == Some(-8) && instr.parts[3].register == Some(9)
    ensures Assemble(instr, constants) == Ok(0x8D27_FFF8)
  {
    hide EncodeI, AssembleR, AssembleS, AssembleBranch, AssembleI, AssembleJ;
    assert InfoOf(LW) == Info(MType, 0x23, 0);
    hide InfoOf;
    assert ResolveImm(instr.parts[2], constants, IMM16) == Ok(0xFFF8);
    hide ResolveImm;
    assert Assemble(instr, constants) == Ok(EncodeI(0x23, 9, 7, 0xFFF8));
    hide Assemble;
    EncodeISum(0x23, 9, 7, 0xFFF8);
  }

  /** `JAL 12` is 0x0C00000C. */
  lemma CallWord(instr: Instruction, constants: Constants)
    requires |instr.parts| == 2 && instr.parts[0].mnemonic == Some(JAL)
    requires instr.parts[1].name !in constants && instr.parts[1].value == Some(12)
    ensures Assemble(instr, constants) == Ok(0x0C00_000C)
  {
    hide EncodeJ, AssembleR, AssembleS, AssembleBranch, AssembleI, AssembleM;
    assert InfoOf(JAL) == Info(JType, 0x03, 0);
    hide InfoOf;
    assert ResolveDisp(instr.parts[1], constants, IMM26, instr.address) == Ok(12);
    hide ResolveDisp;
    assert Assemble(instr, constants) == Ok(EncodeJ(0x03, 12));
    hide Assemble;
    EncodeJSum(0x03, 12);
  }
}
