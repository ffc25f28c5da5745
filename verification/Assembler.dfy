/** tools/asm.py from tokenised lines to the ROM image. */
module Assembler {
  import opened Defs
  import opened Bits
  import opened Bus

  datatype Mnemonic =
    | SLL | SRL | SRA | ADD | SUB | AND | OR | XOR | SGT | SEQ | SGE | SLT | SNE | SLE
    | MOVI2S | MOVS2I | J | JAL | RFE | INT | BEQZ | BNEZ | ADDI | ADDUI | SUBI | SUBUI | ANDI | ORI
    | XORI | LHI | JR | JALR | SLLI | SRLI | SRAI | SGTI | SEQI | SGEI | SLTI | SNEI | SLEI | LB
    | LH | LW | LBU | LHU | SB | SH | SW

  /** The readings of a token: its text in upper case, and what it means as a mnemonic, as a
      register number, as a special register and as a number, where it has such a reading. */
  datatype Token = Token(name: string, mnemonic: Option<Mnemonic>, register: Option<int>, spr: Option<nat>, value: Option<int>)

  /** A line without comment: an optional label in upper case, then nothing, the words after
      `.equ`, or the words of an instruction. */
  datatype Body = Nothing | Equ(args: seq<Token>) | Code(parts: seq<Token>)
  datatype Line = Line(name: Option<string>, body: Body)

  datatype AsmError = BlankName | NameWithSpace | Duplicate(name: string) | BadDirective | BadValue
    | UnknownInstruction | WrongArguments | BadRegister | BadSpecialRegister | BadOperand | Overflow | Internal

  type Constants = map<string, int>

  // ---- The opcode table

  datatype Format = RType | IType | JType | SType | MType
  datatype Info = Info(format: Format, op: nat, func: nat)

  function InfoOf(mnemonic: Mnemonic): (r: Info)
    ensures r.op < 0x40 && r.func < 0x40
  {
    match mnemonic
    case SLL => Info(RType, 0x00, 0x04)
    case SRL => Info(RType, 0x00, 0x06)
    case SRA => Info(RType, 0x00, 0x07)
    case ADD => Info(RType, 0x00, 0x20)
    case SUB => Info(RType, 0x00, 0x22)
    case AND => Info(RType, 0x00, 0x24)
    case OR => Info(RType, 0x00, 0x25)
    case XOR => Info(RType, 0x00, 0x26)
    case SGT => Info(RType, 0x00, 0x29)
    case SEQ => Info(RType, 0x00, 0x2A)
    case SGE => Info(RType, 0x00, 0x2B)
    case SLT => Info(RType, 0x00, 0x2C)
    case SNE => Info(RType, 0x00, 0x2D)
    case SLE => Info(RType, 0x00, 0x2E)
    case MOVI2S => Info(SType, 0x00, 0x30)
    case MOVS2I => Info(SType, 0x00, 0x31)
    case J => Info(JType, 0x02, 0)
    case JAL => Info(JType, 0x03, 0)
    case RFE => Info(JType, 0x3F, 0)
    case INT => Info(JType, 0x39, 0)
    case BEQZ => Info(IType, 0x04, 0)
    case BNEZ => Info(IType, 0x05, 0)
    case ADDI => Info(IType, 0x08, 0)
    case ADDUI => Info(IType, 0x09, 0)
    case SUBI => Info(IType, 0x0A, 0)
    case SUBUI => Info(IType, 0x0B, 0)
    case ANDI => Info(IType, 0x0C, 0)
    case ORI => Info(IType, 0x0D, 0)
    case XORI => Info(IType, 0x0E, 0)
    case LHI => Info(IType, 0x0F, 0)
    case JR => Info(IType, 0x12, 0)
    case JALR => Info(IType, 0x13, 0)
    case SLLI => Info(IType, 0x14, 0)
    case SRLI => Info(IType, 0x16, 0)
    case SRAI => Info(IType, 0x17, 0)
    case SGTI => Info(IType, 0x19, 0)
    case SEQI => Info(IType, 0x1A, 0)
    case SGEI => Info(IType, 0x1B, 0)
    case SLTI => Info(IType, 0x1C, 0)
    case SNEI => Info(IType, 0x1D, 0)
    case SLEI => Info(IType, 0x1E, 0)
    case LB => Info(MType, 0x20, 0)
    case LH => Info(MType, 0x21, 0)
    case LW => Info(MType, 0x23, 0)
    case LBU => Info(MType, 0x24, 0)
    case LHU => Info(MType, 0x25, 0)
    case SB => Info(MType, 0x28, 0)
    case SH => Info(MType, 0x29, 0)
    case SW => Info(MType, 0x2B, 0)
  }

  // ---- Layout

  datatype Instruction = Instruction(parts: seq<Token>, address: int)
  datatype Layout = Layout(instructions: seq<Instruction>, constants: Constants, address: int)

  function Declare(layout: Layout, name: string, value: int): Result<Layout, AsmError>
  {
    if name in layout.constants then Err(Duplicate(name))
    else Ok(layout.(constants := layout.constants[name := value]))
  }

  function PlaceLabel(layout: Layout, name: Option<string>): Result<Layout, AsmError>
  {
    if name.None? then Ok(layout)
    else if name.value == "" then Err(BlankName)
    else if ' ' in name.value then Err(NameWithSpace)
    else Declare(layout, name.value, layout.address)
  }

  function PlaceBody(layout: Layout, body: Body): Result<Layout, AsmError>
  {
    match body
    case Nothing => Ok(layout)
    case Equ(args) =>
      if |args| != 2 then Err(BadDirective)
      else if args[0].name in layout.constants then Err(Duplicate(args[0].name))
      else if args[1].value.None? then Err(BadValue)
      else Declare(layout, args[0].name, args[1].value.value)
    case Code(parts) =>
      Ok(Layout(layout.instructions + [Instruction(parts, layout.address)], layout.constants, layout.address + 4))
  }

  function PlaceLine(layout: Layout, line: Line): Result<Layout, AsmError>
  {
    var labelled :- PlaceLabel(layout, line.name);
    PlaceBody(labelled, line.body)
  }

  /** The layout of the lines so far, or the error of the first bad one. */
  function Parse(lines: seq<Line>): Result<Layout, AsmError>
  {
    if lines == [] then Ok(Layout([], map[], 0))
    else
      var last := |lines| - 1;
      var before :- Parse(lines[..last]);
      PlaceLine(before, lines[last])
  }

  // ---- Operands

  function Register(token: Token): (r: Result<nat, AsmError>)
    ensures r.Ok? ==> r.value < GPR_COUNT
  {
    if token.register.None? then Err(Internal)
    else if token.register.value < 0 || token.register.value > 31 then Err(BadRegister)
    else Ok(token.register.value)
  }

  function Special(token: Token): (r: Result<nat, AsmError>)
    ensures r.Ok? ==> r.value < SPR_COUNT
  {
    if token.spr.None? || token.spr.value >= SPR_COUNT then Err(BadSpecialRegister) else Ok(token.spr.value)
  }

  /** Absolute value of a token, or its distance from the next instruction when it is a constant
      used at an address. */
  function AddressValue(token: Token, constants: Constants, at: Option<int>): Result<int, AsmError>
  {
    if token.name in constants then
      Ok(if at.Some? then constants[token.name] - at.value - 4 else constants[token.name])
    else if token.value.None? then Err(BadOperand)
    else Ok(token.value.value)
  }

  // IMM_LIMITS
  datatype Limits = Limits(min: int, signedMax: int, mask: nat)
  const IMM16 := Limits(-0x8000, 0x7FFF, 0xFFFF)
  const IMM26 := Limits(-0x200_0000, 0x1FF_FFFF, 0x3FF_FFFF)

  /** Range check, then the low bits of the two's complement value: on an unbounded integer
      `& mask` is the non-negative remainder. */
  function CheckImm(value: int, limits: Limits, maximum: int): (r: Result<nat, AsmError>)
    ensures r.Ok? <==> limits.min <= value <= maximum
    ensures r.Ok? ==> r.value <= limits.mask
  {
    if value < limits.min || value > maximum then Err(Overflow) else Ok(value % (limits.mask + 1))
  }

  function ResolveImm(token: Token, constants: Constants, limits: Limits): (r: Result<nat, AsmError>)
    ensures r.Ok? ==> r.value <= limits.mask
  {
    var value :- AddressValue(token, constants, None);
    CheckImm(value, limits, limits.mask)
  }

  function ResolveDisp(token: Token, constants: Constants, limits: Limits, address: int): (r: Result<nat, AsmError>)
    ensures r.Ok? ==> r.value <= limits.mask
  {
    var value :- AddressValue(token, constants, Some(address));
    CheckImm(value, limits, limits.signedMax)
  }

  // ---- Encoding; a shift left by k is a multiplication by 2^k

  function EncodeR(opcode: nat, ra: nat, rb: nat, rc: nat, func: nat): nat
  {
    Or(Or(Or(Or(opcode * 0x400_0000, ra * 0x20_0000), rb * 0x1_0000), rc * 0x800), func)
  }

  function EncodeI(opcode: nat, ra: nat, rb: nat, imm16: nat): nat
  {
    Or(Or(Or(opcode * 0x400_0000, ra * 0x20_0000), rb * 0x1_0000), And(imm16, 0xFFFF))
  }

  function EncodeJ(opcode: nat, imm26: nat): nat { Or(opcode * 0x400_0000, And(imm26, 0x3FF_FFFF)) }

  // `assemble_instr`, one function for each format of the table

  /** `OP rc, ra, rb` */
  function AssembleR(info: Info, parts: seq<Token>): Result<nat, AsmError>
  {
    if |parts| != 4 then Err(WrongArguments)
    else
      var rc :- Register(parts[1]);
      var ra :- Register(parts[2]);
      var rb :- Register(parts[3]);
      Ok(EncodeR(info.op, ra, rb, rc, info.func))
  }

  /** `MOVI2S spr, ra` and `MOVS2I rc, spr` */
  function AssembleS(mnemonic: Mnemonic, info: Info, parts: seq<Token>): Result<nat, AsmError>
  {
    if |parts| != 3 then Err(WrongArguments)
    else if mnemonic == MOVI2S then
      var rc :- Special(parts[1]);
      var ra :- Register(parts[2]);
      Ok(EncodeR(info.op, ra, 0, rc, info.func))
    else
      var rc :- Register(parts[1]);
      var ra :- Special(parts[2]);
      Ok(EncodeR(info.op, ra, 0, rc, info.func))
  }

  /** `OP ra, Imm16`, relative to the next instruction */
  function AssembleBranch(info: Info, parts: seq<Token>, constants: Constants, address: int): Result<nat, AsmError>
  {
    if |parts| != 3 then Err(WrongArguments)
    else
      var ra :- Register(parts[1]);
      var imm16 :- ResolveDisp(parts[2], constants, IMM16, address);
      Ok(EncodeI(info.op, ra, 0, imm16))
  }

  /** `OP ra`, `LHI rb, Imm16` and `OP rb, ra, Imm16` */
  function AssembleI(mnemonic: Mnemonic, info: Info, parts: seq<Token>, constants: Constants): Result<nat, AsmError>
  {
    if mnemonic == JR || mnemonic == JALR then
      if |parts| != 2 then Err(WrongArguments)
      else
        var ra :- Register(parts[1]);
        Ok(EncodeI(info.op, ra, 0, 0))
    else if mnemonic == LHI then
      if |parts| != 3 then Err(WrongArguments)
      else
        var rb :- Register(parts[1]);
        var imm16 :- ResolveImm(parts[2], constants, IMM16);
        Ok(EncodeI(info.op, 0, rb, imm16))
    else
      if |parts| != 4 then Err(WrongArguments)
      else
        var rb :- Register(parts[1]);
        var ra :- Register(parts[2]);
        var imm16 :- ResolveImm(parts[3], constants, IMM16);
        Ok(EncodeI(info.op, ra, rb, imm16))
  }

  /** `OP rb, Imm16(ra)` */
  function AssembleM(info: Info, parts: seq<Token>, constants: Constants): Result<nat, AsmError>
  {
    if |parts| != 4 then Err(WrongArguments)
    else
      var rb :- Register(parts[1]);
      var imm16 :- ResolveImm(parts[2], constants, IMM16);
      var ra :- Register(parts[3]);
      Ok(EncodeI(info.op, ra, rb, imm16))
  }

  /** `OP Imm26`; RFE takes no operand and the code of INT is never relative */
  function AssembleJ(mnemonic: Mnemonic, info: Info, parts: seq<Token>, constants: Constants, address: int): Result<nat, AsmError>
  {
    if mnemonic == RFE then
      if |parts| != 1 then Err(WrongArguments) else Ok(EncodeJ(info.op, 0))
    else if |parts| != 2 then Err(WrongArguments)
    else if mnemonic == INT then
      var imm26 :- ResolveImm(parts[1], constants, IMM26);
      Ok(EncodeJ(info.op, imm26))
    else
      var imm26 :- ResolveDisp(parts[1], constants, IMM26, address);
      Ok(EncodeJ(info.op, imm26))
  }

  function Assemble(instr: Instruction, constants: Constants): Result<nat, AsmError>
  {
    var parts := instr.parts;
    if parts == [] then Err(Internal)
    else if parts[0].mnemonic.None? then Err(UnknownInstruction)
    else
      var mnemonic := parts[0].mnemonic.value;
      var info := InfoOf(mnemonic);
      match info.format
      case RType => AssembleR(info, parts)
      case SType => AssembleS(mnemonic, info, parts)
      case IType =>
        if mnemonic == BNEZ || mnemonic == BEQZ then AssembleBranch(info, parts, constants, instr.address)
        else AssembleI(mnemonic, info, parts, constants)
      case MType => AssembleM(info, parts, constants)
      case JType => AssembleJ(mnemonic, info, parts, constants, instr.address)
  }

  // ---- The output file

  /** The instructions in order, each packed as a big-endian word; the first error aborts. */
  function Image(instructions: seq<Instruction>, constants: Constants): Result<seq<byte>, AsmError>
  {
    if instructions == [] then Ok([])
    else
      var last := |instructions| - 1;
      var before :- Image(instructions[..last], constants);
      var value :- Assemble(instructions[last], constants);
      Ok(before + Split(value, 4))
  }

  function AssembleFile(lines: seq<Line>): Result<seq<byte>, AsmError>
  {
    var layout :- Parse(lines);
    Image(layout.instructions, layout.constants)
  }

  // ---- The loops of the program

  /** The first error ends the pass. */
  lemma {:induction false} FirstError(lines: seq<Line>, k: nat)
    requires k <= |lines| && Parse(lines[..k]).Err?
    ensures Parse(lines) == Parse(lines[..k])
    decreases |lines|
  {
    if k < |lines| {
      var before := lines[..|lines| - 1];
      assert before[..k] == lines[..k];
      FirstError(before, k);
    } else {
      assert lines[..k] == lines;
    }
  }

  /** `parse`: a growing list, a growing table and a running address. */
  method ParseLines(lines: seq<Line>) returns (r: Result<Layout, AsmError>)
    ensures r == Parse(lines)
  {
    var instructions: seq<Instruction> := [];
    var constants: Constants := map[];
    var address := 0;
    for k := 0 to |lines|
      invariant Parse(lines[..k]) == Ok(Layout(instructions, constants, address))
    {
      var line := lines[k];
      assert lines[..k + 1][..k] == lines[..k] && lines[..k + 1][k] == line;
      if line.name.Some? {
        var name := line.name.value;
        if name == "" { FirstError(lines, k + 1); return Err(BlankName); }
        if ' ' in name { FirstError(lines, k + 1); return Err(NameWithSpace); }
        if name in constants { FirstError(lines, k + 1); return Err(Duplicate(name)); }
        constants := constants[name := address];
      }
      match line.body {
        case Nothing =>
        case Equ(args) =>
          if |args| != 2 { FirstError(lines, k + 1); return Err(BadDirective); }
          var name := args[0].name;
          if name in constants { FirstError(lines, k + 1); return Err(Duplicate(name)); }
          if args[1].value.None? { FirstError(lines, k + 1); return Err(BadValue); }
          constants := constants[name := args[1].value.value];
        case Code(parts) =>
          instructions := instructions + [Instruction(parts, address)];
          address := address + 4;
      }
    }
    assert lines[..|lines|] == lines;
    return Ok(Layout(instructions, constants, address));
  }

  lemma {:induction false} FirstBadInstruction(instructions: seq<Instruction>, constants: Constants, k: nat)
    requires k <= |instructions| && Image(instructions[..k], constants).Err?
    ensures Image(instructions, constants) == Image(instructions[..k], constants)
    decreases |instructions|
  {
    if k < |instructions| {
      var before := instructions[..|instructions| - 1];
      assert before[..k] == instructions[..k];
      FirstBadInstruction(before, constants, k);
    } else {
      assert instructions[..k] == instructions;
    }
  }

  /** The second pass of `main`: the words written to the output file. */
  method WriteImage(instructions: seq<Instruction>, constants: Constants) returns (r: Result<seq<byte>, AsmError>)
    ensures r == Image(instructions, constants)
  {
    var output: seq<byte> := [];
    for k := 0 to |instructions|
      invariant Image(instructions[..k], constants) == Ok(output)
    {
      assert instructions[..k + 1][..k] == instructions[..k];
      var value := Assemble(instructions[k], constants);
      if value.Err? {
        FirstBadInstruction(instructions, constants, k + 1);
        return Err(value.error);
      }
      output := output + Split(value.value, 4);
    }
    assert instructions[..|instructions|] == instructions;
    return Ok(output);
  }

  /** `main`, from the tokenised source to the contents of the output file. */
  method AssembleSource(lines: seq<Line>) returns (r: Result<seq<byte>, AsmError>)
    ensures r == AssembleFile(lines)
  {
    var layout := ParseLines(lines);
    if layout.Err? { return Err(layout.error); }
    r := WriteImage(layout.value.instructions, layout.value.constants);
  }
}
