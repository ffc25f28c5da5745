/** Whole programs: from source lines through the image in ROM to runs of the machine. */
module ProgramSimulation {
  import opened Defs
  import opened Bits
  import opened Isa
  import opened Bus
  import opened Cpu
  import opened Assembler
  import opened LayoutPass
  import opened Source
  import opened Simulation
  import opened Safety
  import opened Faults

  predicate HasWords(image: seq<byte>, instructions: seq<Instruction>, constants: Constants)
  {
    && |image| == 4 * |instructions|
    && forall k :: 0 <= k < |instructions| ==> HasWord(image, k, instructions[k], constants)
  }

  predicate HasWord(image: seq<byte>, k: nat, instr: Instruction, constants: Constants)
  {
    && 4 * k + 4 <= |image|
    && Assemble(instr, constants).Ok?
    && image[4 * k..4 * k + 4] == Split(Assemble(instr, constants).value, 4)
  }

  lemma WordKept(before: seq<byte>, more: seq<byte>, k: nat, instr: Instruction, constants: Constants)
    requires HasWord(before, k, instr, constants)
    ensures HasWord(before + more, k, instr, constants)
  {
    assert (before + more)[4 * k..4 * k + 4] == before[4 * k..4 * k + 4];
  }

  /** Word k of the image is the encoding of instruction k. */
  lemma {:induction false} ImageWords(instructions: seq<Instruction>, constants: Constants)
    requires Image(instructions, constants).Ok?
    ensures HasWords(Image(instructions, constants).value, instructions, constants)
    decreases |instructions|
  {
    hide Assemble, Split;
    if instructions != [] {
      var last := |instructions| - 1;
      var before := Image(instructions[..last], constants).value;
      var word := Split(Assemble(instructions[last], constants).value, 4);
      ImageWords(instructions[..last], constants);
      assert (before + word)[4 * last..4 * last + 4] == word;
      forall k | 0 <= k < last ensures HasWord(before + word, k, instructions[k], constants) {
        assert instructions[..last][k] == instructions[k];
        WordKept(before, word, k, instructions[k], constants);
      }
    }
  }

  /** The source program of an accepted file. */
  function ProgramOf(lines: seq<Line>): Program
    requires AssembleFile(lines).Ok?
  {
    var layout := Parse(lines).value;
    ReadProgram(layout.instructions, layout.constants)
  }

  /** An unreadable instruction has no meaning; an accepted program has none. */
  function ReadOr(instr: Instruction, constants: Constants): (r: Instr)
    ensures r.Valid()
    ensures ReadInstr(instr, constants).Ok? ==> r == ReadInstr(instr, constants).value
  {
    var read := ReadInstr(instr, constants);
    if read.Ok? then read.value else Return
  }

  function ReadProgram(instructions: seq<Instruction>, constants: Constants): (p: Program)
  {
    seq<Instr>(|instructions|, k requires 0 <= k < |instructions| => ReadOr(instructions[k], constants))
  }

  /** ROM holds the image, zeros after it. */
  predicate Holds(rom: Rom, image: seq<byte>)
  {
    |image| <= ROM_SIZE && rom == image + seq(ROM_SIZE - |image|, _ => 0)
  }

  /** Loading: the word fetched at 4k is the one the assembler emitted for instruction k. */
  lemma FetchedWord(lines: seq<Line>, k: nat, m: Machine, strict: bool)
    requires AssembleFile(lines).Ok? && Holds(m.rom, AssembleFile(lines).value)
    requires k < |ProgramOf(lines)| && m.pc == 4 * k
    ensures var layout := Parse(lines).value;
      && Assemble(layout.instructions[k], layout.constants).Ok?
      && var value := Assemble(layout.instructions[k], layout.constants).value;
         value < WORD && Fetch(m, strict) == Loaded(value, m)
  {
    hide Assemble, Split, Image, Parse, Fetch;
    var layout, image := Parse(lines).value, AssembleFile(lines).value;
    ImageWords(layout.instructions, layout.constants);
    var instr := layout.instructions[k];
    assert HasWord(image, k, instr, layout.constants);
    AssembledWord(instr, layout.constants);
    FetchWord(m, strict, image, k, Assemble(instr, layout.constants).value);
  }

  lemma FetchWord(m: Machine, strict: bool, image: seq<byte>, k: nat, value: word)
    requires Holds(m.rom, image) && 4 * k + 4 <= |image| && m.pc == 4 * k
    requires image[4 * k..4 * k + 4] == Split(value, 4)
    ensures Fetch(m, strict) == Loaded(value, m)
  {
    hide Split, BigEndian;
    assert m.rom[m.pc..m.pc + 4] == image[4 * k..4 * k + 4];
    SplitWord(value);
  }

  lemma SplitWord(value: word)
    ensures BigEndian(Split(value, 4)) == value
  {
    Pow2Values();
    BigEndianSplit(value, 4);
  }

  lemma AssembledWord(instr: Instruction, constants: Constants)
    requires Assemble(instr, constants).Ok?
    ensures Assemble(instr, constants).value < WORD
    ensures ReadInstr(instr, constants).Ok? && Fits(ReadInstr(instr, constants).value, instr.address)
  {
    hide Assemble, ReadInstr, EncodeI, EncodeJ, EncodeR;
    AssembleIs(instr, constants);
    EncodedWord(InfoOf(instr.parts[0].mnemonic.value), ReadInstr(instr, constants).value, instr.address);
  }

  /** The fields of a decoded word are those of the instruction: opcode, function code, registers,
      immediate under both readings, and the displacement as the distance from the next instruction. */
  predicate DecodesTo(d: Decoded, info: Info, i: Instr, address: int)
  {
    && d.opcode == info.op
    && match i
       case Compute(_, rc, ra, rb) => d.func == info.func && d.rc == rc && d.ra == ra && d.rb == rb
       case ComputeImm(_, _, rb, ra, imm) => d.rb == rb && d.ra == ra && d.imm16 == ZeroExt(imm) && d.imm16Sext == SignExt(imm)
       case LoadHigh(rb, imm) => d.rb == rb && d.imm16 == ZeroExt(imm)
       case Branch(_, ra, target) => d.ra == ra && d.imm16Sext == target - (address + 4)
       case JumpRegister(_, ra) => d.ra == ra
       case LoadMem(_, _, rb, offset, ra) => d.rb == rb && d.ra == ra && d.imm16Sext == SignExt(offset)
       case StoreMem(_, rb, offset, ra) => d.rb == rb && d.ra == ra && d.imm16Sext == SignExt(offset)
       case Jump(_, target) => d.imm26Sext == target - (address + 4)
       case Trap(code) => d.imm26 == code % 0x400_0000
       case Return => true
       case ToSpecial(spr, ra) => d.func == info.func && d.rc == spr && d.ra == ra
       case FromSpecial(rc, spr) => d.func == info.func && d.rc == rc && d.ra == spr
  }

  lemma EncodedWord(info: Info, i: Instr, address: int)
    requires i.Valid() && Fits(i, address) && info.op < 0x40 && info.func < 0x40
    ensures EncodeWith(info, i, address) < WORD
    ensures DecodesTo(Decode(EncodeWith(info, i, address)), info, i, address)
  {
    hide EncodeI, EncodeJ, EncodeR, Decode, ZeroExt;
    match i
    case Compute(_, rc, ra, rb) => DecodeR(info.op, ra, rb, rc, info.func);
    case ComputeImm(_, _, rb, ra, imm) => DecodeI(info.op, ra, rb, imm);
    case LoadHigh(rb, imm) => DecodeI(info.op, 0, rb, imm);
    case Branch(_, ra, target) => DecodeI(info.op, ra, 0, target - address - 4);
    case JumpRegister(_, ra) => DecodeI(info.op, ra, 0, 0);
    case LoadMem(_, _, rb, offset, ra) => DecodeI(info.op, ra, rb, offset);
    case StoreMem(_, rb, offset, ra) => DecodeI(info.op, ra, rb, offset);
    case Jump(_, target) => DecodeJ(info.op, target - address - 4);
    case Trap(code) => DecodeJ(info.op, code);
    case Return => DecodeJ(info.op, 0);
    case ToSpecial(spr, ra) => DecodeR(info.op, ra, 0, spr, info.func);
    case FromSpecial(rc, spr) => DecodeR(info.op, spr, 0, rc, info.func);
  }

  /** Assemble, pack, load, fetch and decode round trip: the word the machine fetches at 4k decodes
      to the opcode, function, registers and immediate of instruction k of the source. */
  lemma RoundTrip(lines: seq<Line>, k: nat, m: Machine, strict: bool)
    requires AssembleFile(lines).Ok? && Holds(m.rom, AssembleFile(lines).value)
    requires k < |ProgramOf(lines)| && m.pc == 4 * k
    ensures Parse(lines).value.instructions[k].parts != []
    ensures var first, fetched := Parse(lines).value.instructions[k].parts[0], Fetch(m, strict);
      && first.mnemonic.Some? && Denotes(first.mnemonic.value, ProgramOf(lines)[k])
      && fetched.m == m
      && DecodesTo(Decode(fetched.value), InfoOf(first.mnemonic.value), ProgramOf(lines)[k], 4 * k)
  {
    hide Assemble, ReadInstr, DecodesTo, Decode, EncodeWith, Fetch, Denotes, Fits;
    var layout := Parse(lines).value;
    var instr := layout.instructions[k];
    FetchedWord(lines, k, m, strict);
    Addresses(lines);
    AssembleIs(instr, layout.constants);
    EncodedWord(InfoOf(instr.parts[0].mnemonic.value), ReadInstr(instr, layout.constants).value, instr.address);
  }

  /** No accepted program contains a reserved opcode, function code or special register number:
      only the code of an INT can be one the machine does not know. */
  lemma NeverReserved(instr: Instruction, constants: Constants)
    requires Assemble(instr, constants).Ok?
    ensures Assemble(instr, constants).value < WORD
    ensures var d := Decode(Assemble(instr, constants).value); Reserved(d) ==> d.opcode == I_INT && d.imm26 !in INT_CODES
  {
    hide Assemble, ReadInstr, EncodeI, EncodeJ, EncodeR, Decode;
    AssembleIs(instr, constants);
    var mnemonic, i := instr.parts[0].mnemonic.value, ReadInstr(instr, constants).value;
    EncodedWord(InfoOf(mnemonic), i, instr.address);
  }

  lemma ZeroWord()
    ensures BigEndian([0, 0, 0, 0]) == 0
  {
    assert [0, 0, 0, 0][..3] == [0, 0, 0] && [0, 0, 0][..2] == [0, 0] && [0, 0][..1] == [0] && [0][..0] == [];
    assert BigEndian([0]) == 0 && BigEndian([0, 0]) == 0 && BigEndian([0, 0, 0]) == 0;
  }

  /** Addresses of ROM past the end of the image read 0, which is a reserved encoding: a program that
      runs past its last instruction meets no instruction, and in strict mode a fault. */
  lemma PastTheEnd(m: Machine, strict: bool, image: seq<byte>, address: word)
    requires Holds(m.rom, image) && |image| <= address < ROM_SIZE && address % 4 == 0
    ensures Read(m, strict, address, W32) == Loaded(0, m) && Reserved(Decode(0))
  {
    ZeroWord();
    assert m.rom[address..address + 4] == [0, 0, 0, 0];
  }

  /** One cycle of the machine is one step of the source program. */
  lemma StepSimulates(lines: seq<Line>, m: Machine, strict: bool, e: Env)
    requires AssembleFile(lines).Ok? && Holds(m.rom, AssembleFile(lines).value)
    requires m.gpr[0] == 0 && m.exec == RUNNING && AtInstruction(ProgramOf(lines), Enter(m, e).pc)
    ensures Step(m, strict, e) == SourceStep(ProgramOf(lines), m, strict, e)
  {
    hide Assemble, ReadInstr, Execute, Decode, Meaning, Outcome;
    var layout := Parse(lines).value;
    var entered := Enter(m, e);
    var k := entered.pc / 4;
    var instr := layout.instructions[k];
    FetchedWord(lines, k, entered, strict);
    Addresses(lines);
    AssembledWord(instr, layout.constants);
    InstructionExecutes(instr, layout.constants, entered, strict, e.clockOk);
  }

  /** The word of an accepted instruction, executed at its own address, has the instruction's meaning. */
  lemma InstructionExecutes(instr: Instruction, constants: Constants, m: Machine, strict: bool, clockOk: bool)
    requires Assemble(instr, constants).Ok? && m.pc == instr.address && m.gpr[0] == 0
    ensures Assemble(instr, constants).value < WORD && ReadInstr(instr, constants).Ok?
    ensures Execute(Advance(m), strict, Decode(Assemble(instr, constants).value), clockOk)
         == Meaning(ReadInstr(instr, constants).value, m, strict, clockOk)
  {
    hide Assemble, ReadInstr, Execute, Decode, Meaning;
    AssembleIs(instr, constants);
    ExecuteIs(instr.parts[0].mnemonic.value, ReadInstr(instr, constants).value, m, strict, clockOk);
  }

  lemma {:induction false} FewerInstructions(lines: seq<Line>, k: nat)
    requires k <= |lines|
    ensures |CodeOf(lines[..k])| <= |CodeOf(lines)|
    decreases |lines|
  {
    if k == |lines| {
      assert lines[..k] == lines;
    } else {
      var before := lines[..|lines| - 1];
      assert before[..k] == lines[..k];
      FewerInstructions(before, k);
    }
  }

  /** Instruction j of the source is a branch or jump whose last operand is the label of line k. */
  predicate RefersTo(lines: seq<Line>, j: nat, k: nat)
    requires AssembleFile(lines).Ok?
  {
    && j < |ProgramOf(lines)| && k < |lines| && lines[k].name.Some?
    && (ProgramOf(lines)[j].Branch? || ProgramOf(lines)[j].Jump?)
    && var parts := Parse(lines).value.instructions[j].parts;
       parts != [] && parts[|parts| - 1].name == lines[k].name.value
  }

  lemma TargetIsConstant(instr: Instruction, constants: Constants)
    requires ReadInstr(instr, constants).Ok?
    requires ReadInstr(instr, constants).value.Branch? || ReadInstr(instr, constants).value.Jump?
    requires instr.parts != [] && instr.parts[|instr.parts| - 1].name in constants
    ensures ReadInstr(instr, constants).value.target == constants[instr.parts[|instr.parts| - 1].name]
  {
  }

  lemma TransferPc(i: Instr, m: Machine, strict: bool, clockOk: bool)
    requires i.Valid() && (i.Branch? || i.Jump?)
    ensures Meaning(i, m, strict, clockOk).pc ==
      (if i.Jump? || (i.onZero <==> m.gpr[i.ra] == 0) then i.target else m.pc + 4) % WORD
  {
  }

  /** A taken branch or jump to a label sets the PC to exactly the address of the label: 4 times
      the number of instructions before it, forwards or backwards. */
  lemma LabelReached(lines: seq<Line>, j: nat, k: nat, m: Machine, strict: bool, clockOk: bool)
    requires AssembleFile(lines).Ok? && |ProgramOf(lines)| <= 16384 && RefersTo(lines, j, k)
    requires Holds(m.rom, AssembleFile(lines).value) && m.pc == 4 * j && m.gpr[0] == 0
    ensures var i := ProgramOf(lines)[j];
      var r := Execute(Advance(m), strict, Decode(Fetch(m, strict).value), clockOk);
      i.Valid() && r.pc == if i.Jump? || (i.onZero <==> m.gpr[i.ra] == 0) then 4 * |CodeOf(lines[..k])| else m.pc + 4
  {
    hide Assemble, ReadInstr, Decode, EncodeWith, Fetch, Execute, Parse, Image, Meaning, Holds, Fits, CodeOf;
    var layout := Parse(lines).value;
    var instr := layout.instructions[j];
    FetchedWord(lines, j, m, strict);
    Addresses(lines);
    AssembledWord(instr, layout.constants);
    LabelValue(lines, k);
    FewerInstructions(lines, k);
    TargetIsConstant(instr, layout.constants);
    InstructionExecutes(instr, layout.constants, m, strict, clockOk);
    TransferPc(ReadInstr(instr, layout.constants).value, m, strict, clockOk);
  }

  /** Assembler correctness: for any accepted source loaded in ROM, the machine passes through exactly
      the states of the source program, interrupts included, while the PC names an instruction. */
  lemma {:induction false} RunSimulates(lines: seq<Line>, m: Machine, strict: bool, envs: seq<Env>)
    requires AssembleFile(lines).Ok? && Holds(m.rom, AssembleFile(lines).value)
    requires Safety.Inv(m) && Stays(ProgramOf(lines), m, strict, envs)
    ensures Steps(m, strict, envs) == SourceSteps(ProgramOf(lines), m, strict, envs)
    decreases |envs|
  {
    if envs != [] && m.exec == RUNNING {
      StepSimulates(lines, m, strict, envs[0]);
      StepKeeps(m, strict, envs[0]);
      RunSimulates(lines, Step(m, strict, envs[0]), strict, envs[1..]);
    }
  }

  /** From reset: every accepted source of at most 16384 instructions can be loaded and is simulated. */
  lemma BootSimulates(lines: seq<Line>, ram: Ram, gpr: Gprs, strict: bool, envs: seq<Env>)
    requires AssembleFile(lines).Ok? && |ProgramOf(lines)| <= 16384
    ensures |AssembleFile(lines).value| <= ROM_SIZE
    ensures var m := Boot(AssembleFile(lines).value, ram, gpr);
      Stays(ProgramOf(lines), m, strict, envs) ==>
        Steps(m, strict, envs) == SourceSteps(ProgramOf(lines), m, strict, envs)
  {
    ImageWords(Parse(lines).value.instructions, Parse(lines).value.constants);
    var image := AssembleFile(lines).value;
    BootInv(image, ram, gpr);
    var m := Boot(image, ram, gpr);
    if Stays(ProgramOf(lines), m, strict, envs) { RunSimulates(lines, m, strict, envs); }
  }
}
