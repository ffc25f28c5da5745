/** What the layout pass of tools/asm.py computes, and which sources it accepts. */
module LayoutPass {
  import opened Defs
  import opened Assembler

  /** Operands of the instructions, in order. */
  function CodeOf(lines: seq<Line>): seq<seq<Token>>
  {
    if lines == [] then []
    else
      var last := |lines| - 1;
      CodeOf(lines[..last]) + (if lines[last].body.Code? then [lines[last].body.parts] else [])
  }

  /** The names a line declares: its label, then the constant of an `.equ`. */
  function Names(line: Line): (r: seq<string>)
    ensures |r| <= 2
  {
    (if line.name.Some? then [line.name.value] else []) +
    (if line.body.Equ? && |line.body.args| > 0 then [line.body.args[0].name] else [])
  }

  function Declared(lines: seq<Line>): seq<string>
  {
    if lines == [] then [] else Declared(lines[..|lines| - 1]) + Names(lines[|lines| - 1])
  }

  predicate WellFormed(line: Line)
  {
    && (line.name.Some? ==> line.name.value != "" && ' ' !in line.name.value)
    && (line.body.Equ? ==> |line.body.args| == 2 && line.body.args[1].value.Some?)
  }

  predicate Distinct(names: seq<string>)
  {
    names == [] || (Distinct(names[..|names| - 1]) && names[|names| - 1] !in names[..|names| - 1])
  }

  lemma DistinctExtended(a: seq<string>, b: seq<string>)
    requires |b| <= 2
    ensures Distinct(a + b) <==> Distinct(a) && (forall n :: n in b ==> n !in a) && (|b| == 2 ==> b[0] != b[1])
  {
    if b == [] {
      assert a + b == a;
    } else if |b| == 1 {
      assert (a + b)[..|a|] == a && b == [b[0]];
    } else {
      assert b == [b[0], b[1]];
      assert (a + b)[..|a| + 1] == a + [b[0]] && (a + [b[0]])[..|a|] == a;
      assert Distinct(a + b) <==> Distinct(a + [b[0]]) && b[1] !in a + [b[0]];
    }
  }

  /** Instructions keep their order, at consecutive multiples of 4. */
  lemma {:induction false} Addresses(lines: seq<Line>)
    requires Parse(lines).Ok?
    ensures var r := Parse(lines).value;
      && |r.instructions| == |CodeOf(lines)| && r.address == 4 * |CodeOf(lines)|
      && forall i :: 0 <= i < |r.instructions| ==> r.instructions[i] == Instruction(CodeOf(lines)[i], 4 * i)
    decreases |lines|
  {
    if lines != [] { Addresses(lines[..|lines| - 1]); }
  }

  /** Later lines keep every constant. */
  lemma {:induction false} PrefixKept(lines: seq<Line>, k: nat)
    requires Parse(lines).Ok? && k <= |lines|
    ensures Parse(lines[..k]).Ok?
    ensures forall name :: name in Parse(lines[..k]).value.constants ==>
      name in Parse(lines).value.constants && Parse(lines).value.constants[name] == Parse(lines[..k]).value.constants[name]
    decreases |lines|
  {
    if k == |lines| {
      assert lines[..k] == lines;
    } else {
      var before := lines[..|lines| - 1];
      PrefixKept(before, k);
      assert before[..k] == lines[..k];
    }
  }

  /** The value of a label is 4 times the number of instructions before it. */
  lemma LabelValue(lines: seq<Line>, k: nat)
    requires Parse(lines).Ok? && k < |lines| && lines[k].name.Some?
    ensures var constants, name := Parse(lines).value.constants, lines[k].name.value;
      name in constants && constants[name] == 4 * |CodeOf(lines[..k])|
  {
    PrefixKept(lines, k + 1);
    PrefixKept(lines, k);
    Addresses(lines[..k]);
    assert lines[..k + 1][..k] == lines[..k] && lines[..k + 1][k] == lines[k];
  }

  /** The value of an `.equ` constant is the one written. */
  lemma EquValue(lines: seq<Line>, k: nat)
    requires Parse(lines).Ok? && k < |lines| && lines[k].body.Equ?
    ensures var constants, args := Parse(lines).value.constants, lines[k].body.args;
      |args| == 2 && args[0].name in constants && Some(constants[args[0].name]) == args[1].value
  {
    PrefixKept(lines, k + 1);
    assert lines[..k + 1][..k] == lines[..k] && lines[..k + 1][k] == lines[k];
  }

  /** One line is accepted exactly when it is well formed and declares new names only. */
  lemma PlaceAccepts(layout: Layout, line: Line)
    ensures var placed, names := PlaceLine(layout, line), Names(line);
      && (placed.Ok? <==>
            WellFormed(line) && (forall n :: n in names ==> n !in layout.constants) && (|names| == 2 ==> names[0] != names[1]))
      && (placed.Ok? ==> forall n :: n in placed.value.constants <==> n in layout.constants || n in names)
  {
  }

  /** A source is accepted by the layout pass exactly when every line is well formed and no
      name is declared twice, labels and constants together. */
  lemma {:induction false} Accepted(lines: seq<Line>)
    ensures Parse(lines).Ok? <==> (forall l :: l in lines ==> WellFormed(l)) && Distinct(Declared(lines))
    ensures Parse(lines).Ok? ==> forall name :: name in Parse(lines).value.constants <==> name in Declared(lines)
    decreases |lines|
  {
    if lines != [] {
      var before, line := lines[..|lines| - 1], lines[|lines| - 1];
      var old_, new_ := Declared(before), Names(line);
      Accepted(before);
      assert lines == before + [line];
      if Parse(before).Ok? { PlaceAccepts(Parse(before).value, line); }
      hide Names, WellFormed, PlaceLine, Distinct;
      assert (forall l :: l in lines ==> WellFormed(l)) <==> (forall l :: l in before ==> WellFormed(l)) && WellFormed(line);
      DistinctExtended(old_, new_);
    }
  }
}
