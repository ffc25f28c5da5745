/** src/devices/dlx_ic.c: latched interrupt lines and their output to the CPU. */
module InterruptController {
  import opened Defs

  /** The lines of the controller and the CPU interrupt line it drives. */
  datatype IcState = IcState(lines: Lines, cpuLine: bool) {
    function Assert(index: nat): IcState
      requires index < MAX_DEVICES
    {
      IcState(lines[index := true], true)
    }

    function Deassert(index: nat): IcState
      requires index < MAX_DEVICES
    {
      this.(lines := lines[index := false])
    }

    predicate Pending() { First(lines) < MAX_DEVICES }

    function Tick(): IcState { this.(cpuLine := cpuLine || Pending()) }

    function Read(): (word, IcState)
    {
      var first := First(lines);
      if first < MAX_DEVICES then (first, Deassert(first)) else (NO_LINE, this)
    }

    /** Values of `n` reads with no tick in between, and the state they leave. */
    function Reads(n: nat): (r: (seq<word>, IcState))
      ensures |r.0| == n
      decreases n
    {
      if n == 0 then ([], this)
      else
        var (value, next) := Read();
        var (values, last) := next.Reads(n - 1);
        ([value] + values, last)
    }
  }

  /** Index of the first asserted line, or the number of lines. */
  function First(lines: seq<bool>): (first: nat)
    ensures first <= |lines|
    ensures first < |lines| ==> lines[first]
    ensures forall i :: 0 <= i < first ==> !lines[i]
  {
    if lines == [] || lines[0] then 0 else 1 + First(lines[1..])
  }

  /** Number of asserted lines. */
  function Count(lines: seq<bool>): nat
  {
    if lines == [] then 0 else (if lines[0] then 1 else 0) + Count(lines[1..])
  }

  lemma {:induction false} CountCleared(lines: seq<bool>, index: nat)
    requires index < |lines| && lines[index]
    ensures Count(lines[index := false]) == Count(lines) - 1
    decreases |lines|
  {
    if index == 0 {
      assert lines[index := false][1..] == lines[1..];
    } else {
      CountCleared(lines[1..], index - 1);
      assert lines[index := false][1..] == lines[1..][index - 1 := false];
    }
  }

  lemma {:induction false} CountZero(lines: seq<bool>)
    ensures Count(lines) == 0 <==> First(lines) == |lines|
    decreases |lines|
  {
    if lines != [] { CountZero(lines[1..]); }
  }

  lemma {:induction false} ReadsClear(s: IcState, n: nat)
    ensures var (values, last) := s.Reads(n);
      && last.cpuLine == s.cpuLine
      && (forall k: word :: k < MAX_DEVICES ==> (last.lines[k] <==> s.lines[k] && k !in values))
      && (forall v :: v in values && v != NO_LINE ==> v < MAX_DEVICES && s.lines[v])
    decreases n
  {
    if n > 0 { ReadsClear(s.Read().1, n - 1); }
  }

  lemma {:induction false} ReadsCount(s: IcState, n: nat)
    ensures var (values, last) := s.Reads(n);
      && (forall i :: 0 <= i < n ==> (values[i] != NO_LINE <==> i < Count(s.lines)))
      && (last.Pending() <==> n < Count(s.lines))
    decreases n
  {
    CountZero(s.lines);
    if n > 0 {
      var (value, next) := s.Read();
      ReadsCount(next, n - 1);
      if value != NO_LINE { CountCleared(s.lines, value); }
    }
  }

  lemma {:induction false} ReadsIncrease(s: IcState, n: nat)
    ensures var values := s.Reads(n).0;
      forall i, j :: 0 <= i < j < n ==> values[i] < values[j] || values[i] == values[j] == NO_LINE
    decreases n
  {
    if n > 0 {
      var (value, next) := s.Read();
      var values := next.Reads(n - 1).0;
      ReadsIncrease(next, n - 1);
      ReadsClear(next, n - 1);
      forall j | 0 <= j < n - 1 ensures value < values[j] || value == values[j] == NO_LINE {
        assert values[j] in values;
        if value != NO_LINE && values[j] != NO_LINE { assert next.lines[values[j]]; }
      }
    }
  }

  /** Draining: successive reads return the asserted indices in strictly increasing
      order and then 0xF forever, and clear exactly the lines they return. */
  lemma Drain(s: IcState, n: nat)
    ensures var (values, last) := s.Reads(n);
      && (forall v :: v in values && v != NO_LINE ==> v < MAX_DEVICES && s.lines[v])
      && (forall i, j :: 0 <= i < j < n ==> values[i] < values[j] || values[i] == values[j] == NO_LINE)
      && (forall i :: 0 <= i < n ==> (values[i] != NO_LINE <==> i < Count(s.lines)))
      && (forall k: word :: k < MAX_DEVICES ==> (last.lines[k] <==> s.lines[k] && k !in values))
      && (last.Pending() <==> n < Count(s.lines))
      && last.cpuLine == s.cpuLine
  {
    ReadsClear(s, n);
    ReadsCount(s, n);
    ReadsIncrease(s, n);
  }

  /** The `interrupt_line` cell the controller reaches through its callback. */
  class InterruptLine {
    var asserted: bool

    constructor ()
      ensures !asserted
    {
      asserted := false;
    }
  }

  class Controller {
    const lines: array<bool>
    const controller: InterruptLine

    ghost predicate Valid() { lines.Length == MAX_DEVICES }

    ghost function State(): IcState
      requires Valid()
      reads lines, controller
    {
      IcState(lines[..], controller.asserted)
    }

    constructor (controller: InterruptLine)
      ensures Valid() && fresh(lines) && this.controller == controller
      ensures State() == IcState(seq(MAX_DEVICES, _ => false), controller.asserted)
    {
      this.controller := controller;
      lines := new bool[MAX_DEVICES](_ => false);
    }

    method AssertInterrupt(index: nat)
      requires Valid() && index < MAX_DEVICES
      modifies lines, controller
      ensures State() == old(State()).Assert(index)
    {
      lines[index] := true;
      controller.asserted := true;
    }

    method DeassertInterrupt(index: nat)
      requires Valid() && index < MAX_DEVICES
      modifies lines
      ensures State() == old(State()).Deassert(index)
    {
      lines[index] := false;
    }

    method Tick()
      requires Valid()
      modifies controller
      ensures State() == old(State()).Tick()
    {
      var i := 0;
      while i < lines.Length
        invariant 0 <= i <= lines.Length
        invariant forall k :: 0 <= k < i ==> !lines[k]
        invariant State() == old(State())
      {
        if lines[i] {
          controller.asserted := true;
          break;
        }
        i := i + 1;
      }
    }

    method Read() returns (index: word)
      requires Valid()
      modifies lines
      ensures (index, State()) == old(State()).Read()
    {
      var i := 0;
      while i < lines.Length
        invariant 0 <= i <= lines.Length
        invariant forall k :: 0 <= k < i ==> !lines[k]
        invariant State() == old(State())
      {
        if lines[i] {
          lines[i] := false;
          return i;
        }
        i := i + 1;
      }
      return NO_LINE;
    }
  }
}
