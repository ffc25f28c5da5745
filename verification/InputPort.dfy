/** src/devices/dlx_input_port.c: a one-byte latch fed by a polled input. */
module InputPort {
  import opened Defs
  import opened InterruptController

  const CHECK_INTERVAL: word := 10

  datatype InputState = InputState(tickCount: word, data: byte, ready: bool) {
    /** `stdin` is the byte a poll of the standard input would deliver during this tick. */
    predicate Polls() { !ready && tickCount >= CHECK_INTERVAL }

    function Tick(stdin: Option<byte>): InputState
    {
      if ready then this
      else if tickCount < CHECK_INTERVAL then this.(tickCount := tickCount + 1)
      else if stdin.Some? then InputState(0, stdin.value, true)
      else this.(tickCount := 0)
    }

    function Read(): InputState { this.(ready := false) }

    function Latched(): seq<byte> { if ready then [data] else [] }

    predicate Inv() { tickCount <= CHECK_INTERVAL }
  }

  // ---- Runs of the port

  datatype InputEvent = Tick(stdin: Option<byte>) | Read

  function Apply(s: InputState, e: InputEvent): InputState
  {
    match e
    case Tick(stdin) => s.Tick(stdin)
    case Read => s.Read()
  }

  function Run(s: InputState, events: seq<InputEvent>): InputState
    decreases |events|
  {
    if events == [] then s else Run(Apply(s, events[0]), events[1..])
  }

  lemma {:induction false} RunAppend(s: InputState, a: seq<InputEvent>, b: seq<InputEvent>)
    ensures Run(s, a + b) == Run(Run(s, a), b)
    decreases |a|
  {
    if a == [] {
      assert a + b == b;
    } else {
      assert (a + b)[1..] == a[1..] + b;
      RunAppend(Apply(s, a[0]), a[1..], b);
    }
  }

  /** Bytes taken from the standard input, in order. */
  function Consumed(s: InputState, events: seq<InputEvent>): seq<byte>
    decreases |events|
  {
    if events == [] then []
    else
      var e := events[0];
      (if e.Tick? && s.Polls() && e.stdin.Some? then [e.stdin.value] else []) + Consumed(Apply(s, e), events[1..])
  }

  /** Bytes returned by the reads made while a byte was latched, in order. */
  function Delivered(s: InputState, events: seq<InputEvent>): seq<byte>
    decreases |events|
  {
    if events == [] then []
    else (if events[0].Read? && s.ready then [s.data] else []) + Delivered(Apply(s, events[0]), events[1..])
  }

  /** Conservation: no byte is lost, duplicated or reordered between the standard input
      and the reads; at most one is pending in the latch. */
  lemma {:induction false} Conservation(s: InputState, events: seq<InputEvent>)
    ensures s.Latched() + Consumed(s, events) == Delivered(s, events) + Run(s, events).Latched()
    decreases |events|
  {
    if events != [] {
      var e := events[0];
      var next := Apply(s, e);
      Conservation(next, events[1..]);
      var consumed := if e.Tick? && s.Polls() && e.stdin.Some? then [e.stdin.value] else [];
      var delivered := if e.Read? && s.ready then [s.data] else [];
      assert s.Latched() + consumed == delivered + next.Latched();
      calc {
        s.Latched() + (consumed + Consumed(next, events[1..]));
        (s.Latched() + consumed) + Consumed(next, events[1..]);
        delivered + (next.Latched() + Consumed(next, events[1..]));
        delivered + (Delivered(next, events[1..]) + Run(s, events).Latched());
        Delivered(s, events) + Run(s, events).Latched();
      }
    }
  }

  lemma {:induction false} DeliveredAppend(s: InputState, a: seq<InputEvent>, b: seq<InputEvent>)
    ensures Delivered(s, a + b) == Delivered(s, a) + Delivered(Run(s, a), b)
    decreases |a|
  {
    if a == [] {
      assert a + b == b;
    } else {
      var first := if a[0].Read? && s.ready then [s.data] else [];
      var next := Apply(s, a[0]);
      assert (a + b)[1..] == a[1..] + b && (a + b)[0] == a[0];
      DeliveredAppend(next, a[1..], b);
      assert first + (Delivered(next, a[1..]) + Delivered(Run(s, a), b)) == first + Delivered(next, a[1..]) + Delivered(Run(s, a), b);
    }
  }

  function Ticks(events: seq<InputEvent>): nat
  {
    if events == [] then 0 else (if events[0].Tick? then 1 else 0) + Ticks(events[1..])
  }

  lemma {:induction false} InvKept(s: InputState, events: seq<InputEvent>)
    requires s.Inv()
    ensures Run(s, events).Inv()
    decreases |events|
  {
    if events != [] { InvKept(Apply(s, events[0]), events[1..]); }
  }

  /** A free latch is polled exactly at tick 11 - tickCount and not before, whatever is
      read meanwhile, and takes the byte offered at that tick. */
  lemma {:induction false} LatchTime(s: InputState, before: seq<InputEvent>, stdin: Option<byte>)
    requires !s.ready && s.tickCount + Ticks(before) <= 10
    ensures Consumed(s, before) == [] && !Run(s, before).ready
    ensures Run(s, before).tickCount == s.tickCount + Ticks(before)
    ensures s.tickCount + Ticks(before) == 10 && stdin.Some? ==>
      Run(s, before + [Tick(stdin)]) == InputState(0, stdin.value, true)
    decreases |before|
  {
    if before != [] { LatchTime(Apply(s, before[0]), before[1..], stdin); }
    RunAppend(s, before, [Tick(stdin)]);
  }

  /** While the input always has a byte to offer, a free latch takes one within 11 ticks. */
  lemma {:induction false} LatchedWithin11(s: InputState, events: seq<InputEvent>)
    requires s.Inv() && !s.ready
    requires forall e :: e in events && e.Tick? ==> e.stdin.Some?
    requires Ticks(events) >= 11 - s.tickCount
    ensures Consumed(s, events) != []
    decreases |events|
  {
    assert events[0] in events;
    if !(events[0].Tick? && s.Polls()) {
      assert forall e :: e in events[1..] ==> e in events;
      LatchedWithin11(Apply(s, events[0]), events[1..]);
    }
  }

  /** A poll that finds no byte starts the count again: a free latch is polled every 11 ticks. */
  lemma {:induction false} PolledEvery11(s: InputState, events: seq<InputEvent>)
    requires !s.ready && s.tickCount <= 10 && Consumed(s, events) == []
    ensures !Run(s, events).ready && Run(s, events).tickCount == (s.tickCount + Ticks(events)) % 11
    ensures Run(s, events).Polls() <==> (s.tickCount + Ticks(events)) % 11 == 10
    decreases |events|
  {
    if events != [] {
      assert !(events[0].Tick? && s.Polls() && events[0].stdin.Some?);
      PolledEvery11(Apply(s, events[0]), events[1..]);
    }
  }

  /** A full latch keeps its byte, and polls nothing, until it is read. */
  lemma {:induction false} Held(s: InputState, events: seq<InputEvent>)
    requires s.ready && forall e :: e in events ==> e.Tick?
    ensures Run(s, events) == s && Consumed(s, events) == []
    decreases |events|
  {
    if events != [] {
      assert events[0] in events && forall e :: e in events[1..] ==> e in events;
      Held(Apply(s, events[0]), events[1..]);
    }
  }

  class InputDevice {
    var tickCount: word
    var data: byte
    var ready: bool
    const ic: Controller
    const intIndex: nat

    ghost predicate Valid() { ic.Valid() && intIndex < MAX_DEVICES }

    ghost function State(): InputState
      reads this
    {
      InputState(tickCount, data, ready)
    }

    constructor (ic: Controller, intIndex: nat)
      requires ic.Valid() && intIndex < MAX_DEVICES
      ensures Valid() && this.ic == ic && this.intIndex == intIndex
      ensures State() == InputState(0, 0, false)
    {
      this.ic, this.intIndex := ic, intIndex;
      tickCount, data, ready := 0, 0, false;
    }

    method Tick(stdin: Option<byte>)
      requires Valid()
      modifies this, ic.lines, ic.controller
      ensures State() == old(State()).Tick(stdin)
      ensures ic.State() == if State().ready then old(ic.State()).Assert(intIndex) else old(ic.State())
    {
      if ready {
        ic.AssertInterrupt(intIndex);
        return;
      }
      if tickCount < CHECK_INTERVAL {
        tickCount := tickCount + 1;
        return;
      }
      tickCount := 0;
      if stdin.Some? {
        data := stdin.value;
        ready := true;
        ic.AssertInterrupt(intIndex);
      }
    }

    method Read() returns (value: byte)
      requires Valid()
      modifies this, ic.lines
      ensures value == old(State()).data && State() == old(State()).Read()
      ensures ic.State() == old(ic.State()).Deassert(intIndex)
    {
      value := data;
      ready := false;
      ic.DeassertInterrupt(intIndex);
    }
  }
}
