/** src/devices/dlx_output_port.c: a byte port that stays busy after every byte. */
module OutputPort {
  import opened Defs

  const DELAY: byte := 3

  /** `sent` is the history of the standard output, which the port itself does not keep. */
  datatype OutputState = OutputState(ready: bool, delay: byte, sent: seq<byte>) {
    function Tick(): OutputState
    {
      if ready then this
      else
        var left: byte := (delay + 0xFF) % 0x100;  // --delay on a uint8_t
        OutputState(left == 0, left, sent)
    }

    function Value(): word { if ready then 1 else 0 }

    function Write(data: word): OutputState
    {
      if ready then OutputState(false, DELAY, sent + [data % 0x100]) else this
    }

    predicate Inv() { (ready <==> delay == 0) && delay <= DELAY }
  }

  // ---- Runs of the port

  datatype OutputEvent = Tick | Read | Write(data: word)

  function Apply(s: OutputState, e: OutputEvent): OutputState
  {
    match e
    case Tick => s.Tick()
    case Read => s
    case Write(data) => s.Write(data)
  }

  function Run(s: OutputState, events: seq<OutputEvent>): OutputState
    decreases |events|
  {
    if events == [] then s else Run(Apply(s, events[0]), events[1..])
  }

  lemma {:induction false} RunAppend(s: OutputState, a: seq<OutputEvent>, b: seq<OutputEvent>)
    ensures Run(s, a + b) == Run(Run(s, a), b)
    ensures Emitted(s, a + b) == Emitted(s, a) + Emitted(Run(s, a), b)
    decreases |a|
  {
    if a == [] {
      assert a + b == b;
    } else {
      assert (a + b)[1..] == a[1..] + b;
      RunAppend(Apply(s, a[0]), a[1..], b);
    }
  }

  /** Bytes sent to the standard output. */
  function Emitted(s: OutputState, events: seq<OutputEvent>): seq<byte>
    decreases |events|
  {
    if events == [] then []
    else
      (if events[0].Write? && s.ready then [events[0].data % 0x100] else []) + Emitted(Apply(s, events[0]), events[1..])
  }

  function Ticks(events: seq<OutputEvent>): nat
  {
    if events == [] then 0 else (if events[0].Tick? then 1 else 0) + Ticks(events[1..])
  }

  /** The standard output grows by the bytes written while the port was ready, in order, and by nothing else. */
  lemma {:induction false} SentIsEmitted(s: OutputState, events: seq<OutputEvent>)
    ensures Run(s, events).sent == s.sent + Emitted(s, events)
    decreases |events|
  {
    if events == [] {
      assert s.sent + [] == s.sent;
    } else {
      var next := Apply(s, events[0]);
      SentIsEmitted(next, events[1..]);
      var first := if events[0].Write? && s.ready then [events[0].data % 0x100] else [];
      assert next.sent == s.sent + first;
      assert s.sent + first + Emitted(next, events[1..]) == s.sent + (first + Emitted(next, events[1..]));
    }
  }

  lemma {:induction false} InvKept(s: OutputState, events: seq<OutputEvent>)
    requires s.Inv()
    ensures Run(s, events).Inv()
    decreases |events|
  {
    if events != [] { InvKept(Apply(s, events[0]), events[1..]); }
  }

  /** Each byte costs three ticks: the busy time left over is the debt. */
  lemma {:induction false} Debt(s: OutputState, events: seq<OutputEvent>)
    requires s.Inv()
    ensures 3 * |Emitted(s, events)| + s.delay <= Ticks(events) + Run(s, events).delay
    decreases |events|
  {
    if events != [] { Debt(Apply(s, events[0]), events[1..]); }
  }

  /** Two accepted writes are at least three ticks apart. */
  lemma Spacing(s: OutputState, data: word, between: seq<OutputEvent>)
    requires s.Inv() && s.ready && Run(s.Write(data), between).ready
    ensures Ticks(between) >= DELAY
  {
    Debt(s.Write(data), between);
    InvKept(s.Write(data), between);
  }

  /** While no write is accepted, a delay of d ends after d ticks, whatever is read and written meanwhile. */
  lemma {:induction false} Waits(s: OutputState, events: seq<OutputEvent>)
    requires s.Inv() && Emitted(s, events) == []
    ensures var r, k := Run(s, events), Ticks(events);
      && (r.ready <==> k >= s.delay)
      && r.delay == (if k >= s.delay then 0 else s.delay - k)
      && r.sent == s.sent
    decreases |events|
  {
    if events != [] {
      assert !(events[0].Write? && s.ready);
      Waits(Apply(s, events[0]), events[1..]);
    }
  }

  /** After an accepted write the port is ready again at the third tick and not before, and the next
      write from then on is sent. */
  lemma Recovers(s: OutputState, data: word, events: seq<OutputEvent>, next: word)
    requires s.Inv() && s.ready && Emitted(s.Write(data), events) == []
    ensures var r, k := Run(s.Write(data), events), Ticks(events);
      && (r.ready <==> k >= 3)
      && r.delay == (if k >= 3 then 0 else 3 - k)
      && r.Write(next).sent == s.sent + [data % 0x100] + if k >= 3 then [next % 0x100] else []
  {
    Waits(s.Write(data), events);
    assert s.sent + [data % 0x100] + [] == s.sent + [data % 0x100];
  }

  /** N cycles, the first beginning with its tick, emit at most (N + 2) / 3 bytes. */
  lemma Throughput(s: OutputState, events: seq<OutputEvent>)
    requires s.Inv() && events != [] && events[0].Tick?
    ensures |Emitted(s, events)| <= (Ticks(events) + 2) / 3
  {
    Debt(Apply(s, events[0]), events[1..]);
    InvKept(s, events);
  }

  /** Every write follows a read that returned 1, with no other write in between;
      `armed` tells whether such a read is already available. */
  predicate Polls(s: OutputState, events: seq<OutputEvent>, armed: bool)
    decreases |events|
  {
    if events == [] then true
    else
      var next := Apply(s, events[0]);
      match events[0]
      case Tick => Polls(next, events[1..], armed)
      case Read => Polls(next, events[1..], s.Value() == 1)
      case Write(_) => armed && Polls(next, events[1..], false)
  }

  function Written(events: seq<OutputEvent>): seq<byte>
  {
    if events == [] then []
    else (if events[0].Write? then [events[0].data % 0x100] else []) + Written(events[1..])
  }

  /** A program that polls before each write loses no byte. */
  lemma {:induction false} PollingLosesNothing(s: OutputState, events: seq<OutputEvent>, armed: bool)
    requires Polls(s, events, armed) && (armed ==> s.ready)
    ensures Emitted(s, events) == Written(events)
    decreases |events|
  {
    if events != [] {
      var armed' := match events[0] case Tick => armed case Read => s.Value() == 1 case Write(_) => false;
      PollingLosesNothing(Apply(s, events[0]), events[1..], armed');
    }
  }

  class OutputDevice {
    var ready: bool
    var delay: byte
    ghost var stdout: seq<byte>

    ghost function State(): OutputState
      reads this
    {
      OutputState(ready, delay, stdout)
    }

    constructor ()
      ensures State() == OutputState(true, 0, [])
    {
      ready, delay, stdout := true, 0, [];
    }

    method Tick()
      modifies this
      ensures State() == old(State()).Tick()
      ensures old(ready) ==> State() == old(State())
      ensures !old(ready) && old(delay) > 0 ==> State() == OutputState(old(delay) == 1, old(delay) - 1, old(stdout))
    {
      if ready { return; }
      delay := (delay + 0xFF) % 0x100;
      if delay == 0 { ready := true; }
    }

    method Read() returns (value: word)
      ensures value == State().Value()
    {
      value := if ready then 1 else 0;
    }

    method Write(data: word)
      modifies this
      ensures State() == old(State()).Write(data)
    {
      if !ready { return; }
      stdout := stdout + [data % 0x100];
      ready := false;
      delay := DELAY;
    }
  }
}
