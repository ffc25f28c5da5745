/** The six devices of src/cpu_seq/main.c:setup_devices, wired to one interrupt controller. */
module Devices {
  import opened Defs
  import opened InterruptController
  import I = InputPort
  import O = OutputPort
  import T = Timer

  datatype DeviceId = Ic | Startup | Input | Output | Power | Timer

  datatype Device = Device(base: word, size: word, id: DeviceId) {
    predicate Contains(address: word) { base <= address < base + size }
  }

  // In registration order, which is also the tick order and the search order
  const DEVICE_MAP: seq<Device> := [
    Device(0xC00C_0000, 1, Ic),
    Device(0xC000_0000, 1, Startup),
    Device(0xC004_0000, 1, Input),
    Device(0xC008_0000, 1, Output),
    Device(0xC010_0000, 1, Power),
    Device(0xC014_0000, 8, Timer)
  ]

  const INPUT_LINE := 0
  const TIMER_LINE := 1

  datatype DeviceStates = DeviceStates(ic: IcState, startup: bool, input: I.InputState, output: O.OutputState, timer: T.TimerState) {
    /** One tick of one device. The Startup Circuit and the Power Manager have no tick handler. */
    function Tick(id: DeviceId, stdin: Option<byte>): DeviceStates
    {
      match id
      case Ic => this.(ic := ic.Tick())
      case Input =>
        var next := input.Tick(stdin);
        this.(input := next, ic := if next.ready then ic.Assert(INPUT_LINE) else ic)
      case Output => this.(output := output.Tick())
      case Timer =>
        var next := timer.Tick();
        this.(timer := next, ic := if next.Asserts() then ic.Assert(TIMER_LINE) else ic)
      case Startup => this
      case Power => this
    }

    /** Value of a load from a device with a read handler. */
    function Value(id: DeviceId, offset: word, bytes: nat): word
    {
      match id
      case Ic => ic.Read().0
      case Startup => if startup then 1 else 0
      case Input => input.data
      case Output => output.Value()
      case Timer => timer.Value(offset, bytes)
      case Power => 0
    }

    function Read(id: DeviceId, offset: word, bytes: nat): DeviceStates
    {
      match id
      case Ic => this.(ic := ic.Read().1)
      case Startup => this
      case Input => this.(input := input.Read(), ic := ic.Deassert(INPUT_LINE))
      case Output => this
      case Timer =>
        this.(timer := timer.Read(offset, bytes),
              ic := if timer.IsAck(offset, bytes) then ic.Deassert(TIMER_LINE) else ic)
      case Power => this
    }

    /** Effect of a store on the devices; the halt of the Power Manager is in the bus. */
    function Write(id: DeviceId, offset: word, data: word, bytes: nat): DeviceStates
    {
      match id
      case Startup => this.(startup := false)
      case Output => this.(output := output.Write(data))
      case Timer =>
        this.(timer := timer.Write(offset, data, bytes),
              ic := if timer.IsPeriodWrite(offset, bytes) then ic.Deassert(TIMER_LINE) else ic)
      case Power => this
      case Ic => this
      case Input => this
    }

    /** Lines only tell of a byte in the latch or of a timer expiration not yet acknowledged. */
    predicate Inv()
    {
      && input.Inv() && output.Inv() && timer.Inv()
      && (ic.lines[INPUT_LINE] ==> input.ready)
      && (ic.lines[TIMER_LINE] ==> timer.status)
      && (forall i :: 2 <= i < MAX_DEVICES ==> !ic.lines[i])
    }

    predicate Requesting() { input.ready || timer.status }
  }

  const RESET := DeviceStates(IcState(seq(MAX_DEVICES, _ => false), false), true,
                         I.InputState(0, 0, false), O.OutputState(true, 0, []), T.TimerState(0, 0, false))

  predicate Readable(id: DeviceId) { id != Power }

  predicate Writable(id: DeviceId) { id != Ic && id != Input }

  // ---- Address decoding

  /** The registered devices are those of the machine, in any order. */
  predicate Installed(devices: seq<Device>) { multiset(devices) == multiset(DEVICE_MAP) }

  /** First registered device whose range contains the address. */
  function Find(devices: seq<Device>, address: word): (r: Option<Device>)
    ensures r.None? ==> forall d :: d in devices ==> !d.Contains(address)
    ensures r.Some? ==> r.value in devices && r.value.Contains(address)
  {
    if devices == [] then None
    else if devices[0].Contains(address) then Some(devices[0])
    else Find(devices[1..], address)
  }

  /** The ranges are disjoint and above the device base, so the search order does not matter. */
  lemma RoutingUnique(devices: seq<Device>, d: Device, address: word)
    requires Installed(devices)
    requires d in DEVICE_MAP && d.Contains(address)
    ensures Find(devices, address) == Some(d) && address >= DEVICES_BASE
  {
    assert d in multiset(devices);
    assert forall x :: x in devices ==> x in multiset(DEVICE_MAP);
  }

  // ---- The tick phase

  function TickAll(devices: seq<Device>, d: DeviceStates, stdin: Option<byte>): DeviceStates
    decreases |devices|
  {
    if devices == [] then d else TickAll(devices[1..], d.Tick(devices[0].id, stdin), stdin)
  }

  /** The tick phase described without an order. */
  function TickSummary(d: DeviceStates, stdin: Option<byte>): DeviceStates
  {
    var input, timer := d.input.Tick(stdin), d.timer.Tick();
    var lines: Lines := d.ic.lines[INPUT_LINE := d.ic.lines[INPUT_LINE] || input.ready]
                                  [TIMER_LINE := d.ic.lines[TIMER_LINE] || timer.Asserts()];
    DeviceStates(IcState(lines, d.ic.cpuLine || d.ic.Pending() || input.ready || timer.Asserts()),
            d.startup, input, d.output.Tick(), timer)
  }

  /** Because an assertion reaches the CPU at once, any two device ticks commute. */
  lemma TicksCommute(d: DeviceStates, a: DeviceId, b: DeviceId, stdin: Option<byte>)
    ensures d.Tick(a, stdin).Tick(b, stdin) == d.Tick(b, stdin).Tick(a, stdin)
  {
    PendingIff(d.ic);
    if a == Ic || b == Ic {
      var c := if a == Ic then b else a;
      PendingIff(d.Tick(c, stdin).ic);
      assert c == Input ==> d.Tick(c, stdin).ic.lines == d.ic.lines || d.Tick(c, stdin).ic.cpuLine;
    }
    assert d.ic.lines[INPUT_LINE := true][TIMER_LINE := true] == d.ic.lines[TIMER_LINE := true][INPUT_LINE := true];
  }

  lemma PendingIff(s: IcState)
    ensures s.Pending() <==> exists i :: 0 <= i < MAX_DEVICES && s.lines[i]
  {
  }

  function Without(devices: seq<Device>, i: nat): seq<Device>
    requires i < |devices|
  {
    devices[..i] + devices[i + 1..]
  }

  /** Ticking one device before all others changes nothing. */
  lemma {:induction false} TickFirst(devices: seq<Device>, i: nat, d: DeviceStates, stdin: Option<byte>)
    requires i < |devices|
    ensures TickAll(devices, d, stdin) == TickAll(Without(devices, i), d.Tick(devices[i].id, stdin), stdin)
    decreases |devices|
  {
    if i == 0 {
      assert Without(devices, 0) == devices[1..];
    } else {
      var x, h, tail := devices[i], devices[0], devices[1..];
      TickFirst(tail, i - 1, d.Tick(h.id, stdin), stdin);
      TicksCommute(d, h.id, x.id, stdin);
      assert Without(devices, i)[0] == h && Without(devices, i)[1..] == Without(tail, i - 1);
    }
  }

  lemma WithoutOne(s: seq<Device>, i: nat)
    requires i < |s|
    ensures multiset(Without(s, i)) == multiset(s) - multiset{s[i]}
  {
    assert s == s[..i] + [s[i]] + s[i + 1..];
  }

  /** The tick phase does not depend on the registration order. */
  lemma {:induction false} TickOrder(a: seq<Device>, b: seq<Device>, d: DeviceStates, stdin: Option<byte>)
    requires multiset(a) == multiset(b)
    ensures TickAll(a, d, stdin) == TickAll(b, d, stdin)
    decreases |a|
  {
    if a == [] {
      assert |b| == |multiset(b)| == 0;
    } else {
      var x := a[0];
      assert x in multiset(b);
      var i :| 0 <= i < |b| && b[i] == x;
      assert Without(a, 0) == a[1..];
      WithoutOne(a, 0);
      WithoutOne(b, i);
      TickOrder(a[1..], Without(b, i), d.Tick(x.id, stdin), stdin);
      TickFirst(b, i, d, stdin);
    }
  }

  /** Every order of the registered devices has the effect of the order-free description. */
  lemma TickIsSummary(devices: seq<Device>, d: DeviceStates, stdin: Option<byte>)
    requires Installed(devices)
    ensures TickAll(devices, d, stdin) == TickSummary(d, stdin)
  {
    TickOrder(devices, DEVICE_MAP, d, stdin);
    SetupTick(d, stdin);
  }

  lemma SetupTick(d: DeviceStates, stdin: Option<byte>)
    ensures TickAll(DEVICE_MAP, d, stdin) == TickSummary(d, stdin)
  {
    var m := DEVICE_MAP;
    assert m[1..][1..] == m[2..] && m[2..][1..] == m[3..] && m[3..][1..] == m[4..] && m[4..][1..] == m[5..] && m[5..][1..] == [];
    var d1 := d.Tick(Ic, stdin).Tick(Startup, stdin).Tick(Input, stdin);
    var d2 := d1.Tick(Output, stdin).Tick(Power, stdin).Tick(Timer, stdin);
    calc {
      TickAll(m, d, stdin);
      TickAll(m[1..], d.Tick(Ic, stdin), stdin);
      TickAll(m[2..], d.Tick(Ic, stdin).Tick(Startup, stdin), stdin);
      TickAll(m[3..], d1, stdin);
      TickAll(m[4..], d1.Tick(Output, stdin), stdin);
      TickAll(m[5..], d1.Tick(Output, stdin).Tick(Power, stdin), stdin);
      TickAll([], d2, stdin);
      d2;
    }
    assert d2.ic.lines == TickSummary(d, stdin).ic.lines;
  }

  // ---- Events the processor causes

  datatype DeviceEvent =
    | Cycle(stdin: Option<byte>)
    | Load(id: DeviceId, offset: word, bytes: nat)
    | Store(id: DeviceId, offset: word, data: word, bytes: nat)
    | EndCycle

  function Apply(d: DeviceStates, e: DeviceEvent): DeviceStates
  {
    match e
    case Cycle(stdin) => TickSummary(d, stdin)
    case Load(id, offset, bytes) => d.Read(id, offset, bytes)
    case Store(id, offset, data, bytes) => d.Write(id, offset, data, bytes)
    case EndCycle => d.(ic := d.ic.(cpuLine := false))
  }

  function Run(d: DeviceStates, events: seq<DeviceEvent>): DeviceStates
    decreases |events|
  {
    if events == [] then d else Run(Apply(d, events[0]), events[1..])
  }

  lemma {:induction false} RunAppend(d: DeviceStates, a: seq<DeviceEvent>, b: seq<DeviceEvent>)
    ensures Run(d, a + b) == Run(Run(d, a), b)
    decreases |a|
  {
    if a == [] {
      assert a + b == b;
    } else {
      assert (a + b)[1..] == a[1..] + b;
      RunAppend(Apply(d, a[0]), a[1..], b);
    }
  }

  // ---- Interrupt requests

  /** No line is spurious: the invariant survives every event. */
  lemma InvStep(d: DeviceStates, e: DeviceEvent)
    requires d.Inv()
    ensures Apply(d, e).Inv()
  {
  }

  /** The Startup Circuit is set until the first store to it. */
  lemma {:induction false} StartupIff(d: DeviceStates, events: seq<DeviceEvent>)
    ensures Run(d, events).startup <==> d.startup && forall e :: e in events ==> !(e.Store? && e.id == Startup)
    decreases |events|
  {
    if events != [] {
      StartupIff(Apply(d, events[0]), events[1..]);
      assert events == [events[0]] + events[1..];
    }
  }

  lemma {:induction false} InvRun(d: DeviceStates, events: seq<DeviceEvent>)
    requires d.Inv()
    ensures Run(d, events).Inv()
    decreases |events|
  {
    if events != [] {
      InvStep(d, events[0]);
      InvRun(Apply(d, events[0]), events[1..]);
    }
  }

  /** No request is lost: after the ticks each line is exactly its device's condition,
      and the CPU line tells whether there is any. */
  lemma AfterTicks(d: DeviceStates, stdin: Option<byte>)
    requires d.Inv() && !d.ic.cpuLine
    ensures var r := Apply(d, Cycle(stdin));
      && (r.ic.lines[0] <==> r.input.ready)
      && (r.ic.lines[1] <==> r.timer.status)
      && (forall i :: 2 <= i < 15 ==> !r.ic.lines[i])
      && (r.ic.cpuLine <==> r.Requesting())
      && (d.Requesting() ==> r.Requesting())
  {
    PendingIff(d.ic);
  }

  // ---- The events each device sees

  function InputOf(e: DeviceEvent): (r: seq<I.InputEvent>)
    ensures |r| <= 1
  {
    match e
    case Cycle(stdin) => [I.Tick(stdin)]
    case Load(id, _, _) => if id == Input then [I.Read] else []
    case _ => []
  }

  function OutputOf(e: DeviceEvent): (r: seq<O.OutputEvent>)
    ensures |r| <= 1
  {
    match e
    case Cycle(_) => [O.Tick]
    case Load(id, _, _) => if id == Output then [O.Read] else []
    case Store(id, _, data, _) => if id == Output then [O.Write(data)] else []
    case EndCycle => []
  }

  function TimerOf(e: DeviceEvent): (r: seq<T.TimerEvent>)
    ensures |r| <= 1
  {
    match e
    case Cycle(_) => [T.Tick]
    case Load(id, offset, bytes) => if id == Timer then [T.Read(offset, bytes)] else []
    case Store(id, offset, data, bytes) => if id == Timer then [T.Write(offset, data, bytes)] else []
    case EndCycle => []
  }

  function InputEvents(events: seq<DeviceEvent>): seq<I.InputEvent>
  {
    if events == [] then [] else InputOf(events[0]) + InputEvents(events[1..])
  }

  function OutputEvents(events: seq<DeviceEvent>): seq<O.OutputEvent>
  {
    if events == [] then [] else OutputOf(events[0]) + OutputEvents(events[1..])
  }

  function TimerEvents(events: seq<DeviceEvent>): seq<T.TimerEvent>
  {
    if events == [] then [] else TimerOf(events[0]) + TimerEvents(events[1..])
  }

  lemma OneEvent(d: DeviceStates, e: DeviceEvent)
    ensures Apply(d, e).input == I.Run(d.input, InputOf(e))
    ensures Apply(d, e).output == O.Run(d.output, OutputOf(e))
    ensures Apply(d, e).timer == T.Run(d.timer, TimerOf(e))
  {
    assert InputOf(e) != [] ==> InputOf(e)[1..] == [];
    assert OutputOf(e) != [] ==> OutputOf(e)[1..] == [];
    assert TimerOf(e) != [] ==> TimerOf(e)[..0] == [];
  }

  /** Each device evolves as if alone: its state is its own run over its own events. */
  lemma {:induction false} Independence(d: DeviceStates, events: seq<DeviceEvent>)
    ensures Run(d, events).input == I.Run(d.input, InputEvents(events))
    ensures Run(d, events).output == O.Run(d.output, OutputEvents(events))
    ensures Run(d, events).timer == T.Run(d.timer, TimerEvents(events))
    decreases |events|
  {
    if events != [] {
      var e, rest := events[0], events[1..];
      Independence(Apply(d, e), rest);
      OneEvent(d, e);
      I.RunAppend(d.input, InputOf(e), InputEvents(rest));
      O.RunAppend(d.output, OutputOf(e), OutputEvents(rest));
      T.RunAppend(d.timer, TimerOf(e), TimerEvents(rest));
    }
  }
}
