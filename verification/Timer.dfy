/** src/devices/dlx_timer.c: a periodic counter with a status bit. */
module Timer {
  import opened Defs
  import opened Bits
  import opened InterruptController

  datatype TimerState = TimerState(period: word, counter: word, status: bool) {
    function Tick(): TimerState
    {
      if period == 0 then this
      else
        var next := Wrap(counter + 1);
        if next >= period then TimerState(period, 0, true) else this.(counter := next)
    }

    /** A tick that ends in this state asserts the timer's line. */
    predicate Asserts() { period != 0 && status }

    predicate IsAck(offset: word, bytes: nat)
    {
      (offset == 4 && bytes == 4) || (offset == 6 && bytes == 2) || (offset == 7 && bytes == 1)
    }

    predicate IsPeriodWrite(offset: word, bytes: nat) { offset == 0 && bytes == 4 }

    function Value(offset: word, bytes: nat): word
    {
      if offset == 0 && bytes == 4 then period
      else if IsAck(offset, bytes) && status then 1
      else 0
    }

    function Read(offset: word, bytes: nat): TimerState
    {
      if IsAck(offset, bytes) then this.(status := false) else this
    }

    function Write(offset: word, data: word, bytes: nat): TimerState
    {
      if IsPeriodWrite(offset, bytes) then TimerState(data, 0, false) else this
    }

    predicate Inv() { if period == 0 then counter == 0 && !status else counter < period }
  }

  // ---- Runs of the timer

  datatype TimerEvent = Tick | Read(offset: word, bytes: nat) | Write(offset: word, data: word, bytes: nat)

  predicate IsAckEvent(e: TimerEvent) { e.Read? && TimerState(0, 0, false).IsAck(e.offset, e.bytes) }

  function Apply(s: TimerState, e: TimerEvent): TimerState
  {
    match e
    case Tick => s.Tick()
    case Read(offset, bytes) => s.Read(offset, bytes)
    case Write(offset, data, bytes) => s.Write(offset, data, bytes)
  }

  function Run(s: TimerState, events: seq<TimerEvent>): TimerState
  {
    if events == [] then s else Apply(Run(s, events[..|events| - 1]), events[|events| - 1])
  }

  lemma {:induction false} RunAppend(s: TimerState, a: seq<TimerEvent>, b: seq<TimerEvent>)
    ensures Run(s, a + b) == Run(Run(s, a), b)
    decreases |b|
  {
    if b == [] {
      assert a + b == a;
    } else {
      RunAppend(s, a, b[..|b| - 1]);
      assert (a + b)[..|a + b| - 1] == a + b[..|b| - 1];
    }
  }

  predicate KeepsPeriod(events: seq<TimerEvent>)
  {
    forall e :: e in events && e.Write? ==> !(e.offset == 0 && e.bytes == 4)
  }

  function Ticks(events: seq<TimerEvent>): nat
  {
    if events == [] then 0
    else Ticks(events[..|events| - 1]) + (if events[|events| - 1].Tick? then 1 else 0)
  }

  /** Number of ticks before the last acknowledgement, 0 if there was none. */
  function LastAck(events: seq<TimerEvent>): nat
  {
    if events == [] then 0
    else if IsAckEvent(events[|events| - 1]) then Ticks(events)
    else LastAck(events[..|events| - 1])
  }

  /** Number of acknowledgements that read status 1. */
  function AcksOfOne(s: TimerState, events: seq<TimerEvent>): nat
  {
    if events == [] then 0
    else
      var before, e := events[..|events| - 1], events[|events| - 1];
      AcksOfOne(s, before) + (if IsAckEvent(e) then Run(s, before).Value(e.offset, e.bytes) else 0)
  }

  /** Counter and number of expirations after n ticks of period p, counted tick by tick. */
  function Phase(n: nat, p: nat): (r: (nat, nat))
    requires p > 0
    ensures r.0 < p
  {
    if n == 0 then (0, 0)
    else
      var (count, expired) := Phase(n - 1, p);
      if count + 1 == p then (0, expired + 1) else (count + 1, expired)
  }

  lemma {:induction false} PhaseMonotone(a: nat, n: nat, p: nat)
    requires p > 0 && a <= n
    ensures Phase(a, p).1 <= Phase(n, p).1
    decreases n
  {
    if a < n { PhaseMonotone(a, n - 1, p); }
  }

  lemma {:induction false} PhaseIsDivision(n: nat, p: nat)
    requires p > 0
    ensures Phase(n, p) == (n % p, n / p)
    decreases n
  {
    var (count, expired) := Phase(n, p);
    assert n == expired * p + count by { PhaseSum(n, p); }
    ModUnique(n, p, expired, count);
  }

  lemma {:induction false} PhaseSum(n: nat, p: nat)
    requires p > 0
    ensures n == Phase(n, p).1 * p + Phase(n, p).0
    decreases n
  {
    if n > 0 {
      PhaseSum(n - 1, p);
      var (count, expired) := Phase(n - 1, p);
      assert (expired + 1) * p == expired * p + p;
    }
  }

  lemma TickPhase(s: TimerState, n: nat)
    requires s.period > 0 && s.counter == Phase(n, s.period).0
    ensures s.Tick().period == s.period
    ensures s.Tick().counter == Phase(n + 1, s.period).0
    ensures s.Tick().status <==> s.status || Phase(n, s.period).1 < Phase(n + 1, s.period).1
    ensures Phase(n, s.period).1 <= Phase(n + 1, s.period).1 <= Phase(n, s.period).1 + 1
  {
  }

  lemma {:induction false} ExactByPhase(s: TimerState, events: seq<TimerEvent>)
    requires s.period > 0 && s.counter == 0 && !s.status && KeepsPeriod(events)
    ensures var r := Run(s, events);
      && r.period == s.period
      && r.counter == Phase(Ticks(events), s.period).0
      && LastAck(events) <= Ticks(events)
      && (r.status <==> Phase(LastAck(events), s.period).1 < Phase(Ticks(events), s.period).1)
      && AcksOfOne(s, events) + (if r.status then 1 else 0) <= Phase(Ticks(events), s.period).1
    decreases |events|
  {
    if events != [] {
      var before, e := events[..|events| - 1], events[|events| - 1];
      assert KeepsPeriod(before) by { assert forall x :: x in before ==> x in events; }
      ExactByPhase(s, before);
      PhaseMonotone(LastAck(before), Ticks(before), s.period);
      match e
      case Tick => TickPhase(Run(s, before), Ticks(before));
      case Read(_, _) =>
      case Write(_, _, _) => assert e in events;
    }
  }

  /** After a write of period P > 0 and N ticks: the counter is N mod P, the status bit
      remembers whether an expiration followed the last acknowledgement, and the
      acknowledgements that saw it never exceed the N / P expirations. */
  lemma Exact(s: TimerState, events: seq<TimerEvent>)
    requires s.period > 0 && s.counter == 0 && !s.status && KeepsPeriod(events)
    ensures var r, n, p := Run(s, events), Ticks(events), s.period;
      && r.period == p
      && r.counter == n % p
      && LastAck(events) <= n
      && (r.status <==> LastAck(events) / p < n / p)
      && AcksOfOne(s, events) + (if r.status then 1 else 0) <= n / p
  {
    ExactByPhase(s, events);
    PhaseIsDivision(Ticks(events), s.period);
    PhaseIsDivision(LastAck(events), s.period);
  }

  /** An expiration between two tick counts is a multiple of the period there. */
  lemma {:induction false} MultipleBetween(a: nat, n: nat, p: nat)
    requires p > 0 && a <= n
    ensures Phase(a, p).1 < Phase(n, p).1 <==> exists m :: a < m <= n && m % p == 0
    decreases n
  {
    if a < n {
      MultipleBetween(a, n - 1, p);
      PhaseMonotone(a, n - 1, p);
      PhaseIsDivision(n, p);
      if n % p != 0 && Phase(a, p).1 < Phase(n, p).1 {
        var m :| a < m <= n - 1 && m % p == 0;
      }
    }
  }

  /** The status bit is 1 iff a multiple of the period lies after the last
      acknowledgement's tick count and at or before the current one. */
  lemma StatusExact(s: TimerState, events: seq<TimerEvent>)
    requires s.period > 0 && s.counter == 0 && !s.status && KeepsPeriod(events)
    ensures Run(s, events).status <==>
      exists m :: LastAck(events) < m <= Ticks(events) && m % s.period == 0
  {
    ExactByPhase(s, events);
    MultipleBetween(LastAck(events), Ticks(events), s.period);
  }

  // ---- From a write of the period

  /** A timer switched off stays off. */
  lemma {:induction false} Off(s: TimerState, events: seq<TimerEvent>)
    requires s == TimerState(0, 0, false) && KeepsPeriod(events)
    ensures Run(s, events) == s
    decreases |events|
  {
    if events != [] {
      var before, e := events[..|events| - 1], events[|events| - 1];
      assert e in events && forall x :: x in before ==> x in events;
      Off(s, before);
    }
  }

  /** From any state: a write of P > 0 makes the timer expire at every multiple of P ticks from there; a write of
      0 switches it off for good. */
  lemma FromWrite(s: TimerState, data: word, events: seq<TimerEvent>)
    requires KeepsPeriod(events)
    ensures var r, n := Run(s, [Write(0, data, 4)] + events), Ticks(events);
      && r.period == data
      && (data > 0 ==> r.counter == n % data && (r.status <==> exists m :: LastAck(events) < m <= n && m % data == 0))
      && (data == 0 ==> r.counter == 0 && !r.status)
  {
    var start := TimerState(data, 0, false);
    assert [Write(0, data, 4)][..0] == [];
    assert Run(s, [Write(0, data, 4)]) == start;
    RunAppend(s, [Write(0, data, 4)], events);
    if data > 0 {
      Exact(start, events);
      StatusExact(start, events);
    } else {
      Off(start, events);
    }
  }

  // ---- Which expirations are lost

  /** Some acknowledgement comes after the k-th expiration and before the next one. */
  ghost predicate AckedIn(events: seq<TimerEvent>, k: int, p: nat)
    requires p > 0
  {
    exists i :: 0 <= i < |events| && IsAckEvent(events[i]) && Ticks(events[..i]) / p == k
  }

  lemma AckedAppend(events: seq<TimerEvent>, e: TimerEvent, k: int, p: nat)
    requires p > 0
    ensures AckedIn(events + [e], k, p) <==> AckedIn(events, k, p) || (IsAckEvent(e) && Ticks(events) / p == k)
  {
    var more := events + [e];
    assert forall i :: 0 <= i <= |events| ==> more[..i] == events[..i];
    assert events[..|events|] == events && more[|events|] == e;
    if AckedIn(events, k, p) {
      var i :| 0 <= i < |events| && IsAckEvent(events[i]) && Ticks(events[..i]) / p == k;
      assert more[i] == events[i];
    }
  }

  /** The last acknowledgement is the one with the highest tick count. */
  lemma {:induction false} AckedLast(events: seq<TimerEvent>, k: int, p: nat)
    requires p > 0
    ensures LastAck(events) <= Ticks(events)
    ensures AckedIn(events, k, p) ==> k <= LastAck(events) / p
    ensures LastAck(events) / p > 0 ==> AckedIn(events, LastAck(events) / p, p)
    decreases |events|
  {
    if events != [] {
      var before, e := events[..|events| - 1], events[|events| - 1];
      assert events == before + [e];
      AckedLast(before, k, p);
      AckedAppend(before, e, k, p);
      AckedAppend(before, e, LastAck(events) / p, p);
      DivMonotone(LastAck(before), Ticks(before), p);
    }
  }

  lemma DivMonotone(a: nat, b: nat, p: nat)
    requires p > 0 && a <= b
    ensures a / p <= b / p
  {
    PhaseMonotone(a, b, p);
    PhaseIsDivision(a, p);
    PhaseIsDivision(b, p);
  }

  /** A tick passes at most one multiple of the period. */
  lemma NextDivision(n: nat, p: nat)
    requires p > 0
    ensures n / p <= (n + 1) / p <= n / p + 1
  {
    PhaseIsDivision(n, p);
    PhaseIsDivision(n + 1, p);
  }

  /** Every expiration but the last was acknowledged before the next one. */
  ghost predicate AllAcked(events: seq<TimerEvent>, p: nat)
    requires p > 0
  {
    forall k :: 1 <= k < Ticks(events) / p ==> AckedIn(events, k, p)
  }

  /** Expirations seen so far: by the acknowledgements that read 1, and by the pending status. */
  function Seen(s: TimerState, events: seq<TimerEvent>): nat
  {
    AcksOfOne(s, events) + if Run(s, events).status then 1 else 0
  }

  /** An acknowledgement takes what was pending; other accesses leave it. */
  lemma AckMovesPending(s: TimerState, e: TimerEvent)
    requires !e.Tick? && KeepsPeriod([e])
    ensures (if IsAckEvent(e) then s.Value(e.offset, e.bytes) else 0) + (if Apply(s, e).status then 1 else 0) == if s.status then 1 else 0
  {
    assert e in [e];
  }

  lemma KeepsParts(before: seq<TimerEvent>, e: TimerEvent)
    requires KeepsPeriod(before + [e])
    ensures KeepsPeriod(before) && KeepsPeriod([e])
  {
    assert e in before + [e] && forall x :: x in before ==> x in before + [e];
  }

  /** An event adds to them exactly when it expires the timer while nothing is pending. */
  lemma SeenStep(s: TimerState, before: seq<TimerEvent>, e: TimerEvent)
    requires s.period > 0 && s.counter == 0 && !s.status && KeepsPeriod(before + [e])
    ensures KeepsPeriod(before)
    ensures Seen(s, before + [e]) ==
      Seen(s, before) +
      if Ticks(before + [e]) / s.period > Ticks(before) / s.period && !Run(s, before).status then 1 else 0
  {
    var events, p := before + [e], s.period;
    assert events[..|events| - 1] == before && events[|events| - 1] == e;
    hide KeepsPeriod;
    KeepsParts(before, e);
    ExactByPhase(s, before);
    assert Run(s, events) == Apply(Run(s, before), e);
    if e.Tick? { TickPhase(Run(s, before), Ticks(before)); } else { AckMovesPending(Run(s, before), e); }
    hide TimerState.Value, TimerState.Read, TimerState.Write, TimerState.IsAck, TimerState.Tick, Run;
    PhaseIsDivision(Ticks(before), p);
    PhaseIsDivision(Ticks(before) + 1, p);
  }

  /** No expiration is lost, each being seen by its own acknowledgement or still pending, exactly when
      an acknowledgement lies between every two consecutive multiples of the period up to N. */
  lemma {:induction false} NoneLost(s: TimerState, events: seq<TimerEvent>)
    requires s.period > 0 && s.counter == 0 && !s.status && KeepsPeriod(events)
    ensures Seen(s, events) == Ticks(events) / s.period <==> AllAcked(events, s.period)
    decreases |events|
  {
    var p := s.period;
    if events == [] {
      assert Ticks(events) == 0 && 0 / p == 0;
    } else {
      var before, e := events[..|events| - 1], events[|events| - 1];
      assert events == before + [e];
      SeenStep(s, before, e);
      NoneLost(s, before);
      Exact(s, before);
      DivMonotone(LastAck(before), Ticks(before), p);
      NextDivision(Ticks(before), p);
      AllAckedAppend(before, e, p);
      assert Seen(s, before) <= Ticks(before) / p;
      assert Ticks(before) <= Ticks(events) <= Ticks(before) + 1;
      hide Seen, Run, AllAcked, LastAck, Ticks;
    }
  }

  /** What one more event does to AllAcked. */
  lemma AllAckedAppend(before: seq<TimerEvent>, e: TimerEvent, p: nat)
    requires p > 0
    ensures var n, n' := Ticks(before) / p, Ticks(before + [e]) / p;
      AllAcked(before + [e], p) <==> AllAcked(before, p) && (1 <= n < n' ==> LastAck(before) / p == n)
  {
    var events := before + [e];
    assert events[..|events| - 1] == before;
    var n, n' := Ticks(before) / p, Ticks(events) / p;
    NextDivision(Ticks(before), p);
    AckedLast(before, n, p);
    DivMonotone(LastAck(before), Ticks(before), p);
    forall k | 1 <= k < n ensures AckedIn(events, k, p) <==> AckedIn(before, k, p) {
      AckedAppend(before, e, k, p);
    }
    AckedAppend(before, e, n, p);
    if 1 <= n < n' {
      assert AckedIn(events, n, p) <==> LastAck(before) / p == n;
    }
  }

  class TimerDevice {
    var period: word
    var counter: word
    var status: bool
    const ic: Controller
    const intIndex: nat

    ghost predicate Valid() { ic.Valid() && intIndex < MAX_DEVICES }

    ghost function State(): TimerState
      reads this
    {
      TimerState(period, counter, status)
    }

    constructor (ic: Controller, intIndex: nat)
      requires ic.Valid() && intIndex < MAX_DEVICES
      ensures Valid() && this.ic == ic && this.intIndex == intIndex
      ensures State() == TimerState(0, 0, false)
    {
      this.ic, this.intIndex := ic, intIndex;
      period, counter, status := 0, 0, false;
    }

    method Tick()
      requires Valid()
      modifies this, ic.lines, ic.controller
      ensures State() == old(State()).Tick()
      ensures ic.State() == if State().Asserts() then old(ic.State()).Assert(intIndex) else old(ic.State())
    {
      if period == 0 { return; }
      counter := (counter + 1) % WORD;
      if counter >= period {
        counter := 0;
        status := true;
      }
      if status {
        ic.AssertInterrupt(intIndex);
      }
    }

    method Read(offset: word, bytes: nat) returns (value: word)
      requires Valid()
      modifies this, ic.lines
      ensures value == old(State()).Value(offset, bytes)
      ensures State() == old(State()).Read(offset, bytes)
      ensures ic.State() == if State().IsAck(offset, bytes) then old(ic.State()).Deassert(intIndex) else old(ic.State())
    {
      if offset == 0 && bytes == 4 { return period; }
      if (offset == 4 && bytes == 4) || (offset == 6 && bytes == 2) || (offset == 7 && bytes == 1) {
        value := if status then 1 else 0;
        status := false;
        ic.DeassertInterrupt(intIndex);
        return;
      }
      return 0;
    }

    method Write(offset: word, data: word, bytes: nat)
      requires Valid()
      modifies this, ic.lines
      ensures State() == old(State()).Write(offset, data, bytes)
      ensures State() == if offset == 0 && bytes == 4 then TimerState(data, 0, false) else old(State())
      ensures ic.State() == if State().IsPeriodWrite(offset, bytes) then old(ic.State()).Deassert(intIndex) else old(ic.State())
    {
      if offset == 0 && bytes == 4 {
        period := data;
        counter := 0;
        status := false;
        ic.DeassertInterrupt(intIndex);
      }
    }
  }
}
