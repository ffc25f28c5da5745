/** Handlers that take as long as the period of the Timer or longer. */
module Overrun {
  import opened Defs
  import opened Bits
  import opened Isa
  import opened Devices
  import opened Bus
  import opened Cpu
  import opened Safety
  import opened Interrupts
  import opened Traffic
  import T = Timer

  /** The Timer as a write of a period leaves it. */
  predicate Started(s: T.TimerState) { s.period > 0 && s.counter == 0 && !s.status }

  /** A multiple of the period lies after tick count `ack` and at or before tick count `n`. */
  ghost predicate Expires(ack: nat, n: nat, p: nat)
    requires p > 0
  {
    exists k :: ack < k <= n && k % p == 0
  }

  /** The closed form: the number of whole periods has grown. */
  lemma ExpiresIff(ack: nat, n: nat, p: nat)
    requires p > 0 && ack <= n
    ensures Expires(ack, n, p) <==> ack / p < n / p
  {
    T.MultipleBetween(ack, n, p);
    T.PhaseIsDivision(ack, p);
    T.PhaseIsDivision(n, p);
  }

  /** The status bit after the ticks of the next cycle. */
  lemma NextStatus(s: T.TimerState, trace: seq<T.TimerEvent>)
    requires Started(s) && T.KeepsPeriod(trace)
    ensures T.Run(s, trace).Tick().status <==> Expires(T.LastAck(trace), T.Ticks(trace) + 1, s.period)
  {
    var more := trace + [T.Tick];
    assert more[..|more| - 1] == trace;
    T.StatusExact(s, more);
  }

  lemma EnterTimer(m: Machine, e: Env)
    requires Inv(m)
    ensures Enter(m, e).dev.timer == m.dev.timer.Tick()
    ensures m.dev.timer.Tick().status ==> Enter(m, e).dev.Requesting()
  {
    TickIsSummary(m.devices, m.dev, e.stdin);
  }

  /** When a handler has just returned, the next cycle enters it again iff a byte is latched or the number of
      whole periods up to the tick of that cycle has grown since the last acknowledgement. */
  lemma ReturnsIntoHandlerIff(start: Machine, strict: bool, envs: seq<Env>, e: Env)
    requires Inv(start) && Started(start.dev.timer) && T.KeepsPeriod(TimerTrace(start, strict, envs))
    requires Steps(start, strict, envs).exec == RUNNING && Steps(start, strict, envs).spr[SPR_SR] == 1
    ensures var m, ack, n, p :=
        Steps(start, strict, envs), T.LastAck(TimerTrace(start, strict, envs)), Cycles(start, strict, envs), start.dev.timer.period;
      && (HardwareEntry(m, e) <==> Enter(m, e).dev.input.ready || ack / p < (n + 1) / p)
      && (Expires(ack, n + 1, p) <==> ack / p < (n + 1) / p)
      && ack <= n
  {
    hide Step, Steps, Enter, HardwareEntry, Cycles, RunEvents, TimerEvents, Inv, T.TimerState.Tick, Expires;
    var m, trace := Steps(start, strict, envs), TimerTrace(start, strict, envs);
    RunKeeps(start, strict, envs);
    RunIsEvents(start, strict, envs);
    Independence(start.dev, RunEvents(start, strict, envs));
    OneTickPerCycle(start, strict, envs);
    NextStatus(start.dev.timer, trace);
    T.AckedLast(trace, 0, start.dev.timer.period);
    ExpiresIff(T.LastAck(trace), T.Ticks(trace) + 1, start.dev.timer.period);
    TakenIff(m, e);
    EnterTimer(m, e);
  }

  /** A handler of h cycles entered at an expiration and acknowledged before the next one is
      overtaken by it, the tick after its RFE included, iff it takes at least a period. */
  lemma OvertakenIff(entry: nat, ack: nat, h: nat, p: nat)
    requires p > 0 && entry % p == 0 && entry <= ack < entry + p && ack < entry + h
    ensures Expires(ack, entry + h, p) <==> h >= p
  {
    var q := entry / p;
    assert entry == q * p;
    if h >= p {
      assert (q + 1) * p == entry + p;
      ModUnique(entry + p, p, q + 1, 0);
    } else if Expires(ack, entry + h, p) {
      var k :| ack < k <= entry + h && k % p == 0;
      ModUnique(k, p, q, k - entry);
    }
  }

  /** The documented rule: a handler entered at an expiration and acknowledged before the next one is
      entered again at once, with no latched byte, iff it takes at least a period. `envs` ends with its RFE. */
  lemma SlowHandlerIff(start: Machine, strict: bool, envs: seq<Env>, e: Env, h: nat)
    requires Inv(start) && Started(start.dev.timer) && T.KeepsPeriod(TimerTrace(start, strict, envs))
    requires Steps(start, strict, envs).exec == RUNNING && Steps(start, strict, envs).spr[SPR_SR] == 1
    requires h <= Cycles(start, strict, envs)
    requires var entry, ack, p :=
        Cycles(start, strict, envs) + 1 - h, T.LastAck(TimerTrace(start, strict, envs)), start.dev.timer.period;
      entry % p == 0 && entry <= ack < entry + p
    requires !Enter(Steps(start, strict, envs), e).dev.input.ready
    ensures HardwareEntry(Steps(start, strict, envs), e) <==> h >= start.dev.timer.period
  {
    hide Steps, Enter, HardwareEntry, Cycles, TimerTrace, Expires, Inv;
    var n, trace := Cycles(start, strict, envs), TimerTrace(start, strict, envs);
    ReturnsIntoHandlerIff(start, strict, envs, e);
    OneTickPerCycle(start, strict, envs);
    T.AckedLast(trace, 0, start.dev.timer.period);
    OvertakenIff(n + 1 - h, T.LastAck(trace), h, start.dev.timer.period);
  }

  // ---- Progress

  /** INT 0x80 or MOVI2S to SR */
  predicate TouchesIen(i: Option<Decoded>)
  {
    i.Some? && ((i.value.opcode == I_INT && i.value.imm26 == 0x80) ||
                (i.value.opcode == I_RTYPE && i.value.func == I_MOVI2S_FUNC && i.value.rc == SPR_SR))
  }

  /** No cycle of the run finds a byte latched, executes INT 0x80 or MOVI2S to SR, or sets the period. */
  predicate Undisturbed(m: Machine, strict: bool, envs: seq<Env>)
    decreases |envs|
  {
    envs == [] || m.exec != RUNNING ||
    (&& !Enter(m, envs[0]).dev.input.ready
     && !TouchesIen(Executed(m, strict, envs[0]))
     && T.KeepsPeriod(TimerEvents(StepEvents(m, strict, envs[0])))
     && Undisturbed(Step(m, strict, envs[0]), strict, envs[1..]))
  }

  /** Every cycle of the run belongs to the program: no interrupt enters and IEN is 1. */
  predicate InProgram(m: Machine, strict: bool, envs: seq<Env>)
    decreases |envs|
  {
    envs == [] || m.exec != RUNNING ||
    (!HardwareEntry(m, envs[0]) && Enter(m, envs[0]).spr[SPR_SR] == 1 && InProgram(Step(m, strict, envs[0]), strict, envs[1..]))
  }

  lemma IenStays(m: Machine, strict: bool, d: Decoded, clockOk: bool)
    requires d.ra < GPR_COUNT && d.rb < GPR_COUNT && d.rc < GPR_COUNT
    requires m.spr[SPR_SR] == 1 && !TouchesIen(Some(d))
    ensures Execute(m, strict, d, clockOk).spr[SPR_SR] == 1
  {
    hide Read, Write, AluI, AluR, Extend, And, Or;
    IenArithmetic(1);
    if LoadWidth(d.opcode).Some? {
      ReadKeeps(m, strict, Address(m, d), LoadWidth(d.opcode).value);
    } else if StoreWidth(d.opcode).Some? {
      WriteKeeps(m, strict, Address(m, d), m.gpr[d.rb], StoreWidth(d.opcode).value);
    }
  }

  lemma IenStep(m: Machine, strict: bool, e: Env)
    requires Inv(m) && m.exec == RUNNING && m.spr[SPR_SR] == 1
    requires !HardwareEntry(m, e) && !TouchesIen(Executed(m, strict, e))
    ensures Step(m, strict, e).spr[SPR_SR] == 1
  {
    hide Execute, Ien, TickAll, Read, Decode, TouchesIen;
    TakenIff(m, e);
    var entered := Enter(m, e);
    ReadKeeps(entered, strict, entered.pc, W32);
    var fetched := Fetch(entered, strict);
    if fetched.m.exec == RUNNING {
      IenStays(Advance(fetched.m), strict, Decode(fetched.value), e.clockOk);
    }
  }

  lemma {:induction false} NoTimerTicks(events: seq<DeviceEvent>)
    requires TickFree(events)
    ensures forall x :: x in TimerEvents(events) ==> !x.Tick?
    decreases |events|
  {
    if events != [] {
      assert events[0] in events && TickFree(events[1..]);
      NoTimerTicks(events[1..]);
    }
  }

  /** With nothing pending, reads and ignored writes leave the Timer alone. */
  lemma {:induction false} AccessesKeep(s: T.TimerState, events: seq<T.TimerEvent>)
    requires !s.status && T.KeepsPeriod(events) && forall x :: x in events ==> !x.Tick?
    ensures T.Run(s, events) == s
    decreases |events|
  {
    if events != [] {
      var before, e := events[..|events| - 1], events[|events| - 1];
      assert e in events && forall x :: x in before ==> x in events;
      AccessesKeep(s, before);
    }
  }

  /** A cycle that does not expire the Timer counts one tick and leaves nothing pending. */
  lemma QuietTimer(m: Machine, strict: bool, e: Env)
    requires Inv(m) && m.exec == RUNNING && T.KeepsPeriod(TimerEvents(StepEvents(m, strict, e)))
    requires !m.dev.timer.status && m.dev.timer.counter + 1 < m.dev.timer.period
    ensures Step(m, strict, e).dev.timer == m.dev.timer.(counter := m.dev.timer.counter + 1)
  {
    hide Step, StepEvents, Inv;
    var events := StepEvents(m, strict, e);
    StepTimer(m, strict, e);
    StepStart(m, strict, e);
    var rest := TimerEvents(events[1..]);
    NoTimerTicks(events[1..]);
    assert TimerEvents(events) == [T.Tick] + rest;
    assert forall x :: x in rest ==> x in TimerEvents(events);
    T.RunAppend(m.dev.timer, [T.Tick], rest);
    assert [T.Tick][..0] == [];
    assert T.Run(m.dev.timer, [T.Tick]) == m.dev.timer.Tick();
    AccessesKeep(m.dev.timer.Tick(), rest);
  }

  /** Until the next expiration an undisturbed program runs. */
  lemma {:induction false} Quiet(m: Machine, strict: bool, envs: seq<Env>)
    requires Inv(m) && m.spr[SPR_SR] == 1 && Undisturbed(m, strict, envs)
    requires !m.dev.timer.status && m.dev.timer.counter + |envs| < m.dev.timer.period
    ensures InProgram(m, strict, envs)
    ensures var r := Steps(m, strict, envs);
      r.exec == RUNNING ==> r.spr[SPR_SR] == 1 && r.dev.timer == m.dev.timer.(counter := m.dev.timer.counter + |envs|)
    decreases |envs|
  {
    hide Step, StepEvents, Enter, HardwareEntry, Executed, TouchesIen, Inv, TimerEvents;
    if envs != [] && m.exec == RUNNING {
      var next := Step(m, strict, envs[0]);
      TakenIff(m, envs[0]);
      EnterTimer(m, envs[0]);
      IenStep(m, strict, envs[0]);
      QuietTimer(m, strict, envs[0]);
      StepKeeps(m, strict, envs[0]);
      Quiet(next, strict, envs[1..]);
    }
  }

  /** The other documented rule: of every P cycles, P - H are left to the program. When a handler entered at
      an expiration has acknowledged in time and returned after h < p cycles, the next p - h cycles are the
      program's, and the cycle after them, if the program still runs, enters the handler again. */
  lemma ProgramRuns(start: Machine, strict: bool, envs: seq<Env>, h: nat, rest: seq<Env>, e: Env)
    requires Inv(start) && Started(start.dev.timer) && T.KeepsPeriod(TimerTrace(start, strict, envs))
    requires Steps(start, strict, envs).exec == RUNNING && Steps(start, strict, envs).spr[SPR_SR] == 1
    requires h <= Cycles(start, strict, envs) && h < start.dev.timer.period
    requires var entry, ack, p :=
        Cycles(start, strict, envs) + 1 - h, T.LastAck(TimerTrace(start, strict, envs)), start.dev.timer.period;
      entry % p == 0 && entry <= ack < entry + p
    requires Undisturbed(Steps(start, strict, envs), strict, rest) && |rest| <= start.dev.timer.period - h
    ensures InProgram(Steps(start, strict, envs), strict, rest)
    ensures var r := Steps(Steps(start, strict, envs), strict, rest);
      r.exec == RUNNING && |rest| == start.dev.timer.period - h ==> HardwareEntry(r, e)
  {
    hide Steps, Enter, HardwareEntry, Cycles, TimerTrace, Inv, InProgram, Undisturbed;
    var m, p := Steps(start, strict, envs), start.dev.timer.period;
    AfterHandler(start, strict, envs, h);
    RunKeeps(start, strict, envs);
    Quiet(m, strict, rest);
    var r := Steps(m, strict, rest);
    RunKeeps(m, strict, rest);
    if r.exec == RUNNING && |rest| == p - h {
      TakenIff(r, e);
      EnterTimer(r, e);
    }
  }

  lemma EntryPhase(n: nat, ack: nat, h: nat, p: nat)
    requires 0 < h <= p && h <= n + 1 && (n + 1 - h) % p == 0 && n + 1 - h <= ack <= n
    ensures n % p == h - 1 && ack / p == n / p
  {
    var entry := n + 1 - h;
    var q := entry / p;
    assert entry == q * p;
    ModUnique(ack, p, q, ack - entry);
    ModUnique(n, p, q, n - entry);
  }

  /** At the return nothing is pending and h - 1 ticks of the new period have passed. */
  lemma AfterHandler(start: Machine, strict: bool, envs: seq<Env>, h: nat)
    requires Inv(start) && Started(start.dev.timer) && T.KeepsPeriod(TimerTrace(start, strict, envs))
    requires h <= Cycles(start, strict, envs) && h <= start.dev.timer.period
    requires var entry, ack, p :=
        Cycles(start, strict, envs) + 1 - h, T.LastAck(TimerTrace(start, strict, envs)), start.dev.timer.period;
      entry % p == 0 && entry <= ack < entry + p
    ensures h > 0 && Steps(start, strict, envs).dev.timer == T.TimerState(start.dev.timer.period, h - 1, false)
  {
    hide Steps, Cycles, RunEvents, TimerEvents, Inv;
    var s, trace, n, p := start.dev.timer, TimerTrace(start, strict, envs), Cycles(start, strict, envs), start.dev.timer.period;
    var entry, ack := n + 1 - h, T.LastAck(trace);
    RunIsEvents(start, strict, envs);
    Independence(start.dev, RunEvents(start, strict, envs));
    OneTickPerCycle(start, strict, envs);
    T.Exact(s, trace);
    EntryPhase(n, ack, h, p);
  }

  // ---- Starvation

  /** From a Timer state `s` and the events it has seen, no cycle of the run sets the period or executes
      MOVI2S to SR or IAR, and each RFE comes no earlier than the cycle before the next expiration
      after the last acknowledgement. */
  ghost predicate AlwaysOvertaken(m: Machine, strict: bool, envs: seq<Env>, s: T.TimerState, seen: seq<T.TimerEvent>)
    requires s.period > 0
    decreases |envs|
  {
    envs == [] || m.exec != RUNNING ||
    (var i, trace := Executed(m, strict, envs[0]), seen + TimerEvents(StepEvents(m, strict, envs[0]));
     && !WritesState(i) && T.KeepsPeriod(trace)
     && (IsRfe(i) ==> Expires(T.LastAck(trace), T.Ticks(trace) + 1, s.period))
     && AlwaysOvertaken(Step(m, strict, envs[0]), strict, envs[1..], s, trace))
  }

  lemma StepTimer(m: Machine, strict: bool, e: Env)
    requires Inv(m) && m.exec == RUNNING
    ensures Inv(Step(m, strict, e))
    ensures Step(m, strict, e).dev.timer == T.Run(m.dev.timer, TimerEvents(StepEvents(m, strict, e)))
  {
    hide Step, StepEvents, TimerEvents;
    StepKeeps(m, strict, e);
    StepIsEvents(m, strict, e);
    Independence(m.dev, StepEvents(m, strict, e));
  }

  lemma {:induction false} OvertakenIsUnserviced(m: Machine, strict: bool, envs: seq<Env>, s: T.TimerState, seen: seq<T.TimerEvent>)
    requires Inv(m) && Started(s) && m.dev.timer == T.Run(s, seen)
    requires AlwaysOvertaken(m, strict, envs, s, seen)
    ensures Unserviced(m, strict, envs)
    decreases |envs|
  {
    hide Step, Enter, Executed, StepEvents, TimerEvents, Inv, DeviceStates.Requesting, Expires, TickAll;
    if envs != [] && m.exec == RUNNING {
      var e, next := envs[0], Step(m, strict, envs[0]);
      var events := StepEvents(m, strict, e);
      var trace := seen + TimerEvents(events);
      StepTimer(m, strict, e);
      T.RunAppend(s, seen, TimerEvents(events));
      OvertakenIsUnserviced(next, strict, envs[1..], s, trace);
      NextStatus(s, trace);
      if |envs| > 1 { EnterTimer(next, envs[1]); }
    }
  }

  /** A program whose handler is always overtaken by the Timer makes no progress: every cycle
      is spent in the handler, with the interrupted PC in IAR. */
  lemma Starves(m: Machine, strict: bool, envs: seq<Env>, s: T.TimerState, seen: seq<T.TimerEvent>)
    requires Inv(m) && m.spr[SPR_SR] == 0 && Started(s) && m.dev.timer == T.Run(s, seen)
    requires AlwaysOvertaken(m, strict, envs, s, seen)
    ensures AllInHandler(m, strict, envs, m.spr[SPR_IAR])
  {
    OvertakenIsUnserviced(m, strict, envs, s, seen);
    NoProgress(m, strict, envs, m.spr[SPR_IAR]);
  }
}
