/** The run loop of src/cpu_seq/main.c. */
module Loop {
  import opened Defs
  import opened Bits
  import opened Devices
  import opened Bus
  import opened Cpu

  const CYCLES_WRAP := 0x1_0000_0000_0000_0000  // uint64_t

  /** What the outside offers in one iteration: `quit` is the flag set by SIGINT and SIGTERM. */
  datatype Turn = Turn(quit: bool, env: Env)

  datatype Outcome = Outcome(m: Machine, cycles: nat)

  /** The cycle counter, a uint64_t, after n more cycles. */
  function Counted(cycles: nat, n: nat): nat { (cycles + n) % 0x1_0000_0000_0000_0000 }

  /** One iteration: a signal stops before the step, the cycle limit after it; `max` = 0 means no limit. */
  function Iteration(m: Machine, strict: bool, max: nat, cycles: nat, turn: Turn): Outcome
  {
    if turn.quit then Outcome(m.(exec := SIGNAL), cycles)
    else
      var next, count := Step(m, strict, turn.env), Counted(cycles, 1);
      Outcome(if next.exec == RUNNING && max != 0 && count >= max then next.(exec := TIMEOUT) else next, count)
  }

  /** The loop until it stops or the turns are used up. */
  function Run(m: Machine, strict: bool, max: nat, cycles: nat, turns: seq<Turn>): Outcome
    decreases |turns|
  {
    if turns == [] || m.exec != RUNNING then Outcome(m, cycles)
    else
      var next := Iteration(m, strict, max, cycles, turns[0]);
      Run(next.m, strict, max, next.cycles, turns[1..])
  }

  function Envs(turns: seq<Turn>): (r: seq<Env>)
    ensures |r| == |turns|
  {
    if turns == [] then [] else [turns[0].env] + Envs(turns[1..])
  }

  /** An instruction leaves the execution state alone or ends the run in one of three ways. */
  predicate EndsWithin(before: ExecState, after: ExecState) { after == before || after in {FAULT, HALT, CRITICAL} }

  lemma AccessEnds(m: Machine, strict: bool, address: word, data: word, w: Width)
    ensures EndsWithin(m.exec, Read(m, strict, address, w).m.exec)
    ensures EndsWithin(m.exec, Write(m, strict, address, data, w).exec)
  {
    hide Find, BigEndian, Split;
  }

  lemma DispatchEnds(m: Machine, strict: bool, d: Decoded, clockOk: bool)
    requires d.ra < GPR_COUNT && d.rb < GPR_COUNT && d.rc < GPR_COUNT
    ensures EndsWithin(m.exec, Dispatch(m, strict, d, clockOk).exec)
  {
    hide Read, Write, AluI, AluR, Extend, MaskedWrite, And, Or;
    if LoadWidth(d.opcode).Some? {
      AccessEnds(m, strict, Address(m, d), 0, LoadWidth(d.opcode).value);
    } else if StoreWidth(d.opcode).Some? {
      AccessEnds(m, strict, Address(m, d), m.gpr[d.rb], StoreWidth(d.opcode).value);
    }
  }

  lemma StepEnds(m: Machine, strict: bool, e: Env)
    ensures EndsWithin(m.exec, Step(m, strict, e).exec)
  {
    hide Read, Dispatch, Decode, TickAll, Ien, ClearIen;
    var entered := Enter(m, e);
    AccessEnds(entered, strict, entered.pc, 0, W32);
    var fetched := Fetch(entered, strict);
    if fetched.m.exec == RUNNING {
      DispatchEnds(Advance(fetched.m), strict, Decode(fetched.value), e.clockOk);
    }
  }

  /** What the loop adds to the cycles it executes: the machine it leaves is that of some number n of
      plain cycles, except that SIGNAL or TIMEOUT replaces RUNNING; the counter has advanced by n;
      TIMEOUT comes exactly at the limit and SIGNAL exactly when the flag is up. */
  lemma {:induction false} LoopIsSteps(m: Machine, strict: bool, max: nat, cycles: nat, turns: seq<Turn>) returns (n: nat)
    requires max < CYCLES_WRAP && cycles < CYCLES_WRAP && (max != 0 ==> cycles < max)
    requires m.exec != TIMEOUT && m.exec != SIGNAL
    ensures n <= |turns|
    ensures var r, plain := Run(m, strict, max, cycles, turns), Steps(m, strict, Envs(turns)[..n]);
      && r.cycles == Counted(cycles, n)
      && r.m == plain.(exec := r.m.exec)
      && (r.m.exec != SIGNAL && r.m.exec != TIMEOUT ==> r.m == plain)
      && (r.m.exec == RUNNING ==> n == |turns|)
      && (r.m.exec == TIMEOUT <==> max != 0 && plain.exec == RUNNING && cycles + n >= max)
      && (r.m.exec == SIGNAL <==> plain.exec == RUNNING && n < |turns| && turns[n].quit && (max == 0 || cycles + n < max))
    decreases |turns|
  {
    hide Step, Counted;
    CountOn(cycles, 0);
    n := 0;
    assert Envs(turns)[..0] == [];
    if turns != [] && m.exec == RUNNING && !turns[0].quit {
      StepEnds(m, strict, turns[0].env);
      var next := Iteration(m, strict, max, cycles, turns[0]);
      if next.m.exec != RUNNING {
        n := 1;
        FirstStep(m, strict, turns, 0);
      } else {
        assert next.m == Step(m, strict, turns[0].env);
        var rest := LoopIsSteps(next.m, strict, max, next.cycles, turns[1..]);
        n := 1 + rest;
        FirstStep(m, strict, turns, rest);
        CountOn(cycles, rest);
      }
    }
  }

  lemma FirstStep(m: Machine, strict: bool, turns: seq<Turn>, rest: nat)
    requires rest < |turns| && m.exec == RUNNING
    ensures Steps(m, strict, Envs(turns)[..rest + 1]) == Steps(Step(m, strict, turns[0].env), strict, Envs(turns[1..])[..rest])
  {
    hide Step;
    assert Envs(turns)[..rest + 1][0] == turns[0].env;
    assert Envs(turns)[..rest + 1][1..] == Envs(turns[1..])[..rest];
  }

  lemma CountOn(cycles: nat, rest: nat)
    requires cycles < CYCLES_WRAP
    ensures Counted(cycles, 0) == cycles
    ensures cycles + 1 < CYCLES_WRAP ==> Counted(cycles, 1) == cycles + 1
    ensures Counted(Counted(cycles, 1), rest) == Counted(cycles, 1 + rest)
    ensures Counted(cycles, 1) < CYCLES_WRAP
  {
  }
}
