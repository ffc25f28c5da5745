/** The byte map over whole runs: memory after a run is what the program's stores left there. */
module MemoryOfRuns {
  import opened Defs
  import opened Devices
  import opened Bus
  import opened Cpu
  import Safety

  /** The store of a cycle, if its instruction is one. */
  function StoreOf(m: Machine, strict: bool, e: Env): seq<Access>
  {
    var fetched := Fetch(Enter(m, e), strict);
    var d := Decode(fetched.value);
    if fetched.m.exec == RUNNING && StoreWidth(d.opcode).Some?
    then [StoreAt(Address(fetched.m, d), fetched.m.gpr[d.rb], StoreWidth(d.opcode).value)] else []
  }

  function StoresOf(m: Machine, strict: bool, envs: seq<Env>): seq<Access>
    decreases |envs|
  {
    if envs == [] || m.exec != RUNNING then []
    else StoreOf(m, strict, envs[0]) + StoresOf(Step(m, strict, envs[0]), strict, envs[1..])
  }

  /** What a byte holds after the stores, when it held `first` before. */
  function After(history: seq<Access>, a: int, first: Option<byte>): Option<byte>
  {
    if Latest(history, a).Some? then Latest(history, a) else first
  }

  lemma {:induction false} LatestAppend(x: seq<Access>, y: seq<Access>, a: int)
    ensures Latest(x + y, a) == if Latest(y, a).Some? then Latest(y, a) else Latest(x, a)
    decreases |y|
  {
    if y == [] {
      assert x + y == x;
    } else {
      assert (x + y)[..|x + y| - 1] == x + y[..|y| - 1];
      LatestAppend(x, y[..|y| - 1], a);
    }
  }

  lemma LatestOne(x: Access, a: int)
    ensures Latest([x], a) == if x.Puts(a) then Some(Split(x.w.Truncate(x.data), x.w.Bytes())[a - x.address]) else None
  {
    assert [x][..0] == [];
  }

  lemma SameMemory(x: Machine, y: Machine, a: int)
    requires x.rom == y.rom && x.ram == y.ram
    ensures ByteAt(x, a) == ByteAt(y, a)
  {
  }

  /** An instruction that is not a store leaves memory alone. */
  lemma OthersKeepMemory(m: Machine, strict: bool, d: Decoded, clockOk: bool)
    requires d.ra < GPR_COUNT && d.rb < GPR_COUNT && d.rc < GPR_COUNT && StoreWidth(d.opcode).None?
    ensures Dispatch(m, strict, d, clockOk).ram == m.ram && Dispatch(m, strict, d, clockOk).rom == m.rom
  {
    hide Read, AluI, AluR, Extend, MaskedWrite, Ien, ClearIen, SetIen;
    if LoadWidth(d.opcode).Some? { Safety.ReadKeeps(m, strict, Address(m, d), LoadWidth(d.opcode).value); }
  }

  /** A cycle changes exactly the bytes its store covers. */
  lemma StepBytes(m: Machine, strict: bool, e: Env, a: int)
    ensures ByteAt(Step(m, strict, e), a) == After(StoreOf(m, strict, e), a, ByteAt(m, a))
  {
    hide Read, Write, Dispatch, Decode, ByteAt, Latest, Ien, ClearIen, TickAll;
    var entered := Enter(m, e);
    var fetched := Fetch(entered, strict);
    Safety.ReadKeeps(entered, strict, entered.pc, W32);
    SameMemory(m, fetched.m, a);
    LatestNone(a);
    if fetched.m.exec == RUNNING {
      var n, d := Advance(fetched.m), Decode(fetched.value);
      var r := Dispatch(n, strict, d, e.clockOk);
      SameMemory(m, n, a);
      SameMemory(r, Step(m, strict, e), a);
      if StoreWidth(d.opcode).Some? {
        DispatchStore(n, strict, d, e.clockOk);
        assert StoreOf(m, strict, e) == [StoreAt(Address(n, d), n.gpr[d.rb], StoreWidth(d.opcode).value)];
        StoredByte(n, strict, StoreOf(m, strict, e)[0], a);
      } else {
        OthersKeepMemory(n, strict, d, e.clockOk);
        SameMemory(m, r, a);
      }
    }
  }

  lemma StoredByte(m: Machine, strict: bool, x: Access, a: int)
    requires x.StoreAt?
    ensures ByteAt(Write(m, strict, x.address, x.data, x.w), a) == After([x], a, ByteAt(m, a))
  {
    hide Write, Split, ByteAt;
    LatestOne(x, a);
    if x.Puts(a) { StoreIsBytes(m, strict, x.address, x.data, x.w); } else { OthersKeepBytes(m, strict, x, a); }
  }

  lemma LatestNone(a: int)
    ensures Latest([], a) == None
  {
  }

  /** After any run, from any state, every byte of ROM and RAM is the one put there by the latest
      store of the run that covered it, or the one it held at the start. */
  lemma {:induction false} RunBytes(m: Machine, strict: bool, envs: seq<Env>, a: int)
    ensures ByteAt(Steps(m, strict, envs), a) == After(StoresOf(m, strict, envs), a, ByteAt(m, a))
    decreases |envs|
  {
    hide Step, StoreOf, ByteAt;
    if envs != [] && m.exec == RUNNING {
      var next := Step(m, strict, envs[0]);
      StepBytes(m, strict, envs[0], a);
      RunBytes(next, strict, envs[1..], a);
      LatestAppend(StoreOf(m, strict, envs[0]), StoresOf(next, strict, envs[1..]), a);
    } else {
      LatestNone(a);
    }
  }
}
