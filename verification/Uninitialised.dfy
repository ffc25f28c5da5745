/** RAM is arbitrary at reset: two runs that differ only in RAM bytes not yet stored stay so. */
module Uninitialised {
  import opened Defs
  import opened Isa
  import opened Devices
  import opened Bus
  import opened Cpu

  function Span(address: word, w: Width): set<int>
  {
    var start := address - RAM_BASE;
    if !w.Aligned(address) || !InRam(address) then {}
    else match w
         case W8 => {start}
         case W16 => {start, start + 1}
         case W32 => {start, start + 1, start + 2, start + 3}
  }

  /** RAM offsets the cycle fetches or loads. */
  function Loads(m: Machine, strict: bool, e: Env): set<int>
  {
    var fetched := Fetch(Enter(m, e), strict);
    var d := Decode(fetched.value);
    Span(Enter(m, e).pc, W32) +
    (if fetched.m.exec == RUNNING && LoadWidth(d.opcode).Some?
     then Span(Address(fetched.m, d), LoadWidth(d.opcode).value) else {})
  }

  /** RAM offsets the cycle stores. */
  function Stores(m: Machine, strict: bool, e: Env): set<int>
  {
    var fetched := Fetch(Enter(m, e), strict);
    var d := Decode(fetched.value);
    if fetched.m.exec == RUNNING && StoreWidth(d.opcode).Some?
    then Span(Address(fetched.m, d), StoreWidth(d.opcode).value) else {}
  }

  /** The machines are equal except for RAM bytes outside `known`. */
  ghost predicate Agree(a: Machine, b: Machine, known: set<int>)
  {
    && b == a.(ram := b.ram)
    && forall i :: i in known && 0 <= i < RAM_SIZE ==> a.ram[i] == b.ram[i]
  }

  lemma ReadAgrees(a: Machine, b: Machine, strict: bool, address: word, w: Width, known: set<int>)
    requires Agree(a, b, known) && Span(address, w) <= known
    ensures Read(a, strict, address, w).value == Read(b, strict, address, w).value
    ensures Agree(Read(a, strict, address, w).m, Read(b, strict, address, w).m, known)
  {
    hide BigEndian, Find;
    if w.Aligned(address) && InRam(address) {
      var start := address - RAM_BASE;
      forall i | start <= i < start + w.Bytes() ensures a.ram[i] == b.ram[i] {
        assert i in Span(address, w);
      }
      assert a.ram[start..start + w.Bytes()] == b.ram[start..start + w.Bytes()];
    }
  }

  lemma WriteAgrees(a: Machine, b: Machine, strict: bool, address: word, data: word, w: Width, known: set<int>)
    requires Agree(a, b, known)
    ensures Agree(Write(a, strict, address, data, w), Write(b, strict, address, data, w), known + Span(address, w))
  {
  }

  lemma ExecuteRIgnoresRam(m: Machine, ram: Ram, strict: bool, d: Decoded)
    requires d.ra < GPR_COUNT && d.rb < GPR_COUNT && d.rc < GPR_COUNT
    ensures ExecuteR(m.(ram := ram), strict, d) == ExecuteR(m, strict, d).(ram := ram)
    ensures ExecuteR(m, strict, d).ram == m.ram
  {
  }

  lemma DispatchIgnoresRam(m: Machine, ram: Ram, strict: bool, d: Decoded, clockOk: bool)
    requires d.ra < GPR_COUNT && d.rb < GPR_COUNT && d.rc < GPR_COUNT
    requires LoadWidth(d.opcode).None? && StoreWidth(d.opcode).None?
    ensures Dispatch(m.(ram := ram), strict, d, clockOk) == Dispatch(m, strict, d, clockOk).(ram := ram)
    ensures Dispatch(m, strict, d, clockOk).ram == m.ram
  {
    if d.opcode == I_RTYPE {
      ExecuteRIgnoresRam(m, ram, strict, d);
    } else if AluI(d, m.gpr[d.ra]).Some? {
      assert Dispatch(m, strict, d, clockOk) == SetReg(m, d.rb, AluI(d, m.gpr[d.ra]).value);
    }
  }

  lemma LoadAgrees(a: Machine, b: Machine, strict: bool, d: Decoded, known: set<int>)
    requires d.ra < GPR_COUNT && d.rb < GPR_COUNT && LoadWidth(d.opcode).Some?
    requires Agree(a, b, known) && Span(Address(a, d), LoadWidth(d.opcode).value) <= known
    ensures Agree(ExecuteLoad(a, strict, d), ExecuteLoad(b, strict, d), known)
  {
    hide Read, Span, Extend;
    ReadAgrees(a, b, strict, Address(a, d), LoadWidth(d.opcode).value, known);
  }

  lemma ExecuteAgrees(a: Machine, b: Machine, strict: bool, d: Decoded, clockOk: bool, known: set<int>)
    requires d.ra < GPR_COUNT && d.rb < GPR_COUNT && d.rc < GPR_COUNT
    requires Agree(a, b, known)
    requires LoadWidth(d.opcode).Some? ==> Span(Address(a, d), LoadWidth(d.opcode).value) <= known
    ensures Agree(Execute(a, strict, d, clockOk), Execute(b, strict, d, clockOk),
                  known + if StoreWidth(d.opcode).Some? then Span(Address(a, d), StoreWidth(d.opcode).value) else {})
  {
    hide Dispatch, ExecuteLoad, Write, Span;
    if LoadWidth(d.opcode).Some? {
      LoadAgrees(a, b, strict, d, known);
      DispatchLoad(a, strict, d, clockOk);
      DispatchLoad(b, strict, d, clockOk);
    } else if StoreWidth(d.opcode).Some? {
      DispatchStore(a, strict, d, clockOk);
      DispatchStore(b, strict, d, clockOk);
      WriteAgrees(a, b, strict, Address(a, d), a.gpr[d.rb], StoreWidth(d.opcode).value, known);
    } else {
      DispatchIgnoresRam(a, b.ram, strict, d, clockOk);
    }
  }

  lemma AgreeSteps(a: Machine, b: Machine, e: Env, known: set<int>)
    requires Agree(a, b, known)
    ensures Agree(Enter(a, e), Enter(b, e), known)
    ensures Agree(Advance(a), Advance(b), known)
    ensures Agree(Finish(a), Finish(b), known)
  {
  }

  lemma AdvanceKeeps(m: Machine, d: Decoded)
    requires d.ra < GPR_COUNT
    ensures Address(Advance(m), d) == Address(m, d) && Advance(m).exec == m.exec
  {
  }

  lemma StepAgrees(a: Machine, b: Machine, strict: bool, e: Env, known: set<int>)
    requires Agree(a, b, known) && Loads(a, strict, e) <= known
    ensures Agree(Step(a, strict, e), Step(b, strict, e), known + Stores(a, strict, e))
  {
    hide Read, Execute, Enter, Advance, Finish, Decode, Span;
    AgreeSteps(a, b, e, known);
    var entered, entered' := Enter(a, e), Enter(b, e);
    ReadAgrees(entered, entered', strict, entered.pc, W32, known);
    var fetched, fetched' := Fetch(entered, strict), Fetch(entered', strict);
    if fetched.m.exec == RUNNING {
      AgreeSteps(fetched.m, fetched'.m, e, known);
      var d := Decode(fetched.value);
      var m, m' := Advance(fetched.m), Advance(fetched'.m);
      AdvanceKeeps(fetched.m, d);
      ExecuteAgrees(m, m', strict, d, e.clockOk, known);
      AgreeSteps(Execute(m, strict, d, e.clockOk), Execute(m', strict, d, e.clockOk), e, known + Stores(a, strict, e));
    }
  }

  /** Every RAM byte the run fetches or loads is in `known` or was stored earlier in the run. */
  predicate StoresFirst(m: Machine, strict: bool, envs: seq<Env>, known: set<int>)
    decreases |envs|
  {
    envs == [] || m.exec != RUNNING ||
    (Loads(m, strict, envs[0]) <= known &&
     StoresFirst(Step(m, strict, envs[0]), strict, envs[1..], known + Stores(m, strict, envs[0])))
  }

  function KnownAfter(m: Machine, strict: bool, envs: seq<Env>, known: set<int>): set<int>
    decreases |envs|
  {
    if envs == [] || m.exec != RUNNING then known
    else KnownAfter(Step(m, strict, envs[0]), strict, envs[1..], known + Stores(m, strict, envs[0]))
  }

  lemma {:induction false} RunAgrees(a: Machine, b: Machine, strict: bool, envs: seq<Env>, known: set<int>)
    requires Agree(a, b, known) && StoresFirst(a, strict, envs, known)
    ensures Agree(Steps(a, strict, envs), Steps(b, strict, envs), KnownAfter(a, strict, envs, known))
    decreases |envs|
  {
    if envs != [] && a.exec == RUNNING {
      StepAgrees(a, b, strict, envs[0], known);
      RunAgrees(Step(a, strict, envs[0]), Step(b, strict, envs[0]), strict, envs[1..], known + Stores(a, strict, envs[0]));
    }
  }

  /** A program that stores every RAM byte before it loads or fetches it behaves the same
      whatever RAM held at reset: registers, devices, state and every stored byte agree. */
  lemma ResetRamIrrelevant(image: seq<byte>, gpr: Gprs, ram: Ram, ram': Ram, strict: bool, envs: seq<Env>)
    requires |image| <= ROM_SIZE && StoresFirst(Boot(image, ram, gpr), strict, envs, {})
    ensures Agree(Steps(Boot(image, ram, gpr), strict, envs), Steps(Boot(image, ram', gpr), strict, envs),
                  KnownAfter(Boot(image, ram, gpr), strict, envs, {}))
  {
    RunAgrees(Boot(image, ram, gpr), Boot(image, ram', gpr), strict, envs, {});
  }
}
