/** src/common/dlx_memory_bus.c: routing, alignment, byte order and faults of memory accesses. */
module Bus {
  import opened Defs
  import opened Bits
  import opened Devices

  /** The state of include/dlx_defs.h:DLX_state with the states of its devices;
      the interrupt line is `dev.ic.cpuLine`. */
  datatype Machine = Machine(rom: Rom, ram: Ram, gpr: Gprs, spr: Sprs, pc: word, exec: ExecState,
                             devices: seq<Device>, dev: DeviceStates) {
    /** FAULT_OR_WARN */
    function Complain(strict: bool): Machine { if strict then this.(exec := FAULT) else this }
  }

  // The three access widths, in bytes
  datatype Width = W8 | W16 | W32 {
    function Bytes(): nat { match this case W8 => 1 case W16 => 2 case W32 => 4 }

    predicate Aligned(address: word) { match this case W8 => true case W16 => address % 2 == 0 case W32 => address % 4 == 0 }

    function Truncate(data: word): word { match this case W8 => data % 0x100 case W16 => data % 0x1_0000 case W32 => data }
  }

  predicate InRom(address: int) { ROM_BASE <= address < ROM_BASE + ROM_SIZE }

  predicate InRam(address: int) { RAM_BASE <= address < RAM_BASE + RAM_SIZE }

  // ---- Big-endian byte sequences

  /** Value of a byte sequence, most significant byte first. */
  function BigEndian(bytes: seq<byte>): (r: nat)
    ensures r < Pow2(8 * |bytes|)
  {
    if bytes == [] then 0
    else
      var last := |bytes| - 1;
      Pow2Step(8 * last);
      BigEndian(bytes[..last]) * 0x100 + bytes[last]
  }

  function Split(value: nat, n: nat): (r: seq<byte>)
    ensures |r| == n
    decreases n
  {
    if n == 0 then [] else Split(value / 0x100, n - 1) + [value % 0x100]
  }

  lemma Pow2Step(n: nat)
    ensures Pow2(n + 8) == 0x100 * Pow2(n)
  {
    assert Pow2(n + 8) == 2 * Pow2(n + 7) == 4 * Pow2(n + 6) == 8 * Pow2(n + 5) == 16 * Pow2(n + 4);
    assert Pow2(n + 4) == 2 * Pow2(n + 3) == 4 * Pow2(n + 2) == 8 * Pow2(n + 1) == 16 * Pow2(n);
  }

  lemma SplitJoined(high: nat, low: byte, n: nat)
    ensures Split(high * 0x100 + low, n + 1) == Split(high, n) + [low]
  {
  }

  lemma {:induction false} SplitBigEndian(bytes: seq<byte>)
    ensures Split(BigEndian(bytes), |bytes|) == bytes
    decreases |bytes|
  {
    if bytes != [] {
      var last := |bytes| - 1;
      var high, low := BigEndian(bytes[..last]), bytes[last];
      assert BigEndian(bytes) == high * 0x100 + low;
      SplitBigEndian(bytes[..last]);
      hide BigEndian, Pow2;
      SplitJoined(high, low, last);
      assert bytes == bytes[..last] + [low];
    }
  }

  lemma {:induction false} BigEndianSplit(value: nat, n: nat)
    requires value < Pow2(8 * n)
    ensures BigEndian(Split(value, n)) == value
    decreases n
  {
    if n > 0 {
      Pow2Step(8 * (n - 1));
      BigEndianSplit(value / 0x100, n - 1);
      assert Split(value, n)[..n - 1] == Split(value / 0x100, n - 1);
    }
  }

  lemma WidthPowers(w: Width)
    ensures Pow2(8 * w.Bytes()) <= WORD
    ensures forall data: word :: w.Truncate(data) < Pow2(8 * w.Bytes())
  {
    Pow2Values();
  }

  // ---- Loads and stores

  datatype Loaded = Loaded(value: word, m: Machine)

  function Compose(bytes: seq<byte>, w: Width): word
    requires |bytes| == w.Bytes()
  {
    WidthPowers(w);
    BigEndian(bytes)
  }

  function Overwrite(ram: Ram, start: nat, bytes: seq<byte>): (r: Ram)
    requires start + |bytes| <= RAM_SIZE
  {
    ram[..start] + bytes + ram[start + |bytes|..]
  }

  /** The device a bus access is routed to. */
  function Route(m: Machine, address: word): Option<Device>
  {
    if address >= DEVICES_BASE then Find(m.devices, address) else None
  }

  function Read(m: Machine, strict: bool, address: word, w: Width): Loaded
  {
    if !w.Aligned(address) then Loaded(0, m.Complain(strict))
    else
      var device := Route(m, address);
      if device.Some? && Readable(device.value.id) then
        var offset := address - device.value.base;
        Loaded(m.dev.Value(device.value.id, offset, w.Bytes()), m.(dev := m.dev.Read(device.value.id, offset, w.Bytes())))
      else if InRom(address) then Loaded(Compose(m.rom[address..address + w.Bytes()], w), m)
      else if InRam(address) then
        var start := address - RAM_BASE;
        Loaded(Compose(m.ram[start..start + w.Bytes()], w), m)
      else Loaded(0, m.Complain(strict))
  }

  function Write(m: Machine, strict: bool, address: word, data: word, w: Width): Machine
  {
    if !w.Aligned(address) || InRom(address) then m.Complain(strict)
    else
      var device := Route(m, address);
      if device.Some? && Writable(device.value.id) then
        m.(dev := m.dev.Write(device.value.id, address - device.value.base, w.Truncate(data), w.Bytes()),
           exec := if device.value.id == Power then HALT else m.exec)
      else if InRam(address) then
        m.(ram := Overwrite(m.ram, address - RAM_BASE, Split(w.Truncate(data), w.Bytes())))
      else m.Complain(strict)
  }

  lemma DeviceValueFits(d: DeviceStates, id: DeviceId, offset: word, w: Width)
    ensures w.Truncate(d.Value(id, offset, w.Bytes())) == d.Value(id, offset, w.Bytes())
  {
  }

  /** Every load returns a value of its width, also from a device and after a fault: LBU and LHU,
      which do not mask, write a zero extended byte or half word. */
  lemma LoadFits(m: Machine, strict: bool, address: word, w: Width)
    ensures Read(m, strict, address, w).value < Pow2(8 * w.Bytes())
    ensures w.Truncate(Read(m, strict, address, w).value) == Read(m, strict, address, w).value
  {
    hide Find, DeviceStates.Value, BigEndian;
    WidthPowers(w);
    Pow2Values();
    var device := Route(m, address);
    if device.Some? && w.Aligned(address) && Readable(device.value.id) {
      DeviceValueFits(m.dev, device.value.id, address - device.value.base, w);
    }
  }

  // The branches of an access, one at a time

  lemma ReadCases(m: Machine, strict: bool, address: word, w: Width)
    ensures !w.Aligned(address) ==> Read(m, strict, address, w) == Loaded(0, m.Complain(strict))
    ensures w.Aligned(address) ==>
      var device, loaded := Route(m, address), Read(m, strict, address, w);
      if device.Some? && Readable(device.value.id) then
        var offset := address - device.value.base;
        loaded == Loaded(m.dev.Value(device.value.id, offset, w.Bytes()), m.(dev := m.dev.Read(device.value.id, offset, w.Bytes())))
      else if InRom(address) then
        address + w.Bytes() <= ROM_SIZE && loaded == Loaded(Compose(m.rom[address..address + w.Bytes()], w), m)
      else if InRam(address) then
        var start := address - RAM_BASE;
        start + w.Bytes() <= RAM_SIZE && loaded == Loaded(Compose(m.ram[start..start + w.Bytes()], w), m)
      else loaded == Loaded(0, m.Complain(strict))
  {
    hide Find, BigEndian, Readable, DeviceStates.Value, DeviceStates.Read;
  }

  lemma WriteCases(m: Machine, strict: bool, address: word, data: word, w: Width)
    ensures !w.Aligned(address) || InRom(address) ==> Write(m, strict, address, data, w) == m.Complain(strict)
    ensures w.Aligned(address) && !InRom(address) ==>
      var device, r := Route(m, address), Write(m, strict, address, data, w);
      if device.Some? && Writable(device.value.id) then
        r == m.(dev := m.dev.Write(device.value.id, address - device.value.base, w.Truncate(data), w.Bytes()),
                exec := if device.value.id == Power then HALT else m.exec)
      else if InRam(address) then
        var start := address - RAM_BASE;
        start + w.Bytes() <= RAM_SIZE && r == m.(ram := Overwrite(m.ram, start, Split(w.Truncate(data), w.Bytes())))
      else r == m.Complain(strict)
  {
    hide Find, Split, Writable, DeviceStates.Write;
  }

  // ---- Which accesses are valid

  predicate Supports(address: word, handler: DeviceId -> bool)
  {
    exists d :: d in DEVICE_MAP && d.Contains(address) && handler(d.id)
  }

  predicate LoadOk(address: word, w: Width)
  {
    w.Aligned(address) && (InRom(address) || InRam(address) || Supports(address, Readable))
  }

  predicate StoreOk(address: word, w: Width)
  {
    w.Aligned(address) && (InRam(address) || Supports(address, Writable))
  }

  lemma SupportsIsRoute(m: Machine, address: word, handler: DeviceId -> bool)
    requires Installed(m.devices)
    ensures Supports(address, handler) <==> Route(m, address).Some? && handler(Route(m, address).value.id)
  {
    if d :| d in DEVICE_MAP && d.Contains(address) {
      RoutingUnique(m.devices, d, address);
      forall x | x in DEVICE_MAP && x.Contains(address) ensures x == d { RoutingUnique(m.devices, x, address); }
    } else {
      assert forall d :: d in m.devices ==> d in multiset(DEVICE_MAP);
    }
  }

  /** An access is reported exactly when it is invalid; an invalid one touches neither memory nor devices. */
  lemma AccessFaults(m: Machine, strict: bool, address: word, data: word, w: Width)
    requires Installed(m.devices)
    ensures !LoadOk(address, w) ==> Read(m, strict, address, w) == Loaded(0, m.Complain(strict))
    ensures LoadOk(address, w) ==> Read(m, strict, address, w).m.exec == m.exec
    ensures !StoreOk(address, w) ==> Write(m, strict, address, data, w) == m.Complain(strict)
    ensures StoreOk(address, w) ==> Write(m, strict, address, data, w).exec == m.exec || Write(m, strict, address, data, w).exec == HALT
  {
    SupportsIsRoute(m, address, Readable);
    SupportsIsRoute(m, address, Writable);
  }

  /** Inside the range of the Timer an aligned access never faults: only a word store at offset 0 and
      the reads of the period and of the status do anything, all others are ignored and read 0. */
  lemma TimerIgnoresOthers(m: Machine, strict: bool, address: word, data: word, w: Width)
    requires Installed(m.devices) && w.Aligned(address) && DEVICE_MAP[5].Contains(address)
    ensures var offset := address - DEVICE_MAP[5].base;
      !(offset == 0 && w == W32) ==> Write(m, strict, address, data, w) == m
    ensures var offset := address - DEVICE_MAP[5].base;
      !(offset == 0 && w == W32) && !m.dev.timer.IsAck(offset, w.Bytes()) ==> Read(m, strict, address, w) == Loaded(0, m)
  {
    hide Find, BigEndian, Split;
    RoutingUnique(m.devices, DEVICE_MAP[5], address);
  }

  // ---- Memory as one map from addresses to bytes

  function ByteAt(m: Machine, address: int): Option<byte>
  {
    if InRom(address) then Some(m.rom[address])
    else if InRam(address) then Some(m.ram[address - RAM_BASE])
    else None
  }

  /** `n` consecutive bytes of the map. */
  function BytesAt(m: Machine, address: int, n: nat): seq<byte>
    requires forall a :: address <= a < address + n ==> ByteAt(m, a).Some?
  {
    seq<byte>(n, k requires 0 <= k < n => ByteAt(m, address + k).value)
  }

  /** An aligned access that starts in a memory region ends in it. */
  lemma NoCrossing(m: Machine, address: word, w: Width)
    requires w.Aligned(address) && ByteAt(m, address).Some?
    ensures address + w.Bytes() <= WORD
    ensures forall a :: address <= a < address + w.Bytes() ==> (InRom(a) <==> InRom(address)) && (InRam(a) <==> InRam(address))
    ensures forall a :: address <= a < address + w.Bytes() ==> ByteAt(m, a).Some?
  {
  }

  /** A load of any width is the big-endian value of the bytes it covers, and changes nothing. */
  lemma LoadIsBytes(m: Machine, strict: bool, address: word, w: Width)
    requires w.Aligned(address) && ByteAt(m, address).Some?
    ensures forall a :: address <= a < address + w.Bytes() ==> ByteAt(m, a).Some?
    ensures Read(m, strict, address, w) == Loaded(Compose(BytesAt(m, address, w.Bytes()), w), m)
  {
    hide BigEndian, Find;
    NoCrossing(m, address, w);
    ReadCases(m, strict, address, w);
    hide Read;
    var n := w.Bytes();
    var bytes := BytesAt(m, address, n);
    if InRom(address) {
      assert bytes == m.rom[address..address + n];
    } else {
      assert bytes == m.ram[address - RAM_BASE..address - RAM_BASE + n];
    }
  }

  /** A store of any width replaces the bytes it covers by the bytes of its datum, and nothing else. */
  lemma StoreIsBytes(m: Machine, strict: bool, address: word, data: word, w: Width)
    requires w.Aligned(address) && InRam(address)
    ensures var r := Write(m, strict, address, data, w);
      && r == m.(ram := r.ram)
      && forall a: int :: ByteAt(r, a) ==
           if address <= a < address + w.Bytes() then Some(Split(w.Truncate(data), w.Bytes())[a - address]) else ByteAt(m, a)
  {
  }

  /** A half word or word store is the sequence of its byte stores, most significant byte first. */
  lemma StoreSplits(m: Machine, strict: bool, address: word, data: word, w: Width)
    requires w.Aligned(address) && InRam(address)
    ensures Write(m, strict, address, data, w) == WriteBytes(m, strict, address, Split(w.Truncate(data), w.Bytes()))
  {
    var bytes := Split(w.Truncate(data), w.Bytes());
    WriteBytesIsOverwrite(m, strict, address, bytes);
  }

  function WriteBytes(m: Machine, strict: bool, address: word, bytes: seq<byte>): Machine
    requires InRam(address) && InRam(address + |bytes| - 1)
    decreases |bytes|
  {
    if bytes == [] then m
    else
      var next := Write(m, strict, address, bytes[0], W8);
      if |bytes| == 1 then next else WriteBytes(next, strict, address + 1, bytes[1..])
  }

  lemma WriteByte(m: Machine, strict: bool, address: word, b: byte)
    requires InRam(address)
    ensures Write(m, strict, address, b, W8) == m.(ram := m.ram[address - RAM_BASE := b])
  {
    assert Split(b, 1) == [b];
    assert Overwrite(m.ram, address - RAM_BASE, [b]) == m.ram[address - RAM_BASE := b];
  }

  lemma OverwriteFirst(ram: Ram, start: nat, bytes: seq<byte>)
    requires bytes != [] && start + |bytes| <= RAM_SIZE
    ensures Overwrite(ram[start := bytes[0]], start + 1, bytes[1..]) == Overwrite(ram, start, bytes)
    ensures |bytes| == 1 ==> Overwrite(ram, start, bytes) == ram[start := bytes[0]]
  {
  }

  lemma {:induction false} WriteBytesIsOverwrite(m: Machine, strict: bool, address: word, bytes: seq<byte>)
    requires bytes != [] && InRam(address) && InRam(address + |bytes| - 1)
    ensures WriteBytes(m, strict, address, bytes) == m.(ram := Overwrite(m.ram, address - RAM_BASE, bytes))
    decreases |bytes|
  {
    hide Write, Overwrite;
    WriteByte(m, strict, address, bytes[0]);
    OverwriteFirst(m.ram, address - RAM_BASE, bytes);
    if |bytes| > 1 {
      WriteBytesIsOverwrite(m.(ram := m.ram[address - RAM_BASE := bytes[0]]), strict, address + 1, bytes[1..]);
    }
  }

  // ---- Histories of accesses

  datatype Access = LoadAt(address: word, w: Width) | StoreAt(address: word, data: word, w: Width) {
    /** The access is a store that puts a byte at this address of RAM. */
    predicate Puts(a: int) { StoreAt? && w.Aligned(address) && InRam(address) && address <= a < address + w.Bytes() }

    function Apply(m: Machine, strict: bool): Machine
    {
      if LoadAt? then Read(m, strict, address, w).m else Write(m, strict, address, data, w)
    }
  }

  function Replay(m: Machine, strict: bool, history: seq<Access>): Machine
  {
    if history == [] then m
    else history[|history| - 1].Apply(Replay(m, strict, history[..|history| - 1]), strict)
  }

  /** The byte the latest store to the address put there. */
  function Latest(history: seq<Access>, a: int): Option<byte>
  {
    if history == [] then None
    else
      var x := history[|history| - 1];
      if x.Puts(a) then Some(Split(x.w.Truncate(x.data), x.w.Bytes())[a - x.address])
      else Latest(history[..|history| - 1], a)
  }

  /** Loads, faulting accesses and device accesses change no byte. */
  lemma OthersKeepBytes(m: Machine, strict: bool, x: Access, a: int)
    requires !x.Puts(a)
    ensures ByteAt(x.Apply(m, strict), a) == ByteAt(m, a)
  {
    hide BigEndian, Find;
    if x.StoreAt? && x.w.Aligned(x.address) && InRam(x.address) { StoreIsBytes(m, strict, x.address, x.data, x.w); }
  }

  /** After any accesses, valid or not, of any widths and to any addresses, every byte
      holds what the latest store to it put there, or its first value if there is none. */
  lemma {:induction false} LatestByte(m: Machine, strict: bool, history: seq<Access>, a: int)
    ensures ByteAt(Replay(m, strict, history), a) == if Latest(history, a).Some? then Latest(history, a) else ByteAt(m, a)
    decreases |history|
  {
    if history != [] {
      var before, x := Replay(m, strict, history[..|history| - 1]), history[|history| - 1];
      LatestByte(m, strict, history[..|history| - 1], a);
      if x.Puts(a) {
        StoreIsBytes(before, strict, x.address, x.data, x.w);
      } else {
        OthersKeepBytes(before, strict, x, a);
      }
    }
  }

  /** Hence a load of any width, after any accesses, is the big-endian value of the latest bytes. */
  lemma LoadLatest(m: Machine, strict: bool, history: seq<Access>, address: word, w: Width)
    requires w.Aligned(address) && ByteAt(m, address).Some?
    ensures forall a :: address <= a < address + w.Bytes() ==> ByteAt(m, a).Some?
    ensures var r := Replay(m, strict, history);
      Read(r, strict, address, w) == Loaded(Compose(LatestBytes(m, history, address, w.Bytes()), w), r)
  {
    hide Read, Replay, Latest, ByteAt, BytesAt, LatestBytes;
    var r := Replay(m, strict, history);
    NoCrossing(m, address, w);
    forall a | address <= a < address + w.Bytes()
      ensures ByteAt(r, a) == if Latest(history, a).Some? then Latest(history, a) else ByteAt(m, a)
    {
      LatestByte(m, strict, history, a);
    }
    LoadIsBytes(r, strict, address, w);
    SameBytes(m, r, history, address, w.Bytes());
  }

  lemma SameBytes(m: Machine, r: Machine, history: seq<Access>, address: int, n: nat)
    requires forall a :: address <= a < address + n ==> ByteAt(m, a).Some?
    requires forall a :: address <= a < address + n ==>
      ByteAt(r, a) == if Latest(history, a).Some? then Latest(history, a) else ByteAt(m, a)
    ensures forall a :: address <= a < address + n ==> ByteAt(r, a).Some?
    ensures BytesAt(r, address, n) == LatestBytes(m, history, address, n)
  {
    hide Latest, ByteAt;
    var found, latest := BytesAt(r, address, n), LatestBytes(m, history, address, n);
    forall k | 0 <= k < n ensures found[k] == latest[k] {
      assert found[k] == ByteAt(r, address + k).value;
      assert latest[k] == LatestOrFirst(m, history, address + k);
    }
  }

  function LatestOrFirst(m: Machine, history: seq<Access>, a: int): byte
    requires ByteAt(m, a).Some?
  {
    if Latest(history, a).Some? then Latest(history, a).value else ByteAt(m, a).value
  }

  function LatestBytes(m: Machine, history: seq<Access>, address: int, n: nat): (r: seq<byte>)
    requires forall a :: address <= a < address + n ==> ByteAt(m, a).Some?
    ensures |r| == n
  {
    seq<byte>(n, k requires 0 <= k < n => LatestOrFirst(m, history, address + k))
  }
}
