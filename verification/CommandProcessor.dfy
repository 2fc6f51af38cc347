/**
 * The command processor as the emulator runs it, changing the register file and memory packet by packet
 * (varianta/runtime/kernel.cpp:1439-1440, 1544-1670, 2095-2163).
 */
module CommandProcessor {
  import opened Words
  import opened Pm4

  /** Bytes that a packet at the end of a buffer may step past it. */
  const SLACK: nat := 0x1_0008

  /** Levels of nesting left at a depth. */
  function Fuel(depth: nat): nat {
    if depth > 8 then 0 else 9 - depth
  }

  /** The words of `src` from `at` on are those of memory from `addr` on. */
  ghost predicate Located(src: Stream, at: int, m: Mem, addr: int) {
    forall i: int {:trigger src(i)} :: src(i) == m(addr + 4 * (i - at))
  }

  lemma LocatedView(m: Mem, start: int, at: int, addr: int)
    requires addr == start + 4 * at
    ensures Located(View(m, start), at, m, addr)
  {
    forall i ensures View(m, start)(i) == m(addr + 4 * (i - at)) {
      assert start + 4 * i == addr + 4 * (i - at);
    }
  }

  lemma LocatedNext(src: Stream, at: int, m: Mem, addr: int)
    requires Located(src, at, m, addr)
    ensures Located(src, at + 1, m, addr + 4)
  {
    forall i ensures src(i) == m(addr + 4 + 4 * (i - (at + 1))) {
      assert src(i) == m(addr + 4 * (i - at));
    }
  }

  lemma RunStep(done: seq<Effect>, src: Stream, at: int, n: nat, index: nat, one: bool)
    ensures done + Run(src, at, n + 1, index, one)
         == done + Run(src, at, n, index, one) + [RegWrite(if one then index else index + n, src(at + n))]
  {
    assert Run(src, at, n + 1, index, one)
        == Run(src, at, n, index, one) + [RegWrite(if one then index else index + n, src(at + n))];
  }

  lemma ReplayOne(s: Machine, log: seq<Effect>, e: Effect)
    ensures Replay(s, log + [e]) == Apply(Replay(s, log), e)
  {
    assert (log + [e])[..|log|] == log;
  }

  /** The walk is one packet further; `done` is what was done before. */
  lemma WalkStep(done: seq<Effect>, src: Stream, mem: MemAt, pos: int, end: int, fuel: nat)
    requires pos < end && fuel > 0
    ensures done + Walk(src, mem, pos, end, fuel)
         == done + Packet(src, mem, pos, end, fuel) + Walk(src, mem, Next(src, pos, end), end, fuel)
  {
    Assoc(done, Packet(src, mem, pos, end, fuel), Walk(src, mem, Next(src, pos, end), end, fuel));
  }

  /** What a type-3 packet does; `addr` is its first data word. */
  function Type3At(m: Mem, addr: int, op: nat, count: nat, fuel: nat, src: Stream, at: int): seq<Effect>
    requires count > 0 && fuel > 0
  {
    if op == 0x3F || op == 0x37 then
      Walk(View(m, TranslatePhys(m(addr))), Always(m), 0, m(addr + 4) % 0x10_0000, fuel - 1)
    else Type3(op, count, m(addr), m(addr + 4), m(addr + 8), src, at)
  }

  /** The header and the data words of the packet at `at`. */
  lemma WordsAt(m: Mem, start: int, pos: int, at: int)
    requires at == start + 4 * pos
    ensures var src := View(m, start);
            src(pos) == m(at) && src(pos + 1) == m(at + 4) && src(pos + 2) == m(at + 8) && src(pos + 3) == m(at + 12)
  {
    assert start + 4 * (pos + 1) == at + 4 && start + 4 * (pos + 2) == at + 8 && start + 4 * (pos + 3) == at + 12;
  }

  /** The log and the address after the packet at `pos` of the buffer at `start`. */
  ghost predicate Stepped(before: seq<Effect>, after: seq<Effect>, m: Mem, start: int, pos: int, dwords: int, fuel: nat, addr: int)
    requires pos < dwords && fuel > 0
  {
    after == before + Packet(View(m, start), Always(m), pos, dwords, fuel)
    && addr == start + 4 * Next(View(m, start), pos, dwords)
  }

  lemma SkipStepped(log: seq<Effect>, m: Mem, start: int, pos: int, dwords: int, fuel: nat, at: int)
    requires 0 <= pos < dwords && fuel > 0 && at == start + 4 * pos && (m(at) == 0 || Kind(m(at)) == 2)
    ensures Stepped(log, log, m, start, pos, dwords, fuel, at + 4)
  {
    WordsAt(m, start, pos, at);
  }

  lemma Type0Stepped(before: seq<Effect>, after: seq<Effect>, m: Mem, start: int, pos: int, dwords: int, fuel: nat, at: int, n: nat)
    requires 0 <= pos < dwords && fuel > 0 && at == start + 4 * pos && m(at) != 0 && Kind(m(at)) == 0
    requires n == if Count(m(at)) <= dwords - pos - 1 then Count(m(at)) else dwords - pos - 1
    requires after == before + Run(View(m, start), pos + 1, n, BaseIndex(m(at)), OneRegister(m(at)))
    ensures Stepped(before, after, m, start, pos, dwords, fuel, at + 4 + 4 * n)
  {
    WordsAt(m, start, pos, at);
  }

  lemma Type1Stepped(before: seq<Effect>, after: seq<Effect>, m: Mem, start: int, pos: int, dwords: int, fuel: nat, at: int)
    requires 0 <= pos < dwords && fuel > 0 && at == start + 4 * pos && m(at) != 0 && Kind(m(at)) == 1
    requires after == before + [RegWrite(LowIndex(m(at)), m(at + 4)), RegWrite(HighIndex(m(at)), m(at + 8))]
    ensures Stepped(before, after, m, start, pos, dwords, fuel, at + 12)
  {
    WordsAt(m, start, pos, at);
  }

  lemma Type3Stepped(before: seq<Effect>, after: seq<Effect>, m: Mem, start: int, pos: int, dwords: int, fuel: nat, at: int)
    requires 0 <= pos < dwords && fuel > 0 && at == start + 4 * pos && m(at) != 0 && Kind(m(at)) == 3
    requires after == before + Type3At(m, at + 4, Opcode(m(at)), Count(m(at)), fuel, View(m, start), pos + 1)
    ensures Stepped(before, after, m, start, pos, dwords, fuel, at + 4 + 4 * Count(m(at)))
  {
    WordsAt(m, start, pos, at);
  }

  class Gpu {
    var regs: map<nat, u32>
    var fences: map<nat, u32>
    var counter: u32
    var draws: nat
    var callback: bool
    var interrupts: seq<nat>
    /** The state at power-up and everything done since. */
    ghost const boot: Machine
    ghost var log: seq<Effect>

    function State(): Machine
      reads this
    {
      Machine(regs, fences, counter, draws, callback, interrupts)
    }

    ghost predicate Valid()
      reads this
    {
      State() == Replay(boot, log)
    }

    constructor (callback: bool)
      ensures Valid() && log == [] && boot == Machine(map[], map[], 0, 0, callback, [])
    {
      regs, fences, counter, draws, interrupts := map[], map[], 0, 0, [];
      this.callback := callback;
      boot, log := Machine(map[], map[], 0, 0, callback, []), [];
    }

    method Perform(e: Effect)
      requires Valid()
      modifies this
      ensures Valid() && log == old(log) + [e] && State() == Apply(old(State()), e)
    {
      ReplayOne(boot, log, e);
      Change(e);
      log := log + [e];
    }

    /** The state changes by one effect. */
    method Change(e: Effect)
      modifies this`regs, this`fences, this`counter, this`draws, this`interrupts
      ensures State() == Apply(old(State()), e)
    {
      match e {
        case RegWrite(index, value) => regs := regs[index := value];
        case Fence(address, value) => fences := fences[address := value];
        case CounterFence(address) => fences := fences[address := counter];
        case Interrupt(cpu) => if callback { interrupts := interrupts + [cpu]; }
        case Draw => draws := draws + 1;
        case Swap => counter := Inc(counter);
      }
    }

    /** Writes n consecutive registers from the words at `addr`. */
    method WriteRun(m: Mem, addr: nat, n: nat, index: nat, ghost start: int, ghost at: int)
      requires Valid() && addr == start + 4 * at
      modifies this
      ensures Valid() && log == old(log) + Run(View(m, start), at, n, index, false)
    {
      var i := 0;
      while i < n
        invariant i <= n
        invariant Valid() && log == old(log) + Run(View(m, start), at, i, index, false)
      {
        RunStep(old(log), View(m, start), at, i, index, false);
        Perform(RegWrite(index + i, m(addr + 4 * i)));
        i := i + 1;
      }
    }

    method LoadConstants(word: u32, m: Mem, addr: nat, n: nat, ghost start: int, ghost at: int)
      requires Valid() && addr == start + 4 * at
      modifies this
      ensures Valid() && log == old(log) + SetConstant(word, View(m, start), at, n)
    {
      var index, bank := word % 0x800, Bank(word / 0x1_0000 % 0x100);
      if bank >= 0 {
        WriteRun(m, addr, n, bank + index, start, at);
      }
    }

    method FireInterrupts(mask: u32)
      requires Valid()
      modifies this
      ensures Valid() && log == old(log) + Interrupts(mask, 6)
    {
      var n := 0;
      while n < 6
        invariant n <= 6
        invariant Valid() && log == old(log) + Interrupts(mask, n)
      {
        if Shr(mask, n) % 2 == 1 {
          Perform(Interrupt(n));
        }
        n := n + 1;
      }
    }

    method EventWriteShd(initiator: u32, address: u32, value: u32)
      requires Valid()
      modifies this
      ensures Valid() && log == old(log) + FenceEvent(initiator, address, value)
    {
      Perform(RegWrite(EVENT_INITIATOR, initiator % 0x40));
      var fence := TranslatePhys(address - address % 4);
      var isCounter := initiator / 0x8000_0000 == 1;
      Perform(if isCounter then CounterFence(fence) else Fence(fence, value));
    }

    /** A type-3 packet other than an indirect buffer; the words d0, d1, d2 are those from `addr` on. */
    method ExecuteCommand(op: nat, count: nat, d0: u32, d1: u32, d2: u32, m: Mem, addr: nat, ghost start: int, ghost at: int)
      requires Valid() && count > 0 && addr == start + 4 * at
      modifies this
      ensures Valid() && log == old(log) + Type3(op, count, d0, d1, d2, View(m, start), at)
    {
      if op == 0x54 {
        FireInterrupts(d0);
      } else if op == 0x58 {
        EventWriteShd(d0, d1, d2);
      } else if op == 0x46 || op == 0x5A {
        Perform(RegWrite(EVENT_INITIATOR, d0 % 0x40));
      } else if op == 0x2D {
        LoadConstants(d0, m, addr + 4, count - 1, start, at + 1);
      } else if op == 0x55 {
        WriteRun(m, addr + 4, count - 1, d0 % 0x1_0000, start, at + 1);
      } else if op == 0x22 || op == 0x36 {
        Perform(Draw);
      } else if op == 0x64 {
        Perform(Swap);
      }
    }

    /** `addr` is the first data word. */
    method ExecuteType3(m: Mem, addr: nat, op: nat, count: nat, depth: nat, ghost start: int, ghost at: int)
      requires Valid() && count > 0 && depth <= 8 && addr == start + 4 * at
      modifies this
      ensures Valid() && log == old(log) + Type3At(m, addr, op, count, Fuel(depth), View(m, start), at)
      decreases Fuel(depth), 0
    {
      if op == 0x3F || op == 0x37 {
        ExecutePM4(m, TranslatePhys(m(addr)), m(addr + 4) % 0x10_0000, depth + 1);
      } else {
        ExecuteCommand(op, count, m(addr), m(addr + 4), m(addr + 8), m, addr, start, at);
      }
    }

    /** A type-0 packet of which n words are inside the buffer; `first` is its first data word. */
    method ExecuteType0(m: Mem, first: u32, end: u32, packet: u32, ghost n: nat, ghost src: Stream, ghost at: int)
      returns (addr: u32)
      requires Valid() && Located(src, at, m, first)
      requires n <= Count(packet) && first + 4 * n <= end && (n < Count(packet) ==> end < first + 4 * n + 4)
      modifies this
      ensures Valid() && addr == first + 4 * n
      ensures log == old(log) + Run(src, at, n, BaseIndex(packet), OneRegister(packet))
    {
      var count, base, one := Count(packet), BaseIndex(packet), OneRegister(packet);
      var k := 0;
      addr := first;
      while k < count && addr + 4 <= end
        invariant k <= n && addr == first + 4 * k
        invariant Valid() && log == old(log) + Run(src, at, k, base, one)
        decreases count - k
      {
        RunStep(old(log), src, at, k, base, one);
        var value := m(addr);
        assert value == src(at + k);
        Perform(RegWrite(if one then base else base + k, value));
        k, addr := k + 1, addr + 4;
      }
    }

    method ExecuteType1(m: Mem, addr: u32, packet: u32)
      requires Valid() && addr + 4 < TWO32
      modifies this
      ensures Valid()
      ensures log == old(log) + [RegWrite(LowIndex(packet), m(addr)), RegWrite(HighIndex(packet), m(addr + 4))]
    {
      Perform(RegWrite(LowIndex(packet), m(addr)));
      Perform(RegWrite(HighIndex(packet), m(addr + 4)));
    }

    /** A type-0 packet of the buffer of `dwords` words at `start`; returns where the next one is. */
    method Packet0(m: Mem, at: u32, end: u32, ghost depth: nat, ghost start: int, ghost pos: int, ghost dwords: int)
      returns (addr: u32)
      requires Valid() && depth <= 8 && 0 <= pos < dwords && m(at) != 0 && Kind(m(at)) == 0
      requires at == start + 4 * pos && end == start + 4 * dwords && end + SLACK < TWO32
      modifies this
      ensures Valid() && addr <= end + SLACK - 8 && Stepped(old(log), log, m, start, pos, dwords, Fuel(depth), addr)
    {
      var packet := m(at);
      ghost var n := if Count(packet) <= dwords - pos - 1 then Count(packet) else dwords - pos - 1;
      LocatedView(m, start, pos + 1, at + 4);
      addr := ExecuteType0(m, at + 4, end, packet, n, View(m, start), pos + 1);
      Type0Stepped(old(log), log, m, start, pos, dwords, Fuel(depth), at, n);
    }

    method Packet1(m: Mem, at: u32, ghost depth: nat, ghost start: int, ghost pos: int, ghost dwords: int) returns (addr: u32)
      requires Valid() && depth <= 8 && 0 <= pos < dwords && m(at) != 0 && Kind(m(at)) == 1
      requires at == start + 4 * pos && at + 12 < TWO32
      modifies this
      ensures Valid() && addr == at + 12 && Stepped(old(log), log, m, start, pos, dwords, Fuel(depth), addr)
    {
      ExecuteType1(m, at + 4, m(at));
      addr := at + 12;
      Type1Stepped(old(log), log, m, start, pos, dwords, Fuel(depth), at);
    }

    method Packet3(m: Mem, at: u32, depth: nat, ghost start: int, ghost pos: int, ghost dwords: int) returns (addr: u32)
      requires Valid() && depth <= 8 && 0 <= pos < dwords && m(at) != 0 && Kind(m(at)) == 3
      requires at == start + 4 * pos && at + SLACK < TWO32
      modifies this
      ensures Valid() && addr <= at + SLACK - 4 && Stepped(old(log), log, m, start, pos, dwords, Fuel(depth), addr)
      decreases Fuel(depth), 1
    {
      var op, count := Opcode(m(at)), Count(m(at));
      ExecuteType3(m, at + 4, op, count, depth, start, pos + 1);
      addr := at + 4 + count * 4;
      Type3Stepped(old(log), log, m, start, pos, dwords, Fuel(depth), at);
    }

    /** One packet of the buffer of `dwords` words at `start`; returns where the next one is. */
    method ExecutePacket(m: Mem, at: u32, end: u32, depth: nat, ghost start: int, ghost pos: int, ghost dwords: int)
      returns (addr: u32)
      requires Valid() && depth <= 8 && 0 <= pos < dwords
      requires at == start + 4 * pos && end == start + 4 * dwords && end + SLACK < TWO32
      modifies this
      ensures Valid() && addr <= end + SLACK - 8 && Stepped(old(log), log, m, start, pos, dwords, Fuel(depth), addr)
      ensures State() == Replay(old(State()), Packet(View(m, start), Always(m), pos, dwords, Fuel(depth)))
      decreases Fuel(depth), 2
    {
      var packet := m(at);
      var kind := Kind(packet);
      if packet == 0 || kind == 2 {
        addr := at + 4;
        SkipStepped(log, m, start, pos, dwords, Fuel(depth), at);
      } else if kind == 0 {
        addr := Packet0(m, at, end, depth, start, pos, dwords);
      } else if kind == 1 {
        addr := Packet1(m, at, depth, start, pos, dwords);
      } else {
        addr := Packet3(m, at, depth, start, pos, dwords);
      }
      ReplayConcat(boot, old(log), Packet(View(m, start), Always(m), pos, dwords, Fuel(depth)));
    }

    /** Walks `dwords` words at `start`; the address arithmetic never leaves 32 bits. */
    method ExecutePM4(m: Mem, start: u32, dwords: nat, depth: nat)
      requires Valid() && depth <= 9 && start + 4 * dwords + SLACK < TWO32
      modifies this
      ensures Valid() && log == old(log) + Walk(View(m, start), Always(m), 0, dwords, Fuel(depth))
      ensures State() == Replay(old(State()), Walk(View(m, start), Always(m), 0, dwords, Fuel(depth)))
      decreases Fuel(depth), 3, 0
    {
      ReplayConcat(boot, log, Walk(View(m, start), Always(m), 0, dwords, Fuel(depth)));
      if depth > 8 { return; }
      var addr: u32 := start;
      var end: u32 := addr + dwords * 4;
      ghost var src, mem, pos, fuel, done := View(m, start), Always(m), 0, Fuel(depth), [];
      while addr + 4 <= end
        invariant Valid() && addr == start + 4 * pos && 0 <= pos && addr <= end + SLACK - 8
        invariant log == old(log) + done
        invariant done + Walk(src, mem, pos, dwords, fuel) == Walk(src, mem, 0, dwords, fuel)
        decreases Fuel(depth), 3, if addr <= end then end - addr else 0
      {
        WalkStep(done, src, mem, pos, dwords, fuel);
        addr := ExecutePacket(m, addr, end, depth, start, pos, dwords);
        Assoc(old(log), done, Packet(src, mem, pos, dwords, fuel));
        done := done + Packet(src, mem, pos, dwords, fuel);
        pos := Next(src, pos, dwords);
      }
    }
  }
}
