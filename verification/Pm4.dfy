/**
 * The PM4 command processor (varianta/runtime/kernel.cpp:1396-1440, 1544-1655, 2107-2151): packets, their
 * effects, the recursive walk over nested indirect buffers, and the flattened form of a stream.
 */
module Pm4 {
  import opened Words

  /** The big-endian 32-bit load at every guest byte address. */
  type Mem = int -> u32

  /** Word i of a packet stream. */
  type Stream = int -> u32

  /** What guest memory holds while the packet at stream position i runs. */
  type MemAt = int -> Mem

  /** The words from a guest address on. */
  function View(m: Mem, addr: int): Stream {
    i => m(addr + 4 * i)
  }

  function Always(m: Mem): MemAt {
    _ => m
  }

  // ---- what packets do ---------------------------------------------------------------------------

  datatype Effect =
    | RegWrite(index: nat, value: u32)
    | Fence(address: nat, value: u32)
    | CounterFence(address: nat)
    | Interrupt(cpu: nat)
    | Draw
    | Swap

  /** Register file, fence memory, swap counter, draw count and delivered interrupts. */
  datatype Machine = Machine(
    regs: map<nat, u32>, fences: map<nat, u32>, counter: u32, draws: nat, callback: bool, interrupts: seq<nat>)

  function Reg(s: Machine, index: nat): u32 {
    if index in s.regs then s.regs[index] else 0
  }

  function Apply(s: Machine, e: Effect): Machine {
    match e
    case RegWrite(index, value) => s.(regs := s.regs[index := value])
    case Fence(address, value) => s.(fences := s.fences[address := value])
    case CounterFence(address) => s.(fences := s.fences[address := s.counter])
    case Interrupt(cpu) => if s.callback then s.(interrupts := s.interrupts + [cpu]) else s
    case Draw => s.(draws := s.draws + 1)
    case Swap => s.(counter := Inc(s.counter))
  }

  function Replay(s: Machine, log: seq<Effect>): Machine {
    if log == [] then s else Apply(Replay(s, log[..|log| - 1]), log[|log| - 1])
  }

  lemma {:induction false} ReplayConcat(s: Machine, a: seq<Effect>, b: seq<Effect>)
    ensures Replay(s, a + b) == Replay(Replay(s, a), b)
  {
    if b == [] {
      assert a + b == a;
    } else {
      ReplayConcat(s, a, b[..|b| - 1]);
      assert (a + b)[..|a + b| - 1] == a + b[..|b| - 1];
    }
  }

  // ---- packet headers ----------------------------------------------------------------------------

  const EVENT_INITIATOR: nat := 0x21F9

  function Kind(p: u32): nat { p / 0x4000_0000 }
  function Count(p: u32): nat { p / 0x1_0000 % 0x4000 + 1 }
  function Opcode(p: u32): nat { p / 0x100 % 0x80 }
  function BaseIndex(p: u32): nat { p % 0x8000 }
  predicate OneRegister(p: u32) { p / 0x8000 % 2 == 1 }
  function LowIndex(p: u32): nat { p % 0x800 }
  function HighIndex(p: u32): nat { p / 0x800 % 0x800 }

  predicate IsIndirect(p: u32) {
    Kind(p) == 3 && (Opcode(p) == 0x3F || Opcode(p) == 0x37)
  }

  /** Words the walk steps over after the header. */
  function BodyLen(p: u32): nat {
    if p == 0 || Kind(p) == 2 then 0 else if Kind(p) == 1 then 2 else Count(p)
  }

  /** Words after the header that the packet's handler reads. */
  function Operands(p: u32): nat {
    if Kind(p) != 3 then BodyLen(p)
    else if Opcode(p) == 0x3F || Opcode(p) == 0x37 then 2
    else if Opcode(p) == 0x54 || Opcode(p) == 0x46 || Opcode(p) == 0x5A then 1
    else if Opcode(p) == 0x58 then 3
    else if Opcode(p) == 0x2D || Opcode(p) == 0x55 then Count(p)
    else 0
  }

  /** 0xA0000000 | (p & 0x1FFFFFFF). */
  function TranslatePhys(p: u32): u32 {
    0xA000_0000 + p % 0x2000_0000
  }

  // ---- the walk ----------------------------------------------------------------------------------

  /** Values of n words from `at` on, to one register or to consecutive ones. */
  function Run(src: Stream, at: int, n: nat, index: nat, one: bool): (r: seq<Effect>)
    ensures |r| == n
  {
    seq(n, i requires 0 <= i < n => RegWrite(if one then index else index + i, src(at + i)))
  }

  /** One interrupt per set bit of the mask below bit n, lowest first. */
  function Interrupts(mask: u32, n: nat): seq<Effect> {
    if n == 0 then []
    else Interrupts(mask, n - 1) + if Shr(mask, n - 1) % 2 == 1 then [Interrupt(n - 1)] else []
  }

  /** The bank that SET_CONSTANT's type selects. */
  function Bank(ty: nat): int {
    if ty == 0 then 0x4000 else if ty == 1 then 0x4800 else if ty == 2 then 0x4900
    else if ty == 3 then 0x4908 else if ty == 4 then 0x2000 else -1
  }

  /** SET_CONSTANT: `word` selects the bank and the first register in it. */
  function SetConstant(word: u32, src: Stream, at: int, n: nat): seq<Effect> {
    var bank := Bank(word / 0x1_0000 % 0x100);
    if bank < 0 then [] else Run(src, at, n, bank + word % 0x800, false)
  }

  /** EVENT_WRITE_SHD: the event, then a fence in memory; the low bits of the address are an endian mode. */
  function FenceEvent(initiator: u32, address: u32, value: u32): seq<Effect> {
    var fence := TranslatePhys(address - address % 4);
    [RegWrite(EVENT_INITIATOR, initiator % 0x40),
     if initiator / 0x8000_0000 == 1 then CounterFence(fence) else Fence(fence, value)]
  }

  /** A type-3 packet other than an indirect buffer; d0, d1, d2 are its first data words, `at` is the first's place. */
  function Type3(op: nat, count: nat, d0: u32, d1: u32, d2: u32, src: Stream, at: int): seq<Effect>
    requires count > 0
  {
    if op == 0x54 then Interrupts(d0, 6)
    else if op == 0x58 then FenceEvent(d0, d1, d2)
    else if op == 0x46 || op == 0x5A then [RegWrite(EVENT_INITIATOR, d0 % 0x40)]
    else if op == 0x2D then SetConstant(d0, src, at + 1, count - 1)
    else if op == 0x55 then Run(src, at + 1, count - 1, d0 % 0x1_0000, false)
    else if op == 0x22 || op == 0x36 then [Draw]
    else if op == 0x64 then [Swap]
    else []
  }

  /** A packet other than an indirect buffer, in a buffer that ends at `end`. */
  function Plain(src: Stream, pos: int, end: int): seq<Effect>
    requires pos < end
  {
    var p := src(pos);
    if p == 0 || Kind(p) == 2 then []
    else if Kind(p) == 0 then
      Run(src, pos + 1, if Count(p) <= end - pos - 1 then Count(p) else end - pos - 1, BaseIndex(p), OneRegister(p))
    else if Kind(p) == 1 then [RegWrite(LowIndex(p), src(pos + 1)), RegWrite(HighIndex(p), src(pos + 2))]
    else Type3(Opcode(p), Count(p), src(pos + 1), src(pos + 2), src(pos + 3), src, pos + 1)
  }

  /** Where the next packet is; only a type-0 packet is clipped at the end of its buffer. */
  function Next(src: Stream, pos: int, end: int): (n: int)
    requires pos < end
    ensures n > pos
  {
    var p := src(pos);
    if Kind(p) == 0 && pos + 1 + BodyLen(p) > end then end else pos + 1 + BodyLen(p)
  }

  /** The buffer that an indirect packet at `pos` names, and its length in words. */
  function Target(src: Stream, mem: MemAt, pos: int): Stream {
    View(mem(pos), TranslatePhys(src(pos + 1)))
  }

  function TargetLen(src: Stream, pos: int): nat {
    src(pos + 2) % 0x10_0000
  }

  /**
   * Everything that walking [pos, end) does, in order. `fuel` is 9 minus the nesting depth: buffers nested
   * deeper than 8 do nothing. The measure (fuel, words left) decreases for every stream, also for one
   * whose indirect buffers point at themselves.
   */
  function Walk(src: Stream, mem: MemAt, pos: int, end: int, fuel: nat): seq<Effect>
    decreases fuel, if pos < end then end - pos else 0
  {
    if fuel == 0 || pos >= end then []
    else Packet(src, mem, pos, end, fuel) + Walk(src, mem, Next(src, pos, end), end, fuel)
  }

  function Packet(src: Stream, mem: MemAt, pos: int, end: int, fuel: nat): seq<Effect>
    requires fuel > 0 && pos < end
    decreases fuel, 0
  {
    if IsIndirect(src(pos)) then
      Walk(Target(src, mem, pos), Always(mem(pos)), 0, TargetLen(src, pos), fuel - 1)
    else Plain(src, pos, end)
  }

  // ---- buffers made of whole packets -------------------------------------------------------------

  /** The packet at `pos` reads and steps over words below `end` only. */
  predicate Whole(src: Stream, pos: int, end: int) {
    pos + 1 + BodyLen(src(pos)) <= end && pos + 1 + Operands(src(pos)) <= end
  }

  /** [pos, end) holds whole packets that fill it exactly. */
  predicate Lands(src: Stream, pos: int, end: int)
    decreases if pos < end then end - pos else 0
  {
    if pos < end then Whole(src, pos, end) && Lands(src, pos + 1 + BodyLen(src(pos)), end) else pos == end
  }

  /** A boundary between packets may be crossed in two walks instead of one. */
  lemma {:induction false} WalkSplit(src: Stream, mem: MemAt, pos: int, mid: int, end: int, fuel: nat)
    requires Lands(src, pos, mid) && mid <= end
    ensures Walk(src, mem, pos, end, fuel) == Walk(src, mem, pos, mid, fuel) + Walk(src, mem, mid, end, fuel)
    decreases if pos < mid then mid - pos else 0
  {
    if fuel > 0 && pos < mid {
      WalkSplit(src, mem, Next(src, pos, mid), mid, end, fuel);
    }
  }

  /** Two packets that read the same words do the same. */
  lemma SamePlain(src: Stream, src': Stream, pos: int, end: int, d: int)
    requires pos < end && Whole(src, pos, end) && !IsIndirect(src(pos))
    requires forall i :: pos <= i < end ==> src(i) == src'(i + d)
    ensures Plain(src, pos, end) == Plain(src', pos + d, end + d)
  {
    var p := src(pos);
    assert src'(pos + d) == p;
    assert Operands(p) >= 1 ==> src'(pos + 1 + d) == src(pos + 1);
    assert Operands(p) >= 2 ==> src'(pos + 2 + d) == src(pos + 2);
    assert Operands(p) >= 3 ==> src'(pos + 3 + d) == src(pos + 3);
  }

  /** A buffer of whole packets may be moved: only the words inside it matter. */
  lemma {:induction false} WalkMoved(src: Stream, mem: MemAt, src': Stream, mem': MemAt, pos: int, end: int, d: int, fuel: nat)
    requires Lands(src, pos, end)
    requires forall i :: pos <= i < end ==> src(i) == src'(i + d)
    requires forall i :: pos <= i < end ==> mem(i) == mem'(i + d)
    ensures Lands(src', pos + d, end + d)
    ensures Walk(src, mem, pos, end, fuel) == Walk(src', mem', pos + d, end + d, fuel)
    decreases if pos < end then end - pos else 0
  {
    if pos < end {
      assert src'(pos + d) == src(pos);
      WalkMoved(src, mem, src', mem', pos + 1 + BodyLen(src(pos)), end, d, fuel);
      if fuel > 0 { PacketMoved(src, mem, src', mem', pos, end, d, fuel); }
    }
  }

  lemma PacketMoved(src: Stream, mem: MemAt, src': Stream, mem': MemAt, pos: int, end: int, d: int, fuel: nat)
    requires pos < end && Whole(src, pos, end) && fuel > 0 && mem(pos) == mem'(pos + d)
    requires forall i :: pos <= i < end ==> src(i) == src'(i + d)
    ensures Packet(src, mem, pos, end, fuel) == Packet(src', mem', pos + d, end + d, fuel)
  {
    assert src'(pos + d) == src(pos);
    if IsIndirect(src(pos)) {
      assert src'(pos + 1 + d) == src(pos + 1) && src'(pos + 2 + d) == src(pos + 2);
    } else {
      SamePlain(src, src', pos, end, d);
    }
  }

  // ---- flattening --------------------------------------------------------------------------------

  /** Words [a, b) of a stream. */
  function Slice(src: Stream, a: int, b: int): (r: seq<u32>)
    requires a <= b
    ensures |r| == b - a
  {
    seq(b - a, i requires 0 <= i < b - a => src(a + i))
  }

  /** The stream with every indirect buffer put in the place of the packet that calls it. */
  function Flat(src: Stream, mem: MemAt, pos: int, end: int, fuel: nat): seq<u32>
    decreases fuel, if pos < end then end - pos else 0
  {
    if fuel == 0 || pos >= end then []
    else FlatFirst(src, mem, pos, end, fuel) + Flat(src, mem, Next(src, pos, end), end, fuel)
  }

  /** What stands for the packet at `pos`. */
  function FlatFirst(src: Stream, mem: MemAt, pos: int, end: int, fuel: nat): seq<u32>
    requires fuel > 0 && pos < end
    decreases fuel, 0
  {
    if IsIndirect(src(pos)) then
      Flat(Target(src, mem, pos), Always(mem(pos)), 0, TargetLen(src, pos), fuel - 1)
    else Slice(src, pos, Next(src, pos, end))
  }

  /** The buffer and all buffers it calls, `fuel` levels deep, are made of whole packets, which carry the operands that
      their handlers read; the packets that call a buffer only need to end inside theirs. */
  predicate Tidy(src: Stream, mem: MemAt, pos: int, end: int, fuel: nat)
    decreases fuel, if pos < end then end - pos else 0
  {
    fuel == 0 ||
    if pos < end then
      pos + 1 + BodyLen(src(pos)) <= end
      && (if IsIndirect(src(pos)) then Tidy(Target(src, mem, pos), Always(mem(pos)), 0, TargetLen(src, pos), fuel - 1)
          else Operands(src(pos)) <= BodyLen(src(pos)))
      && Tidy(src, mem, pos + 1 + BodyLen(src(pos)), end, fuel)
    else pos == end
  }

  /** No buffer called from [pos, end) is nested more than `fuel` - 1 deep. */
  predicate Shallow(src: Stream, mem: MemAt, pos: int, end: int, fuel: nat)
    decreases fuel, if pos < end then end - pos else 0
  {
    pos >= end ||
    (fuel > 0
     && (IsIndirect(src(pos)) ==>
           Shallow(Target(src, mem, pos), Always(mem(pos)), 0, TargetLen(src, pos), fuel - 1))
     && Shallow(src, mem, Next(src, pos, end), end, fuel))
  }

  /** Within the limit the limit does not matter. */
  lemma {:induction false} DeepEnough(src: Stream, mem: MemAt, pos: int, end: int, fuel: nat, more: nat)
    requires Shallow(src, mem, pos, end, fuel) && fuel <= more
    ensures Walk(src, mem, pos, end, more) == Walk(src, mem, pos, end, fuel)
    ensures Flat(src, mem, pos, end, more) == Flat(src, mem, pos, end, fuel)
    decreases fuel, if pos < end then end - pos else 0
  {
    if pos < end {
      if IsIndirect(src(pos)) {
        DeepEnough(Target(src, mem, pos), Always(mem(pos)), 0, TargetLen(src, pos), fuel - 1, more - 1);
      }
      DeepEnough(src, mem, Next(src, pos, end), end, fuel, more);
    }
  }

  /** One buffer of whole packets after another. */
  lemma {:induction false} LandsConcat(src: Stream, pos: int, mid: int, end: int)
    requires Lands(src, pos, mid) && Lands(src, mid, end)
    ensures Lands(src, pos, end)
    decreases if pos < mid then mid - pos else 0
  {
    if pos < mid { LandsConcat(src, pos + 1 + BodyLen(src(pos)), mid, end); }
  }

  /** The words of `s` stand at `at` in a stream. */
  ghost predicate Stands(s: seq<u32>, src: Stream, at: int) {
    forall i :: 0 <= i < |s| ==> src(at + i) == s[i]
  }

  lemma StandsSplit(a: seq<u32>, b: seq<u32>, src: Stream, at: int)
    requires Stands(a + b, src, at)
    ensures Stands(a, src, at) && Stands(b, src, at + |a|)
  {
    forall i | 0 <= i < |a| ensures src(at + i) == a[i] { assert (a + b)[i] == a[i]; }
    forall i | 0 <= i < |b| ensures src(at + |a| + i) == b[i] { assert (a + b)[|a| + i] == b[i]; }
  }

  lemma Glue(src: Stream, mem: MemAt, pos: int, mid: int, end: int, fuel: nat, x: seq<Effect>, y: seq<Effect>)
    requires Lands(src, pos, mid) && Walk(src, mem, pos, mid, fuel) == x && pos <= mid <= end
    requires Lands(src, mid, end) && Walk(src, mem, mid, end, fuel) == y
    ensures Lands(src, pos, end) && Walk(src, mem, pos, end, fuel) == x + y
  {
    LandsConcat(src, pos, mid, end);
    WalkSplit(src, mem, pos, mid, end, fuel);
  }

  /** One whole packet, copied to another stream. */
  lemma CopiedPacket(src: Stream, mem: MemAt, pos: int, end: int, to: Stream, at: int, m: Mem, g: nat, fuel: nat)
    requires pos < end && Whole(src, pos, end) && Operands(src(pos)) <= BodyLen(src(pos))
    requires !IsIndirect(src(pos)) && g > 0 && fuel > 0
    requires Stands(Slice(src, pos, Next(src, pos, end)), to, at)
    ensures var n := at + 1 + BodyLen(src(pos));
            Lands(to, at, n) && Walk(to, Always(m), at, n, g) == Packet(src, mem, pos, end, fuel)
  {
    var n := pos + 1 + BodyLen(src(pos));
    var s := Slice(src, pos, n);
    forall i | pos <= i < n ensures src(i) == to(i + (at - pos)) {
      assert to(at + (i - pos)) == s[i - pos];
    }
    SamePlain(src, to, pos, n, at - pos);
    assert to(pos + (at - pos)) == src(pos);
    assert Plain(src, pos, n) == Plain(src, pos, end);
  }

  /**
   * A flattened stream has exactly the effects of the nested one, in the same order, wherever it stands;
   * it holds whole packets only. There is no bound on nesting: what the depth limit cuts off is cut off on
   * both sides.
   */
  lemma {:induction false} FlatRunsTheSame(
    src: Stream, mem: MemAt, pos: int, end: int, fuel: nat, to: Stream, at: int, m: Mem, g: nat)
    requires Tidy(src, mem, pos, end, fuel) && g > 0
    requires Stands(Flat(src, mem, pos, end, fuel), to, at)
    ensures var n := at + |Flat(src, mem, pos, end, fuel)|;
            Lands(to, at, n) && Walk(to, Always(m), at, n, g) == Walk(src, mem, pos, end, fuel)
    decreases fuel, if pos < end then end - pos else 0
  {
    if fuel > 0 && pos < end {
      var a, b := FlatFirst(src, mem, pos, end, fuel), Flat(src, mem, Next(src, pos, end), end, fuel);
      StandsSplit(a, b, to, at);
      FirstPart(src, mem, pos, end, fuel, to, at, m, g);
      FlatRunsTheSame(src, mem, Next(src, pos, end), end, fuel, to, at + |a|, m, g);
      Glue(to, Always(m), at, at + |a|, at + |a| + |b|, g,
           Packet(src, mem, pos, end, fuel), Walk(src, mem, Next(src, pos, end), end, fuel));
    }
  }

  /** The first packet of FlatRunsTheSame, or the buffer that it calls. */
  lemma {:induction false} FirstPart(
    src: Stream, mem: MemAt, pos: int, end: int, fuel: nat, to: Stream, at: int, m: Mem, g: nat)
    requires Tidy(src, mem, pos, end, fuel) && g > 0 && fuel > 0 && pos < end
    requires Stands(FlatFirst(src, mem, pos, end, fuel), to, at)
    ensures var mid := at + |FlatFirst(src, mem, pos, end, fuel)|;
            Lands(to, at, mid) && Walk(to, Always(m), at, mid, g) == Packet(src, mem, pos, end, fuel)
    decreases fuel, 0
  {
    if IsIndirect(src(pos)) {
      FlatRunsTheSame(Target(src, mem, pos), Always(mem(pos)), 0, TargetLen(src, pos), fuel - 1, to, at, m, g);
    } else {
      CopiedPacket(src, mem, pos, end, to, at, m, g, fuel);
    }
  }

  /** A buffer of two packets: a swap, and a call of the buffer itself. */
  predicate CallsItself(m: Mem, addr: u32, dwords: nat) {
    m(addr) == 0xC000_6400 && m(addr + 8) == 0xC001_3F00
    && TranslatePhys(m(addr + 12)) == addr && m(addr + 16) % 0x10_0000 == dwords == 5
  }

  /** Such a buffer swaps once per level of nesting that is left, and stops: nine times from the ring. */
  lemma {:induction false} SelfCall(m: Mem, addr: u32, dwords: nat, fuel: nat)
    requires CallsItself(m, addr, dwords)
    ensures Walk(View(m, addr), Always(m), 0, dwords, fuel) == seq(fuel, _ => Swap)
  {
    if fuel > 0 {
      SelfCall(m, addr, dwords, fuel - 1);
      SelfStep(m, addr, dwords, fuel);
      Times(fuel);
    }
  }

  lemma SelfStep(m: Mem, addr: u32, dwords: nat, fuel: nat)
    requires CallsItself(m, addr, dwords) && fuel > 0
    ensures Walk(View(m, addr), Always(m), 0, dwords, fuel)
         == [Swap] + Walk(View(m, addr), Always(m), 0, dwords, fuel - 1)
  {
    var src, two := View(m, addr), dwords - 3;
    Headers();
    assert src(0) == m(addr);
    SwapPacket(src, Always(m), 0, dwords, fuel);
    SelfCalled(m, addr, dwords, fuel, two);
  }

  lemma Headers()
    ensures IsSwap(0xC000_6400) && IsIndirect(0xC001_3F00) && BodyLen(0xC001_3F00) == 2
  {
  }

  lemma SelfCalled(m: Mem, addr: u32, dwords: nat, fuel: nat, two: int)
    requires CallsItself(m, addr, dwords) && fuel > 0 && two == 2
    ensures Walk(View(m, addr), Always(m), two, dwords, fuel) == Walk(View(m, addr), Always(m), 0, dwords, fuel - 1)
  {
    var src := View(m, addr);
    Headers();
    assert src(two) == m(addr + 8) && src(two + 1) == m(addr + 12) && src(two + 2) == m(addr + 16);
    CallPacket(src, Always(m), two, dwords, fuel);
    assert TargetLen(src, two) == dwords && Target(src, Always(m), two) == src;
  }

  lemma Times(n: nat)
    requires n > 0
    ensures [Swap] + seq(n - 1, _ => Swap) == seq(n, _ => Swap)
  {
  }

  lemma SwapPacket(src: Stream, mem: MemAt, pos: int, end: int, fuel: nat)
    requires IsSwap(src(pos)) && pos + 2 <= end && fuel > 0
    ensures Walk(src, mem, pos, end, fuel) == [Swap] + Walk(src, mem, pos + 2, end, fuel)
  {
    assert Packet(src, mem, pos, end, fuel) == Type3(0x64, 1, src(pos + 1), src(pos + 2), src(pos + 3), src, pos + 1);
  }

  predicate IsSwap(p: u32) {
    p != 0 && Kind(p) == 3 && Opcode(p) == 0x64 && Count(p) == 1
  }

  lemma CallPacket(src: Stream, mem: MemAt, pos: int, end: int, fuel: nat)
    requires IsIndirect(src(pos)) && BodyLen(src(pos)) == 2 && pos + 3 <= end && fuel > 0
    ensures Walk(src, mem, pos, end, fuel)
         == Walk(Target(src, mem, pos), Always(mem(pos)), 0, TargetLen(src, pos), fuel - 1)
            + Walk(src, mem, pos + 3, end, fuel)
  {
  }
}
