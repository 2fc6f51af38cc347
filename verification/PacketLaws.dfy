/**
 * What each packet does to the machine, told from its words alone (varianta/runtime/kernel.cpp:1577-1653, 2107-2151).
 */
module PacketLaws {
  import opened Words
  import opened Pm4
  import opened CommandProcessor
  import Pump

  /** The machine after the packet at `pos`. */
  function After(s: Machine, src: Stream, mem: MemAt, pos: int, end: int, fuel: nat): Machine
    requires pos < end && fuel > 0
  {
    Replay(s, Packet(src, mem, pos, end, fuel))
  }

  /** A type-3 packet with an opcode. */
  predicate IsOp(p: u32, op: nat) {
    p >= 0xC000_0000 && p / 0x100 % 0x80 == op
  }

  /** The data words of a type-0 or type-3 packet. */
  function DataWords(p: u32): nat {
    p / 0x1_0000 % 0x4000 + 1
  }

  /** The n registers from `first` on hold the words from `at` on, and nothing else changed. */
  ghost predicate Wrote(s: Machine, s': Machine, first: nat, n: nat, src: Stream, at: int) {
    && s' == s.(regs := s'.regs)
    && forall r: nat {:trigger r in s'.regs} ::
         if first <= r < first + n then r in s'.regs && s'.regs[r] == src(at + (r - first))
         else (r in s'.regs <==> r in s.regs) && (r in s.regs ==> s'.regs[r] == s.regs[r])
  }

  lemma One(s: Machine, e: Effect)
    ensures Replay(s, [e]) == Apply(s, e)
  {
    assert [e][..0] == [] && Replay(s, []) == s;
  }

  lemma Two(s: Machine, e: Effect, f: Effect)
    ensures Replay(s, [e, f]) == Apply(Apply(s, e), f)
  {
    assert [e, f][..1] == [e];
    One(s, e);
  }

  lemma {:induction false} RunWrote(s: Machine, src: Stream, at: int, n: nat, first: nat)
    ensures Wrote(s, Replay(s, Run(src, at, n, first, false)), first, n, src, at)
  {
    if n > 0 {
      var all := Run(src, at, n, first, false);
      assert all[..n - 1] == Run(src, at, n - 1, first, false);
      RunWrote(s, src, at, n - 1, first);
      assert all[n - 1] == RegWrite(first + (n - 1), src(at + (n - 1)));
    }
  }

  /** The n words go to one register: the last one stays. */
  lemma RunOfOne(s: Machine, src: Stream, at: int, n: nat, index: nat)
    requires n > 0
    ensures Replay(s, Run(src, at, n, index, true)) == s.(regs := s.regs[index := src(at + n - 1)])
  {
    var all := Run(src, at, n, index, true);
    assert all[..n - 1] == Run(src, at, n - 1, index, true);
    if n > 1 { RunOfOne(s, src, at, n - 1, index); }
  }

  // ---- type 3 ------------------------------------------------------------------------------------

  /** EVENT_WRITE_SHD with words i, a, v: the event register, and the fence with v or the swap counter. */
  lemma FenceLaw(s: Machine, src: Stream, mem: MemAt, pos: int, end: int, fuel: nat)
    requires pos < end && fuel > 0 && IsOp(src(pos), 0x58)
    ensures var i, a, v := src(pos + 1), src(pos + 2), src(pos + 3);
            After(s, src, mem, pos, end, fuel)
            == s.(regs := s.regs[0x21F9 := i % 64],
                  fences := s.fences[0xA000_0000 + (a - a % 4) % 0x2000_0000 := if i < 0x8000_0000 then v else s.counter])
  {
    var i, a, v := src(pos + 1), src(pos + 2), src(pos + 3);
    var log := Packet(src, mem, pos, end, fuel);
    assert log == FenceEvent(i, a, v);
    Two(s, log[0], log[1]);
    assert log == [log[0], log[1]];
  }

  /** EVENT_WRITE and EVENT_WRITE_EXT. */
  lemma EventLaw(s: Machine, src: Stream, mem: MemAt, pos: int, end: int, fuel: nat)
    requires pos < end && fuel > 0 && (IsOp(src(pos), 0x46) || IsOp(src(pos), 0x5A))
    ensures After(s, src, mem, pos, end, fuel) == s.(regs := s.regs[0x21F9 := src(pos + 1) % 64])
  {
    One(s, RegWrite(0x21F9, src(pos + 1) % 64));
  }

  function Cpu(mask: u32, unit: nat, cpu: nat): seq<nat>
    requires unit > 0
  {
    if mask / unit % 2 == 1 then [cpu] else []
  }

  /** INTERRUPT: with a callback, the CPUs of the mask's six low bits, lowest first. */
  lemma InterruptLaw(s: Machine, src: Stream, mem: MemAt, pos: int, end: int, fuel: nat)
    requires pos < end && fuel > 0 && IsOp(src(pos), 0x54)
    ensures After(s, src, mem, pos, end, fuel) == if s.callback then Interrupted(s, SixCpus(src(pos + 1))) else s
  {
    SixFired(s, src(pos + 1));
  }

  function Interrupted(s: Machine, cpus: seq<nat>): Machine {
    s.(interrupts := s.interrupts + cpus)
  }

  function SixCpus(w: u32): seq<nat> {
    [] + Cpu(w, 1, 0) + Cpu(w, 2, 1) + Cpu(w, 4, 2) + Cpu(w, 8, 3) + Cpu(w, 16, 4) + Cpu(w, 32, 5)
  }

  lemma SixFired(s: Machine, w: u32)
    ensures Replay(s, Interrupts(w, 6)) == if s.callback then Interrupted(s, SixCpus(w)) else s
  {
    Units();
    var c := ThreeFired(s, w, 0, 1, 2, 4, []);
    c := ThreeFired(s, w, 3, 8, 16, 32, c);
  }

  lemma Units()
    ensures Pow2(0) == 1 && Pow2(1) == 2 && Pow2(2) == 4 && Pow2(3) == 8 && Pow2(4) == 16 && Pow2(5) == 32
  {
  }

  lemma ThreeFired(s: Machine, w: u32, n: nat, a: nat, b: nat, c: nat, done: seq<nat>) returns (more: seq<nat>)
    requires Pow2(n) == a && Pow2(n + 1) == b && Pow2(n + 2) == c
    requires Replay(s, Interrupts(w, n)) == if s.callback then Interrupted(s, done) else s
    ensures more == done + Cpu(w, a, n) + Cpu(w, b, n + 1) + Cpu(w, c, n + 2)
    ensures Replay(s, Interrupts(w, n + 3)) == if s.callback then Interrupted(s, more) else s
  {
    more := Fired(s, w, n, a, done);
    more := Fired(s, w, n + 1, b, more);
    more := Fired(s, w, n + 2, c, more);
  }

  /** One more bit of the mask. */
  lemma Fired(s: Machine, w: u32, n: nat, unit: nat, done: seq<nat>) returns (more: seq<nat>)
    requires Pow2(n) == unit && Replay(s, Interrupts(w, n)) == if s.callback then Interrupted(s, done) else s
    ensures more == done + Cpu(w, unit, n)
    ensures Replay(s, Interrupts(w, n + 1)) == if s.callback then Interrupted(s, more) else s
  {
    more := done + Cpu(w, unit, n);
    var log := Interrupts(w, n);
    ShrIs(w, n);
    if w / unit % 2 == 1 {
      ReplayOne(s, log, Interrupt(n));
      Assoc(s.interrupts, done, [n]);
    } else {
      assert log + [] == log && more == done;
    }
  }

  lemma {:induction false} ShrIs(a: nat, k: nat)
    ensures Shr(a, k) == a / Pow2(k)
  {
    if k > 0 {
      ShrIs(a / 2, k - 1);
      Halving(a, Pow2(k - 1));
    }
  }

  /** The bank of SET_CONSTANT's type. */
  function BankBase(w: u32): Option<nat> {
    var t := w / 0x1_0000 % 0x100;
    if t == 0 then Some(0x4000) else if t == 1 then Some(0x4800) else if t == 2 then Some(0x4900)
    else if t == 3 then Some(0x4908) else if t == 4 then Some(0x2000) else None
  }

  /** SET_CONSTANT: the words after the first go to the registers from the bank's base plus its low 11 bits on. */
  lemma SetConstantLaw(s: Machine, src: Stream, mem: MemAt, pos: int, end: int, fuel: nat)
    requires pos < end && fuel > 0 && IsOp(src(pos), 0x2D)
    ensures var w, s' := src(pos + 1), After(s, src, mem, pos, end, fuel);
            if BankBase(w).None? then s' == s
            else Wrote(s, s', BankBase(w).value + w % 0x800, DataWords(src(pos)) - 1, src, pos + 2)
  {
    var w := src(pos + 1);
    if BankBase(w).Some? {
      RunWrote(s, src, pos + 2, DataWords(src(pos)) - 1, BankBase(w).value + w % 0x800);
    }
  }

  /** SET_CONSTANT2: the same from a register given by 16 bits. */
  lemma SetConstant2Law(s: Machine, src: Stream, mem: MemAt, pos: int, end: int, fuel: nat)
    requires pos < end && fuel > 0 && IsOp(src(pos), 0x55)
    ensures Wrote(s, After(s, src, mem, pos, end, fuel), src(pos + 1) % 0x1_0000, DataWords(src(pos)) - 1, src, pos + 2)
  {
    RunWrote(s, src, pos + 2, DataWords(src(pos)) - 1, src(pos + 1) % 0x1_0000);
  }

  /** DRAW_INDX and DRAW_INDX_2. */
  lemma DrawLaw(s: Machine, src: Stream, mem: MemAt, pos: int, end: int, fuel: nat)
    requires pos < end && fuel > 0 && (IsOp(src(pos), 0x22) || IsOp(src(pos), 0x36))
    ensures After(s, src, mem, pos, end, fuel) == s.(draws := s.draws + 1)
  {
    One(s, Draw);
  }

  /** XE_SWAP. */
  lemma SwapLaw(s: Machine, src: Stream, mem: MemAt, pos: int, end: int, fuel: nat)
    requires pos < end && fuel > 0 && IsOp(src(pos), 0x64)
    ensures After(s, src, mem, pos, end, fuel) == s.(counter := if s.counter == 0xFFFF_FFFF then 0 else s.counter + 1)
  {
    One(s, Swap);
  }

  /** All other opcodes, but the two that call a buffer, do nothing. */
  lemma OtherOpLaw(s: Machine, src: Stream, mem: MemAt, pos: int, end: int, fuel: nat)
    requires pos < end && fuel > 0 && src(pos) >= 0xC000_0000
    requires src(pos) / 0x100 % 0x80 !in {0x22, 0x2D, 0x36, 0x37, 0x3F, 0x46, 0x54, 0x55, 0x58, 0x5A, 0x64}
    ensures After(s, src, mem, pos, end, fuel) == s
  {
  }

  /** INDIRECT_BUFFER: the buffer of w1's low 20 bits of words at w0's physical address, one level deeper. */
  lemma CallLaw(src: Stream, mem: MemAt, pos: int, end: int, fuel: nat)
    requires pos < end && fuel > 0 && (IsOp(src(pos), 0x3F) || IsOp(src(pos), 0x37))
    ensures var m, at, n := mem(pos), 0xA000_0000 + src(pos + 1) % 0x2000_0000, src(pos + 2) % 0x10_0000;
            Packet(src, mem, pos, end, fuel) == Walk(View(m, at), Always(m), 0, n, fuel - 1)
  {
  }

  /** Word i of a buffer is the one 4 * i bytes after its start. */
  lemma ViewLaw(m: Mem, start: int, i: int)
    ensures View(m, start)(i) == m(start + 4 * i) && Always(m)(i) == m
  {
  }

  // ---- types 0, 1 and 2 --------------------------------------------------------------------------

  /** The words of a type-0 packet that are inside its buffer. */
  function Inside(p: u32, pos: int, end: int): nat
    requires pos < end
  {
    if DataWords(p) <= end - pos - 1 then DataWords(p) else end - pos - 1
  }

  /** Type 0: consecutive registers, or one register, which keeps the last word. */
  lemma Type0Law(s: Machine, src: Stream, mem: MemAt, pos: int, end: int, fuel: nat)
    requires pos < end && fuel > 0 && 0 < src(pos) < 0x4000_0000
    ensures var p, s' := src(pos), After(s, src, mem, pos, end, fuel);
            var n := Inside(p, pos, end);
            if p / 0x8000 % 2 == 0 then Wrote(s, s', p % 0x8000, n, src, pos + 1)
            else s' == if n == 0 then s else s.(regs := s.regs[p % 0x8000 := src(pos + n)])
  {
    var p := src(pos);
    var n := Inside(p, pos, end);
    if p / 0x8000 % 2 == 0 {
      RunWrote(s, src, pos + 1, n, p % 0x8000);
    } else if n > 0 {
      RunOfOne(s, src, pos + 1, n, p % 0x8000);
    }
  }

  /** Type 1: two registers, of 11 bits each. */
  lemma Type1Law(s: Machine, src: Stream, mem: MemAt, pos: int, end: int, fuel: nat)
    requires pos < end && fuel > 0 && 0x4000_0000 <= src(pos) < 0x8000_0000
    ensures var p := src(pos);
            After(s, src, mem, pos, end, fuel)
            == s.(regs := s.regs[p % 0x800 := src(pos + 1)][p / 0x800 % 0x800 := src(pos + 2)])
  {
    var p := src(pos);
    Two(s, RegWrite(p % 0x800, src(pos + 1)), RegWrite(p / 0x800 % 0x800, src(pos + 2)));
  }

  /** Type 2, and a word of 0. */
  lemma NothingLaw(s: Machine, src: Stream, mem: MemAt, pos: int, end: int, fuel: nat)
    requires pos < end && fuel > 0 && (src(pos) == 0 || 0x8000_0000 <= src(pos) < 0xC000_0000)
    ensures After(s, src, mem, pos, end, fuel) == s
  {
  }

  /** Where the next packet is. */
  lemma NextLaw(src: Stream, pos: int, end: int)
    requires pos < end
    ensures var p := src(pos);
            Next(src, pos, end)
            == if p == 0 || 0x8000_0000 <= p < 0xC000_0000 then pos + 1
               else if p >= 0xC000_0000 then pos + 1 + DataWords(p)
               else if p >= 0x4000_0000 then pos + 3
               else pos + 1 + Inside(p, pos, end)
  {
  }

  /** From the ring, a buffer that swaps and calls itself swaps nine times. */
  lemma NineLevels(s: Machine, m: Mem, base: int, addr: u32)
    requires base == addr && CallsItself(m, addr, 5) && s.counter == 0
    ensures Replay(s, Pump.RingEffects(Pump.Pm4Walker(), m, base, 5, 0, 5)) == s.(counter := 9)
  {
    Pump.SpanIsWalk(m, base, 0, 5, addr);
    SelfCall(m, addr, 5, 9);
    Swaps(s, 9);
  }

  lemma {:induction false} Swaps(s: Machine, n: nat)
    requires s.counter == 0 && n < 0x100
    ensures Replay(s, seq(n, _ => Swap)) == s.(counter := n)
  {
    if n > 0 {
      Swaps(s, n - 1);
      assert seq(n, _ => Swap) == seq(n - 1, _ => Swap) + [Swap];
      ReplayOne(s, seq(n - 1, _ => Swap), Swap);
    }
  }
}
