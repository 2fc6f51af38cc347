/**
 * The read-only walk of FrameBufDump, which shadows the ALU and fetch constants of recorded segments without
 * executing them (varianta/runtime/kernel.cpp:3691-3725), against the command processor.
 */
module FrameShadow {
  import opened Words
  import opened Pm4
  import opened CommandProcessor

  // ---- what the shadow keeps ---------------------------------------------------------------------

  /** ALU constants 0x4000-0x407F and fetch constants 0x4800-0x48FF. */
  predicate Shadowed(index: nat) {
    0x4000 <= index < 0x4080 || 0x4800 <= index < 0x4900
  }

  predicate Kept(e: Effect) {
    e.Draw? || (e.RegWrite? && Shadowed(e.index))
  }

  function Filter(log: seq<Effect>): seq<Effect> {
    if log == [] then []
    else
      var last := log[|log| - 1];
      Filter(log[..|log| - 1]) + if Kept(last) then [last] else []
  }

  /** n words for one register or for consecutive ones: the shadowed ones are kept. */
  function KeptRun(src: Stream, at: int, n: nat, index: nat, one: bool): seq<Effect> {
    if n == 0 then []
    else
      var r := if one then index else index + (n - 1);
      KeptRun(src, at, n - 1, index, one) + if Shadowed(r) then [RegWrite(r, src(at + (n - 1)))] else []
  }

  /** SET_CONSTANT in the walk: n words for bank positions `first` on, those below `limit` are kept. */
  function Recorded(src: Stream, at: int, n: nat, first: nat, limit: nat, bank: nat): seq<Effect> {
    if n == 0 then []
    else
      Recorded(src, at, n - 1, first, limit, bank)
      + if first + (n - 1) < limit then [RegWrite(bank + (first + (n - 1)), src(at + (n - 1)))] else []
  }

  function ShadowBank(ty: nat, src: Stream, at: int, n: nat, first: nat): seq<Effect> {
    if ty == 1 then Recorded(src, at, n, first, 256, 0x4800)
    else if ty == 0 then Recorded(src, at, n, first, 128, 0x4000)
    else []
  }

  function ShadowConstant(word: u32, src: Stream, at: int, n: nat): seq<Effect> {
    ShadowBank(word / 0x1_0000 % 0x100, src, at, n, word % 0x800)
  }

  /** What the walk records of the packet at `pos`; type-1 packets are stepped over. */
  function ShadowPacket(src: Stream, pos: int, end: int): seq<Effect>
    requires pos < end
  {
    var p := src(pos);
    if p == 0 || Kind(p) == 1 || Kind(p) == 2 then []
    else if Kind(p) == 0 then
      KeptRun(src, pos + 1, if Count(p) <= end - pos - 1 then Count(p) else end - pos - 1, BaseIndex(p), OneRegister(p))
    else ShadowType3(Opcode(p), Count(p), src(pos + 1), src, pos + 1)
  }

  function ShadowType3(op: nat, count: nat, d0: u32, src: Stream, at: int): seq<Effect>
    requires count > 0
  {
    if op == 0x2D then ShadowConstant(d0, src, at + 1, count - 1)
    else if op == 0x55 then KeptRun(src, at + 1, count - 1, d0 % 0x1_0000, false)
    else if op == 0x22 || op == 0x36 then [Draw]
    else []
  }

  function ShadowWalk(src: Stream, pos: int, end: int): seq<Effect>
    decreases if pos < end then end - pos else 0
  {
    if pos >= end then [] else ShadowPacket(src, pos, end) + ShadowWalk(src, Next(src, pos, end), end)
  }

  /** A SET_CONSTANT run of n words that does not run out of its bank into a shadowed one. */
  predicate InBank(word: u32, n: nat) {
    Inside(word / 0x1_0000 % 0x100, word % 0x800, n)
  }

  predicate Inside(ty: nat, first: nat, n: nat) {
    (ty == 0 ==> first + n <= 0x800) && (ty == 4 ==> first + n <= 0x2000)
  }

  predicate PacketInBank(src: Stream, pos: int) {
    var p := src(pos);
    p != 0 && Kind(p) == 3 && Opcode(p) == 0x2D ==> InBank(src(pos + 1), Count(p) - 1)
  }

  /** Every SET_CONSTANT of [pos, end) stays in its bank. */
  predicate AllInBank(src: Stream, pos: int, end: int)
    decreases if pos < end then end - pos else 0
  {
    pos < end ==> PacketInBank(src, pos) && AllInBank(src, Next(src, pos, end), end)
  }

  /** No packet of [pos, end) calls an indirect buffer. */
  predicate NoCalls(src: Stream, pos: int, end: int)
    decreases if pos < end then end - pos else 0
  {
    pos < end ==> !IsIndirect(src(pos)) && NoCalls(src, Next(src, pos, end), end)
  }

  // ---- runs --------------------------------------------------------------------------------------

  lemma FilterOne(log: seq<Effect>, e: Effect)
    ensures Filter(log + [e]) == Filter(log) + if Kept(e) then [e] else []
  {
    assert (log + [e])[..|log|] == log;
  }

  lemma {:induction false} FilterConcat(a: seq<Effect>, b: seq<Effect>)
    ensures Filter(a + b) == Filter(a) + Filter(b)
  {
    if b == [] {
      assert a + b == a;
    } else {
      var most, last := b[..|b| - 1], b[|b| - 1];
      FilterConcat(a, most);
      Assoc(a, most, [last]);
      assert b == most + [last];
      FilterOne(a + most, last);
      FilterOne(most, last);
      Assoc(Filter(a), Filter(most), if Kept(last) then [last] else []);
    }
  }

  /** One more word of a run. */
  lemma FilterRun(src: Stream, at: int, n: nat, index: nat, one: bool)
    requires n > 0
    ensures var r := RegWrite(if one then index else index + (n - 1), src(at + (n - 1)));
            Filter(Run(src, at, n, index, one)) == Filter(Run(src, at, n - 1, index, one)) + if Kept(r) then [r] else []
  {
    var r := RegWrite(if one then index else index + (n - 1), src(at + (n - 1)));
    assert Run(src, at, n, index, one) == Run(src, at, n - 1, index, one) + [r];
    FilterOne(Run(src, at, n - 1, index, one), r);
  }

  lemma {:induction false} KeptRunIsFilter(src: Stream, at: int, n: nat, index: nat, one: bool)
    ensures KeptRun(src, at, n, index, one) == Filter(Run(src, at, n, index, one))
  {
    if n > 0 {
      KeptRunIsFilter(src, at, n - 1, index, one);
      FilterRun(src, at, n, index, one);
    }
  }

  /** The ALU bank: equal inside the bank, something missed outside. */
  lemma {:induction false} AluRun(src: Stream, at: int, n: nat, first: nat)
    requires first < 0x800
    ensures var mine, all := Recorded(src, at, n, first, 128, 0x4000), Filter(Run(src, at, n, 0x4000 + first, false));
            if first + n <= 0x800 then mine == all else |mine| < |all|
  {
    if n > 0 {
      AluRun(src, at, n - 1, first);
      FilterRun(src, at, n, 0x4000 + first, false);
      var r := RegWrite(0x4000 + (first + (n - 1)), src(at + (n - 1)));
      assert Kept(r) <==> first + (n - 1) < 128 || 0x800 <= first + (n - 1) < 0x900;
    }
  }

  /** The fetch bank: positions from 0x100 on are in neither view. */
  lemma {:induction false} FetchRun(src: Stream, at: int, n: nat, first: nat)
    ensures Recorded(src, at, n, first, 256, 0x4800) == Filter(Run(src, at, n, 0x4800 + first, false))
  {
    if n > 0 {
      FetchRun(src, at, n - 1, first);
      FilterRun(src, at, n, 0x4800 + first, false);
    }
  }

  /** A bank that starts below the ALU constants is seen only where it runs into them. */
  lemma {:induction false} LowRun(src: Stream, at: int, n: nat, index: nat)
    requires index < 0x4000
    ensures Filter(Run(src, at, n, index, false)) == [] <==> index + n <= 0x4000
  {
    if n > 0 {
      LowRun(src, at, n - 1, index);
      FilterRun(src, at, n, index, false);
    }
  }

  /** A bank above the fetch constants is not seen. */
  lemma {:induction false} HighRun(src: Stream, at: int, n: nat, index: nat)
    requires index >= 0x4900
    ensures Filter(Run(src, at, n, index, false)) == []
  {
    if n > 0 {
      HighRun(src, at, n - 1, index);
      FilterRun(src, at, n, index, false);
    }
  }

  lemma {:induction false} InterruptsNotKept(mask: u32, n: nat)
    ensures Filter(Interrupts(mask, n)) == []
  {
    if n > 0 {
      InterruptsNotKept(mask, n - 1);
      assert Interrupts(mask, n - 1) + [] == Interrupts(mask, n - 1);
      FilterOne(Interrupts(mask, n - 1), Interrupt(n - 1));
    }
  }

  // ---- packets -----------------------------------------------------------------------------------

  /** `mine` misses nothing of `all`, and is all of it exactly when `complete`. */
  predicate Sees(mine: seq<Effect>, all: seq<Effect>, complete: bool) {
    if complete then mine == all else |mine| < |all|
  }

  lemma BankSeen(ty: nat, src: Stream, at: int, n: nat, first: nat)
    requires first < 0x800
    ensures var all := if Bank(ty) < 0 then [] else Run(src, at, n, Bank(ty) + first, false);
            Sees(ShadowBank(ty, src, at, n, first), Filter(all), Inside(ty, first, n))
  {
    if ty == 0 {
      AluRun(src, at, n, first);
    } else if ty == 1 {
      FetchRun(src, at, n, first);
    } else if ty == 4 {
      LowRun(src, at, n, 0x2000 + first);
    } else if ty == 2 || ty == 3 {
      HighRun(src, at, n, Bank(ty) + first);
    }
  }

  lemma ConstantSeen(word: u32, src: Stream, at: int, n: nat)
    ensures Sees(ShadowConstant(word, src, at, n), Filter(SetConstant(word, src, at, n)), InBank(word, n))
  {
    BankSeen(word / 0x1_0000 % 0x100, src, at, n, word % 0x800);
  }

  /** Short logs of writes that the shadow does not keep. */
  lemma NotKept(a: Effect, b: Effect)
    ensures Filter([]) == [] && Filter([a]) == if Kept(a) then [a] else []
    ensures !Kept(a) && !Kept(b) ==> Filter([a, b]) == []
  {
    FilterOne([], a);
    FilterOne([a], b);
    assert [a, b] == [a] + [b];
  }

  lemma Type3Seen(op: nat, count: nat, d0: u32, d1: u32, d2: u32, src: Stream, at: int)
    requires count > 0 && op != 0x2D && op != 0x55 && op != 0x3F && op != 0x37
    ensures Filter(Type3(op, count, d0, d1, d2, src, at)) == if op == 0x22 || op == 0x36 then [Draw] else []
  {
    if op == 0x54 {
      InterruptsNotKept(d0, 6);
    } else if op == 0x58 {
      NotKept(FenceEvent(d0, d1, d2)[0], FenceEvent(d0, d1, d2)[1]);
    } else if op == 0x46 || op == 0x5A {
      NotKept(RegWrite(EVENT_INITIATOR, d0 % 0x40), Swap);
    } else {
      NotKept(Draw, Swap);
      NotKept(Swap, Swap);
    }
  }

  lemma PacketSeen(src: Stream, pos: int, end: int)
    requires pos < end && !IsIndirect(src(pos))
    ensures Sees(ShadowPacket(src, pos, end), Filter(Plain(src, pos, end)), PacketInBank(src, pos))
  {
    var p := src(pos);
    if p == 0 || Kind(p) == 2 {
      NotKept(Draw, Draw);
    } else if Kind(p) == 1 {
      NotKept(RegWrite(LowIndex(p), src(pos + 1)), RegWrite(HighIndex(p), src(pos + 2)));
    } else if Kind(p) == 0 {
      var n := if Count(p) <= end - pos - 1 then Count(p) else end - pos - 1;
      KeptRunIsFilter(src, pos + 1, n, BaseIndex(p), OneRegister(p));
    } else {
      CommandSeen(Opcode(p), Count(p), src(pos + 1), src(pos + 2), src(pos + 3), src, pos + 1);
    }
  }

  lemma CommandSeen(op: nat, count: nat, d0: u32, d1: u32, d2: u32, src: Stream, at: int)
    requires count > 0 && op != 0x3F && op != 0x37
    ensures Sees(ShadowType3(op, count, d0, src, at), Filter(Type3(op, count, d0, d1, d2, src, at)),
                 op == 0x2D ==> InBank(d0, count - 1))
  {
    if op == 0x2D {
      ConstantSeen(d0, src, at + 1, count - 1);
    } else {
      OthersSeen(op, count, d0, d1, d2, src, at);
    }
  }

  lemma OthersSeen(op: nat, count: nat, d0: u32, d1: u32, d2: u32, src: Stream, at: int)
    requires count > 0 && op != 0x3F && op != 0x37 && op != 0x2D
    ensures ShadowType3(op, count, d0, src, at) == Filter(Type3(op, count, d0, d1, d2, src, at))
  {
    if op == 0x55 {
      KeptRunIsFilter(src, at + 1, count - 1, d0 % 0x1_0000, false);
    } else {
      Type3Seen(op, count, d0, d1, d2, src, at);
    }
  }

  lemma SeesBoth(a: seq<Effect>, a': seq<Effect>, x: bool, b: seq<Effect>, b': seq<Effect>, y: bool)
    requires Sees(a, a', x) && Sees(b, b', y)
    ensures Sees(a + b, a' + b', x && y)
  {
  }

  /**
   * Without indirect buffers the walk records every shadowed register write and every draw that the command
   * processor performs, in order, exactly when every SET_CONSTANT stays in its bank.
   */
  lemma {:induction false} WalkSeen(src: Stream, mem: MemAt, pos: int, end: int, fuel: nat)
    requires fuel > 0 && NoCalls(src, pos, end)
    ensures Sees(ShadowWalk(src, pos, end), Filter(Walk(src, mem, pos, end, fuel)), AllInBank(src, pos, end))
    decreases if pos < end then end - pos else 0
  {
    if pos < end {
      var next := Next(src, pos, end);
      PacketSeen(src, pos, end);
      WalkSeen(src, mem, next, end, fuel);
      FilterConcat(Plain(src, pos, end), Walk(src, mem, next, end, fuel));
      SeesBoth(ShadowPacket(src, pos, end), Filter(Plain(src, pos, end)), PacketInBank(src, pos),
               ShadowWalk(src, next, end), Filter(Walk(src, mem, next, end, fuel)), AllInBank(src, next, end));
    }
  }

  /** In particular the two logs are equal if and only if every SET_CONSTANT stays in its bank. */
  lemma ShadowIsExact(src: Stream, mem: MemAt, pos: int, end: int, fuel: nat)
    requires fuel > 0 && NoCalls(src, pos, end)
    ensures ShadowWalk(src, pos, end) == Filter(Walk(src, mem, pos, end, fuel)) <==> AllInBank(src, pos, end)
  {
    WalkSeen(src, mem, pos, end, fuel);
  }

  // ---- registers ---------------------------------------------------------------------------------

  /** The shadow starts from zeroes. */
  function Blank(): Machine {
    Machine(map[], map[], 0, 0, false, [])
  }

  /** What the shadow shows: some registers, and the draw count. */
  datatype Cell = Register(index: nat) | Draws

  predicate Shown(c: Cell) {
    c.Draws? || Shadowed(c.index)
  }

  function Observed(s: Machine, c: Cell): nat {
    if c.Draws? then s.draws else Reg(s, c.index)
  }

  /** The shadow cannot tell the machines apart. */
  ghost predicate ShowsSame(a: Machine, b: Machine) {
    forall c: Cell {:trigger Observed(a, c)} :: Shown(c) ==> Observed(a, c) == Observed(b, c)
  }

  /** What is filtered out changes nothing that the shadow shows. */
  lemma {:induction false} FilterKeeps(s: Machine, log: seq<Effect>)
    ensures ShowsSame(Replay(s, log), Replay(s, Filter(log)))
  {
    if log != [] {
      var most, last := log[..|log| - 1], log[|log| - 1];
      FilterKeeps(s, most);
      KeepsOne(Replay(s, most), Replay(s, Filter(most)), last);
      if Kept(last) {
        ReplayOne(s, Filter(most), last);
      } else {
        assert Filter(log) == Filter(most);
      }
    }
  }

  lemma KeepsOne(a: Machine, b: Machine, e: Effect)
    requires ShowsSame(a, b)
    ensures ShowsSame(Apply(a, e), if Kept(e) then Apply(b, e) else b)
  {
    var a', b' := Apply(a, e), if Kept(e) then Apply(b, e) else b;
    forall c: Cell {:trigger Observed(a', c)} | Shown(c) ensures Observed(a', c) == Observed(b', c) {
      assert Observed(a, c) == Observed(b, c);
    }
  }

  // ---- segments ----------------------------------------------------------------------------------

  datatype Segment = Segment(address: u32, dwords: nat)

  /** The command processor on the segments of a frame, one after another. */
  function ExecuteAll(m: Mem, segments: seq<Segment>): seq<Effect> {
    if segments == [] then []
    else
      var last := segments[|segments| - 1];
      ExecuteAll(m, segments[..|segments| - 1]) + Walk(View(m, last.address), Always(m), 0, last.dwords, 9)
  }

  function ShadowAll(m: Mem, segments: seq<Segment>): seq<Effect> {
    if segments == [] then []
    else
      var last := segments[|segments| - 1];
      ShadowAll(m, segments[..|segments| - 1]) + ShadowWalk(View(m, last.address), 0, last.dwords)
  }

  predicate Clean(m: Mem, s: Segment) {
    NoCalls(View(m, s.address), 0, s.dwords) && AllInBank(View(m, s.address), 0, s.dwords)
  }

  lemma {:induction false} AllSeen(m: Mem, segments: seq<Segment>)
    requires AllClean(m, segments)
    ensures ShadowAll(m, segments) == Filter(ExecuteAll(m, segments))
  {
    if segments != [] {
      var most, last := segments[..|segments| - 1], segments[|segments| - 1];
      assert Clean(m, last);
      AllSeen(m, most);
      var walk := Walk(View(m, last.address), Always(m), 0, last.dwords, 9);
      ShadowIsExact(View(m, last.address), Always(m), 0, last.dwords, 9);
      FilterConcat(ExecuteAll(m, most), walk);
    }
  }

  /** From whatever state, the shadowed registers and the draw count are those that execution leaves. */
  lemma ShadowEqualsRegisters(s: Machine, m: Mem, segments: seq<Segment>)
    requires AllClean(m, segments)
    ensures ShowsSame(Replay(s, ExecuteAll(m, segments)), Replay(s, ShadowAll(m, segments)))
  {
    AllSeen(m, segments);
    FilterKeeps(s, ExecuteAll(m, segments));
  }

  /** A SET_CONSTANT of the last ALU constant and the word after it: the second is a fetch constant, unseen. */
  lemma CrossingRun(src: Stream, mem: MemAt, pos: int, end: int, p: u32)
    requires p == src(pos) == 0xC002_2D00 && src(pos + 1) == 0x7FF && end == pos + 4
    ensures NoCalls(src, pos, end) && !AllInBank(src, pos, end)
    ensures ShadowWalk(src, pos, end) == []
    ensures Filter(Walk(src, mem, pos, end, 9)) == [RegWrite(0x4800, src(pos + 3))]
  {
    CrossingHeader(p, src(pos + 1));
    assert Next(src, pos, end) == end;
    CrossingSeen(src, pos + 2);
    var done := SetConstant(src(pos + 1), src, pos + 2, 2);
    assert Plain(src, pos, end) == done && Walk(src, mem, end, end, 9) == [];
    assert done + [] == done;
    assert ShadowPacket(src, pos, end) == [] && ShadowWalk(src, end, end) == [];
  }

  lemma CrossingHeader(p: u32, word: u32)
    requires p == 0xC002_2D00 && word == 0x7FF
    ensures Kind(p) == 3 && Opcode(p) == 0x2D && Count(p) == 3 && !IsIndirect(p)
    ensures word / 0x1_0000 % 0x100 == 0 && word % 0x800 == 0x7FF && !InBank(word, 2)
  {
  }

  lemma CrossingSeen(src: Stream, at: int)
    ensures ShadowConstant(0x7FF, src, at, 2) == []
    ensures Filter(SetConstant(0x7FF, src, at, 2)) == [RegWrite(0x4800, src(at + 1))]
  {
    CrossingHeader(0xC002_2D00, 0x7FF);
    var a, b := RegWrite(0x47FF, src(at)), RegWrite(0x4800, src(at + 1));
    assert Run(src, at, 2, 0x47FF, false) == [a] + [b];
    FilterOne([a], b);
    FilterOne([], a);
    assert Recorded(src, at, 1, 0x7FF, 128, 0x4000) == [];
  }

  ghost predicate AllClean(m: Mem, segments: seq<Segment>) {
    forall k :: 0 <= k < |segments| ==> Clean(m, segments[k])
  }

  // ---- the directory -----------------------------------------------------------------------------

  /** A descriptor's tag, a length in words, and a word-aligned physical address. */
  predicate IsDescriptor(d: u32, phys: u32) {
    d / 0x100_0000 == 0x81 && 0 < d % 0x100_0000 < 0x8000 && phys % 4 == 0
  }

  /** The segments that the descriptors from address a on name; the scan ends at the 512th. */
  function Entries(m: Mem, a: int, hi: int, descs: nat): seq<Segment>
    decreases if a <= hi then hi - a else 0
  {
    if a + 8 > hi || descs >= 512 then []
    else EntryAt(m, a) + Entries(m, a + 4, hi, Counted(m, a, descs))
  }

  /** The descriptors up to a. */
  function Counted(m: Mem, a: int, descs: nat): nat {
    if IsDescriptor(m(a), m(a + 4)) then descs + 1 else descs
  }

  /** The segment that a descriptor names, unless a type-2 packet begins it. */
  function EntryAt(m: Mem, a: int): seq<Segment> {
    if !IsDescriptor(m(a), m(a + 4)) then []
    else
      var segment := Segment(TranslatePhys(m(a + 4)), m(a) % 0x100_0000);
      if Kind(m(segment.address)) == 2 then [] else [segment]
  }

  /** The directory between two addresses, in either order; nothing when the range is not sane. */
  function Directory(m: Mem, b0: u32, b1: u32): seq<Segment> {
    var lo, hi := if b0 < b1 then b0 else b1, if b0 < b1 then b1 else b0;
    if lo < 0xA000_0000 || hi <= lo || hi - lo > 0x20_0000 then [] else Entries(m, lo, hi, 0)
  }

  lemma ShadowOne(m: Mem, segment: Segment)
    ensures ShadowAll(m, [segment]) == ShadowWalk(View(m, segment.address), 0, segment.dwords)
  {
    assert [segment][..0] == [];
    assert [] + ShadowWalk(View(m, segment.address), 0, segment.dwords) == ShadowWalk(View(m, segment.address), 0, segment.dwords);
  }

  lemma ShadowMore(m: Mem, segments: seq<Segment>, entry: seq<Segment>)
    requires |entry| <= 1
    ensures ShadowAll(m, segments + entry) == ShadowAll(m, segments) + ShadowAll(m, entry)
  {
    if entry == [] {
      assert segments + entry == segments;
    } else {
      ShadowOne(m, entry[0]);
      assert (segments + entry)[..|segments|] == segments && entry == [entry[0]];
    }
  }

  lemma EntryMore(m: Mem, found: seq<Segment>, a: int, hi: int, descs: nat)
    requires a + 8 <= hi && descs < 512
    ensures found + Entries(m, a, hi, descs)
         == found + EntryAt(m, a) + Entries(m, a + 4, hi, Counted(m, a, descs))
  {
    Assoc(found, EntryAt(m, a), Entries(m, a + 4, hi, Counted(m, a, descs)));
  }

  lemma RecordRun(done: seq<Effect>, src: Stream, at: int, n: nat, index: nat, one: bool)
    ensures done + KeptRun(src, at, n + 1, index, one)
         == done + KeptRun(src, at, n, index, one) + KeptWrite(if one then index else index + n, src(at + n))
  {
  }

  function KeptWrite(index: nat, value: u32): seq<Effect> {
    if Shadowed(index) then [RegWrite(index, value)] else []
  }

  lemma RecordBank(done: seq<Effect>, src: Stream, at: int, n: nat, first: nat, limit: nat, bank: nat)
    ensures done + Recorded(src, at, n + 1, first, limit, bank)
         == done + Recorded(src, at, n, first, limit, bank)
            + if first + n < limit then [RegWrite(bank + (first + n), src(at + n))] else []
  {
  }

  lemma WalkOne(done: seq<Effect>, src: Stream, pos: int, end: int)
    requires pos < end
    ensures done + ShadowWalk(src, pos, end)
         == done + ShadowPacket(src, pos, end) + ShadowWalk(src, Next(src, pos, end), end)
  {
    Assoc(done, ShadowPacket(src, pos, end), ShadowWalk(src, Next(src, pos, end), end));
  }

  /** What is recorded of the packet at `at` of the segment at `start`, and where the next one is, by its header. */
  lemma ShadowAt0(m: Mem, start: int, pos: int, dwords: int, at: int)
    requires 0 <= pos < dwords && at == start + 4 * pos && m(at) != 0 && Kind(m(at)) == 0
    ensures var n := if Count(m(at)) <= dwords - pos - 1 then Count(m(at)) else dwords - pos - 1;
            ShadowPacket(View(m, start), pos, dwords)
              == KeptRun(View(m, start), pos + 1, n, BaseIndex(m(at)), OneRegister(m(at)))
            && Next(View(m, start), pos, dwords) == pos + 1 + n
  {
  }

  lemma ShadowAt3(m: Mem, start: int, pos: int, dwords: int, at: int)
    requires 0 <= pos < dwords && at == start + 4 * pos && m(at) != 0 && Kind(m(at)) == 3
    ensures ShadowPacket(View(m, start), pos, dwords)
         == ShadowType3(Opcode(m(at)), Count(m(at)), m(at + 4), View(m, start), pos + 1)
    ensures Next(View(m, start), pos, dwords) == pos + 1 + Count(m(at))
  {
    assert View(m, start)(pos + 1) == m(at + 4);
  }

  lemma ShadowAtOther(m: Mem, start: int, pos: int, dwords: int, at: int)
    requires 0 <= pos < dwords && at == start + 4 * pos && (m(at) == 0 || Kind(m(at)) == 1 || Kind(m(at)) == 2)
    ensures ShadowPacket(View(m, start), pos, dwords) == []
    ensures Next(View(m, start), pos, dwords) == pos + 1 + if m(at) != 0 && Kind(m(at)) == 1 then 2 else 0
  {
  }

  // ---- the walk ----------------------------------------------------------------------------------

  class Shadow {
    const fetch: array<u32>
    const alu: array<u32>
    var draws: nat
    ghost var log: seq<Effect>

    ghost predicate Valid()
      reads this, fetch, alu
    {
      Shaped() && Follows(log)
    }

    predicate Shaped() {
      fetch.Length == 256 && alu.Length == 128 && fetch != alu
    }

    function Value(c: Cell): nat
      requires Shaped() && Shown(c)
      reads this, fetch, alu
    {
      match c
      case Draws => draws
      case Register(index) => if index >= 0x4800 then fetch[index - 0x4800] else alu[index - 0x4000]
    }

    /** The shadow shows the state that a log of effects leaves. */
    ghost predicate Follows(log: seq<Effect>)
      requires Shaped()
      reads this, fetch, alu
    {
      forall c: Cell {:trigger Value(c)} :: Shown(c) ==> Value(c) == Observed(Replay(Blank(), log), c)
    }

    constructor ()
      ensures Valid() && log == [] && fresh(fetch) && fresh(alu)
    {
      fetch := new u32[256](_ => 0);
      alu := new u32[128](_ => 0);
      draws, log := 0, [];
    }

    method Write(index: nat, value: u32)
      requires Valid()
      modifies this, fetch, alu
      ensures Valid() && log == old(log) + KeptWrite(index, value)
    {
      if 0x4800 <= index < 0x4900 {
        Put(fetch, index - 0x4800, index, value);
      } else if 0x4000 <= index < 0x4080 {
        Put(alu, index - 0x4000, index, value);
      }
    }

    /** The place of a shadowed register in its array. */
    method Put(bank: array<u32>, place: nat, index: nat, value: u32)
      requires Valid() && Shadowed(index)
      requires if index >= 0x4800 then bank == fetch && place == index - 0x4800 else bank == alu && place == index - 0x4000
      modifies this, bank
      ensures Valid() && log == old(log) + [RegWrite(index, value)]
    {
      var e := RegWrite(index, value);
      ghost var before := Replay(Blank(), log);
      ReplayOne(Blank(), log, e);
      bank[place] := value;
      log := log + [e];
      forall c: Cell | Shown(c) ensures Value(c) == Observed(Replay(Blank(), log), c) {
        assert old(Value(c)) == Observed(before, c);
      }
    }

    method CountDraw()
      requires Valid()
      modifies this
      ensures Valid() && log == old(log) + [Draw]
    {
      ghost var before := Replay(Blank(), log);
      ReplayOne(Blank(), log, Draw);
      draws := draws + 1;
      log := log + [Draw];
      forall c: Cell | Shown(c) ensures Value(c) == Observed(Replay(Blank(), log), c) {
        assert old(Value(c)) == Observed(before, c);
      }
    }

    /** n words from `addr` to one register or to consecutive ones. */
    method WriteRun(m: Mem, addr: nat, n: nat, index: nat, one: bool, ghost src: Stream, ghost at: int)
      requires Valid() && Located(src, at, m, addr)
      modifies this, fetch, alu
      ensures Valid() && log == old(log) + KeptRun(src, at, n, index, one)
    {
      var k := 0;
      while k < n
        invariant k <= n && Valid() && log == old(log) + KeptRun(src, at, k, index, one)
      {
        var value := m(addr + 4 * k);
        assert value == src(at + k);
        RecordRun(old(log), src, at, k, index, one);
        Write(if one then index else index + k, value);
        k := k + 1;
      }
    }

    /** SET_CONSTANT: n words for positions `first` on of a bank; those below `limit` are kept. */
    method WriteBank(m: Mem, addr: nat, n: nat, first: nat, limit: nat, bank: nat, ghost src: Stream, ghost at: int)
      requires Valid() && Located(src, at, m, addr)
      requires (bank == 0x4000 && limit == 128) || (bank == 0x4800 && limit == 256)
      modifies this, fetch, alu
      ensures Valid() && log == old(log) + Recorded(src, at, n, first, limit, bank)
    {
      var k := 0;
      while k < n
        invariant k <= n && Valid() && log == old(log) + Recorded(src, at, k, first, limit, bank)
      {
        var value := m(addr + 4 * k);
        assert value == src(at + k);
        RecordBank(old(log), src, at, k, first, limit, bank);
        if first + k < limit {
          Write(bank + (first + k), value);
        }
        k := k + 1;
      }
    }

    /** A type-0 packet of which n words are inside the segment; `first` is its first data word. */
    method WriteClipped(
      m: Mem, first: nat, end: nat, count: nat, base: nat, one: bool, ghost n: nat, ghost src: Stream, ghost at: int)
      returns (addr: nat)
      requires Valid() && Located(src, at, m, first)
      requires n <= count && first + 4 * n <= end && (n < count ==> end < first + 4 * n + 4)
      modifies this, fetch, alu
      ensures Valid() && addr == first + 4 * n
      ensures log == old(log) + KeptRun(src, at, n, base, one)
    {
      var k := 0;
      addr := first;
      while k < count && addr + 4 <= end
        invariant k <= n && addr == first + 4 * k
        invariant Valid() && log == old(log) + KeptRun(src, at, k, base, one)
        decreases count - k
      {
        RecordRun(old(log), src, at, k, base, one);
        var value := m(addr);
        assert value == src(at + k);
        Write(if one then base else base + k, value);
        k, addr := k + 1, addr + 4;
      }
    }

    /** The type-0 packet at `pos`; `first` is its first data word. */
    method WalkType0(m: Mem, first: nat, end: nat, packet: u32, ghost start: int, ghost pos: int, ghost dwords: int)
      returns (addr: nat)
      requires Valid() && 0 <= pos < dwords && first == start + 4 * (pos + 1) && end == start + 4 * dwords
      modifies this, fetch, alu
      ensures Valid()
      ensures var n := if Count(packet) <= dwords - pos - 1 then Count(packet) else dwords - pos - 1;
              addr == first + 4 * n
              && log == old(log) + KeptRun(View(m, start), pos + 1, n, BaseIndex(packet), OneRegister(packet))
    {
      ghost var n := if Count(packet) <= dwords - pos - 1 then Count(packet) else dwords - pos - 1;
      LocatedView(m, start, pos + 1, first);
      addr := WriteClipped(m, first, end, Count(packet), BaseIndex(packet), OneRegister(packet), n, View(m, start), pos + 1);
    }

    /** `addr` is the first data word. */
    method WalkType3(m: Mem, addr: nat, op: nat, count: nat, ghost src: Stream, ghost at: int)
      requires Valid() && count > 0 && Located(src, at, m, addr)
      modifies this, fetch, alu
      ensures Valid() && log == old(log) + ShadowType3(op, count, m(addr), src, at)
    {
      if op == 0x2D {
        var ot := m(addr);
        LocatedNext(src, at, m, addr);
        var index, ty := ot % 0x800, ot / 0x1_0000 % 0x100;
        WalkBank(ty, m, addr + 4, count - 1, index, src, at + 1);
      } else if op == 0x55 {
        LocatedNext(src, at, m, addr);
        WriteRun(m, addr + 4, count - 1, m(addr) % 0x1_0000, false, src, at + 1);
      } else if op == 0x22 || op == 0x36 {
        CountDraw();
      }
    }

    method WalkBank(ty: nat, m: Mem, addr: nat, n: nat, first: nat, ghost src: Stream, ghost at: int)
      requires Valid() && Located(src, at, m, addr)
      modifies this, fetch, alu
      ensures Valid() && log == old(log) + ShadowBank(ty, src, at, n, first)
    {
      if ty == 1 {
        WriteBank(m, addr, n, first, 256, 0x4800, src, at);
      } else if ty == 0 {
        WriteBank(m, addr, n, first, 128, 0x4000, src, at);
      }
    }

    /** The type-3 packet at `at`. */
    method WalkData(m: Mem, at: nat, packet: u32, ghost start: int, ghost pos: int)
      returns (addr: nat)
      requires Valid() && at == start + 4 * pos
      modifies this, fetch, alu
      ensures Valid() && addr == at + 4 + 4 * Count(packet)
      ensures log == old(log) + ShadowType3(Opcode(packet), Count(packet), m(at + 4), View(m, start), pos + 1)
    {
      LocatedView(m, start, pos + 1, at + 4);
      var op, count := Opcode(packet), Count(packet);
      WalkType3(m, at + 4, op, count, View(m, start), pos + 1);
      addr := at + 4 + count * 4;
    }

    /** One packet of the segment of `dwords` words at `start`; returns where the next one is. */
    method WalkPacket(m: Mem, at: nat, end: nat, ghost start: int, ghost pos: int, ghost dwords: int)
      returns (addr: nat)
      requires Valid() && 0 <= pos < dwords && at == start + 4 * pos && end == start + 4 * dwords
      modifies this, fetch, alu
      ensures Valid() && addr == start + 4 * Next(View(m, start), pos, dwords)
      ensures log == old(log) + ShadowPacket(View(m, start), pos, dwords)
    {
      var packet := m(at);
      addr := at + 4;
      var t := Kind(packet);
      if packet == 0 || t == 2 {
        ShadowAtOther(m, start, pos, dwords, at);
      } else if t == 0 {
        ShadowAt0(m, start, pos, dwords, at);
        addr := WalkType0(m, addr, end, packet, start, pos, dwords);
      } else if t == 1 {
        ShadowAtOther(m, start, pos, dwords, at);
        addr := addr + 8;
      } else {
        ShadowAt3(m, start, pos, dwords, at);
        addr := WalkData(m, at, packet, start, pos);
      }
    }

    method WalkSegment(m: Mem, segment: Segment)
      requires Valid()
      modifies this, fetch, alu
      ensures Valid() && log == old(log) + ShadowWalk(View(m, segment.address), 0, segment.dwords)
    {
      var addr: nat, end := segment.address, segment.address + segment.dwords * 4;
      ghost var start, src, pos, dwords, done := addr, View(m, addr), 0, segment.dwords, [];
      while addr + 4 <= end
        invariant Valid() && addr == start + 4 * pos && 0 <= pos && log == old(log) + done
        invariant done + ShadowWalk(src, pos, dwords) == ShadowWalk(src, 0, dwords)
        decreases if addr <= end then end - addr else 0
      {
        WalkOne(done, src, pos, dwords);
        Assoc(old(log), done, ShadowPacket(src, pos, dwords));
        addr := WalkPacket(m, addr, end, start, pos, dwords);
        done := done + ShadowPacket(src, pos, dwords);
        pos := Next(src, pos, dwords);
      }
    }

    /** The entry at a, if it is a descriptor, and its segment, if it names one. */
    method WalkEntry(m: Mem, a: u32, ghost hi: int, descs: nat, ghost found: seq<Segment>)
      returns (now: nat, ghost entry: seq<Segment>)
      requires Valid() && log == ShadowAll(m, found) && a + 8 <= hi && descs < 512
      modifies this, fetch, alu
      ensures Valid() && log == ShadowAll(m, found + entry) && descs <= now <= descs + 1
      ensures found + entry + Entries(m, a + 4, hi, now) == found + Entries(m, a, hi, descs)
    {
      entry, now := EntryAt(m, a), descs;
      EntryMore(m, found, a, hi, descs);
      ShadowMore(m, found, entry);
      var d, phys := m(a), m(a + 4);
      if IsDescriptor(d, phys) {
        now := now + 1;
        var segment := Segment(TranslatePhys(phys), d % 0x100_0000);
        if Kind(m(segment.address)) != 2 {
          ShadowOne(m, segment);
          WalkSegment(m, segment);
        }
      }
    }

    /** The scan of the directory from lo to hi. */
    method ScanDirectory(m: Mem, lo: u32, hi: u32)
      requires Valid() && log == [] && lo < hi && hi + 4 < TWO32
      modifies this, fetch, alu
      ensures Valid() && log == ShadowAll(m, Entries(m, lo, hi, 0))
    {
      var a: u32, descs := lo, 0;
      ghost var found: seq<Segment> := [];
      while a + 8 <= hi && descs < 512
        invariant lo <= a && descs <= 512 && a <= hi && Valid() && log == ShadowAll(m, found)
        invariant found + Entries(m, a, hi, descs) == Entries(m, lo, hi, 0)
        decreases hi - a
      {
        ghost var entry;
        descs, entry := WalkEntry(m, a, hi, descs, found);
        found := found + entry;
        a := a + 4;
      }
      assert found + [] == found;
    }

    /**
     * The directory between two addresses: every segment found is walked, and afterwards the shadow is the
     * register file, as far as it reaches, if the segments are clean.
     */
    method WalkAll(m: Mem, b0: u32, b1: u32)
      requires Valid() && log == [] && b0 + 4 < TWO32 && b1 + 4 < TWO32
      modifies this, fetch, alu
      ensures Valid() && log == ShadowAll(m, Directory(m, b0, b1))
      ensures AllClean(m, Directory(m, b0, b1)) ==> Follows(ExecuteAll(m, Directory(m, b0, b1)))
    {
      var lo, hi := if b0 < b1 then b0 else b1, if b0 < b1 then b1 else b0;
      if 0xA000_0000 <= lo < hi && hi - lo <= 0x20_0000 {
        ScanDirectory(m, lo, hi);
      }
      MirrorsBoth(m, Directory(m, b0, b1));
    }

    lemma MirrorsBoth(m: Mem, segments: seq<Segment>)
      requires Valid() && log == ShadowAll(m, segments)
      ensures AllClean(m, segments) ==> Follows(ExecuteAll(m, segments))
    {
      if AllClean(m, segments) {
        var all, mine := Replay(Blank(), ExecuteAll(m, segments)), Replay(Blank(), log);
        ShadowEqualsRegisters(Blank(), m, segments);
        forall c: Cell | Shown(c) ensures Value(c) == Observed(all, c) {
          assert Observed(all, c) == Observed(mine, c);
        }
      }
    }
  }
}
