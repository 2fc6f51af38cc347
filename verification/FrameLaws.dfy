/**
 * Which segments the frame walk finds, and what its two arrays then hold, by addresses and register numbers
 * (varianta/runtime/kernel.cpp:3684-3719).
 */
module FrameLaws {
  import opened Words
  import opened Pm4
  import opened CommandProcessor
  import opened FrameShadow

  /** A descriptor: tag 0x81, a length from 1 to 0x7FFF words, a 4-aligned address. */
  predicate IsNamed(d: u32, phys: u32) {
    0x8100_0000 < d < 0x8100_8000 && phys % 4 == 0
  }

  /** The descriptor at a names segment s: of so many words, at its physical address, and no type-2 packet begins it. */
  predicate Names(m: Mem, a: int, s: Segment) {
    IsNamed(m(a), m(a + 4)) && s.address == 0xA000_0000 + m(a + 4) % 0x2000_0000 && s.dwords == m(a) - 0x8100_0000
    && !(0x8000_0000 <= m(s.address) < 0xC000_0000)
  }

  lemma EntryLaw(m: Mem, a: int, s: Segment)
    ensures |EntryAt(m, a)| <= 1 && (s in EntryAt(m, a) <==> Names(m, a, s))
  {
    TagLaw(m(a), m(a + 4));
    if EntryAt(m, a) != [] {
      KindLaw(m(EntryAt(m, a)[0].address));
    }
    KindLaw(m(s.address));
    if s in EntryAt(m, a) { assert s == EntryAt(m, a)[0]; }
  }

  lemma TagLaw(d: u32, phys: u32)
    ensures IsDescriptor(d, phys) <==> IsNamed(d, phys)
    ensures IsNamed(d, phys) ==> d % 0x100_0000 == d - 0x8100_0000
  {
  }

  lemma KindLaw(p: u32)
    ensures Kind(p) == 2 <==> 0x8000_0000 <= p < 0xC000_0000
  {
  }

  /** Descriptors among the first k words from lo on. */
  function Seen(m: Mem, lo: int, k: nat): nat {
    if k == 0 then 0
    else
      var a := lo + 4 * (k - 1);
      Seen(m, lo, k - 1) + if IsNamed(m(a), m(a + 4)) then 1 else 0
  }

  /** One of the words from the k-th on, before hi and before the 513th descriptor, names s. */
  ghost predicate Found(m: Mem, lo: int, hi: int, k: nat, s: Segment) {
    exists j: nat :: k <= j && lo + 4 * j + 8 <= hi && Seen(m, lo, j) < 512 && Names(m, lo + 4 * j, s)
  }

  lemma {:induction false} ScanLaw(m: Mem, lo: int, hi: int, k: nat, s: Segment)
    ensures s in Entries(m, lo + 4 * k, hi, Seen(m, lo, k)) <==> Found(m, lo, hi, k, s)
    decreases if lo + 4 * k <= hi then hi - (lo + 4 * k) else 0
  {
    var a := lo + 4 * k;
    if a + 8 <= hi && Seen(m, lo, k) < 512 {
      ScanStep(m, lo, hi, k);
      EntryLaw(m, a, s);
      ScanLaw(m, lo, hi, k + 1, s);
      FoundInBoth(m, lo, hi, k, s, EntryAt(m, a), Entries(m, lo + 4 * (k + 1), hi, Seen(m, lo, k + 1)));
    } else {
      NotFound(m, lo, hi, k, s);
    }
  }

  lemma ScanStep(m: Mem, lo: int, hi: int, k: nat)
    requires lo + 4 * k + 8 <= hi && Seen(m, lo, k) < 512
    ensures Entries(m, lo + 4 * k, hi, Seen(m, lo, k))
         == EntryAt(m, lo + 4 * k) + Entries(m, lo + 4 * (k + 1), hi, Seen(m, lo, k + 1))
  {
    var a := lo + 4 * k;
    TagLaw(m(a), m(a + 4));
    assert a + 4 == lo + 4 * (k + 1) && Counted(m, a, Seen(m, lo, k)) == Seen(m, lo, k + 1);
  }

  lemma FoundInBoth(m: Mem, lo: int, hi: int, k: nat, s: Segment, entry: seq<Segment>, rest: seq<Segment>)
    requires lo + 4 * k + 8 <= hi && Seen(m, lo, k) < 512
    requires s in entry <==> Names(m, lo + 4 * k, s)
    requires s in rest <==> Found(m, lo, hi, k + 1, s)
    ensures s in entry + rest <==> Found(m, lo, hi, k, s)
  {
    FoundHere(m, lo, hi, k, s);
  }

  lemma FoundHere(m: Mem, lo: int, hi: int, k: nat, s: Segment)
    requires lo + 4 * k + 8 <= hi && Seen(m, lo, k) < 512
    ensures Found(m, lo, hi, k, s) <==> Names(m, lo + 4 * k, s) || Found(m, lo, hi, k + 1, s)
  {
    if Found(m, lo, hi, k, s) {
      var j: nat :| k <= j && lo + 4 * j + 8 <= hi && Seen(m, lo, j) < 512 && Names(m, lo + 4 * j, s);
      if j > k { assert k + 1 <= j; }
    }
  }

  lemma {:induction false} SeenGrows(m: Mem, lo: int, k: nat, j: nat)
    requires k <= j
    ensures Seen(m, lo, k) <= Seen(m, lo, j)
    decreases j
  {
    if k < j { SeenGrows(m, lo, k, j - 1); }
  }

  lemma NotFound(m: Mem, lo: int, hi: int, k: nat, s: Segment)
    requires lo + 4 * k + 8 > hi || Seen(m, lo, k) >= 512
    ensures !Found(m, lo, hi, k, s)
  {
    forall j: nat | k <= j && lo + 4 * j + 8 <= hi ensures Seen(m, lo, j) >= 512 {
      SeenGrows(m, lo, k, j);
    }
  }

  /** A segment is found exactly when the directory is sane, at most 2 MiB in the GPU's window, and one of its first 512
      descriptors names it. */
  lemma DirectoryLaw(m: Mem, b0: u32, b1: u32, s: Segment)
    ensures var lo, hi := if b0 < b1 then b0 else b1, if b0 < b1 then b1 else b0;
            s in Directory(m, b0, b1) <==> 0xA000_0000 <= lo < hi <= lo + 0x20_0000 && Found(m, lo, hi, 0, s)
  {
    var lo, hi := if b0 < b1 then b0 else b1, if b0 < b1 then b1 else b0;
    ScanLaw(m, lo, hi, 0, s);
  }

  /** The value of a register, 0 before it is written. */
  function Register(s: Machine, r: nat): nat {
    if r in s.regs then s.regs[r] else 0
  }

  /** What the arrays hold is what execution leaves in registers 0x4000 to 0x407F and 0x4800 to 0x48FF, and the walk
      counts as many draws. */
  lemma ArraysLaw(shadow: Shadow, log: seq<Effect>)
    requires shadow.Valid() && shadow.Follows(log)
    ensures forall i :: 0 <= i < 128 ==> shadow.alu[i] == Register(Replay(Blank(), log), 0x4000 + i)
    ensures forall i :: 0 <= i < 256 ==> shadow.fetch[i] == Register(Replay(Blank(), log), 0x4800 + i)
    ensures shadow.draws == Replay(Blank(), log).draws
  {
    var s := Replay(Blank(), log);
    forall i | 0 <= i < 128 ensures shadow.alu[i] == Register(s, 0x4000 + i) {
      assert shadow.Value(Cell.Register(0x4000 + i)) == Observed(s, Cell.Register(0x4000 + i));
    }
    forall i | 0 <= i < 256 ensures shadow.fetch[i] == Register(s, 0x4800 + i) {
      assert shadow.Value(Cell.Register(0x4800 + i)) == Observed(s, Cell.Register(0x4800 + i));
    }
    assert shadow.Value(Draws) == Observed(s, Draws);
  }
}
