/** The TLS slot bitmap (varianta/runtime/kernel.cpp:701-709, 732-766): eight words, high bit first, 1 = free. */
module Tls {
  import opened Words

  const NONE: u32 := 0xFFFF_FFFF

  // ---- bits --------------------------------------------------------------------------------------

  predicate Bit(w: nat, k: nat) {
    if k == 0 then w % 2 == 1 else Bit(w / 2, k - 1)
  }

  /** w | (1 << k), digit by digit. */
  function SetBit(w: nat, k: nat): nat {
    if k == 0 then w / 2 * 2 + 1 else SetBit(w / 2, k - 1) * 2 + w % 2
  }

  /** w & ~(1 << k), digit by digit. */
  function ClearBit(w: nat, k: nat): nat {
    if k == 0 then w / 2 * 2 else ClearBit(w / 2, k - 1) * 2 + w % 2
  }

  /** The highest bit set. */
  function Top(w: nat): nat
    requires w > 0
  {
    if w == 1 then 0 else Top(w / 2) + 1
  }

  lemma {:induction false} SetBits(w: nat, k: nat, j: nat)
    ensures Bit(SetBit(w, k), j) <==> j == k || Bit(w, j)
  {
    if k > 0 && j > 0 {
      SetBits(w / 2, k - 1, j - 1);
      assert SetBit(w, k) / 2 == SetBit(w / 2, k - 1);
    }
  }

  lemma {:induction false} ClearBits(w: nat, k: nat, j: nat)
    ensures Bit(ClearBit(w, k), j) <==> j != k && Bit(w, j)
  {
    if k > 0 && j > 0 {
      ClearBits(w / 2, k - 1, j - 1);
      assert ClearBit(w, k) / 2 == ClearBit(w / 2, k - 1);
    }
  }

  /** Both stay within a width. */
  lemma {:induction false} Fit(w: nat, k: nat, width: nat)
    requires w < Pow2(width) && k < width
    ensures SetBit(w, k) < Pow2(width) && ClearBit(w, k) < Pow2(width)
  {
    var half := Pow2(width - 1);
    assert Pow2(width) == 2 * half && w / 2 < half;
    if k > 0 {
      Fit(w / 2, k - 1, width - 1);
    }
  }

  lemma {:induction false} TopIsHighest(w: nat, j: nat)
    requires w > 0
    ensures Bit(w, Top(w)) && (j > Top(w) ==> !Bit(w, j))
  {
    if w > 1 {
      TopIsHighest(w / 2, if j > 0 then j - 1 else 0);
    } else if j > 0 {
      ZeroHasNoBit(j - 1);
    }
  }

  lemma {:induction false} ZeroHasNoBit(j: nat)
    ensures !Bit(0, j)
  {
    if j > 0 { ZeroHasNoBit(j - 1); }
  }

  lemma {:induction false} TopFits(w: nat, width: nat)
    requires 0 < w < Pow2(width)
    ensures Top(w) < width
  {
    if w > 1 { TopFits(w / 2, width - 1); }
  }

  /** Ones from bit k up to, not including, bit width. */
  lemma {:induction false} HighOnes(width: nat, k: nat, j: nat)
    requires k <= width
    ensures Pow2(k) <= Pow2(width)
    ensures Bit(Pow2(width) - Pow2(k), j) <==> k <= j < width
  {
    if width == 0 {
      ZeroHasNoBit(j);
    } else if k > 0 {
      HighOnes(width - 1, k - 1, if j > 0 then j - 1 else 0);
      assert Pow2(width) - Pow2(k) == 2 * (Pow2(width - 1) - Pow2(k - 1));
    } else {
      HighOnes(width - 1, 0, if j > 0 then j - 1 else 0);
      assert (Pow2(width) - 1) / 2 == Pow2(width - 1) - 1;
    }
  }

  // ---- slots -------------------------------------------------------------------------------------

  const SLOTS: nat := 256

  /** The words of the bitmap. */
  type Bitmap = b: seq<u32> | |b| == 8 witness [0, 0, 0, 0, 0, 0, 0, 0]

  predicate FreeAt(b: Bitmap, word: nat, lz: nat) {
    word < 8 && lz < 32 && Bit(b[word], 31 - lz)
  }

  predicate IsFree(b: Bitmap, slot: nat) {
    FreeAt(b, slot / 32, slot % 32)
  }

  lemma {:induction false} BitIs(w: nat, k: nat)
    ensures Bit(w, k) <==> w / Pow2(k) % 2 == 1
  {
    if k > 0 {
      BitIs(w / 2, k - 1);
      Halving(w, Pow2(k - 1));
    }
  }

  /** Slot 32 * i + j is free when word i has the bit that is worth 2^(31 - j). */
  lemma SlotBit(b: Bitmap, i: nat, j: nat)
    requires i < 8 && j < 32
    ensures IsFree(b, 32 * i + j) <==> b[i] / Pow2(31 - j) % 2 == 1
  {
    SlotAt(i, j);
    BitIs(b[i], 31 - j);
  }

  /** The slots that the bitmap has free. */
  ghost function FreeSlots(b: Bitmap): (r: set<nat>)
    ensures forall s: nat :: s in r <==> s < SLOTS && IsFree(b, s)
  {
    set s: nat | s < SLOTS && IsFree(b, s)
  }

  lemma SlotAt(word: nat, lz: nat)
    requires lz < 32
    ensures (32 * word + lz) / 32 == word && (32 * word + lz) % 32 == lz
  {
  }

  // ---- the operations ----------------------------------------------------------------------------

  class TlsProcess {
    const bitmap: array<u32>
    /** The calling thread's slot values. */
    const values: array<u32>

    /** The slots handed out and not freed since. */
    ghost var live: set<nat>

    ghost predicate Valid()
      reads this, bitmap
    {
      bitmap.Length == 8 && values.Length == SLOTS && bitmap != values && FreeSlots(Words()) !! live
    }

    ghost function State(): Table
      requires bitmap.Length == 8
      reads this, bitmap
    {
      Table(FreeSlots(Words()), live)
    }

    function Words(): Bitmap
      requires bitmap.Length == 8
      reads this, bitmap
    {
      bitmap[..]
    }

    /** Process setup: one bit per padded slot, as far as the bitmap goes. */
    constructor (slotsPadded: nat)
      ensures Valid() && live == {} && fresh(bitmap) && fresh(values)
      ensures forall s: nat :: s < SLOTS ==> (IsFree(Words(), s) <==> s < slotsPadded)
    {
      bitmap := new u32[8];
      values := new u32[SLOTS](_ => 0);
      live := {};
      new;
      var bitmapSlots := slotsPadded / 32;
      var i := 0;
      while i < 8
        invariant i <= 8 && live == {}
        invariant forall w, lz: nat {:trigger FreeAt(Words(), w, lz)} :: 0 <= w < i && lz < 32 ==>
                    (FreeAt(Words(), w, lz) <==> 32 * w + lz < slotsPadded)
      {
        var v: u32;
        var rem := slotsPadded % 32;
        if i < bitmapSlots {
          v := 0xFFFF_FFFF;
        } else if i == bitmapSlots {
          v := if rem != 0 then Shl(0xFFFF_FFFF, 32 - rem) else 0;
        } else {
          v := 0;
        }
        SetupWord(v, i, slotsPadded);
        ghost var before := Words();
        bitmap[i] := v;
        forall w, lz: nat | 0 <= w <= i && lz < 32 ensures FreeAt(Words(), w, lz) <==> 32 * w + lz < slotsPadded {
          if w < i { assert FreeAt(before, w, lz) <==> FreeAt(Words(), w, lz); }
        }
        i := i + 1;
      }
      forall s: nat | s < SLOTS ensures IsFree(Words(), s) <==> s < slotsPadded {
        assert FreeAt(Words(), s / 32, s % 32) <==> 32 * (s / 32) + s % 32 < slotsPadded;
      }
    }

    method Alloc() returns (slot: u32)
      requires Valid()
      modifies this, bitmap, values
      ensures Valid() && Step(old(State()), if slot == NONE then Fail else Op.Alloc(slot), State())
      ensures slot != NONE ==> slot < SLOTS && slot !in old(live) && values[..] == old(values[..])[slot := 0]
      ensures slot == NONE ==> values[..] == old(values[..])
      ensures slot == 0xFFFF_FFFF <==> forall s: nat :: s < 256 ==> !old(IsFree(Words(), s))
    {
      slot := NONE;
      ghost var before := Words();
      var bi := 0;
      while bi < 8
        invariant bi <= 8 && slot == NONE && Words() == before && live == old(live)
        invariant values[..] == old(values[..])
        invariant forall s: nat :: s < 32 * bi ==> !IsFree(before, s)
      {
        var bm := bitmap[bi];
        if bm != 0 {
          var lz := Clz(bm);
          slot := 32 * bi + lz;
          FirstInWord(before, bi, bm, lz);
          Cleared(bm, lz);
          bitmap[bi] := ClearBit(bm, 31 - lz);
          ghost var after := Words();
          AfterClear(before, after, bi, lz);
          assert slot in FreeSlots(before) && slot !in live;
          values[slot] := 0;
          live := live + {slot};
          assert Words() == after;
          assert forall x :: x in FreeSlots(before) ==> slot <= x;
          return;
        }
        NoneInWord(before, bi);
        bi := bi + 1;
      }
      assert FreeSlots(before) == {};
    }

    method Free(idx: u32)
      requires Valid()
      modifies this, bitmap
      ensures Valid() && Step(old(State()), Op.Free(idx), State())
    {
      if idx < SLOTS {
        var bi, lz := idx / 32, idx % 32;
        ghost var before := Words();
        Cleared(bitmap[bi], lz);
        bitmap[bi] := SetBit(bitmap[bi], 31 - lz);
        AfterSet(before, Words(), bi, lz);
        live := live - {idx};
      }
    }
  }

  /** __builtin_clz on a word that is not zero. */
  function Clz(w: u32): (lz: nat)
    requires w > 0
    ensures lz < 32 && lz == 31 - Top(w)
  {
    assert Pow2(32) == TWO32 by { Pow32(); }
    TopFits(w, 32);
    31 - Top(w)
  }

  lemma Pow32()
    ensures Pow2(32) == TWO32
  {
    assert Pow2(8) == 256;
    assert Pow2(16) == 0x1_0000;
    assert Pow2(24) == 0x100_0000;
  }

  lemma Cleared(w: u32, lz: nat)
    requires lz < 32
    ensures ClearBit(w, 31 - lz) < TWO32 && SetBit(w, 31 - lz) < TWO32
  {
    Pow32();
    Fit(w, 31 - lz, 32);
  }

  /** A word of the initial bitmap. */
  lemma SetupWord(v: u32, i: nat, slotsPadded: nat)
    requires i < 8
    requires v == if i < slotsPadded / 32 then 0xFFFF_FFFF
                  else if i == slotsPadded / 32 && slotsPadded % 32 != 0 then Shl(0xFFFF_FFFF, 32 - slotsPadded % 32) else 0
    ensures forall k: nat :: k < 32 ==> (Bit(v, k) <==> 32 * i + 31 - k < slotsPadded)
  {
    forall k: nat | k < 32 ensures Bit(v, k) <==> 32 * i + 31 - k < slotsPadded {
      Pow32();
      if i < slotsPadded / 32 {
        HighOnes(32, 0, k);
      } else if i == slotsPadded / 32 && slotsPadded % 32 != 0 {
        var low := 32 - slotsPadded % 32;
        ShiftedOnes(low);
        HighOnes(32, low, k);
      } else {
        ZeroHasNoBit(k);
      }
    }
  }

  /** ~0 << k. */
  lemma ShiftedOnes(k: nat)
    requires k <= 32
    ensures Shl(0xFFFF_FFFF, k) == Pow2(32) - Pow2(k)
  {
    var p := Pow2(k);
    Pow32();
    HighOnes(32, k, 0);
    assert 0xFFFF_FFFF * p == (p - 1) * TWO32 + (TWO32 - p);
    DivMod(p - 1, TWO32, TWO32 - p);
  }

  lemma FirstInWord(b: Bitmap, bi: nat, bm: u32, lz: nat)
    requires bi < 8 && b[bi] == bm > 0 && lz == Clz(bm)
    requires forall s: nat :: s < 32 * bi ==> !IsFree(b, s)
    ensures IsFree(b, 32 * bi + lz) && forall s: nat :: s < 32 * bi + lz ==> !IsFree(b, s)
  {
    SlotAt(bi, lz);
    TopIsHighest(bm, 0);
    forall s: nat | 32 * bi <= s < 32 * bi + lz ensures !IsFree(b, s) {
      SlotAt(bi, s - 32 * bi);
      TopIsHighest(bm, 31 - (s - 32 * bi));
    }
  }

  lemma NoneInWord(b: Bitmap, bi: nat)
    requires bi < 8 && b[bi] == 0
    requires forall s: nat :: s < 32 * bi ==> !IsFree(b, s)
    ensures forall s: nat :: s < 32 * (bi + 1) ==> !IsFree(b, s)
  {
    forall s: nat | 32 * bi <= s < 32 * (bi + 1) ensures !IsFree(b, s) {
      SlotAt(bi, s - 32 * bi);
      ZeroHasNoBit(31 - (s - 32 * bi));
    }
  }

  lemma AfterClear(b: Bitmap, b': Bitmap, bi: nat, lz: nat)
    requires bi < 8 && lz < 32 && ClearBit(b[bi], 31 - lz) < TWO32 && b' == b[bi := ClearBit(b[bi], 31 - lz)]
    ensures FreeSlots(b') == FreeSlots(b) - {32 * bi + lz}
  {
    forall s: nat | s < SLOTS ensures IsFree(b', s) <==> IsFree(b, s) && s != 32 * bi + lz {
      SlotAt(bi, lz);
      if s / 32 == bi { ClearBits(b[bi], 31 - lz, 31 - s % 32); }
    }
  }

  lemma AfterSet(b: Bitmap, b': Bitmap, bi: nat, lz: nat)
    requires bi < 8 && lz < 32 && SetBit(b[bi], 31 - lz) < TWO32 && b' == b[bi := SetBit(b[bi], 31 - lz)]
    ensures FreeSlots(b') == FreeSlots(b) + {32 * bi + lz}
  {
    forall s: nat | s < SLOTS ensures IsFree(b', s) <==> IsFree(b, s) || s == 32 * bi + lz {
      SlotAt(bi, lz);
      if s / 32 == bi { SetBits(b[bi], 31 - lz, 31 - s % 32); }
    }
  }

  // ---- runs --------------------------------------------------------------------------------------

  datatype Op = Alloc(slot: nat) | Fail | Free(slot: nat)

  /** The free slots and those handed out and not freed since. */
  datatype Table = Table(free: set<nat>, live: set<nat>)

  /** One call with its result, as Alloc and Free above specify it. */
  ghost predicate Step(t: Table, op: Op, t': Table) {
    match op
    case Alloc(s) =>
      s in t.free && (forall x :: x in t.free ==> s <= x) && t' == Table(t.free - {s}, t.live + {s})
    case Fail => t.free == {} && t' == t
    case Free(s) => t' == if s < SLOTS then Table(t.free + {s}, t.live - {s}) else t
  }

  ghost predicate IsRun(states: seq<Table>, ops: seq<Op>) {
    |states| == |ops| + 1 && forall i :: 0 <= i < |ops| ==> Step(states[i], ops[i], states[i + 1])
  }

  /** Only live slots are freed. */
  ghost predicate FreesLive(states: seq<Table>, ops: seq<Op>)
    requires |states| == |ops| + 1
  {
    forall i :: 0 <= i < |ops| && ops[i].Free? ==> ops[i].slot in states[i].live
  }

  /**
   * Over every run that starts with no live slot, a slot that is handed out was not live; and when only live
   * slots are freed, free and live slots together stay the initial ones, so that allocation fails exactly
   * when all of them are live.
   */
  lemma {:induction false} NeverTwice(states: seq<Table>, ops: seq<Op>, n: nat)
    requires IsRun(states, ops) && states[0].live == {} && n <= |ops|
    ensures states[n].free * states[n].live == {}
    ensures n < |ops| && ops[n].Alloc? ==> ops[n].slot !in states[n].live
    ensures FreesLive(states, ops) ==> states[n].free + states[n].live == states[0].free
    ensures FreesLive(states, ops) && n < |ops| ==> (ops[n].Fail? ==> states[n].live == states[0].free)
    ensures FreesLive(states, ops) && n < |ops| && ops[n].Alloc? ==> states[n].live != states[0].free
  {
    if n > 0 {
      NeverTwice(states, ops, n - 1);
      assert Step(states[n - 1], ops[n - 1], states[n]);
    }
    if n < |ops| {
      assert Step(states[n], ops[n], states[n + 1]);
    }
  }
}
