/**
 * What an allocation leaves in the region table, by its numbers (varianta/runtime/kernel.cpp:273-346).
 */
module HeapLaws {
  import opened Words
  import opened GuestHeap

  /** The last region that starts at or below the place, and a place in no region. */
  ghost predicate Untracked(rs: Regions, addr: u32) {
    forall b :: b in rs ==> !(b <= addr < b + rs[b].size)
  }

  /** Where a request goes: at the page of its base, or at the cursor in granules of 64 KiB. */
  ghost predicate GoesTo(q: Request, next: u32, base: u32, size: u32, next': u32) {
    var page := if q.flags / 0x2000_0000 % 2 == 1 then 0x1_0000 else 0x1000;
    if q.base != 0 then
      && base == q.base - q.base % page && next' == next
      && (q.base % page + q.size + page <= 0x1_0000_0000 ==>
            size % page == 0 && q.base % page + q.size <= size < q.base % page + q.size + page)
    else
      next % 0x1_0000 == 0 && next + q.size + 0x1_0000 <= 0x1_0000_0000 ==>
        base == next && next' == base + size && size % 0x1_0000 == 0 && q.size <= size < q.size + 0x1_0000
  }

  /** A new region of the place has the flags and the protection of the request, 4 when that is 0. */
  ghost predicate IsNew(r: Region, q: Request, size: u32) {
    && r.size == size && r.protect == (if q.protect == 0 then 4 else q.protect)
    && r.committed == (q.flags / 0x1000 % 2 == 1)
    && r.reserved == (q.flags / 0x1000 % 2 == 1 || q.flags / 0x2000 % 2 == 1)
  }

  /** An old region gets them too, and reaches to the end of the place when that is further. */
  ghost predicate IsRegrown(r: Region, r': Region, rb: u32, q: Request, base: u32, size: u32) {
    && r'.protect == (if q.protect == 0 then 4 else q.protect)
    && r'.committed == (r.committed || q.flags / 0x1000 % 2 == 1)
    && r'.reserved == (r.reserved || q.flags / 0x1000 % 2 == 1 || q.flags / 0x2000 % 2 == 1)
    && (base + size < 0x1_0000_0000 ==>
          r'.size == if base + size > rb + r.size then base + size - rb else r.size)
  }

  ghost predicate Tracks(h: Heap, h': Heap, q: Request, base: u32, size: u32) {
    && h'.poolCur == h.poolCur && h'.poolEnd == h.poolEnd
    && (Untracked(h.regions, base) ==>
          base in h'.regions && h'.regions == h.regions[base := h'.regions[base]] && IsNew(h'.regions[base], q, size))
    && forall rb :: Holds(h.regions, rb, base) ==>
         rb in h'.regions && h'.regions == h.regions[rb := h'.regions[rb]]
         && IsRegrown(h.regions[rb], h'.regions[rb], rb, q, base, size)
  }

  /** Every allocation: its place, and the region that tracks it. */
  lemma AllocateLaw(h: Heap, q: Request)
    requires q.size != 0
    ensures var p, h' := PlaceOf(h.virtNext, q), AfterAllocate(h, q);
            GoesTo(q, h.virtNext, p.base, p.size, h'.virtNext) && Tracks(h, h', q, p.base, p.size)
  {
    var p := PlaceOf(h.virtNext, q);
    if q.base != 0 { ChosenLaw(h.virtNext, q); } else { KernelLaw(h.virtNext, q); }
    TracksLaw(h, q, p);
  }

  lemma ChosenLaw(next: u32, q: Request)
    requires q.base != 0
    ensures var p := PlaceOf(next, q); GoesTo(q, next, p.base, p.size, p.next)
  {
    var page := PageSize(q);
    if q.base % page + q.size + page <= TWO32 { PagesLaw(q.base, q.size, page, q.base % page); }
  }

  lemma PagesLaw(base: u32, size: u32, page: nat, o: nat)
    requires (page == 0x1000 || page == 0x1_0000) && o == base % page && o + size + page <= TWO32
    ensures var n := ChosenPlace(base, size, page, 0).size; n % page == 0 && o + size <= n < o + size + page
  {
    RoundedUp(o + size, page);
  }

  lemma KernelLaw(next: u32, q: Request)
    requires q.base == 0
    ensures var p := PlaceOf(next, q); GoesTo(q, next, p.base, p.size, p.next)
  {
    if next % 0x1_0000 == 0 {
      CursorPlace(next, q);
      RoundedUp(q.size, 0x1_0000);
    }
  }

  lemma TracksLaw(h: Heap, q: Request, p: Place)
    ensures Tracks(h, Placed(h, p, q), q, p.base, p.size)
  {
    forall rb: u32 ensures Holds(h.regions, rb, p.base) ==> Find(h.regions, p.base) == Some(rb) {
      HeldIsFound(h.regions, rb, p.base);
    }
  }

  // ---- the pool ----------------------------------------------------------------------------------

  /** n bytes, rounded up to a unit. */
  predicate IsRounded(n: nat, request: nat, unit: nat) {
    0 < unit && n % unit == 0 && request <= n < request + unit
  }

  /** A pool block of n bytes: the next of the arena when there is room, else the first of a new arena at the cursor. */
  ghost predicate Serves(h: Heap, h': Heap, base: u32, n: nat, arena: nat) {
    if h.poolCur != 0 && h.poolCur + n <= h.poolEnd then base == h.poolCur && h' == h.(poolCur := base + n)
    else
      h.virtNext % 0x1_0000 == 0 && h.virtNext + arena < 0x1_0000_0000 && h.poolCur + n < 0x1_0000_0000 ==>
        base == h.virtNext
        && h'.regions == h.regions[base := Region(arena, true, true, 4)]
        && h'.virtNext == h'.poolEnd == base + arena && h'.poolCur == base + n
  }

  /** Blocks are whole units of 16 bytes; arenas are 8 MiB, or as large as the block, in granules of 64 KiB. */
  lemma PoolLaw(h: Heap, request: u32, n: nat, arena: nat)
    requires request != 0 && IsRounded(n, request, 16) && IsRounded(arena, if n > 0x80_0000 then n else 0x80_0000, 0x1_0000)
    ensures Serves(h, PoolTaken(h, request).0, PoolTaken(h, request).1.base, n, arena)
  {
    OneMultiple(request, 16, n);
    RoundedUp(request, 16);
    if n < TWO32 {
      OneMultiple(Larger(n, 0x80_0000), 0x1_0000, arena);
      RoundedUp(Larger(n, 0x80_0000), 0x1_0000);
      RoundedUp(h.virtNext, 0x1_0000);
      if h.virtNext % 0x1_0000 == 0 { AtMultiple(h.virtNext); }
    }
  }

  lemma OneMultiple(v: nat, unit: nat, n: nat)
    requires (unit == 16 || unit == 0x1_0000) && IsRounded(n, v, unit)
    ensures n == Multiple(v, unit)
  {
    var q := n / unit;
    Euclid(n, unit);
    assert v + unit - 1 == q * unit + (v + unit - 1 - n);
    DivMod(q, unit, v + unit - 1 - n);
  }
}
