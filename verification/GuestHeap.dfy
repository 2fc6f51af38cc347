/**
 * The guest's virtual memory regions and the kernel pool carved from the same cursor
 * (varianta/runtime/kernel.cpp:247-321, 334-346, 379-421).
 */
module GuestHeap {
  import opened Words

  const COMMIT: nat := 0x1000
  const RESERVE: nat := 0x2000
  const DECOMMIT: u32 := 0x4000
  const RELEASE: nat := 0x8000
  const LARGE_PAGES: nat := 0x2000_0000
  const READ_WRITE: u32 := 4
  const SUCCESS: u32 := 0
  const INVALID_PARAMETER: u32 := 0xC000_000D
  const NOT_ALLOCATED: u32 := 0xC000_00A0

  // ---- uint32_t arithmetic -----------------------------------------------------------------------

  function Add(a: u32, b: u32): u32 {
    if a + b < TWO32 then a + b else a + b - TWO32
  }

  /** A flag of a word; `bit` is a power of two. */
  predicate Has(word: u32, bit: nat)
    requires bit > 0
  {
    word / bit % 2 == 1
  }

  function Down(v: u32, page: nat): (r: u32)
    requires page > 0
  {
    v - v % page
  }

  function RoundUp(v: u32, page: nat): u32
    requires 0 < page < TWO32
  {
    Down(Add(v, page - 1), page)
  }

  /** The next multiple, without wrapping. */
  function Multiple(n: nat, unit: nat): nat
    requires unit > 0
  {
    n + unit - 1 - (n + unit - 1) % unit
  }

  /** Rounding up on uint32_t: the next multiple, or 0 when that is 2^32. */
  lemma RoundedUp(v: u32, page: nat)
    requires page == 16 || page == 0x1000 || page == 0x1_0000
    ensures var n := Multiple(v, page);
            v <= n < v + page && n % page == 0 && n <= TWO32 && RoundUp(v, page) == if n < TWO32 then n else 0
  {
    if page == 16 {
      RoundedUnits(v, page, 0x1000_0000);
    } else if page == 0x1000 {
      RoundedUnits(v, page, 0x10_0000);
    } else {
      RoundedUnits(v, page, 0x1_0000);
    }
  }

  lemma RoundedUnits(v: u32, page: nat, units: nat)
    requires 0 < page < TWO32 && units * page == TWO32
    ensures var n := Multiple(v, page);
            v <= n < v + page && n % page == 0 && n <= TWO32 && RoundUp(v, page) == if n < TWO32 then n else 0
  {
    var a, q := v + page - 1, (v + page - 1) / page;
    Euclid(a, page);
    DivMod(q, page, 0);
    if a < TWO32 {
      MulLe(q * page, a, 1);
    } else {
      WrappedUnits(a, page, units);
    }
  }

  lemma WrappedUnits(a: nat, page: nat, units: nat)
    requires units * page == TWO32 && TWO32 <= a < TWO32 + page - 1 && page < TWO32
    ensures a / page * page == TWO32 && Down(a - TWO32, page) == 0
  {
    DivMod(units, page, a - TWO32);
    DivMod(0, page, a - TWO32);
  }

  lemma RoundedDown(v: u32, page: nat)
    requires page > 0
    ensures v < Down(v, page) + page && Down(v, page) <= v && Down(v, page) % page == 0
  {
    var q := v / page;
    Euclid(v, page);
    DivMod(q, page, 0);
    assert Down(v, page) == q * page;
  }

  // ---- regions -----------------------------------------------------------------------------------

  datatype Region = Region(size: u32, reserved: bool, committed: bool, protect: u32)

  type Regions = map<u32, Region>

  datatype Heap = Heap(regions: Regions, virtNext: u32, poolCur: u32, poolEnd: u32)

  /** The start of the process. */
  const EMPTY: Heap := Heap(map[], 0x1_0000, 0, 0)

  predicate Contains(rs: Regions, b: u32, addr: u32) {
    b in rs && b <= addr < Add(b, rs[b].size)
  }

  /** The entry before the first one with a base above addr. */
  ghost predicate IsPredecessor(rs: Regions, addr: u32, b: u32) {
    b in rs && b <= addr && forall k :: k in rs && k <= addr ==> k <= b
  }

  /** FindRegion: the predecessor, when it contains the address. */
  ghost function Find(rs: Regions, addr: u32): (r: Option<u32>)
    ensures r.Some? ==> IsPredecessor(rs, addr, r.value) && Contains(rs, r.value, addr)
    ensures r.None? ==> forall b :: IsPredecessor(rs, addr, b) ==> !Contains(rs, b, addr)
  {
    if exists b: u32 :: IsPredecessor(rs, addr, b) && Contains(rs, b, addr) then
      var b: u32 :| IsPredecessor(rs, addr, b) && Contains(rs, b, addr);
      Some(b)
    else None
  }

  /** A non-empty region that ends at or below the cursor. */
  predicate Sized(b: u32, r: Region, virtNext: u32) {
    0 < r.size && b + r.size <= virtNext
  }

  predicate AllSized(rs: Regions, virtNext: u32) {
    forall b :: b in rs ==> Sized(b, rs[b], virtNext)
  }

  predicate Apart(rs: Regions) {
    forall a, b :: a in rs && b in rs && a < b ==> a + rs[a].size <= b
  }

  /** The predecessor search finds the containing region exactly when a linear scan would. */
  lemma FindIsScan(rs: Regions, virtNext: u32, addr: u32)
    requires AllSized(rs, virtNext) && Apart(rs)
    ensures Find(rs, addr).None? <==> forall b: u32 :: b in rs ==> !Contains(rs, b, addr)
    ensures forall b: u32 :: Contains(rs, b, addr) ==> Find(rs, addr) == Some(b)
  {
    forall b: u32 | Contains(rs, b, addr) ensures Find(rs, addr) == Some(b) {
      assert Sized(b, rs[b], virtNext);
      forall k | k in rs && k <= addr ensures k <= b { }
      assert IsPredecessor(rs, addr, b);
      if Find(rs, addr).Some? {
        var c := Find(rs, addr).value;
        assert b <= c && c <= b;
      }
    }
  }

  // ---- the pool ----------------------------------------------------------------------------------

  /** [lo, hi) lies in a region. */
  ghost predicate InRegion(rs: Regions, lo: nat, hi: nat) {
    exists a :: a in rs && a <= lo && hi <= a + rs[a].size
  }

  /** A pool block; its size is the requested one in units of 16. */
  datatype Block = Block(base: u32, size: nat)

  /** A pool block: 16-aligned, in a region, and not in the part of the arena still to be handed out. */
  ghost predicate Allocated(h: Heap, k: Block) {
    k.base % 16 == 0 && InRegion(h.regions, k.base, k.base + k.size)
    && (k.base + k.size <= h.poolCur || h.poolEnd <= k.base)
  }

  ghost predicate PoolOk(h: Heap) {
    if h.poolCur == 0 then h.poolEnd == 0
    else h.poolCur % 16 == 0 && h.poolCur <= h.poolEnd && InRegion(h.regions, h.poolCur, h.poolEnd)
  }

  ghost predicate Inv(h: Heap) {
    0 < h.virtNext && h.virtNext % 0x1_0000 == 0 && AllSized(h.regions, h.virtNext) && Apart(h.regions) && PoolOk(h)
  }

  /** Different blocks do not overlap, and all are allocated. */
  ghost predicate BlocksOk(h: Heap, blocks: seq<Block>) {
    (forall i :: 0 <= i < |blocks| ==> Allocated(h, blocks[i]))
    && forall i, j :: 0 <= i < j < |blocks| ==>
         blocks[i].base + blocks[i].size <= blocks[j].base || blocks[j].base + blocks[j].size <= blocks[i].base
  }

  // ---- NtAllocateVirtualMemory -------------------------------------------------------------------

  datatype Request = Request(base: u32, size: u32, flags: u32, protect: u32)

  function PageSize(q: Request): nat {
    if Has(q.flags, LARGE_PAGES) then 0x1_0000 else 0x1000
  }

  /** Where the allocation goes, how large it is, and where the cursor is then. */
  datatype Place = Place(base: u32, size: u32, next: u32)

  function PlaceOf(virtNext: u32, q: Request): Place {
    if q.base != 0 then ChosenPlace(q.base, q.size, PageSize(q), virtNext) else KernelPlace(virtNext, q.size)
  }

  /** The pages around a range that the caller chose. */
  function ChosenPlace(base: u32, size: u32, page: nat, next: u32): Place
    requires 0 < page < TWO32
  {
    var b := Down(base, page);
    Place(b, RoundUp(Add(size, base - b), page), next)
  }

  /** The next 64 KiB granules at the cursor. */
  function KernelPlace(virtNext: u32, request: u32): Place {
    var size, b := RoundUp(request, 0x1_0000), RoundUp(virtNext, 0x1_0000);
    Place(b, size, Add(b, size))
  }

  function NewRegion(p: Place, q: Request): Region {
    Region(p.size, Has(q.flags, RESERVE) || Has(q.flags, COMMIT), Has(q.flags, COMMIT),
           if q.protect == 0 then READ_WRITE else q.protect)
  }

  /** An existing reservation, recommitted and possibly grown. */
  function Regrown(rb: u32, r: Region, p: Place, q: Request): Region
    requires rb <= p.base
  {
    Region(if Add(p.base, p.size) > Add(rb, r.size) then Add(p.base - rb, p.size) else r.size,
           r.reserved || Has(q.flags, RESERVE) || Has(q.flags, COMMIT), r.committed || Has(q.flags, COMMIT),
           if q.protect == 0 then READ_WRITE else q.protect)
  }

  ghost function AfterAllocate(h: Heap, q: Request): Heap {
    Placed(h, PlaceOf(h.virtNext, q), q)
  }

  /** The allocation ends before the next region. */
  predicate Clear(rs: Regions, p: Place) {
    forall k :: k in rs && k > p.base ==> p.base + p.size <= k
  }

  /** And at or below the cursor. */
  predicate Room(rs: Regions, p: Place) {
    p.base + p.size <= p.next && Clear(rs, p)
  }

  /** The place starts in a region, and its end wraps: the comparison with the region's end fails, so nothing grows. */
  ghost predicate Stays(rs: Regions, p: Place) {
    Find(rs, p.base).Some? && p.base + p.size >= TWO32
  }

  /** There is something to track: a region of its own would not be empty. */
  ghost predicate Tracked(rs: Regions, p: Place) {
    Find(rs, p.base).Some? || 0 < p.size
  }

  /** What a request must meet: the kernel's granules end below 2^32, or the chosen pages have room or are left alone. */
  ghost predicate Fits(h: Heap, q: Request) {
    if q.base == 0 then h.virtNext + Multiple(q.size, 0x1_0000) < TWO32
    else
      var p := PlaceOf(h.virtNext, q);
      Stays(h.regions, p) || (Tracked(h.regions, p) && Room(h.regions, p))
  }

  /** The pages around a chosen range cover it exactly when their number does not wrap. */
  lemma ChosenCovers(next: u32, q: Request)
    requires q.base != 0 && q.size != 0
    ensures var p, page := PlaceOf(next, q), PageSize(q);
            && p.next == next && p.base <= q.base < p.base + page
            && (q.base + q.size <= p.base + p.size <==> Multiple(q.base - p.base + q.size, page) < TWO32)
  {
    var page := PageSize(q);
    var b := Down(q.base, page);
    RoundedDown(q.base, page);
    PagesAround(q.base - b, q.size, page);
  }

  /** The number of bytes in the pages of o + size bytes, on uint32_t. */
  lemma PagesAround(o: u32, size: u32, page: nat)
    requires (page == 0x1000 || page == 0x1_0000) && o < page
    ensures RoundUp(Add(size, o), page) >= o + size <==> Multiple(o + size, page) < TWO32
    ensures Multiple(o + size, page) >= o + size
  {
    if o + size < TWO32 {
      RoundedUp(o + size, page);
    } else {
      RoundedUp(o + size - TWO32, page);
      MultipleAbove(o + size, page);
    }
  }

  lemma MultipleAbove(n: nat, unit: nat)
    requires unit > 0
    ensures n <= Multiple(n, unit) < n + unit
  {
    Euclid(n + unit - 1, unit);
  }

  /** A base that the kernel chooses is the cursor, which moves to the place's end. */
  lemma CursorPlace(next: u32, q: Request)
    requires q.base == 0 && next % 0x1_0000 == 0
    ensures var p, n := PlaceOf(next, q), Multiple(q.size, 0x1_0000);
            && p.base == next && q.size <= n <= TWO32 && p.size == (if n < TWO32 then n else 0)
            && p.next == Add(p.base, p.size) && p.next % 0x1_0000 == 0
  {
    RoundedUp(q.size, 0x1_0000);
    RoundedUp(next, 0x1_0000);
    AtMultiple(next);
    WholeSum(next, RoundUp(q.size, 0x1_0000));
  }

  lemma AtMultiple(v: u32)
    requires v % 0x1_0000 == 0
    ensures Multiple(v, 0x1_0000) == v
  {
    DivMod(v / 0x1_0000, 0x1_0000, 0xFFFF);
  }

  lemma WholeSum(a: u32, b: u32)
    requires a % 0x1_0000 == 0 && b % 0x1_0000 == 0
    ensures Add(a, b) % 0x1_0000 == 0
  {
  }

  /** Every region is still there and no smaller. */
  predicate Kept(rs: Regions, rs': Regions) {
    forall a :: a in rs ==> a in rs' && rs[a].size <= rs'[a].size
  }

  /** Growing one region, or adding one, keeps the pool's arena in its region. */
  lemma StillInRegion(rs: Regions, rs': Regions, lo: nat, hi: nat)
    requires InRegion(rs, lo, hi) && Kept(rs, rs')
    ensures InRegion(rs', lo, hi)
  {
    var a :| a in rs && a <= lo && hi <= a + rs[a].size;
    assert a in rs';
  }

  /**
   * Exactly when an allocation keeps the regions disjoint, exactly when it keeps them below the cursor, and exactly
   * when it keeps the invariant.
   */
  lemma AllocateKeeps(h: Heap, q: Request)
    requires Inv(h) && q.size != 0
    ensures var p, h', rs := PlaceOf(h.virtNext, q), AfterAllocate(h, q), h.regions;
            && (Apart(h'.regions) <==> Stays(rs, p) || Clear(rs, p))
            && (AllSized(h'.regions, h'.virtNext) <==> Stays(rs, p) || (Tracked(rs, p) && p.base + p.size <= p.next))
            && (Inv(h') <==> Fits(h, q))
            && Kept(rs, h'.regions)
  {
    var p := PlaceOf(h.virtNext, q);
    if q.base == 0 {
      CursorPlace(h.virtNext, q);
      CursorIsFree(h);
      if Fits(h, q) { ChosenHasRoom(h, p); }
    } else {
      ChosenCovers(h.virtNext, q);
    }
    PlaceKeeps(h, p, q);
  }

  /** No region holds the cursor. */
  lemma CursorIsFree(h: Heap)
    requires Inv(h)
    ensures Find(h.regions, h.virtNext).None?
  {
    FindIsScan(h.regions, h.virtNext, h.virtNext);
    forall b: u32 | b in h.regions ensures !Contains(h.regions, b, h.virtNext) {
      assert Sized(b, h.regions[b], h.virtNext);
    }
  }

  /** The four ways in which a place is served. */
  lemma PlaceKeeps(h: Heap, p: Place, q: Request)
    requires Inv(h) && p.next % 0x1_0000 == 0
    requires p.next == h.virtNext || (p.base == h.virtNext && p.next == Add(p.base, p.size) && Find(h.regions, p.base).None?)
    ensures var h', rs := Placed(h, p, q), h.regions;
            && (Apart(h'.regions) <==> Stays(rs, p) || Clear(rs, p))
            && (AllSized(h'.regions, h'.virtNext) <==> Stays(rs, p) || (Tracked(rs, p) && p.base + p.size <= p.next))
            && (Inv(h') <==> Stays(rs, p) || (Tracked(rs, p) && Room(rs, p)))
            && Kept(rs, h'.regions)
  {
    var h' := Placed(h, p, q);
    if Find(h.regions, p.base).Some? && (p.size == 0 || p.base + p.size >= TWO32) {
      LeftAlone(h, p, q);
    } else if p.size == 0 || p.base + p.size >= TWO32 {
      BrokenPlace(h, p, q);
    } else {
      PlacedKeeps(h, h', p, q);
    }
  }

  /** A region that a request does not grow. */
  lemma LeftAlone(h: Heap, p: Place, q: Request)
    requires Inv(h) && p.next == h.virtNext && Find(h.regions, p.base).Some? && (p.size == 0 || p.base + p.size >= TWO32)
    ensures var h' := Placed(h, p, q); Inv(h') && Kept(h.regions, h'.regions) && Extents(h, h')
    ensures p.size == 0 ==> Room(h.regions, p)
  {
    var b := Find(h.regions, p.base).value;
    assert Sized(b, h.regions[b], h.virtNext);
    SameExtents(h, Placed(h, p, q));
  }

  /** A new region without bytes, or past 2^32. */
  lemma BrokenPlace(h: Heap, p: Place, q: Request)
    requires Inv(h) && Find(h.regions, p.base).None? && (p.size == 0 || p.base + p.size >= TWO32)
    ensures var h' := Placed(h, p, q);
            !AllSized(h'.regions, h'.virtNext) && (Apart(h'.regions) <==> Clear(h.regions, p)) && Kept(h.regions, h'.regions)
  {
    var h' := Placed(h, p, q);
    FindIsScan(h.regions, h.virtNext, p.base);
    assert p.base in h'.regions && h'.regions[p.base].size == p.size && !Sized(p.base, h'.regions[p.base], h'.virtNext);
    forall k | k in h.regions ensures k != p.base && (k < p.base ==> k + h.regions[k].size <= p.base) {
      assert Sized(k, h.regions[k], h.virtNext) && !Contains(h.regions, k, p.base);
    }
    if Apart(h'.regions) {
      forall k | k in h.regions && k > p.base ensures p.base + p.size <= k { assert k in h'.regions; }
    }
  }

  /** Two regions that touch; a request in the first runs into the second. */
  const TOUCHING: Heap :=
    Heap(map[0x1_0000 := Region(0x1_0000, true, true, READ_WRITE), 0x2_0000 := Region(0x1_0000, true, true, READ_WRITE)],
         0x3_0000, 0, 0)

  lemma GrownOver(q: Request, p: Place)
    requires q == Request(0x1_8000, 0x1_0000, COMMIT, READ_WRITE) && p == Place(q.base, q.size, TOUCHING.virtNext)
    ensures Inv(TOUCHING) && PlaceOf(TOUCHING.virtNext, q) == p
    ensures !Clear(TOUCHING.regions, p) && !Apart(AfterAllocate(TOUCHING, q).regions)
  {
    PagedPlace(TOUCHING.virtNext, q);
    var k: u32 := 0x2_0000;
    assert k in TOUCHING.regions;
    AllocateKeeps(TOUCHING, q);
  }

  /** A base above the cursor breaks only the bound. */
  lemma AboveCursor(q: Request, p: Place)
    requires q == Request(0x10_0000, 0x1_0000, COMMIT, READ_WRITE) && p == Place(q.base, q.size, TOUCHING.virtNext)
    ensures Inv(TOUCHING) && PlaceOf(TOUCHING.virtNext, q) == p
    ensures var h' := AfterAllocate(TOUCHING, q); Apart(h'.regions) && !AllSized(h'.regions, h'.virtNext)
  {
    PagedPlace(TOUCHING.virtNext, q);
    AllocateKeeps(TOUCHING, q);
  }

  /**
   * The cursor wraps: at the start, after two requests of 2 GiB it is back where it was, and the next base that the
   * kernel chooses is that of the first region.
   */
  lemma WrappedCursor(h: Heap, q: Request, next: Request)
    requires h == EMPTY && q.base == 0 && q.size == 0x8000_0000 && next.base == 0
    ensures var h1 := AfterAllocate(h, q);
            var h2 := AfterAllocate(h1, q);
            Inv(h1) && !Inv(h2) && h2.virtNext == h.virtNext && PlaceOf(h2.virtNext, next).base in h1.regions
  {
    CursorAfter(h, q, q.size);
    CursorAfter(AfterAllocate(h, q), q, q.size);
    CursorPlace(h.virtNext, next);
  }

  /** What a kernel-chosen allocation of whole granules does to the cursor. */
  lemma CursorAfter(h: Heap, q: Request, size: u32)
    requires Inv(h) && q.base == 0 && q.size == size && size % 0x1_0000 == 0 && size != 0
    ensures var h' := AfterAllocate(h, q);
            h'.virtNext == Add(h.virtNext, size) && h.virtNext in h'.regions && (Inv(h') <==> h.virtNext + size < TWO32)
  {
    AtMultiple(size);
    CursorPlace(h.virtNext, q);
    CursorIsFree(h);
    AllocateKeeps(h, q);
  }

  /** Whole pages that the caller chose are taken as they are. */
  lemma PagedPlace(next: u32, q: Request)
    requires q.base != 0 && q.base % 0x1000 == 0 && q.size % 0x1000 == 0 && q.size + 0x1000 < TWO32
    requires !Has(q.flags, LARGE_PAGES)
    ensures PlaceOf(next, q) == Place(q.base, q.size, next)
  {
  }

  lemma ChosenHasRoom(h: Heap, p: Place)
    requires Inv(h) && h.virtNext <= p.base && p.base + p.size == p.next
    ensures Room(h.regions, p)
  {
    forall k | k in h.regions ensures k <= p.base {
      assert Sized(k, h.regions[k], h.virtNext);
    }
  }

  /** The heap with a request served at a place. */
  ghost function Placed(h: Heap, p: Place, q: Request): Heap {
    var at := Find(h.regions, p.base);
    h.(virtNext := p.next,
       regions := if at.Some? then h.regions[at.value := Regrown(at.value, h.regions[at.value], p, q)]
                  else h.regions[p.base := NewRegion(p, q)])
  }

  /** Region b ends at `end` after a request at p was served, in it or as a new one; the others are the same. */
  predicate ServedAt(h: Heap, h': Heap, b: u32, end: nat, p: Place) {
    b in h'.regions && h' == h.(regions := h.regions[b := h'.regions[b]], virtNext := p.next)
    && end == b + h'.regions[b].size && b <= p.base && 0 < p.size && h.virtNext <= p.next
    && if b in h.regions then
         p.base < b + h.regions[b].size
         && end == if p.base + p.size > b + h.regions[b].size then p.base + p.size else b + h.regions[b].size
       else
         b == p.base && end == p.base + p.size && forall k :: k in h.regions && k < b ==> k + h.regions[k].size <= b
  }

  lemma PlacedKeeps(h: Heap, h': Heap, p: Place, q: Request)
    requires Inv(h) && 0 < p.size && p.base + p.size < TWO32 && h.virtNext <= p.next && h' == Placed(h, p, q)
    requires p.next % 0x1_0000 == 0
    ensures Apart(h'.regions) <==> Clear(h.regions, p)
    ensures AllSized(h'.regions, h'.virtNext) <==> p.base + p.size <= p.next
    ensures Inv(h') <==> Room(h.regions, p)
    ensures Kept(h.regions, h'.regions)
  {
    var at := Find(h.regions, p.base);
    var b := if at.Some? then at.value else p.base;
    var end := b + h'.regions[b].size;
    ServedThere(h, h', p, q, b, end);
    SizedIff(h, h', b, end, p);
    ApartIff(h, h', b, end, p);
    if h.poolCur != 0 { StillInRegion(h.regions, h'.regions, h.poolCur, h.poolEnd); }
  }

  lemma ServedThere(h: Heap, h': Heap, p: Place, q: Request, b: u32, end: nat)
    requires Inv(h) && 0 < p.size && p.base + p.size < TWO32 && h.virtNext <= p.next && h' == Placed(h, p, q)
    requires b == if Find(h.regions, p.base).Some? then Find(h.regions, p.base).value else p.base
    requires end == b + h'.regions[b].size
    ensures ServedAt(h, h', b, end, p)
  {
    FindIsScan(h.regions, h.virtNext, p.base);
    if Find(h.regions, p.base).Some? {
      assert Sized(b, h.regions[b], h.virtNext);
      GrownEnd(h, b, p, q);
    } else {
      forall k | k in h.regions && k < b ensures k + h.regions[k].size <= b {
        assert Sized(k, h.regions[k], h.virtNext) && !Contains(h.regions, k, p.base);
      }
      assert b in h.regions ==> Sized(b, h.regions[b], h.virtNext) && !Contains(h.regions, b, p.base);
    }
  }

  lemma GrownEnd(h: Heap, b: u32, p: Place, q: Request)
    requires Inv(h) && Contains(h.regions, b, p.base) && p.base + p.size < TWO32
    ensures var r := h.regions[b];
            b + Regrown(b, r, p, q).size == if p.base + p.size > b + r.size then p.base + p.size else b + r.size
  {
    assert Sized(b, h.regions[b], h.virtNext);
  }

  lemma SizedIff(h: Heap, h': Heap, b: u32, end: nat, p: Place)
    requires AllSized(h.regions, h.virtNext) && ServedAt(h, h', b, end, p)
    ensures AllSized(h'.regions, h'.virtNext) <==> p.base + p.size <= p.next
    ensures Kept(h.regions, h'.regions)
  {
    forall k | k in h.regions ensures Sized(k, h.regions[k], p.next) {
      assert Sized(k, h.regions[k], h.virtNext);
    }
    assert Sized(b, h'.regions[b], p.next) <==> p.base + p.size <= p.next;
  }

  lemma ApartIff(h: Heap, h': Heap, b: u32, end: nat, p: Place)
    requires AllSized(h.regions, h.virtNext) && Apart(h.regions) && ServedAt(h, h', b, end, p)
    ensures Apart(h'.regions) <==> Clear(h.regions, p)
  {
    if Clear(h.regions, p) {
      forall k | k in h.regions && b < k ensures end <= k {
        assert b in h.regions ==> b + h.regions[b].size <= k;
      }
    } else {
      var k :| k in h.regions && k > p.base && k < p.base + p.size;
      assert k in h'.regions && k != b && end > k;
    }
  }

  // ---- PoolAlloc ---------------------------------------------------------------------------------

  const ARENA: nat := 0x80_0000

  function ArenaSize(size: u32): u32 {
    RoundUp(if size > ARENA then size else ARENA, 0x1_0000)
  }

  /** The current arena has no room for a block. */
  predicate NeedsArena(h: Heap, size: u32) {
    h.poolCur == 0 || Add(h.poolCur, size) > h.poolEnd
  }

  function WithArena(h: Heap, size: u32): Heap {
    var base := RoundUp(h.virtNext, 0x1_0000);
    var arena := ArenaSize(size);
    Heap(h.regions[base := Region(arena, true, true, READ_WRITE)], Add(base, arena), base, Add(base, arena))
  }

  /** The heap after an allocation of a rounded, non-zero size; the block is at the cursor before it moves. */
  function PoolRoom(h: Heap, size: u32): Heap {
    if NeedsArena(h, size) then WithArena(h, size) else h
  }

  function PoolTaken(h: Heap, request: u32): (Heap, Block) {
    var size := RoundUp(request, 16);
    var g := PoolRoom(h, size);
    (g.(poolCur := Add(g.poolCur, size)), Block(g.poolCur, Multiple(request, 16)))
  }

  function Larger(a: nat, b: nat): nat {
    if a > b then a else b
  }

  /** What a pool request must meet: the block fits into the rest of the arena, or a new arena ends below 2^32. */
  predicate PoolFits(h: Heap, request: u32) {
    var n := Multiple(request, 16);
    (h.poolCur != 0 && h.poolCur + n <= h.poolEnd) || h.virtNext + Multiple(Larger(n, ARENA), 0x1_0000) < TWO32
  }

  /** A new arena lies at the cursor; it is usable exactly when it ends below 2^32. */
  lemma ArenaKeeps(h: Heap, n: nat, blocks: seq<Block>)
    requires Inv(h) && BlocksOk(h, blocks) && n < TWO32
    ensures var g := WithArena(h, n);
            g.poolCur == h.virtNext
            && if h.virtNext + Multiple(Larger(n, ARENA), 0x1_0000) < TWO32 then
                 Inv(g) && BlocksOk(g, blocks) && g.poolCur + n <= g.poolEnd
               else !AllSized(g.regions, g.virtNext)
  {
    var base, arena, m := RoundUp(h.virtNext, 0x1_0000), ArenaSize(n), Multiple(Larger(n, ARENA), 0x1_0000);
    RoundedUp(h.virtNext, 0x1_0000);
    AtMultiple(h.virtNext);
    RoundedUp(Larger(n, ARENA), 0x1_0000);
    if h.virtNext + m < TWO32 {
      Aligned16(base);
      WholeSum(base, arena);
      NewArena(h, WithArena(h, n), base, arena, blocks);
    } else {
      var g := WithArena(h, n);
      assert base in g.regions && g.regions[base].size == arena && !Sized(base, g.regions[base], g.virtNext);
    }
  }

  lemma Aligned16(v: nat)
    requires v % 0x1_0000 == 0
    ensures v % 16 == 0
  {
    assert v == v / 0x1_0000 * 0x1000 * 16;
  }

  lemma NewArena(h: Heap, g: Heap, base: u32, arena: u32, blocks: seq<Block>)
    requires Inv(h) && BlocksOk(h, blocks) && base % 16 == 0 && h.virtNext <= base && 0 < arena && 0 < base
    requires base + arena < TWO32 && (base + arena) % 0x1_0000 == 0
    requires g == Heap(h.regions[base := Region(arena, true, true, READ_WRITE)], base + arena, base, base + arena)
    ensures Inv(g) && BlocksOk(g, blocks)
  {
    forall k | k in h.regions ensures k + h.regions[k].size <= base && k != base {
      assert Sized(k, h.regions[k], h.virtNext);
    }
    forall k | k in g.regions ensures Sized(k, g.regions[k], g.virtNext) {
      if k != base { assert Sized(k, h.regions[k], h.virtNext); }
    }
    assert base in g.regions;
    forall i | 0 <= i < |blocks| ensures Allocated(g, blocks[i]) {
      InOldRegion(h, base, blocks[i]);
      StillInRegion(h.regions, g.regions, blocks[i].base, blocks[i].base + blocks[i].size);
    }
  }

  lemma InOldRegion(h: Heap, base: u32, k: Block)
    requires Inv(h) && Allocated(h, k) && h.virtNext <= base
    ensures k.base + k.size <= base
  {
    var a :| a in h.regions && a <= k.base && k.base + k.size <= a + h.regions[a].size;
    assert Sized(a, h.regions[a], h.virtNext);
  }

  /**
   * Exactly when a pool allocation keeps everything. The block is then new, 16-aligned, in a region, and at least as
   * large as asked for.
   */
  lemma PoolKeeps(h: Heap, request: u32, blocks: seq<Block>)
    requires Inv(h) && BlocksOk(h, blocks) && request != 0
    ensures var (g, k) := PoolTaken(h, request);
            k.size >= request && (Inv(g) && BlocksOk(g, blocks + [k]) <==> PoolFits(h, request))
            && (PoolFits(h, request) ==> k.base != 0)
  {
    var n := Multiple(request, 16);
    RoundedUp(request, 16);
    if h.poolCur != 0 { PoolEndsInside(h, n); }
    if PoolFits(h, request) {
      PoolServed(h, request, n, blocks);
    } else {
      PoolBroken(h, request, n, blocks);
    }
  }

  lemma PoolServed(h: Heap, request: u32, n: nat, blocks: seq<Block>)
    requires Inv(h) && BlocksOk(h, blocks) && request != 0 && PoolFits(h, request) && n == Multiple(request, 16)
    requires n % 16 == 0 && request <= n && (h.poolCur != 0 ==> h.poolEnd <= h.virtNext)
    ensures var (g, k) := PoolTaken(h, request); Inv(g) && BlocksOk(g, blocks + [k]) && k.base != 0
  {
    MultipleAbove(Larger(n, ARENA), 0x1_0000);
    RoundedUp(request, 16);
    RoomServed(h, n, blocks);
    var (g, k) := PoolTaken(h, request);
    var r := PoolRoom(h, n);
    PoolEndsInside(r, n);
    TakeKeeps(r, g, k, blocks);
  }

  /** The arena that the block is taken from. */
  lemma RoomServed(h: Heap, n: nat, blocks: seq<Block>)
    requires Inv(h) && BlocksOk(h, blocks) && n < TWO32 && (h.poolCur != 0 ==> h.poolEnd <= h.virtNext)
    requires (h.poolCur != 0 && h.poolCur + n <= h.poolEnd) || h.virtNext + Multiple(Larger(n, ARENA), 0x1_0000) < TWO32
    ensures var r := PoolRoom(h, n); Inv(r) && BlocksOk(r, blocks) && r.poolCur != 0 && r.poolCur + n <= r.poolEnd
  {
    MultipleAbove(Larger(n, ARENA), 0x1_0000);
    if NeedsArena(h, n) { ArenaKeeps(h, n, blocks); }
  }

  /** Otherwise the block ends past 2^32, or the arena does. */
  lemma PoolBroken(h: Heap, request: u32, n: nat, blocks: seq<Block>)
    requires Inv(h) && BlocksOk(h, blocks) && request != 0 && !PoolFits(h, request) && n == Multiple(request, 16)
    requires n <= TWO32 && (h.poolCur != 0 ==> h.poolEnd <= h.virtNext)
    ensures var (g, k) := PoolTaken(h, request); !(Inv(g) && BlocksOk(g, blocks + [k]))
  {
    var (g, k) := PoolTaken(h, request);
    RoundedUp(request, 16);
    var size := RoundUp(request, 16);
    if NeedsArena(h, size) { ArenaKeeps(h, size, blocks); }
    if n < TWO32 && NeedsArena(h, size) {
    } else {
      assert k.base + k.size >= TWO32;
      assert (blocks + [k])[|blocks|] == k;
      if Inv(g) && InRegion(g.regions, k.base, k.base + k.size) {
        EndsBelow(g, k.base, k.base + k.size);
      }
    }
  }

  lemma EndsBelow(g: Heap, lo: nat, hi: nat)
    requires Inv(g) && InRegion(g.regions, lo, hi)
    ensures hi < TWO32
  {
    var a :| a in g.regions && a <= lo && hi <= a + g.regions[a].size;
    assert Sized(a, g.regions[a], g.virtNext);
  }

  /** The heap after one block of 64 KiB was taken from the first arena. */
  const ONE_BLOCK: Heap := Heap(map[0x1_0000 := Region(0x80_0000, true, true, READ_WRITE)], 0x81_0000, 0x2_0000, 0x81_0000)

  /**
   * The sum with the pool's cursor wraps: a request of nearly 4 GiB is served from an arena of 8 MiB, and the cursor moves
   * back to the first block, which the next request gets again.
   */
  lemma WrappedPool(request: u32, next: u32, first: Block)
    requires request == 0xFFFF_0000 && 0 < next <= 0x1000 && first == Block(0x1_0000, 0x1_0000)
    ensures Inv(ONE_BLOCK) && BlocksOk(ONE_BLOCK, [first]) && !PoolFits(ONE_BLOCK, request)
    ensures var (g, k) := PoolTaken(ONE_BLOCK, request);
            k == Block(0x2_0000, request) && g.poolCur == first.base && PoolTaken(g, next).1.base == first.base
  {
    Inside64(first.base);
    Whole16(request);
    WrappedTake(ONE_BLOCK, request);
    PoolEndsInside(ONE_BLOCK, request);
    var (g, _) := PoolTaken(ONE_BLOCK, request);
    SmallTake(g, next);
  }

  /** A block whose sum with the cursor wraps to a place before the arena's end. */
  lemma WrappedTake(h: Heap, request: u32)
    requires h.poolCur != 0 && request % 16 == 0 && TWO32 <= h.poolCur + request <= TWO32 + h.poolEnd
    ensures PoolTaken(h, request) == (h.(poolCur := h.poolCur + request - TWO32), Block(h.poolCur, request))
  {
    Whole16(request);
  }

  lemma Whole16(v: u32)
    requires v % 16 == 0
    ensures Multiple(v, 16) == v && RoundUp(v, 16) == v
  {
    RoundedUp(v, 16);
    SameMultiple(v, Multiple(v, 16));
  }

  lemma SameMultiple(v: nat, n: nat)
    requires v % 16 == 0 && n % 16 == 0 && v <= n < v + 16
    ensures n == v
  {
  }

  lemma SmallTake(h: Heap, request: u32)
    requires h.poolCur != 0 && request <= 0x1000 && h.poolCur + 0x2000 <= h.poolEnd
    ensures PoolTaken(h, request).1.base == h.poolCur
  {
    RoundedUp(request, 16);
  }

  lemma Inside64(base: u32)
    requires base == 0x1_0000
    ensures Inv(ONE_BLOCK) && BlocksOk(ONE_BLOCK, [Block(base, 0x1_0000)])
  {
    assert base in ONE_BLOCK.regions;
    assert InRegion(ONE_BLOCK.regions, base, 0x2_0000) && InRegion(ONE_BLOCK.regions, 0x2_0000, 0x81_0000);
  }

  lemma PoolEndsInside(r: Heap, n: nat)
    requires Inv(r) && r.poolCur != 0
    ensures r.poolEnd <= r.virtNext
    ensures r.poolCur + n >= TWO32 ==> r.virtNext + Multiple(Larger(n, ARENA), 0x1_0000) >= TWO32
  {
    var a :| a in r.regions && a <= r.poolCur && r.poolEnd <= a + r.regions[a].size;
    assert Sized(a, r.regions[a], r.virtNext);
    MultipleAbove(Larger(n, ARENA), 0x1_0000);
  }

  lemma TakeKeeps(r: Heap, g: Heap, k: Block, blocks: seq<Block>)
    requires Inv(r) && BlocksOk(r, blocks) && r.poolCur != 0
    requires k.base == r.poolCur && k.size % 16 == 0 && 0 < k.size && k.base + k.size <= r.poolEnd
    requires g == r.(poolCur := k.base + k.size)
    ensures Inv(g) && BlocksOk(g, blocks + [k])
  {
    var all := blocks + [k];
    Sum16(k.base, k.size);
    PoolPart(r.regions, r.poolCur, r.poolEnd, g.poolCur, r.poolEnd);
    PoolPart(r.regions, r.poolCur, r.poolEnd, k.base, k.base + k.size);
    forall i | 0 <= i < |all|
      ensures Allocated(g, all[i]) && (i < |blocks| ==> all[i].base + all[i].size <= k.base || k.base + k.size <= all[i].base)
    {
      if i < |blocks| { StillAllocated(r, g, k, blocks[i]); }
    }
  }

  lemma Sum16(a: nat, b: nat)
    requires a % 16 == 0 && b % 16 == 0
    ensures (a + b) % 16 == 0
  {
  }

  lemma PoolPart(rs: Regions, lo: nat, hi: nat, lo': nat, hi': nat)
    requires InRegion(rs, lo, hi) && lo <= lo' && hi' <= hi
    ensures InRegion(rs, lo', hi')
  {
    var a :| a in rs && a <= lo && hi <= a + rs[a].size;
  }

  /** An earlier block is not in the part of the arena that a new one takes. */
  lemma StillAllocated(r: Heap, g: Heap, k: Block, b: Block)
    requires Allocated(r, b) && k.base == r.poolCur && k.base + k.size <= r.poolEnd && g == r.(poolCur := k.base + k.size)
    ensures Allocated(g, b) && (b.base + b.size <= k.base || k.base + k.size <= b.base)
  {
  }

  /** Regions allocated elsewhere leave the pool's blocks alone. */
  lemma AllocateKeepsBlocks(h: Heap, q: Request, blocks: seq<Block>)
    requires Inv(h) && q.size != 0 && BlocksOk(h, blocks)
    ensures BlocksOk(AfterAllocate(h, q), blocks)
  {
    var h' := AfterAllocate(h, q);
    AllocateKeeps(h, q);
    forall i | 0 <= i < |blocks| ensures Allocated(h', blocks[i]) {
      var k := blocks[i];
      assert Allocated(h, k);
      StillInRegion(h.regions, h'.regions, k.base, k.base + k.size);
    }
  }

  // ---- NtFreeVirtualMemory -----------------------------------------------------------------------

  /** A range of memory, as written back to the caller. */
  datatype Range = Range(base: u32, size: u32)

  predicate Paged(v: nat) {
    v % 0x1000 == 0
  }

  function Sub(a: u32, b: u32): u32 {
    if a >= b then a - b else a + TWO32 - b
  }

  /** The range of a decommit as the caller asked for it, in whole pages; size 0 means to the region's end. */
  function Requested(rb: u32, r: Region, base: u32, size: u32): Range {
    var aligned := Down(base, 0x1000);
    Range(aligned, if size != 0 then RoundUp(Add(base - aligned, size), 0x1000) else Sub(Add(rb, r.size), aligned))
  }

  /** The same, clipped to the region. */
  function Clipped(rb: u32, r: Region, q: Range): Range {
    var base := if q.base < rb then rb else q.base;
    Range(base, if Add(base, q.size) > Add(rb, r.size) then Sub(Add(rb, r.size), base) else q.size)
  }

  /** The range that a free writes back. */
  function FreedRange(rb: u32, r: Region, base: u32, size: u32, flags: u32): Range {
    if Has(flags, RELEASE) then Range(rb, r.size) else Clipped(rb, r, Requested(rb, r, base, size))
  }

  function FreedRegion(rb: u32, r: Region, f: Range, flags: u32): Region {
    if Has(flags, RELEASE) then r.(reserved := false, committed := false)
    else if f.base == rb && f.size >= r.size then r.(committed := false)
    else r
  }

  /** The memory that a free of a range zeroes. */
  predicate Zeroed(rb: u32, r: Region, f: Range, x: int) {
    rb <= f.base && Add(f.base, f.size) <= Add(rb, r.size) && f.base <= x < f.base + f.size
  }

  predicate Inside(rb: u32, r: Region, f: Range) {
    rb <= f.base && f.base + f.size <= rb + r.size
  }

  predicate PageAligned(rb: u32, r: Region) {
    Paged(rb) && Paged(r.size) && rb + r.size < TWO32
  }

  lemma RequestedStart(rb: u32, r: Region, base: u32, size: u32)
    requires PageAligned(rb, r) && rb <= base < rb + r.size
    ensures var q := Requested(rb, r, base, size);
            rb <= q.base <= base < q.base + 0x1000 <= rb + r.size && Paged(q.base) && Paged(q.size) && Paged(rb + r.size - q.base)
  {
    var pages, first, last := base / 0x1000, rb / 0x1000, (rb + r.size) / 0x1000;
    assert base == pages * 0x1000 + base % 0x1000 && rb == first * 0x1000 && rb + r.size == last * 0x1000;
    assert first <= pages < last;
  }

  /** The next page boundary, without wrapping. */
  function PagesUp(n: nat): nat {
    n + 0xFFF - (n + 0xFFF) % 0x1000
  }

  /** The requested bytes that are in the region, and less than a page more on either side. */
  predicate Reaches(rb: u32, r: Region, base: u32, size: u32, f: Range) {
    var end := rb + r.size;
    var wanted := if size != 0 && base + size < end then base + size else end;
    Inside(rb, r, f) && f.base <= base < f.base + 0x1000 && wanted <= f.base + f.size < wanted + 0x1000
  }

  predicate Serves(rb: u32, r: Region, base: u32, size: u32, f: Range) {
    Reaches(rb, r, base, size, f) && Paged(f.base) && Paged(f.size)
  }

  /**
   * What a decommit is for: the range written back serves the request, exactly its bytes are zeroed, and the
   * region is no longer committed only when the range is all of it.
   */
  ghost predicate Decommits(rb: u32, r: Region, base: u32, size: u32, flags: u32) {
    var f := FreedRange(rb, r, base, size, flags);
    Serves(rb, r, base, size, f)
    && (forall x {:trigger Zeroed(rb, r, f, x)} :: Zeroed(rb, r, f, x) <==> f.base <= x < f.base + f.size)
    && FreedRegion(rb, r, f, flags) == if f == Range(rb, r.size) then r.(committed := false) else r
  }

  /**
   * The request asks for the rest of the region; or ends, in whole pages, below 2^32; or is longer than 4 GiB
   * from its page on, which wraps to one page, and starts in the region's last page.
   */
  predicate Servable(rb: u32, r: Region, base: u32, size: u32) {
    size == 0 || PagesUp(base + size) < TWO32
    || (base % 0x1000 + size > TWO32 && base - base % 0x1000 + 0x1000 == rb + r.size)
  }

  lemma PagesFromPage(page: nat, s: nat)
    requires Paged(page)
    ensures PagesUp(page + s) == page + PagesUp(s) && s <= PagesUp(s) < s + 0x1000
  {
  }

  /** A rounding that wraps leaves a page or nothing. */
  lemma WrappedPages(o: nat, size: u32)
    requires o < 0x1000 && o + size + 0xFFF >= TWO32
    ensures RoundUp(Add(o, size), 0x1000) == if o + size > TWO32 then 0x1000 else 0
  {
  }

  /** Without a wrap it is the number of pages. */
  lemma PlainPages(o: nat, size: u32)
    requires o + size + 0xFFF < TWO32
    ensures RoundUp(Add(o, size), 0x1000) == PagesUp(o + size)
  {
  }

  /** Whether the clipped range reaches far enough, by the number of bytes in the requested pages. */
  lemma ClippedReaches(rb: u32, r: Region, base: u32, size: u32, q: Range)
    requires rb <= q.base <= base < q.base + 0x1000 <= rb + r.size < TWO32
    requires if size == 0 then q.base + q.size == rb + r.size
             else if base - q.base + size + 0xFFF < TWO32 then base + size <= q.base + q.size < base + size + 0x1000
             else q.size == if base - q.base + size > TWO32 then 0x1000 else 0
    ensures Reaches(rb, r, base, size, Clipped(rb, r, q))
       <==> size == 0 || (base - q.base + size + 0xFFF < TWO32 && q.base + q.size < TWO32)
            || (base - q.base + size > TWO32 && q.base + 0x1000 == rb + r.size)
  {
  }

  /** Exactly when the range that a decommit writes back serves its request. */
  lemma DecommitServes(rb: u32, r: Region, base: u32, size: u32)
    requires PageAligned(rb, r) && rb <= base < rb + r.size
    ensures Serves(rb, r, base, size, Clipped(rb, r, Requested(rb, r, base, size))) <==> Servable(rb, r, base, size)
  {
    RequestedStart(rb, r, base, size);
    var q := Requested(rb, r, base, size);
    RequestedLength(rb, r, base, size, q);
    ClippedReaches(rb, r, base, size, q);
  }

  lemma RequestedLength(rb: u32, r: Region, base: u32, size: u32, q: Range)
    requires q == Requested(rb, r, base, size) && q.base <= base < rb + r.size < TWO32 && Paged(q.base)
    ensures base - q.base == base % 0x1000
    ensures if size == 0 then q.base + q.size == rb + r.size
            else if base - q.base + size + 0xFFF < TWO32 then
              base + size <= q.base + q.size < base + size + 0x1000 && PagesUp(base + size) == q.base + q.size
            else PagesUp(base + size) >= TWO32 && q.size == if base - q.base + size > TWO32 then 0x1000 else 0
  {
    RequestedParts(rb, r, base, size);
    if size != 0 {
      LengthOf(q.base, base % 0x1000, base, size, q.size);
    }
  }

  lemma RequestedParts(rb: u32, r: Region, base: u32, size: u32)
    requires base < rb + r.size < TWO32
    ensures var q, o := Requested(rb, r, base, size), base % 0x1000;
            q.base == base - o && if size == 0 then q.base + q.size == rb + r.size else q.size == RoundUp(Add(o, size), 0x1000)
  {
  }

  /** The rounded length of a request o bytes into its page. */
  lemma LengthOf(page: u32, o: nat, base: u32, size: u32, n: u32)
    requires Paged(page) && o < 0x1000 && base == page + o && n == RoundUp(Add(o, size), 0x1000)
    ensures if o + size + 0xFFF < TWO32 then base + size <= page + n < base + size + 0x1000 && PagesUp(base + size) == page + n
            else PagesUp(base + size) >= TWO32 && n == if o + size > TWO32 then 0x1000 else 0
  {
    PagesFromPage(page, o + size);
    if o + size + 0xFFF < TWO32 { PlainPages(o, size); } else { WrappedPages(o, size); }
  }

  /** Exactly when a decommit does what it is for. */
  lemma Decommit(rb: u32, r: Region, base: u32, size: u32, flags: u32)
    requires PageAligned(rb, r) && rb <= base < rb + r.size && !Has(flags, RELEASE)
    ensures Decommits(rb, r, base, size, flags) <==> Servable(rb, r, base, size)
  {
    DecommitServes(rb, r, base, size);
  }

  /** A request whose end wraps: of a region of 64 KiB nearly 4 GiB are written back. */
  lemma WrappedDecommit(rb: u32, r: Region, size: u32)
    requires rb == 0x1_0000 && r == Region(0x1_0000, true, true, READ_WRITE) && size == 0xFFFF_0000
    ensures FreedRange(rb, r, rb, size, DECOMMIT) == Range(rb, size)
    ensures !Inside(rb, r, Range(rb, size)) && !Servable(rb, r, rb, size)
  {
    WholeRequest(rb, size);
  }

  lemma WholeRequest(rb: u32, size: u32)
    requires rb % 0x1000 == 0 && size % 0x1000 == 0 && size + 0x1000 <= TWO32
    ensures Down(rb, 0x1000) == rb && RoundUp(Add(rb - rb, size), 0x1000) == size && PagesUp(rb + size) == rb + size
  {
  }

  /** A request whose length wraps when it is rounded: nothing of the region is written back, or zeroed. */
  lemma LostDecommit(rb: u32, r: Region, size: u32)
    requires rb == 0x1_0000 && r == Region(0x1_0000, true, true, READ_WRITE) && size == 0xFFFF_FFFF
    ensures FreedRange(rb, r, rb, size, DECOMMIT) == Range(rb, 0)
    ensures Inside(rb, r, Range(rb, 0)) && !Servable(rb, r, rb, size)
  {
    WrappedPages(0, size);
    PagesFromPage(rb, size);
  }

  /** A free changes no base and no size, so it keeps every invariant. */
  lemma FreeKeeps(h: Heap, rb: u32, r': Region, blocks: seq<Block>)
    requires Inv(h) && BlocksOk(h, blocks) && rb in h.regions && r'.size == h.regions[rb].size
    ensures Inv(h.(regions := h.regions[rb := r'])) && BlocksOk(h.(regions := h.regions[rb := r']), blocks)
  {
    var h' := h.(regions := h.regions[rb := r']);
    SameExtents(h, h');
    forall i | 0 <= i < |blocks| ensures Allocated(h', blocks[i]) {
      SameBlock(h, h', blocks[i]);
    }
  }

  predicate Extents(h: Heap, h': Heap) {
    h' == h.(regions := h'.regions) && h'.regions.Keys == h.regions.Keys
    && forall b :: b in h.regions ==> h'.regions[b].size == h.regions[b].size
  }

  lemma SameExtents(h: Heap, h': Heap)
    requires Inv(h) && Extents(h, h')
    ensures Inv(h')
  {
    forall b | b in h'.regions ensures Sized(b, h'.regions[b], h.virtNext) {
      assert Sized(b, h.regions[b], h.virtNext);
    }
    if h.poolCur != 0 {
      StillInRegion(h.regions, h'.regions, h.poolCur, h.poolEnd);
    }
  }

  lemma SameBlock(h: Heap, h': Heap, k: Block)
    requires Allocated(h, k) && Extents(h, h')
    ensures Allocated(h', k)
  {
    StillInRegion(h.regions, h'.regions, k.base, k.base + k.size);
  }

  // ---- runs --------------------------------------------------------------------------------------

  datatype Call = Allocate(q: Request) | Pool(size: u32) | Free(base: u32, size: u32, flags: u32)

  datatype World = World(heap: Heap, blocks: seq<Block>)

  ghost function Freed(h: Heap, base: u32, size: u32, flags: u32): Heap {
    match Find(h.regions, base)
    case None => h
    case Some(rb) =>
      var r := h.regions[rb];
      h.(regions := h.regions[rb := FreedRegion(rb, r, FreedRange(rb, r, base, size, flags), flags)])
  }

  ghost function After(w: World, c: Call): World {
    match c
    case Allocate(q) => if q.size == 0 then w else w.(heap := AfterAllocate(w.heap, q))
    case Pool(size) =>
      if size == 0 then w else var (g, k) := PoolTaken(w.heap, size); World(g, w.blocks + [k])
    case Free(base, size, flags) => w.(heap := Freed(w.heap, base, size, flags))
  }

  /** What a call must meet. */
  ghost predicate Proper(w: World, c: Call) {
    match c
    case Allocate(q) => q.size != 0 ==> Fits(w.heap, q)
    case Pool(size) => size != 0 ==> PoolFits(w.heap, size)
    case Free(_, _, _) => true
  }

  /** Regions are disjoint and below the cursor; blocks are 16-aligned, inside regions and disjoint. */
  ghost predicate Good(w: World) {
    Inv(w.heap) && BlocksOk(w.heap, w.blocks)
  }

  /** A caller-chosen range inside a tracked region fits. */
  lemma InsideHasRoom(h: Heap, q: Request, b: u32)
    requires Inv(h) && q.base != 0 && b in h.regions
    requires var p := PlaceOf(h.virtNext, q); b <= p.base < b + h.regions[b].size && p.base + p.size <= b + h.regions[b].size
    ensures Fits(h, q)
  {
    var p := PlaceOf(h.virtNext, q);
    assert Sized(b, h.regions[b], h.virtNext);
    FindIsScan(h.regions, h.virtNext, p.base);
    assert Contains(h.regions, b, p.base);
    assert p.next == h.virtNext;
    forall k | k in h.regions && k > p.base ensures p.base + p.size <= k { }
  }

  ghost predicate IsRun(w: World, calls: seq<Call>)
    decreases |calls|
  {
    calls == [] || (Proper(w, calls[0]) && IsRun(After(w, calls[0]), calls[1..]))
  }

  ghost function Final(w: World, calls: seq<Call>): World
    decreases |calls|
  {
    if calls == [] then w else Final(After(w, calls[0]), calls[1..])
  }

  /** Every state of a run is good. */
  ghost predicate AllGood(w: World, calls: seq<Call>)
    decreases |calls|
  {
    Good(w) && (calls == [] || AllGood(After(w, calls[0]), calls[1..]))
  }

  /** Exactly which calls keep a good state good. */
  lemma CallKeeps(w: World, c: Call)
    requires Good(w)
    ensures Good(After(w, c)) <==> Proper(w, c)
  {
    match c
    case Allocate(q) =>
      if q.size != 0 {
        AllocateKeeps(w.heap, q);
        AllocateKeepsBlocks(w.heap, q, w.blocks);
      }
    case Pool(size) => if size != 0 { PoolKeeps(w.heap, size, w.blocks); }
    case Free(base, size, flags) =>
      match Find(w.heap.regions, base) {
        case None =>
        case Some(rb) =>
          var r := w.heap.regions[rb];
          FreeKeeps(w.heap, rb, FreedRegion(rb, r, FreedRange(rb, r, base, size, flags), flags), w.blocks);
      }
  }

  /**
   * Over every run: all its states keep regions disjoint and below the cursor, and all pool blocks ever handed out
   * 16-aligned, inside regions and disjoint, if and only if every call is proper when it is made.
   */
  lemma {:induction false} RunKeeps(w: World, calls: seq<Call>)
    requires Good(w)
    ensures AllGood(w, calls) <==> IsRun(w, calls)
    ensures IsRun(w, calls) ==> Good(Final(w, calls))
    decreases |calls|
  {
    if calls != [] {
      CallKeeps(w, calls[0]);
      var w' := After(w, calls[0]);
      if Good(w') { RunKeeps(w', calls[1..]); }
    }
  }

  lemma FromStart(calls: seq<Call>)
    ensures var w := World(EMPTY, []); AllGood(w, calls) <==> IsRun(w, calls)
  {
    RunKeeps(World(EMPTY, []), calls);
  }

  // ---- whole pages -------------------------------------------------------------------------------

  /** Every region starts and ends at a page. */
  predicate AllPaged(h: Heap) {
    forall b :: b in h.regions ==> Paged(b) && Paged(h.regions[b].size)
  }

  lemma DownIsPaged(v: u32, page: nat)
    requires page == 0x1000 || page == 0x1_0000
    ensures Paged(Down(v, page))
  {
    assert Down(v, page) == v / page * (page / 0x1000) * 0x1000;
  }

  lemma PagedSum(a: nat, b: nat)
    requires Paged(a) && Paged(b)
    ensures Paged(a + b) && (b <= a ==> Paged(a - b))
  {
  }

  lemma RoundUpIsPaged(v: u32, page: nat)
    requires page == 0x1000 || page == 0x1_0000
    ensures Paged(RoundUp(v, page))
  {
    DownIsPaged(Add(v, page - 1), page);
  }

  lemma ChosenIsPaged(base: u32, size: u32, page: nat, next: u32)
    requires page == 0x1000 || page == 0x1_0000
    ensures var p := ChosenPlace(base, size, page, next); Paged(p.base) && Paged(p.size)
  {
    DownIsPaged(base, page);
    RoundUpIsPaged(Add(size, base - Down(base, page)), page);
  }

  lemma PlaceIsPaged(virtNext: u32, q: Request)
    ensures var p := PlaceOf(virtNext, q); Paged(p.base) && Paged(p.size)
  {
    if q.base != 0 {
      ChosenIsPaged(q.base, q.size, PageSize(q), virtNext);
    } else {
      RoundUpIsPaged(q.size, 0x1_0000);
      RoundUpIsPaged(virtNext, 0x1_0000);
    }
  }

  lemma AllocateKeepsPages(h: Heap, q: Request)
    requires AllPaged(h)
    ensures AllPaged(AfterAllocate(h, q))
  {
    var p := PlaceOf(h.virtNext, q);
    PlaceIsPaged(h.virtNext, q);
    var at := Find(h.regions, p.base);
    if at.Some? { GrownIsPaged(at.value, h.regions[at.value], p, q); }
    PlacedPages(h, p, q);
  }

  lemma GrownIsPaged(b: u32, r: Region, p: Place, q: Request)
    requires b <= p.base && Paged(b) && Paged(r.size) && Paged(p.base) && Paged(p.size)
    ensures Paged(Regrown(b, r, p, q).size)
  {
    PagedSum(p.base, b);
    AddIsPaged(p.base - b, p.size);
  }

  lemma AddIsPaged(a: u32, b: u32)
    requires Paged(a) && Paged(b)
    ensures Paged(Add(a, b))
  {
    PagedSum(a, b);
    PagedSum(a + b, TWO32);
  }

  lemma PlacedPages(h: Heap, p: Place, q: Request)
    requires AllPaged(h) && Paged(p.base) && Paged(p.size)
    requires var at := Find(h.regions, p.base);
             at.Some? ==> Paged(Regrown(at.value, h.regions[at.value], p, q).size)
    ensures AllPaged(Placed(h, p, q))
  {
  }

  lemma CallKeepsPages(w: World, c: Call)
    requires AllPaged(w.heap)
    ensures AllPaged(After(w, c).heap)
  {
    match c
    case Allocate(q) => if q.size != 0 { AllocateKeepsPages(w.heap, q); }
    case Pool(size) =>
      RoundUpIsPaged(w.heap.virtNext, 0x1_0000);
      var block := RoundUp(size, 16);
      RoundUpIsPaged(if block > ARENA then block else ARENA, 0x1_0000);
    case Free(_, _, _) =>
  }

  /** Over every run at all regions are whole pages. */
  lemma {:induction false} RunKeepsPages(w: World, calls: seq<Call>)
    requires AllPaged(w.heap)
    ensures AllPaged(Final(w, calls).heap)
    decreases |calls|
  {
    if calls != [] {
      CallKeepsPages(w, calls[0]);
      RunKeepsPages(After(w, calls[0]), calls[1..]);
    }
  }

  /** So a free in a good state meets a region as `Decommit` asks for it. */
  lemma FreesWholePages(w: World, b: u32)
    requires Good(w) && AllPaged(w.heap) && b in w.heap.regions
    ensures PageAligned(b, w.heap.regions[b])
  {
    assert Sized(b, w.heap.regions[b], w.heap.virtNext);
  }

  // ---- what a free does, by its numbers ----------------------------------------------------------

  /** Of the regions that start at or below addr the last one is rb, it ends below 2^32, and addr is inside. */
  ghost predicate Holds(rs: Regions, rb: u32, addr: u32) {
    rb in rs && rb <= addr < rb + rs[rb].size < 0x1_0000_0000 && forall k :: k in rs && k <= addr ==> k <= rb
  }

  /** now is was with zeroes in [at, at + n). */
  ghost predicate ZeroedOnly(was: seq<byte>, now: seq<byte>, at: int, n: int) {
    |now| == |was| && forall x :: 0 <= x < |was| ==> now[x] == if at <= x < at + n then 0 else was[x]
  }

  /** A release: all of the region is written back and zeroed, and it is neither reserved nor committed. */
  ghost predicate Releases(rs: Regions, rs': Regions, rb: u32, f: Range, was: seq<byte>, now: seq<byte>)
    requires rb in rs
  {
    && f.base == rb && f.size == rs[rb].size
    && rs' == rs[rb := Region(rs[rb].size, false, false, rs[rb].protect)]
    && ZeroedOnly(was, now, rb, rs[rb].size)
  }

  /** The request for a decommit of part of a region of whole pages; size 0 asks for all from base on. */
  predicate AsksInside(rb: u32, r: Region, base: u32, size: u32) {
    rb % 0x1000 == 0 && r.size % 0x1000 == 0 && (size == 0 || base + size <= rb + r.size)
  }

  /** A decommit: the pages that the request touches are written back and zeroed, and a region of which no page is left
      out is no longer committed. */
  ghost predicate TakesPages(rs: Regions, rs': Regions, rb: u32, base: u32, size: u32, f: Range, was: seq<byte>, now: seq<byte>)
    requires rb in rs
  {
    var r := rs[rb];
    && f.base == base - base % 0x1000
    && (if size == 0 then f.base + f.size == rb + r.size
        else (f.base + f.size) % 0x1000 == 0 && base + size <= f.base + f.size < base + size + 0x1000)
    && rs' == rs[rb := Region(r.size, r.reserved, r.committed && !(f.base == rb && f.size == r.size), r.protect)]
    && ZeroedOnly(was, now, f.base, f.size)
  }

  lemma HeldIsFound(rs: Regions, rb: u32, addr: u32)
    ensures Holds(rs, rb, addr) ==> Find(rs, addr) == Some(rb)
  {
    if Holds(rs, rb, addr) {
      assert IsPredecessor(rs, addr, rb) && Contains(rs, rb, addr);
      if Find(rs, addr).Some? {
        var c := Find(rs, addr).value;
        assert c <= rb && rb <= c;
      }
    }
  }

  lemma NoneHolds(rs: Regions, addr: u32)
    requires Find(rs, addr).None?
    ensures forall rb :: !Holds(rs, rb, addr)
  {
    forall rb ensures !Holds(rs, rb, addr) {
      HeldIsFound(rs, rb, addr);
    }
  }

  /** The requested pages of a range inside the region. */
  lemma PagesInside(rb: u32, r: Region, base: u32, size: u32)
    requires rb <= base < rb + r.size < TWO32 && AsksInside(rb, r, base, size)
    ensures var f := Clipped(rb, r, Requested(rb, r, base, size));
            && f.base == base - base % 0x1000 && Inside(rb, r, f)
            && if size == 0 then f.base + f.size == rb + r.size
               else (f.base + f.size) % 0x1000 == 0 && base + size <= f.base + f.size < base + size + 0x1000
  {
    RequestedStart(rb, r, base, size);
    RequestedParts(rb, r, base, size);
    var q := Requested(rb, r, base, size);
    RequestedEnd(rb, r, base, size, q, base % 0x1000);
    NotClipped(rb, r, q);
  }

  lemma RequestedEnd(rb: u32, r: Region, base: u32, size: u32, q: Range, o: nat)
    requires rb <= base < rb + r.size < TWO32 && (rb + r.size) % 0x1000 == 0 && (size == 0 || base + size <= rb + r.size)
    requires Paged(q.base) && o < 0x1000 && base == q.base + o
    requires if size == 0 then q.base + q.size == rb + r.size else q.size == RoundUp(Add(o, size), 0x1000)
    ensures q.base + q.size <= rb + r.size
    ensures if size == 0 then q.base + q.size == rb + r.size
            else (q.base + q.size) % 0x1000 == 0 && base + size <= q.base + q.size < base + size + 0x1000
  {
    if size != 0 { EndInside(q.base, o, base, size, q.size, rb + r.size); }
  }

  lemma EndInside(page: u32, o: nat, base: u32, size: u32, n: u32, end: u32)
    requires Paged(page) && o < 0x1000 && base == page + o && n == RoundUp(Add(o, size), 0x1000)
    requires base + size <= end && end % 0x1000 == 0
    ensures page + n <= end && (page + n) % 0x1000 == 0 && base + size <= page + n < base + size + 0x1000
  {
    BelowTop(end);
    PageEnd(base + size, end);
    PagesFromPage(page, o + size);
    PlainPages(o, size);
    SameEnd(page + n, base + size);
  }

  lemma BelowTop(end: u32)
    requires end % 0x1000 == 0
    ensures end + 0x1000 <= TWO32
  {
  }

  lemma SameEnd(end: nat, n: nat)
    requires end == PagesUp(n)
    ensures end % 0x1000 == 0 && n <= end < n + 0x1000
  {
  }

  lemma NotClipped(rb: u32, r: Region, q: Range)
    requires rb <= q.base && q.base + q.size <= rb + r.size < TWO32
    ensures Clipped(rb, r, q) == q
  {
  }

  lemma PageEnd(a: nat, end: nat)
    requires a <= end && end % 0x1000 == 0
    ensures a <= PagesUp(a) <= end
  {
    var k := end / 0x1000;
    assert end == k * 0x1000;
    Euclid(a + 0xFFF, 0x1000);
  }

  lemma FreeLaw(rs: Regions, rs': Regions, base: u32, size: u32, flags: u32, f: Range, was: seq<byte>, now: seq<byte>)
    requires Find(rs, base).Some?
    requires var rb := Find(rs, base).value; var r := rs[rb];
             && f == FreedRange(rb, r, base, size, flags) && rs' == rs[rb := FreedRegion(rb, r, f, flags)]
             && |now| == |was| && forall x :: 0 <= x < |was| ==> now[x] == if Zeroed(rb, r, f, x) then 0 else was[x]
    ensures forall rb :: Holds(rs, rb, base) && flags / 0x8000 % 2 == 1 ==> Releases(rs, rs', rb, f, was, now)
    ensures forall rb :: Holds(rs, rb, base) && flags / 0x8000 % 2 == 0 && AsksInside(rb, rs[rb], base, size) ==>
      TakesPages(rs, rs', rb, base, size, f, was, now)
  {
    forall rb | Holds(rs, rb, base)
      ensures flags / 0x8000 % 2 == 1 ==> Releases(rs, rs', rb, f, was, now)
      ensures flags / 0x8000 % 2 == 0 && AsksInside(rb, rs[rb], base, size) ==> TakesPages(rs, rs', rb, base, size, f, was, now)
    {
      HeldIsFound(rs, rb, base);
      if flags / 0x8000 % 2 == 0 && AsksInside(rb, rs[rb], base, size) { PagesInside(rb, rs[rb], base, size); }
    }
  }

  // ---- the emulator's state ----------------------------------------------------------------------

  class Memory {
    var regions: Regions
    var virtNext: u32
    var poolCur: u32
    var poolEnd: u32
    const ram: array<byte>

    ghost function State(): Heap
      reads this
    {
      Heap(regions, virtNext, poolCur, poolEnd)
    }

    constructor ()
      ensures State() == EMPTY && ram.Length == TWO32 && fresh(ram)
      ensures regions == map[] && virtNext == 0x1_0000 && poolCur == poolEnd == 0
    {
      regions, virtNext, poolCur, poolEnd := map[], 0x1_0000, 0, 0;
      ram := new byte[TWO32](_ => 0);
    }

    method FindRegion(addr: u32) returns (found: Option<u32>)
      ensures found == Find(regions, addr)
    {
      var best: Option<u32> := None;
      var keys := regions.Keys;
      while keys != {}
        invariant keys <= regions.Keys
        invariant best.Some? ==> best.value in regions && best.value <= addr
        invariant forall k :: k in regions && k !in keys && k <= addr ==> best.Some? && k <= best.value
        decreases keys
      {
        var k: u32 :| k in keys;
        keys := keys - {k};
        if k <= addr && (best.None? || best.value < k) { best := Some(k); }
      }
      if best.None? { return None; }
      var b := best.value;
      assert IsPredecessor(regions, addr, b);
      found := if b <= addr < Add(b, regions[b].size) then Some(b) else None;
    }

    method NtAllocate(q: Request) returns (status: u32, base: u32, size: u32)
      modifies this
      ensures q.size == 0 ==> status == 0xC000_000D && State() == old(State())
      ensures q.size != 0 ==>
        status == 0 && State() == AfterAllocate(old(State()), q)
        && base == PlaceOf(old(virtNext), q).base && size == PlaceOf(old(virtNext), q).size
    {
      if q.size == 0 { return INVALID_PARAMETER, 0, 0; }
      base, size := Choose(q);
      Track(base, size, q);
      status := SUCCESS;
    }

    /** The base and size of an allocation; the cursor moves when the kernel chooses. */
    method Choose(q: Request) returns (base: u32, size: u32)
      modifies this
      ensures var p := PlaceOf(old(virtNext), q);
              base == p.base && size == p.size && State() == old(State()).(virtNext := p.next)
    {
      var pageSize := if Has(q.flags, LARGE_PAGES) then 0x1_0000 else 0x1000;
      if q.base != 0 {
        base := Down(q.base, pageSize);
        size := RoundUp(Add(q.size, q.base - base), pageSize);
      } else {
        size := RoundUp(q.size, 0x1_0000);
        virtNext := RoundUp(virtNext, 0x1_0000);
        base := virtNext;
        virtNext := Add(virtNext, size);
      }
    }

    /** The region that holds the base is recommitted and grown, or there is a new one. */
    method Track(base: u32, size: u32, q: Request)
      modifies this
      ensures State() == Placed(old(State()), Place(base, size, old(virtNext)), q)
    {
      var protect := if q.protect == 0 then READ_WRITE else q.protect;
      var at := FindRegion(base);
      if at.Some? {
        var rb := at.value;
        var r := regions[rb];
        if Has(q.flags, RESERVE) { r := r.(reserved := true); }
        if Has(q.flags, COMMIT) { r := r.(reserved := true, committed := true); }
        r := r.(protect := protect);
        if Add(base, size) > Add(rb, r.size) { r := r.(size := Add(base - rb, size)); }
        regions := regions[rb := r];
      } else {
        regions := regions[base := Region(size, Has(q.flags, RESERVE) || Has(q.flags, COMMIT), Has(q.flags, COMMIT), protect)];
      }
    }

    method PoolAlloc(request: u32) returns (p: u32)
      modifies this
      ensures request == 0 ==> p == 0 && State() == old(State())
      ensures request != 0 ==>
        State() == PoolTaken(old(State()), request).0 && p == PoolTaken(old(State()), request).1.base
    {
      if request == 0 { return 0; }
      var size := RoundUp(request, 16);
      if poolCur == 0 || Add(poolCur, size) > poolEnd {
        var arena := RoundUp(if size > ARENA then size else ARENA, 0x1_0000);
        virtNext := RoundUp(virtNext, 0x1_0000);
        poolCur := virtNext;
        poolEnd := Add(virtNext, arena);
        virtNext := Add(virtNext, arena);
        regions := regions[poolCur := Region(arena, true, true, READ_WRITE)];
      }
      p := poolCur;
      poolCur := Add(poolCur, size);
    }

    /** memset to zero; what lies past guest memory is not part of this model. */
    method Clear(base: u32, size: nat)
      modifies ram
      ensures forall x :: 0 <= x < ram.Length ==> ram[x] == if base <= x < base + size then 0 else old(ram[x])
    {
      var i := 0;
      while i < size && base + i < ram.Length
        invariant i <= size
        invariant forall x :: 0 <= x < ram.Length ==> ram[x] == if base <= x < base + i then 0 else old(ram[x])
        decreases size - i
      {
        ram[base + i] := 0;
        i := i + 1;
      }
    }

    method DecommitRange(base: u32, reqSize: u32, rb: u32, r: Region) returns (f: Range)
      ensures f == Clipped(rb, r, Requested(rb, r, base, reqSize))
    {
      var aligned := Down(base, 0x1000);
      f := Range(aligned, if reqSize != 0 then RoundUp(Add(base - aligned, reqSize), 0x1000) else Sub(Add(rb, r.size), aligned));
      if f.base < rb { f := f.(base := rb); }
      if Add(f.base, f.size) > Add(rb, r.size) { f := f.(size := Sub(Add(rb, r.size), f.base)); }
    }

    /** NtFreeVirtualMemory, for every request and every heap. */
    method NtFree(base: u32, reqSize: u32, flags: u32) returns (status: u32, f: Range)
      modifies this, ram
      ensures State() == Freed(old(State()), base, reqSize, flags)
      ensures status == if Find(old(regions), base).None? then NOT_ALLOCATED else SUCCESS
      ensures status == NOT_ALLOCATED ==> ram[..] == old(ram[..])
      ensures status == SUCCESS ==>
        var rb := Find(old(regions), base).value;
        var r := old(regions)[rb];
        f == FreedRange(rb, r, base, reqSize, flags)
        && forall x :: 0 <= x < ram.Length ==> ram[x] == if Zeroed(rb, r, f, x) then 0 else old(ram[x])
      ensures (forall b :: b in old(regions) ==> !(b <= base < b + old(regions)[b].size)) ==>
        status == 0xC000_00A0 && State() == old(State()) && ram[..] == old(ram[..])
      ensures forall rb :: Holds(old(regions), rb, base) && flags / 0x8000 % 2 == 1 ==>
        status == 0 && Releases(old(regions), regions, rb, f, old(ram[..]), ram[..])
      ensures forall rb :: Holds(old(regions), rb, base) && flags / 0x8000 % 2 == 0
                           && AsksInside(rb, old(regions)[rb], base, reqSize) ==>
        status == 0 && TakesPages(old(regions), regions, rb, base, reqSize, f, old(ram[..]), ram[..])
    {
      f := Range(0, 0);
      var at := FindRegion(base);
      if at.None? {
        NoneHolds(regions, base);
        return NOT_ALLOCATED, f;
      }
      var rb := at.value;
      var was := regions[rb];
      var r := was;
      if Has(flags, RELEASE) {
        f := Range(rb, r.size);
        r := r.(reserved := false, committed := false);
      } else {
        f := DecommitRange(base, reqSize, rb, r);
        if f.base == rb && f.size >= r.size { r := r.(committed := false); }
      }
      regions := regions[rb := r];
      if f.size != 0 && f.base >= rb && Add(f.base, f.size) <= Add(rb, was.size) {
        Clear(f.base, f.size);
      }
      status := SUCCESS;
      FreeLaw(old(regions), regions, base, reqSize, flags, f, old(ram[..]), ram[..]);
    }
  }
}
