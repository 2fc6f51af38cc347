/**
 * The ring buffer and the pump that consumes it in windows (varianta/runtime/kernel.cpp:2153-2163, 2300-2307).
 *
 * The title writes one unbounded stream of packets into a ring of `size` words at `base`: word i of the
 * stream goes to word Slot(i, size) of the ring.
 */
module Pump {
  import opened Words
  import opened Pm4
  import opened CommandProcessor

  // ---- walkers -----------------------------------------------------------------------------------

  /** A way to tell whole packets and to walk them. */
  datatype Walker = Walker(lands: (Stream, int, int) -> bool, walk: (Stream, MemAt, int, int) -> seq<Effect>)

  /** The command processor at nesting depth 0. */
  function Pm4Walker(): Walker {
    Walker((s: Stream, a: int, b: int) => Lands(s, a, b), (s: Stream, mem: MemAt, a: int, b: int) => Walk(s, mem, a, b, 9))
  }

  /** Walks may be split between packets, and whole packets do the same wherever they stand. */
  ghost predicate Windowed(w: Walker) {
    && (forall s: Stream, a: int {:trigger w.lands(s, a, a)} :: w.lands(s, a, a))
    && (forall s: Stream, a: int, b: int, c: int {:trigger w.lands(s, a, b), w.lands(s, b, c)} ::
          w.lands(s, a, b) && w.lands(s, b, c) ==> w.lands(s, a, c))
    && (forall s: Stream, mem: MemAt, a: int, b: int, c: int {:trigger w.lands(s, a, b), w.walk(s, mem, a, c)} ::
          w.lands(s, a, b) && b <= c ==> w.walk(s, mem, a, c) == w.walk(s, mem, a, b) + w.walk(s, mem, b, c))
    && (forall s: Stream, mem: MemAt, s': Stream, mem': MemAt, a: int, b: int, a': int, b': int
          {:trigger Agree(s, mem, s', mem', a, b, a', b'), w.lands(s, a, b)} ::
          w.lands(s, a, b) && Agree(s, mem, s', mem', a, b, a', b') ==> w.walk(s, mem, a, b) == w.walk(s', mem', a', b'))
  }

  lemma Nothing(w: Walker, s: Stream, mem: MemAt, a: int)
    requires Windowed(w)
    ensures w.lands(s, a, a) && w.walk(s, mem, a, a) == []
  {
    assert w.walk(s, mem, a, a) == w.walk(s, mem, a, a) + w.walk(s, mem, a, a);
  }

  /** [a, b) of one stream and [a', b') of another have the same words and the same memory behind them. */
  ghost predicate Agree(s: Stream, mem: MemAt, s': Stream, mem': MemAt, a: int, b: int, a': int, b': int) {
    b' - a' == b - a
    && forall i: int {:trigger s(i)} :: a <= i < b ==> s(i) == s'(i + (a' - a)) && mem(i) == mem'(i + (a' - a))
  }

  lemma Pm4IsWindowed()
    ensures Windowed(Pm4Walker())
  {
    var w := Pm4Walker();
    forall s: Stream, a: int, b: int, c: int | w.lands(s, a, b) && w.lands(s, b, c) ensures w.lands(s, a, c) {
      LandsConcat(s, a, b, c);
    }
    forall s: Stream, mem: MemAt, a: int, b: int, c: int | w.lands(s, a, b) && b <= c
      ensures w.walk(s, mem, a, c) == w.walk(s, mem, a, b) + w.walk(s, mem, b, c)
    {
      WalkSplit(s, mem, a, b, c, 9);
    }
    forall s: Stream, mem: MemAt, s': Stream, mem': MemAt, a: int, b: int, a': int, b': int
      | w.lands(s, a, b) && Agree(s, mem, s', mem', a, b, a', b')
      ensures w.walk(s, mem, a, b) == w.walk(s', mem', a', b')
    {
      MovedWalk(s, mem, s', mem', a, b, a', b');
    }
  }

  lemma MovedWalk(s: Stream, mem: MemAt, s': Stream, mem': MemAt, a: int, b: int, a': int, b': int)
    requires Lands(s, a, b) && Agree(s, mem, s', mem', a, b, a', b')
    ensures Walk(s, mem, a, b, 9) == Walk(s', mem', a', b', 9)
  {
    forall i | a <= i < b ensures mem(i) == mem'(i + (a' - a)) {
      assert s(i) == s'(i + (a' - a));
    }
    WalkMoved(s, mem, s', mem', a, b, a' - a, 9);
  }

  // ---- the ring ----------------------------------------------------------------------------------

  /** What executing the ring from rptr to wptr does; a wrapped window is walked in two pieces. */
  function RingEffects(w: Walker, m: Mem, base: int, size: nat, rptr: nat, wptr: nat): seq<Effect> {
    if rptr <= wptr then Span(w, m, base, rptr, wptr - rptr)
    else if size == 0 then []
    else Span(w, m, base, rptr, size - rptr) + Span(w, m, base, 0, wptr)
  }

  /** The ring's words from a slot on. */
  function Span(w: Walker, m: Mem, base: int, slot: nat, dwords: int): seq<Effect> {
    w.walk(View(m, base + 4 * slot), Always(m), 0, dwords)
  }

  /** i % size, the slot of the ring that stream word i goes to. */
  function Slot(i: nat, size: nat): (r: nat)
    requires size > 0
    ensures r < size && r <= i
  {
    if i < size then i else Slot(i - size, size)
  }

  /** The first multiple of size after i. */
  function Edge(i: nat, size: nat): (r: nat)
    requires size > 0
    ensures r == i - Slot(i, size) + size
  {
    if i < size then size else size + Edge(i - size, size)
  }

  lemma {:induction false} SlotIsRemainder(i: nat, size: nat)
    requires size > 0
    ensures Slot(i, size) == i % size
  {
    if i >= size {
      SlotIsRemainder(i - size, size);
      var q := (i - size) / size;
      Euclid(i - size, size);
      assert (q + 1) * size == q * size + size;
      DivMod(q + 1, size, (i - size) % size);
    } else {
      DivMod(0, size, i);
    }
  }

  /** Slots count up to the edge, and from 0 again. */
  lemma {:induction false} Slots(i: nat, j: nat, size: nat)
    requires size > 0 && i <= j < Edge(i, size) + size
    ensures Slot(j, size) == if j < Edge(i, size) then Slot(i, size) + (j - i) else j - Edge(i, size)
  {
    if i >= size { Slots(i - size, j - size, size); }
  }

  lemma SpanIsWalk(m: Mem, base: int, slot: nat, dwords: int, start: int)
    requires start == base + 4 * slot
    ensures Span(Pm4Walker(), m, base, slot, dwords) == Walk(View(m, start), Always(m), 0, dwords, 9)
  {
  }

  // ---- the pump ----------------------------------------------------------------------------------

  /** The consumed write pointer, the published read pointer and everything done so far. */
  datatype PumpState = PumpState(last: nat, published: nat, log: seq<Effect>)

  function Consumed(w: Walker, s: PumpState, base: int, size: nat, wptr: nat, m: Mem): PumpState {
    if wptr == s.last then s
    else PumpState(wptr, wptr, s.log + RingEffects(w, m, base, size, s.last, wptr))
  }

  class VblankPump {
    const gpu: Gpu
    const base: u32
    const size: nat
    var lastWptr: nat
    /** CP_RB_RPTR and the copy of it that the title reads. */
    var rptrRegister: nat
    var rptrWriteBack: nat

    /** Every word up to a ring index has an address below 2^32, and room behind it. */
    predicate InMemory(index: nat) {
      base + 4 * index + SLACK < TWO32
    }

    ghost predicate Valid()
      reads this, gpu
    {
      gpu.Valid() && InMemory(size) && InMemory(lastWptr) && rptrRegister == rptrWriteBack
    }

    ghost function State(): PumpState
      reads this, gpu
    {
      PumpState(lastWptr, rptrRegister, gpu.log)
    }

    constructor (base: u32, size: nat, callback: bool)
      requires base + 4 * size + SLACK < TWO32
      ensures Valid() && State() == PumpState(0, 0, []) && fresh(gpu)
      ensures this.base == base && this.size == size
    {
      this.base, this.size := base, size;
      lastWptr, rptrRegister, rptrWriteBack := 0, 0, 0;
      gpu := new Gpu(callback);
    }

    /** A span that would end before it starts: the loop's end is below its start, and no word is walked. */
    method ExecuteSpan(m: Mem, slot: nat, dwords: int)
      requires gpu.Valid() && InMemory(slot) && InMemory(if dwords > 0 then slot + dwords else slot)
      modifies gpu
      ensures gpu.Valid() && gpu.log == old(gpu.log) + Span(Pm4Walker(), m, base, slot, dwords)
    {
      var start := base + slot * 4;
      SpanIsWalk(m, base, slot, dwords, start);
      if dwords >= 0 {
        gpu.ExecutePM4(m, start, dwords, 0);
      }
    }

    /** For any two pointers, also past the ring's end. */
    method ExecuteRing(m: Mem, rptr: nat, wptr: nat)
      requires Valid() && InMemory(rptr) && InMemory(wptr)
      modifies gpu
      ensures gpu.Valid() && gpu.log == old(gpu.log) + RingEffects(Pm4Walker(), m, base, size, rptr, wptr)
    {
      if wptr >= rptr {
        ExecuteSpan(m, rptr, wptr - rptr);
      } else if size != 0 {
        ExecuteSpan(m, rptr, size - rptr);
        ExecuteSpan(m, 0, wptr);
        Assoc(old(gpu.log), Span(Pm4Walker(), m, base, rptr, size - rptr), Span(Pm4Walker(), m, base, 0, wptr));
      }
    }

    /** One turn of the pump, with the write pointer that the title last stored, whatever it is. */
    method Consume(m: Mem, wptr: nat)
      requires Valid() && InMemory(wptr)
      modifies this, gpu
      ensures Valid() && State() == Consumed(Pm4Walker(), old(State()), base, size, wptr, m)
    {
      if wptr != lastWptr {
        ExecuteRing(m, lastWptr, wptr);
        rptrRegister := wptr;
        rptrWriteBack := wptr;
        lastWptr := wptr;
      }
    }
  }

  // ---- windows -----------------------------------------------------------------------------------

  /** [from, to) holds whole packets, none across the end of the ring. */
  ghost predicate OnBoundaries(w: Walker, s: Stream, size: nat, from: nat, to: nat)
    requires size > 0
  {
    if to <= Edge(from, size) then w.lands(s, from, to)
    else w.lands(s, from, Edge(from, size)) && w.lands(s, Edge(from, size), to)
  }

  /** The ring holds stream words [from, to), less than a ring of them. */
  ghost predicate Holds(m: Mem, base: int, size: nat, s: Stream, from: nat, to: nat)
    requires size > 0
  {
    from <= to < from + size && forall i {:trigger s(i)} :: from <= i < to ==> m(base + 4 * Slot(i, size)) == s(i)
  }

  /** The words [a, b) stand in the ring from slot r on. */
  ghost predicate StandsAt(m: Mem, base: int, s: Stream, a: int, b: int, r: int) {
    forall i: int {:trigger s(i)} :: a <= i < b ==> m(base + 4 * (r + i - a)) == s(i)
  }

  /** A piece of the stream that stands unbroken in the ring from slot r on. */
  lemma Piece(w: Walker, m: Mem, base: int, s: Stream, from: int, to: int, r: int)
    requires Windowed(w) && from <= to
    requires StandsAt(m, base, s, from, to, r) && w.lands(s, from, to)
    ensures w.walk(View(m, base + 4 * r), Always(m), 0, to - from) == w.walk(s, Always(m), from, to)
  {
    assert Agree(s, Always(m), View(m, base + 4 * r), Always(m), from, to, 0, to - from);
  }

  /** The part [a, b) of a window that does not cross the edge stands unbroken. */
  lemma Stretch(m: Mem, base: int, size: nat, s: Stream, from: nat, to: nat, a: nat, b: nat)
    requires size > 0 && Holds(m, base, size, s, from, to) && from <= a <= b <= to
    requires b <= Edge(from, size) || Edge(from, size) <= a
    ensures StandsAt(m, base, s, a, b, Slot(a, size))
  {
    forall i: int {:trigger s(i)} | a <= i < b ensures m(base + 4 * (Slot(a, size) + i - a)) == s(i) {
      Slots(from, i, size);
      Slots(from, a, size);
    }
  }

  lemma Unbroken(w: Walker, m: Mem, base: int, size: nat, s: Stream, from: int, to: int, r: nat)
    requires Windowed(w) && from <= to && w.lands(s, from, to) && StandsAt(m, base, s, from, to, r)
    ensures RingEffects(w, m, base, size, r, r + to - from) == w.walk(s, Always(m), from, to)
  {
    Piece(w, m, base, s, from, to, r);
  }

  /** A window that wraps, as two pieces. */
  lemma Wrapped(w: Walker, m: Mem, base: int, size: nat, s: Stream, from: int, edge: int, to: int, r: nat)
    requires Windowed(w) && from <= edge <= to && w.lands(s, from, edge) && w.lands(s, edge, to)
    requires StandsAt(m, base, s, from, edge, r) && StandsAt(m, base, s, edge, to, 0)
    requires to - edge < r && size > 0 && edge - from == size - r
    ensures RingEffects(w, m, base, size, r, to - edge) == w.walk(s, Always(m), from, to)
  {
    Piece(w, m, base, s, from, edge, r);
    Piece(w, m, base, s, edge, to, 0);
    TwoPieces(w, s, Always(m), from, edge, to);
  }

  lemma TwoPieces(w: Walker, s: Stream, mem: MemAt, from: int, edge: int, to: int)
    requires Windowed(w) && w.lands(s, from, edge) && edge <= to
    ensures w.walk(s, mem, from, to) == w.walk(s, mem, from, edge) + w.walk(s, mem, edge, to)
  {
  }

  /** A window of the ring, wrapped or not, is that window of the stream. */
  lemma Window(w: Walker, m: Mem, base: int, size: nat, s: Stream, from: nat, to: nat)
    requires Windowed(w)
    requires size > 0 && Holds(m, base, size, s, from, to) && OnBoundaries(w, s, size, from, to) && from < to
    ensures Slot(from, size) != Slot(to, size) && w.lands(s, from, to)
    ensures RingEffects(w, m, base, size, Slot(from, size), Slot(to, size)) == w.walk(s, Always(m), from, to)
  {
    var edge := Edge(from, size);
    Slots(from, to, size);
    if to < edge {
      Stretch(m, base, size, s, from, to, from, to);
      Unbroken(w, m, base, size, s, from, to, Slot(from, size));
    } else {
      Slots(from, edge, size);
      Stretch(m, base, size, s, from, to, from, edge);
      Stretch(m, base, size, s, from, to, edge, to);
      Nothing(w, s, Always(m), edge);
      Wrapped(w, m, base, size, s, from, edge, to, Slot(from, size));
    }
  }

  // ---- runs --------------------------------------------------------------------------------------

  /** The title stores a write pointer: words of the stream below `to` are now in memory `mem`. */
  datatype Kick = Kick(to: nat, mem: Mem)

  function End(kicks: seq<Kick>): nat {
    if kicks == [] then 0 else kicks[|kicks| - 1].to
  }

  function Run(w: Walker, base: int, size: nat, kicks: seq<Kick>): PumpState
    requires size > 0
  {
    if kicks == [] then PumpState(0, 0, [])
    else
      var k := kicks[|kicks| - 1];
      Consumed(w, Run(w, base, size, kicks[..|kicks| - 1]), base, size, Slot(k.to, size), k.mem)
  }

  /**
   * Every kick moves the write pointer by whole packets and by less than a ring; `mem(i)` is the memory in
   * which the packet at stream position i is consumed.
   */
  ghost predicate Submitted(w: Walker, base: int, size: nat, s: Stream, mem: MemAt, kicks: seq<Kick>)
    requires size > 0
  {
    kicks == [] ||
    var before, k := kicks[..|kicks| - 1], kicks[|kicks| - 1];
    Submitted(w, base, size, s, mem, before)
    && Holds(k.mem, base, size, s, End(before), k.to)
    && OnBoundaries(w, s, size, End(before), k.to)
    && forall i :: End(before) <= i < k.to ==> mem(i) == k.mem
  }

  lemma {:induction false} WindowsAddUp(w: Walker, base: int, size: nat, s: Stream, mem: MemAt, kicks: seq<Kick>)
    requires Windowed(w) && size > 0 && Submitted(w, base, size, s, mem, kicks)
    ensures w.lands(s, 0, End(kicks))
    ensures var slot := Slot(End(kicks), size);
            Run(w, base, size, kicks) == PumpState(slot, slot, w.walk(s, mem, 0, End(kicks)))
  {
    if kicks == [] {
      Nothing(w, s, mem, 0);
    } else {
      var before, k := kicks[..|kicks| - 1], kicks[|kicks| - 1];
      var from := End(before);
      WindowsAddUp(w, base, size, s, mem, before);
      if from < k.to {
        Window(w, k.mem, base, size, s, from, k.to);
        assert Agree(s, Always(k.mem), s, mem, from, k.to, from, k.to);
      }
    }
  }

  /**
   * Over every run the windows add up to one in-order pass over the unbounded stream: nothing is skipped,
   * nothing runs twice, and the published read pointer is what was consumed.
   */
  lemma OnePass(base: int, size: nat, s: Stream, mem: MemAt, kicks: seq<Kick>)
    requires size > 0 && Submitted(Pm4Walker(), base, size, s, mem, kicks)
    ensures Lands(s, 0, End(kicks))
    ensures var slot := End(kicks) % size;
            Run(Pm4Walker(), base, size, kicks) == PumpState(slot, slot, Walk(s, mem, 0, End(kicks), 9))
  {
    Pm4IsWindowed();
    WindowsAddUp(Pm4Walker(), base, size, s, mem, kicks);
    SlotIsRemainder(End(kicks), size);
  }

  /** A kick of exactly one ring is not seen at all. */
  lemma FullRingIsMissed(w: Walker, base: int, size: nat, kicks: seq<Kick>, m: Mem)
    requires size > 0 && Run(w, base, size, kicks).last == Slot(End(kicks), size)
    ensures Run(w, base, size, kicks + [Kick(End(kicks) + size, m)]) == Run(w, base, size, kicks)
  {
    var all := kicks + [Kick(End(kicks) + size, m)];
    assert all[..|all| - 1] == kicks;
  }

  /** Whole rings later the slot is the same. */
  lemma {:induction false} RingsLater(from: nat, to: nat, size: nat)
    requires size > 0 && from <= to
    ensures var n := Slot(to - from, size); from <= to - n && Slot(to - n, size) == Slot(from, size)
    ensures to - from < size <==> to - Slot(to - from, size) == from
  {
    if size <= to - from { RingsLater(from, to - size, size); }
  }

  /**
   * A kick of any length runs the last (to - from) % size words of it, if the ring holds them on boundaries, and
   * skips the whole rings before them: none exactly when the kick is below a ring.
   */
  lemma KickSkipsRings(w: Walker, s: Stream, m: Mem, base: int, size: nat, from: nat, to: nat, start: int, p: PumpState)
    requires Windowed(w) && size > 0 && from <= to && p.last == Slot(from, size)
    requires start == to - (to - from) % size && start >= 0
    requires Holds(m, base, size, s, start, to) && OnBoundaries(w, s, size, start, to)
    ensures from <= start <= to && (start == from <==> to - from < size)
    ensures start == to ==> Consumed(w, p, base, size, Slot(to, size), m) == p
    ensures start < to ==>
      Consumed(w, p, base, size, Slot(to, size), m)
      == PumpState(Slot(to, size), Slot(to, size), p.log + w.walk(s, Always(m), start, to))
  {
    LastStart(from, to, size, start);
    if start < to { Window(w, m, base, size, s, start, to); }
  }

  lemma LastStart(from: nat, to: nat, size: nat, start: int)
    requires size > 0 && from <= to && start == to - (to - from) % size
    ensures from <= start <= to && Slot(start, size) == Slot(from, size) && (start == from <==> to - from < size)
  {
    SlotIsRemainder(to - from, size);
    RingsLater(from, to, size);
  }
}
