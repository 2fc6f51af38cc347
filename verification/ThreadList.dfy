/**
 * The process's thread list in guest memory (varianta/runtime/kernel.cpp:557-562, 614-643, 1024-1060): a
 * circular doubly linked list, big-endian, through the thread records, to which every new thread is added at
 * the tail.
 */
module ThreadList {
  import opened Words
  import opened Records

  // ---- guest memory ------------------------------------------------------------------------------

  function Load32(m: seq<byte>, a: nat): u32
    requires a + 4 <= |m|
  {
    Join(m[a], m[a + 1], m[a + 2], m[a + 3])
  }

  function Join(b3: byte, b2: byte, b1: byte, b0: byte): u32 {
    0x100_0000 * b3 + 0x1_0000 * b2 + 0x100 * b1 + b0
  }

  function Digit(v: u32, unit: nat): byte
    requires unit > 0
  {
    v / unit % 256
  }

  lemma JoinDigits(v: u32)
    ensures Join(Digit(v, 0x100_0000), Digit(v, 0x1_0000), Digit(v, 0x100), Digit(v, 1)) == v
  {
    var q1 := v / 0x100;
    var q2 := q1 / 0x100;
    Halves(v, q1, q2);
    var q3 := q2 / 0x100;
    assert q3 == v / 0x100_0000 && q3 % 256 == q3;
    assert v == 0x100 * q1 + v % 256 && q1 == 0x100 * q2 + q1 % 256 && q2 == 0x100 * q3 + q2 % 256;
  }

  lemma Halves(v: u32, q1: nat, q2: nat)
    requires q1 == v / 0x100 && q2 == q1 / 0x100
    ensures q2 == v / 0x1_0000
  {
  }

  /** The word at every address, as far as there are four bytes. */
  type Cells = nat -> u32

  function WordAt(m: seq<byte>, a: nat): u32 {
    if a + 4 <= |m| then Load32(m, a) else 0
  }

  function Update(w: Cells, a: nat, v: u32): Cells {
    (x: nat) => if x == a then v else w(x)
  }

  /** The same words at the 4-aligned addresses. */
  ghost predicate Agree(w: Cells, w': Cells) {
    forall x: nat {:trigger w(x)} {:trigger w'(x)} :: x % 4 == 0 ==> w(x) == w'(x)
  }

  // ---- the list ----------------------------------------------------------------------------------

  const LIST_HEAD: nat := 0x04
  const THREAD_COUNT: nat := 0x14
  const LIST_ENTRY: nat := 0x110
  const PAGE: nat := 0x1000

  /** The i-th node of the circle: the head, the entries of the threads, and the head again. */
  function Node(P: nat, ts: seq<nat>, i: nat): nat {
    if i == 0 || i > |ts| then P + LIST_HEAD else ts[i - 1] + LIST_ENTRY
  }

  predicate OnPages(a: nat, b: nat) {
    a + PAGE <= b || b + PAGE <= a
  }

  /** Process and thread records are on different pages, and 4-aligned. */
  predicate Placed(P: nat, ts: seq<nat>) {
    P % 4 == 0
    && (forall i :: 0 <= i < |ts| ==> OnPages(P, ts[i]) && ts[i] % 4 == 0)
    && forall i, j :: 0 <= i < j < |ts| ==> OnPages(ts[i], ts[j])
  }

  /** Node i points forward to node i + 1, and node i + 1 back to node i. */
  predicate LinkedAt(w: Cells, P: nat, ts: seq<nat>, i: nat) {
    w(Node(P, ts, i)) == Node(P, ts, i + 1) && w(Node(P, ts, i + 1) + 4) == Node(P, ts, i)
  }

  /** The threads `ts`, in this order, are a circular list from the process's head, and are counted. */
  ghost predicate IsList(w: Cells, P: nat, ts: seq<nat>) {
    Placed(P, ts) && (forall i :: 0 <= i <= |ts| ==> LinkedAt(w, P, ts, i)) && w(P + THREAD_COUNT) == |ts|
  }

  /** Different nodes are different words, and none is the count. */
  lemma NodesDiffer(P: nat, ts: seq<nat>, i: nat, j: nat)
    requires Placed(P, ts) && i <= |ts| + 1 && j <= |ts| + 1
    ensures var x, y := Node(P, ts, i), Node(P, ts, j);
            x % 4 == 0 && (x == y || (x + 4 != y && y + 4 != x)) && x != P + THREAD_COUNT && x + 4 != P + THREAD_COUNT
            && (i < j <= |ts| ==> x != y)
  {
    if 0 < i <= |ts| { assert OnPages(P, ts[i - 1]); }
    if 0 < j <= |ts| { assert OnPages(P, ts[j - 1]); }
    if 0 < i <= |ts| && 0 < j <= |ts| {
      if i < j { assert OnPages(ts[i - 1], ts[j - 1]); }
      if j < i { assert OnPages(ts[j - 1], ts[i - 1]); }
    }
  }

  /** Agreement carries the list over. */
  lemma SameList(w: Cells, w': Cells, P: nat, ts: seq<nat>)
    requires IsList(w, P, ts)
    requires forall i {:trigger Node(P, ts, i)} :: 0 <= i <= |ts| + 1 ==>
               w'(Node(P, ts, i)) == w(Node(P, ts, i)) && w'(Node(P, ts, i) + 4) == w(Node(P, ts, i) + 4)
    requires w'(P + THREAD_COUNT) == w(P + THREAD_COUNT)
    ensures IsList(w', P, ts)
  {
    forall i | 0 <= i <= |ts| ensures LinkedAt(w', P, ts, i) {
      assert LinkedAt(w, P, ts, i);
    }
  }

  // ---- insertion at the tail ---------------------------------------------------------------------

  /** XeInsertTailList at the process's head, and the count. */
  function Inserted(w: Cells, P: nat, T: nat): Cells
    requires P + PAGE < TWO32 && T + PAGE < TWO32
  {
    var head := P + LIST_HEAD;
    var oldBlink := w(head + 4);
    var a := Update(Update(w, T + LIST_ENTRY, head), T + LIST_ENTRY + 4, oldBlink);
    var b := Update(Update(a, oldBlink, T + LIST_ENTRY), head + 4, T + LIST_ENTRY);
    Update(b, P + THREAD_COUNT, Inc(b(P + THREAD_COUNT)))
  }

  /** The list then has exactly the new thread more, at its tail. */
  lemma InsertedIsAppended(w: Cells, P: nat, ts: seq<nat>, T: nat)
    requires IsList(w, P, ts) && Placed(P, ts + [T]) && |ts| + 1 < TWO32
    requires P + PAGE < TWO32 && T + PAGE < TWO32
    ensures IsList(Inserted(w, P, T), P, ts + [T])
  {
    var all, n := ts + [T], |ts|;
    var w' := Inserted(w, P, T);
    assert LinkedAt(w, P, ts, n);
    assert Node(P, all, n) == Node(P, ts, n) == w(P + LIST_HEAD + 4);
    NodesDiffer(P, all, n, n + 1);
    forall i | 0 <= i <= n + 1 ensures LinkedAt(w', P, all, i) {
      LinkAfter(w, P, ts, T, i);
    }
  }

  lemma LinkAfter(w: Cells, P: nat, ts: seq<nat>, T: nat, i: nat)
    requires IsList(w, P, ts) && Placed(P, ts + [T]) && i <= |ts| + 1
    requires P + PAGE < TWO32 && T + PAGE < TWO32
    requires w(P + LIST_HEAD + 4) == Node(P, ts, |ts|)
    ensures LinkedAt(Inserted(w, P, T), P, ts + [T], i)
  {
    var all, n := ts + [T], |ts|;
    if i < n {
      assert LinkedAt(w, P, ts, i);
      assert Node(P, all, i) == Node(P, ts, i) && Node(P, all, i + 1) == Node(P, ts, i + 1);
      OldNode(w, P, ts, T, i);
      OldNode(w, P, ts, T, i + 1);
    } else {
      assert Node(P, all, n) == Node(P, ts, n);
      NodesDiffer(P, all, 0, n);
      NodesDiffer(P, all, 0, n + 1);
      NodesDiffer(P, all, n, n + 1);
      NewLinks(w, P, T);
    }
  }

  /** The stores change neither the forward pointer of a node before the old tail, nor the backward pointer of a
      node after the head. */
  lemma OldNode(w: Cells, P: nat, ts: seq<nat>, T: nat, i: nat)
    requires Placed(P, ts + [T]) && i <= |ts| && P + PAGE < TWO32 && T + PAGE < TWO32
    requires w(P + LIST_HEAD + 4) == Node(P, ts, |ts|)
    ensures var x, w' := Node(P, ts, i), Inserted(w, P, T);
            (i < |ts| ==> w'(x) == w(x)) && (i > 0 ==> w'(x + 4) == w(x + 4))
  {
    var all, n := ts + [T], |ts|;
    assert Node(P, all, i) == Node(P, ts, i) && Node(P, all, n) == Node(P, ts, n);
    NodesDiffer(P, all, 0, i);
    NodesDiffer(P, all, i, n);
    NodesDiffer(P, all, i, n + 1);
  }

  /** The four links of the new entry. */
  lemma NewLinks(w: Cells, P: nat, T: nat)
    requires P + PAGE < TWO32 && T + PAGE < TWO32
    requires var head, entry, back := P + LIST_HEAD, T + LIST_ENTRY, w(P + LIST_HEAD + 4);
             && back != head + 4 && entry + 4 != back && back != entry && head + 4 != entry && head != entry
             && back != P + THREAD_COUNT && entry != P + THREAD_COUNT && entry + 4 != P + THREAD_COUNT
    ensures var head, entry, w' := P + LIST_HEAD, T + LIST_ENTRY, Inserted(w, P, T);
            w'(w(head + 4)) == entry && w'(entry) == head && w'(head + 4) == entry && w'(entry + 4) == w(head + 4)
  {
  }

  // ---- agreement ---------------------------------------------------------------------------------

  lemma AgreeUpdate(c: Cells, w: Cells, c': Cells, a: nat, v: u32)
    requires Agree(c, w) && Agree(c', Update(c, a, v))
    ensures Agree(c', Update(w, a, v))
  {
    forall x: nat | x % 4 == 0 ensures c'(x) == Update(w, a, v)(x) {
      assert c(x) == w(x);
      assert c'(x) == Update(c, a, v)(x);
    }
  }

  lemma ListAgrees(w: Cells, w': Cells, P: nat, ts: seq<nat>)
    requires IsList(w, P, ts) && Agree(w', w)
    ensures IsList(w', P, ts)
  {
    forall i {:trigger Node(P, ts, i)} | 0 <= i <= |ts| + 1
      ensures w'(Node(P, ts, i)) == w(Node(P, ts, i)) && w'(Node(P, ts, i) + 4) == w(Node(P, ts, i) + 4)
    {
      NodesDiffer(P, ts, i, i);
    }
    SameList(w, w', P, ts);
  }

  /** Words outside [lo, hi) are the same. */
  ghost predicate Around(w: Cells, w': Cells, lo: nat, hi: nat) {
    forall x: nat {:trigger w'(x)} :: x + 4 <= lo || hi <= x ==> w'(x) == w(x)
  }

  /** All records end at or below an address, and there are at least as many pages as records. */
  predicate Below(P: nat, ts: seq<nat>, next: nat) {
    P + PAGE * (|ts| + 1) <= next && forall i :: 0 <= i < |ts| ==> P + PAGE <= ts[i] && ts[i] + PAGE <= next
  }

  /** Changes above all records. */
  lemma AboveChanged(w: Cells, w': Cells, P: nat, ts: seq<nat>, lo: nat, hi: nat)
    requires IsList(w, P, ts) && Below(P, ts, lo) && Around(w, w', lo, hi)
    ensures IsList(w', P, ts)
  {
    SameList(w, w', P, ts);
  }

  /** A record above all others. */
  lemma NewRecord(P: nat, ts: seq<nat>, T: nat)
    requires Placed(P, ts) && Below(P, ts, T) && T % 4 == 0
    ensures Placed(P, ts + [T]) && Below(P, ts + [T], T + PAGE)
  {
    var all := ts + [T];
    forall i, j | 0 <= i < j < |all| ensures OnPages(all[i], all[j]) { }
  }

  // ---- the emulator's state ----------------------------------------------------------------------

  const PROCESS: u32 := 0x9000_0000
  const MAIN_THREAD: u32 := 0x9000_1000
  const MAIN_KPCR: u32 := 0x9000_2000
  const MAIN_TLS: u32 := 0x9000_3000
  const ARENA: u32 := 0x9010_0000
  const ARENA_LIMIT: u32 := 0x9040_0000

  class GuestRam {
    const bytes: array<byte>
    /** The words in `bytes`. */
    ghost var cells: Cells

    ghost predicate Valid()
      reads this, bytes
    {
      bytes.Length == TWO32 && Shows(cells, bytes[..])
    }

    constructor ()
      ensures Valid() && fresh(bytes) && forall x: nat :: cells(x) == 0
    {
      bytes := new byte[TWO32](_ => 0);
      cells := (x: nat) => 0;
    }

    /** GST32 at a 4-aligned address. */
    method Store(a: nat, v: u32)
      requires Valid() && a + 4 <= TWO32 && a % 4 == 0
      modifies this, bytes
      ensures Valid() && Agree(cells, Update(old(cells), a, v)) && Outside(old(bytes[..]), bytes[..], a, a + 4)
    {
      ghost var before, was := bytes[..], cells;
      var b3, b2, b1, b0 := Digits(v);
      bytes[a], bytes[a + 1], bytes[a + 2], bytes[a + 3] := b3, b2, b1, b0;
      ghost var after := bytes[..];
      cells := (x: nat) => WordAt(after, x);
      forall x: nat | x % 4 == 0 ensures cells(x) == Update(was, a, v)(x) {
        WordStored(before, after, a, v, x);
        assert was(x) == WordAt(before, x);
      }
    }

    method Load(a: nat) returns (v: u32)
      requires Valid() && a + 4 <= TWO32
      ensures v == cells(a)
    {
      v := Join(bytes[a], bytes[a + 1], bytes[a + 2], bytes[a + 3]);
      assert cells(a) == WordAt(bytes[..], a);
    }

    /** memset, memcpy and the stores into fresh memory. */
    method Fill(a: nat, image: seq<byte>)
      requires Valid() && a + |image| <= TWO32
      modifies this, bytes
      ensures Valid() && Around(old(cells), cells, a, a + |image|)
      ensures bytes[..] == Replaced(old(bytes[..]), a, image)
    {
      ghost var before, was := bytes[..], cells;
      var k := 0;
      while k < |image|
        invariant k <= |image| && cells == was
        invariant forall i :: 0 <= i < k ==> bytes[a + i] == image[i]
        invariant forall i :: 0 <= i < bytes.Length && !(a <= i < a + k) ==> bytes[i] == before[i]
      {
        bytes[a + k] := image[k];
        k := k + 1;
      }
      assert bytes[..] == Replaced(before, a, image);
      ghost var after := bytes[..];
      cells := (x: nat) => WordAt(after, x);
      WordsAround(was, before, after, a, image);
    }

    /** A record: zeroes, then its fields one after another. */
    method FillRecord(a: nat, n: nat, fields: seq<Field>)
      requires Valid() && a + n <= TWO32 && Within(fields, 0, n)
      modifies this, bytes
      ensures Valid() && Around(old(cells), cells, a, a + n)
      ensures RecordAt(bytes[..], a, n, fields) && Outside(old(bytes[..]), bytes[..], a, a + n)
    {
      ghost var w, m := cells, bytes[..];
      Fill(a, Zeros(n));
      Cleared(m, bytes[..], a, n);
      var i := 0;
      while i < |fields|
        invariant i <= |fields| && Valid() && Around(w, cells, a, a + n)
        invariant RecordAt(bytes[..], a, n, fields[..i]) && Outside(m, bytes[..], a, a + n)
      {
        ghost var w1, m1 := cells, bytes[..];
        StoreField(a, fields[i]);
        AroundInside(w, w1, cells, a, a + n, a + fields[i].offset, a + fields[i].offset + fields[i].size);
        FieldStored(m, m1, bytes[..], a, n, fields, i);
        i := i + 1;
      }
      assert fields[..i] == fields;
    }

    method StoreField(a: nat, f: Field)
      requires Valid() && a + f.offset + f.size <= TWO32
      modifies this, bytes
      ensures Valid() && Around(old(cells), cells, a + f.offset, a + f.offset + f.size)
      ensures bytes[..] == Replaced(old(bytes[..]), a + f.offset, BigEndian(f.value, f.size))
    {
      Fill(a + f.offset, BigEndian(f.value, f.size));
    }
  }

  function Zeros(n: nat): (r: seq<byte>)
    ensures |r| == n && forall i :: 0 <= i < n ==> r[i] == 0
  {
    seq(n, _ => 0)
  }

  function Replaced(m: seq<byte>, a: nat, image: seq<byte>): seq<byte>
    requires a + |image| <= |m|
  {
    m[..a] + image + m[a + |image|..]
  }

  /** Bytes outside [lo, hi) are the same. */
  ghost predicate Outside(m: seq<byte>, m': seq<byte>, lo: nat, hi: nat) {
    |m'| == |m| && forall i :: 0 <= i < |m| && !(lo <= i < hi) ==> m'[i] == m[i]
  }

  lemma WordsAround(w: Cells, m: seq<byte>, m': seq<byte>, a: nat, image: seq<byte>)
    requires Shows(w, m) && a + |image| <= |m| && m' == Replaced(m, a, image)
    ensures Around(w, (x: nat) => WordAt(m', x), a, a + |image|)
  {
    forall x: nat {:trigger WordAt(m', x)} | x + 4 <= a || a + |image| <= x
      ensures WordAt(m', x) == w(x)
    {
      assert w(x) == WordAt(m, x);
    }
  }

  lemma AroundInside(w: Cells, w1: Cells, w2: Cells, lo: nat, hi: nat, lo': nat, hi': nat)
    requires Around(w, w1, lo, hi) && Around(w1, w2, lo', hi') && lo <= lo' && hi' <= hi
    ensures Around(w, w2, lo, hi)
  {
    forall x: nat {:trigger w2(x)} | x + 4 <= lo || hi <= x
      ensures w2(x) == w(x)
    {
      assert w1(x) == w(x);
    }
  }

  lemma Cleared(m: seq<byte>, m1: seq<byte>, a: nat, n: nat)
    requires a + n <= |m| && m1 == Replaced(m, a, Zeros(n))
    ensures RecordAt(m1, a, n, []) && Outside(m, m1, a, a + n)
  {
  }

  /** One more field of a record. */
  lemma FieldStored(m: seq<byte>, m1: seq<byte>, m2: seq<byte>, a: nat, n: nat, fields: seq<Field>, i: nat)
    requires i < |fields| && RecordAt(m1, a, n, fields[..i]) && Outside(m, m1, a, a + n) && Within(fields, 0, n)
    requires var f := fields[i]; m2 == Replaced(m1, a + f.offset, BigEndian(f.value, f.size))
    ensures RecordAt(m2, a, n, fields[..i + 1]) && Outside(m, m2, a, a + n)
  {
    var f := fields[i];
    assert fields[..i + 1][..i] == fields[..i];
    forall o: nat {:trigger ByteOf(fields[..i + 1], o)} | o < n
      ensures m2[a + o] == ByteOf(fields[..i + 1], o)
    {
      assert m1[a + o] == ByteOf(fields[..i], o);
    }
  }

  method Digits(v: u32) returns (b3: byte, b2: byte, b1: byte, b0: byte)
    ensures Join(b3, b2, b1, b0) == v
  {
    b3, b2, b1, b0 := Digit(v, 0x100_0000), Digit(v, 0x1_0000), Digit(v, 0x100), Digit(v, 1);
    JoinDigits(v);
  }

  /** The aligned words after the four bytes at a were replaced by those of v. */
  lemma WordStored(m: seq<byte>, m': seq<byte>, a: nat, v: u32, x: nat)
    requires |m'| == |m| && a + 4 <= |m| && a % 4 == 0 && x % 4 == 0
    requires Load32(m', a) == v && forall i :: 0 <= i < |m| && !(a <= i < a + 4) ==> m'[i] == m[i]
    ensures WordAt(m', x) == if x == a then v else WordAt(m, x)
  {
    AlignedApart(a, x);
  }

  lemma AlignedApart(a: nat, x: nat)
    requires a % 4 == 0 && x % 4 == 0
    ensures x == a || x + 4 <= a || a + 4 <= x
  {
  }

  ghost predicate Shows(w: Cells, m: seq<byte>) {
    forall x: nat {:trigger WordAt(m, x)} :: w(x) == WordAt(m, x)
  }

  function Pages(n: nat): (r: nat)
    ensures n <= r < n + PAGE && r % PAGE == 0
  {
    (n + PAGE - 1) / PAGE * PAGE
  }

  /** A stack of whole granules of 64 KiB, as few as hold the size, or 256 KiB when none is given; then the guard. */
  predicate IsStack(stackSize: u32, stackLimit: int, stackBase: int, next: int) {
    && (stackBase - stackLimit) % 0x1_0000 == 0 && next == stackBase + 0x1_0000
    && if stackSize == 0 then stackBase == stackLimit + 0x4_0000
       else stackLimit + stackSize <= stackBase < stackLimit + stackSize + 0x1_0000
  }

  // ---- what the source leaves in memory ----------------------------------------------------------

  /** What the process record says of thread-local storage. */
  function ProcessTls(m: seq<byte>): TlsInfo
    requires |m| == TWO32
  {
    TlsInfo(Join(0, 0, m[PROCESS + 0x2C], m[PROCESS + 0x2D]),
            Load32(m, PROCESS + 0x24), Load32(m, PROCESS + 0x20), Load32(m, PROCESS + 0x28))
  }

  /** The title's number of slots, or the default. */
  function Slots(tlsSlots: u32): u32 {
    if tlsSlots != 0 then tlsSlots else 1024
  }

  /** Bytes of a thread's TLS block. */
  function TlsSize(t: TlsInfo): nat {
    var total := (t.slotSize + t.dataSize) % TWO32;
    if total != 0 then total else PAGE
  }

  predicate HasTemplate(t: TlsInfo) {
    t.dataSize != 0 && t.rawAddr != 0 && t.rawSize != 0
  }

  /** The template is memory of its own, and no larger than the block. */
  predicate TemplateFits(t: TlsInfo, tls: nat) {
    HasTemplate(t) ==> t.rawSize <= TlsSize(t) && t.rawAddr + t.rawSize <= TWO32
                       && (t.rawAddr + t.rawSize <= tls || tls + TlsSize(t) <= t.rawAddr)
  }

  /** The copy of the template stays inside memory, whatever else it hits. */
  predicate TemplateInMemory(t: TlsInfo, tls: nat) {
    HasTemplate(t) ==> t.rawAddr + t.rawSize <= TWO32 && tls + t.rawSize <= TWO32
  }

  /** The bytes that the block and its template write. */
  function TlsSpan(t: TlsInfo): nat {
    if HasTemplate(t) && t.rawSize > TlsSize(t) then t.rawSize else TlsSize(t)
  }

  /** Byte i of a TLS block: the template as it is in m, then zeroes. */
  function TlsByte(m: seq<byte>, t: TlsInfo, i: nat): byte {
    if HasTemplate(t) && i < t.rawSize && t.rawAddr + i < |m| then m[t.rawAddr + i] else 0
  }

  ghost predicate TlsBlock(m: seq<byte>, m': seq<byte>, tls: nat, t: TlsInfo) {
    tls + TlsSize(t) <= |m'| && forall i: nat :: i < TlsSize(t) ==> m'[tls + i] == TlsByte(m, t, i)
  }

  lemma TemplateCopied(m0: seq<byte>, m1: seq<byte>, m2: seq<byte>, tls: nat, t: TlsInfo)
    requires |m0| == TWO32 && tls + TlsSize(t) <= TWO32 && TemplateInMemory(t, tls)
    requires m1 == Replaced(m0, tls, Zeros(TlsSize(t)))
    requires if HasTemplate(t) then m2 == Replaced(m1, tls, m1[t.rawAddr..t.rawAddr + t.rawSize]) else m2 == m1
    ensures Outside(m0, m2, tls, tls + TlsSpan(t)) && (TemplateFits(t, tls) ==> TlsBlock(m0, m2, tls, t))
  {
    if TemplateFits(t, tls) {
      forall i: nat | i < TlsSize(t)
        ensures m2[tls + i] == TlsByte(m0, t, i)
      {
        assert m1[tls + i] == 0;
        if HasTemplate(t) && i < t.rawSize {
          assert m2[tls + i] == m1[t.rawAddr + i] == m0[t.rawAddr + i];
        }
      }
    }
  }

  /** A thread record with these fields; its two list pointers belong to the list. */
  ghost predicate ThreadAt(m: seq<byte>, T: nat, fields: seq<Field>) {
    T + THREAD_SIZE <= |m| && forall o: nat :: o < THREAD_SIZE && !(LIST_ENTRY <= o < LIST_ENTRY + 8) ==>
      m[T + o] == ByteOf(fields, o)
  }

  /** The process record; its list head and its count belong to the list. */
  ghost predicate ProcessAt(m: seq<byte>, fields: seq<Field>) {
    PROCESS + PROCESS_SIZE <= |m| && forall o: nat ::
      o < PROCESS_SIZE && !(LIST_HEAD <= o < LIST_HEAD + 8) && !(THREAD_COUNT <= o < THREAD_COUNT + 4) ==>
      m[PROCESS + o] == ByteOf(fields, o)
  }

  /** The bytes that the insertion of T after the node at `back` may change. */
  predicate IsLink(i: nat, T: nat, back: nat) {
    || T + LIST_ENTRY <= i < T + LIST_ENTRY + 8 || back <= i < back + 4
    || PROCESS + LIST_HEAD + 4 <= i < PROCESS + LIST_HEAD + 8 || PROCESS + THREAD_COUNT <= i < PROCESS + THREAD_COUNT + 4
  }

  ghost predicate OnlyLinks(m: seq<byte>, m': seq<byte>, T: nat, back: nat) {
    |m'| == |m| && forall i: nat :: i < |m| && !IsLink(i, T, back) ==> m'[i] == m[i]
  }

  /** Only the record at T and the links changed. */
  ghost predicate OnlyThread(m: seq<byte>, m': seq<byte>, T: nat, back: nat) {
    |m'| == |m| && forall i: nat :: i < |m| && !(T <= i < T + THREAD_SIZE) && !IsLink(i, T, back) ==> m'[i] == m[i]
  }

  lemma ThreadFilled(m0: seq<byte>, m1: seq<byte>, m2: seq<byte>, T: nat, back: nat, fields: seq<Field>)
    requires RecordAt(m1, T, THREAD_SIZE, fields) && Outside(m0, m1, T, T + THREAD_SIZE) && OnlyLinks(m1, m2, T, back)
    requires back + 4 <= T && PROCESS + PAGE <= T
    ensures ThreadAt(m2, T, fields) && OnlyThread(m0, m2, T, back)
  {
    forall o: nat | o < THREAD_SIZE && !(LIST_ENTRY <= o < LIST_ENTRY + 8)
      ensures m2[T + o] == ByteOf(fields, o)
    {
      assert m1[T + o] == ByteOf(fields, o) && !IsLink(T + o, T, back);
    }
  }

  /** Memory at or above an address is the same. */
  ghost predicate SameAbove(m: seq<byte>, m': seq<byte>, a: nat) {
    |m'| == |m| && forall i :: a <= i < |m| ==> m'[i] == m[i]
  }

  lemma LinksBelow(m: seq<byte>, m': seq<byte>, T: nat, back: nat)
    requires OnlyThread(m, m', T, back) && back + 4 <= T && PROCESS + PAGE <= T
    ensures SameAbove(m, m', T + PAGE)
  {
    forall i | T + PAGE <= i < |m|
      ensures m'[i] == m[i]
    {
      assert !IsLink(i, T, back);
    }
  }

  /** Below T only links changed. */
  ghost predicate SameBelow(m: seq<byte>, m': seq<byte>, T: nat, back: nat) {
    |m'| == |m| && forall i: nat :: i < T && i < |m| && !IsLink(i, T, back) ==> m'[i] == m[i]
  }

  /** A thread's record and KPCR; of the memory below, only links are not as they were in m. */
  ghost predicate ContextAt(m: seq<byte>, m': seq<byte>, T: u32, tls: u32, t: TlsInfo, stackBase: u32, stackLimit: u32,
      id: u32, start: u32, back: nat)
    requires T + 2 * PAGE <= TWO32
  {
    var K := T + PAGE;
    && ThreadAt(m', T, KThread(T, K, PROCESS, stackBase, stackLimit, (tls + t.dataSize) % TWO32, id, start))
    && RecordAt(m', K, KPCR_SIZE, KPcr(K, tls, T, stackBase, stackLimit))
    && SameBelow(m, m', T, back)
  }

  lemma BelowMore(P: nat, ts: seq<nat>, next: nat, next': nat)
    requires Below(P, ts, next) && next <= next'
    ensures Below(P, ts, next')
  {
  }

  /** Thread record, KPCR and TLS block keep out of each other's way. */
  lemma ContextFilled(m1: seq<byte>, m2: seq<byte>, m3: seq<byte>, T: nat, back: nat, fields: seq<Field>)
    requires ThreadAt(m2, T, fields) && OnlyThread(m1, m2, T, back) && back + 4 <= T && PROCESS + PAGE <= T
    requires Outside(m2, m3, T + PAGE, T + PAGE + KPCR_SIZE)
    ensures ThreadAt(m3, T, fields)
  {
    forall o: nat | o < THREAD_SIZE && !(LIST_ENTRY <= o < LIST_ENTRY + 8)
      ensures m3[T + o] == ByteOf(fields, o)
    {
      assert m2[T + o] == ByteOf(fields, o);
    }
  }

  lemma BlockStays(m0: seq<byte>, m1: seq<byte>, m2: seq<byte>, m3: seq<byte>, T: nat, tls: nat, back: nat, t: TlsInfo)
    requires TlsBlock(m0, m1, tls, t) && tls >= T + 2 * PAGE
    requires OnlyThread(m1, m2, T, back) && back + 4 <= T && PROCESS + PAGE <= T
    requires Outside(m2, m3, T + PAGE, T + PAGE + KPCR_SIZE)
    ensures TlsBlock(m0, m3, tls, t)
  {
    LinksBelow(m1, m2, T, back);
    forall i: nat | i < TlsSize(t)
      ensures m3[tls + i] == TlsByte(m0, t, i)
    {
      assert m1[tls + i] == TlsByte(m0, t, i);
    }
  }

  lemma BelowKept(m0: seq<byte>, m1: seq<byte>, m2: seq<byte>, m3: seq<byte>, T: nat, tls: nat, n: nat, back: nat)
    requires Outside(m0, m1, tls, tls + n) && tls >= T && OnlyThread(m1, m2, T, back)
    requires Outside(m2, m3, T + PAGE, T + PAGE + KPCR_SIZE)
    ensures SameBelow(m0, m3, T, back)
  {
  }

  /** Only links of the process record change after it is filled. */
  lemma ProcessFilled(m2: seq<byte>, m3: seq<byte>, m4: seq<byte>, fields: seq<Field>)
    requires RecordAt(m2, PROCESS, PROCESS_SIZE, fields) && OnlyThread(m2, m3, MAIN_THREAD, PROCESS + LIST_HEAD)
    requires Outside(m3, m4, MAIN_KPCR, MAIN_KPCR + KPCR_SIZE)
    ensures ProcessAt(m4, fields)
  {
    forall o: nat | o < PROCESS_SIZE && !(LIST_HEAD <= o < LIST_HEAD + 8) && !(THREAD_COUNT <= o < THREAD_COUNT + 4)
      ensures m4[PROCESS + o] == ByteOf(fields, o)
    {
      assert m2[PROCESS + o] == ByteOf(fields, o);
      assert !IsLink(PROCESS + o, MAIN_THREAD, PROCESS + LIST_HEAD);
    }
  }

  /** The process record is not in the main TLS block. */
  lemma MainBlock(m0: seq<byte>, m1: seq<byte>, m2: seq<byte>, t: TlsInfo)
    requires TlsBlock(m0, m1, MAIN_TLS, t) && Outside(m1, m2, PROCESS, PROCESS + PROCESS_SIZE)
    ensures TlsBlock(m0, m2, MAIN_TLS, t)
  {
    forall i: nat | i < TlsSize(t)
      ensures m2[MAIN_TLS + i] == TlsByte(m0, t, i)
    {
      assert m1[MAIN_TLS + i] == TlsByte(m0, t, i);
    }
  }

  /** Thread contexts in the order of their creation; all memory of the arena lies below `arenaNext`. */
  class ThreadTable {
    const ram: GuestRam
    var arenaNext: u32
    var stackNext: u32
    /** The records in the list, oldest first. */
    ghost var threads: seq<nat>

    ghost predicate Valid()
      reads this, ram, ram.bytes
    {
      ram.Valid() && IsList(ram.cells, PROCESS, threads)
      && Below(PROCESS, threads, arenaNext) && arenaNext <= ARENA_LIMIT && arenaNext % PAGE == 0
    }

    /** SetupEnvironment: the main thread's TLS block, the process record with the empty list, the main thread's
        record in it, and its KPCR. */
    constructor (ram: GuestRam, tlsSlots: u32, t: TlsInfo, bitmap: seq<u32>, kernStack: u32, stackBase: u32, stackLimit: u32,
        start: u32)
      requires ram.Valid() && |bitmap| == 8 && t.slotSize == Slots(tlsSlots) * 4 % TWO32
      requires MAIN_TLS + TlsSize(t) <= ARENA && TemplateInMemory(t, MAIN_TLS)
      modifies ram, ram.bytes
      ensures Valid() && this.ram == ram && threads == [MAIN_THREAD]
      ensures arenaNext == 0x9010_0000 && stackNext == 0x9800_0000
      ensures TemplateFits(t, MAIN_TLS) ==> TlsBlock(old(ram.bytes[..]), ram.bytes[..], MAIN_TLS, t)
      ensures ProcessAt(ram.bytes[..], KProcess(PROCESS, kernStack, Slots(tlsSlots), t, bitmap))
      ensures ThreadAt(ram.bytes[..], MAIN_THREAD,
                KThread(MAIN_THREAD, MAIN_KPCR, PROCESS, stackBase, stackLimit, (MAIN_TLS + t.dataSize) % TWO32, 1, start))
      ensures RecordAt(ram.bytes[..], MAIN_KPCR, KPCR_SIZE,
                KPcr(MAIN_KPCR, MAIN_TLS, MAIN_THREAD, stackBase, stackLimit))
    {
      this.ram := ram;
      arenaNext, stackNext, threads := ARENA, 0x9800_0000, [];
      new;
      ghost var m0 := ram.bytes[..];
      FillTls(MAIN_TLS, t);
      ghost var m1 := ram.bytes[..];
      KProcessApart(PROCESS, kernStack, Slots(tlsSlots), t, bitmap);
      ram.FillRecord(PROCESS, PROCESS_SIZE, KProcess(PROCESS, kernStack, Slots(tlsSlots), t, bitmap));
      ghost var m2 := ram.bytes[..];
      EmptyList(ram.cells, m2, KProcess(PROCESS, kernStack, Slots(tlsSlots), t, bitmap),
        kernStack, Slots(tlsSlots), t, bitmap);
      FillKThread(MAIN_THREAD, MAIN_KPCR, stackBase, stackLimit, (MAIN_TLS + t.dataSize) % TWO32, 1, start);
      ghost var m3, c3 := ram.bytes[..], ram.cells;
      FillKPcr(MAIN_KPCR, MAIN_TLS, MAIN_THREAD, stackBase, stackLimit);
      AboveChanged(c3, ram.cells, PROCESS, threads, MAIN_KPCR, MAIN_KPCR + KPCR_SIZE);
      ProcessFilled(m2, m3, ram.bytes[..], KProcess(PROCESS, kernStack, Slots(tlsSlots), t, bitmap));
      ContextFilled(m2, m3, ram.bytes[..], MAIN_THREAD, PROCESS + LIST_HEAD,
        KThread(MAIN_THREAD, MAIN_KPCR, PROCESS, stackBase, stackLimit, (MAIN_TLS + t.dataSize) % TWO32, 1, start));
      if TemplateFits(t, MAIN_TLS) {
        MainBlock(m0, m1, m2, t);
        BlockStays(m0, m2, m3, ram.bytes[..], MAIN_THREAD, MAIN_TLS, PROCESS + LIST_HEAD, t);
      }
    }

    /** The TLS block: zeroes, then the template. */
    method FillTls(tls: nat, t: TlsInfo)
      requires ram.Valid() && tls + TlsSize(t) <= TWO32 && TemplateInMemory(t, tls)
      modifies ram, ram.bytes
      ensures ram.Valid() && Around(old(ram.cells), ram.cells, tls, tls + TlsSpan(t))
      ensures TemplateFits(t, tls) ==> TlsBlock(old(ram.bytes[..]), ram.bytes[..], tls, t)
      ensures Outside(old(ram.bytes[..]), ram.bytes[..], tls, tls + TlsSpan(t))
    {
      ghost var w, m0 := ram.cells, ram.bytes[..];
      ram.Fill(tls, Zeros(TlsSize(t)));
      ghost var w1, m1 := ram.cells, ram.bytes[..];
      AroundInside(w, w, w1, tls, tls + TlsSpan(t), tls, tls + TlsSize(t));
      if HasTemplate(t) {
        var template := ram.bytes[t.rawAddr..t.rawAddr + t.rawSize];
        assert template == m1[t.rawAddr..t.rawAddr + t.rawSize];
        ram.Fill(tls, template);
        AroundInside(w, w1, ram.cells, tls, tls + TlsSpan(t), tls, tls + t.rawSize);
      }
      TemplateCopied(m0, m1, ram.bytes[..], tls, t);
    }

    method FillKPcr(K: u32, tlsPtr: u32, T: u32, stackBase: u32, stackLimit: u32)
      requires ram.Valid() && K + KPCR_SIZE <= TWO32
      modifies ram, ram.bytes
      ensures ram.Valid() && Around(old(ram.cells), ram.cells, K, K + KPCR_SIZE)
      ensures RecordAt(ram.bytes[..], K, KPCR_SIZE, KPcr(K, tlsPtr, T, stackBase, stackLimit))
      ensures Outside(old(ram.bytes[..]), ram.bytes[..], K, K + KPCR_SIZE)
    {
      KPcrApart(K, tlsPtr, T, stackBase, stackLimit);
      ram.FillRecord(K, KPCR_SIZE, KPcr(K, tlsPtr, T, stackBase, stackLimit));
    }

    /** FillKThread: the record's own fields, then the insertion into the process's list. */
    method FillKThread(T: u32, K: u32, stackBase: u32, stackLimit: u32, tlsDynamic: u32, id: u32, start: u32)
      requires ram.Valid() && T + PAGE <= ARENA_LIMIT && T % 4 == 0 && K + KPCR_SIZE <= TWO32
      requires IsList(ram.cells, PROCESS, threads) && Below(PROCESS, threads, T)
      modifies ram, ram.bytes, this`threads
      ensures ram.Valid() && IsList(ram.cells, PROCESS, threads) && threads == old(threads) + [T]
      ensures Below(PROCESS, threads, T + PAGE)
      ensures ThreadAt(ram.bytes[..], T, KThread(T, K, PROCESS, stackBase, stackLimit, tlsDynamic, id, start))
      ensures OnlyThread(old(ram.bytes[..]), ram.bytes[..], T, Node(PROCESS, old(threads), |old(threads)|))
    {
      ghost var ts, c0, m0 := threads, ram.cells, ram.bytes[..];
      ghost var fields := KThread(T, K, PROCESS, stackBase, stackLimit, tlsDynamic, id, start);
      NewRecord(PROCESS, ts, T);
      KThreadApart(T, K, PROCESS, stackBase, stackLimit, tlsDynamic, id, start);
      ram.FillRecord(T, THREAD_SIZE, KThread(T, K, PROCESS, stackBase, stackLimit, tlsDynamic, id, start));
      ghost var w, m1 := ram.cells, ram.bytes[..];
      AboveChanged(c0, w, PROCESS, ts, T, T + THREAD_SIZE);
      LastNode(w, PROCESS, ts, T);
      Insert(T);
      ThreadFilled(m0, m1, ram.bytes[..], T, Node(PROCESS, ts, |ts|), fields);
      InsertedIsAppended(w, PROCESS, ts, T);
      ListAgrees(Inserted(w, PROCESS, T), ram.cells, PROCESS, ts + [T]);
      threads := threads + [T];
    }

    method Insert(T: u32)
      requires ram.Valid() && T % 4 == 0 && T + PAGE < TWO32
      requires var back := ram.cells(PROCESS + LIST_HEAD + 4); back % 4 == 0 && back + 4 <= TWO32
      modifies ram, ram.bytes
      ensures ram.Valid() && Agree(ram.cells, Inserted(old(ram.cells), PROCESS, T))
      ensures OnlyLinks(old(ram.bytes[..]), ram.bytes[..], T, old(ram.cells(PROCESS + LIST_HEAD + 4)))
    {
      ghost var w0 := ram.cells;
      var head := PROCESS + LIST_HEAD;
      var oldBlink := ram.Load(head + 4);
      ram.Store(T + LIST_ENTRY, head);
      ghost var w1, c1 := Update(w0, T + LIST_ENTRY, head), ram.cells;
      ram.Store(T + LIST_ENTRY + 4, oldBlink);
      ghost var w2, c2 := Update(w1, T + LIST_ENTRY + 4, oldBlink), ram.cells;
      AgreeUpdate(c1, w1, c2, T + LIST_ENTRY + 4, oldBlink);
      ram.Store(oldBlink, T + LIST_ENTRY);
      ghost var w3, c3 := Update(w2, oldBlink, T + LIST_ENTRY), ram.cells;
      AgreeUpdate(c2, w2, c3, oldBlink, T + LIST_ENTRY);
      ram.Store(head + 4, T + LIST_ENTRY);
      ghost var w4, c4 := Update(w3, head + 4, T + LIST_ENTRY), ram.cells;
      AgreeUpdate(c3, w3, c4, head + 4, T + LIST_ENTRY);
      var count := ram.Load(PROCESS + THREAD_COUNT);
      assert count == w4(PROCESS + THREAD_COUNT);
      ram.Store(PROCESS + THREAD_COUNT, Inc(count));
      AgreeUpdate(c4, w4, ram.cells, PROCESS + THREAD_COUNT, Inc(count));
    }

    method Bump(n: nat) returns (a: u32)
      requires arenaNext % PAGE == 0 && arenaNext + Pages(n) <= ARENA_LIMIT
      modifies this`arenaNext
      ensures a == old(arenaNext) && arenaNext == a + Pages(n) && arenaNext % PAGE == 0
    {
      a := arenaNext;
      arenaNext := Pages(a + n);
      PagesSum(a, n);
    }

    /** Pages for a record, a KPCR and a TLS block. */
    method NewPages(tlsSize: nat) returns (T: u32, K: u32, tls: u32)
      requires arenaNext % PAGE == 0 && arenaNext + 2 * PAGE + Pages(tlsSize) <= ARENA_LIMIT
      modifies this`arenaNext
      ensures T == old(arenaNext) && K == T + PAGE && tls == K + PAGE && tls + tlsSize <= arenaNext <= ARENA_LIMIT
      ensures arenaNext % PAGE == 0 && T % 4 == 0
    {
      SmallPages(arenaNext);
      T := Bump(0xB00);
      K := Bump(0x300);
      tls := Bump(tlsSize);
    }

    /** A stack in 64 KiB granules and a guard above it, in uint32_t arithmetic: below the wrap, of at least the size
        asked for. */
    method NewStack(stackSize: u32) returns (stackLimit: u32, stackBase: u32)
      modifies this`stackNext
      ensures stackLimit == old(stackNext)
      ensures old(stackNext) + stackSize + 0x6_0000 < TWO32 ==> IsStack(stackSize, stackLimit, stackBase, stackNext)
    {
      var size: u32 := if stackSize == 0 then 0x4_0000 else stackSize;
      size := (size + 0xFFFF) % TWO32 / 0x1_0000 * 0x1_0000;
      stackLimit := stackNext;
      stackBase := (stackLimit + size) % TWO32;
      stackNext := (stackBase + 0x1_0000) % TWO32;
    }

    method ReadTls() returns (t: TlsInfo)
      requires ram.Valid()
      ensures t == ProcessTls(ram.bytes[..])
    {
      var b := ram.bytes;
      var dataSize := ram.Load(PROCESS + 0x24);
      var rawAddr := ram.Load(PROCESS + 0x20);
      var rawSize := ram.Load(PROCESS + 0x28);
      SameWords(ram.cells, b[..]);
      t := TlsInfo(Join(0, 0, b[PROCESS + 0x2C], b[PROCESS + 0x2D]), dataSize, rawAddr, rawSize);
    }

    /** TLS block, record and KPCR of a new thread, the record at the tail of the list. */
    method FillContext(T: u32, tls: u32, t: TlsInfo, stackBase: u32, stackLimit: u32, id: u32, start: u32)
      requires ram.Valid() && IsList(ram.cells, PROCESS, threads) && Below(PROCESS, threads, T) && T % 4 == 0
      requires tls == T + 2 * PAGE && tls + TlsSize(t) <= ARENA_LIMIT && TemplateInMemory(t, tls)
      modifies ram, ram.bytes, this`threads
      ensures ram.Valid() && IsList(ram.cells, PROCESS, threads) && threads == old(threads) + [T]
      ensures Below(PROCESS, threads, T + PAGE)
      ensures ContextAt(old(ram.bytes[..]), ram.bytes[..], T, tls, t, stackBase, stackLimit, id, start,
                Node(PROCESS, old(threads), |old(threads)|))
      ensures TemplateFits(t, tls) ==> TlsBlock(old(ram.bytes[..]), ram.bytes[..], tls, t)
    {
      ghost var ts, m0, c0 := threads, ram.bytes[..], ram.cells;
      ghost var back := Node(PROCESS, ts, |ts|);
      var K, tlsDynamic := T + PAGE, (tls + t.dataSize) % TWO32;
      FillTls(tls, t);
      ghost var m1 := ram.bytes[..];
      AboveChanged(c0, ram.cells, PROCESS, ts, tls, tls + TlsSpan(t));
      LastNode(ram.cells, PROCESS, ts, T);
      FillKThread(T, K, stackBase, stackLimit, tlsDynamic, id, start);
      ghost var m2, c2 := ram.bytes[..], ram.cells;
      FillKPcr(K, tls, T, stackBase, stackLimit);
      AboveChanged(c2, ram.cells, PROCESS, threads, K, K + KPCR_SIZE);
      BelowKept(m0, m1, m2, ram.bytes[..], T, tls, TlsSpan(t), back);
      ContextFilled(m1, m2, ram.bytes[..], T, back, KThread(T, K, PROCESS, stackBase, stackLimit, tlsDynamic, id, start));
      if TemplateFits(t, tls) { BlockStays(m0, m1, m2, ram.bytes[..], T, tls, back, t); }
    }

    /**
     * CreateGuestThreadContext: a record, a KPCR and a TLS block on pages of their own, a stack above the last
     * one, and the record at the tail of the list. Below the new pages only links change. A template that is too long
     * or not apart spoils only the block; a stack past 2^32 spoils only the stack.
     */
    method CreateGuestThreadContext(stackSize: u32, start: u32, id: u32)
      returns (T: u32, K: u32, tls: u32, stackLimit: u32, stackBase: u32)
      requires Valid()
      requires var t := ProcessTls(ram.bytes[..]);
               arenaNext + 2 * PAGE + Pages(TlsSize(t)) <= ARENA_LIMIT && TemplateInMemory(t, arenaNext + 2 * PAGE)
      modifies this, ram, ram.bytes
      ensures Valid() && threads == old(threads) + [T]
      ensures T == old(arenaNext) && K == T + PAGE && tls == K + PAGE && stackLimit == old(stackNext)
      ensures old(stackNext) + stackSize + 0x6_0000 < TWO32 ==> IsStack(stackSize, stackLimit, stackBase, stackNext)
      ensures var m := old(ram.bytes[..]);
              tls + TlsSize(ProcessTls(m)) <= arenaNext
              && ContextAt(m, ram.bytes[..], T, tls, ProcessTls(m), stackBase, stackLimit, id, start,
                   Node(PROCESS, old(threads), |old(threads)|))
              && (TemplateFits(ProcessTls(m), tls) ==> TlsBlock(m, ram.bytes[..], tls, ProcessTls(m)))
    {
      var t := ReadTls();
      T, K, tls := NewPages(TlsSize(t));
      stackLimit, stackBase := NewStack(stackSize);
      FillContext(T, tls, t, stackBase, stackLimit, id, start);
      BelowMore(PROCESS, threads, T + PAGE, arenaNext);
    }
  }

  /** A record and a KPCR take a page each, and pages are 4-aligned. */
  lemma SmallPages(a: nat)
    requires a % PAGE == 0
    ensures Pages(0xB00) == PAGE && Pages(0x300) == PAGE && a % 4 == 0
  {
    assert a == a / PAGE * 0x400 * 4;
  }

  lemma PagesSum(a: nat, n: nat)
    requires a % PAGE == 0
    ensures Pages(a + n) == a + Pages(n)
  {
    assert a == a / PAGE * PAGE;
    assert (a + n + PAGE - 1) / PAGE == a / PAGE + (n + PAGE - 1) / PAGE;
  }

  /** The old tail is a node. */
  lemma LastNode(w: Cells, P: nat, ts: seq<nat>, next: nat)
    requires IsList(w, P, ts) && Below(P, ts, next)
    ensures w(P + LIST_HEAD + 4) == Node(P, ts, |ts|) && Node(P, ts, |ts|) % 4 == 0 && Node(P, ts, |ts|) + 8 <= next
  {
    assert LinkedAt(w, P, ts, |ts|);
    NodesDiffer(P, ts, |ts|, |ts|);
  }

  /** The list words of the fresh process record are the empty list. */
  lemma EmptyList(w: Cells, m: seq<byte>, fields: seq<Field>, kernStack: u32, slots: u32, t: TlsInfo, bitmap: seq<u32>)
    requires |m| == TWO32 && |bitmap| == 8 && Shows(w, m) && RecordAt(m, PROCESS, PROCESS_SIZE, fields)
    requires fields == KProcess(PROCESS, kernStack, slots, t, bitmap)
    ensures IsList(w, PROCESS, [])
  {
    KProcessApart(PROCESS, kernStack, slots, t, bitmap);
    FieldWord(w, m, fields, 0);
    FieldWord(w, m, fields, 1);
    FieldWord(w, m, fields, 3);
  }

  /** What CreateGuestThreadContext will read from the process record. */
  lemma TlsReadBack(m: seq<byte>, fields: seq<Field>, kernStack: u32, slots: u32, t: TlsInfo, bitmap: seq<u32>)
    requires |m| == TWO32 && |bitmap| == 8 && fields == KProcess(PROCESS, kernStack, slots, t, bitmap)
    requires ProcessAt(m, fields)
    ensures ProcessTls(m) == t.(slotSize := 4 * Padded(slots) % 0x1_0000)
  {
    KProcessApart(PROCESS, kernStack, slots, t, bitmap);
    ProcessField(m, fields, 9);
    ProcessField(m, fields, 10);
    ProcessField(m, fields, 11);
    ProcessField(m, fields, 12);
    WordNumber(m, PROCESS + 0x20);
    WordNumber(m, PROCESS + 0x24);
    WordNumber(m, PROCESS + 0x28);
    HalfNumber(m, PROCESS + 0x2C);
  }

  lemma ProcessField(m: seq<byte>, fields: seq<Field>, i: nat)
    requires ProcessAt(m, fields) && AllApart(fields) && Within(fields, 0, PROCESS_SIZE) && i < |fields|
    requires fields[i].offset >= THREAD_COUNT + 4
    ensures var a := PROCESS + fields[i].offset; Number(m[a..a + fields[i].size]) == fields[i].value
  {
    var f := fields[i];
    var s := m[PROCESS + f.offset..PROCESS + f.offset + f.size];
    forall k | 0 <= k < f.size
      ensures s[k] == BigEndian(f.value, f.size)[k]
    {
      FieldStays(fields, i, k);
    }
    assert s == BigEndian(f.value, f.size);
    NumberOf(f.value, f.size);
  }

  lemma HalfNumber(m: seq<byte>, a: nat)
    requires a + 2 <= |m|
    ensures Join(0, 0, m[a], m[a + 1]) == Number(m[a..a + 2])
  {
    var s1 := m[a..a + 1];
    var hi: nat := m[a];
    assert s1[..0] == [] && m[a..a + 2][..1] == s1;
    assert Number(s1) == 256 * Number([]) + hi;
    assert Number(m[a..a + 2]) == 256 * Number(s1) + m[a + 1];
  }

  /** A 32-bit field of the process record is the word at its place. */
  lemma FieldWord(w: Cells, m: seq<byte>, fields: seq<Field>, i: nat)
    requires |m| == TWO32 && Shows(w, m) && RecordAt(m, PROCESS, PROCESS_SIZE, fields)
    requires AllApart(fields) && Within(fields, 0, PROCESS_SIZE) && i < |fields| && fields[i].size == 4
    ensures w(PROCESS + fields[i].offset) == fields[i].value
  {
    var a := PROCESS + fields[i].offset;
    FieldRead(m, PROCESS, PROCESS_SIZE, fields, i);
    WordNumber(m, a);
    assert w(a) == WordAt(m, a);
  }

  lemma WordNumber(m: seq<byte>, a: nat)
    requires a + 4 <= |m|
    ensures Load32(m, a) == Number(m[a..a + 4])
  {
    var s3 := m[a..a + 3];
    HalfNumber(m, a);
    assert s3[..2] == m[a..a + 2] && m[a..a + 4][..3] == s3;
    assert Number(s3) == 256 * Number(m[a..a + 2]) + m[a + 2];
    assert Number(m[a..a + 4]) == 256 * Number(s3) + m[a + 3];
  }

  lemma SameWords(w: Cells, m: seq<byte>)
    requires |m| == TWO32 && Shows(w, m)
    ensures forall a: nat {:trigger w(a)} :: a + 4 <= TWO32 ==> w(a) == Load32(m, a)
  {
    forall a: nat {:trigger w(a)} | a + 4 <= TWO32
      ensures w(a) == Load32(m, a)
    {
      assert w(a) == WordAt(m, a);
    }
  }

  // ---- TLS slots in the block --------------------------------------------------------------------

  /** The word of a slot, at the end of the static data, lies in the thread's block. */
  predicate SlotInBlock(t: TlsInfo, slot: nat) {
    t.dataSize + 4 * slot + 4 <= TlsSize(t)
  }

  /** The slots that the bitmap of the process can hand out. */
  function SlotCount(slots: u32): nat {
    if Padded(slots) < 256 then Padded(slots) else 256
  }

  ghost predicate SlotsInBlock(t: TlsInfo, n: nat) {
    forall slot: nat :: slot < n ==> SlotInBlock(t, slot)
  }

  lemma LastSlot(t: TlsInfo, n: nat)
    requires n > 0
    ensures SlotsInBlock(t, n) <==> SlotInBlock(t, n - 1)
  {
  }

  /** Exactly when every slot that can be allocated lies in the main thread's block. */
  lemma MainSlots(tlsSlots: u32, t: TlsInfo)
    requires var slots := Slots(tlsSlots); t.slotSize == slots * 4 && t.slotSize + t.dataSize < TWO32
    ensures SlotsInBlock(t, SlotCount(Slots(tlsSlots))) <==> Slots(tlsSlots) % 4 == 0 || Slots(tlsSlots) >= 256
  {
    var slots := Slots(tlsSlots);
    PaddedBounds(slots);
    LastSlot(t, SlotCount(slots));
  }

  lemma PaddedBounds(slots: u32)
    requires 0 < slots && slots * 4 < TWO32
    ensures slots <= Padded(slots) < slots + 4 && (Padded(slots) == slots <==> slots % 4 == 0)
    ensures slots >= 256 <==> Padded(slots) > 256 || slots == 256
  {
  }

  /** Exactly when it lies in the block of every other thread, which reads the size as 16 bits. */
  lemma WorkerSlots(tlsSlots: u32, t: TlsInfo)
    requires var slots := Slots(tlsSlots); slots * 4 < TWO32 && t.slotSize == 4 * Padded(slots) % 0x1_0000
    requires 0 < t.slotSize + t.dataSize < TWO32
    ensures SlotsInBlock(t, SlotCount(Slots(tlsSlots))) <==> 4 * Padded(Slots(tlsSlots)) < 0x1_0000 || t.slotSize >= 0x400
  {
    var slots := Slots(tlsSlots);
    PaddedBounds(slots);
    LastSlot(t, SlotCount(slots));
  }
}
