/**
 * The kernel's records in guest memory (varianta/runtime/kernel.cpp:556-562, 614-654, 688-704): each is zeroed,
 * then filled by big-endian stores.
 */
module Records {
  import opened Words

  /** A store into a record: `size` bytes of a big-endian value. */
  datatype RawField = Field(offset: nat, size: nat, value: nat)

  type Field = f: RawField | f.value < Pow256(f.size) witness Field(0, 0, 0)

  function BigEndian(v: nat, n: nat): (r: seq<byte>)
    ensures |r| == n
  {
    if n == 0 then [] else BigEndian(v / 256, n - 1) + [v % 256]
  }

  function Number(s: seq<byte>): nat {
    if s == [] then 0 else 256 * Number(s[..|s| - 1]) + s[|s| - 1]
  }

  lemma {:induction false} NumberOf(v: nat, n: nat)
    requires v < Pow256(n)
    ensures Number(BigEndian(v, n)) == v
  {
    if n > 0 {
      NumberOf(v / 256, n - 1);
      assert BigEndian(v, n)[..n - 1] == BigEndian(v / 256, n - 1);
    }
  }

  /** Byte o of a record of zeroes after the stores, in their order. */
  function ByteOf(fields: seq<Field>, o: nat): byte {
    if fields == [] then 0
    else
      var f := fields[|fields| - 1];
      if f.offset <= o < f.offset + f.size then BigEndian(f.value, f.size)[o - f.offset]
      else ByteOf(fields[..|fields| - 1], o)
  }

  /** The n bytes at a are a record with these fields. */
  ghost predicate RecordAt(m: seq<byte>, a: nat, n: nat, fields: seq<Field>) {
    a + n <= |m| && forall o: nat :: o < n ==> m[a + o] == ByteOf(fields, o)
  }

  // ---- no store overwrites another ---------------------------------------------------------------

  predicate Apart(f: Field, g: Field) {
    f.offset + f.size <= g.offset || g.offset + g.size <= f.offset
  }

  predicate AllApart(fields: seq<Field>) {
    forall i, j :: 0 <= i < j < |fields| ==> Apart(fields[i], fields[j])
  }

  predicate Within(fields: seq<Field>, lo: nat, hi: nat) {
    forall i :: 0 <= i < |fields| ==> lo <= fields[i].offset && fields[i].offset + fields[i].size <= hi
  }

  /** Fields in rising order inside [lo, hi). */
  predicate Rising(fields: seq<Field>, lo: nat, hi: nat) {
    && Within(fields, lo, hi)
    && forall i {:trigger fields[i]} :: 0 < i < |fields| ==> fields[i - 1].offset + fields[i - 1].size <= fields[i].offset
  }

  lemma {:induction false} RisingFrom(fields: seq<Field>, lo: nat, hi: nat, i: nat, j: nat)
    requires Rising(fields, lo, hi) && i < j < |fields|
    ensures fields[i].offset + fields[i].size <= fields[j].offset
    decreases j
  {
    if i < j - 1 { RisingFrom(fields, lo, hi, i, j - 1); }
  }

  lemma RisingIsApart(fields: seq<Field>, lo: nat, hi: nat)
    requires Rising(fields, lo, hi)
    ensures AllApart(fields)
  {
    forall i, j | 0 <= i < j < |fields|
      ensures Apart(fields[i], fields[j])
    {
      RisingFrom(fields, lo, hi, i, j);
    }
  }

  lemma BothApart(a: seq<Field>, b: seq<Field>, lo: nat, hi: nat, lo': nat, hi': nat, l: nat, h: nat)
    requires AllApart(a) && AllApart(b) && Within(a, lo, hi) && Within(b, lo', hi')
    requires (hi <= lo' || hi' <= lo) && l <= lo && l <= lo' && hi <= h && hi' <= h
    ensures AllApart(a + b) && Within(a + b, l, h)
  {
  }

  /** When the fields are apart, each one's bytes are there at the end. */
  lemma {:induction false} FieldStays(fields: seq<Field>, i: nat, k: nat)
    requires AllApart(fields) && i < |fields| && k < fields[i].size
    ensures ByteOf(fields, fields[i].offset + k) == BigEndian(fields[i].value, fields[i].size)[k]
    decreases |fields|
  {
    if i < |fields| - 1 {
      assert Apart(fields[i], fields[|fields| - 1]);
      FieldStays(fields[..|fields| - 1], i, k);
    }
  }

  /** Reading a field of the record gives its value. */
  lemma FieldRead(m: seq<byte>, a: nat, n: nat, fields: seq<Field>, i: nat)
    requires RecordAt(m, a, n, fields) && AllApart(fields) && Within(fields, 0, n) && i < |fields|
    ensures var f := fields[i]; a + f.offset + f.size <= |m| && Number(m[a + f.offset..a + f.offset + f.size]) == f.value
  {
    var f := fields[i];
    var s := m[a + f.offset..a + f.offset + f.size];
    forall k | 0 <= k < f.size
      ensures s[k] == BigEndian(f.value, f.size)[k]
    {
      FieldStays(fields, i, k);
    }
    assert s == BigEndian(f.value, f.size);
    NumberOf(f.value, f.size);
  }

  lemma Sizes()
    ensures Pow256(1) == 0x100 && Pow256(2) == 0x1_0000 && Pow256(4) == TWO32 && TWO32 <= Pow256(8)
  {
    assert Pow256(3) == 0x100_0000;
    assert Pow256(6) == 0x1_0000 * TWO32;
  }

  // ---- the layouts -------------------------------------------------------------------------------

  const THREAD_SIZE: nat := 0xAB0
  const KPCR_SIZE: nat := 0x2D8
  const PROCESS_SIZE: nat := 0x60

  /** What FillKThread stores before it inserts the record into the list. */
  function KThread(T: u32, K: u32, P: u32, stackBase: u32, stackLimit: u32, tlsDynamic: u32, id: u32, start: u32)
    : seq<Field>
    requires T + THREAD_SIZE <= TWO32 && K + KPCR_SIZE <= TWO32
  {
    KThreadWait(T, stackBase, stackLimit, tlsDynamic) + KThreadApcs(T) + KThreadTypes()
    + KThreadRest(T, K, P, stackBase, id, start)
  }

  function KThreadWait(T: u32, stackBase: u32, stackLimit: u32, tlsDynamic: u32): seq<Field>
    requires T + THREAD_SIZE <= TWO32
  {
    KThreadBlock(T) + KThreadStack(stackBase, stackLimit, tlsDynamic)
  }

  function KThreadBlock(T: u32): seq<Field>
    requires T + THREAD_SIZE <= TWO32
  {
    Sizes();
    [Field(0x00, 1, 6), Field(0x10, 4, T + 0x10), Field(0x14, 4, T + 0x10), Field(0x40, 4, T + 0x20),
     Field(0x44, 4, T + 0x20), Field(0x48, 4, T), Field(0x4C, 4, T + 0x18), Field(0x54, 2, 0x0100),
     Field(0x56, 2, 0x0201)]
  }

  function KThreadStack(stackBase: u32, stackLimit: u32, tlsDynamic: u32): seq<Field> {
    Sizes();
    [Field(0x5C, 4, stackBase), Field(0x60, 4, stackLimit), Field(0x64, 4, (stackBase + TWO32 - 240) % TWO32),
     Field(0x68, 4, tlsDynamic), Field(0x6C, 1, 2)]
  }

  function KThreadApcs(T: u32): seq<Field>
    requires T + THREAD_SIZE <= TWO32
  {
    Sizes();
    [Field(0x74, 4, T + 0x74), Field(0x78, 4, T + 0x74), Field(0x7C, 4, T + 0x7C), Field(0x80, 4, T + 0x7C)]
  }

  function KThreadTypes(): seq<Field> {
    Sizes();
    [Field(0x72, 1, 1), Field(0x73, 1, 1)]
  }

  function KThreadRest(T: u32, K: u32, P: u32, stackBase: u32, id: u32, start: u32): seq<Field>
    requires T + THREAD_SIZE <= TWO32 && K + KPCR_SIZE <= TWO32
  {
    KThreadOwner(K, P, stackBase) + KThreadTimers(T, id, start)
  }

  function KThreadOwner(K: u32, P: u32, stackBase: u32): seq<Field>
    requires K + KPCR_SIZE <= TWO32
  {
    Sizes();
    [Field(0x84, 4, P), Field(0x8B, 1, 1), Field(0x9C, 4, 0xFDFF_D7FF), Field(0xC0, 4, K + 0x100),
     Field(0xC4, 4, K + 0x100), Field(0xD0, 4, stackBase)]
  }

  function KThreadTimers(T: u32, id: u32, start: u32): seq<Field>
    requires T + THREAD_SIZE <= TWO32
  {
    Sizes();
    [Field(0x144, 4, T + 0x144), Field(0x148, 4, T + 0x144), Field(0x14C, 4, id), Field(0x150, 4, start),
     Field(0x154, 4, T + 0x154), Field(0x158, 4, T + 0x154), Field(0x17C, 4, 1)]
  }

  /** What FillKPcr stores. */
  function KPcr(K: u32, tlsPtr: u32, T: u32, stackBase: u32, stackLimit: u32): seq<Field>
    requires K + KPCR_SIZE <= TWO32
  {
    Sizes();
    [Field(0x00, 4, tlsPtr), Field(0x18, 1, 0), Field(0x30, 8, K), Field(0x70, 4, stackBase), Field(0x74, 4, stackLimit),
     Field(0x100, 4, T), Field(0x2A8, 4, K + 0x100)]
  }

  /** Thread-local storage: bytes of the slots and of the static data, and the template of the latter. */
  datatype TlsInfo = TlsInfo(slotSize: u32, dataSize: u32, rawAddr: u32, rawSize: u32)

  /** `(slots + 3) & ~3`. */
  function Padded(slots: u32): u32 {
    (slots + 3) % TWO32 / 4 * 4
  }

  /** What SetupEnvironment stores into the process record; the last eight words are the TLS slot bitmap. */
  function KProcess(P: u32, kernStack: u32, slots: u32, t: TlsInfo, bitmap: seq<u32>): seq<Field>
    requires P + PROCESS_SIZE <= TWO32 && |bitmap| == 8
  {
    KProcessList(P) + KProcessTls(P, kernStack, slots, t) + KProcessBitmap(bitmap)
  }

  function KProcessList(P: u32): seq<Field>
    requires P + PROCESS_SIZE <= TWO32
  {
    Sizes();
    [Field(0x04, 4, P + 0x04), Field(0x08, 4, P + 0x04), Field(0x0C, 4, 60), Field(0x14, 4, 0), Field(0x18, 1, 10),
     Field(0x19, 1, 13), Field(0x1A, 1, 17), Field(0x1B, 1, 6)]
  }

  function KProcessTls(P: u32, kernStack: u32, slots: u32, t: TlsInfo): seq<Field>
    requires P + PROCESS_SIZE <= TWO32
  {
    Sizes();
    [Field(0x1C, 4, kernStack), Field(0x20, 4, t.rawAddr), Field(0x24, 4, t.dataSize), Field(0x28, 4, t.rawSize),
     Field(0x2C, 2, 4 * Padded(slots) % 0x1_0000), Field(0x2F, 1, 1), Field(0x54, 4, P + 0x54), Field(0x58, 4, P + 0x54)]
  }

  function KProcessBitmap(bitmap: seq<u32>): seq<Field>
    requires |bitmap| == 8
  {
    Sizes();
    [Field(0x30, 4, bitmap[0]), Field(0x34, 4, bitmap[1]), Field(0x38, 4, bitmap[2]), Field(0x3C, 4, bitmap[3]),
     Field(0x40, 4, bitmap[4]), Field(0x44, 4, bitmap[5]), Field(0x48, 4, bitmap[6]), Field(0x4C, 4, bitmap[7])]
  }

  lemma KThreadApart(T: u32, K: u32, P: u32, stackBase: u32, stackLimit: u32, tlsDynamic: u32, id: u32, start: u32)
    requires T + THREAD_SIZE <= TWO32 && K + KPCR_SIZE <= TWO32
    ensures var fs := KThread(T, K, P, stackBase, stackLimit, tlsDynamic, id, start);
            AllApart(fs) && Within(fs, 0, THREAD_SIZE)
  {
    WaitRises(T, stackBase, stackLimit, tlsDynamic);
    ApcsRise(T);
    RestRises(T, K, P, stackBase, id, start);
    PartsApart(KThreadWait(T, stackBase, stackLimit, tlsDynamic), KThreadApcs(T), KThreadTypes(),
      KThreadRest(T, K, P, stackBase, id, start));
  }

  lemma PartsApart(a: seq<Field>, b: seq<Field>, c: seq<Field>, d: seq<Field>)
    requires Rising(a, 0, 0x6D) && Rising(b, 0x74, 0x84) && Rising(c, 0x72, 0x74) && Rising(d, 0x84, 0x180)
    ensures AllApart(a + b + c + d) && Within(a + b + c + d, 0, THREAD_SIZE)
  {
    RisingIsApart(a, 0, 0x6D);
    RisingIsApart(b, 0x74, 0x84);
    RisingIsApart(c, 0x72, 0x74);
    RisingIsApart(d, 0x84, 0x180);
    BothApart(b, c, 0x74, 0x84, 0x72, 0x74, 0x72, 0x84);
    BothApart(a, b + c, 0, 0x6D, 0x72, 0x84, 0, 0x84);
    Assoc(a, b, c);
    BothApart(a + b + c, d, 0, 0x84, 0x84, 0x180, 0, THREAD_SIZE);
  }

  lemma WaitRises(T: u32, stackBase: u32, stackLimit: u32, tlsDynamic: u32)
    requires T + THREAD_SIZE <= TWO32
    ensures Rising(KThreadWait(T, stackBase, stackLimit, tlsDynamic), 0, 0x6D)
  {
    var a, b := KThreadBlock(T), KThreadStack(stackBase, stackLimit, tlsDynamic);
    assert Rising(a, 0, 0x58);
    assert Rising(b, 0x5C, 0x6D);
    BothRise(a, b, 0, 0x58, 0x5C, 0x6D);
  }

  lemma BothRise(a: seq<Field>, b: seq<Field>, lo: nat, hi: nat, lo': nat, hi': nat)
    requires Rising(a, lo, hi) && Rising(b, lo', hi') && lo <= lo' && hi <= lo' && hi <= hi'
    ensures Rising(a + b, lo, hi')
  {
  }

  lemma ApcsRise(T: u32)
    requires T + THREAD_SIZE <= TWO32
    ensures Rising(KThreadApcs(T), 0x74, 0x84) && Rising(KThreadTypes(), 0x72, 0x74)
  {
  }

  lemma RestRises(T: u32, K: u32, P: u32, stackBase: u32, id: u32, start: u32)
    requires T + THREAD_SIZE <= TWO32 && K + KPCR_SIZE <= TWO32
    ensures Rising(KThreadRest(T, K, P, stackBase, id, start), 0x84, 0x180)
  {
    var a, b := KThreadOwner(K, P, stackBase), KThreadTimers(T, id, start);
    assert Rising(a, 0x84, 0xD4);
    assert Rising(b, 0x144, 0x180);
    BothRise(a, b, 0x84, 0xD4, 0x144, 0x180);
  }

  lemma KPcrApart(K: u32, tlsPtr: u32, T: u32, stackBase: u32, stackLimit: u32)
    requires K + KPCR_SIZE <= TWO32
    ensures var fs := KPcr(K, tlsPtr, T, stackBase, stackLimit); AllApart(fs) && Within(fs, 0, KPCR_SIZE)
  {
    RisingIsApart(KPcr(K, tlsPtr, T, stackBase, stackLimit), 0, KPCR_SIZE);
  }

  lemma KProcessApart(P: u32, kernStack: u32, slots: u32, t: TlsInfo, bitmap: seq<u32>)
    requires P + PROCESS_SIZE <= TWO32 && |bitmap| == 8
    ensures var fs := KProcess(P, kernStack, slots, t, bitmap); AllApart(fs) && Within(fs, 0, PROCESS_SIZE)
  {
    ListRises(P);
    TlsRises(P, kernStack, slots, t);
    BitmapRises(bitmap);
    SectionsApart(KProcessList(P), KProcessTls(P, kernStack, slots, t), KProcessBitmap(bitmap));
  }

  lemma SectionsApart(a: seq<Field>, b: seq<Field>, c: seq<Field>)
    requires Rising(a, 0, 0x1C) && Rising(b, 0x1C, 0x5C) && Rising(c, 0x30, 0x50)
    requires |b| == 8 && Within(b[..6], 0x1C, 0x30) && Within(b[6..], 0x54, 0x5C)
    ensures AllApart(a + b + c) && Within(a + b + c, 0, PROCESS_SIZE)
  {
    BothRise(a, b, 0, 0x1C, 0x1C, 0x5C);
    RisingIsApart(a + b, 0, 0x5C);
    RisingIsApart(c, 0x30, 0x50);
    forall i, j | 0 <= i < |a + b| && 0 <= j < |c|
      ensures Apart((a + b)[i], c[j])
    {
      if i >= |a| { assert (a + b)[i] == if i < |a| + 6 then b[..6][i - |a|] else b[6..][i - |a| - 6]; }
    }
    Joined(a + b, c);
  }

  lemma Joined(a: seq<Field>, b: seq<Field>)
    requires AllApart(a) && AllApart(b) && forall i, j :: 0 <= i < |a| && 0 <= j < |b| ==> Apart(a[i], b[j])
    requires Within(a, 0, PROCESS_SIZE) && Within(b, 0, PROCESS_SIZE)
    ensures AllApart(a + b) && Within(a + b, 0, PROCESS_SIZE)
  {
  }

  lemma ListRises(P: u32)
    requires P + PROCESS_SIZE <= TWO32
    ensures Rising(KProcessList(P), 0, 0x1C)
  {
  }

  lemma TlsRises(P: u32, kernStack: u32, slots: u32, t: TlsInfo)
    requires P + PROCESS_SIZE <= TWO32
    ensures var b := KProcessTls(P, kernStack, slots, t);
            Rising(b, 0x1C, 0x5C) && |b| == 8 && Within(b[..6], 0x1C, 0x30) && Within(b[6..], 0x54, 0x5C)
  {
  }

  lemma BitmapRises(bitmap: seq<u32>)
    requires |bitmap| == 8
    ensures Rising(KProcessBitmap(bitmap), 0x30, 0x50)
  {
  }

  /** The size of the slots in the process record, 16 bits of the padded count, is that of the main thread's block
      exactly for a multiple of four slots that takes less than 64 KiB. */
  lemma SameSlotSize(slots: u32)
    ensures 4 * Padded(slots) % 0x1_0000 == slots * 4 % TWO32 <==> slots % 4 == 0 && slots * 4 % TWO32 < 0x1_0000
  {
    LowDigits(slots * 4);
    PaddedIs(slots);
    if slots % 4 != 0 {
      Shifted(slots * 4, 4 * (4 - slots % 4));
    }
  }

  lemma PaddedIs(slots: u32)
    ensures slots % 4 == 0 ==> Padded(slots) == slots
    ensures slots % 4 != 0 ==> 4 * Padded(slots) % 0x1_0000 == (slots * 4 + 4 * (4 - slots % 4)) % 0x1_0000
  {
    if slots % 4 != 0 {
      var n := slots + 4 - slots % 4;
      assert Padded(slots) == if n < TWO32 then n else 0;
    }
  }

  lemma LowDigits(s: nat)
    ensures s % TWO32 % 0x1_0000 == s % 0x1_0000
  {
    Euclid(s, TWO32);
    ModAdd(s / TWO32 * 0x1_0000, 0x1_0000, s % TWO32);
  }

  /** A small step changes the remainder. */
  lemma Shifted(s: nat, d: nat)
    requires 0 < d < 0x1_0000
    ensures (s + d) % 0x1_0000 != s % 0x1_0000
  {
    var r := s % 0x1_0000;
    Euclid(s, 0x1_0000);
    if r + d < 0x1_0000 {
      DivMod(s / 0x1_0000, 0x1_0000, r + d);
    } else {
      DivMod(s / 0x1_0000 + 1, 0x1_0000, r + d - 0x1_0000);
    }
  }
}
