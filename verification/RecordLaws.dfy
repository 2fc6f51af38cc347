/**
 * The words of a new thread's records, by their addresses (varianta/runtime/kernel.cpp:614-654, 688-704, 1026-1060).
 */
module RecordLaws {
  import opened Words
  import opened Records
  import opened ThreadList

  /** The big-endian word at a. */
  predicate Holds(m: seq<byte>, a: nat, v: int) {
    a + 4 <= |m| && Sum(m[a], m[a + 1], m[a + 2], m[a + 3]) == v
  }

  function Sum(b3: int, b2: int, b1: int, b0: int): int {
    0x100_0000 * b3 + 0x1_0000 * b2 + 0x100 * b1 + b0
  }

  predicate IsByte(m: seq<byte>, a: nat, v: int) {
    a < |m| && m[a] == v
  }

  predicate IsHalf(m: seq<byte>, a: nat, v: int) {
    a + 2 <= |m| && Sum(0, 0, m[a], m[a + 1]) == v
  }

  /** Memory at a has the value of the field, by its size. */
  predicate Held(m: seq<byte>, a: nat, f: Field) {
    && (f.size == 4 ==> Holds(m, a + f.offset, f.value))
    && (f.size == 2 ==> IsHalf(m, a + f.offset, f.value))
    && (f.size == 1 ==> IsByte(m, a + f.offset, f.value))
    && (f.size == 8 && f.value < 0x1_0000_0000 ==> Holds(m, a + f.offset, 0) && Holds(m, a + f.offset + 4, f.value))
  }

  lemma FieldHeld(m: seq<byte>, a: nat, fields: seq<Field>, f: Field)
    requires f in fields && AllApart(fields) && Written(m, a, fields, f)
    ensures Held(m, a, f)
  {
    if f.size == 4 { WordOf(m, a, fields, f); }
    if f.size == 2 { HalfOf(m, a, fields, f); }
    if f.size == 1 { ByteOfField(m, a, fields, f); }
    if f.size == 8 && f.value < TWO32 { LongOf(m, a, fields, f); }
  }

  /** The bytes of a field are those of the record. */
  predicate Written(m: seq<byte>, a: nat, fields: seq<Field>, f: Field) {
    && a + f.offset + f.size <= |m|
    && forall o: nat :: f.offset <= o < f.offset + f.size ==> m[a + o] == ByteOf(fields, o)
  }

  lemma FieldBytes(m: seq<byte>, a: nat, fields: seq<Field>, f: Field)
    requires f in fields && AllApart(fields) && Written(m, a, fields, f)
    ensures m[a + f.offset..a + f.offset + f.size] == BigEndian(f.value, f.size)
  {
    var i :| 0 <= i < |fields| && fields[i] == f;
    var s := m[a + f.offset..a + f.offset + f.size];
    forall k | 0 <= k < f.size
      ensures s[k] == BigEndian(f.value, f.size)[k]
    {
      FieldStays(fields, i, k);
      assert m[a + (f.offset + k)] == ByteOf(fields, f.offset + k);
    }
  }

  lemma WordOf(m: seq<byte>, a: nat, fields: seq<Field>, f: Field)
    requires f in fields && AllApart(fields) && Written(m, a, fields, f) && f.size == 4
    ensures Holds(m, a + f.offset, f.value)
  {
    FieldBytes(m, a, fields, f);
    NumberOf(f.value, 4);
    WordNumber(m, a + f.offset);
  }

  lemma ByteOfField(m: seq<byte>, a: nat, fields: seq<Field>, f: Field)
    requires f in fields && AllApart(fields) && Written(m, a, fields, f) && f.size == 1
    ensures m[a + f.offset] == f.value
  {
    FieldBytes(m, a, fields, f);
    assert m[a + f.offset..a + f.offset + 1][0] == m[a + f.offset];
    Sizes();
    OneByte(f.value);
  }

  lemma HalfOf(m: seq<byte>, a: nat, fields: seq<Field>, f: Field)
    requires f in fields && AllApart(fields) && Written(m, a, fields, f) && f.size == 2
    ensures IsHalf(m, a + f.offset, f.value)
  {
    FieldBytes(m, a, fields, f);
    NumberOf(f.value, 2);
    HalfNumber(m, a + f.offset);
  }

  lemma OneByte(v: nat)
    requires v < 256
    ensures BigEndian(v, 1)[0] == v
  {
  }

  lemma {:induction false} Zeroes(v: nat, n: nat, k: nat)
    requires v < Pow256(k)
    ensures BigEndian(v, n + k)[..n] == seq(n, _ => 0) && BigEndian(v, n + k)[n..] == BigEndian(v, k)
  {
    if k > 0 {
      Zeroes(v / 256, n, k - 1);
      assert BigEndian(v, n + k) == BigEndian(v / 256, n + (k - 1)) + [v % 256];
    } else {
      NoDigits(n);
    }
  }

  lemma {:induction false} NoDigits(n: nat)
    ensures BigEndian(0, n) == seq(n, _ => 0)
  {
    if n > 0 { NoDigits(n - 1); }
  }

  /** A 64-bit field that holds a 32-bit value. */
  lemma LongOf(m: seq<byte>, a: nat, fields: seq<Field>, f: Field)
    requires f in fields && AllApart(fields) && Written(m, a, fields, f) && f.size == 8 && f.value < TWO32
    ensures Holds(m, a + f.offset, 0) && Holds(m, a + f.offset + 4, f.value)
  {
    Sizes();
    FieldBytes(m, a, fields, f);
    Zeroes(f.value, 4, 4);
    var s, o := BigEndian(f.value, 8), a + f.offset;
    assert m[o..o + 8][..4] == m[o..o + 4] && m[o..o + 8][4..] == m[o + 4..o + 8];
    assert m[o] == m[o..o + 4][0] && m[o + 1] == m[o..o + 4][1] && m[o + 2] == m[o..o + 4][2] && m[o + 3] == m[o..o + 4][3];
    NumberOf(f.value, 4);
    WordNumber(m, o + 4);
  }

  // ---- the KPCR ----------------------------------------------------------------------------------

  /** The KPCR at K: TLS block, itself, stack and current thread. */
  predicate IsKPcr(m: seq<byte>, K: nat, tlsPtr: int, T: int, stackBase: int, stackLimit: int) {
    && Holds(m, K, tlsPtr) && IsByte(m, K + 0x18, 0) && Holds(m, K + 0x30, 0) && Holds(m, K + 0x34, K)
    && Holds(m, K + 0x70, stackBase) && Holds(m, K + 0x74, stackLimit)
    && Holds(m, K + 0x100, T) && Holds(m, K + 0x2A8, K + 0x100)
  }

  lemma RecordField(m: seq<byte>, a: nat, n: nat, fields: seq<Field>, i: nat)
    requires RecordAt(m, a, n, fields) && AllApart(fields) && Within(fields, 0, n) && i < |fields|
    ensures Held(m, a, fields[i])
  {
    FieldHeld(m, a, fields, fields[i]);
  }

  lemma KPcrLaw(m: seq<byte>, K: u32, tlsPtr: u32, T: u32, stackBase: u32, stackLimit: u32)
    requires K + KPCR_SIZE <= TWO32 && RecordAt(m, K, KPCR_SIZE, KPcr(K, tlsPtr, T, stackBase, stackLimit))
    ensures IsKPcr(m, K, tlsPtr, T, stackBase, stackLimit)
  {
    var fs := KPcr(K, tlsPtr, T, stackBase, stackLimit);
    KPcrApart(K, tlsPtr, T, stackBase, stackLimit);
    RecordField(m, K, KPCR_SIZE, fs, 0);
    RecordField(m, K, KPCR_SIZE, fs, 1);
    RecordField(m, K, KPCR_SIZE, fs, 2);
    RecordField(m, K, KPCR_SIZE, fs, 3);
    RecordField(m, K, KPCR_SIZE, fs, 4);
    RecordField(m, K, KPCR_SIZE, fs, 5);
    RecordField(m, K, KPCR_SIZE, fs, 6);
  }

  // ---- the thread record -------------------------------------------------------------------------

  /** A field of a thread record that is not its list entry. */
  lemma ThreadField(m: seq<byte>, T: nat, fields: seq<Field>, f: Field)
    requires ThreadAt(m, T, fields) && AllApart(fields) && Within(fields, 0, THREAD_SIZE) && f in fields
    requires f.offset + f.size <= 0x110 || 0x118 <= f.offset
    ensures Held(m, T, f)
  {
    FieldHeld(m, T, fields, f);
  }

  ghost predicate AllHeld(m: seq<byte>, T: nat, part: seq<Field>) {
    forall i :: 0 <= i < |part| ==> Held(m, T, part[i])
  }

  lemma PartHeld(m: seq<byte>, T: nat, fields: seq<Field>, part: seq<Field>)
    requires ThreadAt(m, T, fields) && AllApart(fields) && Within(fields, 0, THREAD_SIZE)
    requires Within(part, 0, 0x110) || Within(part, 0x118, THREAD_SIZE)
    requires forall f :: f in part ==> f in fields
    ensures AllHeld(m, T, part)
  {
    forall i | 0 <= i < |part| ensures Held(m, T, part[i]) {
      assert part[i] in part;
      ThreadField(m, T, fields, part[i]);
    }
  }

  /** The words of the record of thread T: wait lists and APC lists that are empty, the stack, where its dynamic TLS slots
      start, its process, its id and start address. */
  predicate IsKThread(m: seq<byte>, T: nat, K: nat, P: int, stackBase: int, stackLimit: int, tlsDynamic: int, id: int,
                      start: int) {
    StartsWait(m, T) && HasTypes(m, T) && HasStack(m, T, stackBase, stackLimit, tlsDynamic) && HasApcs(m, T)
    && HasOwner(m, T, K, P, stackBase) && HasTimers(m, T, id, start)
  }

  predicate HasTypes(m: seq<byte>, T: nat) {
    IsByte(m, T + 0x72, 1) && IsByte(m, T + 0x73, 1)
  }

  predicate StartsWait(m: seq<byte>, T: nat) {
    && IsByte(m, T, 6) && Holds(m, T + 0x10, T + 0x10) && Holds(m, T + 0x14, T + 0x10)
    && Holds(m, T + 0x40, T + 0x20) && Holds(m, T + 0x44, T + 0x20) && Holds(m, T + 0x48, T) && Holds(m, T + 0x4C, T + 0x18)
    && IsHalf(m, T + 0x54, 0x100) && IsHalf(m, T + 0x56, 0x201)
  }

  predicate HasStack(m: seq<byte>, T: nat, stackBase: int, stackLimit: int, tlsDynamic: int) {
    && Holds(m, T + 0x5C, stackBase) && Holds(m, T + 0x60, stackLimit) && Holds(m, T + 0x68, tlsDynamic)
    && IsByte(m, T + 0x6C, 2)
    && Holds(m, T + 0x64, if stackBase >= 240 then stackBase - 240 else stackBase + 0x1_0000_0000 - 240)
  }

  predicate HasApcs(m: seq<byte>, T: nat) {
    && Holds(m, T + 0x74, T + 0x74) && Holds(m, T + 0x78, T + 0x74)
    && Holds(m, T + 0x7C, T + 0x7C) && Holds(m, T + 0x80, T + 0x7C)
  }

  predicate HasOwner(m: seq<byte>, T: nat, K: nat, P: int, stackBase: int) {
    && Holds(m, T + 0x84, P) && IsByte(m, T + 0x8B, 1) && Holds(m, T + 0x9C, 0xFDFF_D7FF)
    && Holds(m, T + 0xC0, K + 0x100) && Holds(m, T + 0xC4, K + 0x100) && Holds(m, T + 0xD0, stackBase)
  }

  predicate HasTimers(m: seq<byte>, T: nat, id: int, start: int) {
    && Holds(m, T + 0x144, T + 0x144) && Holds(m, T + 0x148, T + 0x144)
    && Holds(m, T + 0x14C, id) && Holds(m, T + 0x150, start)
    && Holds(m, T + 0x154, T + 0x154) && Holds(m, T + 0x158, T + 0x154) && Holds(m, T + 0x17C, 1)
  }

  lemma BlockWords(m: seq<byte>, T: u32)
    requires T + THREAD_SIZE <= TWO32 && AllHeld(m, T, KThreadBlock(T))
    ensures StartsWait(m, T)
  {
    var p := KThreadBlock(T);
    assert Held(m, T, p[0]) && Held(m, T, p[1]) && Held(m, T, p[2]) && Held(m, T, p[3]) && Held(m, T, p[4])
           && Held(m, T, p[5]) && Held(m, T, p[6]) && Held(m, T, p[7]) && Held(m, T, p[8]);
  }

  lemma TypeBytes(m: seq<byte>, T: nat)
    requires AllHeld(m, T, KThreadTypes())
    ensures HasTypes(m, T)
  {
    var p := KThreadTypes();
    assert Held(m, T, p[0]) && Held(m, T, p[1]);
  }

  lemma StackWords(m: seq<byte>, T: u32, stackBase: u32, stackLimit: u32, tlsDynamic: u32)
    requires AllHeld(m, T, KThreadStack(stackBase, stackLimit, tlsDynamic))
    ensures HasStack(m, T, stackBase, stackLimit, tlsDynamic)
  {
    StackHeld(m, T, stackBase, stackLimit, tlsDynamic, (stackBase + TWO32 - 240) % TWO32);
    InitialTop(stackBase);
  }

  lemma InitialTop(stackBase: u32)
    ensures (stackBase + TWO32 - 240) % TWO32 == if stackBase >= 240 then stackBase - 240 else stackBase + TWO32 - 240
  {
  }

  lemma StackHeld(m: seq<byte>, T: u32, stackBase: u32, stackLimit: u32, tlsDynamic: u32, top: u32)
    requires top == (stackBase + TWO32 - 240) % TWO32 && AllHeld(m, T, KThreadStack(stackBase, stackLimit, tlsDynamic))
    ensures Holds(m, T + 0x5C, stackBase) && Holds(m, T + 0x60, stackLimit) && Holds(m, T + 0x68, tlsDynamic)
    ensures Holds(m, T + 0x64, top) && IsByte(m, T + 0x6C, 2)
  {
    var p := KThreadStack(stackBase, stackLimit, tlsDynamic);
    assert Held(m, T, p[0]) && Held(m, T, p[1]) && Held(m, T, p[2]) && Held(m, T, p[3]) && Held(m, T, p[4]);
  }

  lemma ApcWords(m: seq<byte>, T: u32)
    requires T + THREAD_SIZE <= TWO32 && AllHeld(m, T, KThreadApcs(T))
    ensures HasApcs(m, T)
  {
    var p := KThreadApcs(T);
    assert Held(m, T, p[0]) && Held(m, T, p[1]) && Held(m, T, p[2]) && Held(m, T, p[3]);
  }

  lemma OwnerWords(m: seq<byte>, T: nat, K: u32, P: u32, stackBase: u32)
    requires K + KPCR_SIZE <= TWO32 && AllHeld(m, T, KThreadOwner(K, P, stackBase))
    ensures HasOwner(m, T, K, P, stackBase)
  {
    var p := KThreadOwner(K, P, stackBase);
    assert Held(m, T, p[0]) && Held(m, T, p[1]) && Held(m, T, p[2]) && Held(m, T, p[3]) && Held(m, T, p[4]) && Held(m, T, p[5]);
  }

  lemma TimerWords(m: seq<byte>, T: u32, id: u32, start: u32)
    requires T + THREAD_SIZE <= TWO32 && AllHeld(m, T, KThreadTimers(T, id, start))
    ensures HasTimers(m, T, id, start)
  {
    var p := KThreadTimers(T, id, start);
    WordHeld(m, T, p, 0, 0x144, T + 0x144);
    WordHeld(m, T, p, 1, 0x148, T + 0x144);
    WordHeld(m, T, p, 2, 0x14C, id);
    WordHeld(m, T, p, 3, 0x150, start);
    WordHeld(m, T, p, 4, 0x154, T + 0x154);
    WordHeld(m, T, p, 5, 0x158, T + 0x154);
    WordHeld(m, T, p, 6, 0x17C, 1);
  }

  lemma WordHeld(m: seq<byte>, T: nat, part: seq<Field>, i: nat, offset: nat, value: nat)
    requires AllHeld(m, T, part) && i < |part| && part[i].offset == offset && part[i].size == 4 && part[i].value == value
    ensures Holds(m, T + offset, value)
  {
    assert Held(m, T, part[i]);
  }

  lemma KThreadLaw(m: seq<byte>, T: u32, K: u32, P: u32, stackBase: u32, stackLimit: u32, tlsDynamic: u32, id: u32, start: u32)
    requires T + THREAD_SIZE <= TWO32 && K + KPCR_SIZE <= TWO32
    requires ThreadAt(m, T, KThread(T, K, P, stackBase, stackLimit, tlsDynamic, id, start))
    ensures IsKThread(m, T, K, P, stackBase, stackLimit, tlsDynamic, id, start)
  {
    var fs := KThread(T, K, P, stackBase, stackLimit, tlsDynamic, id, start);
    KThreadApart(T, K, P, stackBase, stackLimit, tlsDynamic, id, start);
    WaitRises(T, stackBase, stackLimit, tlsDynamic);
    ApcsRise(T);
    RestRises(T, K, P, stackBase, id, start);
    SixParts(m, T, fs, KThreadBlock(T), KThreadStack(stackBase, stackLimit, tlsDynamic), KThreadApcs(T), KThreadTypes(),
              KThreadOwner(K, P, stackBase), KThreadTimers(T, id, start));
    BlockWords(m, T);
    TypeBytes(m, T);
    StackWords(m, T, stackBase, stackLimit, tlsDynamic);
    ApcWords(m, T);
    OwnerWords(m, T, K, P, stackBase);
    TimerWords(m, T, id, start);
  }

  lemma SixParts(m: seq<byte>, T: nat, fields: seq<Field>, a: seq<Field>, b: seq<Field>, c: seq<Field>, d: seq<Field>,
                  e: seq<Field>, f: seq<Field>)
    requires fields == a + b + c + d + (e + f) && ThreadAt(m, T, fields)
    requires AllApart(fields) && Within(fields, 0, THREAD_SIZE)
    requires Within(a, 0, 0x110) && Within(b, 0, 0x110) && Within(c, 0, 0x110) && Within(d, 0, 0x110) && Within(e, 0, 0x110)
    requires Within(f, 0x118, THREAD_SIZE)
    ensures AllHeld(m, T, a) && AllHeld(m, T, b) && AllHeld(m, T, c) && AllHeld(m, T, d) && AllHeld(m, T, e)
    ensures AllHeld(m, T, f)
  {
    PartHeld(m, T, fields, a);
    PartHeld(m, T, fields, b);
    PartHeld(m, T, fields, c);
    PartHeld(m, T, fields, d);
    PartHeld(m, T, fields, e);
    PartHeld(m, T, fields, f);
  }

  // ---- a new thread ------------------------------------------------------------------------------

  /** What CreateGuestThreadContext leaves for a new thread, word by word. */
  lemma ContextLaw(m: seq<byte>, m': seq<byte>, T: u32, tls: u32, t: TlsInfo, stackBase: u32, stackLimit: u32, id: u32,
                   start: u32, back: nat)
    requires T + 0x2000 <= TWO32 && ContextAt(m, m', T, tls, t, stackBase, stackLimit, id, start, back)
    ensures IsKPcr(m', T + 0x1000, tls, T, stackBase, stackLimit)
    ensures IsKThread(m', T, T + 0x1000, 0x9000_0000, stackBase, stackLimit, (tls + t.dataSize) % 0x1_0000_0000, id, start)
  {
    KPcrLaw(m', T + 0x1000, tls, T, stackBase, stackLimit);
    KThreadLaw(m', T, T + 0x1000, PROCESS, stackBase, stackLimit, (tls + t.dataSize) % TWO32, id, start);
  }

  // ---- the process -------------------------------------------------------------------------------

  /** The fields that the thread list leaves alone. */
  predicate NoListField(f: Field) {
    (0x0C <= f.offset && f.offset + f.size <= 0x14) || 0x18 <= f.offset
  }

  lemma ProcessPart(m: seq<byte>, fields: seq<Field>, part: seq<Field>)
    requires ProcessAt(m, fields) && AllApart(fields) && Within(fields, 0, PROCESS_SIZE)
    requires forall f :: f in part ==> f in fields && NoListField(f)
    ensures AllHeld(m, PROCESS, part)
  {
    forall i | 0 <= i < |part| ensures Held(m, PROCESS, part[i]) {
      assert part[i] in part;
      OneHeld(m, fields, part[i]);
    }
  }

  lemma OneHeld(m: seq<byte>, fields: seq<Field>, f: Field)
    requires ProcessAt(m, fields) && AllApart(fields) && Within(fields, 0, PROCESS_SIZE) && f in fields && NoListField(f)
    ensures Held(m, PROCESS, f)
  {
    FieldHeld(m, PROCESS, fields, f);
  }

  /** The record of process P: its priorities and type, its stack size, its TLS template, and the bitmap of its slots. */
  predicate IsProcess(m: seq<byte>, P: nat, kernStack: int, t: TlsInfo, bitmap: seq<u32>)
    requires |bitmap| == 8
  {
    HasQuantum(m, P) && HasTemplate(m, P, kernStack, t) && HasBitmap(m, P, bitmap)
  }

  predicate HasQuantum(m: seq<byte>, P: nat) {
    && Holds(m, P + 0x0C, 60) && IsByte(m, P + 0x18, 10) && IsByte(m, P + 0x19, 13) && IsByte(m, P + 0x1A, 17)
    && IsByte(m, P + 0x1B, 6)
  }

  predicate HasTemplate(m: seq<byte>, P: nat, kernStack: int, t: TlsInfo) {
    && Holds(m, P + 0x1C, kernStack) && Holds(m, P + 0x20, t.rawAddr) && Holds(m, P + 0x24, t.dataSize)
    && Holds(m, P + 0x28, t.rawSize) && IsByte(m, P + 0x2F, 1) && Holds(m, P + 0x54, P + 0x54) && Holds(m, P + 0x58, P + 0x54)
  }

  predicate HasBitmap(m: seq<byte>, P: nat, bitmap: seq<u32>)
    requires |bitmap| == 8
  {
    && Holds(m, P + 0x30, bitmap[0]) && Holds(m, P + 0x34, bitmap[1]) && Holds(m, P + 0x38, bitmap[2])
    && Holds(m, P + 0x3C, bitmap[3]) && Holds(m, P + 0x40, bitmap[4]) && Holds(m, P + 0x44, bitmap[5])
    && Holds(m, P + 0x48, bitmap[6]) && Holds(m, P + 0x4C, bitmap[7])
  }

  lemma ListPart(m: seq<byte>, P: u32, part: seq<Field>)
    requires P + PROCESS_SIZE <= TWO32 && |part| == 5 && AllHeld(m, P, part)
    requires var l := KProcessList(P); part == [l[2], l[4], l[5], l[6], l[7]]
    ensures HasQuantum(m, P)
  {
    WordHeld(m, P, part, 0, 0x0C, 60);
    assert Held(m, P, part[1]) && Held(m, P, part[2]) && Held(m, P, part[3]) && Held(m, P, part[4]);
  }

  lemma TlsPart(m: seq<byte>, P: u32, kernStack: u32, slots: u32, t: TlsInfo)
    requires P + PROCESS_SIZE <= TWO32 && AllHeld(m, P, KProcessTls(P, kernStack, slots, t))
    ensures HasTemplate(m, P, kernStack, t)
  {
    var p := KProcessTls(P, kernStack, slots, t);
    WordHeld(m, P, p, 0, 0x1C, kernStack);
    WordHeld(m, P, p, 1, 0x20, t.rawAddr);
    WordHeld(m, P, p, 2, 0x24, t.dataSize);
    WordHeld(m, P, p, 3, 0x28, t.rawSize);
    assert Held(m, P, p[5]);
    WordHeld(m, P, p, 6, 0x54, P + 0x54);
    WordHeld(m, P, p, 7, 0x58, P + 0x54);
  }

  lemma BitmapPart(m: seq<byte>, P: nat, bitmap: seq<u32>)
    requires |bitmap| == 8 && AllHeld(m, P, KProcessBitmap(bitmap))
    ensures HasBitmap(m, P, bitmap)
  {
    var p := KProcessBitmap(bitmap);
    WordHeld(m, P, p, 0, 0x30, bitmap[0]);
    WordHeld(m, P, p, 1, 0x34, bitmap[1]);
    WordHeld(m, P, p, 2, 0x38, bitmap[2]);
    WordHeld(m, P, p, 3, 0x3C, bitmap[3]);
    WordHeld(m, P, p, 4, 0x40, bitmap[4]);
    WordHeld(m, P, p, 5, 0x44, bitmap[5]);
    WordHeld(m, P, p, 6, 0x48, bitmap[6]);
    WordHeld(m, P, p, 7, 0x4C, bitmap[7]);
  }

  /** What SetupEnvironment leaves of the process, word by word. */
  lemma ProcessLaw(m: seq<byte>, kernStack: u32, slots: u32, t: TlsInfo, bitmap: seq<u32>)
    requires |bitmap| == 8 && ProcessAt(m, KProcess(PROCESS, kernStack, slots, t, bitmap))
    ensures IsProcess(m, 0x9000_0000, kernStack, t, bitmap)
  {
    var fs, l := KProcess(PROCESS, kernStack, slots, t, bitmap), KProcessList(PROCESS);
    var tls, bits := KProcessTls(PROCESS, kernStack, slots, t), KProcessBitmap(bitmap);
    var part := [l[2], l[4], l[5], l[6], l[7]];
    KProcessApart(PROCESS, kernStack, slots, t, bitmap);
    TlsRises(PROCESS, kernStack, slots, t);
    BitmapRises(bitmap);
    ThreeParts(m, fs, l, tls, bits, part);
    ListPart(m, PROCESS, part);
    TlsPart(m, PROCESS, kernStack, slots, t);
    BitmapPart(m, PROCESS, bitmap);
  }

  lemma ThreeParts(m: seq<byte>, fields: seq<Field>, a: seq<Field>, b: seq<Field>, c: seq<Field>, part: seq<Field>)
    requires ProcessAt(m, fields) && AllApart(fields) && Within(fields, 0, PROCESS_SIZE) && fields == a + b + c
    requires |a| == 8 && part == [a[2], a[4], a[5], a[6], a[7]] && forall f :: f in part ==> NoListField(f)
    requires Within(b, 0x1C, 0x5C) && Within(c, 0x30, 0x50)
    ensures AllHeld(m, PROCESS, part) && AllHeld(m, PROCESS, b) && AllHeld(m, PROCESS, c)
  {
    ProcessPart(m, fields, part);
    ProcessPart(m, fields, b);
    ProcessPart(m, fields, c);
  }

  /** The half word at 0x2C: four bytes a slot, for as many slots as the next multiple of four, cut to 16 bits. */
  lemma SlotSizeHeld(m: seq<byte>, kernStack: u32, slots: u32, t: TlsInfo, bitmap: seq<u32>)
    requires |bitmap| == 8 && ProcessAt(m, KProcess(PROCESS, kernStack, slots, t, bitmap))
    ensures IsHalf(m, 0x9000_002C, (slots + 3) % 0x1_0000_0000 / 4 * 16 % 0x1_0000)
  {
    var fs, tls := KProcess(PROCESS, kernStack, slots, t, bitmap), KProcessTls(PROCESS, kernStack, slots, t);
    KProcessApart(PROCESS, kernStack, slots, t, bitmap);
    assert fs == KProcessList(PROCESS) + tls + KProcessBitmap(bitmap) && tls[4] in fs;
    OneHeld(m, fs, tls[4]);
    assert (slots + 3) % TWO32 / 4 * 16 == 4 * Padded(slots);
  }

  /** What SetupEnvironment leaves: the process at 0x90000000, the main thread at 0x90001000 with id 1, its KPCR at
      0x90002000 and its TLS block at 0x90003000; a title that names no number of slots has 1024. */
  lemma MainLaw(m: seq<byte>, tlsSlots: u32, t: TlsInfo, bitmap: seq<u32>, kernStack: u32, stackBase: u32, stackLimit: u32,
                start: u32)
    requires |bitmap| == 8 && ProcessAt(m, KProcess(PROCESS, kernStack, Slots(tlsSlots), t, bitmap))
    requires ThreadAt(m, MAIN_THREAD,
               KThread(MAIN_THREAD, MAIN_KPCR, PROCESS, stackBase, stackLimit, (MAIN_TLS + t.dataSize) % TWO32, 1, start))
    requires RecordAt(m, MAIN_KPCR, KPCR_SIZE, KPcr(MAIN_KPCR, MAIN_TLS, MAIN_THREAD, stackBase, stackLimit))
    ensures IsProcess(m, 0x9000_0000, kernStack, t, bitmap)
    ensures IsHalf(m, 0x9000_002C, ((if tlsSlots == 0 then 1024 else tlsSlots) + 3) % 0x1_0000_0000 / 4 * 16 % 0x1_0000)
    ensures IsKPcr(m, 0x9000_2000, 0x9000_3000, 0x9000_1000, stackBase, stackLimit)
    ensures IsKThread(m, 0x9000_1000, 0x9000_2000, 0x9000_0000, stackBase, stackLimit,
                      (0x9000_3000 + t.dataSize) % 0x1_0000_0000, 1, start)
  {
    ProcessLaw(m, kernStack, Slots(tlsSlots), t, bitmap);
    SlotSizeHeld(m, kernStack, Slots(tlsSlots), t, bitmap);
    KPcrLaw(m, MAIN_KPCR, MAIN_TLS, MAIN_THREAD, stackBase, stackLimit);
    KThreadLaw(m, MAIN_THREAD, MAIN_KPCR, PROCESS, stackBase, stackLimit, (MAIN_TLS + t.dataSize) % TWO32, 1, start);
  }

  /** A TLS block: first the title's template, if it has one, then zeroes; 4 KiB when it has neither slots nor data. */
  lemma TlsLaw(m: seq<byte>, m': seq<byte>, tls: nat, t: TlsInfo, i: nat)
    requires |m| == |m'| == TWO32 && TlsBlock(m, m', tls, t) && TemplateFits(t, tls)
    requires var n := (t.slotSize + t.dataSize) % 0x1_0000_0000; i < if n == 0 then 0x1000 else n
    ensures tls + i < |m'|
    ensures m'[tls + i] == if t.dataSize != 0 && t.rawAddr != 0 && i < t.rawSize then m[t.rawAddr + i] else 0
  {
    assert m'[tls + i] == TlsByte(m, t, i);
  }
}
