/**
 * The indirect-call dispatch table (varianta/runtime/runtime.cpp:18-24, 72-85, varianta/runtime/kernel.cpp:68-71):
 * a byte buffer with an 8-byte host pointer per 4 bytes of guest code, in place of a linear search.
 */
module Dispatch {
  import opened Words

  const TWO64: nat := 0x1_0000_0000_0000_0000

  /** A host pointer; 0 is null. */
  type pointer = p: nat | p < TWO64

  // ---- pointers as bytes, lowest first -----------------------------------------------------------

  function Bytes(v: nat, n: nat): (r: seq<byte>)
    ensures |r| == n
  {
    if n == 0 then [] else [v % 256] + Bytes(v / 256, n - 1)
  }

  function Value(s: seq<byte>): nat {
    if s == [] then 0 else s[0] + 256 * Value(s[1..])
  }

  lemma {:induction false} ValueOfBytes(v: nat, n: nat)
    requires v < Pow256(n)
    ensures Value(Bytes(v, n)) == v
  {
    if n > 0 {
      ValueOfBytes(v / 256, n - 1);
      assert Bytes(v, n)[1..] == Bytes(v / 256, n - 1);
    }
  }

  lemma {:induction false} ZeroBytes(n: nat, k: nat)
    requires k < n
    ensures Bytes(0, n)[k] == 0
  {
    if k > 0 { ZeroBytes(n - 1, k - 1); }
  }

  lemma PointerFits()
    ensures Pow256(8) == TWO64
  {
    assert Pow256(2) == 0x1_0000;
    assert Pow256(4) == 0x1_0000_0000;
    assert Pow256(6) == 0x1_0000_0000_0000;
  }

  // ---- the mappings ------------------------------------------------------------------------------

  /** A recompiled function; the list ends at the first null host. */
  datatype Mapping = Mapping(guest: nat, host: pointer)

  function Address(m: Mapping): u32 {
    m.guest % TWO32
  }

  /** The mappings before the end mark. */
  function Live(ms: seq<Mapping>): (r: seq<Mapping>)
    ensures |r| <= |ms| && r == ms[..|r|]
    ensures forall i :: 0 <= i < |r| ==> r[i].host != 0
    ensures |r| < |ms| ==> ms[|r|].host == 0
  {
    if ms == [] || ms[0].host == 0 then [] else [ms[0]] + Live(ms[1..])
  }

  predicate Terminated(ms: seq<Mapping>) {
    |Live(ms)| < |ms|
  }

  /** What the first, and the last, mapping of an address says. */
  function FirstHost(ms: seq<Mapping>, a: u32): pointer {
    if ms == [] then 0 else if Address(ms[0]) == a then ms[0].host else FirstHost(ms[1..], a)
  }

  function LastHost(ms: seq<Mapping>, a: u32): pointer {
    if ms == [] then 0
    else if Address(ms[|ms| - 1]) == a then ms[|ms| - 1].host
    else LastHost(ms[..|ms| - 1], a)
  }

  method LookupHost(ms: seq<Mapping>, a: u32) returns (host: pointer)
    requires Terminated(ms)
    ensures host == FirstHost(Live(ms), a)
  {
    var i := 0;
    ghost var live := Live(ms);
    while ms[i].host != 0
      invariant i <= |live| && FirstHost(live[i..], a) == FirstHost(live, a)
      decreases |live| - i
    {
      if Address(ms[i]) == a { return ms[i].host; }
      i := i + 1;
    }
    host := 0;
  }

  // ---- the table ---------------------------------------------------------------------------------

  /** A guest code address that starts a slot. */
  predicate IsSlot(a: u32, base: u32, size: nat) {
    base <= a < base + size && (a - base) % 4 == 0
  }

  /** Every mapping has a slot. */
  predicate AllSlots(ms: seq<Mapping>, base: u32, size: nat) {
    forall i :: 0 <= i < |ms| ==> IsSlot(Address(ms[i]), base, size)
  }

  function TableBytes(size: nat): nat {
    size * 2 + 4096
  }

  /** Every slot is inside the table, and different slots do not share a byte. */
  lemma SlotsApart(a: u32, b: u32, base: u32, size: nat)
    requires IsSlot(a, base, size) && IsSlot(b, base, size)
    ensures (a - base) * 2 + 8 <= TableBytes(size)
    ensures a != b ==> (a - base) * 2 + 8 <= (b - base) * 2 || (b - base) * 2 + 8 <= (a - base) * 2
  {
  }

  /** Where the source stores the pointer of an address: the difference is taken on uint32_t. */
  function Offset(a: u32, base: u32): nat {
    (if a >= base then a - base else a + TWO32 - base) * 2
  }

  /** Every store hits the table; its last 4096 bytes are slack. */
  predicate InTable(ms: seq<Mapping>, base: u32, size: nat) {
    forall i :: 0 <= i < |ms| ==> Offset(Address(ms[i]), base) + 8 <= TableBytes(size)
  }

  /** Byte o once all pointers are stored: it comes from the last one that covers it. */
  function LastByte(ms: seq<Mapping>, base: u32, o: nat): byte {
    if ms == [] then 0
    else
      var last := ms[|ms| - 1];
      var at := Offset(Address(last), base);
      if at <= o < at + 8 then Bytes(last.host, 8)[o - at] else LastByte(ms[..|ms| - 1], base, o)
  }

  ghost predicate Written(table: seq<byte>, base: u32, ms: seq<Mapping>) {
    forall o: nat :: o < |table| ==> table[o] == LastByte(ms, base, o)
  }

  /** The table gives each slot its last mapping. */
  ghost predicate Holds(table: seq<byte>, base: u32, size: nat, ms: seq<Mapping>)
    requires |table| == TableBytes(size)
  {
    forall a: u32 {:trigger LastHost(ms, a)} :: IsSlot(a, base, size) ==>
      Value(table[(a - base) * 2..(a - base) * 2 + 8]) == LastHost(ms, a)
  }

  class DispatchTable {
    const base: u32
    const size: nat
    const table: array<byte>

    predicate Valid() {
      table.Length == TableBytes(size)
    }

    /** A fresh mapping of zero pages. */
    constructor (base: u32, size: nat)
      ensures Valid() && this.base == base && this.size == size && fresh(table)
      ensures Written(table[..], base, []) && Holds(table[..], base, size, [])
    {
      this.base, this.size := base, size;
      table := new byte[TableBytes(size)](_ => 0);
      new;
      SlotsHold(table[..], base, size, []);
    }

    method Store(offset: nat, host: pointer)
      requires offset + 8 <= table.Length
      modifies table
      ensures table[..] == old(table[..])[..offset] + Bytes(host, 8) + old(table[..])[offset + 8..]
    {
      var v: nat, i := host, 0;
      ghost var bytes := Bytes(host, 8);
      while i < 8
        invariant i <= 8 && bytes[i..] == Bytes(v, 8 - i)
        invariant forall j :: 0 <= j < table.Length ==>
          table[j] == if offset <= j < offset + i then bytes[j - offset] else old(table[j])
      {
        table[offset + i] := v % 256;
        assert bytes[i] == bytes[i..][0] && bytes[i + 1..] == bytes[i..][1..];
        v, i := v / 256, i + 1;
      }
    }

    /** Every byte is that of the last pointer stored over it; when all addresses have slots, every slot has its
        last mapping. */
    method Populate(ms: seq<Mapping>)
      requires Valid() && Written(table[..], base, [])
      requires Terminated(ms) && InTable(Live(ms), base, size)
      modifies table
      ensures Written(table[..], base, Live(ms))
      ensures AllSlots(Live(ms), base, size) ==> Holds(table[..], base, size, Live(ms))
    {
      ghost var live := Live(ms);
      var i := 0;
      while ms[i].host != 0
        invariant i <= |live| && Written(table[..], base, live[..i])
        decreases |live| - i
      {
        var addr := Address(ms[i]);
        assert live[i] == ms[i];
        ghost var before := table[..];
        Store(Offset(addr, base), ms[i].host);
        OneMore(before, table[..], base, live, i);
        i := i + 1;
      }
      assert live[..i] == live;
      if AllSlots(live, base, size) { SlotsHold(table[..], base, size, live); }
    }

    /** The host function of a guest code address. */
    method HostFnAt(a: u32) returns (host: pointer)
      requires Valid()
      ensures host == TableLookup(table[..], base, size, a)
    {
      if a < base || a >= base + size { return 0; }
      var i, v: nat := 8, 0;
      var offset := (a - base) * 2;
      while i > 0
        invariant i <= 8 && v == Value(table[offset + i..offset + 8])
      {
        i := i - 1;
        v := table[offset + i] + 256 * v;
        assert table[offset + i..offset + 8][1..] == table[offset + i + 1..offset + 8];
      }
      assert table[offset..offset + 8] == table[..][offset..offset + 8];
      host := v % TWO64;
    }
  }

  lemma OneMore(before: seq<byte>, after: seq<byte>, base: u32, live: seq<Mapping>, i: nat)
    requires i < |live| && Written(before, base, live[..i])
    requires var at := Offset(Address(live[i]), base);
             at + 8 <= |before| && after == before[..at] + Bytes(live[i].host, 8) + before[at + 8..]
    ensures Written(after, base, live[..i + 1])
  {
    var at, bytes := Offset(Address(live[i]), base), Bytes(live[i].host, 8);
    assert live[..i + 1][..i] == live[..i];
    forall o: nat | o < |after|
      ensures after[o] == LastByte(live[..i + 1], base, o)
    {
      assert after[o] == if at <= o < at + 8 then bytes[o - at] else before[o];
    }
  }

  lemma SlotsHold(table: seq<byte>, base: u32, size: nat, ms: seq<Mapping>)
    requires |table| == TableBytes(size) && Written(table, base, ms) && AllSlots(ms, base, size)
    ensures Holds(table, base, size, ms)
  {
    forall a: u32 {:trigger LastHost(ms, a)} | IsSlot(a, base, size)
      ensures Value(table[(a - base) * 2..(a - base) * 2 + 8]) == LastHost(ms, a)
    {
      SlotHolds(table, base, size, ms, a, (a - base) * 2);
    }
  }

  lemma SlotHolds(table: seq<byte>, base: u32, size: nat, ms: seq<Mapping>, a: u32, o: nat)
    requires |table| == TableBytes(size) && Written(table, base, ms) && AllSlots(ms, base, size)
    requires IsSlot(a, base, size) && o == (a - base) * 2
    ensures o + 8 <= |table| && Value(table[o..o + 8]) == LastHost(ms, a)
  {
    var bytes := Bytes(LastHost(ms, a), 8);
    forall k | 0 <= k < 8
      ensures table[o + k] == bytes[k]
    {
      SlotByte(ms, base, size, a, k);
    }
    assert table[o..o + 8] == bytes;
    PointerFits();
    ValueOfBytes(LastHost(ms, a), 8);
  }

  /** Byte k of a slot. */
  lemma {:induction false} SlotByte(ms: seq<Mapping>, base: u32, size: nat, a: u32, k: nat)
    requires AllSlots(ms, base, size) && IsSlot(a, base, size) && k < 8
    ensures LastByte(ms, base, (a - base) * 2 + k) == Bytes(LastHost(ms, a), 8)[k]
  {
    if ms == [] {
      ZeroBytes(8, k);
    } else {
      SlotsApart(a, Address(ms[|ms| - 1]), base, size);
      SlotByte(ms[..|ms| - 1], base, size, a, k);
    }
  }

  // ---- table and search --------------------------------------------------------------------------

  predicate UniqueAddresses(ms: seq<Mapping>) {
    forall i, j :: 0 <= i < j < |ms| ==> Address(ms[i]) != Address(ms[j])
  }

  lemma {:induction false} FirstOf(ms: seq<Mapping>, a: u32, i: nat)
    requires UniqueAddresses(ms) && i < |ms| && Address(ms[i]) == a
    ensures FirstHost(ms, a) == ms[i].host && LastHost(ms, a) == ms[i].host
    decreases |ms|
  {
    if i > 0 { FirstOf(ms[1..], a, i - 1); }
    if i < |ms| - 1 { FirstOf(ms[..|ms| - 1], a, i); }
    if i > 0 && i < |ms| - 1 { assert ms[1..][i - 1] == ms[i]; }
  }

  lemma {:induction false} Unmapped(ms: seq<Mapping>, a: u32)
    requires forall i :: 0 <= i < |ms| ==> Address(ms[i]) != a
    ensures FirstHost(ms, a) == 0 && LastHost(ms, a) == 0
    decreases |ms|
  {
    if ms != [] {
      Unmapped(ms[1..], a);
      Unmapped(ms[..|ms| - 1], a);
    }
  }

  /** With unique addresses the first mapping is the last, for mapped and for unmapped addresses. */
  lemma FirstIsLast(ms: seq<Mapping>, a: u32)
    requires UniqueAddresses(ms)
    ensures FirstHost(ms, a) == LastHost(ms, a)
  {
    if i :| 0 <= i < |ms| && Address(ms[i]) == a {
      FirstOf(ms, a, i);
    } else {
      Unmapped(ms, a);
    }
  }

  /** What HostFnAt's contract gives on a table that holds the mappings. */
  function TableLookup(table: seq<byte>, base: u32, size: nat, a: u32): nat
    requires |table| == TableBytes(size)
  {
    if base <= a < base + size then Value(table[(a - base) * 2..(a - base) * 2 + 8]) % TWO64 else 0
  }

  /**
   * The table replaces the search on every 4-aligned address, mapped or not, in the code or not, exactly
   * where first and last mapping agree; with unique addresses that is everywhere.
   */
  lemma TableReplacesSearch(table: seq<byte>, base: u32, size: nat, ms: seq<Mapping>, a: u32)
    requires |table| == TableBytes(size) && Holds(table, base, size, ms) && AllSlots(ms, base, size)
    requires base <= a < base + size ==> IsSlot(a, base, size)
    ensures TableLookup(table, base, size, a) == FirstHost(ms, a) <==> FirstHost(ms, a) == LastHost(ms, a)
    ensures UniqueAddresses(ms) ==> TableLookup(table, base, size, a) == FirstHost(ms, a)
  {
    TableGivesLast(table, base, size, ms, a);
    if UniqueAddresses(ms) { FirstIsLast(ms, a); }
  }

  lemma TableGivesLast(table: seq<byte>, base: u32, size: nat, ms: seq<Mapping>, a: u32)
    requires |table| == TableBytes(size) && Holds(table, base, size, ms) && AllSlots(ms, base, size)
    requires base <= a < base + size ==> IsSlot(a, base, size)
    ensures TableLookup(table, base, size, a) == LastHost(ms, a)
  {
    if base <= a < base + size {
      var host := LastHost(ms, a);
      assert Value(table[(a - base) * 2..(a - base) * 2 + 8]) == host;
    } else {
      forall i | 0 <= i < |ms| ensures Address(ms[i]) != a {
        assert IsSlot(Address(ms[i]), base, size);
      }
      Unmapped(ms, a);
    }
  }
}
