/** Where the blocks of an STFS package are (tools/stfs_extract.py:64-133). */
module Stfs {
  import opened Words

  const BLOCK: nat := 0x1000
  const DATA_BASE: nat := 0xC000
  const L0: nat := 170
  const L1: nat := 28900
  const L2: nat := 4913000

  // ---- the block map -----------------------------------------------------------------------------

  function BackingOf(b: nat, f: nat): nat {
    b + (b / L0 + 1) * f
    + (if b >= L0 then (b / L1 + 1) * f else 0)
    + if b >= L1 then (b / L2 + 1) * f else 0
  }

  /** The source's loop: one round per level of hash tables, until the level's group size exceeds b. */
  method Backing(b: nat, f: nat) returns (block: nat)
    ensures block == BackingOf(b, f)
  {
    var size := 0xAA;
    block := b;
    var level := 0;
    while level < 3
      invariant level <= 3
      invariant size == if level == 0 then L0 else if level == 1 then L1 else if level == 2 then L2 else L2 * L0
      invariant level == 0 ==> block == b
      invariant level == 1 ==> b >= L0 && block == b + (b / L0 + 1) * f
      invariant level == 2 ==> b >= L1 && block == b + (b / L0 + 1) * f + (b / L1 + 1) * f
      invariant level == 3 ==> block == BackingOf(b, f)
    {
      Round(b, size);
      block := block + ((b + size) / size) * f;
      if b < size { break; }
      size := size * 0xAA;
      level := level + 1;
    }
  }

  lemma Round(b: nat, size: nat)
    requires size == L0 || size == L1 || size == L2
    ensures (b + size) / size == b / size + 1
  {
  }

  /** The hash tables that stand right before data block n: one per level that begins there. */
  function TablesBefore(n: nat): nat {
    (if n % L0 == 0 then 1 else 0)
    + (if n == L0 || (n > 0 && n % L1 == 0) then 1 else 0)
    + if n == L1 || (n > 0 && n % L2 == 0) then 1 else 0
  }

  /** The package laid out block by block: before each data block the tables that begin there, f copies of each. */
  function LaidOut(b: nat, f: nat): nat {
    (if b == 0 then 0 else LaidOut(b - 1, f) + 1) + f * TablesBefore(b)
  }

  lemma Successor(n: nat, d: nat)
    requires d == L0 || d == L1 || d == L2
    ensures (n + 1) / d == n / d + if (n + 1) % d == 0 then 1 else 0
  {
  }

  /** The gap to the next data block is one plus f per hash table entered: 1, 1 + f, 1 + 2f or 1 + 3f. */
  lemma Gap(b: nat, f: nat)
    ensures BackingOf(b + 1, f) == BackingOf(b, f) + 1 + f * TablesBefore(b + 1)
  {
    Successor(b, L0);
    Successor(b, L1);
    Successor(b, L2);
    var n := b + 1;
    var x := if n % L0 == 0 then 1 else 0;
    var y := if n == L0 || n % L1 == 0 then 1 else 0;
    var z := if n == L1 || n % L2 == 0 then 1 else 0;
    assert Level(n, L1, n >= L0) == Level(b, L1, b >= L0) + y;
    assert Level(n, L2, n >= L1) == Level(b, L2, b >= L1) + z;
    Spread(b, f);
    Spread(n, f);
    Sum(f, b / L0 + 1 + Level(b, L1, b >= L0) + Level(b, L2, b >= L1), x + y + z);
  }

  function Level(b: nat, d: nat, reached: bool): nat
    requires d > 0
  {
    if reached then b / d + 1 else 0
  }

  lemma Sum(f: nat, a: nat, b: nat)
    ensures (a + b) * f == a * f + f * b
  {
  }

  lemma Spread(b: nat, f: nat)
    ensures BackingOf(b, f) == b + (b / L0 + 1 + Level(b, L1, b >= L0) + Level(b, L2, b >= L1)) * f
  {
  }

  /** The closed form is the layout. */
  lemma {:induction false} BackingIsLayout(b: nat, f: nat)
    ensures BackingOf(b, f) == LaidOut(b, f)
  {
    if b == 0 {
      assert TablesBefore(0) == 1;
    } else {
      BackingIsLayout(b - 1, f);
      Gap(b - 1, f);
    }
  }

  lemma Increasing(a: nat, b: nat, f: nat)
    requires a < b
    ensures BackingOf(a, f) + (b - a) <= BackingOf(b, f)
  {
    forall n: nat
      ensures BackingOf(n, f) + 1 <= BackingOf(n + 1, f)
    {
      Gap(n, f);
    }
    Rising(n => BackingOf(n, f), a, b);
  }

  lemma {:induction false} Rising(g: nat -> nat, a: nat, b: nat)
    requires a < b && forall n: nat :: g(n) + 1 <= g(n + 1)
    ensures g(a) + (b - a) <= g(b)
    decreases b
  {
    if a < b - 1 { Rising(g, a, b - 1); }
    assert g(b - 1) + 1 <= g(b - 1 + 1);
  }

  /** The first block of the tables before data block n, or n's own block when there are none. */
  function FirstOf(n: nat, f: nat): nat {
    if n == 0 then 0 else BackingOf(n - 1, f) + 1
  }

  /** Every block of the package belongs to a data block: it is that block or one of the tables before it. */
  lemma {:induction false} OwnerOf(p: nat, f: nat) returns (n: nat)
    ensures FirstOf(n, f) <= p <= BackingOf(n, f)
  {
    if p == 0 { return 0; }
    n := OwnerOf(p - 1, f);
    if p > BackingOf(n, f) {
      Increasing(n, n + 1, f);
      n := n + 1;
    }
  }

  /** Before data block n stand its tables, f copies of each. */
  lemma TablesOf(n: nat, f: nat)
    ensures BackingOf(n, f) == FirstOf(n, f) + f * TablesBefore(n)
  {
    if n == 0 {
      assert TablesBefore(0) == 1;
    } else {
      Gap(n - 1, f);
    }
  }

  lemma OneOwner(p: nat, m: nat, n: nat, f: nat)
    requires FirstOf(m, f) <= p <= BackingOf(m, f) && FirstOf(n, f) <= p <= BackingOf(n, f)
    ensures m == n
  {
    if m < n { LastBefore(m, n, f); }
    if n < m { LastBefore(n, m, f); }
  }

  lemma LastBefore(m: nat, n: nat, f: nat)
    requires m < n
    ensures BackingOf(m, f) < FirstOf(n, f)
  {
    if m < n - 1 { Increasing(m, n - 1, f); }
  }

  // ---- offsets -----------------------------------------------------------------------------------

  function OffsetOf(b: nat, f: nat): nat {
    DATA_BASE - BLOCK + BackingOf(b, f) * BLOCK
  }

  /** The formula that the source's documentation gives for `backing`. */
  function Documented(b: nat, f: nat): nat {
    b + f * (b / L0 + b / L1 + b / L2)
  }

  /** The levels that the loop goes through. */
  function Iterated(b: nat): nat {
    1 + (if b >= L0 then 1 else 0) + if b >= L1 then 1 else 0
  }

  /** The code exceeds the documented formula by f blocks per level it goes through. */
  lemma ExceedsDocumented(b: nat, f: nat)
    ensures BackingOf(b, f) == Documented(b, f) + f * Iterated(b)
  {
    var q := b / L0 + b / L1 + b / L2;
    Spread(b, f);
    assert b / L0 + 1 + Level(b, L1, b >= L0) + Level(b, L2, b >= L1) == q + Iterated(b);
    Sum(f, q, Iterated(b));
  }

  /** The documented offset is right exactly for the first 170 blocks of read-only packages. */
  lemma DocumentedOffset(b: nat, f: nat)
    requires f == 1 || f == 2
    ensures OffsetOf(b, f) == DATA_BASE + Documented(b, f) * BLOCK <==> f == 1 && b < L0
  {
    ExceedsDocumented(b, f);
  }

  /** The documented anchors hold for read-only packages; a read-write package starts one block later. */
  lemma Anchors()
    ensures OffsetOf(0, 1) == 0xC000 && OffsetOf(31, 1) == 0x2B000 && OffsetOf(0, 2) == 0xD000
  {
    assert BackingOf(0, 1) == 1 && BackingOf(31, 1) == 32 && BackingOf(0, 2) == 2;
  }

  // ---- reading -----------------------------------------------------------------------------------

  /** seek and read: what there is of n bytes. */
  function ReadAt(file: seq<byte>, off: nat, n: nat): seq<byte> {
    if off >= |file| then [] else if off + n <= |file| then file[off..off + n] else file[off..]
  }

  function Blocks(file: seq<byte>, f: nat, start: nat, n: nat): seq<byte> {
    if n == 0 then [] else Blocks(file, f, start, n - 1) + ReadAt(file, OffsetOf(start + n - 1, f), BLOCK)
  }

  method ReadContiguous(file: seq<byte>, f: nat, start: nat, n: nat) returns (out: seq<byte>)
    ensures out == Blocks(file, f, start, n)
  {
    out := [];
    var i := 0;
    while i < n
      invariant i <= n && out == Blocks(file, f, start, i)
    {
      var block := Backing(start + i, f);
      out := out + ReadAt(file, DATA_BASE - BLOCK + block * BLOCK, BLOCK);
      i := i + 1;
    }
  }

  /** Reading blocks that are all in the file gives byte k of block start + i at i * 4096 + k. */
  lemma {:induction false} BlocksHold(file: seq<byte>, f: nat, start: nat, n: nat, i: nat, k: nat)
    requires i < n && k < BLOCK && OffsetOf(start + n - 1, f) + BLOCK <= |file|
    ensures |Blocks(file, f, start, n)| == n * BLOCK
    ensures OffsetOf(start + i, f) + k < |file|
    ensures Blocks(file, f, start, n)[i * BLOCK + k] == file[OffsetOf(start + i, f) + k]
  {
    if n > 1 {
      Increasing(start + n - 2, start + n - 1, f);
      BlocksHold(file, f, start, n - 1, if i < n - 1 then i else 0, k);
    }
  }

  // ---- paths -------------------------------------------------------------------------------------

  datatype Entry = Unused | Entry(name: string, parent: nat)

  const ROOT: nat := 0xFFFF

  /** The walk over parents goes on at p. */
  predicate GoesOn(entries: seq<Entry>, p: nat, seen: set<nat>) {
    p != ROOT && p < |entries| && p !in seen && entries[p].Entry?
  }

  function Indices(n: nat): (r: set<nat>)
    ensures forall i: nat :: i in r <==> i < n
  {
    if n == 0 then {} else Indices(n - 1) + {n - 1}
  }

  /** The table indices that the walk from p visits. */
  function Ancestors(entries: seq<Entry>, p: nat, seen: set<nat>): seq<nat>
    decreases Indices(|entries|) - seen
  {
    if GoesOn(entries, p, seen) then
      assert p in Indices(|entries|) - seen;
      [p] + Ancestors(entries, entries[p].parent, seen + {p})
    else []
  }

  function NameOf(entries: seq<Entry>, i: nat): string {
    if i < |entries| && entries[i].Entry? then entries[i].name else ""
  }

  function Names(entries: seq<Entry>, chain: seq<nat>): seq<string> {
    if chain == [] then [] else Names(entries, chain[..|chain| - 1]) + [NameOf(entries, chain[|chain| - 1])]
  }

  /** "/".join(reversed(parts)) */
  function Joined(parts: seq<string>): string {
    if parts == [] then "" else if |parts| == 1 then parts[0] else Joined(parts[1..]) + "/" + parts[0]
  }

  /** An ancestor comes before the names below it: the last part is the first of the path. */
  lemma {:induction false} RootFirst(parts: seq<string>, ancestor: string)
    requires parts != []
    ensures Joined(parts + [ancestor]) == ancestor + "/" + Joined(parts)
  {
    var all := parts + [ancestor];
    if |parts| == 1 {
      assert all[1..] == [ancestor] && all[0] == parts[0];
    } else {
      RootFirst(parts[1..], ancestor);
      assert all[1..] == parts[1..] + [ancestor] && all[0] == parts[0];
      Assoc(ancestor + "/", Joined(parts[1..]) + "/", parts[0]);
      Assoc(ancestor + "/", Joined(parts[1..]), "/");
    }
  }

  /** Every entry of the chain is in use and was not seen before. */
  ghost predicate AllFresh(entries: seq<Entry>, seen: set<nat>, c: seq<nat>) {
    forall i :: 0 <= i < |c| ==> c[i] < |entries| && entries[c[i]].Entry? && c[i] != ROOT && c[i] !in seen
  }

  ghost predicate Distinct(c: seq<nat>) {
    forall i, j :: 0 <= i < j < |c| ==> c[i] != c[j]
  }

  function ParentOf(entries: seq<Entry>, i: nat): nat {
    if i < |entries| && entries[i].Entry? then entries[i].parent else ROOT
  }

  /** The chain starts at p, and each entry is the parent of the one before. */
  ghost predicate Linked(entries: seq<Entry>, p: nat, c: seq<nat>) {
    (c != [] ==> c[0] == p) && forall i {:trigger c[i]} :: 0 < i < |c| ==> c[i] == ParentOf(entries, c[i - 1])
  }

  /** Where the chain would go on, the walk stops, or has been already. */
  ghost predicate Ends(entries: seq<Entry>, p: nat, seen: set<nat>, c: seq<nat>) {
    var last := if c == [] then p else ParentOf(entries, c[|c| - 1]);
    !GoesOn(entries, last, seen) || last in c
  }

  ghost predicate IsChain(entries: seq<Entry>, p: nat, seen: set<nat>, c: seq<nat>) {
    AllFresh(entries, seen, c) && Distinct(c) && Linked(entries, p, c) && Ends(entries, p, seen, c)
  }

  /** Where the walk from p goes on: not at 0xFFFF, outside the table, at an unused entry, or at an index seen. */
  lemma WalkStarts(entries: seq<Entry>, p: nat, seen: set<nat>)
    ensures var c := Ancestors(entries, p, seen);
            if p == 0xFFFF || p >= |entries| || entries[p].Unused? || p in seen then c == []
            else c == [p] + Ancestors(entries, entries[p].parent, seen + {p})
  {
  }

  /**
   * The walk visits each index at most once, each is the parent of the one before, and it stops only at the
   * root, outside the table, at an unused entry, or at an index already seen.
   */
  lemma {:induction false} AncestorsChain(entries: seq<Entry>, p: nat, seen: set<nat>)
    ensures IsChain(entries, p, seen, Ancestors(entries, p, seen))
    decreases Indices(|entries|) - seen
  {
    if GoesOn(entries, p, seen) {
      assert p in Indices(|entries|) - seen;
      var rest := Ancestors(entries, entries[p].parent, seen + {p});
      AncestorsChain(entries, entries[p].parent, seen + {p});
      Longer(entries, p, seen, rest);
    }
  }

  lemma Longer(entries: seq<Entry>, p: nat, seen: set<nat>, rest: seq<nat>)
    requires GoesOn(entries, p, seen) && IsChain(entries, entries[p].parent, seen + {p}, rest)
    ensures IsChain(entries, p, seen, [p] + rest)
  {
    LongerFresh(entries, p, seen, rest);
    LongerLinked(entries, p, rest);
    LongerEnds(entries, p, seen, rest);
  }

  lemma LongerFresh(entries: seq<Entry>, p: nat, seen: set<nat>, rest: seq<nat>)
    requires GoesOn(entries, p, seen) && AllFresh(entries, seen + {p}, rest) && Distinct(rest)
    ensures AllFresh(entries, seen, [p] + rest) && Distinct([p] + rest)
  {
    var c := [p] + rest;
    forall i | 0 <= i < |c|
      ensures c[i] < |entries| && entries[c[i]].Entry? && c[i] != ROOT && c[i] !in seen && (i > 0 ==> c[i] != p)
    {
      assert i > 0 ==> c[i] == rest[i - 1];
    }
  }

  lemma LongerLinked(entries: seq<Entry>, p: nat, rest: seq<nat>)
    requires Linked(entries, ParentOf(entries, p), rest)
    ensures Linked(entries, p, [p] + rest)
  {
    var c := [p] + rest;
    forall i {:trigger c[i]} | 0 < i < |c|
      ensures c[i] == ParentOf(entries, c[i - 1])
    {
      assert c[i] == rest[i - 1];
      assert i > 1 ==> c[i - 1] == rest[i - 2];
    }
  }

  lemma LongerEnds(entries: seq<Entry>, p: nat, seen: set<nat>, rest: seq<nat>)
    requires GoesOn(entries, p, seen) && Ends(entries, entries[p].parent, seen + {p}, rest)
    ensures Ends(entries, p, seen, [p] + rest)
  {
    var c := [p] + rest;
    var last := if rest == [] then entries[p].parent else ParentOf(entries, rest[|rest| - 1]);
    assert c[|c| - 1] == if rest == [] then p else rest[|rest| - 1];
    assert p == c[0] && forall x :: x in rest ==> x in c;
    assert last == p || (last in seen + {p} <==> last in seen);
  }

  /** One more ancestor. */
  lemma OneMore(entries: seq<Entry>, all: seq<nat>, done: seq<nat>, p: nat, seen: set<nat>)
    requires all == done + Ancestors(entries, p, seen) && GoesOn(entries, p, seen)
    ensures all == done + [p] + Ancestors(entries, entries[p].parent, seen + {p})
  {
    var rest := Ancestors(entries, entries[p].parent, seen + {p});
    assert Ancestors(entries, p, seen) == [p] + rest;
    Assoc(done, [p], rest);
  }

  lemma OneMoreName(entries: seq<Entry>, done: seq<nat>, p: nat)
    ensures Names(entries, done + [p]) == Names(entries, done) + [NameOf(entries, p)]
  {
    assert (done + [p])[..|done|] == done;
  }

  lemma Shrinks(all: set<nat>, seen: set<nat>, p: nat)
    requires p in all && p !in seen
    ensures all - (seen + {p}) < all - seen
  {
    assert p in all - seen;
  }

  method PathOf(entries: seq<Entry>, ent: Entry) returns (path: string)
    requires ent.Entry?
    ensures path == Joined([ent.name] + Names(entries, Ancestors(entries, ent.parent, {})))
  {
    var parts := [ent.name];
    var p: nat := ent.parent;
    var seen: set<nat> := {};
    ghost var all := Ancestors(entries, ent.parent, {});
    ghost var done: seq<nat> := [];
    while p != ROOT && p < |entries| && p !in seen
      invariant all == done + Ancestors(entries, p, seen)
      invariant parts == [ent.name] + Names(entries, done)
      decreases Indices(|entries|) - seen
    {
      var parent := entries[p];
      if parent.Unused? { break; }
      OneMore(entries, all, done, p, seen);
      OneMoreName(entries, done, p);
      Shrinks(Indices(|entries|), seen, p);
      done := done + [p];
      seen := seen + {p};
      parts := parts + [parent.name];
      p := parent.parent;
    }
    assert done == all;
    path := Joined(parts);
  }
}
