/**
 * The filter of the function table (tools/fix_recomp_labels.py:104-138): entries whose address is outside the
 * module are dropped, so that the runtime's registration neither stops early nor aborts.
 */
module Mappings {
  import opened Words
  import opened GotoFix

  // ---- entries -----------------------------------------------------------------------------------

  function SkipWs(s: string): string {
    s[Leading(s)..]
  }

  /** What follows a piece of text, when a text starts with it. */
  function Past(s: string, piece: string): Option<string> {
    if StartsWith(s, piece) then Some(s[|piece|..]) else None
  }

  function DigitValue(c: char): nat
    requires IsHex(c)
  {
    if c <= '9' then (c - '0') as nat else if c <= 'F' then (c - 'A') as nat + 10 else (c - 'a') as nat + 10
  }

  function HexValue(s: string): nat
    requires AllHex(s)
  {
    if s == "" then 0 else 16 * HexValue(s[..|s| - 1]) + DigitValue(s[|s| - 1])
  }

  lemma {:induction false} PrefixIsHex(s: string)
    ensures AllHex(s[..HexPrefix(s)])
  {
    if s != "" && IsHex(s[0]) {
      PrefixIsHex(s[1..]);
      var n := HexPrefix(s[1..]);
      assert s[..n + 1] == [s[0]] + s[1..][..n];
    }
  }

  /** After the name of a recompiled function. */
  function PastName(s: string): Option<string> {
    var sub := Past(s, "sub_");
    if sub.Some? && HexPrefix(sub.value) > 0 then Some(sub.value[HexPrefix(sub.value)..]) else Past(s, "xstart")
  }

  /** The address of an entry `{ 0x..., sub_... },`; None for every other line. */
  function EntryAddress(line: string): Option<nat> {
    var open := Past(SkipWs(line), "{");
    if open.None? then None
    else
      var number := Past(SkipWs(open.value), "0x");
      if number.None? then None
      else
        var n := HexPrefix(number.value);
        var comma := Past(number.value[n..], ",");
        if n == 0 || comma.None? then None
        else
          var name := PastName(SkipWs(comma.value));
          if name.None? then None
          else
            var close := Past(SkipWs(name.value), "}");
            if close.None? then None
            else
              var more := Past(close.value, ",");
              if SkipWs(if more.Some? then more.value else close.value) != "" then None
              else
                PrefixIsHex(number.value);
                Some(HexValue(number.value[..n]))
  }

  // ---- the filter --------------------------------------------------------------------------------

  /** The line is no entry, or one of the module. */
  predicate Stays(line: string, lo: nat, hi: nat) {
    var a := EntryAddress(line);
    a.None? || lo <= a.value < hi
  }

  function InModule(lo: nat, hi: nat): string -> bool {
    line => Stays(line, lo, hi)
  }

  function Filtered(lines: seq<string>, keep: string -> bool): seq<string> {
    if lines == [] then []
    else
      var last := lines[|lines| - 1];
      Filtered(lines[..|lines| - 1], keep) + if keep(last) then [last] else []
  }

  method DropOutside(lines: seq<string>, lo: nat, hi: nat) returns (out: seq<string>, dropped: nat)
    ensures out == Filtered(lines, InModule(lo, hi)) && dropped == |lines| - |out|
  {
    out, dropped := Keep(lines, InModule(lo, hi));
  }

  method Keep(lines: seq<string>, keep: string -> bool) returns (out: seq<string>, dropped: nat)
    ensures out == Filtered(lines, keep) && dropped == |lines| - |out|
  {
    out, dropped := [], 0;
    var i := 0;
    while i < |lines|
      invariant i <= |lines| && out == Filtered(lines[..i], keep) && dropped == i - |out|
    {
      FilteredStep(lines, i, keep);
      if keep(lines[i]) {
        out := out + [lines[i]];
      } else {
        dropped := dropped + 1;
      }
      i := i + 1;
    }
    assert lines[..i] == lines;
  }

  lemma FilteredStep(lines: seq<string>, i: nat, keep: string -> bool)
    requires i < |lines|
    ensures Filtered(lines[..i + 1], keep) == Filtered(lines[..i], keep) + if keep(lines[i]) then [lines[i]] else []
  {
    assert lines[..i + 1][..i] == lines[..i];
  }

  /** Every line that stays is there as often as before, every other is gone. */
  lemma {:induction false} ExactlyTheseStay(lines: seq<string>, keep: string -> bool, line: string)
    ensures multiset(Filtered(lines, keep))[line] == if keep(line) then multiset(lines)[line] else 0
  {
    if lines != [] {
      var most, last := lines[..|lines| - 1], lines[|lines| - 1];
      ExactlyTheseStay(most, keep, line);
      assert lines == most + [last];
    }
  }

  /** The filter works line by line, in order. */
  lemma {:induction false} FilteredConcat(a: seq<string>, b: seq<string>, keep: string -> bool)
    ensures Filtered(a + b, keep) == Filtered(a, keep) + Filtered(b, keep)
  {
    if b == [] {
      assert a + b == a;
    } else {
      var most := b[..|b| - 1];
      FilteredConcat(a, most, keep);
      assert (a + b)[..|a + b| - 1] == a + most;
    }
  }

  /** Afterwards every line is one that stays, and filtering again changes nothing. */
  lemma {:induction false} FilteredTwice(lines: seq<string>, keep: string -> bool)
    ensures forall i :: 0 <= i < |Filtered(lines, keep)| ==> keep(Filtered(lines, keep)[i])
    ensures Filtered(Filtered(lines, keep), keep) == Filtered(lines, keep)
  {
    if lines != [] {
      var most, last := Filtered(lines[..|lines| - 1], keep), lines[|lines| - 1];
      FilteredTwice(lines[..|lines| - 1], keep);
      if keep(last) {
        assert (most + [last])[..|most|] == most;
      } else {
        assert Filtered(lines, keep) == most;
      }
    }
  }

  // ---- the registration --------------------------------------------------------------------------

  /** What the registration loop meets: it goes on to an address of 0. */
  function Registered(entries: seq<nat>): seq<nat> {
    if entries == [] || entries[0] == 0 then [] else [entries[0]] + Registered(entries[1..])
  }

  /** The addresses of the entries of a table. */
  function Addresses(lines: seq<string>): seq<nat> {
    if lines == [] then [] else Address(lines[0]) + Addresses(lines[1..])
  }

  function Address(line: string): seq<nat> {
    var a := EntryAddress(line);
    if a.Some? then [a.value] else []
  }

  /** After the filter every entry is of the module, and none stops the loop early: all are registered. */
  lemma AllRegistered(lines: seq<string>, lo: nat, hi: nat)
    requires 0 < lo
    ensures var entries := Addresses(Filtered(lines, InModule(lo, hi)));
            Registered(entries) == entries && forall i :: 0 <= i < |entries| ==> lo <= entries[i] < hi
  {
    var out := Filtered(lines, InModule(lo, hi));
    FilteredTwice(lines, InModule(lo, hi));
    forall i | 0 <= i < |out| ensures Stays(out[i], lo, hi) {
      assert InModule(lo, hi)(out[i]);
    }
    EntriesInside(out, lo, hi);
    NonZeroRegistered(Addresses(out));
  }

  lemma {:induction false} EntriesInside(lines: seq<string>, lo: nat, hi: nat)
    requires forall i :: 0 <= i < |lines| ==> Stays(lines[i], lo, hi)
    ensures forall i :: 0 <= i < |Addresses(lines)| ==> lo <= Addresses(lines)[i] < hi
  {
    if lines != [] {
      EntriesInside(lines[1..], lo, hi);
      AddressInside(lines[0], lo, hi);
    }
  }

  lemma AddressInside(line: string, lo: nat, hi: nat)
    requires Stays(line, lo, hi)
    ensures |Address(line)| <= 1 && forall i :: 0 <= i < |Address(line)| ==> lo <= Address(line)[i] < hi
  {
  }

  lemma {:induction false} NonZeroRegistered(entries: seq<nat>)
    requires forall i :: 0 <= i < |entries| ==> entries[i] != 0
    ensures Registered(entries) == entries
  {
    if entries != [] { NonZeroRegistered(entries[1..]); }
  }

  /** An entry of address 0, which would stop the loop at once, is dropped; the table's end mark is not. */
  lemma EndMarkStays(line: string, lo: nat, hi: nat)
    requires 0 < lo
    ensures EntryAddress(line) == Some(0) ==> !Stays(line, lo, hi)
    ensures Stays("{ 0, nullptr }", lo, hi)
  {
    EndMark("{ 0, nullptr }");
  }

  /** A table line whose number does not start with 0x is no entry. */
  lemma EndMark(line: string)
    requires |line| > 3 && line[0] == '{' && line[1] == ' ' && line[2] == '0' && line[3] != 'x'
    ensures EntryAddress(line).None?
  {
    assert Leading(line) == 0 && line[0..] == line;
    assert line[..1] == "{";
    var rest := line[1..];
    Skip1(rest);
    assert rest[1..][1] != "0x"[1] && (|rest[1..]| >= 2 ==> rest[1..][..2][1] == rest[1..][1]);
  }

  /** One blank before something that is none. */
  lemma Skip1(s: string)
    requires |s| > 1 && IsWs(s[0]) && !IsWs(s[1])
    ensures SkipWs(s) == s[1..]
  {
    assert Leading(s[1..]) == 0;
  }

  // ---- lines that the pattern does not read ------------------------------------------------------

  predicate IsTail(line: string, t: string) {
    |t| <= |line| && line[|line| - |t|..] == t
  }

  lemma TailOfTail(line: string, t: string, k: nat)
    requires IsTail(line, t) && k <= |t|
    ensures IsTail(line, t[k..])
  {
  }

  lemma NameTail(line: string, s: string)
    requires IsTail(line, s) && PastName(s).Some?
    ensures IsTail(line, PastName(s).value)
  {
    var sub := Past(s, "sub_");
    if sub.Some? && HexPrefix(sub.value) > 0 {
      TailOfTail(line, s, 4);
      TailOfTail(line, sub.value, HexPrefix(sub.value));
    } else {
      TailOfTail(line, s, 6);
    }
  }

  /** What follows an entry's name, and is nothing but its end. */
  predicate IsEnd(s: string) {
    var close := Past(SkipWs(s), "}");
    close.Some?
    && var more := Past(close.value, ",");
       SkipWs(if more.Some? then more.value else close.value) == ""
  }

  lemma LastOfTail(line: string, t: string)
    requires IsTail(line, t) && t != ""
    ensures line[|line| - 1] == t[|t| - 1]
  {
  }

  /** A closing brace, perhaps a comma, and blanks. */
  lemma EndParts(s: string, t: string)
    requires IsEnd(s) && t == SkipWs(s)
    ensures t != "" && t[0] == '}'
    ensures SkipWs(t[1..]) == "" || (|t| > 1 && t[1] == ',' && SkipWs(t[1..][1..]) == "")
  {
    assert t[..1] == "}";
    assert Past(t[1..], ",").Some? ==> t[1..][..1] == ",";
  }

  lemma EndOfLine(line: string, s: string)
    requires IsTail(line, s) && IsEnd(s)
    ensures line != "" && (IsWs(line[|line| - 1]) || line[|line| - 1] == '}' || line[|line| - 1] == ',')
  {
    var t := SkipWs(s);
    TailOfTail(line, s, Leading(s));
    EndParts(s, t);
    LastChar(line, t);
  }

  lemma LastChar(line: string, t: string)
    requires IsTail(line, t) && t != "" && t[0] == '}'
    requires SkipWs(t[1..]) == "" || (|t| > 1 && t[1] == ',' && SkipWs(t[1..][1..]) == "")
    ensures line != "" && (IsWs(line[|line| - 1]) || line[|line| - 1] == '}' || line[|line| - 1] == ',')
  {
    LastOfTail(line, t);
    TailOfTail(line, t, 1);
    if SkipWs(t[1..]) == "" {
      BlankEnd(line, t[1..]);
    } else {
      TailOfTail(line, t[1..], 1);
      BlankEnd(line, t[1..][1..]);
    }
  }

  lemma BlankEnd(line: string, t: string)
    requires IsTail(line, t) && SkipWs(t) == ""
    ensures t != "" ==> IsWs(line[|line| - 1])
  {
    if t != "" {
      LastOfTail(line, t);
      assert t[..|t|] == t;
    }
  }

  /** What follows the number and the comma of an entry, up to its end. */
  lemma EntryEnds(line: string)
    requires EntryAddress(line).Some?
    ensures exists s :: IsTail(line, s) && IsEnd(s)
  {
    TailOfTail(line, line, Leading(line));
    var open := Past(SkipWs(line), "{").value;
    TailOfTail(line, SkipWs(line), 1);
    TailOfTail(line, open, Leading(open));
    var number := Past(SkipWs(open), "0x").value;
    TailOfTail(line, SkipWs(open), 2);
    TailOfTail(line, number, HexPrefix(number));
    var comma := Past(number[HexPrefix(number)..], ",").value;
    TailOfTail(line, number[HexPrefix(number)..], 1);
    TailOfTail(line, comma, Leading(comma));
    NameTail(line, SkipWs(comma));
    assert IsEnd(PastName(SkipWs(comma)).value);
  }

  /**
   * A line that ends in anything else, say in a comment after an entry of address 0, is read as no entry, and stays,
   * whatever it means to a compiler.
   */
  lemma CommentedStays(line: string, lo: nat, hi: nat)
    requires line != "" && !IsWs(line[|line| - 1]) && line[|line| - 1] != '}' && line[|line| - 1] != ','
    ensures EntryAddress(line).None? && Stays(line, lo, hi)
  {
    if EntryAddress(line).Some? {
      EntryEnds(line);
      var s :| IsTail(line, s) && IsEnd(s);
      EndOfLine(line, s);
    }
  }
}
