/**
 * The entries of the function table as text: which lines are read as one, and with which address
 * (tools/fix_recomp_labels.py:117-131).
 */
module MappingText {
  import opened Words
  import opened GotoFix
  import opened GotoText
  import opened Mappings

  // ---- addresses ---------------------------------------------------------------------------------

  /** In the order of DIGITS the digits are worth 0 to 15; the lower-case ones are worth 10 to 15 again. */
  lemma DigitLaw(i: nat)
    requires i < 22
    ensures IsHex(DIGITS[i]) && DigitValue(DIGITS[i]) == if i < 16 then i else i - 6
  {
    if i < 10 {
      assert DIGITS[..10] == "0123456789" && DIGITS[..10][i] == DIGITS[i];
    }
  }

  /** No digit is 0, and one more digit counts units, after sixteens. */
  lemma ValueLaw(s: string, i: nat)
    requires (s == "" || Digits(s)) && i < 22
    ensures AllHex(s) && AllHex(s + [DIGITS[i]]) && HexValue("") == 0
    ensures HexValue(s + [DIGITS[i]]) == 16 * HexValue(s) + if i < 16 then i else i - 6
  {
    DigitLaw(i);
    DigitsAre(s);
    var t := s + [DIGITS[i]];
    assert t[..|t| - 1] == s && t[|t| - 1] == DIGITS[i];
  }

  // ---- entries -----------------------------------------------------------------------------------

  ghost predicate IsName(name: string) {
    name == "xstart" || exists d :: Digits(d) && name == "sub_" + d
  }

  /** The blanks of an entry, in their order. */
  datatype Gaps = Gaps(w1: string, w2: string, w3: string, w4: string, w5: string)

  predicate AllBlank(g: Gaps) {
    Blank(g.w1) && Blank(g.w2) && Blank(g.w3) && Blank(g.w4) && Blank(g.w5)
  }

  /** The line is the entry `{ 0x..., name }` or `{ 0x..., name },` with these blanks. */
  ghost predicate EntryIs(line: string, digits: string, name: string, comma: string, g: Gaps) {
    && AllBlank(g) && Digits(digits) && IsName(name) && (comma == "" || comma == ",")
    && line == g.w1 + ("{" + (g.w2 + ("0x" + (digits + ("," + (g.w3 + (name + (g.w4 + ("}" + (comma + g.w5))))))))))
  }

  ghost predicate IsEntry(line: string, digits: string) {
    exists name, comma, g :: EntryIs(line, digits, name, comma, g)
  }

  lemma SkipParts(s: string) returns (w: string)
    ensures Blank(w) && s == w + SkipWs(s)
  {
    w := s[..Leading(s)];
    BlankIs(w);
  }

  lemma PastParts(s: string, piece: string)
    requires Past(s, piece).Some?
    ensures s == piece + Past(s, piece).value
  {
  }

  lemma NameParts(s: string) returns (name: string)
    requires PastName(s).Some?
    ensures IsName(name) && s == name + PastName(s).value
  {
    var sub := Past(s, "sub_");
    if sub.Some? && HexPrefix(sub.value) > 0 {
      var d := sub.value[..HexPrefix(sub.value)];
      PrefixIsHex(sub.value);
      DigitsAre(d);
      PastParts(s, "sub_");
      name := "sub_" + d;
      assert sub.value == d + sub.value[|d|..];
    } else {
      name := "xstart";
      PastParts(s, "xstart");
    }
  }

  /** What follows the comma of an entry: a name and the end. */
  predicate IsTail(s: string) {
    var name := PastName(SkipWs(s));
    name.Some? &&
    var close := Past(SkipWs(name.value), "}");
    close.Some? &&
    var more := Past(close.value, ",");
    SkipWs(if more.Some? then more.value else close.value) == ""
  }

  /** The line is read as an entry when it has a number, a comma and such a tail. */
  predicate IsHead(line: string, number: string) {
    var open := Past(SkipWs(line), "{");
    open.Some? && Past(SkipWs(open.value), "0x") == Some(number)
  }

  lemma EntryStages(line: string) returns (number: string, tail: string)
    requires EntryAddress(line).Some?
    ensures var n := HexPrefix(number);
            IsHead(line, number) && n > 0 && AllHex(number[..n]) && Past(number[n..], ",") == Some(tail) && IsTail(tail)
            && EntryAddress(line) == Some(HexValue(number[..n]))
  {
    number := Past(SkipWs(Past(SkipWs(line), "{").value), "0x").value;
    tail := Past(number[HexPrefix(number)..], ",").value;
    PrefixIsHex(number);
  }

  lemma HeadRead(line: string, number: string) returns (w1: string, w2: string)
    requires IsHead(line, number)
    ensures Blank(w1) && Blank(w2) && line == w1 + ("{" + (w2 + ("0x" + number)))
  {
    w1 := SkipParts(line);
    PastParts(SkipWs(line), "{");
    var open := Past(SkipWs(line), "{").value;
    w2 := SkipParts(open);
    PastParts(SkipWs(open), "0x");
  }

  lemma TailRead(s: string) returns (name: string, comma: string, w3: string, w4: string, w5: string)
    requires IsTail(s)
    ensures Blank(w3) && Blank(w4) && Blank(w5) && IsName(name) && (comma == "" || comma == ",")
    ensures s == w3 + (name + (w4 + ("}" + (comma + w5))))
  {
    w3 := SkipParts(s);
    name := NameParts(SkipWs(s));
    var rest := PastName(SkipWs(s)).value;
    w4 := SkipParts(rest);
    PastParts(SkipWs(rest), "}");
    comma, w5 := EndRead(Past(SkipWs(rest), "}").value);
  }

  /** The parts of a line that is read as an entry. */
  lemma EntryRead(line: string) returns (digits: string)
    requires EntryAddress(line).Some?
    ensures IsEntry(line, digits) && AllHex(digits) && EntryAddress(line) == Some(HexValue(digits))
  {
    var number, tail := EntryStages(line);
    var w1, w2 := HeadRead(line, number);
    var name, comma, w3, w4, w5 := TailRead(tail);
    digits := NumberRead(number, tail);
    EntryJoined(line, number, digits, tail, name, comma, Gaps(w1, w2, w3, w4, w5));
  }

  lemma NumberRead(number: string, tail: string) returns (digits: string)
    requires var n := HexPrefix(number); n > 0 && AllHex(number[..n]) && Past(number[n..], ",") == Some(tail)
    ensures digits == number[..HexPrefix(number)] && Digits(digits) && number == digits + ("," + tail)
  {
    var n := HexPrefix(number);
    digits := number[..n];
    DigitsAre(digits);
    PastParts(number[n..], ",");
    assert number == digits + number[n..];
  }

  lemma EntryJoined(line: string, number: string, digits: string, tail: string, name: string, comma: string, g: Gaps)
    requires AllBlank(g) && Digits(digits) && IsName(name) && (comma == "" || comma == ",")
    requires line == g.w1 + ("{" + (g.w2 + ("0x" + number))) && number == digits + ("," + tail)
    requires tail == g.w3 + (name + (g.w4 + ("}" + (comma + g.w5))))
    ensures IsEntry(line, digits)
  {
    assert EntryIs(line, digits, name, comma, g);
  }

  lemma EndRead(close: string) returns (comma: string, w5: string)
    requires var more := Past(close, ","); SkipWs(if more.Some? then more.value else close) == ""
    ensures (comma == "" || comma == ",") && Blank(w5) && close == comma + w5
  {
    var more := Past(close, ",");
    if more.Some? {
      PastParts(close, ",");
      w5 := SkipParts(more.value);
      comma := ",";
    } else {
      w5 := SkipParts(close);
      comma := "";
    }
  }

  // ---- and back ----------------------------------------------------------------------------------

  lemma SkipIs(w: string, rest: string)
    requires Blank(w) && (rest != "" ==> !IsWs(rest[0]))
    ensures SkipWs(w + rest) == rest
  {
    BlankIs(w);
    LeadingIs(w, rest);
  }

  lemma PastIs(piece: string, rest: string)
    ensures Past(piece + rest, piece) == Some(rest)
  {
    Cut(piece, rest);
  }

  lemma NameIs(name: string, rest: string)
    requires IsName(name) && (rest != "" ==> !IsHex(rest[0]))
    ensures PastName(name + rest) == Some(rest) && name != "" && !IsWs((name + rest)[0])
  {
    if name == "xstart" {
      PastIs("xstart", rest);
      assert (name + rest)[..4][0] == 'x' && "sub_"[0] == 's';
    } else {
      var d :| Digits(d) && name == "sub_" + d;
      DigitsAre(d);
      assert name + rest == "sub_" + (d + rest);
      PastIs("sub_", d + rest);
      HexPrefixIs(d, rest);
      Cut(d, rest);
    }
  }

  lemma EndIs(comma: string, w5: string)
    requires (comma == "" || comma == ",") && Blank(w5)
    ensures var close := comma + w5; var more := Past(close, ",");
            SkipWs(if more.Some? then more.value else close) == ""
  {
    SkipIs(w5, "");
    assert w5 + "" == w5;
    BlankIs(w5);
    if comma == "," {
      PastIs(",", w5);
    } else {
      assert comma + w5 == w5;
      if StartsWith(w5, ",") { assert w5[..1][0] == w5[0]; }
    }
  }

  lemma TailIs(name: string, comma: string, w3: string, w4: string, w5: string)
    requires Blank(w3) && Blank(w4) && Blank(w5) && IsName(name) && (comma == "" || comma == ",")
    ensures IsTail(w3 + (name + (w4 + ("}" + (comma + w5)))))
  {
    var close := comma + w5;
    var rest := w4 + ("}" + close);
    BlankIs(w4);
    NoDigit(w4, "}" + close);
    NameIs(name, rest);
    SkipIs(w3, name + rest);
    SkipIs(w4, "}" + close);
    PastIs("}", close);
    EndIs(comma, w5);
  }

  /** A text does not begin with a digit when it begins with a blank or with no digit. */
  lemma NoDigit(w: string, rest: string)
    requires AllWs(w) && rest != "" && !IsHex(rest[0])
    ensures w + rest != "" && !IsHex((w + rest)[0])
  {
  }

  lemma HeadIs(w1: string, w2: string, number: string)
    requires Blank(w1) && Blank(w2)
    ensures IsHead(w1 + ("{" + (w2 + ("0x" + number))), number)
  {
    SkipIs(w1, "{" + (w2 + ("0x" + number)));
    PastIs("{", w2 + ("0x" + number));
    SkipIs(w2, "0x" + number);
    PastIs("0x", number);
  }

  lemma StagesEntry(line: string, digits: string, tail: string)
    requires Digits(digits) && IsHead(line, digits + ("," + tail)) && IsTail(tail)
    ensures AllHex(digits) && EntryAddress(line) == Some(HexValue(digits))
  {
    DigitsAre(digits);
    HexPrefixIs(digits, "," + tail);
    Cut(digits, "," + tail);
    PastIs(",", tail);
  }

  /** A line is read as an entry exactly when it is one, and its address is the value of its digits. */
  lemma EntryLaw(line: string, digits: string)
    requires IsEntry(line, digits)
    ensures AllHex(digits) && EntryAddress(line) == Some(HexValue(digits))
  {
    var name, comma, g :| EntryIs(line, digits, name, comma, g);
    var tail := g.w3 + (name + (g.w4 + ("}" + (comma + g.w5))));
    HeadIs(g.w1, g.w2, digits + ("," + tail));
    TailIs(name, comma, g.w3, g.w4, g.w5);
    StagesEntry(line, digits, tail);
  }

  /** A line stays in the table if and only if it is no entry, or one whose address is in the module. */
  lemma StaysLaw(line: string, lo: nat, hi: nat)
    ensures InModule(lo, hi)(line) <==>
            forall digits :: IsEntry(line, digits) ==> AllHex(digits) && lo <= HexValue(digits) < hi
  {
    forall digits | IsEntry(line, digits) ensures AllHex(digits) && EntryAddress(line) == Some(HexValue(digits)) {
      EntryLaw(line, digits);
    }
    if EntryAddress(line).Some? {
      var digits := EntryRead(line);
    }
  }
}
