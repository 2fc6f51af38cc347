/**
 * The launcher's text chain: UTF-16 title to UTF-8, UTF-8 to JSON (src/launcher/launcher.cpp:353-405, 689-699),
 * against RFC 2781 (UTF-16), RFC 3629 (UTF-8) and RFC 8259 (JSON).
 */
module Text {
  import opened Words

  type u16 = w: nat | w < 0x1_0000

  // ---- UTF-16 ------------------------------------------------------------------------------------

  predicate IsHigh(w: nat) { 0xD800 <= w <= 0xDBFF }
  predicate IsLow(w: nat) { 0xDC00 <= w <= 0xDFFF }
  predicate IsSurrogate(w: nat) { 0xD800 <= w <= 0xDFFF }

  function Pair(hi: u16, lo: u16): nat
    requires IsHigh(hi) && IsLow(lo)
  {
    0x1_0000 + (hi - 0xD800) * 0x400 + (lo - 0xDC00)
  }

  /** Section 2.2 of RFC 2781; None where the text is not well-formed. */
  function Utf16Decoded(s: seq<u16>): Option<seq<nat>> {
    if s == [] then Some([])
    else if !IsSurrogate(s[0]) then Prepend(s[0], Utf16Decoded(s[1..]))
    else if IsHigh(s[0]) && |s| > 1 && IsLow(s[1]) then Prepend(Pair(s[0], s[1]), Utf16Decoded(s[2..]))
    else None
  }

  function Prepend<T>(x: T, r: Option<seq<T>>): Option<seq<T>> {
    if r.None? then None else Some([x] + r.value)
  }

  /** The values that the source's loop goes through: an unpaired surrogate stands for itself. */
  function Points(s: seq<u16>): seq<nat> {
    if s == [] then []
    else if IsHigh(s[0]) && |s| > 1 && IsLow(s[1]) then [Pair(s[0], s[1])] + Points(s[2..])
    else [s[0]] + Points(s[1..])
  }

  /** Everything before the first 0. */
  function BeforeNul(p: seq<nat>): (r: seq<nat>)
    ensures |r| <= |p| && r == p[..|r|] && 0 !in r && (|r| < |p| ==> p[|r|] == 0)
  {
    if p == [] || p[0] == 0 then [] else [p[0]] + BeforeNul(p[1..])
  }

  lemma {:induction false} PointsDecode(s: seq<u16>)
    ensures Utf16Decoded(s) == if IsText(Points(s)) then Some(Points(s)) else None
  {
    if s != [] {
      var n := if IsHigh(s[0]) && |s| > 1 && IsLow(s[1]) then 2 else 1;
      PointsDecode(s[n..]);
      TextHead(Points(s)[0], Points(s[n..]));
    }
  }

  // ---- UTF-8 -------------------------------------------------------------------------------------

  /** No unpaired surrogate is left. */
  predicate IsText(p: seq<nat>) {
    forall i :: 0 <= i < |p| ==> !IsSurrogate(p[i])
  }

  lemma TextHead(x: nat, rest: seq<nat>)
    ensures IsText([x] + rest) <==> !IsSurrogate(x) && IsText(rest)
  {
    var p := [x] + rest;
    assert p[0] == x;
    assert forall i :: 0 <= i < |rest| ==> p[i + 1] == rest[i];
    if IsText(p) {
      forall i | 0 <= i < |rest| ensures !IsSurrogate(rest[i]) { assert !IsSurrogate(p[i + 1]); }
    }
  }

  /** The source's four cases. */
  function Utf8(cp: nat): seq<byte>
    requires cp < 0x11_0000
  {
    if cp < 0x80 then [cp]
    else if cp < 0x800 then [0xC0 + cp / 0x40, 0x80 + cp % 0x40]
    else if cp < 0x1_0000 then [0xE0 + cp / 0x1000, 0x80 + cp / 0x40 % 0x40, 0x80 + cp % 0x40]
    else [0xF0 + cp / 0x4_0000, 0x80 + cp / 0x1000 % 0x40, 0x80 + cp / 0x40 % 0x40, 0x80 + cp % 0x40]
  }

  predicate InRange(p: seq<nat>) {
    forall i :: 0 <= i < |p| ==> p[i] < 0x11_0000
  }

  function Utf8All(p: seq<nat>): seq<byte>
    requires InRange(p)
  {
    if p == [] then [] else Utf8All(p[..|p| - 1]) + Utf8(p[|p| - 1])
  }

  predicate IsTail(b: byte) { 0x80 <= b < 0xC0 }

  function Above(b: nat, base: nat): nat
    requires base <= b
  {
    b - base
  }

  datatype Char = Char(point: nat, length: nat)

  /** The character at the start of a text, and its length, by section 3 of RFC 3629. */
  function Utf8First(s: seq<byte>): (r: Option<Char>)
    ensures r.Some? ==> 0 < r.value.length <= |s| && r.value.point < 0x11_0000
  {
    if s == [] then None
    else if s[0] < 0x80 then Some(Char(s[0], 1))
    else if 0xC0 <= s[0] < 0xE0 && |s| > 1 && IsTail(s[1]) then
      Shortest(0x40 * Above(s[0], 0xC0) + Above(s[1], 0x80), 0x80, 0x800, 2)
    else if 0xE0 <= s[0] < 0xF0 && |s| > 2 && IsTail(s[1]) && IsTail(s[2]) then
      Shortest(0x1000 * Above(s[0], 0xE0) + 0x40 * Above(s[1], 0x80) + Above(s[2], 0x80), 0x800, 0x1_0000, 3)
    else if 0xF0 <= s[0] < 0xF8 && |s| > 3 && IsTail(s[1]) && IsTail(s[2]) && IsTail(s[3]) then
      Shortest(0x4_0000 * Above(s[0], 0xF0) + 0x1000 * Above(s[1], 0x80) + 0x40 * Above(s[2], 0x80) + Above(s[3], 0x80),
               0x1_0000, 0x11_0000, 4)
    else None
  }

  /** Overlong forms, surrogates and values past U+10FFFF are not characters. */
  function Shortest(cp: nat, least: nat, limit: nat, n: nat): Option<Char> {
    if least <= cp < limit && !IsSurrogate(cp) then Some(Char(cp, n)) else None
  }

  function Utf8Decoded(s: seq<byte>): Option<seq<nat>>
    decreases |s|
  {
    if s == [] then Some([])
    else
      var first := Utf8First(s);
      if first.None? then None else Prepend(first.value.point, Utf8Decoded(s[first.value.length..]))
  }

  lemma FirstOfUtf8(cp: nat, rest: seq<byte>)
    requires cp < 0x11_0000
    ensures Utf8First(Utf8(cp) + rest) == if IsSurrogate(cp) then None else Some(Char(cp, |Utf8(cp)|))
  {
    var u := Utf8(cp);
    assert forall i :: 0 <= i < |u| ==> (u + rest)[i] == u[i];
    Groups(cp);
  }

  /** A value from its groups of six bits. */
  lemma Groups(cp: nat)
    ensures cp == 0x40 * (cp / 0x40) + cp % 0x40
    ensures cp == 0x1000 * (cp / 0x1000) + 0x40 * (cp / 0x40 % 0x40) + cp % 0x40
    ensures cp == 0x4_0000 * (cp / 0x4_0000) + 0x1000 * (cp / 0x1000 % 0x40) + 0x40 * (cp / 0x40 % 0x40) + cp % 0x40
  {
    var a := cp / 0x40;
    var b := a / 0x40;
    assert cp / 0x1000 == b;
    assert cp / 0x4_0000 == b / 0x40;
  }

  lemma {:induction false} Utf8AllFirst(p: seq<nat>)
    requires InRange(p) && p != []
    ensures InRange(p[1..]) && Utf8All(p) == Utf8(p[0]) + Utf8All(p[1..])
  {
    if |p| > 1 {
      var most := p[..|p| - 1];
      Utf8AllFirst(most);
      FirstAndLast(Utf8(p[0]), Utf8All(most[1..]), Utf8(p[|p| - 1]), most[1..], p);
    }
  }

  lemma FirstAndLast(first: seq<byte>, middle: seq<byte>, last: seq<byte>, inner: seq<nat>, p: seq<nat>)
    requires |p| > 1 && InRange(p) && inner == p[..|p| - 1][1..] && middle == Utf8All(inner) && last == Utf8(p[|p| - 1])
    requires Utf8All(p[..|p| - 1]) == first + middle
    ensures Utf8All(p) == first + Utf8All(p[1..])
  {
    var rest := p[1..];
    assert rest[..|rest| - 1] == inner && rest[|rest| - 1] == p[|p| - 1];
    Assoc(first, middle, last);
  }

  /** Decoding what was encoded gives it back exactly when there is no surrogate in it, and fails otherwise. */
  lemma {:induction false} Utf8RoundTrip(p: seq<nat>)
    requires InRange(p)
    ensures Utf8Decoded(Utf8All(p)) == if IsText(p) then Some(p) else None
  {
    if p != [] {
      var rest := p[1..];
      Utf8AllFirst(p);
      Utf8RoundTrip(rest);
      FirstOfUtf8(p[0], Utf8All(rest));
      TextHead(p[0], rest);
      assert p == [p[0]] + rest;
      assert (Utf8(p[0]) + Utf8All(rest))[|Utf8(p[0])|..] == Utf8All(rest);
    }
  }

  lemma {:induction false} PointsInRange(s: seq<u16>)
    ensures InRange(Points(s))
  {
    if s != [] {
      PointsInRange(s[if IsHigh(s[0]) && |s| > 1 && IsLow(s[1]) then 2 else 1..]);
    }
  }

  // ---- the conversion ----------------------------------------------------------------------------

  method Push(out: seq<byte>, cp: nat) returns (r: seq<byte>)
    requires cp < 0x11_0000
    ensures r == out + Utf8(cp)
  {
    if cp < 0x80 {
      r := out + [cp];
    } else if cp < 0x800 {
      r := out + [0xC0 + cp / 0x40, 0x80 + cp % 0x40];
    } else if cp < 0x1_0000 {
      r := out + [0xE0 + cp / 0x1000, 0x80 + cp / 0x40 % 0x40, 0x80 + cp % 0x40];
    } else {
      r := out + [0xF0 + cp / 0x4_0000, 0x80 + cp / 0x1000 % 0x40, 0x80 + cp / 0x40 % 0x40, 0x80 + cp % 0x40];
    }
  }

  /** The point at i, and the index of its last unit. */
  method ReadPoint(s: seq<u16>, i: nat) returns (cp: nat, last: nat)
    requires i < |s|
    ensures if IsHigh(s[i]) && i + 1 < |s| && IsLow(s[i + 1]) then last == i + 1 && cp == Pair(s[i], s[i + 1])
            else last == i && cp == s[i]
  {
    cp, last := s[i], i;
    if 0xD800 <= cp <= 0xDBFF && i + 1 < |s| {
      var lo := s[i + 1];
      if 0xDC00 <= lo <= 0xDFFF {
        cp := 0x1_0000 + (cp - 0xD800) * 0x400 + (lo - 0xDC00);
        last := i + 1;
      }
    }
  }

  method Utf16ToUtf8(s: seq<u16>) returns (out: seq<byte>)
    ensures InRange(BeforeNul(Points(s))) && out == Utf8All(BeforeNul(Points(s)))
  {
    out := [];
    PointsInRange(s);
    ghost var done, all := [], Points(s);
    var i := 0;
    while i < |s|
      invariant i <= |s| && InRange(done) && out == Utf8All(done)
      invariant all == done + Points(s[i..]) && BeforeNul(all) == done + BeforeNul(Points(s[i..]))
    {
      var cp, last := ReadPoint(s, i);
      OnePoint(s, i, last + 1, cp, done);
      if cp == 0 { break; }
      out := Push(out, cp);
      Utf8Step(done, cp);
      done := done + [cp];
      i := last + 1;
    }
  }

  /** The loop takes the next point. */
  lemma OnePoint(s: seq<u16>, i: nat, next: nat, cp: nat, done: seq<nat>)
    requires i < next <= |s|
    requires if IsHigh(s[i]) && i + 1 < |s| && IsLow(s[i + 1]) then next == i + 2 && cp == Pair(s[i], s[i + 1])
             else next == i + 1 && cp == s[i]
    ensures cp < 0x11_0000
    ensures done + Points(s[i..]) == done + [cp] + Points(s[next..])
    ensures done + BeforeNul(Points(s[i..])) == if cp == 0 then done else done + [cp] + BeforeNul(Points(s[next..]))
  {
    PointsStep(s, i, next, cp);
    var rest := Points(s[next..]);
    NulStep(cp, rest);
    Assoc(done, [cp], rest);
    Assoc(done, [cp], BeforeNul(rest));
  }

  lemma PointsStep(s: seq<u16>, i: nat, next: nat, cp: nat)
    requires i < next <= |s|
    requires if IsHigh(s[i]) && i + 1 < |s| && IsLow(s[i + 1]) then next == i + 2 && cp == Pair(s[i], s[i + 1])
             else next == i + 1 && cp == s[i]
    ensures Points(s[i..]) == [cp] + Points(s[next..])
  {
    var t := s[i..];
    assert t[0] == s[i] && (|t| > 1 <==> i + 1 < |s|) && (|t| > 1 ==> t[1] == s[i + 1]);
    assert t[next - i..] == s[next..];
  }

  lemma NulStep(cp: nat, rest: seq<nat>)
    ensures BeforeNul([cp] + rest) == if cp == 0 then [] else [cp] + BeforeNul(rest)
  {
    assert ([cp] + rest)[1..] == rest;
  }

  lemma Utf8Step(done: seq<nat>, cp: nat)
    requires InRange(done) && cp < 0x11_0000
    ensures InRange(done + [cp]) && Utf8All(done + [cp]) == Utf8All(done) + Utf8(cp)
  {
    assert (done + [cp])[..|done|] == done;
  }

  /** Reading the result as UTF-8 is reading the units before the first NUL as UTF-16: the same code points, and
      failure on the same titles. */
  lemma TitleRoundTrip(s: seq<u16>)
    ensures InRange(BeforeNul(Points(s)))
    ensures Utf8Decoded(Utf8All(BeforeNul(Points(s)))) == Utf16Decoded(Title(s))
  {
    PointsInRange(s);
    PointsOfTitle(s);
    PointsDecode(Title(s));
    Utf8RoundTrip(BeforeNul(Points(s)));
  }

  /** The units before the first NUL. */
  function Title(s: seq<u16>): seq<u16> {
    s[..|BeforeNul(s)|]
  }

  lemma TitleStep(s: seq<u16>)
    requires s != [] && s[0] != 0
    ensures Title(s) == [s[0]] + Title(s[1..])
  {
  }

  /** The walk stops where the units do: no pair contains a NUL. */
  lemma {:induction false} PointsOfTitle(s: seq<u16>)
    ensures BeforeNul(Points(s)) == Points(Title(s))
  {
    if s != [] && s[0] != 0 {
      TitleStep(s);
      var t := Title(s);
      assert t[1..] == Title(s[1..]);
      if IsHigh(s[0]) && |s| > 1 && IsLow(s[1]) {
        TitleStep(s[1..]);
        PointsOfTitle(s[2..]);
        assert s[1..][1..] == s[2..] && t[2..] == Title(s[2..]);
        NulStep(Pair(s[0], s[1]), Points(s[2..]));
      } else {
        PointsOfTitle(s[1..]);
        assert |t| > 1 ==> t[1] == s[1];
        NulStep(s[0], Points(s[1..]));
      }
    }
  }

  /** In general the result is UTF-8 if and only if no unpaired surrogate comes before the first NUL. */
  lemma ResultIsUtf8(s: seq<u16>)
    ensures InRange(BeforeNul(Points(s)))
    ensures Utf8Decoded(Utf8All(BeforeNul(Points(s)))).Some?
       <==> IsText(BeforeNul(Points(s)))
  {
    PointsInRange(s);
    Utf8RoundTrip(BeforeNul(Points(s)));
  }

  // ---- JSON strings ------------------------------------------------------------------------------

  const QUOTE: byte := 0x22
  const BACKSLASH: byte := 0x5C

  function HexDigit(d: nat): byte
    requires d < 16
  {
    if d < 10 then 0x30 + d else 0x61 + (d - 10)
  }

  /** What the source writes for one byte. */
  function Escape(c: byte): seq<byte> {
    if c == QUOTE then [BACKSLASH, QUOTE]
    else if c == BACKSLASH then [BACKSLASH, BACKSLASH]
    else if c == 10 then [BACKSLASH, 0x6E]
    else if c == 13 then [BACKSLASH, 0x72]
    else if c == 9 then [BACKSLASH, 0x74]
    else if c < 0x20 then [BACKSLASH, 0x75, 0x30, 0x30, HexDigit(c / 16), HexDigit(c % 16)]
    else [c]
  }

  function Escaped(s: seq<byte>): seq<byte> {
    if s == [] then [] else Escaped(s[..|s| - 1]) + Escape(s[|s| - 1])
  }

  method JsonEscape(s: seq<byte>) returns (o: seq<byte>)
    ensures o == Escaped(s)
  {
    o := [];
    var i := 0;
    while i < |s|
      invariant i <= |s| && o == Escaped(s[..i])
    {
      var c := s[i];
      if c == QUOTE { o := o + [BACKSLASH, QUOTE]; }
      else if c == BACKSLASH { o := o + [BACKSLASH, BACKSLASH]; }
      else if c == 10 { o := o + [BACKSLASH, 0x6E]; }
      else if c == 13 { o := o + [BACKSLASH, 0x72]; }
      else if c == 9 { o := o + [BACKSLASH, 0x74]; }
      else if c < 0x20 { o := o + [BACKSLASH, 0x75, 0x30, 0x30, HexDigit(c / 16), HexDigit(c % 16)]; }
      else { o := o + [c]; }
      assert s[..i + 1][..i] == s[..i];
      i := i + 1;
    }
    assert s[..i] == s;
  }

  function HexValue(b: byte): (r: Option<nat>)
    ensures r.Some? ==> r.value < 16
  {
    if 0x30 <= b <= 0x39 then Some(Above(b, 0x30))
    else if 0x41 <= b <= 0x46 then Some(10 + Above(b, 0x41))
    else if 0x61 <= b <= 0x66 then Some(10 + Above(b, 0x61))
    else None
  }

  function Hex4(s: seq<byte>): (r: Option<nat>)
    requires |s| == 4
    ensures r.Some? ==> r.value < 0x1_0000
  {
    FourDigits(HexValue(s[0]), HexValue(s[1]), HexValue(s[2]), HexValue(s[3]))
  }

  function FourDigits(a: Option<nat>, b: Option<nat>, c: Option<nat>, d: Option<nat>): (r: Option<nat>)
    requires forall x :: x in {a, b, c, d} && x.Some? ==> x.value < 16
    ensures r.Some? ==> r.value < 0x1_0000
  {
    if a.None? || b.None? || c.None? || d.None? then None
    else Some(0x1000 * a.value + 0x100 * b.value + 0x10 * c.value + d.value)
  }

  /** One character of a string: the bytes it stands for, and its length. */
  datatype Item = Item(bytes: seq<byte>, length: nat)

  /**
   * The character at the start of a string's inside, by section 7 of RFC 8259; quotes, control bytes and
   * unknown escapes are not characters, and neither is an escaped surrogate here.
   */
  function JsonFirst(s: seq<byte>): (r: Option<Item>)
    ensures r.Some? ==> 0 < r.value.length <= |s| && s[0] != QUOTE && s[0] >= 0x20
  {
    if s == [] || s[0] == QUOTE || s[0] < 0x20 then None
    else if s[0] != BACKSLASH then Some(Item([s[0]], 1))
    else if |s| < 2 then None
    else
      var e := s[1];
      if e == QUOTE || e == BACKSLASH || e == 0x2F then Some(Item([e], 2))
      else if e == 0x62 then Some(Item([8], 2))
      else if e == 0x66 then Some(Item([12], 2))
      else if e == 0x6E then Some(Item([10], 2))
      else if e == 0x72 then Some(Item([13], 2))
      else if e == 0x74 then Some(Item([9], 2))
      else if e == 0x75 && |s| >= 6 then
        var cp := Hex4(s[2..6]);
        if cp.None? || IsSurrogate(cp.value) then None else Some(Item(Utf8(cp.value), 6))
      else None
  }

  /** The value of a string that is closed by a quote, and what follows the quote. */
  datatype Scan = Scan(value: seq<byte>, rest: seq<byte>)

  function JsonString(s: seq<byte>): Option<Scan>
    decreases |s|
  {
    if s == [] then None
    else if s[0] == QUOTE then Some(Scan([], s[1..]))
    else
      var first := JsonFirst(s);
      if first.None? then None
      else
        var more := JsonString(s[first.value.length..]);
        if more.None? then None else Some(Scan(first.value.bytes + more.value.value, more.value.rest))
  }

  lemma HexBack(d: nat)
    requires d < 16
    ensures HexValue(HexDigit(d)) == Some(d)
  {
  }

  lemma FirstOfEscape(c: byte, rest: seq<byte>)
    ensures JsonFirst(Escape(c) + rest) == Some(Item([c], |Escape(c)|)) && Escape(c)[0] != QUOTE
  {
    var s := Escape(c) + rest;
    assert s[0] == Escape(c)[0];
    if |Escape(c)| > 1 { assert s[1] == Escape(c)[1]; }
    if |Escape(c)| == 6 {
      assert s[2..6] == [0x30, 0x30, HexDigit(c / 16), HexDigit(c % 16)];
      HexBack(c / 16);
      HexBack(c % 16);
      assert Hex4(s[2..6]) == Some(16 * (c / 16) + c % 16);
    }
  }

  lemma {:induction false} EscapedFirst(s: seq<byte>)
    requires s != []
    ensures Escaped(s) == Escape(s[0]) + Escaped(s[1..])
  {
    if |s| > 1 {
      var most := s[..|s| - 1];
      EscapedFirst(most);
      assert most[1..] == s[1..][..|s| - 2];
    }
  }

  lemma Dropped(a: seq<byte>, b: seq<byte>)
    ensures (a + b)[|a|..] == b
  {
  }

  /** For every byte string: an escaped string, closed by a quote, is read back as the string. */
  lemma {:induction false} EscapeRoundTrip(s: seq<byte>, rest: seq<byte>)
    ensures JsonString(Escaped(s) + [QUOTE] + rest) == Some(Scan(s, rest))
  {
    var t := Escaped(s) + [QUOTE] + rest;
    if s == [] {
      assert t == [QUOTE] + rest;
    } else {
      EscapedFirst(s);
      var more := Escaped(s[1..]) + [QUOTE] + rest;
      Assoc(Escape(s[0]), Escaped(s[1..]), [QUOTE]);
      Assoc(Escape(s[0]), Escaped(s[1..]) + [QUOTE], rest);
      FirstOfEscape(s[0], more);
      Dropped(Escape(s[0]), more);
      EscapeRoundTrip(s[1..], rest);
      assert [s[0]] + s[1..] == s;
    }
  }

  /** The text ends with a backslash that is not itself escaped. */
  predicate Open(t: seq<byte>) {
    t != [] && t[|t| - 1] == BACKSLASH && !Open(t[..|t| - 1])
  }

  /** No control byte, and every quote is escaped. */
  ghost predicate Clean(t: seq<byte>) {
    forall i :: 0 <= i < |t| ==> t[i] >= 0x20 && (t[i] == QUOTE ==> Open(t[..i]))
  }

  /** No control byte and no raw quote is left inside, and nothing escapes the quote that closes the string. */
  lemma {:induction false} NoRawBytes(s: seq<byte>)
    ensures Clean(Escaped(s)) && !Open(Escaped(s))
  {
    if s != [] {
      var most, c := s[..|s| - 1], s[|s| - 1];
      NoRawBytes(most);
      EscapeAppended(Escaped(most), c);
    }
  }

  lemma Appended(t: seq<byte>, c: byte)
    requires Clean(t) && c >= 0x20 && (c == QUOTE ==> Open(t))
    ensures Clean(t + [c]) && (Open(t + [c]) <==> c == BACKSLASH && !Open(t))
  {
    var r := t + [c];
    assert r[..|t|] == t;
    forall i | 0 <= i < |r| ensures r[i] >= 0x20 && (r[i] == QUOTE ==> Open(r[..i])) {
      if i < |t| { assert r[i] == t[i] && r[..i] == t[..i]; }
    }
  }

  lemma {:induction false} PlainAppended(t: seq<byte>, s: seq<byte>)
    requires Clean(t) && !Open(t) && IsPlain(s)
    ensures Clean(t + s) && !Open(t + s)
  {
    if s == [] {
      assert t + s == t;
    } else {
      var most, c := s[..|s| - 1], s[|s| - 1];
      PlainAppended(t, most);
      Appended(t + most, c);
      assert t + most + [c] == t + s;
    }
  }

  predicate IsPlain(s: seq<byte>) {
    forall i :: 0 <= i < |s| ==> s[i] >= 0x20 && s[i] != QUOTE && s[i] != BACKSLASH
  }

  lemma PairAppended(t: seq<byte>, x: byte)
    requires Clean(t) && !Open(t) && x >= 0x20
    ensures Clean(t + [BACKSLASH] + [x]) && !Open(t + [BACKSLASH] + [x])
  {
    Appended(t, BACKSLASH);
    Appended(t + [BACKSLASH], x);
  }

  /** An escape is a plain byte, or a backslash, a byte, and plain bytes. */
  lemma EscapeParts(c: byte, e: seq<byte>)
    requires e == Escape(c)
    ensures if |e| == 1 then IsPlain(e) else |e| >= 2 && e == [BACKSLASH] + [e[1]] + e[2..] && e[1] >= 0x20 && IsPlain(e[2..])
  {
  }

  lemma EscapeAppended(t: seq<byte>, c: byte)
    requires Clean(t) && !Open(t)
    ensures Clean(t + Escape(c)) && !Open(t + Escape(c))
  {
    EscapeParts(c, Escape(c));
    PartsAppended(t, Escape(c));
  }

  lemma PartsAppended(t: seq<byte>, e: seq<byte>)
    requires Clean(t) && !Open(t)
    requires if |e| == 1 then IsPlain(e) else |e| >= 2 && e == [BACKSLASH] + [e[1]] + e[2..] && e[1] >= 0x20 && IsPlain(e[2..])
    ensures Clean(t + e) && !Open(t + e)
  {
    if |e| == 1 {
      PlainAppended(t, e);
    } else {
      PairAppended(t, e[1]);
      PlainAppended(t + [BACKSLASH] + [e[1]], e[2..]);
      assert t + [BACKSLASH] + [e[1]] + e[2..] == t + e;
    }
  }

  // ---- the validation report ---------------------------------------------------------------------

  datatype Report = Report(ok: bool, title: seq<byte>, titleId: seq<byte>, path: seq<byte>, reason: seq<byte>)

  function Ascii(s: string): (r: seq<byte>)
    ensures |r| == |s|
  {
    seq(|s|, i requires 0 <= i < |s| => s[i] as int % 256)
  }

  function Field(name: seq<byte>, value: seq<byte>): seq<byte> {
    name + Escaped(value) + [QUOTE]
  }

  /** The fixed pieces of a report: names with their punctuation. */
  datatype Pieces = Pieces(
    ok: seq<byte>, yes: seq<byte>, no: seq<byte>, title: seq<byte>, titleId: seq<byte>, path: seq<byte>,
    reason: seq<byte>, close: seq<byte>)

  function JsonPieces(): Pieces {
    Pieces(Ascii("{\"ok\":"), Ascii("true"), Ascii("false"), Ascii(",\"title\":\""), Ascii(",\"titleID\":\""),
           Ascii(",\"path\":\""), Ascii(",\"reason\":\""), Ascii("}"))
  }

  function ReportText(p: Pieces, r: Report): seq<byte> {
    p.ok + (if r.ok then p.yes else p.no) + Field(p.title, r.title) + Field(p.titleId, r.titleId)
    + Field(p.path, r.path) + Field(p.reason, r.reason) + p.close
  }

  method AppendField(j: seq<byte>, name: seq<byte>, value: seq<byte>) returns (r: seq<byte>)
    ensures r == j + Field(name, value)
  {
    var escaped := JsonEscape(value);
    r := j + name + escaped + [QUOTE];
  }

  method ReportToJson(p: Pieces, r: Report) returns (j: seq<byte>)
    ensures j == ReportText(p, r)
  {
    j := p.ok;
    j := j + if r.ok then p.yes else p.no;
    j := AppendField(j, p.title, r.title);
    j := AppendField(j, p.titleId, r.titleId);
    j := AppendField(j, p.path, r.path);
    j := AppendField(j, p.reason, r.reason);
    j := j + p.close;
  }

  method ValidateResultToJson(r: Report) returns (j: seq<byte>)
    ensures j == ReportText(JsonPieces(), r)
  {
    j := ReportToJson(JsonPieces(), r);
  }

  /** What follows a piece of text, when that is how a text starts. */
  function After(s: seq<byte>, piece: seq<byte>): Option<seq<byte>> {
    if |piece| <= |s| && s[..|piece|] == piece then Some(s[|piece|..]) else None
  }

  function ReadField(s: seq<byte>, name: seq<byte>): Option<Scan> {
    var inside := After(s, name);
    if inside.None? then None else JsonString(inside.value)
  }

  /** A reader of such reports. */
  function ReadReport(p: Pieces, s: seq<byte>): Option<Report> {
    var start := After(s, p.ok);
    if start.None? then None
    else
      var yes, no := After(start.value, p.yes), After(start.value, p.no);
      if yes.Some? then ReadFields(p, true, yes.value)
      else if no.Some? then ReadFields(p, false, no.value)
      else None
  }

  function ReadFields(p: Pieces, ok: bool, s: seq<byte>): Option<Report> {
    var title := ReadField(s, p.title);
    if title.None? then None
    else
      var titleId := ReadField(title.value.rest, p.titleId);
      if titleId.None? then None
      else
        var path := ReadField(titleId.value.rest, p.path);
        if path.None? then None
        else
          var reason := ReadField(path.value.rest, p.reason);
          if reason.None? || reason.value.rest != p.close then None
          else Some(Report(ok, title.value.value, titleId.value.value, path.value.value, reason.value.value))
  }

  lemma AfterPiece(piece: seq<byte>, rest: seq<byte>)
    ensures After(piece + rest, piece) == Some(rest)
  {
    assert (piece + rest)[..|piece|] == piece;
  }

  lemma FieldRead(name: seq<byte>, value: seq<byte>, rest: seq<byte>)
    ensures ReadField(Field(name, value) + rest, name) == Some(Scan(value, rest))
  {
    var inside := Escaped(value) + [QUOTE] + rest;
    assert Field(name, value) + rest == name + inside;
    AfterPiece(name, inside);
    EscapeRoundTrip(value, rest);
  }

  lemma FieldsRead(p: Pieces, r: Report)
    ensures ReadFields(p, r.ok, Field(p.title, r.title) + (Field(p.titleId, r.titleId)
              + (Field(p.path, r.path) + (Field(p.reason, r.reason) + p.close)))) == Some(r)
  {
    var d := Field(p.reason, r.reason) + p.close;
    var c := Field(p.path, r.path) + d;
    FieldRead(p.title, r.title, Field(p.titleId, r.titleId) + c);
    FieldRead(p.titleId, r.titleId, c);
    FieldRead(p.path, r.path, d);
    FieldRead(p.reason, r.reason, p.close);
  }

  lemma Reassociated(a: seq<byte>, b: seq<byte>, c: seq<byte>, d: seq<byte>, e: seq<byte>, f: seq<byte>, g: seq<byte>)
    ensures a + b + c + d + e + f + g == a + (b + (c + (d + (e + (f + g)))))
  {
    Assoc(a + b + c + d + e, f, g);
    Assoc(a + b + c + d, e, f + g);
    Assoc(a + b + c, d, e + (f + g));
    Assoc(a + b, c, d + (e + (f + g)));
    Assoc(a, b, c + (d + (e + (f + g))));
  }

  /** A text that starts with one word does not start with another whose first letter differs. */
  lemma OtherWord(word: seq<byte>, other: seq<byte>, rest: seq<byte>)
    requires word != [] && other != [] && word[0] != other[0]
    ensures After(word + rest, other).None?
  {
    var s := word + rest;
    assert s[0] == word[0];
    assert |other| <= |s| ==> s[..|other|][0] == s[0];
  }

  /** Every report, with any bytes in its fields, is read back from its text. */
  lemma ReportRoundTrip(r: Report)
    ensures ReadReport(JsonPieces(), ReportText(JsonPieces(), r)) == Some(r)
  {
    TextRoundTrip(JsonPieces(), r);
  }

  lemma TextRoundTrip(p: Pieces, r: Report)
    requires p.yes != [] && p.no != [] && p.yes[0] != p.no[0]
    ensures ReadReport(p, ReportText(p, r)) == Some(r)
  {
    var word := if r.ok then p.yes else p.no;
    var t, i, q, e := Field(p.title, r.title), Field(p.titleId, r.titleId), Field(p.path, r.path), Field(p.reason, r.reason);
    var fields := t + (i + (q + (e + p.close)));
    Reassociated(p.ok, word, t, i, q, e, p.close);
    AfterPiece(p.ok, word + fields);
    AfterPiece(word, fields);
    if !r.ok { OtherWord(p.no, p.yes, fields); }
    FieldsRead(p, r);
  }
}
