/**
 * The text chain against an encoder of its own: section 2.1 of RFC 2781, and the report and its escapes spelled out
 * (src/launcher/launcher.cpp:353-405, 689-699).
 */
module TextLaws {
  import opened Words
  import opened Text

  // ---- UTF-16 ------------------------------------------------------------------------------------

  /** The units of a code point, by section 2.1 of RFC 2781: ten bits of what is above 0x10000 in each. */
  function Units(cp: nat): seq<u16>
    requires cp < 0x11_0000
  {
    if cp < 0x1_0000 then [cp]
    else
      var u := cp - 0x1_0000;
      [0xD800 + u / 0x400, 0xDC00 + u % 0x400]
  }

  function UnitsAll(p: seq<nat>): seq<u16>
    requires InRange(p)
  {
    if p == [] then [] else Units(p[0]) + UnitsAll(p[1..])
  }

  /** The two units of a code point are a pair, and the pair is the code point. */
  lemma PairLaw(cp: nat)
    requires 0x1_0000 <= cp < 0x11_0000
    ensures var u := Units(cp); IsHigh(u[0]) && IsLow(u[1]) && Pair(u[0], u[1]) == cp
  {
  }

  /** And a pair of surrogates is the units of what it stands for. */
  lemma PairUnits(hi: u16, lo: u16)
    requires IsHigh(hi) && IsLow(lo)
    ensures 0x1_0000 <= Pair(hi, lo) < 0x11_0000 && Units(Pair(hi, lo)) == [hi, lo]
  {
    DivMod(hi - 0xD800, 0x400, lo - 0xDC00);
  }

  /** Every text is read back from its units. */
  lemma {:induction false} UnitsDecode(p: seq<nat>)
    requires InRange(p) && IsText(p)
    ensures Utf16Decoded(UnitsAll(p)) == Some(p)
  {
    if p != [] {
      UnitsDecode(p[1..]);
      assert p == [p[0]] + p[1..];
      OneDecoded(p[0], UnitsAll(p[1..]));
    }
  }

  lemma OneDecoded(cp: nat, rest: seq<u16>)
    requires cp < 0x11_0000 && !IsSurrogate(cp)
    ensures Utf16Decoded(Units(cp) + rest) == Prepend(cp, Utf16Decoded(rest))
  {
    if cp >= 0x1_0000 {
      PairLaw(cp);
      TwoUnits(Units(cp)[0], Units(cp)[1], rest);
    } else {
      assert ([cp] + rest)[1..] == rest;
    }
  }

  lemma TwoUnits(hi: u16, lo: u16, rest: seq<u16>)
    requires IsHigh(hi) && IsLow(lo)
    ensures Utf16Decoded([hi, lo] + rest) == Prepend(Pair(hi, lo), Utf16Decoded(rest))
  {
    var s := [hi, lo] + rest;
    assert s[0] == hi && s[1] == lo && s[2..] == rest;
  }

  /** And what decodes is the units of what it decodes to. */
  lemma {:induction false} DecodedUnits(s: seq<u16>)
    requires Utf16Decoded(s).Some?
    ensures var p := Utf16Decoded(s).value; InRange(p) && IsText(p) && UnitsAll(p) == s
  {
    if s != [] {
      var n := if IsSurrogate(s[0]) then 2 else 1;
      DecodedUnits(s[n..]);
      var x := if n == 2 then Pair(s[0], s[1]) else s[0];
      var p, rest := Utf16Decoded(s).value, Utf16Decoded(s[n..]).value;
      assert p == [x] + rest;
      if n == 2 { PairUnits(s[0], s[1]); }
      TextHead(x, rest);
      InRangeHead(x, rest);
      assert p[1..] == rest && s == Units(x) + s[n..];
    }
  }

  lemma InRangeHead(x: nat, rest: seq<nat>)
    requires x < 0x11_0000 && InRange(rest)
    ensures InRange([x] + rest)
  {
  }

  // ---- the report --------------------------------------------------------------------------------

  /** The bytes are the characters of the text. */
  predicate Spells(b: seq<byte>, s: string) {
    |b| == |s| && forall i :: 0 <= i < |s| ==> b[i] == s[i] as int
  }

  /** The whole of a report: what stands before, between and after its four values. */
  lemma ReportSays(r: Report) returns (a: seq<byte>, b: seq<byte>, c: seq<byte>, d: seq<byte>, e: seq<byte>)
    ensures ReportText(JsonPieces(), r)
         == a + Escaped(r.title) + b + Escaped(r.titleId) + c + Escaped(r.path) + d + Escaped(r.reason) + e
    ensures Spells(a, if r.ok then "{\"ok\":true,\"title\":\"" else "{\"ok\":false,\"title\":\"")
    ensures Spells(b, "\",\"titleID\":\"") && Spells(c, "\",\"path\":\"") && Spells(d, "\",\"reason\":\"")
    ensures Spells(e, "\"}")
  {
    var p := JsonPieces();
    a := p.ok + (if r.ok then p.yes else p.no) + p.title;
    b, c, d, e := [QUOTE] + p.titleId, [QUOTE] + p.path, [QUOTE] + p.reason, [QUOTE] + p.close;
    PiecesSpell(r.ok);
    Regrouped(p.ok + (if r.ok then p.yes else p.no), p, r);
  }

  lemma PiecesSpell(ok: bool)
    ensures var p := JsonPieces();
            && Spells(p.ok + (if ok then p.yes else p.no) + p.title,
                      if ok then "{\"ok\":true,\"title\":\"" else "{\"ok\":false,\"title\":\"")
            && Spells([QUOTE] + p.titleId, "\",\"titleID\":\"") && Spells([QUOTE] + p.path, "\",\"path\":\"")
            && Spells([QUOTE] + p.reason, "\",\"reason\":\"") && Spells([QUOTE] + p.close, "\"}")
  {
    StartSpells(ok);
    TitleIdSpells();
    PathSpells();
    ReasonSpells();
    CloseSpells();
  }

  lemma TitleIdSpells()
    ensures Spells([QUOTE] + JsonPieces().titleId, "\",\"titleID\":\"")
  {
    AfterQuote(",\"titleID\":\"");
    assert "\"" + ",\"titleID\":\"" == "\",\"titleID\":\"";
  }

  lemma PathSpells()
    ensures Spells([QUOTE] + JsonPieces().path, "\",\"path\":\"")
  {
    AfterQuote(",\"path\":\"");
    assert "\"" + ",\"path\":\"" == "\",\"path\":\"";
  }

  lemma ReasonSpells()
    ensures Spells([QUOTE] + JsonPieces().reason, "\",\"reason\":\"")
  {
    AfterQuote(",\"reason\":\"");
    assert "\"" + ",\"reason\":\"" == "\",\"reason\":\"";
  }

  lemma CloseSpells()
    ensures Spells([QUOTE] + JsonPieces().close, "\"}")
  {
    AfterQuote("}");
    assert "\"" + "}" == "\"}";
  }

  lemma StartSpells(ok: bool)
    ensures var p := JsonPieces();
            Spells(p.ok + (if ok then p.yes else p.no) + p.title,
                   if ok then "{\"ok\":true,\"title\":\"" else "{\"ok\":false,\"title\":\"")
  {
    var word := if ok then "true" else "false";
    AsciiSpells("{\"ok\":" + word);
    AsciiSpells(",\"title\":\"");
    AsciiJoined("{\"ok\":", word);
    SpellsBoth(Ascii("{\"ok\":" + word), "{\"ok\":" + word, Ascii(",\"title\":\""), ",\"title\":\"");
    StartLiterals();
  }

  lemma StartLiterals()
    ensures "{\"ok\":" + "true" + ",\"title\":\"" == "{\"ok\":true,\"title\":\""
    ensures "{\"ok\":" + "false" + ",\"title\":\"" == "{\"ok\":false,\"title\":\""
  {
  }

  predicate Plain(s: string) {
    forall c :: c in s ==> c as int < 256
  }

  lemma AsciiSpells(s: string)
    requires Plain(s)
    ensures Spells(Ascii(s), s)
  {
    forall i | 0 <= i < |s| ensures Ascii(s)[i] == s[i] as int {
      assert s[i] in s;
    }
  }

  lemma AsciiJoined(s: string, t: string)
    ensures Ascii(s) + Ascii(t) == Ascii(s + t)
  {
  }

  lemma SpellsBoth(a: seq<byte>, s: string, b: seq<byte>, t: string)
    requires Spells(a, s) && Spells(b, t)
    ensures Spells(a + b, s + t)
  {
  }

  lemma AfterQuote(s: string)
    requires Plain(s)
    ensures Spells([QUOTE] + Ascii(s), "\"" + s)
  {
    AsciiSpells(s);
    SpellsBoth([QUOTE], "\"", Ascii(s), s);
  }

  lemma Regrouped(start: seq<byte>, p: Pieces, r: Report)
    ensures start + Field(p.title, r.title) + Field(p.titleId, r.titleId) + Field(p.path, r.path)
            + Field(p.reason, r.reason) + p.close
         == (start + p.title) + Escaped(r.title) + ([QUOTE] + p.titleId) + Escaped(r.titleId) + ([QUOTE] + p.path)
            + Escaped(r.path) + ([QUOTE] + p.reason) + Escaped(r.reason) + ([QUOTE] + p.close)
  {
    QuoteNext(start, p.title, r.title);
    var s1 := (start + p.title) + Escaped(r.title);
    QuoteNext(s1 + [QUOTE], p.titleId, r.titleId);
    Assoc(s1, [QUOTE], p.titleId);
    var s2 := s1 + ([QUOTE] + p.titleId) + Escaped(r.titleId);
    QuoteNext(s2 + [QUOTE], p.path, r.path);
    Assoc(s2, [QUOTE], p.path);
    var s3 := s2 + ([QUOTE] + p.path) + Escaped(r.path);
    QuoteNext(s3 + [QUOTE], p.reason, r.reason);
    Assoc(s3, [QUOTE], p.reason);
    var s4 := s3 + ([QUOTE] + p.reason) + Escaped(r.reason);
    Assoc(s4, [QUOTE], p.close);
  }

  /** A field after a text, with its closing quote apart. */
  lemma QuoteNext(start: seq<byte>, name: seq<byte>, value: seq<byte>)
    ensures start + Field(name, value) == (start + name) + Escaped(value) + [QUOTE]
  {
    Assoc(start, name + Escaped(value), [QUOTE]);
    Assoc(start, name, Escaped(value));
  }

  // ---- escapes -----------------------------------------------------------------------------------

  /** The escape of a byte below 0x20 that has no letter of its own. */
  function UnicodeEscape(c: nat): string
    requires c < 0x20
  {
    "\\u00" + ["0123456789abcdef"[c / 16]] + ["0123456789abcdef"[c % 16]]
  }

  /** What is written for a byte, as text. */
  lemma EscapeSays(c: byte)
    ensures c == '"' as int ==> Spells(Escape(c), "\\\"")
    ensures c == '\\' as int ==> Spells(Escape(c), "\\\\")
    ensures c == '\n' as int ==> Spells(Escape(c), "\\n")
    ensures c == '\r' as int ==> Spells(Escape(c), "\\r")
    ensures c == '\t' as int ==> Spells(Escape(c), "\\t")
    ensures c < 0x20 && c !in {9, 10, 13} ==> Spells(Escape(c), UnicodeEscape(c))
    ensures c >= 0x20 && c != '"' as int && c != '\\' as int ==> Escape(c) == [c]
  {
    if c < 0x20 && c !in {9, 10, 13} {
      HexLetter(c / 16);
      HexLetter(c % 16);
      assert UnicodeEscape(c)[..4] == "\\u00";
    }
  }

  lemma HexLetter(d: nat)
    requires d < 16
    ensures HexDigit(d) == "0123456789abcdef"[d] as int
  {
  }
}
