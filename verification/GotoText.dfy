/**
 * The lines of the goto rewriting as text: what is read as a goto, a function or a label, and what the rewritten lines
 * say (tools/fix_recomp_labels.py:24-27, 34-40, 76-97).
 */
module GotoText {
  import opened Words
  import opened GotoFix

  const BLANKS := " \t\n\U{0B}\U{0C}\r\U{1C}\U{1D}\U{1E}\U{1F}\U{85}\U{A0}"
  const DIGITS := "0123456789ABCDEFabcdef"

  predicate Blank(s: string) {
    forall c :: c in s ==> c in BLANKS
  }

  predicate Digits(s: string) {
    s != "" && forall c :: c in s ==> c in DIGITS
  }

  lemma BlankChar(c: char)
    ensures c in BLANKS <==> IsWs(c)
  {
  }

  lemma DigitChar(c: char)
    ensures c in DIGITS <==> IsHex(c)
  {
  }

  lemma BlankIs(s: string)
    ensures Blank(s) <==> AllWs(s)
  {
    forall c: char { BlankChar(c); }
    if AllWs(s) {
      forall c | c in s ensures c in BLANKS {
        var i :| 0 <= i < |s| && s[i] == c;
      }
    }
  }

  lemma DigitsAre(s: string)
    ensures Digits(s) <==> s != "" && AllHex(s)
  {
    forall c: char { DigitChar(c); }
    if AllHex(s) {
      forall c | c in s ensures c in DIGITS {
        var i :| 0 <= i < |s| && s[i] == c;
      }
    }
  }

  // ---- gotos -------------------------------------------------------------------------------------

  /** What stands before the action: the indent, and the condition with what opens the action. */
  function Front(indent: string, cond: Option<string>, open: string): string {
    if cond.Some? then indent + "if (" + cond.value + open else indent
  }

  /** The line is this goto. */
  predicate GotoIs(line: string, indent: string, cond: Option<string>, target: string, blanks: string) {
    Blank(indent) && Digits(target) && Blank(blanks)
    && line == Front(indent, cond, ") ") + "goto loc_" + target + ";" + blanks
  }

  ghost predicate IsGoto(line: string, indent: string, cond: Option<string>, target: string) {
    exists blanks :: GotoIs(line, indent, cond, target, blanks)
  }

  lemma FrontIs(indent: string, cond: Option<string>, open: string)
    ensures indent + (if cond.Some? then "if (" + cond.value + ")" + open else "") == Front(indent, cond, ")" + open)
  {
    if cond.Some? {
      assert indent + ("if (" + cond.value + ")" + open) == indent + "if (" + cond.value + (")" + open);
    } else {
      assert indent + "" == indent;
    }
  }

  lemma GotoRendered(b: Branch)
    ensures Render(GOTO, b) == Front(b.indent, b.cond, ") ") + "goto loc_" + b.target + ";"
  {
    FrontIs(b.indent, b.cond, " ");
    assert ")" + " " == ") ";
  }

  lemma {:induction false} TrailingIs(s: string, blanks: string)
    requires AllWs(blanks) && s != "" && !IsWs(s[|s| - 1])
    ensures TrailingWs(s + blanks) == |s|
  {
    if blanks != "" {
      var most := blanks[..|blanks| - 1];
      TrailingIs(s, most);
      assert (s + blanks)[..|s + blanks| - 1] == s + most;
      assert (s + blanks)[|s + blanks| - 1] == blanks[|blanks| - 1];
    } else {
      assert s + blanks == s;
    }
  }

  lemma {:induction false} TrailingBlank(s: string)
    ensures AllWs(s[TrailingWs(s)..])
  {
    if s != "" && IsWs(s[|s| - 1]) {
      var most := s[..|s| - 1];
      TrailingBlank(most);
      assert s[TrailingWs(s)..] == most[TrailingWs(most)..] + [s[|s| - 1]];
    }
  }

  /** A line is read as a goto exactly when it is one, with this indent, condition and target. */
  lemma GotoLaw(line: string, b: Branch)
    ensures ParseGoto(line) == Some(b) <==> IsGoto(line, b.indent, b.cond, b.target)
  {
    if ParseGoto(line) == Some(b) {
      GotoRead(line, b);
    } else if IsGoto(line, b.indent, b.cond, b.target) {
      var blanks :| GotoIs(line, b.indent, b.cond, b.target, blanks);
      GotoWritten(line, b, blanks);
    }
  }

  lemma GotoRead(line: string, b: Branch)
    requires ParseGoto(line) == Some(b)
    ensures IsGoto(line, b.indent, b.cond, b.target)
  {
    var n := TrailingWs(line);
    ParseParts(GOTO, line[..n]);
    GotoRendered(b);
    TrailingBlank(line);
    BlankIs(b.indent);
    BlankIs(line[n..]);
    DigitsAre(b.target);
    assert line == line[..n] + line[n..];
    assert GotoIs(line, b.indent, b.cond, b.target, line[n..]);
  }

  lemma GotoWritten(line: string, b: Branch, blanks: string)
    requires GotoIs(line, b.indent, b.cond, b.target, blanks)
    ensures ParseGoto(line) == Some(b)
  {
    BlankIs(b.indent);
    BlankIs(blanks);
    DigitsAre(b.target);
    GotoRendered(b);
    ParseBack(GOTO, b);
    var s := Render(GOTO, b);
    assert s[|s| - 1] == ';';
    TrailingIs(s, blanks);
    assert line == s + blanks && line[..|s|] == s;
  }

  // ---- functions and labels ----------------------------------------------------------------------

  /** The line begins the function of that name. */
  predicate FuncIs(line: string, name: string, blanks: string, rest: string) {
    Blank(blanks) && line == "DEFINE_REX_FUNC(" + name + ")" + blanks + "{" + rest
  }

  /** The name is `sub_` and these digits, and the line defines it. */
  ghost predicate Defines(line: string, digits: string) {
    Digits(digits) && exists blanks, rest :: FuncIs(line, "sub_" + digits, blanks, rest)
  }

  predicate LabelIs(line: string, digits: string, rest: string) {
    Digits(digits) && line == "loc_" + digits + ":" + rest
  }

  /** The line declares the label with these digits. */
  ghost predicate DeclaresLabel(line: string, digits: string) {
    exists rest :: LabelIs(line, digits, rest)
  }

  lemma {:induction false} PrefixHex(s: string)
    ensures AllHex(s[..HexPrefix(s)]) && (HexPrefix(s) < |s| ==> !IsHex(s[HexPrefix(s)]))
  {
    if s != "" && IsHex(s[0]) {
      PrefixHex(s[1..]);
      var n := HexPrefix(s[1..]);
      assert s[..n + 1] == [s[0]] + s[1..][..n];
    }
  }

  /** Digits after a prefix, and what follows them. */
  lemma BetweenIs(line: string, start: string, digits: string, close: string -> bool, end: string)
    requires Digits(digits) && line == start + digits + end && end != "" && !IsHex(end[0]) && close(end)
    ensures Between(line, start, close) == Some(digits)
  {
    DigitsAre(digits);
    assert line == start + (digits + end);
    Cut(start, digits + end);
    HexPrefixIs(digits, end);
    Cut(digits, end);
  }

  lemma BetweenParts(line: string, start: string, digits: string, close: string -> bool) returns (end: string)
    requires Between(line, start, close) == Some(digits)
    ensures Digits(digits) && line == start + digits + end && close(end)
  {
    var rest := line[|start|..];
    var n := HexPrefix(rest);
    end := rest[n..];
    PrefixHex(rest);
    DigitsAre(digits);
    assert line == line[..|start|] + rest && rest == digits + end;
  }

  /** A line is read as the label that it declares, and as none when it declares none. */
  lemma LabelLaw(line: string, digits: string)
    ensures LabelAddr(line) == Some(digits) <==> DeclaresLabel(line, digits)
  {
    var close := (s: string) => StartsWith(s, ":");
    if LabelAddr(line) == Some(digits) {
      var end := BetweenParts(line, "loc_", digits, close);
      assert end == ":" + end[1..];
      assert LabelIs(line, digits, end[1..]);
    } else if DeclaresLabel(line, digits) {
      var rest :| LabelIs(line, digits, rest);
      var end := ":" + rest;
      assert end[..1] == ":";
      BetweenIs(line, "loc_", digits, close, end);
    }
  }

  /** A closing bracket, blanks and a brace. */
  predicate Opens(s: string) {
    StartsWith(s, ")") && StartsWith(s[1..][Leading(s[1..])..], "{")
  }

  lemma OpensParts(s: string) returns (blanks: string, rest: string)
    requires Opens(s)
    ensures Blank(blanks) && s == ")" + blanks + "{" + rest
  {
    var t := s[1..];
    var n := Leading(t);
    blanks, rest := t[..n], t[n + 1..];
    BlankIs(blanks);
    assert s == ")" + t && t == blanks + t[n..] && t[n..] == "{" + rest;
    Assoc(")", blanks, t[n..]);
    Assoc(")" + blanks, "{", rest);
  }

  lemma OpensIs(s: string, blanks: string, rest: string)
    requires Blank(blanks) && s == ")" + blanks + "{" + rest
    ensures Opens(s) && s[0] == ')'
  {
    BlankIs(blanks);
    var end := "{" + rest;
    assert s == ")" + (blanks + end);
    Cut(")", blanks + end);
    LeadingIs(blanks, end);
    Cut(blanks, end);
    assert end[..1] == "{";
  }

  /** A line is read as the function that it begins, and as none when it begins none. */
  lemma FuncLaw(line: string, digits: string)
    ensures FuncAddr(line) == Some(digits) <==> Defines(line, digits)
  {
    if FuncAddr(line) == Some(digits) {
      FuncRead(line, digits);
    } else if Defines(line, digits) {
      var blanks, rest :| FuncIs(line, "sub_" + digits, blanks, rest);
      FuncWritten(line, digits, blanks, rest);
    }
  }

  lemma FuncRead(line: string, digits: string)
    requires FuncAddr(line) == Some(digits)
    ensures Defines(line, digits)
  {
    var end := BetweenParts(line, "DEFINE_REX_FUNC(sub_", digits, (s: string) => Opens(s));
    var blanks, rest := OpensParts(end);
    LineOfFunc(digits, end, blanks, rest);
    assert FuncIs(line, "sub_" + digits, blanks, rest);
  }

  lemma LineOfFunc(digits: string, end: string, blanks: string, rest: string)
    requires end == ")" + blanks + "{" + rest
    ensures "DEFINE_REX_FUNC(sub_" + digits + end == "DEFINE_REX_FUNC(" + ("sub_" + digits) + ")" + blanks + "{" + rest
  {
    NameInBrackets(digits, end);
    FourParts("DEFINE_REX_FUNC(" + ("sub_" + digits), ")", blanks, "{", rest);
  }

  lemma FourParts(p: string, a: string, b: string, c: string, d: string)
    ensures p + (a + b + c + d) == p + a + b + c + d
  {
    Assoc(p, a, b);
    Assoc(p, a + b, c);
    Assoc(p, a + b + c, d);
  }

  lemma FuncWritten(line: string, digits: string, blanks: string, rest: string)
    requires Digits(digits) && FuncIs(line, "sub_" + digits, blanks, rest)
    ensures FuncAddr(line) == Some(digits)
  {
    var end := ")" + blanks + "{" + rest;
    OpensIs(end, blanks, rest);
    LineOfFunc(digits, end, blanks, rest);
    BetweenIs(line, "DEFINE_REX_FUNC(sub_", digits, (s: string) => Opens(s), end);
  }

  lemma NameInBrackets(digits: string, end: string)
    ensures "DEFINE_REX_FUNC(sub_" + digits + end == "DEFINE_REX_FUNC(" + ("sub_" + digits) + end
  {
    assert "DEFINE_REX_FUNC(" + "sub_" == "DEFINE_REX_FUNC(sub_";
  }

  // ---- what a rewritten line says ----------------------------------------------------------------

  /** t is s in upper case. */
  predicate InUpperCase(t: string, s: string) {
    |t| == |s| && forall i :: 0 <= i < |s| ==>
      t[i] == if 'a' <= s[i] <= 'f' then "ABCDEF"[s[i] as int - 'a' as int] else s[i]
  }

  lemma UpperIs(s: string)
    ensures InUpperCase(Upper(s), s)
  {
    forall i | 0 <= i < |s| && 'a' <= s[i] <= 'f' ensures Upper(s)[i] == "ABCDEF"[s[i] as int - 'a' as int] {
      UpperLetter(s[i]);
    }
  }

  lemma UpperLetter(c: char)
    requires 'a' <= c <= 'f'
    ensures UpperChar(c) == "ABCDEF"[c as int - 'a' as int]
  {
  }

  /** How far it is to the next opening bracket. */
  function ToBracket(s: string): (n: nat)
    ensures n <= |s|
  {
    if s == "" || s[0] == '(' then 0 else 1 + ToBracket(s[1..])
  }

  /** The name that a text calls, and what it calls it with. */
  function Called(s: string): string {
    s[..ToBracket(s)]
  }

  function CalledWith(s: string): string {
    s[ToBracket(s)..]
  }

  lemma {:induction false} CallIs(name: string, args: string)
    requires '(' !in name && args != "" && args[0] == '('
    ensures Called(name + args) == name && CalledWith(name + args) == args
  {
    if name == "" {
      assert name + args == args;
    } else {
      CallIs(name[1..], args);
      assert (name + args)[1..] == name[1..] + args;
      Cut(name, args);
      assert ToBracket(name + args) == 1 + ToBracket(name[1..] + args);
      Cut(name[1..], args);
    }
  }

  ghost predicate DefinedInFile(lines: seq<string>, digits: string) {
    exists i :: 0 <= i < |lines| && Defines(lines[i], digits)
  }

  /** Some line of the files defines the function with these digits. */
  ghost predicate DefinedIn(files: seq<seq<string>>, digits: string) {
    exists f :: 0 <= f < |files| && DefinedInFile(files[f], digits)
  }

  predicate Any<T>(s: seq<T>, p: T -> bool) {
    exists i :: 0 <= i < |s| && p(s[i])
  }

  lemma LastOne<T>(s: seq<T>, p: T -> bool)
    requires s != []
    ensures Any(s, p) <==> Any(s[..|s| - 1], p) || p(s[|s| - 1])
  {
    var most := s[..|s| - 1];
    if Any(s, p) {
      var i :| 0 <= i < |s| && p(s[i]);
      if i < |most| { assert p(most[i]); }
    }
    if Any(most, p) {
      var i :| 0 <= i < |most| && p(most[i]);
      assert p(s[i]);
    }
  }

  lemma {:induction false} NamesOfFile(lines: seq<string>, d: string)
    ensures d in NamesIn(lines) <==> DefinedInFile(lines, d)
  {
    if lines != [] {
      var p := (line: string) => FuncAddr(line) == Some(d);
      NamesOfFile(lines[..|lines| - 1], d);
      InFileIs(lines, d, p);
      InFileIs(lines[..|lines| - 1], d, p);
      LastOne(lines, p);
    }
  }

  lemma InFileIs(lines: seq<string>, d: string, p: string -> bool)
    requires forall line :: p(line) <==> FuncAddr(line) == Some(d)
    ensures DefinedInFile(lines, d) <==> Any(lines, p)
  {
    forall i | 0 <= i < |lines| ensures p(lines[i]) <==> Defines(lines[i], d) {
      FuncLaw(lines[i], d);
    }
  }

  lemma {:induction false} NamesAre(files: seq<seq<string>>, d: string)
    ensures d in NamesOf(files) <==> DefinedIn(files, d)
  {
    if files != [] {
      NamesAre(files[..|files| - 1], d);
      NamesOfFile(files[|files| - 1], d);
      LastFile(files, d);
    }
  }

  lemma LastFile(files: seq<seq<string>>, d: string)
    requires files != []
    ensures DefinedIn(files, d) <==> DefinedIn(files[..|files| - 1], d) || DefinedInFile(files[|files| - 1], d)
  {
    if DefinedIn(files, d) {
      var f :| 0 <= f < |files| && DefinedInFile(files[f], d);
      if f < |files| - 1 { assert DefinedInFile(files[..|files| - 1][f], d); }
    }
    if DefinedIn(files[..|files| - 1], d) {
      var f :| 0 <= f < |files| - 1 && DefinedInFile(files[..|files| - 1][f], d);
      assert DefinedInFile(files[f], d);
    }
  }

  /** A definition has this address, in whatever case its digits are. */
  ghost predicate Known(files: seq<seq<string>>, t: string) {
    exists d :: DefinedIn(files, d) && InUpperCase(t, d)
  }

  lemma OneUpper(t: string, s: string)
    requires InUpperCase(t, s)
    ensures t == Upper(s)
  {
    UpperIs(s);
  }

  lemma KnownIs(files: seq<seq<string>>, t: string)
    ensures Known(files, t) <==> t in FuncsOf(files)
  {
    NamesOfFiles(files);
    if Known(files, t) {
      var d :| DefinedIn(files, d) && InUpperCase(t, d);
      NamesAre(files, d);
      OneUpper(t, d);
    } else if t in FuncsOf(files) {
      var d :| d in NamesOf(files) && Upper(d) == t;
      NamesAre(files, d);
      UpperIs(d);
    }
  }

  /** What the rewriting of a goto says: a front, and the call that follows it. */
  ghost predicate Says(out: string, front: string, name: string, args: string) {
    |front| <= |out| && out[..|front|] == front
    && Called(out[|front|..]) == name && CalledWith(out[|front|..]) == args
  }

  lemma CallSays(front: string, name: string, args: string)
    requires '(' !in name && args != "" && args[0] == '('
    ensures Says(front + (name + args), front, name, args)
  {
    Cut(front, name + args);
    CallIs(name, args);
  }

  function End(cond: Option<string>): string {
    if cond.Some? then " }" else ""
  }

  /** What a tail call has behind its name, and a trap. */
  function CallArgs(cond: Option<string>): (s: string)
    ensures s != "" && s[0] == '('
  {
    "(ctx, base); return;" + End(cond)
  }

  function TrapArgs(target: string, cond: Option<string>): (s: string)
    ensures s != "" && s[0] == '('
  {
    "(\"rexglue0.8 unmapped branch to 0x" + target + "\"); return;" + End(cond)
  }

  lemma RenderedAction(defined: bool, b: Branch)
    ensures Render(Action(defined, b.cond.Some?), b)
         == Front(b.indent, b.cond, ") { ")
            + if defined then ("sub_" + b.target) + CallArgs(b.cond) else "REX_FATAL" + TrapArgs(b.target, b.cond)
  {
    var f := Action(defined, b.cond.Some?);
    FrontIs(b.indent, b.cond, f.open);
    assert ")" + " { " == ") { ";
    var front := Front(b.indent, b.cond, ") { ");
    Assoc(front, f.head, b.target);
    Assoc(front, f.head + b.target, f.tail);
    if !defined {
      TrapParts(b.target, f.tail, End(b.cond));
    }
  }

  lemma TrapParts(target: string, tail: string, end: string)
    requires tail == "\"); return;" + end
    ensures "REX_FATAL(\"rexglue0.8 unmapped branch to 0x" + target + tail
         == "REX_FATAL" + ("(\"rexglue0.8 unmapped branch to 0x" + target + "\"); return;" + end)
  {
    TrapHead();
    Regroup("REX_FATAL", "(\"rexglue0.8 unmapped branch to 0x", target, "\"); return;", end);
  }

  lemma TrapHead()
    ensures "REX_FATAL(\"rexglue0.8 unmapped branch to 0x" == "REX_FATAL" + "(\"rexglue0.8 unmapped branch to 0x"
  {
  }

  lemma Regroup(a: string, b: string, c: string, d: string, e: string)
    ensures a + b + c + (d + e) == a + (b + c + d + e)
  {
    FourParts(a, b, c, d, e);
    Assoc(a + b + c, d, e);
  }

  /** Line `line` is a goto with this indent, condition and target, and t, its target in upper case, is no label of the
      function that it is in. */
  ghost predicate IsLost(line: string, labels: Option<set<string>>, indent: string, cond: Option<string>, target: string,
                         t: string) {
    IsGoto(line, indent, cond, target) && InUpperCase(t, target) && labels.Some? && t !in labels.value
  }

  /**
   * What such a line becomes: under the same condition, a call of `sub_` and the address with the arguments ctx and base
   * when some line of the files defines that address, else a trap that names it, and then a return.
   */
  lemma RewrittenSays(files: seq<seq<string>>, line: string, labels: Option<set<string>>,
                      indent: string, cond: Option<string>, target: string, t: string)
    requires IsLost(line, labels, indent, cond, target, t)
    ensures var out, front := FixLine(line, labels, FuncsOf(files)), Front(indent, cond, ") { ");
            if Known(files, t) then Says(out, front, "sub_" + t, CallArgs(cond))
            else Says(out, front, "REX_FATAL", TrapArgs(t, cond))
  {
    var b := Branch(indent, cond, target);
    GotoLaw(line, b);
    OneUpper(t, target);
    KnownIs(files, t);
    DigitsOfGoto(line, b);
    ActionSays(t in FuncsOf(files), Branch(indent, cond, t));
  }

  lemma ActionSays(defined: bool, b: Branch)
    requires '(' !in "sub_" + b.target
    ensures Says(Render(Action(defined, b.cond.Some?), b), Front(b.indent, b.cond, ") { "),
                 if defined then "sub_" + b.target else "REX_FATAL",
                 if defined then CallArgs(b.cond) else TrapArgs(b.target, b.cond))
  {
    RenderedAction(defined, b);
    if defined {
      CallSays(Front(b.indent, b.cond, ") { "), "sub_" + b.target, CallArgs(b.cond));
    } else {
      CallSays(Front(b.indent, b.cond, ") { "), "REX_FATAL", TrapArgs(b.target, b.cond));
    }
  }

  /** The called name is a defined one. */
  ghost predicate NamesDefined(files: seq<seq<string>>, name: string) {
    exists d :: DefinedIn(files, d) && name == "sub_" + d
  }

  /** And it is so exactly when one of the definitions of the address is spelled in upper case. */
  lemma CalledIsDefined(files: seq<seq<string>>, line: string, labels: Option<set<string>>,
                        indent: string, cond: Option<string>, target: string, t: string)
    requires IsLost(line, labels, indent, cond, target, t)
    ensures var out, front := FixLine(line, labels, FuncsOf(files)), Front(indent, cond, ") { ");
            |front| <= |out|
            && (NamesDefined(files, Called(out[|front|..])) <==>
                exists d :: DefinedIn(files, d) && InUpperCase(t, d) && InUpperCase(d, d))
  {
    RewrittenSays(files, line, labels, indent, cond, target, t);
    var out, front := FixLine(line, labels, FuncsOf(files)), Front(indent, cond, ") { ");
    NameIsDefined(files, Called(out[|front|..]), target, t);
  }

  lemma NameIsDefined(files: seq<seq<string>>, name: string, target: string, t: string)
    requires InUpperCase(t, target) && name == if Known(files, t) then "sub_" + t else "REX_FATAL"
    ensures NamesDefined(files, name) <==> exists d :: DefinedIn(files, d) && InUpperCase(t, d) && InUpperCase(d, d)
  {
    SpelledIs(files, t, target);
    OnlyName(files, t);
    if DefinedIn(files, t) {
      assert InUpperCase(t, t);
    }
  }

  lemma OnlyName(files: seq<seq<string>>, t: string)
    ensures NamesDefined(files, "sub_" + t) <==> DefinedIn(files, t)
    ensures !NamesDefined(files, "REX_FATAL")
  {
    forall d: string ensures "sub_" + d != "REX_FATAL" && ("sub_" + d == "sub_" + t ==> d == t) {
      assert ("sub_" + d)[0] == 's';
      Cut("sub_", d);
      Cut("sub_", t);
    }
  }

  lemma DigitsOfGoto(line: string, b: Branch)
    requires ParseGoto(line) == Some(b)
    ensures '(' !in "sub_" + Upper(b.target)
  {
    GotoIsPlain(line);
    UpperHex(b.target);
  }

  /** An address in upper case is defined as spelled exactly when a definition is its own upper case. */
  lemma SpelledIs(files: seq<seq<string>>, t: string, target: string)
    requires InUpperCase(t, target)
    ensures DefinedIn(files, t) <==> exists d :: DefinedIn(files, d) && InUpperCase(t, d) && InUpperCase(d, d)
  {
    if DefinedIn(files, t) {
      assert InUpperCase(t, t);
    }
    if d :| DefinedIn(files, d) && InUpperCase(t, d) && InUpperCase(d, d) {
      OneUpper(t, d);
      OneUpper(d, d);
    }
  }

  /** Any other line stays as it is. */
  lemma OthersSay(line: string, labels: Option<set<string>>, funcs: set<string>)
    ensures FixLine(line, labels, funcs) == line
         || exists indent, cond, target, t :: IsLost(line, labels, indent, cond, target, t)
  {
    if IsUndeclared(line, labels) {
      var b := ParseGoto(line).value;
      GotoLaw(line, b);
      UpperIs(b.target);
      assert IsLost(line, labels, b.indent, b.cond, b.target, Upper(b.target));
    }
  }
}
