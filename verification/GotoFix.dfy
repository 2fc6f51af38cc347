/**
 * The rewriting of gotos to labels that their function does not define (tools/fix_recomp_labels.py:24-102), on
 * the text of the lines.
 */
module GotoFix {
  import opened Words

  // ---- text --------------------------------------------------------------------------------------

  predicate IsWs(c: char) {
    c == ' ' || '\t' <= c <= '\r' || '\U{1C}' <= c <= '\U{1F}' || c == '\U{85}' || c == '\U{A0}'
  }

  predicate IsHex(c: char) {
    '0' <= c <= '9' || 'A' <= c <= 'F' || 'a' <= c <= 'f'
  }

  function UpperChar(c: char): char {
    if 'a' <= c <= 'f' then c - 'a' + 'A' else c
  }

  function Upper(s: string): (r: string)
    ensures |r| == |s|
  {
    seq(|s|, i requires 0 <= i < |s| => UpperChar(s[i]))
  }

  predicate AllWs(s: string) {
    forall i :: 0 <= i < |s| ==> IsWs(s[i])
  }

  predicate AllHex(s: string) {
    forall i :: 0 <= i < |s| ==> IsHex(s[i])
  }

  predicate StartsWith(s: string, p: string) {
    |p| <= |s| && s[..|p|] == p
  }

  predicate EndsWith(s: string, p: string) {
    |p| <= |s| && s[|s| - |p|..] == p
  }

  /** The length of the longest whitespace prefix. */
  function Leading(s: string): (n: nat)
    ensures n <= |s| && AllWs(s[..n]) && (n < |s| ==> !IsWs(s[n]))
  {
    if s == "" || !IsWs(s[0]) then 0
    else
      var n := Leading(s[1..]);
      assert s[..n + 1] == [s[0]] + s[1..][..n];
      n + 1
  }

  /** Where the longest suffix of hex digits, or of whitespace, begins. */
  function HexSuffix(s: string): (n: nat)
    ensures n <= |s| && AllHex(s[n..]) && (n > 0 ==> !IsHex(s[n - 1]))
  {
    if s == "" || !IsHex(s[|s| - 1]) then |s|
    else
      var n := HexSuffix(s[..|s| - 1]);
      assert s[n..] == s[..|s| - 1][n..] + [s[|s| - 1]];
      n
  }

  function TrailingWs(s: string): (n: nat)
    ensures n <= |s| && (n > 0 ==> !IsWs(s[n - 1]))
  {
    if s == "" || !IsWs(s[|s| - 1]) then |s| else TrailingWs(s[..|s| - 1])
  }

  // ---- shapes of lines ---------------------------------------------------------------------------

  /** A line that branches: its indent, its condition if it has one, and the target's hex digits. */
  datatype Branch = Branch(indent: string, cond: Option<string>, target: string)

  /** What stands around condition and target: `open` after the condition, `head` and `tail` around the target. */
  datatype Shape = Shape(open: string, head: string, tail: string)

  /** The line of a shape. */
  function Render(f: Shape, b: Branch): string {
    b.indent + (if b.cond.Some? then "if (" + b.cond.value + ")" + f.open else "") + f.head + b.target + f.tail
  }

  /** What is before the head: an indent, and perhaps a condition. */
  function ParseFront(f: Shape, front: string): Option<(string, Option<string>)> {
    var n := Leading(front);
    var rest := front[n..];
    if rest == "" then Some((front[..n], None))
    else if StartsWith(rest, "if (") && EndsWith(rest, ")" + f.open) && |rest| >= 4 + 1 + |f.open| then
      Some((front[..n], Some(rest[4..|rest| - 1 - |f.open|])))
    else None
  }

  /** The branch that a line of this shape is, read from its end. */
  function Parse(f: Shape, line: string): Option<Branch> {
    if EndsWith(line, f.tail) then ParseBody(f, line[..|line| - |f.tail|]) else None
  }

  function ParseBody(f: Shape, body: string): Option<Branch> {
    var h := HexSuffix(body);
    if h == |body| || !EndsWith(body[..h], f.head) then None
    else
      var front := ParseFront(f, body[..h - |f.head|]);
      if front.None? then None else Some(Branch(front.value.0, front.value.1, body[h..]))
  }

  /** A shape whose branches can be read back: the head starts with a letter and ends before the digits. */
  predicate Readable(f: Shape) {
    f.head != "" && !IsWs(f.head[0]) && !IsHex(f.head[|f.head| - 1])
  }

  predicate WellFormed(b: Branch) {
    AllWs(b.indent) && b.target != "" && AllHex(b.target)
  }

  lemma {:induction false} LeadingIs(indent: string, rest: string)
    requires AllWs(indent) && (rest != "" ==> !IsWs(rest[0]))
    ensures Leading(indent + rest) == |indent|
  {
    if indent != "" {
      LeadingIs(indent[1..], rest);
      assert (indent + rest)[1..] == indent[1..] + rest;
    } else {
      assert indent + rest == rest;
    }
  }

  lemma {:induction false} HexSuffixIs(front: string, hex: string)
    requires AllHex(hex) && (front != "" ==> !IsHex(front[|front| - 1]))
    ensures HexSuffix(front + hex) == |front|
  {
    var s := front + hex;
    if hex != "" {
      var most := hex[..|hex| - 1];
      HexSuffixIs(front, most);
      assert s[..|s| - 1] == front + most;
      assert s[|s| - 1] == hex[|hex| - 1];
    } else {
      assert s == front;
    }
  }

  lemma Cut(a: string, b: string)
    ensures (a + b)[..|a|] == a && (a + b)[|a|..] == b
  {
  }

  lemma FrontBack(f: Shape, indent: string, cond: Option<string>)
    requires AllWs(indent)
    ensures ParseFront(f, indent + if cond.Some? then "if (" + cond.value + ")" + f.open else "") == Some((indent, cond))
  {
    var rest := if cond.Some? then "if (" + cond.value + ")" + f.open else "";
    LeadingIs(indent, rest);
    Cut(indent, rest);
    if cond.Some? {
      Inside(cond.value, f.open, rest);
    }
  }

  /** A condition between its brackets. */
  lemma Inside(cond: string, open: string, rest: string)
    requires rest == "if (" + cond + ")" + open
    ensures rest[0] == 'i' && StartsWith(rest, "if (") && EndsWith(rest, ")" + open)
    ensures |rest| == 4 + |cond| + 1 + |open| && rest[4..|rest| - 1 - |open|] == cond
  {
    var start, end := "if (" + cond, ")" + open;
    assert rest == start + end;
    Cut(start, end);
    Cut("if (", cond);
    assert rest[..4] == start[..4];
    assert rest[4..|start|] == start[4..];
  }

  /** Reading a rendered branch gives it back, whatever its condition says. */
  lemma ParseBack(f: Shape, b: Branch)
    requires Readable(f) && WellFormed(b)
    ensures Parse(f, Render(f, b)) == Some(b)
  {
    var front := b.indent + if b.cond.Some? then "if (" + b.cond.value + ")" + f.open else "";
    var body := front + f.head + b.target;
    assert Render(f, b) == body + f.tail;
    Cut(body, f.tail);
    FrontBack(f, b.indent, b.cond);
    BodyBack(f, front, b);
  }

  lemma BodyBack(f: Shape, front: string, b: Branch)
    requires Readable(f) && WellFormed(b) && ParseFront(f, front) == Some((b.indent, b.cond))
    ensures ParseBody(f, front + f.head + b.target) == Some(b)
  {
    var before := front + f.head;
    HexSuffixIs(before, b.target);
    Cut(before, b.target);
    Cut(front, f.head);
    ParseBodyIs(f, before + b.target, before, front);
  }

  lemma ParseBodyIs(f: Shape, body: string, before: string, front: string)
    requires HexSuffix(body) == |before| < |body| && body[..|before|] == before
    requires EndsWith(before, f.head) && before[..|before| - |f.head|] == front && ParseFront(f, front).Some?
    ensures ParseBody(f, body) == Some(Branch(ParseFront(f, front).value.0, ParseFront(f, front).value.1, body[|before|..]))
  {
    assert body[..|before| - |f.head|] == before[..|before| - |f.head|];
  }

  // ---- the lines that matter ---------------------------------------------------------------------

  const GOTO: Shape := Shape(" ", "goto loc_", ";")

  /** A goto, conditional or not, with whitespace behind it or not. */
  function ParseGoto(line: string): Option<Branch> {
    Parse(GOTO, line[..TrailingWs(line)])
  }

  /** What an undeclared goto becomes: a tail call of a defined function, or a trap. */
  function Action(defined: bool, conditional: bool): Shape {
    Shape(if conditional then " { " else "",
          if defined then "sub_" else "REX_FATAL(\"rexglue0.8 unmapped branch to 0x",
          (if defined then "(ctx, base); return;" else "\"); return;") + if conditional then " }" else "")
  }

  function HexPrefix(s: string): (n: nat)
    ensures n <= |s|
  {
    if s == "" || !IsHex(s[0]) then 0 else 1 + HexPrefix(s[1..])
  }

  /** The hex digits that follow a prefix, when `close` comes after them. */
  function Between(line: string, start: string, close: string -> bool): Option<string> {
    if !StartsWith(line, start) then None
    else
      var rest := line[|start|..];
      var n := HexPrefix(rest);
      if n > 0 && close(rest[n..]) then Some(rest[..n]) else None
  }

  /** The address of the function that a line begins. */
  function FuncAddr(line: string): Option<string> {
    Between(line, "DEFINE_REX_FUNC(sub_", (s: string) => StartsWith(s, ")") && StartsWith(s[1..][Leading(s[1..])..], "{"))
  }

  /** The address of the label that a line declares. */
  function LabelAddr(line: string): Option<string> {
    Between(line, "loc_", (s: string) => StartsWith(s, ":"))
  }

  /** What the collection of functions and labels sees of a line. */
  datatype Role = Begins(addr: string) | Ends | Declares(addr: string) | Other

  function RoleOf(line: string): Role {
    var func, name := FuncAddr(line), LabelAddr(line);
    if func.Some? then Begins(Upper(func.value))
    else if line == "}" then Ends
    else if name.Some? then Declares(Upper(name.value))
    else Other
  }

  function Roles(lines: seq<string>): (r: seq<Role>)
    ensures |r| == |lines|
  {
    seq(|lines|, i requires 0 <= i < |lines| => RoleOf(lines[i]))
  }

  // ---- functions and their labels ----------------------------------------------------------------

  /** A function's lines [start, end) and the labels it declares. */
  datatype Range = Range(start: nat, end: nat, labels: set<string>)

  /** The functions from line i on; `start` is that of the function that line i is in. */
  function Ranges(roles: seq<Role>, i: nat, start: Option<nat>, labels: set<string>): seq<Range>
    requires i <= |roles|
    decreases |roles| - i
  {
    if i == |roles| then []
    else if roles[i].Begins? then Ranges(roles, i + 1, Some(i), {})
    else if start.None? then Ranges(roles, i + 1, None, labels)
    else if roles[i].Ends? then [Range(start.value, i + 1, labels)] + Ranges(roles, i + 1, None, labels)
    else if roles[i].Declares? then Ranges(roles, i + 1, start, labels + {roles[i].addr})
    else Ranges(roles, i + 1, start, labels)
  }

  /** The functions of a file. */
  function Functions(lines: seq<string>): seq<Range> {
    Ranges(Roles(lines), 0, None, {})
  }

  /** The labels that a goto in line i may name; None outside functions. */
  function LabelsIn(ranges: seq<Range>, i: nat): Option<set<string>> {
    if ranges == [] then None
    else
      var last := ranges[|ranges| - 1];
      if last.start <= i < last.end then Some(last.labels) else LabelsIn(ranges[..|ranges| - 1], i)
  }

  function LabelsAt(lines: seq<string>, i: nat): Option<set<string>> {
    LabelsIn(Functions(lines), i)
  }

  // ---- the rewriting -----------------------------------------------------------------------------

  /** The line is a goto to a label that its function does not declare. */
  predicate IsUndeclared(line: string, labels: Option<set<string>>) {
    labels.Some? && ParseGoto(line).Some? && Upper(ParseGoto(line).value.target) !in labels.value
  }

  function Rewritten(b: Branch, funcs: set<string>): string {
    var target := Upper(b.target);
    Render(Action(target in funcs, b.cond.Some?), Branch(b.indent, b.cond, target))
  }

  function FixLine(line: string, labels: Option<set<string>>, funcs: set<string>): string {
    if IsUndeclared(line, labels) then Rewritten(ParseGoto(line).value, funcs) else line
  }

  function Fixed(lines: seq<string>, funcs: set<string>): (r: seq<string>)
    ensures |r| == |lines|
  {
    seq(|lines|, i requires 0 <= i < |lines| => FixLine(lines[i], LabelsAt(lines, i), funcs))
  }

  /** The addresses of the functions that lines begin. */
  function FuncsIn(roles: seq<Role>): set<string> {
    if roles == [] then {}
    else
      var last := roles[|roles| - 1];
      FuncsIn(roles[..|roles| - 1]) + if last.Begins? then {last.addr} else {}
  }

  function FuncsOf(files: seq<seq<string>>): set<string> {
    if files == [] then {} else FuncsOf(files[..|files| - 1]) + FuncsIn(Roles(files[|files| - 1]))
  }

  method CollectFunctions(files: seq<seq<string>>) returns (funcs: set<string>)
    ensures funcs == FuncsOf(files)
  {
    funcs := {};
    var f := 0;
    while f < |files|
      invariant f <= |files| && funcs == FuncsOf(files[..f])
    {
      funcs := CollectFile(files[f], funcs);
      assert files[..f + 1][..f] == files[..f];
      f := f + 1;
    }
    assert files[..f] == files;
  }

  method CollectFile(lines: seq<string>, before: set<string>) returns (funcs: set<string>)
    ensures funcs == before + FuncsIn(Roles(lines))
  {
    funcs := before;
    ghost var roles := Roles(lines);
    var i := 0;
    while i < |lines|
      invariant i <= |lines| && funcs == before + FuncsIn(roles[..i])
    {
      var addr := FuncAddr(lines[i]);
      FuncsStep(roles, i);
      assert roles[i] == RoleOf(lines[i]);
      if addr.Some? { funcs := funcs + {Upper(addr.value)}; }
      i := i + 1;
    }
    assert roles[..i] == roles;
  }

  lemma FuncsStep(roles: seq<Role>, i: nat)
    requires i < |roles|
    ensures FuncsIn(roles[..i + 1]) == FuncsIn(roles[..i]) + if roles[i].Begins? then {roles[i].addr} else {}
  {
    assert roles[..i + 1][..i] == roles[..i];
  }

  method CollectRanges(lines: seq<string>) returns (ranges: seq<Range>)
    ensures ranges == Functions(lines)
  {
    ranges := [];
    ghost var roles := Roles(lines);
    var start: Option<nat>, labels: set<string> := None, {};
    var i := 0;
    while i < |lines|
      invariant i <= |lines| && ranges + Ranges(roles, i, start, labels) == Ranges(roles, 0, None, {})
    {
      var line := lines[i];
      assert roles[i] == RoleOf(line);
      if FuncAddr(line).Some? {
        start, labels := Some(i), {};
      } else if start.Some? && line == "}" {
        Assoc(ranges, [Range(start.value, i + 1, labels)], Ranges(roles, i + 1, None, labels));
        ranges := ranges + [Range(start.value, i + 1, labels)];
        start := None;
      } else {
        var name := LabelAddr(line);
        if name.Some? && start.Some? { labels := labels + {Upper(name.value)}; }
      }
      i := i + 1;
    }
  }

  /** The rewriting of one file, in place. */
  method FixFile(lines: array<string>, funcs: set<string>) returns (changed: bool)
    modifies lines
    ensures lines[..] == Fixed(old(lines[..]), funcs)
    ensures !changed ==> lines[..] == old(lines[..])
  {
    ghost var before, fixed := lines[..], Fixed(lines[..], funcs);
    var ranges := CollectRanges(lines[..]);
    changed := false;
    var i := 0;
    while i < lines.Length
      invariant i <= lines.Length
      invariant forall k :: 0 <= k < i ==> lines[k] == fixed[k]
      invariant forall k :: i <= k < lines.Length ==> lines[k] == before[k]
      invariant !changed ==> lines[..] == before
    {
      var line, did := FixOne(lines[i], LabelsIn(ranges, i), funcs);
      FixedAt(before, funcs, i);
      if did {
        lines[i] := line;
        changed := true;
      }
      i := i + 1;
    }
  }

  lemma FixedAt(lines: seq<string>, funcs: set<string>, i: nat)
    requires i < |lines|
    ensures Fixed(lines, funcs)[i] == FixLine(lines[i], LabelsAt(lines, i), funcs)
  {
  }

  method FixOne(line: string, labels: Option<set<string>>, funcs: set<string>) returns (out: string, changed: bool)
    ensures out == FixLine(line, labels, funcs) && (!changed ==> out == line)
  {
    out, changed := line, false;
    if labels.Some? {
      var b := ParseGoto(line);
      if b.Some? && Upper(b.value.target) !in labels.value {
        out, changed := Rewritten(b.value, funcs), true;
      }
    }
  }

  // ---- rewritten lines are neither gotos nor structure -------------------------------------------

  /** A line that begins with an indent and then one of these letters begins and ends nothing. */
  predicate StartsPlain(line: string) {
    line != "" && (IsWs(line[0]) || line[0] == 'i' || line[0] == 'g' || line[0] == 's' || line[0] == 'R')
  }

  lemma PlainHasNoRole(line: string)
    requires StartsPlain(line)
    ensures RoleOf(line) == Other
  {
    assert "DEFINE_REX_FUNC(sub_"[0] == 'D' && "loc_"[0] == 'l';
    assert |line| >= 20 ==> line[..20][0] == line[0];
    assert |line| >= 4 ==> line[..4][0] == line[0];
  }

  /** The parts of a parsed line. */
  lemma ParseParts(f: Shape, line: string)
    requires Parse(f, line).Some?
    ensures var b := Parse(f, line).value; WellFormed(b) && Render(f, b) == line
  {
    var body := line[..|line| - |f.tail|];
    BodyParts(f, body);
    Joined(line, |body|, f.tail);
  }

  lemma Joined(s: string, n: nat, end: string)
    requires n <= |s| && s[n..] == end
    ensures s == s[..n] + end
  {
  }

  lemma BodyParts(f: Shape, body: string)
    requires ParseBody(f, body).Some?
    ensures var b := ParseBody(f, body).value;
            WellFormed(b)
            && body == b.indent + (if b.cond.Some? then "if (" + b.cond.value + ")" + f.open else "") + f.head + b.target
  {
    var h := HexSuffix(body);
    var front := body[..h - |f.head|];
    assert body == body[..h] + body[h..];
    assert body[..h] == front + f.head;
    FrontParts(f, front);
  }

  lemma FrontParts(f: Shape, front: string)
    requires ParseFront(f, front).Some?
    ensures var (indent, cond) := ParseFront(f, front).value;
            AllWs(indent) && front == indent + if cond.Some? then "if (" + cond.value + ")" + f.open else ""
  {
    var n := Leading(front);
    Joined(front, n, front[n..]);
    RestParts(f, front[n..]);
  }

  lemma RestParts(f: Shape, rest: string)
    ensures rest != "" && StartsWith(rest, "if (") && EndsWith(rest, ")" + f.open) && |rest| >= 4 + 1 + |f.open| ==>
              rest == "if (" + rest[4..|rest| - 1 - |f.open|] + ")" + f.open
  {
    if StartsWith(rest, "if (") && EndsWith(rest, ")" + f.open) && |rest| >= 4 + 1 + |f.open| {
      CondParts(rest, f.open);
    }
  }

  lemma CondParts(rest: string, open: string)
    requires StartsWith(rest, "if (") && EndsWith(rest, ")" + open) && |rest| >= 4 + 1 + |open|
    ensures rest == "if (" + rest[4..|rest| - 1 - |open|] + ")" + open
  {
    var end := ")" + open;
    var c := rest[4..|rest| - |end|];
    Joined(rest, |rest| - |end|, end);
    assert rest[..|rest| - |end|] == "if (" + c;
    Assoc("if (" + c, ")", open);
  }

  lemma RenderStart(f: Shape, b: Branch)
    requires WellFormed(b) && f.head != ""
    ensures var s := Render(f, b);
            s != "" && (IsWs(s[0]) || s[0] == 'i' || s[0] == f.head[0])
  {
    var rest := (if b.cond.Some? then "if (" + b.cond.value + ")" + f.open else "") + f.head + b.target + f.tail;
    if b.indent == "" {
      assert Render(f, b)[0] == if b.cond.Some? then 'i' else f.head[0];
    } else {
      assert Render(f, b)[0] == b.indent[0];
    }
  }

  lemma GotoIsPlain(line: string)
    requires ParseGoto(line).Some?
    ensures StartsPlain(line) && WellFormed(ParseGoto(line).value)
  {
    var trimmed := line[..TrailingWs(line)];
    ParseParts(GOTO, trimmed);
    RenderStart(GOTO, ParseGoto(line).value);
    assert trimmed[0] == line[0];
  }

  lemma UpperHex(s: string)
    requires AllHex(s)
    ensures AllHex(Upper(s)) && Upper(Upper(s)) == Upper(s)
  {
  }

  /** The branch that a rewritten line stands for. */
  function Target(b: Branch): Branch {
    b.(target := Upper(b.target))
  }

  lemma TailEnds(defined: bool, conditional: bool)
    ensures var t := Action(defined, conditional).tail;
            if conditional then |t| > 0 && t[|t| - 1] == '}' else |t| > 1 && t[|t| - 1] == ';' && t[|t| - 2] == 'n'
  {
  }

  lemma RewrittenIsPlain(b: Branch, funcs: set<string>)
    requires WellFormed(b)
    ensures StartsPlain(Rewritten(b, funcs)) && ParseGoto(Rewritten(b, funcs)).None?
  {
    var t := Target(b);
    var f := Action(t.target in funcs, b.cond.Some?);
    var line := Render(f, t);
    UpperHex(b.target);
    RenderStart(f, t);
    TailEnds(t.target in funcs, b.cond.Some?);
    EndNotGoto(line, f.tail, |line| - |f.tail|);
  }

  /** A line that ends in a brace, or in a word and a semicolon, is no goto. */
  lemma EndNotGoto(line: string, tail: string, n: nat)
    requires n + |tail| == |line| && line[n..] == tail && |tail| > 1
    requires tail[|tail| - 1] == '}' || (tail[|tail| - 1] == ';' && tail[|tail| - 2] == 'n')
    ensures ParseGoto(line).None?
  {
    assert line[|line| - 1] == tail[|tail| - 1] && line[|line| - 2] == tail[|tail| - 2];
    assert TrailingWs(line) == |line| && line[..|line|] == line;
    assert line[|line| - 1..] == [line[|line| - 1]];
    var body := line[..|line| - 1];
    assert body[|body| - 1] == tail[|tail| - 2];
  }

  // ---- what the rewriting keeps ------------------------------------------------------------------

  lemma FixLineKeeps(line: string, labels: Option<set<string>>, funcs: set<string>)
    ensures RoleOf(FixLine(line, labels, funcs)) == RoleOf(line)
    ensures !IsUndeclared(FixLine(line, labels, funcs), labels)
  {
    if IsUndeclared(line, labels) {
      GotoIsPlain(line);
      RewrittenIsPlain(ParseGoto(line).value, funcs);
      PlainHasNoRole(line);
      PlainHasNoRole(Rewritten(ParseGoto(line).value, funcs));
    }
  }

  /** The rewritten file has the same functions and the same labels in them. */
  lemma FixKeepsRoles(lines: seq<string>, funcs: set<string>)
    ensures Roles(Fixed(lines, funcs)) == Roles(lines)
  {
    var out := Fixed(lines, funcs);
    forall i | 0 <= i < |lines| ensures Roles(out)[i] == Roles(lines)[i] {
      FixedAt(lines, funcs, i);
      FixLineKeeps(lines[i], LabelsAt(lines, i), funcs);
    }
  }

  /** Afterwards no goto names a label that its function does not declare; the line count is the same. */
  lemma NoneUndeclared(lines: seq<string>, funcs: set<string>, i: nat)
    requires i < |lines|
    ensures var out := Fixed(lines, funcs); |out| == |lines| && !IsUndeclared(out[i], LabelsAt(out, i))
  {
    FixKeepsRoles(lines, funcs);
    FixedAt(lines, funcs, i);
    FixLineKeeps(lines[i], LabelsAt(lines, i), funcs);
  }

  /** Exactly the gotos to undeclared labels are changed. */
  lemma OthersUnchanged(lines: seq<string>, funcs: set<string>, i: nat)
    requires i < |lines|
    ensures Fixed(lines, funcs)[i] == lines[i] <==> !IsUndeclared(lines[i], LabelsAt(lines, i))
  {
    FixedAt(lines, funcs, i);
    if IsUndeclared(lines[i], LabelsAt(lines, i)) {
      GotoIsPlain(lines[i]);
      RewrittenIsPlain(ParseGoto(lines[i]).value, funcs);
    }
  }

  /** A second pass changes nothing, also with the functions collected anew. */
  lemma Idempotent(lines: seq<string>, funcs: set<string>, again: set<string>)
    ensures Fixed(Fixed(lines, funcs), again) == Fixed(lines, funcs)
    ensures FuncsIn(Roles(Fixed(lines, funcs))) == FuncsIn(Roles(lines))
  {
    var out := Fixed(lines, funcs);
    FixKeepsRoles(lines, funcs);
    forall i | 0 <= i < |out| ensures Fixed(out, again)[i] == out[i] {
      NoneUndeclared(lines, funcs, i);
      FixedAt(out, again, i);
    }
  }

  // ---- what lines do -----------------------------------------------------------------------------

  datatype Dest = ToLabel(addr: string) | ToFunction(addr: string) | ToNowhere(addr: string)

  /** A line goes on to the next, or, when its condition holds, elsewhere. */
  datatype Flow = Straight | Away(cond: Option<string>, dest: Dest)

  /** The tail calls and traps that the rewriting writes. */
  function ParseAction(line: string): Option<(Branch, bool)> {
    var call, callIf := Parse(Action(true, false), line), Parse(Action(true, true), line);
    var trap, trapIf := Parse(Action(false, false), line), Parse(Action(false, true), line);
    if call.Some? && call.value.cond.None? then Some((call.value, true))
    else if callIf.Some? && callIf.value.cond.Some? then Some((callIf.value, true))
    else if trap.Some? && trap.value.cond.None? then Some((trap.value, false))
    else if trapIf.Some? && trapIf.value.cond.Some? then Some((trapIf.value, false))
    else None
  }

  /**
   * A goto to a declared label goes there. A goto to the entry of another function means to transfer to it, as
   * a call of it that is followed by a return does; any other goes nowhere, as a trap does.
   */
  function FlowOf(line: string, labels: Option<set<string>>, funcs: set<string>): Flow {
    var b := ParseGoto(line);
    if b.Some? && labels.Some? then
      var t := Upper(b.value.target);
      Away(b.value.cond, if t in labels.value then ToLabel(t) else if t in funcs then ToFunction(t) else ToNowhere(t))
    else
      var a := ParseAction(line);
      if a.Some? then
        var t := Upper(a.value.0.target);
        Away(a.value.0.cond, if a.value.1 then ToFunction(t) else ToNowhere(t))
      else Straight
  }

  lemma ActionReadable(defined: bool, conditional: bool)
    ensures Readable(Action(defined, conditional))
  {
  }

  /** The four shapes end differently. */
  lemma OtherShape(line: string, f: Shape, other: Shape, k: nat)
    requires EndsWith(line, f.tail) && k < |f.tail| && k < |other.tail|
    requires f.tail[|f.tail| - 1 - k] != other.tail[|other.tail| - 1 - k]
    ensures Parse(other, line).None?
  {
    LastChar(line, f.tail, k);
    if EndsWith(line, other.tail) {
      LastChar(line, other.tail, k);
    }
  }

  lemma LastChar(line: string, tail: string, k: nat)
    requires EndsWith(line, tail) && k < |tail|
    ensures k < |line| && line[|line| - 1 - k] == tail[|tail| - 1 - k]
  {
    assert line[|line| - |tail|..][|tail| - 1 - k] == line[|line| - 1 - k];
  }

  /** Where the ends of the four shapes differ from each other. */
  lemma TailsDiffer()
    ensures forall x: bool :: |Action(x, false).tail| > 10 && |Action(x, true).tail| > 12
    ensures forall x: bool, y: bool ::
      Action(x, true).tail[|Action(x, true).tail| - 1] != Action(y, false).tail[|Action(y, false).tail| - 1]
    ensures Action(true, false).tail[|Action(true, false).tail| - 11] != Action(false, false).tail[|Action(false, false).tail| - 11]
    ensures Action(true, true).tail[|Action(true, true).tail| - 13] != Action(false, true).tail[|Action(false, true).tail| - 13]
  {
  }

  lemma ActionBack(b: Branch, defined: bool)
    requires WellFormed(b)
    ensures ParseAction(Render(Action(defined, b.cond.Some?), b)) == Some((b, defined))
  {
    var conditional := b.cond.Some?;
    var line := Render(Action(defined, conditional), b);
    ActionReadable(defined, conditional);
    ParseBack(Action(defined, conditional), b);
    assert EndsWith(line, Action(defined, conditional).tail);
    OnlyShape(line, defined, conditional);
  }

  lemma OnlyShape(line: string, defined: bool, conditional: bool)
    requires EndsWith(line, Action(defined, conditional).tail)
    ensures Parse(Action(true, !conditional), line).None? && Parse(Action(false, !conditional), line).None?
    ensures Parse(Action(!defined, conditional), line).None?
  {
    NotOtherBrace(line, defined, conditional, true);
    NotOtherBrace(line, defined, conditional, false);
    NotOtherKind(line, defined, conditional);
  }

  lemma NotOtherBrace(line: string, defined: bool, conditional: bool, other: bool)
    requires EndsWith(line, Action(defined, conditional).tail)
    ensures Parse(Action(other, !conditional), line).None?
  {
    TailsDiffer();
    OtherShape(line, Action(defined, conditional), Action(other, !conditional), 0);
  }

  lemma NotOtherKind(line: string, defined: bool, conditional: bool)
    requires EndsWith(line, Action(defined, conditional).tail)
    ensures Parse(Action(!defined, conditional), line).None?
  {
    TailsDiffer();
    OtherShape(line, Action(defined, conditional), Action(!defined, conditional), if conditional then 12 else 10);
  }

  /** A rewritten goto does what the goto meant; a tail call names a defined function. */
  lemma FlowKept(line: string, labels: Option<set<string>>, funcs: set<string>)
    ensures FlowOf(FixLine(line, labels, funcs), labels, funcs) == FlowOf(line, labels, funcs)
    ensures IsUndeclared(line, labels) ==>
      var b := ParseGoto(line).value;
      ParseAction(FixLine(line, labels, funcs)) == Some((Target(b), Upper(b.target) in funcs))
  {
    if IsUndeclared(line, labels) {
      var b := ParseGoto(line).value;
      GotoIsPlain(line);
      RewrittenIsPlain(b, funcs);
      UpperHex(b.target);
      ActionBack(Target(b), Upper(b.target) in funcs);
    }
  }

  // ---- runs of a function ------------------------------------------------------------------------

  datatype Event = At(line: nat) | Enter(addr: string) | Trapped(addr: string)

  /** The first line from i on that declares a label. */
  function LabelLine(roles: seq<Role>, i: nat, addr: string): (r: nat)
    requires i <= |roles|
    ensures i <= r <= |roles|
    decreases |roles| - i
  {
    if i == |roles| || roles[i] == Declares(addr) then i else LabelLine(roles, i + 1, addr)
  }

  /** Where the function that line i is in starts. */
  function StartIn(ranges: seq<Range>, i: nat): nat {
    if ranges == [] then 0
    else
      var last := ranges[|ranges| - 1];
      if last.start <= i < last.end then last.start else StartIn(ranges[..|ranges| - 1], i)
  }

  /** What a line does, with labels resolved to lines of the same function. */
  datatype Move = Next | Goto(cond: Option<string>, line: nat) | Leave(cond: Option<string>, last: Event)

  function MoveOf(lines: seq<string>, funcs: set<string>, i: nat): Move
    requires i < |lines|
  {
    match FlowOf(lines[i], LabelsAt(lines, i), funcs)
    case Straight => Next
    case Away(cond, ToFunction(f)) => Leave(cond, Enter(f))
    case Away(cond, ToNowhere(a)) => Leave(cond, Trapped(a))
    case Away(cond, ToLabel(a)) =>
      var start := StartIn(Functions(lines), i);
      Goto(cond, if start <= |lines| then LabelLine(Roles(lines), start, a) else |lines|)
  }

  /** The control flow of a file. */
  function Program(lines: seq<string>, funcs: set<string>): seq<Move> {
    seq(|lines|, i requires 0 <= i < |lines| => MoveOf(lines, funcs, i))
  }

  /**
   * What a run from line i does in at most n steps, when `holds` decides conditions: the lines it comes to,
   * and at the end the function it transfers to or the trap it meets.
   */
  function Trace(p: seq<Move>, i: nat, holds: (nat, string) -> bool, n: nat): seq<Event>
    decreases n
  {
    if n == 0 || i >= |p| then []
    else
      match p[i]
      case Next => [At(i)] + Trace(p, i + 1, holds, n - 1)
      case Goto(cond, to) =>
        [At(i)] + Trace(p, if cond.None? || holds(n, cond.value) then to else i + 1, holds, n - 1)
      case Leave(cond, last) =>
        if cond.None? || holds(n, cond.value) then [At(i), last] else [At(i)] + Trace(p, i + 1, holds, n - 1)
  }

  lemma MoveKept(lines: seq<string>, funcs: set<string>, i: nat)
    requires i < |lines|
    ensures MoveOf(Fixed(lines, funcs), funcs, i) == MoveOf(lines, funcs, i)
  {
    var out := Fixed(lines, funcs);
    FixKeepsRoles(lines, funcs);
    FixedAt(lines, funcs, i);
    var labels := LabelsAt(lines, i);
    FlowKept(lines[i], labels, funcs);
  }

  /** Every run of the rewritten file, from any line, is that of the original. */
  lemma TraceKept(lines: seq<string>, funcs: set<string>, i: nat, holds: (nat, string) -> bool, n: nat)
    ensures Program(Fixed(lines, funcs), funcs) == Program(lines, funcs)
    ensures Trace(Program(Fixed(lines, funcs), funcs), i, holds, n) == Trace(Program(lines, funcs), i, holds, n)
  {
    var p, q := Program(Fixed(lines, funcs), funcs), Program(lines, funcs);
    forall k | 0 <= k < |lines| ensures p[k] == q[k] {
      MoveKept(lines, funcs, k);
    }
    assert p == q;
  }

  // ---- what the collected functions are ----------------------------------------------------------

  /** Lines [start, end) are a function: they begin one, the last line ends it, and none between does either. */
  predicate IsFunction(roles: seq<Role>, start: nat, end: nat) {
    start + 1 < end <= |roles| && roles[start].Begins? && roles[end - 1].Ends? && Inner(roles, start, end - 1)
  }

  predicate Inner(roles: seq<Role>, start: nat, end: nat)
    requires end <= |roles|
  {
    forall j :: start < j < end ==> !roles[j].Begins? && !roles[j].Ends?
  }

  /** A line after `start` and before `end` declares the label. */
  predicate Declared(roles: seq<Role>, start: nat, end: nat, addr: string)
    requires end <= |roles|
  {
    exists j :: start < j < end && roles[j] == Declares(addr)
  }

  /** The labels are those that the lines after `start` and before `end` declare. */
  ghost predicate AreLabels(roles: seq<Role>, start: nat, end: nat, labels: set<string>)
    requires end <= |roles|
  {
    forall t :: t in labels <==> Declared(roles, start, end, t)
  }

  ghost predicate IsRange(roles: seq<Role>, r: Range) {
    IsFunction(roles, r.start, r.end) && AreLabels(roles, r.start, r.end, r.labels)
  }

  /** What is known on the way at line i. */
  ghost predicate Open(roles: seq<Role>, i: nat, start: Option<nat>, labels: set<string>)
    requires i <= |roles|
  {
    start.Some? ==> start.value < i && roles[start.value].Begins? && Inner(roles, start.value, i)
                    && AreLabels(roles, start.value, i, labels)
  }

  lemma OpenStep(roles: seq<Role>, i: nat, start: nat, labels: set<string>)
    requires i < |roles| && Open(roles, i, Some(start), labels) && !roles[i].Begins?
    ensures AreLabels(roles, start, i + 1, if roles[i].Declares? then labels + {roles[i].addr} else labels)
    ensures !roles[i].Ends? ==> Inner(roles, start, i + 1)
  {
    var more := if roles[i].Declares? then labels + {roles[i].addr} else labels;
    forall t ensures t in more <==> Declared(roles, start, i + 1, t) {
      if t in labels {
        var j :| start < j < i && roles[j] == Declares(t);
        assert start < j < i + 1;
      } else if Declared(roles, start, i + 1, t) {
        var j :| start < j < i + 1 && roles[j] == Declares(t);
        if j < i { assert Declared(roles, start, i, t); }
      }
    }
  }

  /** Everything collected is a function with its labels, and every function is collected. */
  lemma {:induction false} RangesAreFunctions(roles: seq<Role>, i: nat, start: Option<nat>, labels: set<string>)
    requires i <= |roles| && Open(roles, i, start, labels)
    ensures forall r :: r in Ranges(roles, i, start, labels) ==> IsRange(roles, r)
    ensures forall s: nat, e: nat :: IsFunction(roles, s, e) && i < e && (i <= s || start == Some(s)) ==>
              Collected(Ranges(roles, i, start, labels), s, e)
    decreases |roles| - i
  {
    if i < |roles| {
      var all := Ranges(roles, i, start, labels);
      if roles[i].Begins? {
        RangesAreFunctions(roles, i + 1, Some(i), {});
      } else if start.None? {
        RangesAreFunctions(roles, i + 1, None, labels);
      } else {
        OpenStep(roles, i, start.value, labels);
        if roles[i].Ends? {
          var first := Range(start.value, i + 1, labels);
          RangesAreFunctions(roles, i + 1, None, labels);
          OneRange(roles, i, first, Ranges(roles, i + 1, None, labels));
        } else {
          RangesAreFunctions(roles, i + 1, start, if roles[i].Declares? then labels + {roles[i].addr} else labels);
        }
      }
    }
  }

  predicate Collected(ranges: seq<Range>, start: nat, end: nat) {
    exists r :: r in ranges && r.start == start && r.end == end
  }

  lemma OneRange(roles: seq<Role>, i: nat, first: Range, rest: seq<Range>)
    requires IsRange(roles, first) && first.end == i + 1
    requires forall r :: r in rest ==> IsRange(roles, r)
    requires forall s: nat, e: nat :: IsFunction(roles, s, e) && i + 1 < e && i + 1 <= s ==> Collected(rest, s, e)
    ensures forall r :: r in [first] + rest ==> IsRange(roles, r)
    ensures forall s: nat, e: nat :: IsFunction(roles, s, e) && i < e && (i <= s || first.start == s) ==>
              Collected([first] + rest, s, e)
  {
    forall s: nat, e: nat | IsFunction(roles, s, e) && i < e && (i <= s || first.start == s)
      ensures Collected([first] + rest, s, e)
    {
      if s == first.start {
        assert e == first.end;
        assert first in [first] + rest;
      } else {
        assert Collected(rest, s, e);
        var r :| r in rest && r.start == s && r.end == e;
        assert r in [first] + rest;
      }
    }
  }

  /** Functions do not overlap. */
  lemma OneFunction(roles: seq<Role>, s: nat, e: nat, s': nat, e': nat)
    requires IsFunction(roles, s, e) && IsFunction(roles, s', e')
    ensures s < s' ==> e <= s'
    ensures s == s' ==> e == e'
  {
    assert roles[s'].Begins? && roles[e - 1].Ends? && roles[e' - 1].Ends?;
  }

  /** The last range that holds a line. */
  lemma {:induction false} LabelsInRange(ranges: seq<Range>, i: nat) returns (r: Range)
    ensures LabelsIn(ranges, i).None? ==> forall q :: q in ranges ==> !(q.start <= i < q.end)
    ensures LabelsIn(ranges, i).Some? ==>
              r in ranges && r.start <= i < r.end && r.labels == LabelsIn(ranges, i).value && r.start == StartIn(ranges, i)
  {
    if ranges == [] { return Range(0, 0, {}); }
    var most, last := ranges[..|ranges| - 1], ranges[|ranges| - 1];
    if last.start <= i < last.end { return last; }
    r := LabelsInRange(most, i);
    assert ranges == most + [last];
  }

  lemma {:induction false} LabelLineFinds(roles: seq<Role>, i: nat, j: nat, addr: string)
    requires i <= j < |roles| && roles[j] == Declares(addr)
    ensures i <= LabelLine(roles, i, addr) <= j && roles[LabelLine(roles, i, addr)] == Declares(addr)
    decreases j - i
  {
    if i < j && roles[i] != Declares(addr) { LabelLineFinds(roles, i + 1, j, addr); }
  }

  /** Line i is in the function of the lines [start, end), whose labels are these. */
  ghost predicate InFunction(lines: seq<string>, i: nat, end: nat, labels: set<string>) {
    var roles, start := Roles(lines), StartIn(Functions(lines), i);
    IsFunction(roles, start, end) && start <= i < end
    && (forall t :: t in labels <==> Declared(roles, start, end, t))
    && (forall t :: t in labels ==> start < LabelLine(roles, start, t) < end)
  }

  /**
   * A label may be named in line i exactly when some line of the function that line i is in declares it, and
   * going to it leads to such a line of the same function. Outside functions there are no labels.
   */
  lemma LabelsMean(lines: seq<string>, i: nat) returns (end: nat)
    requires i < |lines|
    ensures LabelsAt(lines, i).None? ==> forall s: nat, e: nat :: IsFunction(Roles(lines), s, e) ==> !(s <= i < e)
    ensures LabelsAt(lines, i).Some? ==> InFunction(lines, i, end, LabelsAt(lines, i).value)
  {
    var roles, ranges := Roles(lines), Functions(lines);
    RangesAreFunctions(roles, 0, None, {});
    var r := LabelsInRange(ranges, i);
    end := r.end;
    if LabelsAt(lines, i).Some? {
      assert IsRange(roles, r);
      forall t | t in r.labels ensures r.start < LabelLine(roles, r.start, t) < r.end {
        LabelInside(roles, r, t);
      }
    } else {
      forall s: nat, e: nat | IsFunction(roles, s, e) ensures !(s <= i < e) {
        assert Collected(ranges, s, e);
      }
    }
  }

  lemma LabelInside(roles: seq<Role>, r: Range, t: string)
    requires IsRange(roles, r) && t in r.labels
    ensures r.start < LabelLine(roles, r.start, t) < r.end
  {
    assert Declared(roles, r.start, r.end, t);
    var j :| r.start < j < r.end && roles[j] == Declares(t);
    LabelLineFinds(roles, r.start, j, t);
  }

  // ---- names as they are written -----------------------------------------------------------------

  /** The digits of the functions that lines begin, as written. */
  function NamesIn(lines: seq<string>): set<string> {
    if lines == [] then {}
    else
      var addr := FuncAddr(lines[|lines| - 1]);
      NamesIn(lines[..|lines| - 1]) + if addr.Some? then {addr.value} else {}
  }

  function NamesOf(files: seq<seq<string>>): set<string> {
    if files == [] then {} else NamesOf(files[..|files| - 1]) + NamesIn(files[|files| - 1])
  }

  /** The collected addresses are the upper-case forms of the names. */
  ghost predicate UpperForms(names: set<string>, funcs: set<string>) {
    forall t :: t in funcs <==> exists d :: d in names && Upper(d) == t
  }

  lemma UpperFormsAdd(names: set<string>, funcs: set<string>, names': set<string>, funcs': set<string>)
    requires UpperForms(names, funcs) && UpperForms(names', funcs')
    ensures UpperForms(names + names', funcs + funcs')
  {
    forall t ensures t in funcs + funcs' <==> exists d :: d in names + names' && Upper(d) == t {
      if t in funcs {
        var d :| d in names && Upper(d) == t;
        assert d in names + names';
      } else if t in funcs' {
        var d :| d in names' && Upper(d) == t;
        assert d in names + names';
      }
    }
  }

  lemma {:induction false} NamesOfLines(lines: seq<string>)
    ensures UpperForms(NamesIn(lines), FuncsIn(Roles(lines)))
  {
    if lines != [] {
      var most, last := lines[..|lines| - 1], lines[|lines| - 1];
      NamesOfLines(most);
      assert Roles(lines)[..|lines| - 1] == Roles(most);
      var addr := FuncAddr(last);
      UpperFormsAdd(NamesIn(most), FuncsIn(Roles(most)),
                    if addr.Some? then {addr.value} else {}, if addr.Some? then {Upper(addr.value)} else {});
    }
  }

  lemma {:induction false} NamesOfFiles(files: seq<seq<string>>)
    ensures UpperForms(NamesOf(files), FuncsOf(files))
  {
    if files != [] {
      var n := |files| - 1;
      NamesOfFiles(files[..n]);
      NamesOfLines(files[n]);
      UpperFormsAdd(NamesOf(files[..n]), FuncsOf(files[..n]), NamesIn(files[n]), FuncsIn(Roles(files[n])));
    }
  }

  /** The address has a definition that is spelled in upper case. */
  ghost predicate SpelledUpper(files: seq<seq<string>>, addr: string) {
    exists d :: d in NamesOf(files) && Upper(d) == addr && Upper(d) == d
  }

  /**
   * A tail call is written exactly when some definition has the address; it names a function as that is spelled
   * exactly when one of its definitions is spelled in upper case.
   */
  lemma TailCallNames(files: seq<seq<string>>, line: string, labels: Option<set<string>>)
    requires IsUndeclared(line, labels)
    ensures var t, a := Upper(ParseGoto(line).value.target), ParseAction(FixLine(line, labels, FuncsOf(files)));
            a.Some? && a.value.0.target == t
            && (a.value.1 <==> exists d :: d in NamesOf(files) && Upper(d) == t)
            && (a.value.1 && t in NamesOf(files) <==> SpelledUpper(files, t))
  {
    FlowKept(line, labels, FuncsOf(files));
    NamesOfFiles(files);
    GotoIsPlain(line);
    UpperHex(ParseGoto(line).value.target);
  }

  /** When every definition is in upper case, every tail call names a defined function. */
  lemma UpperCaseNames(files: seq<seq<string>>, line: string, labels: Option<set<string>>)
    requires IsUndeclared(line, labels) && forall d :: d in NamesOf(files) ==> Upper(d) == d
    ensures var a := ParseAction(FixLine(line, labels, FuncsOf(files)));
            a.Some? && (a.value.1 ==> a.value.0.target in NamesOf(files))
  {
    TailCallNames(files, line, labels);
  }

  // ---- a name in lower case ----------------------------------------------------------------------

  lemma {:induction false} HexPrefixIs(hex: string, rest: string)
    requires AllHex(hex) && (rest != "" ==> !IsHex(rest[0]))
    ensures HexPrefix(hex + rest) == |hex|
  {
    if hex != "" {
      HexPrefixIs(hex[1..], rest);
      assert (hex + rest)[1..] == hex[1..] + rest;
    } else {
      assert hex + rest == rest;
    }
  }

  /** The line that begins a function, for its digits. */
  function FuncLine(digits: string): string {
    "DEFINE_REX_FUNC(sub_" + (digits + ") {")
  }

  lemma FuncLineBack(digits: string)
    requires AllHex(digits) && digits != ""
    ensures FuncAddr(FuncLine(digits)) == Some(digits)
  {
    Cut("DEFINE_REX_FUNC(sub_", digits + ") {");
    HexPrefixIs(digits, ") {");
    Cut(digits, ") {");
    var close := ") {";
    assert close[..1] == ")" && close[1..] == " {";
    LeadingIs(" ", "{");
    assert " " + "{" == " {" && " {"[1..] == "{";
  }

  /** A goto to the address, from a line of its own. */
  function GotoLine(digits: string): string {
    Render(GOTO, Branch("", None, digits))
  }

  lemma GotoLineBack(digits: string)
    requires AllHex(digits) && digits != ""
    ensures ParseGoto(GotoLine(digits)) == Some(Branch("", None, digits))
  {
    var line := GotoLine(digits);
    ParseBack(GOTO, Branch("", None, digits));
    assert line[|line| - 1] == ';';
    assert line[..|line|] == line;
  }

  /** A function, and a goto to its own address. */
  function Jumper(digits: string): seq<string> {
    [FuncLine(digits), GotoLine(digits), "}"]
  }

  lemma JumperIsOne(digits: string)
    requires AllHex(digits) && digits != ""
    ensures LabelsAt(Jumper(digits), 1) == Some({}) && NamesIn(Jumper(digits)) == {digits}
  {
    FuncLineBack(digits);
    GotoLineBack(digits);
    GotoIsPlain(GotoLine(digits));
    PlainHasNoRole(GotoLine(digits));
    ThreeLines(FuncLine(digits), GotoLine(digits), "}");
    JumperRoles(Roles(Jumper(digits)), Upper(digits));
  }

  lemma ThreeLines(a: string, b: string, c: string)
    requires FuncAddr(a).Some? && RoleOf(b) == Other && c == "}"
    ensures Roles([a, b, c]) == [RoleOf(a), Other, Ends] && NamesIn([a, b, c]) == {FuncAddr(a).value}
  {
    assert FuncAddr(c).None?;
    NamesAdd([], a);
    NamesAdd([a], b);
    NamesAdd([a, b], c);
    assert [a] == [] + [a] && [a, b] == [a] + [b] && [a, b, c] == [a, b] + [c];
  }

  lemma NamesAdd(lines: seq<string>, line: string)
    ensures NamesIn(lines + [line]) == NamesIn(lines) + if FuncAddr(line).Some? then {FuncAddr(line).value} else {}
  {
    assert (lines + [line])[..|lines|] == lines;
  }

  lemma JumperRoles(roles: seq<Role>, addr: string)
    requires roles == [Begins(addr), Other, Ends]
    ensures LabelsIn(Ranges(roles, 0, None, {}), 1) == Some({})
  {
    assert Ranges(roles, 3, None, {}) == [];
    assert Ranges(roles, 2, Some(0), {}) == [Range(0, 3, {})];
    assert Ranges(roles, 1, Some(0), {}) == [Range(0, 3, {})];
    assert Ranges(roles, 0, None, {}) == [Range(0, 3, {})];
  }

  /**
   * A function defined with a lower-case digit, as sub_ab, with a goto to its address: the goto becomes a tail
   * call, of sub_AB, which no line defines.
   */
  lemma LowerCaseName(digits: string)
    requires AllHex(digits) && Upper(digits) != digits
    ensures var lines := Jumper(digits);
            IsUndeclared(lines[1], LabelsAt(lines, 1))
            && ParseAction(Fixed(lines, FuncsOf([lines]))[1]) == Some((Branch("", None, Upper(digits)), true))
            && Upper(digits) !in NamesOf([lines])
  {
    var lines := Jumper(digits);
    JumperIsOne(digits);
    GotoLineBack(digits);
    var files := [lines];
    assert files[..0] == [];
    assert NamesOf(files) == {digits};
    FixedAt(lines, FuncsOf(files), 1);
    FlowKept(lines[1], Some({}), FuncsOf(files));
    NamesOfFiles(files);
    assert digits in NamesOf(files);
  }
}
