/**
 * What the goto rewriter leaves to a compiler, for which labels that differ in case are different labels
 * (tools/fix_recomp_labels.py:48-97): the script compares them in upper case.
 */
module GotoLabels {
  import opened Words
  import opened GotoFix

  /** The labels that lines declare, as spelled. */
  function Spellings(lines: seq<string>): (r: seq<Option<string>>)
    ensures |r| == |lines| && forall i :: 0 <= i < |r| ==> r[i] == LabelAddr(lines[i])
  {
    seq(|lines|, i requires 0 <= i < |lines| => LabelAddr(lines[i]))
  }

  /** A line inside the function [start, end) declares the label. */
  predicate Spells(declared: seq<Option<string>>, start: nat, end: nat, spelling: string)
    requires end <= |declared|
  {
    exists j :: start < j < end && declared[j] == Some(spelling)
  }

  /** The function that line i is in declares the label. */
  ghost predicate SpelledIn(roles: seq<Role>, declared: seq<Option<string>>, i: nat, spelling: string)
    requires |declared| == |roles|
  {
    exists start: nat, end: nat ::
      IsFunction(roles, start, end) && start <= i < end && Spells(declared, start, end, spelling)
  }

  ghost predicate SpelledAt(lines: seq<string>, i: nat, spelling: string) {
    SpelledIn(Roles(lines), Spellings(lines), i, spelling)
  }

  lemma LabelRole(line: string)
    ensures LabelAddr(line).Some? ==> RoleOf(line) == Declares(Upper(LabelAddr(line).value))
    ensures RoleOf(line).Declares? ==> LabelAddr(line).Some? && RoleOf(line).addr == Upper(LabelAddr(line).value)
  {
    assert "DEFINE_REX_FUNC(sub_"[0] == 'D' && "loc_"[0] == 'l' && "}"[0] == '}';
    assert |line| >= 20 ==> line[..20][0] == line[0];
    assert |line| >= 4 ==> line[..4][0] == line[0];
  }

  /** Line i is in one function only. */
  lemma SameFunction(roles: seq<Role>, i: nat, s: nat, e: nat, s': nat, e': nat)
    requires IsFunction(roles, s, e) && IsFunction(roles, s', e') && s <= i < e && s' <= i < e'
    ensures s == s' && e == e'
  {
    OneFunction(roles, s, e, s', e');
    OneFunction(roles, s', e', s, e);
  }

  /** The labels that the script compares with are the upper-case forms of those that are declared. */
  lemma LabelsSpelled(lines: seq<string>, i: nat, t: string)
    requires i < |lines| && LabelsAt(lines, i).Some?
    ensures t in LabelsAt(lines, i).value <==> exists spelling :: SpelledAt(lines, i, spelling) && Upper(spelling) == t
  {
    var end := LabelsMean(lines, i);
    var roles, declared, start := Roles(lines), Spellings(lines), StartIn(Functions(lines), i);
    forall j | 0 <= j < |lines|
      ensures roles[j] == Declares(t) <==> declared[j].Some? && Upper(declared[j].value) == t
    {
      LabelRole(lines[j]);
    }
    if t in LabelsAt(lines, i).value {
      assert Declared(roles, start, end, t);
      DeclaredIsSpelled(roles, declared, i, start, end, t);
    }
    if spelling :| SpelledAt(lines, i, spelling) && Upper(spelling) == t {
      SpelledIsDeclared(roles, declared, i, start, end, t, spelling);
    }
  }

  lemma DeclaredIsSpelled(roles: seq<Role>, declared: seq<Option<string>>, i: nat, start: nat, end: nat, t: string)
    requires |declared| == |roles| && IsFunction(roles, start, end) && start <= i < end && Declared(roles, start, end, t)
    requires forall j :: 0 <= j < |roles| && roles[j] == Declares(t) ==> declared[j].Some? && Upper(declared[j].value) == t
    ensures exists spelling :: SpelledIn(roles, declared, i, spelling) && Upper(spelling) == t
  {
    var j :| start < j < end && roles[j] == Declares(t);
    var spelling := declared[j].value;
    assert Spells(declared, start, end, spelling);
    assert SpelledIn(roles, declared, i, spelling) && Upper(spelling) == t;
  }

  lemma SpelledIsDeclared(roles: seq<Role>, declared: seq<Option<string>>, i: nat, start: nat, end: nat, t: string, spelling: string)
    requires |declared| == |roles| && IsFunction(roles, start, end) && start <= i < end
    requires SpelledIn(roles, declared, i, spelling) && Upper(spelling) == t
    requires forall j :: 0 <= j < |roles| && declared[j].Some? && Upper(declared[j].value) == t ==> roles[j] == Declares(t)
    ensures Declared(roles, start, end, t)
  {
    var s: nat, e: nat :| IsFunction(roles, s, e) && s <= i < e && Spells(declared, s, e, spelling);
    SameFunction(roles, i, s, e, start, end);
    var j :| s < j < e && declared[j] == Some(spelling);
    assert roles[j] == Declares(t);
  }

  /** The rewriting changes no label as it is spelled. */
  lemma FixKeepsLabels(lines: seq<string>, funcs: set<string>)
    ensures Spellings(Fixed(lines, funcs)) == Spellings(lines)
  {
    forall j | 0 <= j < |lines|
      ensures LabelAddr(Fixed(lines, funcs)[j]) == LabelAddr(lines[j])
    {
      FixKeepsLabel(lines, funcs, j);
    }
  }

  lemma FixKeepsLabel(lines: seq<string>, funcs: set<string>, j: nat)
    requires j < |lines|
    ensures LabelAddr(Fixed(lines, funcs)[j]) == LabelAddr(lines[j])
  {
    FixedAt(lines, funcs, j);
    if IsUndeclared(lines[j], LabelsAt(lines, j)) {
      var b := ParseGoto(lines[j]).value;
      GotoIsPlain(lines[j]);
      RewrittenIsPlain(b, funcs);
      PlainHasNoRole(lines[j]);
      PlainHasNoRole(Rewritten(b, funcs));
      LabelRole(lines[j]);
      LabelRole(Rewritten(b, funcs));
    }
  }

  /** A goto of a function, to a label that the function does not declare as it is spelled there. */
  ghost predicate NamesNothing(lines: seq<string>, i: nat)
    requires i < |lines|
  {
    LabelsAt(lines, i).Some? && ParseGoto(lines[i]).Some? && !SpelledAt(lines, i, ParseGoto(lines[i]).value.target)
  }

  /**
   * Exactly which gotos still name nothing after the rewriting: those whose label is not declared as spelled, but is in
   * another case.
   */
  lemma LeftOver(lines: seq<string>, funcs: set<string>, i: nat)
    requires i < |lines|
    ensures NamesNothing(Fixed(lines, funcs), i)
       <==> NamesNothing(lines, i)
            && exists spelling :: SpelledAt(lines, i, spelling) && Upper(spelling) == Upper(ParseGoto(lines[i]).value.target)
  {
    FixKeepsRoles(lines, funcs);
    FixKeepsLabels(lines, funcs);
    FixedAt(lines, funcs, i);
    if IsUndeclared(lines[i], LabelsAt(lines, i)) {
      RewrittenNames(lines, funcs, i);
    } else if ParseGoto(lines[i]).Some? && LabelsAt(lines, i).Some? {
      LabelsSpelled(lines, i, Upper(ParseGoto(lines[i]).value.target));
    }
  }

  /** A rewritten goto is no goto any more, and its label was declared in no case. */
  lemma RewrittenNames(lines: seq<string>, funcs: set<string>, i: nat)
    requires i < |lines| && IsUndeclared(lines[i], LabelsAt(lines, i))
    ensures ParseGoto(Fixed(lines, funcs)[i]).None?
    ensures !exists spelling :: SpelledAt(lines, i, spelling) && Upper(spelling) == Upper(ParseGoto(lines[i]).value.target)
  {
    var b := ParseGoto(lines[i]).value;
    FixedAt(lines, funcs, i);
    GotoIsPlain(lines[i]);
    RewrittenIsPlain(b, funcs);
    LabelsSpelled(lines, i, Upper(b.target));
  }

  /** Labels, and the gotos to them, are spelled in upper case. */
  predicate UpperCase(lines: seq<string>) {
    forall i :: 0 <= i < |lines| ==>
      && (LabelAddr(lines[i]).Some? ==> Upper(LabelAddr(lines[i]).value) == LabelAddr(lines[i]).value)
      && (ParseGoto(lines[i]).Some? ==> Upper(ParseGoto(lines[i]).value.target) == ParseGoto(lines[i]).value.target)
  }

  /** Then every goto that is left names a label of its function. */
  lemma UpperCaseIsEnough(lines: seq<string>, funcs: set<string>, i: nat)
    requires UpperCase(lines) && i < |lines|
    ensures !NamesNothing(Fixed(lines, funcs), i)
  {
    LeftOver(lines, funcs, i);
    forall spelling | SpelledAt(lines, i, spelling) ensures Upper(spelling) == spelling {
      SpelledUpperCase(lines, i, spelling);
    }
  }

  lemma SpelledUpperCase(lines: seq<string>, i: nat, spelling: string)
    requires UpperCase(lines) && SpelledAt(lines, i, spelling)
    ensures Upper(spelling) == spelling
  {
    var declared := Spellings(lines);
    var s: nat, e: nat :| IsFunction(Roles(lines), s, e) && s <= i < e && Spells(declared, s, e, spelling);
    var j :| s < j < e && declared[j] == Some(spelling);
    assert LabelAddr(lines[j]) == Some(spelling);
  }

  // ---- a label in another case -------------------------------------------------------------------

  function LabelLineOf(digits: string): string {
    "loc_" + (digits + ":")
  }

  lemma LabelLineBack(digits: string)
    requires AllHex(digits) && digits != ""
    ensures LabelAddr(LabelLineOf(digits)) == Some(digits)
  {
    Cut("loc_", digits + ":");
    HexPrefixIs(digits, ":");
    Cut(digits, ":");
  }

  /** A function with a label in upper case, and a goto to it in another. */
  function Mixed(name: string, digits: string): seq<string> {
    [FuncLine(name), LabelLineOf(Upper(digits)), GotoLine(digits), "}"]
  }

  lemma MixedRole(name: string, digits: string)
    requires AllHex(name) && name != "" && AllHex(digits) && digits != ""
    ensures RoleOf(FuncLine(name)) == Begins(Upper(name))
    ensures RoleOf(LabelLineOf(digits)) == Declares(Upper(digits)) && LabelAddr(LabelLineOf(digits)) == Some(digits)
    ensures RoleOf(GotoLine(digits)) == Other && LabelAddr(GotoLine(digits)).None?
  {
    FuncLineBack(name);
    LabelLineBack(digits);
    LabelRole(LabelLineOf(digits));
    GotoLineBack(digits);
    GotoIsPlain(GotoLine(digits));
    PlainHasNoRole(GotoLine(digits));
    LabelRole(GotoLine(digits));
  }

  lemma BraceRole()
    ensures RoleOf("}") == Ends && LabelAddr("}").None?
  {
  }

  /** Four lines that are a function with one label. */
  lemma OneLabel(roles: seq<Role>, name: string, t: string)
    requires roles == [Begins(name), Declares(t), Other, Ends]
    ensures LabelsIn(Ranges(roles, 0, None, {}), 2) == Some({t}) && IsFunction(roles, 0, 4)
  {
    var r := Range(0, 4, {t});
    assert {} + {t} == {t};
    assert Ranges(roles, 4, None, {t}) == [];
    assert Ranges(roles, 3, Some(0), {t}) == [r];
    assert Ranges(roles, 2, Some(0), {t}) == [r];
    assert Ranges(roles, 1, Some(0), {}) == [r];
    assert Ranges(roles, 0, None, {}) == [r];
  }

  /** What they declare, as spelled. */
  lemma OnlyLabel(roles: seq<Role>, declared: seq<Option<string>>, spelling: string, other: string)
    requires |roles| == 4 && IsFunction(roles, 0, 4) && declared == [None, Some(spelling), None, None]
    ensures SpelledIn(roles, declared, 2, other) <==> other == spelling
  {
    assert Spells(declared, 0, 4, other) <==> other == spelling by { assert declared[1] == Some(spelling); }
    forall s: nat, e: nat | IsFunction(roles, s, e) && s <= 2 < e
      ensures s == 0 && e == 4
    {
      SameFunction(roles, 2, s, e, 0, 4);
    }
  }

  /** The goto is left as it is, and names nothing. */
  lemma OtherCase(name: string, digits: string, funcs: set<string>)
    requires AllHex(name) && name != "" && AllHex(digits) && Upper(digits) != digits
    ensures var lines := Mixed(name, digits);
            Fixed(lines, funcs)[2] == lines[2] && NamesNothing(Fixed(lines, funcs), 2)
  {
    var lines, up := Mixed(name, digits), Upper(digits);
    UpperHex(digits);
    MixedSeen(name, digits);
    OneLabel(Roles(lines), Upper(name), up);
    OnlyLabel(Roles(lines), Spellings(lines), up, digits);
    OnlyLabel(Roles(lines), Spellings(lines), up, up);
    GotoLineBack(digits);
    OthersUnchanged(lines, funcs, 2);
    LeftOver(lines, funcs, 2);
  }

  lemma MixedSeen(name: string, digits: string)
    requires AllHex(name) && name != "" && AllHex(digits) && digits != ""
    ensures var lines, up := Mixed(name, digits), Upper(digits);
            Roles(lines) == [Begins(Upper(name)), Declares(up), Other, Ends] && Spellings(lines) == [None, Some(up), None, None]
  {
    var up := Upper(digits);
    UpperHex(digits);
    MixedRole(name, up);
    MixedRole(name, digits);
    BraceRole();
    LabelRole(FuncLine(name));
    FourLines(FuncLine(name), LabelLineOf(up), GotoLine(digits), "}");
  }

  lemma FourLines(a: string, b: string, c: string, d: string)
    ensures Roles([a, b, c, d]) == [RoleOf(a), RoleOf(b), RoleOf(c), RoleOf(d)]
    ensures Spellings([a, b, c, d]) == [LabelAddr(a), LabelAddr(b), LabelAddr(c), LabelAddr(d)]
  {
    var lines := [a, b, c, d];
    Four(Roles(lines), RoleOf, lines);
    Four(Spellings(lines), LabelAddr, lines);
  }

  lemma Four<T>(r: seq<T>, f: string -> T, lines: seq<string>)
    requires |r| == |lines| == 4 && forall i :: 0 <= i < 4 ==> r[i] == f(lines[i])
    ensures r == [f(lines[0]), f(lines[1]), f(lines[2]), f(lines[3])]
  {
  }
}
