/** Spaces between the parts of a member do not matter: wherever the patterns admit any number
    of them, a member written down with any number is parsed as the printed one. */
module SpacedMembers {
  import opened Options
  import opened Regexes
  import opened RegexFacts
  import opened MemberParser
  import opened MemberTypes
  import opened MemberTokens
  import opened PrintedMembers
  import opened MemberRoundTrip

  function Sp(k: nat): (s: string)
    ensures |s| == k && forall i :: 0 <= i < k ==> s[i] == ' '
  {
    if k == 0 then "" else " " + Sp(k - 1)
  }

  /** More spaces in front of what a pattern with optional spaces matches. */
  lemma {:induction false} Absorbs(next: Re, k: nat, s: string, m: Marks)
    requires Run(Spaces(next), s, m).Some?
    ensures Run(Spaces(next), Sp(k) + s, m) == Run(Spaces(next), s, m)
  {
    if k == 0 {
      assert Sp(0) + s == s;
    } else {
      Absorbs(next, k - 1, s, m);
      assert Sp(k) + s == " " + (Sp(k - 1) + s);
      MoreSpace(next, Sp(k - 1) + s, m);
    }
  }

  lemma MoreSpace(next: Re, s: string, m: Marks)
    requires Run(Spaces(next), s, m).Some?
    ensures Run(Spaces(next), " " + s, m) == Run(Spaces(next), s, m)
  {
    assert (" " + s)[1..] == s;
  }

  /** After any number of spaces comes something else than a literal. */
  lemma {:induction false} NeverThere(w: string, next: Re, k: nat, s: string, m: Marks)
    requires w != "" && w[0] != ' ' && (s == "" || (s[0] != ' ' && s[0] != w[0]))
    ensures Run(Spaces(Lit(w, next)), Sp(k) + s, m).None?
  {
    RunLit(w, next, Sp(k) + s, m);
    if k == 0 {
      assert Sp(0) + s == s;
      SpacesSkip(Lit(w, next), s, m);
    } else {
      NeverThere(w, next, k - 1, s, m);
      assert (Sp(k) + s)[1..] == Sp(k - 1) + s && (Sp(k) + s)[0] == ' ';
      hide Lit;
    }
  }

  lemma SpacedLit(w: string, next: Re, k: nat, rest: string, m: Marks)
    requires w != "" && w[0] != ' ' && Run(next, rest, m).Some?
    ensures Run(Spaces(Lit(w, next)), Sp(k) + (w + rest), m) == Run(next, rest, m)
  {
    hide Lit;
    SpacesLit(w, next, rest, m);
    Absorbs(Lit(w, next), k, w + rest, m);
  }

  lemma Spaced(next: Re, k: nat, s: string, m: Marks)
    requires (s == "" || s[0] != ' ') && Run(next, s, m).Some?
    ensures Run(Spaces(next), Sp(k) + s, m) == Run(next, s, m)
  {
    hide Run;
    SpacesSkip(next, s, m);
    Absorbs(next, k, s, m);
  }

  // ---------------------------------------------------------------------
  // A member with any number of spaces

  /** The numbers of spaces: in front, around the parts of an array type, before the name two
      and more, before default value, unit and comment, and after the slashes. */
  datatype Gaps = Gaps(lead: nat, bracket: nat, element: nat, comma: nat, size: nat, close: nat, name: nat,
                       def: nat, unit: nat, comment: nat, text: nat)

  function CommentPiece(m: Member, w: Gaps): string {
    if m.description == "" then "" else "//" + (Sp(w.text) + m.description)
  }

  function UnitPiece(m: Member, w: Gaps): string {
    match m.unit
    case None => CommentPiece(m, w)
    case Some(u) => "[" + u + "]" + (Sp(w.comment) + CommentPiece(m, w))
  }

  function DefPiece(m: Member, w: Gaps): string {
    match m.def
    case None => UnitPiece(m, w)
    case Some(d) => "{" + (d + "}" + (Sp(w.unit) + UnitPiece(m, w)))
  }

  function NamePiece(m: Member, w: Gaps): string { m.name + (Sp(w.def) + DefPiece(m, w)) }

  function TypePiece(m: Member, w: Gaps): string {
    match m.ty
    case Plain(t) => t + (Sp(2 + w.name) + NamePiece(m, w))
    case Array(_, _) => STD_ARRAY + (Sp(w.bracket) + ("<" + (Sp(w.element) + ElementPiece(m, w))))
  }

  function ElementPiece(m: Member, w: Gaps): string
    requires m.ty.Array?
  {
    m.ty.t + (Sp(w.comma) + ("," + (Sp(w.size) + SizePiece(m, w))))
  }

  function SizePiece(m: Member, w: Gaps): string
    requires m.ty.Array?
  {
    m.ty.size + (Sp(w.close) + (">" + (Sp(2 + w.name) + NamePiece(m, w))))
  }

  function SpacedText(m: Member, w: Gaps): string { Sp(w.lead) + TypePiece(m, w) }

  // ---------------------------------------------------------------------
  // Comment, unit and default value

  function Ending(full: bool): Re { if full then Spaces(CommentRe()) else Accept }
  function TailOf(full: bool): Re { if full then Tail() else BareTail() }
  function RestOf(full: bool): Re { if full then Rest() else BareRest() }

  ghost predicate Fine(m: Member, full: bool) {
    && Spelled(m) && (full <==> m.description != "") && (full ==> PlainComment(m.description))
    && Braceless(m.description) && (m.def.Some? ==> AllIn(m.def.value, AnyChar) && Braceless(m.def.value))
  }

  function CommentMark(m: Member, marks: Marks): Marks {
    if m.description == "" then marks else Grp(marks, GC, |m.description|, 0)
  }

  function UnitMark(m: Member, w: Gaps, marks: Marks): Marks {
    CommentMark(m, UnitMarks(marks, m.unit, w.comment + |CommentPiece(m, w)|))
  }

  function DefMark(m: Member, w: Gaps, marks: Marks): Marks {
    UnitMark(m, w, DefMarks(marks, m.def, w.unit + |UnitPiece(m, w)|))
  }

  lemma CommentRuns(m: Member, w: Gaps, k: nat, full: bool, marks: Marks)
    requires Fine(m, full)
    ensures Run(Ending(full), Sp(k) + CommentPiece(m, w), marks) == Some(CommentMark(m, marks))
  {
    hide Run, Spelled;
    if full {
      var c := m.description;
      var group := Open(GC, Star(AnyChar, Close(GC, Accept)));
      CommentTextRuns(c, marks);
      Absorbs(group, w.text, c, marks);
      SpacedLit("//", Spaces(group), k, Sp(w.text) + c, marks);
      assert Spaces(Lit("//", Spaces(group))) == Spaces(CommentRe());
    } else {
      AcceptRuns(Sp(k) + CommentPiece(m, w), marks);
    }
  }

  lemma AcceptRuns(s: string, marks: Marks)
    ensures Run(Accept, s, marks) == Some(marks)
  {
  }

  lemma CommentTextRuns(c: string, marks: Marks)
    requires PlainComment(c)
    ensures Run(Spaces(Open(GC, Star(AnyChar, Close(GC, Accept)))), c, marks) == Some(Grp(marks, GC, |c|, 0))
  {
    assert c == c + "";
    RunStarMax(AnyChar, Close(GC, Accept), c, "", marks[2 * GC := |c|]);
    SpacesSkip(Open(GC, Star(AnyChar, Close(GC, Accept))), c, marks);
  }

  lemma UnitRunsHere(m: Member, w: Gaps, full: bool, marks: Marks)
    requires Fine(m, full)
    ensures Run(UnitRe(Ending(full)), UnitPiece(m, w), marks) == Some(UnitMark(m, w, marks))
  {
    hide Run, UnitRe, ValidUnit, Ending, CommentPiece;
    match m.unit
    case Some(u) =>
      var rest := Sp(w.comment) + CommentPiece(m, w);
      CommentRuns(m, w, w.comment, full, UnitMarks(marks, m.unit, |rest|));
      UnitRun(u, Ending(full), rest, marks);
    case None =>
      CommentRuns(m, w, 0, full, marks);
      assert Sp(0) + CommentPiece(m, w) == CommentPiece(m, w);
      CommentStarts(m, w);
      UnitSkip(Ending(full), CommentPiece(m, w), marks);
  }

  lemma CommentStarts(m: Member, w: Gaps)
    ensures CommentPiece(m, w) == "" || CommentPiece(m, w)[0] == '/'
  {
  }

  lemma UnitStarts(m: Member, w: Gaps)
    ensures UnitPiece(m, w) == "" || UnitPiece(m, w)[0] in "/["
  {
    CommentStarts(m, w);
  }

  lemma DefStarts(m: Member, w: Gaps)
    ensures DefPiece(m, w) == "" || DefPiece(m, w)[0] in "/[{"
  {
    UnitStarts(m, w);
  }

  lemma TailRuns(m: Member, w: Gaps, k: nat, full: bool, marks: Marks)
    requires Fine(m, full)
    ensures Run(TailOf(full), Sp(k) + UnitPiece(m, w), marks) == Some(UnitMark(m, w, marks))
  {
    hide Run, UnitRe, UnitPiece, Fine, CommentRe;
    UnitRunsHere(m, w, full, marks);
    UnitStarts(m, w);
    Spaced(UnitRe(Ending(full)), k, UnitPiece(m, w), marks);
    assert TailOf(full) == Spaces(UnitRe(Ending(full)));
  }

  lemma NoBraceAfter(m: Member, w: Gaps, full: bool)
    requires Fine(m, full)
    ensures Braceless(Sp(w.unit) + UnitPiece(m, w))
  {
    hide ValidUnit;
    if m.unit.Some? { UnitIsClear(m.unit.value); }
    assert Braceless(CommentPiece(m, w));
  }

  lemma RestRuns(m: Member, w: Gaps, k: nat, full: bool, marks: Marks)
    requires Fine(m, full)
    ensures Run(RestOf(full), Sp(k) + DefPiece(m, w), marks) == Some(DefMark(m, w, marks))
  {
    hide Run, DefRe, UnitPiece, ClosesAt, TailOf, ValidUnit, ValidType;
    DefStarts(m, w);
    match m.def {
      case Some(d) =>
        var rest := Sp(w.unit) + UnitPiece(m, w);
        var x := d + "}" + rest;
        TailRuns(m, w, w.unit, full, DefMarks(marks, m.def, |rest|));
        ClosesOnlyThere(m, w, full, x);
        AfterPrefix(d, "}", rest);
        DefAt(TailOf(full), x, |d|, marks);
        assert Run(DefRe(TailOf(full)), DefPiece(m, w), marks) == Some(DefMark(m, w, marks));
      case None =>
        TailRuns(m, w, 0, full, marks);
        assert Sp(0) + UnitPiece(m, w) == UnitPiece(m, w);
        UnitStarts(m, w);
        NoDefHere(TailOf(full), UnitPiece(m, w), marks);
    }
    Spaced(DefRe(TailOf(full)), k, DefPiece(m, w), marks);
    RestParts(full);
  }

  lemma RestParts(full: bool)
    ensures RestOf(full) == Spaces(DefRe(TailOf(full)))
  {
  }

  lemma ClosesOnlyThere(m: Member, w: Gaps, full: bool, x: string)
    requires Fine(m, full) && m.def.Some? && x == m.def.value + "}" + (Sp(w.unit) + UnitPiece(m, w))
    ensures ClosesAt(TailOf(full), x, |m.def.value|)
    ensures forall q :: q > |m.def.value| ==> !ClosesAt(TailOf(full), x, q)
  {
    hide Run, UnitPiece, TailOf, ValidUnit, ValidType;
    var d, rest := m.def.value, Sp(w.unit) + UnitPiece(m, w);
    AfterPrefix(d, "}", rest);
    TailRuns(m, w, w.unit, full, map[]);
    NoBraceAfter(m, w, full);
    forall q | |d| < q < |x| ensures x[q] != '}' { assert x[q] == x[|d| + 1..][q - |d| - 1]; }
  }

  // ---------------------------------------------------------------------
  // Type and name

  function NameMark(m: Member, w: Gaps, marks: Marks): Marks {
    var after := w.def + |DefPiece(m, w)|;
    DefMark(m, w, Grp(marks, GN, |m.name| + after, after))
  }

  lemma NameRuns(m: Member, w: Gaps, full: bool, marks: Marks)
    requires Fine(m, full)
    ensures Run(NameRe(RestOf(full)), NamePiece(m, w), marks) == Some(NameMark(m, w, marks))
    ensures NamePiece(m, w) != "" && NamePiece(m, w)[0] == m.name[0] && m.name[0] != ' '
  {
    hide Run, NameRe, DefPiece, RestOf, ValidType, ValidUnit;
    var rest := Sp(w.def) + DefPiece(m, w);
    DefStarts(m, w);
    RestRuns(m, w, w.def, full, Grp(marks, GN, |m.name| + |rest|, |rest|));
    assert rest == "" || !In(rest[0], WordChar);
    NameRun(m.name, RestOf(full), rest, marks);
  }

  /** The name, after any number of spaces, or after at least one. */
  lemma GapAndName(m: Member, w: Gaps, full: bool, marks: Marks)
    requires Fine(m, full)
    ensures var s := Sp(2 + w.name) + NamePiece(m, w);
      && Run(Spaces(NameRe(RestOf(full))), s, marks) == Some(NameMark(m, w, marks))
      && Run(NamePart(RestOf(full)), s, marks) == Some(NameMark(m, w, marks))
  {
    hide Run, NameRe, NamePiece, RestOf, Fine, NameMark;
    NameRuns(m, w, full, marks);
    Spaced(NameRe(RestOf(full)), 2 + w.name, NamePiece(m, w), marks);
    Spaced(NameRe(RestOf(full)), 1 + w.name, NamePiece(m, w), marks);
    assert Sp(2 + w.name) + NamePiece(m, w) == " " + (Sp(1 + w.name) + NamePiece(m, w));
    OneAndMore(NameRe(RestOf(full)), Sp(1 + w.name) + NamePiece(m, w), marks);
  }

  lemma OneAndMore(next: Re, s: string, marks: Marks)
    ensures Run(Plus(Only(' '), next), " " + s, marks) == Run(Spaces(next), s, marks)
  {
    assert (" " + s)[1..] == s;
  }

  /** No builtin type goes on over a gap that is not a single space and a word. */
  lemma GapEnds(t: string, next: Re, y: string, m: Marks)
    requires y != "" && y[0] in " ,"
    ensures NoLonger(BUILTINS, t, next, " " + y, m)
  {
    hide BUILTINS, Wordy;
    var rest := " " + y;
    forall b | b in BUILTINS && |b| > |t| ensures !(b <= t + rest) {
      BuiltinText(b);
      if b <= t + rest {
        BeyondGap(b, t, y);
        BuiltinSingle(b, |t|);
      }
    }
  }

  lemma BeyondGap(b: string, t: string, y: string)
    requires Wordy(b) && |b| > |t| && b <= t + (" " + y) && y != "" && y[0] in " ,"
    ensures |t| + 1 < |b| && b[|t|] == ' ' && b[|t| + 1] == ' '
  {
    var s := t + (" " + y);
    assert s[|t|] == ' ' && s[|t| + 1] == y[0];
    assert b[|t|] == s[|t|];
    if |t| + 1 < |b| { assert b[|t| + 1] == s[|t| + 1]; }
  }

  lemma BuiltinSingle(b: string, i: nat)
    requires b in BUILTINS && i + 1 < |b|
    ensures b[i] != ' ' || b[i + 1] != ' '
  {
  }

  lemma PlainRuns(m: Member, w: Gaps, full: bool)
    requires Fine(m, full) && m.ty.Plain?
    ensures var after := 2 + w.name + |NamePiece(m, w)|;
      Run(PlainHead(RestOf(full)), SpacedText(m, w), map[]) ==
        Some(NameMark(m, w, TypeMarks(map[], m.ty.t, after)))
  {
    hide Run, TypeRe, NameRe, NamePiece, RestOf, NameMark, EndsIdent, NoLonger, ValidType, ValidName, BUILTINS;
    var t, rest := m.ty.t, Sp(2 + w.name) + NamePiece(m, w);
    var marks := TypeMarks(map[], t, |rest|);
    GapAndName(m, w, full, marks);
    PlainTypeEnds(RestOf(full));
    assert rest == " " + (Sp(1 + w.name) + NamePiece(m, w));
    assert (Sp(1 + w.name) + NamePiece(m, w))[0] == ' ';
    GapEnds(t, Close(GT, NamePart(RestOf(full))), Sp(1 + w.name) + NamePiece(m, w), map[2 * GT := |t| + |rest|]);
    TypeRun(t, NamePart(RestOf(full)), rest, map[]);
    TypeStart(t);
    assert (t + rest)[0] == t[0];
    Spaced(TypeRe(NamePart(RestOf(full))), w.lead, t + rest, map[]);
  }

  // ---------------------------------------------------------------------
  // Array types

  /** What follows an array type in its pattern. */
  function AfterArray(full: bool): Re {
    if full then Spaces(NameRe(RestOf(full))) else NamePart(RestOf(full))
  }

  function SizeMark(m: Member, w: Gaps, marks: Marks): Marks
    requires m.ty.Array?
  {
    var after := 2 + w.name + |NamePiece(m, w)|;
    var rest := w.close + 1 + after;
    NameMark(m, w, Grp(marks, GS, |m.ty.size| + rest, rest))
  }

  lemma SizeRuns(m: Member, w: Gaps, full: bool, marks: Marks)
    requires Fine(m, full) && m.ty.Array?
    ensures Run(SizeRe(Closing(AfterArray(full))), SizePiece(m, w), marks) == Some(SizeMark(m, w, marks))
    ensures SizePiece(m, w) != "" && SizePiece(m, w)[0] != ' '
  {
    hide Run, NameRe, NamePiece, RestOf, NameMark, ValidType, ValidName, ValidUnit, SizeRe, Lit, NamePart;
    var gap := Sp(2 + w.name) + NamePiece(m, w);
    var rest := Sp(w.close) + (">" + gap);
    var m1 := Grp(marks, GS, |m.ty.size| + |rest|, |rest|);
    GapAndName(m, w, full, m1);
    SpacedLit(">", AfterArray(full), w.close, gap, m1);
    assert !In(rest[0], Digit);
    SizeRun(m.ty.size, Closing(AfterArray(full)), rest, marks);
    assert SizePiece(m, w)[0] == m.ty.size[0];
  }

  function ElementMark(m: Member, w: Gaps): Marks
    requires m.ty.Array?
  {
    SizeMark(m, w, TypeMarks(map[], m.ty.t, w.comma + 1 + w.size + |SizePiece(m, w)|))
  }

  lemma ElementRuns(m: Member, w: Gaps, full: bool)
    requires Fine(m, full) && m.ty.Array?
    ensures Run(TypeRe(SizePart(AfterArray(full))), ElementPiece(m, w), map[]) == Some(ElementMark(m, w))
    ensures ElementPiece(m, w) != "" && ElementPiece(m, w)[0] != ' '
  {
    hide Run, SizePiece, SizeMark, ValidType, ValidName, ValidUnit, SizeRe, Lit, TypeRe, AfterArray, EndsIdent,
         NoLonger;
    var t := m.ty.t;
    var y := "," + (Sp(w.size) + SizePiece(m, w));
    var rest := Sp(w.comma) + y;
    var marks := TypeMarks(map[], t, |rest|);
    SizeRuns(m, w, full, marks);
    Spaced(SizeRe(Closing(AfterArray(full))), w.size, SizePiece(m, w), marks);
    SpacedLit(",", Spaces(SizeRe(Closing(AfterArray(full)))), w.comma, Sp(w.size) + SizePiece(m, w), marks);
    ArrayTypeEnds(AfterArray(full));
    CommaEnds(t, Close(GT, SizePart(AfterArray(full))), w.comma, y, map[2 * GT := |t| + |rest|]);
    TypeRun(t, SizePart(AfterArray(full)), rest, map[]);
    TypeStart(t);
    assert (t + rest)[0] == t[0];
  }

  lemma CommaEnds(t: string, next: Re, k: nat, y: string, m: Marks)
    requires "," <= y
    ensures NoLonger(BUILTINS, t, next, Sp(k) + y, m) && (Sp(k) + y)[0] in " ,"
  {
    hide NoLonger;
    if k == 0 {
      assert Sp(0) + y == y;
      ArrayTypeLongest(t, next, y, m);
    } else {
      assert Sp(k) + y == " " + (Sp(k - 1) + y);
      assert (Sp(k - 1) + y)[0] == if k == 1 then ',' else ' ';
      GapEnds(t, next, Sp(k - 1) + y, m);
    }
  }

  lemma ArrayRuns(m: Member, w: Gaps, full: bool)
    requires Fine(m, full) && m.ty.Array?
    ensures Run(ArrayRe(AfterArray(full)), SpacedText(m, w), map[]) == Some(ElementMark(m, w))
    ensures Run(Spaces(ArrayRe(AfterArray(full))), SpacedText(m, w), map[]) == Some(ElementMark(m, w))
  {
    hide Run, ElementPiece, ElementMark, Fine, Lit, TypeRe, AfterArray, ArrayRe, MemberTokens.ElementPart;
    var next := AfterArray(full);
    ElementRuns(m, w, full);
    ElementParts(next);
    Spaced(TypeRe(SizePart(next)), w.element, ElementPiece(m, w), map[]);
    SpacedLit("<", ElementPart(next), w.bracket, Sp(w.element) + ElementPiece(m, w), map[]);
    var inner := Spaces(Lit("<", ElementPart(next)));
    SpacedLit(STD_ARRAY, inner, w.lead, Sp(w.bracket) + ("<" + (Sp(w.element) + ElementPiece(m, w))), map[]);
    SpacedLit(STD_ARRAY, inner, 0, Sp(w.bracket) + ("<" + (Sp(w.element) + ElementPiece(m, w))), map[]);
    assert Sp(0) + TypePiece(m, w) == TypePiece(m, w);
    ArrayReParts(next);
    assert TypePiece(m, w)[0] == STD_ARRAY[0];
    Spaced(ArrayRe(next), w.lead, TypePiece(m, w), map[]);
  }

  lemma ElementParts(next: Re)
    ensures ElementPart(next) == Spaces(TypeRe(SizePart(next)))
  {
  }

  // ---------------------------------------------------------------------
  // What is captured

  predicate EndsWith(s: string, r: string) { |r| <= |s| && s[|s| - |r|..] == r }

  lemma Peel(s: string, a: string, r: string)
    requires EndsWith(s, a + r)
    ensures EndsWith(s, r)
  {
    assert s[|s| - |r|..] == s[|s| - |a + r|..][|a|..];
  }

  lemma GroupAt(s: string, m: Marks, g: nat, v: string, r: string)
    requires EndsWith(s, v + r) && 2 * g in m && 2 * g + 1 in m && m[2 * g] == |v| + |r| && m[2 * g + 1] == |r|
    ensures Group(s, m, g) == Some(v)
  {
    assert s[|s| - m[2 * g]..] == v + r;
    assert s[|s| - m[2 * g]..|s| - m[2 * g + 1]] == (v + r)[..|v|];
  }

  lemma CommentCaught(s: string, m: Member, w: Gaps, f: Marks)
    requires EndsWith(s, CommentPiece(m, w)) && m.description != ""
    requires 10 in f && 11 in f && f[10] == |m.description| && f[11] == 0
    ensures Group(s, f, GC) == Some(m.description)
  {
    Peel(s, "//", Sp(w.text) + m.description);
    Peel(s, Sp(w.text), m.description);
    assert m.description == m.description + "";
    GroupAt(s, f, GC, m.description, "");
  }

  lemma UnitCaught(s: string, m: Member, w: Gaps, f: Marks)
    requires EndsWith(s, UnitPiece(m, w)) && m.unit.Some?
    requires 8 in f && 9 in f && f[9] == 1 + w.comment + |CommentPiece(m, w)| && f[8] == |m.unit.value| + f[9]
    ensures Group(s, f, GU) == m.unit && EndsWith(s, CommentPiece(m, w))
  {
    hide CommentPiece;
    var u, rest := m.unit.value, Sp(w.comment) + CommentPiece(m, w);
    Assoc("[" + u, "]", rest);
    Assoc("[", u, "]" + rest);
    Peel(s, "[", u + ("]" + rest));
    GroupAt(s, f, GU, u, "]" + rest);
    Peel(s, u, "]" + rest);
    Peel(s, "]", rest);
    Peel(s, Sp(w.comment), CommentPiece(m, w));
  }

  lemma DefCaught(s: string, m: Member, w: Gaps, f: Marks)
    requires EndsWith(s, DefPiece(m, w)) && m.def.Some?
    requires 6 in f && 7 in f && f[7] == 1 + w.unit + |UnitPiece(m, w)| && f[6] == |m.def.value| + f[7]
    ensures Group(s, f, GD) == m.def && EndsWith(s, UnitPiece(m, w))
  {
    hide UnitPiece;
    var d, rest := m.def.value, Sp(w.unit) + UnitPiece(m, w);
    Assoc(d, "}", rest);
    Peel(s, "{", d + "}" + rest);
    GroupAt(s, f, GD, d, "}" + rest);
    Peel(s, d, "}" + rest);
    Peel(s, "}", rest);
    Peel(s, Sp(w.unit), UnitPiece(m, w));
  }

  lemma NameCaught(s: string, m: Member, w: Gaps, f: Marks)
    requires EndsWith(s, Sp(2 + w.name) + NamePiece(m, w))
    requires 4 in f && 5 in f && f[5] == w.def + |DefPiece(m, w)| && f[4] == |m.name| + f[5]
    ensures Group(s, f, GN) == Some(m.name) && EndsWith(s, DefPiece(m, w))
  {
    hide DefPiece;
    Peel(s, Sp(2 + w.name), NamePiece(m, w));
    GroupAt(s, f, GN, m.name, Sp(w.def) + DefPiece(m, w));
    Peel(s, m.name, Sp(w.def) + DefPiece(m, w));
    Peel(s, Sp(w.def), DefPiece(m, w));
  }

  /** Everything after the type. */
  lemma PartsCaught(s: string, m: Member, w: Gaps, marks: Marks)
    requires EndsWith(s, Sp(2 + w.name) + NamePiece(m, w)) && forall i :: 4 <= i < 12 ==> i !in marks
    ensures var f := NameMark(m, w, marks);
      && Group(s, f, GN) == Some(m.name) && Group(s, f, GD) == m.def && Group(s, f, GU) == m.unit
      && Group(s, f, GC) == (if m.description == "" then None else Some(m.description))
      && (forall i :: 0 <= i < 4 ==> (i in f <==> i in marks) && (i in f ==> f[i] == marks[i]))
  {
    var f := NameMark(m, w, marks);
    hide NamePiece, DefPiece, UnitPiece, CommentPiece, Group;
    NameCaught(s, m, w, f);
    if m.def.Some? { DefCaught(s, m, w, f); } else { NotCaptured(s, f, GD); DefIsUnit(m, w); }
    if m.unit.Some? { UnitCaught(s, m, w, f); } else { NotCaptured(s, f, GU); UnitIsComment(m, w); }
    if m.description != "" { CommentCaught(s, m, w, f); } else { NotCaptured(s, f, GC); }
  }

  lemma DefIsUnit(m: Member, w: Gaps)
    ensures m.def.None? ==> DefPiece(m, w) == UnitPiece(m, w)
  {
  }

  lemma UnitIsComment(m: Member, w: Gaps)
    ensures m.unit.None? ==> UnitPiece(m, w) == CommentPiece(m, w)
  {
  }

  function FinalMark(m: Member, w: Gaps): Marks {
    if m.ty.Plain? then NameMark(m, w, TypeMarks(map[], m.ty.t, 2 + w.name + |NamePiece(m, w)|)) else ElementMark(m, w)
  }

  lemma PlainCaught(m: Member, w: Gaps)
    requires m.ty.Plain?
    ensures var s, f := SpacedText(m, w), FinalMark(m, w);
      && Group(s, f, GT) == Some(m.ty.t) && Group(s, f, GS) == None && Group(s, f, GN) == Some(m.name)
      && Group(s, f, GD) == m.def && Group(s, f, GU) == m.unit
      && Group(s, f, GC) == (if m.description == "" then None else Some(m.description))
  {
    hide NamePiece, NameMark, Group;
    var s, f, rest := SpacedText(m, w), FinalMark(m, w), Sp(2 + w.name) + NamePiece(m, w);
    assert EndsWith(s, s);
    Peel(s, Sp(w.lead), m.ty.t + rest);
    Peel(s, m.ty.t, rest);
    PartsCaught(s, m, w, TypeMarks(map[], m.ty.t, |rest|));
    GroupAt(s, f, GT, m.ty.t, rest);
    NotCaptured(s, f, GS);
  }

  lemma ArrayCaught(m: Member, w: Gaps)
    requires m.ty.Array?
    ensures var s, f := SpacedText(m, w), FinalMark(m, w);
      && Group(s, f, GT) == Some(m.ty.t) && Group(s, f, GS) == Some(m.ty.size) && Group(s, f, GN) == Some(m.name)
      && Group(s, f, GD) == m.def && Group(s, f, GU) == m.unit
      && Group(s, f, GC) == (if m.description == "" then None else Some(m.description))
  {
    hide NamePiece, NameMark, Group, ElementPiece, SizePiece;
    var s, f := SpacedText(m, w), FinalMark(m, w);
    assert EndsWith(s, s);
    Peel(s, Sp(w.lead), TypePiece(m, w));
    Peel(s, STD_ARRAY, Sp(w.bracket) + ("<" + (Sp(w.element) + ElementPiece(m, w))));
    Peel(s, Sp(w.bracket), "<" + (Sp(w.element) + ElementPiece(m, w)));
    Peel(s, "<", Sp(w.element) + ElementPiece(m, w));
    Peel(s, Sp(w.element), ElementPiece(m, w));
    ElementCaught(s, m, w);
  }

  lemma ElementCaught(s: string, m: Member, w: Gaps)
    requires m.ty.Array? && EndsWith(s, ElementPiece(m, w))
    ensures var f := FinalMark(m, w);
      && Group(s, f, GT) == Some(m.ty.t) && Group(s, f, GS) == Some(m.ty.size) && Group(s, f, GN) == Some(m.name)
      && Group(s, f, GD) == m.def && Group(s, f, GU) == m.unit
      && Group(s, f, GC) == (if m.description == "" then None else Some(m.description))
  {
    hide NamePiece, NameMark, Group, SizePiece;
    var f := FinalMark(m, w);
    var rest := Sp(w.comma) + ("," + (Sp(w.size) + SizePiece(m, w)));
    var marks := TypeMarks(map[], m.ty.t, |rest|);
    Peel(s, m.ty.t, rest);
    Peel(s, Sp(w.comma), "," + (Sp(w.size) + SizePiece(m, w)));
    Peel(s, ",", Sp(w.size) + SizePiece(m, w));
    Peel(s, Sp(w.size), SizePiece(m, w));
    SizeCaught(s, m, w, marks);
    GroupAt(s, f, GT, m.ty.t, rest);
  }

  lemma SizeCaught(s: string, m: Member, w: Gaps, marks: Marks)
    requires m.ty.Array? && EndsWith(s, SizePiece(m, w)) && forall i :: 2 <= i < 12 ==> i !in marks
    ensures var f := SizeMark(m, w, marks);
      && Group(s, f, GS) == Some(m.ty.size) && Group(s, f, GN) == Some(m.name)
      && Group(s, f, GD) == m.def && Group(s, f, GU) == m.unit
      && Group(s, f, GC) == (if m.description == "" then None else Some(m.description))
      && (forall i :: 0 <= i < 2 ==> (i in f <==> i in marks) && (i in f ==> f[i] == marks[i]))
  {
    hide NamePiece, NameMark, Group;
    var f := SizeMark(m, w, marks);
    var gap := Sp(2 + w.name) + NamePiece(m, w);
    var rest := Sp(w.close) + (">" + gap);
    Peel(s, m.ty.size, rest);
    Peel(s, Sp(w.close), ">" + gap);
    Peel(s, ">", gap);
    PartsCaught(s, m, w, Grp(marks, GS, |m.ty.size| + |rest|, |rest|));
    GroupAt(s, f, GS, m.ty.size, rest);
  }

  lemma SpacedConverts(m: Member, w: Gaps)
    requires Strip(m.description) == m.description
    ensures Convert(SpacedText(m, w), FinalMark(m, w)) == Make(m.name, m.ty, m.description, m.def, m.unit)
  {
    hide Group, SpacedText, FinalMark, Strip, Make;
    if m.ty.Plain? { PlainCaught(m, w); } else { ArrayCaught(m, w); }
  }

  // ---------------------------------------------------------------------
  // Which pattern decides

  /** The array patterns fail for a plain member. */
  lemma PlainIsNoArray(m: Member, w: Gaps, next: Re)
    requires Spelled(m) && m.ty.Plain?
    ensures Run(ArrayRe(next), SpacedText(m, w), map[]).None?
    ensures Run(Spaces(ArrayRe(next)), SpacedText(m, w), map[]).None?
  {
    hide Run, NamePiece, ValidType, ValidUnit, BUILTINS, Lit, MemberTokens.ElementPart, TypePiece, ArrayRe;
    var inner := Spaces(Lit("<", ElementPart(next)));
    TypeStart(m.ty.t);
    assert TypePiece(m, w)[0] == m.ty.t[0] by { PlainStarts(m, w); }
    NoArrayHere(m, w, next);
    ArrayReParts(next);
    forall j | 0 <= j <= w.lead ensures Run(Spaces(Lit(STD_ARRAY, inner)), Sp(j) + TypePiece(m, w), map[]).None? {
      NoneAbsorbs(Lit(STD_ARRAY, inner), STD_ARRAY, inner, j, TypePiece(m, w), map[]);
    }
    SpacesAgain(Lit(STD_ARRAY, inner), w.lead, TypePiece(m, w), map[]);
  }

  lemma PlainStarts(m: Member, w: Gaps)
    requires Spelled(m) && m.ty.Plain?
    ensures TypePiece(m, w) != "" && TypePiece(m, w)[0] == m.ty.t[0] && m.ty.t[0] != ' '
  {
    TypeStart(m.ty.t);
  }

  /** Spaces in front of what is not there do not help. */
  lemma {:induction false} NoneAbsorbs(re: Re, v: string, next: Re, k: nat, s: string, m: Marks)
    requires re == Lit(v, next) && v != "" && v[0] != ' ' && s != "" && s[0] != ' ' && Run(re, s, m).None?
    ensures Run(Spaces(re), Sp(k) + s, m).None?
  {
    hide Lit;
    if k == 0 {
      assert Sp(0) + s == s;
      SpacesSkip(re, s, m);
    } else {
      NoneAbsorbs(re, v, next, k - 1, s, m);
      RunLit(v, next, Sp(k) + s, m);
      assert (Sp(k) + s)[1..] == Sp(k - 1) + s && (Sp(k) + s)[0] == ' ';
    }
  }

  /** Two optional runs of spaces are as one. */
  lemma {:induction false} SpacesAgain(re: Re, k: nat, s: string, m: Marks)
    requires s != "" && s[0] != ' ' && forall j :: 0 <= j <= k ==> Run(Spaces(re), Sp(j) + s, m).None?
    ensures Run(Spaces(Spaces(re)), Sp(k) + s, m).None?
  {
    if k == 0 {
      assert Sp(0) + s == s;
      SpacesSkip(Spaces(re), s, m);
    } else {
      SpacesAgain(re, k - 1, s, m);
      assert (Sp(k) + s)[1..] == Sp(k - 1) + s && (Sp(k) + s)[0] == ' ';
    }
  }

  lemma NoArrayHere(m: Member, w: Gaps, next: Re)
    requires Spelled(m) && m.ty.Plain?
    ensures Run(Lit(STD_ARRAY, Spaces(Lit("<", ElementPart(next)))), TypePiece(m, w), map[]).None?
  {
    hide Run, NamePiece, ValidUnit, BUILTINS, Lit, MemberTokens.ElementPart, ValidIdent, ValidName;
    var t, gap := m.ty.t, Sp(2 + w.name) + NamePiece(m, w);
    RunLit(STD_ARRAY, Spaces(Lit("<", ElementPart(next))), t + gap, map[]);
    if t in BUILTINS { NotStd(t, t + gap); }
    if STD_ARRAY <= t + gap {
      NameBegins(m, w);
      NoBracket(t, 2 + w.name, NamePiece(m, w), ElementPart(next));
    }
  }

  /** An identifier that starts like the template is not followed by a bracket. */
  lemma NoBracket(t: string, k: nat, y: string, next: Re)
    requires ValidIdent(t) && k > 0 && y != "" && y[0] != ' ' && y[0] != '<' && STD_ARRAY <= t + (Sp(k) + y)
    ensures Run(Spaces(Lit("<", next)), (t + (Sp(k) + y))[|STD_ARRAY|..], map[]).None?
  {
    hide Run, Lit;
    var s := t + (Sp(k) + y);
    assert AllIn(t, IdentChar);
    hide ValidIdent;
    assert s[|t|] == ' ';
    NoSpaceBefore(STD_ARRAY, s, |t|);
    var rest := s[|STD_ARRAY|..];
    if |t| == |STD_ARRAY| {
      assert rest == Sp(k) + y;
      NeverThere("<", next, k, y, map[]);
    } else {
      assert rest[0] == t[|STD_ARRAY|];
      assert rest == Sp(0) + rest;
      NeverThere("<", next, 0, rest, map[]);
    }
  }

  lemma NameBegins(m: Member, w: Gaps)
    requires Spelled(m)
    ensures NamePiece(m, w) != "" && NamePiece(m, w)[0] == m.name[0] && In(m.name[0], AlphaUnderscore)
  {
    hide ValidType, ValidUnit;
  }

  /** A match of `re` passes `part` on all ways. */
  predicate Passes(re: Re, part: Re) {
    re == part ||
    match re
    case Accept => false
    case One(_, next) => Passes(next, part)
    case Star(_, next) => Passes(next, part)
    case Or(first, second) => Passes(first, part) && Passes(second, part)
    case Mark(_, next) => Passes(next, part)
  }

  ghost predicate Somewhere(part: Re, s: string) { exists i :: 0 <= i <= |s| && Run(part, s[i..], map[]).Some? }

  lemma {:induction false} PassesPart(re: Re, part: Re, s: string, m: Marks)
    requires Passes(re, part) && Run(re, s, m).Some?
    ensures Somewhere(part, s)
    decreases |s|, re
  {
    if re == part {
      assert s[0..] == s;
      MarksDoNotMatter(part, s, m, map[]);
    } else {
      match re
      case One(k, next) => PassesPart(next, part, s[1..], m); LaterThere(part, s);
      case Star(k, next) =>
        if Run(next, s, m).Some? { PassesPart(next, part, s, m); }
        else { PassesPart(re, part, s[1..], m); LaterThere(part, s); }
      case Or(first, second) =>
        if Run(first, s, m).Some? { PassesPart(first, part, s, m); } else { PassesPart(second, part, s, m); }
      case Mark(id, next) => PassesPart(next, part, s, m[id := |s|]);
    }
  }

  lemma LaterThere(part: Re, s: string)
    requires s != "" && Somewhere(part, s[1..])
    ensures Somewhere(part, s)
  {
    var i :| 0 <= i <= |s[1..]| && Run(part, s[1..][i..], map[]).Some?;
    assert s[1..][i..] == s[i + 1..];
  }

  ghost predicate HasSlashes(s: string) { exists i :: 0 <= i <= |s| && "//" <= s[i..] }

  /** Without two slashes the patterns that need a description fail. */
  lemma NoSlashesNoMatch(re: Re, s: string)
    requires Passes(re, CommentRe()) && !HasSlashes(s)
    ensures Run(re, s, map[]).None?
  {
    hide Run, CommentRe, Passes;
    if Run(re, s, map[]).Some? {
      PassesPart(re, CommentRe(), s, map[]);
      var i :| 0 <= i <= |s| && Run(CommentRe(), s[i..], map[]).Some?;
      CommentHereIff(s[i..], map[]);
    }
  }

  lemma RestPasses()
    ensures Passes(Rest(), CommentRe())
  {
    hide CommentRe;
    var unit := Spaces(CommentRe());
    assert Passes(unit, CommentRe());
    assert Passes(Close(GU, One(Only(']'), unit)), CommentRe());
    assert Passes(Star(WordChar, Close(GU, One(Only(']'), unit))), CommentRe());
    assert Passes(Plus(UnitHead, Star(WordChar, Close(GU, One(Only(']'), unit)))), CommentRe());
    assert Passes(UnitRe(unit), CommentRe());
    assert Passes(Tail(), CommentRe());
    assert Passes(Plus(AnyChar, Close(GD, One(Only('}'), Tail()))), CommentRe());
    assert Passes(DefRe(Tail()), CommentRe());
  }

  lemma NamePasses(next: Re, part: Re)
    requires Passes(next, part)
    ensures Passes(Spaces(NameRe(next)), part) && Passes(NamePart(next), part)
  {
    assert Passes(Close(GN, next), part);
    assert Passes(Star(WordChar, Close(GN, next)), part);
    assert Passes(Plus(AlphaUnderscore, Star(WordChar, Close(GN, next))), part);
    assert Passes(NameRe(next), part);
    assert Passes(Spaces(NameRe(next)), part);
  }

  lemma {:induction false} LitPasses(v: string, next: Re, part: Re)
    requires Passes(next, part)
    ensures Passes(Lit(v, next), part) && Passes(Spaces(Lit(v, next)), part)
  {
    if v != "" { LitPasses(v[1..], next, part); }
    assert Passes(Lit(v, next), part);
  }

  lemma {:induction false} AlternativesPass(bs: seq<string>, next: Re, part: Re)
    requires Passes(next, part)
    ensures Passes(Alternatives(bs, next), part)
  {
    if bs == [] {
      assert Passes(Star(IdentChar, next), part);
      assert Passes(Star(Alpha, Star(IdentChar, next)), part);
      assert Passes(IdentBody(next), part);
      LitPasses("::", IdentBody(next), part);
    } else {
      LitPasses(bs[0], next, part);
      AlternativesPass(bs[1..], next, part);
    }
  }

  lemma TypePasses(next: Re, part: Re)
    requires Passes(next, part)
    ensures Passes(TypeRe(next), part) && Passes(Spaces(TypeRe(next)), part)
  {
    hide Alternatives;
    assert Passes(Close(GT, next), part);
    AlternativesPass(BUILTINS, Close(GT, next), part);
    assert Passes(TypeRe(next), part);
  }

  lemma ArrayPasses(next: Re, part: Re)
    requires Passes(next, part)
    ensures Passes(ArrayRe(next), part)
  {
    hide Lit, TypeRe;
    LitPasses(">", next, part);
    assert Passes(Close(GS, Closing(next)), part);
    assert Passes(Star(Digit, Close(GS, Closing(next))), part);
    assert Passes(SizeRe(Closing(next)), part);
    LitPasses(",", Spaces(SizeRe(Closing(next))), part);
    TypePasses(SizePart(next), part);
    LitPasses("<", ElementPart(next), part);
    LitPasses(STD_ARRAY, Spaces(Lit("<", ElementPart(next))), part);
    ArrayReParts(next);
  }

  lemma DescribedPass()
    ensures Passes(FullArray(), CommentRe()) && Passes(FullMember(), CommentRe())
  {
    hide Rest, CommentRe, TypeRe, ArrayRe, NameRe, Passes;
    RestPasses();
    NamePasses(Rest(), CommentRe());
    ArrayPasses(Spaces(NameRe(Rest())), CommentRe());
    TypePasses(NamePart(Rest()), CommentRe());
    HeadIs(Rest());
  }

  lemma HeadIs(next: Re)
    ensures PlainHead(next) == Spaces(TypeRe(NamePart(next)))
  {
  }

  // ---------------------------------------------------------------------
  // Parsing

  lemma PatternsAre()
    ensures FullArray() == ArrayRe(AfterArray(true)) && FullMember() == PlainHead(RestOf(true))
    ensures BareArray() == Spaces(ArrayRe(AfterArray(false))) && BareMember() == PlainHead(RestOf(false))
  {
  }

  /** A member with a description, and with any number of spaces between its parts. */
  lemma SpacedParse(m: Member, w: Gaps, requireDescription: bool)
    requires Spelled(m) && m.description != "" && Strip(m.description) == m.description && AllIn(m.description, AnyChar)
    requires Braceless(m.description) && (m.def.Some? ==> AllIn(m.def.value, AnyChar) && Braceless(m.def.value))
    ensures Parse(SpacedText(m, w), requireDescription) == Make(m.name, m.ty, m.description, m.def, m.unit)
  {
    StrippedIsPlain(m.description);
    hide Run, Parse, Convert, Make, SpacedText, FinalMark, ArrayRe, PlainHead, RestOf, AfterArray, Strip, ValidType,
         ValidUnit, FullArray, FullMember, BareArray, BareMember, Fine, NameMark, ElementMark, NamePiece;
    assert Fine(m, true) by { IsFine(m); }
    SpacedConverts(m, w);
    PatternsAre();
    FourPatterns(SpacedText(m, w));
    if m.ty.Plain? {
      PlainIsNoArray(m, w, AfterArray(true));
      PlainRuns(m, w, true);
      PlainFinal(m, w);
    } else {
      ArrayRuns(m, w, true);
      ArrayFinal(m, w);
    }
  }

  lemma IsFine(m: Member)
    requires Spelled(m) && (m.description != "" ==> PlainComment(m.description)) && Braceless(m.description)
    requires m.def.Some? ==> AllIn(m.def.value, AnyChar) && Braceless(m.def.value)
    ensures Fine(m, m.description != "")
  {
  }

  lemma PlainFinal(m: Member, w: Gaps)
    requires m.ty.Plain?
    ensures FinalMark(m, w) == NameMark(m, w, TypeMarks(map[], m.ty.t, 2 + w.name + |NamePiece(m, w)|))
  {
    hide NameMark, TypeMarks, NamePiece, ElementMark;
  }

  lemma ArrayFinal(m: Member, w: Gaps)
    requires m.ty.Array?
    ensures FinalMark(m, w) == ElementMark(m, w)
  {
    hide NameMark, TypeMarks, NamePiece, ElementMark;
  }

  lemma NoSlashesNoDescription(s: string)
    requires !HasSlashes(s)
    ensures Parse(s, true) == None
    ensures var c, d := Run(BareArray(), s, map[]), Run(BareMember(), s, map[]);
      Parse(s, false) == if c.Some? then Convert(s, c.value) else if d.Some? then Convert(s, d.value) else None
  {
    hide Run, Parse, Convert, FullArray, FullMember, BareArray, BareMember, HasSlashes;
    DescribedPass();
    NoSlashesNoMatch(FullArray(), s);
    NoSlashesNoMatch(FullMember(), s);
    FourPatterns(s);
  }

  /** A member without description, and without two slashes that could start one. */
  lemma SpacedBareParse(m: Member, w: Gaps)
    requires Spelled(m) && m.description == "" && !HasSlashes(SpacedText(m, w))
    requires m.def.Some? ==> AllIn(m.def.value, AnyChar) && Braceless(m.def.value)
    ensures Parse(SpacedText(m, w), false) == Make(m.name, m.ty, "", m.def, m.unit)
    ensures Parse(SpacedText(m, w), true) == None
  {
    assert Strip("") == "";
    hide Run, Parse, Convert, Make, SpacedText, FinalMark, Strip, ValidType, ValidUnit, BareArray, BareMember, HasSlashes;
    SpacedConverts(m, w);
    NoSlashesNoDescription(SpacedText(m, w));
    BareRun(m, w);
  }

  lemma BareRun(m: Member, w: Gaps)
    requires Spelled(m) && m.description == ""
    requires m.def.Some? ==> AllIn(m.def.value, AnyChar) && Braceless(m.def.value)
    ensures var c, d := Run(BareArray(), SpacedText(m, w), map[]), Run(BareMember(), SpacedText(m, w), map[]);
      if m.ty.Plain? then c.None? && d == Some(FinalMark(m, w)) else c == Some(FinalMark(m, w))
  {
    hide Run, SpacedText, FinalMark, ArrayRe, PlainHead, RestOf, AfterArray, ValidType, ValidUnit, BareArray, BareMember,
         FullArray, FullMember, Fine, NameMark, ElementMark, NamePiece;
    assert Fine(m, false) by { IsFine(m); }
    PatternsAre();
    if m.ty.Plain? {
      PlainIsNoArray(m, w, AfterArray(false));
      PlainRuns(m, w, false);
      PlainFinal(m, w);
    } else {
      ArrayRuns(m, w, false);
      ArrayFinal(m, w);
    }
  }
}
