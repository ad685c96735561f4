/** How the member patterns match a printed member that they should match, and what
    their groups capture. */
module PrintedMembers {
  import opened Options
  import opened Regexes
  import opened RegexFacts
  import opened MemberParser
  import opened MemberTokens
  import opened MemberTypes

  // ---------------------------------------------------------------------
  // When the round trip works

  function SkipSpaces(y: string): string { if y != "" && y[0] == ' ' then SkipSpaces(y[1..]) else y }

  /** A comment follows, possibly after a unit. */
  predicate CommentFollows(y: string) {
    var a := SkipSpaces(y);
    "//" <= a || exists i :: 1 < i < |a| && UnitThenComment(a, i)
  }

  predicate UnitThenComment(a: string, i: nat)
    requires 1 < i < |a|
  {
    a[0] == '[' && a[i] == ']' && ValidUnit(a[1..i]) && "//" <= SkipSpaces(a[i + 1..])
  }

  /** The parser could let the default value end at brace `p` of `x`. */
  predicate MayEnd(x: string, p: nat) {
    1 <= p < |x| && x[p] == '}' && AllIn(x[..p], AnyChar) && CommentFollows(x[p + 1..])
  }

  /** Everything after the brace that opens the default value. */
  function AfterBrace(m: Member): string
    requires m.def.Some?
  {
    m.def.value + "}" + UnitText(m.unit) + CommentText(m.description)
  }

  /** No other brace can be taken for the end of the default value. */
  predicate Unambiguous(m: Member) {
    && (m.def.Some? ==> forall p :: |m.def.value| < p < |AfterBrace(m)| ==> !MayEnd(AfterBrace(m), p))
    && (m.def.Some? && m.description == "" ==> forall p :: 0 <= p <= |m.def.value| ==> !MayEnd(AfterBrace(m), p))
  }

  predicate Clean(m: Member) {
    && Strip(m.description) == m.description && AllIn(m.description, AnyChar)
    && (m.def.Some? ==> AllIn(m.def.value, AnyChar))
    && Unambiguous(m)
  }

  // ---------------------------------------------------------------------
  // The tail of the pattern in plain words

  lemma {:induction false} CommentAlwaysRuns(s: string, m: Marks)
    ensures Run(Spaces(Open(GC, Star(AnyChar, Close(GC, Accept)))), s, m).Some?
  {
    var m1 := m[2 * GC := |s|];
    assert Run(Close(GC, Accept), s, m1).Some?;
    assert Run(Star(AnyChar, Close(GC, Accept)), s, m1).Some?;
    if s != "" && s[0] == ' ' { CommentAlwaysRuns(s[1..], m); }
  }

  lemma CommentHereIff(y: string, m: Marks)
    ensures Run(CommentRe(), y, m).Some? <==> "//" <= y
  {
    RunLit("//", Spaces(Open(GC, Star(AnyChar, Close(GC, Accept)))), y, m);
    if "//" <= y { CommentAlwaysRuns(y[|"//"|..], m); }
  }

  lemma {:induction false} CommentIff(y: string, m: Marks)
    ensures Run(Spaces(CommentRe()), y, m).Some? <==> "//" <= SkipSpaces(y)
  {
    hide CommentRe;
    CommentHereIff(y, m);
    if y != "" && y[0] == ' ' { CommentIff(y[1..], m); }
  }

  lemma StarWitness(k: Class, next: Re, s: string, m: Marks) returns (j: nat)
    requires Run(Star(k, next), s, m).Some?
    ensures j <= |s| && AllIn(s[..j], k) && Run(next, s[j..], m).Some?
  {
    if forall j :: 0 <= j <= |s| && AllIn(s[..j], k) ==> Run(next, s[j..], m).None? { RunStarFails(k, next, s, m); }
    j :| 0 <= j <= |s| && AllIn(s[..j], k) && Run(next, s[j..], m).Some?;
  }

  function UnitBody(next: Re): Re { Open(GU, Plus(UnitHead, Star(WordChar, Close(GU, One(Only(']'), next))))) }

  /** If the unit pattern matches, then a unit and its bracket are there. */
  lemma UnitWitness(next: Re, s: string, m: Marks) returns (i: nat)
    requires Run(UnitBody(next), s, m).Some?
    ensures 0 < i < |s| && ValidUnit(s[..i]) && s[i] == ']' && Run(next, s[i + 1..], map[]).Some?
  {
    var m1 := m[2 * GU := |s|];
    var close := Close(GU, One(Only(']'), next));
    assert Run(Plus(UnitHead, Star(WordChar, close)), s, m1).Some?;
    var j := StarWitness(UnitHead, Star(WordChar, close), s[1..], m1);
    var k := StarWitness(WordChar, close, s[1..][j..], m1);
    i := 1 + j + k;
    var x := s[i..];
    assert s[1..][j..][k..] == x;
    assert Run(close, x, m1) == Run(One(Only(']'), next), x, m1[2 * GU + 1 := |x|]);
    assert x != "" && x[0] == ']' && Run(next, x[1..], m1[2 * GU + 1 := |x|]).Some?;
    hide Run;
    assert x[1..] == s[i + 1..];
    MarksDoNotMatter(next, x[1..], m1[2 * GU + 1 := |x|], map[]);
    UnitOfTwo(s, j, k);
  }

  lemma UnitOfTwo(s: string, j: nat, k: nat)
    requires 1 + j + k <= |s| && In(s[0], UnitHead)
    requires AllIn(s[1..][..j], UnitHead) && AllIn(s[1..][j..][..k], WordChar)
    ensures ValidUnit(s[..1 + j + k])
  {
    hide In;
    var u := s[..1 + j + k];
    assert u[..1 + j] == [s[0]] + s[1..][..j] && u[1 + j..] == s[1..][j..][..k];
  }

  lemma UnitIff(y: string, m: Marks)
    requires y == "" || y[0] != ' '
    ensures Run(UnitRe(Spaces(CommentRe())), y, m).Some? <==> CommentFollows(y)
  {
    hide CommentRe, Run;
    CommentIff(y, m);
    if "[" <= y {
      UnitBranch(y, m);
      if Run(UnitBody(Spaces(CommentRe())), y[1..], m).Some? { UnitIsThere(y, m); }
      if i :| 1 < i < |y| && UnitThenComment(y, i) { UnitRuns(y, i, m); }
    } else {
      UnitSkip(Spaces(CommentRe()), y, m);
      assert forall i :: 1 < i < |y| ==> !UnitThenComment(y, i);
    }
  }

  lemma UnitIsThere(y: string, m: Marks)
    requires "[" <= y && Run(UnitBody(Spaces(CommentRe())), y[1..], m).Some?
    ensures exists i :: 1 < i < |y| && UnitThenComment(y, i)
  {
    hide CommentRe, Run, ValidUnit;
    var i := UnitWitness(Spaces(CommentRe()), y[1..], m);
    assert y[1..][i + 1..] == y[i + 2..] && y[1..][..i] == y[1..i + 1];
    CommentIff(y[i + 2..], map[]);
    assert UnitThenComment(y, i + 1);
  }

  lemma UnitRuns(y: string, i: nat, m: Marks)
    requires "[" <= y && 1 < i < |y| && UnitThenComment(y, i)
    ensures Run(UnitRe(Spaces(CommentRe())), y, m).Some?
  {
    hide CommentRe, Run, ValidUnit, UnitRe;
    CommentIff(y[i + 1..], Grp(m, GU, |y| - 1, |y| - i));
    UnitRun(y[1..i], Spaces(CommentRe()), y[i + 1..], m);
    assert y == "[" + y[1..i] + "]" + y[i + 1..];
  }

  lemma UnitBranch(y: string, m: Marks)
    requires "[" <= y
    ensures Run(UnitRe(Spaces(CommentRe())), y, m).Some?
       <==> Run(UnitBody(Spaces(CommentRe())), y[1..], m).Some? || Run(Spaces(CommentRe()), y, m).Some?
  {
    hide CommentRe;
  }

  lemma {:induction false} TailIff(y: string, m: Marks)
    ensures Run(Tail(), y, m).Some? <==> CommentFollows(y)
  {
    hide CommentRe, UnitThenComment;
    if y != "" && y[0] == ' ' {
      TailIff(y[1..], m);
      UnitSkip(Spaces(CommentRe()), y, m);
      CommentIff(y, m);
    } else {
      UnitIff(y, m);
    }
  }

  lemma MayEndIff(x: string, p: nat)
    ensures MayEnd(x, p) <==> ClosesAt(Tail(), x, p)
  {
    hide Tail, CommentFollows;
    if p < |x| { TailIff(x[p + 1..], map[]); }
  }

  // ---------------------------------------------------------------------
  // Everything after the name

  function After(m: Member): string { DefText(m.def) + UnitText(m.unit) + CommentText(m.description) }

  function RestMarks(m: Member, hm: Marks): Marks {
    var comment := |CommentText(m.description)|;
    var um := UnitMarks(DefMarks(hm, m.def, |UnitText(m.unit)| + comment), m.unit, comment);
    if m.description == "" then um else Grp(um, GC, |m.description|, 0)
  }

  lemma {:induction false} StripShortens(s: string)
    ensures |Strip(s)| <= |s|
    ensures Strip(s) == s && s != "" ==> !IsSpace(s[0]) && !IsSpace(s[|s| - 1])
  {
    if s != "" && IsSpace(s[0]) { StripShortens(s[1..]); }
    else if s != "" && IsSpace(s[|s| - 1]) { StripShortens(s[..|s| - 1]); }
  }

  lemma StrippedIsPlain(c: string)
    requires Strip(c) == c && c != "" && AllIn(c, AnyChar)
    ensures PlainComment(c)
  {
    StripShortens(c);
  }

  lemma UnitIsClear(u: string)
    requires ValidUnit(u)
    ensures u != "" && forall i :: 0 <= i < |u| ==> u[i] != '}' && u[i] != ']'
  {
    var j :| 0 < j <= |u| && AllIn(u[..j], UnitHead) && AllIn(u[j..], WordChar);
    forall i | 0 <= i < |u| ensures u[i] != '}' && u[i] != ']' {
      if i < j { assert u[..j][i] == u[i]; } else { assert u[j..][i - j] == u[i]; }
    }
  }

  lemma NoDef(tail: Re, s: string, m: Marks)
    requires s == "" || s[0] !in " {"
    ensures Run(Spaces(DefRe(tail)), s, m) == Run(tail, s, m)
  {
    assert s != "" ==> s[0] != " {"[0] && s[0] != " {"[1];
    NoDefHere(tail, s, m);
    SpacesSkip(DefRe(tail), s, m);
  }

  lemma WithDef(tail: Re, x: string, p: nat, m: Marks)
    requires ClosesAt(tail, x, p) && forall q :: q > p ==> !ClosesAt(tail, x, q)
    ensures Run(Spaces(DefRe(tail)), "{" + x, m) == Run(tail, x[p + 1..], Grp(m, GD, |x|, |x| - p))
    ensures Run(Spaces(DefRe(tail)), "{" + x, m).Some?
  {
    hide DefRe, ClosesAt;
    DefAt(tail, x, p, m);
    SpacesSkip(DefRe(tail), "{" + x, m);
  }

  lemma Regroup(a: string, d: string, e: string, u: string, c: string)
    ensures a + d + e + u + c == a + (d + e + u + c)
  {
    assert a + d + e + u + c == a + (d + e + u) + c;
  }

  lemma AfterPrefix(d: string, e: string, rest: string)
    requires |e| == 1
    ensures (d + e + rest)[..|d|] == d && (d + e + rest)[|d|] == e[0] && (d + e + rest)[|d| + 1..] == rest
  {
    assert (d + e)[..] + rest == d + e + rest && |d + e| == |d| + 1;
  }

  lemma BraceParts(m: Member)
    requires m.def.Some? && m.def.value != ""
    ensures var x, d := AfterBrace(m), m.def.value;
      After(m) == "{" + x && |x| > |d| && x[..|d|] == d && x[|d|] == '}'
      && x[|d| + 1..] == UnitText(m.unit) + CommentText(m.description)
  {
    hide UnitText, CommentText;
    var d, u, c := m.def.value, UnitText(m.unit), CommentText(m.description);
    Regroup("{", d, "}", u, c);
    AfterPrefix(d, "}", u + c);
    assert d + "}" + u + c == d + "}" + (u + c);
  }

  /** The pattern for members with a description. */
  lemma RestRun(m: Member, hm: Marks)
    requires Spelled(m) && Clean(m) && m.description != ""
    ensures Run(Rest(), After(m), hm) == Some(RestMarks(m, hm))
  {
    hide Run, Tail, MayEnd, ClosesAt, DefRe, ValidUnit, Strip, ValidType, NormalType, Normalise;
    var c, u := m.description, m.unit;
    StrippedIsPlain(c);
    hide PlainComment;
    if m.def.Some? {
      var x, p := AfterBrace(m), |m.def.value|;
      BraceParts(m);
      ClosesThere(Tail(), x, p, u, c);
      forall q | q > p ensures !ClosesAt(Tail(), x, q) {
        if q < |x| { MayEndIff(x, q); } else { ClosesInside(Tail(), x, q); }
      }
      WithDef(Tail(), x, p, hm);
      TailRun(u, c, DefMarks(hm, m.def, |UnitText(u)| + |CommentText(c)|));
    } else if u.Some? {
      UnitIsClear(u.value);
      assert After(m)[0] == '[' && After(m) == UnitText(u) + CommentText(c);
      NoDef(Tail(), After(m), hm);
      TailRun(u, c, hm);
    } else {
      var s := "// " + c;
      assert After(m) == " " + s && s == "" + "// " + c;
      TailOfComment("", c, hm);
      NoDef(Tail(), s, hm);
      NoDefHere(Tail(), s, hm);
      SpacesOne(DefRe(Tail()), s, hm);
    }
  }

  lemma NoDefHere(tail: Re, s: string, m: Marks)
    requires s == "" || s[0] != '{'
    ensures Run(DefRe(tail), s, m) == Run(tail, s, m)
  {
  }

  lemma ClosesInside(tail: Re, x: string, p: nat)
    requires p >= |x|
    ensures !ClosesAt(tail, x, p)
  {
  }

  lemma ClosesThere(tail: Re, x: string, p: nat, u: Option<string>, c: string)
    requires 0 < p < |x| && x[p] == '}' && AllIn(x[..p], AnyChar) && x[p + 1..] == UnitText(u) + CommentText(c)
    requires ValidUnitOption(u)
    requires (tail == Tail() && PlainComment(c)) || (tail == BareTail() && c == "")
    ensures ClosesAt(tail, x, p)
  {
    hide Run, Tail, BareTail, PlainComment, ValidUnit;
    if PlainComment(c) && tail == Tail() {
      TailRun(u, c, map[]);
    } else {
      BareTailRun(u, map[]);
      assert UnitText(u) + CommentText(c) == UnitText(u);
    }
  }

  /** The pattern for members without a description. */
  lemma BareRestRun(m: Member, hm: Marks)
    requires Spelled(m) && m.description == "" && (m.def.Some? ==> AllIn(m.def.value, AnyChar))
    ensures Run(BareRest(), After(m), hm) == Some(RestMarks(m, hm))
  {
    hide Run, BareTail, ClosesAt, DefRe, ValidUnit, ValidType, NormalType, Normalise;
    var u := m.unit;
    if m.def.Some? {
      var x, p := AfterBrace(m), |m.def.value|;
      BraceParts(m);
      ClosesThere(BareTail(), x, p, u, "");
      assert x[p + 1..] == UnitText(u);
      forall q | q > p ensures !ClosesAt(BareTail(), x, q) { OnlyOneBrace(BareTail(), x, p, q, u); }
      WithDef(BareTail(), x, p, hm);
      BareTailRun(u, DefMarks(hm, m.def, |UnitText(u)|));
    } else {
      if u.Some? { UnitIsClear(u.value); }
      assert After(m) == UnitText(u);
      NoDef(BareTail(), After(m), hm);
      BareTailRun(u, hm);
    }
  }

  lemma OnlyOneBrace(tail: Re, x: string, p: nat, q: nat, u: Option<string>)
    requires p < q && p < |x| && x[p + 1..] == UnitText(u) && ValidUnitOption(u)
    ensures !ClosesAt(tail, x, q)
  {
    if u.Some? { UnitIsClear(u.value); }
    if q < |x| { assert x[q] == x[p + 1..][q - p - 1]; }
  }

  /** Without a description the longer pattern has nothing to match. */
  lemma RestFails(m: Member, hm: Marks)
    requires Spelled(m) && Clean(m) && m.description == ""
    ensures Run(Rest(), After(m), hm).None?
  {
    hide Run, Tail, MayEnd, ClosesAt, DefRe, ValidUnit, ValidType, NormalType, Normalise, CommentFollows;
    var s := After(m);
    if m.def.Some? {
      var x := AfterBrace(m);
      BraceParts(m);
      forall q ensures !ClosesAt(Tail(), x, q) {
        if 0 <= q < |x| { MayEndIff(x, q); } else { NotClosedOutside(Tail(), x, q); }
      }
      DefNowhere(Tail(), x, hm);
      TailIff(s, hm);
      NoCommentAt(s);
      SpacesSkip(DefRe(Tail()), s, hm);
    } else {
      if m.unit.Some? { UnitIsClear(m.unit.value); }
      assert s == UnitText(m.unit);
      NoDef(Tail(), s, hm);
      TailIff(s, hm);
      NoCommentAfterUnit(m.unit);
    }
  }

  lemma NotClosedOutside(tail: Re, x: string, q: int)
    requires !(0 <= q < |x|)
    ensures !ClosesAt(tail, x, q)
  {
  }

  lemma NoCommentAt(s: string)
    requires "{" <= s
    ensures !CommentFollows(s)
  {
  }

  lemma NoCommentAfterUnit(u: Option<string>)
    requires ValidUnitOption(u)
    ensures !CommentFollows(UnitText(u))
  {
    if u.Some? {
      UnitIsClear(u.value);
      var a := UnitText(u);
      forall i | 1 < i < |a| ensures !UnitThenComment(a, i) {
        if i < |a| - 1 { assert a[i] == u.value[i - 1]; } else { assert a[i + 1..] == ""; }
      }
    }
  }

  // ---------------------------------------------------------------------
  // Type and name of a printed member

  function Head(m: Member): string { TypeText(m.ty) + " " + m.name }

  function HeadMarks(m: Member): Marks {
    var n := |After(m)|;
    match m.ty
    case Plain(t) => PlainMarks(map[], t, m.name, n)
    case Array(t, size) => Grp(ArrayMarks(map[], t, size, 1 + |m.name| + n), GN, |m.name| + n, n)
  }

  lemma PrintParts(m: Member)
    ensures Print(m) == Head(m) + After(m)
  {
    assert Print(m) == Head(m) + DefText(m.def) + UnitText(m.unit) + CommentText(m.description);
  }

  lemma AfterIsAfterName(m: Member)
    requires Spelled(m)
    ensures AfterName(After(m))
  {
    hide ValidUnit, ValidType, NormalType, Normalise, ValidName;
    if m.def.Some? {
      BraceParts(m);
    } else if m.unit.Some? {
      UnitIsClear(m.unit.value);
    } else if m.description != "" {
      assert After(m)[..2] == " /";
    }
  }

  /** The pattern of a member of either kind, given what follows the name. */
  function Whole(m: Member, next: Re, full: bool): Re {
    if m.ty.Plain? then PlainHead(next)
    else if full then ArrayRe(Spaces(NameRe(next)))
    else Spaces(ArrayRe(Plus(Only(' '), NameRe(next))))
  }

  lemma SpacedName(n: string, next: Re, rest: string, m: Marks)
    requires ValidName(n) && AfterName(rest) && Run(next, rest, Grp(m, GN, |n| + |rest|, |rest|)).Some?
    ensures Run(Spaces(NameRe(next)), " " + n + rest, m) == Run(next, rest, Grp(m, GN, |n| + |rest|, |rest|))
    ensures Run(NamePart(next), " " + n + rest, m) == Run(next, rest, Grp(m, GN, |n| + |rest|, |rest|))
  {
    hide NameRe, Run;
    AfterNameStarts(rest);
    NameRun(n, next, rest, m);
    assert " " + n + rest == " " + (n + rest) && (n + rest)[0] == n[0];
    SpacesOne(NameRe(next), n + rest, m);
  }

  lemma HeadRun(m: Member, next: Re, full: bool)
    requires Spelled(m) && Run(next, After(m), HeadMarks(m)).Some?
    ensures Run(Whole(m, next, full), Print(m), map[]) == Run(next, After(m), HeadMarks(m))
  {
    hide PlainHead, ArrayRe, NameRe, Run, AfterName, After, Print, ValidUnit, ValidType, NormalType, Normalise,
         ValidName;
    var after := After(m);
    AfterIsAfterName(m);
    PrintParts(m);
    match m.ty
    case Plain(t) =>
      PlainHeadRun(t, m.name, next, after, map[]);
    case Array(t, size) =>
      var rest := " " + m.name + after;
      assert |rest| == 1 + |m.name| + |after|;
      var marks := ArrayMarks(map[], t, size, |rest|);
      assert HeadMarks(m) == Grp(marks, GN, |m.name| + |after|, |after|);
      SpacedName(m.name, next, after, marks);
      assert Print(m) == "std::array<" + t + ", " + size + ">" + rest;
      assert Print(m)[0] == 's';
      if full {
        ArrayRun(t, size, Spaces(NameRe(next)), rest, map[]);
      } else {
        ArrayRun(t, size, NamePart(next), rest, map[]);
        SpacesSkip(ArrayRe(NamePart(next)), Print(m), map[]);
      }
  }

  // ---------------------------------------------------------------------
  // What is captured

  lemma GroupIs(s: string, m: Marks, g: nat, before: string, v: string, after: string)
    requires s == before + v + after && 2 * g in m && 2 * g + 1 in m
    requires m[2 * g] == |v| + |after| && m[2 * g + 1] == |after|
    ensures Group(s, m, g) == Some(v)
  {
    assert s == before + (v + after);
  }

  lemma PlainTypeCaptured(m: Member, marks: Marks)
    requires m.ty.Plain? && 0 in marks && 1 in marks && marks[0] == HeadMarks(m)[0] && marks[1] == HeadMarks(m)[1]
    ensures Group(Print(m), marks, GT) == Some(m.ty.t)
  {
    hide After, Print;
    PrintParts(m);
    GroupIs(Print(m), marks, GT, "", m.ty.t, " " + m.name + After(m));
  }

  lemma ArrayTypeCaptured(m: Member, marks: Marks)
    requires m.ty.Array? && 0 in marks && 1 in marks && marks[0] == HeadMarks(m)[0] && marks[1] == HeadMarks(m)[1]
    ensures Group(Print(m), marks, GT) == Some(m.ty.t)
  {
    hide After, Print;
    PrintParts(m);
    var rest := ", " + m.ty.size + ">" + " " + m.name + After(m);
    assert Print(m) == "std::array<" + m.ty.t + rest;
    GroupIs(Print(m), marks, GT, "std::array<", m.ty.t, rest);
  }

  lemma SizeCaptured(m: Member, marks: Marks)
    requires m.ty.Array? && 2 in marks && 3 in marks && marks[2] == HeadMarks(m)[2] && marks[3] == HeadMarks(m)[3]
    ensures Group(Print(m), marks, GS) == Some(m.ty.size)
  {
    hide After, Print;
    PrintParts(m);
    var before, rest := "std::array<" + m.ty.t + ", ", ">" + " " + m.name + After(m);
    assert Print(m) == before + m.ty.size + rest;
    GroupIs(Print(m), marks, GS, before, m.ty.size, rest);
  }

  lemma NameIsCaptured(m: Member, marks: Marks)
    requires 4 in marks && 5 in marks && marks[4] == HeadMarks(m)[4] && marks[5] == HeadMarks(m)[5]
    ensures Group(Print(m), marks, GN) == Some(m.name)
  {
    hide After;
    PrintParts(m);
    GroupIs(Print(m), marks, GN, TypeText(m.ty) + " ", m.name, After(m));
  }

  lemma DefIsCaptured(m: Member, q: nat, marks: Marks)
    requires m.def.Some? && m.def.value != "" && q <= |AfterBrace(m)|
    requires 6 in marks && 7 in marks && marks[6] == |AfterBrace(m)| && marks[7] == |AfterBrace(m)| - q
    ensures Group(Print(m), marks, GD) == Some(AfterBrace(m)[..q])
  {
    var x := AfterBrace(m);
    BraceParts(m);
    PrintParts(m);
    hide After, Print, Head, AfterBrace, Group;
    GroupAfter(Print(m), marks, GD, Head(m), "{", x, q);
  }

  lemma GroupAfter(s: string, marks: Marks, g: nat, before: string, o: string, x: string, q: nat)
    requires s == before + (o + x) && q <= |x| && 2 * g in marks && 2 * g + 1 in marks
    requires marks[2 * g] == |x| && marks[2 * g + 1] == |x| - q
    ensures Group(s, marks, g) == Some(x[..q])
  {
    hide Group;
    Assoc(before, o, x);
    Assoc(before + o, x[..q], x[q..]);
    assert x == x[..q] + x[q..];
    GroupIs(s, marks, g, before + o, x[..q], x[q..]);
  }

  lemma InBrackets(b: string, o: string, u: string, e: string, c: string)
    ensures b + (o + u + e) + c == (b + o) + u + (e + c)
  {
    Assoc(o, u, e);
    Assoc(b, o, u + e);
    Assoc(b + o, u, e);
    Assoc((b + o) + u, e, c);
  }

  lemma UnitIsCaptured(m: Member, marks: Marks)
    requires m.unit.Some? && m.unit.value != "" && 8 in marks && 9 in marks
    requires marks[8] == |m.unit.value| + 1 + |CommentText(m.description)|
    requires marks[9] == 1 + |CommentText(m.description)|
    ensures Group(Print(m), marks, GU) == m.unit
  {
    var u, c := m.unit.value, CommentText(m.description);
    var before := Head(m) + DefText(m.def);
    assert Print(m) == before + ("[" + u + "]") + c;
    hide Print, Head, DefText, UnitText, CommentText, Group;
    InBrackets(before, "[", u, "]", c);
    GroupIs(Print(m), marks, GU, before + "[", u, "]" + c);
  }

  lemma CommentIsCaptured(m: Member, marks: Marks)
    requires m.description != "" && 10 in marks && 11 in marks
    requires marks[10] == |m.description| && marks[11] == 0
    ensures Group(Print(m), marks, GC) == Some(m.description)
  {
    var before := Head(m) + DefText(m.def) + UnitText(m.unit);
    assert Print(m) == before + " // " + m.description;
    assert Print(m) == (before + " // ") + m.description + "";
    GroupIs(Print(m), marks, GC, before + " // ", m.description, "");
  }

  function FinalMarks(m: Member): Marks { RestMarks(m, HeadMarks(m)) }

  lemma HeadCaptured(m: Member)
    requires Spelled(m)
    ensures var f, s := FinalMarks(m), Print(m);
      && Group(s, f, GT) == Some(m.ty.t) && Group(s, f, GN) == Some(m.name)
      && Group(s, f, GS) == if m.ty.Array? then Some(m.ty.size) else None
  {
    var f, s := FinalMarks(m), Print(m);
    hide Print, Group, After, ValidUnit, ValidType, NormalType, Normalise, ValidName;
    NameIsCaptured(m, f);
    if m.ty.Plain? {
      PlainTypeCaptured(m, f);
      NotCaptured(s, f, GS);
    } else {
      ArrayTypeCaptured(m, f);
      SizeCaptured(m, f);
    }
  }

  lemma NotCaptured(s: string, m: Marks, g: nat)
    requires 2 * g !in m
    ensures Group(s, m, g) == None
  {
  }

  lemma DefCaptured(m: Member)
    requires Spelled(m)
    ensures Group(Print(m), FinalMarks(m), GD) == m.def
  {
    hide Print, Group, After, ValidUnit, ValidType, NormalType, Normalise, ValidName;
    if m.def.Some? {
      DefIsCaptured(m, |m.def.value|, FinalMarks(m));
      BraceParts(m);
    } else {
      NotCaptured(Print(m), FinalMarks(m), GD);
    }
  }

  lemma UnitCaptured(m: Member)
    requires Spelled(m)
    ensures Group(Print(m), FinalMarks(m), GU) == m.unit
  {
    hide Print, Group, After, ValidUnit, ValidType, NormalType, Normalise, ValidName;
    if m.unit.Some? {
      UnitNotEmpty(m.unit.value);
      UnitIsCaptured(m, FinalMarks(m));
    } else {
      NotCaptured(Print(m), FinalMarks(m), GU);
    }
  }

  lemma CommentCaptured(m: Member)
    requires Spelled(m)
    ensures Group(Print(m), FinalMarks(m), GC) == if m.description == "" then None else Some(m.description)
  {
    hide Print, Group, After, ValidUnit, ValidType, NormalType, Normalise, ValidName;
    if m.description == "" { NotCaptured(Print(m), FinalMarks(m), GC); } else { CommentIsCaptured(m, FinalMarks(m)); }
  }

  /** The marks of a full match convert back to the member. */
  lemma Converts(m: Member)
    requires Spelled(m) && Strip(m.description) == m.description
    ensures Convert(Print(m), FinalMarks(m)) == Make(m.name, m.ty, m.description, m.def, m.unit)
  {
    hide FinalMarks, Group, Print, ValidUnit, ValidType, Strip, Normalise, ValidName, Make;
    HeadCaptured(m);
    DefCaptured(m);
    UnitCaptured(m);
    CommentCaptured(m);
  }

  lemma ConvertsBack(m: Member)
    requires Printable(m) && Strip(m.description) == m.description
    ensures Convert(Print(m), FinalMarks(m)) == Some(m)
  {
    NormalTypeIff(m.ty.t);
    hide FinalMarks, Convert, Print, ValidUnit, ValidType, Strip, Normalise, ValidName;
    Converts(m);
  }
}
