/** How the parts of the member patterns match the parts of a printed member. */
module MemberTokens {
  import opened Options
  import opened Regexes
  import opened MemberParser
  import opened MemberTypes

  // ---------------------------------------------------------------------
  // Members as the parser can produce them

  predicate ValidName(n: string) { n != "" && In(n[0], AlphaUnderscore) && AllIn(n, WordChar) }

  /** [a-zA-Z_*\/]+\w* */
  predicate ValidUnit(u: string) {
    exists i :: 0 < i <= |u| && AllIn(u[..i], UnitHead) && AllIn(u[i..], WordChar)
  }

  /** A member that can be parsed again, if its type is normal. */
  predicate Printable(m: Member) { Spelled(m) && NormalType(m.ty.t) }

  /** Every part is what its pattern admits. */
  predicate Spelled(m: Member) {
    && ValidType(m.ty.t)
    && (m.ty.Array? ==> m.ty.size != "" && AllIn(m.ty.size, Digit))
    && ValidName(m.name)
    && (m.def.Some? ==> m.def.value != "") && (m.unit.Some? ==> ValidUnit(m.unit.value))
  }

  // ---------------------------------------------------------------------
  // Tokens

  /** Two overlapping loops share a token between them. */
  lemma {:induction false} TwoStars(k: Class, l: Class, next: Re, p: string, q: string, rest: string, m: Marks)
    requires AllIn(p, k) && AllIn(q, l) && (rest == "" || (!In(rest[0], k) && !In(rest[0], l)))
    requires Run(next, rest, m).Some?
    ensures Run(Star(k, Star(l, next)), p + q + rest, m) == Run(next, rest, m)
    decreases |p| + |q|
  {
    var s := p + q + rest;
    RunStarMax(l, next, q, rest, m);
    if p != "" {
      assert s[0] == p[0] && s[1..] == p[1..] + q + rest;
      TwoStars(k, l, next, p[1..], q, rest, m);
    } else if q != "" && In(q[0], k) {
      assert s[0] == q[0] && s[1..] == "" + q[1..] + rest;
      TwoStars(k, l, next, "", q[1..], rest, m);
    } else {
      assert s == q + rest;
    }
  }

  lemma IdentBodyRun(b: string, next: Re, rest: string, m: Marks)
    requires b != "" && IsAlpha(b[0]) && AllIn(b, IdentChar)
    requires (rest == "" || !In(rest[0], IdentChar)) && Run(next, rest, m).Some?
    ensures Run(IdentBody(next), b + rest, m) == Run(next, rest, m)
  {
    assert (b + rest)[1..] == "" + b[1..] + rest && (b + rest)[0] == b[0];
    TwoStars(Alpha, IdentChar, next, "", b[1..], rest, m);
  }

  lemma IdentRun(t: string, next: Re, rest: string, m: Marks)
    requires ValidIdent(t) && (rest == "" || !In(rest[0], IdentChar)) && Run(next, rest, m).Some?
    ensures Run(IdentRe(next), t + rest, m) == Run(next, rest, m)
  {
    RunLit("::", IdentBody(next), t + rest, m);
    hide IdentBody;
    if "::" <= t {
      IdentBodyRun(t[2..], next, rest, m);
      assert (t + rest)[|"::"|..] == t[2..] + rest;
      assert "::" <= t + rest;
    } else {
      IdentBodyRun(t, next, rest, m);
      assert (t + rest)[0] == t[0];
    }
  }

  /** What follows a type does not start like the continuation of an identifier. */
  ghost predicate EndsIdent(next: Re) {
    forall s, m :: s != "" && In(s[0], IdentChar) ==> Run(next, s, m).None?
  }

  /** No longer alternative leads to a match. */
  ghost predicate NoLonger(bs: seq<string>, t: string, next: Re, rest: string, m: Marks) {
    forall b :: b in bs && |b| > |t| && b <= t + rest ==> Run(next, (t + rest)[|b|..], m).None?
  }

  predicate LongestFirst(bs: seq<string>) { forall i, j :: 0 <= i < j < |bs| ==> |bs[i]| >= |bs[j]| }

  /** An alternative before the right one fails. */
  lemma WrongAlternative(b: string, t: string, next: Re, rest: string, m: Marks)
    requires b != t && (|b| >= |t| || AllIn(t, IdentChar))
    requires EndsIdent(next) && NoLonger([b], t, next, rest, m)
    ensures Run(Lit(b, next), t + rest, m).None?
  {
    RunLit(b, next, t + rest, m);
    if |b| == |t| {
      assert (t + rest)[..|t|] == t;
    } else if |b| < |t| {
      assert (t + rest)[|b|..][0] == t[|b|];
    } else {
      assert b in [b];
    }
  }

  lemma RunOr(first: Re, second: Re, s: string, m: Marks)
    ensures Run(first, s, m).None? ==> Run(Or(first, second), s, m) == Run(second, s, m)
    ensures Run(first, s, m).Some? ==> Run(Or(first, second), s, m) == Run(first, s, m)
  {
  }

  lemma {:induction false} AlternativesRun(bs: seq<string>, t: string, next: Re, rest: string, m: Marks)
    requires LongestFirst(bs) && (t in bs || ValidIdent(t))
    requires EndsIdent(next) && NoLonger(bs, t, next, rest, m)
    requires rest != "" && !In(rest[0], IdentChar) && Run(next, rest, m).Some?
    ensures Run(Alternatives(bs, next), t + rest, m) == Run(next, rest, m)
  {
    hide IdentRe, Lit, EndsIdent, Run;
    if bs == [] {
      IdentRun(t, next, rest, m);
    } else if bs[0] == t {
      RightAlternative(t, next, rest, m);
      RunOr(Lit(t, next), Alternatives(bs[1..], next), t + rest, m);
    } else {
      assert NoLonger([bs[0]], t, next, rest, m) && NoLonger(bs[1..], t, next, rest, m);
      if t in bs {
        var j :| 0 <= j < |bs| && bs[j] == t;
        assert bs[1..][j - 1] == t;
      } else {
        assert AllIn(t, IdentChar);
      }
      WrongAlternative(bs[0], t, next, rest, m);
      AlternativesRun(bs[1..], t, next, rest, m);
      RunOr(Lit(bs[0], next), Alternatives(bs[1..], next), t + rest, m);
    }
  }

  lemma RightAlternative(t: string, next: Re, rest: string, m: Marks)
    ensures Run(Lit(t, next), t + rest, m) == Run(next, rest, m)
  {
    RunLit(t, next, t + rest, m);
    assert (t + rest)[|t|..] == rest && t <= t + rest;
  }

  /** The marks of a group that starts with `from` and ends with `to` characters left. */
  function Grp(m: Marks, g: nat, from: nat, to: nat): Marks { m[2 * g := from][2 * g + 1 := to] }

  lemma NameRun(n: string, next: Re, rest: string, m: Marks)
    requires ValidName(n) && (rest == "" || !In(rest[0], WordChar))
    requires Run(next, rest, Grp(m, GN, |n| + |rest|, |rest|)).Some?
    ensures Run(NameRe(next), n + rest, m) == Run(next, rest, Grp(m, GN, |n| + |rest|, |rest|))
  {
    var m1 := m[2 * GN := |n + rest|];
    assert (n + rest)[0] == n[0] && AllIn(n[1..], WordChar);
    assert (n + rest)[1..] == "" + n[1..] + rest;
    TwoStars(AlphaUnderscore, WordChar, Close(GN, next), "", n[1..], rest, m1);
  }

  lemma SizeRun(z: string, next: Re, rest: string, m: Marks)
    requires z != "" && AllIn(z, Digit) && (rest == "" || !In(rest[0], Digit))
    requires Run(next, rest, Grp(m, GS, |z| + |rest|, |rest|)).Some?
    ensures Run(SizeRe(next), z + rest, m) == Run(next, rest, Grp(m, GS, |z| + |rest|, |rest|))
  {
    assert (z + rest)[1..] == z[1..] + rest;
    RunStarMax(Digit, Close(GS, next), z[1..], rest, m[2 * GS := |z + rest|]);
  }

  lemma UnitRun(u: string, next: Re, rest: string, m: Marks)
    requires ValidUnit(u) && Run(next, rest, Grp(m, GU, |u| + 1 + |rest|, 1 + |rest|)).Some?
    ensures Run(UnitRe(next), "[" + u + "]" + rest, m) == Run(next, rest, Grp(m, GU, |u| + 1 + |rest|, 1 + |rest|))
  {
    var i :| 0 < i <= |u| && AllIn(u[..i], UnitHead) && AllIn(u[i..], WordChar);
    var p, q, after := u[..i], u[i..], "]" + rest;
    var m1 := m[2 * GU := |u| + 1 + |rest|];
    var close := Close(GU, One(Only(']'), next));
    assert after[1..] == rest;
    assert Run(close, after, m1) == Run(next, rest, Grp(m, GU, |u| + 1 + |rest|, 1 + |rest|));
    TwoStars(UnitHead, WordChar, close, p[1..], q, after, m1);
    var s, t := "[" + u + "]" + rest, u + after;
    assert s[1..] == t && t[0] == p[0];
    assert t[1..] == p[1..] + q + after;
    assert Run(Plus(UnitHead, Star(WordChar, close)), t, m1) == Run(close, after, m1);
    assert |t| == |u| + 1 + |rest|;
    assert Run(One(Only('['), Open(GU, Plus(UnitHead, Star(WordChar, close)))), s, m) == Run(close, after, m1);
  }

  lemma UnitSkip(next: Re, s: string, m: Marks)
    requires s == "" || s[0] != '['
    ensures Run(UnitRe(next), s, m) == Run(next, s, m)
  {
  }

  /** The comment, after no space or one. */
  lemma CommentRun(space: string, c: string, m: Marks)
    requires space == "" || space == " "
    requires c != "" && c[0] != ' ' && AllIn(c, AnyChar)
    ensures Run(Spaces(CommentRe()), space + "// " + c, m) == Some(Grp(m, GC, |c|, 0))
  {
    var text := " " + c;
    var group := Open(GC, Star(AnyChar, Close(GC, Accept)));
    assert c == c + "";
    RunStarMax(AnyChar, Close(GC, Accept), c, "", m[2 * GC := |c|]);
    RunStarMax(Only(' '), group, " ", c, m);
    RunLit("//", Spaces(group), "// " + c, m);
    assert ("// " + c)[|"//"|..] == text && "//" <= "// " + c;
    assert space + "// " + c == space + ("// " + c);
    RunStarMax(Only(' '), CommentRe(), space, "// " + c, m);
  }

  // ---------------------------------------------------------------------
  // Default value, unit and comment

  function UnitMarks(m: Marks, u: Option<string>, after: nat): Marks {
    if u.Some? then Grp(m, GU, |u.value| + 1 + after, 1 + after) else m
  }

  function DefMarks(m: Marks, d: Option<string>, after: nat): Marks {
    if d.Some? then Grp(m, GD, |d.value| + 1 + after, 1 + after) else m
  }

  predicate ValidUnitOption(u: Option<string>) { u.Some? ==> ValidUnit(u.value) }

  /** Description text that the comment pattern can capture whole. */
  predicate PlainComment(c: string) { c != "" && c[0] != ' ' && AllIn(c, AnyChar) }

  lemma TailRun(u: Option<string>, c: string, m: Marks)
    requires ValidUnitOption(u) && PlainComment(c)
    ensures Run(Tail(), UnitText(u) + CommentText(c), m) == Some(Grp(UnitMarks(m, u, |c| + 4), GC, |c|, 0))
  {
    hide Run, UnitRe, ValidUnit, CommentRe;
    var comment := " // " + c;
    assert comment == " " + "// " + c;
    if u.Some? {
      UnitNotEmpty(u.value);
      var s := UnitText(u) + comment;
      CommentRun(" ", c, UnitMarks(m, u, |c| + 4));
      UnitRun(u.value, Spaces(CommentRe()), comment, m);
      assert s[0] == '[';
      SpacesSkip(UnitRe(Spaces(CommentRe())), s, m);
    } else {
      TailOfComment(" ", c, m);
      assert UnitText(u) + comment == comment;
    }
  }

  lemma TailOfComment(space: string, c: string, m: Marks)
    requires PlainComment(c) && (space == "" || space == " ")
    ensures Run(Tail(), space + "// " + c, m) == Some(Grp(m, GC, |c|, 0))
  {
    var s := "// " + c;
    CommentRun("", c, m);
    assert "" + "// " + c == s;
    UnitSkip(Spaces(CommentRe()), s, m);
    RunStarMax(Only(' '), UnitRe(Spaces(CommentRe())), space, s, m);
    assert space + "// " + c == space + s;
  }

  lemma BareTailRun(u: Option<string>, m: Marks)
    requires ValidUnitOption(u)
    ensures Run(BareTail(), UnitText(u), m) == Some(UnitMarks(m, u, 0))
  {
    hide Run, UnitRe, ValidUnit;
    NothingRuns(UnitMarks(m, u, 0));
    if u.Some? {
      UnitNotEmpty(u.value);
      UnitRun(u.value, Accept, "", m);
      assert UnitText(u) == "[" + u.value + "]" + "" && UnitText(u)[0] == '[';
      SpacesSkip(UnitRe(Accept), UnitText(u), m);
    } else {
      UnitSkip(Accept, "", m);
      SpacesSkip(UnitRe(Accept), "", m);
    }
  }

  lemma NothingRuns(m: Marks)
    ensures Run(Accept, "", m) == Some(m)
  {
  }

  lemma UnitNotEmpty(u: string)
    requires ValidUnit(u)
    ensures u != ""
  {
  }

  /** The default value may end at position `p` of `x`, the text after the opening
      brace: the rest of the pattern matches after that closing brace. */
  ghost predicate ClosesAt(tail: Re, x: string, p: int) {
    1 <= p < |x| && x[p] == '}' && AllIn(x[..p], AnyChar) && Run(tail, x[p + 1..], map[]).Some?
  }

  function CloseDef(tail: Re): Re { Close(GD, One(Only('}'), tail)) }

  lemma CloseFails(tail: Re, x: string, p: nat, m: Marks)
    requires 1 <= p <= |x| && AllIn(x[..p], AnyChar) && !ClosesAt(tail, x, p)
    ensures Run(CloseDef(tail), x[p..], m).None?
  {
    if p < |x| && x[p] == '}' {
      assert x[p..][1..] == x[p + 1..];
      MarksDoNotMatter(tail, x[p + 1..], m[2 * GD + 1 := |x| - p], map[]);
    }
  }

  lemma CloseSucceeds(tail: Re, x: string, p: nat, m: Marks)
    requires ClosesAt(tail, x, p)
    ensures Run(CloseDef(tail), x[p..], m) == Run(tail, x[p + 1..], m[2 * GD + 1 := |x| - p])
    ensures Run(CloseDef(tail), x[p..], m).Some?
  {
    assert x[p..][1..] == x[p + 1..];
    MarksDoNotMatter(tail, x[p + 1..], m[2 * GD + 1 := |x| - p], map[]);
  }

  lemma NoLaterStar(tail: Re, x: string, p: nat, j: nat, m: Marks)
    requires 1 <= p && p + j <= |x| && AllIn(x[..p], AnyChar) && AllIn(x[p..][..j], AnyChar)
    requires !ClosesAt(tail, x, p + j)
    ensures Run(CloseDef(tail), x[p..][j..], m).None?
  {
    assert x[p..][j..] == x[p + j..] && x[..p + j] == x[..p] + x[p..][..j];
    CloseFails(tail, x, p + j, m);
  }

  /** The group is greedy: it ends at the last closing brace at which it can. */
  lemma DefAt(tail: Re, x: string, p: nat, m: Marks)
    requires ClosesAt(tail, x, p) && forall q :: q > p ==> !ClosesAt(tail, x, q)
    ensures Run(DefRe(tail), "{" + x, m) == Run(tail, x[p + 1..], Grp(m, GD, |x|, |x| - p))
    ensures Run(DefRe(tail), "{" + x, m).Some?
  {
    var m1 := m[2 * GD := |x|];
    CloseSucceeds(tail, x, p, m1);
    forall j | 0 < j <= |x[p..]| && AllIn(x[p..][..j], AnyChar) ensures Run(CloseDef(tail), x[p..][j..], m1).None? {
      NoLaterStar(tail, x, p, j, m1);
    }
    RunStar(AnyChar, CloseDef(tail), x[1..p], x[p..], m1);
    assert x[1..] == x[1..p] + x[p..] && ("{" + x)[1..] == x;
    assert In(x[..p][0], AnyChar);
    assert Run(Plus(AnyChar, CloseDef(tail)), x, m1) == Run(CloseDef(tail), x[p..], m1);
    assert Run(One(Only('{'), Open(GD, Plus(AnyChar, CloseDef(tail)))), "{" + x, m) == Run(CloseDef(tail), x[p..], m1);
  }

  lemma DefNowhere(tail: Re, x: string, m: Marks)
    requires forall p :: !ClosesAt(tail, x, p)
    ensures Run(DefRe(tail), "{" + x, m) == Run(tail, "{" + x, m)
  {
    var m1 := m[2 * GD := |x|];
    assert ("{" + x)[1..] == x;
    if x != "" && In(x[0], AnyChar) {
      assert x[..1] == [x[0]];
      forall j | 0 <= j <= |x[1..]| && AllIn(x[1..][..j], AnyChar) ensures Run(CloseDef(tail), x[1..][j..], m1).None? {
        NoLaterStar(tail, x, 1, j, m1);
      }
      RunStarFails(AnyChar, CloseDef(tail), x[1..], m1);
    }
    assert Run(Plus(AnyChar, CloseDef(tail)), x, m1).None?;
    assert Run(One(Only('{'), Open(GD, Plus(AnyChar, CloseDef(tail)))), "{" + x, m).None?;
  }

  // ---------------------------------------------------------------------
  // Type and name

  lemma SpacesOne(next: Re, s: string, m: Marks)
    requires s != "" && s[0] != ' ' && Run(next, s, m).Some?
    ensures Run(Spaces(next), " " + s, m) == Run(next, s, m)
    ensures Run(Plus(Only(' '), next), " " + s, m) == Run(next, s, m)
  {
    RunStarMax(Only(' '), next, " ", s, m);
    assert (" " + s)[1..] == s;
  }

  lemma SpacesLit(w: string, next: Re, rest: string, m: Marks)
    requires w != "" && w[0] != ' '
    ensures Run(Spaces(Lit(w, next)), w + rest, m) == Run(next, rest, m)
  {
    RightAlternative(w, next, rest, m);
    assert (w + rest)[0] == w[0];
  }

  lemma SpacesSkip(next: Re, s: string, m: Marks)
    requires s == "" || s[0] != ' '
    ensures Run(Spaces(next), s, m) == Run(next, s, m)
  {
  }

  /** Ends with no space and has none of the characters that come after a type or a name. */
  predicate Wordy(b: string) { b != "" && b[|b| - 1] != ' ' && forall i :: 0 <= i < |b| ==> b[i] !in "{[/," }

  lemma BuiltinText(b: string)
    requires b in BUILTINS
    ensures Wordy(b) && b[0] != ' '
  {
  }

  lemma NotPast(b: string, s: string, i: nat)
    requires Wordy(b) && b <= s && i < |s|
    ensures s[i] in "{[/," ==> |b| <= i
    ensures s[i] == ' ' ==> |b| != i + 1
  {
    if i < |b| { assert b[i] == s[i]; }
  }

  lemma BuiltinOrder()
    ensures LongestFirst(BUILTINS)
  {
  }

  lemma TypeStart(t: string)
    requires ValidType(t)
    ensures t != "" && t[0] != ' '
  {
    if t in BUILTINS { BuiltinText(t); }
  }

  /** What may come after the name. */
  predicate AfterName(rest: string) { rest == "" || rest[0] in "{[" || " /" <= rest }

  function NamePart(next: Re): Re { Plus(Only(' '), NameRe(next)) }

  /** No name follows here. */
  lemma NoName(next: Re, y: string, m: Marks)
    requires y == "" || y[0] != ' ' || " /" <= y
    ensures Run(NamePart(next), y, m).None?
  {
    if y != "" && y[0] == ' ' {
      assert y[1..][0] == '/';
      assert Run(Plus(AlphaUnderscore, Star(WordChar, Close(GN, next))), y[1..], m[2 * GN := |y| - 1]).None?;
      assert Run(NameRe(next), y[1..], m).None?;
      assert Run(Spaces(NameRe(next)), y[1..], m).None?;
    }
  }

  lemma LongerWordFails(b: string, t: string, n: string, next: Re, rest: string, m: Marks)
    requires Wordy(b) && |b| > |t| && b <= t + " " + n + rest
    requires ValidName(n) && AfterName(rest)
    ensures Run(NamePart(next), (t + " " + n + rest)[|b|..], m).None?
  {
    hide NamePart, Wordy;
    var s := t + " " + n + rest;
    var k := |t| + 1 + |n|;
    assert s[|t|] == ' ';
    NotPast(b, s, |t|);
    if rest != "" {
      assert s[k] == rest[0];
      NotPast(b, s, k);
      if " /" <= rest {
        assert s[k + 1] == '/';
        NotPast(b, s, k + 1);
      }
    }
    var y := s[|b|..];
    if |b| == k {
      assert y == rest;
    } else {
      assert y[0] == s[|b|] == n[|b| - |t| - 1];
    }
    NoName(next, y, m);
  }

  function TypeMarks(m: Marks, t: string, after: nat): Marks { Grp(m, GT, |t| + after, after) }

  lemma TypeRun(t: string, next: Re, rest: string, m: Marks)
    requires ValidType(t) && rest != "" && !In(rest[0], IdentChar)
    requires EndsIdent(Close(GT, next)) && NoLonger(BUILTINS, t, Close(GT, next), rest, m[2 * GT := |t| + |rest|])
    requires Run(next, rest, TypeMarks(m, t, |rest|)).Some?
    ensures Run(TypeRe(next), t + rest, m) == Run(next, rest, TypeMarks(m, t, |rest|))
  {
    hide EndsIdent, NoLonger, Alternatives, LongestFirst;
    BuiltinOrder();
    AlternativesRun(BUILTINS, t, Close(GT, next), rest, m[2 * GT := |t| + |rest|]);
  }

  function PlainMarks(m: Marks, t: string, n: string, after: nat): Marks {
    Grp(TypeMarks(m, t, 1 + |n| + after), GN, |n| + after, after)
  }

  lemma PlainHeadRun(t: string, n: string, next: Re, rest: string, m: Marks)
    requires ValidType(t) && ValidName(n) && AfterName(rest) && Run(next, rest, PlainMarks(m, t, n, |rest|)).Some?
    ensures Run(PlainHead(next), t + " " + n + rest, m) == Run(next, rest, PlainMarks(m, t, n, |rest|))
  {
    hide TypeRe, NameRe, ValidType, AfterName, EndsIdent, NoLonger, BUILTINS, Run, Alternatives;
    var after := " " + n + rest;
    assert |after| == 1 + |n| + |rest| && after[0] == ' ';
    AfterNameStarts(rest);
    var m1 := TypeMarks(m, t, |after|);
    NameRun(n, next, rest, m1);
    assert after == " " + (n + rest) && (n + rest)[0] == n[0];
    SpacesOne(NameRe(next), n + rest, m1);
    PlainTypeEnds(next);
    PlainTypeLongest(t, n, next, rest, m[2 * GT := |t| + |after|]);
    TypeRun(t, NamePart(next), after, m);
    TypeStart(t);
    assert t + " " + n + rest == t + after && (t + after)[0] == t[0];
    SpacesSkip(TypeRe(NamePart(next)), t + after, m);
  }

  lemma AfterNameStarts(rest: string)
    requires AfterName(rest)
    ensures rest == "" || !In(rest[0], WordChar)
  {
  }

  lemma PlainTypeEnds(next: Re)
    ensures EndsIdent(Close(GT, NamePart(next)))
  {
  }

  lemma PlainTypeLongest(t: string, n: string, next: Re, rest: string, m: Marks)
    requires ValidName(n) && AfterName(rest)
    ensures NoLonger(BUILTINS, t, Close(GT, NamePart(next)), " " + n + rest, m)
  {
    hide NamePart, BUILTINS, ValidName, AfterName, Wordy;
    assert t + (" " + n + rest) == t + " " + n + rest;
    forall b | b in BUILTINS && |b| > |t| && b <= t + (" " + n + rest)
      ensures Run(Close(GT, NamePart(next)), (t + (" " + n + rest))[|b|..], m).None?
    {
      var y := (t + " " + n + rest)[|b|..];
      BuiltinText(b);
      LongerWordFails(b, t, n, next, rest, m[2 * GT + 1 := |y|]);
    }
  }

  // ---------------------------------------------------------------------
  // Array types

  function Closing(next: Re): Re { Spaces(Lit(">", next)) }
  function SizePart(next: Re): Re { Spaces(Lit(",", Spaces(SizeRe(Closing(next))))) }

  function SizeMarks(m: Marks, z: string, after: nat): Marks { Grp(m, GS, |z| + 1 + after, 1 + after) }

  lemma SizePartRun(z: string, next: Re, rest: string, m: Marks)
    requires z != "" && AllIn(z, Digit) && Run(next, rest, SizeMarks(m, z, |rest|)).Some?
    ensures Run(SizePart(next), ", " + z + ">" + rest, m) == Run(next, rest, SizeMarks(m, z, |rest|))
  {
    hide Lit;
    var m1 := SizeMarks(m, z, |rest|);
    SpacesLit(">", next, rest, m1);
    SizeRun(z, Closing(next), ">" + rest, m);
    assert (z + (">" + rest))[0] == z[0];
    SpacesOne(SizeRe(Closing(next)), z + (">" + rest), m);
    SpacesLit(",", Spaces(SizeRe(Closing(next))), " " + (z + (">" + rest)), m);
    assert ", " + z + ">" + rest == "," + (" " + (z + (">" + rest)));
  }

  lemma ArrayTypeEnds(next: Re)
    ensures EndsIdent(Close(GT, SizePart(next)))
  {
    forall s: string, m: Marks | s != "" && In(s[0], IdentChar) ensures Run(Close(GT, SizePart(next)), s, m).None? {
      assert Run(Lit(",", Spaces(SizeRe(Closing(next)))), s, m[2 * GT + 1 := |s|]).None?;
    }
  }

  lemma NoComma(b: string, t: string, rest: string)
    requires Wordy(b) && |b| > |t| && "," <= rest
    ensures !(b <= t + rest)
  {
    assert (t + rest)[|t|] == ',';
  }

  lemma ArrayTypeLongest(t: string, next: Re, rest: string, m: Marks)
    requires "," <= rest
    ensures NoLonger(BUILTINS, t, next, rest, m)
  {
    hide BUILTINS, Wordy;
    forall b | b in BUILTINS && |b| > |t| ensures !(b <= t + rest) {
      BuiltinText(b);
      NoComma(b, t, rest);
    }
  }

  const STD_ARRAY := "std::array"

  function ElementPart(next: Re): Re { Spaces(TypeRe(SizePart(next))) }

  function ArrayMarks(m: Marks, t: string, z: string, after: nat): Marks {
    SizeMarks(TypeMarks(m, t, 3 + |z| + after), z, after)
  }

  lemma ArrayRun(t: string, z: string, next: Re, rest: string, m: Marks)
    requires ValidType(t) && z != "" && AllIn(z, Digit) && Run(next, rest, ArrayMarks(m, t, z, |rest|)).Some?
    ensures Run(ArrayRe(next), "std::array<" + t + ", " + z + ">" + rest, m)
         == Run(next, rest, ArrayMarks(m, t, z, |rest|))
  {
    hide TypeRe, Lit, SizePart, EndsIdent, NoLonger, ValidType, BUILTINS, Run, Alternatives;
    var after := ", " + z + ">" + rest;
    assert |after| == 3 + |z| + |rest| && after[0] == ',';
    SizePartRun(z, next, rest, TypeMarks(m, t, |after|));
    ArrayTypeEnds(next);
    ArrayTypeLongest(t, Close(GT, SizePart(next)), after, m[2 * GT := |t| + |after|]);
    TypeRun(t, SizePart(next), after, m);
    TypeStart(t);
    var u := "<" + (t + after);
    assert (t + after)[0] == t[0];
    SpacesSkip(TypeRe(SizePart(next)), t + after, m);
    SpacesLit("<", ElementPart(next), t + after, m);
    SpacesLit(STD_ARRAY, Spaces(Lit("<", ElementPart(next))), u, m);
    assert "std::array<" + t + ", " + z + ">" + rest == STD_ARRAY + u;
    ArrayReParts(next);
  }

  lemma ArrayReParts(next: Re)
    ensures ArrayRe(next) == Spaces(Lit(STD_ARRAY, Spaces(Lit("<", ElementPart(next)))))
  {
    hide Lit, TypeRe, SizeRe;
  }
}
