/** Whatever the parser returns is a member that can be printed: types, names, sizes,
    default values and units have the form that their patterns say. */
module ParsedMembers {
  import opened Options
  import opened Regexes
  import opened MemberParser
  import opened MemberTokens
  import opened MemberTypes

  predicate ValidSize(z: string) { z != "" && AllIn(z, Digit) }

  /** What a group may hold. */
  predicate ValidGroup(g: nat, v: string) {
    if g == GT then ValidType(v)
    else if g == GS then ValidSize(v)
    else if g == GN then ValidName(v)
    else if g == GD then v != ""
    else g == GU ==> ValidUnit(v)
  }

  ghost predicate Captures(s: string, m: Marks) {
    forall g :: 0 <= g < 5 && Group(s, m, g).Some? ==> ValidGroup(g, Group(s, m, g).value)
  }

  predicate Suffix(s: string, rest: string) { |rest| <= |s| && s[|s| - |rest|..] == rest }

  /** Matching `re` anywhere in `s` captures valid text only. */
  ghost predicate Keeps(re: Re, s: string) {
    forall rest, m {:trigger Run(re, rest, m)} ::
      Suffix(s, rest) && Captures(s, m) && Run(re, rest, m).Some? ==> Captures(s, Run(re, rest, m).value)
  }

  lemma SuffixOfSuffix(s: string, rest: string, j: nat)
    requires Suffix(s, rest) && j <= |rest|
    ensures Suffix(s, rest[j..])
  {
  }

  lemma {:induction false} StarSplits(k: Class, next: Re, s: string, m: Marks) returns (j: nat)
    ensures j <= |s| && AllIn(s[..j], k) && Run(Star(k, next), s, m) == Run(next, s[j..], m)
  {
    if s != "" && In(s[0], k) && Run(Star(k, next), s[1..], m).Some? {
      var i := StarSplits(k, next, s[1..], m);
      j := i + 1;
      assert s[..j] == [s[0]] + s[1..][..i] && s[j..] == s[1..][i..];
    } else {
      j := 0;
      assert s[0..] == s;
    }
  }

  lemma KeepsStar(k: Class, next: Re, s: string)
    requires Keeps(next, s)
    ensures Keeps(Star(k, next), s)
  {
    hide Captures, Run;
    forall rest, m | Suffix(s, rest) && Captures(s, m) && Run(Star(k, next), rest, m).Some?
      ensures Captures(s, Run(Star(k, next), rest, m).value)
    {
      var j := StarSplits(k, next, rest, m);
      SuffixOfSuffix(s, rest, j);
    }
  }

  lemma KeepsOne(k: Class, next: Re, s: string)
    requires Keeps(next, s)
    ensures Keeps(One(k, next), s)
  {
    hide Captures;
    forall rest, m | Suffix(s, rest) && Captures(s, m) && Run(One(k, next), rest, m).Some?
      ensures Captures(s, Run(One(k, next), rest, m).value)
    {
      SuffixOfSuffix(s, rest, 1);
    }
  }

  lemma KeepsOr(first: Re, second: Re, s: string)
    requires Keeps(first, s) && Keeps(second, s)
    ensures Keeps(Or(first, second), s)
  {
    hide Captures, Run;
    forall rest, m | Suffix(s, rest) && Captures(s, m) && Run(Or(first, second), rest, m).Some?
      ensures Captures(s, Run(Or(first, second), rest, m).value)
    {
      RunOr(first, second, rest, m);
    }
  }

  lemma {:induction false} KeepsLit(w: string, next: Re, s: string)
    requires Keeps(next, s)
    ensures Keeps(Lit(w, next), s)
  {
    hide Keeps;
    if w != "" {
      KeepsLit(w[1..], next, s);
      KeepsOne(Only(w[0]), Lit(w[1..], next), s);
    }
  }

  /** Recording a group that holds what it may. */
  lemma GroupKeepsCaptures(s: string, rest: string, m: Marks, g: nat, j: nat)
    requires Suffix(s, rest) && Captures(s, m) && j <= |rest| && (g < 5 ==> ValidGroup(g, rest[..j]))
    ensures Captures(s, m[2 * g := |rest|][2 * g + 1 := |rest| - j])
  {
    hide ValidGroup;
    var m' := m[2 * g := |rest|][2 * g + 1 := |rest| - j];
    assert s[|s| - |rest|..|s| - (|rest| - j)] == rest[..j];
    forall h | 0 <= h < 5 && h != g ensures Group(s, m', h) == Group(s, m, h) {}
  }

  // ---------------------------------------------------------------------
  // Each kind of group

  lemma IdentBodySplits(next: Re, s: string, m: Marks) returns (i: nat)
    requires Run(IdentBody(next), s, m).Some?
    ensures 0 < i <= |s| && IsAlpha(s[0]) && AllIn(s[..i], IdentChar)
    ensures Run(IdentBody(next), s, m) == Run(next, s[i..], m)
  {
    var j := StarSplits(Alpha, Star(IdentChar, next), s[1..], m);
    var k := StarSplits(IdentChar, next, s[1..][j..], m);
    i := 1 + j + k;
    assert s[1..][j..][k..] == s[i..];
    assert s[..i] == [s[0]] + s[1..][..j] + s[1..][j..][..k];
  }

  lemma IdentSplits(next: Re, s: string, m: Marks) returns (i: nat)
    requires Run(IdentRe(next), s, m).Some?
    ensures i <= |s| && ValidIdent(s[..i]) && Run(IdentRe(next), s, m) == Run(next, s[i..], m)
  {
    hide IdentBody;
    RunLit("::", IdentBody(next), s, m);
    if "::" <= s && Run(IdentBody(next), s[|"::"|..], m).Some? {
      var j := IdentBodySplits(next, s[2..], m);
      i := 2 + j;
      assert s[2..][j..] == s[i..] && s[..i][2..] == s[2..][..j] && "::" <= s[..i];
    } else {
      i := IdentBodySplits(next, s, m);
      assert s[..i][0] == s[0];
    }
  }

  lemma {:induction false} AlternativesSplit(bs: seq<string>, next: Re, s: string, m: Marks) returns (i: nat)
    requires Run(Alternatives(bs, next), s, m).Some?
    ensures i <= |s| && (s[..i] in bs || ValidIdent(s[..i]))
    ensures Run(Alternatives(bs, next), s, m) == Run(next, s[i..], m)
  {
    hide IdentRe, Lit, ValidIdent;
    if bs == [] {
      i := IdentSplits(next, s, m);
    } else if Run(Lit(bs[0], next), s, m).Some? {
      RunLit(bs[0], next, s, m);
      i := |bs[0]|;
      assert s[..i] == bs[0];
    } else {
      i := AlternativesSplit(bs[1..], next, s, m);
    }
  }

  lemma KeepsAlternatives(bs: seq<string>, next: Re, s: string)
    requires Keeps(next, s) && forall b :: b in bs ==> ValidType(b)
    ensures Keeps(Open(GT, Alternatives(bs, Close(GT, next))), s)
  {
    hide Captures, Alternatives, ValidType;
    forall rest, m | Suffix(s, rest) && Captures(s, m)
      && Run(Open(GT, Alternatives(bs, Close(GT, next))), rest, m).Some?
      ensures Captures(s, Run(Open(GT, Alternatives(bs, Close(GT, next))), rest, m).value)
    {
      var i := AlternativesSplit(bs, Close(GT, next), rest, m[2 * GT := |rest|]);
      IdentIsType(rest[..i]);
      GroupKeepsCaptures(s, rest, m, GT, i);
      SuffixOfSuffix(s, rest, i);
    }
  }

  lemma IdentIsType(t: string)
    ensures ValidIdent(t) ==> ValidType(t)
  {
  }

  lemma BuiltinsAreTypes()
    ensures forall b :: b in BUILTINS ==> ValidType(b)
  {
  }

  lemma KeepsType(next: Re, s: string)
    requires Keeps(next, s)
    ensures Keeps(TypeRe(next), s)
  {
    hide Keeps, Alternatives, ValidType;
    BuiltinsAreTypes();
    KeepsAlternatives(BUILTINS, next, s);
  }

  /** A group that has been closed, before a given character. */
  lemma CloseSplits(g: nat, c: char, next: Re, y: string, m: Marks)
    requires Run(Close(g, One(Only(c), next)), y, m).Some?
    ensures y != "" && y[0] == c && Run(Close(g, One(Only(c), next)), y, m) == Run(next, y[1..], m[2 * g + 1 := |y|])
  {
  }

  /** A character of one class, more of it, then more of another. */
  lemma PlusSplits(k: Class, l: Class, next: Re, s: string, m: Marks) returns (i: nat, j: nat)
    requires Run(Plus(k, Star(l, next)), s, m).Some?
    ensures 0 < i <= j <= |s| && AllIn(s[..i], k) && AllIn(s[i..j], l)
    ensures Run(Plus(k, Star(l, next)), s, m) == Run(next, s[j..], m)
  {
    var a := StarSplits(k, Star(l, next), s[1..], m);
    var b := StarSplits(l, next, s[1..][a..], m);
    i, j := 1 + a, 1 + a + b;
    assert s[1..][a..][b..] == s[j..] && s[1..][a..][..b] == s[i..j];
    assert s[..i] == [s[0]] + s[1..][..a];
  }

  lemma KeepsName(next: Re, s: string)
    requires Keeps(next, s)
    ensures Keeps(NameRe(next), s)
  {
    forall rest, m | Suffix(s, rest) && Captures(s, m) && Run(NameRe(next), rest, m).Some?
      ensures Captures(s, Run(NameRe(next), rest, m).value)
    {
      hide Captures;
      var m1 := m[2 * GN := |rest|];
      assert Run(Plus(AlphaUnderscore, Star(WordChar, Close(GN, next))), rest, m1).Some?;
      var i, j := PlusSplits(AlphaUnderscore, WordChar, Close(GN, next), rest, m1);
      assert rest[..j] == rest[..i] + rest[i..j] && rest[..j][0] == rest[..i][0];
      GroupKeepsCaptures(s, rest, m, GN, j);
      SuffixOfSuffix(s, rest, j);
    }
  }

  lemma KeepsSize(next: Re, s: string)
    requires Keeps(next, s)
    ensures Keeps(SizeRe(next), s)
  {
    forall rest, m | Suffix(s, rest) && Captures(s, m) && Run(SizeRe(next), rest, m).Some?
      ensures Captures(s, Run(SizeRe(next), rest, m).value)
    {
      hide Captures;
      var m1 := m[2 * GS := |rest|];
      assert Run(Plus(Digit, Close(GS, next)), rest, m1).Some?;
      var j := StarSplits(Digit, Close(GS, next), rest[1..], m1);
      assert rest[..j + 1] == [rest[0]] + rest[1..][..j] && rest[1..][j..] == rest[j + 1..];
      GroupKeepsCaptures(s, rest, m, GS, j + 1);
      SuffixOfSuffix(s, rest, j + 1);
    }
  }

  function DefBranch(next: Re): Re { One(Only('{'), Open(GD, Plus(AnyChar, Close(GD, One(Only('}'), next))))) }

  lemma DefSplits(next: Re, s: string, m: Marks) returns (j: nat)
    requires Run(DefBranch(next), s, m).Some?
    ensures 1 < j < |s| && Run(DefBranch(next), s, m) == Run(next, s[j + 1..], m[6 := |s| - 1][7 := |s| - j])
  {
    var close := Close(GD, One(Only('}'), next));
    var x, m1 := s[1..], m[6 := |s| - 1];
    assert Run(Plus(AnyChar, close), x, m1) == Run(DefBranch(next), s, m);
    assert Run(Star(AnyChar, close), x[1..], m1) == Run(DefBranch(next), s, m);
    var i := StarSplits(AnyChar, close, x[1..], m1);
    j := i + 2;
    assert x[1..][i..] == s[j..];
    CloseSplits(GD, '}', next, s[j..], m1);
    assert s[j..][1..] == s[j + 1..];
  }

  lemma KeepsDef(next: Re, s: string)
    requires Keeps(next, s)
    ensures Keeps(DefRe(next), s)
  {
    hide Captures;
    forall rest, m | Suffix(s, rest) && Captures(s, m) && Run(DefBranch(next), rest, m).Some?
      ensures Captures(s, Run(DefBranch(next), rest, m).value)
    {
      var j := DefSplits(next, rest, m);
      hide Run, Keeps;
      SuffixOfSuffix(s, rest, 1);
      SuffixOfSuffix(s, rest, j + 1);
      GroupKeepsCaptures(s, rest[1..], m, GD, j - 1);
    }
    hide Keeps, Plus;
    KeepsOr(DefBranch(next), next, s);
  }

  function UnitBranch(next: Re): Re {
    Open(GU, Plus(UnitHead, Star(WordChar, Close(GU, One(Only(']'), next)))))
  }

  lemma UnitSplits(next: Re, x: string, m: Marks) returns (j: nat)
    requires Run(UnitBranch(next), x, m).Some?
    ensures j < |x| && ValidUnit(x[..j])
    ensures Run(UnitBranch(next), x, m) == Run(next, x[j + 1..], m[2 * GU := |x|][2 * GU + 1 := |x| - j])
  {
    var close := Close(GU, One(Only(']'), next));
    var m1 := m[2 * GU := |x|];
    assert Run(UnitBranch(next), x, m) == Run(Plus(UnitHead, Star(WordChar, close)), x, m1);
    hide Run;
    var i;
    i, j := PlusSplits(UnitHead, WordChar, close, x, m1);
    CloseSplits(GU, ']', next, x[j..], m1);
    assert x[j..][1..] == x[j + 1..];
    assert x[..j][..i] == x[..i] && x[..j][i..] == x[i..j];
  }

  lemma UnitGroup(u: string)
    ensures ValidUnit(u) ==> ValidGroup(GU, u)
  {
  }

  lemma KeepsUnit(next: Re, s: string)
    requires Keeps(next, s)
    ensures Keeps(UnitRe(next), s)
  {
    var branch := One(Only('['), UnitBranch(next));
    forall rest, m | Suffix(s, rest) && Captures(s, m) && Run(branch, rest, m).Some?
      ensures Captures(s, Run(branch, rest, m).value)
    {
      var x := rest[1..];
      assert Run(branch, rest, m) == Run(UnitBranch(next), x, m);
      hide Captures, Run, UnitBranch, ValidUnit, ValidGroup;
      SuffixOfSuffix(s, rest, 1);
      var j := UnitSplits(next, x, m);
      UnitGroup(x[..j]);
      GroupKeepsCaptures(s, x, m, GU, j);
      SuffixOfSuffix(s, x, j + 1);
    }
    hide Keeps, Plus;
    KeepsOr(branch, next, s);
  }

  lemma KeepsComment(s: string)
    ensures Keeps(CommentRe(), s)
  {
    var last := Close(GC, Accept);
    forall rest, m | Suffix(s, rest) && Captures(s, m) && Run(Open(GC, Star(AnyChar, last)), rest, m).Some?
      ensures Captures(s, Run(Open(GC, Star(AnyChar, last)), rest, m).value)
    {
      hide Captures;
      var j := StarSplits(AnyChar, last, rest, m[2 * GC := |rest|]);
      assert |rest[j..]| == |rest| - j;
      assert Run(last, rest[j..], m[2 * GC := |rest|]) == Some(m[2 * GC := |rest|][2 * GC + 1 := |rest[j..]|]);
      GroupKeepsCaptures(s, rest, m, GC, j);
    }
    hide Keeps;
    KeepsStar(Only(' '), Open(GC, Star(AnyChar, last)), s);
    KeepsLit("//", Spaces(Open(GC, Star(AnyChar, last))), s);
  }

  // ---------------------------------------------------------------------
  // The four patterns

  lemma KeepsSpaces(next: Re, s: string)
    requires Keeps(next, s)
    ensures Keeps(Spaces(next), s) && Keeps(Plus(Only(' '), next), s)
  {
    hide Keeps;
    KeepsStar(Only(' '), next, s);
    KeepsOne(Only(' '), Star(Only(' '), next), s);
  }

  lemma KeepsRests(s: string)
    ensures Keeps(Rest(), s) && Keeps(BareRest(), s)
  {
    assert Keeps(Accept, s);
    hide Keeps, CommentRe, UnitRe, DefRe;
    KeepsComment(s);
    KeepsSpaces(CommentRe(), s);
    KeepsUnit(Spaces(CommentRe()), s);
    KeepsSpaces(UnitRe(Spaces(CommentRe())), s);
    KeepsDef(Tail(), s);
    KeepsSpaces(DefRe(Tail()), s);
    KeepsUnit(Accept, s);
    KeepsSpaces(UnitRe(Accept), s);
    KeepsDef(BareTail(), s);
    KeepsSpaces(DefRe(BareTail()), s);
  }

  lemma KeepsPlain(next: Re, s: string)
    requires Keeps(next, s)
    ensures Keeps(PlainHead(next), s)
  {
    hide Keeps, NameRe, TypeRe;
    KeepsName(next, s);
    KeepsSpaces(NameRe(next), s);
    KeepsType(NamePart(next), s);
    KeepsSpaces(TypeRe(NamePart(next)), s);
  }

  lemma KeepsArray(next: Re, s: string)
    requires Keeps(next, s)
    ensures Keeps(ArrayRe(next), s)
  {
    hide Keeps, Lit, TypeRe, SizeRe;
    KeepsLit(">", next, s);
    KeepsSpaces(Lit(">", next), s);
    KeepsSize(Closing(next), s);
    KeepsSpaces(SizeRe(Closing(next)), s);
    KeepsLit(",", Spaces(SizeRe(Closing(next))), s);
    KeepsSpaces(Lit(",", Spaces(SizeRe(Closing(next)))), s);
    KeepsType(SizePart(next), s);
    KeepsSpaces(TypeRe(SizePart(next)), s);
    KeepsLit("<", ElementPart(next), s);
    KeepsSpaces(Lit("<", ElementPart(next)), s);
    KeepsLit(STD_ARRAY, Spaces(Lit("<", ElementPart(next))), s);
    KeepsSpaces(Lit(STD_ARRAY, Spaces(Lit("<", ElementPart(next)))), s);
    ArrayReParts(next);
  }

  lemma KeepsAll(s: string)
    ensures Keeps(FullArray(), s) && Keeps(FullMember(), s) && Keeps(BareArray(), s) && Keeps(BareMember(), s)
  {
    hide Keeps, Rest, BareRest, NameRe, ArrayRe, PlainHead;
    KeepsRests(s);
    KeepsPlain(Rest(), s);
    KeepsPlain(BareRest(), s);
    KeepsName(Rest(), s);
    KeepsSpaces(NameRe(Rest()), s);
    KeepsArray(Spaces(NameRe(Rest())), s);
    KeepsName(BareRest(), s);
    KeepsSpaces(NameRe(BareRest()), s);
    KeepsArray(Plus(Only(' '), NameRe(BareRest())), s);
    KeepsSpaces(ArrayRe(Plus(Only(' '), NameRe(BareRest()))), s);
  }

  // ---------------------------------------------------------------------
  // Parsed members

  lemma ConvertedIsPrintable(s: string, m: Marks)
    requires Captures(s, m) && Convert(s, m).Some?
    ensures Printable(Convert(s, m).value)
  {
    hide ValidType, NormalType, ValidUnit, Normalise, Strip, Group;
    var t := Group(s, m, GT);
    assert ValidGroup(GT, t.value);
    NormalIsNormal(t.value);
    NormalTypeIff(Normalise(t.value).value);
    assert Group(s, m, GS).Some? ==> ValidGroup(GS, Group(s, m, GS).value);
    assert ValidGroup(GN, Group(s, m, GN).value);
    assert Group(s, m, GD).Some? ==> ValidGroup(GD, Group(s, m, GD).value);
    assert Group(s, m, GU).Some? ==> ValidGroup(GU, Group(s, m, GU).value);
  }

  lemma MatchIsPrintable(re: Re, s: string)
    requires Keeps(re, s) && Run(re, s, map[]).Some? && Convert(s, Run(re, s, map[]).value).Some?
    ensures Printable(Convert(s, Run(re, s, map[]).value).value)
  {
    assert Captures(s, map[]);
    assert Suffix(s, s);
    hide Run, Captures, Convert, Printable;
    ConvertedIsPrintable(s, Run(re, s, map[]).value);
  }

  lemma {:induction false} FirstMatchIsPrintable(s: string, res: seq<Re>)
    requires (forall re :: re in res ==> Keeps(re, s)) && FirstMatch(s, res).Some?
    ensures Printable(FirstMatch(s, res).value)
  {
    hide Run, Convert, Printable, Keeps;
    if Run(res[0], s, map[]).Some? {
      assert res[0] in res;
      MatchIsPrintable(res[0], s);
    } else {
      FirstMatchIsPrintable(s, res[1..]);
    }
  }

  /** Every member that the parser returns is printable. */
  lemma ParsedIsPrintable(s: string, requireDescription: bool)
    requires Parse(s, requireDescription).Some?
    ensures Printable(Parse(s, requireDescription).value)
  {
    hide FullArray, FullMember, BareArray, BareMember, Keeps, Printable, FirstMatch;
    KeepsAll(s);
    var described := [FullArray(), FullMember()];
    FirstMatchIsPrintable(s, if requireDescription then described else described + [BareArray(), BareMember()]);
  }
}
