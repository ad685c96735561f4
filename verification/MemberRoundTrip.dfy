/** Parsing the printed form of a member gives the member back, exactly when no other
    closing brace can be taken for the end of the default value. */
module MemberRoundTrip {
  import opened Options
  import opened Regexes
  import opened RegexFacts
  import opened MemberParser
  import opened MemberTokens
  import opened MemberTypes
  import opened ParsedMembers
  import opened PrintedMembers

  // ---------------------------------------------------------------------
  // The patterns that do not match

  lemma BuiltinToks(b: string)
    requires b in BUILTINS
    ensures AllTok(b, TypeTokens)
  {
  }

  lemma NotStd(b: string, s: string)
    requires b in BUILTINS && b <= s
    ensures !(STD_ARRAY <= s)
  {
    assert |b| > 1 && (b[0] != 's' || b[1] == 'h');
    assert s[0] == b[0] && s[1] == b[1];
    assert STD_ARRAY[0] == 's' && STD_ARRAY[1] == 't';
  }

  lemma {:induction false} AlternativesLead(bs: seq<string>, next: Re, part: Re, ts: Tokens)
    requires (forall b :: b in bs ==> AllTok(b, TypeTokens)) && LeadsTo(next, part, ts)
    ensures LeadsTo(Alternatives(bs, next), part, ts)
  {
    if bs == [] {
      assert LeadsTo(Star(IdentChar, next), part, ts);
      assert LeadsTo(Star(Alpha, Star(IdentChar, next)), part, ts);
      assert LeadsTo(IdentBody(next), part, ts);
      LitLeads("::", IdentBody(next), part, ts);
    } else {
      assert AllTok(bs[0], TypeTokens);
      forall b | b in bs[1..] ensures AllTok(b, TypeTokens) { assert b in bs; }
      LitLeads(bs[0], next, part, ts);
      AlternativesLead(bs[1..], next, part, ts);
    }
  }

  lemma TypeLeads(next: Re, part: Re, ts: Tokens)
    requires LeadsTo(next, part, ts)
    ensures LeadsTo(TypeRe(next), part, ts)
  {
    hide Alternatives, AllTok, BUILTINS;
    forall b | b in BUILTINS ensures AllTok(b, TypeTokens) { BuiltinToks(b); }
    assert LeadsTo(Close(GT, next), part, ts);
    AlternativesLead(BUILTINS, Close(GT, next), part, ts);
  }

  lemma NameLeads(next: Re)
    ensures LeadsTo(NameRe(next), next, HeadTokens)
  {
    assert LeadsTo(Close(GN, next), next, HeadTokens);
    assert LeadsTo(Star(WordChar, Close(GN, next)), next, HeadTokens);
    assert LeadsTo(Star(AlphaUnderscore, Star(WordChar, Close(GN, next))), next, HeadTokens);
    assert LeadsTo(Plus(AlphaUnderscore, Star(WordChar, Close(GN, next))), next, HeadTokens);
  }

  lemma SizeLeads(next: Re, part: Re)
    requires LeadsTo(next, part, HeadTokens)
    ensures LeadsTo(SizePart(next), part, HeadTokens)
  {
    var c := Closing(next);
    assert LeadsTo(c, part, HeadTokens) by { LitLeads(">", next, part, HeadTokens); }
    assert LeadsTo(Star(Digit, Close(GS, c)), part, HeadTokens);
    assert LeadsTo(SizeRe(c), part, HeadTokens);
    LitLeads(",", Spaces(SizeRe(c)), part, HeadTokens);
  }

  lemma SpacesLead(next: Re, part: Re)
    requires LeadsTo(next, part, HeadTokens)
    ensures LeadsTo(Spaces(next), part, HeadTokens)
  {
  }

  lemma ArrayLeads(next: Re, part: Re)
    requires LeadsTo(next, part, HeadTokens)
    ensures LeadsTo(ArrayRe(next), part, HeadTokens)
  {
    hide SizePart, TypeRe, Lit, LeadsTo;
    SizeLeads(next, part);
    TypeLeads(SizePart(next), part, HeadTokens);
    SpacesLead(TypeRe(SizePart(next)), part);
    LitLeads("<", ElementPart(next), part, HeadTokens);
    SpacesLead(Lit("<", ElementPart(next)), part);
    LitLeads(STD_ARRAY, Spaces(Lit("<", ElementPart(next))), part, HeadTokens);
    SpacesLead(Lit(STD_ARRAY, Spaces(Lit("<", ElementPart(next)))), part);
    ArrayReParts(next);
  }

  lemma FullLeads(m: Member)
    ensures LeadsTo(Whole(m, Rest(), true), Rest(), HeadTokens)
  {
    hide NameRe, TypeRe, ArrayRe, Rest;
    NameLeads(Rest());
    if m.ty.Plain? {
      TypeLeads(NamePart(Rest()), Rest(), HeadTokens);
    } else {
      ArrayLeads(Spaces(NameRe(Rest())), Rest());
    }
  }

  lemma TypeTextToks(ty: MemberType)
    requires ValidType(ty.t) && (ty.Array? ==> AllIn(ty.size, Digit))
    ensures AllTok(TypeText(ty), HeadTokens)
  {
    hide BUILTINS;
    if ty.t in BUILTINS { BuiltinToks(ty.t); }
    assert AllTok(ty.t, HeadTokens);
    if ty.Array? {
      assert AllTok("std::array<", HeadTokens) && AllTok(", ", HeadTokens) && AllTok(">", HeadTokens);
      assert AllTok(ty.size, HeadTokens);
    }
  }

  /** The pattern with a description finds none where there is none. */
  lemma FullFails(m: Member)
    requires Spelled(m) && Clean(m) && m.description == ""
    ensures Run(Whole(m, Rest(), true), Print(m), map[]).None?
  {
    hide Rest, Run, Print, TypeText, After, Guarded, Whole, LeadsTo, NeverAt, ValidType, NormalType, Normalise,
         ValidUnit, Clean, Printable;
    RestFails(m, map[]);
    PrintParts(m);
    PrintableHead(m);
    AfterStart(m);
    RestIsGuarded();
    NeverInHead(Rest(), Head(m), After(m));
    FullLeads(m);
    LeadsFails(Whole(m, Rest(), true), Rest(), HeadTokens, Print(m), map[]);
  }

  lemma PrintableHead(m: Member)
    requires Spelled(m)
    ensures AllTok(Head(m), HeadTokens) && Head(m) != "" && Head(m)[|Head(m)| - 1] != ' '
  {
    hide ValidType, NormalType, Normalise, ValidUnit, AllTok;
    NormalTypeIff(m.ty.t);
    TypeTextToks(m.ty);
    HeadToks(m);
  }

  lemma HeadToks(m: Member)
    requires AllTok(TypeText(m.ty), HeadTokens) && ValidName(m.name)
    ensures AllTok(Head(m), HeadTokens) && Head(m) != "" && Head(m)[|Head(m)| - 1] != ' '
  {
    hide TypeText;
    assert Head(m)[|Head(m)| - 1] == m.name[|m.name| - 1];
  }

  lemma RestIsGuarded()
    ensures Guarded(Rest())
  {
    assert Guarded(CommentRe());
    assert Guarded(Spaces(CommentRe()));
    assert Guarded(UnitRe(Spaces(CommentRe())));
    assert Guarded(Tail());
    assert Guarded(DefRe(Tail()));
  }

  lemma AfterStart(m: Member)
    requires Spelled(m) && m.description == ""
    ensures After(m) == "" || !Tok(After(m)[0], HeadTokens)
  {
    hide ValidUnit, ValidType, NormalType, Normalise, ValidName;
  }

  /** The array patterns fail for a plain member. */
  lemma NotAnArray(m: Member, next: Re)
    requires Spelled(m) && m.ty.Plain?
    ensures Run(ArrayRe(next), Print(m), map[]).None? && Run(Spaces(ArrayRe(next)), Print(m), map[]).None?
  {
    hide ArrayRe, Run, After, Print, NormalType, Normalise, ValidName, ValidUnit, BUILTINS, Lit, ElementPart;
    var t, s := m.ty.t, Print(m);
    PrintParts(m);
    NormalTypeIff(t);
    TypeStart(t);
    assert s[..|t|] == t && s[0] == t[0];
    ArrayReParts(next);
    SpacesSkip(Lit(STD_ARRAY, Spaces(Lit("<", ElementPart(next)))), s, map[]);
    SpacesSkip(ArrayRe(next), s, map[]);
    RunLit(STD_ARRAY, Spaces(Lit("<", ElementPart(next))), s, map[]);
    if t in BUILTINS { NotStd(t, s); }
    if STD_ARRAY <= s { NoAngle(m, ElementPart(next)); }
  }

  lemma NoSpaceBefore(w: string, s: string, i: nat)
    requires w <= s && AllIn(w, IdentChar) && i < |s| && s[i] == ' '
    ensures |w| <= i
  {
    assert s[..|w|] == w && forall j :: 0 <= j < |w| ==> s[j] == w[j];
  }

  lemma NoAngle(m: Member, next: Re)
    requires ValidIdent(m.ty.t) && ValidName(m.name) && m.ty.Plain? && STD_ARRAY <= Print(m)
    ensures Run(Spaces(Lit("<", next)), Print(m)[|STD_ARRAY|..], map[]).None?
  {
    hide Run, After, Print;
    var t, s := m.ty.t, Print(m);
    var y := s[|STD_ARRAY|..];
    PrintParts(m);
    assert AllIn(t, IdentChar);
    hide ValidIdent;
    assert s[|t|] == ' ' && s[|t| + 1] == m.name[0];
    NoSpaceBefore(STD_ARRAY, s, |t|);
    RunLit("<", next, y, map[]);
    if |t| == |STD_ARRAY| {
      assert y[0] == ' ' && y[1] == m.name[0] && y[1..][0] == y[1];
      RunLit("<", next, y[1..], map[]);
      SpacesSkip(Lit("<", next), y[1..], map[]);
      SpaceFails(Lit("<", next), y);
    } else {
      assert y[0] == t[|STD_ARRAY|];
      SpacesSkip(Lit("<", next), y, map[]);
    }
  }

  lemma SpaceFails(next: Re, y: string)
    requires y != "" && y[0] == ' ' && Run(Spaces(next), y[1..], map[]).None? && Run(next, y, map[]).None?
    ensures Run(Spaces(next), y, map[]).None?
  {
  }

  lemma {:induction false} NoNameInWord(next: Re, w: string, rest: string)
    requires AllIn(w, IdentChar) && (rest == "" || !Tok(rest[0], TypeTokens))
    ensures NeverAt(NamePart(next), TypeTokens, w + rest)
  {
    hide NamePart;
    NoName(next, w + rest, map[]);
    if w == "" {
      assert w + rest == rest;
    } else {
      assert (w + rest)[1..] == w[1..] + rest;
      NoNameInWord(next, w[1..], rest);
    }
  }

  /** What follows the name of the array template. */
  function ArrayRest(m: Member): string
    requires m.ty.Array?
  {
    "<" + m.ty.t + ", " + m.ty.size + ">" + " " + m.name + After(m)
  }

  lemma ArrayParts(m: Member)
    requires m.ty.Array?
    ensures Print(m) == STD_ARRAY + ArrayRest(m)
  {
    hide After, Print;
    PrintParts(m);
    assert "std::array<" == STD_ARRAY + "<";
    RegroupAll(STD_ARRAY, "<", m.ty.t, ", ", m.ty.size, ">", " ", m.name, After(m));
  }

  lemma RegroupAll(w: string, a: string, b: string, c: string, d: string, e: string, f: string,
                   g: string, h: string)
    ensures (w + a) + b + c + d + e + f + g + h == w + (a + b + c + d + e + f + g + h)
  {
    Assoc(w, a, b);
    Assoc(w, a + b, c);
    Assoc(w, a + b + c, d);
    Assoc(w, a + b + c + d, e);
    Assoc(w, a + b + c + d + e, f);
    Assoc(w, a + b + c + d + e + f, g);
    Assoc(w, a + b + c + d + e + f + g, h);
  }

  /** The patterns for plain members fail for an array. */
  lemma NotPlain(m: Member, next: Re)
    requires m.ty.Array?
    ensures Run(PlainHead(next), Print(m), map[]).None?
  {
    var rest := ArrayRest(m);
    hide After, NameRe, TypeRe, NamePart, Run, LeadsTo, PlainHead, NeverAt, Print, ArrayRest;
    ArrayParts(m);
    NoNameInWord(next, STD_ARRAY, rest);
    HeadLeads(next);
    LeadsFails(PlainHead(next), NamePart(next), TypeTokens, Print(m), map[]);
  }

  lemma HeadLeads(next: Re)
    ensures LeadsTo(PlainHead(next), NamePart(next), TypeTokens)
  {
    hide TypeRe, NameRe;
    assert LeadsTo(NamePart(next), NamePart(next), TypeTokens);
    TypeLeads(NamePart(next), NamePart(next), TypeTokens);
    assert LeadsTo(Spaces(TypeRe(NamePart(next))), NamePart(next), TypeTokens);
  }

  // ---------------------------------------------------------------------
  // Parsing what was printed

  /** What the pattern that decides has matched. */
  lemma DecidingMatch(m: Member, requireDescription: bool)
    requires Spelled(m)
    ensures var full := Run(Whole(m, Rest(), true), Print(m), map[]);
      full.Some? ==> Parse(Print(m), requireDescription) == Convert(Print(m), full.value)
    ensures var bare := Run(Whole(m, BareRest(), false), Print(m), map[]);
      Run(Whole(m, Rest(), true), Print(m), map[]).None? ==>
        Parse(Print(m), requireDescription) ==
          if !requireDescription && bare.Some? then Convert(Print(m), bare.value)
          else None
  {
    hide ArrayRe, PlainHead, Rest, BareRest, NameRe, Run, Print, Convert, Printable;
    var s := Print(m);
    if m.ty.Plain? {
      NotAnArray(m, Spaces(NameRe(Rest())));
      NotAnArray(m, Plus(Only(' '), NameRe(BareRest())));
    } else {
      NotPlain(m, Rest());
      NotPlain(m, BareRest());
    }
    FourPatterns(s);
  }

  lemma NextPattern(s: string, re: Re, rest: seq<Re>)
    ensures FirstMatch(s, [re] + rest) ==
      var r := Run(re, s, map[]);
      if r.Some? then Convert(s, r.value) else FirstMatch(s, rest)
  {
    assert ([re] + rest)[1..] == rest;
  }

  lemma FourPatterns(s: string)
    ensures var a, b := Run(FullArray(), s, map[]), Run(FullMember(), s, map[]);
      var c, d := Run(BareArray(), s, map[]), Run(BareMember(), s, map[]);
      && Parse(s, true) == (if a.Some? then Convert(s, a.value) else if b.Some? then Convert(s, b.value) else None)
      && Parse(s, false) == (if a.Some? then Convert(s, a.value) else if b.Some? then Convert(s, b.value)
                             else if c.Some? then Convert(s, c.value)
                              else if d.Some? then Convert(s, d.value) else None)
  {
    hide FullArray, FullMember, BareArray, BareMember, Run, Convert, FirstMatch;
    var a, b, c, d := FullArray(), FullMember(), BareArray(), BareMember();
    NextPattern(s, a, [b]);
    NextPattern(s, b, []);
    NextPattern(s, a, [b, c, d]);
    NextPattern(s, b, [c, d]);
    NextPattern(s, c, [d]);
    NextPattern(s, d, []);
    assert [a] + [b] == [a, b] && [b] + [] == [b] && [d] + [] == [d];
    assert [a] + [b, c, d] == [a, b] + [c, d] && [b] + [c, d] == [b, c, d] && [c] + [d] == [c, d];
    NoPattern(s);
  }

  lemma NoPattern(s: string)
    ensures FirstMatch(s, []) == None
  {
  }

  /** With or without descriptions being required, a member that prints cleanly is parsed to
      itself with its type normalised, or to an error where that is one. */
  lemma CleanParse(m: Member, requireDescription: bool)
    requires Spelled(m) && Clean(m) && (requireDescription ==> m.description != "")
    ensures Parse(Print(m), requireDescription) == Make(m.name, m.ty, m.description, m.def, m.unit)
  {
    hide Rest, BareRest, Whole, Run, Print, Convert, Parse, Spelled, Make;
    assert Strip(m.description) == m.description;
    Converts(m);
    DecidingMatch(m, requireDescription);
    if m.description != "" {
      RestRun(m, HeadMarks(m));
      HeadRun(m, Rest(), true);
    } else {
      FullFails(m);
      BareRestRun(m, HeadMarks(m));
      HeadRun(m, BareRest(), false);
    }
  }

  lemma CleanRoundTrip(m: Member, requireDescription: bool)
    requires Printable(m) && Clean(m) && (requireDescription ==> m.description != "")
    ensures Parse(Print(m), requireDescription) == Some(m)
  {
    NormalTypeIff(m.ty.t);
    hide Print, Parse, Spelled, Normalise;
    CleanParse(m, requireDescription);
  }

  // ---------------------------------------------------------------------
  // What a successful round trip implies

  lemma {:induction false} AlternativesDotted(bs: seq<string>, next: Re, g: nat)
    requires Dotted(next, g, Unopened)
    ensures Dotted(Alternatives(bs, next), g, Unopened)
  {
    if bs == [] {
      assert Dotted(Star(IdentChar, next), g, Unopened);
      assert Dotted(Star(Alpha, Star(IdentChar, next)), g, Unopened);
      LitDotted("::", IdentBody(next), g, Unopened);
    } else {
      LitDotted(bs[0], next, g, Unopened);
      AlternativesDotted(bs[1..], next, g);
    }
  }

  lemma TypeDotted(next: Re, g: nat)
    requires Dotted(next, g, Unopened) && g > GN
    ensures Dotted(TypeRe(next), g, Unopened)
  {
    hide Alternatives;
    AlternativesDotted(BUILTINS, Close(GT, next), g);
  }

  lemma NameDotted(next: Re, g: nat)
    requires Dotted(next, g, Unopened) && g > GN
    ensures Dotted(NameRe(next), g, Unopened)
  {
    assert Dotted(Close(GN, next), g, Unopened);
    assert Dotted(Star(WordChar, Close(GN, next)), g, Unopened);
    assert Dotted(Star(AlphaUnderscore, Star(WordChar, Close(GN, next))), g, Unopened);
    assert Dotted(Plus(AlphaUnderscore, Star(WordChar, Close(GN, next))), g, Unopened);
  }

  lemma SpacesDotted(next: Re, g: nat)
    requires Dotted(next, g, Unopened)
    ensures Dotted(Spaces(next), g, Unopened) && Dotted(Plus(Only(' '), next), g, Unopened)
  {
    assert Dotted(Spaces(next), g, Unopened);
  }

  lemma ArrayDotted(next: Re, g: nat)
    requires Dotted(next, g, Unopened) && g > GN
    ensures Dotted(ArrayRe(next), g, Unopened)
  {
    hide Lit, TypeRe;
    var c := Closing(next);
    LitDotted(">", next, g, Unopened);
    assert Dotted(Close(GS, c), g, Unopened);
    assert Dotted(Star(Digit, Close(GS, c)), g, Unopened);
    assert Dotted(SizeRe(c), g, Unopened);
    LitDotted(",", Spaces(SizeRe(c)), g, Unopened);
    TypeDotted(SizePart(next), g);
    LitDotted("<", ElementPart(next), g, Unopened);
    LitDotted(STD_ARRAY, Spaces(Lit("<", ElementPart(next))), g, Unopened);
    ArrayReParts(next);
  }

  lemma WholeDotted(m: Member, next: Re, full: bool, g: nat)
    requires Dotted(next, g, Unopened) && g > GN
    ensures Dotted(Whole(m, next, full), g, Unopened)
  {
    hide NameRe, TypeRe, ArrayRe;
    NameDotted(next, g);
    SpacesDotted(NameRe(next), g);
    if m.ty.Plain? {
      TypeDotted(NamePart(next), g);
    } else if full {
      ArrayDotted(Spaces(NameRe(next)), g);
    } else {
      ArrayDotted(NamePart(next), g);
    }
  }

  lemma UnitDotted(next: Re, g: nat, stage: Stage)
    requires Dotted(next, g, stage) && g != GU && stage != Inside
    ensures Dotted(Spaces(UnitRe(next)), g, stage)
  {
    var close := Close(GU, One(Only(']'), next));
    assert Dotted(close, g, stage);
    assert Dotted(Star(WordChar, close), g, stage);
    assert Dotted(UnitBody(next), g, stage);
  }

  lemma RestDotted(g: nat)
    requires g == GD || g == GC
    ensures Dotted(Rest(), g, Unopened) && Dotted(BareRest(), g, Unopened)
  {
    var text := Open(GC, Star(AnyChar, Close(GC, Accept)));
    assert Dotted(text, GC, Unopened) && Dotted(text, GD, Unopened) && Dotted(text, GD, Complete);
    forall stage | stage != Inside && (g == GD || stage == Unopened) ensures Dotted(Tail(), g, stage) {
      LitDotted("//", Spaces(text), g, stage);
      UnitDotted(Spaces(CommentRe()), g, stage);
    }
    forall stage | stage != Inside ensures Dotted(BareTail(), g, stage) { UnitDotted(Accept, g, stage); }
    DefDotted(Tail(), g);
    DefDotted(BareTail(), g);
  }

  lemma DefDotted(tail: Re, g: nat)
    requires g == GD || g == GC
    requires Dotted(tail, g, Unopened) && (g == GD ==> Dotted(tail, g, Complete))
    ensures Dotted(Spaces(DefRe(tail)), g, Unopened)
  {
    var close := CloseDef(tail);
    var stage := if g == GD then Inside else Unopened;
    assert Dotted(One(Only('}'), tail), g, if g == GD then Complete else Unopened);
    assert Dotted(close, g, stage);
    assert Dotted(Star(AnyChar, close), g, stage);
    assert Dotted(Plus(AnyChar, close), g, stage);
    assert Dotted(Open(GD, Plus(AnyChar, close)), g, Unopened);
    assert Dotted(DefRe(tail), g, Unopened);
  }

  lemma {:induction false} StripIsFinal(s: string)
    ensures Strip(Strip(s)) == Strip(s) && (AllIn(s, AnyChar) ==> AllIn(Strip(s), AnyChar))
  {
    if s != "" && IsSpace(s[0]) { StripIsFinal(s[1..]); }
    else if s != "" && IsSpace(s[|s| - 1]) { StripIsFinal(s[..|s| - 1]); }
  }

  predicate OnOneLine(m: Member) {
    && Strip(m.description) == m.description && AllIn(m.description, AnyChar)
    && (m.def.Some? ==> AllIn(m.def.value, AnyChar))
  }

  /** What a pattern captures has no newline, and the description is stripped. */
  lemma MatchIsOnOneLine(re: Re, s: string)
    requires Dotted(re, GD, Unopened) && Dotted(re, GC, Unopened)
    requires Run(re, s, map[]).Some? && Convert(s, Run(re, s, map[]).value).Some?
    ensures OnOneLine(Convert(s, Run(re, s, map[]).value).value)
  {
    hide Run, Strip, Normalise;
    assert s[|s| - |s|..] == s;
    GroupIsDotted(re, s, s, map[], GD, Unopened);
    GroupIsDotted(re, s, s, map[], GC, Unopened);
    var comment := Group(s, Run(re, s, map[]).value, GC);
    if comment.Some? { StripIsFinal(comment.value); }
    StripEmpty();
  }

  /** The parts of the member that comes back have no newline, the description is stripped. */
  lemma ComesBackOnOneLine(m: Member, next: Re, full: bool)
    requires next == Rest() || next == BareRest()
    requires var r := Run(Whole(m, next, full), Print(m), map[]);
      r.Some? && Convert(Print(m), r.value) == Some(m)
    ensures OnOneLine(m)
  {
    hide Whole, Rest, BareRest, Run, OnOneLine, Convert, Print;
    RestDotted(GD);
    WholeDotted(m, next, full, GD);
    RestDotted(GC);
    WholeDotted(m, next, full, GC);
    MatchIsOnOneLine(Whole(m, next, full), Print(m));
  }

  lemma StripEmpty()
    ensures Strip("") == ""
  {
  }

  lemma LastEnd(x: string, p: nat) returns (q: nat)
    requires MayEnd(x, p)
    ensures q >= p && MayEnd(x, q) && forall r :: r > q ==> !MayEnd(x, r)
    decreases |x| - p
  {
    hide CommentFollows;
    if r :| p < r < |x| && MayEnd(x, r) { q := LastEnd(x, r); } else { q := p; }
  }

  predicate Avoids(re: Re, id: nat) {
    match re
    case Accept => true
    case One(_, next) => Avoids(next, id)
    case Star(_, next) => Avoids(next, id)
    case Or(first, second) => Avoids(first, id) && Avoids(second, id)
    case Mark(i, next) => i != id && Avoids(next, id)
  }

  lemma {:induction false} MarkIsKept(re: Re, s: string, m: Marks, id: nat)
    requires Avoids(re, id) && id in m && Run(re, s, m).Some?
    ensures id in Run(re, s, m).value && Run(re, s, m).value[id] == m[id]
    decreases |s|, re
  {
    match re
    case Accept =>
    case One(_, next) => MarkIsKept(next, s[1..], m, id);
    case Star(k, next) =>
      if s != "" && In(s[0], k) && Run(re, s[1..], m).Some? { MarkIsKept(re, s[1..], m, id); }
      else { MarkIsKept(next, s, m, id); }
    case Or(first, second) => MarkIsKept(if Run(first, s, m).Some? then first else second, s, m, id);
    case Mark(i, next) => MarkIsKept(next, s, m[i := |s|], id);
  }

  lemma TailAvoids(id: nat)
    requires id == 6 || id == 7
    ensures Avoids(Tail(), id)
  {
    assert Avoids(Star(AnyChar, Close(GC, Accept)), id);
    assert Avoids(CommentRe(), id);
    var next := Spaces(CommentRe());
    var close := Close(GU, One(Only(']'), next));
    assert Avoids(close, id);
    assert Avoids(Star(WordChar, close), id);
    assert Avoids(UnitRe(next), id);
  }

  /** A brace that may end the default value does end it, if it is the last one. */
  lemma TakesLastEnd(m: Member, q: nat)
    requires Printable(m) && m.def.Some? && MayEnd(AfterBrace(m), q)
    requires forall r :: r > q ==> !MayEnd(AfterBrace(m), r)
    ensures var full := Run(Whole(m, Rest(), true), Print(m), map[]);
      full.Some? && Group(Print(m), full.value, GD) == Some(AfterBrace(m)[..q])
  {
    hide Whole, Run, Print, Group, MayEnd, DefRe, Tail, ClosesAt, AfterBrace, HeadMarks, After, ValidUnit, ValidType,
         NormalType, Normalise;
    var x, hm := AfterBrace(m), HeadMarks(m);
    MayEndIff(x, q);
    EndIsInside(x, q);
    forall r | r > q ensures !ClosesAt(Tail(), x, r) { MayEndIff(x, r); }
    WithDef(Tail(), x, q, hm);
    BraceParts(m);
    HeadRun(m, Rest(), true);
    var dm := Grp(hm, GD, |x|, |x| - q);
    TailAvoids(6);
    TailAvoids(7);
    MarkIsKept(Tail(), x[q + 1..], dm, 6);
    MarkIsKept(Tail(), x[q + 1..], dm, 7);
    DefIsCaptured(m, q, Run(Whole(m, Rest(), true), Print(m), map[]).value);
  }

  lemma EndIsInside(x: string, q: nat)
    requires MayEnd(x, q)
    ensures q < |x|
  {
  }

  /** Nothing but the printed default value may end up in it. */
  lemma OnlyIfClean(m: Member, requireDescription: bool)
    requires Printable(m) && Parse(Print(m), requireDescription) == Some(m)
    ensures Clean(m)
  {
    hide Whole, Run, Print, MayEnd, Parse, Rest, BareRest, Spelled, Strip;
    DecidingMatch(m, requireDescription);
    if Run(Whole(m, Rest(), true), Print(m), map[]).Some? {
      ComesBackOnOneLine(m, Rest(), true);
    } else {
      ComesBackOnOneLine(m, BareRest(), false);
    }
    if m.def.Some? {
      forall p: nat | MayEnd(AfterBrace(m), p) ensures p <= |m.def.value| && m.description != "" {
        NoOtherEnd(m, p, requireDescription);
      }
    }
  }

  lemma NoOtherEnd(m: Member, p: nat, requireDescription: bool)
    requires Printable(m) && Parse(Print(m), requireDescription) == Some(m)
    requires m.def.Some? && MayEnd(AfterBrace(m), p)
    ensures p <= |m.def.value| && m.description != ""
  {
    hide Whole, Run, Print, MayEnd, Parse, Rest, BareRest, Normalise, Strip, After, Group, AfterBrace, ValidUnit,
         ValidType;
    DecidingMatch(m, requireDescription);
    var x := AfterBrace(m);
    var q := LastEnd(x, p);
    EndIsInside(x, q);
    TakesLastEnd(m, q);
    BraceParts(m);
    assert |x[..q]| == q && m.def.value == x[..q];
    if m.description == "" {
      NoCommentAfterUnit(m.unit);
      NotTheEnd(x, q, UnitText(m.unit));
    }
  }

  lemma NotTheEnd(x: string, q: nat, rest: string)
    requires q < |x| && x[q + 1..] == rest + CommentText("") && !CommentFollows(rest)
    ensures !MayEnd(x, q)
  {
    assert rest + CommentText("") == rest;
  }

  /** Print and parse are inverse on exactly the members that print cleanly, and, when
      descriptions are required, have one. */
  lemma RoundTripIff(m: Member, requireDescription: bool)
    requires Printable(m)
    ensures Parse(Print(m), requireDescription) == Some(m)
       <==> Clean(m) && (requireDescription ==> m.description != "")
  {
    hide Parse, Print, Clean, Spelled;
    if Parse(Print(m), requireDescription) == Some(m) {
      OnlyIfClean(m, requireDescription);
      if requireDescription && m.description == "" {
        FullFails(m);
        DecidingMatch(m, requireDescription);
      }
    } else if Clean(m) && (requireDescription ==> m.description != "") {
      CleanRoundTrip(m, requireDescription);
    }
  }

  // ---------------------------------------------------------------------
  // Members that have been parsed

  lemma FourDotted(g: nat)
    requires g == GD || g == GC
    ensures Dotted(FullArray(), g, Unopened) && Dotted(FullMember(), g, Unopened)
    ensures Dotted(BareArray(), g, Unopened) && Dotted(BareMember(), g, Unopened)
  {
    hide Rest, BareRest, ArrayRe, PlainHead, NameRe;
    RestDotted(g);
    var plain, arr := Member("", Plain(""), "", None, None), Member("", Array("", ""), "", None, None);
    WholeDotted(arr, Rest(), true, g);
    WholeDotted(plain, Rest(), true, g);
    WholeDotted(arr, BareRest(), false, g);
    WholeDotted(plain, BareRest(), false, g);
  }

  lemma {:induction false} FirstMatchIsOnOneLine(s: string, res: seq<Re>)
    requires forall re :: re in res ==> Dotted(re, GD, Unopened) && Dotted(re, GC, Unopened)
    requires FirstMatch(s, res).Some?
    ensures OnOneLine(FirstMatch(s, res).value)
  {
    hide Run, Convert, OnOneLine, Dotted;
    if Run(res[0], s, map[]).Some? {
      MatchIsOnOneLine(res[0], s);
    } else {
      FirstMatchIsOnOneLine(s, res[1..]);
    }
  }

  lemma ParsedIsOnOneLine(s: string, requireDescription: bool)
    requires Parse(s, requireDescription).Some?
    ensures OnOneLine(Parse(s, requireDescription).value)
  {
    hide FullArray, FullMember, BareArray, BareMember, Dotted, OnOneLine, FirstMatch;
    FourDotted(GD);
    FourDotted(GC);
    var described := [FullArray(), FullMember()];
    FirstMatchIsOnOneLine(s, if requireDescription then described else described + [BareArray(), BareMember()]);
  }

  /** Whatever has been parsed comes back from its printed form, unless another closing
      brace can be taken for the end of its default value. */
  lemma ParsedRoundTrip(s: string, requireDescription: bool)
    requires Parse(s, requireDescription).Some?
    ensures var m := Parse(s, requireDescription).value;
      Parse(Print(m), false) == Some(m) <==> Unambiguous(m)
  {
    hide Parse, Print, Printable, Strip, MayEnd;
    ParsedIsPrintable(s, requireDescription);
    ParsedIsOnOneLine(s, requireDescription);
    RoundTripIff(Parse(s, requireDescription).value, false);
  }

  predicate Braceless(s: string) { forall i :: 0 <= i < |s| ==> s[i] != '}' }

  /** Without closing braces in default value and description there is nothing to confuse. */
  lemma BracelessIsClean(m: Member)
    requires Spelled(m) && Strip(m.description) == m.description && AllIn(m.description, AnyChar)
    requires Braceless(m.description) && (m.def.Some? ==> AllIn(m.def.value, AnyChar) && Braceless(m.def.value))
    ensures Clean(m)
  {
    hide Strip, MayEnd, ValidType, Normalise, ValidUnit, After;
    if m.def.Some? {
      var x, d := AfterBrace(m), m.def.value;
      BraceParts(m);
      forall p | 0 <= p < |x| && p != |d| ensures !MayEnd(x, p) { OnlyBrace(m, p); }
      if m.description == "" {
        NoCommentAfterUnit(m.unit);
        NotTheEnd(x, |d|, UnitText(m.unit));
      }
    }
  }

  lemma BracelessRoundTrip(m: Member)
    requires Printable(m) && Strip(m.description) == m.description && AllIn(m.description, AnyChar)
    requires Braceless(m.description) && (m.def.Some? ==> AllIn(m.def.value, AnyChar) && Braceless(m.def.value))
    ensures Parse(Print(m), false) == Some(m)
  {
    hide Parse, Print, Spelled, Strip, Clean;
    BracelessIsClean(m);
    RoundTripIff(m, false);
  }

  lemma OnlyBrace(m: Member, p: nat)
    requires m.def.Some? && m.def.value != "" && ValidUnitOption(m.unit)
    requires Braceless(m.description) && Braceless(m.def.value) && p < |AfterBrace(m)| && p != |m.def.value|
    ensures !MayEnd(AfterBrace(m), p)
  {
    hide ValidUnit, CommentFollows;
    if m.unit.Some? { UnitIsClear(m.unit.value); }
    var d, u, c := m.def.value, UnitText(m.unit), CommentText(m.description);
    assert Braceless(u) && Braceless(c);
    assert AfterBrace(m) == d + "}" + u + c;
    hide UnitText, CommentText, AfterBrace;
    Assoc(d + "}", u, c);
    OneBrace(d, u + c, p);
  }

  lemma OneBrace(d: string, rest: string, p: nat)
    requires Braceless(d) && Braceless(rest) && p < |d + "}" + rest| && p != |d|
    ensures (d + "}" + rest)[p] != '}'
  {
  }

  const CONFUSING := Member("x", Plain("int"), "a} // b", Some("1"), None)

  lemma ConfusingIsPrintable()
    ensures Printable(CONFUSING)
  {
    assert Parts("int") == Parts("nt") == Parts("t") == 1;
    assert ValidIdent("int");
  }

  lemma ConfusingEnd()
    ensures MayEnd(AfterBrace(CONFUSING), 7)
  {
    var x := AfterBrace(CONFUSING);
    assert x == "1} // a} // b";
    assert x[8..] == " // b" && " // b"[1..] == "// b";
    assert SkipSpaces(" // b") == SkipSpaces("// b") == "// b";
    assert CommentFollows(x[8..]);
  }

  /** The default value swallows the start of a description that holds a brace and a comment. */
  lemma BracesConfuse()
    ensures Printable(CONFUSING) && Parse(Print(CONFUSING), false) != Some(CONFUSING)
  {
    hide Parse, Print, MayEnd, Printable;
    ConfusingIsPrintable();
    ConfusingEnd();
    RoundTripIff(CONFUSING, false);
  }
}
