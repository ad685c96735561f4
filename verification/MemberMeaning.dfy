/** What the patterns admit and what normalisation does, in plain characters. */
module MemberMeaning {
  import opened Options
  import opened Regexes
  import opened RegexFacts
  import opened MemberParser
  import opened MemberTypes
  import opened MemberTokens
  import opened PrintedMembers
  import opened MemberRoundTrip

  /** The fixed width integer types of <cstdint>. */
  const SPELLINGS: seq<string> :=
    ["int8_t", "int16_t", "int32_t", "int64_t",
     "int_fast8_t", "int_fast16_t", "int_fast32_t", "int_fast64_t",
     "int_least8_t", "int_least16_t", "int_least32_t", "int_least64_t",
     "uint8_t", "uint16_t", "uint32_t", "uint64_t",
     "uint_fast8_t", "uint_fast16_t", "uint_fast32_t", "uint_fast64_t",
     "uint_least8_t", "uint_least16_t", "uint_least32_t", "uint_least64_t"]

  // ---------------------------------------------------------------------
  // Fixed width types

  function Sign(i: nat): string { if i == 0 then "" else "u" }
  function Kind(i: nat): string { if i == 0 then "" else if i == 1 then "_fast" else "_least" }
  function Width(i: nat): string {
    if i == 0 then "8_t" else if i == 1 then "16_t" else if i == 2 then "32_t" else "64_t"
  }

  function Spelling(s: nat, k: nat, w: nat): string { Sign(s) + "int" + Kind(k) + Width(w) }

  /** What comes before the width. */
  function Stem(s: nat, k: nat): string {
    if s == 0 then (if k == 0 then "int" else if k == 1 then "int_fast" else "int_least")
    else if k == 0 then "uint" else if k == 1 then "uint_fast" else "uint_least"
  }

  lemma StemIs(s: nat, k: nat)
    requires s < 2 && k < 3
    ensures Sign(s) + "int" + Kind(k) == Stem(s, k)
  {
  }

  lemma StemAt(s: nat, k: nat, w: nat)
    requires s < 2 && k < 3 && w < 4
    ensures |SPELLINGS| == 24 && SPELLINGS[12 * s + 4 * k + w] == Stem(s, k) + Width(w)
  {
    if s == 0 { SignedAt(k, w); } else { UnsignedAt(k, w); }
  }

  lemma SignedAt(k: nat, w: nat)
    requires k < 3 && w < 4
    ensures SPELLINGS[4 * k + w] == Stem(0, k) + Width(w)
  {
    match k
    case 0 => assert SPELLINGS[w] == "int" + Width(w);
    case 1 => assert SPELLINGS[4 + w] == "int_fast" + Width(w);
    case _ => assert SPELLINGS[8 + w] == "int_least" + Width(w);
  }

  lemma UnsignedAt(k: nat, w: nat)
    requires k < 3 && w < 4
    ensures SPELLINGS[12 + 4 * k + w] == Stem(1, k) + Width(w)
  {
    match k
    case 0 => assert SPELLINGS[12 + w] == "uint" + Width(w);
    case 1 => assert SPELLINGS[16 + w] == "uint_fast" + Width(w);
    case _ => assert SPELLINGS[20 + w] == "uint_least" + Width(w);
  }

  lemma SpellingAt(s: nat, k: nat, w: nat)
    requires s < 2 && k < 3 && w < 4
    ensures |SPELLINGS| == 24 && SPELLINGS[12 * s + 4 * k + w] == Spelling(s, k, w)
  {
    StemAt(s, k, w);
    StemIs(s, k);
    hide Stem, Sign, Kind, Width;
  }

  lemma SplitIndex(i: nat) returns (s: nat, k: nat, w: nat)
    requires i < 24
    ensures s < 2 && k < 3 && w < 4 && i == 12 * s + 4 * k + w
  {
    s := if i < 12 then 0 else 1;
    var j := i - 12 * s;
    k := if j < 4 then 0 else if j < 8 then 1 else 2;
    w := j - 4 * k;
  }

  lemma SpellingOf(x: string) returns (s: nat, k: nat, w: nat)
    requires x in SPELLINGS
    ensures s < 2 && k < 3 && w < 4 && x == Spelling(s, k, w)
  {
    hide SPELLINGS, Spelling;
    SpellingAt(0, 0, 0);
    var i :| 0 <= i < |SPELLINGS| && SPELLINGS[i] == x;
    s, k, w := SplitIndex(i);
    SpellingAt(s, k, w);
  }

  /** The parts of a spelling one after the other. */
  lemma SpellingParts(t: string, s: nat, k: nat, w: nat)
    requires s < 2 && k < 3 && w < 4
    ensures Spelling(s, k, w) <= t <==>
      var j := |Sign(s)|;
      Has(t, 0, Sign(s)) && Has(t, j, "int") && Has(t, j + 3, Kind(k)) && Has(t, j + 3 + |Kind(k)|, Width(w))
  {
    hide Sign, Kind, Width, Has;
    FourParts(t, Sign(s), "int", Kind(k), Width(w));
  }

  lemma FourParts(t: string, a: string, b: string, c: string, d: string)
    ensures a + b + c + d <= t <==>
      Has(t, 0, a) && Has(t, |a|, b) && Has(t, |a| + |b|, c) && Has(t, |a| + |b| + |c|, d)
  {
    PrefixParts(t, a + b + c, d);
    PrefixParts(t, a + b, c);
    PrefixParts(t, a, b);
    PrefixIsHas(t, a);
  }

  lemma PrefixIsHas(t: string, a: string)
    ensures a <= t <==> Has(t, 0, a)
  {
    if Has(t, 0, a) { assert t[..|a|] == a; }
  }

  lemma PrefixParts(t: string, a: string, b: string)
    ensures a + b <= t <==> a <= t && Has(t, |a|, b)
  {
    if a <= t && Has(t, |a|, b) {
      assert t[..|a| + |b|] == a + b by {
        forall i | 0 <= i < |a + b| ensures t[i] == (a + b)[i] {
          if i >= |a| { assert t[|a| + (i - |a|)] == b[i - |a|]; }
        }
      }
    }
    if a + b <= t {
      assert (a + b)[..|a|] == a;
      forall i | 0 <= i < |b| ensures t[|a| + i] == b[i] { assert (a + b)[|a| + i] == b[i]; }
    }
  }

  lemma AKind(t: string, j: nat, w: nat)
    requires w < 4
    ensures Has(t, j, Width(w)) ==> !Has(t, j, "_fast") && !Has(t, j, "_least")
    ensures !(Has(t, j, "_fast") && Has(t, j, "_least"))
  {
    assert "_fast"[0] == "_least"[0] == '_' && "_fast"[1] == 'f' && "_least"[1] == 'l';
    assert Width(w)[0] in "8136";
  }

  lemma ASign(t: string, s: nat)
    requires s < 2 && Has(t, 0, Sign(s)) && Has(t, |Sign(s)|, "int")
    ensures Has(t, 0, "u") <==> s == 1
  {
    assert "u"[0] == 'u' && "int"[0] == 'i';
  }

  lemma SpellingLooksFixed(t: string, s: nat, k: nat, w: nat)
    requires s < 2 && k < 3 && w < 4 && Spelling(s, k, w) <= t
    ensures LooksFixedWidth(t)
  {
    hide Has, Spelling;
    SpellingParts(t, s, k, w);
    ASign(t, s);
    AKind(t, |Sign(s)| + 3, w);
    assert |Sign(s)| == s && |Kind(1)| == 5 && |Kind(2)| == 6;
  }

  lemma LooksFixedSpelling(t: string) returns (s: nat, k: nat, w: nat)
    requires LooksFixedWidth(t)
    ensures s < 2 && k < 3 && w < 4 && Spelling(s, k, w) <= t
  {
    hide Has, Spelling;
    s := if Has(t, 0, "u") then 1 else 0;
    var j := |Sign(s)| + 3;
    k := if Has(t, j, "_fast") then 1 else if Has(t, j, "_least") then 2 else 0;
    var i := j + |Kind(k)|;
    w := if Has(t, i, "8_t") then 0 else if Has(t, i, "16_t") then 1 else if Has(t, i, "32_t") then 2 else 3;
    HasRoom(t, |Sign(s)|, "int");
    HasNothing(t, 0);
    HasNothing(t, j);
    SpellingParts(t, s, k, w);
  }

  lemma HasRoom(t: string, k: nat, w: string)
    ensures Has(t, k, w) ==> k + |w| <= |t|
  {
  }

  lemma HasNothing(t: string, k: nat)
    ensures Has(t, k, "") <==> k <= |t|
  {
  }

  /** A type is a fixed width type if it begins with one of the spellings. */
  lemma LooksFixedIff(t: string)
    ensures LooksFixedWidth(t) <==> exists x :: x in SPELLINGS && x <= t
  {
    hide LooksFixedWidth, SPELLINGS, Spelling;
    if LooksFixedWidth(t) {
      var s, k, w := LooksFixedSpelling(t);
      SpellingAt(s, k, w);
      assert SPELLINGS[12 * s + 4 * k + w] in SPELLINGS;
    }
    if x :| x in SPELLINGS && x <= t {
      var s, k, w := SpellingOf(x);
      SpellingLooksFixed(t, s, k, w);
    }
  }

  // ---------------------------------------------------------------------
  // Namespaces and normalisation

  predicate Colons(t: string, i: int) { 0 <= i && i + 2 <= |t| && t[i] == t[i + 1] == ':' }

  /** Two double colons, one after the other. */
  ghost predicate NestedNamespace(t: string) { exists i, j :: Colons(t, i) && Colons(t, j) && i + 2 <= j }

  lemma {:induction false} PartsIff(t: string)
    ensures Parts(t) >= 1 && (Parts(t) > 1 <==> exists i :: Colons(t, i))
    ensures Parts(t) > 2 <==> NestedNamespace(t)
  {
    if |t| >= 2 {
      var k := if Colons(t, 0) then 2 else 1;
      var u := t[k..];
      PartsIff(u);
      assert Parts(t) == k - 1 + Parts(u);
      forall i ensures Colons(u, i) <==> i >= 0 && Colons(t, i + k) {}
      hide Colons, Parts;
      if i :| Colons(u, i) { assert Colons(t, i + k) && (k == 2 ==> Colons(t, 0) && 0 + 2 <= i + k); }
      if i, j :| Colons(u, i) && Colons(u, j) && i + 2 <= j { assert Colons(t, i + k) && Colons(t, j + k); }
      if i :| Colons(t, i) { CountsLater(t, u, i, k); }
      if i, j :| Colons(t, i) && Colons(t, j) && i + 2 <= j {
        CountsLater(t, u, i, k);
        CountsLater(t, u, j, k);
      }
    } else {
      assert forall i :: !Colons(t, i);
    }
  }

  lemma CountsLater(t: string, u: string, i: int, k: nat)
    requires |t| >= 2 && k == (if Colons(t, 0) then 2 else 1) && u == t[k..] && Colons(t, i)
    ensures i >= k ==> Colons(u, i - k)
    ensures i >= 0 && (k == 1 ==> i >= 1)
  {
  }

  /** One of the fixed width types that are not allowed, or more than one namespace. */
  ghost predicate Refused(t: string) {
    var u := if "std::" <= t then t[5..] else t;
    u !in ["int16_t", "int32_t", "int64_t", "uint16_t", "uint32_t", "uint64_t"]
    && ((exists x :: x in SPELLINGS && x <= u) || NestedNamespace(t))
  }

  /** Allowed fixed width types get their namespace, errors are None, other types stay. */
  lemma NormaliseIs(t: string)
    ensures var u := if "std::" <= t then t[5..] else t;
      Normalise(t) ==
        if u in ["int16_t", "int32_t", "int64_t", "uint16_t", "uint32_t", "uint64_t"] then Some("std::" + u)
        else if Refused(t) then None else Some(t)
  {
    hide LooksFixedWidth, SPELLINGS, Parts, NestedNamespace, ValidIdent;
    var u := WithoutStd(t);
    LooksFixedIff(u);
    PartsIff(t);
    if u in FIXED_WIDTH { FixedWidthIsNormal(u); }
  }

  /** What becomes of a member that is written down with a type of any spelling. */
  lemma ParsedType(m: Member, requireDescription: bool)
    requires Spelled(m) && Clean(m) && (requireDescription ==> m.description != "")
    ensures var t := m.ty.t;
      var u := if "std::" <= t then t[5..] else t;
      Parse(Print(m), requireDescription) ==
        if u in ["int16_t", "int32_t", "int64_t", "uint16_t", "uint32_t", "uint64_t"]
        then Some(m.(ty := m.ty.(t := "std::" + u)))
        else if Refused(t) then None else Some(m)
  {
    hide Parse, Print, Clean, Spelled, Refused, Normalise;
    CleanParse(m, requireDescription);
    NormaliseIs(m.ty.t);
  }

  // ---------------------------------------------------------------------
  // What the patterns admit, by characters

  predicate Letter(c: char) { 'a' <= c <= 'z' || 'A' <= c <= 'Z' }
  predicate Numeral(c: char) { '0' <= c <= '9' }
  predicate Word(c: char) { Letter(c) || Numeral(c) || c == '_' || (c as int >= 128 && c in OTHER_WORD) }

  const BUILTIN_TYPES: seq<string> :=
    ["int", "bool", "char", "long", "short", "float", "double", "unsigned", "long long", "unsigned int",
     "unsigned long", "unsigned long long"]

  predicate TypeSpelling(t: string) {
    t in BUILTIN_TYPES || IdentSpelling(if "::" <= t then t[2..] else t)
  }

  predicate IdentSpelling(b: string) {
    b != "" && Letter(b[0]) && forall i :: 0 <= i < |b| ==> Letter(b[i]) || Numeral(b[i]) || b[i] == ':' || b[i] == '_'
  }

  predicate NameSpelling(n: string) {
    n != "" && (Letter(n[0]) || n[0] == '_') && forall i :: 0 <= i < |n| ==> Word(n[i])
  }

  predicate UnitSpelling(u: string) { exists i :: 0 < i <= |u| && UnitSplit(u, i) }

  predicate UnitSplit(u: string, i: nat)
    requires i <= |u|
  {
    && (forall j :: 0 <= j < i ==> Letter(u[j]) || u[j] == '_' || u[j] == '*' || u[j] == '/')
    && (forall j :: i <= j < |u| ==> Word(u[j]))
  }

  /** Which members can be written down. */
  lemma SpelledIff(m: Member)
    ensures Spelled(m) <==>
      && TypeSpelling(m.ty.t) && NameSpelling(m.name) && (m.ty.Array? ==> SizeSpelling(m.ty.size))
      && (m.def.Some? ==> m.def.value != "") && (m.unit.Some? ==> UnitSpelling(m.unit.value))
  {
    if m.unit.Some? { UnitSpellingIff(m.unit.value); }
    TypeSpellingIff(m.ty.t);
    NameSpellingIff(m.name);
    if m.ty.Array? { SizeSpellingIff(m.ty.size); }
    hide ValidType, TypeSpelling, ValidUnit, UnitSpelling, ValidName, NameSpelling, SizeSpelling;
  }

  lemma NameSpellingIff(n: string)
    ensures ValidName(n) <==> NameSpelling(n)
  {
    if n != "" { assert In(n[0], AlphaUnderscore) <==> Letter(n[0]) || n[0] == '_'; }
    forall i | 0 <= i < |n| ensures In(n[i], WordChar) <==> Word(n[i]) {}
    hide Word, In;
    assert AllIn(n, WordChar) <==> forall i :: 0 <= i < |n| ==> Word(n[i]);
  }

  lemma SizeSpellingIff(z: string)
    ensures z != "" && AllIn(z, Digit) <==> SizeSpelling(z)
  {
    if AllIn(z, Digit) { forall i | 0 <= i < |z| ensures Numeral(z[i]) { assert In(z[i], Digit); } }
  }

  predicate SizeSpelling(z: string) { z != "" && forall i :: 0 <= i < |z| ==> Numeral(z[i]) }

  lemma TypeSpellingIff(t: string)
    ensures ValidType(t) <==> TypeSpelling(t)
  {
    BuiltinsAre(t);
    IdentSpellingIff(if "::" <= t then t[2..] else t);
    hide BUILTINS, BUILTIN_TYPES, IdentSpelling;
  }

  lemma IdentSpellingIff(b: string)
    ensures b != "" && IsAlpha(b[0]) && AllIn(b, IdentChar) <==> IdentSpelling(b)
  {
    if IdentSpelling(b) { assert AllIn(b, IdentChar); }
    if b != "" && AllIn(b, IdentChar) {
      forall i | 0 <= i < |b| ensures Letter(b[i]) || Numeral(b[i]) || b[i] == ':' || b[i] == '_' {
        assert In(b[i], IdentChar);
      }
    }
  }

  lemma BuiltinsAre(t: string)
    ensures t in BUILTINS <==> t in BUILTIN_TYPES
  {
  }

  lemma UnitSpellingIff(u: string)
    ensures ValidUnit(u) <==> UnitSpelling(u)
  {
    forall i: nat | i <= |u| ensures UnitSplit(u, i) <==> AllIn(u[..i], UnitHead) && AllIn(u[i..], WordChar) {
      UnitSplitIff(u, i);
    }
    hide UnitSplit, AllIn;
  }

  lemma UnitSplitIff(u: string, i: nat)
    requires i <= |u|
    ensures UnitSplit(u, i) <==> AllIn(u[..i], UnitHead) && AllIn(u[i..], WordChar)
  {
    var a, b := u[..i], u[i..];
    assert forall j :: 0 <= j < i ==> a[j] == u[j];
    if AllIn(b, WordChar) {
      forall j | i <= j < |u| ensures Word(u[j]) { assert b[j - i] == u[j]; }
    }
  }

  /** Stripping takes away white space at both ends, and nothing else. */
  lemma {:induction false} StripIs(s: string) returns (a: string, b: string)
    ensures s == a + Strip(s) + b && AllWhite(a) && AllWhite(b)
    ensures var t := Strip(s); t != "" ==> !White(t[0]) && !White(t[|t| - 1])
  {
    hide White, IsSpace, AllWhite;
    a, b := "", "";
    NoWhite();
    if s == "" { return; }
    WhiteIff(s[0]);
    WhiteIff(s[|s| - 1]);
    if IsSpace(s[0]) {
      a, b := StripIs(s[1..]);
      a := [s[0]] + a;
      MoreWhite(s[0], a[1..]);
    } else if IsSpace(s[|s| - 1]) {
      a, b := StripIs(s[..|s| - 1]);
      MoreWhite(s[|s| - 1], b);
      b := b + [s[|s| - 1]];
    }
  }

  lemma NoWhite()
    ensures AllWhite("")
  {
  }

  lemma MoreWhite(c: char, a: string)
    requires White(c) && AllWhite(a)
    ensures AllWhite([c] + a) && AllWhite(a + [c])
  {
    hide White;
  }

  predicate AllWhite(s: string) { forall i :: 0 <= i < |s| ==> White(s[i]) }

  /** White space as understood by str.strip. */
  predicate White(c: char) {
    c as int in
      [0x9, 0xa, 0xb, 0xc, 0xd, 0x1c, 0x1d, 0x1e, 0x1f, 0x20, 0x85, 0xa0, 0x1680, 0x2000, 0x2001, 0x2002, 0x2003,
       0x2004, 0x2005, 0x2006, 0x2007, 0x2008, 0x2009, 0x200a, 0x2028, 0x2029, 0x202f, 0x205f, 0x3000]
  }

  lemma WhiteIff(c: char)
    ensures White(c) <==> IsSpace(c)
  {
  }

  // ---------------------------------------------------------------------
  // Printed members and what becomes of them

  /** The printed form is type, name, {default}, [unit] and // description. */
  lemma PrintedForms()
    ensures Print(Member("i", Plain("int"), "an int", Some("42"), Some("GeV"))) == "int i{42}[GeV] // an int"
    ensures Print(Member("fs", Array("float", "2"), "", None, None)) == "std::array<float, 2> fs"
  {
  }
}
