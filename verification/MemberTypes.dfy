/** The types of members: what the patterns admit, and what normalisation leaves. */
module MemberTypes {
  import opened Options
  import opened Regexes
  import opened MemberParser

  predicate ValidIdent(t: string) {
    var b := if "::" <= t then t[2..] else t;
    b != "" && IsAlpha(b[0]) && AllIn(b, IdentChar)
  }

  /** What the type pattern admits. */
  predicate ValidType(t: string) { t in BUILTINS || ValidIdent(t) }

  const STD_FIXED_WIDTH: seq<string> :=
    ["std::int16_t", "std::int32_t", "std::int64_t", "std::uint16_t", "std::uint32_t", "std::uint64_t"]

  /** The types of members: builtin ones, portable fixed width ones with their namespace,
      and others with at most one namespace. */
  predicate NormalType(t: string) {
    t in BUILTINS || t in STD_FIXED_WIDTH || (ValidIdent(t) && !LooksFixedWidth(WithoutStd(t)) && Parts(t) <= 2)
  }

  lemma BuiltinStarts(t: string)
    requires t in BUILTINS
    ensures |t| >= 3 && (t == "int" || t[0] != 'i') && (t[0] == 'u' ==> t[1] == 'n') && (t[0] == 's' ==> t[1] != 't')
  {
  }

  lemma BuiltinsAreNormal(t: string)
    requires t in BUILTINS
    ensures !LooksFixedWidth(WithoutStd(t))
  {
    BuiltinStarts(t);
    hide BUILTINS;
    assert !("std::" <= t) by { assert "std::"[0] == 's' && "std::"[1] == 't'; }
    assert "int"[0] == 'i' && "int"[1] == 'n' && "u"[0] == 'u';
  }

  lemma LooksFixed(sign: string, width: string)
    requires sign in ["", "u"] && width in ["16_t", "32_t", "64_t"]
    ensures LooksFixedWidth(sign + "int" + width)
  {
    var t := sign + "int" + width;
    var k := |sign|;
    assert Has(t, 0, "u") <==> k == 1 by { assert "u"[0] == 'u' && t[0] == if k == 1 then 'u' else 'i'; }
    assert t[k..k + 3] == "int" && t[k + 3..] == width;
    assert t[k + 3] == width[0] && "_fast"[0] == '_' && "_least"[0] == '_';
    assert Has(t, k, "int") && Has(t, k + 3, width);
  }

  lemma FixedWidthParts(u: string) returns (sign: string, width: string)
    requires u in FIXED_WIDTH
    ensures sign in ["", "u"] && width in ["16_t", "32_t", "64_t"] && u == sign + "int" + width
  {
    sign := if u[0] == 'u' then "u" else "";
    width := u[|sign| + 3..];
    assert u[..|sign| + 3] == sign + "int";
  }

  lemma FixedWidthIdent(u: string)
    requires u in FIXED_WIDTH
    ensures u != "" && AllIn(u, IdentChar)
  {
  }

  lemma WithStd(u: string)
    requires AllIn(u, IdentChar)
    ensures ValidIdent("std::" + u) && WithoutStd("std::" + u) == u
  {
    assert ("std::" + u)[..5] == "std::" && ("std::" + u)[5..] == u;
  }

  lemma FixedWidthIsNormal(u: string)
    requires u in FIXED_WIDTH
    ensures ValidIdent("std::" + u) && WithoutStd("std::" + u) == u && LooksFixedWidth(u)
  {
    hide LooksFixedWidth, ValidIdent, WithoutStd, FIXED_WIDTH;
    var sign, width := FixedWidthParts(u);
    LooksFixed(sign, width);
    FixedWidthIdent(u);
    WithStd(u);
  }

  lemma {:induction false} NoParts(t: string)
    requires forall i :: 0 <= i < |t| ==> t[i] != ':'
    ensures Parts(t) == 1
  {
    if |t| >= 2 { NoParts(t[1..]); }
  }

  lemma BuiltinHasNoParts(t: string)
    requires t in BUILTINS
    ensures forall i :: 0 <= i < |t| ==> t[i] != ':'
  {
  }

  lemma StdFixedWidth(u: string)
    requires u in FIXED_WIDTH
    ensures "std::" + u in STD_FIXED_WIDTH
  {
    assert "std::" + "int16_t" == STD_FIXED_WIDTH[0] && "std::" + "int32_t" == STD_FIXED_WIDTH[1];
    assert "std::" + "int64_t" == STD_FIXED_WIDTH[2] && "std::" + "uint16_t" == STD_FIXED_WIDTH[3];
    assert "std::" + "uint32_t" == STD_FIXED_WIDTH[4] && "std::" + "uint64_t" == STD_FIXED_WIDTH[5];
  }

  lemma FixedWidthOf(t: string)
    requires t in STD_FIXED_WIDTH
    ensures "std::" <= t && t[5..] in FIXED_WIDTH
  {
  }

  /** Normal types are the valid types that normalisation leaves as they are. */
  lemma NormalTypeIff(t: string)
    ensures NormalType(t) <==> ValidType(t) && Normalise(t) == Some(t)
  {
    hide BUILTINS, STD_FIXED_WIDTH, FIXED_WIDTH, ValidIdent, LooksFixedWidth, Parts;
    var u := WithoutStd(t);
    if t in BUILTINS {
      BuiltinsAreNormal(t);
      BuiltinHasNoParts(t);
      NoParts(t);
    } else if t in STD_FIXED_WIDTH {
      FixedWidthOf(t);
      assert t == "std::" + t[5..];
      FixedWidthIsNormal(t[5..]);
    } else if LooksFixedWidth(u) && u in FIXED_WIDTH {
      StdFixedWidth(u);
    }
  }

  /** Normalising once is enough. */
  lemma NormalIsNormal(t: string)
    requires ValidType(t) && Normalise(t).Some?
    ensures NormalType(Normalise(t).value)
  {
    hide BUILTINS, STD_FIXED_WIDTH, FIXED_WIDTH, ValidIdent, LooksFixedWidth, Parts;
    if LooksFixedWidth(WithoutStd(t)) { StdFixedWidth(WithoutStd(t)); }
  }
}
