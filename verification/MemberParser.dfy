/** Member definitions: the parser's regular expressions, the normalisation of a
    member variable, and the printed form that can be parsed again. */
module MemberParser {
  import opened Options
  import opened Regexes

  /** A type, or an array of a type. */
  datatype MemberType = Plain(t: string) | Array(t: string, size: string)

  datatype Member = Member(name: string, ty: MemberType, description: string, def: Option<string>, unit: Option<string>)

  /** The builtin types, longest first. */
  const BUILTINS: seq<string> :=
    ["unsigned long long", "unsigned long", "unsigned int", "long long", "unsigned", "double", "float", "short",
     "long", "char", "bool", "int"]

  const FIXED_WIDTH: seq<string> := ["int16_t", "int32_t", "int64_t", "uint16_t", "uint32_t", "uint64_t"]

  // ---------------------------------------------------------------------
  // The regular expressions; each takes what follows it

  const GT: nat := 0
  const GS: nat := 1
  const GN: nat := 2
  const GD: nat := 3
  const GU: nat := 4
  const GC: nat := 5

  /** [a-zA-Z]+[a-zA-Z0-9:_]*, optionally after a double colon */
  function IdentBody(next: Re): Re { Plus(Alpha, Star(IdentChar, next)) }
  function IdentRe(next: Re): Re { Or(Lit("::", IdentBody(next)), IdentBody(next)) }

  function Alternatives(builtins: seq<string>, next: Re): Re {
    if builtins == [] then IdentRe(next) else Or(Lit(builtins[0], next), Alternatives(builtins[1..], next))
  }

  function TypeRe(next: Re): Re { Open(GT, Alternatives(BUILTINS, Close(GT, next))) }
  function NameRe(next: Re): Re { Open(GN, Plus(AlphaUnderscore, Star(WordChar, Close(GN, next)))) }
  function DefRe(next: Re): Re { Or(One(Only('{'), Open(GD, Plus(AnyChar, Close(GD, One(Only('}'), next))))), next) }
  function UnitRe(next: Re): Re {
    Or(One(Only('['), Open(GU, Plus(UnitHead, Star(WordChar, Close(GU, One(Only(']'), next)))))), next)
  }
  function CommentRe(): Re { Lit("//", Spaces(Open(GC, Star(AnyChar, Close(GC, Accept))))) }
  function SizeRe(next: Re): Re { Open(GS, Plus(Digit, Close(GS, next))) }

  function ArrayRe(next: Re): Re {
    Spaces(Lit("std::array", Spaces(Lit("<", Spaces(TypeRe(
      Spaces(Lit(",", Spaces(SizeRe(Spaces(Lit(">", next))))))))))))
  }

  /** What may follow the default value: unit and comment. */
  function Tail(): Re { Spaces(UnitRe(Spaces(CommentRe()))) }
  function BareTail(): Re { Spaces(UnitRe(Accept)) }

  function Rest(): Re { Spaces(DefRe(Tail())) }
  function BareRest(): Re { Spaces(DefRe(BareTail())) }

  function PlainHead(next: Re): Re { Spaces(TypeRe(Plus(Only(' '), NameRe(next)))) }

  function FullArray(): Re { ArrayRe(Spaces(NameRe(Rest()))) }
  function FullMember(): Re { PlainHead(Rest()) }
  function BareArray(): Re { Spaces(ArrayRe(Plus(Only(' '), NameRe(BareRest())))) }
  function BareMember(): Re { PlainHead(BareRest()) }

  // ---------------------------------------------------------------------
  // Normalisation

  predicate Has(t: string, k: nat, w: string) { k + |w| <= |t| && forall i :: 0 <= i < |w| ==> t[k + i] == w[i] }

  /** u?int(_(fast|least))?(8|16|32|64)_t at the start of the name */
  predicate LooksFixedWidth(t: string) {
    var k := if Has(t, 0, "u") then 1 else 0;
    Has(t, k, "int") &&
    var j := if Has(t, k + 3, "_fast") then k + 8 else if Has(t, k + 3, "_least") then k + 9 else k + 3;
    Has(t, j, "8_t") || Has(t, j, "16_t") || Has(t, j, "32_t") || Has(t, j, "64_t")
  }

  function WithoutStd(t: string): string { if "std::" <= t then t[5..] else t }

  /** The number of parts between double colons. */
  function Parts(t: string): nat {
    if |t| < 2 then 1 else if t[0] == ':' && t[1] == ':' then 1 + Parts(t[2..]) else Parts(t[1..])
  }

  /** Fixed width types get their namespace; nested namespaces and fixed width types
      that are not portable are definition errors. */
  function Normalise(t: string): Option<string> {
    var u := WithoutStd(t);
    if LooksFixedWidth(u) then (if u in FIXED_WIDTH then Some("std::" + u) else None)
    else if Parts(t) > 2 then None else Some(t)
  }

  function Make(name: string, ty: MemberType, description: string, def: Option<string>,
                unit: Option<string>): Option<Member> {
    match Normalise(ty.t)
    case None => None
    case Some(t) => Some(Member(name, ty.(t := t), description, def, unit))
  }

  // ---------------------------------------------------------------------
  // Printing and parsing

  function TypeText(ty: MemberType): string {
    match ty
    case Plain(t) => t
    case Array(t, size) => "std::array<" + t + ", " + size + ">"
  }

  function DefText(d: Option<string>): string { if d.Some? && d.value != "" then "{" + d.value + "}" else "" }
  function UnitText(u: Option<string>): string { if u.Some? && u.value != "" then "[" + u.value + "]" else "" }
  function CommentText(c: string): string { if c != "" then " // " + c else "" }

  function Print(m: Member): string {
    TypeText(m.ty) + " " + m.name + DefText(m.def) + UnitText(m.unit) + CommentText(m.description)
  }

  /** Whitespace as understood by str.strip. */
  predicate IsSpace(c: char) {
    var x := c as int;
    9 <= x <= 13 || 28 <= x <= 32 || x == 0x85 || x == 0xa0 || x == 0x1680 || 0x2000 <= x <= 0x200a ||
    x == 0x2028 || x == 0x2029 || x == 0x202f || x == 0x205f || x == 0x3000
  }

  function Strip(s: string): string {
    if s != "" && IsSpace(s[0]) then Strip(s[1..])
    else if s != "" && IsSpace(s[|s| - 1]) then Strip(s[..|s| - 1])
    else s
  }

  function Convert(s: string, m: Marks): Option<Member> {
    var t, n := Group(s, m, GT), Group(s, m, GN);
    var size, comment := Group(s, m, GS), Group(s, m, GC);
    if t.None? || n.None? then None
    else Make(n.value, if size.Some? then Array(t.value, size.value) else Plain(t.value),
              if comment.Some? then Strip(comment.value) else "", Group(s, m, GD), Group(s, m, GU))
  }

  /** The first regular expression that matches decides; errors are None. */
  function FirstMatch(s: string, res: seq<Re>): Option<Member> {
    if res == [] then None
    else
      var m := Run(res[0], s, map[]);
      if m.Some? then Convert(s, m.value) else FirstMatch(s, res[1..])
  }

  function Parse(s: string, requireDescription: bool): Option<Member> {
    var described := [FullArray(), FullMember()];
    FirstMatch(s, if requireDescription then described else described + [BareArray(), BareMember()])
  }
}
