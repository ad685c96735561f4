/** A backtracking matcher for the regular expressions of the member parser: the
    first match in priority order, as Python's `re.match` finds it. A pattern is
    written with its continuation, so that ordered choice is all there is to
    backtracking. Group boundaries record how much input is left. */
module Regexes {
  import opened Options

  datatype Class = Only(c: char) | Alpha | AlphaUnderscore | IdentChar | UnitHead | WordChar | Digit | AnyChar

  /** The characters beyond ASCII that `\w` matches; nothing is said about which they are. */
  const OTHER_WORD: set<char>

  predicate IsAlpha(c: char) { 'a' <= c <= 'z' || 'A' <= c <= 'Z' }
  predicate IsDigit(c: char) { '0' <= c <= '9' }

  /** Membership in [a-zA-Z], [a-zA-Z_], [a-zA-Z0-9:_], [a-zA-Z_*\/], \w, [0-9] and the dot. */
  predicate In(c: char, k: Class) {
    match k
    case Only(d) => c == d
    case Alpha => IsAlpha(c)
    case AlphaUnderscore => IsAlpha(c) || c == '_'
    case IdentChar => IsAlpha(c) || IsDigit(c) || c == ':' || c == '_'
    case UnitHead => IsAlpha(c) || c == '_' || c == '*' || c == '/'
    case WordChar => IsAlpha(c) || IsDigit(c) || c == '_' || (c as int >= 128 && c in OTHER_WORD)
    case Digit => IsDigit(c)
    case AnyChar => c != '\n'
  }

  predicate AllIn(s: string, k: Class) { forall i :: 0 <= i < |s| ==> In(s[i], k) }

  datatype Re =
    | Accept
    | One(k: Class, next: Re)
    | Star(k: Class, next: Re)
    | Or(first: Re, second: Re)
    | Mark(id: nat, next: Re)

  type Marks = map<nat, nat>

  /** The first match of `re` against a prefix of `s`. */
  function Run(re: Re, s: string, m: Marks): Option<Marks>
    decreases |s|, re
  {
    match re
    case Accept => Some(m)
    case One(k, next) => if s != [] && In(s[0], k) then Run(next, s[1..], m) else None
    case Star(k, next) =>
      if s != [] && In(s[0], k) then
        var more := Run(re, s[1..], m);
        if more.Some? then more else Run(next, s, m)
      else Run(next, s, m)
    case Or(first, second) =>
      var r := Run(first, s, m);
      if r.Some? then r else Run(second, s, m)
    case Mark(id, next) => Run(next, s, m[id := |s|])
  }

  /** What group `g` has captured. */
  function Group(s: string, m: Marks, g: nat): Option<string> {
    if 2 * g in m && 2 * g + 1 in m && m[2 * g + 1] <= m[2 * g] <= |s|
    then Some(s[|s| - m[2 * g]..|s| - m[2 * g + 1]]) else None
  }

  // Patterns, given what follows them

  function Lit(w: string, next: Re): Re { if w == [] then next else One(Only(w[0]), Lit(w[1..], next)) }
  function Plus(k: Class, next: Re): Re { One(k, Star(k, next)) }
  function Spaces(next: Re): Re { Star(Only(' '), next) }
  function Open(g: nat, next: Re): Re { Mark(2 * g, next) }
  function Close(g: nat, next: Re): Re { Mark(2 * g + 1, next) }

  // ---------------------------------------------------------------------
  // Facts about the matcher

  lemma {:induction false} RunLit(w: string, next: Re, s: string, m: Marks)
    ensures Run(Lit(w, next), s, m) == if w <= s then Run(next, s[|w|..], m) else None
  {
    if w != [] && s != [] && s[0] == w[0] {
      RunLit(w[1..], next, s[1..], m);
      assert w <= s <==> w[1..] <= s[1..];
    }
  }

  lemma {:induction false} RunStarFails(k: Class, next: Re, s: string, m: Marks)
    requires forall j :: 0 <= j <= |s| && AllIn(s[..j], k) ==> Run(next, s[j..], m).None?
    ensures Run(Star(k, next), s, m).None?
  {
    assert s[..0] == [] && s[0..] == s;
    if s != [] && In(s[0], k) {
      forall j | 0 <= j <= |s[1..]| && AllIn(s[1..][..j], k) ensures Run(next, s[1..][j..], m).None? {
        assert s[..j + 1] == [s[0]] + s[1..][..j];
        assert s[j + 1..] == s[1..][j..];
      }
      RunStarFails(k, next, s[1..], m);
    }
  }

  lemma RunStarStops(k: Class, next: Re, rest: string, m: Marks)
    requires Run(next, rest, m).Some?
    requires forall j :: 0 < j <= |rest| && AllIn(rest[..j], k) ==> Run(next, rest[j..], m).None?
    ensures Run(Star(k, next), rest, m) == Run(next, rest, m)
  {
    if rest != [] && In(rest[0], k) {
      forall j | 0 <= j <= |rest[1..]| && AllIn(rest[1..][..j], k) ensures Run(next, rest[1..][j..], m).None? {
        assert rest[..j + 1] == [rest[0]] + rest[1..][..j];
        assert rest[j + 1..] == rest[1..][j..];
      }
      RunStarFails(k, next, rest[1..], m);
    }
  }

  /** A loop takes `a`, if what follows matches after it and no longer run works. */
  lemma {:induction false} RunStar(k: Class, next: Re, a: string, rest: string, m: Marks)
    requires AllIn(a, k) && Run(next, rest, m).Some?
    requires forall j :: 0 < j <= |rest| && AllIn(rest[..j], k) ==> Run(next, rest[j..], m).None?
    ensures Run(Star(k, next), a + rest, m) == Run(next, rest, m)
  {
    if a == [] {
      assert a + rest == rest;
      RunStarStops(k, next, rest, m);
    } else {
      assert (a + rest)[1..] == a[1..] + rest && (a + rest)[0] == a[0];
      assert AllIn(a[1..], k);
      RunStar(k, next, a[1..], rest, m);
    }
  }

  /** The run ends where a character of another class comes. */
  lemma RunStarMax(k: Class, next: Re, a: string, rest: string, m: Marks)
    requires AllIn(a, k) && Run(next, rest, m).Some? && (rest == [] || !In(rest[0], k))
    ensures Run(Star(k, next), a + rest, m) == Run(next, rest, m)
  {
    forall j | 0 < j <= |rest| ensures !AllIn(rest[..j], k) {
      assert rest[..j][0] == rest[0];
    }
    RunStar(k, next, a, rest, m);
  }

  /** Whether there is a match does not depend on the groups recorded so far. */
  lemma {:induction false} MarksDoNotMatter(re: Re, s: string, m: Marks, m': Marks)
    ensures Run(re, s, m).Some? <==> Run(re, s, m').Some?
    decreases |s|, re
  {
    match re
    case Accept =>
    case One(k, next) => if s != [] { MarksDoNotMatter(next, s[1..], m, m'); }
    case Star(k, next) =>
      if s != [] { MarksDoNotMatter(re, s[1..], m, m'); }
      MarksDoNotMatter(next, s, m, m');
    case Or(first, second) => MarksDoNotMatter(first, s, m, m'); MarksDoNotMatter(second, s, m, m');
    case Mark(id, next) => MarksDoNotMatter(next, s, m[id := |s|], m'[id := |s|]);
  }
}
