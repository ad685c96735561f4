/** Collection names of a category: sorting them, checking others against them by binary
    search, and reporting the differences. */
module ConsistentColls {
  function Lower(c: char): char { if 'A' <= c <= 'Z' then (c as int + 32) as char else c }

  /** A character as it is compared, `fold`ed to lower case or not. */
  function Key(c: char, fold: bool): char { if fold then Lower(c) else c }

  /** Lexicographical comparison. */
  predicate Lex(a: string, b: string, fold: bool) {
    b != "" && (a == "" ||
            Key(a[0], fold) < Key(b[0], fold) ||
            (Key(a[0], fold) == Key(b[0], fold) && Lex(a[1..], b[1..], fold)))
  }

  /** Upper case letters become lower case ones, and nothing else changes. */
  lemma LowerIs(c: char)
    ensures forall i :: 0 <= i < 26 ==>
      Lower("ABCDEFGHIJKLMNOPQRSTUVWXYZ"[i]) == "abcdefghijklmnopqrstuvwxyz"[i]
    ensures c !in "ABCDEFGHIJKLMNOPQRSTUVWXYZ" ==> Lower(c) == c
  {
    if 'A' <= c <= 'Z' { assert "ABCDEFGHIJKLMNOPQRSTUVWXYZ"[c as int - 65] == c; }
  }

  /** The first character that differs decides, or a name comes before its extensions. */
  predicate ComesBefore(a: string, b: string, fold: bool, k: nat)
    requires k <= |a| && k <= |b|
  {
    && (forall i :: 0 <= i < k ==> Key(a[i], fold) == Key(b[i], fold))
    && k < |b| && (k == |a| || Key(a[k], fold) < Key(b[k], fold))
  }

  lemma {:induction false} LexIff(a: string, b: string, fold: bool)
    ensures Lex(a, b, fold) <==> exists k: nat :: k <= |a| && k <= |b| && ComesBefore(a, b, fold, k)
  {
    hide Key;
    forall k: nat | k <= |a| && k <= |b| && ComesBefore(a, b, fold, k)
      ensures k > 0 ==> a != "" && b != "" && Key(a[0], fold) == Key(b[0], fold)
    {
    }
    if a == "" || b == "" || Key(a[0], fold) != Key(b[0], fold) {
      if b != "" { assert ComesBefore(a, b, fold, 0) <==> a == "" || Key(a[0], fold) < Key(b[0], fold); }
    } else {
      LexIff(a[1..], b[1..], fold);
      if k: nat :| k <= |a[1..]| && k <= |b[1..]| && ComesBefore(a[1..], b[1..], fold, k) {
        forall i | 0 <= i < k + 1 ensures Key(a[i], fold) == Key(b[i], fold) {
          if i > 0 { assert a[i] == a[1..][i - 1] && b[i] == b[1..][i - 1]; }
        }
        assert ComesBefore(a, b, fold, k + 1);
      }
      if k: nat :| k <= |a| && k <= |b| && ComesBefore(a, b, fold, k) {
        assert k > 0;
        forall i | 0 <= i < k - 1 ensures Key(a[1..][i], fold) == Key(b[1..][i], fold) {
          assert a[1..][i] == a[i + 1] && b[1..][i] == b[i + 1];
        }
        assert ComesBefore(a[1..], b[1..], fold, k - 1);
      }
    }
  }

  /** The same name, up to case if `fold`. */
  predicate Same(a: string, b: string, fold: bool) {
    |a| == |b| && forall i :: 0 <= i < |a| ==> Key(a[i], fold) == Key(b[i], fold)
  }

  lemma {:induction false} LexIsTotal(a: string, b: string, fold: bool)
    ensures !(Lex(a, b, fold) && Lex(b, a, fold))
    ensures Same(a, b, fold) <==> !Lex(a, b, fold) && !Lex(b, a, fold)
  {
    if a != "" && b != "" {
      LexIsTotal(a[1..], b[1..], fold);
      SameParts(a, b, fold);
    }
  }

  lemma SameParts(a: string, b: string, fold: bool)
    requires a != "" && b != ""
    ensures Same(a, b, fold) <==> Key(a[0], fold) == Key(b[0], fold) && Same(a[1..], b[1..], fold)
  {
    if Key(a[0], fold) == Key(b[0], fold) && Same(a[1..], b[1..], fold) {
      forall i | 0 <= i < |a| ensures Key(a[i], fold) == Key(b[i], fold) {
        if i > 0 { assert a[i] == a[1..][i - 1] && b[i] == b[1..][i - 1]; }
      }
    }
  }

  lemma {:induction false} LexIsTransitive(a: string, b: string, c: string, fold: bool)
    ensures !Lex(a, b, fold) && !Lex(b, c, fold) ==> !Lex(a, c, fold)
  {
    if a != "" && b != "" && c != "" { LexIsTransitive(a[1..], b[1..], c[1..], fold); }
  }

  predicate Sorted(s: seq<string>, fold: bool) { forall i, j :: 0 <= i <= j < |s| ==> !Lex(s[j], s[i], fold) }

  // ---------------------------------------------------------------------
  // Sorting, of which only the result matters

  lemma InsertedIsSorted(s: seq<string>, k: nat, x: string, fold: bool)
    requires Sorted(s, fold) && k <= |s|
    requires forall i :: 0 <= i < k ==> !Lex(x, s[i], fold)
    requires k < |s| ==> Lex(x, s[k], fold)
    ensures Sorted(s[..k] + [x] + s[k..], fold)
  {
    hide Lex;
    var t := s[..k] + [x] + s[k..];
    LexIsTotal(x, x, fold);
    if k < |s| { LexIsTotal(x, s[k], fold); }
    forall i | k <= i < |s| ensures !Lex(s[i], x, fold) { LexIsTransitive(s[i], s[k], x, fold); }
    forall i, j | 0 <= i <= j < |t| ensures !Lex(t[j], t[i], fold) {
      assert t[i] == if i < k then s[i] else if i == k then x else s[i - 1];
      assert t[j] == if j < k then s[j] else if j == k then x else s[j - 1];
    }
  }

  lemma NothingIsSorted(fold: bool)
    ensures Sorted([], fold)
  {
  }

  lemma Inserted(s: seq<string>, k: nat, x: string)
    requires k <= |s|
    ensures multiset(s[..k] + [x] + s[k..]) == multiset(s) + multiset{x}
  {
    assert s == s[..k] + s[k..];
  }

  method Sort(strings: seq<string>, fold: bool) returns (r: seq<string>)
    ensures Sorted(r, fold) && multiset(r) == multiset(strings)
  {
    hide Lex, Sorted;
    r := [];
    assert Sorted([], fold) by { NothingIsSorted(fold); }
    for i := 0 to |strings|
      invariant Sorted(r, fold) && multiset(r) == multiset(strings[..i])
    {
      var k := 0;
      while k < |r| && !Lex(strings[i], r[k], fold)
        invariant k <= |r| && forall j :: 0 <= j < k ==> !Lex(strings[i], r[j], fold)
      {
        k := k + 1;
      }
      InsertedIsSorted(r, k, strings[i], fold);
      Inserted(r, k, strings[i]);
      assert strings[..i + 1] == strings[..i] + [strings[i]];
      r := r[..k] + [strings[i]] + r[k..];
    }
    assert strings[..|strings|] == strings;
  }

  method SortAlphabeticaly(strings: seq<string>) returns (r: seq<string>)
    ensures Sorted(r, true) && multiset(r) == multiset(strings)
  {
    r := Sort(strings, true);
  }

  // ---------------------------------------------------------------------
  // The binary search

  /** The comparison of the search: not the order in which the names are sorted. */
  predicate Before(l: string, r: string) { |l| == |r| && Lex(l, r, true) }

  /** Where the standard library's bisection of `s[first..first + len]` ends. */
  function LowerBound(s: seq<string>, x: string, first: nat, len: nat): (r: nat)
    requires first + len <= |s|
    ensures first <= r <= first + len
    decreases len
  {
    if len == 0 then first
    else if Before(s[first + len / 2], x) then LowerBound(s, x, first + len / 2 + 1, len - len / 2 - 1)
    else LowerBound(s, x, first, len / 2)
  }

  predicate Found(s: seq<string>, x: string) {
    var i := LowerBound(s, x, 0, |s|);
    i < |s| && !Before(x, s[i])
  }

  method BinarySearch(s: seq<string>, x: string) returns (found: bool)
    ensures found == Found(s, x)
  {
    var first: nat, len: nat := 0, |s|;
    while len > 0
      invariant first + len <= |s| && LowerBound(s, x, 0, |s|) == LowerBound(s, x, first, len)
      decreases len
    {
      var half := len / 2;
      if Before(s[first + half], x) {
        first, len := first + half + 1, len - half - 1;
      } else {
        len := half;
      }
    }
    return first < |s| && !Before(x, s[first]);
  }

  /** What the check answers. */
  predicate Accepts(s: seq<string>, t: seq<string>) { |s| == |t| && forall x :: x in t ==> Found(s, x) }

  /** Never rejects the same names in another order. Says whether they are the same names
      if all have one length, none is repeated, and none differs from another one in case only. */
  method CheckConsistentColls(existing: seq<string>, candidates: seq<string>) returns (ok: bool)
    ensures ok <==> Accepts(existing, candidates)
    ensures Sorted(existing, true) && multiset(existing) == multiset(candidates) ==> ok
    ensures Sorted(existing, true) && (exists n: nat :: Comparable(existing, candidates, n)) ==>
      (ok <==> multiset(existing) == multiset(candidates))
  {
    hide Sorted, Comparable, Found;
    if Sorted(existing, true) && multiset(existing) == multiset(candidates) {
      PermutationIsConsistent(existing, candidates);
    }
    if n: nat :| Sorted(existing, true) && Comparable(existing, candidates, n) {
      ExactIfComparable(existing, candidates, n);
    }
    if |existing| != |candidates| { return false; }
    for i := 0 to |candidates|
      invariant forall j :: 0 <= j < i ==> Found(existing, candidates[j])
    {
      var found := BinarySearch(existing, candidates[i]);
      if !found { return false; }
    }
    return true;
  }

  /** The bisection never gets past a name that is there. */
  lemma {:induction false} NotPast(s: seq<string>, j: nat, first: nat, len: nat)
    requires Sorted(s, true) && first <= j < |s| && first + len <= |s|
    ensures LowerBound(s, s[j], first, len) <= j
    decreases len
  {
    hide Lex;
    if len > 0 {
      var mid := first + len / 2;
      assert mid >= j ==> !Lex(s[mid], s[j], true);
      if Before(s[mid], s[j]) { NotPast(s, j, mid + 1, len - len / 2 - 1); } else { NotPast(s, j, first, len / 2); }
    }
  }

  /** A name that is there is always found, though the comparison is not the order. */
  lemma ExistingIsFound(s: seq<string>, x: string)
    requires Sorted(s, true) && x in s
    ensures Found(s, x)
  {
    hide Lex;
    var j :| 0 <= j < |s| && s[j] == x;
    NotPast(s, j, 0, |s|);
  }

  /** Permutations of the stored names are never rejected. */
  lemma PermutationIsConsistent(existing: seq<string>, candidates: seq<string>)
    requires Sorted(existing, true) && multiset(candidates) == multiset(existing)
    ensures Accepts(existing, candidates)
  {
    assert |multiset(candidates)| == |multiset(existing)|;
    forall x | x in candidates ensures Found(existing, x) {
      assert x in multiset(existing);
      ExistingIsFound(existing, x);
    }
  }

  // ---------------------------------------------------------------------
  // Names that are not there

  /** A name of a length that does not occur is always found. */
  lemma OtherLengthIsFound(s: seq<string>, x: string)
    requires s != [] && forall i :: 0 <= i < |s| ==> |s[i]| != |x|
    ensures Found(s, x)
  {
    StaysAtStart(s, x, |s|);
  }

  lemma {:induction false} StaysAtStart(s: seq<string>, x: string, len: nat)
    requires len <= |s| && forall i :: 0 <= i < |s| ==> |s[i]| != |x|
    ensures LowerBound(s, x, 0, len) == 0
  {
    if len > 0 { StaysAtStart(s, x, len / 2); }
  }

  function LongName(n: nat): (r: string) ensures |r| == n { seq(n, _ => 'x') }

  function Longest(s: seq<string>): (n: nat)
    ensures forall i :: 0 <= i < |s| ==> |s[i]| <= n
  {
    if s == [] then 0
    else var n := Longest(s[..|s| - 1]); if |s[|s| - 1]| > n then |s[|s| - 1]| else n
  }

  /** Names that are all longer than those of `s`, and as many. */
  function LongNames(s: seq<string>): (t: seq<string>)
    ensures |t| == |s| && NoRepeats(t) && forall i :: 0 <= i < |t| ==> |t[i]| > Longest(s)
  {
    var n := Longest(s) + 1;
    var t := seq(|s|, i requires 0 <= i < |s| => LongName(n + i));
    assert forall i :: 0 <= i < |t| ==> t[i] == LongName(n + i) && |t[i]| == n + i;
    t
  }

  /** The check is exact for no stored list but the empty one: any other one accepts some
      list of as many different names, none of which is there. */
  lemma ExactOnlyIfEmpty(s: seq<string>)
    ensures (forall t :: NoRepeats(t) ==> (Accepts(s, t) <==> multiset(s) == multiset(t))) <==> s == []
    ensures s != [] ==> NoRepeats(LongNames(s)) && Accepts(s, LongNames(s)) && forall x :: x in LongNames(s) ==> x !in s
  {
    hide Found, NoRepeats;
    var t := LongNames(s);
    if s == [] {
      forall t ensures Accepts(s, t) <==> multiset(s) == multiset(t) {
        assert multiset(t) == multiset(s) ==> |multiset(t)| == 0;
      }
    } else {
      forall x | x in t ensures Found(s, x) && x !in s { OtherLengthIsFound(s, x); }
      assert t[0] in multiset(t) && t[0] !in multiset(s);
    }
  }

  // ---------------------------------------------------------------------
  // Names of one length

  predicate OneLength(s: seq<string>, n: nat) { forall i :: 0 <= i < |s| ==> |s[i]| == n }

  /** With names of one length the bisection ends before the first name that is not smaller. */
  lemma {:induction false} BoundIsFirst(s: seq<string>, x: string, first: nat, len: nat)
    requires Sorted(s, true) && OneLength(s, |x|) && first + len <= |s|
    requires forall k :: 0 <= k < first ==> Lex(s[k], x, true)
    requires forall k :: first + len <= k < |s| ==> !Lex(s[k], x, true)
    ensures forall k :: 0 <= k < LowerBound(s, x, first, len) ==> Lex(s[k], x, true)
    ensures forall k :: LowerBound(s, x, first, len) <= k < |s| ==> !Lex(s[k], x, true)
    decreases len
  {
    hide Lex;
    if len > 0 {
      var mid := first + len / 2;
      if Before(s[mid], x) {
        forall k | 0 <= k <= mid ensures Lex(s[k], x, true) { LexIsTransitive(s[mid], s[k], x, true); }
        BoundIsFirst(s, x, mid + 1, len - len / 2 - 1);
      } else {
        forall k | mid <= k < |s| ensures !Lex(s[k], x, true) { LexIsTransitive(s[k], s[mid], x, true); }
        BoundIsFirst(s, x, first, len / 2);
      }
    }
  }

  /** Then a name is found exactly when it is there, up to case. */
  lemma FoundIff(s: seq<string>, x: string)
    requires Sorted(s, true) && OneLength(s, |x|)
    ensures Found(s, x) <==> exists k :: 0 <= k < |s| && Same(s[k], x, true)
  {
    hide Lex, Same;
    var i := LowerBound(s, x, 0, |s|);
    BoundIsFirst(s, x, 0, |s|);
    if Found(s, x) { LexIsTotal(s[i], x, true); }
    if k :| 0 <= k < |s| && Same(s[k], x, true) {
      LexIsTotal(s[k], x, true);
      assert i <= k;
      LexIsTransitive(x, s[k], s[i], true);
    }
  }

  predicate NoRepeats(s: seq<string>) { forall i, j :: 0 <= i < j < |s| ==> s[i] != s[j] }

  /** Names of one length, none twice, and none of `s` differs from one of `t` in case only. */
  predicate Comparable(s: seq<string>, t: seq<string>, n: nat) {
    && OneLength(s, n) && OneLength(t, n) && NoRepeats(s) && NoRepeats(t)
    && forall x, y :: x in s && y in t && Same(x, y, true) ==> x == y
  }

  /** Names that cannot be repeated and are all there are the same names. */
  lemma SameNames(s: seq<string>, t: seq<string>)
    requires NoRepeats(s) && NoRepeats(t) && |s| == |t| && forall x :: x in t ==> x in s
    ensures multiset(s) == multiset(t)
  {
    OnceEach(s);
    OnceEach(t);
    var a, b := set x | x in s, set x | x in t;
    assert b <= a && |b| == |a|;
    assert a == b by { assert |a - b| == 0; }
  }

  lemma {:induction false} OnceEach(s: seq<string>)
    requires NoRepeats(s)
    ensures var names := set x | x in s; |names| == |s| && multiset(s) == multiset(names)
  {
    if s != [] {
      var n := |s| - 1;
      OnceEach(s[..n]);
      assert s == s[..n] + [s[n]];
      assert (set x | x in s) == (set x | x in s[..n]) + {s[n]};
    }
  }

  lemma ExactIfComparable(s: seq<string>, t: seq<string>, n: nat)
    requires Sorted(s, true) && Comparable(s, t, n)
    ensures Accepts(s, t) <==> multiset(s) == multiset(t)
  {
    hide Sorted, Found, Same, NoRepeats;
    if multiset(s) == multiset(t) { PermutationIsConsistent(s, t); }
    if Accepts(s, t) {
      forall x | x in t ensures x in s { FoundIff(s, x); }
      SameNames(s, t);
    }
  }

  /** Every spelling of a stored name in other cases is stored, too. */
  ghost predicate AllCases(s: seq<string>) { forall x, y :: x in s && Same(x, y, true) ==> y in s }

  /** For different names of one length, the check is exact for precisely the lists that
      hold their names in all cases, such as names without letters. */
  lemma ExactIff(s: seq<string>, n: nat)
    requires Sorted(s, true) && OneLength(s, n) && NoRepeats(s)
    ensures (forall t :: OneLength(t, n) && NoRepeats(t) ==> (Accepts(s, t) <==> multiset(s) == multiset(t)))
       <==> AllCases(s)
  {
    hide Sorted, Found, Same, NoRepeats;
    forall t | OneLength(t, n) && NoRepeats(t) && AllCases(s) ensures Accepts(s, t) <==> multiset(s) == multiset(t) {
      if multiset(s) == multiset(t) { PermutationIsConsistent(s, t); }
      if Accepts(s, t) {
        forall x | x in t ensures x in s { FoundIff(s, x); }
        SameNames(s, t);
      }
    }
    forall x, y | x in s && Same(x, y, true) && y !in s
      ensures exists t :: OneLength(t, n) && NoRepeats(t) && Accepts(s, t) && multiset(s) != multiset(t)
    {
      OtherCaseIsAccepted(s, n, x, y);
    }
  }

  /** A stored name may be replaced by another spelling of it. */
  lemma OtherCaseIsAccepted(s: seq<string>, n: nat, x: string, y: string)
    requires Sorted(s, true) && OneLength(s, n) && NoRepeats(s) && x in s && Same(x, y, true) && y !in s
    ensures exists t :: OneLength(t, n) && NoRepeats(t) && Accepts(s, t) && multiset(s) != multiset(t)
  {
    var k :| 0 <= k < |s| && s[k] == x;
    var t := s[k := y];
    assert |y| == n && OneLength(t, n) && NoRepeats(t);
    hide Sorted, Found, NoRepeats;
    forall z | z in t ensures Found(s, z) {
      if z == y { FoundIff(s, y); } else { ExistingIsFound(s, z); }
    }
    assert t[k] in multiset(t) && y !in multiset(s);
  }

  /** What goes wrong: another length, another case, a name twice. */
  lemma WrongNamesAreAccepted()
    ensures Sorted(["aa", "b"], true) && Accepts(["aa", "b"], ["b", "cc"])
    ensures Sorted(["a"], true) && Accepts(["a"], ["A"])
    ensures Sorted(["a", "b"], true) && Accepts(["a", "b"], ["a", "a"])
  {
    assert Sorted(["aa", "b"], true) by { OrderOfTwo("aa", "b"); }
    assert Accepts(["aa", "b"], ["b", "cc"]) by {
      assert !Before("b", "cc") && Before("aa", "cc") && !Before("cc", "b");
      ExistingIsFound(["aa", "b"], "b");
    }
    LexIsTotal("a", "a", true);
    assert Same("a", "A", true);
    FoundIff(["a"], "A");
    OrderOfTwo("a", "b");
    ExistingIsFound(["a", "b"], "a");
  }

  lemma OrderOfTwo(a: string, b: string)
    requires a != "" && b != "" && Lower(a[0]) < Lower(b[0])
    ensures Sorted([a, b], true)
  {
    LexIsTotal(a, a, true);
    LexIsTotal(b, b, true);
    LexIsTotal(a, b, true);
  }

  // ---------------------------------------------------------------------
  // The differences

  /** The merge of the standard library. */
  method SetDifference(a: seq<string>, b: seq<string>) returns (r: seq<string>)
    requires Sorted(a, false) && Sorted(b, false)
    ensures multiset(r) == multiset(a) - multiset(b)
  {
    hide Lex, Sorted;
    r := [];
    var i, j := 0, 0;
    assert a[0..] == a && b[0..] == b;
    while i < |a| && j < |b|
      invariant i <= |a| && j <= |b|
      invariant multiset(a) - multiset(b) == multiset(r) + (multiset(a[i..]) - multiset(b[j..]))
      decreases |a| + |b| - i - j
    {
      FirstOf(a, i);
      FirstOf(b, j);
      ghost var rest, other := multiset(a[i + 1..]), multiset(b[j + 1..]);
      if Lex(a[i], b[j], false) {
        NotAmong(a[i], b, j);
        OnlyLeft(a[i], rest, multiset(b[j..]));
        r := r + [a[i]];
        i := i + 1;
      } else {
        if !Lex(b[j], a[i], false) {
          SameIsEqual(a[i], b[j]);
          InBoth(a[i], rest, other);
          i := i + 1;
        } else {
          NotAmong(b[j], a, i);
          OnlyRight(b[j], multiset(a[i..]), other);
        }
        j := j + 1;
      }
    }
    assert j == |b| ==> b[j..] == [];
    assert i == |a| ==> a[i..] == [];
    r := r + a[i..];
  }

  lemma FirstOf(s: seq<string>, i: nat)
    requires i < |s|
    ensures multiset(s[i..]) == multiset{s[i]} + multiset(s[i + 1..])
  {
    assert s[i..] == [s[i]] + s[i + 1..];
  }

  lemma OnlyLeft(x: string, m: multiset<string>, n: multiset<string>)
    requires x !in n
    ensures multiset{x} + m - n == multiset{x} + (m - n)
  {
  }

  lemma OnlyRight(x: string, m: multiset<string>, n: multiset<string>)
    requires x !in m
    ensures m - (multiset{x} + n) == m - n
  {
  }

  lemma InBoth(x: string, m: multiset<string>, n: multiset<string>)
    ensures multiset{x} + m - (multiset{x} + n) == m - n
  {
  }

  lemma SameIsEqual(a: string, b: string)
    requires !Lex(a, b, false) && !Lex(b, a, false)
    ensures a == b
  {
    LexIsTotal(a, b, false);
  }

  /** A name before all of a sorted list is not in it. */
  lemma NotAmong(x: string, s: seq<string>, j: nat)
    requires Sorted(s, false) && j < |s| && Lex(x, s[j], false)
    ensures x !in multiset(s[j..])
  {
    hide Lex;
    forall k | 0 <= k < |s[j..]| ensures s[j..][k] != x {
      assert s[j..][k] == s[j + k] && !Lex(s[j + k], s[j], false);
    }
  }

  /** What only the one and only the other list has. */
  method GetInconsistentColls(existing: seq<string>, candidates: seq<string>)
    returns (onlyInExisting: seq<string>, onlyInCandidates: seq<string>)
    ensures multiset(onlyInExisting) == multiset(existing) - multiset(candidates)
    ensures multiset(onlyInCandidates) == multiset(candidates) - multiset(existing)
    ensures onlyInExisting == [] && onlyInCandidates == [] <==> multiset(existing) == multiset(candidates)
  {
    var a := Sort(existing, false);
    var b := Sort(candidates, false);
    onlyInExisting := SetDifference(a, b);
    onlyInCandidates := SetDifference(b, a);
    EmptyDifferences(multiset(existing), multiset(candidates));
    assert onlyInExisting == [] <==> |multiset(onlyInExisting)| == 0;
    assert onlyInCandidates == [] <==> |multiset(onlyInCandidates)| == 0;
  }

  lemma EmptyDifferences(m: multiset<string>, n: multiset<string>)
    ensures |m - n| == 0 && |n - m| == 0 <==> m == n
  {
    if |m - n| == 0 && |n - m| == 0 {
      assert m - n == multiset{} && n - m == multiset{};
      assert forall x :: (m - n)[x] == 0 && (n - m)[x] == 0;
    }
  }
}
