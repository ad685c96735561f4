/** Arguments about every way a pattern can try to match: what has to be consumed
    before a given part of it is reached, and what a group can capture. */
module RegexFacts {
  import opened Options
  import opened Regexes

  // ---------------------------------------------------------------------
  // Reaching a part of a pattern

  /** The characters of type names, and of everything before a default value. */
  datatype Tokens = TypeTokens | HeadTokens

  predicate Tok(c: char, ts: Tokens) {
    match ts
    case TypeTokens => In(c, IdentChar) || c == ' '
    case HeadTokens => In(c, IdentChar) || In(c, WordChar) || c in " <>,"
  }

  /** Concatenation is associative; for strings with long parts this has to be said. */
  lemma Assoc(a: string, b: string, c: string)
    ensures a + b + c == a + (b + c)
  {
  }

  predicate AllTok(s: string, ts: Tokens) { forall i :: 0 <= i < |s| ==> Tok(s[i], ts) }

  predicate OnlyToks(k: Class, ts: Tokens) {
    match k
    case Only(c) => Tok(c, ts)
    case WordChar => ts == HeadTokens
    case UnitHead => false
    case AnyChar => false
    case _ => true
  }

  /** A match has to pass `part`, after nothing but tokens. */
  predicate LeadsTo(re: Re, part: Re, ts: Tokens) {
    re == part ||
    match re
    case Accept => false
    case One(k, next) => OnlyToks(k, ts) && LeadsTo(next, part, ts)
    case Star(k, next) => OnlyToks(k, ts) && LeadsTo(next, part, ts)
    case Or(first, second) => LeadsTo(first, part, ts) && LeadsTo(second, part, ts)
    case Mark(_, next) => LeadsTo(next, part, ts)
  }

  /** `part` matches nowhere that can be reached over tokens. */
  predicate NeverAt(part: Re, ts: Tokens, s: string) {
    Run(part, s, map[]).None? && (s != "" && Tok(s[0], ts) ==> NeverAt(part, ts, s[1..]))
  }

  lemma {:induction false} LeadsFails(re: Re, part: Re, ts: Tokens, s: string, m: Marks)
    requires LeadsTo(re, part, ts) && NeverAt(part, ts, s)
    ensures Run(re, s, m).None?
    decreases |s|, re
  {
    if re == part {
      MarksDoNotMatter(part, s, m, map[]);
    } else {
      match re
      case One(k, next) => if s != "" && In(s[0], k) { LeadsFails(next, part, ts, s[1..], m); }
      case Star(k, next) =>
        LeadsFails(next, part, ts, s, m);
        if s != "" && In(s[0], k) { LeadsFails(re, part, ts, s[1..], m); }
      case Or(first, second) => LeadsFails(first, part, ts, s, m); LeadsFails(second, part, ts, s, m);
      case Mark(id, next) => LeadsFails(next, part, ts, s, m[id := |s|]);
    }
  }

  lemma {:induction false} LitLeads(w: string, next: Re, part: Re, ts: Tokens)
    requires AllTok(w, ts) && LeadsTo(next, part, ts)
    ensures LeadsTo(Lit(w, next), part, ts)
  {
    if w != "" {
      LitLeads(w[1..], next, part, ts);
      assert Tok(w[0], ts);
    }
  }

  /** Optional parts that each start with a guard character. */
  predicate Guarded(re: Re) {
    match re
    case One(k, _) => k.Only? && k.c in "{[/"
    case Star(k, next) => k == Only(' ') && Guarded(next)
    case Or(first, second) => Guarded(first) && Guarded(second)
    case _ => false
  }

  /** After leading spaces comes no guard character. */
  predicate Unguarded(s: string) { s == "" || if s[0] == ' ' then Unguarded(s[1..]) else s[0] !in "{[/" }

  lemma {:induction false} GuardedFails(re: Re, s: string, m: Marks)
    requires Guarded(re) && Unguarded(s)
    ensures Run(re, s, m).None?
    decreases |s|, re
  {
    match re
    case One(_, _) =>
    case Star(k, next) =>
      GuardedFails(next, s, m);
      if s != "" && s[0] == ' ' { GuardedFails(re, s[1..], m); }
    case Or(first, second) => GuardedFails(first, s, m); GuardedFails(second, s, m);
  }

  lemma {:induction false} HeadIsUnguarded(h: string, rest: string)
    requires h != "" && h[|h| - 1] != ' ' && AllTok(h, HeadTokens)
    ensures Unguarded(h + rest)
  {
    assert (h + rest)[0] == h[0] && Tok(h[0], HeadTokens);
    if h[0] == ' ' {
      HeadIsUnguarded(h[1..], rest);
      assert (h + rest)[1..] == h[1..] + rest;
    }
  }

  /** A guarded pattern matches nowhere in a head and, with what follows, not after it. */
  lemma {:induction false} NeverInHead(re: Re, h: string, rest: string)
    requires Guarded(re) && AllTok(h, HeadTokens) && (h == "" || h[|h| - 1] != ' ')
    requires (rest == "" || !Tok(rest[0], HeadTokens)) && Run(re, rest, map[]).None?
    ensures NeverAt(re, HeadTokens, h + rest)
  {
    if h == "" {
      assert h + rest == rest;
    } else {
      HeadIsUnguarded(h, rest);
      GuardedFails(re, h + rest, map[]);
      assert (h + rest)[1..] == h[1..] + rest;
      NeverInHead(re, h[1..], rest);
    }
  }

  // ---------------------------------------------------------------------
  // What a group captures

  datatype Stage = Unopened | Inside | Complete

  /** Group `g` opens and closes in order, over newline-free text only. */
  predicate Dotted(re: Re, g: nat, stage: Stage) {
    match re
    case Accept => stage != Inside
    case One(k, next) => (stage == Inside ==> k == AnyChar) && Dotted(next, g, stage)
    case Star(k, next) => (stage == Inside ==> k == AnyChar) && Dotted(next, g, stage)
    case Or(first, second) => Dotted(first, g, stage) && Dotted(second, g, stage)
    case Mark(id, next) =>
      if id == 2 * g then stage == Unopened && Dotted(next, g, Inside)
      else if id == 2 * g + 1 then stage == Inside && Dotted(next, g, Complete)
      else Dotted(next, g, stage)
  }

  predicate Captured(s: string, m: Marks, g: nat) {
    Group(s, m, g).Some? ==> AllIn(Group(s, m, g).value, AnyChar)
  }

  /** The marks agree with the stage when `rest` is left of `s`. */
  predicate Consistent(s: string, rest: string, m: Marks, g: nat, stage: Stage) {
    |rest| <= |s| && s[|s| - |rest|..] == rest &&
    match stage
    case Unopened => 2 * g + 1 !in m
    case Inside =>
      2 * g + 1 !in m && 2 * g in m && |rest| <= m[2 * g] <= |s| && AllIn(s[|s| - m[2 * g]..|s| - |rest|], AnyChar)
    case Complete => Captured(s, m, g)
  }

  lemma StepIsConsistent(s: string, rest: string, m: Marks, g: nat, stage: Stage, k: Class)
    requires Consistent(s, rest, m, g, stage) && rest != "" && In(rest[0], k) && (stage == Inside ==> k == AnyChar)
    ensures Consistent(s, rest[1..], m, g, stage)
  {
    var i := |s| - |rest|;
    assert s[i..][0] == rest[0] && s[i + 1..] == s[i..][1..];
    if stage == Inside {
      assert s[|s| - m[2 * g]..i + 1] == s[|s| - m[2 * g]..i] + [s[i]];
    }
  }

  lemma {:induction false} GroupIsDotted(re: Re, s: string, rest: string, m: Marks, g: nat, stage: Stage)
    requires Dotted(re, g, stage) && Consistent(s, rest, m, g, stage) && Run(re, rest, m).Some?
    ensures Captured(s, Run(re, rest, m).value, g)
    decreases |rest|, re
  {
    hide Captured, Group, Consistent;
    match re
    case Accept => NotYetCaptured(s, rest, m, g, stage);
    case One(k, next) =>
      StepIsConsistent(s, rest, m, g, stage, k);
      GroupIsDotted(next, s, rest[1..], m, g, stage);
    case Star(k, next) =>
      if rest != "" && In(rest[0], k) && Run(re, rest[1..], m).Some? {
        StepIsConsistent(s, rest, m, g, stage, k);
        GroupIsDotted(re, s, rest[1..], m, g, stage);
      } else {
        GroupIsDotted(next, s, rest, m, g, stage);
      }
    case Or(first, second) =>
      GroupIsDotted(if Run(first, rest, m).Some? then first else second, s, rest, m, g, stage);
    case Mark(id, next) =>
      MarkIsConsistent(s, rest, m, g, stage, id);
      GroupIsDotted(next, s, rest, m[id := |rest|], g, Staged(g, stage, id));
  }

  function Staged(g: nat, stage: Stage, id: nat): Stage {
    if id == 2 * g then Inside else if id == 2 * g + 1 then Complete else stage
  }

  lemma NotYetCaptured(s: string, rest: string, m: Marks, g: nat, stage: Stage)
    requires Consistent(s, rest, m, g, stage) && stage != Inside
    ensures Captured(s, m, g)
  {
  }

  lemma MarkIsConsistent(s: string, rest: string, m: Marks, g: nat, stage: Stage, id: nat)
    requires Consistent(s, rest, m, g, stage)
    requires id == 2 * g ==> stage == Unopened
    requires id == 2 * g + 1 ==> stage == Inside
    ensures Consistent(s, rest, m[id := |rest|], g, Staged(g, stage, id))
  {
  }

  lemma {:induction false} LitDotted(w: string, next: Re, g: nat, stage: Stage)
    requires stage != Inside && Dotted(next, g, stage)
    ensures Dotted(Lit(w, next), g, stage)
  {
    if w != "" { LitDotted(w[1..], next, g, stage); }
  }
}
