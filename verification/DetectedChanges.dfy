/** Which changes a comparison detects, in terms of the lists of members. */
module DetectedChanges {
  import opened Options
  import opened SchemaChanges

  /** The type that a list gives to a member; of several members of a name the last counts. */
  predicate HasType(ms: seq<Member>, m: string, t: string) {
    exists i :: 0 <= i < |ms| && ms[i] == Member(m, t) && LastNamed(ms, m, i)
  }

  predicate LastNamed(ms: seq<Member>, m: string, i: nat) { forall j :: i < j < |ms| ==> ms[j].name != m }

  predicate Named(ms: seq<Member>, m: string) { exists i :: 0 <= i < |ms| && ms[i].name == m }

  lemma {:induction false} DictIs(ms: seq<Member>, m: string, t: string)
    ensures m in Dict(ms) <==> Named(ms, m)
    ensures m in Dict(ms) && Dict(ms)[m] == t <==> HasType(ms, m, t)
  {
    if ms != [] {
      var n := |ms| - 1;
      var front := ms[..n];
      DictIs(front, m, t);
      assert forall i :: 0 <= i < n ==> ms[i] == front[i];
      if ms[n].name == m {
        assert LastNamed(ms, m, n);
      } else {
        if i :| 0 <= i < n && front[i] == Member(m, t) && LastNamed(front, m, i) { assert LastNamed(ms, m, i); }
        if i :| 0 <= i < |ms| && ms[i] == Member(m, t) && LastNamed(ms, m, i) {
          assert front[i] == Member(m, t) && LastNamed(front, m, i);
        }
        if i :| 0 <= i < n && front[i].name == m { assert ms[i].name == m; }
        if i :| 0 <= i < |ms| && ms[i].name == m { assert front[i].name == m; }
      }
    }
  }

  ghost predicate DistinctNames(ms: seq<Member>) { forall i, j :: 0 <= i < j < |ms| ==> ms[i].name != ms[j].name }

  /** Without repeated names it is the type in the list. */
  lemma DistinctHasType(ms: seq<Member>, m: string, t: string)
    requires DistinctNames(ms)
    ensures HasType(ms, m, t) <==> Member(m, t) in ms
  {
    if Member(m, t) in ms {
      var i :| 0 <= i < |ms| && ms[i] == Member(m, t);
      assert LastNamed(ms, m, i);
    }
  }

  /** Exactly these changes are detected. */
  ghost predicate Detects(cs: seq<Change>, first: DataModel, second: DataModel) {
    && (forall k, n, ms {:trigger Added(k, n, ms)} :: Added(k, n, ms) in cs <==>
          n in first.Defs(k) && n !in second.Defs(k) && ms == first.Defs(k)[n])
    && (forall k, n, ms {:trigger Dropped(k, n, ms)} :: Dropped(k, n, ms) in cs <==>
          n in second.Defs(k) && n !in first.Defs(k) && ms == second.Defs(k)[n])
    && forall k, d :: d in first.Defs(k) && d in second.Defs(k) ==>
         DetectsMembers(cs, d, first.Defs(k)[d], second.Defs(k)[d])
  }

  /** ... and in a definition that is in both models exactly these. */
  ghost predicate DetectsMembers(cs: seq<Change>, d: string, now: seq<Member>, before: seq<Member>) {
    && (forall m, t {:trigger AddedMember(d, m, t)} ::
          AddedMember(d, m, t) in cs <==> HasType(now, m, t) && !Named(before, m))
    && (forall m, t {:trigger DroppedMember(d, m, t)} ::
          DroppedMember(d, m, t) in cs <==> HasType(before, m, t) && !Named(now, m))
    && (forall m, t, u {:trigger ChangedMember(d, m, t, u)} ::
          ChangedMember(d, m, t, u) in cs <==> HasType(before, m, t) && HasType(now, m, u) && t != u)
  }

  // ---------------------------------------------------------------------
  // What a list of changes does not mention stays

  function TypeIn(s: Schema, d: string, m: string): Option<string> {
    var x := if d in s.components then s.components[d] else if d in s.datatypes then s.datatypes[d] else map[];
    if m in x then Some(x[m]) else None
  }

  predicate Concerns(c: Change, d: string, m: string) {
    if c.OfMember() then c.def == d && c.Touches(m) else c.name == d
  }

  lemma TypeKept(c: Change, s: Schema, d: string, m: string)
    requires !Concerns(c, d, m)
    ensures TypeIn(ApplyOne(c, s), d, m) == TypeIn(s, d, m)
  {
    hide Dict;
  }

  lemma {:induction false} TypesKept(cs: seq<Change>, s: Schema, d: string, m: string)
    requires forall c :: c in cs ==> !Concerns(c, d, m)
    ensures TypeIn(Apply(cs, s), d, m) == TypeIn(s, d, m)
  {
    hide Concerns, TypeIn, ApplyOne;
    if cs != [] {
      TypesKept(cs[..|cs| - 1], s, d, m);
      TypeKept(cs[|cs| - 1], Apply(cs[..|cs| - 1], s), d, m);
    }
  }

  lemma {:induction false} DefinitionsKept(cs: seq<Change>, s: Schema, k: Kind, n: string)
    requires forall c :: c in cs && !c.OfMember() ==> c.kind != k || c.name != n
    ensures n in Apply(cs, s).Defs(k) <==> n in s.Defs(k)
  {
    if cs != [] {
      var front, c := cs[..|cs| - 1], cs[|cs| - 1];
      DefinitionsKept(front, s, k, n);
      assert c in cs;
      hide Apply, Edit, Dict;
      assert Apply(cs, s) == ApplyOne(c, Apply(front, s)) by { LastApplied(cs, s); }
    }
  }

  lemma LastApplied(cs: seq<Change>, s: Schema)
    requires cs != []
    ensures Apply(cs, s) == ApplyOne(cs[|cs| - 1], Apply(cs[..|cs| - 1], s))
  {
  }
}
