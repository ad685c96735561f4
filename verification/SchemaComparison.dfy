/** Comparing two data models: the detected changes turn the old one into the new one,
    and so do the changes after declared renames have replaced drop and add pairs. */
module SchemaComparison {
  import opened Options
  import opened SchemaChanges
  import opened DetectedChanges

  // ---------------------------------------------------------------------
  // A table on its way from one state to another

  /** `a` with the entries of the names in `done` as they are in `b`. */
  function Stage<V>(a: map<string, V>, b: map<string, V>, done: set<string>): map<string, V> {
    map n | n in a.Keys + b.Keys && (if n in done then n in b else n in a) :: if n in done then b[n] else a[n]
  }

  lemma StageStart<V>(a: map<string, V>, b: map<string, V>)
    ensures Stage(a, b, {}) == a
  {
  }

  lemma StageEnd<V>(a: map<string, V>, b: map<string, V>, done: set<string>)
    requires forall n :: n in a || n in b ==> n in done
    ensures Stage(a, b, done) == b
  {
    var s := Stage(a, b, done);
    assert forall n :: n in s <==> n in b;
  }

  lemma StageStep<V>(a: map<string, V>, b: map<string, V>, done: set<string>, n: string)
    ensures n in b ==> Stage(a, b, done + {n}) == Stage(a, b, done)[n := b[n]]
    ensures n !in b ==> Stage(a, b, done + {n}) == Stage(a, b, done) - {n}
  {
    var s, t := Stage(a, b, done + {n}), Stage(a, b, done);
    if n in b {
      assert forall k :: k in s <==> k in t[n := b[n]];
    } else {
      assert forall k :: k in s <==> k in t - {n};
    }
  }

  lemma StageSame<V>(a: map<string, V>, b: map<string, V>, done: set<string>, n: string, v: V)
    requires n in a && n !in done && v == a[n]
    ensures n in Stage(a, b, done) && Stage(a, b, done)[n := v] == Stage(a, b, done)
  {
  }

  // ---------------------------------------------------------------------

  /** Added, dropped and kept keys. */
  function CompareKeys<V>(first: map<string, V>, second: map<string, V>): (r: (set<string>, set<string>, set<string>))
    ensures forall n :: n in r.0 <==> n in first && n !in second
    ensures forall n :: n in r.1 <==> n in second && n !in first
    ensures forall n :: n in r.2 <==> n in first && n in second
  {
    (first.Keys - second.Keys, second.Keys - first.Keys, first.Keys * second.Keys)
  }

  /** `c` is a difference between the models, and for a member one in a kept definition. */
  predicate Difference(c: Change, first: DataModel, second: DataModel) {
    match c
    case Added(k, n, ms) => n in first.Defs(k) && n !in second.Defs(k) && ms == first.Defs(k)[n]
    case Dropped(k, n, ms) => n in second.Defs(k) && n !in first.Defs(k) && ms == second.Defs(k)[n]
    case _ =>
      var k := if c.def in first.components then Component else Datatype;
      && c.def in first.Defs(k) && c.def in second.Defs(k)
      && MemberDifference(c, Dict(first.Defs(k)[c.def]), Dict(second.Defs(k)[c.def]))
  }

  predicate MemberDifference(c: Change, x: Members, y: Members) {
    match c
    case AddedMember(_, m, t) => m in x && m !in y && x[m] == t
    case DroppedMember(_, m, t) => m in y && m !in x && y[m] == t
    case ChangedMember(_, m, t, u) => m in y && m in x && y[m] == t && x[m] == u && t != u
    case _ => false
  }

  predicate AllDifferences(cs: seq<Change>, first: DataModel, second: DataModel) {
    forall c :: c in cs ==> Difference(c, first, second)
  }

  /** Member changes so far are about definitions that are done, or about members that are. */
  predicate About(cs: seq<Change>, done: set<string>, n: string, members: set<string>) {
    forall c :: c in cs && c.OfMember() ==> c.def in done || (c.def == n && c.member in members)
  }

  lemma NewMemberIsApart(cs: seq<Change>, c: Change, first: DataModel, second: DataModel, done: set<string>,
                         members: set<string>)
    requires first.Disjoint() && second.Disjoint() && AllApart(cs) && AllDifferences(cs, first, second)
    requires c.OfMember() && Difference(c, first, second) && c.def !in done && c.member !in members
    requires About(cs, done, c.def, members)
    ensures AllApart(cs + [c]) && AllDifferences(cs + [c], first, second)
    ensures About(cs + [c], done, c.def, members + {c.member})
  {
    hide MemberDifference;
    forall i | 0 <= i < |cs| ensures Apart(cs[i], c) {
      var e := cs[i];
      assert e in cs && Difference(e, first, second);
      OnlyRenamesHaveTwoNames(e, first, second);
      OnlyRenamesHaveTwoNames(c, first, second);
    }
  }

  lemma OnlyRenamesHaveTwoNames(c: Change, first: DataModel, second: DataModel)
    requires Difference(c, first, second)
    ensures !c.RenamedMember?
  {
  }

  lemma NewDefinitionIsApart(cs: seq<Change>, c: Change, first: DataModel, second: DataModel)
    requires first.Disjoint() && second.Disjoint() && AllApart(cs) && AllDifferences(cs, first, second)
    requires !c.OfMember() && Difference(c, first, second)
    ensures AllApart(cs + [c]) && AllDifferences(cs + [c], first, second)
  {
    hide MemberDifference;
    forall i | 0 <= i < |cs| ensures Apart(cs[i], c) {
      assert cs[i] in cs && Difference(cs[i], first, second);
    }
  }

  // ---------------------------------------------------------------------
  // All differences are detected

  lemma OneDifference(c: Change, e: Change, first: DataModel, second: DataModel)
    requires first.Disjoint() && second.Disjoint() && Difference(c, first, second) && Difference(e, first, second)
    requires if c.OfMember() then Concerns(e, c.def, c.member)
             else !e.OfMember() && e.kind == c.kind && e.name == c.name
    ensures e == c
  {
    hide Dict;
  }

  lemma MemberIsDetected(cs: seq<Change>, c: Change, first: DataModel, second: DataModel)
    requires first.Disjoint() && second.Disjoint() && AllDifferences(cs, first, second)
    requires Apply(cs, second.Schema()) == first.Schema() && c.OfMember() && Difference(c, first, second)
    ensures c in cs
  {
    var k := if c.def in first.components then Component else Datatype;
    assert TypeIn(first.Schema(), c.def, c.member) != TypeIn(second.Schema(), c.def, c.member);
    if c !in cs {
      forall e | e in cs ensures !Concerns(e, c.def, c.member) {
        if Concerns(e, c.def, c.member) { OneDifference(c, e, first, second); }
      }
      TypesKept(cs, second.Schema(), c.def, c.member);
    }
    hide Dict, Apply;
  }

  lemma DefinitionIsDetected(cs: seq<Change>, c: Change, first: DataModel, second: DataModel)
    requires first.Disjoint() && second.Disjoint() && AllDifferences(cs, first, second)
    requires Apply(cs, second.Schema()) == first.Schema() && !c.OfMember() && Difference(c, first, second)
    ensures c in cs
  {
    hide Dict, Apply;
    if c !in cs {
      forall e | e in cs && !e.OfMember() ensures e.kind != c.kind || e.name != c.name {
        if e.kind == c.kind && e.name == c.name { OneDifference(c, e, first, second); }
      }
      DefinitionsKept(cs, second.Schema(), c.kind, c.name);
    }
  }

  lemma DetectedIff(cs: seq<Change>, first: DataModel, second: DataModel)
    requires first.Disjoint() && second.Disjoint() && AllDifferences(cs, first, second)
    requires Apply(cs, second.Schema()) == first.Schema()
    ensures forall c :: c in cs <==> Difference(c, first, second)
  {
    hide Apply, Difference;
    forall c | Difference(c, first, second) ensures c in cs {
      if c.OfMember() { MemberIsDetected(cs, c, first, second); } else { DefinitionIsDetected(cs, c, first, second); }
    }
  }

  lemma DifferenceOfMember(c: Change, first: DataModel, second: DataModel, k: Kind)
    requires first.Disjoint() && c.OfMember() && c.def in first.Defs(k) && c.def in second.Defs(k)
    ensures Difference(c, first, second) <==>
      MemberDifference(c, Dict(first.Defs(k)[c.def]), Dict(second.Defs(k)[c.def]))
  {
    hide Dict, MemberDifference;
  }

  /** The detected changes are exactly the differences between the lists of members. */
  lemma AllDetected(cs: seq<Change>, first: DataModel, second: DataModel)
    requires first.Disjoint() && second.Disjoint() && AllDifferences(cs, first, second)
    requires Apply(cs, second.Schema()) == first.Schema()
    ensures Detects(cs, first, second)
  {
    DetectedIff(cs, first, second);
    forall k, d | d in first.Defs(k) && d in second.Defs(k)
      ensures DetectsMembers(cs, d, first.Defs(k)[d], second.Defs(k)[d])
    {
      MembersDetected(cs, first, second, k, d);
    }
    hide Apply, DetectsMembers, MemberDifference;
  }

  lemma MembersDetected(cs: seq<Change>, first: DataModel, second: DataModel, k: Kind, d: string)
    requires first.Disjoint() && d in first.Defs(k) && d in second.Defs(k)
    requires forall c :: c in cs <==> Difference(c, first, second)
    ensures DetectsMembers(cs, d, first.Defs(k)[d], second.Defs(k)[d])
  {
    hide Difference, Dict, HasType;
    var now, before := first.Defs(k)[d], second.Defs(k)[d];
    forall m, t ensures AddedMember(d, m, t) in cs <==> HasType(now, m, t) && !Named(before, m) {
      DifferenceOfMember(AddedMember(d, m, t), first, second, k);
      DictIs(now, m, t);
      DictIs(before, m, t);
    }
    forall m, t ensures DroppedMember(d, m, t) in cs <==> HasType(before, m, t) && !Named(now, m) {
      DifferenceOfMember(DroppedMember(d, m, t), first, second, k);
      DictIs(now, m, t);
      DictIs(before, m, t);
    }
    forall m, t, u
      ensures ChangedMember(d, m, t, u) in cs <==> HasType(before, m, t) && HasType(now, m, u) && t != u
    {
      DifferenceOfMember(ChangedMember(d, m, t, u), first, second, k);
      DictIs(now, m, u);
      DictIs(before, m, t);
    }
  }

  // ---------------------------------------------------------------------

  /** Changing a member changes the definition of that name where there is one. */
  lemma EditHere(s: Schema, kind: Kind, defs: map<string, Members>, c: Change)
    requires c.OfMember() && c.def in defs && (kind == Datatype ==> c.def !in s.components)
    ensures ApplyOne(c, s.With(kind, defs)) == s.With(kind, defs[c.def := Edit(c, defs[c.def])])
  {
    hide Edit;
  }

  lemma SetAgain<V>(defs: map<string, V>, n: string, v: V, w: V)
    ensures defs[n := v][n := w] == defs[n := w]
  {
  }

  // ---------------------------------------------------------------------
  // How far the detected changes get

  /** The detected changes make the definitions in `done` new. */
  predicate Reached(cs: seq<Change>, first: DataModel, second: DataModel, s: Schema, kind: Kind, done: set<string>) {
    Apply(cs, second.Schema()) == s.With(kind, Stage(second.Schema().Defs(kind), first.Schema().Defs(kind), done))
  }

  /** ... and the members in `members` of definition `n`. */
  predicate ReachedIn(cs: seq<Change>, first: DataModel, second: DataModel, s: Schema, kind: Kind, done: set<string>,
                      n: string, members: set<string>)
    requires n in first.Defs(kind) && n in second.Defs(kind)
  {
    var defs := Stage(second.Schema().Defs(kind), first.Schema().Defs(kind), done);
    var x := Stage(Dict(second.Defs(kind)[n]), Dict(first.Defs(kind)[n]), members);
    Apply(cs, second.Schema()) == s.With(kind, defs[n := x])
  }

  lemma DefinitionStep(cs: seq<Change>, c: Change, first: DataModel, second: DataModel, s: Schema, done: set<string>)
    requires !c.OfMember() && Difference(c, first, second) && Reached(cs, first, second, s, c.kind, done)
    ensures Reached(cs + [c], first, second, s, c.kind, done + {c.name})
  {
    ApplySnoc(cs, c, second.Schema());
    hide Apply, Dict, Stage;
    StageStep(second.Schema().Defs(c.kind), first.Schema().Defs(c.kind), done, c.name);
  }

  lemma MembersStart(cs: seq<Change>, first: DataModel, second: DataModel, s: Schema, kind: Kind, done: set<string>,
                     n: string)
    requires n in first.Defs(kind) && n in second.Defs(kind) && n !in done
    requires Reached(cs, first, second, s, kind, done)
    ensures ReachedIn(cs, first, second, s, kind, done, n, {})
  {
    hide Apply, Dict, Stage;
    StageStart(Dict(second.Defs(kind)[n]), Dict(first.Defs(kind)[n]));
    StageSame(second.Schema().Defs(kind), first.Schema().Defs(kind), done, n, Dict(second.Defs(kind)[n]));
  }

  lemma MembersEnd(cs: seq<Change>, first: DataModel, second: DataModel, s: Schema, kind: Kind, done: set<string>,
                   n: string, members: set<string>)
    requires n in first.Defs(kind) && n in second.Defs(kind)
    requires forall m :: m in Dict(first.Defs(kind)[n]) || m in Dict(second.Defs(kind)[n]) ==> m in members
    requires ReachedIn(cs, first, second, s, kind, done, n, members)
    ensures Reached(cs, first, second, s, kind, done + {n})
  {
    hide Apply, Dict, Stage;
    StageEnd(Dict(second.Defs(kind)[n]), Dict(first.Defs(kind)[n]), members);
    StageStep(second.Schema().Defs(kind), first.Schema().Defs(kind), done, n);
  }

  lemma MemberStep(cs: seq<Change>, c: Change, first: DataModel, second: DataModel, s: Schema, kind: Kind,
                   done: set<string>, members: set<string>)
    requires c.OfMember() && c.def in first.Defs(kind) && c.def in second.Defs(kind)
      && (kind == Datatype ==> c.def !in s.components)
    requires MemberDifference(c, Dict(first.Defs(kind)[c.def]), Dict(second.Defs(kind)[c.def]))
    requires ReachedIn(cs, first, second, s, kind, done, c.def, members)
    ensures ReachedIn(cs + [c], first, second, s, kind, done, c.def, members + {c.member})
  {
    ApplySnoc(cs, c, second.Schema());
    hide Apply, Dict, Stage;
    var defs := Stage(second.Schema().Defs(kind), first.Schema().Defs(kind), done);
    var x, y := Dict(first.Defs(kind)[c.def]), Dict(second.Defs(kind)[c.def]);
    var z := Stage(y, x, members);
    EditHere(s, kind, defs[c.def := z], c);
    StageStep(y, x, members, c.member);
    SetAgain(defs, c.def, z, Edit(c, z));
  }

  lemma SameMember(cs: seq<Change>, first: DataModel, second: DataModel, s: Schema, kind: Kind, done: set<string>,
                   n: string, members: set<string>, m: string)
    requires n in first.Defs(kind) && n in second.Defs(kind) && m !in members
    requires var x, y := Dict(first.Defs(kind)[n]), Dict(second.Defs(kind)[n]); m in x && m in y && x[m] == y[m]
    requires ReachedIn(cs, first, second, s, kind, done, n, members)
    ensures ReachedIn(cs, first, second, s, kind, done, n, members + {m})
  {
    hide Apply, Dict, Stage;
    var x, y := Dict(first.Defs(kind)[n]), Dict(second.Defs(kind)[n]);
    StageStep(y, x, members, m);
    StageSame(y, x, members, m, x[m]);
  }

  // ---------------------------------------------------------------------
  // Renames that the user has declared

  predicate Fits(r: Change, drop: Change, add: Change) {
    && r.RenamedMember? && drop.DroppedMember? && add.AddedMember?
    && r.def == drop.def == add.def && r.member == drop.member && r.newName == add.member
    && drop.fullType == add.fullType
  }

  /** The declared rename is for a dropped and an added member of the same type. */
  predicate Applies(r: Change, detected: seq<Change>) {
    exists drop, add :: drop in detected && add in detected && Fits(r, drop, add)
  }

  predicate Clash(r: Change, s: Change) {
    r.RenamedMember? && s.RenamedMember? && r.def == s.def && (r.member == s.member || r.newName == s.newName)
  }

  /** Two of the declarations that apply want the same member. */
  ghost predicate Ambiguous(declared: seq<Change>, detected: seq<Change>) {
    exists i, j :: 0 <= i < j < |declared| && Clash(declared[i], declared[j])
      && Applies(declared[i], detected) && Applies(declared[j], detected)
  }

  // ---------------------------------------------------------------------
  // The evolution file

  /** What the file says of one definition: each operation at most once. */
  datatype Operations = Operations(memberRename: Option<(string, string)>, renamedTo: Option<string>,
                                   others: set<string>)

  /** The mapping from definitions to operations, in the order of the file. */
  type Evolutions = es: seq<(string, Operations)> | forall i, j :: 0 <= i < j < |es| ==> es[i].0 != es[j].0

  function Renames(es: seq<(string, Operations)>): seq<Change> {
    if es == [] then []
    else
      var front, e := Renames(es[..|es| - 1]), es[|es| - 1];
      match e.1.memberRename
      case None => front
      case Some(names) => front + [RenamedMember(e.0, names.0, names.1)]
  }

  predicate OnePerDefinition(declared: seq<Change>) {
    forall i, j :: 0 <= i < j < |declared| && declared[i].RenamedMember? && declared[j].RenamedMember? ==>
      declared[i].def != declared[j].def
  }

  lemma {:induction false} RenamesAreOfTheFile(es: Evolutions)
    ensures forall i :: 0 <= i < |Renames(es)| ==>
      Renames(es)[i].RenamedMember? && exists j :: 0 <= j < |es| && es[j].0 == Renames(es)[i].def
    ensures OnePerDefinition(Renames(es))
  {
    if es != [] {
      var front: Evolutions, n := es[..|es| - 1], |es| - 1;
      RenamesAreOfTheFile(front);
      forall i | 0 <= i < |Renames(front)| ensures exists j :: 0 <= j < n && es[j].0 == Renames(front)[i].def {
        var j :| 0 <= j < |front| && front[j].0 == Renames(front)[i].def;
        assert es[j] == front[j];
      }
      if es[n].1.memberRename.Some? { assert Renames(es)[|Renames(front)|].def == es[n].0; }
    }
  }

  /** A definition with a rename from `a` to `b` declares exactly that. */
  lemma {:induction false} RenamesIff(es: seq<(string, Operations)>, d: string, a: string, b: string)
    ensures RenamedMember(d, a, b) in Renames(es) <==>
      exists i :: 0 <= i < |es| && es[i].0 == d && es[i].1.memberRename == Some((a, b))
  {
    if es != [] {
      var front, n := es[..|es| - 1], |es| - 1;
      RenamesIff(front, d, a, b);
      if i :| 0 <= i < |front| && front[i].0 == d && front[i].1.memberRename == Some((a, b)) {
        assert es[i] == front[i];
      }
      if i :| 0 <= i < |es| && es[i].0 == d && es[i].1.memberRename == Some((a, b)) {
        assert i < n ==> front[i] == es[i];
      }
    }
  }

  /** Declarations of different definitions never want the same member. */
  lemma OneIsNeverAmbiguous(declared: seq<Change>, detected: seq<Change>)
    requires OnePerDefinition(declared)
    ensures !Ambiguous(declared, detected)
  {
    hide Applies;
  }

  /** Reading the file again makes every rename that applies ambiguous. */
  lemma TwiceIsAmbiguous(declared: seq<Change>, detected: seq<Change>)
    requires OnePerDefinition(declared)
    ensures Ambiguous(declared + declared, detected) <==> exists r :: r in declared && Applies(r, detected)
  {
    var twice, n := declared + declared, |declared|;
    if r :| r in declared && Applies(r, detected) {
      var i :| 0 <= i < n && declared[i] == r;
      assert twice[i] == r && twice[n + i] == r && Clash(twice[i], twice[n + i]);
    }
    if Ambiguous(twice, detected) {
      var i, j :| 0 <= i < j < |twice| && Clash(twice[i], twice[j])
        && Applies(twice[i], detected) && Applies(twice[j], detected);
      assert twice[i] in declared;
    }
  }

  // ---------------------------------------------------------------------

  /** What the detected changes become. */
  ghost predicate Replaced(result: seq<Change>, detected: seq<Change>, declared: seq<Change>) {
    forall c :: c in result <==>
      if c.RenamedMember? then c in declared && Applies(c, detected)
      else c in detected && !Consumed(c, declared, detected)
  }

  /** A declared rename that applies has replaced the change. */
  predicate Consumed(c: Change, declared: seq<Change>, detected: seq<Change>) {
    exists r :: r in declared && Applies(r, detected) && Consumes(r, c)
  }

  predicate Consumes(r: Change, c: Change) {
    r.RenamedMember? &&
    ((c.DroppedMember? && c.def == r.def && c.member == r.member)
     || (c.AddedMember? && c.def == r.def && c.member == r.newName))
  }

  /** The changes after the declared renames at the positions in `used` have been put in. */
  ghost predicate Renamed(cs: seq<Change>, detected: seq<Change>, declared: seq<Change>, used: set<nat>) {
    && (forall k :: k in used ==> k < |declared| && Applies(declared[k], detected))
    && (forall k, l :: k in used && l in used && k != l ==> !Clash(declared[k], declared[l]))
    && (forall c :: c in cs <==>
          if c.RenamedMember? then exists k :: k in used && declared[k] == c
          else c in detected && forall k :: k in used ==> !Consumes(declared[k], c))
  }

  /** The changes are independent and lead from the one model to the other. */
  predicate Leads(cs: seq<Change>, first: DataModel, second: DataModel) {
    AllApart(cs) && Apply(cs, second.Schema()) == first.Schema()
  }

  lemma SameKeyIsNotApart(c: Change, e: Change)
    requires c.OfMember() && e.OfMember() && c.def == e.def && c.member == e.member
    ensures !Apart(c, e)
  {
  }

  lemma SameKeySameChange(cs: seq<Change>, c: Change, e: Change)
    requires AllApart(cs) && c in cs && e in cs && c.OfMember() && e.OfMember() && c.def == e.def
    requires c.member == e.member
    ensures c == e
  {
    hide Apart;
    SameKeyIsNotApart(c, e);
    SameKeyIsNotApart(e, c);
    var i :| 0 <= i < |cs| && cs[i] == c;
    var j :| 0 <= j < |cs| && cs[j] == e;
  }

  lemma DroppedIsThere(c: Change, first: DataModel, second: DataModel)
    requires c.DroppedMember? && Difference(c, first, second) && second.Disjoint()
    ensures HasMember(second.Schema(), c.def, c.member, c.fullType)
  {
    hide Dict;
  }

  lemma ConsumesOnly(detected: seq<Change>, r: Change, drop: Change, add: Change, c: Change)
    requires AllApart(detected) && drop in detected && add in detected && c in detected && Fits(r, drop, add)
    ensures Consumes(r, c) <==> c == drop || c == add
  {
    hide AllApart;
    if c.DroppedMember? && Consumes(r, c) { SameKeySameChange(detected, c, drop); }
    if c.AddedMember? && Consumes(r, c) { SameKeySameChange(detected, c, add); }
  }

  /** Putting in another declared rename, while both changes are still there. */
  lemma RenameStep(cs: seq<Change>, detected: seq<Change>, declared: seq<Change>, used: set<nat>,
                   first: DataModel, second: DataModel, k: nat, drop: Change, add: Change)
    requires Renamed(cs, detected, declared, used) && Leads(cs, first, second)
    requires second.Disjoint() && AllApart(detected) && AllDifferences(detected, first, second)
    requires k < |declared| && k !in used && Fits(declared[k], drop, add) && drop in detected && add in detected
    requires drop in cs && add in cs
    ensures add in Remove(cs, drop)
    ensures var r := Remove(Remove(cs, drop), add) + [declared[k]];
      Leads(r, first, second) && Renamed(r, detected, declared, used + {k})
  {
    hide Apply, Difference, AllApart, Remove;
    var d := declared[k];
    DroppedIsThere(drop, first, second);
    ReplaceByRename(cs, drop.def, drop.member, add.member, drop.fullType, second.Schema());
    var r := Remove(Remove(cs, drop), add) + [d];
    assert d == RenamedMember(drop.def, drop.member, add.member);
    forall l | l in used ensures !Clash(declared[l], d) {
      assert !Consumes(declared[l], drop) && !Consumes(declared[l], add);
    }
    forall c ensures c in r <==> RenamedContent(c, detected, declared, used + {k}) {
      if c in detected { ConsumesOnly(detected, d, drop, add, c); }
    }
    assert Applies(d, detected);
  }

  ghost predicate RenamedContent(c: Change, detected: seq<Change>, declared: seq<Change>, used: set<nat>)
    requires forall k :: k in used ==> k < |declared|
  {
    if c.RenamedMember? then exists k :: k in used && declared[k] == c
    else c in detected && forall k :: k in used ==> !Consumes(declared[k], c)
  }

  /** If one of the two changes is gone, then another declaration has taken it. */
  lemma AlreadyTaken(cs: seq<Change>, detected: seq<Change>, declared: seq<Change>, used: set<nat>, k: nat,
                     drop: Change, add: Change)
    requires Renamed(cs, detected, declared, used) && k < |declared| && k !in used && Fits(declared[k], drop, add)
    requires drop in detected && add in detected && (drop !in cs || add !in cs)
    ensures Ambiguous(declared, detected)
  {
    assert Applies(declared[k], detected);
    var gone := if drop !in cs then drop else add;
    assert !gone.RenamedMember?;
    var l :| l in used && Consumes(declared[l], gone);
    assert l < |declared| && Applies(declared[l], detected) && l != k;
    BothWant(declared[k], declared[l], drop, add, gone);
    hide Renamed, Applies, Clash, Fits, Consumes;
    if k < l { assert Clash(declared[k], declared[l]); } else { assert Clash(declared[l], declared[k]); }
  }

  lemma BothWant(r: Change, r': Change, drop: Change, add: Change, gone: Change)
    requires Fits(r, drop, add) && Consumes(r', gone) && (gone == drop || gone == add)
    ensures Clash(r, r') && Clash(r', r)
  {
  }

  lemma NothingRenamed(detected: seq<Change>, declared: seq<Change>, first: DataModel, second: DataModel)
    requires AllDifferences(detected, first, second)
    ensures Renamed(detected, detected, declared, {})
  {
    hide MemberDifference;
    forall c | c in detected ensures !c.RenamedMember? { OnlyRenamesHaveTwoNames(c, first, second); }
  }

  lemma AllRenamed(cs: seq<Change>, detected: seq<Change>, declared: seq<Change>, used: set<nat>)
    requires Renamed(cs, detected, declared, used)
    requires forall k :: 0 <= k < |declared| && Applies(declared[k], detected) ==> k in used
    ensures !Ambiguous(declared, detected) && Replaced(cs, detected, declared)
  {
    hide Applies, Consumes, Clash;
    forall c ensures Consumed(c, declared, detected) <==> exists k :: k in used && Consumes(declared[k], c) {
      if r :| r in declared && Applies(r, detected) && Consumes(r, c) {
        var k :| 0 <= k < |declared| && declared[k] == r;
        assert k in used;
      }
    }
  }

  /** Changes of one kind with different keys. */
  predicate Distinct(cs: seq<Change>) {
    (forall i :: 0 <= i < |cs| ==> cs[i].OfMember())
    && forall i, j :: 0 <= i < j < |cs| ==> cs[i].def != cs[j].def || cs[i].member != cs[j].member
  }

  function DroppedMembers(cs: seq<Change>): (r: seq<Change>)
    ensures forall c :: c in r <==> c in cs && c.DroppedMember?
  {
    if cs == [] then []
    else if cs[|cs| - 1].DroppedMember? then DroppedMembers(cs[..|cs| - 1]) + [cs[|cs| - 1]]
    else DroppedMembers(cs[..|cs| - 1])
  }

  function AddedMembers(cs: seq<Change>): (r: seq<Change>)
    ensures forall c :: c in r <==> c in cs && c.AddedMember?
  {
    if cs == [] then []
    else if cs[|cs| - 1].AddedMember? then AddedMembers(cs[..|cs| - 1]) + [cs[|cs| - 1]]
    else AddedMembers(cs[..|cs| - 1])
  }

  /** The last change has another key than a member change before it. */
  lemma LastHasAnotherKey(cs: seq<Change>, e: Change)
    requires cs != [] && AllApart(cs) && e in cs[..|cs| - 1] && e.OfMember() && cs[|cs| - 1].OfMember()
    ensures e.def != cs[|cs| - 1].def || e.member != cs[|cs| - 1].member
  {
    hide Apart;
    var i :| 0 <= i < |cs| - 1 && cs[..|cs| - 1][i] == e;
    assert Apart(cs[i], cs[|cs| - 1]);
    if e.def == cs[|cs| - 1].def && e.member == cs[|cs| - 1].member { SameKeyIsNotApart(e, cs[|cs| - 1]); }
  }

  lemma {:induction false} DroppedAreDistinct(cs: seq<Change>)
    requires AllApart(cs)
    ensures Distinct(DroppedMembers(cs))
  {
    hide Apart;
    if cs != [] {
      var front, c := cs[..|cs| - 1], cs[|cs| - 1];
      DroppedAreDistinct(front);
      var r := DroppedMembers(front);
      forall i | 0 <= i < |r| && c.OfMember() ensures r[i].def != c.def || r[i].member != c.member {
        assert r[i] in r;
        LastHasAnotherKey(cs, r[i]);
      }
    }
  }

  lemma {:induction false} AddedAreDistinct(cs: seq<Change>)
    requires AllApart(cs)
    ensures Distinct(AddedMembers(cs))
  {
    hide Apart;
    if cs != [] {
      var front, c := cs[..|cs| - 1], cs[|cs| - 1];
      AddedAreDistinct(front);
      var r := AddedMembers(front);
      forall i | 0 <= i < |r| && c.OfMember() ensures r[i].def != c.def || r[i].member != c.member {
        assert r[i] in r;
        LastHasAnotherKey(cs, r[i]);
      }
    }
  }

  /** Used are the declared renames for the pairs before (i, j), and those before `k` for (i, j). */
  ghost predicate UsedUpTo(used: set<nat>, declared: seq<Change>, dropped: seq<Change>, added: seq<Change>, i: nat,
                           j: nat, k: nat) {
    forall k', i', j' {:trigger Fits(declared[k'], dropped[i'], added[j'])} ::
      0 <= k' < |declared| && 0 <= i' < |dropped| && 0 <= j' < |added| && Fits(declared[k'], dropped[i'], added[j']) ==>
        (k' in used <==> i' < i || (i' == i && (j' < j || (j' == j && k' < k))))
  }

  lemma NothingUsed(declared: seq<Change>, dropped: seq<Change>, added: seq<Change>)
    ensures UsedUpTo({}, declared, dropped, added, 0, 0, 0)
  {
  }

  lemma NextColumn(used: set<nat>, declared: seq<Change>, dropped: seq<Change>, added: seq<Change>, i: nat, j: nat)
    requires UsedUpTo(used, declared, dropped, added, i, j, |declared|)
    ensures UsedUpTo(used, declared, dropped, added, i, j + 1, 0)
  {
  }

  lemma SkipColumn(used: set<nat>, declared: seq<Change>, dropped: seq<Change>, added: seq<Change>, i: nat, j: nat)
    requires i < |dropped| && j < |added| && UsedUpTo(used, declared, dropped, added, i, j, 0)
    requires forall r :: !Fits(r, dropped[i], added[j])
    ensures UsedUpTo(used, declared, dropped, added, i, j + 1, 0)
  {
  }

  lemma NextRow(used: set<nat>, declared: seq<Change>, dropped: seq<Change>, added: seq<Change>, i: nat)
    requires UsedUpTo(used, declared, dropped, added, i, |added|, 0)
    ensures UsedUpTo(used, declared, dropped, added, i + 1, 0, 0)
  {
  }

  lemma SkipNext(used: set<nat>, declared: seq<Change>, dropped: seq<Change>, added: seq<Change>, i: nat, j: nat,
                 k: nat)
    requires k < |declared| && i < |dropped| && j < |added| && UsedUpTo(used, declared, dropped, added, i, j, k)
    requires !Fits(declared[k], dropped[i], added[j])
    ensures UsedUpTo(used, declared, dropped, added, i, j, k + 1)
  {
  }

  lemma UseNext(used: set<nat>, declared: seq<Change>, dropped: seq<Change>, added: seq<Change>, i: nat, j: nat, k: nat)
    requires k < |declared| && i < |dropped| && j < |added| && UsedUpTo(used, declared, dropped, added, i, j, k)
    requires Distinct(dropped) && Distinct(added) && Fits(declared[k], dropped[i], added[j])
    ensures k !in used && UsedUpTo(used + {k}, declared, dropped, added, i, j, k + 1)
  {
  }

  lemma AllUsed(used: set<nat>, declared: seq<Change>, detected: seq<Change>)
    requires var dropped, added := DroppedMembers(detected), AddedMembers(detected);
      UsedUpTo(used, declared, dropped, added, |dropped|, 0, 0)
    ensures forall k :: 0 <= k < |declared| && Applies(declared[k], detected) ==> k in used
  {
    var dropped, added := DroppedMembers(detected), AddedMembers(detected);
    forall k | 0 <= k < |declared| && Applies(declared[k], detected) ensures k in used {
      var d, a :| d in detected && a in detected && Fits(declared[k], d, a);
      assert d in dropped && a in added;
      var i :| 0 <= i < |dropped| && dropped[i] == d;
      var j :| 0 <= j < |added| && added[j] == a;
    }
  }

  class DataModelComparator {
    const modelNew: DataModel
    const modelOld: DataModel
    var declared: seq<Change>
    var detected: seq<Change>
    var schemaChanges: seq<Change>

    constructor (modelNew: DataModel, modelOld: DataModel)
      ensures this.modelNew == modelNew && this.modelOld == modelOld
      ensures declared == [] && detected == [] && schemaChanges == []
    {
      this.modelNew, this.modelOld := modelNew, modelOld;
      declared, detected, schemaChanges := [], [], [];
    }

    /** Appends the declared renames; false at an operation that is not supported. */
    method ReadEvolutionFile(evolutions: Evolutions) returns (ok: bool)
      modifies this`declared
      ensures ok <==> forall i :: 0 <= i < |evolutions| ==> evolutions[i].1.others == {}
      ensures ok ==> declared == old(declared) + Renames(evolutions)
    {
      for i := 0 to |evolutions|
        invariant forall j :: 0 <= j < i ==> evolutions[j].1.others == {}
        invariant declared == old(declared) + Renames(evolutions[..i])
      {
        var (klassname, operations) := evolutions[i];
        assert evolutions[..i + 1][..i] == evolutions[..i];
        if operations.others != {} { return false; }
        match operations.memberRename {
          case Some(names) => declared := declared + [RenamedMember(klassname, names.0, names.1)];
          case None =>
        }
      }
      assert evolutions[..|evolutions|] == evolutions;
      return true;
    }

    /** The detected changes are independent differences; member changes are in `seen`. */
    ghost predicate Sound(seen: set<string>, n: string, members: set<string>)
      reads this
    {
      && modelNew.Disjoint() && modelOld.Disjoint()
      && AllApart(detected) && AllDifferences(detected, modelNew, modelOld) && About(detected, seen, n, members)
    }

    ghost predicate At(s: Schema, kind: Kind, done: set<string>)
      reads this
    {
      Reached(detected, modelNew, modelOld, s, kind, done)
    }

    method AppendDefinition(c: Change, ghost s: Schema, ghost done: set<string>, ghost seen: set<string>)
      requires !c.OfMember() && Difference(c, modelNew, modelOld) && Sound(seen, "", {}) && At(s, c.kind, done)
      modifies this`detected
      ensures detected == old(detected) + [c] && Sound(seen, "", {}) && At(s, c.kind, done + {c.name})
    {
      hide AllApart, AllDifferences, Reached, Difference;
      NewDefinitionIsApart(detected, c, modelNew, modelOld);
      DefinitionStep(detected, c, modelNew, modelOld, s, done);
      detected := detected + [c];
    }

    /** Component or datatype definitions: added, dropped, and changed in their members. */
    method CompareDefinitions(kind: Kind, ghost s: Schema, ghost seen: set<string>)
      requires Sound(seen, "", {}) && At(s, kind, {})
      requires kind == Datatype ==> s.components == modelNew.Schema().components
      requires forall n :: n in seen ==> kind == Datatype && n in modelNew.components
      modifies this`detected
      ensures Sound(seen + modelNew.Defs(kind).Keys, "", {})
      ensures Apply(detected, modelOld.Schema()) == s.With(kind, modelNew.Schema().Defs(kind))
    {
      hide AllApart, AllDifferences, Reached, Apply, Stage, Dict, About;
      var first, second := modelNew.Defs(kind), modelOld.Defs(kind);
      var keys := CompareKeys(first, second);
      ghost var done := {};
      var added, dropped := keys.0, keys.1;
      while added != {}
        invariant Sound(seen, "", {}) && At(s, kind, done) && added <= keys.0
        invariant forall n :: n in done <==> n in keys.0 && n !in added
      {
        var n :| n in added;
        AppendDefinition(Added(kind, n, first[n]), s, done, seen);
        added, done := added - {n}, done + {n};
      }
      while dropped != {}
        invariant Sound(seen, "", {}) && At(s, kind, done) && dropped <= keys.1
        invariant forall n :: n in done <==> n in keys.0 || (n in keys.1 && n !in dropped)
      {
        var n :| n in dropped;
        AppendDefinition(Dropped(kind, n, second[n]), s, done, seen);
        dropped, done := dropped - {n}, done + {n};
      }
      CompareMembers(kind, keys.2, s, done, seen);
      AboutMore(detected, seen + keys.2, seen + first.Keys);
      AllReached(detected, modelNew, modelOld, s, kind, done + keys.2);
    }

    method CompareMembers(kind: Kind, definitions: set<string>, ghost s: Schema, ghost done: set<string>,
                          ghost seen: set<string>)
      requires Sound(seen, "", {}) && At(s, kind, done) && definitions !! done
      requires forall n :: n in definitions <==> n in modelNew.Defs(kind) && n in modelOld.Defs(kind)
      requires kind == Datatype ==> s.components == modelNew.Schema().components
      requires forall n :: n in seen ==> kind == Datatype && n in modelNew.components
      modifies this`detected
      ensures Sound(seen + definitions, "", {}) && At(s, kind, done + definitions)
    {
      hide AllApart, AllDifferences, Reached, ReachedIn, Apply, Stage, Dict, About;
      var todo := definitions;
      ghost var finished := {};
      assert seen + finished == seen && done + finished == done;
      while todo != {}
        invariant finished !! todo && finished + todo == definitions
        invariant Sound(seen + finished, "", {}) && At(s, kind, done + finished)
      {
        var n :| n in todo;
        CompareDefinition(kind, n, s, done + finished, seen + finished);
        assert seen + finished + {n} == seen + (finished + {n}) && done + finished + {n} == done + (finished + {n});
        todo, finished := todo - {n}, finished + {n};
      }
    }

    method CompareDefinition(kind: Kind, n: string, ghost s: Schema, ghost done: set<string>, ghost seen: set<string>)
      requires Sound(seen, "", {}) && At(s, kind, done) && n !in done && n !in seen
      requires n in modelNew.Defs(kind) && n in modelOld.Defs(kind)
      requires kind == Datatype ==> s.components == modelNew.Schema().components
      modifies this`detected
      ensures Sound(seen + {n}, "", {}) && At(s, kind, done + {n})
    {
      hide AllApart, AllDifferences, Reached, ReachedIn, Apply, Stage, Dict, About;
      var first, second := Dict(modelNew.Defs(kind)[n]), Dict(modelOld.Defs(kind)[n]);
      var keys := CompareKeys(first, second);
      ghost var members := {};
      MembersStart(detected, modelNew, modelOld, s, kind, done, n);
      AboutNone(detected, seen, n);
      var added, dropped, kept := keys.0, keys.1, keys.2;
      while added != {}
        invariant Sound(seen, n, members) && ReachedIn(detected, modelNew, modelOld, s, kind, done, n, members)
        invariant added <= keys.0 && forall m :: m in members <==> m in keys.0 && m !in added
      {
        var m :| m in added;
        AppendMember(AddedMember(n, m, first[m]), kind, s, done, seen, members);
        added, members := added - {m}, members + {m};
      }
      while dropped != {}
        invariant Sound(seen, n, members) && ReachedIn(detected, modelNew, modelOld, s, kind, done, n, members)
        invariant dropped <= keys.1 && forall m :: m in members <==> m in keys.0 || (m in keys.1 && m !in dropped)
      {
        var m :| m in dropped;
        AppendMember(DroppedMember(n, m, second[m]), kind, s, done, seen, members);
        dropped, members := dropped - {m}, members + {m};
      }
      while kept != {}
        invariant Sound(seen, n, members) && ReachedIn(detected, modelNew, modelOld, s, kind, done, n, members)
        invariant kept <= keys.2 && forall m ::
          m in members <==> m in keys.0 || m in keys.1 || (m in keys.2 && m !in kept)
      {
        var m :| m in kept;
        if second[m] != first[m] {
          AppendMember(ChangedMember(n, m, second[m], first[m]), kind, s, done, seen, members);
        } else {
          SameMember(detected, modelNew, modelOld, s, kind, done, n, members, m);
          AboutOneMore(detected, seen, n, members, m);
        }
        kept, members := kept - {m}, members + {m};
      }
      MembersEnd(detected, modelNew, modelOld, s, kind, done, n, members);
      AboutDone(detected, seen, n, members);
    }

    method AppendMember(c: Change, kind: Kind, ghost s: Schema, ghost done: set<string>, ghost seen: set<string>,
                        ghost members: set<string>)
      requires c.OfMember() && c.def in modelNew.Defs(kind) && c.def in modelOld.Defs(kind)
      requires c.def !in seen && c.member !in members && Sound(seen, c.def, members)
      requires kind == Datatype ==> s.components == modelNew.Schema().components
      requires MemberDifference(c, Dict(modelNew.Defs(kind)[c.def]), Dict(modelOld.Defs(kind)[c.def]))
      requires ReachedIn(detected, modelNew, modelOld, s, kind, done, c.def, members)
      modifies this`detected
      ensures detected == old(detected) + [c] && Sound(seen, c.def, members + {c.member})
      ensures ReachedIn(detected, modelNew, modelOld, s, kind, done, c.def, members + {c.member})
    {
      hide AllApart, AllDifferences, ReachedIn, Apply, Stage, Dict, About, MemberDifference;
      MemberStep(detected, c, modelNew, modelOld, s, kind, done, members);
      NewMemberIsApart(detected, c, modelNew, modelOld, seen, members);
      detected := detected + [c];
    }

    /** What holds between the steps of the heuristics. */
    ghost predicate Working(used: set<nat>)
      reads this
    {
      && modelOld.Disjoint() && AllApart(detected) && AllDifferences(detected, modelNew, modelOld)
      && Renamed(schemaChanges, detected, declared, used) && Leads(schemaChanges, modelNew, modelOld)
    }

    /** Looks for a declared rename of a dropped into an added member. */
    method TryRename(added: seq<Change>, dropped: seq<Change>, i: nat, j: nat, ghost used: set<nat>)
      returns (ok: bool, ghost more: set<nat>)
      requires i < |dropped| && j < |added| && dropped[i] in detected && added[j] in detected
      requires dropped[i].DroppedMember? && added[j].AddedMember? && Distinct(dropped) && Distinct(added)
      requires dropped[i].def == added[j].def && dropped[i].fullType == added[j].fullType
      requires Working(used) && UsedUpTo(used, declared, dropped, added, i, j, 0)
      modifies this`schemaChanges
      ensures !ok ==> Ambiguous(declared, detected)
      ensures ok ==> Working(more) && UsedUpTo(more, declared, dropped, added, i, j, |declared|)
    {
      hide AllApart, AllDifferences, Leads, Renamed, Ambiguous, UsedUpTo, Distinct;
      var drop, add := dropped[i], added[j];
      more := used;
      var k := 0;
      while k < |declared|
        invariant k <= |declared| && Working(more) && UsedUpTo(more, declared, dropped, added, i, j, k)
      {
        var r := declared[k];
        if r.RenamedMember? && r.def == drop.def && r.member == drop.member && r.newName == add.member {
          UseNext(more, declared, dropped, added, i, j, k);
          if drop !in schemaChanges || add !in schemaChanges {
            AlreadyTaken(schemaChanges, detected, declared, more, k, drop, add);
            return false, more;
          }
          RenameStep(schemaChanges, detected, declared, more, modelNew, modelOld, k, drop, add);
          schemaChanges := Remove(Remove(schemaChanges, drop), add) + [r];
          more := more + {k};
        } else {
          SkipNext(more, declared, dropped, added, i, j, k);
        }
        k := k + 1;
      }
      return true, more;
    }

    /** Declared renames replace drop and add pairs; false where a change to be removed is gone. */
    method HeuristicsMembers(added: seq<Change>, dropped: seq<Change>) returns (ok: bool)
      requires added == AddedMembers(detected) && dropped == DroppedMembers(detected) && schemaChanges == detected
      requires modelOld.Disjoint() && AllDifferences(detected, modelNew, modelOld)
      requires Leads(detected, modelNew, modelOld)
      modifies this`schemaChanges
      ensures ok <==> !Ambiguous(declared, detected)
      ensures ok ==> Leads(schemaChanges, modelNew, modelOld) && Replaced(schemaChanges, detected, declared)
    {
      hide AllApart, AllDifferences, Apply, Renamed, Ambiguous, Replaced, Distinct, UsedUpTo, AddedMembers,
           DroppedMembers;
      DroppedAreDistinct(detected);
      AddedAreDistinct(detected);
      NothingRenamed(detected, declared, modelNew, modelOld);
      ghost var used: set<nat> := {};
      NothingUsed(declared, dropped, added);
      var i := 0;
      while i < |dropped|
        invariant i <= |dropped| && Working(used) && UsedUpTo(used, declared, dropped, added, i, 0, 0)
      {
        assert dropped[i] in dropped;
        var j := 0;
        while j < |added|
          invariant j <= |added| && Working(used) && UsedUpTo(used, declared, dropped, added, i, j, 0)
        {
          assert added[j] in added;
          if added[j].def == dropped[i].def && added[j].fullType == dropped[i].fullType {
            ok, used := TryRename(added, dropped, i, j, used);
            if !ok { return; }
            NextColumn(used, declared, dropped, added, i, j);
          } else {
            SkipColumn(used, declared, dropped, added, i, j);
          }
          j := j + 1;
        }
        NextRow(used, declared, dropped, added, i);
        i := i + 1;
      }
      AllUsed(used, declared, detected);
      AllRenamed(schemaChanges, detected, declared, used);
      return true;
    }

    /** The comparison: detected changes and, unless declarations clash, the resulting ones. */
    method Compare() returns (ok: bool)
      requires modelNew.Disjoint() && modelOld.Disjoint() && detected == []
      modifies this`detected, this`schemaChanges
      ensures AllDifferences(detected, modelNew, modelOld) && Detects(detected, modelNew, modelOld)
      ensures AllApart(detected) && Apply(detected, modelOld.Schema()) == modelNew.Schema()
      ensures ok <==> !Ambiguous(declared, detected)
      ensures ok ==> AllApart(schemaChanges) && Apply(schemaChanges, modelOld.Schema()) == modelNew.Schema()
      ensures ok ==> Replaced(schemaChanges, detected, declared)
    {
      hide Apply, Stage, Dict, Replaced, Ambiguous;
      ghost var before, after := modelOld.Schema(), modelNew.Schema();
      StageStart(before.Defs(Component), after.Defs(Component));
      NoChanges(before);
      CompareDefinitions(Component, before, {});
      StageStart(before.Defs(Datatype), after.Defs(Datatype));
      CompareDefinitions(Datatype, before.With(Component, after.Defs(Component)), {} + modelNew.components.Keys);
      AllDetected(detected, modelNew, modelOld);
      hide Detects;
      schemaChanges := detected;
      ok := HeuristicsMembers(AddedMembers(schemaChanges), DroppedMembers(schemaChanges));
    }
  }

  /** A comparison with an evolution file, which is read once or, by another call, `again`.
      Read once it never fails, read twice it does so if one of the renames applies. */
  method ReadAndCompare(modelNew: DataModel, modelOld: DataModel, evolutions: Evolutions, again: bool)
    returns (c: DataModelComparator, ok: bool)
    requires modelNew.Disjoint() && modelOld.Disjoint()
    requires forall i :: 0 <= i < |evolutions| ==> evolutions[i].1.others == {}
    ensures fresh(c) && AllDifferences(c.detected, modelNew, modelOld) && Detects(c.detected, modelNew, modelOld)
    ensures ok <==> !again || !exists r :: r in Renames(evolutions) && Applies(r, c.detected)
    ensures ok ==> Leads(c.schemaChanges, modelNew, modelOld)
    ensures ok ==> Replaced(c.schemaChanges, c.detected,
                            if again then Renames(evolutions) + Renames(evolutions) else Renames(evolutions))
  {
    hide Ambiguous, Applies, Apply, AllApart, AllDifferences, Detects, Replaced, Renames, OnePerDefinition;
    c := new DataModelComparator(modelNew, modelOld);
    var _ := c.ReadEvolutionFile(evolutions);
    if again { var _ := c.ReadEvolutionFile(evolutions); }
    ok := c.Compare();
    assert [] + Renames(evolutions) == Renames(evolutions);
    RenamesAreOfTheFile(evolutions);
    OneIsNeverAmbiguous(Renames(evolutions), c.detected);
    TwiceIsAmbiguous(Renames(evolutions), c.detected);
  }

  lemma NoChanges(s: Schema)
    ensures Apply([], s) == s
  {
  }

  lemma AboutMore(cs: seq<Change>, seen: set<string>, more: set<string>)
    requires About(cs, seen, "", {}) && seen <= more
    ensures About(cs, more, "", {})
  {
  }

  lemma AboutNone(cs: seq<Change>, seen: set<string>, n: string)
    requires About(cs, seen, "", {})
    ensures About(cs, seen, n, {})
  {
  }

  lemma AboutOneMore(cs: seq<Change>, seen: set<string>, n: string, members: set<string>, m: string)
    requires About(cs, seen, n, members)
    ensures About(cs, seen, n, members + {m})
  {
  }

  lemma AboutDone(cs: seq<Change>, seen: set<string>, n: string, members: set<string>)
    requires About(cs, seen, n, members)
    ensures About(cs, seen + {n}, "", {})
  {
  }

  lemma AllReached(cs: seq<Change>, first: DataModel, second: DataModel, s: Schema, kind: Kind, done: set<string>)
    requires Reached(cs, first, second, s, kind, done)
    requires forall n :: n in first.Defs(kind) || n in second.Defs(kind) ==> n in done
    ensures Apply(cs, second.Schema()) == s.With(kind, first.Schema().Defs(kind))
  {
    StageEnd(second.Schema().Defs(kind), first.Schema().Defs(kind), done);
  }
}
