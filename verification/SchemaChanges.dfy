/** Data models, the changes between them, and what applying changes does. */
module SchemaChanges {
  datatype Member = Member(name: string, fullType: string)

  /** The member variables of a definition by name. */
  type Members = map<string, string>

  datatype Kind = Component | Datatype

  datatype DataModel = DataModel(components: map<string, seq<Member>>, datatypes: map<string, seq<Member>>) {
    function Defs(kind: Kind): map<string, seq<Member>> { if kind == Component then components else datatypes }
    predicate Disjoint() { forall n :: n in components ==> n !in datatypes }
    function Schema(): Schema { Definitions(Table(components), Table(datatypes)) }
  }

  /** What a data model says about members: definitions by name. */
  datatype Schema = Definitions(components: map<string, Members>, datatypes: map<string, Members>) {
    function Defs(kind: Kind): map<string, Members> { if kind == Component then components else datatypes }
    function With(kind: Kind, defs: map<string, Members>): Schema {
      if kind == Component then this.(components := defs) else this.(datatypes := defs)
    }
  }

  datatype Change =
    | Added(kind: Kind, name: string, members: seq<Member>)
    | Dropped(kind: Kind, name: string, members: seq<Member>)
    | AddedMember(def: string, member: string, fullType: string)
    | DroppedMember(def: string, member: string, fullType: string)
    | ChangedMember(def: string, member: string, oldType: string, newType: string)
    | RenamedMember(def: string, member: string, newName: string)
  {
    predicate OfMember() { !Added? && !Dropped? }
    predicate Touches(m: string)
      requires OfMember()
    {
      m == member || (RenamedMember? && m == newName)
    }
  }

  /** The dictionary of a list of members; the last of a name counts. */
  function Dict(ms: seq<Member>): Members {
    if ms == [] then map[] else Dict(ms[..|ms| - 1])[ms[|ms| - 1].name := ms[|ms| - 1].fullType]
  }

  function Table(defs: map<string, seq<Member>>): map<string, Members> { map n | n in defs :: Dict(defs[n]) }

  // ---------------------------------------------------------------------
  // Applying changes

  function Edit(c: Change, x: Members): Members
    requires c.OfMember()
  {
    match c
    case AddedMember(_, m, t) => x[m := t]
    case DroppedMember(_, m, _) => x - {m}
    case ChangedMember(_, m, _, t) => x[m := t]
    case RenamedMember(_, a, b) => if a in x then (x - {a})[b := x[a]] else x
  }

  function EditIn(c: Change, defs: map<string, Members>): (r: map<string, Members>)
    requires c.OfMember() && c.def in defs
    ensures forall n :: n in r <==> n in defs
  {
    defs[c.def := Edit(c, defs[c.def])]
  }

  /** A member change names its definition, which is a component or a datatype. */
  function ApplyOne(c: Change, s: Schema): Schema {
    match c
    case Added(kind, n, ms) => s.With(kind, s.Defs(kind)[n := Dict(ms)])
    case Dropped(kind, n, _) => s.With(kind, s.Defs(kind) - {n})
    case _ =>
      if c.def in s.components then s.(components := EditIn(c, s.components))
      else if c.def in s.datatypes then s.(datatypes := EditIn(c, s.datatypes))
      else s
  }

  function Apply(cs: seq<Change>, s: Schema): Schema {
    if cs == [] then s else ApplyOne(cs[|cs| - 1], Apply(cs[..|cs| - 1], s))
  }

  lemma ApplySnoc(cs: seq<Change>, c: Change, s: Schema)
    ensures Apply(cs + [c], s) == ApplyOne(c, Apply(cs, s))
  {
    assert (cs + [c])[..|cs|] == cs;
  }

  /** Changes that can be applied in either order, if one of them is a member's. */
  predicate Apart(c: Change, e: Change) {
    if c.OfMember() && e.OfMember() then
      c.def != e.def ||
      (!e.Touches(c.member) && !c.Touches(e.member)
       && (c.RenamedMember? ==> !e.Touches(c.newName)) && (e.RenamedMember? ==> !c.Touches(e.newName)))
    else if c.OfMember() then e.name != c.def
    else if e.OfMember() then c.name != e.def
    else true
  }

  predicate AllApart(cs: seq<Change>) { forall i, j :: 0 <= i < j < |cs| ==> Apart(cs[i], cs[j]) }

  lemma EditsCommute(c: Change, e: Change, x: Members)
    requires c.OfMember() && e.OfMember() && c.def == e.def && Apart(c, e)
    ensures Edit(c, Edit(e, x)) == Edit(e, Edit(c, x))
  {
    var l, r := Edit(c, Edit(e, x)), Edit(e, Edit(c, x));
    assert forall m :: m in l <==> m in r;
  }

  lemma UpdatesCommute(c: Change, defs: map<string, Members>, n: string, x: Members)
    requires c.OfMember() && c.def in defs && n != c.def
    ensures EditIn(c, defs[n := x]) == EditIn(c, defs)[n := x]
    ensures EditIn(c, defs - {n}) == EditIn(c, defs) - {n}
  {
    hide Edit;
  }

  lemma EditsInOneCommute(c: Change, e: Change, defs: map<string, Members>)
    requires c.OfMember() && e.OfMember() && c.def == e.def && c.def in defs && Apart(c, e)
    ensures EditIn(c, EditIn(e, defs)) == EditIn(e, EditIn(c, defs))
  {
    hide Edit, Apart, EditIn;
    var d, x := c.def, defs[c.def];
    EditsCommute(c, e, x);
    EditTwice(c, e, defs);
    EditTwice(e, c, defs);
  }

  lemma SetTwice<V>(m: map<string, V>, d: string, v: V, w: V)
    ensures m[d := v][d := w] == m[d := w]
  {
  }

  lemma EditTwice(c: Change, e: Change, defs: map<string, Members>)
    requires c.OfMember() && e.OfMember() && c.def == e.def && c.def in defs
    ensures EditIn(c, EditIn(e, defs)) == defs[c.def := Edit(c, Edit(e, defs[c.def]))]
  {
    hide Edit;
    var y := Edit(e, defs[c.def]);
    SetTwice(defs, c.def, y, Edit(c, y));
  }

  lemma EditsInTwoCommute(c: Change, e: Change, defs: map<string, Members>)
    requires c.OfMember() && e.OfMember() && c.def != e.def && c.def in defs && e.def in defs
    ensures EditIn(c, EditIn(e, defs)) == EditIn(e, EditIn(c, defs))
  {
    hide Edit;
    var v := Edit(e, defs[e.def]);
    assert EditIn(e, defs) == defs[e.def := v];
    assert EditIn(e, EditIn(c, defs)) == EditIn(c, defs)[e.def := v];
    hide EditIn;
    UpdatesCommute(c, defs, e.def, v);
  }

  lemma CommuteWithDefinition(c: Change, e: Change, s: Schema)
    requires c.OfMember() && !e.OfMember() && e.name != c.def
    ensures ApplyOne(c, ApplyOne(e, s)) == ApplyOne(e, ApplyOne(c, s))
  {
    hide EditIn, Dict;
    var t := ApplyOne(e, s);
    assert c.def in t.components <==> c.def in s.components;
    assert c.def in t.datatypes <==> c.def in s.datatypes;
    var x := if e.Added? then Dict(e.members) else map[];
    MemberChange(c, s);
    MemberChange(c, t);
    if c.def in s.components {
      UpdatesCommute(c, s.components, e.name, x);
    } else if c.def in s.datatypes {
      UpdatesCommute(c, s.datatypes, e.name, x);
    }
  }

  /** Where a member change takes effect. */
  lemma MemberChange(c: Change, s: Schema)
    requires c.OfMember()
    ensures c.def in s.components ==> ApplyOne(c, s) == s.(components := EditIn(c, s.components))
    ensures c.def !in s.components && c.def in s.datatypes ==> ApplyOne(c, s) == s.(datatypes := EditIn(c, s.datatypes))
    ensures c.def !in s.components && c.def !in s.datatypes ==> ApplyOne(c, s) == s
  {
    hide EditIn;
  }

  lemma CommuteMembers(c: Change, e: Change, s: Schema)
    requires c.OfMember() && e.OfMember() && Apart(c, e)
    ensures ApplyOne(c, ApplyOne(e, s)) == ApplyOne(e, ApplyOne(c, s))
  {
    hide EditIn, Apart, ApplyOne;
    MemberChange(c, s);
    MemberChange(e, s);
    MemberChange(c, ApplyOne(e, s));
    MemberChange(e, ApplyOne(c, s));
    var defs := if c.def in s.components then s.components else s.datatypes;
    if c.def in defs && e.def in defs {
      if c.def == e.def { EditsInOneCommute(c, e, defs); } else { EditsInTwoCommute(c, e, defs); }
    }
  }

  lemma Commute(c: Change, e: Change, s: Schema)
    requires c.OfMember() && Apart(c, e)
    ensures ApplyOne(c, ApplyOne(e, s)) == ApplyOne(e, ApplyOne(c, s))
  {
    if e.OfMember() { CommuteMembers(c, e, s); } else { CommuteWithDefinition(c, e, s); }
  }

  /** A member change apart from those after it can as well come last. */
  lemma {:induction false} MoveToEnd(a: seq<Change>, c: Change, b: seq<Change>, s: Schema)
    requires c.OfMember() && ApartFromAll(c, b)
    ensures Apply(a + b + [c], s) == Apply(a + [c] + b, s)
  {
    hide ApplyOne, Apart, Apply;
    if b == [] {
      assert a + b + [c] == a + [c] + b;
    } else {
      var front, e := b[..|b| - 1], b[|b| - 1];
      assert b == front + [e] && e in b;
      MoveToEnd(a, c, front, s);
      assert a + [c] + b == a + [c] + front + [e] && a + b == a + front + [e];
      ApplySnoc(a + [c] + front, e, s);
      ApplySnoc(a + front, c, s);
      Commute(c, e, Apply(a + front, s));
      ApplySnoc(a + front, e, s);
      ApplySnoc(a + b, c, s);
    }
  }

  predicate ApartFromAll(c: Change, cs: seq<Change>) { forall e :: e in cs ==> Apart(c, e) }

  // ---------------------------------------------------------------------
  // What changes leave alone

  predicate HasMember(s: Schema, d: string, m: string, t: string) {
    if d in s.components then m in s.components[d] && s.components[d][m] == t
    else d in s.datatypes && m in s.datatypes[d] && s.datatypes[d][m] == t
  }

  lemma EditKeeps(e: Change, x: Members, c: Change)
    requires e.OfMember() && c.DroppedMember? && c.def == e.def && Apart(c, e)
    ensures c.member in Edit(e, x) <==> c.member in x
    ensures c.member in x ==> Edit(e, x)[c.member] == x[c.member]
  {
  }

  lemma UntouchedByOne(e: Change, s: Schema, c: Change)
    requires c.DroppedMember? && HasMember(s, c.def, c.member, c.fullType) && Apart(c, e)
    ensures HasMember(ApplyOne(e, s), c.def, c.member, c.fullType)
  {
    if e.OfMember() && e.def == c.def {
      EditKeeps(e, if c.def in s.components then s.components[c.def] else s.datatypes[c.def], c);
    }
    hide Edit, Dict;
  }

  lemma {:induction false} Untouched(cs: seq<Change>, s: Schema, c: Change)
    requires c.DroppedMember? && HasMember(s, c.def, c.member, c.fullType) && ApartFromAll(c, cs)
    ensures HasMember(Apply(cs, s), c.def, c.member, c.fullType)
  {
    hide HasMember, ApplyOne, Apart;
    if cs != [] {
      Untouched(cs[..|cs| - 1], s, c);
      UntouchedByOne(cs[|cs| - 1], Apply(cs[..|cs| - 1], s), c);
    }
  }

  /** Dropping a member and adding another of the same type is renaming it. */
  lemma RenameIsDropAndAdd(d: string, a: string, b: string, t: string, s: Schema)
    requires HasMember(s, d, a, t)
    ensures ApplyOne(AddedMember(d, b, t), ApplyOne(DroppedMember(d, a, t), s)) == ApplyOne(RenamedMember(d, a, b), s)
  {
  }

  /** The first occurrence removed, as list.remove does. */
  function Remove(cs: seq<Change>, c: Change): seq<Change>
    requires c in cs
  {
    if cs[0] == c then cs[1..] else [cs[0]] + Remove(cs[1..], c)
  }

  lemma {:induction false} RemoveAt(cs: seq<Change>, c: Change) returns (a: seq<Change>, b: seq<Change>)
    requires c in cs
    ensures cs == a + [c] + b && Remove(cs, c) == a + b
  {
    if cs[0] == c {
      a, b := [], cs[1..];
    } else {
      var a', b' := RemoveAt(cs[1..], c);
      a, b := [cs[0]] + a', b';
      assert cs == [cs[0]] + cs[1..];
    }
  }

  lemma ApartIsSymmetric(c: Change, e: Change)
    ensures Apart(c, e) == Apart(e, c)
  {
  }

  lemma ApartWithout(a: seq<Change>, c: Change, b: seq<Change>)
    requires AllApart(a + [c] + b) && c.OfMember()
    ensures AllApart(a + b) && ApartFromAll(c, a + b) && ApartFromAll(c, b) && c !in a + b
  {
    hide Apart;
    var cs, r, n := a + [c] + b, a + b, |a|;
    assert cs[n] == c;
    assert forall j :: 0 <= j < |r| ==> r[j] == cs[if j < n then j else j + 1];
    forall j | 0 <= j < |r| ensures Apart(c, r[j]) { ApartIsSymmetric(c, r[j]); }
    assert forall e :: e in b ==> e in r;
    NotApartFromItself(c);
  }

  /** Taking a change out of a list of independent changes: it can be applied at the end. */
  lemma TakeOut(cs: seq<Change>, c: Change, s: Schema)
    requires AllApart(cs) && c in cs && c.OfMember()
    ensures Apply(Remove(cs, c) + [c], s) == Apply(cs, s)
    ensures AllApart(Remove(cs, c)) && ApartFromAll(c, Remove(cs, c))
    ensures forall e :: e in Remove(cs, c) <==> e in cs && e != c
  {
    hide Apply, Apart, Remove, AllApart, ApartFromAll;
    var a, b := RemoveAt(cs, c);
    ApartWithout(a, c, b);
    MoveToEnd(a, c, b, s);
  }

  lemma NotApartFromItself(c: Change)
    requires c.OfMember()
    ensures !Apart(c, c)
  {
  }

  /** Replacing a dropped and an added member of one type by a rename changes nothing. */
  lemma ReplaceByRename(cs: seq<Change>, d: string, a: string, b: string, t: string, s: Schema)
    requires AllApart(cs) && DroppedMember(d, a, t) in cs && AddedMember(d, b, t) in cs && HasMember(s, d, a, t)
    ensures AddedMember(d, b, t) in Remove(cs, DroppedMember(d, a, t))
    ensures var drop, add := DroppedMember(d, a, t), AddedMember(d, b, t);
      var rest := Remove(Remove(cs, drop), add);
      && Apply(rest + [RenamedMember(d, a, b)], s) == Apply(cs, s)
      && AllApart(rest + [RenamedMember(d, a, b)])
      && forall e :: e in rest <==> e in cs && e != drop && e != add
  {
    var drop, add := DroppedMember(d, a, t), AddedMember(d, b, t);
    TakeOut(cs, drop, s);
    var once := Remove(cs, drop);
    TakeOut(once, add, s);
    var rest := Remove(once, add);
    ApplySnoc(once, drop, s);
    ApplySnoc(rest, add, s);
    assert ApartFromAll(drop, rest) && Apart(drop, add);
    hide Apply, ApplyOne, HasMember, Remove;
    Commute(drop, add, Apply(rest, s));
    Untouched(rest, s, drop);
    RenameIsDropAndAdd(d, a, b, t, Apply(rest, s));
    ApplySnoc(rest, RenamedMember(d, a, b), s);
    RenameIsApart(rest, d, a, b, t);
  }

  lemma RenameIsApart(rest: seq<Change>, d: string, a: string, b: string, t: string)
    requires AllApart(rest) && ApartFromAll(DroppedMember(d, a, t), rest) && ApartFromAll(AddedMember(d, b, t), rest)
    ensures AllApart(rest + [RenamedMember(d, a, b)])
  {
    forall i | 0 <= i < |rest| ensures Apart(rest[i], RenamedMember(d, a, b)) {
      assert rest[i] in rest;
    }
  }
}
