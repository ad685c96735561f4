/** The registries of creation and of schema evolution functions, after any history. */
module Registries {
  import opened Options

  /** A function is known by its number. */
  type Func = nat

  // ---------------------------------------------------------------------
  // Creation functions

  datatype Creation = Creation(collType: string, version: nat, func: Func)

  function OfType(h: seq<Creation>, t: string): seq<Creation> {
    if h == [] then []
    else if h[|h| - 1].collType == t then OfType(h[..|h| - 1], t) + [h[|h| - 1]]
    else OfType(h[..|h| - 1], t)
  }

  predicate Versioned(h: seq<Creation>) { forall i :: 0 <= i < |h| ==> h[i].version >= 1 }

  function Highest(h: seq<Creation>): nat {
    if h == [] then 0
    else
      var m := Highest(h[..|h| - 1]);
      if m < h[|h| - 1].version then h[|h| - 1].version else m
  }

  /** The table after the registrations of one type. */
  function Table(h: seq<Creation>): (r: seq<Func>)
    requires Versioned(h)
    ensures |r| == Highest(h)
  {
    if h == [] then []
    else
      var t, c := Table(h[..|h| - 1]), h[|h| - 1];
      if |t| < c.version then t + seq(c.version - |t|, _ => c.func) else t[c.version - 1 := c.func]
  }

  /** The last registration that named a version; where there is none, the first that
      extended the table past it. */
  predicate Owns(h: seq<Creation>, v: nat, i: nat) {
    i < |h| &&
    if exists j :: 0 <= j < |h| && h[j].version == v
    then h[i].version == v && forall j :: i < j < |h| ==> h[j].version != v
    else h[i].version >= v && forall j :: 0 <= j < i ==> h[j].version < v
  }

  lemma {:induction false} HighestBounds(h: seq<Creation>)
    ensures forall i :: 0 <= i < |h| ==> h[i].version <= Highest(h)
    ensures h != [] ==> exists i :: 0 <= i < |h| && h[i].version == Highest(h)
  {
    if |h| == 1 {
      assert h[0].version == Highest(h) || Highest(h) == Highest([]);
    } else if h != [] {
      var front := h[..|h| - 1];
      HighestBounds(front);
      var k :| 0 <= k < |front| && front[k].version == Highest(front);
      assert h[if h[|h| - 1].version > Highest(front) then |h| - 1 else k].version == Highest(h);
      assert forall i :: 0 <= i < |front| ==> h[i] == front[i];
    }
  }

  /** Every slot of the table belongs to the registration that owns it. */
  lemma {:induction false} SlotIsOwned(h: seq<Creation>, v: nat) returns (i: nat)
    requires Versioned(h) && 1 <= v <= Highest(h)
    ensures Owns(h, v, i) && Table(h)[v - 1] == h[i].func
  {
    var n := |h| - 1;
    var front, c := h[..n], h[n];
    HighestBounds(front);
    if v > Highest(front) {
      i := n;
      assert forall j :: 0 <= j < n ==> h[j].version < v by { assert forall j :: 0 <= j < n ==> h[j] == front[j]; }
      assert h[n].version == v || forall j :: 0 <= j < |h| ==> h[j].version != v;
    } else if c.version == v {
      i := n;
      assert h[n].version == v;
    } else {
      i := SlotIsOwned(front, v);
      OwnerStays(h, v, i);
    }
  }

  lemma OwnerStays(h: seq<Creation>, v: nat, i: nat)
    requires h != [] && Owns(h[..|h| - 1], v, i) && h[|h| - 1].version != v
    ensures Owns(h, v, i)
  {
    var front := h[..|h| - 1];
    assert forall j :: 0 <= j < |front| ==> h[j] == front[j];
    if j :| 0 <= j < |h| && h[j].version == v { assert front[j].version == v; }
    if j :| 0 <= j < |front| && front[j].version == v { assert h[j].version == v; }
  }

  lemma OwnerIsUnique(h: seq<Creation>, v: nat, i: nat)
    requires Owns(h, v, i)
    ensures forall k: nat :: Owns(h, v, k) ==> k == i
  {
  }

  class CollectionBufferFactory {
    var funcMap: map<string, seq<Func>>
    ghost var history: seq<Creation>

    ghost predicate Valid()
      reads this
    {
      && Versioned(history)
      && (forall t :: Versioned(OfType(history, t)))
      && (forall t :: t in funcMap <==> OfType(history, t) != [])
      && (forall t :: t in funcMap ==> funcMap[t] == Table(OfType(history, t)))
    }

    constructor ()
      ensures Valid() && history == []
    {
      funcMap, history := map[], [];
    }

    method RegisterCreationFunc(collType: string, version: nat, func: Func)
      requires Valid() && version >= 1
      modifies this
      ensures Valid() && history == old(history) + [Creation(collType, version, func)]
    {
      hide Table, Highest, OfType, Versioned;
      VersionedSnoc(OfType(history, collType), Creation(collType, version, func));
      VersionedSnoc(history, Creation(collType, version, func));
      ghost var c, h := Creation(collType, version, func), OfType(history, collType);
      CreationSnoc(history, c);
      if collType in funcMap {
        var versionMap := Update(funcMap[collType], version, func, h);
        funcMap := funcMap[collType := versionMap];
      } else {
        var versionMap := Fill(version, func);
        TableOfOne(c);
        assert h + [c] == [c];
        funcMap := funcMap[collType := versionMap];
      }
      history := history + [c];
    }

    /** The function to create buffers with, from the one registration that owns the version;
        None for unknown types and versions. */
    method CreateBuffers(collType: string, version: nat) returns (r: Option<Func>, ghost owner: nat)
      requires Valid() && version >= 1
      ensures r.Some? <==> version <= Highest(OfType(history, collType))
      ensures r.Some? ==>
        Owns(OfType(history, collType), version, owner) && OfType(history, collType)[owner].func == r.value
      ensures r.Some? ==> forall k: nat :: Owns(OfType(history, collType), version, k) ==> k == owner
    {
      owner := 0;
      if collType in funcMap {
        var versionMap := funcMap[collType];
        if |versionMap| >= version {
          owner := SlotIsOwned(OfType(history, collType), version);
          OwnerIsUnique(OfType(history, collType), version, owner);
          return Some(versionMap[version - 1]), owner;
        }
      }
      return None, owner;
    }
  }

  lemma VersionedSnoc(h: seq<Creation>, c: Creation)
    requires c.version >= 1
    ensures Versioned(h) ==> Versioned(h + [c])
  {
  }

  lemma CreationSnoc(h: seq<Creation>, c: Creation)
    ensures forall t :: OfType(h + [c], t) == if t == c.collType then OfType(h, t) + [c] else OfType(h, t)
  {
    assert (h + [c])[..|h|] == h;
  }

  lemma TableOfOne(c: Creation)
    requires c.version >= 1
    ensures Table([c]) == seq(c.version, _ => c.func)
  {
    assert [c][..0] == [];
    assert Table([]) == [];
  }

  /** Extends the table of a type, or replaces one function in it. */
  method Update(table: seq<Func>, version: nat, func: Func, ghost h: seq<Creation>) returns (r: seq<Func>)
    requires Versioned(h) && table == Table(h) && version >= 1
    ensures forall t :: r == Table(h + [Creation(t, version, func)])
  {
    forall t ensures (h + [Creation(t, version, func)])[..|h|] == h {}
    r := table;
    if |table| < version {
      while |r| < version
        invariant |table| <= |r| <= version && r == table + seq(|r| - |table|, _ => func)
      {
        r := r + [func];
      }
    } else {
      r := r[version - 1 := func];
    }
  }

  method Fill(version: nat, func: Func) returns (r: seq<Func>)
    ensures r == seq(version, _ => func)
  {
    r := [];
    for i := 0 to version
      invariant r == seq(i, _ => func)
    {
      r := r + [func];
    }
  }

  // ---------------------------------------------------------------------
  // Evolution functions

  datatype Evolution = Evolution(collType: string, fromVersion: nat, currentVersion: nat, func: Func)

  /** What becomes of buffers: left alone, given to a function, or an empty function called. */
  datatype Outcome = Unchanged | Applied(func: Func, fromVersion: nat) | NoFunction

  /** Every registration finds a place in the table, which earlier ones may have made. */
  predicate InRange(h: seq<Evolution>) {
    h == [] || (InRange(h[..|h| - 1]) && 1 <= h[|h| - 1].fromVersion <= Largest(h))
  }

  function Of(h: seq<Evolution>, t: string): seq<Evolution> {
    if h == [] then []
    else if h[|h| - 1].collType == t then Of(h[..|h| - 1], t) + [h[|h| - 1]]
    else Of(h[..|h| - 1], t)
  }

  function Largest(h: seq<Evolution>): nat {
    if h == [] then 0
    else
      var m := Largest(h[..|h| - 1]);
      if m < h[|h| - 1].currentVersion then h[|h| - 1].currentVersion else m
  }

  /** The last function registered for a version. */
  function Last(h: seq<Evolution>, v: nat): Option<Func> {
    if h == [] then None
    else if h[|h| - 1].fromVersion == v then Some(h[|h| - 1].func)
    else Last(h[..|h| - 1], v)
  }

  lemma {:induction false} LastIsLast(h: seq<Evolution>, v: nat)
    ensures Last(h, v).None? <==> !Named(h, v)
    ensures Last(h, v).Some? ==> exists i: nat :: IsLast(h, v, i) && h[i].func == Last(h, v).value
  {
    if h != [] {
      var front, n := h[..|h| - 1], |h| - 1;
      LastIsLast(front, v);
      assert forall i :: 0 <= i < n ==> h[i] == front[i];
      if h[n].fromVersion == v {
        assert IsLast(h, v, n);
      } else if Last(front, v).Some? {
        var i: nat :| IsLast(front, v, i) && front[i].func == Last(front, v).value;
        assert IsLast(h, v, i);
      }
    }
  }

  /** What evolution does after the registrations of a type: the current version is that of
      the first registration. */
  function Evolved(h: seq<Evolution>, fromVersion: nat): Outcome {
    if h == [] || fromVersion == h[0].currentVersion || fromVersion >= Largest(h) then Unchanged
    else match Last(h, fromVersion)
      case Some(f) => Applied(f, fromVersion)
      case None => NoFunction
  }

  ghost predicate Slots(table: seq<Option<Func>>, h: seq<Evolution>) {
    |table| == Largest(h) && forall v :: 1 <= v <= |table| ==> table[v - 1] == Last(h, v)
  }

  lemma {:induction false} LargestBounds(h: seq<Evolution>)
    ensures forall i :: 0 <= i < |h| ==> h[i].currentVersion <= Largest(h)
  {
    if h != [] {
      LargestBounds(h[..|h| - 1]);
      assert forall i :: 0 <= i < |h| - 1 ==> h[i] == h[..|h| - 1][i];
    }
  }

  lemma {:induction false} LargestIsThere(h: seq<Evolution>)
    ensures h != [] ==> exists i :: 0 <= i < |h| && h[i].currentVersion == Largest(h)
  {
    if |h| == 1 {
      assert h[0].currentVersion == Largest(h) || Largest(h) == Largest([]);
    } else if h != [] {
      var front := h[..|h| - 1];
      LargestIsThere(front);
      var k :| 0 <= k < |front| && front[k].currentVersion == Largest(front);
      assert h[if h[|h| - 1].currentVersion > Largest(front) then |h| - 1 else k].currentVersion == Largest(h);
    }
  }

  lemma {:induction false} OfNone(h: seq<Evolution>, t: string)
    ensures Of(h, t) == [] <==> forall i :: 0 <= i < |h| ==> h[i].collType != t
  {
    if h != [] {
      OfNone(h[..|h| - 1], t);
      assert forall i :: 0 <= i < |h| - 1 ==> h[i] == h[..|h| - 1][i];
    }
  }

  lemma {:induction false} NotBeyond(h: seq<Evolution>, v: nat)
    requires InRange(h) && v > Largest(h)
    ensures Last(h, v) == None
  {
    if h != [] { NotBeyond(h[..|h| - 1], v); }
  }

  /** Current version and functions of a type are as its registrations say. */
  ghost predicate Known(entry: (nat, Option<nat>), funcs: seq<seq<Option<Func>>>, h: seq<Evolution>) {
    h != [] && InRange(h) && entry.0 == h[0].currentVersion
    && entry.1.Some? && entry.1.value < |funcs| && Slots(funcs[entry.1.value], h)
  }

  class SchemaEvolution {
    /** Current version and index of the functions for every type. */
    var versionMapIndices: map<string, (nat, Option<nat>)>
    var evolutionFuncs: seq<seq<Option<Func>>>
    ghost var history: seq<Evolution>

    ghost predicate Valid()
      reads this
    {
      && (forall t :: t in versionMapIndices ==> Known(versionMapIndices[t], evolutionFuncs, Of(history, t)))
      && (forall t :: t !in versionMapIndices ==> Of(history, t) == [])
      && (forall t, u :: t in versionMapIndices && u in versionMapIndices && t != u ==>
            versionMapIndices[t].1 != versionMapIndices[u].1)
    }

    constructor ()
      ensures Valid() && history == []
    {
      versionMapIndices, evolutionFuncs, history := map[], [], [];
    }

    /** The entry of a type, which a new type gets with the version given. */
    method EnsureEntry(collType: string, currentVersion: nat)
      requires Valid()
      modifies `versionMapIndices, `evolutionFuncs
      ensures collType in versionMapIndices && versionMapIndices[collType].1.Some?
      ensures versionMapIndices[collType].1.value < |evolutionFuncs|
      ensures Slots(evolutionFuncs[versionMapIndices[collType].1.value], Of(history, collType))
      ensures InRange(Of(history, collType))
      ensures versionMapIndices[collType].0 ==
        if Of(history, collType) == [] then currentVersion else Of(history, collType)[0].currentVersion
      ensures forall t :: t in versionMapIndices && t != collType ==>
        Known(versionMapIndices[t], evolutionFuncs, Of(history, t))
      ensures forall t :: t !in versionMapIndices ==> Of(history, t) == []
      ensures forall t, u :: t in versionMapIndices && u in versionMapIndices && t != u ==>
        versionMapIndices[t].1 != versionMapIndices[u].1
    {
      hide Of, Slots, Known, InRange;
      KnownIndices(versionMapIndices, evolutionFuncs, history);
      NothingRegistered();
      if collType !in versionMapIndices {
        assert Of(history, collType) == [];
        versionMapIndices := versionMapIndices[collType := (currentVersion, None)];
      } else {
        SlotsOf(versionMapIndices[collType], evolutionFuncs, Of(history, collType));
      }
      if versionMapIndices[collType].1 == None {
        versionMapIndices := versionMapIndices[collType := (versionMapIndices[collType].0, Some(|evolutionFuncs|))];
        evolutionFuncs := evolutionFuncs + [[]];
        forall t | t in versionMapIndices && t != collType
          ensures Known(versionMapIndices[t], evolutionFuncs, Of(history, t))
        {
          StillKnown(versionMapIndices[t], old(evolutionFuncs), evolutionFuncs, Of(history, t));
        }
      }
    }

    /** A function for a version that has a place in the table, or gets one with the current version. */
    method RegisterEvolutionFunc(collType: string, fromVersion: nat, currentVersion: nat, func: Func)
      requires Valid() && 1 <= fromVersion
      requires fromVersion <= currentVersion || fromVersion <= Largest(Of(history, collType))
      modifies this
      ensures Valid() && history == old(history) + [Evolution(collType, fromVersion, currentVersion, func)]
    {
      hide Of, Slots, Known, InRange;
      ghost var e, h := Evolution(collType, fromVersion, currentVersion, func), Of(history, collType);
      OfSnoc(history, e);
      EnsureEntry(collType, currentVersion);
      ghost var before := evolutionFuncs;
      var mapIndex := versionMapIndices[collType].1.value;
      var versionMap := evolutionFuncs[mapIndex];
      SlotsSnoc(versionMap, h, e);
      if |versionMap| < currentVersion { versionMap := versionMap + seq(currentVersion - |versionMap|, _ => None); }
      versionMap := versionMap[fromVersion - 1 := Some(func)];
      evolutionFuncs := evolutionFuncs[mapIndex := versionMap];
      history := history + [e];
      NewlyKnown(versionMapIndices[collType], evolutionFuncs, h, e);
      forall t | t in versionMapIndices && t != collType
        ensures Known(versionMapIndices[t], evolutionFuncs, Of(history, t))
      {
        KnownIndex(versionMapIndices[t], before, Of(history, t));
        StillKnown(versionMapIndices[t], before, evolutionFuncs, Of(history, t));
      }
    }

    method EvolveBuffers(fromVersion: nat, collType: string) returns (r: Outcome)
      requires Valid() && fromVersion >= 1
      ensures r == Evolved(Of(history, collType), fromVersion)
      ensures (forall i :: 0 <= i < |history| ==> history[i].collType != collType) ==> r == Unchanged
      ensures var h := Of(history, collType);
        r == Unchanged <==>
          h == [] || fromVersion == h[0].currentVersion ||
          forall i :: 0 <= i < |h| ==> h[i].currentVersion <= fromVersion
      ensures r.NoFunction? ==> forall i :: 0 <= i < |Of(history, collType)| ==>
        Of(history, collType)[i].fromVersion != fromVersion
      ensures r.Applied? ==>
        r.fromVersion == fromVersion && exists i: nat ::
          IsLast(Of(history, collType), fromVersion, i) && Of(history, collType)[i].func == r.func
    {
      ghost var h := Of(history, collType);
      LargestBounds(h);
      LargestIsThere(h);
      LastIsLast(h, fromVersion);
      OfNone(history, collType);
      if collType in versionMapIndices {
        var (currentVersion, mapIndex) := versionMapIndices[collType];
        if fromVersion == currentVersion { return Unchanged; }
        var typeEvolFuncs := evolutionFuncs[mapIndex.value];
        if fromVersion < |typeEvolFuncs| {
          match typeEvolFuncs[fromVersion - 1] {
            case Some(f) => return Applied(f, fromVersion);
            case None => return NoFunction;
          }
        }
      }
      return Unchanged;
    }
  }

  lemma OfSnoc(h: seq<Evolution>, e: Evolution)
    ensures forall t :: Of(h + [e], t) == if t == e.collType then Of(h, t) + [e] else Of(h, t)
  {
    assert (h + [e])[..|h|] == h;
  }

  lemma KnownIndices(indices: map<string, (nat, Option<nat>)>, funcs: seq<seq<Option<Func>>>, h: seq<Evolution>)
    requires forall t :: t in indices ==> Known(indices[t], funcs, Of(h, t))
    ensures forall t :: t in indices ==> indices[t].1.Some? && indices[t].1.value < |funcs|
  {
  }

  lemma KnownIndex(entry: (nat, Option<nat>), funcs: seq<seq<Option<Func>>>, h: seq<Evolution>)
    requires Known(entry, funcs, h)
    ensures entry.1.Some? && entry.1.value < |funcs|
  {
  }

  lemma NothingRegistered()
    ensures Slots([], []) && InRange([])
  {
  }

  lemma SlotsOf(entry: (nat, Option<nat>), funcs: seq<seq<Option<Func>>>, h: seq<Evolution>)
    requires entry.1.Some? && entry.1.value < |funcs|
    requires Known(entry, funcs, h)
    ensures Slots(funcs[entry.1.value], h) && InRange(h) && h != [] && entry.0 == h[0].currentVersion
  {
  }

  lemma NewlyKnown(entry: (nat, Option<nat>), funcs: seq<seq<Option<Func>>>, h: seq<Evolution>, e: Evolution)
    requires InRange(h + [e]) && entry.0 == (if h == [] then e else h[0]).currentVersion
    requires entry.1.Some? && entry.1.value < |funcs| && Slots(funcs[entry.1.value], h + [e])
    ensures Known(entry, funcs, h + [e])
  {
  }

  lemma StillKnown(entry: (nat, Option<nat>), funcs: seq<seq<Option<Func>>>, more: seq<seq<Option<Func>>>,
                   h: seq<Evolution>)
    requires Known(entry, funcs, h) && |funcs| <= |more| && more[entry.1.value] == funcs[entry.1.value]
    ensures Known(entry, more, h)
  {
  }

  /** The table after another registration. */
  function Grown(table: seq<Option<Func>>, e: Evolution): seq<Option<Func>>
    requires 1 <= e.fromVersion && (e.fromVersion <= e.currentVersion || e.fromVersion <= |table|)
  {
    var grown := if |table| < e.currentVersion then table + seq(e.currentVersion - |table|, _ => None) else table;
    grown[e.fromVersion - 1 := Some(e.func)]
  }

  lemma SlotsSnoc(table: seq<Option<Func>>, h: seq<Evolution>, e: Evolution)
    requires Slots(table, h) && InRange(h)
    requires 1 <= e.fromVersion && (e.fromVersion <= e.currentVersion || e.fromVersion <= Largest(h))
    ensures |table| == Largest(h) && Slots(Grown(table, e), h + [e]) && InRange(h + [e])
  {
    EvolutionSnoc(h, e);
    hide Largest, Last, InRange;
    var more := Grown(table, e);
    forall v | 1 <= v <= |more| ensures more[v - 1] == Last(h + [e], v) {
      if v > |table| { NotBeyond(h, v); }
    }
  }

  lemma EvolutionSnoc(h: seq<Evolution>, e: Evolution)
    ensures Largest(h + [e]) == if Largest(h) < e.currentVersion then e.currentVersion else Largest(h)
    ensures forall v :: Last(h + [e], v) == if e.fromVersion == v then Some(e.func) else Last(h, v)
    ensures InRange(h + [e]) <==> InRange(h) && 1 <= e.fromVersion <= Largest(h + [e])
  {
    assert (h + [e])[..|h|] == h;
  }

  predicate Named(h: seq<Evolution>, v: nat) { exists i :: 0 <= i < |h| && h[i].fromVersion == v }

  /** The last registration for a version. */
  predicate IsLast(h: seq<Evolution>, v: nat, i: nat) {
    i < |h| && h[i].fromVersion == v && forall j :: i < j < |h| ==> h[j].fromVersion != v
  }

  /** One current version N, and a function for every version before it: buffers of version
      v are given to the last function registered for v, those of version N are left alone. */
  lemma CompleteEvolution(h: seq<Evolution>, n: nat, v: nat)
    requires h != [] && (forall i :: 0 <= i < |h| ==> h[i].currentVersion == n)
    requires forall u :: 1 <= u < n ==> Named(h, u)
    requires 1 <= v
    ensures v >= n ==> Evolved(h, v) == Unchanged
    ensures v < n ==> exists i: nat :: IsLast(h, v, i) && Evolved(h, v) == Applied(h[i].func, v)
  {
    LargestIs(h, n);
    LastIsLast(h, v);
    if v < n {
      assert Named(h, v);
      var i: nat :| IsLast(h, v, i) && h[i].func == Last(h, v).value;
    }
  }

  lemma {:induction false} LargestIs(h: seq<Evolution>, n: nat)
    requires h != [] && forall i :: 0 <= i < |h| ==> h[i].currentVersion == n
    ensures Largest(h) == n
  {
    if |h| > 1 {
      LargestIs(h[..|h| - 1], n);
    } else {
      assert h[..|h| - 1] == [];
    }
  }

  /** Buffers of a version are given to the last function registered for it. */
  ghost predicate Evolves(h: seq<Evolution>, v: nat) {
    exists i: nat :: IsLast(h, v, i) && Evolved(h, v) == Applied(h[i].func, v)
  }

  /** Of the earlier versions that have a function, only the current version of the first
      registration is not evolved. */
  lemma EvolvesIff(h: seq<Evolution>, v: nat)
    requires h != [] && 1 <= v < Largest(h) && Named(h, v)
    ensures Evolves(h, v) <==> v != h[0].currentVersion
  {
    LastIsLast(h, v);
    var i: nat :| IsLast(h, v, i) && h[i].func == Last(h, v).value;
    hide IsLast, Last;
    assert v != h[0].currentVersion ==> Evolved(h, v) == Applied(h[i].func, v);
  }

  lemma {:induction false} FirstInRange(h: seq<Evolution>)
    requires h != [] && InRange(h)
    ensures 1 <= h[0].fromVersion <= h[0].currentVersion
  {
    var front := h[..|h| - 1];
    if |h| > 1 { FirstInRange(front); } else { assert front == [] && Largest(front) == 0; }
  }

  /** With a function for every earlier version, all of them are evolved exactly if the first
      registration named the current version. */
  lemma AllEvolveIff(h: seq<Evolution>)
    requires h != [] && InRange(h) && forall v :: 1 <= v < Largest(h) ==> Named(h, v)
    ensures (forall v :: 1 <= v < Largest(h) ==> Evolves(h, v)) <==> h[0].currentVersion == Largest(h)
  {
    hide Named, Evolves;
    LargestBounds(h);
    forall v | 1 <= v < Largest(h) ensures Evolves(h, v) <==> v != h[0].currentVersion { EvolvesIff(h, v); }
    FirstInRange(h);
    assert h[0].currentVersion < Largest(h) ==> !Evolves(h, h[0].currentVersion);
  }

  /** With a later current version the first one still stops evolution at its version. */
  lemma FirstCurrentVersionStays(f: Func, g: Func)
    ensures Evolved([Evolution("T", 1, 2, f), Evolution("T", 2, 3, g)], 2) == Unchanged
    ensures Last([Evolution("T", 1, 2, f), Evolution("T", 2, 3, g)], 2) == Some(g)
  {
  }
}
