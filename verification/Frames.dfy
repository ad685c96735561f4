/** The Frame: collections are unpacked on demand from a destructive raw store
    and resolve their object IDs by calling back into the Frame. */
module Frames {
  import opened Options
  import opened CollectionData
  import opened LinkCollections

  /** The hash that assigns collection IDs to new names (see module Murmur3). */
  type NameHash = Name -> CollID

  class CollectionIDTable {
    var ids: seq<CollID>
    var names: seq<Name>
    const hash: NameHash

    constructor (table: IDTable, hash: NameHash)
      ensures Table() == table && this.hash == hash
    {
      ids, names := table.ids, table.names;
      this.hash := hash;
    }

    function Table(): IDTable
      reads this
    {
      IDTable(ids, names)
    }

    /** The ID that `name` has, or will get once it is added. */
    function IDFor(name: Name): CollID
      reads this
    {
      var known := Table().IDOf(name);
      if known.Some? then known.value else hash(name)
    }

    method Add(name: Name) returns (id: CollID)
      requires Table().Valid()
      modifies this
      ensures Table().Extends(old(Table()))
      ensures id == old(IDFor(name))
      ensures Table().IDOf(name) == Some(id)
      ensures old(Table().IDOf(name)).Some? ==> Table() == old(Table())
      ensures name !in old(names) ==> names == old(names) + [name] && ids == old(ids) + [hash(name)]
      ensures forall x :: Table().NameOf(x) == old(Table().NameOf(x)) ||
                (old(Table().NameOf(x)).None? && Table().NameOf(x) == Some(name) && x == id)
    {
      var index := Find(names, name);
      if index == |names| {
        ghost var before := Table();
        id := hash(name);
        names := names + [name];
        ids := ids + [id];
        forall x ensures Table().NameOf(x) == before.NameOf(x) ||
                           (before.NameOf(x).None? && Table().NameOf(x) == Some(name) && x == id)
        {
          FindInExtension(before.ids, [id], x);
        }
        assert names[|before.names|] == name && name !in names[..Find(names, name)];
        FindInExtension(before.names, [name], name);
      } else {
        id := ids[index];
      }
    }
  }

  // ---------------------------------------------------------------------
  // The invariant of a Frame, over the values it stores

  /** What a Frame holds: `raw` is the destructive store of buffers, `colls` are the
      collections that are unpacked or have been put into it, `retrieved` are the
      IDs that have been asked for while references were resolved. */
  datatype Store = Store(raw: map<Name, Buffers>, colls: map<Name, Collection>, retrieved: set<CollID>) {
    predicate Has(n: Name) { n in raw || n in colls }

    function Opened(n: Name, c: Collection): Store { Store(raw - {n}, colls[n := c], retrieved) }
  }

  /** Each collection of the data is either still raw or unpacked. */
  ghost predicate Complete(data: RawData, s: Store) {
    && (forall n :: n in s.raw ==> n !in s.colls && n in data.buffers && s.raw[n] == data.buffers[n])
    && (forall n :: n in data.buffers ==> n in s.raw || n in s.colls)
  }

  ghost predicate Within(names: set<Name>, s: Store) {
    forall m :: m in names ==> m in s.colls
  }

  /** Unpacked collections are fully resolved, and what they refer to is unpacked
      as well. Collections named in `open` are in the middle of resolving. */
  ghost predicate Resolved(g: Graph, s: Store, open: set<Name>) {
    forall n :: n in s.colls && n in g.final && n in g.edges && n !in open ==>
      s.colls[n] == g.final[n] && Within(g.edges[n], s)
  }

  /** References that are still to be resolved do not name a collection that was
      put into the Frame by the user. */
  ghost predicate Unclaimed(data: RawData, table: IDTable, s: Store, open: set<Name>) {
    forall n :: n in data.buffers && (n in s.raw || n in open) ==> ReadsOnlyData(data, table, s, n)
  }

  /** The object IDs that resolving asks for: all but those of unset relations. */
  predicate LookedUp(b: Buffers, id: ObjectID) {
    id in b.References() && (id.index != INVALID || b.SubsetBuffers?)
  }

  ghost predicate ReadsOnlyData(data: RawData, table: IDTable, s: Store, n: Name)
    requires n in data.buffers
  {
    forall id :: LookedUp(data.buffers[n], id) && table.NameOf(id.collectionID).Some? ==>
      table.NameOf(id.collectionID).value in s.colls ==> table.NameOf(id.collectionID).value in data.buffers
  }

  /** There is an object for every datum, and it carries the ID of its slot. */
  predicate SlotsFilled(data: RawData, n: Name, c: Collection)
    requires n in data.buffers
  {
    data.buffers[n].LinkBuffers? ==>
      && |c.links| == |data.buffers[n].weights| && data.table.IDOf(n) == Some(c.id)
      && forall i :: 0 <= i < |c.links| ==> c.links[i].id == ObjectID(i, c.id)
  }

  /** All collections that have been unpacked have their objects, even those that are
      in the middle of resolving: references may lead into them at any time. */
  ghost predicate Shaped(data: RawData, s: Store) {
    forall n :: n in s.colls && n in data.buffers ==> SlotsFilled(data, n, s.colls[n])
  }

  ghost predicate Inv(data: RawData, table: IDTable, s: Store, open: set<Name>) {
    && data.Valid() && table.Extends(data.table)
    && Complete(data, s) && Shaped(data, s) && Resolved(data.Final(), s, open)
    && Unclaimed(data, table, s, open) && Within(open, s)
  }

  lemma ShapedWith(data: RawData, s: Store, t: Store, name: Name, c: Collection)
    requires Shaped(data, s) && t.colls == s.colls[name := c] && name in data.buffers && SlotsFilled(data, name, c)
    ensures Shaped(data, t)
  {
    hide SlotsFilled;
  }

  lemma PartialIsFilled(data: RawData, n: Name, i: nat, j: nat)
    requires data.Valid() && n in data.buffers
    requires var b := data.buffers[n]; if b.LinkBuffers? then i <= |b.weights| && j <= |b.weights| else i <= |b.ids|
    ensures SlotsFilled(data, n, data.Partial(n, i, j))
  {
    hide RawData.Resolve;
  }

  /** The guard: an ID that has been asked for names nothing that is still raw,
      except what is just about to be unpacked. */
  ghost predicate Guard(table: IDTable, s: Store, except: set<Name>) {
    forall id :: id in s.retrieved ==>
      table.NameOf(id).Some? && (table.NameOf(id).value in s.raw ==> table.NameOf(id).value in except)
  }

  /** `t` comes from `s` by unpacking: collections stay as they are, apart from
      those in `mine`, and only names in `reach` are unpacked. */
  ghost predicate Unpacks(s: Store, t: Store, mine: set<Name>, reach: set<Name>) {
    && (forall n {:trigger n in t.colls} {:trigger n in s.colls} :: n in s.colls ==>
         n in t.colls && (n in mine || t.colls[n] == s.colls[n]))
    && (forall n {:trigger n in t.colls} :: n in t.colls ==> n in s.colls || (n in s.raw && n in reach))
    && (forall n {:trigger n in t.raw} :: n in t.raw ==> n in s.raw)
    && (forall n {:trigger n in s.raw} :: n in s.raw ==> n in t.raw || n in t.colls)
    && |t.raw| <= |s.raw|
    && s.retrieved <= t.retrieved
  }

  lemma UnpacksTransitive(s: Store, t: Store, u: Store, mine: set<Name>, mine': set<Name>, reach: set<Name>)
    requires Unpacks(s, t, mine, reach) && Unpacks(t, u, mine', reach) && mine <= mine'
    ensures Unpacks(s, u, mine', reach)
  {
  }

  lemma UnpacksReflexive(s: Store, mine: set<Name>, reach: set<Name>)
    ensures Unpacks(s, s, mine, reach)
  {
  }

  /** A collection that was not there before has not been changed. */
  lemma Untouched(s: Store, t: Store, name: Name, reach: set<Name>)
    requires Unpacks(s, t, {name}, reach) && name !in s.colls
    ensures Unpacks(s, t, {}, reach)
  {
  }

  /** What unpacking means for one name. */
  lemma UnpacksAt(s: Store, t: Store, mine: set<Name>, reach: set<Name>, name: Name)
    requires Unpacks(s, t, mine, reach)
    ensures |t.raw| <= |s.raw| && (s.Has(name) <==> t.Has(name)) && (name in t.raw ==> name in s.raw)
    ensures name in s.colls ==> name in t.colls && (name in mine || t.colls[name] == s.colls[name])
  {
  }

  lemma WithinStays(names: set<Name>, s: Store, t: Store, mine: set<Name>, reach: set<Name>)
    requires Within(names, s) && Unpacks(s, t, mine, reach)
    ensures Within(names, t)
  {
  }

  lemma WithinNone(data: RawData, ids: seq<ObjectID>, s: Store)
    ensures Within(data.Targets(ids[..0]), s)
  {
  }

  lemma WithinOne(data: RawData, id: ObjectID, s: Store)
    requires data.Designates(id).Some? ==> data.Designates(id).value in s.colls
    ensures Within(data.Targets([id]), s)
  {
  }

  lemma WithinNext(data: RawData, ids: seq<ObjectID>, i: nat, s: Store, t: Store, mine: set<Name>, reach: set<Name>)
    requires i < |ids| && Within(data.Targets(ids[..i]), s) && Unpacks(s, t, mine, reach)
    requires Within(data.Targets([ids[i]]), t)
    ensures Within(data.Targets(ids[..i + 1]), t)
  {
    data.TargetsSnoc(ids, i);
  }

  lemma OneRelation(data: RawData, s: Store, name: Name)
    requires name in data.buffers && data.buffers[name].SubsetBuffers?
    requires Within(data.Targets(data.buffers[name].ids), s)
    ensures Within(data.Edges(name), s)
  {
  }

  lemma BothRelations(data: RawData, s: Store, t: Store, name: Name, reach: set<Name>)
    requires name in data.buffers && data.buffers[name].LinkBuffers?
    requires Within(data.Targets(data.buffers[name].fromIDs), s) && Unpacks(s, t, {name}, reach)
    requires Within(data.Targets(data.buffers[name].toIDs), t)
    ensures Within(data.Edges(name), t)
  {
    WithinStays(data.Targets(data.buffers[name].fromIDs), s, t, {name}, reach);
  }

  lemma UnpackOne(s: Store, name: Name, c: Collection, reach: set<Name>)
    requires name in s.raw && name !in s.colls && name in reach
    ensures Unpacks(s, s.Opened(name, c), {}, reach) && |s.Opened(name, c).raw| < |s.raw|
  {
    var t := s.Opened(name, c);
    assert t.colls.Keys == s.colls.Keys + {name};
    assert t.raw.Keys == s.raw.Keys - {name};
    assert |t.raw.Keys| == |s.raw.Keys| - 1;
  }

  lemma ResolvedGrows(g: Graph, s: Store, t: Store, open: set<Name>, name: Name)
    requires Resolved(g, s, open)
    requires forall n {:trigger n in t.colls} :: n in s.colls ==>
      n in t.colls && (n == name || t.colls[n] == s.colls[n])
    requires forall n {:trigger n in t.colls} :: n in t.colls ==> n in s.colls || n == name
    ensures Resolved(g, t, open + {name})
  {
  }

  lemma RawIsData(data: RawData, table: IDTable, s: Store, open: set<Name>, name: Name)
    requires Inv(data, table, s, open) && name in s.raw
    ensures name in data.buffers && s.raw[name] == data.buffers[name] && data.buffers[name].Valid()
    ensures name !in s.colls && name !in open
    ensures table.IDOf(name).Some? && table.IDOf(name) == data.table.IDOf(name)
  {
    TableGrowth(data.table, table, 0, name);
  }

  /** Asking for something that is not raw has no effect on the guard. */
  lemma NothingToUnpack(data: RawData, table: IDTable, s: Store, open: set<Name>, name: Name, reach: set<Name>)
    requires Inv(data, table, s, open) && Guard(table, s, {name}) && (name in s.colls || name !in s.raw)
    ensures name !in s.raw && Guard(table, s, {}) && Unpacks(s, s, {}, reach)
  {
  }

  /** The stores are described without the recorded IDs. */
  lemma InvIgnoresRecords(data: RawData, table: IDTable, s: Store, ids: set<CollID>, open: set<Name>)
    requires Inv(data, table, s, open)
    ensures Inv(data, table, s.(retrieved := ids), open)
  {
    var t := s.(retrieved := ids);
    hide RawData.Valid, IDTable.Extends, Unclaimed, SlotsFilled;
    UnclaimedGrows(data, table, s, t, open, open);
  }

  /** Recording an ID: a recorded ID names nothing raw, a new one is about to be unpacked. */
  lemma RecordStep(data: RawData, table: IDTable, s: Store, open: set<Name>, id: CollID, name: Name, reach: set<Name>)
    requires Inv(data, table, s, open) && Guard(table, s, {}) && table.NameOf(id) == Some(name)
    ensures var t := s.(retrieved := s.retrieved + {id});
            Inv(data, table, t, open) && Guard(table, t, {name}) && Unpacks(s, t, {}, reach)
    ensures id in s.retrieved ==> s.retrieved + {id} == s.retrieved && name !in s.raw
  {
    hide Inv;
    InvIgnoresRecords(data, table, s, s.retrieved + {id}, open);
  }

  lemma UnclaimedGrows(data: RawData, table: IDTable, s: Store, t: Store, open: set<Name>, open': set<Name>)
    requires Unclaimed(data, table, s, open)
    requires forall n :: n in t.raw || n in open' ==> n in s.raw || n in open
    requires forall n {:trigger n in t.colls} :: n in t.colls ==> n in s.colls || n in data.buffers
    ensures Unclaimed(data, table, t, open')
  {
    forall n | n in data.buffers && (n in t.raw || n in open') ensures ReadsOnlyData(data, table, t, n) {
      assert ReadsOnlyData(data, table, s, n);
    }
  }

  lemma StoresOpened(data: RawData, table: IDTable, s: Store, name: Name, c: Collection)
    requires Complete(data, s) && Guard(table, s, {name}) && name in s.raw
    ensures Complete(data, s.Opened(name, c)) && Guard(table, s.Opened(name, c), {})
  {
  }

  /** Taking a collection out of the raw data and opening it. */
  lemma OpenStep(data: RawData, table: IDTable, s: Store, open: set<Name>, name: Name, c: Collection, reach: set<Name>)
    requires Inv(data, table, s, open) && Guard(table, s, {name}) && name in s.raw && name in reach
    requires name in data.buffers && SlotsFilled(data, name, c)
    ensures Inv(data, table, s.Opened(name, c), open + {name}) && Guard(table, s.Opened(name, c), {})
    ensures Unpacks(s, s.Opened(name, c), {}, reach) && |s.Opened(name, c).raw| < |s.raw|
  {
    hide RawData.Valid, IDTable.Extends, Guard, Unclaimed, Complete, Shaped, SlotsFilled, Resolved;
    var t := s.Opened(name, c);
    RawIsData(data, table, s, open, name);
    ShapedWith(data, s, t, name, c);
    UnpackOne(s, name, c, reach);
    ResolvedGrows(data.Final(), s, t, open, name);
    StoresOpened(data, table, s, name, c);
    UnclaimedGrows(data, table, s, t, open, open + {name});
  }

  lemma StoresUpdated(data: RawData, table: IDTable, s: Store, open: set<Name>, name: Name, c: Collection,
                      reach: set<Name>)
    requires Complete(data, s) && Guard(table, s, {}) && Within(open, s) && name in s.colls
    ensures var t := s.(colls := s.colls[name := c]);
            Complete(data, t) && Guard(table, t, {}) && Within(open, t) && Unpacks(s, t, {name}, reach)
  {
  }

  /** Changing a collection that is still open. */
  lemma UpdateStep(data: RawData, table: IDTable, s: Store, open: set<Name>, name: Name, c: Collection,
                   reach: set<Name>)
    requires Inv(data, table, s, open) && Guard(table, s, {}) && name in s.colls && name in open
    requires name in data.buffers && SlotsFilled(data, name, c)
    ensures var t := s.(colls := s.colls[name := c]);
            Inv(data, table, t, open) && Guard(table, t, {}) && Unpacks(s, t, {name}, reach)
  {
    hide RawData.Valid, IDTable.Extends, Unclaimed, Shaped, SlotsFilled, Resolved, Complete, Guard, Within, Unpacks;
    var t := s.(colls := s.colls[name := c]);
    ShapedWith(data, s, t, name, c);
    StoresUpdated(data, table, s, open, name, c, reach);
    ResolvedGrows(data.Final(), s, t, open, name);
    assert open + {name} == open;
    UnclaimedGrows(data, table, s, t, open, open);
  }

  /** A collection whose references are all resolved is closed. */
  lemma CloseStep(data: RawData, table: IDTable, s: Store, open: set<Name>, name: Name)
    requires Inv(data, table, s, open) && name in s.colls && name in data.buffers
    requires s.colls[name] == data.Expected(name) && Within(data.Edges(name), s)
    ensures Inv(data, table, s, open - {name})
  {
  }

  /** The collection that a pending object ID finds in the Frame is the one it
      designates, and the ID is in bounds. */
  lemma LookupStep(data: RawData, table: IDTable, s: Store, open: set<Name>, of: Name, id: ObjectID)
    requires Inv(data, table, s, open)
    requires of in data.buffers && (of in open || of in s.raw) && LookedUp(data.buffers[of], id)
    ensures data.InBounds(id)
    ensures data.Designates(id) == Answer(table, s, id)
    ensures var m := table.NameOf(id.collectionID);
            m.Some? && m.value in data.buffers ==> data.Designates(id) == m
  {
    TableGrowth(data.table, table, id.collectionID, of);
    assert data.ValidBuffers(data.buffers[of]);
    assert ReadsOnlyData(data, table, s, of);
  }

  /** The collection that a Frame finds for an object ID. */
  function Answer(table: IDTable, s: Store, id: ObjectID): Option<Name> {
    var m := table.NameOf(id.collectionID);
    if m.Some? && s.Has(m.value) then m else None
  }

  /** The collection has an object in the slot, with the ID of the slot. */
  predicate HasSlot(s: Store, n: Name, i: int) {
    n in s.colls && 0 <= i < |s.colls[n].links| && s.colls[n].links[i].id == ObjectID(i, s.colls[n].id)
  }

  /** The slot that an object ID names exists as soon as its collection is unpacked. */
  lemma SlotIsThere(data: RawData, table: IDTable, s: Store, open: set<Name>, id: ObjectID, m: Name)
    requires Inv(data, table, s, open) && data.InBounds(id) && data.Designates(id) == Some(m) && m in s.colls
    ensures HasSlot(s, m, id.index)
  {
    hide Complete, Resolved, Unclaimed, Within, RawData.Valid, IDTable.Extends, RawData.Final;
    assert SlotsFilled(data, m, s.colls[m]);
  }

  lemma NamedInReach(data: RawData, of: Name, id: ObjectID, reach: set<Name>)
    requires data.Closed(reach) && of in reach && of in data.buffers && id in data.buffers[of].References()
    ensures data.Designates(id).Some? ==> data.Designates(id).value in reach
  {
    assert data.Edges(of) <= reach;
  }

  class Frame {
    var raw: map<Name, Buffers>
    var collections: map<Name, Collection>
    var retrievedIDs: set<CollID>
    const idTable: CollectionIDTable
    /** Everything the Frame has been read from. */
    ghost const data: RawData

    constructor (data: RawData, hash: NameHash)
      requires data.Valid()
      ensures Valid() && fresh(idTable) && this.data == data
      ensures State() == Store(data.buffers, map[], {})
    {
      raw, collections, retrievedIDs := data.buffers, map[], {};
      idTable := new CollectionIDTable(data.table, hash);
      this.data := data;
    }

    function State(): Store
      reads this
    {
      Store(raw, collections, retrievedIDs)
    }

    ghost predicate Valid()
      reads this, idTable
    {
      Resting({})
    }

    /** Valid, apart from the collections that are in the middle of resolving. */
    ghost predicate Resting(open: set<Name>)
      reads this, idTable
    {
      Inv(data, idTable.Table(), State(), open) && Guard(idTable.Table(), State(), {})
    }

    /** A pointer to a collection is the name it is stored under. */
    method DoGet(name: Name, setReferences: bool, ghost open: set<Name>, ghost reach: set<Name>)
        returns (coll: Option<Name>)
      requires Inv(data, idTable.Table(), State(), open) && Guard(idTable.Table(), State(), {name})
      requires data.Closed(reach) && (name in data.buffers ==> name in reach)
      modifies this
      ensures Resting(if !setReferences && name in old(raw) then open + {name} else open)
      ensures Unpacks(old(State()), State(), {}, reach)
      ensures coll == if old(State()).Has(name) then Some(name) else None
      ensures name !in raw
      ensures name !in old(raw) ==> State() == old(State())
      decreases |raw|, 1
    {
      hide Complete, Shaped, SlotsFilled, Resolved, Unclaimed, Guard, Unpacks, Within, RawData.Valid, RawData.Partial,
           RawData.Targets, RawData.Edges;
      if name in collections {
        NothingToUnpack(data, idTable.Table(), State(), open, name, reach);
        return Some(name);
      }
      coll := None;
      if name in raw {
        RawIsData(data, idTable.Table(), State(), open, name);
        Open(name, open, reach);
        coll := Some(name);
        if setReferences {
          ghost var start := State();
          SetReferences(name, open + {name}, reach);
          UnpacksTransitive(old(State()), start, State(), {}, {name}, reach);
          Untouched(old(State()), State(), name, reach);
          UnpacksAt(start, State(), {name}, reach, name);
          assert open + {name} - {name} == open;
        }
      } else {
        NothingToUnpack(data, idTable.Table(), State(), open, name, reach);
      }
    }

    /** Take the buffers of `name` out of the raw data and put the collection into the map. */
    method Open(name: Name, ghost open: set<Name>, ghost reach: set<Name>)
      requires Inv(data, idTable.Table(), State(), open) && Guard(idTable.Table(), State(), {name})
      requires name in raw && name in reach
      modifies this
      ensures Resting(open + {name}) && Unpacks(old(State()), State(), {}, reach)
      ensures State() == old(State()).Opened(name, data.Partial(name, 0, 0)) && name in data.buffers && name !in open
      ensures |raw| < |old(raw)|
    {
      hide Complete, Shaped, SlotsFilled, Resolved, Unclaimed, Guard, Unpacks, Within, RawData.Valid, RawData.Partial,
           RawData.Targets, RawData.Edges;
      RawIsData(data, idTable.Table(), State(), open, name);
      PartialIsFilled(data, name, 0, 0);
      OpenStep(data, idTable.Table(), State(), open, name, data.Partial(name, 0, 0), reach);
      var buffers := raw[name];
      raw := raw - {name};
      var c := Unpack(buffers, idTable.Table().IDOf(name).value);
      data.PartialZero(name);
      collections := collections[name := c];
    }

    /** Resolve every object ID of collection `name`: a subset collection stores one
        list of them, any other collection two relations, the second after the first. */
    method SetReferences(name: Name, ghost open: set<Name>, ghost reach: set<Name>)
      requires Resting(open) && data.Closed(reach) && name in reach && name in open
      requires data.Valid() && name in data.buffers && name in collections
      requires collections[name] == data.Partial(name, 0, 0)
      modifies this
      ensures Resting(open - {name}) && Unpacks(old(State()), State(), {name}, reach)
      ensures name in collections && collections[name] == data.Expected(name)
      decreases |raw|, 7
    {
      hide Complete, Shaped, SlotsFilled, Resolved, Unclaimed, Guard, Unpacks, Within, RawData.Valid, RawData.Partial,
           RawData.Targets, RawData.Edges;
      data.PartialShape(name, 0, 0);
      if collections[name].buffers.SubsetBuffers? {
        ResolveSubset(name, open, reach);
        OneRelation(data, State(), name);
      } else {
        ResolveFrom(name, open, reach);
        ghost var half := State();
        UnpacksAt(old(State()), half, {name}, reach, name);
        ResolveTo(name, open, reach);
        UnpacksTransitive(old(State()), half, State(), {name}, {name}, reach);
        UnpacksAt(half, State(), {name}, reach, name);
        BothRelations(data, half, State(), name, reach);
      }
      CloseStep(data, idTable.Table(), State(), open, name);
    }

    method ResolveSubset(name: Name, ghost open: set<Name>, ghost reach: set<Name>)
      requires Resting(open) && data.Closed(reach) && name in reach && name in open
      requires name in data.buffers && data.buffers[name].SubsetBuffers?
      requires name in collections && collections[name] == data.Partial(name, 0, 0)
      modifies this
      ensures Resting(open) && Unpacks(old(State()), State(), {name}, reach)
      ensures name in collections && collections[name] == data.Expected(name)
      ensures Within(data.Targets(data.buffers[name].ids), State())
      decreases |raw|, 6
    {
      hide Complete, Shaped, SlotsFilled, Resolved, Unclaimed, Guard, Unpacks, Within, RawData.Valid, RawData.Partial,
           RawData.Targets, RawData.Edges;
      ghost var b := data.buffers[name];
      var i := 0;
      data.PartialShape(name, 0, 0);
      UnpacksReflexive(State(), {name}, reach);
      WithinNone(data, b.ids, State());
      while i < |collections[name].buffers.ids|
        invariant name in collections && collections[name].buffers == b
        invariant 0 <= i <= |b.ids| && name in collections && collections[name] == data.Partial(name, i, 0)
        invariant Resting(open) && Unpacks(old(State()), State(), {name}, reach) && |raw| <= |old(raw)|
        invariant Within(data.Targets(b.ids[..i]), State())
      {
        ghost var before := State();
        ResolveSubsetAt(name, i, open, reach);
        data.PartialShape(name, i + 1, 0);
        UnpacksAt(before, State(), {name}, reach, name);
        WithinNext(data, b.ids, i, before, State(), {name}, reach);
        UnpacksTransitive(old(State()), before, State(), {name}, {name}, reach);
        i := i + 1;
      }
      assert b.ids[..i] == b.ids;
      data.PartialShape(name, i, i);
    }

    method ResolveSubsetAt(name: Name, i: nat, ghost open: set<Name>, ghost reach: set<Name>)
      requires Resting(open) && data.Closed(reach) && name in reach && name in open
      requires name in data.buffers && data.buffers[name].SubsetBuffers? && i < |data.buffers[name].ids|
      requires name in collections && collections[name] == data.Partial(name, i, 0)
      modifies this
      ensures Resting(open) && Unpacks(old(State()), State(), {name}, reach)
      ensures name in collections && collections[name] == data.Partial(name, i + 1, 0)
      ensures Within(data.Targets([data.buffers[name].ids[i]]), State())
      decreases |raw|, 5
    {
      hide Complete, Shaped, SlotsFilled, Resolved, Unclaimed, Guard, Unpacks, Within, RawData.Valid, RawData.Partial,
           RawData.Targets, RawData.Edges;
      ghost var b := data.buffers[name];
      data.PartialShape(name, i, 0);
      var id := collections[name].buffers.ids[i];
      assert id in b.References();
      var h := Lookup(id, name, open, reach);
      UnpacksAt(old(State()), State(), {}, reach, name);
      data.PartialStep(name, i, 0, h);
      PartialIsFilled(data, name, i + 1, 0);
      ghost var before := State();
      SetCollection(name, collections[name].(borrowed := collections[name].borrowed + [h]), open, reach);
      WithinStays(data.Targets([id]), before, State(), {name}, reach);
      UnpacksTransitive(old(State()), before, State(), {}, {name}, reach);
    }

    method ResolveFrom(name: Name, ghost open: set<Name>, ghost reach: set<Name>)
      requires Resting(open) && data.Closed(reach) && name in reach && name in open
      requires name in data.buffers && data.buffers[name].LinkBuffers?
      requires name in collections && collections[name] == data.Partial(name, 0, 0)
      modifies this
      ensures Resting(open) && Unpacks(old(State()), State(), {name}, reach)
      ensures name in collections && collections[name] == data.Partial(name, |data.buffers[name].weights|, 0)
      ensures Within(data.Targets(data.buffers[name].fromIDs), State())
      decreases |raw|, 6
    {
      hide Complete, Shaped, SlotsFilled, Resolved, Unclaimed, Guard, Unpacks, Within, RawData.Valid, RawData.Partial,
           RawData.Targets, RawData.Edges;
      ghost var b := data.buffers[name];
      var i := 0;
      data.PartialShape(name, 0, 0);
      UnpacksReflexive(State(), {name}, reach);
      WithinNone(data, b.fromIDs, State());
      while i < |collections[name].links|
        invariant name in collections && |collections[name].links| == |b.weights|
        invariant 0 <= i <= |b.fromIDs| && name in collections && collections[name] == data.Partial(name, i, 0)
        invariant Resting(open) && Unpacks(old(State()), State(), {name}, reach) && |raw| <= |old(raw)|
        invariant Within(data.Targets(b.fromIDs[..i]), State())
      {
        ghost var before := State();
        ResolveFromAt(name, i, open, reach);
        data.PartialShape(name, i + 1, 0);
        UnpacksAt(before, State(), {name}, reach, name);
        WithinNext(data, b.fromIDs, i, before, State(), {name}, reach);
        UnpacksTransitive(old(State()), before, State(), {name}, {name}, reach);
        i := i + 1;
      }
      assert b.fromIDs[..i] == b.fromIDs;
    }

    method ResolveFromAt(name: Name, i: nat, ghost open: set<Name>, ghost reach: set<Name>)
      requires Resting(open) && data.Closed(reach) && name in reach && name in open
      requires name in data.buffers && data.buffers[name].LinkBuffers? && i < |data.buffers[name].weights|
      requires name in collections && collections[name] == data.Partial(name, i, 0)
      modifies this
      ensures Resting(open) && Unpacks(old(State()), State(), {name}, reach)
      ensures name in collections && collections[name] == data.Partial(name, i + 1, 0)
      ensures Within(data.Targets([data.buffers[name].fromIDs[i]]), State())
      decreases |raw|, 5
    {
      hide Complete, Shaped, SlotsFilled, Resolved, Unclaimed, Guard, Unpacks, Within, RawData.Valid, RawData.Partial,
           RawData.Targets, RawData.Edges;
      ghost var b := data.buffers[name];
      data.PartialShape(name, i, 0);
      var id := collections[name].buffers.fromIDs[i];
      assert id in b.References();
      var h := LookupLink(id, name, open, reach);
      UnpacksAt(old(State()), State(), {}, reach, name);
      data.PartialStep(name, i, 0, h);
      PartialIsFilled(data, name, i + 1, 0);
      ghost var before := State();
      var ls := collections[name].links;
      SetCollection(name, collections[name].(links := ls[i := ls[i].(from := h)]), open, reach);
      WithinStays(data.Targets([id]), before, State(), {name}, reach);
      UnpacksTransitive(old(State()), before, State(), {}, {name}, reach);
    }

    method ResolveTo(name: Name, ghost open: set<Name>, ghost reach: set<Name>)
      requires Resting(open) && data.Closed(reach) && name in reach && name in open
      requires name in data.buffers && data.buffers[name].LinkBuffers?
      requires name in collections && collections[name] == data.Partial(name, |data.buffers[name].weights|, 0)
      modifies this
      ensures Resting(open) && Unpacks(old(State()), State(), {name}, reach)
      ensures name in collections && collections[name] == data.Expected(name)
      ensures Within(data.Targets(data.buffers[name].toIDs), State())
      decreases |raw|, 6
    {
      hide Complete, Shaped, SlotsFilled, Resolved, Unclaimed, Guard, Unpacks, Within, RawData.Valid, RawData.Partial,
           RawData.Targets, RawData.Edges;
      ghost var b := data.buffers[name];
      var i := 0;
      data.PartialShape(name, |b.weights|, 0);
      UnpacksReflexive(State(), {name}, reach);
      WithinNone(data, b.toIDs, State());
      while i < |collections[name].links|
        invariant name in collections && |collections[name].links| == |b.weights|
        invariant 0 <= i <= |b.toIDs| && name in collections && collections[name] == data.Partial(name, |b.weights|, i)
        invariant Resting(open) && Unpacks(old(State()), State(), {name}, reach) && |raw| <= |old(raw)|
        invariant Within(data.Targets(b.toIDs[..i]), State())
      {
        ghost var before := State();
        ResolveToAt(name, i, open, reach);
        data.PartialShape(name, |b.weights|, i + 1);
        UnpacksAt(before, State(), {name}, reach, name);
        WithinNext(data, b.toIDs, i, before, State(), {name}, reach);
        UnpacksTransitive(old(State()), before, State(), {name}, {name}, reach);
        i := i + 1;
      }
      assert b.toIDs[..i] == b.toIDs;
    }

    method ResolveToAt(name: Name, i: nat, ghost open: set<Name>, ghost reach: set<Name>)
      requires Resting(open) && data.Closed(reach) && name in reach && name in open
      requires name in data.buffers && data.buffers[name].LinkBuffers? && i < |data.buffers[name].weights|
      requires name in collections && collections[name] == data.Partial(name, |data.buffers[name].weights|, i)
      modifies this
      ensures Resting(open) && Unpacks(old(State()), State(), {name}, reach)
      ensures name in collections && collections[name] == data.Partial(name, |data.buffers[name].weights|, i + 1)
      ensures Within(data.Targets([data.buffers[name].toIDs[i]]), State())
      decreases |raw|, 5
    {
      hide Complete, Shaped, SlotsFilled, Resolved, Unclaimed, Guard, Unpacks, Within, RawData.Valid, RawData.Partial,
           RawData.Targets, RawData.Edges;
      ghost var b := data.buffers[name];
      data.PartialShape(name, |b.weights|, i);
      var id := collections[name].buffers.toIDs[i];
      assert id in b.References();
      var h := LookupLink(id, name, open, reach);
      UnpacksAt(old(State()), State(), {}, reach, name);
      data.PartialStepTo(name, |b.weights|, i, h);
      PartialIsFilled(data, name, |b.weights|, i + 1);
      ghost var before := State();
      var ls := collections[name].links;
      SetCollection(name, collections[name].(links := ls[i := ls[i].(to := h)]), open, reach);
      WithinStays(data.Targets([id]), before, State(), {name}, reach);
      UnpacksTransitive(old(State()), before, State(), {}, {name}, reach);
    }

    /** Change the open collection `name` in place. */
    method SetCollection(name: Name, c: Collection, ghost open: set<Name>, ghost reach: set<Name>)
      requires Resting(open) && name in collections && name in open
      requires name in data.buffers && SlotsFilled(data, name, c)
      modifies this`collections
      ensures Resting(open) && Unpacks(old(State()), State(), {name}, reach)
      ensures collections == old(collections)[name := c]
    {
      hide Complete, Shaped, SlotsFilled, Resolved, Unclaimed, Guard, Unpacks, Within, RawData.Valid, RawData.Partial,
           RawData.Targets, RawData.Edges;
      UpdateStep(data, idTable.Table(), State(), open, name, c, reach);
      collections := collections[name := c];
    }

    /** The provider interface used while references are resolved. */
    method GetByID(collectionID: CollID, ghost open: set<Name>, ghost reach: set<Name>) returns (coll: Option<Name>)
      requires Resting(open) && data.Closed(reach)
      requires var m := idTable.Table().NameOf(collectionID); m.Some? && m.value in data.buffers ==> m.value in reach
      modifies this
      ensures Resting(open) && Unpacks(old(State()), State(), {}, reach)
      ensures var m := idTable.Table().NameOf(collectionID);
              coll == if m.Some? && old(State()).Has(m.value) then m else None
      ensures coll.Some? ==> coll.value in collections
      ensures collectionID in old(retrievedIDs) ==> State() == old(State())
      decreases |raw|, 2
    {
      hide Complete, Shaped, SlotsFilled, Resolved, Unclaimed, Guard, Unpacks, Within, RawData.Valid, RawData.Partial,
           RawData.Targets, RawData.Edges;
      var name := idTable.Table().NameOf(collectionID);
      if name.None? {
        UnpacksReflexive(State(), {}, reach);
        return None;
      }
      RecordStep(data, idTable.Table(), State(), open, collectionID, name.value, reach);
      var inserted := collectionID !in retrievedIDs;
      retrievedIDs := retrievedIDs + {collectionID};
      ghost var asked := State();
      UnpacksAt(old(State()), asked, {}, reach, name.value);
      if inserted {
        coll := DoGet(name.value, true, open, reach);
      } else {
        coll := DoGet(name.value, false, open, reach);
      }
      UnpacksTransitive(old(State()), asked, State(), {}, {}, reach);
      UnpacksAt(asked, State(), {}, reach, name.value);
    }

    /** Ask the provider for the collection an object ID names, and take the element
        out of it, which has to be there even if that collection is still resolving: an
        ID that names nothing available becomes an unset handle. */
    method Lookup(id: ObjectID, ghost of: Name, ghost open: set<Name>, ghost reach: set<Name>) returns (h: Handle)
      requires Resting(open) && data.Closed(reach) && of in open && of in reach
      requires of in data.buffers && id in data.buffers[of].References()
      requires id.index != INVALID || data.buffers[of].SubsetBuffers?
      modifies this
      ensures Resting(open) && Unpacks(old(State()), State(), {}, reach)
      ensures data.InBounds(id) && h == data.Resolve(id)
      ensures h.Element? ==> HasSlot(State(), h.coll, h.index)
      ensures Within(data.Targets([id]), State())
      decreases |raw|, 3
    {
      hide Complete, Shaped, SlotsFilled, Resolved, Unclaimed, Guard, Unpacks, Within, RawData.Valid, RawData.Partial,
           RawData.Targets, RawData.Edges;
      LookupStep(data, idTable.Table(), State(), open, of, id);
      NamedInReach(data, of, id, reach);
      var coll := GetByID(id.collectionID, open, reach);
      WithinOne(data, id, State());
      if coll.None? {
        return Unset;
      }
      SlotIsThere(data, idTable.Table(), State(), open, id, coll.value);
      var obj := collections[coll.value].links[id.index];
      return Element(coll.value, obj.id.index);
    }

    /** As Lookup, for a relation that may be unset. */
    method LookupLink(id: ObjectID, ghost of: Name, ghost open: set<Name>, ghost reach: set<Name>) returns (h: Handle)
      requires Resting(open) && data.Closed(reach) && of in open && of in reach
      requires of in data.buffers && id in data.buffers[of].References()
      modifies this
      ensures Resting(open) && Unpacks(old(State()), State(), {}, reach)
      ensures (data.InBounds(id) || id.index == INVALID) && h == data.Resolve(id)
      ensures h.Element? ==> HasSlot(State(), h.coll, h.index)
      ensures Within(data.Targets([id]), State())
      decreases |raw|, 4
    {
      hide Complete, Shaped, SlotsFilled, Resolved, Unclaimed, Guard, Unpacks, Within, RawData.Valid, RawData.Partial,
           RawData.Targets, RawData.Edges;
      h := Unset;
      if id.index != INVALID {
        h := Lookup(id, of, open, reach);
      } else {
        UnpacksReflexive(State(), {}, reach);
        WithinOne(data, id, State());
      }
    }

    // -------------------------------------------------------------------
    // The public interface

    /** Afterwards `name` and everything it transitively refers to is unpacked and
        resolved, and nothing else has been touched. */
    method Get(name: Name) returns (coll: Option<Name>)
      requires Valid()
      modifies this
      ensures Valid()
      ensures coll == if old(State()).Has(name) then Some(name) else None
      ensures collections.Keys == old(collections.Keys) + Needed(data, name)
      ensures forall n :: n in old(collections) ==> collections[n] == old(collections)[n]
      ensures forall n :: State().Has(n) <==> old(State()).Has(n)
    {
      ghost var reach := Needed(data, name);
      coll := DoGet(name, true, {}, reach);
      UnpackedIsClosed(data, idTable.Table(), State());
      GetIsExact(data, old(State()), State(), name);
      forall n ensures State().Has(n) <==> old(State()).Has(n) {
        UnpacksAt(old(State()), State(), {}, reach, n);
      }
    }

    /** Any sequence of gets. */
    method GetAll(names: seq<Name>)
      requires Valid()
      modifies this
      ensures Valid()
      ensures collections.Keys == old(collections.Keys) + ReadBy(data, names)
      ensures forall n :: n in old(collections) ==> collections[n] == old(collections)[n]
      ensures forall n :: State().Has(n) <==> old(State()).Has(n)
    {
      hide Frame.Valid, Needed;
      var i := 0;
      while i < |names|
        invariant 0 <= i <= |names| && Valid()
        invariant collections.Keys == old(collections.Keys) + ReadBy(data, names[..i])
        invariant forall n :: n in old(collections) ==> n in collections && collections[n] == old(collections)[n]
        invariant forall n :: State().Has(n) <==> old(State()).Has(n)
      {
        var coll := Get(names[i]);
        assert names[..i + 1][..i] == names[..i];
        i := i + 1;
      }
      assert names[..i] == names;
    }

    /** Put a collection of the user's into the Frame. Nothing checks that its name is not
        pending in the raw data, and that unread data does not refer to it; the Frame stays
        valid exactly if that is so. */
    method Put(c: Collection, name: Name) returns (ok: bool)
      requires Valid()
      modifies this`collections, idTable
      ensures ok <==> name !in old(collections)
      ensures ok ==> collections == old(collections)[name := Identified(c, old(idTable.IDFor(name)))]
      ensures ok ==> idTable.Table().IDOf(name) == Some(old(idTable.IDFor(name)))
      ensures ok ==> (Valid() <==> Unnamed(idTable.Table(), old(State()), name))
      ensures ok ==>
        var p := collections[name];
        && idTable.Table().IDOf(name) == Some(p.id)
        && p.id == (match old(idTable.Table().IDOf(name)) case Some(id) => id case None => idTable.hash(name))
        && |p.links| == |c.links| && p.borrowed == c.borrowed && p.buffers == c.buffers && p.prepared == c.prepared
        && forall i :: 0 <= i < |c.links| ==>
             p.links[i] == Link(ObjectID(c.links[i].id.index, p.id), c.links[i].weight, c.links[i].from, c.links[i].to)
      ensures !ok ==> Valid() && State() == old(State()) && idTable.Table() == old(idTable.Table())
    {
      hide Inv, Guard, Unnamed;
      InvHasTable(data, idTable.Table(), State(), {});
      if name in collections {
        return false;
      }
      var id := idTable.Add(name);
      PutStepIff(data, old(idTable.Table()), idTable.Table(), State(), name, Identified(c, id));
      collections := collections[name := Identified(c, id)];
      ok := true;
    }

    /** All names that can be got, whether unpacked yet or not. */
    method AvailableCollections() returns (names: seq<Name>)
      ensures multiset(names) == multiset(raw.Keys) + multiset(collections.Keys)
    {
      var pending := InSomeOrder(raw.Keys);
      var unpacked := InSomeOrder(collections.Keys);
      names := pending + unpacked;
    }
  }

  /** Hash maps are traversed in no particular order. */
  method InSomeOrder(names: set<Name>) returns (order: seq<Name>)
    ensures multiset(order) == multiset(names)
  {
    order := [];
    var left := names;
    while left != {}
      invariant left <= names && multiset(order) == multiset(names - left)
      decreases left
    {
      var n :| n in left;
      order := order + [n];
      assert names - (left - {n}) == (names - left) + {n};
      left := left - {n};
    }
    assert names - left == names;
  }

  function Identified(c: Collection, id: CollID): Collection {
    c.(id := id, links := Relabelled(c.links, id))
  }

  /** A collection as it goes into the map: unpacked and with its ID. */
  method Unpack(buffers: Buffers, id: CollID) returns (c: Collection)
    requires buffers.Valid()
    ensures c == Collection(id, buffers, if buffers.LinkBuffers? then Unresolved(buffers.weights, id) else [], [], true)
  {
    var coll := new LinkCollection.FromBuffers(buffers);
    coll.PrepareAfterRead();
    coll.SetID(id);
    if buffers.LinkBuffers? {
      assert Relabelled(Unresolved(buffers.weights, 0), id) == Unresolved(buffers.weights, id);
    }
    c := coll.Contents();
  }

  // ---------------------------------------------------------------------
  // What any sequence of gets leaves behind

  /** What a get of `name` needs: the name and all it transitively refers to. */
  ghost function Needed(data: RawData, name: Name): (c: set<Name>)
    ensures data.Closed(c) && (name in data.buffers ==> name in c)
  {
    if name in data.buffers then data.Closure({name}) else {}
  }

  /** What a sequence of gets reads, one get at a time. */
  ghost function ReadBy(data: RawData, names: seq<Name>): set<Name> {
    if names == [] then {} else ReadBy(data, names[..|names| - 1]) + Needed(data, names[|names| - 1])
  }

  lemma UnpackedIsClosed(data: RawData, table: IDTable, s: Store)
    requires Inv(data, table, s, {})
    ensures data.Closed(s.colls.Keys * data.buffers.Keys)
  {
  }

  lemma GetIsExact(data: RawData, s: Store, t: Store, name: Name)
    requires Unpacks(s, t, {}, Needed(data, name)) && data.Closed(t.colls.Keys * data.buffers.Keys)
    requires name in data.buffers ==> name in t.colls
    ensures t.colls.Keys == s.colls.Keys + Needed(data, name)
  {
    hide RawData.Closed, RawData.Closure;
    if name in data.buffers {
      assert {name} <= t.colls.Keys * data.buffers.Keys;
    }
    assert Needed(data, name) <= t.colls.Keys;
    UnpacksKeys(s, t, Needed(data, name));
  }

  lemma UnpacksKeys(s: Store, t: Store, reach: set<Name>)
    requires Unpacks(s, t, {}, reach) && reach <= t.colls.Keys
    ensures t.colls.Keys == s.colls.Keys + reach
  {
    forall n ensures n in t.colls.Keys <==> n in s.colls.Keys + reach {}
  }

  lemma TableStillExtends(first: IDTable, before: IDTable, after: IDTable)
    requires before.Extends(first) && after.Extends(before)
    ensures after.Extends(first)
  {
  }

  lemma StoresAfterPut(data: RawData, before: IDTable, after: IDTable, s: Store, name: Name, c: Collection)
    requires Complete(data, s) && Guard(before, s, {}) && name !in s.colls && name !in s.raw
    requires forall x ::
      after.NameOf(x) == before.NameOf(x) || (before.NameOf(x).None? && after.NameOf(x) == Some(name))
    ensures var t := s.(colls := s.colls[name := c]); Complete(data, t) && Guard(after, t, {})
  {
  }

  /** The name is not pending, and neither do unread data refer to it. */
  ghost predicate Unnamed(table: IDTable, s: Store, name: Name) {
    name !in s.raw &&
    forall n, id :: n in s.raw && LookedUp(s.raw[n], id) ==> table.NameOf(id.collectionID) != Some(name)
  }

  lemma InvHasTable(data: RawData, table: IDTable, s: Store, open: set<Name>)
    requires Inv(data, table, s, open)
    ensures table.Valid()
  {
  }

  lemma UnclaimedAfterPut(data: RawData, before: IDTable, after: IDTable, s: Store, name: Name, c: Collection)
    requires Complete(data, s) && Unclaimed(data, before, s, {}) && name !in s.raw
    requires forall x ::
      after.NameOf(x) == before.NameOf(x) || (before.NameOf(x).None? && after.NameOf(x) == Some(name))
    requires Unnamed(after, s, name)
    ensures Unclaimed(data, after, s.(colls := s.colls[name := c]), {})
  {
    var t := s.(colls := s.colls[name := c]);
    forall n | n in data.buffers && n in t.raw ensures ReadsOnlyData(data, after, t, n) {
      assert ReadsOnlyData(data, before, s, n);
      assert s.raw[n] == data.buffers[n];
    }
  }

  lemma PutStep(data: RawData, before: IDTable, after: IDTable, s: Store, name: Name, c: Collection)
    requires Inv(data, before, s, {}) && Guard(before, s, {}) && name !in s.colls
    requires after.Extends(before)
    requires forall x ::
      after.NameOf(x) == before.NameOf(x) || (before.NameOf(x).None? && after.NameOf(x) == Some(name))
    requires Unnamed(after, s, name)
    ensures var t := s.(colls := s.colls[name := c]); Inv(data, after, t, {}) && Guard(after, t, {})
  {
    hide RawData.Valid, IDTable.Extends, Guard, Unclaimed;
    TableStillExtends(data.table, before, after);
    StoresAfterPut(data, before, after, s, name, c);
    UnclaimedAfterPut(data, before, after, s, name, c);
    assert name !in data.buffers;
  }

  /** Putting a collection keeps the invariant exactly if its name is neither pending nor
      referred to by unread data. */
  lemma PutStepIff(data: RawData, before: IDTable, after: IDTable, s: Store, name: Name, c: Collection)
    requires Inv(data, before, s, {}) && Guard(before, s, {}) && name !in s.colls
    requires after.Extends(before)
    requires forall x ::
      after.NameOf(x) == before.NameOf(x) || (before.NameOf(x).None? && after.NameOf(x) == Some(name))
    ensures var t := s.(colls := s.colls[name := c]);
      Inv(data, after, t, {}) && Guard(after, t, {}) <==> Unnamed(after, s, name)
  {
    var t := s.(colls := s.colls[name := c]);
    if Unnamed(after, s, name) {
      PutStep(data, before, after, s, name, c);
    } else if name !in s.raw {
      hide RawData.Valid, IDTable.Extends, IDTable.NameOf, Shaped, Resolved, Guard, Within, LookedUp;
      var n, id :| n in s.raw && LookedUp(s.raw[n], id) && after.NameOf(id.collectionID) == Some(name);
      assert n in data.buffers && s.raw[n] == data.buffers[n] && name !in data.buffers;
      assert !ReadsOnlyData(data, after, t, n);
    }
  }

  /** Otherwise some reference of unread data gets another collection than its file says. */
  lemma PutAnswersIff(data: RawData, before: IDTable, after: IDTable, s: Store, name: Name, c: Collection)
    requires Inv(data, before, s, {}) && name !in s.colls && name !in s.raw
    requires forall x ::
      after.NameOf(x) == before.NameOf(x) || (before.NameOf(x).None? && after.NameOf(x) == Some(name))
    ensures var t := s.(colls := s.colls[name := c]);
      (forall n, id :: n in s.raw && LookedUp(s.raw[n], id) ==> Answer(after, t, id) == data.Designates(id))
        <==> Unnamed(after, s, name)
  {
    var t := s.(colls := s.colls[name := c]);
    forall n, id | n in s.raw && LookedUp(s.raw[n], id)
      ensures Answer(after, t, id) == data.Designates(id) <==> after.NameOf(id.collectionID) != Some(name)
    {
      LookupStep(data, before, s, {}, n, id);
      hide IDTable.NameOf, LookedUp, RawData.Valid, IDTable.Extends, Shaped, Resolved, Unclaimed, Within;
      assert name !in data.buffers;
    }
  }

  // ---------------------------------------------------------------------
  // Consequences for whole runs

  /** A sequence of gets reads exactly the closure of the names that are available,
      so neither the order nor the multiplicity of the gets matters. */
  lemma {:induction false} ReadByIsClosure(data: RawData, names: seq<Name>)
    ensures ReadBy(data, names) == data.Closure(Wanted(data, names))
  {
    hide RawData.Closed, Wanted;
    NothingWanted(data);
    if names != [] {
      var k := |names| - 1;
      ReadByIsClosure(data, names[..k]);
      WantedSnoc(data, names);
      if names[k] in data.buffers {
        ClosureOfUnion(data, Wanted(data, names[..k]), {names[k]});
      } else {
        assert Needed(data, names[k]) == {};
      }
    }
  }

  /** The names in a sequence of gets that are available. */
  function Wanted(data: RawData, names: seq<Name>): (r: set<Name>)
    ensures r <= data.buffers.Keys
  {
    set n | n in names && n in data.buffers
  }

  lemma NothingWanted(data: RawData)
    ensures Wanted(data, []) == {} && data.Closure({}) == {}
  {
  }

  lemma WantedSnoc(data: RawData, names: seq<Name>)
    requires names != []
    ensures var k := |names| - 1;
      Wanted(data, names) == Wanted(data, names[..k]) + if names[k] in data.buffers then {names[k]} else {}
  {
    assert names == names[..|names| - 1] + [names[|names| - 1]];
  }

  lemma ClosureOfUnion(data: RawData, a: set<Name>, b: set<Name>)
    requires a <= data.buffers.Keys && b <= data.buffers.Keys
    ensures data.Closure(a + b) == data.Closure(a) + data.Closure(b)
  {
    hide RawData.Closed, RawData.Closure;
    var x, y, z := data.Closure(a), data.Closure(b), data.Closure(a + b);
    ClosedUnion(data, x, y);
    assert z <= x + y;
    assert a <= z && b <= z;
    assert x + y <= z;
  }

  lemma ClosedUnion(data: RawData, x: set<Name>, y: set<Name>)
    requires data.Closed(x) && data.Closed(y)
    ensures data.Closed(x + y)
  {
    hide RawData.Edges;
  }

  lemma OrderOfGetsIsIrrelevant(data: RawData, xs: seq<Name>, ys: seq<Name>)
    requires forall n :: n in data.buffers ==> (n in xs <==> n in ys)
    ensures ReadBy(data, xs) == ReadBy(data, ys)
  {
    ReadByIsClosure(data, xs);
    ReadByIsClosure(data, ys);
    assert Wanted(data, xs) == Wanted(data, ys);
  }

  /** The resolved object graph, restricted to what has been read. */
  ghost function Content(data: RawData, read: set<Name>): map<Name, Collection>
    requires data.Valid() && read <= data.buffers.Keys
  {
    map n | n in read :: data.Expected(n)
  }

  /** A valid Frame without puts is determined by what has been read from it. */
  lemma ContentsAreDetermined(frame: Frame, read: set<Name>)
    requires frame.Valid() && frame.collections.Keys == read <= frame.data.buffers.Keys
    ensures frame.collections == Content(frame.data, read)
  {
  }

  /** Every handle of a resolved collection leads to an element that is there, that
      carries the object ID of its slot, and that is the one the file named. */
  lemma HandlesAreElements(frame: Frame, n: Name, id: ObjectID)
    requires frame.Valid() && n in frame.collections && n in frame.data.buffers
    requires id in frame.data.buffers[n].References()
    ensures frame.data.InBounds(id) || id.index == INVALID
    ensures match frame.data.Resolve(id)
            case Element(m, j) =>
              && m in frame.collections && j < |frame.collections[m].links|
              && frame.collections[m].links[j].id == ObjectID(id.index, frame.collections[m].id)
              && frame.data.table.NameOf(id.collectionID) == Some(m)
            case Unset => frame.data.Designates(id).None?
            case Foreign(_) => false
  {
    assert frame.data.ValidBuffers(frame.data.buffers[n]);
    assert Within(frame.data.Edges(n), frame.State());
    var m := frame.data.Designates(id);
    if m.Some? {
      assert m.value in frame.data.Edges(n);
      assert frame.collections[m.value] == frame.data.Final().final[m.value];
    }
  }

  /** The element that an object ID of the file names, if its collection was written. */
  predicate Named(data: RawData, id: ObjectID, h: Handle) {
    match h
    case Element(m, j) => id.index == j && data.table.NameOf(id.collectionID) == Some(m) && m in data.buffers
    case Unset =>
      id.index == INVALID ||
      (match data.table.NameOf(id.collectionID) case None => true case Some(m) => m !in data.buffers)
    case Foreign(_) => false
  }

  /** What a Frame makes of the buffers of links and of subset collections. */
  lemma ContentIsRead(frame: Frame, n: Name)
    requires frame.Valid() && n in frame.collections && n in frame.data.buffers
    ensures match frame.data.buffers[n]
            case LinkBuffers(weights, fromIDs, toIDs) =>
              var c := frame.collections[n];
              && |c.links| == |weights| == |fromIDs| == |toIDs| && c.borrowed == []
              && forall i :: 0 <= i < |c.links| ==>
                   && c.links[i].id == ObjectID(i, c.id) && c.links[i].weight == weights[i]
                   && Named(frame.data, fromIDs[i], c.links[i].from) && Named(frame.data, toIDs[i], c.links[i].to)
            case SubsetBuffers(ids) =>
              var c := frame.collections[n];
              && |c.borrowed| == |ids| && c.links == []
              && forall i :: 0 <= i < |ids| ==> Named(frame.data, ids[i], c.borrowed[i])
  {
    assert frame.collections[n] == frame.data.Expected(n) by {
      assert frame.collections[n] == frame.data.Final().final[n];
    }
    assert frame.data.ValidBuffers(frame.data.buffers[n]);
    hide Frame.Valid, RawData.Valid, RawData.InBounds;
    if frame.data.buffers[n].LinkBuffers? { LinksAreRead(frame.data, n); } else { ElementsAreRead(frame.data, n); }
  }

  lemma LinksAreRead(data: RawData, n: Name)
    requires data.Valid() && n in data.buffers && data.buffers[n].LinkBuffers?
    ensures var b, c := data.buffers[n], data.Expected(n);
      && |c.links| == |b.weights| == |b.fromIDs| == |b.toIDs| && c.borrowed == []
      && forall i :: 0 <= i < |c.links| ==>
           && c.links[i].id == ObjectID(i, c.id) && c.links[i].weight == b.weights[i]
           && Named(data, b.fromIDs[i], c.links[i].from) && Named(data, b.toIDs[i], c.links[i].to)
  {
    var b := data.buffers[n];
    assert data.ValidBuffers(b);
    forall i | 0 <= i < |b.weights|
      ensures Named(data, b.fromIDs[i], data.Expected(n).links[i].from)
      ensures Named(data, b.toIDs[i], data.Expected(n).links[i].to)
    {
      assert b.fromIDs[i] in b.References() && b.toIDs[i] in b.References();
    }
  }

  lemma ElementsAreRead(data: RawData, n: Name)
    requires data.Valid() && n in data.buffers && data.buffers[n].SubsetBuffers?
    ensures var b, c := data.buffers[n], data.Expected(n);
      && |c.borrowed| == |b.ids| && c.links == []
      && forall i :: 0 <= i < |b.ids| ==> Named(data, b.ids[i], c.borrowed[i])
  {
    var b := data.buffers[n];
    forall i | 0 <= i < |b.ids| ensures Named(data, b.ids[i], data.Expected(n).borrowed[i]) {
      assert b.ids[i] in b.References();
    }
  }

  method ReadSome(data: RawData, hash: NameHash, names: seq<Name>) returns (f: Frame)
    requires data.Valid()
    ensures f.Valid() && fresh(f) && f.data == data
    ensures f.collections == Content(data, data.Closure(Wanted(data, names)))
  {
    hide RawData.Valid, Wanted;
    f := new Frame(data, hash);
    f.GetAll(names);
    ReadByIsClosure(data, names);
    ContentsAreDetermined(f, ReadBy(data, names));
  }

  /** Read everything there is. */
  method ReadAll(data: RawData, hash: NameHash) returns (f: Frame)
    requires data.Valid()
    ensures f.Valid() && fresh(f)
    ensures f.collections == Content(data, data.buffers.Keys)
  {
    hide Frame.Valid, RawData.Valid;
    var names := InSomeOrder(data.buffers.Keys);
    AllWanted(data, names);
    f := ReadSome(data, hash, names);
  }

  lemma AllWanted(data: RawData, names: seq<Name>)
    requires multiset(names) == multiset(data.buffers.Keys)
    ensures Wanted(data, names) == data.buffers.Keys == data.Closure(Wanted(data, names))
  {
    forall n ensures n in names <==> n in data.buffers {
      assert n in names <==> n in multiset(names);
    }
  }

  /** Two Frames over the same data end up with the same object graph, whatever the
      order in which the same names are asked for. */
  method ReadTwice(data: RawData, hash: NameHash, xs: seq<Name>, ys: seq<Name>) returns (f: Frame, g: Frame)
    requires data.Valid() && forall n :: n in data.buffers ==> (n in xs <==> n in ys)
    ensures f.Valid() && g.Valid() && fresh(f) && fresh(g)
    ensures f.collections == g.collections
    ensures f.collections == Content(data, data.Closure(Wanted(data, xs)))
  {
    hide Frame.Valid, RawData.Valid;
    f := ReadSome(data, hash, xs);
    g := ReadSome(data, hash, ys);
    assert Wanted(data, xs) == Wanted(data, ys);
  }
}
