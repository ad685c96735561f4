/** What a file hands to a Frame: object IDs, the buffers of each collection, the
    collection ID table, and the reference graph they span. All of it is plain data. */
module CollectionData {
  import opened Options

  type Name = string
  type CollID = nat

  /** An element of a collection, by position. */
  datatype ObjectID = ObjectID(index: int, collectionID: CollID)

  const UNTRACKED: int := -1
  const INVALID: int := -2
  const UNTRACKED_ID := ObjectID(UNTRACKED, 0xffff_ffff)

  /** The I/O buffers of a link collection: a subset collection only stores object
      IDs, any other collection has a weight and two relations per link. */
  datatype Buffers =
    | LinkBuffers(weights: seq<real>, fromIDs: seq<ObjectID>, toIDs: seq<ObjectID>)
    | SubsetBuffers(ids: seq<ObjectID>)
  {
    predicate Valid() {
      LinkBuffers? ==> |fromIDs| == |weights| == |toIDs|
    }

    /** All object IDs stored in the buffers. */
    function References(): seq<ObjectID> {
      if LinkBuffers? then fromIDs + toIDs else ids
    }
  }

  /** Index of the first occurrence, or the length: std::ranges::find. */
  function Find<T(==)>(s: seq<T>, x: T): (i: nat)
    ensures i <= |s|
    ensures i < |s| ==> s[i] == x
    ensures x !in s[..i]
  {
    if s == [] || s[0] == x then 0
    else
      var i := 1 + Find(s[1..], x);
      assert s[..i] == [s[0]] + s[1..][..i - 1];
      i
  }

  /** Appending leaves the first occurrence where it is. */
  lemma {:induction false} FindInExtension<T>(s: seq<T>, t: seq<T>, x: T)
    ensures Find(s, x) < |s| ==> Find(s + t, x) == Find(s, x)
    ensures Find(s, x) == |s| ==> Find(s + t, x) >= |s|
  {
    if s != [] && s[0] != x {
      assert (s + t)[1..] == s[1..] + t;
      FindInExtension(s[1..], t, x);
    }
  }

  /** The parallel vectors of a CollectionIDTable. */
  datatype IDTable = IDTable(ids: seq<CollID>, names: seq<Name>) {
    predicate Valid() { |ids| == |names| }

    function NameOf(id: CollID): Option<Name> {
      var i := Find(ids, id);
      if i < |names| then Some(names[i]) else None
    }

    function IDOf(name: Name): Option<CollID> {
      var i := Find(names, name);
      if i < |ids| then Some(ids[i]) else None
    }

    /** The table has only grown, by names it did not know. */
    ghost predicate Extends(before: IDTable) {
      && before.Valid() && Valid() && before.ids <= ids && before.names <= names
      && forall i :: |before.names| <= i < |names| ==> names[i] !in before.names
    }
  }

  /** Names and IDs belong together by position, and the first entry counts. */
  lemma FirstEntryCounts(t: IDTable, id: CollID, name: Name)
    requires t.Valid()
    ensures t.NameOf(id).Some? <==> id in t.ids
    ensures t.NameOf(id).Some? ==>
      exists i :: 0 <= i < |t.ids| && IsFirst(t.ids, id, i) && t.NameOf(id).value == t.names[i]
    ensures t.IDOf(name).Some? <==> name in t.names
    ensures t.IDOf(name).Some? ==>
      exists i :: 0 <= i < |t.ids| && IsFirst(t.names, name, i) && t.IDOf(name).value == t.ids[i]
  {
    var i, j := Find(t.ids, id), Find(t.names, name);
    assert i < |t.ids| ==> IsFirst(t.ids, id, i);
    assert j < |t.names| ==> IsFirst(t.names, name, j);
    assert i == |t.ids| ==> t.ids[..i] == t.ids;
    assert j == |t.names| ==> t.names[..j] == t.names;
  }

  predicate IsFirst<T(==)>(s: seq<T>, x: T, i: nat) { i < |s| && s[i] == x && x !in s[..i] }

  /** Names and IDs that are known never change as the table grows. */
  lemma TableGrowth(before: IDTable, after: IDTable, id: CollID, name: Name)
    requires after.Extends(before)
    ensures before.NameOf(id).Some? ==> after.NameOf(id) == before.NameOf(id)
    ensures before.NameOf(id).None? && after.NameOf(id).Some? ==> after.NameOf(id).value !in before.names
    ensures before.IDOf(name).Some? ==> after.IDOf(name) == before.IDOf(name)
  {
    var k := |before.ids|;
    assert after.ids == before.ids + after.ids[k..];
    assert after.names == before.names + after.names[k..];
    FindInExtension(before.ids, after.ids[k..], id);
    FindInExtension(before.names, after.names[k..], name);
  }

  /** A reference to an element. A collection lives in its Frame under exactly one
      name, so the name and the slot identify the object. `Foreign` elements live
      elsewhere: in a collection that is not part of the Frame, or in none. */
  datatype Handle = Unset | Element(coll: Name, index: nat) | Foreign(id: ObjectID)

  datatype Link = Link(id: ObjectID, weight: real, from: Handle, to: Handle)

  /** A collection with its I/O buffers. One that owns its elements has `links`, a
      subset collection borrows its elements. `prepared` says that the buffers hold
      the content. */
  datatype Collection =
    Collection(id: CollID, buffers: Buffers, links: seq<Link>, borrowed: seq<Handle>, prepared: bool)
  {
    predicate IsSubset() { buffers.SubsetBuffers? }
  }

  /** The links that prepareAfterRead and setID make of the data buffer. */
  function Unresolved(weights: seq<real>, id: CollID): (ls: seq<Link>)
    ensures |ls| == |weights|
  {
    seq(|weights|, i requires 0 <= i < |weights| => Link(ObjectID(i, id), weights[i], Unset, Unset))
  }

  /** The content of the raw data a Frame is built from. */
  datatype RawData = RawData(table: IDTable, buffers: map<Name, Buffers>) {

    /** The available collection that an object ID names, if there is one. */
    function Designates(id: ObjectID): Option<Name> {
      if id.index == INVALID then None else
        match table.NameOf(id.collectionID)
        case None => None
        case Some(m) => if m in buffers then Some(m) else None
    }

    /** An object ID that names an available collection names one of its elements,
        and that collection owns its elements. */
    predicate InBounds(id: ObjectID) {
      match table.NameOf(id.collectionID)
      case None => true
      case Some(m) =>
        m in buffers ==> buffers[m].LinkBuffers? && 0 <= id.index < |buffers[m].weights|
    }

    /** Only links have unset relations; all other object IDs are in bounds. */
    predicate ValidBuffers(b: Buffers) {
      && b.Valid()
      && forall id :: id in b.References() ==> InBounds(id) || (id.index == INVALID && b.LinkBuffers?)
    }

    predicate Valid() {
      && table.Valid()
      && forall n :: n in buffers ==> n in table.names && ValidBuffers(buffers[n])
    }

    /** What an object ID stands for: the named element if its collection is
        available, nothing otherwise. */
    function Resolve(id: ObjectID): Handle
      requires InBounds(id) || id.index == INVALID
    {
      var m := Designates(id);
      if m.Some? then Element(m.value, id.index) else Unset
    }

    /** Collection `n` while it resolves its object IDs: of the first relation `i`
        are resolved, of the second `j`, of a subset collection's elements `i`. */
    function Partial(n: Name, i: nat, j: nat): Collection
      requires Valid() && n in buffers
      requires var b := buffers[n]; if b.LinkBuffers? then i <= |b.weights| && j <= |b.weights| else i <= |b.ids|
    {
      var b := buffers[n];
      var id := table.IDOf(n).value;
      if b.LinkBuffers? then
        Collection(id, b, seq(|b.weights|, k requires 0 <= k < |b.weights| =>
          assert b.fromIDs[k] in b.References() && b.toIDs[k] in b.References();
          Link(ObjectID(k, id), b.weights[k],
               if k < i then Resolve(b.fromIDs[k]) else Unset, if k < j then Resolve(b.toIDs[k]) else Unset)), [], true)
      else
        Collection(id, b, [], seq(i, k requires 0 <= k < i =>
          assert b.ids[k] in b.References();
          Resolve(b.ids[k])), true)
    }

    lemma PartialZero(n: Name)
      requires Valid() && n in buffers
      ensures Partial(n, 0, 0) == Collection(table.IDOf(n).value, buffers[n],
        if buffers[n].LinkBuffers? then Unresolved(buffers[n].weights, table.IDOf(n).value) else [], [], true)
    {
    }

    lemma PartialShape(n: Name, i: nat, j: nat)
      requires Valid() && n in buffers
      requires var b := buffers[n]; if b.LinkBuffers? then i <= |b.weights| && j <= |b.weights| else i <= |b.ids|
      ensures var c := Partial(n, i, j);
              && c.buffers == buffers[n] && buffers[n].Valid()
              && |c.links| == (if buffers[n].LinkBuffers? then |buffers[n].weights| else 0)
              && (buffers[n].SubsetBuffers? ==> c == Partial(n, i, 0))
    {
      assert ValidBuffers(buffers[n]);
    }

    lemma PartialStep(n: Name, i: nat, j: nat, h: Handle)
      requires Valid() && n in buffers
      requires var b := buffers[n]; if b.LinkBuffers? then i < |b.weights| && j <= |b.weights| else i < |b.ids|
      requires var b := buffers[n]; var id := if b.LinkBuffers? then b.fromIDs[i] else b.ids[i];
               id in b.References() && h == Resolve(id)
      ensures var c := Partial(n, i, j);
              Partial(n, i + 1, j) == if buffers[n].LinkBuffers?
                then c.(links := c.links[i := c.links[i].(from := h)])
                else c.(borrowed := c.borrowed + [h])
    {
    }

    lemma PartialStepTo(n: Name, i: nat, j: nat, h: Handle)
      requires Valid() && n in buffers && buffers[n].LinkBuffers?
      requires i <= |buffers[n].weights| && j < |buffers[n].weights|
      requires var id := buffers[n].toIDs[j]; id in buffers[n].References() && h == Resolve(id)
      ensures var c := Partial(n, i, j);
              Partial(n, i, j + 1) == c.(links := c.links[j := c.links[j].(to := h)])
    {
    }

    /** Collection `n` with every object ID resolved. */
    function Expected(n: Name): Collection
      requires Valid() && n in buffers
    {
      var size := if buffers[n].LinkBuffers? then |buffers[n].weights| else |buffers[n].ids|;
      Partial(n, size, size)
    }

    ghost function Targets(ids: seq<ObjectID>): set<Name> {
      set id | id in ids && Designates(id).Some? :: Designates(id).value
    }

    lemma TargetsSnoc(ids: seq<ObjectID>, i: nat)
      requires i < |ids|
      ensures Targets(ids[..i + 1]) == Targets(ids[..i]) + Targets([ids[i]])
    {
      assert ids[..i + 1] == ids[..i] + [ids[i]];
    }

    /** The collections referenced from collection `n`. */
    ghost function Edges(n: Name): set<Name>
      requires n in buffers
    {
      Targets(buffers[n].References())
    }

    /** They are what the object IDs in the buffers name, as far as it is available. */
    lemma EdgesAre(n: Name, m: Name)
      requires n in buffers
      ensures m in Edges(n) <==>
        m in buffers && exists id: ObjectID ::
          Stores(buffers[n], id) && id.index != -2 && table.NameOf(id.collectionID) == Some(m)
    {
      forall id ensures id in buffers[n].References() <==> Stores(buffers[n], id) {}
    }

    predicate Stores(b: Buffers, id: ObjectID) {
      match b
      case LinkBuffers(_, fromIDs, toIDs) => id in fromIDs || id in toIDs
      case SubsetBuffers(ids) => id in ids
    }

    ghost predicate Closed(s: set<Name>) {
      forall n :: n in s && n in buffers ==> Edges(n) <= s
    }

    ghost function Successors(s: set<Name>): set<Name>
      requires s <= buffers.Keys
    {
      set n, m | n in s && m in Edges(n) :: m
    }

    /** The least closed set containing `s`: everything transitively referenced. */
    ghost function Closure(s: set<Name>): (c: set<Name>)
      requires s <= buffers.Keys
      ensures s <= c <= buffers.Keys
      ensures Closed(c)
      ensures forall k :: Closed(k) && s <= k ==> c <= k
      decreases buffers.Keys - s
    {
      var t := s + Successors(s);
      if t == s then
        assert forall n, m :: n in s && m in Edges(n) ==> m in Successors(s);
        s
      else
        Closure(t)
    }

    /** Every collection fully resolved, and what it refers to. */
    ghost function Final(): Graph
      requires Valid()
    {
      Graph(map n | n in buffers :: Expected(n), map n | n in buffers :: Edges(n))
    }
  }

  datatype Graph = Graph(final: map<Name, Collection>, edges: map<Name, set<Name>>)
}
