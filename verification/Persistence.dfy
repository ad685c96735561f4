/** Writing the collections of a Frame and reading them back. */
module Persistence {
  import opened Options
  import opened CollectionData
  import opened LinkCollections
  import opened Frames

  /** The collection IDs that the objects in a Frame carry. */
  function IDs(colls: map<Name, Collection>): map<Name, CollID> {
    map n | n in colls :: colls[n].id
  }

  /** A handle that can be held by an element of one of the collections: it leads to
      an element of a collection that owns it, or it leads out of the Frame, and then
      its ID does not name a collection of the Frame. */
  predicate ProperHandle(table: IDTable, colls: map<Name, Collection>, h: Handle) {
    match h
    case Unset => true
    case Element(m, j) => m in colls && !colls[m].IsSubset() && j < |colls[m].links|
    case Foreign(id) =>
      id.index != INVALID && match table.NameOf(id.collectionID) { case None => true case Some(m) => m !in colls }
  }

  /** A collection as the user fills it: slot i of an owner holds ID (i, collection),
      a subset collection holds elements. */
  predicate ProperCollection(table: IDTable, colls: map<Name, Collection>, c: Collection) {
    if c.IsSubset() then
      c.links == [] && forall i :: 0 <= i < |c.borrowed| ==>
        !c.borrowed[i].Unset? && ProperHandle(table, colls, c.borrowed[i])
    else
      c.borrowed == [] && forall i :: 0 <= i < |c.links| ==>
        && c.links[i].id == ObjectID(i, c.id)
        && ProperHandle(table, colls, c.links[i].from) && ProperHandle(table, colls, c.links[i].to)
  }

  /** Collections that have been put into a Frame, each with its own ID. */
  ghost predicate Proper(table: IDTable, colls: map<Name, Collection>) {
    && table.Valid()
    && forall n :: n in colls ==>
         && table.IDOf(n) == Some(colls[n].id) && table.NameOf(colls[n].id) == Some(n)
         && ProperCollection(table, colls, colls[n])
  }

  lemma ProperIsWritable(table: IDTable, colls: map<Name, Collection>, n: Name)
    requires Proper(table, colls) && n in colls
    ensures Writable(colls[n], IDs(colls))
  {
    assert ProperCollection(table, colls, colls[n]);
  }

  /** What ends up in the file. */
  ghost function File(table: IDTable, colls: map<Name, Collection>): RawData
    requires Proper(table, colls)
  {
    RawData(table, map n | n in colls ::
      ProperIsWritable(table, colls, n);
      Encode(colls[n], IDs(colls)))
  }

  // ---------------------------------------------------------------------
  // One handle

  /** What reading makes of a handle: only elements within the Frame come back. */
  function Visible(h: Handle): Handle { if h.Foreign? then Unset else h }

  lemma HandleRoundTrip(table: IDTable, colls: map<Name, Collection>, h: Handle)
    requires Proper(table, colls) && ProperHandle(table, colls, h)
    ensures var id := HandleID(h, IDs(colls)); var file := File(table, colls);
            (h.Unset? || file.InBounds(id)) && file.Resolve(id) == Visible(h)
  {
    match h
    case Unset =>
    case Element(m, j) => ElementInFile(table, colls, h);
    case Foreign(id) => ForeignInFile(table, colls, h);
  }

  lemma ElementInFile(table: IDTable, colls: map<Name, Collection>, h: Handle)
    requires Proper(table, colls) && ProperHandle(table, colls, h) && h.Element?
    ensures var id := HandleID(h, IDs(colls)); File(table, colls).InBounds(id) && File(table, colls).Resolve(id) == h
  {
    FileAt(table, colls, h.coll);
    assert table.NameOf(colls[h.coll].id) == Some(h.coll);
    assert File(table, colls).table == table && File(table, colls).buffers.Keys == colls.Keys;
    hide File, Proper, Encode, IDTable.NameOf, ProperCollection, RawData.InBounds, RawData.Resolve;
    ResolvesTo(File(table, colls), HandleID(h, IDs(colls)), h.coll);
  }

  lemma ResolvesTo(data: RawData, id: ObjectID, m: Name)
    requires data.table.NameOf(id.collectionID) == Some(m) && m in data.buffers && data.buffers[m].LinkBuffers?
    requires 0 <= id.index < |data.buffers[m].weights|
    ensures data.InBounds(id) && data.Resolve(id) == Element(m, id.index)
  {
  }

  lemma ForeignInFile(table: IDTable, colls: map<Name, Collection>, h: Handle)
    requires Proper(table, colls) && ProperHandle(table, colls, h) && h.Foreign?
    ensures var id := HandleID(h, IDs(colls));
      File(table, colls).InBounds(id) && File(table, colls).Resolve(id) == Unset
  {
    assert File(table, colls).table == table && File(table, colls).buffers.Keys == colls.Keys;
    hide File, Proper, Encode, IDTable.NameOf;
  }

  lemma FileAt(table: IDTable, colls: map<Name, Collection>, n: Name)
    requires Proper(table, colls) && n in colls
    ensures Writable(colls[n], IDs(colls))
    ensures var b := File(table, colls).buffers[n];
            && b == Encode(colls[n], IDs(colls)) && b.SubsetBuffers? == colls[n].IsSubset()
            && (b.LinkBuffers? ==> |b.weights| == |colls[n].links|)
    ensures ProperCollection(table, colls, colls[n])
  {
    ProperIsWritable(table, colls, n);
  }

  // ---------------------------------------------------------------------
  // Whole collections

  /** What is written is data that a Frame can be read from. */
  lemma FileIsValid(table: IDTable, colls: map<Name, Collection>)
    requires Proper(table, colls)
    ensures File(table, colls).Valid()
  {
    var file := File(table, colls);
    var ids := IDs(colls);
    forall n | n in file.buffers ensures n in table.names && file.ValidBuffers(file.buffers[n]) {
      var c := colls[n];
      assert ProperCollection(table, colls, c);
      forall id | id in file.buffers[n].References()
        ensures file.InBounds(id) || (id.index == INVALID && file.buffers[n].LinkBuffers?)
      {
        ReferenceIsHandle(table, colls, n, id);
      }
    }
  }

  /** Every object ID in the buffers is the ID of a handle in the collection. */
  lemma EncodedReference(c: Collection, ids: map<Name, CollID>, id: ObjectID) returns (h: Handle)
    requires Writable(c, ids) && id in Encode(c, ids).References()
    ensures Identifiable(h, ids) && id == HandleID(h, ids)
    ensures if c.IsSubset() then h in c.borrowed
            else exists i :: 0 <= i < |c.links| && (h == c.links[i].from || h == c.links[i].to)
  {
    var refs := Encode(c, ids).References();
    var i :| 0 <= i < |refs| && refs[i] == id;
    if c.IsSubset() {
      h := c.borrowed[i];
    } else if i < |c.links| {
      h := c.links[i].from;
    } else {
      h := c.links[i - |c.links|].to;
    }
  }

  lemma ReferenceIsHandle(table: IDTable, colls: map<Name, Collection>, n: Name, id: ObjectID)
    requires Proper(table, colls) && n in colls && id in File(table, colls).buffers[n].References()
    ensures File(table, colls).InBounds(id) || (id.index == INVALID && !colls[n].IsSubset())
  {
    FileAt(table, colls, n);
    hide File, Proper, Encode, IDTable.NameOf, RawData.InBounds, RawData.Resolve, ProperHandle;
    var h := EncodedReference(colls[n], IDs(colls), id);
    HandleRoundTrip(table, colls, h);
  }

  function VisibleLinks(ls: seq<Link>): (r: seq<Link>)
    ensures |r| == |ls|
  {
    seq(|ls|, i requires 0 <= i < |ls| => ls[i].(from := Visible(ls[i].from), to := Visible(ls[i].to)))
  }

  function VisibleElements(hs: seq<Handle>): (r: seq<Handle>)
    ensures |r| == |hs|
  {
    seq(|hs|, i requires 0 <= i < |hs| => Visible(hs[i]))
  }

  lemma LinkRoundTrip(table: IDTable, colls: map<Name, Collection>, n: Name, i: nat)
    requires Proper(table, colls) && n in colls && File(table, colls).Valid()
    requires !colls[n].IsSubset() && i < |colls[n].links|
    ensures File(table, colls).Expected(n).links[i] == VisibleLinks(colls[n].links)[i]
  {
    assert ProperCollection(table, colls, colls[n]);
    HandleRoundTrip(table, colls, colls[n].links[i].from);
    HandleRoundTrip(table, colls, colls[n].links[i].to);
    ProperIsWritable(table, colls, n);
    hide ProperHandle, Proper, RawData.Valid, RawData.Resolve, HandleID;
  }

  lemma ElementRoundTrip(table: IDTable, colls: map<Name, Collection>, n: Name, i: nat)
    requires Proper(table, colls) && n in colls && File(table, colls).Valid()
    requires colls[n].IsSubset() && i < |colls[n].borrowed|
    ensures File(table, colls).Expected(n).borrowed[i] == VisibleElements(colls[n].borrowed)[i]
  {
    assert ProperCollection(table, colls, colls[n]);
    HandleRoundTrip(table, colls, colls[n].borrowed[i]);
    ProperIsWritable(table, colls, n);
    hide ProperHandle, Proper, RawData.Valid, RawData.Resolve, HandleID;
  }

  /** The round trip: the same links in the same order, with weight, unset relations,
      and relations to collections of the Frame; what was not written is unset. */
  lemma CollectionRoundTrip(table: IDTable, colls: map<Name, Collection>, n: Name)
    requires Proper(table, colls) && n in colls && File(table, colls).Valid()
    ensures var c := File(table, colls).Expected(n);
            && c.id == colls[n].id
            && c.links == VisibleLinks(colls[n].links)
            && c.borrowed == VisibleElements(colls[n].borrowed)
  {
    ExpectedLengths(table, colls, n);
    hide Proper, File, RawData.Valid, RawData.Expected, VisibleLinks, VisibleElements;
    var c, e := colls[n], File(table, colls).Expected(n);
    forall i | 0 <= i < |c.borrowed| ensures e.borrowed[i] == VisibleElements(c.borrowed)[i] {
      ElementRoundTrip(table, colls, n, i);
    }
    forall i | 0 <= i < |c.links| ensures e.links[i] == VisibleLinks(c.links)[i] {
      LinkRoundTrip(table, colls, n, i);
    }
  }

  lemma ExpectedLengths(table: IDTable, colls: map<Name, Collection>, n: Name)
    requires Proper(table, colls) && n in colls && File(table, colls).Valid()
    ensures var c, e := colls[n], File(table, colls).Expected(n);
      && e.id == c.id && |e.links| == |c.links| && |e.borrowed| == |c.borrowed|
      && (if c.IsSubset() then c.links == [] else c.borrowed == [])
  {
    assert ProperCollection(table, colls, colls[n]);
    ProperIsWritable(table, colls, n);
    hide ProperHandle, Proper, RawData.Valid, RawData.Resolve, HandleID;
  }

  predicate StaysInFrame(c: Collection) {
    && (forall i :: 0 <= i < |c.links| ==> !c.links[i].from.Foreign? && !c.links[i].to.Foreign?)
    && (forall i :: 0 <= i < |c.borrowed| ==> !c.borrowed[i].Foreign?)
  }

  lemma SameLinks(ls: seq<Link>)
    ensures VisibleLinks(ls) == ls <==>
              forall i :: 0 <= i < |ls| ==> !ls[i].from.Foreign? && !ls[i].to.Foreign?
  {
    if VisibleLinks(ls) == ls {
      forall i | 0 <= i < |ls| ensures !ls[i].from.Foreign? && !ls[i].to.Foreign? {
        assert ls[i] == VisibleLinks(ls)[i];
      }
    }
  }

  lemma SameElements(hs: seq<Handle>)
    ensures VisibleElements(hs) == hs <==> forall i :: 0 <= i < |hs| ==> !hs[i].Foreign?
  {
    if VisibleElements(hs) == hs {
      forall i | 0 <= i < |hs| ensures !hs[i].Foreign? {
        assert hs[i] == VisibleElements(hs)[i];
      }
    }
  }

  /** The round trip is exact precisely for collections that only refer to elements
      written along with them. */
  lemma RoundTripIsExact(table: IDTable, colls: map<Name, Collection>, n: Name)
    requires Proper(table, colls) && n in colls && File(table, colls).Valid()
    ensures var c := File(table, colls).Expected(n);
            c.links == colls[n].links && c.borrowed == colls[n].borrowed <==> StaysInFrame(colls[n])
  {
    CollectionRoundTrip(table, colls, n);
    hide Proper, RawData.Valid, RawData.Expected, VisibleLinks, VisibleElements;
    SameLinks(colls[n].links);
    SameElements(colls[n].borrowed);
  }

  // ---------------------------------------------------------------------
  // Frame to file to Frame

  /** Prepare one collection for writing and take its buffers. */
  method CollectionForWrite(c: Collection, ids: map<Name, CollID>) returns (b: Buffers)
    requires Writable(c, ids) && (!c.prepared && !c.IsSubset() ==> c.buffers.weights == [])
    ensures b == WrittenBuffers(c, ids)
  {
    var coll := new LinkCollection.FromBuffers(c.buffers);
    coll.collectionID, coll.links, coll.borrowed, coll.isPrepared := c.id, c.links, c.borrowed, c.prepared;
    coll.PrepareForWrite(ids);
    b := coll.buffers;
  }

  /** A collection that has been prepared has not been changed since: its buffers hold the
      content. An owning one that has not been prepared has no data in its buffers yet. */
  ghost predicate ReadyToWrite(table: IDTable, colls: map<Name, Collection>, n: Name)
    requires Proper(table, colls) && n in colls
  {
    ProperIsWritable(table, colls, n);
    var c := colls[n];
    if c.prepared then c.buffers == Encode(c, IDs(colls)) else c.IsSubset() || c.buffers.weights == []
  }

  /** What happens to every collection of a Frame that is written. */
  method WriteCollections(colls: map<Name, Collection>, ids: map<Name, CollID>) returns (buffers: map<Name, Buffers>)
    requires forall n :: n in colls ==> Writable(colls[n], ids)
    requires forall n :: n in colls ==> colls[n].prepared || colls[n].IsSubset() || colls[n].buffers.weights == []
    ensures buffers.Keys == colls.Keys
    ensures forall n :: n in colls ==> buffers[n] == WrittenBuffers(colls[n], ids)
  {
    hide Writable, WrittenBuffers;
    var names := InSomeOrder(colls.Keys);
    InOrderMeansIn(names, colls.Keys);
    buffers := map[];
    var i := 0;
    while i < |names|
      invariant 0 <= i <= |names|
      invariant forall n :: n in buffers <==> n in names[..i]
      invariant forall n :: n in buffers ==> n in colls && buffers[n] == WrittenBuffers(colls[n], ids)
    {
      var b := CollectionForWrite(colls[names[i]], ids);
      assert names[..i + 1] == names[..i] + [names[i]];
      buffers := buffers[names[i] := b];
      i := i + 1;
    }
    assert names[..i] == names;
  }

  method WriteAll(table: IDTable, colls: map<Name, Collection>) returns (file: RawData)
    requires Proper(table, colls)
    requires forall n :: n in colls ==> ReadyToWrite(table, colls, n)
    ensures file == File(table, colls)
  {
    hide Proper, ProperCollection, Writable, Encode;
    forall n | n in colls
      ensures Writable(colls[n], IDs(colls))
      ensures colls[n].prepared || colls[n].IsSubset() || colls[n].buffers.weights == []
      ensures WrittenBuffers(colls[n], IDs(colls)) == File(table, colls).buffers[n]
    {
      ProperIsWritable(table, colls, n);
      assert ReadyToWrite(table, colls, n);
    }
    var buffers := WriteCollections(colls, IDs(colls));
    assert buffers == File(table, colls).buffers;
    file := RawData(table, buffers);
  }

  lemma InOrderMeansIn(order: seq<Name>, names: set<Name>)
    requires multiset(order) == multiset(names)
    ensures forall n :: n in order <==> n in names
  {
    forall n ensures n in order <==> n in names {
      assert n in order <==> n in multiset(order);
    }
  }

  lemma FileKeys(table: IDTable, colls: map<Name, Collection>)
    requires Proper(table, colls)
    ensures File(table, colls).buffers.Keys == colls.Keys
  {
  }

  /** Write collections that the user has put into a Frame, read the file into a new
      Frame, and get all of them. */
  method WriteAndRead(table: IDTable, colls: map<Name, Collection>, hash: NameHash) returns (f: Frame)
    requires Proper(table, colls)
    requires forall n :: n in colls ==> ReadyToWrite(table, colls, n)
    ensures f.Valid() && f.collections.Keys == colls.Keys
    ensures forall n :: n in colls ==>
              && f.collections[n].id == colls[n].id
              && f.collections[n].links == VisibleLinks(colls[n].links)
              && f.collections[n].borrowed == VisibleElements(colls[n].borrowed)
  {
    hide Frame.Valid, RawData.Valid, Proper, File, VisibleLinks, VisibleElements, ReadyToWrite;
    var file := WriteAll(table, colls);
    FileIsValid(table, colls);
    assert file.buffers.Keys == colls.Keys by { FileKeys(table, colls); }
    f := ReadAll(file, hash);
    forall n | n in colls
      ensures f.collections[n].id == colls[n].id && f.collections[n].links == VisibleLinks(colls[n].links)
              && f.collections[n].borrowed == VisibleElements(colls[n].borrowed)
    {
      CollectionRoundTrip(table, colls, n);
    }
  }

  /** Re-writing everything that has been read reproduces the buffers, even those of
      relations that could not be resolved. Encoding the content anew does so exactly if
      every object ID in them is canonical. */
  lemma RewritingReproducesBuffers(data: RawData, n: Name)
    requires data.Valid() && n in data.buffers
    ensures var c := data.Expected(n);
            && Writable(c, FileIDs(data)) && WrittenBuffers(c, FileIDs(data)) == data.buffers[n]
            && (Encode(c, FileIDs(data)) == data.buffers[n] <==>
                forall id :: id in data.buffers[n].References() ==> Canonical(data, id))
  {
    ExpectedIsWritable(data, n);
    if data.buffers[n].LinkBuffers? { ReencodeLinks(data, n); } else { ReencodeElements(data, n); }
  }

  lemma ExpectedIsWritable(data: RawData, n: Name)
    requires data.Valid() && n in data.buffers
    ensures Writable(data.Expected(n), FileIDs(data)) && data.Expected(n).prepared
    ensures data.Expected(n).buffers == data.buffers[n]
  {
    var b := data.buffers[n];
    assert data.ValidBuffers(b);
    forall id | id in b.References() ensures Identifiable(data.Resolve(id), FileIDs(data)) { ReencodeID(data, id); }
  }

  lemma ReencodeLinks(data: RawData, n: Name)
    requires data.Valid() && n in data.buffers && data.buffers[n].LinkBuffers?
    requires Writable(data.Expected(n), FileIDs(data))
    ensures Encode(data.Expected(n), FileIDs(data)) == data.buffers[n] <==>
              forall id :: id in data.buffers[n].References() ==> Canonical(data, id)
  {
    var b, c := data.buffers[n], data.Expected(n);
    var e := Encode(c, FileIDs(data));
    assert data.ValidBuffers(b);
    forall i | 0 <= i < |b.weights|
      ensures e.fromIDs[i] == b.fromIDs[i] <==> Canonical(data, b.fromIDs[i])
      ensures e.toIDs[i] == b.toIDs[i] <==> Canonical(data, b.toIDs[i])
    {
      assert b.fromIDs[i] in b.References() && b.toIDs[i] in b.References();
      ReencodeID(data, b.fromIDs[i]);
      ReencodeID(data, b.toIDs[i]);
    }
    assert e.weights == b.weights;
    hide RawData.Valid, RawData.ValidBuffers, RawData.Expected, Encode, Canonical, FileIDs;
    AllOfBoth(b.fromIDs, b.toIDs, e.fromIDs, e.toIDs, id => Canonical(data, id));
  }

  /** Two pairs of lists are equal exactly if a property that says so for each place holds
      for all elements. */
  lemma AllOfBoth(a: seq<ObjectID>, b: seq<ObjectID>, x: seq<ObjectID>, y: seq<ObjectID>, p: ObjectID -> bool)
    requires |a| == |x| && |b| == |y|
    requires forall i :: 0 <= i < |a| ==> (x[i] == a[i] <==> p(a[i]))
    requires forall i :: 0 <= i < |b| ==> (y[i] == b[i] <==> p(b[i]))
    ensures x == a && y == b <==> forall id :: id in a + b ==> p(id)
  {
    if forall id :: id in a + b ==> p(id) {
      forall i | 0 <= i < |a| ensures x[i] == a[i] { assert a[i] in a + b; }
      forall i | 0 <= i < |b| ensures y[i] == b[i] { assert b[i] in a + b; }
    }
  }

  lemma ReencodeElements(data: RawData, n: Name)
    requires data.Valid() && n in data.buffers && data.buffers[n].SubsetBuffers?
    requires Writable(data.Expected(n), FileIDs(data))
    ensures Encode(data.Expected(n), FileIDs(data)) == data.buffers[n] <==>
              forall id :: id in data.buffers[n].References() ==> Canonical(data, id)
  {
    var b, c := data.buffers[n], data.Expected(n);
    var e := Encode(c, FileIDs(data));
    assert data.ValidBuffers(b);
    forall i | 0 <= i < |b.ids| ensures e.ids[i] == b.ids[i] <==> Canonical(data, b.ids[i]) {
      assert b.ids[i] in b.References();
      ReencodeID(data, b.ids[i]);
    }
    hide RawData.Valid, RawData.ValidBuffers, RawData.Expected, Encode, Canonical, FileIDs;
    AllOfBoth(b.ids, [], e.ids, [], id => Canonical(data, id));
    assert b.ids + [] == b.References();
  }

  /** Reading a file and writing everything that has been read gives the same file. */
  method ReadAndWrite(data: RawData, hash: NameHash) returns (again: RawData)
    requires data.Valid()
    ensures again == data
  {
    hide Frame.Valid, RawData.Valid, RawData.Expected, FileIDs, IDs, Encode, WrittenBuffers, Writable;
    var f := ReadAll(data, hash);
    var colls := f.collections;
    IDsOfContent(data);
    forall n | n in colls
      ensures Writable(colls[n], IDs(colls)) && WrittenBuffers(colls[n], IDs(colls)) == data.buffers[n]
      ensures colls[n].prepared
    {
      RewritingReproducesBuffers(data, n);
      ExpectedIsWritable(data, n);
    }
    var buffers := WriteCollections(colls, IDs(colls));
    assert buffers == data.buffers;
    again := RawData(data.table, buffers);
  }

  lemma IDsOfContent(data: RawData)
    requires data.Valid()
    ensures IDs(Content(data, data.buffers.Keys)) == FileIDs(data)
  {
  }

  function FileIDs(data: RawData): map<Name, CollID>
    requires data.Valid()
  {
    map m | m in data.buffers :: data.table.IDOf(m).value
  }

  /** An object ID that survives resolving and encoding. */
  predicate Canonical(data: RawData, id: ObjectID) {
    var m := data.Designates(id);
    id == ObjectID(INVALID, 0) || (m.Some? && data.table.IDOf(m.value) == Some(id.collectionID))
  }

  lemma ReencodeID(data: RawData, id: ObjectID)
    requires data.Valid() && (data.InBounds(id) || id.index == INVALID)
    ensures Identifiable(data.Resolve(id), FileIDs(data))
    ensures HandleID(data.Resolve(id), FileIDs(data)) == id <==> Canonical(data, id)
  {
  }
}
