/** A collection of links and its I/O life cycle. */
module LinkCollections {
  import opened CollectionData

  class LinkCollection {
    var collectionID: CollID
    var isSubset: bool
    var isPrepared: bool
    var links: seq<Link>
    var borrowed: seq<Handle>
    var buffers: Buffers

    function Contents(): Collection
      reads this
    {
      Collection(collectionID, buffers, links, borrowed, isPrepared)
    }

    /** A new collection, or one that is about to be filled from its buffers. */
    constructor FromBuffers(b: Buffers)
      ensures Contents() == Collection(0, b, [], [], false) && isSubset == b.SubsetBuffers?
    {
      collectionID, buffers, links, borrowed := 0, b, [], [];
      isSubset, isPrepared := b.SubsetBuffers?, false;
    }

    /** Make an object for every datum; subset collections have nothing to do. The
        buffers are kept, so that the collection stays prepared for writing. */
    method PrepareAfterRead()
      requires isSubset == buffers.SubsetBuffers? && (!isPrepared ==> links == [])
      modifies this
      ensures isPrepared && isSubset == old(isSubset)
      ensures old(isPrepared) || isSubset ==> Contents() == old(Contents()).(prepared := true)
      ensures !old(isPrepared) && !isSubset ==>
                Contents() == old(Contents()).(
                  links := Unresolved(old(buffers).weights, old(collectionID)), prepared := true)
      ensures !old(isPrepared) && !isSubset ==>
        && |links| == |buffers.weights|
        && forall i :: 0 <= i < |links| ==>
             links[i] == Link(ObjectID(i, collectionID), buffers.weights[i], Unset, Unset)
    {
      if isPrepared {
        return;
      }
      if !isSubset {
        var index := 0;
        while index < |buffers.weights|
          invariant buffers == old(buffers) && isSubset == old(isSubset)
          invariant collectionID == old(collectionID) && borrowed == old(borrowed)
          invariant 0 <= index <= |buffers.weights|
          invariant links == Unresolved(buffers.weights[..index], collectionID)
        {
          links := links + [Link(ObjectID(index, collectionID), buffers.weights[index], Unset, Unset)];
          index := index + 1;
        }
        assert buffers.weights[..index] == buffers.weights;
      }
      isPrepared := true;
    }

    /** Every object of a collection that owns its elements carries the new ID. */
    method SetID(id: CollID)
      modifies this`collectionID, this`links
      ensures collectionID == id
      ensures links == if isSubset then old(links) else Relabelled(old(links), id)
      ensures |links| == |old(links)|
      ensures forall i :: 0 <= i < |links| && !isSubset ==>
        links[i] == old(links)[i].(id := ObjectID(old(links)[i].id.index, id))
    {
      collectionID := id;
      if !isSubset {
        ghost var before := links;
        var i := 0;
        while i < |links|
          invariant collectionID == id && |links| == |before|
          invariant 0 <= i <= |links|
          invariant forall k :: 0 <= k < i ==> links[k] == Relabelled(before, id)[k]
          invariant forall k :: i <= k < |links| ==> links[k] == before[k]
        {
          links := links[i := links[i].(id := ObjectID(links[i].id.index, id))];
          i := i + 1;
        }
        assert links == Relabelled(before, id);
      }
    }

    /** Fill the buffers for writing, unless that has been done already. The storage
        never clears the data buffer, so an unprepared collection must have none. */
    method PrepareForWrite(ids: map<Name, CollID>)
      requires isSubset == buffers.SubsetBuffers? && Writable(Contents(), ids)
      requires !isPrepared && !isSubset ==> buffers.weights == []
      modifies this`buffers, this`isPrepared
      ensures isPrepared && isSubset == buffers.SubsetBuffers?
      ensures buffers == WrittenBuffers(old(Contents()), ids)
      ensures old(isPrepared) ==> buffers == old(buffers)
      ensures !old(isPrepared) && !isSubset ==>
        && buffers.LinkBuffers? && |buffers.weights| == |buffers.fromIDs| == |buffers.toIDs| == |links|
        && forall i :: 0 <= i < |links| ==>
             && buffers.weights[i] == links[i].weight
             && IsIDOf(buffers.fromIDs[i], links[i].from, ids) && IsIDOf(buffers.toIDs[i], links[i].to, ids)
      ensures !old(isPrepared) && isSubset ==>
        && buffers.SubsetBuffers? && |buffers.ids| == |borrowed|
        && forall i :: 0 <= i < |borrowed| ==> IsIDOf(buffers.ids[i], borrowed[i], ids)
    {
      if isPrepared {
        return;
      }
      StoragePrepareForWrite(ids);
      isPrepared := true;
    }

    method StoragePrepareForWrite(ids: map<Name, CollID>)
      requires isSubset == buffers.SubsetBuffers? && Writable(Contents(), ids)
      modifies this`buffers
      ensures buffers == Appended(old(buffers), Encode(old(Contents()), ids))
    {
      if isSubset {
        buffers := SubsetBuffers([]);
        var i := 0;
        while i < |borrowed|
          invariant 0 <= i <= |borrowed|
          invariant buffers == SubsetBuffers(HandleIDs(borrowed[..i], ids))
        {
          buffers := SubsetBuffers(buffers.ids + [HandleID(borrowed[i], ids)]);
          i := i + 1;
        }
        assert borrowed[..i] == borrowed;
        return;
      }
      ghost var was := buffers.weights;
      buffers := buffers.(fromIDs := [], toIDs := []);
      var i := 0;
      while i < |links|
        invariant 0 <= i <= |links|
        invariant buffers == LinkBuffers(was + Weights(links[..i]), FromIDs(links[..i], ids), ToIDs(links[..i], ids))
      {
        buffers := LinkBuffers(buffers.weights + [links[i].weight],
                               buffers.fromIDs + [HandleID(links[i].from, ids)],
                               buffers.toIDs + [HandleID(links[i].to, ids)]);
        i := i + 1;
      }
      assert links[..i] == links;
    }

    /** Delete the elements and empty all buffers. */
    method Clear()
      requires isSubset == buffers.SubsetBuffers?
      modifies this
      ensures isSubset == old(isSubset)
      ensures Contents() == Collection(old(collectionID), NoBuffers(isSubset), [], [], false)
      ensures links == [] && borrowed == [] && !isPrepared && collectionID == old(collectionID)
      ensures buffers == if isSubset then SubsetBuffers([]) else LinkBuffers([], [], [])
    {
      buffers := NoBuffers(isSubset);
      links, borrowed, isPrepared := [], [], false;
    }
  }

  function NoBuffers(subset: bool): Buffers {
    if subset then SubsetBuffers([]) else LinkBuffers([], [], [])
  }

  function Relabelled(ls: seq<Link>, id: CollID): (rs: seq<Link>)
    ensures |rs| == |ls|
  {
    seq(|ls|, i requires 0 <= i < |ls| => ls[i].(id := ObjectID(ls[i].id.index, id)))
  }

  // ---------------------------------------------------------------------
  // The buffers of a collection

  predicate Identifiable(h: Handle, ids: map<Name, CollID>) { h.Element? ==> h.coll in ids }

  /** Elements of a subset collection are never null; all IDs can be looked up. */
  predicate Writable(c: Collection, ids: map<Name, CollID>) {
    && (forall i :: 0 <= i < |c.links| ==> Identifiable(c.links[i].from, ids) && Identifiable(c.links[i].to, ids))
    && (forall i :: 0 <= i < |c.borrowed| ==> Identifiable(c.borrowed[i], ids))
    && (c.IsSubset() && !c.prepared ==> forall i :: 0 <= i < |c.borrowed| ==> !c.borrowed[i].Unset?)
  }

  /** What is written for a relation: collection ID and index of an element, the ID of an
      element that lives elsewhere, and the invalid index for none. */
  predicate IsIDOf(id: ObjectID, h: Handle, ids: map<Name, CollID>) {
    match h
    case Unset => id.index == -2 && id.collectionID == 0
    case Element(m, j) => m in ids && id.index == j && id.collectionID == ids[m]
    case Foreign(other) => id == other
  }

  /** The object ID that is written for a relation. */
  function HandleID(h: Handle, ids: map<Name, CollID>): ObjectID
    requires Identifiable(h, ids)
  {
    match h
    case Unset => ObjectID(INVALID, 0)
    case Element(m, j) => ObjectID(j, ids[m])
    case Foreign(id) => id
  }

  function HandleIDs(hs: seq<Handle>, ids: map<Name, CollID>): (r: seq<ObjectID>)
    requires forall i :: 0 <= i < |hs| ==> Identifiable(hs[i], ids)
    ensures |r| == |hs|
  {
    seq(|hs|, i requires 0 <= i < |hs| => HandleID(hs[i], ids))
  }

  function Weights(ls: seq<Link>): (r: seq<real>)
    ensures |r| == |ls|
  {
    seq(|ls|, i requires 0 <= i < |ls| => ls[i].weight)
  }

  function FromIDs(ls: seq<Link>, ids: map<Name, CollID>): (r: seq<ObjectID>)
    requires forall i :: 0 <= i < |ls| ==> Identifiable(ls[i].from, ids)
    ensures |r| == |ls|
  {
    seq(|ls|, i requires 0 <= i < |ls| => HandleID(ls[i].from, ids))
  }

  function ToIDs(ls: seq<Link>, ids: map<Name, CollID>): (r: seq<ObjectID>)
    requires forall i :: 0 <= i < |ls| ==> Identifiable(ls[i].to, ids)
    ensures |r| == |ls|
  {
    seq(|ls|, i requires 0 <= i < |ls| => HandleID(ls[i].to, ids))
  }

  /** The buffers that represent the content of a collection. */
  function Encode(c: Collection, ids: map<Name, CollID>): Buffers
    requires Writable(c, ids)
  {
    if c.IsSubset() then SubsetBuffers(HandleIDs(c.borrowed, ids))
    else LinkBuffers(Weights(c.links), FromIDs(c.links, ids), ToIDs(c.links, ids))
  }

  /** What filling buffers does to what they held: references are replaced, data is appended. */
  function Appended(before: Buffers, b: Buffers): Buffers
    requires before.SubsetBuffers? == b.SubsetBuffers?
  {
    if b.SubsetBuffers? then b else b.(weights := before.weights + b.weights)
  }

  /** What is written for a collection: the buffers of a prepared one as they are. */
  function WrittenBuffers(c: Collection, ids: map<Name, CollID>): Buffers
    requires Writable(c, ids)
  {
    if c.prepared then c.buffers else Encode(c, ids)
  }

  /** Without the prepared flag, filling the buffers a second time would duplicate
      the data: it is harmless exactly when there is no link. */
  lemma FillingTwice(c: Collection, ids: map<Name, CollID>)
    requires Writable(c, ids) && !c.IsSubset() && c.buffers.weights == []
    ensures var once := Appended(c.buffers, Encode(c, ids));
            var twice := Appended(once, Encode(c, ids));
            (twice.Valid() <==> c.links == []) && (twice == once <==> c.links == [])
  {
    assert |Weights(c.links)| == |c.links|;
  }
}
