/** Who owns a link object: the control block its handles share, or the collection
    it has been handed over to. A sequential model of MaybeSharedPtr, the link
    handles, and collections of links, over an explicit heap. */
module Ownership {
  import opened Options

  type ID = nat

  const UNTRACKED: int := -1
  const UNTRACKED_ID: nat := 0xffff_ffff

  datatype LinkObj = LinkObj(index: int, collectionID: nat, weight: real)
  datatype Block = Block(count: nat, owned: bool)
  /** A MaybeSharedPtr; without a control block somebody else manages the object. */
  datatype Handle = Handle(ptr: Option<ID>, block: Option<ID>)
  datatype Coll = Coll(id: nat, subset: bool, entries: seq<ID>)
  datatype Outcome = Done | SubsetCannotCreate | AlreadyInCollection | OnlyInSubset | NotTracked | NotEmpty

  /** The heap. `made` and `deleted` record which objects were created and, in
      order, which were deleted. */
  datatype World = World(objs: map<ID, LinkObj>, blocks: map<ID, Block>, handles: map<ID, Handle>,
                         colls: map<ID, Coll>, made: set<ID>, deleted: seq<ID>, next: ID)

  /** The handles that share a control block. */
  function Users(handles: map<ID, Handle>, b: ID): set<ID> {
    set h | h in handles && handles[h].block == Some(b)
  }

  // ---------------------------------------------------------------------
  // The invariant

  predicate HandleOK(w: World, h: ID)
    requires h in w.handles
  {
    var p := w.handles[h];
    if p.block.Some? then
      && p.ptr.Some? && p.block.value in w.blocks
      && (w.blocks[p.block.value].owned ==> p.ptr.value in w.objs && w.objs[p.ptr.value].index == UNTRACKED)
    else
      p.ptr.Some? && p.ptr.value in w.objs ==> w.objs[p.ptr.value].index != UNTRACKED
  }

  /** Handles with a control block share the block exactly if they share the object. */
  predicate SameBlock(w: World, h: ID, k: ID)
    requires h in w.handles && k in w.handles
  {
    w.handles[h].block.Some? && w.handles[k].block.Some? ==>
      (w.handles[h].block == w.handles[k].block <==> w.handles[h].ptr == w.handles[k].ptr)
  }

  predicate BlockOK(w: World, b: ID)
    requires b in w.blocks
  {
    w.blocks[b].count == |Users(w.handles, b)| && w.blocks[b].count > 0
  }

  /** A handle whose control block owns the object. */
  predicate OwnsVia(w: World, h: ID, o: ID) {
    && h in w.handles && w.handles[h].ptr == Some(o) && w.handles[h].block.Some?
    && w.handles[h].block.value in w.blocks && w.blocks[w.handles[h].block.value].owned
  }

  /** A slot of a collection that owns its elements. */
  predicate InSlot(w: World, c: ID, i: int, o: ID) {
    c in w.colls && !w.colls[c].subset && 0 <= i < |w.colls[c].entries| && w.colls[c].entries[i] == o
  }

  predicate SlotOK(w: World, c: ID, i: int)
    requires c in w.colls && 0 <= i < |w.colls[c].entries|
  {
    var o := w.colls[c].entries[i];
    o in w.objs && w.objs[o].index == i && w.objs[o].collectionID == w.colls[c].id
  }

  ghost predicate ObjectOwned(w: World, o: ID)
    requires o in w.objs
  {
    if w.objs[o].index == UNTRACKED then exists h :: OwnsVia(w, h, o)
    else exists c :: InSlot(w, c, w.objs[o].index, o)
  }

  ghost predicate HandlesOK(w: World) { forall h :: h in w.handles ==> HandleOK(w, h) }
  ghost predicate Sharing(w: World) { forall h, k :: h in w.handles && k in w.handles ==> SameBlock(w, h, k) }
  ghost predicate BlocksOK(w: World) { forall b :: b in w.blocks ==> BlockOK(w, b) }
  ghost predicate Owned(w: World) { forall o :: o in w.objs ==> ObjectOwned(w, o) }
  ghost predicate SlotsOK(w: World) {
    forall c, i, o :: InSlot(w, c, i, o) ==> SlotOK(w, c, i)
  }
  /** No object is in two slots. */
  ghost predicate SlotsUnique(w: World) {
    forall c, d, i, o :: InSlot(w, c, i, o) && InSlot(w, d, i, o) ==> c == d
  }

  /** Collections hold objects that are, or were, tracked. */
  ghost predicate EntriesTracked(w: World) {
    forall c, i :: c in w.colls && 0 <= i < |w.colls[c].entries| ==> EntryTracked(w, w.colls[c].entries[i])
  }

  predicate EntryTracked(w: World, o: ID) { o in w.made && (o in w.objs ==> w.objs[o].index != UNTRACKED) }

  ghost predicate Fresh(w: World) {
    && (forall o :: o in w.made ==> o < w.next)
    && (forall b :: b in w.blocks ==> b < w.next)
    && (forall h :: h in w.handles ==> h < w.next && (w.handles[h].ptr.Some? ==> w.handles[h].ptr.value < w.next))
    && (forall c :: c in w.colls ==> c < w.next)
  }

  /** Every object that was made is alive, or has been deleted exactly once. */
  ghost predicate History(w: World) {
    && (forall o :: o in w.made <==> o in w.objs || o in w.deleted)
    && (forall o :: o in w.objs ==> o !in w.deleted)
    && (forall i, j :: 0 <= i < j < |w.deleted| ==> w.deleted[i] != w.deleted[j])
  }

  ghost predicate Inv(w: World) {
    && HandlesOK(w) && Sharing(w) && BlocksOK(w)
    && Owned(w) && SlotsOK(w) && SlotsUnique(w) && EntriesTracked(w)
    && Fresh(w) && History(w)
  }

  // ---------------------------------------------------------------------
  // The primitive operations on handles

  /** A new object with a control block that owns it, and its first handle. */
  function NewOwned(w: World, weight: real): World {
    var o, b, h := w.next, w.next + 1, w.next + 2;
    w.(objs := w.objs[o := LinkObj(UNTRACKED, UNTRACKED_ID, weight)], blocks := w.blocks[b := Block(1, true)],
       handles := w.handles[h := Handle(Some(o), Some(b))], made := w.made + {o}, next := w.next + 3)
  }

  /** A handle to an object that somebody else manages. */
  function Borrow(w: World, p: Option<ID>): World {
    w.(handles := w.handles[w.next := Handle(p, None)], next := w.next + 1)
  }

  function Increment(blocks: map<ID, Block>, b: Option<ID>): map<ID, Block> {
    if b.Some? && b.value in blocks then
      blocks[b.value := blocks[b.value].(count := blocks[b.value].count + 1)]
    else blocks
  }

  function Copied(w: World, h: ID): World
    requires h in w.handles
  {
    w.(handles := w.handles[w.next := w.handles[h]],
       blocks := Increment(w.blocks, w.handles[h].block), next := w.next + 1)
  }

  /** The destructor: the last handle of a block frees it, and deletes the object if
      the block still owns it. */
  function Destroyed(w: World, h: ID): World
    requires h in w.handles && HandleOK(w, h)
  {
    var p := w.handles[h];
    var left := w.(handles := w.handles - {h});
    if p.block.None? then left
    else
      var b := w.blocks[p.block.value];
      if b.count > 1 then left.(blocks := w.blocks[p.block.value := b.(count := b.count - 1)])
      else
        var freed := left.(blocks := w.blocks - {p.block.value});
        if b.owned then freed.(objs := w.objs - {p.ptr.value}, deleted := w.deleted + [p.ptr.value]) else freed
  }

  /** Ownership of `o` is unaffected if its handles, blocks and slots are. */
  lemma Survives(w: World, t: World, o: ID)
    requires o in w.objs && o in t.objs && w.objs[o] == t.objs[o] && ObjectOwned(w, o)
    requires forall h :: OwnsVia(w, h, o) ==> OwnsVia(t, h, o)
    requires forall c, i :: InSlot(w, c, i, o) ==> InSlot(t, c, i, o)
    ensures ObjectOwned(t, o)
  {
    if w.objs[o].index == UNTRACKED {
      var h :| OwnsVia(w, h, o);
    } else {
      var c :| InSlot(w, c, w.objs[o].index, o);
    }
  }

  /** Slots are fine if collections stay as they are and tracked objects do too. */
  lemma SlotsSurvive(w: World, t: World)
    requires SlotsOK(w) && SlotsUnique(w) && EntriesTracked(w) && w.colls == t.colls && w.made <= t.made
    requires forall o :: o in w.objs && w.objs[o].index != UNTRACKED ==> o in t.objs && t.objs[o] == w.objs[o]
    requires forall o :: o in t.objs && o in w.made ==> o in w.objs && t.objs[o] == w.objs[o]
    ensures SlotsOK(t) && SlotsUnique(t) && EntriesTracked(t)
  {
    forall c, i | c in t.colls && 0 <= i < |t.colls[c].entries| ensures EntryTracked(t, t.colls[c].entries[i]) {
      assert EntryTracked(w, w.colls[c].entries[i]);
    }
    forall c, i, o | InSlot(t, c, i, o) ensures SlotOK(t, c, i) {
      assert InSlot(w, c, i, o);
    }
    forall c, d, i, o | InSlot(t, c, i, o) && InSlot(t, d, i, o) ensures c == d {
      assert InSlot(w, c, i, o) && InSlot(w, d, i, o);
    }
  }

  lemma NewHandles(w: World, weight: real)
    requires Inv(w)
    ensures var t := NewOwned(w, weight); HandlesOK(t) && Sharing(t) && Fresh(t) && History(t)
  {
    hide BlocksOK, Owned, SlotsOK, SlotsUnique;
  }

  lemma NewBlocks(w: World, weight: real)
    requires BlocksOK(w) && Fresh(w) && HandlesOK(w)
    ensures BlocksOK(NewOwned(w, weight))
  {
    var t := NewOwned(w, weight);
    assert Users(t.handles, w.next + 1) == {w.next + 2};
    forall c | c in w.blocks ensures BlockOK(t, c) {
      assert BlockOK(w, c);
      assert Users(t.handles, c) == Users(w.handles, c);
    }
  }

  lemma NewIsOwned(w: World, weight: real)
    requires Owned(w) && Fresh(w) && History(w)
    ensures Owned(NewOwned(w, weight))
  {
    var t := NewOwned(w, weight);
    assert OwnsVia(t, w.next + 2, w.next);
    forall x | x in t.objs ensures ObjectOwned(t, x) {
      if x in w.objs { Survives(w, t, x); }
    }
  }

  lemma NewKeepsInv(w: World, weight: real)
    requires Inv(w)
    ensures Inv(NewOwned(w, weight))
  {
    var t := NewOwned(w, weight);
    NewHandles(w, weight);
    NewBlocks(w, weight);
    NewIsOwned(w, weight);
    hide HandlesOK, Sharing, BlocksOK, Owned, SlotsOK, SlotsUnique, EntriesTracked;
    NewIsNotMade(w, weight);
    hide Fresh, History;
    SlotsSurvive(w, t);
  }

  lemma NewIsNotMade(w: World, weight: real)
    requires Fresh(w) && History(w)
    ensures var t := NewOwned(w, weight);
      && (forall o :: o in w.objs ==> o in t.objs && t.objs[o] == w.objs[o])
      && (forall o :: o in t.objs && o in w.made ==> o in w.objs && t.objs[o] == w.objs[o])
  {
  }

  // ---------------------------------------------------------------------

  predicate SameOwnership(w: World, t: World) {
    && w.blocks.Keys == t.blocks.Keys
    && forall b :: b in w.blocks ==> t.blocks[b].owned == w.blocks[b].owned
  }

  /** One more handle. */
  lemma HandlesExtended(w: World, t: World, k: ID)
    requires HandlesOK(w) && Sharing(w) && SameOwnership(w, t) && t.objs == w.objs
    requires k in t.handles && t.handles == w.handles[k := t.handles[k]] && k !in w.handles
    requires HandleOK(t, k) && forall h :: h in w.handles ==> SameBlock(t, h, k)
    ensures HandlesOK(t) && Sharing(t)
  {
    forall h | h in t.handles ensures HandleOK(t, h) {
      if h != k { assert HandleOK(w, h); }
    }
    forall h, l | h in t.handles && l in t.handles ensures SameBlock(t, h, l) {
      if h != k && l != k { assert SameBlock(w, h, l); }
      else if h != k { assert SameBlock(t, h, k); }
      else if l != k { assert SameBlock(t, l, k); }
    }
  }

  lemma OwnedExtended(w: World, t: World, k: ID)
    requires Owned(w) && SameOwnership(w, t) && t.objs == w.objs && t.colls == w.colls
    requires k in t.handles && t.handles == w.handles[k := t.handles[k]] && k !in w.handles
    ensures Owned(t)
  {
    forall x | x in t.objs ensures ObjectOwned(t, x) {
      Survives(w, t, x);
    }
  }

  lemma FreshHandle(w: World, t: World)
    requires Fresh(w) && History(w)
    requires t.objs == w.objs && t.made == w.made && t.deleted == w.deleted && t.colls == w.colls
    requires t.blocks.Keys == w.blocks.Keys
    requires w.next in t.handles && t.handles == w.handles[w.next := t.handles[w.next]] && t.next == w.next + 1
    requires t.handles[w.next].ptr.Some? ==> t.handles[w.next].ptr.value < t.next
    ensures Fresh(t) && History(t) && w.next !in w.handles
  {
  }

  lemma BorrowKeepsBlocks(w: World, p: Option<ID>)
    requires BlocksOK(w) && Fresh(w)
    ensures BlocksOK(Borrow(w, p))
  {
    var t := Borrow(w, p);
    forall b | b in t.blocks ensures BlockOK(t, b) {
      assert BlockOK(w, b);
      assert Users(t.handles, b) == Users(w.handles, b);
    }
  }

  /** A handle without control block to an object that is tracked, or gone. */
  lemma BorrowKeepsInv(w: World, p: Option<ID>)
    requires Inv(w)
    requires p.Some? ==> EntryTracked(w, p.value)
    ensures Inv(Borrow(w, p))
  {
    var t := Borrow(w, p);
    assert p.Some? ==> p.value < w.next;
    hide HandlesOK, Sharing, BlocksOK, Owned, SlotsOK, SlotsUnique, EntriesTracked, Fresh, History;
    BorrowKeepsBlocks(w, p);
    SlotsSurvive(w, t);
    FreshHandle(w, t);
    HandlesExtended(w, t, w.next);
    OwnedExtended(w, t, w.next);
  }

  lemma CopyKeepsBlocks(w: World, h: ID)
    requires BlocksOK(w) && Fresh(w) && HandlesOK(w) && h in w.handles
    ensures BlocksOK(Copied(w, h))
  {
    var t := Copied(w, h);
    forall b | b in t.blocks ensures BlockOK(t, b) {
      assert BlockOK(w, b);
      assert HandleOK(w, h);
      if w.handles[h].block == Some(b) {
        assert Users(t.handles, b) == Users(w.handles, b) + {w.next};
      } else {
        assert Users(t.handles, b) == Users(w.handles, b);
      }
    }
  }

  lemma CopyShares(w: World, h: ID)
    requires Sharing(w) && Fresh(w) && h in w.handles && HandleOK(w, h)
    ensures var t := Copied(w, h);
      && HandleOK(t, w.next) && (forall k :: k in w.handles ==> SameBlock(t, k, w.next))
      && (w.handles[h].ptr.Some? ==> w.handles[h].ptr.value < w.next)
  {
    forall k | k in w.handles ensures SameBlock(Copied(w, h), k, w.next) { assert SameBlock(w, k, h); }
  }

  lemma CopyKeepsInv(w: World, h: ID)
    requires Inv(w) && h in w.handles
    ensures Inv(Copied(w, h))
  {
    var t := Copied(w, h);
    assert HandleOK(w, h);
    CopyShares(w, h);
    hide HandlesOK, Sharing, BlocksOK, Owned, SlotsOK, SlotsUnique, EntriesTracked, Fresh, History;
    CopyKeepsBlocks(w, h);
    SlotsSurvive(w, t);
    FreshHandle(w, t);
    HandlesExtended(w, t, w.next);
    OwnedExtended(w, t, w.next);
  }

  // ---------------------------------------------------------------------
  // The destructor

  lemma OnlyUser(w: World, h: ID)
    requires h in w.handles && w.handles[h].block.Some? && w.handles[h].block.value in w.blocks
    requires BlockOK(w, w.handles[h].block.value) && w.blocks[w.handles[h].block.value].count == 1
    ensures forall k :: k in w.handles && w.handles[k].block == w.handles[h].block ==> k == h
  {
    var us := Users(w.handles, w.handles[h].block.value);
    assert |us - {h}| == 0;
    forall k | k in w.handles && w.handles[k].block == w.handles[h].block ensures k == h {
      assert k in us && k !in us - {h};
    }
  }

  lemma AnotherUser(w: World, h: ID) returns (k: ID)
    requires h in w.handles && w.handles[h].block.Some? && w.handles[h].block.value in w.blocks
    requires BlockOK(w, w.handles[h].block.value) && w.blocks[w.handles[h].block.value].count > 1
    ensures k in w.handles && k != h && w.handles[k].block == w.handles[h].block
  {
    var us := Users(w.handles, w.handles[h].block.value);
    assert h in us && |us - {h}| > 0;
    k :| k in us - {h};
  }

  lemma DestroyKeepsBlocks(w: World, h: ID)
    requires BlocksOK(w) && h in w.handles && HandleOK(w, h)
    ensures BlocksOK(Destroyed(w, h))
  {
    var t := Destroyed(w, h);
    forall b | b in t.blocks ensures BlockOK(t, b) {
      assert BlockOK(w, b);
      if w.handles[h].block == Some(b) {
        assert Users(t.handles, b) == Users(w.handles, b) - {h};
      } else {
        assert Users(t.handles, b) == Users(w.handles, b);
      }
    }
  }

  lemma DestroyKeepsHandles(w: World, h: ID)
    requires HandlesOK(w) && Sharing(w) && BlocksOK(w) && h in w.handles
    ensures HandlesOK(Destroyed(w, h)) && Sharing(Destroyed(w, h))
  {
    var t := Destroyed(w, h);
    var p := w.handles[h];
    assert HandleOK(w, h);
    if p.block.Some? && w.blocks[p.block.value].count <= 1 {
      assert BlockOK(w, p.block.value);
      OnlyUser(w, h);
    }
    forall k | k in t.handles ensures HandleOK(t, k) {
      assert HandleOK(w, k) && SameBlock(w, h, k);
    }
    forall k, l | k in t.handles && l in t.handles ensures SameBlock(t, k, l) {
      assert SameBlock(w, k, l);
    }
  }

  lemma DestroyKeepsOwned(w: World, h: ID)
    requires HandlesOK(w) && Sharing(w) && BlocksOK(w) && Owned(w) && h in w.handles
    ensures Owned(Destroyed(w, h))
  {
    var t := Destroyed(w, h);
    assert HandleOK(w, h);
    forall x | x in t.objs ensures ObjectOwned(t, x) {
      assert ObjectOwned(w, x);
      if w.objs[x].index == UNTRACKED {
        var k :| OwnsVia(w, k, x);
        hide Owned, InSlot;
        OwnerIsLeft(w, h, x, k);
      } else {
        var c :| InSlot(w, c, w.objs[x].index, x);
        assert InSlot(t, c, t.objs[x].index, x);
      }
    }
  }

  /** An object that survives still has an owning handle. */
  lemma OwnerIsLeft(w: World, h: ID, x: ID, k: ID)
    requires HandlesOK(w) && Sharing(w) && BlocksOK(w) && h in w.handles && HandleOK(w, h)
    requires x in w.objs && x in Destroyed(w, h).objs && OwnsVia(w, k, x)
    ensures exists l :: OwnsVia(Destroyed(w, h), l, x)
  {
    var l := k;
    assert SameBlock(w, h, k);
    if k == h {
      assert BlockOK(w, w.handles[h].block.value);
      l := AnotherUser(w, h);
      assert SameBlock(w, h, l);
    }
    hide HandlesOK, Sharing, BlocksOK;
    assert OwnsVia(Destroyed(w, h), l, x);
  }

  lemma DestroyKeepsHistory(w: World, h: ID)
    requires HandlesOK(w) && Fresh(w) && History(w) && h in w.handles
    ensures Fresh(Destroyed(w, h)) && History(Destroyed(w, h))
  {
    assert HandleOK(w, h);
  }

  lemma DestroyKeepsTracked(w: World, h: ID)
    requires h in w.handles && HandleOK(w, h)
    ensures var t := Destroyed(w, h);
      && w.colls == t.colls && w.made == t.made
      && (forall o :: o in w.objs && w.objs[o].index != UNTRACKED ==> o in t.objs)
      && (forall o :: o in t.objs ==> o in w.objs && t.objs[o] == w.objs[o])
  {
  }

  lemma DestroyKeepsInv(w: World, h: ID)
    requires Inv(w) && h in w.handles
    ensures HandleOK(w, h) && Inv(Destroyed(w, h))
  {
    assert HandleOK(w, h);
    hide HandlesOK, Sharing, BlocksOK, Owned, SlotsOK, SlotsUnique, EntriesTracked, Fresh, History;
    DestroyKeepsBlocks(w, h);
    DestroyKeepsHandles(w, h);
    DestroyKeepsOwned(w, h);
    DestroyKeepsHistory(w, h);
    DestroyKeepsTracked(w, h);
    hide Destroyed;
    SlotsSurvive(w, Destroyed(w, h));
  }

  // Swapping two handles, as assignment does

  function Swapped(w: World, h: ID, k: ID): World
    requires h in w.handles && k in w.handles
  {
    w.(handles := w.handles[h := w.handles[k]][k := w.handles[h]])
  }

  /** The handle whose content is in `x` after the swap. */
  function Swap(x: ID, h: ID, k: ID): ID { if x == h then k else if x == k then h else x }

  lemma SwapUsers(w: World, h: ID, k: ID, b: ID)
    requires h in w.handles && k in w.handles
    ensures |Users(Swapped(w, h, k).handles, b)| == |Users(w.handles, b)|
  {
    var us, vs := Users(w.handles, b), Users(Swapped(w, h, k).handles, b);
    forall x ensures x in vs <==> Swap(x, h, k) in us {}
    hide Users, Swapped;
    SwapSize(us, vs, h, k);
  }

  lemma SwapSize(us: set<ID>, vs: set<ID>, h: ID, k: ID)
    requires forall x :: x in vs <==> Swap(x, h, k) in us
    ensures |vs| == |us|
  {
    assert h in vs <==> k in us;
    assert k in vs <==> h in us;
    if (h in us) == (k in us) {
      assert vs == us;
    } else if h in us {
      assert vs == us - {h} + {k};
    } else {
      assert vs == us - {k} + {h};
    }
  }

  lemma SwapKeepsBlocks(w: World, h: ID, k: ID)
    requires BlocksOK(w) && h in w.handles && k in w.handles
    ensures BlocksOK(Swapped(w, h, k))
  {
    hide Users;
    forall b | b in w.blocks ensures BlockOK(Swapped(w, h, k), b) {
      assert BlockOK(w, b);
      SwapUsers(w, h, k, b);
    }
  }

  lemma SwapKeepsHandles(w: World, h: ID, k: ID)
    requires HandlesOK(w) && Sharing(w) && Fresh(w) && History(w) && h in w.handles && k in w.handles
    ensures var t := Swapped(w, h, k); HandlesOK(t) && Sharing(t) && Fresh(t) && History(t)
  {
    var t := Swapped(w, h, k);
    forall x | x in t.handles ensures HandleOK(t, x) {
      assert HandleOK(w, Swap(x, h, k));
    }
    forall x, y | x in t.handles && y in t.handles ensures SameBlock(t, x, y) {
      assert SameBlock(w, Swap(x, h, k), Swap(y, h, k));
    }
  }

  lemma SwapKeepsOwned(w: World, h: ID, k: ID)
    requires Owned(w) && h in w.handles && k in w.handles
    ensures Owned(Swapped(w, h, k))
  {
    var t := Swapped(w, h, k);
    forall x | x in t.objs ensures ObjectOwned(t, x) {
      assert ObjectOwned(w, x);
      if w.objs[x].index == UNTRACKED {
        var l :| OwnsVia(w, l, x);
        assert OwnsVia(t, Swap(l, h, k), x);
      } else {
        var c :| InSlot(w, c, w.objs[x].index, x);
        assert InSlot(t, c, t.objs[x].index, x);
      }
    }
  }

  lemma SwapKeepsInv(w: World, h: ID, k: ID)
    requires Inv(w) && h in w.handles && k in w.handles
    ensures Inv(Swapped(w, h, k))
  {
    hide HandlesOK, Sharing, BlocksOK, Owned, SlotsOK, SlotsUnique, EntriesTracked, Fresh, History;
    SwapKeepsBlocks(w, h, k);
    SwapKeepsHandles(w, h, k);
    SwapKeepsOwned(w, h, k);
    SlotsSurvive(w, Swapped(w, h, k));
  }

  // ---------------------------------------------------------------------
  // Collections

  /** A new object in the next slot of a collection, and a handle to it. */
  function Created(w: World, c: ID, weight: real): World
    requires c in w.colls
  {
    var o, h := w.next, w.next + 1;
    var coll := w.colls[c];
    w.(objs := w.objs[o := LinkObj(|coll.entries|, coll.id, weight)],
       colls := w.colls[c := coll.(entries := coll.entries + [o])],
       handles := w.handles[h := Handle(Some(o), None)], made := w.made + {o}, next := w.next + 2)
  }

  /** The object of handle `h` is handed over to the next slot of a collection: its
      control block no longer owns it. */
  function HandedOver(w: World, c: ID, h: ID): World
    requires c in w.colls && h in w.handles && w.handles[h].ptr.Some? && w.handles[h].ptr.value in w.objs
    requires w.handles[h].block.Some? && w.handles[h].block.value in w.blocks
  {
    var o, b, coll := w.handles[h].ptr.value, w.handles[h].block.value, w.colls[c];
    w.(objs := w.objs[o := w.objs[o].(index := |coll.entries|, collectionID := coll.id)],
       blocks := w.blocks[b := w.blocks[b].(owned := false)],
       colls := w.colls[c := coll.(entries := coll.entries + [o])])
  }

  lemma CreatedSlots(w: World, c: ID, weight: real)
    requires SlotsOK(w) && SlotsUnique(w) && EntriesTracked(w) && Fresh(w) && History(w)
    requires c in w.colls && !w.colls[c].subset
    ensures var t := Created(w, c, weight); SlotsOK(t) && SlotsUnique(t) && EntriesTracked(t)
  {
    var t := Created(w, c, weight);
    forall d, i, o | InSlot(t, d, i, o)
      ensures SlotOK(t, d, i)
      ensures if o == w.next then d == c else InSlot(w, d, i, o)
    {
      if d != c || i != |w.colls[c].entries| {
        assert InSlot(w, d, i, o) && SlotOK(w, d, i);
      }
    }
    forall d, i | d in t.colls && 0 <= i < |t.colls[d].entries| ensures EntryTracked(t, t.colls[d].entries[i]) {
      if d != c || i != |w.colls[c].entries| {
        assert EntryTracked(w, w.colls[d].entries[i]);
      }
    }
    forall d, e, i, o | InSlot(t, d, i, o) && InSlot(t, e, i, o) ensures d == e {
      if o != w.next { assert InSlot(w, d, i, o) && InSlot(w, e, i, o); }
    }
  }

  lemma CreatedOwned(w: World, c: ID, weight: real)
    requires Owned(w) && Fresh(w) && History(w) && c in w.colls && !w.colls[c].subset
    ensures Owned(Created(w, c, weight))
  {
    var t := Created(w, c, weight);
    forall x | x in t.objs ensures ObjectOwned(t, x) {
      if x == w.next {
        assert InSlot(t, c, |w.colls[c].entries|, x);
      } else {
        Survives(w, t, x);
      }
    }
  }

  lemma CreatedHandles(w: World, c: ID, weight: real)
    requires HandlesOK(w) && Sharing(w) && BlocksOK(w) && Fresh(w) && History(w) && c in w.colls
    ensures var t := Created(w, c, weight); HandlesOK(t) && Sharing(t) && BlocksOK(t) && Fresh(t) && History(t)
  {
    var t := Created(w, c, weight);
    forall b | b in t.blocks ensures BlockOK(t, b) {
      assert BlockOK(w, b);
      assert Users(t.handles, b) == Users(w.handles, b);
    }
    forall h | h in t.handles ensures HandleOK(t, h) {
      if h in w.handles { assert HandleOK(w, h); }
    }
    forall h, k | h in t.handles && k in t.handles ensures SameBlock(t, h, k) {
      if h in w.handles && k in w.handles { assert SameBlock(w, h, k); }
    }
  }

  lemma CreateKeepsInv(w: World, c: ID, weight: real)
    requires Inv(w) && c in w.colls && !w.colls[c].subset
    ensures Inv(Created(w, c, weight))
  {
    hide HandlesOK, Sharing, BlocksOK, Owned, SlotsOK, SlotsUnique, EntriesTracked, Fresh, History;
    CreatedSlots(w, c, weight);
    CreatedOwned(w, c, weight);
    CreatedHandles(w, c, weight);
  }

  // Handing an untracked object over to a collection

  ghost predicate CanHandOver(w: World, c: ID, h: ID) {
    && c in w.colls && !w.colls[c].subset && h in w.handles && w.handles[h].ptr.Some?
    && w.handles[h].ptr.value in w.objs && w.objs[w.handles[h].ptr.value].index == UNTRACKED
    && w.handles[h].block.Some? && w.handles[h].block.value in w.blocks
  }

  lemma HandOverSlots(w: World, c: ID, h: ID)
    requires SlotsOK(w) && SlotsUnique(w) && EntriesTracked(w) && History(w) && CanHandOver(w, c, h)
    ensures var t := HandedOver(w, c, h); SlotsOK(t) && SlotsUnique(t) && EntriesTracked(t)
  {
    var t := HandedOver(w, c, h);
    var p := w.handles[h].ptr.value;
    forall d, i, o | InSlot(t, d, i, o)
      ensures SlotOK(t, d, i)
      ensures if o == p then d == c else InSlot(w, d, i, o)
    {
      if d != c || i != |w.colls[c].entries| {
        assert InSlot(w, d, i, o) && SlotOK(w, d, i) && EntryTracked(w, w.colls[d].entries[i]);
      }
    }
    forall d, i | d in t.colls && 0 <= i < |t.colls[d].entries| ensures EntryTracked(t, t.colls[d].entries[i]) {
      if d != c || i != |w.colls[c].entries| {
        assert EntryTracked(w, w.colls[d].entries[i]);
      }
    }
    forall d, e, i, o | InSlot(t, d, i, o) && InSlot(t, e, i, o) ensures d == e {
      if o != p { assert InSlot(w, d, i, o) && InSlot(w, e, i, o); }
    }
  }

  lemma HandOverOwned(w: World, c: ID, h: ID)
    requires Owned(w) && Sharing(w) && CanHandOver(w, c, h)
    ensures Owned(HandedOver(w, c, h))
  {
    var t := HandedOver(w, c, h);
    var p := w.handles[h].ptr.value;
    forall x | x in t.objs ensures ObjectOwned(t, x) {
      if x == p {
        assert InSlot(t, c, |w.colls[c].entries|, x);
      } else {
        forall k | OwnsVia(w, k, x) ensures OwnsVia(t, k, x) {
          assert SameBlock(w, h, k);
        }
        Survives(w, t, x);
      }
    }
  }

  lemma HandOverHandles(w: World, c: ID, h: ID)
    requires HandlesOK(w) && Sharing(w) && BlocksOK(w) && Fresh(w) && History(w) && CanHandOver(w, c, h)
    ensures var t := HandedOver(w, c, h); HandlesOK(t) && Sharing(t) && BlocksOK(t) && Fresh(t) && History(t)
  {
    var t := HandedOver(w, c, h);
    forall b | b in t.blocks ensures BlockOK(t, b) { assert BlockOK(w, b); }
    forall k | k in t.handles ensures HandleOK(t, k) { assert HandleOK(w, k) && SameBlock(w, h, k); }
    forall k, l | k in t.handles && l in t.handles ensures SameBlock(t, k, l) { assert SameBlock(w, k, l); }
  }

  lemma HandOverKeepsInv(w: World, c: ID, h: ID)
    requires Inv(w) && CanHandOver(w, c, h)
    ensures Inv(HandedOver(w, c, h))
  {
    hide HandlesOK, Sharing, BlocksOK, Owned, SlotsOK, SlotsUnique, EntriesTracked, Fresh, History;
    HandOverSlots(w, c, h);
    HandOverOwned(w, c, h);
    HandOverHandles(w, c, h);
  }

  // Changing a collection that borrows, or that is empty

  function WithEntries(w: World, c: ID, entries: seq<ID>): World
    requires c in w.colls
  {
    w.(colls := w.colls[c := w.colls[c].(entries := entries)])
  }

  lemma SubsetEntriesKeepInv(w: World, c: ID, entries: seq<ID>)
    requires Inv(w) && c in w.colls && w.colls[c].subset
    requires forall i :: 0 <= i < |entries| ==> EntryTracked(w, entries[i])
    ensures Inv(WithEntries(w, c, entries))
  {
    var t := WithEntries(w, c, entries);
    OtherCollections(w, t);
    forall d, i, o ensures InSlot(t, d, i, o) <==> InSlot(w, d, i, o) {}
    assert EntriesTracked(t) by {
      forall d, i | d in t.colls && 0 <= i < |t.colls[d].entries| ensures EntryTracked(t, t.colls[d].entries[i]) {
        if d == c { assert EntryTracked(w, entries[i]); } else { assert EntryTracked(w, w.colls[d].entries[i]); }
      }
    }
    SameSlots(w, t);
  }

  /** All objects of an owning collection are deleted, in slot order. */
  function Emptied(w: World, c: ID): World
    requires c in w.colls
  {
    var coll := w.colls[c];
    w.(objs := map o | o in w.objs && o !in coll.entries :: w.objs[o], deleted := w.deleted + coll.entries,
       colls := w.colls[c := coll.(entries := [])])
  }

  lemma EntriesAreDistinct(w: World, c: ID)
    requires SlotsOK(w) && c in w.colls && !w.colls[c].subset
    ensures forall i, j :: 0 <= i < j < |w.colls[c].entries| ==> w.colls[c].entries[i] != w.colls[c].entries[j]
    ensures forall o :: o in w.colls[c].entries ==> o in w.objs && w.objs[o].index != UNTRACKED
  {
    var es := w.colls[c].entries;
    forall i | 0 <= i < |es| ensures es[i] in w.objs && w.objs[es[i]].index == i {
      assert InSlot(w, c, i, es[i]) && SlotOK(w, c, i);
    }
  }

  lemma NotInBoth(w: World, c: ID, d: ID, i: int, o: ID)
    requires SlotsOK(w) && SlotsUnique(w) && c in w.colls && !w.colls[c].subset && d != c && InSlot(w, d, i, o)
    ensures o !in w.colls[c].entries
  {
    var es := w.colls[c].entries;
    assert SlotOK(w, d, i);
    forall j | 0 <= j < |es| ensures es[j] != o {
      assert InSlot(w, c, j, es[j]) && SlotOK(w, c, j);
      assert !InSlot(w, c, i, o);
    }
  }

  lemma EmptiedSlots(w: World, c: ID)
    requires SlotsOK(w) && SlotsUnique(w) && EntriesTracked(w) && c in w.colls && !w.colls[c].subset
    ensures var t := Emptied(w, c); SlotsOK(t) && SlotsUnique(t) && EntriesTracked(t)
  {
    var t := Emptied(w, c);
    forall d, i, o | InSlot(t, d, i, o) ensures SlotOK(t, d, i) && InSlot(w, d, i, o) {
      assert InSlot(w, d, i, o) && SlotOK(w, d, i);
      if d != c { NotInBoth(w, c, d, i, o); }
    }
    forall d, i | d in t.colls && 0 <= i < |t.colls[d].entries| ensures EntryTracked(t, t.colls[d].entries[i]) {
      assert EntryTracked(w, w.colls[d].entries[i]);
    }
    forall d, e, i, o | InSlot(t, d, i, o) && InSlot(t, e, i, o) ensures d == e {
      assert InSlot(w, d, i, o) && InSlot(w, e, i, o);
    }
  }

  lemma EmptiedOwned(w: World, c: ID)
    requires Owned(w) && SlotsOK(w) && c in w.colls && !w.colls[c].subset
    ensures Owned(Emptied(w, c))
  {
    var t := Emptied(w, c);
    forall x | x in t.objs ensures ObjectOwned(t, x) {
      forall d, i | InSlot(w, d, i, x) ensures InSlot(t, d, i, x) {
        assert x in w.colls[d].entries;
      }
      Survives(w, t, x);
    }
  }

  lemma EmptiedRest(w: World, c: ID)
    requires HandlesOK(w) && Sharing(w) && BlocksOK(w) && Fresh(w) && History(w) && SlotsOK(w)
    requires c in w.colls && !w.colls[c].subset
    ensures var t := Emptied(w, c); HandlesOK(t) && Sharing(t) && BlocksOK(t) && Fresh(t) && History(t)
  {
    var t := Emptied(w, c);
    EntriesAreDistinct(w, c);
    hide SlotsOK;
    forall b | b in t.blocks ensures BlockOK(t, b) { assert BlockOK(w, b); }
    forall k | k in t.handles ensures HandleOK(t, k) { assert HandleOK(w, k); }
    forall k, l | k in t.handles && l in t.handles ensures SameBlock(t, k, l) { assert SameBlock(w, k, l); }
    assert History(t) by {
      hide HandlesOK, Sharing, BlocksOK, Fresh;
      var es := w.colls[c].entries;
      forall i, j | 0 <= i < j < |t.deleted| ensures t.deleted[i] != t.deleted[j] {
        if j < |w.deleted| {
        } else if i < |w.deleted| {
          assert t.deleted[i] in w.deleted && t.deleted[j] in es;
        }
      }
    }
  }

  lemma ClearKeepsInv(w: World, c: ID)
    requires Inv(w) && c in w.colls && !w.colls[c].subset
    ensures Inv(Emptied(w, c))
  {
    hide HandlesOK, Sharing, BlocksOK, Owned, SlotsOK, SlotsUnique, EntriesTracked, Fresh, History;
    EmptiedSlots(w, c);
    EmptiedOwned(w, c);
    EmptiedRest(w, c);
  }

  /** The collection and the objects it owns get a new collection ID. */
  function Relabelled(w: World, c: ID, id: nat): World
    requires c in w.colls
  {
    var coll := w.colls[c];
    w.(objs := if coll.subset then w.objs
               else map o | o in w.objs :: if o in coll.entries then w.objs[o].(collectionID := id) else w.objs[o],
       colls := w.colls[c := coll.(id := id)])
  }

  lemma RelabelKeepsInv(w: World, c: ID, id: nat)
    requires Inv(w) && c in w.colls
    ensures Inv(Relabelled(w, c, id))
  {
    hide HandlesOK, Sharing, BlocksOK, Owned, SlotsOK, SlotsUnique, EntriesTracked, Fresh, History;
    SameSlotsRelabelled(w, c, id);
    RelabelledSlots(w, c, id);
    RelabelledOwned(w, c, id);
    RelabelledRest(w, c, id);
  }

  lemma SameSlotsRelabelled(w: World, c: ID, id: nat)
    requires c in w.colls
    ensures forall d, i, o :: InSlot(w, d, i, o) <==> InSlot(Relabelled(w, c, id), d, i, o)
    ensures SlotsUnique(w) ==> SlotsUnique(Relabelled(w, c, id))
    ensures EntriesTracked(w) ==> EntriesTracked(Relabelled(w, c, id))
  {
    var t := Relabelled(w, c, id);
    if EntriesTracked(w) {
      forall d, i | d in t.colls && 0 <= i < |t.colls[d].entries| ensures EntryTracked(t, t.colls[d].entries[i]) {
        assert EntryTracked(w, w.colls[d].entries[i]);
      }
    }
  }

  lemma RelabelledSlots(w: World, c: ID, id: nat)
    requires SlotsOK(w) && SlotsUnique(w) && c in w.colls
    ensures SlotsOK(Relabelled(w, c, id))
  {
    var t := Relabelled(w, c, id);
    forall d, i, o | InSlot(t, d, i, o) ensures SlotOK(t, d, i) {
      assert InSlot(w, d, i, o) && SlotOK(w, d, i);
      if d != c && !w.colls[c].subset {
        NotInBoth(w, c, d, i, o);
      }
    }
  }

  lemma RelabelledOwned(w: World, c: ID, id: nat)
    requires Owned(w) && c in w.colls
    ensures Owned(Relabelled(w, c, id))
  {
    var t := Relabelled(w, c, id);
    forall x | x in t.objs ensures ObjectOwned(t, x) {
      assert ObjectOwned(w, x);
      if w.objs[x].index == UNTRACKED {
        var h :| OwnsVia(w, h, x);
        assert OwnsVia(t, h, x);
      } else {
        var d :| InSlot(w, d, w.objs[x].index, x);
        assert InSlot(t, d, t.objs[x].index, x);
      }
    }
  }

  lemma RelabelledRest(w: World, c: ID, id: nat)
    requires HandlesOK(w) && Sharing(w) && BlocksOK(w) && Fresh(w) && History(w) && c in w.colls
    ensures var t := Relabelled(w, c, id); HandlesOK(t) && Sharing(t) && BlocksOK(t) && Fresh(t) && History(t)
  {
    var t := Relabelled(w, c, id);
    forall b | b in t.blocks ensures BlockOK(t, b) { assert BlockOK(w, b); }
    forall k | k in t.handles ensures HandleOK(t, k) { assert HandleOK(w, k); }
    forall k, l | k in t.handles && l in t.handles ensures SameBlock(t, k, l) { assert SameBlock(w, k, l); }
  }

  /** A collection may be made, dropped, or change its character while it is empty. */
  lemma EmptyCollectionKeepsInv(w: World, t: World, c: ID)
    requires Inv(w) && t.colls.Keys <= w.colls.Keys + {c} && w.next <= t.next && c < t.next
    requires t == w.(colls := t.colls, next := t.next)
    requires forall d :: d in w.colls && d != c ==> d in t.colls && t.colls[d] == w.colls[d]
    requires c in w.colls ==> w.colls[c].entries == []
    requires c in t.colls ==> t.colls[c].entries == [] && (c in w.colls ==> t.colls[c].id == w.colls[c].id)
    ensures Inv(t)
  {
    forall d, i, o ensures InSlot(t, d, i, o) <==> InSlot(w, d, i, o) {}
    SameSlots(w, t);
    OtherCollections(w, t);
    assert EntriesTracked(t) by {
      forall d, i | d in t.colls && 0 <= i < |t.colls[d].entries| ensures EntryTracked(t, t.colls[d].entries[i]) {
        assert EntryTracked(w, w.colls[d].entries[i]);
      }
    }
  }

  lemma OtherCollections(w: World, t: World)
    requires HandlesOK(w) && Sharing(w) && BlocksOK(w) && Fresh(w) && History(w)
    requires t == w.(colls := t.colls, next := t.next) && w.next <= t.next && forall d :: d in t.colls ==> d < t.next
    ensures HandlesOK(t) && Sharing(t) && BlocksOK(t) && Fresh(t) && History(t)
  {
    forall b | b in t.blocks ensures BlockOK(t, b) { assert BlockOK(w, b); }
    forall k | k in t.handles ensures HandleOK(t, k) { assert HandleOK(w, k); }
    forall k, l | k in t.handles && l in t.handles ensures SameBlock(t, k, l) { assert SameBlock(w, k, l); }
  }

  lemma SameSlots(w: World, t: World)
    requires SlotsOK(w) && SlotsUnique(w) && Owned(w) && t == w.(colls := t.colls, next := t.next)
    requires forall d, i, o :: InSlot(t, d, i, o) <==> InSlot(w, d, i, o)
    requires forall d :: d in t.colls && d in w.colls ==> t.colls[d].id == w.colls[d].id
    ensures SlotsOK(t) && SlotsUnique(t) && Owned(t)
  {
    forall d, i, o | InSlot(t, d, i, o) ensures SlotOK(t, d, i) { assert InSlot(w, d, i, o) && SlotOK(w, d, i); }
    forall d, e, i, o | InSlot(t, d, i, o) && InSlot(t, e, i, o) ensures d == e {
      assert InSlot(w, d, i, o) && InSlot(w, e, i, o);
    }
    forall x | x in t.objs ensures ObjectOwned(t, x) { Survives(w, t, x); }
  }

  // ---------------------------------------------------------------------
  // A handle that is made and destroyed again leaves no trace

  function WithHandle(w: World, k: ID, p: Handle): World {
    w.(handles := w.handles[k := p], blocks := Increment(w.blocks, p.block))
  }

  lemma DestroyUndoes(w: World, k: ID, p: Handle)
    requires k !in w.handles && HandleOK(WithHandle(w, k, p), k)
    requires p.block.Some? ==> p.block.value in w.blocks && w.blocks[p.block.value].count > 0
    ensures Destroyed(WithHandle(w, k, p), k) == w
  {
    assert w.handles[k := p] - {k} == w.handles;
    if p.block.Some? {
      var b := p.block.value;
      assert Increment(w.blocks, p.block)[b := w.blocks[b]] == w.blocks;
    }
  }

  // ---------------------------------------------------------------------
  // push_back

  predicate CanPush(w: World, c: ID, h: ID) {
    && c in w.colls && h in w.handles && w.handles[h].ptr.Some? && w.handles[h].ptr.value in w.objs
    && (w.objs[w.handles[h].ptr.value].index == UNTRACKED ==>
          w.handles[h].block.Some? && w.handles[h].block.value in w.blocks)
  }

  /** An owning collection only takes objects that are untracked, a subset collection
      only those that are tracked. */
  function PushOutcome(w: World, c: ID, h: ID): Outcome
    requires CanPush(w, c, h)
  {
    var tracked := w.objs[w.handles[h].ptr.value].index != UNTRACKED;
    if !w.colls[c].subset then (if tracked then AlreadyInCollection else Done)
    else (if tracked then Done else NotTracked)
  }

  /** Success hands the object over, or borrows it; failure leaves everything alone. */
  function Pushed(w: World, c: ID, h: ID): World
    requires CanPush(w, c, h)
  {
    if PushOutcome(w, c, h) != Done then w
    else if !w.colls[c].subset then HandedOver(w, c, h)
    else WithEntries(w, c, w.colls[c].entries + [w.handles[h].ptr.value])
  }

  /** What a push does: a new last entry, and in a collection that owns its elements the
      object gets its ID and its block gives up ownership. */
  lemma PushedIs(w: World, c: ID, h: ID)
    requires CanPush(w, c, h)
    ensures var o, coll, t := w.handles[h].ptr.value, w.colls[c], Pushed(w, c, h);
      && PushOutcome(w, c, h) == (if w.objs[o].index == -1 then (if coll.subset then NotTracked else Done)
                                  else if coll.subset then Done else AlreadyInCollection)
      && (PushOutcome(w, c, h) != Done ==> t == w)
      && (PushOutcome(w, c, h) == Done ==>
            && t.colls == w.colls[c := Coll(coll.id, coll.subset, coll.entries + [o])]
            && t.objs == (if coll.subset then w.objs
                          else w.objs[o := LinkObj(|coll.entries|, coll.id, w.objs[o].weight)])
            && t.blocks == (if coll.subset then w.blocks
                            else w.blocks[w.handles[h].block.value :=
                                            Block(w.blocks[w.handles[h].block.value].count, false)]))
      && t.handles == w.handles && t.made == w.made && t.deleted == w.deleted && t.next == w.next
  {
  }

  lemma PushIsDefined(w: World, c: ID, h: ID)
    requires Inv(w) && c in w.colls && h in w.handles && w.handles[h].ptr.Some? && w.handles[h].ptr.value in w.objs
    ensures CanPush(w, c, h)
  {
    assert HandleOK(w, h);
  }

  lemma PushKeepsInv(w: World, c: ID, h: ID)
    requires Inv(w) && CanPush(w, c, h)
    ensures Inv(Pushed(w, c, h))
  {
    var p := w.handles[h].ptr.value;
    if PushOutcome(w, c, h) == Done {
      if w.colls[c].subset {
        var es := w.colls[c].entries;
        forall i | 0 <= i < |es| ensures EntryTracked(w, es[i]) {}
        assert EntryTracked(w, p);
        hide Inv, EntryTracked;
        SubsetEntriesKeepInv(w, c, es + [p]);
      } else {
        hide Inv;
        HandOverKeepsInv(w, c, h);
      }
    }
  }

  /** Releasing the handle of a tracked object changes nothing. */
  lemma ReleaseIsHarmless(w: World, h: ID)
    requires Inv(w) && h in w.handles && w.handles[h].ptr.Some? && w.handles[h].ptr.value in w.objs
    requires w.objs[w.handles[h].ptr.value].index != UNTRACKED && w.handles[h].block.Some?
    ensures w.handles[h].block.value in w.blocks && !w.blocks[w.handles[h].block.value].owned
  {
    assert HandleOK(w, h);
  }

  /** Pushing a copy is pushing the original, with the copy still there. */
  lemma CopyThenPush(w: World, c: ID, h: ID)
    requires CanPush(w, c, h) && w.next !in w.handles
    ensures var k := w.next; var x := Copied(w, h);
            && CanPush(x, c, k) && PushOutcome(x, c, k) == PushOutcome(w, c, h)
            && Pushed(x, c, k) == WithHandle(Pushed(w, c, h), k, w.handles[h]).(next := w.next + 1)
  {
    var k, x, p := w.next, Copied(w, h), w.handles[h];
    assert x == WithHandle(w, k, p).(next := w.next + 1);
    if PushOutcome(w, c, h) == Done && !w.colls[c].subset {
      var b := p.block.value;
      assert HandedOver(x, c, k).blocks == Increment(HandedOver(w, c, h).blocks, p.block);
    }
  }

  /** Destroying that copy afterwards leaves what pushing the original does. */
  lemma DestroyAfterPush(w: World, c: ID, h: ID, k: ID, t: World)
    requires Inv(w) && CanPush(w, c, h) && k !in w.handles && Inv(t) && w.next <= t.next
    requires t == WithHandle(Pushed(w, c, h), k, w.handles[h]).(next := t.next)
    ensures HandleOK(t, k) && Destroyed(t, k) == Pushed(w, c, h).(next := t.next)
  {
    var p, base := w.handles[h], Pushed(w, c, h).(next := t.next);
    assert HandleOK(w, h) && HandleOK(t, k);
    if p.block.Some? { assert BlockOK(w, p.block.value); }
    assert t == WithHandle(base, k, p);
    hide Inv, HandleOK;
    DestroyUndoes(base, k, p);
  }

  lemma DestroyCopy(w: World, h: ID, k: ID, t: World)
    requires Inv(w) && h in w.handles && k !in w.handles && Inv(t)
    requires t == WithHandle(w, k, w.handles[h]).(next := t.next)
    ensures HandleOK(t, k) && Destroyed(t, k) == w.(next := t.next)
  {
    var p := w.handles[h];
    assert HandleOK(w, h) && HandleOK(t, k);
    if p.block.Some? { assert BlockOK(w, p.block.value); }
    assert t == WithHandle(w.(next := t.next), k, p);
    hide Inv, HandleOK;
    DestroyUndoes(w.(next := t.next), k, p);
  }

  // ---------------------------------------------------------------------
  // What the invariant says

  /** Every live object has exactly one owner: one control block, or one slot of one
      collection that is not a subset collection, and never both. The handles that a link
      object itself holds to its ends are not part of this heap. */
  lemma OneOwner(w: World, o: ID)
    requires Inv(w) && o in w.objs
    ensures w.objs[o].index == UNTRACKED ==>
              && (exists h :: OwnsVia(w, h, o))
              && (forall h, k :: OwnsVia(w, h, o) && OwnsVia(w, k, o) ==> w.handles[h].block == w.handles[k].block)
              && (forall c, i :: !InSlot(w, c, i, o))
    ensures w.objs[o].index != UNTRACKED ==>
              && (exists c :: InSlot(w, c, w.objs[o].index, o) && w.colls[c].id == w.objs[o].collectionID)
              && (forall c, d, i, j :: InSlot(w, c, i, o) && InSlot(w, d, j, o) ==> c == d && i == j)
              && (forall h :: !OwnsVia(w, h, o))
  {
    assert ObjectOwned(w, o);
    forall c, i | InSlot(w, c, i, o) ensures i == w.objs[o].index && w.colls[c].id == w.objs[o].collectionID {
      assert SlotOK(w, c, i);
    }
    forall h, k | OwnsVia(w, h, o) && OwnsVia(w, k, o) ensures w.handles[h].block == w.handles[k].block {
      assert SameBlock(w, h, k);
    }
    forall h | OwnsVia(w, h, o) ensures w.objs[o].index == UNTRACKED {
      assert HandleOK(w, h);
    }
  }

  /** Nothing leaks: once all handles and collections are gone, no object and no
      control block is left, and every object has been deleted exactly once. */
  lemma NothingLeaks(w: World)
    requires Inv(w) && w.handles == map[] && w.colls == map[]
    ensures w.objs == map[] && w.blocks == map[]
    ensures multiset(w.deleted) == multiset(w.made)
  {
    forall o ensures o !in w.objs {
      assert o in w.objs ==> ObjectOwned(w, o);
    }
    forall b ensures b !in w.blocks {
      assert Users(w.handles, b) == {};
      assert b in w.blocks ==> BlockOK(w, b);
    }
    DistinctSequence(w.deleted);
    assert w.made == set o | o in w.deleted;
  }

  lemma {:induction false} DistinctSequence(s: seq<ID>)
    requires forall i, j :: 0 <= i < j < |s| ==> s[i] != s[j]
    ensures multiset(s) == multiset(set o | o in s)
  {
    if s != [] {
      var n := |s| - 1;
      DistinctSequence(s[..n]);
      assert s == s[..n] + [s[n]];
      assert (set o | o in s) == (set o | o in s[..n]) + {s[n]};
    }
  }
}
