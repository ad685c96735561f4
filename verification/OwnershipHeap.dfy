/** The heap as an object whose methods are the operations of the source. */
module OwnershipHeap {
  import opened Options
  import opened Ownership

  /** What a handle's control block says. */
  lemma SharedBlock(w: World, h: ID)
    requires Inv(w) && h in w.handles && w.handles[h].block.Some?
    ensures w.handles[h].ptr.Some? && w.handles[h].block.value in w.blocks
    ensures var b := w.blocks[w.handles[h].block.value];
            b.count > 0 && (b.owned ==> w.handles[h].ptr.value in w.objs)
  {
    assert HandleOK(w, h) && BlockOK(w, w.handles[h].block.value);
  }

  lemma NextIsNew(w: World)
    requires Inv(w)
    ensures w.next !in w.handles && w.next !in w.colls && w.next !in w.objs
    ensures forall c :: c in w.colls ==> c < w.next
  {
  }

  /** What becomes of a handle's content `p` when it goes out of scope: a block that others
      share counts one less, the last one frees it, and deletes the object if it owns it. */
  ghost predicate Drops(w: World, t: World, p: Handle) {
    match p.block
    case None => t.blocks == w.blocks && t.objs == w.objs && t.deleted == w.deleted
    case Some(b) =>
      b in w.blocks && p.ptr.Some? &&
      if w.blocks[b].count > 1 then
        && t.blocks == w.blocks[b := Block(w.blocks[b].count - 1, w.blocks[b].owned)]
        && t.objs == w.objs && t.deleted == w.deleted
      else
        && t.blocks == w.blocks - {b}
        && t.objs == (if w.blocks[b].owned then w.objs - {p.ptr.value} else w.objs)
        && t.deleted == (if w.blocks[b].owned then w.deleted + [p.ptr.value] else w.deleted)
  }

  /** One more handle shares the block. */
  ghost function Shared(w: World, block: Option<ID>): World {
    if block.Some? && block.value in w.blocks
    then w.(blocks := w.blocks[block.value := Block(w.blocks[block.value].count + 1, w.blocks[block.value].owned)])
    else w
  }

  /** An untracked object has a control block. */
  lemma HasBlock(w: World, c: ID, h: ID)
    requires CanPush(w, c, h)
    ensures w.handles[h].ptr.Some? && w.handles[h].ptr.value in w.objs
    ensures w.objs[w.handles[h].ptr.value].index == -1 ==>
      w.handles[h].block.Some? && w.handles[h].block.value in w.blocks
  {
  }

  class Heap {
    var objs: map<ID, LinkObj>
    var blocks: map<ID, Block>
    var handles: map<ID, Handle>
    var colls: map<ID, Coll>
    ghost var made: set<ID>
    ghost var deleted: seq<ID>
    var next: ID

    ghost function State(): World
      reads this
    {
      World(objs, blocks, handles, colls, made, deleted, next)
    }

    ghost predicate Valid()
      reads this
    {
      Inv(State())
    }

    /** The object behind the handle exists: dereferencing is defined. */
    predicate Alive(h: ID)
      reads this
    {
      h in handles && handles[h].ptr.Some? && handles[h].ptr.value in objs
    }

    constructor ()
      ensures Valid() && objs == map[] && handles == map[] && colls == map[] && made == {} && deleted == []
    {
      objs, blocks, handles, colls, made, deleted, next := map[], map[], map[], map[], {}, [], 0;
    }

    // Handles

    method New(weight: real) returns (h: ID)
      requires Valid()
      modifies this
      ensures Valid() && State() == NewOwned(old(State()), weight) && h == old(next) + 2
      ensures objs == old(objs)[old(next) := LinkObj(-1, 0xffff_ffff, weight)]
      ensures blocks == old(blocks)[old(next) + 1 := Block(1, true)]
      ensures handles == old(handles)[h := Handle(Some(old(next)), Some(old(next) + 1))]
      ensures colls == old(colls) && deleted == old(deleted)
    {
      hide Inv, HandleOK;
      NewKeepsInv(State(), weight);
      var o, b := next, next + 1;
      h := next + 2;
      objs := objs[o := LinkObj(UNTRACKED, UNTRACKED_ID, weight)];
      made := made + {o};
      blocks := blocks[b := Block(1, true)];
      handles := handles[h := Handle(Some(o), Some(b))];
      next := next + 3;
    }

    method Copy(other: ID) returns (h: ID)
      requires Valid() && other in handles
      modifies this`handles, this`blocks, this`next
      ensures Valid() && State() == Copied(old(State()), other) && h == old(next) && h !in old(handles)
      ensures handles == old(handles)[h := old(handles)[other]]
      ensures old(handles)[other].block.None? ==> blocks == old(blocks)
      ensures old(handles)[other].block.Some? ==>
        var b := old(handles)[other].block.value;
        b in old(blocks) && blocks == old(blocks)[b := Block(old(blocks)[b].count + 1, old(blocks)[b].owned)]
    {
      hide Inv, HandleOK;
      CopyKeepsInv(State(), other);
      NextIsNew(State());
      if handles[other].block.Some? { SharedBlock(State(), other); }
      h := next;
      next := next + 1;
      var p := handles[other];
      handles := handles[h := p];
      if p.block.Some? {
        var b := p.block.value;
        blocks := blocks[b := blocks[b].(count := blocks[b].count + 1)];
      }
    }

    method Destroy(h: ID)
      requires Valid() && h in handles
      modifies this`handles, this`blocks, this`objs, this`deleted
      ensures HandleOK(old(State()), h)
      ensures Valid() && State() == Destroyed(old(State()), h)
      ensures handles == old(handles) - {h} && Drops(old(State()), State(), old(handles)[h])
    {
      hide Inv, HandleOK;
      ghost var w := State();
      DestroyKeepsInv(w, h);
      if handles[h].block.Some? { SharedBlock(w, h); }
      var p := handles[h];
      handles := handles - {h};
      if p.block.Some? {
        var b := p.block.value;
        blocks := blocks[b := blocks[b].(count := blocks[b].count - 1)];
        if blocks[b].count == 0 {
          if blocks[b].owned {
            Delete(p.ptr.value);
          }
          assert blocks - {b} == w.blocks - {b};
          blocks := blocks - {b};
        }
      }
    }

    /** `delete` of an object, which has to exist. */
    method Delete(o: ID)
      requires o in objs
      modifies this`objs, this`deleted
      ensures objs == old(objs) - {o} && deleted == old(deleted) + [o]
    {
      objs := objs - {o};
      deleted := deleted + [o];
    }

    method Assign(h: ID, other: ID)
      requires Valid() && h in handles && other in handles
      modifies this`handles, this`blocks, this`objs, this`deleted, this`next
      ensures Valid()
      ensures handles == old(handles)[h := old(handles)[other]]
      ensures var w := Swapped(Copied(old(State()), other), h, old(next));
              HandleOK(w, old(next)) && State() == Destroyed(w, old(next))
      ensures Drops(Shared(old(State()), old(handles)[other].block), State(), old(handles)[h])
    {
      hide Inv, HandleOK;
      if handles[other].block.Some? { SharedBlock(State(), other); }
      if handles[h].block.Some? { SharedBlock(State(), h); }
      var copy := Copy(other);
      SwapAndDestroy(h, copy);
    }

    /** Take over what `temporary` holds; it goes out of scope with the old content. */
    method SwapAndDestroy(h: ID, temporary: ID)
      requires Valid() && h in handles && temporary in handles && h != temporary
      modifies this`handles, this`blocks, this`objs, this`deleted
      ensures HandleOK(Swapped(old(State()), h, temporary), temporary)
      ensures Valid() && State() == Destroyed(Swapped(old(State()), h, temporary), temporary)
      ensures handles == old(handles)[h := old(handles)[temporary]] - {temporary}
      ensures Drops(old(State()), State(), old(handles)[h])
    {
      hide Inv, HandleOK;
      SwapKeepsInv(State(), h, temporary);
      handles := handles[h := handles[temporary]][temporary := handles[h]];
      Destroy(temporary);
    }

    /** Constructor from a raw pointer that somebody else manages, or null. */
    method FromRaw(p: Option<ID>) returns (h: ID)
      requires Valid() && (p.Some? ==> EntryTracked(State(), p.value))
      modifies this`handles, this`next
      ensures Valid() && State() == Borrow(old(State()), p) && h == old(next) && h !in old(handles)
      ensures handles == old(handles)[h := Handle(p, None)]
    {
      hide Inv, HandleOK;
      BorrowKeepsInv(State(), p);
      NextIsNew(State());
      h := next;
      next := next + 1;
      handles := handles[h := Handle(p, None)];
    }

    /** Move construction leaves a null handle behind. */
    method Move(other: ID) returns (h: ID)
      requires Valid() && other in handles
      modifies this`handles, this`next
      ensures Valid() && h == old(next)
      ensures handles == old(handles)[h := old(handles)[other]][other := Handle(None, None)]
    {
      hide Inv, HandleOK;
      h := FromRaw(None);
      SwapKeepsInv(State(), h, other);
      handles := handles[h := handles[other]][other := handles[h]];
    }

    method Unlink(h: ID)
      requires Valid() && h in handles
      modifies this`handles, this`blocks, this`objs, this`deleted, this`next
      ensures Valid() && handles == old(handles)[h := Handle(None, None)]
      ensures var w := Swapped(Borrow(old(State()), None), h, old(next));
              HandleOK(w, old(next)) && State() == Destroyed(w, old(next))
      ensures Drops(old(State()), State(), old(handles)[h])
    {
      hide Inv, HandleOK;
      var none := FromRaw(None);
      SwapAndDestroy(h, none);
    }

    /** A deep copy belongs to nobody but its own control block. */
    method Clone(h: ID) returns (k: ID)
      requires Valid() && Alive(h)
      modifies this
      ensures Valid() && State() == NewOwned(old(State()), old(objs[handles[h].ptr.value].weight)) && k == old(next) + 2
      ensures objs == old(objs)[old(next) := LinkObj(-1, 0xffff_ffff, old(objs[handles[h].ptr.value].weight))]
      ensures handles == old(handles)[k := Handle(Some(old(next)), Some(old(next) + 1))]
      ensures blocks == old(blocks)[old(next) + 1 := Block(1, true)] && colls == old(colls) && deleted == old(deleted)
    {
      k := New(objs[handles[h].ptr.value].weight);
    }

    // Collections

    method NewCollection(subset: bool) returns (c: ID)
      requires Valid()
      modifies this`colls, this`next
      ensures Valid() && c !in old(colls) && colls == old(colls)[c := Coll(0, subset, [])]
    {
      hide Inv;
      NextIsNew(State());
      c := next;
      EmptyCollectionKeepsInv(State(), State().(colls := colls[c := Coll(0, subset, [])], next := next + 1), c);
      colls := colls[c := Coll(0, subset, [])];
      next := next + 1;
    }

    method Create(c: ID) returns (outcome: Outcome, h: ID)
      requires Valid() && c in colls
      modifies this
      ensures Valid()
      ensures old(colls)[c].subset ==> outcome == SubsetCannotCreate && State() == old(State())
      ensures !old(colls)[c].subset ==>
        outcome == Done && State() == Created(old(State()), c, 1.0) && h == old(next) + 1
      ensures !old(colls)[c].subset ==>
        var coll := old(colls)[c];
        && objs == old(objs)[old(next) := LinkObj(|coll.entries|, coll.id, 1.0)]
        && colls == old(colls)[c := Coll(coll.id, false, coll.entries + [old(next)])]
        && handles == old(handles)[h := Handle(Some(old(next)), None)]
        && blocks == old(blocks) && deleted == old(deleted)
    {
      hide Inv;
      h := 0;
      if colls[c].subset {
        return SubsetCannotCreate, 0;
      }
      ghost var w := State();
      CreateKeepsInv(w, c, 1.0);
      var o := next;
      h := next + 1;
      objs := objs[o := LinkObj(UNTRACKED, UNTRACKED_ID, 1.0)];
      made := made + {o};
      colls := colls[c := colls[c].(entries := colls[c].entries + [o])];
      objs := objs[o := objs[o].(index := |colls[c].entries| - 1, collectionID := colls[c].id)];
      handles := handles[h := Handle(Some(o), None)];
      next := next + 2;
      outcome := Done;
      assert State() == Created(w, c, 1.0);
    }

    /** A handle to the element in a slot; the collection keeps managing it. */
    method At(c: ID, i: nat) returns (h: ID)
      requires Valid() && c in colls && i < |colls[c].entries|
      modifies this`handles, this`next
      ensures Valid() && State() == Borrow(old(State()), Some(colls[c].entries[i])) && h == old(next)
    {
      hide Inv;
      EntriesAreTracked(State(), c, i);
      h := FromRaw(Some(colls[c].entries[i]));
    }

    /** release: from now on the block only keeps track of itself. */
    method Release(h: ID) returns (p: Option<ID>)
      requires h in handles && (handles[h].block.Some? ==> handles[h].block.value in blocks)
      modifies this`blocks
      ensures p == handles[h].ptr
      ensures blocks == match handles[h].block
                        case None => old(blocks)
                        case Some(b) => old(blocks)[b := old(blocks)[b].(owned := false)]
    {
      if handles[h].block.Some? {
        var b := handles[h].block.value;
        blocks := blocks[b := blocks[b].(owned := false)];
      }
      p := handles[h].ptr;
    }

    /** push_back of a handle that may be changed: an untracked object is handed over
        to an owning collection, a subset collection borrows a tracked one. The
        argument is passed by value. */
    method PushBack(c: ID, h: ID) returns (outcome: Outcome)
      requires Valid() && c in colls && Alive(h)
      modifies this
      ensures Valid() && CanPush(old(State()), c, h)
      ensures outcome == PushOutcome(old(State()), c, h)
      ensures State() == Pushed(old(State()), c, h).(next := next) && next > old(next)
      ensures var o, coll := old(handles)[h].ptr.value, old(colls)[c];
        outcome == if old(objs)[o].index == -1 then (if coll.subset then NotTracked else Done)
                   else if coll.subset then Done else AlreadyInCollection
      ensures outcome != Done ==> colls == old(colls) && objs == old(objs) && blocks == old(blocks)
      ensures outcome == Done ==>
        var o, coll := old(handles)[h].ptr.value, old(colls)[c];
        && colls == old(colls)[c := Coll(coll.id, coll.subset, coll.entries + [o])]
        && objs == (if coll.subset then old(objs)
                    else old(objs)[o := LinkObj(|coll.entries|, coll.id, old(objs)[o].weight)])
        && (coll.subset ==> blocks == old(blocks))
        && (!coll.subset ==>
              var b := old(handles)[h].block;
              && b.Some? && b.value in old(blocks)
              && blocks == old(blocks)[b.value := Block(old(blocks)[b.value].count, false)])
      ensures handles == old(handles) && deleted == old(deleted)
    {
      hide Inv, HandleOK, CanPush, PushOutcome, Pushed, Destroyed;
      ghost var w := State();
      PushIsDefined(w, c, h);
      HasBlock(w, c, h);
      PushedIs(w, c, h);
      var argument := Copy(h);
      CopyThenPush(w, c, h);
      if !colls[c].subset {
        outcome := PushObject(c, argument);
      } else {
        outcome := PushImmutable(c, argument);
      }
      DestroyAfterPush(w, c, h, argument, State());
      Destroy(argument);
    }

    /** The body for owning collections, which copies the handle once more. */
    method PushObject(c: ID, argument: ID) returns (outcome: Outcome)
      requires Valid() && CanPush(State(), c, argument) && argument in handles && !colls[c].subset
      modifies this
      ensures Valid()
      ensures outcome == PushOutcome(old(State()), c, argument)
      ensures State() == Pushed(old(State()), c, argument).(next := next) && next > old(next)
    {
      hide Inv, HandleOK, Destroyed, CanPush, PushOutcome, Pushed;
      ghost var w := State();
      var obj := Copy(argument);
      CopyThenPush(w, c, argument);
      outcome := TakeObject(c, obj);
      DestroyAfterPush(w, c, argument, obj, State());
      Destroy(obj);
    }

    method TakeObject(c: ID, obj: ID) returns (outcome: Outcome)
      requires Valid() && CanPush(State(), c, obj) && !colls[c].subset
      modifies this`objs, this`blocks, this`colls
      ensures Valid()
      ensures outcome == PushOutcome(old(State()), c, obj) && State() == Pushed(old(State()), c, obj)
    {
      hide Inv, HandleOK;
      PushKeepsInv(State(), c, obj);
      var o := handles[obj].ptr.value;
      if objs[o].index == UNTRACKED {
        objs := objs[o := objs[o].(index := |colls[c].entries|, collectionID := colls[c].id)];
        var p := Release(obj);
        colls := colls[c := colls[c].(entries := colls[c].entries + [p.value])];
        outcome := Done;
      } else {
        outcome := AlreadyInCollection;
      }
    }

    /** push_back of an immutable handle: only subset collections take it. */
    method PushImmutable(c: ID, h: ID) returns (outcome: Outcome)
      requires Valid() && c in colls && Alive(h)
      modifies this
      ensures Valid() && CanPush(old(State()), c, h)
      ensures if old(colls)[c].subset then
                outcome == PushOutcome(old(State()), c, h) && State() == Pushed(old(State()), c, h).(next := next)
              else
                outcome == OnlyInSubset && State() == old(State()).(next := next)
      ensures next > old(next)
      ensures !old(colls)[c].subset || old(objs[handles[h].ptr.value].index) == -1 ==>
        outcome == (if old(colls)[c].subset then NotTracked else OnlyInSubset) && colls == old(colls)
      ensures old(colls)[c].subset && old(objs[handles[h].ptr.value].index) != -1 ==>
        outcome == Done &&
        colls == old(colls)[c := Coll(old(colls)[c].id, true, old(colls)[c].entries + [old(handles)[h].ptr.value])]
      ensures objs == old(objs) && blocks == old(blocks) && handles == old(handles) && deleted == old(deleted)
    {
      hide Inv, HandleOK, CanPush, PushOutcome, Pushed, Destroyed;
      ghost var w := State();
      PushIsDefined(w, c, h);
      PushedIs(w, c, h);
      var argument := Copy(h);
      CopyThenPush(w, c, h);
      if !colls[c].subset {
        outcome := OnlyInSubset;
        DestroyCopy(w, h, argument, State());
      } else {
        outcome := BorrowObject(c, argument);
        DestroyAfterPush(w, c, h, argument, State());
      }
      Destroy(argument);
    }

    method BorrowObject(c: ID, argument: ID) returns (outcome: Outcome)
      requires Valid() && CanPush(State(), c, argument) && argument in handles && colls[c].subset
      modifies this
      ensures Valid()
      ensures outcome == PushOutcome(old(State()), c, argument)
      ensures State() == Pushed(old(State()), c, argument).(next := next) && next > old(next)
    {
      hide Inv, HandleOK, Destroyed, CanPush, PushOutcome, Pushed;
      ghost var w := State();
      var obj := Copy(argument);
      CopyThenPush(w, c, argument);
      outcome := BorrowEntry(c, obj);
      DestroyAfterPush(w, c, argument, obj, State());
      Destroy(obj);
    }

    method BorrowEntry(c: ID, obj: ID) returns (outcome: Outcome)
      requires Valid() && CanPush(State(), c, obj) && colls[c].subset
      modifies this`blocks, this`colls
      ensures Valid()
      ensures outcome == PushOutcome(old(State()), c, obj) && State() == Pushed(old(State()), c, obj)
    {
      hide Inv, HandleOK;
      PushKeepsInv(State(), c, obj);
      IndexIsSlot(State(), handles[obj].ptr.value);
      if objs[handles[obj].ptr.value].index < 0 {
        return NotTracked;
      }
      if handles[obj].block.Some? { ReleaseIsHarmless(State(), obj); }
      ghost var before := blocks;
      var p := Release(obj);
      assert blocks == before;
      colls := colls[c := colls[c].(entries := colls[c].entries + [p.value])];
      outcome := Done;
    }

    // The life of a collection

    method SetID(c: ID, id: nat)
      requires Valid() && c in colls
      modifies this`objs, this`colls
      ensures Valid() && State() == Relabelled(old(State()), c, id)
      ensures colls == old(colls)[c := Coll(id, old(colls)[c].subset, old(colls)[c].entries)]
      ensures objs.Keys == old(objs).Keys
      ensures forall o :: o in old(objs) ==>
        objs[o] == if !old(colls)[c].subset && o in old(colls)[c].entries
                   then LinkObj(old(objs)[o].index, id, old(objs)[o].weight) else old(objs)[o]
    {
      hide Inv;
      ghost var w := State();
      RelabelKeepsInv(w, c, id);
      colls := colls[c := colls[c].(id := id)];
      if !colls[c].subset {
        var es := colls[c].entries;
        OwnedEntriesExist(w, c);
        var i := 0;
        while i < |es|
          invariant 0 <= i <= |es| && objs.Keys == w.objs.Keys && colls == w.colls[c := w.colls[c].(id := id)]
          invariant forall o :: o in w.objs ==>
            objs[o] == if o in es[..i] then w.objs[o].(collectionID := id) else w.objs[o]
        {
          objs := objs[es[i] := objs[es[i]].(collectionID := id)];
          i := i + 1;
        }
        assert es[..i] == es;
        assert objs == Relabelled(w, c, id).objs;
      }
      assert State() == Relabelled(w, c, id);
    }

    /** Owning collections delete their objects one by one, subset collections forget them. */
    method Clear(c: ID)
      requires Valid() && c in colls
      modifies this`objs, this`deleted, this`colls
      ensures Valid()
      ensures State() == if old(colls)[c].subset then WithEntries(old(State()), c, []) else Emptied(old(State()), c)
      ensures colls == old(colls)[c := Coll(old(colls)[c].id, old(colls)[c].subset, [])]
      ensures old(colls)[c].subset ==> objs == old(objs) && deleted == old(deleted)
      ensures !old(colls)[c].subset ==>
        var es := old(colls)[c].entries;
        deleted == old(deleted) + es && objs == map o | o in old(objs) && o !in es :: old(objs)[o]
    {
      hide Inv;
      ghost var w := State();
      if colls[c].subset {
        SubsetEntriesKeepInv(w, c, []);
      } else {
        ClearKeepsInv(w, c);
        OwnedEntriesExist(w, c);
        DeleteAll(colls[c].entries);
        assert objs == Emptied(w, c).objs;
      }
      colls := colls[c := colls[c].(entries := [])];
    }

    method DeleteAll(entries: seq<ID>)
      requires forall i, j :: 0 <= i < j < |entries| ==> entries[i] != entries[j]
      requires forall o :: o in entries ==> o in objs
      modifies this`objs, this`deleted
      ensures objs == (map o | o in old(objs) && o !in entries :: old(objs)[o]) && deleted == old(deleted) + entries
    {
      var i := 0;
      while i < |entries|
        invariant 0 <= i <= |entries| && deleted == old(deleted) + entries[..i]
        invariant objs == map o | o in old(objs) && o !in entries[..i] :: old(objs)[o]
      {
        assert entries[i] !in entries[..i];
        Delete(entries[i]);
        assert entries[..i + 1] == entries[..i] + [entries[i]];
        i := i + 1;
      }
      assert entries[..i] == entries;
    }

    /** The destructor tells the storage how to clean up. */
    method DestroyCollection(c: ID)
      requires Valid() && c in colls
      modifies this`objs, this`deleted, this`colls
      ensures Valid() && colls == old(colls) - {c} && handles == old(handles) && blocks == old(blocks)
      ensures old(colls)[c].subset ==> objs == old(objs) && deleted == old(deleted)
      ensures !old(colls)[c].subset ==>
        var es := old(colls)[c].entries;
        deleted == old(deleted) + es && objs == map o | o in old(objs) && o !in es :: old(objs)[o]
    {
      hide Inv, Emptied;
      ghost var before := State();
      Clear(c);
      CleanedUp(before, c);
      NextIsNew(State());
      EmptyCollectionKeepsInv(State(), State().(colls := colls - {c}), c);
      colls := colls - {c};
    }

    /** A collection that contains elements keeps its character. */
    method SetSubsetCollection(c: ID, subset: bool) returns (outcome: Outcome)
      requires Valid() && c in colls
      modifies this`colls
      ensures Valid()
      ensures outcome == if old(colls)[c].subset != subset && old(colls)[c].entries != [] then NotEmpty else Done
      ensures colls == if outcome == Done then old(colls)[c := old(colls)[c].(subset := subset)] else old(colls)
    {
      hide Inv;
      if colls[c].subset != subset && colls[c].entries != [] {
        return NotEmpty;
      }
      if colls[c].subset == subset {
        assert colls[c := colls[c].(subset := subset)] == colls;
      } else {
        NextIsNew(State());
        EmptyCollectionKeepsInv(State(), State().(colls := colls[c := colls[c].(subset := subset)]), c);
      }
      colls := colls[c := colls[c].(subset := subset)];
      outcome := Done;
    }
  }

  datatype Op =
    | New(weight: real) | Copy(h: ID) | Assign(h: ID, other: ID) | Move(h: ID) | Unlink(h: ID) | Clone(h: ID)
    | Destroy(h: ID) | NewCollection(subset: bool) | Create(c: ID) | At(c: ID, i: nat) | PushBack(c: ID, h: ID)
    | PushImmutable(c: ID, h: ID) | SetID(c: ID, id: nat) | Clear(c: ID) | SetSubset(c: ID, subset: bool)
    | DestroyCollection(c: ID)

  /** The operation is defined: names exist, and objects that are dereferenced are alive. */
  predicate Defined(heap: Heap, op: Op)
    reads heap
  {
    match op
    case New(_) => true
    case Copy(h) => h in heap.handles
    case Assign(h, other) => h in heap.handles && other in heap.handles
    case Move(h) => h in heap.handles
    case Unlink(h) => h in heap.handles
    case Clone(h) => heap.Alive(h)
    case Destroy(h) => h in heap.handles
    case NewCollection(_) => true
    case Create(c) => c in heap.colls
    case At(c, i) => c in heap.colls && i < |heap.colls[c].entries|
    case PushBack(c, h) => c in heap.colls && heap.Alive(h)
    case PushImmutable(c, h) => c in heap.colls && heap.Alive(h)
    case SetID(c, _) => c in heap.colls
    case Clear(c) => c in heap.colls
    case SetSubset(c, _) => c in heap.colls
    case DestroyCollection(c) => c in heap.colls
  }

  /** Every run of defined operations keeps the invariant, whatever their outcome. */
  method Run(heap: Heap, ops: seq<Op>)
    requires heap.Valid()
    modifies heap
    ensures heap.Valid()
  {
    hide Inv;
    for i := 0 to |ops|
      invariant heap.Valid()
    {
      if Defined(heap, ops[i]) {
        match ops[i]
        case New(weight) => var h := heap.New(weight);
        case Copy(h) => var k := heap.Copy(h);
        case Assign(h, other) => heap.Assign(h, other);
        case Move(h) => var k := heap.Move(h);
        case Unlink(h) => heap.Unlink(h);
        case Clone(h) => var k := heap.Clone(h);
        case Destroy(h) => heap.Destroy(h);
        case NewCollection(subset) => var c := heap.NewCollection(subset);
        case Create(c) => var o, h := heap.Create(c);
        case At(c, j) => var h := heap.At(c, j);
        case PushBack(c, h) => var o := heap.PushBack(c, h);
        case PushImmutable(c, h) => var o := heap.PushImmutable(c, h);
        case SetID(c, id) => heap.SetID(c, id);
        case Clear(c) => heap.Clear(c);
        case SetSubset(c, subset) => var o := heap.SetSubsetCollection(c, subset);
        case DestroyCollection(c) => heap.DestroyCollection(c);
      }
    }
  }

  lemma CleanedUp(w: World, c: ID)
    requires c in w.colls
    ensures var t := Emptied(w, c);
            t.colls == w.colls[c := w.colls[c].(entries := [])] && t.deleted == w.deleted + w.colls[c].entries
            && t.handles == w.handles && t.blocks == w.blocks && t.next == w.next && t.made == w.made
  {
  }

  lemma OwnedEntriesExist(w: World, c: ID)
    requires Inv(w) && c in w.colls && !w.colls[c].subset
    ensures forall i, j :: 0 <= i < j < |w.colls[c].entries| ==> w.colls[c].entries[i] != w.colls[c].entries[j]
    ensures forall o :: o in w.colls[c].entries ==> o in w.objs
  {
    EntriesAreDistinct(w, c);
  }

  lemma EntriesAreTracked(w: World, c: ID, i: nat)
    requires Inv(w) && c in w.colls && i < |w.colls[c].entries|
    ensures EntryTracked(w, w.colls[c].entries[i])
  {
  }

  lemma IndexIsSlot(w: World, o: ID)
    requires Inv(w) && o in w.objs
    ensures w.objs[o].index == UNTRACKED || w.objs[o].index >= 0
  {
    assert ObjectOwned(w, o);
  }
}
