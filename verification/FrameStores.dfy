/** The frame data of both backends are one-shot stores: every buffer is handed out at
    most once, and what is not handed out is deleted, once. */
module FrameStores {
  import opened Options

  datatype Fate = Waiting | HandedOut | Deleted

  /** The buffers of one fate. */
  function Bag(buffers: seq<nat>, fate: seq<Fate>, f: Fate): multiset<nat>
    requires |fate| == |buffers|
  {
    BagTo(buffers, fate, f, |buffers|)
  }

  /** Those among the first `n`. */
  function BagTo(buffers: seq<nat>, fate: seq<Fate>, f: Fate, n: nat): multiset<nat>
    requires n <= |fate| == |buffers|
  {
    if n == 0 then multiset{} else Plus(BagTo(buffers, fate, f, n - 1), multiset{buffers[n - 1]}, fate[n - 1] == f)
  }

  function Plus(a: multiset<nat>, x: multiset<nat>, here: bool): multiset<nat> { if here then a + x else a }

  function Sum(a: multiset<nat>, b: multiset<nat>, c: multiset<nat>): multiset<nat> { a + b + c }

  lemma BagsAreAll(buffers: seq<nat>, fate: seq<Fate>)
    requires |fate| == |buffers|
    ensures Bag(buffers, fate, Waiting) + Bag(buffers, fate, HandedOut) + Bag(buffers, fate, Deleted)
         == multiset(buffers)
  {
    BagsAreAllTo(buffers, fate, |buffers|);
    assert buffers[..|buffers|] == buffers;
  }

  lemma {:induction false} BagsAreAllTo(buffers: seq<nat>, fate: seq<Fate>, n: nat)
    requires n <= |fate| == |buffers|
    ensures Sum(BagTo(buffers, fate, Waiting, n), BagTo(buffers, fate, HandedOut, n), BagTo(buffers, fate, Deleted, n))
         == multiset(buffers[..n])
  {
    if n > 0 {
      BagsAreAllTo(buffers, fate, n - 1);
      var k, x := n - 1, multiset{buffers[n - 1]};
      MultisetOfPrefix(buffers, k);
      hide Plus, Sum;
      AddToOne(BagTo(buffers, fate, Waiting, k), BagTo(buffers, fate, HandedOut, k), BagTo(buffers, fate, Deleted, k),
               x, fate[k]);
    }
  }

  lemma MultisetOfPrefix(buffers: seq<nat>, k: nat)
    requires k < |buffers|
    ensures multiset(buffers[..k + 1]) == multiset(buffers[..k]) + multiset{buffers[k]}
  {
    assert buffers[..k + 1] == buffers[..k] + [buffers[k]];
  }

  lemma AddToOne(a: multiset<nat>, b: multiset<nat>, c: multiset<nat>, x: multiset<nat>, f: Fate)
    ensures Sum(Plus(a, x, f == Waiting), Plus(b, x, f == HandedOut), Plus(c, x, f == Deleted)) == Sum(a, b, c) + x
  {
    match f
    case Waiting => assert a + x + b + c == a + b + c + x;
    case HandedOut => assert a + (b + x) + c == a + b + c + x;
    case Deleted => assert a + b + (c + x) == a + b + c + x;
  }

  /** One buffer meets another fate. */
  lemma {:induction false} BagMoves(buffers: seq<nat>, fate: seq<Fate>, i: nat, to: Fate, f: Fate, n: nat)
    requires n <= |fate| == |buffers| && i < |buffers| && fate[i] != f
    ensures BagTo(buffers, fate[i := to], f, n)
         == Plus(BagTo(buffers, fate, f, n), multiset{buffers[i]}, i < n && to == f)
  {
    hide Plus;
    var x := multiset{buffers[i]};
    if n == 0 {
      PlusNone(multiset{}, x);
    } else {
      var k := n - 1;
      var a := BagTo(buffers, fate, f, k);
      BagMoves(buffers, fate, i, to, f, k);
      PlusNone(a, x);
      if i != k { PlusTwice(a, x, multiset{buffers[k]}, i < k && to == f, fate[k] == f); }
    }
  }

  lemma PlusNone(a: multiset<nat>, x: multiset<nat>)
    ensures Plus(a, x, false) == a
  {
  }

  lemma PlusTwice(a: multiset<nat>, x: multiset<nat>, y: multiset<nat>, h: bool, k: bool)
    ensures Plus(Plus(a, x, h), y, k) == Plus(Plus(a, y, k), x, h)
  {
    assert a + x + y == a + y + x;
  }

  lemma Moved(buffers: seq<nat>, fate: seq<Fate>, i: nat, to: Fate)
    requires |fate| == |buffers| && i < |buffers| && fate[i] == Waiting && to != Waiting
    ensures var f := fate[i := to];
      && Bag(buffers, f, HandedOut) == Plus(Bag(buffers, fate, HandedOut), multiset{buffers[i]}, to == HandedOut)
      && Bag(buffers, f, Deleted) == Plus(Bag(buffers, fate, Deleted), multiset{buffers[i]}, to == Deleted)
  {
    hide BagTo;
    BagMoves(buffers, fate, i, to, HandedOut, |buffers|);
    BagMoves(buffers, fate, i, to, Deleted, |buffers|);
  }

  lemma EmptyBag(buffers: seq<nat>, fate: seq<Fate>, f: Fate)
    requires |fate| == |buffers| && forall i :: 0 <= i < |fate| ==> fate[i] != f
    ensures Bag(buffers, fate, f) == multiset{}
  {
    EmptyBagTo(buffers, fate, f, |buffers|);
  }

  lemma {:induction false} EmptyBagTo(buffers: seq<nat>, fate: seq<Fate>, f: Fate, n: nat)
    requires n <= |fate| == |buffers| && forall i :: 0 <= i < |fate| ==> fate[i] != f
    ensures BagTo(buffers, fate, f, n) == multiset{}
  {
    if n > 0 { EmptyBagTo(buffers, fate, f, n - 1); }
  }

  ghost predicate Distinct(names: seq<string>) { forall i, j :: 0 <= i < j < |names| ==> names[i] != names[j] }

  /** What a store has to offer: the waiting buffers by name. */
  ghost function Offer(names: seq<string>, buffers: seq<nat>, fate: seq<Fate>): map<string, nat>
    requires |names| == |buffers| == |fate| && Distinct(names)
  {
    map n | n in names && fate[At(names, n)] == Waiting :: buffers[At(names, n)]
  }

  ghost function At(names: seq<string>, n: string): (i: nat)
    requires n in names
    ensures i < |names| && names[i] == n
  {
    var i :| 0 <= i < |names| && names[i] == n; i
  }

  /** Taking or deleting a waiting buffer withdraws it. */
  lemma OfferShrinks(names: seq<string>, buffers: seq<nat>, fate: seq<Fate>, i: nat, to: Fate)
    requires |names| == |buffers| == |fate| && Distinct(names) && i < |names| && fate[i] == Waiting && to != Waiting
    ensures names[i] in Offer(names, buffers, fate) && Offer(names, buffers, fate)[names[i]] == buffers[i]
    ensures Offer(names, buffers, fate[i := to]) == Offer(names, buffers, fate) - {names[i]}
  {
    assert At(names, names[i]) == i;
    forall n | n in names && n != names[i] ensures At(names, n) != i {}
  }

  /** The names with a waiting buffer, in order. */
  function WaitingNames(names: seq<string>, fate: seq<Fate>): seq<string>
    requires |names| == |fate|
  {
    if names == [] then []
    else
      var n := |names| - 1;
      WaitingNames(names[..n], fate[..n]) + if fate[n] == Waiting then [names[n]] else []
  }

  lemma AtInFront(names: seq<string>, n: string)
    requires Distinct(names) && names != []
    ensures var k := |names| - 1;
      && (n in names <==> n in names[..k] || n == names[k])
      && (n in names[..k] ==> At(names, n) == At(names[..k], n) && n != names[k])
  {
    var k := |names| - 1;
    if n in names[..k] {
      assert names[..k][At(names[..k], n)] == names[At(names[..k], n)];
    }
    if n in names {
      var i := At(names, n);
      if i < k { assert names[..k][i] == n; }
    }
  }

  lemma OfferLast(names: seq<string>, buffers: seq<nat>, fate: seq<Fate>, n: string)
    requires |names| == |buffers| == |fate| > 0 && Distinct(names)
    ensures var k := |names| - 1;
      && (n in Offer(names, buffers, fate) <==>
          n in Offer(names[..k], buffers[..k], fate[..k]) || (n == names[k] && fate[k] == Waiting))
      && (n in Offer(names[..k], buffers[..k], fate[..k]) ==> n != names[k])
  {
    AtInFront(names, n);
  }

  lemma {:induction false} WaitingNamesAreOffered(names: seq<string>, buffers: seq<nat>, fate: seq<Fate>)
    requires |names| == |buffers| == |fate| && Distinct(names)
    ensures forall n :: n in WaitingNames(names, fate) <==> n in Offer(names, buffers, fate)
    ensures Distinct(WaitingNames(names, fate))
  {
    if names != [] {
      var k := |names| - 1;
      var front := WaitingNames(names[..k], fate[..k]);
      WaitingNamesAreOffered(names[..k], buffers[..k], fate[..k]);
      assert WaitingNames(names, fate) == front + if fate[k] == Waiting then [names[k]] else [];
      hide Offer, WaitingNames;
      forall n ensures n in WaitingNames(names, fate) <==> n in Offer(names, buffers, fate) {
        OfferLast(names, buffers, fate, n);
      }
      OfferLast(names, buffers, fate, names[k]);
      assert forall j :: 0 <= j < |front| ==> front[j] in front;
    }
  }

  /** Names that a limit leaves; an empty limit leaves all. */
  predicate Allowed(limit: seq<string>, name: string) { limit == [] || name in limit }

  function Limited(names: seq<string>, limit: seq<string>): seq<Fate> {
    seq(|names|, i requires 0 <= i < |names| => if Allowed(limit, names[i]) then Waiting else Deleted)
  }

  function AllWaiting(n: nat): (r: seq<Fate>) ensures |r| == n { seq(n, _ => Waiting) }

  method FindName(names: seq<string>, name: string) returns (i: nat)
    requires name in names
    ensures i < |names| && names[i] == name
  {
    i := 0;
    while names[i] != name
      invariant i < |names| && forall j :: 0 <= j < i ==> names[j] != name
      decreases |names| - i
    {
      i := i + 1;
    }
  }

  lemma NotOffered(names: seq<string>, buffers: seq<nat>, fate: seq<Fate>, name: string)
    requires |names| == |buffers| == |fate| && Distinct(names)
    ensures name !in names ==> name !in Offer(names, buffers, fate)
    ensures name !in names ==> Offer(names, buffers, fate) - {name} == Offer(names, buffers, fate)
  {
  }

  lemma NoMore(names: seq<string>, buffers: seq<nat>, fate: seq<Fate>, i: nat)
    requires |names| == |buffers| == |fate| && Distinct(names) && i < |names|
    ensures fate[i] != Waiting ==> names[i] !in Offer(names, buffers, fate)
    ensures fate[i] != Waiting ==> Offer(names, buffers, fate) - {names[i]} == Offer(names, buffers, fate)
  {
    assert At(names, names[i]) == i;
  }

  /** Blocks and flags, shifted by one, are as the fate of the buffers says. */
  ghost predicate Shifted(blocks: seq<Option<nat>>, flags: seq<int>, buffers: seq<nat>, fate: seq<Fate>) {
    && |blocks| == |flags| == |buffers| + 1 && |fate| == |buffers|
    && forall i :: 0 <= i < |buffers| ==>
         blocks[i + 1] == Some(buffers[i]) && (flags[i + 1] != 0 <==> fate[i] == Waiting)
  }

  lemma FlagCleared(blocks: seq<Option<nat>>, flags: seq<int>, buffers: seq<nat>, fate: seq<Fate>, i: nat, to: Fate)
    requires Shifted(blocks, flags, buffers, fate) && i < |buffers| && to != Waiting
    ensures Shifted(blocks, flags[i + 1 := 0], buffers, fate[i := to])
  {
  }

  lemma FlagAt(blocks: seq<Option<nat>>, flags: seq<int>, buffers: seq<nat>, fate: seq<Fate>, i: nat)
    requires Shifted(blocks, flags, buffers, fate) && i < |buffers|
    ensures |blocks| == |flags| == |buffers| + 1 == |fate| + 1
    ensures blocks[i + 1] == Some(buffers[i]) && (flags[i + 1] != 0 <==> fate[i] == Waiting)
  {
  }

  /** In the loop of the destructor: the buffers before `n` are gone. */
  ghost predicate Going(before: seq<Fate>, fate: seq<Fate>, n: nat) {
    |before| == |fate| && forall i :: 0 <= i < |fate| ==>
      fate[i] == if i < n && before[i] == Waiting then Deleted else before[i]
  }

  // ---------------------------------------------------------------------
  // SIO: blocks with flags, unpacked on demand

  class SIOFrameData {
    const names: seq<string>
    const limit: seq<string>
    /** The buffers that unpacking creates. */
    const packed: seq<nat>
    /** The first block is that of the parameters. */
    var blocks: seq<Option<nat>>
    var availableBlocks: seq<int>
    ghost var fate: seq<Fate>
    ghost var handedOut: multiset<nat>
    ghost var deleted: multiset<nat>

    ghost predicate Unpacked()
      reads this
    {
      blocks != []
    }

    ghost predicate Valid()
      reads this
    {
      && |names| == |packed| == |fate| && Distinct(names)
      && (blocks != [] ==> Matches())
      && (blocks == [] ==> fate == Limited(names, limit) && handedOut == deleted == multiset{})
    }

    ghost predicate Matches()
      requires |names| == |packed| == |fate|
      reads this
    {
      && Shifted(blocks, availableBlocks, packed, fate)
      && handedOut == Bag(packed, fate, HandedOut) && deleted == Bag(packed, fate, Deleted)
    }

    ghost function Offered(): map<string, nat>
      requires Valid()
      reads this
    {
      Offer(names, packed, fate)
    }

    constructor (names: seq<string>, packed: seq<nat>, limit: seq<string>)
      requires |names| == |packed| && Distinct(names)
      ensures Valid() && !Unpacked() && this.names == names && this.packed == packed && this.limit == limit
    {
      this.names, this.packed, this.limit := names, packed, limit;
      blocks, availableBlocks := [], [];
      fate, handedOut, deleted := Limited(names, limit), multiset{}, multiset{};
    }

    /** Names to which reading is limited must be there, otherwise there is no frame data. */
    static method Open(names: seq<string>, packed: seq<nat>, limit: seq<string>) returns (r: Option<SIOFrameData>)
      requires |names| == |packed| && Distinct(names)
      ensures r.Some? <==> forall n :: n in limit ==> n in names
      ensures r.Some? ==> fresh(r.value) && r.value.Valid() && r.value.packed == packed
      ensures r.Some? ==> r.value.Offered() == Offer(names, packed, Limited(names, limit))
      ensures r.Some? ==>
        && (forall n :: n in r.value.Offered() ==> n in names)
        && forall i :: 0 <= i < |names| ==>
             && (names[i] in r.value.Offered() <==> limit == [] || names[i] in limit)
             && (names[i] in r.value.Offered() ==> r.value.Offered()[names[i]] == packed[i])
    {
      OfferIs(names, packed, Limited(names, limit));
      for i := 0 to |limit|
        invariant forall j :: 0 <= j < i ==> limit[j] in names
      {
        if limit[i] !in names { return None; }
      }
      var data := new SIOFrameData(names, packed, limit);
      r := Some(data);
    }

    /** Creates the blocks once, and deletes those outside the limit at once. */
    method UnpackBuffers()
      requires Valid()
      modifies this
      ensures Valid() && Unpacked() && fate == old(fate) && handedOut == old(handedOut)
      ensures old(Unpacked()) ==> deleted == old(deleted)
    {
      hide Bag, Offer, Shifted, Limited, Distinct;
      if blocks != [] { return; }
      var created := [None];
      for i := 0 to |packed|
        invariant |created| == i + 1 && forall j :: 0 <= j < i ==> created[j + 1] == Some(packed[j])
      {
        created := created + [Some(packed[i])];
      }
      blocks := created;
      availableBlocks := seq(|blocks|, _ => 1);
      ghost var was := AllWaiting(|packed|);
      EmptyBag(packed, was, HandedOut);
      EmptyBag(packed, was, Deleted);
      AllFlagged(blocks, availableBlocks, packed);
      LimitStart(names, limit);
      if limit != [] { DeleteOutside(was); }
    }

    method DeleteOutside(ghost was: seq<Fate>)
      requires |names| == |packed| == |fate| && limit != [] && fate == Limited(names, limit)
      requires LimitedUpTo(names, limit, was, 0) && Shifted(blocks, availableBlocks, packed, was)
      requires Bag(packed, was, HandedOut) == multiset{} && deleted == Bag(packed, was, Deleted)
      requires handedOut == multiset{}
      modifies this`availableBlocks, this`deleted
      ensures Matches() && handedOut == old(handedOut)
    {
      hide Bag, Shifted, Limited;
      ghost var left := was;
      ShiftedLengths(blocks, availableBlocks, packed, was);
      for i := 1 to |blocks|
        invariant LimitedUpTo(names, limit, left, i - 1) && Shifted(blocks, availableBlocks, packed, left)
        invariant Bag(packed, left, HandedOut) == multiset{} && deleted == Bag(packed, left, Deleted)
      {
        FlagAt(blocks, availableBlocks, packed, left, i - 1);
        if names[i - 1] !in limit {
          Moved(packed, left, i - 1, Deleted);
          FlagCleared(blocks, availableBlocks, packed, left, i - 1, Deleted);
          deleted := deleted + multiset{blocks[i].value};
          availableBlocks := availableBlocks[i := 0];
          left := left[i - 1 := Deleted];
        }
      }
      LimitEnd(names, limit, left);
    }

    method GetCollectionBuffers(name: string) returns (r: Option<nat>)
      requires Valid()
      modifies this
      ensures Valid() && Unpacked()
      ensures r == if name in old(Offered()) then Some(old(Offered())[name]) else None
      ensures Offered() == old(Offered()) - {name}
      ensures handedOut == old(handedOut) + if r.Some? then multiset{r.value} else multiset{}
      ensures old(Unpacked()) ==> deleted == old(deleted)
    {
      hide Bag, Offer, At, Shifted, Limited, Distinct;
      UnpackBuffers();
      NotOffered(names, packed, fate, name);
      if name !in names { return None; }
      var i := FindName(names, name);
      var index := i + 1;
      NoMore(names, packed, fate, i);
      FlagAt(blocks, availableBlocks, packed, fate, i);
      if availableBlocks[index] == 0 { return None; }
      HandOut(i);
      return blocks[index];
    }

    /** The buffer at a place is marked as handed out. */
    method HandOut(i: nat)
      requires Valid() && Unpacked() && i < |names| && fate[i] == Waiting
      modifies this
      ensures Valid() && blocks == old(blocks) && deleted == old(deleted)
      ensures names[i] in old(Offered()) && old(Offered())[names[i]] == packed[i]
      ensures Offered() == old(Offered()) - {names[i]} && handedOut == old(handedOut) + multiset{packed[i]}
    {
      hide Bag, Offer, At, Shifted, Limited, Distinct;
      FlagAt(blocks, availableBlocks, packed, fate, i);
      OfferShrinks(names, packed, fate, i, HandedOut);
      Moved(packed, fate, i, HandedOut);
      FlagCleared(blocks, availableBlocks, packed, fate, i, HandedOut);
      availableBlocks := availableBlocks[i + 1 := 0];
      fate := fate[i := HandedOut];
      handedOut := handedOut + multiset{packed[i]};
    }

    method GetAvailableCollections() returns (r: seq<string>)
      requires Valid()
      modifies this
      ensures Valid() && Unpacked() && Offered() == old(Offered()) && handedOut == old(handedOut)
      ensures Distinct(r) && forall n :: n in r <==> n in Offered()
    {
      hide Bag, Offer, Shifted;
      UnpackBuffers();
      ShiftedLengths(blocks, availableBlocks, packed, fate);
      r := [];
      for i := 1 to |blocks|
        invariant |blocks| == |names| + 1 == |fate| + 1
        invariant r == WaitingNames(names[..i - 1], fate[..i - 1])
        invariant Valid() && Unpacked() && fate == old(fate) && handedOut == old(handedOut)
      {
        assert names[..i][..i - 1] == names[..i - 1] && fate[..i][..i - 1] == fate[..i - 1];
        FlagAt(blocks, availableBlocks, packed, fate, i - 1);
        if availableBlocks[i] != 0 { r := r + [names[i - 1]]; }
      }
      assert names[..|names|] == names && fate[..|names|] == fate;
      WaitingNamesAreOffered(names, packed, fate);
    }

    /** The destructor. Of unpacked buffers each was handed out or deleted, once. */
    method Destroy()
      requires Valid()
      modifies this
      ensures handedOut == old(handedOut)
      ensures handedOut + deleted == if Unpacked() then multiset(packed) else multiset{}
    {
      hide Bag, Offer, Shifted;
      if blocks == [] { return; }
      ghost var before := fate;
      assert |blocks| == |packed| + 1 by { ShiftedLengths(blocks, availableBlocks, packed, fate); }
      for i := 1 to |blocks|
        invariant blocks == old(blocks) && availableBlocks == old(availableBlocks) && handedOut == old(handedOut)
        invariant |blocks| == |packed| + 1 && Shifted(blocks, availableBlocks, packed, before)
        invariant Going(before, fate, i - 1) && |fate| == |packed|
        invariant handedOut == Bag(packed, fate, HandedOut) && deleted == Bag(packed, fate, Deleted)
      {
        FlagAt(blocks, availableBlocks, packed, before, i - 1);
        if availableBlocks[i] != 0 {
          Moved(packed, fate, i - 1, Deleted);
          deleted := deleted + multiset{blocks[i].value};
          fate := fate[i - 1 := Deleted];
        }
      }
      EmptyBag(packed, fate, Waiting);
      BagsAreAll(packed, fate);
    }
  }

  lemma ShiftedLengths(blocks: seq<Option<nat>>, flags: seq<int>, buffers: seq<nat>, fate: seq<Fate>)
    requires Shifted(blocks, flags, buffers, fate)
    ensures |blocks| == |flags| == |buffers| + 1
  {
  }

  lemma AllFlagged(blocks: seq<Option<nat>>, flags: seq<int>, buffers: seq<nat>)
    requires |blocks| == |buffers| + 1 && flags == seq(|blocks|, _ => 1)
    requires forall i :: 0 <= i < |buffers| ==> blocks[i + 1] == Some(buffers[i])
    ensures Shifted(blocks, flags, buffers, AllWaiting(|buffers|))
  {
  }

  /** The limit has been applied to the first `n` names. */
  ghost predicate LimitedUpTo(names: seq<string>, limit: seq<string>, fate: seq<Fate>, n: nat) {
    |fate| == |names| && forall i :: 0 <= i < |names| ==>
      fate[i] == if i < n && names[i] !in limit then Deleted else Waiting
  }

  lemma LimitStart(names: seq<string>, limit: seq<string>)
    ensures LimitedUpTo(names, limit, AllWaiting(|names|), 0)
    ensures limit == [] ==> Limited(names, limit) == AllWaiting(|names|)
  {
  }

  lemma LimitEnd(names: seq<string>, limit: seq<string>, fate: seq<Fate>)
    requires LimitedUpTo(names, limit, fate, |names|) && limit != []
    ensures fate == Limited(names, limit)
  {
  }

  // ---------------------------------------------------------------------
  // ROOT: a map from which buffers are extracted

  class ROOTFrameData {
    var buffers: map<string, nat>
    ghost const names: seq<string>
    ghost const all: seq<nat>
    ghost var fate: seq<Fate>
    ghost var handedOut: multiset<nat>
    ghost var deleted: multiset<nat>

    ghost predicate Valid()
      reads this
    {
      && |names| == |all| == |fate| && Distinct(names) && buffers == Offer(names, all, fate)
      && handedOut == Bag(all, fate, HandedOut) && deleted == Bag(all, fate, Deleted)
    }

    ghost function Offered(): map<string, nat>
      reads this
    {
      buffers
    }

    constructor (buffers: map<string, nat>, ghost names: seq<string>, ghost all: seq<nat>)
      requires |names| == |all| && Distinct(names) && buffers == Offer(names, all, AllWaiting(|names|))
      ensures Valid() && Offered() == buffers && this.all == all && handedOut == deleted == multiset{}
    {
      this.buffers := buffers;
      this.names, this.all := names, all;
      fate, handedOut, deleted := AllWaiting(|names|), multiset{}, multiset{};
      EmptyBag(all, AllWaiting(|names|), HandedOut);
      EmptyBag(all, AllWaiting(|names|), Deleted);
    }

    method GetCollectionBuffers(name: string) returns (r: Option<nat>)
      requires Valid()
      modifies this
      ensures Valid()
      ensures r == if name in old(Offered()) then Some(old(Offered())[name]) else None
      ensures Offered() == old(Offered()) - {name}
      ensures handedOut == old(handedOut) + if r.Some? then multiset{r.value} else multiset{}
      ensures deleted == old(deleted)
    {
      if name !in buffers { return None; }
      r := Some(buffers[name]);
      ghost var i := At(names, name);
      OfferShrinks(names, all, fate, i, HandedOut);
      Moved(all, fate, i, HandedOut);
      fate, handedOut := fate[i := HandedOut], handedOut + multiset{all[i]};
      buffers := buffers - {name};
    }

    method GetAvailableCollections() returns (r: seq<string>)
      requires Valid()
      ensures Distinct(r) && forall n :: n in r <==> n in Offered()
    {
      r := [];
      var todo := buffers.Keys;
      while todo != {}
        invariant todo <= buffers.Keys && Distinct(r) && forall n :: n in r <==> n in buffers && n !in todo
      {
        var n :| n in todo;
        r, todo := r + [n], todo - {n};
      }
    }

    /** The destructor: what was not handed out is deleted. */
    method Destroy()
      requires Valid()
      modifies this
      ensures handedOut == old(handedOut) && handedOut + deleted == multiset(all)
    {
      hide Bag, Offer, At;
      while buffers != map[]
        invariant Valid() && handedOut == old(handedOut)
        decreases |buffers|
      {
        var name :| name in buffers;
        ghost var i := OfferedAt(names, all, fate, name);
        OfferShrinks(names, all, fate, i, Deleted);
        Moved(all, fate, i, Deleted);
        fate, deleted := fate[i := Deleted], deleted + multiset{buffers[name]};
        buffers := buffers - {name};
      }
      NothingWaits(names, all, fate);
      EmptyBag(all, fate, Waiting);
      BagsAreAll(all, fate);
    }
  }

  /** On offer are the names whose buffers wait, each with the buffer at its place. */
  lemma OfferIs(names: seq<string>, buffers: seq<nat>, fate: seq<Fate>)
    requires |names| == |buffers| == |fate| && Distinct(names)
    ensures forall n :: n in Offer(names, buffers, fate) ==> n in names
    ensures forall i :: 0 <= i < |names| ==>
      && (names[i] in Offer(names, buffers, fate) <==> fate[i] == Waiting)
      && (names[i] in Offer(names, buffers, fate) ==> Offer(names, buffers, fate)[names[i]] == buffers[i])
  {
    forall i | 0 <= i < |names| ensures At(names, names[i]) == i {}
  }

  lemma OfferedAt(names: seq<string>, buffers: seq<nat>, fate: seq<Fate>, name: string) returns (i: nat)
    requires |names| == |buffers| == |fate| && Distinct(names) && name in Offer(names, buffers, fate)
    ensures i < |names| && names[i] == name && fate[i] == Waiting && Offer(names, buffers, fate)[name] == buffers[i]
  {
    i := At(names, name);
  }

  lemma NothingWaits(names: seq<string>, buffers: seq<nat>, fate: seq<Fate>)
    requires |names| == |buffers| == |fate| && Distinct(names) && Offer(names, buffers, fate) == map[]
    ensures forall i :: 0 <= i < |fate| ==> fate[i] != Waiting
  {
    forall i | 0 <= i < |fate| ensures fate[i] != Waiting {
      assert names[i] in names && At(names, names[i]) == i;
      assert names[i] !in Offer(names, buffers, fate);
    }
  }

  // ---------------------------------------------------------------------
  // Both are the same one-shot store

  /** What a sequence of requests gets from a store with this offer. */
  function Serve(offer: map<string, nat>, requests: seq<string>): seq<Option<nat>> {
    if requests == [] then []
    else
      var name := requests[0];
      [if name in offer then Some(offer[name]) else None] + Serve(offer - {name}, requests[1..])
  }

  /** The first request for a name gets its buffer, every later one nothing. */
  lemma {:induction false} ServedOnce(offer: map<string, nat>, requests: seq<string>, i: nat)
    requires i < |requests|
    ensures |Serve(offer, requests)| == |requests|
    ensures Serve(offer, requests)[i] ==
      if requests[i] in offer && requests[i] !in requests[..i] then Some(offer[requests[i]]) else None
  {
    if i > 0 {
      ServedOnce(offer - {requests[0]}, requests[1..], i - 1);
      assert requests[..i] == [requests[0]] + requests[1..][..i - 1];
    } else if |requests| > 1 {
      ServedOnce(offer - {requests[0]}, requests[1..], 0);
    }
  }

  lemma {:induction false} ServeSnoc(offer: map<string, nat>, requests: seq<string>, name: string)
    ensures Serve(offer, requests + [name]) == Serve(offer, requests)
      + [if name in Left(offer, requests) then Some(Left(offer, requests)[name]) else None]
    ensures Left(offer, requests + [name]) == Left(offer, requests) - {name}
  {
    if requests != [] {
      assert (requests + [name])[1..] == requests[1..] + [name];
      ServeSnoc(offer - {requests[0]}, requests[1..], name);
    }
  }

  /** What is left of an offer. */
  function Left(offer: map<string, nat>, requests: seq<string>): map<string, nat> {
    if requests == [] then offer else Left(offer - {requests[0]}, requests[1..])
  }

  method ServeSIO(data: SIOFrameData, requests: seq<string>) returns (r: seq<Option<nat>>)
    requires data.Valid()
    modifies data
    ensures data.Valid() && r == Serve(old(data.Offered()), requests)
    ensures data.Offered() == Left(old(data.Offered()), requests)
  {
    hide SIOFrameData.Valid, SIOFrameData.Offered;
    r := [];
    ghost var offer := data.Offered();
    for i := 0 to |requests|
      invariant data.Valid() && r == Serve(offer, requests[..i]) && data.Offered() == Left(offer, requests[..i])
    {
      ServeSnoc(offer, requests[..i], requests[i]);
      assert requests[..i + 1] == requests[..i] + [requests[i]];
      var b := data.GetCollectionBuffers(requests[i]);
      r := r + [b];
    }
    assert requests[..|requests|] == requests;
  }

  method ServeROOT(data: ROOTFrameData, requests: seq<string>) returns (r: seq<Option<nat>>)
    requires data.Valid()
    modifies data
    ensures data.Valid() && r == Serve(old(data.Offered()), requests)
    ensures data.Offered() == Left(old(data.Offered()), requests)
  {
    hide ROOTFrameData.Valid, ROOTFrameData.Offered;
    r := [];
    ghost var offer := data.Offered();
    for i := 0 to |requests|
      invariant data.Valid() && r == Serve(offer, requests[..i]) && data.Offered() == Left(offer, requests[..i])
    {
      ServeSnoc(offer, requests[..i], requests[i]);
      assert requests[..i + 1] == requests[..i] + [requests[i]];
      var b := data.GetCollectionBuffers(requests[i]);
      r := r + [b];
    }
    assert requests[..|requests|] == requests;
  }
}
