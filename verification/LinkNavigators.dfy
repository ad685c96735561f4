/** Looking up links by either end: two multimaps agree with a search through the links. */
module LinkNavigators {
  /** Objects are compared by their addresses. */
  type Object = nat

  datatype Link = Link(from: Object, to: Object, weight: real)

  datatype WeightedObject = WeightedObject(o: Object, weight: real)

  /** The values of a key, in the order in which they were inserted. */
  function Values(items: seq<(Object, WeightedObject)>, key: Object): seq<WeightedObject> {
    if items == [] then []
    else
      var n := |items| - 1;
      Values(items[..n], key) + if items[n].0 == key then [items[n].1] else []
  }

  /** The linear search: other ends and weights of the links with this `from` or `to`. */
  function LinkedTo(links: seq<Link>, from: Object): seq<WeightedObject> {
    if links == [] then []
    else
      var n := |links| - 1;
      LinkedTo(links[..n], from) + if links[n].from == from then [WeightedObject(links[n].to, links[n].weight)] else []
  }

  function LinkedFrom(links: seq<Link>, to: Object): seq<WeightedObject> {
    if links == [] then []
    else
      var n := |links| - 1;
      LinkedFrom(links[..n], to) + if links[n].to == to then [WeightedObject(links[n].from, links[n].weight)] else []
  }

  predicate Sorted(items: seq<(Object, WeightedObject)>) {
    forall i, j :: 0 <= i < j < |items| ==> items[i].0 <= items[j].0
  }

  lemma {:induction false} ValuesConcat(a: seq<(Object, WeightedObject)>, b: seq<(Object, WeightedObject)>, key: Object)
    ensures Values(a + b, key) == Values(a, key) + Values(b, key)
  {
    if b == [] {
      assert a + b == a;
    } else {
      assert (a + b)[..|a + b| - 1] == a + b[..|b| - 1];
      ValuesConcat(a, b[..|b| - 1], key);
    }
  }

  lemma {:induction false} NoValues(items: seq<(Object, WeightedObject)>, key: Object)
    requires forall i :: 0 <= i < |items| ==> items[i].0 != key
    ensures Values(items, key) == []
  {
    if items != [] { NoValues(items[..|items| - 1], key); }
  }

  lemma ValuesOfOne(key: Object, value: WeightedObject, other: Object)
    ensures Values([(key, value)], other) == if other == key then [value] else []
  {
    assert [(key, value)][..0] == [];
  }

  lemma Inserted(before: seq<(Object, WeightedObject)>, after: seq<(Object, WeightedObject)>, key: Object,
                 value: WeightedObject, k: Object)
    requires forall i :: 0 <= i < |after| ==> after[i].0 > key
    ensures Values(before + [(key, value)] + after, k)
      == Values(before + after, k) + if k == key then [value] else []
  {
    hide Values;
    ValuesConcat(before, after, k);
    ValuesConcat(before + [(key, value)], after, k);
    ValuesConcat(before, [(key, value)], k);
    ValuesOfOne(key, value, k);
    if k == key { NoValues(after, k); }
  }

  /** A multimap: sorted by keys, equal keys in the order of insertion. */
  class Multimap {
    var items: seq<(Object, WeightedObject)>

    ghost predicate Valid()
      reads this
    {
      Sorted(items)
    }

    constructor ()
      ensures Valid() && items == []
    {
      items := [];
    }

    method Emplace(key: Object, value: WeightedObject)
      requires Valid()
      modifies this
      ensures Valid()
      ensures forall k ::
        Values(items, k) == if k == key then Values(old(items), k) + [value] else Values(old(items), k)
    {
      hide Values;
      var p := UpperBound(key);
      var before, after := items[..p], items[p..];
      assert items == before + after;
      forall k ensures Values(before + [(key, value)] + after, k)
        == if k == key then Values(items, k) + [value] else Values(items, k)
      {
        Inserted(before, after, key, value, k);
      }
      items := before + [(key, value)] + after;
    }

    method LowerBound(key: Object) returns (p: nat)
      requires Valid()
      ensures p <= |items| && (forall i :: 0 <= i < p ==> items[i].0 < key)
        && forall i :: p <= i < |items| ==> items[i].0 >= key
    {
      p := 0;
      while p < |items| && items[p].0 < key
        invariant p <= |items| && forall i :: 0 <= i < p ==> items[i].0 < key
      {
        p := p + 1;
      }
    }

    method UpperBound(key: Object) returns (p: nat)
      requires Valid()
      ensures p <= |items| && (forall i :: 0 <= i < p ==> items[i].0 <= key)
        && forall i :: p <= i < |items| ==> items[i].0 > key
    {
      p := 0;
      while p < |items| && items[p].0 <= key
        invariant p <= |items| && forall i :: 0 <= i < p ==> items[i].0 <= key
      {
        p := p + 1;
      }
    }

    /** The values in the range of equal keys. */
    method EqualRange(key: Object) returns (r: seq<WeightedObject>)
      requires Valid()
      ensures r == Values(items, key)
    {
      hide Values, Sorted;
      var begin := LowerBound(key);
      var end := UpperBound(key);
      r := [];
      var it := begin;
      NoValues(items[..begin], key);
      ghost var m := if end < |items| then end else 0;
      assert m < |items| && m < begin ==> items[m].0 < key;
      while it < end
        invariant begin <= it <= end && r == Values(items[..it], key)
      {
        assert items[..it + 1] == items[..it] + [items[it]];
        ValuesConcat(items[..it], [items[it]], key);
        ValuesOfOne(items[it].0, items[it].1, key);
        r := r + [items[it].1];
        it := it + 1;
      }
      NoValues(items[end..], key);
      ValuesConcat(items[..end], items[end..], key);
      assert items == items[..end] + items[end..];
    }
  }

  class LinkNavigator {
    const from2to: Multimap
    const to2from: Multimap
    ghost const links: seq<Link>

    ghost predicate Valid()
      reads this, from2to, to2from
    {
      && from2to != to2from && from2to.Valid() && to2from.Valid()
      && (forall a :: Values(from2to.items, a) == LinkedTo(links, a))
      && (forall b :: Values(to2from.items, b) == LinkedFrom(links, b))
    }

    constructor (links: seq<Link>)
      ensures Valid() && this.links == links && fresh(from2to) && fresh(to2from)
    {
      hide Values, Sorted, LinkedTo, LinkedFrom;
      var f := new Multimap();
      var t := new Multimap();
      Unlinked();
      for i := 0 to |links|
        invariant fresh(f) && fresh(t) && f != t && f.Valid() && t.Valid()
        invariant forall a :: Values(f.items, a) == LinkedTo(links[..i], a)
        invariant forall b :: Values(t.items, b) == LinkedFrom(links[..i], b)
      {
        OneMoreLink(links[..i + 1]);
        assert links[..i + 1][..i] == links[..i];
        f.Emplace(links[i].from, WeightedObject(links[i].to, links[i].weight));
        t.Emplace(links[i].to, WeightedObject(links[i].from, links[i].weight));
      }
      assert links[..|links|] == links;
      from2to, to2from := f, t;
      this.links := links;
    }

    /** All objects, with weights, that links lead to from here. */
    method GetLinkedTo(from: Object) returns (r: seq<WeightedObject>)
      requires Valid()
      ensures r == LinkedTo(links, from)
    {
      r := from2to.EqualRange(from);
    }

    /** All objects, with weights, from which links lead here. */
    method GetLinkedFrom(to: Object) returns (r: seq<WeightedObject>)
      requires Valid()
      ensures r == LinkedFrom(links, to)
    {
      r := to2from.EqualRange(to);
    }
  }

  lemma Unlinked()
    ensures forall a :: Values([], a) == LinkedTo([], a) == LinkedFrom([], a)
  {
  }

  lemma OneMoreLink(links: seq<Link>)
    requires links != []
    ensures var n := |links| - 1; var l := links[n];
      && (forall a ::
          LinkedTo(links, a) == LinkedTo(links[..n], a) +
            if a == l.from then [WeightedObject(l.to, l.weight)] else [])
      && (forall b ::
          LinkedFrom(links, b) == LinkedFrom(links[..n], b) +
            if b == l.to then [WeightedObject(l.from, l.weight)] else [])
  {
  }

  /** The search finds the links from `a`, in their order. */
  lemma {:induction false} FoundInOrder(links: seq<Link>, a: Object, k: nat, l: nat) returns (i: nat, j: nat)
    requires k <= l < |LinkedTo(links, a)|
    ensures i < |links| && links[i].from == a && LinkedTo(links, a)[k] == WeightedObject(links[i].to, links[i].weight)
    ensures j < |links| && links[j].from == a && LinkedTo(links, a)[l] == WeightedObject(links[j].to, links[j].weight)
    ensures k < l ==> i < j
  {
    var n := |links| - 1;
    var front := LinkedTo(links[..n], a);
    if l < |front| {
      i, j := FoundInOrder(links[..n], a, k, l);
    } else {
      j := n;
      if k < l { var m; i, m := FoundInOrder(links[..n], a, k, k); } else { i := n; }
    }
  }

  /** ... and those to `b`, in their order. */
  lemma {:induction false} FoundBackInOrder(links: seq<Link>, b: Object, k: nat, l: nat) returns (i: nat, j: nat)
    requires k <= l < |LinkedFrom(links, b)|
    ensures i < |links| && links[i].to == b
    ensures LinkedFrom(links, b)[k] == WeightedObject(links[i].from, links[i].weight)
    ensures j < |links| && links[j].to == b
    ensures LinkedFrom(links, b)[l] == WeightedObject(links[j].from, links[j].weight)
    ensures k < l ==> i < j
  {
    var n := |links| - 1;
    var front := LinkedFrom(links[..n], b);
    if l < |front| {
      i, j := FoundBackInOrder(links[..n], b, k, l);
    } else {
      j := n;
      if k < l { var m; i, m := FoundBackInOrder(links[..n], b, k, k); } else { i := n; }
    }
  }

  lemma CountSnoc<T>(s: seq<T>, x: T, y: T)
    ensures multiset(s + [x])[y] == multiset(s)[y] + if x == y then 1 else 0
  {
  }

  /** How often an object occurs in a search is how often the link is there. */
  lemma {:induction false} OccurrencesTo(links: seq<Link>, a: Object, b: Object, w: real)
    ensures multiset(LinkedTo(links, a))[WeightedObject(b, w)] == multiset(links)[Link(a, b, w)]
  {
    if links != [] {
      var front, l := links[..|links| - 1], links[|links| - 1];
      OccurrencesTo(front, a, b, w);
      assert links == front + [l];
      CountSnoc(front, l, Link(a, b, w));
      CountSnoc(LinkedTo(front, a), WeightedObject(l.to, l.weight), WeightedObject(b, w));
    }
  }

  lemma {:induction false} OccurrencesFrom(links: seq<Link>, a: Object, b: Object, w: real)
    ensures multiset(LinkedFrom(links, b))[WeightedObject(a, w)] == multiset(links)[Link(a, b, w)]
  {
    if links != [] {
      var front, l := links[..|links| - 1], links[|links| - 1];
      OccurrencesFrom(front, a, b, w);
      assert links == front + [l];
      CountSnoc(front, l, Link(a, b, w));
      CountSnoc(LinkedFrom(front, b), WeightedObject(l.from, l.weight), WeightedObject(a, w));
    }
  }

  /** The two directions are dual. */
  lemma Duality(links: seq<Link>, a: Object, b: Object, w: real)
    ensures multiset(LinkedTo(links, a))[WeightedObject(b, w)] == multiset(LinkedFrom(links, b))[WeightedObject(a, w)]
  {
    OccurrencesTo(links, a, b, w);
    OccurrencesFrom(links, a, b, w);
  }

  /** Both lookups for two objects, which agree on the links between the two. */
  method Navigate(links: seq<Link>, a: Object, b: Object) returns (to: seq<WeightedObject>, from: seq<WeightedObject>)
    ensures to == LinkedTo(links, a) && from == LinkedFrom(links, b)
    ensures forall w :: multiset(to)[WeightedObject(b, w)] == multiset(from)[WeightedObject(a, w)]
  {
    var navigator := new LinkNavigator(links);
    to := navigator.GetLinkedTo(a);
    from := navigator.GetLinkedFrom(b);
    forall w
      ensures multiset(to)[WeightedObject(b, w)] == multiset(from)[WeightedObject(a, w)]
    { Duality(links, a, b, w); }
  }
}
