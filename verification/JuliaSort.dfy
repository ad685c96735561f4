/** The order in which the Julia generator lists components and datatypes: Kahn's
    algorithm, with whatever is left appended as it is when nothing is ready. */
module JuliaSort {
  datatype MemberRef = MemberRef(fullType: string, isBuiltin: bool, isBuiltinArray: bool)

  datatype Entry = Entry(fullType: string, bareType: string, members: seq<MemberRef>, vectorMembers: seq<MemberRef>)

  predicate Counts(m: MemberRef) { !m.isBuiltin && !m.isBuiltinArray }

  /** The types that an entry depends on. */
  function DependenciesOf(e: Entry): set<string> {
    set m | m in e.members + e.vectorMembers && Counts(m) :: m.fullType
  }

  type Dependencies = map<string, set<string>>

  /** The later of two entries of one type counts. */
  function Listed(data: seq<Entry>): map<string, Entry> {
    if data == [] then map[] else Listed(data[..|data| - 1])[data[|data| - 1].fullType := data[|data| - 1]]
  }

  function Keys(data: seq<Entry>): set<string> { Listed(data).Keys }

  ghost predicate NoDuplicates(s: seq<string>) { forall i, j :: 0 <= i < j < |s| ==> s[i] != s[j] }

  /** `order` names every listed type once. */
  ghost predicate Permutes(order: seq<string>, data: seq<Entry>) {
    NoDuplicates(order) && forall c :: c in order <==> c in Listed(data)
  }

  /** Every type before `cut` comes after all its dependencies. */
  ghost predicate DependenciesFirst(order: seq<string>, cut: nat, data: seq<Entry>)
    requires cut <= |order| && forall c :: c in order ==> c in Listed(data)
  {
    forall i :: 0 <= i < cut ==>
      forall d :: d in DependenciesOf(Listed(data)[order[i]]) ==> d in order[..i]
  }

  /** Each type of `s` depends on one of `s` or on a type that is not listed. */
  ghost predicate Stuck(s: set<string>, data: seq<Entry>) {
    s <= Keys(data) &&
    forall c :: c in s ==> exists d :: d in DependenciesOf(Listed(data)[c]) && (d in s || d !in Listed(data))
  }

  ghost function BareTypes(order: seq<string>, data: seq<Entry>): seq<string>
    requires forall c :: c in order ==> c in Listed(data)
  {
    if order == [] then [] else BareTypes(order[..|order| - 1], data) + [Listed(data)[order[|order| - 1]].bareType]
  }

  // ---------------------------------------------------------------------
  // Between the rounds of the algorithm

  /** What is emitted so far, and what is left with the dependencies it still has. */
  ghost predicate Progress(order: seq<string>, left: Dependencies, data: seq<Entry>) {
    && NoDuplicates(order)
    && (forall c :: c in Listed(data) <==> c in order || c in left)
    && (forall c :: c in left ==> c !in order && left[c] == DependenciesOf(Listed(data)[c]) - Emitted(order))
    && DependenciesFirst(order, |order|, data)
    && (forall s {:trigger Stuck(s, data)} :: Stuck(s, data) ==> s <= left.Keys)
  }

  function Emitted(order: seq<string>): set<string> { set c | c in order }

  ghost predicate Ready(ready: set<string>, left: Dependencies) {
    forall c :: c in ready <==> c in left && left[c] == {}
  }

  /** While a round takes the ready types out one by one. */
  ghost predicate Emitting(order: seq<string>, now: seq<string>, left: Dependencies, rest: Dependencies,
                           todo: set<string>, data: seq<Entry>) {
    && |order| <= |now| && now[..|order|] == order && NoDuplicates(now)
    && (forall c :: c in now <==> c in order || (c in left && left[c] == {} && c !in todo))
    && (forall c :: c in todo ==> c in left && left[c] == {})
    && (forall c :: c in rest <==> c in left && c !in now)
    && (forall c :: c in rest ==> rest[c] == left[c])
  }

  lemma EmitOne(order: seq<string>, now: seq<string>, left: Dependencies, rest: Dependencies, todo: set<string>,
                data: seq<Entry>, c: string)
    requires Emitting(order, now, left, rest, todo, data) && c in todo && c !in order && c !in now
    ensures Emitting(order, now + [c], left, rest - {c}, todo - {c}, data)
  {
  }

  lemma ReadyNeedsNothing(order: seq<string>, left: Dependencies, data: seq<Entry>, c: string)
    requires Progress(order, left, data) && c in left && left[c] == {}
    ensures forall d :: d in DependenciesOf(Listed(data)[c]) ==> d in order
  {
    hide DependenciesOf, Listed;
    forall d | d in DependenciesOf(Listed(data)[c]) ensures d in order {
      assert d !in left[c];
      assert d in Emitted(order);
    }
  }

  lemma StuckIsNotReady(order: seq<string>, left: Dependencies, data: seq<Entry>, s: set<string>, c: string)
    requires Progress(order, left, data) && Stuck(s, data) && c in s
    ensures c in left && left[c] != {}
  {
    hide DependenciesOf, Listed;
    assert s <= left.Keys;
    var d :| d in DependenciesOf(Listed(data)[c]) && (d in s || d !in Listed(data));
    assert d in left[c];
  }

  lemma NotInPrefix(now: seq<string>, n: nat, i: nat)
    requires NoDuplicates(now) && n <= i < |now|
    ensures now[i] !in now[..n]
  {
  }

  /** After a round: the emitted types are dependencies no more. */
  lemma RoundIsProgress(order: seq<string>, now: seq<string>, left: Dependencies, ready: set<string>,
                        rest: Dependencies, data: seq<Entry>)
    requires Progress(order, left, data) && Ready(ready, left)
    requires |order| <= |now| && now[..|order|] == order && NoDuplicates(now)
    requires forall c :: c in now <==> c in order || c in ready
    requires forall c :: c in rest <==> c in left && c !in ready
    requires forall c :: c in rest ==> rest[c] == left[c] - ready
    ensures Progress(now, rest, data)
  {
    hide DependenciesOf, Listed;
    RoundKeepsOrder(order, now, left, ready, data);
    forall s | Stuck(s, data) ensures s <= rest.Keys {
      assert s <= left.Keys;
      forall c | c in s ensures c !in ready { StuckIsNotReady(order, left, data, s, c); }
    }
    assert Emitted(now) == Emitted(order) + ready;
  }

  lemma RoundKeepsOrder(order: seq<string>, now: seq<string>, left: Dependencies, ready: set<string>, data: seq<Entry>)
    requires Progress(order, left, data) && Ready(ready, left)
    requires |order| <= |now| && now[..|order|] == order && NoDuplicates(now)
    requires forall c :: c in now <==> c in order || c in ready
    ensures DependenciesFirst(now, |now|, data)
  {
    hide DependenciesOf, Listed;
    forall i, d | 0 <= i < |now| && d in DependenciesOf(Listed(data)[now[i]]) ensures d in now[..i] {
      if i < |order| {
        assert now[..i] == order[..i] && now[i] == order[i];
      } else {
        NotInPrefix(now, |order|, i);
        assert now[i] in now;
        ReadyNeedsNothing(order, left, data, now[i]);
        assert order == now[..i][..|order|];
      }
    }
  }

  /** Nothing is ready: what is left is stuck, and is all that ever can be. */
  lemma LeftIsStuck(order: seq<string>, left: Dependencies, data: seq<Entry>)
    requires Progress(order, left, data) && Ready({}, left)
    ensures Stuck(left.Keys, data)
  {
    forall c | c in left
      ensures exists d :: d in DependenciesOf(Listed(data)[c]) && (d in left.Keys || d !in Listed(data))
    {
      assert c !in {};
      var d :| d in left[c];
      assert d in DependenciesOf(Listed(data)[c]) && d !in order;
    }
  }

  // ---------------------------------------------------------------------
  // The method

  /** The listed types in the order of their first entries. */
  function FirstEntries(data: seq<Entry>): seq<string> {
    if data == [] then []
    else
      var front, t := FirstEntries(data[..|data| - 1]), data[|data| - 1].fullType;
      if t in front then front else front + [t]
  }

  lemma {:induction false} FirstEntriesPermute(data: seq<Entry>)
    ensures Permutes(FirstEntries(data), data)
  {
    if data != [] { FirstEntriesPermute(data[..|data| - 1]); }
  }

  /** The types of `s` in the order of `keys`. */
  function Among(keys: seq<string>, s: set<string>): seq<string> {
    if keys == [] then []
    else
      var front, c := Among(keys[..|keys| - 1], s), keys[|keys| - 1];
      if c in s then front + [c] else front
  }

  lemma {:induction false} AmongIsSelection(keys: seq<string>, s: set<string>)
    requires NoDuplicates(keys)
    ensures NoDuplicates(Among(keys, s)) && forall c :: c in Among(keys, s) <==> c in keys && c in s
  {
    if keys != [] {
      var front, c := keys[..|keys| - 1], keys[|keys| - 1];
      AmongIsSelection(front, s);
      forall d | d in front ensures d != c {
        var i :| 0 <= i < |front| && front[i] == d;
        assert keys[i] == d;
      }
      assert keys == front + [c];
      forall i | 0 <= i < |Among(front, s)| ensures Among(front, s)[i] != c { assert Among(front, s)[i] in front; }
    }
  }

  /** The dependencies and the names without namespace, in dictionaries that keep the order of insertion. */
  method Collect(data: seq<Entry>) returns (keys: seq<string>, dependencies: Dependencies, bare: map<string, string>)
    ensures keys == FirstEntries(data)
    ensures forall c :: c in dependencies <==> c in Listed(data)
    ensures forall c :: c in dependencies ==> dependencies[c] == DependenciesOf(Listed(data)[c])
    ensures forall c :: c in bare <==> c in Listed(data)
    ensures forall c :: c in bare ==> bare[c] == Listed(data)[c].bareType
  {
    keys, dependencies, bare := [], map[], map[];
    for i := 0 to |data|
      invariant keys == FirstEntries(data[..i])
      invariant forall c :: c in dependencies <==> c in Listed(data[..i])
      invariant forall c :: c in dependencies ==> dependencies[c] == DependenciesOf(Listed(data[..i])[c])
      invariant forall c :: c in bare <==> c in Listed(data[..i])
      invariant forall c :: c in bare ==> bare[c] == Listed(data[..i])[c].bareType
    {
      var e := data[i];
      assert data[..i + 1][..i] == data[..i];
      FirstEntriesPermute(data[..i]);
      if e.fullType !in dependencies { keys := keys + [e.fullType]; }
      bare := bare[e.fullType := e.bareType];
      var deps := DirectDependencies(e);
      dependencies := dependencies[e.fullType := deps];
    }
    assert data[..|data|] == data;
  }

  method DirectDependencies(e: Entry) returns (deps: set<string>)
    ensures deps == DependenciesOf(e)
  {
    deps := {};
    for j := 0 to |e.members|
      invariant deps == set m | m in e.members[..j] && Counts(m) :: m.fullType
    {
      if Counts(e.members[j]) { deps := deps + {e.members[j].fullType}; }
    }
    for j := 0 to |e.vectorMembers|
      invariant deps == set m | m in e.members + e.vectorMembers[..j] && Counts(m) :: m.fullType
    {
      if Counts(e.vectorMembers[j]) { deps := deps + {e.vectorMembers[j].fullType}; }
    }
  }

  lemma BareSnoc(order: seq<string>, c: string, data: seq<Entry>)
    requires (forall d :: d in order ==> d in Listed(data)) && c in Listed(data)
    ensures forall d :: d in order + [c] ==> d in Listed(data)
    ensures BareTypes(order + [c], data) == BareTypes(order, data) + [Listed(data)[c].bareType]
  {
    assert (order + [c])[..|order|] == order;
  }

  /** The output so far names the types of `order`. */
  ghost predicate Names(sorted: seq<string>, order: seq<string>, data: seq<Entry>) {
    (forall c :: c in order ==> c in Listed(data)) && sorted == BareTypes(order, data)
  }

  ghost predicate BareOf(bare: map<string, string>, data: seq<Entry>) {
    forall c :: (c in bare <==> c in Listed(data)) && (c in bare ==> bare[c] == Listed(data)[c].bareType)
  }

  /** Emits the ready types, in any order. */
  method Emit(sorted: seq<string>, ghost order: seq<string>, left: Dependencies, ready: set<string>,
              bare: map<string, string>, ghost data: seq<Entry>)
    returns (more: seq<string>, rest: Dependencies, ghost now: seq<string>)
    requires NoDuplicates(order) && (forall c :: c in left ==> c !in order && c in Listed(data)) && Ready(ready, left)
    requires BareOf(bare, data) && Names(sorted, order, data)
    ensures Names(more, now, data) && |order| <= |now| && now[..|order|] == order && NoDuplicates(now)
    ensures forall c :: c in now <==> c in order || c in ready
    ensures forall c :: c in rest <==> c in left && c !in ready
    ensures forall c :: c in rest ==> rest[c] == left[c]
  {
    more, rest, now := sorted, left, order;
    var todo := ready;
    while todo != {}
      invariant Names(more, now, data) && Emitting(order, now, left, rest, todo, data) && todo <= ready
    {
      var c :| c in todo;
      hide Names, BareTypes, Listed;
      EmitOne(order, now, left, rest, todo, data, c);
      NameOne(more, now, c, bare, data);
      more, rest, todo := more + [bare[c]], rest - {c}, todo - {c};
      now := now + [c];
    }
  }

  lemma NameOne(sorted: seq<string>, order: seq<string>, c: string, bare: map<string, string>, data: seq<Entry>)
    requires Names(sorted, order, data) && c in Listed(data) && BareOf(bare, data)
    ensures c in bare && Names(sorted + [bare[c]], order + [c], data)
  {
    BareSnoc(order, c, data);
  }

  /** Takes the emitted types out of the dependencies of the others. */
  method Strip(left: Dependencies, ready: set<string>) returns (rest: Dependencies)
    ensures forall c :: c in rest <==> c in left
    ensures forall c :: c in rest ==> rest[c] == left[c] - ready
  {
    rest := left;
    var todo := left.Keys;
    while todo != {}
      invariant todo <= left.Keys
      invariant forall c :: c in rest <==> c in left
      invariant forall c :: c in rest ==> rest[c] == if c in todo then left[c] else left[c] - ready
    {
      var c :| c in todo;
      rest, todo := rest[c := rest[c] - ready], todo - {c};
    }
  }

  /** The types in `sorted` up to `cut` are emitted in rounds, the others are what was left. */
  ghost predicate Sorted(sorted: seq<string>, order: seq<string>, cut: nat, data: seq<Entry>) {
    && cut <= |order| && Permutes(order, data) && sorted == BareTypes(order, data)
    && DependenciesFirst(order, cut, data)
    && order[cut..] == Among(FirstEntries(data), Emitted(order[cut..]))
    && Stuck(Emitted(order[cut..]), data)
    && forall s {:trigger Stuck(s, data)} :: Stuck(s, data) ==> s <= Emitted(order[cut..])
  }

  /** The sort: emits what is ready, and when nothing is, everything that is left. */
  method SortComponentsAndDatatypes(data: seq<Entry>)
    returns (sorted: seq<string>, ghost order: seq<string>, ghost cut: nat)
    ensures Sorted(sorted, order, cut, data)
    ensures exists o: seq<string>, c: nat :: Sorted(sorted, o, c, data)
    ensures cut < |order| <==> exists s :: Stuck(s, data) && s != {}
  {
    hide Progress, Sorted, Names, BareTypes, Listed, FirstEntries, Stuck, NoDuplicates;
    var keys, dependencies, bare := Collect(data);
    sorted, order := [], [];
    FirstEntriesPermute(data);
    Start(dependencies, data);
    while dependencies.Keys != {}
      invariant Progress(order, dependencies, data) && Names(sorted, order, data)
      decreases |dependencies.Keys|
    {
      var ready := set c | c in dependencies && dependencies[c] == {};
      if ready == {} {
        cut := |order|;
        sorted, order := Fallback(sorted, order, keys, dependencies, bare, data);
        LeftOver(sorted, order, cut, data);
        return;
      }
      ghost var was := dependencies.Keys;
      Unemitted(order, dependencies, data);
      var rest;
      ghost var now;
      sorted, rest, now := Emit(sorted, order, dependencies, ready, bare, data);
      rest := Strip(rest, ready);
      RoundIsProgress(order, now, dependencies, ready, rest, data);
      dependencies, order := rest, now;
      Smaller(dependencies.Keys, was, ready);
    }
    cut := |order|;
    AllEmitted(sorted, order, dependencies, data);
  }

  lemma Smaller(rest: set<string>, was: set<string>, ready: set<string>)
    requires ready != {} && ready <= was && rest == was - ready
    ensures |rest| < |was|
  {
  }

  lemma Start(dependencies: Dependencies, data: seq<Entry>)
    requires forall c :: c in dependencies <==> c in Listed(data)
    requires forall c :: c in dependencies ==> dependencies[c] == DependenciesOf(Listed(data)[c])
    ensures Progress([], dependencies, data) && Names([], [], data)
  {
  }

  lemma Unemitted(order: seq<string>, left: Dependencies, data: seq<Entry>)
    requires Progress(order, left, data)
    ensures NoDuplicates(order) && forall c :: c in left ==> c !in order && c in Listed(data)
  {
  }

  lemma AllEmitted(sorted: seq<string>, order: seq<string>, left: Dependencies, data: seq<Entry>)
    requires Progress(order, left, data) && left.Keys == {} && Names(sorted, order, data)
    ensures Sorted(sorted, order, |order|, data) && forall s :: Stuck(s, data) ==> s == {}
  {
    assert order[|order|..] == [];
    assert Emitted([]) == {};
    NoneAmong(FirstEntries(data));
  }

  lemma {:induction false} NoneAmong(keys: seq<string>)
    ensures Among(keys, {}) == []
  {
    if keys != [] { NoneAmong(keys[..|keys| - 1]); }
  }

  /** Appends what is left, in the order of the dictionary. */
  method Fallback(sorted: seq<string>, ghost order: seq<string>, keys: seq<string>, left: Dependencies,
                  bare: map<string, string>, ghost data: seq<Entry>)
    returns (all: seq<string>, ghost now: seq<string>)
    requires Progress(order, left, data) && left.Keys != {} && Ready({}, left)
    requires Names(sorted, order, data) && BareOf(bare, data) && keys == FirstEntries(data)
    ensures |order| < |now| && Sorted(all, now, |order|, data)
    ensures exists o: seq<string> :: Sorted(all, o, |order|, data)
  {
    hide Progress, Names, Sorted, BareTypes;
    FirstEntriesPermute(data);
    Unemitted(order, left, data);
    all, now := sorted, order;
    ghost var rest := [];
    for i := 0 to |keys|
      invariant Names(all, now, data) && rest == Among(keys[..i], left.Keys) && now == order + rest
    {
      assert keys[..i + 1][..i] == keys[..i];
      if keys[i] in left {
        NameOne(all, now, keys[i], bare, data);
        all := all + [bare[keys[i]]];
        now, rest := now + [keys[i]], rest + [keys[i]];
      }
    }
    assert keys[..|keys|] == keys;
    LeftIsStuck(order, left, data);
    FallbackIsSorted(all, order, rest, left, data);
  }

  lemma FallbackPermutes(order: seq<string>, rest: seq<string>, left: Dependencies, data: seq<Entry>)
    requires Progress(order, left, data) && rest == Among(FirstEntries(data), left.Keys)
    ensures NoDuplicates(order + rest) && forall c :: c in rest <==> c in left
  {
    hide DependenciesFirst, Stuck, DependenciesOf;
    FirstEntriesPermute(data);
    AmongIsSelection(FirstEntries(data), left.Keys);
    assert forall c :: c in rest <==> c in left;
    hide Listed, FirstEntries, Among, Progress;
    Unemitted(order, left, data);
    forall i, j | 0 <= i < j < |order + rest| ensures (order + rest)[i] != (order + rest)[j] {
      if i < |order| <= j { assert order[i] in order && rest[j - |order|] in rest; }
    }
  }

  lemma PrefixKeepsOrder(order: seq<string>, rest: seq<string>, data: seq<Entry>)
    requires forall c :: c in order + rest ==> c in Listed(data)
    requires forall c :: c in order ==> c in Listed(data)
    requires DependenciesFirst(order, |order|, data)
    ensures DependenciesFirst(order + rest, |order|, data)
  {
    hide DependenciesOf, Listed;
    forall i | 0 <= i < |order| ensures (order + rest)[i] == order[i] && (order + rest)[..i] == order[..i] {}
  }

  lemma FallbackIsSorted(all: seq<string>, order: seq<string>, rest: seq<string>, left: Dependencies, data: seq<Entry>)
    requires Progress(order, left, data) && left.Keys != {} && Stuck(left.Keys, data)
    requires rest == Among(FirstEntries(data), left.Keys) && Names(all, order + rest, data)
    ensures rest != [] && Sorted(all, order + rest, |order|, data)
  {
    hide Stuck, DependenciesOf, DependenciesFirst, NoDuplicates, Listed, BareTypes, Among, FirstEntries;
    var now := order + rest;
    FallbackPermutes(order, rest, left, data);
    assert now[|order|..] == rest;
    assert Emitted(rest) == left.Keys;
    var c :| c in left.Keys;
    assert c in rest;
    assert forall c :: c in order ==> c in now;
    PrefixKeepsOrder(order, rest, data);
  }

  lemma LeftOver(sorted: seq<string>, order: seq<string>, cut: nat, data: seq<Entry>)
    requires cut < |order| && Sorted(sorted, order, cut, data)
    ensures exists s :: Stuck(s, data) && s != {}
  {
    assert order[cut] in order[cut..];
    assert order[cut] in Emitted(order[cut..]);
  }

  /** An entry that depends on itself, or on a type that is not listed, is never ready. */
  lemma NeverReady(e: Entry, data: seq<Entry>, d: string)
    requires e.fullType in Listed(data) && Listed(data)[e.fullType] == e
    requires d in DependenciesOf(e) && (d == e.fullType || d !in Listed(data))
    ensures Stuck({e.fullType}, data)
  {
  }

  // ---------------------------------------------------------------------
  // What the result says about the data

  /** `c` depends on `d`: its entry, which is the last of that type, mentions it. */
  predicate DependsOn(data: seq<Entry>, c: string, d: string) {
    exists i :: 0 <= i < |data| && IsLastEntry(data, c, i) && Mentions(data[i], d)
  }

  /** A member or a vector member that is neither builtin nor an array of builtins is of that type. */
  predicate Mentions(e: Entry, d: string) {
    || (exists k :: 0 <= k < |e.members| && IsMention(e.members[k], d))
    || exists k :: 0 <= k < |e.vectorMembers| && IsMention(e.vectorMembers[k], d)
  }

  predicate IsMention(m: MemberRef, d: string) { m.fullType == d && !m.isBuiltin && !m.isBuiltinArray }

  predicate IsLastEntry(data: seq<Entry>, c: string, i: nat) {
    i < |data| && data[i].fullType == c && forall j :: i < j < |data| ==> data[j].fullType != c
  }

  predicate IsFirstEntry(data: seq<Entry>, c: string, i: nat) {
    i < |data| && data[i].fullType == c && forall j :: 0 <= j < i ==> data[j].fullType != c
  }

  lemma {:induction false} LastEntryIsListed(data: seq<Entry>, c: string)
    ensures c in Listed(data) <==> exists i :: 0 <= i < |data| && data[i].fullType == c
    ensures c in Listed(data) ==> exists i: nat :: IsLastEntry(data, c, i) && data[i] == Listed(data)[c]
  {
    if data != [] {
      var n := |data| - 1;
      var front := data[..n];
      LastEntryIsListed(front, c);
      assert forall i :: 0 <= i < n ==> data[i] == front[i];
      if i :| 0 <= i < n && data[i].fullType == c { assert front[i].fullType == c; }
      if data[n].fullType == c {
        assert IsLastEntry(data, c, n);
      } else if c in Listed(front) {
        var i: nat :| IsLastEntry(front, c, i) && front[i] == Listed(front)[c];
        assert IsLastEntry(data, c, i);
      }
    }
  }

  lemma MentionsIff(e: Entry, d: string)
    ensures Mentions(e, d) <==> d in DependenciesOf(e)
  {
    if k :| 0 <= k < |e.members| && IsMention(e.members[k], d) { assert e.members[k] in e.members + e.vectorMembers; }
    if k :| 0 <= k < |e.vectorMembers| && IsMention(e.vectorMembers[k], d) {
      assert e.vectorMembers[k] in e.members + e.vectorMembers;
    }
    if d in DependenciesOf(e) {
      var m :| m in e.members + e.vectorMembers && Counts(m) && m.fullType == d;
      if k :| 0 <= k < |e.members| && e.members[k] == m { assert IsMention(e.members[k], d); }
      if k :| 0 <= k < |e.vectorMembers| && e.vectorMembers[k] == m { assert IsMention(e.vectorMembers[k], d); }
    }
  }

  lemma DependsIff(data: seq<Entry>, c: string, d: string)
    requires c in Listed(data)
    ensures DependsOn(data, c, d) <==> d in DependenciesOf(Listed(data)[c])
  {
    LastEntryIsListed(data, c);
    var i: nat :| IsLastEntry(data, c, i) && data[i] == Listed(data)[c];
    MentionsIff(data[i], d);
    hide Listed, Mentions, DependenciesOf;
    if j :| 0 <= j < |data| && IsLastEntry(data, c, j) && Mentions(data[j], d) { assert j == i; }
  }

  lemma {:induction false} FirstEntriesInOrder(data: seq<Entry>, i: nat, j: nat) returns (a: nat, b: nat)
    requires i <= j < |FirstEntries(data)|
    ensures IsFirstEntry(data, FirstEntries(data)[i], a) && IsFirstEntry(data, FirstEntries(data)[j], b)
    ensures i < j ==> a < b
  {
    var n := |data| - 1;
    var front := data[..n];
    var f := FirstEntries(front);
    if j < |f| {
      a, b := FirstEntriesInOrder(front, i, j);
    } else {
      FirstEntriesPermute(front);
      b := n;
      assert IsFirstEntry(data, data[n].fullType, n) by { NotBefore(data); }
      if i < j { var c; a, c := FirstEntriesInOrder(front, i, i); } else { a := n; }
    }
  }

  lemma NotBefore(data: seq<Entry>)
    requires data != [] && data[|data| - 1].fullType !in FirstEntries(data[..|data| - 1])
    ensures IsFirstEntry(data, data[|data| - 1].fullType, |data| - 1)
  {
    var front, t := data[..|data| - 1], data[|data| - 1].fullType;
    FirstEntriesPermute(front);
    LastEntryIsListed(front, t);
    forall j | 0 <= j < |data| - 1 ensures data[j].fullType != t { assert front[j] == data[j]; }
  }

  lemma {:induction false} AmongInOrder(keys: seq<string>, s: set<string>, i: nat, j: nat) returns (p: nat, q: nat)
    requires i <= j < |Among(keys, s)|
    ensures p < |keys| && q < |keys| && keys[p] == Among(keys, s)[i] && keys[q] == Among(keys, s)[j]
    ensures i < j ==> p < q
  {
    var n := |keys| - 1;
    var front := Among(keys[..n], s);
    if j < |front| {
      p, q := AmongInOrder(keys[..n], s, i, j);
    } else {
      q := n;
      if i < j { var r; p, r := AmongInOrder(keys[..n], s, i, i); } else { p := n; }
    }
  }

  lemma {:induction false} BareTypesAre(order: seq<string>, data: seq<Entry>, k: nat)
    requires (forall c :: c in order ==> c in Listed(data)) && k < |order|
    ensures |BareTypes(order, data)| == |order| && BareTypes(order, data)[k] == Listed(data)[order[k]].bareType
  {
    hide Listed;
    if |order| > 1 { BareTypesAre(order[..|order| - 1], data, if k < |order| - 1 then k else 0); }
  }

  /** What a result says, without the functions that the method is specified by. */
  lemma ResultIs(sorted: seq<string>, order: seq<string>, cut: nat, data: seq<Entry>)
    requires Sorted(sorted, order, cut, data)
    ensures NoDuplicates(order) && forall c :: c in order <==> exists i :: 0 <= i < |data| && data[i].fullType == c
    ensures order != [] ==> |sorted| == |order|
    ensures forall k :: 0 <= k < |order| && k < |sorted| ==>
      exists i: nat :: IsLastEntry(data, order[k], i) && sorted[k] == data[i].bareType
    ensures forall k, d :: 0 <= k < cut <= |order| && DependsOn(data, order[k], d) ==> d in order[..k]
    ensures forall k :: 0 <= cut <= k < |order| ==> IsStuck(data, order, cut, order[k])
    ensures forall k, l :: cut <= k < l < |order| ==> ListedBefore(data, order[k], order[l])
  {
    hide Listed, DependenciesOf, BareTypes, NoDuplicates, FirstEntries, Among, DependsOn;
    forall c ensures c in order <==> exists i :: 0 <= i < |data| && data[i].fullType == c {
      LastEntryIsListed(data, c);
    }
    if order != [] { BareTypesAre(order, data, 0); }
    forall k | 0 <= k < |order|
      ensures exists i: nat :: IsLastEntry(data, order[k], i) && sorted[k] == data[i].bareType
    {
      assert order[k] in order;
      BareTypesAre(order, data, k);
      LastEntryIsListed(data, order[k]);
    }
    forall k, d | 0 <= k < cut && DependsOn(data, order[k], d) ensures d in order[..k] {
      assert order[k] in order;
      DependsIff(data, order[k], d);
    }
    forall k | cut <= k < |order| ensures IsStuck(data, order, cut, order[k]) {
      RestIsStuck(sorted, order, cut, data, k);
    }
    forall k, l | cut <= k < l < |order| ensures ListedBefore(data, order[k], order[l]) {
      RestInOrder(order, cut, data, k, l);
    }
  }

  /** The type depends on one that is not emitted in the rounds either, or that is not listed. */
  ghost predicate IsStuck(data: seq<Entry>, order: seq<string>, cut: nat, c: string)
    requires cut <= |order|
  {
    exists d :: DependsOn(data, c, d) && (d in order[cut..] || forall i :: 0 <= i < |data| ==> data[i].fullType != d)
  }

  /** Its first entry comes first. */
  ghost predicate ListedBefore(data: seq<Entry>, c: string, d: string) {
    exists a: nat, b: nat :: IsFirstEntry(data, c, a) && IsFirstEntry(data, d, b) && a < b
  }

  lemma RestIsStuck(sorted: seq<string>, order: seq<string>, cut: nat, data: seq<Entry>, k: nat)
    requires Sorted(sorted, order, cut, data) && cut <= k < |order|
    ensures IsStuck(data, order, cut, order[k])
  {
    hide Listed, DependenciesOf, BareTypes, NoDuplicates, FirstEntries, Among, DependsOn;
    var c := order[k];
    assert c == order[cut..][k - cut] && c in Emitted(order[cut..]);
    var d :| d in DependenciesOf(Listed(data)[c]) && (d in Emitted(order[cut..]) || d !in Listed(data));
    assert c in order;
    DependsIff(data, c, d);
    LastEntryIsListed(data, d);
  }

  lemma RestInOrder(order: seq<string>, cut: nat, data: seq<Entry>, k: nat, l: nat)
    requires cut <= k < l < |order| && order[cut..] == Among(FirstEntries(data), Emitted(order[cut..]))
    ensures ListedBefore(data, order[k], order[l])
  {
    hide Among, FirstEntries, Emitted, IsFirstEntry;
    var p, q := AmongInOrder(FirstEntries(data), Emitted(order[cut..]), k - cut, l - cut);
    assert order[cut..][k - cut] == order[k] && order[cut..][l - cut] == order[l];
    var a, b := FirstEntriesInOrder(data, p, q);
  }
}
