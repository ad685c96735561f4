/** Blocks of an SIO record as sequences of values: maps, generic parameters and the
    table of contents, written and read back. */
module SioBlocks {

  /** What a device writes and reads in one call. */
  datatype Token =
    Num(n: int) | Text(s: string) | Positions(ps: seq<nat>) | Numbers(ns: seq<int>) | Texts(ss: seq<string>)

  type Pairs = seq<(string, Token)>

  const INT_LIMIT := 0x8000_0000

  /** Conversion of a size to a 32 bit signed integer. */
  function ToInt(n: nat): int {
    var m := n % 0x1_0000_0000;
    if m < INT_LIMIT then m else m - 0x1_0000_0000
  }

  /** The 32 bit signed integer that has the same lowest 32 bits. */
  lemma ToIntIs(n: nat)
    ensures -0x8000_0000 <= ToInt(n) < 0x8000_0000 && (n - ToInt(n)) % 0x1_0000_0000 == 0
  {
  }

  // ---------------------------------------------------------------------
  // Maps and vectors of pairs

  function PairTokens(kvs: Pairs): seq<Token> {
    if kvs == [] then [] else PairTokens(kvs[..|kvs| - 1]) + [Text(kvs[|kvs| - 1].0), kvs[|kvs| - 1].1]
  }

  function MapTokens(kvs: Pairs): seq<Token> { [Num(ToInt(|kvs|))] + PairTokens(kvs) }

  lemma PairsSnoc(kvs: Pairs, k: string, v: Token)
    ensures PairTokens(kvs + [(k, v)]) == PairTokens(kvs) + [Text(k), v]
  {
    assert (kvs + [(k, v)])[..|kvs|] == kvs;
  }

  lemma {:induction false} PairTokensAt(kvs: Pairs, i: nat)
    requires i < |kvs|
    ensures |PairTokens(kvs)| == 2 * |kvs|
    ensures PairTokens(kvs)[2 * i] == Text(kvs[i].0) && PairTokens(kvs)[2 * i + 1] == kvs[i].1
  {
    if i < |kvs| - 1 {
      PairTokensAt(kvs[..|kvs| - 1], i);
    } else if |kvs| > 1 {
      PairTokensAt(kvs[..|kvs| - 1], 0);
    }
  }

  lemma PairTokensLength(kvs: Pairs)
    ensures |PairTokens(kvs)| == 2 * |kvs|
  {
    if kvs != [] { PairTokensAt(kvs, 0); }
  }

  lemma Tokens(kvs: Pairs)
    ensures MapTokens(kvs) == [Num(ToInt(|kvs|))] + PairTokens(kvs)
  {
  }

  lemma MapTokensAre(kvs: Pairs)
    ensures |MapTokens(kvs)| == 1 + 2 * |kvs| && (|kvs| < 0x8000_0000 ==> MapTokens(kvs)[0] == Num(|kvs|))
    ensures forall i :: 0 <= i < |kvs| ==>
      MapTokens(kvs)[1 + 2 * i] == Text(kvs[i].0) && MapTokens(kvs)[2 + 2 * i] == kvs[i].1
  {
    hide PairTokens;
    PairTokensLength(kvs);
    forall i | 0 <= i < |kvs|
      ensures MapTokens(kvs)[1 + 2 * i] == Text(kvs[i].0) && MapTokens(kvs)[2 + 2 * i] == kvs[i].1
    {
      PairTokensAt(kvs, i);
    }
  }

  /** A device that reads from, or appends to, a sequence of values. */
  class Device {
    var tokens: seq<Token>
    var pos: nat

    constructor (tokens: seq<Token>)
      ensures this.tokens == tokens && pos == 0
    {
      this.tokens, pos := tokens, 0;
    }

    predicate Valid()
      reads this
    {
      pos <= |tokens|
    }

    method Write(t: Token)
      modifies this`tokens
      ensures tokens == old(tokens) + [t]
    {
      tokens := tokens + [t];
    }

    method Read() returns (t: Token)
      requires pos < |tokens|
      modifies this`pos
      ensures pos == old(pos) + 1 && t == tokens[old(pos)]
    {
      t := tokens[pos];
      pos := pos + 1;
    }

    /** Writes anything that iterates like a map. */
    method WriteMapLike(kvs: Pairs)
      modifies this`tokens
      ensures tokens == old(tokens) + MapTokens(kvs)
      ensures var n := |old(tokens)|;
        && |tokens| == n + 1 + 2 * |kvs| && (|kvs| < 0x8000_0000 ==> tokens[n] == Num(|kvs|))
        && tokens[n].Num? && -0x8000_0000 <= tokens[n].n < 0x8000_0000 && (|kvs| - tokens[n].n) % 0x1_0000_0000 == 0
        && forall i :: 0 <= i < |kvs| ==>
             tokens[n + 1 + 2 * i] == Text(kvs[i].0) && tokens[n + 2 + 2 * i] == kvs[i].1
    {
      hide PairTokens, MapTokens, ToInt;
      MapTokensAre(kvs);
      ToIntIs(|kvs|);
      NoPairTokens();
      assert MapTokens(kvs) == [Num(ToInt(|kvs|))] + PairTokens(kvs) by { Tokens(kvs); }
      Write(Num(ToInt(|kvs|)));
      for i := 0 to |kvs|
        invariant tokens == old(tokens) + [Num(ToInt(|kvs|))] + PairTokens(kvs[..i])
      {
        PairsSnoc(kvs[..i], kvs[i].0, kvs[i].1);
        assert kvs[..i + 1] == kvs[..i] + [(kvs[i].0, kvs[i].1)];
        Write(Text(kvs[i].0));
        Write(kvs[i].1);
      }
      assert kvs[..|kvs|] == kvs;
    }

    /** What was written as a map is next. */
    ghost predicate Next(kvs: Pairs)
      reads this
    {
      |kvs| < INT_LIMIT && pos <= |tokens| && MapTokens(kvs) <= tokens[pos..]
    }

    /** Reads a vector of pairs. */
    method ReadMapLike(ghost kvs: Pairs) returns (result: Pairs)
      requires Next(kvs)
      modifies this`pos
      ensures result == kvs && pos == old(pos) + |MapTokens(kvs)|
    {
      hide PairTokens;
      PairTokensLength(kvs);
      assert tokens[pos] == tokens[pos..][0] == MapTokens(kvs)[0];
      var first := Read();
      var size := first.n;
      result := [];
      while size != 0
        invariant 0 <= size <= |kvs| && result == kvs[..|kvs| - size]
        invariant pos == old(pos) + 1 + 2 * |result|
        decreases size
      {
        PairTokensAt(kvs, |result|);
        assert tokens[pos] == tokens[old(pos)..][1 + 2 * |result|] == MapTokens(kvs)[1 + 2 * |result|];
        assert tokens[pos + 1] == tokens[old(pos)..][2 + 2 * |result|] == MapTokens(kvs)[2 + 2 * |result|];
        var key := Read();
        var value := Read();
        result := result + [(key.s, value)];
        size := size - 1;
      }
    }
  }

  // ---------------------------------------------------------------------
  // Maps by key

  /** The map of pairs with different keys. */
  function ToMap(kvs: Pairs): map<string, Token> {
    if kvs == [] then map[] else ToMap(kvs[..|kvs| - 1])[kvs[|kvs| - 1].0 := kvs[|kvs| - 1].1]
  }

  predicate DistinctKeys(kvs: Pairs) { forall i, j :: 0 <= i < j < |kvs| ==> kvs[i].0 != kvs[j].0 }

  lemma {:induction false} KeysOfMap(kvs: Pairs)
    ensures forall k :: k in ToMap(kvs) <==> exists i :: 0 <= i < |kvs| && kvs[i].0 == k
  {
    if kvs != [] {
      var front := kvs[..|kvs| - 1];
      KeysOfMap(front);
      forall k ensures k in ToMap(kvs) <==> exists i :: 0 <= i < |kvs| && kvs[i].0 == k {
        if k in ToMap(front) {
          var i :| 0 <= i < |front| && front[i].0 == k;
          assert kvs[i].0 == k;
        }
        if i :| 0 <= i < |kvs| && kvs[i].0 == k && i < |kvs| - 1 { assert front[i].0 == k; }
      }
    }
  }

  /** The value of a key is the one of its pair. */
  lemma {:induction false} ValuesOfMap(kvs: Pairs, i: nat)
    requires DistinctKeys(kvs) && i < |kvs|
    ensures kvs[i].0 in ToMap(kvs) && ToMap(kvs)[kvs[i].0] == kvs[i].1
  {
    var front := kvs[..|kvs| - 1];
    if i < |front| {
      ValuesOfMap(front, i);
      assert front[i] == kvs[i];
    }
  }

  /** The parameters of a frame: one map for each supported type of values. */
  datatype GenericParameters = GenericParameters(
    ints: map<string, Token>, floats: map<string, Token>, strings: map<string, Token>, doubles: map<string, Token>)

  /** Any order in which a map may be iterated. */
  ghost predicate Iterates(kvs: Pairs, m: map<string, Token>) { DistinctKeys(kvs) && ToMap(kvs) == m }

  lemma NoPairs()
    ensures DistinctKeys([]) && ToMap([]) == map[]
  {
  }

  lemma OnePairMore(kvs: Pairs, k: string, v: Token)
    requires DistinctKeys(kvs) && k !in ToMap(kvs)
    ensures DistinctKeys(kvs + [(k, v)]) && ToMap(kvs + [(k, v)]) == ToMap(kvs)[k := v]
  {
    KeysOfMap(kvs);
    assert (kvs + [(k, v)])[..|kvs|] == kvs;
  }

  lemma OneKeyLess(m: map<string, Token>, k: string)
    requires k in m
    ensures |m - {k}| == |m| - 1
  {
    assert (m - {k}).Keys == m.Keys - {k};
    assert |m.Keys| == |m| && |(m - {k}).Keys| == |m - {k}|;
  }

  /** The pairs of a map, in some order. */
  method Iterate(m: map<string, Token>) returns (kvs: Pairs)
    ensures Iterates(kvs, m) && |kvs| == |m|
  {
    hide ToMap, DistinctKeys;
    kvs := [];
    var todo := m;
    NoPairs();
    while todo != map[]
      invariant DistinctKeys(kvs) && |kvs| + |todo| == |m|
      invariant forall k :: k in ToMap(kvs) <==> k in m && k !in todo
      invariant forall k :: k in ToMap(kvs) ==> ToMap(kvs)[k] == m[k]
      invariant forall k :: k in todo ==> k in m && todo[k] == m[k]
      decreases |todo|
    {
      var k :| k in todo;
      OnePairMore(kvs, k, todo[k]);
      OneKeyLess(todo, k);
      kvs, todo := kvs + [(k, todo[k])], todo - {k};
    }
  }

  method WriteMap(device: Device, m: map<string, Token>) returns (ghost kvs: Pairs)
    modifies device`tokens
    ensures Iterates(kvs, m) && |kvs| == |m| && device.tokens == old(device.tokens) + MapTokens(kvs)
  {
    hide MapTokens, Iterates, ToMap, DistinctKeys;
    var pairs := Iterate(m);
    kvs := pairs;
    device.WriteMapLike(pairs);
  }

  method WriteGenericParameters(device: Device, p: GenericParameters)
    returns (ghost i: Pairs, ghost f: Pairs, ghost s: Pairs, ghost d: Pairs)
    modifies device`tokens
    ensures Iterates(i, p.ints) && Iterates(f, p.floats) && Iterates(s, p.strings) && Iterates(d, p.doubles)
    ensures |i| == |p.ints| && |f| == |p.floats| && |s| == |p.strings| && |d| == |p.doubles|
    ensures device.tokens == old(device.tokens) + ParameterTokens(i, f, s, d)
  {
    hide MapTokens, Iterates, ToMap, DistinctKeys;
    ghost var before := device.tokens;
    i := WriteMap(device, p.ints);
    f := WriteMap(device, p.floats);
    s := WriteMap(device, p.strings);
    d := WriteMap(device, p.doubles);
    AppendFour(before, MapTokens(i), MapTokens(f), MapTokens(s), MapTokens(d));
  }

  lemma AppendFour(before: seq<Token>, a: seq<Token>, b: seq<Token>, c: seq<Token>, d: seq<Token>)
    ensures before + a + b + c + d == before + (a + b + c + d)
  {
    AppendTwo(before, a, b);
    AppendTwo(before, a + b, c);
    AppendTwo(before, a + b + c, d);
  }

  lemma AppendTwo(before: seq<Token>, a: seq<Token>, b: seq<Token>)
    ensures before + a + b == before + (a + b)
  {
  }

  function ParameterTokens(i: Pairs, f: Pairs, s: Pairs, d: Pairs): seq<Token> {
    MapTokens(i) + MapTokens(f) + MapTokens(s) + MapTokens(d)
  }

  /** Major version in the upper, minor version in the lower half; 0.2 is 2. */
  function Version(major: nat, minor: nat): nat { 0x1_0000 * major + minor }

  /** Adds pairs to a map; a key that is there already keeps its value. */
  function Emplace(m: map<string, Token>, k: string, v: Token): map<string, Token> { if k in m then m else m[k := v] }

  method ReadMap(device: Device, ghost kvs: Pairs) returns (m: map<string, Token>)
    requires device.Next(kvs) && DistinctKeys(kvs)
    modifies device`pos
    ensures m == ToMap(kvs) && device.pos == old(device.pos) + |MapTokens(kvs)|
  {
    var pairs := device.ReadMapLike(kvs);
    m := map[];
    for i := 0 to |pairs|
      invariant m == ToMap(pairs[..i]) && device.pos == old(device.pos) + |MapTokens(kvs)|
    {
      KeysOfMap(pairs[..i]);
      assert pairs[..i + 1][..i] == pairs[..i];
      m := Emplace(m, pairs[i].0, pairs[i].1);
    }
    assert pairs[..|pairs|] == pairs;
  }

  /** What is read are the parameters that were written; before version 0.2 there were no doubles. */
  method ReadGenericParameters(device: Device, version: nat, ghost i: Pairs, ghost f: Pairs, ghost s: Pairs,
                               ghost d: Pairs)
    returns (p: GenericParameters)
    requires DistinctKeys(i) && DistinctKeys(f) && DistinctKeys(s) && DistinctKeys(d)
    requires |i| < INT_LIMIT && |f| < INT_LIMIT && |s| < INT_LIMIT && |d| < INT_LIMIT
    requires device.pos <= |device.tokens| && device.tokens[device.pos..] ==
      if version >= Version(0, 2) then ParameterTokens(i, f, s, d) else MapTokens(i) + MapTokens(f) + MapTokens(s)
    modifies device`pos
    ensures p == GenericParameters(ToMap(i), ToMap(f), ToMap(s), if version >= Version(0, 2) then ToMap(d) else map[])
    ensures p.doubles == if version >= 2 then ToMap(d) else map[]
    ensures device.pos == |device.tokens|
  {
    hide MapTokens, ToMap, Device.Next;
    ghost var n := device.pos;
    ghost var last := if version >= Version(0, 2) then MapTokens(d) else [];
    assert MapTokens(i) + MapTokens(f) + MapTokens(s) + last == device.tokens[n..];
    Consecutive(device, MapTokens(i), MapTokens(f), MapTokens(s), last);
    NextAt(device, i);
    var ints := ReadMap(device, i);
    NextAt(device, f);
    var floats := ReadMap(device, f);
    NextAt(device, s);
    var strings := ReadMap(device, s);
    p := GenericParameters(ints, floats, strings, map[]);
    if version >= Version(0, 2) {
      NextAt(device, d);
      var doubles := ReadMap(device, d);
      p := p.(doubles := doubles);
    }
  }

  /** Where the parts of the rest of a device start. */
  lemma Consecutive(device: Device, a: seq<Token>, b: seq<Token>, c: seq<Token>, d: seq<Token>)
    requires device.pos <= |device.tokens| && a + b + c + d == device.tokens[device.pos..]
    ensures var t, n, ab := device.tokens, device.pos, |a| + |b|;
      && a <= t[n..] && n + |a| <= |t| && b <= t[n + |a|..]
      && n + ab <= |t| && c <= t[n + ab..]
      && n + ab + |c| <= |t| && t[n + ab + |c|..] == d && n + ab + |c| + |d| == |t|
  {
    var t, n := device.tokens, device.pos;
    assert t[n + |a|..] == t[n..][|a|..] == b + c + d;
    assert t[n + |a| + |b|..] == t[n + |a|..][|b|..] == c + d;
    assert t[n + |a| + |b| + |c|..] == t[n + |a| + |b|..][|c|..] == d;
  }

  lemma NextAt(device: Device, kvs: Pairs)
    requires device.pos <= |device.tokens| && MapTokens(kvs) <= device.tokens[device.pos..] && |kvs| < INT_LIMIT
    ensures device.Next(kvs)
  {
  }

  /** Parameters survive being written and read at the current version. */
  method ParametersRoundTrip(p: GenericParameters) returns (q: GenericParameters)
    requires |p.ints| < INT_LIMIT && |p.floats| < INT_LIMIT && |p.strings| < INT_LIMIT && |p.doubles| < INT_LIMIT
    ensures q == p
  {
    hide ParameterTokens, ToMap;
    var device := new Device([]);
    ghost var i, f, s, d := WriteGenericParameters(device, p);
    assert device.tokens[0..] == ParameterTokens(i, f, s, d);
    q := ReadGenericParameters(device, Version(0, 2), i, f, s, d);
  }

  // ---------------------------------------------------------------------
  // The table of contents

  type Toc = seq<(string, seq<nat>)>

  function TocPairs(toc: Toc): Pairs { seq(|toc|, i requires 0 <= i < |toc| => (toc[i].0, Positions(toc[i].1))) }

  function TocTokens(toc: Toc): seq<Token> { MapTokens(TocPairs(toc)) }

  method WriteToc(device: Device, toc: Toc)
    modifies device`tokens
    ensures device.tokens == old(device.tokens) + TocTokens(toc)
  {
    hide PairTokens;
    device.Write(Num(ToInt(|toc|)));
    NoPairTokens();
    for i := 0 to |toc|
      invariant device.tokens == old(device.tokens) + [Num(ToInt(|toc|))] + PairTokens(TocPairs(toc)[..i])
    {
      PairsSnoc(TocPairs(toc)[..i], toc[i].0, Positions(toc[i].1));
      assert TocPairs(toc)[..i + 1] == TocPairs(toc)[..i] + [(toc[i].0, Positions(toc[i].1))];
      device.Write(Text(toc[i].0));
      device.Write(Positions(toc[i].1));
    }
    assert TocPairs(toc)[..|toc|] == TocPairs(toc);
  }

  lemma NoPairTokens()
    ensures PairTokens([]) == []
  {
  }

  method ReadToc(device: Device, ghost toc: Toc) returns (result: Toc)
    requires |toc| < INT_LIMIT && device.pos <= |device.tokens| && TocTokens(toc) <= device.tokens[device.pos..]
    modifies device`pos
    ensures result == toc
  {
    hide PairTokens;
    ghost var kvs, start := TocPairs(toc), device.pos;
    PairTokensLength(kvs);
    assert device.tokens[start] == device.tokens[start..][0] == MapTokens(kvs)[0];
    var first := device.Read();
    var size := first.n;
    result := [];
    while size != 0
      invariant 0 <= size <= |toc| && result == toc[..|toc| - size]
      invariant device.pos == start + 1 + 2 * |result|
      decreases size
    {
      ghost var k := 1 + 2 * |result|;
      PairTokensAt(kvs, |result|);
      assert device.tokens[start + k] == device.tokens[start..][k] == MapTokens(kvs)[k];
      assert device.tokens[start + k + 1] == device.tokens[start..][k + 1] == MapTokens(kvs)[k + 1];
      var name := device.Read();
      var positions := device.Read();
      result := result + [(name.s, positions.ps)];
      size := size - 1;
    }
  }
}
