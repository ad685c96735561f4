/** Splitting the events of a data source into ranges for slots, and handing them out. */
module EntryRanges {
  const WORD := 0x1_0000_0000
  const LONG := 0x1_0000_0000_0000_0000

  type Range = (nat, nat)

  /** Conversion to a 32 bit signed integer, and the products that are taken with it. */
  function ToInt(n: nat): int {
    var m := n % WORD;
    if m < WORD / 2 then m else m - WORD
  }

  function Product64(a: int, b: int): nat { a * b % LONG }
  function Product32(a: int, b: int): nat { a * b % WORD }

  /** Ranges of `n / k` events, of which the last one also gets the rest. */
  function Ranges(n: nat, k: nat): seq<Range>
    requires 1 <= k <= n
  {
    seq(k, i requires 0 <= i < k => RangeAt(n, k, i))
  }

  function RangeAt(n: nat, k: nat, i: nat): Range
    requires 1 <= k <= n && i < k
  {
    Product(n / k, i, k);
    Product(n / k, i + 1, k);
    (n / k * i, if i < k - 1 then n / k * (i + 1) else n)
  }

  lemma RangeCount(n: nat, k: nat)
    requires 1 <= k <= n
    ensures |Ranges(n, k)| == k
  {
  }

  lemma Product(q: nat, i: nat, k: nat)
    requires i <= k
    ensures 0 <= q * i <= q * k
  {
  }

  lemma Quotient(n: nat, k: nat)
    requires 1 <= k
    ensures n / k * k <= n < n / k * k + k && (n >= k ==> n / k >= 1)
  {
  }

  /** The ranges are not empty, follow each other and cover all events; the last one is
      longer than the others by less than the number of slots. */
  lemma RangesPartition(n: nat, k: nat)
    requires 1 <= k <= n
    ensures var r := Ranges(n, k);
      && r[0].0 == 0 && r[k - 1].1 == n
      && (forall i :: 0 <= i < k ==> r[i].0 < r[i].1)
      && (forall i :: 0 < i < k ==> r[i - 1].1 == r[i].0)
      && (forall i :: 0 <= i < k - 1 ==> r[i].1 - r[i].0 == n / k)
      && n / k <= r[k - 1].1 - r[k - 1].0 < n / k + k
  {
    var q := n / k;
    Quotient(n, k);
    assert q * (k - 1) == q * k - q;
    forall i | 0 <= i < k ensures q * i < q * (i + 1) && q * (i + 1) - q * i == q {}
  }

  /** Every event is in exactly one range. */
  lemma EventInOneRange(n: nat, k: nat, event: nat) returns (slot: nat)
    requires 1 <= k <= n && event < n
    ensures slot < k && Ranges(n, k)[slot].0 <= event < Ranges(n, k)[slot].1
    ensures forall i :: 0 <= i < k && Ranges(n, k)[i].0 <= event < Ranges(n, k)[i].1 ==> i == slot
  {
    var r := Ranges(n, k);
    RangesPartition(n, k);
    slot := Last(r, event);
    forall i | 0 <= i < k && r[i].0 <= event < r[i].1 ensures i == slot {
      if i < slot { Ordered(r, i, slot); } else if slot < i { Ordered(r, slot, i); }
    }
  }

  ghost predicate Chained(r: seq<Range>) {
    && (forall i :: 0 <= i < |r| ==> r[i].0 < r[i].1)
    && (forall i :: 0 < i < |r| ==> r[i - 1].1 == r[i].0)
  }

  lemma {:induction false} Ordered(r: seq<Range>, i: nat, j: nat)
    requires Chained(r) && i < j < |r|
    ensures r[i].1 <= r[j].0
  {
    if i < j - 1 { Ordered(r, i, j - 1); }
  }

  lemma {:induction false} Last(r: seq<Range>, event: nat) returns (i: nat)
    requires Chained(r) && r != [] && r[0].0 <= event < r[|r| - 1].1
    ensures i < |r| && r[i].0 <= event < r[i].1
  {
    var n := |r| - 1;
    if r[n].0 <= event {
      i := n;
    } else {
      assert r[n - 1].1 == r[n].0;
      i := Last(r[..n], event);
    }
  }

  class DataSource {
    const nEvents: nat
    var nSlots: nat
    var rangesAll: seq<Range>
    var rangesAvailable: seq<Range>

    /** As many events as are requested and there are; a 32 bit number of them. */
    constructor (nEvents: nat)
      requires 1 <= nEvents < WORD
      ensures this.nEvents == nEvents && nSlots == 1 && rangesAll == rangesAvailable == []
    {
      this.nEvents, nSlots := nEvents, 1;
      rangesAll, rangesAvailable := [], [];
    }

    /** False if there are too few events. */
    method SetNSlots(slots: nat) returns (ok: bool)
      requires 1 <= slots < 0x1_0000_0000 && 1 <= nEvents < 0x1_0000_0000
      modifies this
      ensures ok <==> slots <= nEvents
      ensures nSlots == slots
      ensures ok ==> rangesAll == old(rangesAll) + Ranges(nEvents, slots) && rangesAvailable == rangesAll
      ensures !ok ==> rangesAll == old(rangesAll) && rangesAvailable == old(rangesAvailable)
    {
      nSlots := slots;
      if nSlots > nEvents { return false; }
      hide Ranges, ToInt, Product32, Product64;
      var eventsPerSlot := ToInt(nEvents / nSlots);
      RangeCount(nEvents, nSlots);
      for i := 0 to nSlots - 1
        invariant nSlots == slots && rangesAvailable == old(rangesAvailable)
        invariant rangesAll == old(rangesAll) + Ranges(nEvents, slots)[..i]
      {
        SlotRange(nEvents, slots, i);
        assert Ranges(nEvents, slots)[..i + 1] == Ranges(nEvents, slots)[..i] + [Ranges(nEvents, slots)[i]];
        rangesAll := rangesAll + [(Product64(eventsPerSlot, i), Product64(eventsPerSlot, i + 1))];
      }
      LastRange(nEvents, slots);
      rangesAll := rangesAll + [(Product32(eventsPerSlot, nSlots - 1), nEvents)];
      assert Ranges(nEvents, slots) == Ranges(nEvents, slots)[..slots - 1] + [Ranges(nEvents, slots)[slots - 1]];
      rangesAvailable := rangesAll;
      return true;
    }

    /** At most one range for every slot. */
    method GetEntryRanges() returns (r: seq<Range>)
      requires nSlots >= 1
      modifies this`rangesAvailable
      ensures r + rangesAvailable == old(rangesAvailable) && |r| <= nSlots
      ensures rangesAvailable != [] ==> |r| == nSlots
    {
      r := [];
      for i := 0 to |rangesAvailable|
        invariant i < nSlots && r == rangesAvailable[..i] && rangesAvailable == old(rangesAvailable)
      {
        r := r + [rangesAvailable[i]];
        if |r| >= nSlots { break; }
      }
      if |rangesAvailable| > nSlots {
        rangesAvailable := rangesAvailable[nSlots..];
      } else {
        rangesAvailable := [];
      }
    }

    /** Asking until there is nothing more gives every range once, in order. */
    method DrainRanges() returns (r: seq<Range>)
      requires nSlots >= 1
      modifies this`rangesAvailable
      ensures r == old(rangesAvailable) && rangesAvailable == []
    {
      r := [];
      while true
        invariant r + rangesAvailable == old(rangesAvailable)
        decreases |rangesAvailable|
      {
        var more := GetEntryRanges();
        r := r + more;
        if more == [] { return; }
      }
    }
  }

  lemma SmallInt(q: nat)
    requires q < WORD / 2
    ensures ToInt(q) == q
  {
  }

  lemma SmallProduct(q: nat, i: nat, k: nat)
    requires i <= k && q * k < WORD
    ensures Product64(q, i) == Product32(q, i) == q * i
  {
    Product(q, i, k);
  }

  /** The number of events in a slot fits into an int, unless there is only one slot. */
  lemma EventsFit(n: nat, k: nat)
    requires 1 <= k <= n < WORD
    ensures k > 1 ==> ToInt(n / k) == n / k
    ensures n / k * k < WORD
  {
    Quotient(n, k);
    var q := n / k;
    if k > 1 {
      Product(q, 2, k);
      SmallInt(q);
    }
  }

  lemma SlotRange(n: nat, k: nat, i: nat)
    requires 1 <= k <= n < WORD && i < k - 1
    ensures |Ranges(n, k)| == k && Ranges(n, k)[i] == (Product64(ToInt(n / k), i), Product64(ToInt(n / k), i + 1))
  {
    hide ToInt, Product64, Product32;
    EventsFit(n, k);
    SmallProduct(n / k, i, k);
    SmallProduct(n / k, i + 1, k);
  }

  lemma LastRange(n: nat, k: nat)
    requires 1 <= k <= n < WORD
    ensures |Ranges(n, k)| == k && Ranges(n, k)[k - 1] == (Product32(ToInt(n / k), k - 1), n)
  {
    hide ToInt, Product64;
    EventsFit(n, k);
    SmallProduct(n / k, k - 1, k);
  }

  function UpTo(n: nat): seq<nat> { seq(n, i => i) }

  lemma UpToSnoc(n: nat)
    ensures UpTo(n) + [n] == UpTo(n + 1) && UpTo(0) == []
  {
  }

  /** All events are processed, every one of them once, whatever the number of slots. */
  method Process(nEvents: nat, slots: nat) returns (ok: bool, events: seq<nat>)
    requires 1 <= nEvents < WORD && 1 <= slots < WORD
    ensures ok <==> slots <= nEvents
    ensures ok ==> events == UpTo(nEvents)
  {
    hide Ranges, UpTo, Chained;
    var source := new DataSource(nEvents);
    ok := source.SetNSlots(slots);
    events := [];
    if !ok { return; }
    var ranges := source.DrainRanges();
    assert ranges == Ranges(nEvents, slots);
    RangesAreChained(nEvents, slots);
    events := Visit(ranges);
  }

  lemma RangesAreChained(n: nat, k: nat)
    requires 1 <= k <= n
    ensures var r := Ranges(n, k); r != [] && r[0].0 == 0 && r[|r| - 1].1 == n && Chained(r)
  {
    RangesPartition(n, k);
    RangeCount(n, k);
    hide Ranges;
  }

  /** The events of ranges that follow each other, from the first one on. */
  method Visit(ranges: seq<Range>) returns (events: seq<nat>)
    requires ranges != [] && ranges[0].0 == 0 && Chained(ranges)
    ensures events == UpTo(ranges[|ranges| - 1].1)
  {
    hide UpTo;
    UpToSnoc(0);
    events := [];
    for i := 0 to |ranges|
      invariant events == UpTo(if i == 0 then 0 else ranges[i - 1].1)
    {
      for e := ranges[i].0 to ranges[i].1
        invariant events == UpTo(e)
      {
        UpToSnoc(e);
        events := events + [e];
      }
    }
  }
}
