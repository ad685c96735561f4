/** Entries of a category over several files: the accumulated offsets of the readers and
    the binary search in them find what the concatenation of the files has there. */
module RNTupleEntries {
  const LIMIT := 0x1_0000_0000

  /** How many entries a file has of each category that it has. */
  type File = map<string, nat>

  /** An opened reader: the index of its file, and its number of entries. */
  datatype Reader = Reader(file: nat, entries: nat)

  /** The entries of a category in all files: index of the file and entry there. */
  function AllEntries(files: seq<File>, category: string): seq<(nat, nat)> {
    if files == [] then []
    else
      var n := |files| - 1;
      AllEntries(files[..n], category)
      + if category in files[n] then Segment(n, files[n][category]) else []
  }

  function Segment(file: nat, n: nat): seq<(nat, nat)> { seq(n, i => (file, i)) }

  /** The offsets of the readers of the files in `files`, followed by their total. */
  ghost predicate Accumulated(files: seq<File>, category: string, readers: seq<Reader>, offsets: seq<nat>) {
    && |offsets| == |readers| + 1 && offsets[0] == 0 && offsets[|readers|] == |AllEntries(files, category)|
    && (forall r :: 0 <= r < |readers| ==>
          readers[r].file < |files| && offsets[r] + readers[r].entries == offsets[r + 1])
    && (forall r :: 0 <= r < |readers| ==> IsSegment(AllEntries(files, category), offsets[r], readers[r]))
  }

  ghost predicate IsSegment(all: seq<(nat, nat)>, offset: nat, reader: Reader) {
    offset + reader.entries <= |all| && all[offset..offset + reader.entries] == Segment(reader.file, reader.entries)
  }

  lemma OneMoreFile(files: seq<File>, category: string)
    requires files != []
    ensures var n := |files| - 1;
      AllEntries(files, category)
        == AllEntries(files[..n], category) + if category in files[n] then Segment(n, files[n][category]) else []
  {
  }

  lemma SegmentStays(a: seq<(nat, nat)>, b: seq<(nat, nat)>, offset: nat, reader: Reader)
    requires IsSegment(a, offset, reader)
    ensures IsSegment(a + b, offset, reader)
  {
    assert (a + b)[offset..offset + reader.entries] == a[offset..offset + reader.entries];
  }

  lemma SegmentAdded(a: seq<(nat, nat)>, reader: Reader)
    ensures IsSegment(a + Segment(reader.file, reader.entries), |a|, reader)
  {
  }

  lemma AnotherFile(files: seq<File>, category: string, readers: seq<Reader>, offsets: seq<nat>)
    requires files != [] && Accumulated(files[..|files| - 1], category, readers, offsets)
    ensures var n := |files| - 1;
      if category in files[n]
      then var r := Reader(n, files[n][category]);
        Accumulated(files, category, readers + [r], offsets + [offsets[|readers|] + r.entries])
      else Accumulated(files, category, readers, offsets)
  {
    hide AllEntries, IsSegment, Segment;
    var n := |files| - 1;
    var before, all := AllEntries(files[..n], category), AllEntries(files, category);
    OneMoreFile(files, category);
    var more := if category in files[n] then Segment(n, files[n][category]) else [];
    forall r | 0 <= r < |readers| ensures IsSegment(all, offsets[r], readers[r]) {
      SegmentStays(before, more, offsets[r], readers[r]);
    }
    if category in files[n] {
      SegmentAdded(before, Reader(n, files[n][category]));
      SegmentLength(n, files[n][category]);
    } else {
      assert all == before;
    }
  }

  lemma SegmentLength(file: nat, n: nat)
    ensures |Segment(file, n)| == n
  {
  }

  lemma {:induction false} OffsetsGrow(offsets: seq<nat>, readers: seq<Reader>, i: nat, j: nat)
    requires |offsets| == |readers| + 1 && i <= j < |offsets|
    requires forall r :: 0 <= r < |readers| ==> offsets[r] + readers[r].entries == offsets[r + 1]
    ensures offsets[i] <= offsets[j]
  {
    if i < j {
      OffsetsGrow(offsets, readers, i, j - 1);
      assert offsets[j - 1] + readers[j - 1].entries == offsets[j - 1 + 1];
    }
  }

  predicate NonDecreasing(s: seq<nat>) { forall i, j :: 0 <= i <= j < |s| ==> s[i] <= s[j] }

  /** The first position with a larger value, by bisection as the standard library does it. */
  method UpperBound(s: seq<nat>, value: nat) returns (upper: nat)
    requires NonDecreasing(s)
    ensures upper <= |s|
    ensures forall i :: 0 <= i < upper ==> s[i] <= value
    ensures forall i :: upper <= i < |s| ==> value < s[i]
  {
    upper := 0;
    var len: nat := |s|;
    while len > 0
      invariant upper + len <= |s|
      invariant forall i :: 0 <= i < upper ==> s[i] <= value
      invariant forall i :: upper + len <= i < |s| ==> value < s[i]
      decreases len
    {
      var half := len / 2;
      if value < s[upper + half] {
        len := half;
      } else {
        upper := upper + half + 1;
        len := len - half - 1;
      }
    }
  }

  /** The reader before the upper bound has the entry, even where others are empty. */
  lemma ReaderHasEntry(files: seq<File>, category: string, readers: seq<Reader>, offsets: seq<nat>, entry: nat,
                       upper: nat)
    requires Accumulated(files, category, readers, offsets) && entry < |AllEntries(files, category)|
    requires upper <= |readers|
    requires forall i :: 0 <= i < upper ==> offsets[i] <= entry
    requires forall i :: upper <= i < |readers| ==> entry < offsets[i]
    ensures 0 < upper
    ensures var r := readers[upper - 1];
      entry - offsets[upper - 1] < r.entries
      && AllEntries(files, category)[entry] == (r.file, entry - offsets[upper - 1])
  {
    var all := AllEntries(files, category);
    assert 0 < |readers|;
    assert offsets[0] == 0;
    var r, o := readers[upper - 1], offsets[upper - 1];
    assert entry < offsets[upper];
    assert IsSegment(all, o, r);
    assert all[entry] == all[o..o + r.entries][entry - o];
  }

  /** No entry of a file is listed twice: the place of an entry is unique. */
  lemma {:induction false} EntriesAreDistinct(files: seq<File>, category: string, i: nat, j: nat)
    requires i < j < |AllEntries(files, category)|
    ensures AllEntries(files, category)[i] != AllEntries(files, category)[j]
  {
    var n := |files| - 1;
    var before := AllEntries(files[..n], category);
    if j < |before| {
      EntriesAreDistinct(files[..n], category, i, j);
    } else if i < |before| {
      FilesOf(files[..n], category, i);
    }
  }

  /** Every entry listed is in its file, and every entry of a file is listed. */
  lemma {:induction false} FilesOf(files: seq<File>, category: string, i: nat)
    requires i < |AllEntries(files, category)|
    ensures AllEntries(files, category)[i].0 < |files|
    ensures category in files[AllEntries(files, category)[i].0]
    ensures AllEntries(files, category)[i].1 < files[AllEntries(files, category)[i].0][category]
  {
    var n := |files| - 1;
    var before := AllEntries(files[..n], category);
    OneMoreFile(files, category);
    if i < |before| {
      FilesOf(files[..n], category, i);
      assert files[..n][before[i].0] == files[before[i].0];
    }
  }

  lemma {:induction false} AllAreListed(files: seq<File>, category: string, f: nat, k: nat) returns (i: nat)
    requires f < |files| && category in files[f] && k < files[f][category]
    ensures i < |AllEntries(files, category)| && AllEntries(files, category)[i] == (f, k)
  {
    var n := |files| - 1;
    if f < n {
      i := AllAreListed(files[..n], category, f, k);
    } else {
      i := |AllEntries(files[..n], category)| + k;
    }
  }

  /** The entries of a file come after those of the files before it, each file's in its order. */
  lemma {:induction false} EntriesAreInOrder(files: seq<File>, category: string, i: nat, j: nat)
    requires i < j < |AllEntries(files, category)|
    ensures var a, b := AllEntries(files, category)[i], AllEntries(files, category)[j];
      a.0 < b.0 || (a.0 == b.0 && a.1 < b.1)
  {
    var n := |files| - 1;
    var before := AllEntries(files[..n], category);
    OneMoreFile(files, category);
    if j < |before| {
      EntriesAreInOrder(files[..n], category, i, j);
    } else if i < |before| {
      FilesOf(files[..n], category, i);
    }
  }

  datatype ReadResult = Null | NotAvailable(name: string) | Loaded(file: nat, entry: nat)

  /** What reading an entry has to give; `known` are the collections of the category. */
  function Expected(files: seq<File>, known: map<string, seq<string>>, category: string, entry: nat,
                    colls: seq<string>): ReadResult {
    var all := AllEntries(files, category);
    if entry >= |all| || category !in known then Null
    else
      var u := FirstUnknown(known[category], colls);
      if u < |colls| then NotAvailable(colls[u]) else Loaded(all[entry].0, all[entry].1)
  }

  /** The index of the first name that is not known. */
  function FirstUnknown(known: seq<string>, colls: seq<string>): (n: nat)
    ensures n <= |colls|
  {
    if colls == [] || colls[0] !in known then 0 else 1 + FirstUnknown(known, colls[1..])
  }

  lemma {:induction false} FirstUnknownIs(known: seq<string>, colls: seq<string>)
    ensures var n := FirstUnknown(known, colls);
      (n < |colls| ==> colls[n] !in known) && forall j :: 0 <= j < n ==> colls[j] in known
  {
    if colls != [] && colls[0] in known {
      FirstUnknownIs(known, colls[1..]);
      forall j | 0 <= j < FirstUnknown(known, colls) ensures colls[j] in known {
        if j > 0 { assert colls[j] == colls[1..][j - 1]; }
      }
    }
  }

  lemma ExpectedEntry(files: seq<File>, known: map<string, seq<string>>, category: string, entry: nat,
                      colls: seq<string>)
    ensures Expected(files, known, category, entry, colls).Loaded? ==> entry < |AllEntries(files, category)|
  {
  }

  class RNTupleReader {
    const files: seq<File>
    const known: map<string, seq<string>>
    var readers: map<string, seq<Reader>>
    var entries: map<string, nat>
    var readerEntries: map<string, seq<nat>>
    var totalEntries: map<string, nat>

    constructor (files: seq<File>, known: map<string, seq<string>>)
      requires forall c :: |AllEntries(files, c)| < 0x1_0000_0000
      ensures Valid() && this.files == files && this.known == known && entries == map[]
    {
      this.files, this.known := files, known;
      readers, entries, readerEntries, totalEntries := map[], map[], map[], map[];
    }

    /** The offsets of a category are those of its readers; the total is kept apart. */
    ghost predicate Indexed(c: string)
      requires c in readers && c in readerEntries && c in totalEntries
      reads `readers, `readerEntries, `totalEntries
    {
      Accumulated(files, c, readers[c], readerEntries[c] + [totalEntries[c]])
    }

    ghost predicate Valid()
      reads `readers, `readerEntries, `totalEntries
    {
      && (forall c :: |AllEntries(files, c)| < LIMIT)
      && (forall c :: c in readers ==> c in totalEntries)
      && (forall c :: c in totalEntries ==> c in readers && c in readerEntries && Indexed(c))
      && (forall c :: c in readerEntries ==> c in totalEntries)
    }

    function Cursor(c: string): nat
      reads this
    {
      if c in entries then entries[c] else 0
    }

    /** Opens the files that have the category and accumulates their numbers of entries. */
    method OpenReaders(name: string) returns (found: seq<Reader>, counts: seq<nat>)
      requires |AllEntries(files, name)| < LIMIT
      ensures Accumulated(files, name, found, counts)
    {
      hide AllEntries, Accumulated;
      NoFiles(name);
      found, counts := [], [0];
      for i := 0 to |files|
        invariant Accumulated(files[..i], name, found, counts)
      {
        assert files[..i + 1][..i] == files[..i];
        TotalIsLast(files[..i], name, found, counts);
        AnotherFile(files[..i + 1], name, found, counts);
        if name in files[i] {
          FewSoFar(files, name, i + 1);
          TotalIsLast(files[..i + 1], name, found + [Reader(i, files[i][name])],
                      counts + [counts[|found|] + files[i][name]]);
          found := found + [Reader(i, files[i][name])];
          counts := counts + [(counts[|counts| - 1] + files[i][name]) % LIMIT];
        }
      }
      assert files[..|files|] == files;
    }

    /** Opens the files at the first call. */
    method GetEntries(name: string) returns (n: nat)
      requires Valid()
      modifies `readers, `readerEntries, `totalEntries
      ensures Valid() && n == |AllEntries(files, name)| && name in totalEntries
    {
      hide AllEntries, Accumulated;
      if name !in readers {
        var found, counts := OpenReaders(name);
        TotalIsLast(files, name, found, counts);
        readers := readers[name := found];
        totalEntries := totalEntries[name := counts[|counts| - 1]];
        readerEntries := readerEntries[name := counts[..|counts| - 1]];
        assert readerEntries[name] + [totalEntries[name]] == counts;
      } else {
        TotalIsLast(files, name, readers[name], readerEntries[name] + [totalEntries[name]]);
      }
      return totalEntries[name];
    }

    /** The entry after the last one read of a category, or null after the last. */
    method ReadNextEntry(name: string, colls: seq<string>) returns (r: ReadResult)
      requires Valid()
      modifies this
      ensures Valid() && r == Expected(files, known, name, old(Cursor(name)), colls)
      ensures Cursor(name) == if r.Loaded? then old(Cursor(name)) + 1 else old(Cursor(name))
      ensures forall c :: c != name ==> Cursor(c) == old(Cursor(c))
    {
      hide AllEntries, Expected, RNTupleReader.Valid;
      ExpectedEntry(files, known, name, Cursor(name), colls);
      entries := entries[name := Cursor(name)];
      r := ReadEntry(name, entries[name], colls);
    }

    method ReadEntry(category: string, entNum: nat, colls: seq<string>) returns (r: ReadResult)
      requires Valid()
      modifies this
      ensures Valid() && r == Expected(files, known, category, entNum, colls)
      ensures entries == if r.Loaded? then old(entries)[category := entNum + 1] else old(entries)
      ensures r == Null <==> entNum >= |AllEntries(files, category)| || category !in known
      ensures r.Loaded? ==>
        (r.file, r.entry) == AllEntries(files, category)[entNum] && forall c :: c in colls ==> c in known[category]
      ensures r.NotAvailable? ==>
        exists i :: 0 <= i < |colls| && colls[i] == r.name && r.name !in known[category]
          && forall j :: 0 <= j < i ==> colls[j] in known[category]
    {
      hide AllEntries, Accumulated, FirstUnknown;
      if category !in totalEntries { var _ := GetEntries(category); }
      TotalIsLast(files, category, readers[category], readerEntries[category] + [totalEntries[category]]);
      if entNum >= totalEntries[category] { return Null; }
      if category !in known { return Null; }
      var unknown := FindUnknown(known[category], colls);
      FirstUnknownIs(known[category], colls);
      if unknown < |colls| { return NotAvailable(colls[unknown]); }
      entries := entries[category := entNum + 1];
      ghost var offsets := readerEntries[category] + [totalEntries[category]];
      GrowingOffsets(files, category, readers[category], offsets);
      assert offsets[..|readers[category]|] == readerEntries[category];
      var upper := UpperBound(readerEntries[category], entNum);
      ReaderHasEntry(files, category, readers[category], offsets, entNum, upper);
      var localEntry := entNum - readerEntries[category][upper - 1];
      return Loaded(readers[category][upper - 1].file, localEntry);
    }
  }

  lemma TotalIsLast(files: seq<File>, category: string, readers: seq<Reader>, offsets: seq<nat>)
    requires Accumulated(files, category, readers, offsets)
    ensures |offsets| == |readers| + 1 && offsets[|readers|] == |AllEntries(files, category)|
  {
  }

  lemma NoFiles(category: string)
    ensures Accumulated([], category, [], [0])
  {
  }

  lemma GrowingOffsets(files: seq<File>, category: string, readers: seq<Reader>, offsets: seq<nat>)
    requires Accumulated(files, category, readers, offsets)
    ensures NonDecreasing(offsets[..|readers|])
  {
    forall i, j | 0 <= i <= j < |readers| ensures offsets[i] <= offsets[j] { OffsetsGrow(offsets, readers, i, j); }
  }

  lemma {:induction false} FewSoFar(files: seq<File>, category: string, n: nat)
    requires n <= |files|
    ensures |AllEntries(files[..n], category)| <= |AllEntries(files, category)|
  {
    if n < |files| {
      var front := files[..|files| - 1];
      FewSoFar(front, category, n);
      assert front[..n] == files[..n];
    } else {
      assert files[..n] == files;
    }
  }

  method FindUnknown(known: seq<string>, colls: seq<string>) returns (i: nat)
    ensures i == FirstUnknown(known, colls)
  {
    i := 0;
    while i < |colls| && colls[i] in known
      invariant i <= |colls| && FirstUnknown(known, colls) == i + FirstUnknown(known, colls[i..])
    {
      assert colls[i..][1..] == colls[i + 1..];
      i := i + 1;
    }
  }

  /** Reading on and on gives all entries in order, and then only null. */
  method ReadAll(files: seq<File>, known: map<string, seq<string>>, category: string, more: nat)
    returns (read: seq<ReadResult>)
    requires forall c :: |AllEntries(files, c)| < 0x1_0000_0000
    requires category in known
    ensures |read| == |AllEntries(files, category)| + more
    ensures forall i :: 0 <= i < |read| ==> read[i] == EntryOrNull(files, category, i)
  {
    hide AllEntries, Expected, EntryOrNull, RNTupleReader.Valid;
    var reader := new RNTupleReader(files, known);
    var n := reader.GetEntries(category);
    read := [];
    for i := 0 to n + more
      invariant reader.Valid() && reader.files == files && reader.known == known && fresh(reader)
      invariant |read| == i && reader.Cursor(category) == if i < n then i else n
      invariant forall j :: 0 <= j < i ==> read[j] == EntryOrNull(files, category, j)
    {
      ExpectedWhole(files, known, category, if i < n then i else n);
      PastTheEnd(files, category, i);
      PastTheEnd(files, category, n);
      var r := reader.ReadNextEntry(category, []);
      read := read + [r];
    }
  }

  function EntryOrNull(files: seq<File>, category: string, i: nat): ReadResult {
    var all := AllEntries(files, category);
    if i < |all| then Loaded(all[i].0, all[i].1) else Null
  }

  lemma ExpectedWhole(files: seq<File>, known: map<string, seq<string>>, category: string, i: nat)
    requires category in known
    ensures Expected(files, known, category, i, []) == EntryOrNull(files, category, i)
  {
  }

  lemma PastTheEnd(files: seq<File>, category: string, i: nat)
    ensures EntryOrNull(files, category, i).Loaded? <==> i < |AllEntries(files, category)|
    ensures i >= |AllEntries(files, category)| ==> EntryOrNull(files, category, i) == Null
  {
  }
}
