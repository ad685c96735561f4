/** The layout of an SIO file: a header, two records for every frame, the definitions of
    the data models, the table of contents, and a last word with its position. */
module SioLayout {
  import opened Options
  import opened SioBlocks

  const RESERVED := "podio_SIO_EDMDefinitions"
  const TOC_NAME := "podio_SIO_TOC_Record"
  const WORD := 0x1_0000_0000
  const MARKER := 0xc001fea7

  type uint32 = n: nat | n < WORD

  /** A record takes up some bytes in the file; every record has a header. */
  datatype Record = Record(name: string, blocks: map<string, seq<Token>>, size: nat) {
    predicate Valid() { 8 <= size }
    function Block(n: string): Option<seq<Token>> { if n in blocks then Some(blocks[n]) else None }
  }

  /** The records of a file and its last eight bytes. */
  datatype File = File(records: seq<Record>, lastWord: nat)

  function Bytes(rs: seq<Record>): nat { if rs == [] then 0 else Bytes(rs[..|rs| - 1]) + rs[|rs| - 1].size }

  predicate AllValid(rs: seq<Record>) { forall i :: 0 <= i < |rs| ==> rs[i].Valid() }

  lemma {:induction false} BytesAdd(a: seq<Record>, b: seq<Record>)
    ensures Bytes(a + b) == Bytes(a) + Bytes(b)
  {
    if b == [] {
      assert a + b == a;
    } else {
      assert (a + b)[..|a + b| - 1] == a + b[..|b| - 1];
      BytesAdd(a, b[..|b| - 1]);
    }
  }

  /** The index of the record that starts at a position. */
  function StartsAt(rs: seq<Record>, p: nat): Option<nat> {
    if rs == [] then None
    else if Bytes(rs[..|rs| - 1]) == p then Some(|rs| - 1)
    else StartsAt(rs[..|rs| - 1], p)
  }

  lemma {:induction false} BytesGrow(rs: seq<Record>, i: nat)
    requires AllValid(rs) && i < |rs|
    ensures Bytes(rs[..i]) + 8 <= Bytes(rs[..i + 1]) <= Bytes(rs)
  {
    assert rs[..i + 1][..i] == rs[..i];
    if i + 1 < |rs| {
      var front := rs[..|rs| - 1];
      BytesGrow(front, i);
      assert front[..i] == rs[..i] && front[..i + 1] == rs[..i + 1];
    } else {
      assert rs[..i + 1] == rs;
    }
  }

  /** Different records start at different positions. */
  lemma {:induction false} StartIsFound(rs: seq<Record>, i: nat)
    requires AllValid(rs) && i < |rs|
    ensures StartsAt(rs, Bytes(rs[..i])) == Some(i)
  {
    if i < |rs| - 1 {
      var front := rs[..|rs| - 1];
      assert front[..i] == rs[..i];
      BytesGrow(front, i);
      StartIsFound(front, i);
    }
  }

  // ---------------------------------------------------------------------
  // The table of contents

  function Index(toc: Toc, name: string): (i: nat)
    ensures i <= |toc| && (i < |toc| ==> toc[i].0 == name)
  {
    if toc == [] || toc[0].0 == name then 0 else 1 + Index(toc[1..], name)
  }

  function Lookup(toc: Toc, name: string): seq<nat> {
    if Index(toc, name) < |toc| then toc[Index(toc, name)].1 else []
  }

  function AddTo(toc: Toc, name: string, pos: nat): Toc {
    var i := Index(toc, name);
    if i < |toc| then toc[i := (name, toc[i].1 + [pos])] else toc + [(name, [pos])]
  }

  lemma {:induction false} IndexIsFirst(toc: Toc, name: string, i: nat)
    requires i <= |toc| && (i < |toc| ==> toc[i].0 == name) && forall j :: 0 <= j < i ==> toc[j].0 != name
    ensures Index(toc, name) == i
  {
    if i > 0 {
      assert forall j :: 0 <= j < i - 1 ==> toc[1..][j].0 == toc[j + 1].0;
      IndexIsFirst(toc[1..], name, i - 1);
    }
  }

  lemma {:induction false} BeforeIndex(toc: Toc, name: string)
    ensures forall j :: 0 <= j < Index(toc, name) ==> toc[j].0 != name
  {
    if toc != [] && toc[0].0 != name {
      BeforeIndex(toc[1..], name);
      forall j | 0 <= j < Index(toc, name) ensures toc[j].0 != name {
        if j > 0 { assert toc[j] == toc[1..][j - 1]; }
      }
    }
  }

  lemma LookupAdded(toc: Toc, name: string, pos: nat, other: string)
    ensures Lookup(AddTo(toc, name, pos), other) ==
      if other == name then Lookup(toc, name) + [pos] else Lookup(toc, other)
  {
    hide Index;
    var t, i, k := AddTo(toc, name, pos), Index(toc, name), Index(toc, other);
    BeforeIndex(toc, name);
    BeforeIndex(toc, other);
    if other == name { IndexIsFirst(t, name, i); }
    else if k < |toc| { IndexIsFirst(t, other, k); }
    else { IndexIsFirst(t, other, |t|); }
  }

  // ---------------------------------------------------------------------
  // What has been written

  /** A frame as written: its category, the record of its ID table and that of its data. */
  datatype Entry = Entry(category: string, table: Record, data: Record)

  function Flat(ws: seq<Entry>): seq<Record> {
    if ws == [] then [] else Flat(ws[..|ws| - 1]) + [ws[|ws| - 1].table, ws[|ws| - 1].data]
  }

  /** Where an entry starts in the file, after a header of `h` bytes. */
  function Start(h: nat, ws: seq<Entry>, i: nat): nat
    requires i <= |ws|
  {
    h + Bytes(Flat(ws[..i]))
  }

  /** The table of contents; positions are 32 bit numbers. */
  function TocOf(h: nat, ws: seq<Entry>): Toc {
    if ws == [] then []
    else AddTo(TocOf(h, ws[..|ws| - 1]), ws[|ws| - 1].category, Start(h, ws, |ws| - 1) % WORD)
  }

  /** The entries of a category, in the order in which they were written. */
  function Select(ws: seq<Entry>, category: string): seq<nat> {
    if ws == [] then []
    else
      var front := Select(ws[..|ws| - 1], category);
      if ws[|ws| - 1].category == category then front + [|ws| - 1] else front
  }

  lemma {:induction false} SelectIsInOrder(ws: seq<Entry>, category: string)
    ensures forall k :: 0 <= k < |Select(ws, category)| ==>
      Select(ws, category)[k] < |ws| && ws[Select(ws, category)[k]].category == category
    ensures forall k, l :: 0 <= k < l < |Select(ws, category)| ==> Select(ws, category)[k] < Select(ws, category)[l]
    ensures forall i :: 0 <= i < |ws| && ws[i].category == category ==> i in Select(ws, category)
  {
    if ws != [] { SelectIsInOrder(ws[..|ws| - 1], category); }
  }

  lemma {:induction false} SelectIsShort(ws: seq<Entry>, category: string)
    ensures |Select(ws, category)| <= |ws|
  {
    if ws != [] { SelectIsShort(ws[..|ws| - 1], category); }
  }

  /** The table of contents lists, for every category, where its entries start. */
  lemma {:induction false} TocIsIndex(h: nat, ws: seq<Entry>, category: string)
    ensures |Lookup(TocOf(h, ws), category)| == |Select(ws, category)|
    ensures forall k :: 0 <= k < |Select(ws, category)| ==>
      (Select(ws, category)[k] < |ws|
       && Lookup(TocOf(h, ws), category)[k] == Start(h, ws, Select(ws, category)[k]) % WORD)
  {
    hide Lookup, AddTo, Index, Bytes, Flat;
    if ws != [] {
      var n := |ws| - 1;
      var front := ws[..n];
      TocIsIndex(h, front, category);
      LookupAdded(TocOf(h, front), ws[n].category, Start(h, ws, n) % WORD, category);
      forall k | 0 <= k < |Select(front, category)| ensures
        Start(h, front, Select(front, category)[k]) == Start(h, ws, Select(front, category)[k])
      {
        var i := Select(front, category)[k];
        assert front[..i] == ws[..i];
      }
    } else {
      NothingListed(category);
    }
  }

  lemma NothingListed(category: string)
    ensures Lookup([], category) == []
  {
  }

  lemma {:induction false} FlatParts(ws: seq<Entry>, i: nat)
    requires i < |ws|
    ensures |Flat(ws)| == 2 * |ws| && Flat(ws)[2 * i] == ws[i].table && Flat(ws)[2 * i + 1] == ws[i].data
    ensures Flat(ws)[..2 * i] == Flat(ws[..i])
  {
    var front := ws[..|ws| - 1];
    if i < |ws| - 1 {
      FlatParts(front, i);
      assert front[..i] == ws[..i];
      assert Flat(ws)[..2 * i] == Flat(front)[..2 * i];
    } else {
      FlatLength(front);
      assert ws[..i] == front;
    }
  }

  lemma {:induction false} FlatLength(ws: seq<Entry>)
    ensures |Flat(ws)| == 2 * |ws|
  {
    if ws != [] { FlatLength(ws[..|ws| - 1]); }
  }

  /** All the records of a file. */
  function Records(header: Record, ws: seq<Entry>): seq<Record> { [header] + Flat(ws) }

  lemma EntryRecords(header: Record, ws: seq<Entry>, i: nat)
    requires i < |ws|
    ensures var rs := Records(header, ws);
      && |rs| == 1 + 2 * |ws| && rs[0] == header && rs[1 + 2 * i] == ws[i].table && rs[2 + 2 * i] == ws[i].data
      && rs[..1 + 2 * i] == [header] + Flat(ws[..i])
  {
    FlatParts(ws, i);
    hide Flat;
    assert Records(header, ws)[..1 + 2 * i] == [header] + Flat(ws)[..2 * i];
  }

  /** At the start of an entry the reader finds its first record, and the second after it. */
  lemma EntryIsFound(header: Record, ws: seq<Entry>, i: nat)
    requires i < |ws| && AllValid(Records(header, ws))
    ensures var rs := Records(header, ws);
      && |rs| == 1 + 2 * |ws| && rs[1 + 2 * i] == ws[i].table && rs[2 + 2 * i] == ws[i].data
      && Start(header.size, ws, i) == Bytes(rs[..1 + 2 * i])
      && StartsAt(rs, Start(header.size, ws, i)) == Some(1 + 2 * i)
      && 8 <= Start(header.size, ws, i) < Bytes(rs)
  {
    hide Flat, Bytes, StartsAt, Records;
    var rs := Records(header, ws);
    EntryRecords(header, ws, i);
    BytesAdd([header], Flat(ws[..i]));
    HeaderBytes(header);
    StartIsFound(rs, 1 + 2 * i);
    BytesGrow(rs, 1 + 2 * i);
  }

  lemma HeaderBytes(header: Record)
    ensures Bytes([header]) == header.size
  {
    assert [header][..0] == [];
  }

  // ---------------------------------------------------------------------
  // The last word

  /** Marker in the upper half, position in the lower half. */
  function LastWord(position: nat): nat { MARKER * WORD + position % WORD }

  function Upper(word: nat): nat { word / WORD % WORD }
  function Lower(word: nat): nat { word % WORD }

  lemma LastWordIs(position: nat)
    ensures LastWord(position) == 0xc001fea7 * 0x1_0000_0000 + position % 0x1_0000_0000
  {
  }

  lemma LastWordSplits(position: nat)
    ensures Upper(LastWord(position)) == MARKER && Lower(LastWord(position)) == position % WORD
  {
    var low := position % WORD;
    assert LastWord(position) / WORD == MARKER;
  }

  // ---------------------------------------------------------------------
  // A complete file

  /** The file of a finished writer: `ws` ends with the definitions and the table of contents. */
  ghost predicate Stored(file: File, header: Record, ws: seq<Entry>) {
    && file.records == Records(header, ws) && AllValid(file.records)
    && |ws| > 0 && ws[|ws| - 1].category == RESERVED
    && ws[|ws| - 1].data.Block(TOC_NAME) == Some(TocTokens(TocOf(header.size, ws)))
    && file.lastWord == LastWord(Start(header.size, ws, |ws| - 1) + ws[|ws| - 1].table.size)
  }

  /** The last record, which is the table of contents, starts below 2^32 bytes; it may end
      beyond. This is what 32 bit positions demand (see TocFoundIff). */
  ghost predicate Fits(file: File) {
    file.records != [] && Bytes(file.records[..|file.records| - 1]) < WORD
  }

  /** Then every record starts below 2^32 bytes. */
  lemma StartFits(file: File, i: nat)
    requires Fits(file) && AllValid(file.records) && i < |file.records|
    ensures Bytes(file.records[..i]) < WORD
  {
    var front := file.records[..|file.records| - 1];
    if i < |front| {
      BytesGrow(front, i);
      assert front[..i] == file.records[..i];
    }
  }

  lemma TocStart(file: File, header: Record, ws: seq<Entry>)
    requires Stored(file, header, ws) && Fits(file)
    ensures Upper(file.lastWord) == MARKER
    ensures StartsAt(file.records, Lower(file.lastWord)) == Some(2 * |ws|)
    ensures |file.records| == 2 * |ws| + 1 && file.records[2 * |ws|] == ws[|ws| - 1].data
  {
    hide Flat, Bytes, StartsAt, LastWord, Upper, Lower, TocOf;
    TocPosition(file, header, ws);
    StartFits(file, 2 * |ws|);
    StartIsFound(file.records, 2 * |ws|);
  }

  /** The last word holds the lower half of the position of the last record. */
  lemma TocPosition(file: File, header: Record, ws: seq<Entry>)
    requires Stored(file, header, ws)
    ensures |file.records| == 2 * |ws| + 1 && file.records[2 * |ws|] == ws[|ws| - 1].data
    ensures Upper(file.lastWord) == MARKER
    ensures Lower(file.lastWord) == Bytes(file.records[..2 * |ws|]) % WORD
  {
    hide Flat, Bytes, StartsAt, LastWord, Upper, Lower, TocOf;
    var n := |ws| - 1;
    EntryIsFound(header, ws, n);
    LastWordSplits(Start(header.size, ws, n) + ws[n].table.size);
    NextStart(file.records, 1 + 2 * n);
  }

  lemma {:induction false} FoundAtStart(rs: seq<Record>, p: nat)
    ensures var i := StartsAt(rs, p); i.Some? ==> i.value < |rs| && Bytes(rs[..i.value]) == p
  {
    if rs != [] {
      var front := rs[..|rs| - 1];
      FoundAtStart(front, p);
      assert StartsAt(front, p).Some? && StartsAt(front, p).value < |front| ==>
        front[..StartsAt(front, p).value] == rs[..StartsAt(front, p).value];
    }
  }

  /** The last word leads to the table of contents exactly if that starts below 2^32 bytes. */
  lemma TocFoundIff(file: File, header: Record, ws: seq<Entry>)
    requires Stored(file, header, ws)
    ensures StartsAt(file.records, Lower(file.lastWord)) == Some(2 * |ws|) <==> Fits(file)
  {
    hide Flat, StartsAt, TocOf, Upper, Lower;
    TocPosition(file, header, ws);
    if Fits(file) { TocStart(file, header, ws); }
    FoundAtStart(file.records, Lower(file.lastWord));
  }

  lemma NextStart(rs: seq<Record>, i: nat)
    requires i < |rs|
    ensures Bytes(rs[..i + 1]) == Bytes(rs[..i]) + rs[i].size
  {
    assert rs[..i + 1][..i] == rs[..i];
  }

  lemma {:induction false} FewNames(h: nat, ws: seq<Entry>)
    ensures |TocOf(h, ws)| <= |ws|
  {
    if ws != [] { FewNames(h, ws[..|ws| - 1]); }
  }

  lemma {:induction false} FewRecords(rs: seq<Record>)
    requires AllValid(rs)
    ensures 8 * |rs| <= Bytes(rs)
  {
    if rs != [] { FewRecords(rs[..|rs| - 1]); }
  }

  /** A file that fits has fewer than 2^31 entries and categories. */
  lemma FewEntries(file: File, header: Record, ws: seq<Entry>)
    requires Stored(file, header, ws) && Fits(file)
    ensures |ws| < INT_LIMIT && |TocOf(header.size, ws)| < INT_LIMIT
  {
    FewRecords(file.records[..|file.records| - 1]);
    FlatLength(ws);
    FewNames(header.size, ws);
  }
}
