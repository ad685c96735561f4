/** Reading an SIO file: every category is a sequence of frames with a cursor of its own. */
module SioReaders {
  import opened Options
  import opened SioBlocks
  import opened SioLayout
  import opened SioFiles

  /** The input stream; reading leaves it at the next record. */
  class InStream {
    const file: File
    var pos: nat

    constructor (file: File)
      ensures this.file == file && pos == 0
    {
      this.file, pos := file, 0;
    }

    method Seek(p: nat)
      modifies this
      ensures pos == p
    {
      pos := p;
    }

    /** None where no record starts. */
    method ReadRecord() returns (r: Option<Record>)
      modifies this
      ensures var i := StartsAt(file.records, old(pos));
        if i.Some? && i.value < |file.records|
        then r == Some(file.records[i.value]) && pos == old(pos) + file.records[i.value].size
        else r == None
    {
      var i := StartsAt(file.records, pos);
      if i.None? || i.value >= |file.records| { return None; }
      r := Some(file.records[i.value]);
      pos := pos + file.records[i.value].size;
    }
  }

  lemma {:induction false} EarlierEntriesComeFirst(ws: seq<Entry>, category: string)
    requires |ws| > 0 && ws[|ws| - 1].category == category
    ensures |Select(ws, category)| > 0
    ensures Select(ws, category)[0] == |ws| - 1 <==> forall i :: 0 <= i < |ws| - 1 ==> ws[i].category != category
  {
    var front := ws[..|ws| - 1];
    SelectIsInOrder(front, category);
    if Select(front, category) != [] {
      assert ws[Select(front, category)[0]] == front[Select(front, category)[0]];
    }
  }

  /** The version that a header states. */
  function VersionIn(header: Record): Option<int> {
    var block := header.Block(VERSION_BLOCK);
    if block.Some? && |block.value| > 0 && block.value[0].Num? then Some(block.value[0].n) else None
  }

  class SIOReader {
    const stream: InStream
    var nameCtr: map<string, nat>
    var toc: Toc
    var fileVersion: Option<int>
    var definitions: Pairs
    /** What was written to the file. */
    ghost const header: Record
    ghost const entries: seq<Entry>

    ghost predicate Valid()
      reads this, stream
    {
      Stored(stream.file, header, entries) && Fits(stream.file) && toc == TocOf(header.size, entries)
      && forall n :: n in nameCtr ==> nameCtr[n] < WORD
    }

    /** The entries of a category. */
    ghost function Entries(name: string): seq<nat>
      reads this
    {
      Select(entries, name)
    }

    /** How many entries of a category have been read; where nothing was read, none. */
    function Counter(name: string): nat
      reads this
    {
      if name in nameCtr then nameCtr[name] else 0
    }

    constructor OpenFile(file: File, ghost header: Record, ghost entries: seq<Entry>, ghost written: Pairs)
      requires Stored(file, header, entries) && Fits(file)
      requires HasDefinitions(entries[|entries| - 1], written) && |written| < INT_LIMIT
      requires forall i :: 0 <= i < |entries| - 1 ==> entries[i].table.blocks.Keys == {TABLE_BLOCK}
      ensures Valid() && fresh(stream) && nameCtr == map[] && this.entries == entries && stream.file == file
      ensures fileVersion == VersionIn(header)
      ensures definitions ==
        if forall i :: 0 <= i < |entries| - 1 ==> entries[i].category != RESERVED then written else []
    {
      hide Stored, Fits, TocOf, MapTokens, StartsAt, Upper, Bytes, Select;
      stream := new InStream(file);
      nameCtr, toc, fileVersion, definitions := map[], [], None, [];
      this.header, this.entries := header, entries;
      new;
      TocStart(file, header, entries);
      LastIsReserved(file, header, entries);
      var _ := ReadFileTOCRecord();
      ReadPodioHeader();
      ReadEDMDefinitions(written);
    }

    /** Looks for the marker at the end of the file; without it there is no table of contents. */
    method ReadFileTOCRecord() returns (found: bool)
      requires toc == []
      requires Upper(stream.file.lastWord) == MARKER ==> Stored(stream.file, header, entries) && Fits(stream.file)
      modifies stream, this`toc
      ensures found <==> Upper(stream.file.lastWord) == MARKER
      ensures toc == (if found then TocOf(header.size, entries) else []) && stream.pos == 0
    {
      hide Stored, Fits, TocOf, MapTokens, Upper, Lower, StartsAt;
      if Upper(stream.file.lastWord) == MARKER {
        TocStart(stream.file, header, entries);
        FewEntries(stream.file, header, entries);
        TocIsStored(stream.file, header, entries);
        stream.Seek(Lower(stream.file.lastWord));
        var record := stream.ReadRecord();
        var device := new Device(record.value.Block(TOC_NAME).value);
        assert device.tokens[0..] == device.tokens;
        toc := ReadToc(device, TocOf(header.size, entries));
        stream.Seek(0);
        return true;
      }
      stream.Seek(0);
      return false;
    }

    method ReadPodioHeader()
      requires Valid() && stream.pos == 0
      modifies stream, this`fileVersion
      ensures Valid()
      ensures fileVersion == if VersionIn(header).Some? then VersionIn(header) else old(fileVersion)
    {
      HeaderIsFirst(stream.file, header, entries);
      hide Stored, Fits, TocOf, StartsAt;
      var record := stream.ReadRecord();
      if record.Some? {
        var block := record.value.Block(VERSION_BLOCK);
        if block.Some? && |block.value| > 0 && block.value[0].Num? { fileVersion := Some(block.value[0].n); }
      }
    }

    /** A frame written under the reserved name hides the definitions. */
    method ReadEDMDefinitions(ghost written: Pairs)
      requires Valid() && definitions == [] && |written| < INT_LIMIT && |entries| > 0
      requires HasDefinitions(entries[|entries| - 1], written)
      requires forall i :: 0 <= i < |entries| - 1 ==> entries[i].table.blocks.Keys == {TABLE_BLOCK}
      modifies stream, this`definitions
      ensures Valid()
      ensures definitions ==
        if forall i :: 0 <= i < |entries| - 1 ==> entries[i].category != RESERVED then written else []
    {
      hide Stored, Fits, TocOf, MapTokens, Lookup, StartsAt, Select;
      PositionOf(stream.file, header, entries, RESERVED, 0);
      LastIsReserved(stream.file, header, entries);
      EarlierEntriesComeFirst(entries, RESERVED);
      var recordPos := GetPosition(toc, RESERVED, 0);
      if recordPos == 0 { return; }
      stream.Seek(recordPos);
      var record := stream.ReadRecord();
      if record.Some? {
        var block := record.value.Block(EDM_BLOCK);
        if block.Some? {
          var device := new Device(block.value);
          assert device.tokens[0..] == device.tokens;
          definitions := device.ReadMapLike(written);
        }
      }
    }

    /** The next entry of a category, or None after the last; other cursors stay. */
    method ReadNextEntry(name: string) returns (r: Option<(Record, Record)>)
      requires Valid()
      modifies stream, this`nameCtr
      ensures Valid()
      ensures old(Counter(name)) < |Entries(name)| ==>
        var i := Entries(name)[old(Counter(name))];
        i < |entries| && entries[i].category == name && r == Some((entries[i].table, entries[i].data))
        && nameCtr == old(nameCtr)[name := old(Counter(name)) + 1]
      ensures old(Counter(name)) >= |Entries(name)| ==> r == None && nameCtr == old(nameCtr)[name := old(Counter(name))]
    {
      hide Stored, Fits, TocOf, MapTokens, Lookup, StartsAt, Select;
      PositionOf(stream.file, header, entries, name, Counter(name));
      nameCtr := nameCtr[name := Counter(name)];
      var recordPos := GetPosition(toc, name, nameCtr[name]);
      if recordPos == 0 { return None; }
      stream.Seek(recordPos);
      var table := stream.ReadRecord();
      var data := stream.ReadRecord();
      if table.None? || data.None? { return None; }
      nameCtr := nameCtr[name := nameCtr[name] + 1];
      return Some((table.value, data.value));
    }

    /** Jumps to an entry; reading continues after it. */
    method ReadEntry(name: string, entry: uint32) returns (r: Option<(Record, Record)>)
      requires Valid()
      modifies stream, this`nameCtr
      ensures Valid()
      ensures entry < |Entries(name)| ==>
        var i := Entries(name)[entry];
        i < |entries| && r == Some((entries[i].table, entries[i].data)) && nameCtr == old(nameCtr)[name := entry + 1]
      ensures entry >= |Entries(name)| ==> r == None && nameCtr == old(nameCtr)[name := entry]
    {
      hide Stored, Fits, TocOf, MapTokens, Select;
      nameCtr := nameCtr[name := entry];
      r := ReadNextEntry(name);
    }

    method GetEntries(name: string) returns (n: nat)
      requires Valid()
      ensures n == |Entries(name)|
    {
      n := GetNRecords(toc, name);
      TocIsIndex(header.size, entries, name);
    }

    /** All names in the table of contents but the reserved one. */
    method GetAvailableCategories() returns (names: seq<string>)
      requires Valid()
      ensures forall c :: c in names <==> c in Categories(entries) && c != RESERVED
      ensures forall i, j :: 0 <= i < j < |names| ==> names[i] != names[j]
    {
      hide Stored, Fits, TocOf, MapTokens, Select;
      names := [];
      NamesOfToc(header.size, entries);
      for i := 0 to |toc|
        invariant forall c :: c in names <==> c in Names(toc[..i]) && c != RESERVED
        invariant forall k, l :: 0 <= k < l < |names| ==> names[k] != names[l]
      {
        assert toc[..i + 1] == toc[..i] + [toc[i]];
        NewName(toc, i);
        if toc[i].0 != RESERVED { names := names + [toc[i].0]; }
      }
      assert toc[..|toc|] == toc;
    }
  }

  lemma TocIsStored(file: File, header: Record, ws: seq<Entry>)
    requires Stored(file, header, ws)
    ensures |ws| > 0 && ws[|ws| - 1].data.Block(TOC_NAME) == Some(TocTokens(TocOf(header.size, ws)))
  {
  }

  lemma LastIsReserved(file: File, header: Record, ws: seq<Entry>)
    requires Stored(file, header, ws)
    ensures |ws| > 0 && ws[|ws| - 1].category == RESERVED
  {
  }

  lemma HeaderIsFirst(file: File, header: Record, ws: seq<Entry>)
    requires Stored(file, header, ws)
    ensures |file.records| > 0 && file.records[0] == header && StartsAt(file.records, 0) == Some(0)
  {
    hide Bytes, Flat, StartsAt, TocOf;
    assert file.records[..0] == [];
    StartIsFound(file.records, 0);
    NoBytes();
  }

  lemma NoBytes()
    ensures Bytes([]) == 0
  {
  }

  /** The position of an entry is not zero, and its two records are found there. */
  lemma PositionOf(file: File, header: Record, ws: seq<Entry>, name: string, c: nat)
    requires Stored(file, header, ws) && Fits(file)
    ensures |Lookup(TocOf(header.size, ws), name)| == |Select(ws, name)| < INT_LIMIT
    ensures c < |Select(ws, name)| ==>
      var i, p, rs := Select(ws, name)[c], Lookup(TocOf(header.size, ws), name)[c], file.records;
      && i < |ws| && ws[i].category == name && p != 0 && |rs| == 1 + 2 * |ws|
      && StartsAt(rs, p) == Some(1 + 2 * i) && rs[1 + 2 * i] == ws[i].table
      && StartsAt(rs, p + ws[i].table.size) == Some(2 + 2 * i) && rs[2 + 2 * i] == ws[i].data
  {
    hide Bytes, Flat, StartsAt, TocOf, Lookup, Select, Records, Start;
    TocIsIndex(header.size, ws, name);
    SelectIsShort(ws, name);
    FewEntries(file, header, ws);
    if c < |Select(ws, name)| {
      var i := Select(ws, name)[c];
      SelectIsInOrder(ws, name);
      EntryIsFound(header, ws, i);
      StartFits(file, 1 + 2 * i);
      NextStart(file.records, 1 + 2 * i);
      StartIsFound(file.records, 2 + 2 * i);
    }
  }

  function Categories(ws: seq<Entry>): set<string> { set e | e in ws :: e.category }

  function Names(toc: Toc): set<string> { set t | t in toc :: t.0 }

  /** The names in a table of contents are the categories, each once. */
  lemma {:induction false} NamesOfToc(h: nat, ws: seq<Entry>)
    ensures Names(TocOf(h, ws)) == Categories(ws)
    ensures var t := TocOf(h, ws); forall i, j :: 0 <= i < j < |t| ==> t[i].0 != t[j].0
  {
    if ws != [] {
      var n := |ws| - 1;
      var t, name := TocOf(h, ws[..n]), ws[n].category;
      NamesOfToc(h, ws[..n]);
      NameAdded(t, name, Start(h, ws, n) % WORD);
      hide TocOf, AddTo, Start, Names;
      CategoryAdded(ws);
    }
  }

  lemma CategoryAdded(ws: seq<Entry>)
    requires ws != []
    ensures Categories(ws) == Categories(ws[..|ws| - 1]) + {ws[|ws| - 1].category}
  {
    assert ws == ws[..|ws| - 1] + [ws[|ws| - 1]];
  }

  lemma NewName(t: Toc, i: nat)
    requires i < |t| && forall j, k :: 0 <= j < k < |t| ==> t[j].0 != t[k].0
    ensures t[i].0 !in Names(t[..i])
  {
  }

  lemma NameAdded(t: Toc, name: string, p: nat)
    requires forall i, j :: 0 <= i < j < |t| ==> t[i].0 != t[j].0
    ensures Names(AddTo(t, name, p)) == Names(t) + {name}
    ensures var u := AddTo(t, name, p); forall i, j :: 0 <= i < j < |u| ==> u[i].0 != u[j].0
  {
    var u, k := AddTo(t, name, p), Index(t, name);
    BeforeIndex(t, name);
    assert u[k].0 == name && u[k] in u;
    forall c | c in Names(u) ensures c in Names(t) + {name} {
      var i :| 0 <= i < |u| && u[i].0 == c;
      if i < |t| { assert t[i] in t; }
    }
    forall c | c in Names(t) ensures c in Names(u) {
      var i :| 0 <= i < |t| && t[i].0 == c;
      assert u[i] in u;
    }
  }

  // ---------------------------------------------------------------------
  // Round trip

  /** ID table and data of a frame. */
  type Content = (seq<Token>, map<string, seq<Token>>)

  /** The frames of a category in the order in which they are written. */
  function FramesOf(frames: seq<(string, Frame)>, category: string): seq<Content> {
    if frames == [] then []
    else
      var n := |frames| - 1;
      var front := FramesOf(frames[..n], category);
      if frames[n].0 == category then front + [(frames[n].1.table, frames[n].1.data)] else front
  }

  predicate SameContent(e: Entry, c: Content) { e.table.blocks == map[TABLE_BLOCK := c.0] && e.data.blocks == c.1 }

  /** The entries of a category hold its frames. */
  lemma {:induction false} SelectedFrames(ws: seq<Entry>, frames: seq<(string, Frame)>, category: string)
    requires HoldAll(ws, frames)
    ensures |Select(ws, category)| == |FramesOf(frames, category)|
    ensures forall k :: 0 <= k < |Select(ws, category)| ==> Select(ws, category)[k] < |ws|
    ensures forall k :: 0 <= k < |Select(ws, category)| ==>
      SameContent(ws[Select(ws, category)[k]], FramesOf(frames, category)[k])
  {
    if ws != [] {
      var n := |ws| - 1;
      var front := Select(ws[..n], category);
      SelectedFrames(ws[..n], frames[..n], category);
      assert Holds(ws[n], frames[n]);
      assert forall k :: 0 <= k < |front| ==> ws[..n][front[k]] == ws[front[k]];
    }
  }

  lemma DefinitionsDoNotCount(ws: seq<Entry>, category: string)
    requires ws != [] && ws[|ws| - 1].category == RESERVED && category != RESERVED
    ensures Select(ws, category) == Select(ws[..|ws| - 1], category)
  {
  }

  /** Reads a category to its end. */
  method ReadCategory(reader: SIOReader, category: string) returns (read: seq<(Record, Record)>)
    requires reader.Valid() && reader.nameCtr == map[]
    modifies reader`nameCtr, reader.stream
    ensures reader.Valid() && |read| == |reader.Entries(category)|
    ensures forall k :: 0 <= k < |read| ==>
      var i := reader.Entries(category)[k];
      i < |reader.entries| && read[k] == (reader.entries[i].table, reader.entries[i].data)
  {
    hide Select, Stored, Fits, TocOf;
    read := [];
    while true
      invariant reader.Valid() && |read| == reader.Counter(category) <= |reader.Entries(category)|
      invariant forall k :: 0 <= k < |read| ==>
        var i := reader.Entries(category)[k];
        i < |reader.entries| && read[k] == (reader.entries[i].table, reader.entries[i].data)
      decreases |reader.Entries(category)| - |read|
    {
      var next := reader.ReadNextEntry(category);
      if next.None? { return; }
      read := read + [next.value];
    }
  }

  method WriteAll(frames: seq<(string, Frame)>, sizes: seq<(nat, nat)>, writer: SIOWriter)
    requires writer.Valid() && !writer.finished && writer.frames == [] && |sizes| == |frames|
    requires forall i :: 0 <= i < |sizes| ==> 8 <= sizes[i].0 && 8 <= sizes[i].1
    modifies writer
    ensures writer.Valid() && !writer.finished && writer.frames == frames && writer.records[0] == old(writer.records[0])
    ensures Bytes(writer.records) == old(Bytes(writer.records)) + SumSizes(sizes)
  {
    hide Records, AllValid, TocOf, HoldAll, ModelsOf, Bytes;
    for i := 0 to |frames|
      invariant writer.Valid() && !writer.finished && writer.frames == frames[..i]
      invariant writer.records[0] == old(writer.records[0])
      invariant Bytes(writer.records) == old(Bytes(writer.records)) + SumSizes(sizes[..i])
    {
      SumSizesSnoc(sizes, i);
      writer.WriteFrame(frames[i].1, frames[i].0, sizes[i].0, sizes[i].1);
      assert frames[..i + 1] == frames[..i] + [frames[i]];
    }
    assert frames[..|frames|] == frames && sizes[..|frames|] == sizes;
  }

  /** What the records of all frames take up. */
  function SumSizes(sizes: seq<(nat, nat)>): nat {
    if sizes == [] then 0
    else SumSizes(sizes[..|sizes| - 1]) + sizes[|sizes| - 1].0 + sizes[|sizes| - 1].1
  }

  lemma SumSizesSnoc(sizes: seq<(nat, nat)>, i: nat)
    requires i < |sizes|
    ensures SumSizes(sizes[..i + 1]) == SumSizes(sizes[..i]) + sizes[i].0 + sizes[i].1
  {
    assert sizes[..i + 1][..i] == sizes[..i];
  }

  /** Some frame is written under the name of the definitions. */
  predicate Reserved(frames: seq<(string, Frame)>) { exists i :: 0 <= i < |frames| && frames[i].0 == RESERVED }

  method Contents(read: seq<(Record, Record)>, ghost ws: seq<Entry>, ghost frames: seq<(string, Frame)>,
                  category: string)
    returns (contents: seq<Content>)
    requires |ws| == |frames| + 1 && HoldAll(ws[..|frames|], frames) && ws[|frames|].category == RESERVED
    requires category != RESERVED && |read| == |Select(ws, category)|
    requires forall k :: 0 <= k < |read| ==>
      (Select(ws, category)[k] < |ws|
       && read[k] == (ws[Select(ws, category)[k]].table, ws[Select(ws, category)[k]].data))
    ensures contents == FramesOf(frames, category)
  {
    hide Select, HoldAll, FramesOf;
    contents := [];
    DefinitionsDoNotCount(ws, category);
    SelectedFrames(ws[..|frames|], frames, category);
    ghost var f := FramesOf(frames, category);
    for k := 0 to |read|
      invariant contents == f[..k]
    {
      assert SameContent(ws[Select(ws, category)[k]], f[k]);
      contents := contents + [(read[k].0.blocks[TABLE_BLOCK], read[k].1.blocks)];
    }
  }

  /** Follows the position in the last word, and says whether the record there is the table
      of contents, which ends where the last word starts. */
  method LastWordLeadsToToc(file: File, ghost header: Record, ghost ws: seq<Entry>) returns (found: bool)
    requires Stored(file, header, ws)
    ensures found <==> Fits(file)
  {
    hide Records, TocOf, StartsAt, Bytes;
    var stream := new InStream(file);
    stream.Seek(Lower(file.lastWord));
    var record := stream.ReadRecord();
    found := record.Some? && stream.pos == Bytes(file.records);
    TocPosition(file, header, ws);
    TocFoundIff(file, header, ws);
    FoundAtStart(file.records, Lower(file.lastWord));
    var i := StartsAt(file.records, Lower(file.lastWord));
    if i.Some? {
      NextStart(file.records, i.value);
      OnlyLastEnds(file.records, i.value);
    }
  }

  lemma OnlyLastEnds(rs: seq<Record>, i: nat)
    requires AllValid(rs) && i < |rs|
    ensures Bytes(rs[..i + 1]) == Bytes(rs) <==> i == |rs| - 1
  {
    hide Bytes;
    if i == |rs| - 1 { assert rs[..i + 1] == rs; } else { BytesGrow(rs, i + 1); }
  }

  /** Frames of any categories are written in any order, and one category is read back. None
      stands for a file whose last word does not lead to its table of contents; by TocFoundIff
      that is one whose table of contents starts at 2^32 bytes or later. */
  method WriteAndRead(version: nat, frames: seq<(string, Frame)>, registry: Registry, headerSize: nat,
                      sizes: seq<(nat, nat)>, edmSize: nat, tocSize: nat, category: string)
    returns (loaded: Option<seq<Content>>, fileVersion: Option<int>, definitions: Pairs)
    requires |sizes| == |frames| && |registry| < INT_LIMIT
    requires 8 <= headerSize && 8 <= edmSize && 8 <= tocSize
    requires forall i :: 0 <= i < |sizes| ==> 8 <= sizes[i].0 && 8 <= sizes[i].1
    ensures loaded.Some? <==> headerSize + SumSizes(sizes) + edmSize < WORD
    ensures loaded.Some? && category != RESERVED ==> loaded.value == FramesOf(frames, category)
    ensures loaded.Some? ==> fileVersion == Some(version)
    ensures loaded.Some? ==> definitions == if Reserved(frames) then [] else Definitions(registry, ModelsOf(frames))
  {
    hide Records, AllValid, TocOf, ModelsOf, Definitions, Stored, Fits, Select, HoldAll, Reserved, Bytes, SumSizes;
    var writer := new SIOWriter(version, headerSize);
    HeaderBytes(writer.records[0]);
    WriteAll(frames, sizes, writer);
    ghost var header := writer.records[0];
    assert header.blocks[VERSION_BLOCK] == [Num(version)];
    var file := writer.Finish(registry, edmSize, tocSize);
    ghost var ws := writer.entries;
    FitsBySize(file, header, ws);
    var found := LastWordLeadsToToc(file, header, ws);
    if !found { return None, None, []; }
    ghost var written := Definitions(registry, ModelsOf(frames));
    FewDefinitions(registry, ModelsOf(frames));
    TablesOnly(ws, frames);
    var reader := new SIOReader.OpenFile(file, header, ws, written);
    var read := ReadCategory(reader, category);
    assert reader.entries == ws;
    fileVersion, definitions := reader.fileVersion, reader.definitions;
    loaded := Some([]);
    if category != RESERVED {
      var contents := Contents(read, ws, frames, category);
      loaded := Some(contents);
    }
  }

  lemma FitsBySize(file: File, header: Record, ws: seq<Entry>)
    requires Stored(file, header, ws)
    ensures Fits(file) <==> Bytes(file.records) - ws[|ws| - 1].data.size < WORD
  {
    hide Records, TocOf;
    TocPosition(file, header, ws);
  }

  lemma TablesOnly(ws: seq<Entry>, frames: seq<(string, Frame)>)
    requires |ws| == |frames| + 1 && HoldAll(ws[..|frames|], frames)
    ensures forall i :: 0 <= i < |ws| - 1 ==> ws[i].table.blocks.Keys == {TABLE_BLOCK}
    ensures Reserved(frames) <==> !(forall i :: 0 <= i < |ws| - 1 ==> ws[i].category != RESERVED)
  {
    forall i | 0 <= i < |ws| - 1 ensures ws[i].category == frames[i].0 && ws[i].table.blocks.Keys == {TABLE_BLOCK} {
      assert Holds(ws[..|frames|][i], frames[i]);
    }
  }
}
