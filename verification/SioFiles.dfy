/** Writing frames of any categories to an SIO file, and reading them back by category. */
module SioFiles {
  import opened Options
  import opened SioBlocks
  import opened SioLayout

  const EDM_BLOCK := "SIOMapBlockV2_KK_std__string_VV_std__string"
  const VERSION_BLOCK := "podio_version"
  const TABLE_BLOCK := "CollectionIDs"

  /** What a frame has to be written: its ID table, the blocks of its data, and the
      indices of the data models that it needs in the registry. */
  datatype Frame = Frame(table: seq<Token>, data: map<string, seq<Token>>, models: set<nat>)

  /** Names and definitions of the data models in the registry. */
  type Registry = seq<(string, string)>

  /** The definitions to write, in the order of the registry. */
  function Definitions(registry: Registry, models: set<nat>): Pairs {
    if registry == [] then []
    else
      var n := |registry| - 1;
      var front := Definitions(registry[..n], models);
      if n in models then front + [(registry[n].0, Text(registry[n].1))] else front
  }

  lemma {:induction false} FewDefinitions(registry: Registry, models: set<nat>)
    ensures |Definitions(registry, models)| <= |registry|
  {
    if registry != [] { FewDefinitions(registry[..|registry| - 1], models); }
  }

  /** They are those of the models that are needed. */
  lemma {:induction false} DefinitionsIff(registry: Registry, models: set<nat>, name: string, t: Token)
    ensures (name, t) in Definitions(registry, models) <==>
      exists i :: 0 <= i < |registry| && i in models && registry[i].0 == name && t == Text(registry[i].1)
  {
    if registry != [] {
      var n := |registry| - 1;
      var front := registry[..n];
      DefinitionsIff(front, models, name, t);
      if i :| 0 <= i < n && i in models && front[i].0 == name && t == Text(front[i].1) {
        assert registry[i] == front[i];
      }
      if i :| 0 <= i < |registry| && i in models && registry[i].0 == name && t == Text(registry[i].1) {
        assert i < n ==> front[i] == registry[i];
      }
    }
  }

  /** Two of them are in the order of their models. */
  lemma {:induction false} DefinitionsInOrder(registry: Registry, models: set<nat>, k: nat, l: nat)
    returns (i: nat, j: nat)
    requires k <= l < |Definitions(registry, models)|
    ensures i < |registry| && i in models && Definitions(registry, models)[k] == (registry[i].0, Text(registry[i].1))
    ensures j < |registry| && j in models && Definitions(registry, models)[l] == (registry[j].0, Text(registry[j].1))
    ensures k < l ==> i < j
  {
    var n := |registry| - 1;
    var front := Definitions(registry[..n], models);
    if l < |front| {
      i, j := DefinitionsInOrder(registry[..n], models, k, l);
    } else {
      j := n;
      if k < l { var m; i, m := DefinitionsInOrder(registry[..n], models, k, k); } else { i := n; }
    }
  }

  /** A model is needed if some frame needs it. */
  lemma {:induction false} NeededModels(frames: seq<(string, Frame)>, model: nat)
    ensures model in ModelsOf(frames) <==> exists i :: 0 <= i < |frames| && model in frames[i].1.models
  {
    if frames != [] {
      var n := |frames| - 1;
      NeededModels(frames[..n], model);
      if i :| 0 <= i < n && model in frames[..n][i].1.models { assert model in frames[i].1.models; }
      if i :| 0 <= i < |frames| && model in frames[i].1.models { assert i < n ==> frames[..n][i] == frames[i]; }
    }
  }

  method AddRecord(toc: Toc, name: string, startPos: uint32) returns (r: Toc)
    ensures r == AddTo(toc, name, startPos)
  {
    var i := FindRecord(toc, name);
    if i == |toc| { r := toc + [(name, [startPos])]; } else { r := toc[i := (name, toc[i].1 + [startPos])]; }
  }

  method FindRecord(toc: Toc, name: string) returns (i: nat)
    ensures i == Index(toc, name)
  {
    i := 0;
    while i < |toc| && toc[i].0 != name
      invariant i <= |toc| && forall j :: 0 <= j < i ==> toc[j].0 != name
    {
      i := i + 1;
    }
    IndexIsFirst(toc, name, i);
  }

  method GetNRecords(toc: Toc, name: string) returns (n: nat)
    ensures n == |Lookup(toc, name)|
  {
    var i := FindRecord(toc, name);
    n := if i < |toc| then |toc[i].1| else 0;
  }

  /** 0 if there is no such entry. */
  method GetPosition(toc: Toc, name: string, entry: nat) returns (p: nat)
    ensures p == if entry < |Lookup(toc, name)| then Lookup(toc, name)[entry] else 0
  {
    var i := FindRecord(toc, name);
    if i < |toc| && entry < |toc[i].1| { return toc[i].1[entry]; }
    return 0;
  }

  function ModelsOf(frames: seq<(string, Frame)>): set<nat> {
    if frames == [] then {} else ModelsOf(frames[..|frames| - 1]) + frames[|frames| - 1].1.models
  }

  /** An entry holds the frame: what is written are its category, ID table and data. */
  predicate Holds(e: Entry, w: (string, Frame)) {
    e.category == w.0 && e.table.blocks == map[TABLE_BLOCK := w.1.table] && e.data.blocks == w.1.data
  }

  /** The entry of a frame whose compressed records have the given sizes. */
  function EntryOf(category: string, frame: Frame, tableSize: nat, dataSize: nat): Entry {
    Entry(category, Record(category + "_HEADER", map[TABLE_BLOCK := frame.table], tableSize),
          Record(category, frame.data, dataSize))
  }

  predicate HoldAll(ws: seq<Entry>, frames: seq<(string, Frame)>) {
    |ws| == |frames| && forall i :: 0 <= i < |ws| ==> Holds(ws[i], frames[i])
  }

  /** The definitions of the data models are in the entry after the frames. */
  predicate HasDefinitions(e: Entry, definitions: Pairs) {
    e.category == RESERVED && e.table.Block(EDM_BLOCK) == Some(MapTokens(definitions))
  }

  class SIOWriter {
    var records: seq<Record>
    var toc: Toc
    var models: set<nat>
    var finished: bool
    /** The frames written so far, and their records in the file. */
    ghost var frames: seq<(string, Frame)>
    ghost var entries: seq<Entry>

    ghost predicate Valid()
      reads this
    {
      && |records| > 0 && records == Records(records[0], entries) && AllValid(records)
      && toc == TocOf(records[0].size, entries)
      && HoldAll(entries, frames) && models == ModelsOf(frames)
    }

    /** Writes the header; `size` is what it takes up in the file. */
    constructor (version: nat, size: nat)
      requires 8 <= size
      ensures Valid() && !finished && frames == []
      ensures records == [Record("podio_header_info", map["podio_version" := [Num(version)]], size)]
    {
      records := [Record("podio_header_info", map[VERSION_BLOCK := [Num(version)]], size)];
      toc, models, finished := [], {}, false;
      frames, entries := [], [];
    }

    /** Appends a record and returns where it starts. */
    method WriteRecord(name: string, blocks: map<string, seq<Token>>, size: nat) returns (start: nat)
      modifies this`records
      ensures records == old(records) + [Record(name, blocks, size)] && start == Bytes(old(records))
    {
      start := Bytes(records);
      records := records + [Record(name, blocks, size)];
    }

    /** Writes a frame; the sizes are those of the compressed records. */
    method WriteFrame(frame: Frame, category: string, tableSize: nat, dataSize: nat)
      requires Valid() && !finished && 8 <= tableSize && 8 <= dataSize
      modifies this
      ensures Valid() && !finished && frames == old(frames) + [(category, frame)]
      ensures entries == old(entries) + [EntryOf(category, frame, tableSize, dataSize)]
      ensures records[0] == old(records[0]) && Bytes(records) == old(Bytes(records)) + tableSize + dataSize
      ensures records == old(records) + [Record(category + "_HEADER", map["CollectionIDs" := frame.table], tableSize),
                                         Record(category, frame.data, dataSize)]
    {
      hide Flat, Bytes, TocOf, Lookup, AddTo, Index;
      ghost var entry := EntryOf(category, frame, tableSize, dataSize);
      EntriesSnoc(records[0], entries, entry);
      BytesSnoc(records, entry.table);
      BytesSnoc(records + [entry.table], entry.data);
      models := models + frame.models;
      var start := WriteRecord(category + "_HEADER", map[TABLE_BLOCK := frame.table], tableSize);
      toc := AddRecord(toc, category, start % WORD);
      var _ := WriteRecord(category, frame.data, dataSize);
      frames, entries := frames + [(category, frame)], entries + [entry];
      assert frames[..|frames| - 1] == old(frames);
    }

    /** Writes definitions, table of contents and last word. */
    method Finish(registry: Registry, edmSize: nat, tocSize: nat) returns (file: File)
      requires Valid() && !finished && 8 <= edmSize && 8 <= tocSize
      modifies this
      ensures finished && frames == old(frames) && |entries| == |frames| + 1 && HoldAll(entries[..|frames|], frames)
      ensures Stored(file, old(records[0]), entries)
      ensures HasDefinitions(entries[|frames|], Definitions(registry, ModelsOf(frames)))
      ensures entries[|frames|].category == "podio_SIO_EDMDefinitions"
      ensures entries[|frames|].table.size == edmSize && entries[|frames|].data.size == tocSize
      ensures Bytes(file.records) == old(Bytes(records)) + edmSize + tocSize
      ensures |file.records| == |old(records)| + 2 && old(records) <= file.records
      ensures var edm, table := file.records[|old(records)|], file.records[|old(records)| + 1];
        && edm.name == "EDMDefinitions" && edm.blocks.Keys == {"SIOMapBlockV2_KK_std__string_VV_std__string"}
        && table.name == "podio_SIO_TOC_Record" && table.blocks.Keys == {"podio_SIO_TOC_Record"}
      ensures file.lastWord == 0xc001fea7 * 0x1_0000_0000 + (old(Bytes(records)) + edmSize) % 0x1_0000_0000
    {
      hide Flat, Bytes, TocOf, Lookup, AddTo, Index, Definitions, MapTokens, TocTokens, LastWord;
      var definitions := ToWrite(registry, models);
      var edmTokens := MapBlock(definitions);
      ghost var edm := Record("EDMDefinitions", map[EDM_BLOCK := edmTokens], edmSize);
      var start := WriteRecord("EDMDefinitions", map[EDM_BLOCK := edmTokens], edmSize);
      toc := AddRecord(toc, RESERVED, start % WORD);
      var tocTokens := TocBlock(toc);
      ghost var tocRecord := Record(TOC_NAME, map[TOC_NAME := tocTokens], tocSize);
      var tocStart := WriteRecord(TOC_NAME, map[TOC_NAME := tocTokens], tocSize);
      LastWordIs(tocStart);
      file := File(records, LastWord(tocStart));
      finished := true;
      ghost var entry := Entry(RESERVED, edm, tocRecord);
      EntriesSnoc(old(records[0]), entries, entry);
      BytesSnoc(old(records), edm);
      BytesSnoc(old(records) + [edm], tocRecord);
      SnocStart(old(records[0]), entries, entry);
      entries := entries + [entry];
      assert entries[..|frames|] == old(entries);
      assert old(records) + [edm] + [tocRecord] == old(records) + [edm, tocRecord];
    }
  }

  method MapBlock(kvs: Pairs) returns (tokens: seq<Token>)
    ensures tokens == MapTokens(kvs)
  {
    var device := new Device([]);
    device.WriteMapLike(kvs);
    tokens := device.tokens;
  }

  method TocBlock(toc: Toc) returns (tokens: seq<Token>)
    ensures tokens == TocTokens(toc)
  {
    var device := new Device([]);
    WriteToc(device, toc);
    tokens := device.tokens;
  }

  /** The definitions of the data models that were collected. */
  method ToWrite(registry: Registry, models: set<nat>) returns (definitions: Pairs)
    ensures definitions == Definitions(registry, models)
  {
    definitions := [];
    for i := 0 to |registry|
      invariant definitions == Definitions(registry[..i], models)
    {
      assert registry[..i + 1][..i] == registry[..i];
      if i in models { definitions := definitions + [(registry[i].0, Text(registry[i].1))]; }
    }
    assert registry[..|registry|] == registry;
  }

  lemma BytesSnoc(rs: seq<Record>, r: Record)
    ensures Bytes(rs + [r]) == Bytes(rs) + r.size
  {
    assert (rs + [r])[..|rs|] == rs;
  }

  lemma SnocStart(header: Record, ws: seq<Entry>, e: Entry)
    ensures Start(header.size, ws + [e], |ws|) == Bytes(Records(header, ws))
  {
    hide Flat, Bytes;
    assert (ws + [e])[..|ws|] == ws;
    BytesAdd([header], Flat(ws));
    HeaderBytes(header);
  }

  lemma EntriesSnoc(header: Record, ws: seq<Entry>, e: Entry)
    ensures Records(header, ws + [e]) == Records(header, ws) + [e.table, e.data]
    ensures TocOf(header.size, ws + [e]) == AddTo(TocOf(header.size, ws), e.category, Bytes(Records(header, ws)) % WORD)
  {
    hide Bytes, AddTo;
    assert (ws + [e])[..|ws|] == ws;
    SnocStart(header, ws, e);
  }
}
