# Verification of the podio core

Dafny models of the parts of podio where a mistake is hardest to see, with proofs of
what they promise. Code that updates objects in place is modelled by classes and methods,
each proved against a specification; the properties that span several operations or whole
runs are lemmas about the specification.

| files | what they model |
|---|---|
| `Murmur3.dfy`, `MurmurReference.dfy` | the hash that turns collection names into collection IDs, on machine words |
| `CollectionData.dfy`, `LinkCollections.dfy`, `Frames.dfy` | a lazy Frame: collections are unpacked once from a destructive store and resolve their object IDs by calling back into the same Frame |
| `Persistence.dfy` | writing link collections and reading them back through a Frame |
| `ControlBlocks.dfy` | the reference-counted control block as interleaved atomic steps |
| `Ownership.dfy`, `OwnershipHeap.dfy` | who owns a link object: handles, owning collections, subset collections |
| `Regexes.dfy`, `RegexFacts.dfy`, `MemberParser.dfy`, `MemberTypes.dfy`, `MemberTokens.dfy`, `PrintedMembers.dfy`, `ParsedMembers.dfy`, `MemberRoundTrip.dfy`, `MemberMeaning.dfy`, `SpacedMembers.dfy` | a backtracking matcher, the regular expressions of the member parser, and the round trip with the printed form |
| `SchemaChanges.dfy`, `DetectedChanges.dfy`, `SchemaComparison.dfy` | comparing two data models, and what the detected changes do |
| `JuliaSort.dfy` | the topological sort of the Julia generator, with its fallback |
| `SioBlocks.dfy`, `SioLayout.dfy`, `SioFiles.dfy`, `SioReaders.dfy` | SIO files: blocks, records, table of contents, writer, reader |
| `RNTupleEntries.dfy` | looking up an entry over several files |
| `ConsistentColls.dfy` | sorting and comparing the collection names of a category |
| `FrameStores.dfy` | the frame data of both backends as one-shot stores |
| `Registries.dfy` | creation and evolution functions after any history of registrations |
| `EntryRanges.dfy`, `LinkNavigators.dfy` | event ranges for slots; lookup of links by either end |
| `Options.dfy` | the option type |

`dafny verify dfyconfig.toml` checks everything.

## Main results

* For a Frame read from data, any sequence of gets unpacks exactly the closure of the names
  asked for. Every object ID becomes the element it names or unset, cycles included, and the
  object graph does not depend on the order of the gets (`Frames.ReadTwice`).
* Ownership: one owner for every live object, every object deleted exactly once, over all runs
  (`Ownership.OneOwner`, `Ownership.NothingLeaks`, `OwnershipHeap.Heap.Run`). The control block
  on its own: every interleaving of atomic steps (`ControlBlocks.CompletedRun`).
* A printed member is parsed back exactly if it prints cleanly (`MemberRoundTrip.RoundTripIff`):
  the condition is about closing braces that a comment may follow, and can be read off the text.
  Whatever the parser returns can be printed, so this covers every parsed member
  (`MemberRoundTrip.ParsedRoundTrip`). Any numbers of spaces where the patterns admit them change
  nothing (`SpacedMembers.SpacedParse`), and types are normalised or refused as listed
  (`MemberMeaning.ParsedType`).
* Detected schema changes turn one model into the other, before and after declared renames have
  replaced drop and add pairs, and are exactly the differences between the lists of members
  (`SchemaComparison.DataModelComparator.Compare`).
* Collections written from one Frame come back in another (`Persistence.WriteAndRead`), and data
  that are read and written again are the same (`Persistence.ReadAndWrite`).
* An SIO file is a map from category to sequence of frames (`SioReaders.WriteAndRead`).

## Where the code does not keep a promise

* The member parser's comment says that default values may be anything in curly braces. A brace
  in the description, or in the default value of a member without description, can end the
  default value too: `MemberRoundTrip.BracesConfuse`, with the exact condition beside it.
* `checkConsistentColls` is documented to return false if the contents differ. It accepts
  {"b", "cc"} for {"aa", "b"}, {"A"} for {"a"} and {"a", "a"} for {"a", "b"}
  (`ConsistentColls.WrongNamesAreAccepted`), and every non-empty stored list accepts some wrong
  list (`ConsistentColls.ExactOnlyIfEmpty`). It never rejects what it should accept, and is exact
  for names of one length of which none is repeated and no two differ in case only
  (`ConsistentColls.ExactIfComparable`, `ConsistentColls.ExactIff`).
* The SIO reader finds the definitions of the data models unless a frame has been written under
  the reserved name: `SioReaders.SIOReader.OpenFile`.
* The position of the table of contents has 32 bits, and the writer does not check that it fits:
  `SioLayout.TocFoundIff`.
* `put` refuses a name only if its collection is already unpacked, so that a reference of unread
  data can end in the collection that was put: `Frames.PutAnswersIff`.
* `registerEvolutionFunc` keeps the current version of the first registration:
  `Registries.FirstCurrentVersionStays`. With functions for all versions below the largest one,
  all of them are evolved exactly if the first registration named it (`Registries.AllEvolveIff`).
* A control block counts its handles in 32 bits. That is enough for exactly 2^32 handles at a
  time; with one more, destroying one frees block and object: `ControlBlocks.WideEnoughIff`.
* `heuristics_members` never ends in a `ValueError` with an evolution file that has been read once.
  The reader can be called again, and then it does so exactly if one of the declared renames
  applies: `SchemaComparison.ReadAndCompare`.

## Assumptions

* Reading an SIO record at the position where it was written returns it and leaves the stream at
  the next record; a record takes at least eight bytes; compression is lossless; blocks are found
  by name. A file is its records and its last eight bytes.
* Sorting functions of the standard library return a sorted permutation; nothing else about them is
  used. Hash maps and sets are traversed in any order.
* `float` weights are real numbers; they are copied, never computed with.
* Characters are compared by code; lower case is that of ASCII letters. Which characters beyond
  ASCII the pattern `\w` matches is left open: any set.

## Model

| member | source | states |
|---|---|---|
| MurmurWords.MixKeyInverse | src/MurmurHash3.cpp:109-111 | the scrambling of a key word (two odd multiplications around a rotation, modulo 2^32) is undone by an explicit inverse, in both directions |
| MurmurWords.StirInverse | src/MurmurHash3.cpp:113-115 | absorbing a scrambled word into the state is invertible in the state, for every word |
| MurmurWords.StirInjective | src/MurmurHash3.cpp:113-115 | one state absorbs different words into different states |
| MurmurWords.FinaliseInverse | src/MurmurHash3.cpp:68-76 | the finalisation mix is a bijection of 32-bit words, with its inverse given |
| Murmur3.ReadTail | src/MurmurHash3.cpp:121-133 | the switch that falls through from 3 to 1 builds exactly the last chunk of the key, padded with zeros |
| Murmur3.MurmurHash3_x86_32 | src/MurmurHash3.cpp:92-148 | the loop over negative block indices, the tail and the finalisation compute the reference hash: a left fold over the full blocks, then the padded tail, then the length |
| Murmur3.FoldSnoc | src/MurmurHash3.cpp:106-116 | one more block at the end is one more step after the fold over the earlier ones |
| Murmur3.FoldInverse | src/MurmurHash3.cpp:106-116 | absorbing any sequence of blocks can be undone, in both directions |
| Murmur3.SeedBijection | src/MurmurHash3.cpp:92-148 | for a fixed key the hash is a bijection of the seed, with the inverse given |
| Murmur3.ChunkEquality | src/MurmurHash3.cpp:104-133 | a chunk depends on its own four bytes only and determines them |
| Murmur3.OneChunkNeverCollides | src/MurmurHash3.cpp:92-148 | two keys of one length that differ in a single 4-byte chunk, the tail included, never collide, for any seed |
| Murmur3.ShortKeysAreDistinct | src/CollectionIDTable.cc:58-71 | names of one length, at most four bytes long, have the same ID exactly when they are equal |
| MurmurReference.BlocksAre | src/MurmurHash3.cpp:106-116 | the blocks are absorbed from the first to the last: scrambled, exclusive or, rotation by 13, times 5 plus the constant |
| MurmurReference.BlockIs | src/MurmurHash3.cpp:58-60 | a full block is four bytes of the key, the first in the lowest bits |
| MurmurReference.RestIs | src/MurmurHash3.cpp:119-133 | what is left after the full blocks, likewise |
| MurmurReference.HashIs | src/MurmurHash3.cpp:92-148 | the hash written out: blocks, then the rest scrambled without rotation by 13 and scaling, then the length, then fmix32 |
| MurmurReference.ShortKey | src/MurmurHash3.cpp:119-148 | for a name of one to three bytes the hash is the written-out word expression of its bytes |
| MurmurReference.FourBytes | src/MurmurHash3.cpp:106-148 | for a name of four bytes likewise, with one block step |
| MurmurReference.ValueOfA | src/MurmurHash3.cpp:92-148 | the hash of the one byte 0x61 with seed 0 is 0x3c2569b2 |
| MurmurReference.ValueOfHello | src/MurmurHash3.cpp:92-148 | the hash of five bytes, one block and a rest, with seed 0 is 0x248bfa47 |
| MurmurReference.ValueOfHelloWorld | src/MurmurHash3.cpp:92-148 | the hash of twelve bytes, three blocks, with seed 0 is 0x149bbb7f |
| CollectionData.TableGrowth | src/CollectionIDTable.cc:22-71 | names and IDs that the table knows never change as it grows, and a newly known ID has a new name |
| CollectionData.FirstEntryCounts | src/CollectionIDTable.cc:22-56 | names and IDs belong together by position, and of several entries the first counts |
| CollectionData.RawData.EdgesAre | include/podio/Frame.h:425-502 | a collection refers to exactly the available collections that object IDs in its buffers name, invalid ones excepted |
| CollectionData.RawData.Closure | include/podio/Frame.h:425-502 | everything transitively referenced from a set of collections: the least set that contains it and is closed under references |
| Frames.CollectionIDTable.Add | src/CollectionIDTable.cc:58-71 | adding a name appends only if it is new, returns the ID it has or will have from the hash, and changes no other lookup by ID |
| Frames.Frame.constructor | include/podio/Frame.h:407-418 | a new frame is in a valid state: everything raw, nothing unpacked, nothing retrieved |
| Frames.Frame.DoGet | include/podio/Frame.h:425-477 | terminates, because the raw data shrinks; unpacks the collection and what it refers to, all of it resolved, and touches nothing else; a name that is not raw changes nothing |
| Frames.Frame.GetByID | include/podio/Frame.h:479-502 | an ID that has been asked for before never unpacks anything; otherwise the collection found is the one the ID table names, if the frame has it |
| Frames.Frame.SetReferences | include/podio/detail/LinkCollectionData.h:131-175 | resolves all object IDs of one collection, calling back into the same frame, cyclic references included |
| Frames.Frame.LookupLink | include/podio/detail/LinkCollectionData.h:146-158 | a relation becomes the element its ID names, in a slot that exists at that moment, if that collection is available, and unset otherwise |
| Frames.Frame.Lookup | include/podio/detail/LinkCollectionData.h:133-141 | an ID read for an element designates exactly the collection that the provider hands out, and the slot it leads to exists at that moment with its ID set, even in a collection that is itself still resolving |
| Frames.Frame.Get | include/podio/Frame.h:420-423 | afterwards exactly the closure of the name has been unpacked in addition; available names and collections that were there are unchanged |
| Frames.Frame.GetAll | include/podio/Frame.h:420-502 | the same for any sequence of gets |
| Frames.Frame.Put | include/podio/Frame.h:504-523 | fails exactly for a name already in the map, and then changes nothing; otherwise stores the collection under its ID, that of the table or the hash of the name, with every object relabelled and all else as it was, and the frame stays valid exactly if the name is not pending and unread data does not refer to it |
| Frames.Frame.AvailableCollections | include/podio/Frame.h:525-544 | every name that is raw or unpacked, each once |
| Frames.RecordStep | include/podio/Frame.h:485-494 | recording an asked-for ID keeps the guard: recorded IDs name nothing raw except what is just about to be unpacked |
| Frames.LookupStep | include/podio/Frame.h:479-502 | during a run, what the provider finds for a pending ID is what the file's own ID table designates |
| Frames.PutStep | include/podio/Frame.h:504-523 | putting a collection whose name and ID no unread data refers to keeps the invariant and the guard |
| Frames.PutStepIff | include/podio/Frame.h:504-523 | putting a collection keeps the invariant exactly if its name is neither pending nor referred to by unread data |
| Frames.PutAnswersIff | include/podio/Frame.h:479-523 | after putting a collection under a name that is not pending, every reference of unread data gets the collection that the file designates exactly if none of them names the put one |
| Frames.ReadByIsClosure | include/podio/Frame.h:425-502 | any sequence of gets reads exactly the closure of the available names in it |
| Frames.OrderOfGetsIsIrrelevant | include/podio/Frame.h:425-502 | neither order nor repetition of gets changes what is read |
| Frames.ContentsAreDetermined | include/podio/Frame.h:425-502 | a frame without puts is determined by the set of names that has been read |
| Frames.HandlesAreElements | include/podio/detail/LinkCollectionData.h:131-175 | each resolved reference leads to an unpacked collection, to a slot in bounds, whose object carries the index and the collection's ID and whose collection the file's ID names; otherwise nothing available was named |
| Frames.ContentIsRead | include/podio/detail/LinkCollectionData.h:131-175 | of a collection that has been read, link i has index i, the ID of the collection, weight i of the buffer, and from and to as the i-th object IDs of the file name them; element i of a subset collection likewise |
| Frames.ReadTwice | include/podio/Frame.h:425-502 | two frames over the same data end with the same object graph, whatever the order in which the same names are asked for |
| LinkCollections.LinkCollection.PrepareAfterRead | include/podio/detail/LinkCollectionImpl.h:244-257 | makes one unresolved link for every datum, once; subset and already prepared collections only keep their flag |
| LinkCollections.LinkCollection.SetID | include/podio/detail/LinkCollectionImpl.h:211-217 | every object of an owning collection carries the new ID; borrowed objects are left alone |
| LinkCollections.LinkCollection.PrepareForWrite | include/podio/detail/LinkCollectionImpl.h:223-242 | the buffers then hold, in order, the weights and the object IDs of both ends, those of elements that live elsewhere unchanged, and calling it again changes nothing |
| LinkCollections.LinkCollection.StoragePrepareForWrite | include/podio/detail/LinkCollectionData.h:89-119 | references are replaced while data are appended to what the buffer already holds |
| LinkCollections.LinkCollection.Clear | include/podio/detail/LinkCollectionData.h:51-87 | elements and all buffers are gone, identity and character stay |
| LinkCollections.FillingTwice | include/podio/detail/LinkCollectionData.h:89-119 | without the prepared flag a second filling would give buffers that no longer match, unless there is no link at all |
| Persistence.HandleRoundTrip | include/podio/detail/LinkCollectionData.h:104-118 | an element of the frame comes back as the same element, unset as unset, and what was not written as unset |
| Persistence.FileIsValid | include/podio/detail/LinkCollectionData.h:89-119 | whatever is written from properly filled collections is data that a frame can be read from |
| Persistence.CollectionRoundTrip | include/podio/detail/LinkCollectionData.h:89-175 | same links in the same order, with weights and relations; same sequence of elements for subset collections |
| Persistence.RoundTripIsExact | include/podio/detail/LinkCollectionData.h:89-175 | the round trip is exact precisely for collections that refer only to elements written along with them |
| Persistence.WriteAndRead | include/podio/detail/LinkCollectionData.h:89-175 | writing collections, freshly filled or prepared before, reading the file into a new frame and getting all of them gives them back |
| Persistence.RewritingReproducesBuffers | include/podio/detail/LinkCollectionImpl.h:244-257 | writing any freshly read collection again, owning or subset, reproduces its buffers; encoding its content anew would do so exactly if every ID is canonical |
| Persistence.ReadAndWrite | include/podio/detail/LinkCollectionImpl.h:223-257 | reading any valid data into a frame, getting everything and writing it again gives the same data |
| Persistence.ReencodeID | include/podio/detail/LinkCollectionData.h:104-118 | an object ID survives resolving and encoding exactly if it is canonical |
| ControlBlocks.StepKeepsInv | include/podio/utilities/MaybeSharedPtr.h:36-88 | every atomic step of a copy, release or destruction keeps the invariant of the control block |
| ControlBlocks.RunInvariant | include/podio/utilities/MaybeSharedPtr.h:36-88 | in every state of every interleaving the count is the number of handles not yet decremented (0 at 2^32), and `owned` says that nobody has called release |
| ControlBlocks.NoUseAfterFree | include/podio/utilities/MaybeSharedPtr.h:61-74 | no step touches the control block after it has been freed, deletes the object twice, or deletes it after a release |
| ControlBlocks.CompletedRun | include/podio/utilities/MaybeSharedPtr.h:61-89 | when all handles are gone exactly one step has freed the block, and one has deleted the object if and only if nobody released it |
| ControlBlocks.SomebodyCanProceed | include/podio/utilities/MaybeSharedPtr.h:61-74 | no deadlock: while a handle is left some copy or destruction can go on |
| ControlBlocks.CrowdIsReached | include/podio/utilities/MaybeSharedPtr.h:43-47 | any number of handles can be alive at a time: a run of copies is given |
| ControlBlocks.FreedByOne | include/podio/utilities/MaybeSharedPtr.h:61-74 | a run in which destroying one of 2^32 + 1 handles deletes the object and frees the block while 2^32 handles are alive |
| ControlBlocks.WideEnoughIff | include/podio/utilities/MaybeSharedPtr.h:133-136 | all runs with at most n handles alive at a time keep block and object while a handle is alive exactly if n is at most 2^32 |
| Ownership.OneOwner | include/podio/utilities/MaybeSharedPtr.h:36-88 | each live object has exactly one owner: one owning control block, or one slot of one collection that is not a subset collection, and never both |
| Ownership.NothingLeaks | include/podio/detail/LinkCollectionImpl.h:64-67 | when all handles and collections are gone no object and no control block is left, and every object has been deleted exactly once |
| Ownership.ReleaseIsHarmless | include/podio/detail/LinkCollectionImpl.h:121-126 | the control block of a tracked object is never owning, so the release in a subset push changes nothing |
| Ownership.PushKeepsInv | include/podio/detail/LinkCollectionImpl.h:97-127 | every outcome of a push keeps the ownership invariant |
| Ownership.CopyThenPush | include/podio/detail/LinkCollectionImpl.h:97-115 | pushing a by-value copy does what pushing the original does, with the copy still alive |
| Ownership.DestroyAfterPush | include/podio/detail/LinkCollectionImpl.h:97-115 | destroying the by-value copy leaves exactly the effect of the push |
| Ownership.ClearKeepsInv | include/podio/detail/LinkCollectionData.h:83-86 | deleting the elements of an owning collection keeps the invariant: nobody else owned them |
| Ownership.RelabelKeepsInv | include/podio/detail/LinkCollectionImpl.h:211-217 | giving all objects of a collection a new ID keeps every slot consistent |
| Ownership.DestroyKeepsInv | include/podio/utilities/MaybeSharedPtr.h:61-74 | destroying any handle keeps the invariant |
| Ownership.SwapKeepsInv | include/podio/utilities/MaybeSharedPtr.h:142-147 | swapping two handles keeps the invariant |
| OwnershipHeap.Heap.New | include/podio/detail/Link.h:60-66 | a new link is an untracked object with an owning control block |
| OwnershipHeap.Heap.Copy | include/podio/utilities/MaybeSharedPtr.h:43-47 | a copy shares pointer and control block and is counted |
| OwnershipHeap.Heap.Destroy | include/podio/utilities/MaybeSharedPtr.h:61-74 | the last handle frees the block, and deletes the object if the block still owns it |
| OwnershipHeap.Heap.Assign | include/podio/utilities/MaybeSharedPtr.h:49-53 | afterwards the handle has the pointer and block of the other one, whose block counts one more, and its old content has been dropped: counted down, or freed with the object if it was the last owner |
| OwnershipHeap.Heap.Move | include/podio/utilities/MaybeSharedPtr.h:55-59 | the new handle has what the old one had, and the old one is null |
| OwnershipHeap.Heap.Unlink | include/podio/detail/Link.h:285-288 | the handle becomes null and what it held is destroyed like a handle going out of scope |
| OwnershipHeap.Heap.Clone | include/podio/detail/Link.h:94-105 | a clone is a new untracked object owned by its own control block |
| OwnershipHeap.Heap.Create | include/podio/detail/LinkCollectionImpl.h:70-78 | a new element gets the next slot and the ID of the collection; a subset collection refuses |
| OwnershipHeap.Heap.At | include/podio/detail/LinkCollectionImpl.h:81-95 | a handle to an element without a control block |
| OwnershipHeap.Heap.Release | include/podio/utilities/MaybeSharedPtr.h:83-89 | gives up ownership in the control block only |
| OwnershipHeap.Heap.PushBack | include/podio/detail/LinkCollectionImpl.h:97-115 | an untracked object becomes the last entry of an owning collection with that index and ID, a tracked one the last entry of a subset collection, weights and everything else unchanged; otherwise an error without effect |
| Ownership.PushedIs | include/podio/detail/LinkCollectionImpl.h:97-127 | outcome and effect of a push, field by field |
| OwnershipHeap.Heap.PushImmutable | include/podio/detail/LinkCollectionImpl.h:117-127 | only subset collections take immutable handles, and only of tracked objects |
| OwnershipHeap.Heap.SetID | include/podio/detail/LinkCollectionImpl.h:211-217 | the loop relabels exactly the objects that the collection owns |
| OwnershipHeap.Heap.Clear | include/podio/detail/LinkCollectionData.h:51-87 | owning collections delete their objects one by one, subset collections forget them |
| OwnershipHeap.Heap.DestroyCollection | include/podio/detail/LinkCollectionImpl.h:64-67 | the destructor deletes what the collection owns, once, and leaves handles and blocks alone |
| OwnershipHeap.Heap.SetSubsetCollection | include/podio/detail/LinkCollectionImpl.h:200-209 | the character changes only while there are no elements |
| OwnershipHeap.Heap.Run | include/podio/utilities/MaybeSharedPtr.h:36-88 | every run of defined operations on handles and collections keeps the ownership invariant |
| Regexes.MarksDoNotMatter | python/podio_gen/podio_config_reader.py:63-73 | whether a pattern matches does not depend on the groups recorded so far |
| RegexFacts.LeadsFails | python/podio_gen/podio_config_reader.py:53-61 | a pattern that has to pass a part of it over token characters fails if the part matches nowhere it can be reached, whatever the backtracking |
| RegexFacts.GroupIsDotted | python/podio_gen/podio_config_reader.py:43-51 | a group of dots captures newline-free text, however the match was found |
| MemberTokens.AlternativesRun | python/podio_gen/podio_config_reader.py:26-32 | among the builtin types, longest first, and the identifiers, the type that was printed is the one taken |
| MemberTokens.PlainHeadRun | python/podio_gen/podio_config_reader.py:57-60 | type and name of a plain member are matched as printed |
| MemberTokens.ArrayRun | python/podio_gen/podio_config_reader.py:46-47 | an array type with its size is matched as printed |
| MemberTokens.DefAt | python/podio_gen/podio_config_reader.py:49-51 | the greedy default value group ends at the last brace at which the rest can match |
| PrintedMembers.TailIff | python/podio_gen/podio_config_reader.py:39-57 | what may follow a default value, in plain words: spaces, an optional unit, spaces and two slashes |
| PrintedMembers.RestRun | python/podio_gen/podio_config_reader.py:39-57 | default value, unit and comment of a printed member are captured as they are |
| PrintedMembers.RestFails | python/podio_gen/podio_config_reader.py:39-57 | without a description the patterns that need one cannot match |
| PrintedMembers.HeadRun | python/podio_gen/podio_config_reader.py:53-61 | after type and name the patterns are where the rest begins, in each of the four |
| PrintedMembers.ConvertsBack | python/podio_gen/podio_config_reader.py:75-112 | the groups of the match convert back to the member that was printed |
| MemberRoundTrip.FullFails | python/podio_gen/podio_config_reader.py:53-57 | the patterns with a description fail on a member printed without one, whatever they try |
| MemberRoundTrip.NotAnArray | python/podio_gen/podio_config_reader.py:46-61 | the array patterns fail on a plain member, even one whose type begins with std::array |
| MemberRoundTrip.NotPlain | python/podio_gen/podio_config_reader.py:57-60 | the patterns for plain members fail on an array member |
| MemberRoundTrip.TakesLastEnd | python/podio_gen/podio_config_reader.py:49-51 | of all braces that may end a default value the parser takes the last |
| MemberRoundTrip.CleanParse | python/podio_gen/podio_config_reader.py:63-97 | a member that prints cleanly is parsed to what its parts make, whatever its type |
| MemberRoundTrip.CleanRoundTrip | python/podio_gen/podio_config_reader.py:114-140 | a member that prints cleanly is parsed back from its printed form |
| MemberRoundTrip.OnlyIfClean | python/podio_gen/generator_utils.py:287-294 | only members that print cleanly come back |
| MemberTypes.NormalTypeIff | python/podio_gen/generator_utils.py:117-129 | the types of members in plain words are exactly those that the pattern admits and that normalisation leaves alone |
| MemberMeaning.LooksFixedIff | python/podio_gen/generator_utils.py:114 | the pattern for fixed width integer types accepts exactly what begins with one of the 24 spellings |
| MemberMeaning.PartsIff | python/podio_gen/generator_utils.py:10-18 | more than two parts between double colons are two double colons one after the other |
| MemberMeaning.NormaliseIs | python/podio_gen/generator_utils.py:117-129 | an allowed fixed width type gets its namespace; one that is not allowed, or a nested namespace, is an error; any other type stays |
| MemberMeaning.ParsedType | python/podio_gen/podio_config_reader.py:63-97 | a member that is written down with a type of any spelling is parsed to the member with that type normalised, or to an error |
| MemberMeaning.SpelledIff | python/podio_gen/podio_config_reader.py:28-47 | which types, names, sizes, default values and units the patterns admit, by characters |
| MemberMeaning.StripIs | python/podio_gen/podio_config_reader.py:83 | stripping takes away white space at both ends and nothing else |
| MemberMeaning.PrintedForms | python/podio_gen/generator_utils.py:287-294 | the printed form of a member with all parts and of an array |
| SpacedMembers.SpacedParse | python/podio_gen/podio_config_reader.py:44-60 | a member with a description, and with any numbers of spaces wherever the patterns admit them, is parsed as its parts say |
| SpacedMembers.SpacedBareParse | python/podio_gen/podio_config_reader.py:44-60 | the same without description, where no two slashes could start one; with a description required it is an error |
| ParsedMembers.ParsedIsPrintable | python/podio_gen/podio_config_reader.py:114-140 | whatever the parser returns has a normal type, a valid name, size and unit, and no empty default value |
| MemberRoundTrip.ParsedRoundTrip | python/podio_gen/generator_utils.py:287-294 | every member that has been parsed comes back from its printed form, exactly unless another brace can be taken for the end of its default value |
| MemberRoundTrip.RoundTripIff | python/podio_gen/generator_utils.py:287-294 | the round trip works exactly for members with a stripped one-line description and a one-line default value in whose printed form no other brace can end the default value (and with a description, if one is required) |
| MemberRoundTrip.BracelessRoundTrip | python/podio_gen/generator_utils.py:287-294 | it works whenever neither default value nor description has a closing brace |
| MemberRoundTrip.BracesConfuse | python/podio_gen/podio_config_reader.py:49-51 | a member that does not come back: its description holds a brace followed by a comment |
| SchemaChanges.Commute | python/podio_schema_evolution.py:254-367 | changes of members commute with all changes that do not touch the same member or definition |
| SchemaChanges.MoveToEnd | python/podio_schema_evolution.py:401-405 | an independent member change can be applied last |
| SchemaChanges.Untouched | python/podio_schema_evolution.py:401-405 | independent changes leave a member as it is |
| SchemaChanges.ReplaceByRename | python/podio_schema_evolution.py:389-406 | replacing a dropped and an added member of one type by a rename keeps the result of the whole list, and its independence |
| SchemaComparison.CompareKeys | python/podio_schema_evolution.py:361-367 | added, dropped and kept keys |
| SchemaComparison.DataModelComparator.CompareDefinition | python/podio_schema_evolution.py:329-359 | the changes detected for one kept definition turn its members into the new ones |
| SchemaComparison.DataModelComparator.CompareDefinitions | python/podio_schema_evolution.py:254-301 | the changes detected for components or datatypes turn the old definitions into the new ones, in whatever order the sets are traversed |
| DetectedChanges.DictIs | python/podio_schema_evolution.py:341-342 | the dictionary of a list of members gives each name the type of its last member |
| SchemaComparison.AllDetected | python/podio_schema_evolution.py:251-359 | detected are exactly the added and dropped definitions, and in kept ones exactly the members whose type is new, gone, or different, in terms of the lists of members |
| SchemaComparison.DataModelComparator.HeuristicsMembers | python/podio_schema_evolution.py:381-413 | fails exactly if two declarations that apply are renames that want the same member; otherwise exactly the declared renames that apply replace their pairs and applying the changes still gives the new model |
| SchemaComparison.DataModelComparator.ReadEvolutionFile | python/podio_schema_evolution.py:533-562 | appends one rename for every definition of the file that has one, and fails exactly at an operation that is not supported |
| SchemaComparison.RenamesAreOfTheFile | python/podio_schema_evolution.py:549-562 | one file declares at most one rename for each definition |
| SchemaComparison.RenamesIff | python/podio_schema_evolution.py:549-559 | a rename from a to b in definition d is declared exactly if the file says so for d |
| SchemaComparison.OneIsNeverAmbiguous | python/podio_schema_evolution.py:400-405 | with at most one rename for each definition no two declarations want the same member |
| SchemaComparison.TwiceIsAmbiguous | python/podio_schema_evolution.py:400-405 | declarations that are there twice clash exactly if one of them applies |
| SchemaComparison.ReadAndCompare | python/podio_schema_evolution.py:526-562 | with a file read once the comparison never fails; read again, it fails exactly if one of its renames applies; when it does not fail, the changes lead to the new model |
| SchemaComparison.AlreadyTaken | python/podio_schema_evolution.py:403-404 | a change that is no longer there has been taken by another declared rename |
| SchemaComparison.DataModelComparator.Compare | python/podio_schema_evolution.py:248-252 | the detected changes are independent differences that turn the old member tables into the new ones, and so do the changes after the heuristics |
| JuliaSort.DirectDependencies | python/podio_gen/julia_generator.py:114-129 | the types of members and vector members that are neither builtin nor builtin arrays |
| JuliaSort.Collect | python/podio_gen/julia_generator.py:104-129 | the dependencies and bare names of every listed type, the later entry of a type counting |
| JuliaSort.Emit | python/podio_gen/julia_generator.py:141-143 | the ready types are emitted once each, in any order, and leave the others as they are |
| JuliaSort.RoundIsProgress | python/podio_gen/julia_generator.py:133-146 | a round keeps the invariant: types come after their dependencies, and every stuck set is still left |
| JuliaSort.StuckIsNotReady | python/podio_gen/julia_generator.py:134-135 | a type of a set each member of which depends on a member of it, or on an unlisted type, is never ready |
| JuliaSort.Fallback | python/podio_gen/julia_generator.py:135-139 | what is left is appended in the order of the dictionary |
| JuliaSort.SortComponentsAndDatatypes | python/podio_gen/julia_generator.py:97-149 | terminates with a permutation; every type before the cut comes after all its dependencies; the types after it are the largest stuck set, and there are any exactly if a non-empty stuck set exists |
| JuliaSort.NeverReady | python/podio_gen/julia_generator.py:134-139 | a type that depends on itself or on an unlisted type is stuck |
| JuliaSort.DependsIff | python/podio_gen/julia_generator.py:104-129 | a type depends on exactly the types of the members and vector members of its last entry that are neither builtin nor arrays of builtins |
| JuliaSort.ResultIs | python/podio_gen/julia_generator.py:97-149 | what the result says about the data: every listed type once, bare names of the last entries, dependencies first before the cut, and after it stuck types in the order of their first entries |
| SioBlocks.Device.WriteMapLike | include/podio/SIOBlock.h:31-44 | the size and then keys and values in order |
| SioBlocks.Device.ReadMapLike | include/podio/SIOBlock.h:46-62 | what was written as a map is read back as the same pairs, and the device is left after them |
| SioBlocks.ReadGenericParameters | src/SIOBlock.cc:36-43 | the four maps are read as written; at versions before 0.2 there are no doubles to read |
| SioBlocks.ParametersRoundTrip | src/SIOBlock.cc:29-43 | parameters survive writing and reading, whatever the order in which maps are iterated |
| SioBlocks.WriteToc | src/SIOBlock.cc:222-228 | the table of contents as size, names and positions |
| SioBlocks.ReadToc | src/SIOBlock.cc:209-220 | the table of contents that was written |
| SioLayout.LookupAdded | src/SIOBlock.cc:170-178 | adding a position extends the list of its own name and of no other |
| SioLayout.TocIsIndex | src/SIOBlock.cc:170-197 | the table of contents lists for every category where its entries start, in the order of writing, whatever was written in between |
| SioLayout.EntryIsFound | src/SIOWriter.cc:37-55 | at the start of an entry its two records are found one after the other, and the start is never 0 |
| SioLayout.LastWordSplits | src/SIOWriter.cc:83-87 | marker and position can be taken out of the last word again |
| SioLayout.TocStart | src/SIOReader.cc:73-85 | if the table of contents starts below 2^32 bytes, the marker is found and the last word leads to its record |
| SioLayout.TocFoundIff | src/SIOWriter.cc:83-87 | the masked position in the last word leads to the table of contents exactly if that starts below 2^32 bytes, wherever it ends |
| SioFiles.AddRecord | src/SIOBlock.cc:170-178 | appends to the entry of a name or adds one |
| SioFiles.DefinitionsIff | src/SIOWriter.cc:57-70 | a definition is written exactly if some data model with that name and text is needed |
| SioFiles.DefinitionsInOrder | src/SIOWriter.cc:57-70 | definitions are written in the order of the registry |
| SioFiles.NeededModels | src/SIOWriter.cc:37-55 | a data model is needed exactly if some written frame needs it |
| SioFiles.GetPosition | src/SIOBlock.cc:188-197 | the position of an entry, or 0 where there is none |
| SioFiles.SIOWriter.WriteFrame | src/SIOWriter.cc:37-55 | the frame is the next entry of its category, with the record sizes given, and the table of contents knows it |
| SioFiles.SIOWriter.Finish | src/SIOWriter.cc:57-92 | the file holds all frames, the collected definitions under the reserved name, the table of contents, and where that is, and is larger by the sizes of the last two records |
| SioReaders.SIOReader.OpenFile | src/SIOReader.cc:17-27 | table of contents and version as written; the definitions as written exactly unless a frame was written under the reserved name, and none otherwise |
| SioReaders.SIOReader.ReadFileTOCRecord | src/SIOReader.cc:73-101 | found exactly if the last word has the marker, and then as written |
| SioReaders.SIOReader.ReadEDMDefinitions | src/SIOReader.cc:113-132 | reads the first record under the reserved name, which is that of the definitions unless a frame is there |
| SioReaders.SIOReader.ReadNextEntry | src/SIOReader.cc:29-49 | the next entry of the category as written, and its cursor moves on; null after the last; other cursors stay |
| SioReaders.SIOReader.ReadEntry | src/SIOReader.cc:51-57 | entry i is the i-th write of the category, reading continues at i + 1; the cursor is set even if there is no entry |
| SioReaders.SIOReader.GetEntries | src/SIOReader.cc:69-71 | the number of writes to the category |
| SioReaders.SIOReader.GetAvailableCategories | src/SIOReader.cc:59-67 | every category that was written, once, without the reserved name |
| SioReaders.WriteAndRead | src/SIOReader.cc:29-49 | frames of interleaved categories written to a file: the last word leads to the table of contents exactly if that starts below 2^32 bytes, and then each category read to its end gives its frames in the order of writing, with version and definitions |
| RNTupleEntries.UpperBound | src/RNTupleReader.cc:176-176 | the first position with a larger value in a sorted list |
| RNTupleEntries.ReaderHasEntry | src/RNTupleReader.cc:173-178 | the reader before the upper bound has the entry, with the local entry in bounds, even if other files are empty or lack the category |
| RNTupleEntries.EntriesAreDistinct | src/RNTupleReader.cc:173-178 | no two global entries are the same local entry of a file |
| RNTupleEntries.AllAreListed | src/RNTupleReader.cc:113-130 | every entry of every file has a global entry |
| RNTupleEntries.EntriesAreInOrder | src/RNTupleReader.cc:113-130 | entries come file by file, each file's in its order |
| RNTupleEntries.RNTupleReader.GetEntries | src/RNTupleReader.cc:113-130 | the accumulated offsets are those of the concatenation of the files, and the total is its length |
| RNTupleEntries.RNTupleReader.ReadEntry | src/RNTupleReader.cc:146-178 | a global entry is looked up where the concatenation of the files has it; null past the end or for an unknown category, an error for unknown collections, with the cursor moved on success only |
| RNTupleEntries.RNTupleReader.ReadNextEntry | src/RNTupleReader.cc:141-144 | the entry at the cursor, which moves on; other cursors stay |
| RNTupleEntries.ReadAll | src/RNTupleReader.cc:141-178 | repeated reading gives all entries in order and then only null |
| ConsistentColls.SortAlphabeticaly | src/rootUtils.h:286-300 | a permutation sorted without regard to case |
| ConsistentColls.LexIff | src/rootUtils.h:294-298 | a name comes before another one if the first character that differs is smaller, or if the other one goes on |
| ConsistentColls.CheckConsistentColls | src/rootUtils.h:308-331 | never rejects the stored names in another order, and is right for names of one length that are not repeated and do not differ in case only |
| ConsistentColls.ExistingIsFound | src/rootUtils.h:319-325 | a stored name is always found, although the comparison of the search is not the order of the list |
| ConsistentColls.PermutationIsConsistent | src/rootUtils.h:302-331 | permutations of the stored names are never rejected |
| ConsistentColls.OtherLengthIsFound | src/rootUtils.h:319-325 | a name of a length that does not occur is always found |
| ConsistentColls.ExactOnlyIfEmpty | src/rootUtils.h:302-331 | the check is exact for no stored list but the empty one: any other accepts a given list of as many different names, none of which is stored |
| ConsistentColls.ExactIfComparable | src/rootUtils.h:302-331 | for names of one length, without repeats, and without two that differ in case only, the check accepts exactly the stored names in any order |
| ConsistentColls.ExactIff | src/rootUtils.h:302-331 | among lists of different names of one length, the check is exact for precisely the stored lists that hold their names in all cases |
| ConsistentColls.WrongNamesAreAccepted | src/rootUtils.h:302-331 | three wrong lists that are accepted: by another length, by another case, by a name that occurs twice |
| ConsistentColls.FoundIff | src/rootUtils.h:319-325 | among names of one length a name is found exactly if it is stored, up to case |
| ConsistentColls.SetDifference | src/rootUtils.h:345-351 | the merge computes the difference of the multisets |
| ConsistentColls.GetInconsistentColls | src/rootUtils.h:339-354 | the two multiset differences, both empty exactly for permutations |
| FrameStores.SIOFrameData.Open | src/SIOFrameData.cc:11-28 | limiting to unknown names is an error; otherwise the allowed names are on offer |
| FrameStores.SIOFrameData.UnpackBuffers | src/SIOFrameData.cc:73-103 | unpacks once, and deletes the buffers outside the limit without changing what is on offer |
| FrameStores.SIOFrameData.GetCollectionBuffers | src/SIOFrameData.cc:30-52 | a buffer on offer is handed out once and withdrawn, anything else gives nothing |
| FrameStores.SIOFrameData.GetAvailableCollections | src/SIOFrameData.cc:60-71 | exactly the names on offer |
| FrameStores.SIOFrameData.Destroy | src/SIOFrameData.cc:136-143 | every unpacked buffer has been handed out or deleted, once |
| FrameStores.ROOTFrameData.GetCollectionBuffers | src/ROOTFrameData.cc:16-23 | a buffer on offer is handed out once and withdrawn, anything else gives nothing |
| FrameStores.ROOTFrameData.GetAvailableCollections | src/ROOTFrameData.cc:34-42 | exactly the names on offer |
| FrameStores.ROOTFrameData.Destroy | src/ROOTFrameData.cc:10-14 | every buffer has been handed out or deleted, once |
| FrameStores.ServedOnce | src/SIOFrameData.cc:30-52 | of a sequence of requests the first for a name gets its buffer and every later one nothing |
| FrameStores.ServeSIO | src/SIOFrameData.cc:30-52 | any sequence of requests is served as by the one-shot store |
| FrameStores.ServeROOT | src/ROOTFrameData.cc:16-23 | any sequence of requests is served as by the same one-shot store |
| Registries.CollectionBufferFactory.RegisterCreationFunc | src/CollectionBufferFactory.cc:26-57 | after any history the table of a type is what its own registrations make of it, and other types are unaffected |
| Registries.SlotIsOwned | src/CollectionBufferFactory.cc:26-57 | slot v holds the function of the last registration naming v, and where there is none of the first that extended the table past v |
| Registries.CollectionBufferFactory.CreateBuffers | src/CollectionBufferFactory.cc:14-24 | there is a function exactly up to the highest version registered, and it is that of the one registration that owns the slot |
| Registries.SchemaEvolution.RegisterEvolutionFunc | src/SchemaEvolution.cc:39-69 | after any history the entry of a type is what its own registrations make of it |
| Registries.SchemaEvolution.EvolveBuffers | src/SchemaEvolution.cc:17-37 | identity at the current version and for unknown types or versions, otherwise the function registered last for the version |
| Registries.LastIsLast | src/SchemaEvolution.cc:65-65 | a later registration for a version replaces an earlier one |
| Registries.CompleteEvolution | src/SchemaEvolution.cc:17-69 | with functions for all versions below N at current version N, evolution applies the one registered last for the version and is the identity at N |
| Registries.EvolvesIff | src/SchemaEvolution.cc:17-69 | of the versions below the largest one that have a function, exactly the current version of the first registration is not evolved |
| Registries.AllEvolveIff | src/SchemaEvolution.cc:17-69 | with functions for all versions below the largest one, all of them are evolved exactly if the first registration named the largest version as current |
| Registries.FirstCurrentVersionStays | src/SchemaEvolution.cc:39-48 | the current version is that of the first registration, so that a later one does not make its own version evolve |
| EntryRanges.RangesPartition | src/DataSource.cc:76-81 | the ranges are non-empty, contiguous and cover all events; the last exceeds the others by less than the number of slots |
| EntryRanges.EventInOneRange | src/DataSource.cc:76-81 | every event is in exactly one range |
| EntryRanges.DataSource.SetNSlots | src/DataSource.cc:69-81 | refuses more slots than events; otherwise the ranges, in spite of 32-bit arithmetic, are those of the exact quotient |
| EntryRanges.DataSource.GetEntryRanges | src/DataSource.cc:99-115 | takes the next ranges off the front, one for every slot while there are as many |
| EntryRanges.DataSource.DrainRanges | src/DataSource.cc:99-115 | asking until there is nothing more gives every available range once, in order |
| EntryRanges.Process | src/DataSource.cc:69-115 | processing what is handed out visits every event once, in order |
| LinkNavigators.Multimap.Emplace | include/podio/LinkNavigator.h:161-167 | an inserted value comes after the values of its key and changes no other key |
| LinkNavigators.LinkNavigator.constructor | include/podio/LinkNavigator.h:161-167 | both multimaps index exactly the links |
| LinkNavigators.LinkNavigator.GetLinkedTo | include/podio/LinkNavigator.h:129-138 | the linear search through the links, in their order |
| LinkNavigators.LinkNavigator.GetLinkedFrom | include/podio/LinkNavigator.h:87-96 | the linear search through the links, in their order |
| LinkNavigators.OccurrencesTo | include/podio/LinkNavigator.h:129-138 | an object is found as often as its link is there |
| LinkNavigators.FoundInOrder | include/podio/LinkNavigator.h:87-138 | what is found from an object are links from it, in their order |
| LinkNavigators.FoundBackInOrder | include/podio/LinkNavigator.h:87-138 | what is found to an object are links to it, in their order |
| LinkNavigators.Navigate | include/podio/LinkNavigator.h:87-138 | both lookups of a navigator built from a collection agree on the links between two objects |
| LinkNavigators.Duality | include/podio/LinkNavigator.h:87-138 | (b, w) is found from a as often as (a, w) is found from b in the other direction |

## Left out

- Persistence.WriteAndRead: each collection of the Frame has an ID of its own; the hash may give two names one ID, since only short names of one length are proved to have different ones (`Murmur3.ShortKeysAreDistinct`). Changing a collection after it has been prepared for writing, without clearing it, is outside the protocol.
- The sequential ownership model counts handles without bound; the 32-bit count is that of `ControlBlocks.dfy`.
- SioReaders.WriteAndRead: what is read from a file whose table of contents starts at 2^32 bytes or later is not described; the result does not speak about reading the reserved name as frames.
- RNTupleEntries.RNTupleReader.GetEntries: for fewer than 2^32 entries in all files, which the unsigned total needs.
- Ownership.OneOwner: a link object holds handles to its two ends, and deleting it destroys them; setting the ends and this cascade are not part of the runs.
- OwnershipHeap.Heap.Clone: the weight only; relations of a link are handles of other objects and are followed in the Frame and persistence models instead.
- SchemaComparison.DataModelComparator.Compare: for the member category; vector members and relations have changes of their own that do not say what they change to, and renames of types do not carry members. Warnings and error messages are not modelled, and neither is the comparison of the versions in an evolution file.
- The generated C++ and Julia types of a member are derived from what is parsed here and are not modelled.
- Frames sequentially only: `m_retrievedIDs` is not locked, and concurrent gets are not modelled.
- Schema evolution inside a Frame is taken as the identity; it is modelled on its own in `Registries.dfy`.
- Relations to interface types and one-to-many relations (`addMultiRelation`, `tryAssignTo`): the same lookup with a choice of types.
- Move assignment onto a non-empty collection, turning an empty subset collection back into a normal one with its buffers, and dereferencing handles whose collection is gone.
- The parameters of a frame in the one-shot stores, and blocks of types whose library is not loaded.
- Numbered metadata blocks, version blocks of data models, and the versions of definitions in SIO files.
- ROOT trees, branches and RNTuple objects, the sio device, zlib, YAML, jinja2, and dynamic loading: foreign code.
- Python bindings, printing, JSON output, build files and documentation.
- 128-bit hashes, version packing, include sorting, template selection, field-by-field validation of definitions.
