# VSS storage, observation and naming: a Dafny model

VSS keeps variables for its clients. This project models, in Dafny, the parts of it that hold state and that everything
else relies on, and proves what they promise.

* **The key-value store on a block file.** `FileStorage` keeps byte sequences of any length in linked fixed-size blocks
  of one file, with a chain of free blocks. `PrefixTree` is a path-compressed trie whose nodes are such sequences, with
  the root cached in memory. The model is the file's bytes. The proofs go in two steps: the file stands for a map from
  addresses to byte strings, and the trie over it for a map from keys to nonempty values. The main result is
  `KeyValueRuns.Run`: for every block size, and every sequence of set, remove, get, exists, limited prefix search and
  reopening, all answers are given and are those of a small model. For nonempty keys the model is a plain map; for the
  empty key, whose value is kept in the cached root, it says exactly what becomes of it. `FileMeaning` adds that the
  bytes alone determine the chains, the nodes and the map.
* **The in-memory database.** `RamCachedDB` is a tree of heap objects with parent links. It is proved against a map from
  dotted paths to values, together with its text dump, which a restart loads (twice, as the source does).
* **Observations.** `VarHelper`, `ClientHelper` and the controller's three operations work, name by name, on that tree.
  They are proved against two tables: the observers of each variable and the names each client watches. The main result
  is that both sides stay in step throughout a run exactly when every stop in it matched.
* **Locks.** Named locks and the variable locks on top of them, as a state machine over the steps of any number of
  goroutines.
* **JSON documents.** A document is set over HTTP, member by member through the controller into the in-memory database,
  and everything is exported again. `RoundTrips.SetThenExport` says for every document, in every order in which Go may
  visit maps, exactly when the document comes back.
* **Lines.** Messages recovered from a stream that arrives in arbitrary pieces.

## How it is organised

| file | contents |
|---|---|
| `Bytes.dfy`, `Disk.dfy`, `Layouts.dfy`, `Positions.dfy`, `DiskOps.dfy` | bytes and words; what a file means (`DiskOk`, `View`); how blocks change owner; offsets in a chain; the effect of every kind of write on the whole file |
| `FileStorage.dfy` | the class `FileStorage`, method by method |
| `NodeCodec.dfy`, `Trie.dfy`, `TrieSearch.dfy`, `FirstEdges.dfy` | node encoding; the trie as a graph, lookup, splitting; sorted listing; the edges at the root |
| `PrefixTree.dfy`, `KeyValueRuns.dfy`, `FileMeaning.dfy` | the class `PrefixTree`; whole runs; what the bytes alone determine |
| `DotPaths.dfy`, `DumpTexts.dfy`, `RamTree.dfy` | dotted names and the map of paths; dump texts; the heap tree |
| `Numerals.dfy`, `Cells.dfy`, `Books.dfy`, `Balance.dfy`, `Observers.dfy` | decimal text; the entries that hold observations and where they lie in the tree; the lists they stand for; both sides in step; the helper classes |
| `NamedLocks.dfy`, `Framing.dfy` | locks; lines and messages |
| `Variables.dfy` | the controller's setting, listing and reading of variables on the heap tree |
| `Nested.dfy`, `Arrays.dfy` | nested objects built from dotted names; numbered objects that become arrays |
| `JsonSets.dfy`, `VisibleDocs.dfy`, `ExportedDocs.dfy`, `ExportOrigins.dfy`, `RoundTrip.dfy` | setting a document and building one from all variables; names that a listing shows; what the export of a stored document shows; where the names and values of an export come from; the round trip |
| `Options.dfy` | a value that may be missing |

`FileStores.FormatOk` shows that the invariant of a file has an instance, and every run starts from it. Each method of a
class is specified by a function of the old state, and the properties are proved about that function.
The long layers are cut so that methods stay thin: what a write does to a whole file, a whole tree or a whole set of
entries is a lemma about values. `hide` statements keep definitions out of proofs that do not need them.

Where the code does not do what it seems to promise, the model follows the code, and says when it does:

* `PrefixTree::set` on the empty key writes a copy of the root and leaves the cached root as it was; later, any key that
  changes an edge at the root has the old value stored again. The contract of `PrefixTrees.PrefixTree.Set` says exactly
  what the stored root holds; `KeyValueRuns.EmptyKeyIsStale` has two concrete runs, a wrong answer and a lost value.
* `read` seeks without the read-only flag, and `scrollChain` drops it on its recursive call. The reads still allocate
  nothing, because a stored size never exceeds the room of its chain.
* `_seekChain` past the end of a sequence allocates blocks that it does not link to it (`FileStores.FileStorage.SeekChain`
  says exactly when; `FileStores.SeekPastEnd` is a concrete seek).
* A stop whose pair is registered on one side only takes the two sides out of step (`Balances.StoppedBalanced` says
  exactly when; `Balances.OneSidedStop` is a concrete run).
* A second registration of the same pair spoils the reverse index (`Books.RegisteredBook`: exactly then).
* A document that is set and exported again need not come back. `RoundTrips.ComesBack` is the exact condition: names of
  allowed characters that are not internal, no empty objects, values that read back from their texts and fit the limits,
  no object with members numbered from 0, and, if the root has an object `vars`, that it repeats itself as
  `ExportedDocs.VarsOk` says. `RoundTrips.LostDocuments` and `RoundTrips.LostName` have documents that do not come back;
  by `RoundTrips.VarsBack` a text under `vars` or `vars.vars.vars` does, and one under `vars.vars` does not.
* A set of a name with a star sets what stands before the star and every listed name below it
  (`Variables.TheController.SetVar`). The names that an increment instruction generates are computed and dropped, so that
  nothing is set (`Variables.TheController.ResolveVarNames`). The handler drops the error of `setJson`.

## Model

| member | source | states |
|---|---|---|
| Disk.GridTiles | sources/misc/prefixtree/storages/filestorage.cpp:87-131 | every byte behind the header lies in exactly one block: the file is the header and whole blocks |
| FileMeaning.EachBlockOnce | sources/misc/prefixtree/storages/filestorage.cpp:87-131 | in every file in order, each block is at exactly one place of exactly one chain (live or free), and chains hold nothing else |
| FileMeaning.BlocksAddUp | sources/misc/prefixtree/storages/filestorage.cpp:114-131 | the file is the header plus `count` blocks, and live blocks plus free blocks are `count` |
| FileMeaning.LayoutUnique | sources/misc/prefixtree/storages/filestorage.cpp:26-79 | the bytes of a file determine all its chains: two readings of one file are equal |
| FileMeaning.SizePastRoom | sources/misc/prefixtree/storages/filestorage.cpp:148-167 | a stored size beyond the room of its sequence leaves a file that is in order under no reading |
| FileMeaning.NodesUnique | sources/misc/prefixtree/prefixtree.h:255-316 | the stored sequences determine the nodes of the tree |
| FileMeaning.FileDeterminesMap | sources/misc/prefixtree/prefixtree.h:328-338 | a file stands for one map of keys to values, however it is read |
| Layouts.PoppedShape | sources/misc/prefixtree/storages/filestorage.cpp:114-131 | taking the head of the free chain keeps every block on exactly one chain |
| Layouts.GrownShape | sources/misc/prefixtree/storages/filestorage.cpp:87-107 | so does adding a block at the end of the file |
| Layouts.AttachedShape | sources/misc/prefixtree/storages/filestorage.cpp:294-310 | so does linking a new block behind a sequence |
| Layouts.ReleasedShape | sources/misc/prefixtree/storages/filestorage.cpp:169-179 | so does moving the tail of a sequence to the end of the free chain |
| Layouts.DroppedShape | sources/misc/prefixtree/storages/filestorage.cpp:312-337 | so does moving a whole sequence there |
| DiskOps.GrowDisk | sources/misc/prefixtree/storages/filestorage.cpp:87-107 | a zeroed block at the end of the file is a new empty sequence; everything else in the file keeps its meaning |
| DiskOps.PopDisk | sources/misc/prefixtree/storages/filestorage.cpp:114-131 | the three writes that reuse a free block give a file in order with one more empty sequence, all others unchanged |
| DiskOps.AttachDisk | sources/misc/prefixtree/storages/filestorage.cpp:294-310 | writing the link adds the new block's room to one sequence and changes no other |
| DiskOps.ReleaseDisk | sources/misc/prefixtree/storages/filestorage.cpp:169-179 | the writes of the tail release cut one sequence's room and change no other |
| DiskOps.DropDisk | sources/misc/prefixtree/storages/filestorage.cpp:312-337 | the writes of a deletion remove one sequence and change no other |
| DiskOps.PayloadWrite | sources/misc/prefixtree/storages/filestorage.cpp:133-146 | bytes written into one block appear at their place in the room of its sequence, and nowhere else |
| DiskOps.SizeWrite | sources/misc/prefixtree/storages/filestorage.cpp:148-167 | storing the total size changes that size only |
| Positions.RawSlice | sources/misc/prefixtree/storages/filestorage.cpp:242-277 | a piece of a block is the slice of the sequence's room at the block's position |
| Positions.RawPoke | sources/misc/prefixtree/storages/filestorage.cpp:242-277 | writing a piece of a block writes that slice |
| Bytes.FromToLE | sources/misc/prefixtree/storages/filestorage.cpp:280-292 | a number written in n bytes is read back |
| FileStores.FormatOk | sources/misc/prefixtree/storages/filestorage.cpp:44-71 | a new file is in order and holds one empty sequence |
| FileStores.FileStorage.Create | sources/misc/prefixtree/storages/filestorage.cpp:44-79 | opening a path without a file gives a store with that one sequence |
| FileStores.FileStorage.Open | sources/misc/prefixtree/storages/filestorage.cpp:28-43 | opening an existing file changes no byte and finds the sequences it holds |
| FileStores.FileStorage.GetFirstBlockSeqAddress | sources/misc/prefixtree/storages/filestorage.cpp:81-85 | the first sequence starts behind the header |
| FileStores.FileStorage.GetAddrForANewBlock | sources/misc/prefixtree/storages/filestorage.cpp:114-131 | the first free block is unlinked from the free chain, whose head in the header becomes the next one; without free blocks the address is the end of the file; and the exact bytes of both |
| FileStores.FileStorage.NewBlockSeq | sources/misc/prefixtree/storages/filestorage.cpp:87-94 | one more empty sequence, no other changed; it takes the first block of the free chain, and the file grows by a block exactly when there is none |
| FileStores.FileStorage.ReadNextBlockAddress | sources/misc/prefixtree/storages/filestorage.cpp:280-292 | for a block at any place of any chain, the next block's address, or 0 at the chain's end |
| FileStores.FileStorage.GetOrCreateNextBlock | sources/misc/prefixtree/storages/filestorage.cpp:294-310 | the next block of the chain; a new one is added only at the end and only without the read-only flag, and comes from the free chain unless that is empty |
| FileStores.FileStorage.WriteInBlock | sources/misc/prefixtree/storages/filestorage.cpp:141-145 | the effect on the store's sequences of writing inside one block |
| FileStores.FileStorage.ScrollWrite | sources/misc/prefixtree/storages/filestorage.cpp:242-277 | the bytes are put at their position across blocks, the chain gets no longer than needed, and what it gets comes from the free chain first |
| FileStores.FileStorage.SeekFrom | sources/misc/prefixtree/storages/filestorage.cpp:216-239 | the block and offset of a position; past the end it stops at the chain's last byte when read-only, and otherwise strays into new unlinked blocks |
| FileStores.FileStorage.SeekChain | sources/misc/prefixtree/storages/filestorage.cpp:210-214 | it stays in the sequence, and leaves the file alone, when the sequence has that much room; past the end it stops at the last byte (read-only) or ends in a new block outside every earlier sequence |
| FileStores.SeekPastEnd | sources/misc/prefixtree/storages/filestorage.cpp:216-239 | a concrete seek past the end, by which the file gets a block that no sequence has |
| FileStores.StrayedKeeps | sources/misc/prefixtree/storages/filestorage.cpp:216-239 | after such a seek the file holds what it held, and a sequence more |
| FileStores.FileStorage.ScrollRead | sources/misc/prefixtree/storages/filestorage.cpp:242-277 | the bytes at the position are returned and no byte of the file changes, although the read-only flag is lost |
| FileStores.FileStorage.Read | sources/misc/prefixtree/storages/filestorage.cpp:182-208 | the slice of the stored bytes clamped to their number, for every offset and length; nothing is allocated or changed |
| FileStores.FileStorage.Write | sources/misc/prefixtree/storages/filestorage.cpp:133-180 | the new bytes of the sequence, all other sequences unchanged, after a release the fewest blocks that hold them; exactly the added blocks are taken, free ones first and the file growing by the rest, or exactly the cut ones go to the end of the free chain |
| FileStores.TookBoth | sources/misc/prefixtree/storages/filestorage.cpp:114-131 | taking j blocks and then k is taking j + k: the free chain is used up before the file grows |
| FileStores.SpaceReleased | sources/misc/prefixtree/storages/filestorage.cpp:133-180 | a releasing write either takes blocks or gives blocks back, never both |
| FileStores.WrittenData | sources/misc/prefixtree/storages/filestorage.cpp:133-180 | in terms of stored bytes a releasing write truncates behind the data, and another one overwrites |
| FileStores.SpaceConserved | sources/misc/prefixtree/storages/filestorage.cpp:133-180 | in every write, what the chain has more the free chain has less or the file has more, and the other way round: no block is lost or made up |
| FileStores.FewestUnique | sources/misc/prefixtree/storages/filestorage.cpp:169-179 | the number of blocks that a releasing write leaves is determined by the size |
| FileStores.FileStorage.UpdateSize | sources/misc/prefixtree/storages/filestorage.cpp:148-167 | the stored size grows, or is set when space is released |
| FileStores.FileStorage.ReleaseAfter | sources/misc/prefixtree/storages/filestorage.cpp:169-179 | the chain is cut behind the last written block, the cut blocks join the end of the free chain in order, and no stored byte is lost |
| FileStores.FileStorage.GetAddressOfTheLastBlockInTheSequence | sources/misc/prefixtree/storages/filestorage.cpp:339-346 | the last block of the free chain, or 0 |
| FileStores.FileStorage.InternalDeleteBlockSq | sources/misc/prefixtree/storages/filestorage.cpp:312-332 | the exact bytes and header after appending blocks to the free chain |
| FileStores.FileStorage.DeleteBlockSq | sources/misc/prefixtree/storages/filestorage.cpp:334-337 | the sequence is gone, its blocks join the end of the free chain in order, all other sequences are unchanged, the file keeps its size |
| FileStores.FileStorage.GetChainSize | sources/misc/prefixtree/storages/filestorage.cpp:355-363 | the stored total size |
| NodeCodec.OrderedFacts | sources/misc/prefixtree/prefixtree.h:222-230 | children are visited each once, in the order of signed characters |
| NodeCodec.RankIsSigned | sources/misc/prefixtree/prefixtree.h:48-55 | the order of characters is that of signed bytes: those from 128 on come first |
| NodeCodec.EncodeParts | sources/misc/prefixtree/prefixtree.h:255-309 | every part of an encoded node is at the offset at which it is read |
| NodeCodec.EncodeInjective | sources/misc/prefixtree/prefixtree.h:192-309 | different nodes have different encodings |
| NodeCodec.BuildBuffer | sources/misc/prefixtree/prefixtree.h:200-238 | the loops that fill the buffer produce the encoding |
| NodeCodec.ReadChildren | sources/misc/prefixtree/prefixtree.h:280-292 | the loop over the index buffer gives back the child table |
| Tries.Reachable | sources/misc/prefixtree/prefixtree.h:349-380 | in a well-formed tree a lookup from the root finds every node under its key |
| Tries.UniqueKeys | sources/misc/prefixtree/prefixtree.h:349-380 | no two nodes have the same key |
| Tries.LookupIsMap | sources/misc/prefixtree/prefixtree.h:428-439 | looking a key up in the tree is looking it up in the map |
| Tries.LeafWellFormed | sources/misc/prefixtree/prefixtree.h:115-142 | a new leaf keeps the tree well formed |
| Tries.PrefixWellFormed | sources/misc/prefixtree/prefixtree.h:152-182 | splitting an edge keeps the tree well formed |
| Tries.SameMap | sources/misc/prefixtree/prefixtree.h:115-182 | new nodes without data leave the map as it was |
| Tries.SetData | sources/misc/prefixtree/prefixtree.h:406-423 | storing data in a node updates the map at its key and nowhere else |
| FirstEdges.LeafTops | sources/misc/prefixtree/prefixtree.h:115-142 | a new leaf changes the edges at the root only when it is a child of the root |
| FirstEdges.PrefixTops | sources/misc/prefixtree/prefixtree.h:152-182 | a split changes them only when it splits one of them |
| FirstEdges.ViaLeaf | sources/misc/prefixtree/prefixtree.h:359-368 | where a search makes a leaf, the edges at the root become what the key makes of them, and differ exactly at the root |
| FirstEdges.ViaPrefix | sources/misc/prefixtree/prefixtree.h:369-378 | the same where a search splits an edge |
| TrieSearch.ListingSorted | sources/misc/prefixtree/prefixtree.h:66-88 | the recursive listing is in lexicographic order without duplicates |
| TrieSearch.ListingSound | sources/misc/prefixtree/prefixtree.h:66-88 | it lists only keys of nodes at or below the node that the filter keeps |
| TrieSearch.ListingComplete | sources/misc/prefixtree/prefixtree.h:66-88 | it lists all of them, for every filter |
| TrieSearch.StopsAbove | sources/misc/prefixtree/prefixtree.h:498-518 | the node where a search stops is above every key that starts with the prefix |
| TrieSearch.SearchIsExact | sources/misc/prefixtree/prefixtree.h:498-518 | for every filter, a prefix search lists exactly the keys of kept nodes that start with the prefix, in order |
| TrieSearch.SearchWithData | sources/misc/prefixtree/prefixtree_cgo.cpp:144-149 | with the filter for nonempty data these are the keys of the map that start with the prefix |
| TrieSearch.LessParts | sources/misc/prefixtree/prefixtree.h:48-55 | the order of keys: at the first byte in which they differ the smaller signed byte comes first, and a key comes before its continuations |
| PrefixTrees.PrefixTree.constructor | sources/misc/prefixtree/prefixtree.h:390-393 | a tree on an empty store stands for the empty map; on a store in use, for the map it holds; the cached root equals the stored one |
| PrefixTrees.PrefixTree.InitRootNode | sources/misc/prefixtree/prefixtree.h:328-338 | the cached root equals the node decoded from the first block |
| PrefixTrees.PrefixTree.WriteNodeToStorage | sources/misc/prefixtree/prefixtree.h:192-253 | one sequence holds the node's encoding, all others are unchanged, also when a shorter node replaces a longer one |
| PrefixTrees.PrefixTree.ReadNodeFromStorage | sources/misc/prefixtree/prefixtree.h:255-316 | the reads at advancing offsets return the node that was written, and change no byte |
| PrefixTrees.PrefixTree.GetPrefix | sources/misc/prefixtree/prefixtree.h:90-105 | the longest common prefix |
| PrefixTrees.PrefixTree.LocateOrCreateChild | sources/misc/prefixtree/prefixtree.h:115-142 | the child on the way to the key, or a new leaf; storage, nodes and the caller's copy of the parent stay in agreement, and the stored root gets the cached data when the leaf is its child |
| PrefixTrees.PrefixTree.CreatePrefixNode | sources/misc/prefixtree/prefixtree.h:152-182 | the split node is stored between parent and child, no data is lost, and the three error branches cannot be reached |
| PrefixTrees.PrefixTree.Find | sources/misc/prefixtree/prefixtree.h:349-380 | it terminates; read-only it is the lookup and changes nothing; otherwise it returns the node of the key and keeps the tree in order; the edges at the root change as the key says, and the root is stored again exactly then |
| PrefixTrees.PrefixTree.Set | sources/misc/prefixtree/prefixtree.h:406-423 | the tree stays in order for every key; a nonempty key updates the map; the empty key reaches the storage and not the session's map; the exact value the stored root has afterwards, and that it agrees with the cached one if and only if the key is not empty or the value stays the same |
| PrefixTrees.PrefixTree.Remove | sources/misc/prefixtree/prefixtree.h:444-460 | the same for the empty value |
| PrefixTrees.PrefixTree.Get | sources/misc/prefixtree/prefixtree.h:428-439 | the map's value; the default stands in only for a key without a node; nothing changes |
| PrefixTrees.PrefixTree.Exists | sources/misc/prefixtree/prefixtree_cgo.cpp:94-105 | whether the key is in the map |
| PrefixTrees.PrefixTree.RecursiveGetChilds | sources/misc/prefixtree/prefixtree.h:66-88 | the listing of the subtree, for any filter, behind what was there, cut at the limit |
| PrefixTrees.PrefixTree.SearchChilds | sources/misc/prefixtree/prefixtree.h:498-518 | all keys of kept nodes that start with the prefix in order, or the first m of them; with the filter for data, those of the map |
| PrefixTrees.PrefixTree.FindSplit | sources/misc/prefixtree/prefixtree.h:369-378 | where keys diverge the edge is split and the search ends at the node of the key, with the tree in order and the root stored again exactly when one of its edges changed |
| PrefixTrees.FirstWithPrefixUnique | sources/misc/prefixtree/prefixtree.h:498-518 | that result is the only one |
| PrefixTrees.FirstKeptUnique | sources/misc/prefixtree/prefixtree.h:498-518 | the same for every filter; the result is within the limit and holds only what it should |
| PrefixTrees.ResultOrder | sources/misc/prefixtree/prefixtree.h:66-88 | any two results of a search are in the order of the first byte in which they differ, as a signed character |
| PrefixTrees.HighBytesFirst | sources/misc/prefixtree/prefixtree.h:66-88 | of two results with a common beginning, the one that goes on with a byte from 128 on comes first |
| KeyValueRuns.Run | sources/misc/prefixtree/prefixtree.h:382-518 | for every sequence of operations on a new file, the empty key and reopening included: every answer is the model's, the bytes left behind hold the model's map, everything is answered while the file has room below 2^64 bytes, and a run can only stop at a write for lack of it |
| KeyValueRuns.AnswersLikeAMap | sources/misc/prefixtree/prefixtree.h:382-518 | in every run all answers about nonempty keys and prefixes are those of a plain map |
| KeyValueRuns.PlainRun | sources/misc/prefixtree/prefixtree.h:382-518 | when the empty key never gets a value, session and file are the plain map |
| KeyValueRuns.PlainAnswers | sources/misc/prefixtree/prefixtree.h:382-518 | then all answers are the plain map's |
| KeyValueRuns.FileHoldsOne | sources/misc/prefixtree/prefixtree.h:255-338 | a file holds at most one map |
| KeyValueRuns.ReopenTree | sources/misc/prefixtree/prefixtree.h:328-338 | opening the same bytes again gives the map of the file, and a cached root that agrees with it |
| KeyValueRuns.EmptyKeyModel | sources/misc/prefixtree/prefixtree.h:353-421 | for every value and every other key: a value of the empty key is not seen before reopening, and is lost when a key with a new first character is set in between |
| KeyValueRuns.EmptyKeyIsStale | sources/misc/prefixtree/prefixtree.h:353-421 | two concrete runs: the wrong answer, and the lost value |
| NamedLocks.TokensPlusHolders | sources/misc/namedlock.go:16-60 | in every interleaving the tokens and the holders of a name are one in number, timed-out acquirers included |
| NamedLocks.MutualExclusion | sources/misc/namedlock.go:53-60 | at most one goroutine runs under a name |
| NamedLocks.ReleaseFindsRoom | sources/misc/namedlock.go:39-51 | a release never finds the channel full |
| NamedLocks.LocksAlternate | sources/controller/controller_varhelper.go:303-343 | between two locks of a variable there is an unlock |
| NamedLocks.SuccessMeansMarked | sources/controller/controller_varhelper.go:310-321 | a lock attempt succeeds exactly when it set the flag itself |
| NamedLocks.RefusedMeansLocked | sources/controller/controller_varhelper.go:310-321 | a finished attempt sees the variable locked, by the last thing that happened to it; a refused one did not set the flag |
| NamedLocks.UnlockedAttemptSucceeds | sources/controller/controller_varhelper.go:310-321 | in every run, an attempt whose check finds no lock reports success when it is finished, whatever the others do in between |
| NamedLocks.AttemptGoesThrough | sources/controller/controller_varhelper.go:310-321 | such an attempt can finish in three steps of its own, with the flag set and the lock recorded |
| NamedLocks.UnlockedMeansFree | sources/controller/controller_varhelper.go:338-343 | after an unlock has done its work the variable is not locked |
| NamedLocks.ReleasedWhenDone | sources/misc/namedlock.go:53-60 | nobody releases a name before the work under it is done |
| NamedLocks.WaitsForToken | sources/misc/namedlock.go:16-37 | without a timeout, as for every variable lock, a wait ends only in holding the name |
| NamedLocks.WaiterCanBeServed | sources/misc/namedlock.go:16-60 | in every state of every run, whoever waits for a name can be running under it after at most five steps: no deadlock, no lost token |
| NamedLocks.HolderMoves | sources/misc/namedlock.go:39-60 | whoever runs under a name can always take a step that brings its release nearer, or release, which frees the token |
| NamedLocks.RunInv | sources/misc/namedlock.go:16-60 | the invariant behind these holds in every state of every run |
| DotPaths.TrailingDot | sources/services/storage/ramcacheddb.go:119-156 | a name with a dot added addresses the same node exactly when it did not end with a dot |
| DotPaths.PathOfJoin | sources/services/storage/ramcacheddb.go:119-156 | the dotted name of a path of nonempty segments is read back as that path |
| DotPaths.FullNameIsJoin | sources/services/storage/ramcacheddb.go:339-352 | the name that a walk builds for a path is its segments joined by dots, when none is empty |
| DotPaths.ControlledTwice | sources/controller/controller_varhelper.go:70-81 | the name under which a variable is kept begins with "vars.", and is the given one exactly if that does |
| DotPaths.SetAtFacts | sources/services/storage/ramcacheddb.go:159-170 | set changes one value and adds the missing ancestors, empty |
| DotPaths.DeleteAtFacts | sources/services/storage/ramcacheddb.go:222-239 | plain delete clears one path, cascade delete removes exactly the subtree |
| DotPaths.SetThenDelete | sources/services/storage/ramcacheddb.go:159-239 | a delete undoes a set of a new leaf |
| RamTrees.RamCachedDB.ScrollTree | sources/services/storage/ramcacheddb.go:119-156 | the node at the name's path; missing nodes are made, unless read-only; table, parent links and names stay in agreement |
| RamTrees.RamCachedDB.Set | sources/services/storage/ramcacheddb.go:159-170 | the tree stands for the map with the one value set |
| RamTrees.RamCachedDB.Get | sources/services/storage/ramcacheddb.go:173-181 | the value at the path, or the default when there is no node |
| RamTrees.RamCachedDB.HasValue | sources/services/storage/ramcacheddb.go:214-219 | whether there is a node at the path |
| RamTrees.RamCachedDB.GetChildNames | sources/services/storage/ramcacheddb.go:184-211 | exactly the segments by which the path can be continued; the empty name means the root |
| RamTrees.RamCachedDB.DeleteValue | sources/services/storage/ramcacheddb.go:222-239 | the tree stands for the map after the delete, with or without cascade |
| RamTrees.RamCachedDB.RemoveNode | sources/services/storage/ramcacheddb.go:229-238 | the same from the node object on: value, children and the parent's table |
| RamTrees.ChildAdded | sources/services/storage/ramcacheddb.go:128-149 | a new child keeps the tree in order and adds one empty path |
| RamTrees.SubtreeRemoved | sources/services/storage/ramcacheddb.go:235-237 | unlinking a node keeps the tree in order and removes the paths below it |
| RamTrees.RamCachedDB.DumpToStringLocked | sources/services/storage/ramcacheddb.go:339-352 | one line for every nonempty value below a node and no other, whatever the names and in whatever order children are visited |
| RamTrees.RamCachedDB.Load | sources/services/storage/ramcacheddb.go:355-385 | the tree stands for the map after the lines were read in order |
| DumpTexts.LoadAllIs | sources/services/storage/ramcacheddb.go:355-385 | which nodes a load leaves and which line decides each value, in closed form |
| DumpTexts.LoadTwice | sources/services/storage/ramcacheddb.go:57-69 | loading any text twice equals loading it once |
| DumpTexts.DumpLoads | sources/services/storage/ramcacheddb.go:339-385 | a dump in any order loads into an empty database as exactly the nonempty values |
| DumpTexts.ParseLineIs | sources/services/storage/ramcacheddb.go:355-385 | a line is split at its first "=", and passed over without one |
| RamTrees.NewRamCacheDB | sources/services/storage/ramcacheddb.go:41-73 | a started database stands for what its dump file says |
| RamTrees.DumpAndRestart | sources/services/storage/ramcacheddb.go:322-385 | a database that is dumped and started again has the nonempty values it had |
| Numerals.ItoaRoundTrip | sources/misc/dynamicvar.go:134-147 | a stored count is read back as that number |
| Numerals.SignedText | sources/misc/dynamicvar.go:134-147 | signs and leading zeros are read, and a text with any other character counts as 0 |
| Cells.NameIsPath | sources/controller/controller_varhelper.go:96-104 | the names built by concatenation mean the paths they are meant to mean |
| Cells.KeysApart | sources/controller/controller_varhelper.go:93-199 | different entries have different paths, and none lies below another, for all variables, clients and indices |
| Cells.SetCell | sources/services/storage/ramcacheddb.go:159-170 | setting an entry's name changes that entry and no other |
| Cells.GetCell | sources/services/storage/ramcacheddb.go:173-219 | reading or testing an entry's name is reading or testing the entry |
| Cells.DeleteCell | sources/services/storage/ramcacheddb.go:222-239 | a plain delete of an entry's name takes away that entry and no other |
| Cells.ListNodeGone | sources/controller/controller_varhelper.go:189-190 | the cascade delete of a list node takes away its two entries and no others |
| Cells.ClientNodeGone | sources/controller/controller_clienthelper.go:252 | the cascade delete of a client takes away all its entries and no others |
| Cells.WatchNamesAre | sources/controller/controller_clienthelper.go:152-158 | the children of a client's list node are the count and the numbers in use |
| Books.IndexExact | sources/controller/controller_varhelper.go:93-110 | the reverse index maps a pair to i exactly when list entry i is that pair |
| Books.NoDuplicates | sources/controller/controller_varhelper.go:93-110 | the observer list holds no pair twice |
| Books.EntriesDetermined | sources/controller/controller_varhelper.go:93-199 | a list determines all its entries, also which are absent: nothing is left behind |
| Books.StrippedBack | sources/controller/controller_clienthelper.go:161-164 | a client is told the name it observed |
| Books.RegisteredKept | sources/controller/controller_varhelper.go:96-105 | appending a pair that is not there keeps list and index in agreement |
| Books.RegisteredBook | sources/controller/controller_varhelper.go:93-110 | registering keeps list and index in agreement if and only if the pair was not registered |
| Books.ShiftStep | sources/controller/controller_varhelper.go:181-188 | what every round of the shifting loop keeps |
| Books.ShiftEnd | sources/controller/controller_varhelper.go:189-195 | dropping the last entry, the count and the index entry leaves the list without the pair, and an exact index |
| Observers.VarHelper.RegisterObservation | sources/controller/controller_varhelper.go:93-110 | the pair is appended and its number returned, registered or not; the exact entries afterwards; list and index still agree if and only if it was not registered |
| Observers.VarHelper.InternalRemoveObserving | sources/controller/controller_varhelper.go:171-199 | the pair is taken out of the list in order; without it nothing changes |
| Observers.VarHelper.RemoveAllClientObservations | sources/controller/controller_varhelper.go:155-169 | the list becomes the list filtered in order |
| Observers.VarHelper.IsClientObserving | sources/controller/controller_varhelper.go:346-348 | whether the pair is in the list |
| Observers.ClientHelper.RegisterNewObservation | sources/controller/controller_clienthelper.go:182-191 | the name is appended to the client's list |
| Observers.ClientHelper.FindVarIndexOnObservingVars | sources/controller/controller_clienthelper.go:193-204 | the first place of the name, or -1 when there is none |
| Observers.ClientHelper.UnregisterObservation | sources/controller/controller_clienthelper.go:207-223 | the first occurrence of the name is taken out; without one nothing changes |
| Observers.ClientHelper.GetObservingVars | sources/controller/controller_clienthelper.go:152-167 | the watched names without their prefix, each as often as it is watched |
| Observers.ClientHelper.RemoveClientFromObservationSystem | sources/controller/controller_clienthelper.go:237-254 | the client's list is gone, nothing else changes |
| Observers.Controller.ObserveVar | sources/controller/controller.go:589-596 | both sides are updated, or neither when the pair is registered |
| Observers.Controller.StopObservingVar | sources/controller/controller.go:626-632 | the pair is removed from one side and the first matching name from the other |
| Observers.Controller.DeleteClient | sources/controller/controller.go:703-711 | the client is swept from every variable it watches, and its list dropped |
| Observers.RunObservations | sources/controller/controller.go:589-711 | after every run from an empty database the helpers answer what the two tables say that the operations lead to: the observers, and as watched exactly the names that the client has behind "vars."; the tables were in step throughout exactly when all stops matched |
| Observers.WatchedPrefixed | sources/controller/controller.go:589-596 | in every run all names that a client watches have the prefix "vars." and more behind it |
| Balances.ObservedBalanced | sources/controller/controller.go:589-596 | an observation keeps, for every client and variable, as many entries as names |
| Balances.StoppedBalanced | sources/controller/controller.go:626-632 | a stop keeps it if and only if the pair is registered with the variable exactly when the name is with the client |
| Balances.OneSidedStop | sources/controller/controller.go:626-632 | a concrete run that takes the two sides out of step |
| Balances.DeletedBalanced | sources/controller/controller.go:703-711 | after a client is deleted no variable's list mentions it, the other pairs keep their order, and both sides agree |
| Balances.DeletedClean | sources/controller/controller.go:703-711 | after deleteClient no list mentions the client if and only if every list that did belonged to a variable that one of its names leads to |
| Balances.RunBalanced | sources/controller/controller.go:589-711 | both sides agree at every moment of a run if and only if all its stops matched |
| NestedNames.InsertedAt | sources/services/apis/httpapi/httpapi.go:488-529 | inserting a value sets it for its name and for no other name, also where scalars become objects |
| NestedNames.OwnValueMember | sources/services/apis/httpapi/httpapi.go:504-527 | the value of a name that has others below it is its member "_value", in whichever order they come |
| NestedNames.EmptySegments | sources/services/apis/httpapi/httpapi.go:488-503 | empty segments of a name are passed over, and one at its end stores nothing |
| NestedNames.SameJson | sources/services/apis/httpapi/httpapi.go:484-529 | a document in normal form is determined by the values it gives to names |
| NestedNames.BuiltAt | sources/services/apis/httpapi/httpapi.go:247-261 | every name reads back the value inserted last for it, and no other name has one |
| NestedNames.OrderIndependent | sources/services/apis/httpapi/httpapi.go:247-261 | distinct names give the same document in every order |
| NestedNames.FlattenedRebuilt | sources/services/apis/httpapi/httpapi.go:488-529 | building the flattening of a plain document gives that document, in every order |
| Variables.GetOnly | sources/misc/misc.go:12-20 | the characters of a name that setVar leaves, in order |
| Variables.AllowedAre | sources/controller/controller.go:122-126 | the characters that it leaves are those of the literal text |
| Variables.OnlyAppend | sources/misc/misc.go:12-20 | the filter works character by character |
| Variables.InternalSegments | sources/controller/controller.go:126-133 | a name is refused as internal exactly if one of its segments begins with an underscore |
| Variables.AtTheLimits | sources/controller/controller.go:134-160 | names, values and words up to the limits are accepted, and none beyond them |
| Variables.StorableSegments | sources/controller/controller.go:122-133 | the segments of a name that setVar accepts have only allowed characters, no dot, and no underscore in front |
| Variables.StoredNodes | sources/controller/controller.go:122-174 | after any list of sets on a store without variables, the nodes are the names that were set and what lies above them |
| Variables.StoredValues | sources/controller/controller.go:122-174 | a node has the text of a set of it if there was one, and is empty otherwise |
| Variables.TheController.GetChildNames | sources/controller/controller_varhelper.go:247-260 | the children of a variable's node that are neither empty nor internal |
| Variables.TheController.AllChildNames | sources/controller/controller.go:309-329 | the recursion over child names terminates and lists, each once, exactly the names whose every segment is a child of what stands before it |
| Variables.TheController.ResolveWildCards | sources/controller/controller.go:285-307 | it terminates; a name with stars stands for what stands before the first star and, for everything listed below that in some order, for what that name with the rest behind it stands for; a name without stars for itself; no resolved name has a star |
| Variables.StarFindsChildren | sources/controller/controller.go:285-329 | a star behind a dot stands, among others, for every listed child of what stands before the dot |
| Variables.TrimDotIs | sources/controller/controller.go:294-299 | one dot at the end of what stands before a star is dropped, and nothing else |
| Variables.IncrementIs | sources/controller/controller.go:232-241 | an increment instruction is a name with "${i" somewhere in it |
| Variables.TheController.ResolveVarNames | sources/controller/controller.go:215-281 | the same with increment instructions, which yield no names |
| Variables.TheController.SetOne | sources/controller/controller.go:122-174 | on any store, it fails exactly for refused names and values and for locked variables, and otherwise sets the one variable of the filtered name |
| Variables.TheController.IsLocked | sources/controller/controller_varhelper.go:298-303 | on any store, whether the lock flag of the variable is neither "0" nor empty |
| Variables.TheController.SetVar | sources/controller/controller.go:181-202 | the names it stands for are set in order up to the first that is refused, and an error is reported exactly then; the store is what these sets make of it |
| Variables.TheController.GetAllVars | sources/controller/controller.go:353-383 | every listed variable with a text, once, with its text |
| Variables.AllTexts | sources/controller/controller.go:353-383 | keeping the nonempty values of the listed names gives each listed variable with a text once |
| JsonSets.SetJson | sources/services/apis/httpapi/httpapi.go:310-335 | for every document the values it came to, each once, and the sets made for them: all values of the document if there was no error, and no error if all of them are accepted; the store is what these sets make of it |
| JsonSets.BuildNested | sources/services/apis/httpapi/httpapi.go:206-261 | the export loop builds the document of the split names and decoded texts |
| JsonSets.RootValue | sources/services/apis/httpapi/httpapi.go:241-261 | the value of the empty name becomes the root's member "_value" when there are others, and is dropped when it is the only one |
| VisibleDocs.KeptIs | sources/controller/controller_varhelper.go:70-81 | where the variable of a visible name is kept: under "vars", unless the name has that as the first of several segments |
| VisibleDocs.ValueRefused | sources/controller/controller.go:125-133 | a name that ends in "_value" is refused |
| ExportedDocs.VarsOkLists | sources/controller/controller_varhelper.go:70-81 | if the prefix rule does no harm, the export shows exactly the values of the stored document |
| ExportedDocs.ListsVarsOk | sources/controller/controller_varhelper.go:70-81 | and only then |
| ExportedDocs.SettledLists | sources/services/apis/httpapi/httpapi.go:206-263 | an export that becomes the document when arrays are made showed exactly its values |
| NumberedObjects.NormalizeArrays | sources/services/apis/httpapi/httpapi.go:531-578 | an outcome for some order in which the keys of each object are visited: an array exactly if they come as 0, 1, 2 and so on |
| NumberedObjects.ArrayItems | sources/services/apis/httpapi/httpapi.go:548-577 | an array has one item for each member of its object, at the place that the member's name is the number of |
| NumberedObjects.AtoiItoa | sources/services/apis/httpapi/httpapi.go:553-560 | the number that a member's name is read as is the one it is the decimal text of |
| NumberedObjects.AtoiSigned | sources/services/apis/httpapi/httpapi.go:553-560 | signs and leading zeros are read; numbers beyond 64 bits are not |
| NumberedObjects.ArraysBack | sources/services/apis/httpapi/httpapi.go:531-578 | every outcome is the document itself if and only if no object in it has members numbered from 0 |
| ExportOrigins.StoredExports | sources/controller/controller.go:353-383 | the entries of the export of a stored document: one for every listed name whose place holds one of its values |
| ExportOrigins.BuiltHolds | sources/services/apis/httpapi/httpapi.go:488-529 | a built document has no values but those of what was inserted, decoded objects included |
| ExportOrigins.EntriesAreValues | sources/services/apis/httpapi/httpapi.go:471-482 | if the export becomes the document, no text in it can be decoded, and all values of the export are values of the document |
| ExportOrigins.QuotesAreSane | sources/services/apis/httpapi/httpapi.go:471-482 | what the round trip requires of decoding holds of one that takes quotes off, and fails for one that gives a text back whole |
| RoundTrips.SetAndBack | sources/services/apis/httpapi/httpapi.go:206-335 | a document that the export becomes satisfies the condition |
| RoundTrips.BackExported | sources/services/apis/httpapi/httpapi.go:206-335 | a document that satisfies the condition is what the export builds |
| RoundTrips.WithoutVarsObject | sources/services/apis/httpapi/httpapi.go:310-335 | without an object "vars", a document that comes back was set without an error |
| RoundTrips.ExportDetermined | sources/services/apis/httpapi/httpapi.go:206-261 | what is exported is determined by the store, in whatever order variables are visited, if no text stands for an object |
| RoundTrips.ReadableIs | sources/services/apis/httpapi/httpapi.go:471-482 | which values read back: texts that the decoder leaves alone, and values whose own text it decodes to them |
| RoundTrips.OneMember | sources/services/apis/httpapi/httpapi.go:206-335 | the condition for a document of one member, spelled out |
| RoundTrips.SetThenExport | sources/services/apis/httpapi/httpapi.go:206-335 | for every document on a server without variables: it comes back in every order in which maps are visited, and without an error, if and only if it satisfies the condition; without an object "vars" the error need not be looked at |
| RoundTrips.LostName | sources/controller/controller.go:125-133 | a member whose name has a filtered character, a dot or a star, or is internal, does not come back |
| RoundTrips.LostDocuments | sources/services/apis/httpapi/httpapi.go:471-578 | documents that do not come back: a member "0", a name with a space, an object "vars", an empty text, a text that the decoder reads as something else, an empty object |
| RoundTrips.VarsBack | sources/controller/controller_varhelper.go:70-81 | a text under "vars" or "vars.vars.vars" comes back, one under "vars.vars" does not |
| Framing.VssCli.HandleNewData | sources/misc/goVssClient/vsscli/vsscli.go:190-204 | what was received is what all complete lines so far say; the buffer is the line that has only begun |
| Framing.VssCli.ProcessReceivedPack | sources/misc/goVssClient/vsscli/vsscli.go:206-214 | a line that is a command without colons, a colon and a payload gives the message of the two; a line without a colon gives none |
| Framing.ReceivedSoFar | sources/services/apis/vstp/vstp.go:233-243 | at every moment the messages received are a beginning of the messages sent |
| Framing.Receive | sources/misc/goVssClient/vsscli/vsscli.go:190-214 | however the stream is cut, the client receives exactly the messages sent, in order |
| Framing.CommandReadBack | sources/services/apis/vstp/vstp.go:483-498 | command, id and payload are read back from the line that carries them, whichever of the four separators stands before the payload |

## Left out

- FileStores.FileStorage.Write: requires an offset within the room of the sequence. Past it the source writes into blocks
  it does not link, as the contract of SeekChain says, and stores a size beyond the room, after which no reading of the
  file is in order (FileMeaning.SizePastRoom).
- FileStores.FileStorage.Open: is given the chains as a ghost argument and requires a file in order; that the argument
  adds nothing to the bytes is FileMeaning.LayoutUnique. A damaged file is not modelled.
- PrefixTrees.PrefixTree.Set: requires the encoded node and the block to fit in 32-bit sizes and the file to stay below
  2^64 bytes, where the source's integers would wrap around.
- KeyValueRuns.Run: its operations have keys and values that fit in 32-bit sizes; the room it counts for a write is the most
  that any such write can need.
- PrefixTrees.PrefixTree.SearchChilds: the mode that skips the children of included nodes is not modelled; a missing filter
  is one that keeps nothing.
- PrefixTrees.PrefixTree.RecursiveGetChilds: the same.
- Observers.Controller.ObserveVar: the notification that follows is not modelled; a client dropped by it is a separate
  Delete operation.
- Observers.ClientHelper.RemoveClientFromObservationSystem: the list of all clients with its indices, the live time and the
  API id are not modelled; they lie outside the entries modelled here.
- Observers.ClientHelper.GetObservingVars: the order of the results is that of Go's map iteration, here some permutation.
- Variables.TheController.ResolveVarNames: whether the rule of an increment instruction can be read is a parameter; such a
  name never sets anything.
- Variables.TheController.SetVar: the store has no lock flags, because it holds only what clients' sets can store; SetOne and
  IsLocked work on any store, and who sets the flags is in NamedLocks.
- JsonSets.SetJson: notifications are left out, and the goroutines of one set are run in order. Lengths are those of the
  strings, whose elements stand for bytes.
- JsonSets.BuildNested: the export of everything, with default parameters; trimming the base name of a narrower wildcard
  and the reply with a single value are left out.
- RoundTrips.SetThenExport: JSON encoding and decoding are parameters, of which it requires that the texts inside what a text
  decodes to are shorter than it, and that numbers, truth values and arrays of the document read back from their own
  encoding. The store has no variables at first; what else it holds is free.
- Framing.Receive: carriage returns and surrounding white space, which the server trims, and the order in which the server's
  goroutines run are not modelled.
- Numerals.ItoaRoundTrip: counts are unbounded here and 64-bit in the source.
- Stream failures, flushing, failing allocations and the buffers handed across the C boundary are not part of this model;
  neither are JSON decoding, sockets, HTTP handlers, logging, configuration and terminal output.
- The mutex of `PrefixTree` and the read-write mutex of `RamCachedDB`: operations are modelled one at a time.
- Characters are signed, as on the x86-64 targets; this decides the order of search results.
- `PrefixTree::exists` is true for every key; the model has the `exists` of `prefixtree_cgo.cpp` instead.
- `PrefixTree::suggest`, and `MemoryStorage`, which is not compiled in and does not meet the same contract.
- The variable lock's clock, timeout and random backoff: an attempt may be repeated at any moment. What callers do after a
  named lock timed out is not modelled.
- The raw access mode of `VarHelper`, `RemoveAllObservations`, `GetMetadatasOfAClient` (always empty) and wildcard names
  in observations.
- The `tags` of a node, which only the persistent variant in `ramcacheddbpkv.go` reads, and that variant.
- The lock test in `setVar`, which is not atomic with the write that follows it.
