# A verified model of the BT library

The BT library keeps named B trees in one file: classical B trees whose entries
sit in leaves and above them, edited block by block through a small cache, under
a file lock when processes share the file. This project models the library in
Dafny and proves what it promises.

## How the model is layered

- **Blocks** (`Constants`, `Blocks`, `MemRecs`, `Names`). A block is the whole
  image that goes to the file, stale slots included. The routines inside one
  block are functions on that image; the class `MemRec` has the loops of
  `bputky`, `bremky`, `brepky` and `bcpybk` on real arrays and is proved to
  compute those functions. Keys are integers in the tree layer; `Names` proves
  that `strcmp` on keys shorter than `ZKYLEN` orders them as integers.
- **Trees** (`Seqs`, `Trees`, `Paths`, `Orders`, `Context`). A tree is not a
  separate ghost structure: `Ents` reads the entries of a block of height h in
  order out of the block store, `Blks` the multiset of its blocks. `TreeOK` says
  that all leaves are at the same depth, every block but the root holds 1 to
  `ZMXKEY` keys, all links of leaves with keys are null and no block is used
  twice. The class `Index` is the context of the C code: store, allocator words,
  root, "last found" position, path stack. `Index.Valid` adds strict key order
  and exact ownership of every block, and holds for a file just created.
  `Index.Contents` is the map from keys to values, and the tree results are
  stated about it. A ghost field `busy` has the blocks that are wired down; every
  routine that reads or changes a block may do so only while at most two blocks
  are wired (or if the block itself is), which is what a cache of three slots
  needs. `Kept` says of every find, insert and delete what becomes of the
  information words: the root keeps them (they say whether it allows duplicates
  and where its data is), and blocks below it keep them or have those of a split.
- **Find, insert, delete** (`Split`, `Routes`, `Promotions`, `Find`, `Leaf`,
  `Insert`, `Repair`, `Filling`, `Balance`, `Delete`, `Removal`).
- **Cursors and runs** (`Cursors`, `Session`). A cursor shows an index into the
  sorted entries, a gap between two of them, or nothing.
- **Whole trees** (`Enumeration`, `Stack`): `bnxtbk`, `btkeys`, `btdelr`, and
  the bound on the path stack.
- **Cache and lock** (`Lru`, `Caching`, `Wiring`, `Shared`, `Locking`). `View` is
  the file seen through the cache; the tree layer works on it, and `Wiring` says
  that what the tree layer asks for before it reads a block is what the cache
  needs. `Shared` is a state machine of any number of processes, and `Locking`
  shows that the locking routines of one process on its cache are steps of it.
- **Data and duplicates** (`DataSegments`, `DataRecords`, `Duplicates`).

`ZMXKEY` (more than `ZTHRES`), the number of cache slots (at least 3), the word
size and the block size are symbolic: the results hold for every legal build.
Two conditions appear where the code needs them. Deletes are right if
`(ZMXKEY + 1) / 2 > ZTHRES`, which both shipped configurations meet; a lemma
shows that the condition is exact for the repair of an emptied leaf. A delete
also wants a free key slot in every block above the leaves (`Slack`); searching,
inserting and deleting keys found in leaves keep it, and `EndsAbove` tells from
the tree before a delete whether the key will be found above them.

Where the code does not do what its comments promise, the model follows the
code, and says exactly when it matters:

- `bpush` has a guard that never fires; a push onto a full stack leaves the array
  (`Stack.PathStack.Push`).
- `bqhead` does not end when every slot is wired, and ends otherwise
  (`Caching.Cache.QueueSpin`, `Caching.Cache.QueueHead`).
- `bcpybk` moves links one place further right when it does not copy to the start
  of a block (`Blocks.CopyKeys`), and a copy of no keys loses its link exactly if
  the slot was clean and the link is new (`Caching.Cache.CopyBlock`).
- `bdemte` loses the key it is about to demote exactly if the sister is full: the
  split of the sister overwrites the static entry (`Delete.DemotePair`).
- `bupddt` leaves a segment without bytes behind exactly if the new data is not
  empty and fits in what precedes the last segment
  (`DataRecords.Records.UpdateData`).
- `btcrt` leaves the link of its empty root unset, so a leaf without keys may have
  any link (`Context.Index.constructor`).
- `bfndky` leaves position -1 in an empty block, and `binsky` does not change it:
  after the first insert into an index the context is no place in it, so that
  neither of its neighbours is defined (`Session.AddHere`).

## Model

| member | source | states |
|---|---|---|
| Blocks.SearchBlock | src-lib/bsrhbk.c:83-111 | The binary search ends at the key, or next to the gap where it belongs, with the sign telling the side; an empty block gives ZNULL and a negative sign |
| Blocks.PutLeaf | src-lib/bputky.c:58-111 | A key put into a leaf lands in key order, and all links stay null |
| Blocks.PutPromoted | src-lib/bputky.c:58-111 | A key promoted by a split lands in order, its left child stays in place and the new block follows |
| Blocks.PutDemotedLeft | src-lib/bputky.c:58-111 | A smallest key with an orphan block as left link goes to the front and everything else moves up by one |
| Blocks.PutDemotedRight | src-lib/bputky.c:58-111 | A key with only a right link is appended whatever its order, with the orphan block behind it |
| Blocks.RemKeyView | src-lib/bremky.c:35-57 | Exactly the key at pos and the link to its right disappear from the live part of a block |
| Blocks.CopyFromStartView | src-lib/bcpybk.c:38-75 | A copy to the start of a block yields the chosen stretch of keys with all their links |
| Blocks.CopyAppendLeafView | src-lib/bcpybk.c:42-71 | Appending one leaf to another joins the keys; the shift of links by one place does no harm because all are null |
| MemRecs.MemRec.Shift | src-lib/bputky.c:75-87 | The shifting loop on the arrays stops at the place of the new key and moves keys and links up by one |
| MemRecs.MemRec.Put | src-lib/bputky.c:42-119 | The array code leaves the image the tree proofs rely on, and nothing changes in a full block |
| MemRecs.MemRec.Remove | src-lib/bremky.c:35-57 | The array loop computes the image without the key at pos |
| MemRecs.MemRec.Replace | src-lib/brepky.c:40-67 | Key and both links are replaced inside the array, and a location outside it is refused without effect |
| MemRecs.MemRec.CopyFrom | src-lib/bcpybk.c:38-75 | The copy loop between two blocks computes the image of the value model, including its treatment of links |
| Names.RankOrder | src-lib/bsrhbk.c:94-94 | strcmp on keys that fit a key slot agrees with the order and equality of integers, so keys may be integers |
| Names.FirstDifference | src-lib/bsrhbk.c:94-94 | The first byte in which two strings differ decides strcmp, an end being less than every byte |
| Names.SameKey | src-lib/bfndky.c:64-66 | Two names are the same key if and only if they agree in their first ZKYLEN - 1 bytes, a terminator counting as a byte |
| Names.EmptyKey | src-lib/btpos.c:71-71 | The empty key, which stands for the start in shared mode, is the smallest |
| Trees.BetweenConcat | src-lib/bsptbk.c:84-101 | Entries read out of a block split at any key into the parts before and after it |
| Paths.Plug | src-lib/bsptbk.c:52-107 | A change below the end of a path that keeps that subtree sound keeps the whole tree sound, and all entries beside it |
| Orders.KeysSorted | src-lib/bsrhbk.c:83-111 | Strict order of a tree's entries gives strict order inside each of its blocks, which the binary search needs |
| Orders.ToMapKeys | src-lib/bfndky.c:83-119 | The map of a tree has exactly the keys of its entries |
| Orders.SortedUnique | src-lib/bnxtky.c:79-128 | Two strictly sorted sequences with the same map are equal, so a map fixes what a scan lists |
| Context.Index.constructor | src-lib/btcrt.c:88-131 | A file just created is a sound, empty index: super root and wired empty root, nothing free, whatever the two slots held before; block 0 has the allocator words and is itself a sound leaf with the names of the two roots in order, and the words of the root are those of a root without data and duplicates |
| Context.GetFree | src-lib/bgtfre.c:36-93 | The head of the free list, or a new block at the end of the file; in both cases owned by nobody before, with all other blocks unchanged and every block still owned once or free once |
| Context.MakeFree | src-lib/bmkfre.c:33-48 | An owned block becomes the head of the free list, and ownership of all blocks stays exact |
| Context.Copy | src-lib/bcpybk.c:38-75 | The to-block is wired while the from-block is read; both reads happen with at most two wired blocks, and afterwards the to-block is not wired |
| Split.SplitBlock | src-lib/bsptbk.c:38-111 | Splitting takes one new block (two for the root) that nobody owned, and leaves halves and promoted key as SplitChild and GrowRoot need them; new blocks carry the words of a split with their parent and root, and no other block changes a word but its key count |
| Split.SplitRoot | src-lib/bsptbk.c:54-75 | Both halves of the root go to new blocks and its middle key stays; the words of the root stay, so it still allows duplicates or not and still has its data blocks |
| Split.SplitOther | src-lib/bsptbk.c:82-107 | The upper half moves to a new block and the middle key goes to the parent, which has room; the parent keeps its words, root or not |
| Split.SplitChild | src-lib/bsptbk.c:82-107 | A split below keeps the entries of the parent's tree in order, its leaf depth and its blocks plus the new one |
| Split.GrowRoot | src-lib/bsptbk.c:54-75 | A root split keeps the entries and raises the height by exactly one |
| Split.PromotedFits | src-lib/bfndky.c:83-94 | Every key of the child belongs between the parent's keys at the position where the child hangs |
| Routes.RouteSplit | src-lib/bfndky.c:83-94 | After a split the parent's route for the searched key passes all blocks the child's route passed |
| Routes.RouteThrough | src-lib/bfndky.c:75-119 | The rest of a search is part of the whole route of the key |
| Promotions.EndsThrough | src-lib/bfndky.c:95-119 | Whether a search will find its key above the leaves can be asked at any block on the way |
| Promotions.EndsSplit | src-lib/bfndky.c:79-94 | A split below a block, which may lift the very key into it, does not change the answer |
| Promotions.EndsRootSplit | src-lib/bsptbk.c:54-75 | Nor does a root split |
| Find.FindKey | src-lib/bfndky.c:45-125 | Search restructures but never changes the map or the order of entries; it reports the value exactly for present keys; the stack is the path; no block of the path is full; free slots above the leaves stay; full blocks that lie on the route of a missing key are all gone; if no block of the route is full nothing changes at all; the key is found above the leaves exactly if the tree before says so; every block is read with at most two wired, and only the root is wired at the end; the root keeps its words, blocks below it keep theirs or have those of a split, and all other blocks are as before |
| Find.FindLoop | src-lib/bfndky.c:75-119 | The split-and-retry descent terminates: fewer full blocks, or the same number and less way to go |
| Find.FindStep | src-lib/bfndky.c:75-119 | One pass keeps the search invariant, makes the measure smaller, and leaves at most the next block full above the leaves |
| Find.SplitIteration | src-lib/bfndky.c:79-94 | A pass that splits finds room for the promoted key in the parent and keeps entries, path and free slots |
| Find.KeptByChange | src-lib/bsptbk.c:38-111 | A split that only changes its two or three blocks, and words as bsptbk does, keeps the words of the root and the contents of blocks outside the tree |
| Find.FewerFull | src-lib/bfndky.c:79-94 | A split lowers the number of full blocks, or leaves it and fills the parent |
| Find.FoundInMap | src-lib/bfndky.c:112-117 | A key found at the end of a path is in the map with the value stored there |
| Find.GapNotInMap | src-lib/bfndky.c:103-111 | A search that ends at a gap in a leaf proves the key absent from the whole tree |
| Find.LandedEnds | src-lib/bfndky.c:112-117 | At the end of a search the answer is whether the key was found in a block with children |
| Leaf.GoLeaf | src-lib/bleaf.c:34-64 | The descent ends at the first place of the subtree to the right, or the last of the one to the left, of the current position, pushing exactly that path |
| Insert.InsertKey | src-lib/binsky.c:37-84 | Insert is map update for a missing key, reports QDUP and keeps the map for a present one, refuses in read-only mode without any effect, and keeps tree soundness, free slots and the words of the root; afterwards the context is on the key that was there, or at the place before the new one, or, for the first key of an index, at position -1; every block is read with at most two wired |
| Insert.InsertAt | src-lib/binsky.c:73-74 | After a failed search the new key goes into the gap in the leaf and the map gains exactly it |
| Insert.LeafGraft | src-lib/binsky.c:73-74 | Putting an entry into a leaf at the end of a path inserts it between all entries to the left and to the right |
| Repair.MergeStep | src-lib/bjoin.c:39-58 | Merging two neighbours and their separating key keeps the parent's entries in order and its depth, and frees one block |
| Repair.MergeUp | src-lib/bdelk1.c:98-102 | The same inside the whole tree: the relaxed place moves one level up, and nothing else changes |
| Repair.BalanceUp | src-lib/balbk1.c:43-98 | Balancing inside the whole tree restores a tree with all its entries |
| Repair.JoinMerges | src-lib/bjoin.c:39-58 | The joined leaf holds left keys, separator and right keys, in this order, with null links |
| Repair.DemoteRight | src-lib/bdemte.c:101-105 | Demoting a key to the right end of the left sister, with the orphan behind it, keeps the in-order entries |
| Repair.DemoteLeft | src-lib/bdemte.c:91-105 | Demoting a key to the left end of the right sister, with the orphan before it, keeps the in-order entries |
| Repair.Collapse | src-lib/bdemte.c:110-118 | The root takes over its only child: same entries, height less by exactly one, one block free |
| Filling.FilledUp | src-lib/bdemte.c:71-108 | A demotion fills at most one block above the leaves, and that block is on the route of the deleted key |
| Filling.CloseRouted | src-lib/bdelk1.c:98-110 | When the cascade ends, all full blocks above the leaves are on the route of the deleted key, where the search at the end splits them |
| Filling.CollapseRouted | src-lib/bdemte.c:110-118 | A root collapse keeps this |
| Balance.BalanceLeaves | src-lib/balbk1.c:43-98 | Keys rotate through the parent in order and without loss; neither side overflows or empties, and the sizes differ by at most two |
| Balance.MoveKeys | src-lib/balbk1.c:72-82 | The rotation loop keeps the joint sequence of both leaves and the separator |
| Delete.JoinBlocks | src-lib/bjoin.c:39-58 | The routine changes the parent and the left leaf as Repair.JoinMerges needs, frees the right leaf and touches no other block |
| Delete.JoinPair | src-lib/bjnblk.c:45-76 | A join yields one key more than both leaves had, and at most ZMXKEY - ZTHRES |
| Delete.TrySister | src-lib/bjnblk.c:45-76 | A sister is joined if and only if both fit with ZTHRES slots to spare; else everything is as before |
| Delete.JoinLeaf | src-lib/bjnblk.c:34-84 | The leaf is joined if and only if one of its sisters fits, and that gives a block back; a join leaves the relaxed place in the parent, and without one the context is restored |
| Delete.TryBalance | src-lib/balblk.c:43-74 | A pair of leaves whose sizes differ by more than half a block is balanced to within two keys and the tree is whole; else everything is as before |
| Delete.BalanceLeaf | src-lib/balblk.c:30-81 | When no join was possible the tree is whole afterwards; the leaf is balanced if and only if a sister is smaller or larger by more than half a block; in particular an emptied leaf has been refilled |
| Delete.EmptyLeafRepaired | src-lib/bjnblk.c:54-58 | An emptied leaf is always joined or balanced if and only if ceil(ZMXKEY / 2) > ZTHRES |
| Delete.DemotePair | src-lib/bdemte.c:71-108 | Demotion into a sister with room changes parent and left block only, and frees the right one; for a key that is nowhere else in these blocks, it is in none of them afterwards if and only if the sister was full |
| Delete.PairAlone | src-lib/bdemte.c:60-71 | In a strictly ordered tree the key between two children is nowhere else in their parent and in them |
| Delete.DemoteMerges | src-lib/bdemte.c:71-108 | What it leaves is a merge of the empty block, the demoted key and the sister, and keeps the record of filled blocks |
| Delete.DemoteKey | src-lib/bdemte.c:46-109 | One demotion moves the relaxed place one level up and keeps the entries and the depth of all leaves |
| Delete.CollapseRoot | src-lib/bdemte.c:110-118 | An emptied root takes over its only child, and the tree is whole with a height less by one; the words of the root stay |
| Delete.Demote | src-lib/bdemte.c:35-125 | Each step of the cascade ends it with a whole tree, or climbs one level; a block is given back exactly when the last found block was empty, and the height drops by one exactly when that was the root |
| Removal.Rekeyed | src-lib/bdelk1.c:65-82 | Putting the predecessor in the place of a key above the leaves changes that one entry and no block's place |
| Removal.TakeEntry | src-lib/bdelk1.c:65-82 | Afterwards the context is at a leaf entry whose removal leaves exactly the other entries, in order |
| Removal.RepairTree | src-lib/bdelk1.c:89-103 | Join, balance and the demotion cascade end with a whole tree of the remaining entries, at most one level lower; blocks are given back if and only if a sister of the leaf fits, and if none does and none differs much in size nothing changes |
| Removal.TakeFromLeaf | src-lib/bdelk1.c:83-103 | Removing the leaf entry and repairing leaves a sound tree with exactly the other entries, joined or balanced exactly when the sizes of the leaf and its sisters call for it |
| Removal.TakeOut | src-lib/bdelk1.c:65-103 | The key, and only it, leaves the map; if it was in a leaf, full blocks above the leaves lie on its route |
| Removal.DeleteEntry | src-lib/bdelk1.c:65-110 | After the search at the end the context is at the gap the key left, and for a leaf key free slots above the leaves are back |
| Removal.DeleteHere | src-lib/bdelk1.c:37-114 | Deleting at the context removes exactly the last found key; no exact match gives QDELEX and another key QDELER, both without effect on file and context; the root keeps its words |
| Removal.DeleteKey | src-lib/bdelky.c:34-63 | Delete removes exactly the given key, or reports QNOKEY and keeps the map; the tree stays sound; free slots above the leaves stay unless the key was found above them, which it says, and which is exactly what EndsAbove says of the tree before; every block is read with at most two wired; the root keeps its words; in read-only mode nothing changes |
| Removal.TakenMap | src-lib/bdelk1.c:83-83 | Dropping one entry from sorted entries drops exactly its key from the map |
| Cursors.NextKey | src-lib/bnxtky.c:42-132 | From any key, gap or end the next key in order is returned and becomes current; past the last key QNOKEY, the cursor is off with an empty stack and without an exact match, and the last found key is empty |
| Cursors.PrevKey | src-lib/bprvky.c:42-155 | The mirror image, with the predecessor; past the first key the last found key stays |
| Cursors.Position | src-lib/btpos.c:44-98 | The cursor is at the gap before the first or behind the last key |
| Cursors.FoundShows | src-lib/bfndky.c:112-117 | A successful search puts the cursor on the key's place in the order |
| Cursors.GapShows | src-lib/bfndky.c:103-111 | A failed search puts it into the key's gap |
| Cursors.GapNeighbours | src-lib/bnxtky.c:79-128 | From a key's gap the next step leads to the least larger key and the previous step to the greatest smaller one |
| Cursors.ScanForward | src-lib/btpos.c:70-74 | A scan from the start lists every entry once, in key order |
| Cursors.ScanBackward | src-lib/btpos.c:75-92 | A scan from the end lists every entry once, in reverse order |
| Session.Execute | src-lib/binsky.c:54-80 | One find, insert or delete answers as the map does and leaves the map it should; it says exactly whether it deleted a key found above the leaves, and keeps free slots there if not; the root keeps its words |
| Session.Run | src-lib/bdelk1.c:104-110 | Any sequence of finds, inserts and deletes answers as a sequence of map operations, with a sound tree and free slots above the leaves before every command, up to the first delete of a key that its search finds above the leaves; without one the whole sequence is carried out; over the whole run the root keeps its words and blocks outside the tree keep their contents |
| Session.FromScratch | src-lib/btcrt.c:88-131 | So on a file just created every sequence of commands answers as on an empty map, up to such a delete; the root has the words btcrt gave it, and every block in use below it those of a split under this root |
| Session.Walk | src-lib/bnxtky.c:79-128 | Any mix of next and previous steps reports what walking an index in the sorted entries reports, until an end is passed |
| Session.DropCurrent | src-lib/bdelk1.c:83-110 | Deleting the current key leaves the cursor at its gap, so the next steps return its neighbours; for a key in a leaf free slots above the leaves stay |
| Session.DropRefused | src-lib/bdelk1.c:44-63 | A delete is refused exactly where no key was found or another one is named, and every cursor still shows what it showed |
| Session.DropTwice | src-lib/bdelk1.c:44-110 | Deleting the current key twice deletes one key, reports QDELEX, and the next step gives the successor |
| Session.AddHere | src-lib/binsky.c:66-80 | After an insert the cursor is on the key if it was there, and in the gap before it if it is new, so that a step forward gives it; but if and only if the new key is the first one of the index, the context shows no place in it |
| Enumeration.NextBlock | src-lib/bnxtbk.c:38-76 | Successive calls give the blocks of a tree in post-order, each once and the root last, even if blocks already given have been freed |
| Enumeration.PostBlocks | src-lib/bnxtbk.c:46-74 | Post-order holds exactly the blocks of the tree |
| Enumeration.KeyCount | src-lib/butil.c:42-117 | The count is the size of the map; the cursor is lost |
| Enumeration.NodeSize | src-lib/butil.c:95-97 | The key counts of all blocks add up to the number of entries |
| Enumeration.MapSize | src-lib/butil.c:73-99 | Sorted entries are as many as keys in the map |
| Enumeration.FreeTree | src-lib/btdelr.c:86-94 | Deleting a root frees exactly its blocks, each once, and leaves all other blocks and the exactness of ownership |
| Stack.PathStack.Push | src-lib/btstk.c:56-66 | A push appends if and only if the array has room; the guard of the source lets a push onto a full stack pass, outside the array |
| Stack.PathStack.Pull | src-lib/btstk.c:43-54 | A pull undoes the last push; an empty stack gives 0 |
| Stack.PathStack.Clear | src-lib/btstk.c:68-71 | The stack is empty afterwards |
| Stack.PathStack.Depth | src-lib/btstk.c:73-76 | The number of entries |
| Stack.NodeFull | inc/bt.h:133-138 | A tree of h levels of non-empty blocks holds at least 2^h - 1 keys |
| Stack.LevelsBound | inc/bt.h:133-138 | With fewer than 2^21 - 1 keys the path of a tree fits the stack array |
| Stack.CursorFits | src-lib/bleaf.c:45-46 | So does the path of any cursor |
| Stack.SearchFits | src-lib/bfndky.c:97-98 | During a search there is room for the next push |
| Caching.Cache.InitControl | src-lib/bacini.c:59-76 | All slots are empty and in the list in order, and the file seen is the disk |
| Caching.Cache.QueueAdd | src-lib/btque.c:30-43 | A slot joins the end of the list |
| Caching.Cache.QueueMove | src-lib/btque.c:61-102 | A slot moves to the end of the list, which stays a permutation of all slots |
| Caching.Cache.QueueHead | src-lib/btque.c:45-59 | If some slot is not wired the loop terminates with the first such slot in list order, and the wired ones before it have gone to the end |
| Caching.Cache.QueueSpin | src-lib/btque.c:50-57 | If every slot is wired, any number of passes of the loop leaves the list rotated, all slots wired and the guard true, so it does not end |
| Lru.LeastRecent | src-lib/bgtslt.c:39-53 | No slot that is not wired was used longer ago than the one that makes room |
| Caching.Cache.WriteBlock | src-lib/bwrblk.c:36-76 | The slot is clean, disk and file agree on this block, and the file seen is unchanged |
| Caching.Cache.GetSlot | src-lib/bgtslt.c:35-67 | The first empty slot, or else the least recently used one that is not wired, written out; eviction never loses a change and touches no other slot |
| Caching.Cache.ReadBlock | src-lib/brdblk.c:37-88 | The slot returned holds the block as the file seen has it, and the file seen is unchanged by any eviction; it becomes the most recently used one, a missing block replaces exactly the one GetSlot gives up, and all other slots stay |
| Caching.Cache.SetBusy | src-lib/bsetbs.c:37-49 | The block is wired or released, and the file seen is unchanged |
| Caching.Cache.Update | src-lib/brepky.c:53-56 | An in-place change with a counted write changes the file seen in exactly this block |
| Caching.Cache.CopyBlock | src-lib/bcpybk.c:38-75 | Both blocks are in memory when keys are copied, although the second read may evict; the cache stays consistent if and only if keys were copied, the slot had changes already, or the link is the same as before; otherwise the change is only in a slot that counts as clean |
| Caching.Cache.Append | src-lib/bgtfre.c:45-64 | The file grows by the new block and no other block changes |
| Caching.Cache.WriteAll | src-lib/btcls.c:73-80 | Afterwards disk and file seen are equal |
| Caching.WiredBound | inc/bc.h:165-172 | With fewer wired blocks than slots some slot is not wired |
| Wiring.JoinOnCache | src-lib/bjoin.c:39-58 | With the root and at most one more block wired at a time, three slots are enough for a join, and the file seen changes as the tree model says |
| Wiring.SplitOnCache | src-lib/bsptbk.c:82-107 | The same for a split of a block |
| Wiring.SplitRootOnCache | src-lib/bsptbk.c:54-75 | The same for a split of the root |
| Wiring.DemoteOnCache | src-lib/bdemte.c:71-108 | The same for a demotion |
| Wiring.CollapseOnCache | src-lib/bdemte.c:110-118 | The same for a root collapse, after which the root is no longer wired |
| Wiring.Serves | inc/bc.h:165-172 | With the same blocks wired in index and cache, what the tree layer asks for before an access means that the cache has the block or a slot for it |
| Wiring.ServeRead | src-lib/brdblk.c:37-88 | A read of the tree layer, carried out on the cache, gives the block of the store |
| Wiring.ServeWire | src-lib/bsetbs.c:37-49 | Wiring a block keeps index and cache in step |
| Wiring.ServeChange | src-lib/brepky.c:53-56 | So does a counted change of a block |
| Wiring.ServeCopy | src-lib/bcpybk.c:38-75 | So does a copy of keys; a copy of no keys exactly if the slot had changes or the link is the same |
| Locking.Handle.ReadSuper | src-lib/bsuper.c:35-68 | The allocator words are those in block 0 |
| Locking.Handle.WriteSuper | src-lib/bsuper.c:71-92 | Block 0 carries the allocator words, on disk too, and has the same keys, links and number of keys as before: the table of roots |
| Locking.Handle.Sync | src-lib/btcls.c:68-97 | The disk holds what the process saw, with its allocator words if they changed, and the cache is empty; the table of roots in block 0 is as before |
| Locking.Handle.Lock | src-lib/bsemap.c:59-110 | The first lock in shared mode refreshes the allocator words and wires the root; nested ones, and all in exclusive mode, only count |
| Locking.Handle.Unlock | src-lib/bsemap.c:114-143 | The last unlock writes everything out and forgets it, nested ones only count; either way the table of roots in block 0 is as before |
| Locking.LockStep | src-lib/bsemap.c:59-110 | A handle that plays a process of the protocol makes the step Lock, or Relock if it holds the lock |
| Locking.UnlockStep | src-lib/bsemap.c:114-143 | It makes the step Unlock, or Release for its last lock |
| Shared.Keeps | src-lib/bsemap.c:59-143 | Every step of every process keeps the invariant of the sharing protocol |
| Shared.RunKeeps | src-lib/bsemap.c:59-143 | So does every run, in any interleaving of any number of processes |
| Shared.Opened | src-lib/bacini.c:35-57 | A consistent file with idle processes is a start of such runs |
| Shared.Created | src-lib/btcrt.c:88-131 | So is a file just created, whose words in block 0 are those of its index |
| Shared.NothingUnsaved | src-lib/btcls.c:68-97 | Processes without the lock have empty caches, and with the lock free the disk holds the latest blocks and allocator words |
| Shared.HolderSees | src-lib/bsemap.c:98-107 | The lock holder sees all changes of all earlier holders |
| Shared.NotTwice | src-lib/bgtfre.c:41-92 | Between two allocations of the same block, by whatever processes, it was freed |
| Shared.SyncedIs | src-lib/btcls.c:68-97 | Flushing the dirty blocks alone leaves on disk all that the process saw, with its allocator words if they changed |
| Shared.ReleaseKeeps | src-lib/bsuper.c:71-92 | The last unlock leaves on disk the latest blocks, in block 0 the latest allocator words, and there the keys and links all processes saw |
| Shared.TableStays | src-lib/bsuper.c:71-92 | Over any stretch of a run only a change to block 0 itself changes the table of roots, however often its words are written |
| DataSegments.ValueBytes | src-lib/btdata.c:900-936 | Sizes and addresses are read back as they were written |
| DataSegments.AddressParts | src-lib/btdata.c:961-976 | Block and offset are recovered from an address |
| DataSegments.Inserted | src-lib/btdata.c:766-791 | A new segment has the given bytes and link, and shares no byte with any other, all of which are unchanged |
| DataSegments.InsertedOK | src-lib/btdata.c:766-791 | Free byte counts stay exact |
| DataSegments.Released | src-lib/btdata.c:726-758 | Giving a segment back keeps the counts exact and all other segments |
| DataSegments.Freed | src-lib/btdata.c:736-749 | Taking a block without segments out of its doubly linked list and freeing it keeps the list, the counts and all segments |
| DataSegments.NextBlock | src-lib/btdata.c:679-697 | A new block in front keeps the list doubly linked |
| DataRecords.Records.InsertData | src-lib/btdata.c:641-713 | The address leads through a chain of new segments that hold exactly the given bytes; older segments are untouched; entries of duplicates are stored in one piece; it is stored if and only if the free blocks suffice, and takes exactly as many as BlocksFor says: none if the active block has room, else the fewest that hold what the active block cannot |
| DataRecords.WholeLeast | src-lib/btdata.c:669-709 | That number is the least one: n bytes fit into k blocks if and only if it is at most k |
| DataRecords.Records.ReadData | src-lib/btdata.c:477-523 | Reading gives the stored bytes, cut to the buffer size |
| DataRecords.Records.DeleteSegment | src-lib/btdata.c:715-764 | A block is freed exactly when its last segment goes, and other segments are untouched |
| DataRecords.Records.DeleteData | src-lib/btdata.c:525-544 | All segments of a record go, and no link is followed into a freed block; a record that is not data is refused without effect |
| DataRecords.Records.UpdateData | src-lib/btdata.c:556-626 | Afterwards the record has the new bytes, whether they are fewer, as many or more, and all other records are as before; it is stored if and only if it did not grow or the free blocks suffice for what it grew, and else keeps its old length; a segment without bytes stays behind if and only if the new data is not empty and at least the last segment shorter than the old data, and never more than one; what is lost is exactly what became unowned |
| DataRecords.CutRecord | src-lib/btdata.c:567-602 | A record in two segments cut to one byte: its second segment stays in use, without bytes and without a record |
| DataRecords.Records.Insert | src-lib/btdata.c:156-208 | A stored record is a new entry of the record table; a record refused by the index leaves no trace in records, segments, blocks in use and free byte counts; it is stored if and only if the free blocks suffice |
| DataRecords.Records.Delete | src-lib/btdata.c:324-349 | The record leaves the table, and every other record and segment stays |
| DataRecords.BlocksBack | src-lib/btdata.c:184-199 | The segments in use alone decide which blocks are in use and how many bytes are free in each |
| Duplicates.Chain.Add | src-lib/btdupkey.c:106-174 | A duplicate is appended behind all values of its key; the first one also moves the key's own value into the chain |
| Duplicates.Chain.Step | src-lib/btdupkey.c:180-250 | Steps walk the duplicates in order and from the gap of a deleted one to its neighbours, and leave the chain at its ends; a step that leaves it counts the key as found, and one with nothing to enter changes nothing |
| Duplicates.OutAndBack | src-lib/btdupkey.c:180-250 | A step out at either end and a step back the other way give the end value again |
| Duplicates.Chain.Delete | src-lib/btdupkey.c:274-332 | Exactly the current duplicate is unlinked: it is marked, its neighbours change one link each, and all other entries stay; the only one is reported, so that its key goes too |
| Duplicates.Chain.Update | src-lib/btdupkey.c:400-412 | Exactly the current duplicate's value changes; all other entries stay |
| Duplicates.Chain.Count | src-lib/btdupkey.c:362-373 | The count is the number of values |
| Duplicates.BothWays | src-lib/btdupkey.c:142-164 | The links forward give the values in the order of insertion, and the links back give them in reverse |

## Left out

- Removal.DeleteKey: requires a free key slot in every block above the leaves; nothing is claimed about such slots after a delete of a key found above the leaves, since the predecessor's route differs from the route searched at the end. The same holds for Removal.TakeEntry and what follows.
- Removal.RepairTree: requires `(ZMXKEY + 1) / 2 > ZTHRES` (builds with at least 7 keys in a block), and free slots above the leaves; with fewer keys an emptied leaf may find no sister to join or balance with, as Delete.EmptyLeafRepaired shows, and the source then leaves it empty.
- Removal.TakeFromLeaf: the same two conditions.
- Removal.TakeOut: the same two conditions.
- Removal.DeleteEntry: the same two conditions.
- Removal.DeleteHere: the same two conditions.
- Session.DropCurrent: the same two conditions.
- Delete.BalanceLeaf: the condition on `ZMXKEY`.
- Delete.DemotePair: of a demotion next to a full sister it says what becomes of the key, not what the rest of the tree looks like; with a free slot in every block above the leaves this branch is not entered.
- Wiring.DemoteOnCache: a sister with room, for the same reason.
- Insert.InsertKey: duplicates are off. Nothing is claimed about a step from the context after the first insert into an index.
- Cursors.Position: the "last found" key it leaves at the end of an index with keys is not described.
- Context.Index.constructor: no blocks are allocated in advance.
- Context.GetFree: allocation always succeeds; the file can grow as far as needed. What a new block holds is arbitrary.
- Context.MakeFree: index blocks only; for blocks of duplicates, whose active block of the root it may clear, see DataRecords.Records.DeleteSegment.
- Stack.PathStack.Push: what lies behind the array is not modelled. In the tree layer the stack is a sequence, and the bounds in `Stack` show that the array is long enough.
- Caching.Cache.CopyBlock: the write-through threshold is left out; writing a slot earlier is a step `WriteBlock` covers.
- Caching.Cache.QueueHead: asks for a slot that is not wired, without which it does not end; Caching.Cache.QueueSpin has that case.
- Enumeration.FreeTree: index blocks only; data blocks of the root, its entry in the super root and the statistics are left out.
- Enumeration.KeyCount: duplicates, the results for damaged trees and the statistics per level that `btkeys` can print are left out.
- Locking.Handle.ReadSuper: the checks of version and block type are left out.
- Locking.Handle.Lock: waiting for the file lock, its time-out and its failure are left out; the lock itself is an atomic step in `Shared`.
- DataRecords.Records.MakeBlock: free blocks are taken to be addressable in a signed word, so the overflow check of `mkdblk` does not fire.
- DataRecords.Records.UpdateData: for entries of duplicates cut into pieces, which `InsertData` shows not to occur, all that is left of the old record would stay behind, and only that is said (`LostOnly`).
- DataRecords.Records.Insert: the answer of the index is a parameter; a record for which blocks run out leaves the segments stored so far behind, as `binsdt` does.
- DataRecords.Records.Delete: the removal of the key from the index is Removal.DeleteKey; the two are not composed.
- Duplicates.Chain.Add: the addresses of new entries are given by the caller (`InsertData` supplies them), and an entry is a value there, not bytes.
- Duplicates.Chain.Delete: the release of the entry's segment is DataRecords.Records.DeleteSegment. The state after the last duplicate of a key is deleted is not described, nor is a cursor on an entry whose block was freed.
- Names.RankOrder: keys shorter than `ZKYLEN`, as the key slots need.
- Entries in the tree layer carry no word for the last duplicate.
- Type checks of data blocks that the invariants make redundant, such as the one in `binsdt`, are not repeated.
- File input and output, their errors, signals and stdio buffering: the disk is a map of blocks.
- Several open files, allocation of contexts, roots other than the current one beyond owning their blocks, version words, error texts, statistics, the test drivers and the recovery tools.
- Cursors in shared mode, and the early returns that skip `bulock`.
- `bupdky`, `bmodky`, `btdups`, `btthresh`, `btchgr` and `btcrtr`, which add only easy members.
