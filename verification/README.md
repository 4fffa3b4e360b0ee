# Verified models of openHalo's contrib index and storage code

openHalo is a PostgreSQL derivative. This project models the parts of its
`contrib` tree where a mistake would silently lose rows or accept a corrupt
file, and proves what those parts are for. Everything is Dafny 4.11;
`dafny verify dfyconfig.toml` checks all of it.

* **The B-tree checker of amcheck** (`Nbtree*.dfy`). The read-only mode of
  `bt_index_parent_check` over an arbitrary, possibly corrupt, graph of pages.
  The class `BtreeCheckState` follows the C code loop by loop. Each method is
  proved to decide a declarative statement: it is silent only if a walk with
  certain properties exists, and reports corruption only if none does. From the
  silence of the whole check follow sibling consistency, key order along every
  level, the lockstep of parent and child levels, and the key space of every
  child. Conversely, a sound index is described by its pages alone, and which
  sound indexes pass is stated exactly.
* **The bloom access method** (`Bloom*.dfy`). Signatures are computed by the
  Park-Miller generator with its 32-bit arithmetic checked operation by
  operation. Pages, the build, and the interleavings of insertions, bulk
  deletes, cleanups and scans form a state machine. In every run the pages hold
  exactly what was inserted and not removed, a scan misses no row that was there
  all along, and a new page is taken only when the listed ones are full.
* **hstore** (`Hstore*.dfy`). The packed layout with its end positions and flag
  bits, the in-place builder, every merge loop, binary search with resumed lower
  bounds, the text parser and printer, the upgrade of old values, the btree
  comparison and the GiST signatures. Operations are proved against finite maps,
  and the parser against a grammar of the texts it accepts.
* **btree_gist's variable-length keys** (`VarKey.dfy`). Bounds that are cut to a
  common prefix plus a few bytes, their unions and splits, and search in a tree
  of any depth.
* **cube** (`Cube.dfy`, `CubePoints.dfy`). Unions, containment, overlap,
  distances and splits of boxes with different numbers of dimensions, and what
  they mean for the points of the boxes.
* **The TOAST check of amcheck** (`ToastCheck.dfy`).

`Lexicographic.dfy` has the order on sequences that B-tree keys, btree_gist and
the hstore comparison share. `Wrappers.dfy` has an option type.

## Reading the model

A B-tree key is a sequence of attribute values with the heap TID last. Truncated
attributes are missing, which makes the order lexicographic with a missing
attribute as minus infinity. Some loops of the checker need not end on a corrupt
graph, where PostgreSQL relies on the user to interrupt it. Methods with such a
loop take an allowance of steps (`limit`) and may answer `Interrupted`.
`Decides` says what that means: an index that passes needs no more steps in a
loop than it has blocks, and with an allowance of more than twice as many the
answer is `Interrupted` exactly if the original never ends, which `IndexHangs`
spells out for every loop and every test before it.

`Sound` describes an index level by level: siblings that point at each other,
items in order along a level and within the high key, which only a leaf item may
equal, and downlinks that lead to the pages below in order, each with the key
space between its key and the next separator. A page may lack a downlink as the
right half of an interrupted split or the top of an interrupted deletion. The
high key of a half-dead leaf is one without attributes, as
`src/backend/access/nbtree/nbtpage.c:2229-2240` leaves it. `Settled` says that no
root split is interrupted and that half-dead leaves are at the left edge only.

A silent level walk may pass half-dead leaves that a corrupt index has linked
into an internal level. They have no downlinks, but their high key becomes the
low key of the next page. `Down.rest` keeps that key apart from the separator.

A step of the bloom state machine is what happens under one buffer lock.
Histories of inserted and removed entries are part of the state, so that "what
was inserted and not removed" is a multiset equation. Hash values of indexed
values are parameters.

`HstoreGrammar.Doc` is a text that spells pairs: words in quotes or bare, with
backslashes and white space as written. A bare value may begin with a comma, a
comma may follow the last pair, and a bare `null` is the null value even if some
of its letters follow a backslash, as in the code.

`Canonical` describes an hstore value as the code leaves it: keys in strict
order, positions below 2^30 that continue one another, the flags where they
belong. `Decode` reads the pairs and `ToMap` the map. A failed allocation, a
syntax error or a value that is too large is the result `None`.

## Properties that do not hold, and exactly when they do

* Not every sound index passes the B-tree check. The lockstep compares the high
  key of half-dead leaves too, which repeats no separator, so an interrupted
  deletion is reported as corruption unless it is at the left edge of the leaf
  level (`InterruptedDeletionReported`, `EdgeDeletionPasses`). So is the split of
  a root that was interrupted before the new root was made, as the old one is not
  flagged any more (`RootSplitReported`). `SoundPassesExactly` shows that these
  are the only cases.
* A silent level check does not mean that the keys of the level are in order:
  pages on both sides of an empty live page are not compared
  (`EmptyPageHidesOrder`). `LevelOrder` gives the exact condition, and
  `OrderUnderParent` and `OrderUnderAncestor` what the levels above add. The same
  index shows that a first downlink on the way down hides the keys above it.
* The first downlink of a page is not loaded by itself. If it is block 0 it is
  taken for "no child", so the rest of the child level is not visited
  (`ZeroDownlinkHidesKeySpace`). `LockstepExact` shows that downlinks that cannot
  be followed are the only cause.
* A level walk need not end (`HalfDeadRingNeverEnds`). It goes round only by a
  half-dead page whose left link is wrong, or over half-dead pages alone
  (`RevisitMisled`), and it does so exactly if it takes more steps than twice the
  number of blocks (`LevelForeverIff`).
* Two of the 2^32 seeds put the bloom generator into the state 0, in which it
  draws the bit number -1 for ever (`SeedRange`). In C the shift is then
  undefined; the model reports it. `SignValue` and `FormTuple` state the exact
  inputs.
* A split of btree_gist pages cuts entries that were cut before and can lose
  leaves below them (`SplitLosesLeaf`). It loses none if and only if the new
  bounds do not overhang the entry (`SplitKeepsEntryIff`). Unions never do
  (`UnionCovers`).
* The internal test for "contained by" in cube can miss a leaf with fewer
  dimensions than the query (`ContainedByMissed`); `ContainedByIff` has the
  condition.
* An old-format hstore does not keep its pairs when it is small and its first
  value is null but has a length of 32768 or more, and in no other case
  (`MistakenValue`, `OldIsRewrittenIff`, `MistakenLosesPairs`).

## Model

| member | source | states |
|---|---|---|
| NbtreePages.InvariantsDecideOrder | contrib/amcheck/verify_nbtree.c:2898-3006 | the three-way comparison with its extra steps for truncated attributes decides exactly the lexicographic order, strict and non-strict, for all pairs of keys |
| NbtreeWalk.WholeDistinct | contrib/amcheck/verify_nbtree.c:725-910 | a walk that comes to its end passed no block twice, whatever the links are, so its length is at most the number of blocks |
| NbtreeWalk.WholeUnique | contrib/amcheck/verify_nbtree.c:725-910 | a walk that comes to its end is determined by its start |
| NbtreeWalk.LongIsForever | contrib/amcheck/verify_nbtree.c:725-910 | a walk whose tests recur from the second lap on, and that takes more steps than twice the number of blocks, goes on for ever |
| NbtreeCheck.BtreeCheckState.LeftmostIgnoringHalfDead | contrib/amcheck/verify_nbtree.c:931-983 | ends on every graph, and says yes if and only if a chain of half-dead pages that point back leads left to the edge |
| NbtreeCheck.BtreeCheckState.DownlinkMissingCheck | contrib/amcheck/verify_nbtree.c:2347-2513 | accepts a page without a downlink if and only if it is the right half of an incomplete split or the top of an interrupted deletion that can be found by descending |
| NbtreeCheck.BtreeCheckState.FindTopParent | contrib/amcheck/verify_nbtree.c:2426-2513 | the descent along first downlinks is silent if and only if it comes down to a half-dead leaf that names the page, and is given up only as `Decides` says |
| NbtreeCheck.BtreeCheckState.PivotCheck | contrib/amcheck/verify_nbtree.c:2050-2149 | the child's high key agrees with the right pivot key of the target level: next item, high key or low key |
| NbtreeCheck.BtreeCheckState.VisitLinks | contrib/amcheck/verify_nbtree.c:1994-2036 | level, leftmost, circular link tests of one child page |
| NbtreeCheck.BtreeCheckState.VisitChild | contrib/amcheck/verify_nbtree.c:1994-2149 | one child page passes if and only if its links, its downlink or excuse and its high key are right; it hangs if and only if the search for its excuse does |
| NbtreeCheck.BtreeCheckState.ChildTurn | contrib/amcheck/verify_nbtree.c:1981-2166 | one turn of the loop either decides the whole visit or moves the walk on by one page |
| NbtreeCheck.BtreeCheckState.FollowRightlinks | contrib/amcheck/verify_nbtree.c:1981-2166 | the walk over the child level is silent if and only if there is a whole walk from the last child to the downlink, and hangs if and only if that walk does |
| NbtreeCheck.BtreeCheckState.ChildHighkeyCheck | contrib/amcheck/verify_nbtree.c:1935-2167 | decides the visit for one downlink and leaves the right link and the split flag of the child reached |
| NbtreeCheck.BtreeCheckState.RightPageCheckScankey | contrib/amcheck/verify_nbtree.c:1656-1856 | returns the first real key of the next page to the right that is not ignorable, which is unique, or none |
| NbtreeCheck.BtreeCheckState.SkipIgnorable | contrib/amcheck/verify_nbtree.c:1697-1722 | the loop over ignorable pages finds the first page that is live or last |
| NbtreeCheck.BtreeCheckState.ChildItemsCheck | contrib/amcheck/verify_nbtree.c:2280-2332 | silent if and only if the downlink's key is strictly below every real item of a child that is not deleted |
| NbtreeCheck.BtreeCheckState.ChildCheck | contrib/amcheck/verify_nbtree.c:2182-2332 | decides both the visit to the child level and the lower bound on the child's items |
| NbtreeCheck.BtreeCheckState.KeyCheck | contrib/amcheck/verify_nbtree.c:1475-1610 | decides high key, item order and last item tests of one item together |
| NbtreeCheck.BtreeCheckState.ItemCheck | contrib/amcheck/verify_nbtree.c:1206-1622 | one turn of the loop over the items decides that item's tests and moves the linkage on |
| NbtreeCheck.BtreeCheckState.ItemLoop | contrib/amcheck/verify_nbtree.c:1203-1638 | all items in turn, and on the rightmost internal page the visit to the rest of the child level |
| NbtreeCheck.BtreeCheckState.TargetPageCheck | contrib/amcheck/verify_nbtree.c:1157-1638 | silent if and only if the page passes; the linkage after it is the one the next page needs |
| NbtreeCheck.BtreeCheckState.LivePageCheck | contrib/amcheck/verify_nbtree.c:779-857 | leftmost, true root, left link and level of a page that is not ignorable, and where the next level starts |
| NbtreeCheck.BtreeCheckState.TargetStep | contrib/amcheck/verify_nbtree.c:725-910 | one turn of the level loop decides the page against all pages passed before it |
| NbtreeCheck.BtreeCheckState.LevelLoop | contrib/amcheck/verify_nbtree.c:725-910 | silent if and only if the level has a whole silent walk |
| NbtreeCheck.BtreeCheckState.CheckLevelFromLeftmost | contrib/amcheck/verify_nbtree.c:698-922 | decides the level, returns the start of the level below, and reduces the check of the index to the level below |
| NbtreeCheck.BtreeCheckState.CheckEveryLevel | contrib/amcheck/verify_nbtree.c:591-610 | silent only if the whole index is silent from the true root down, corrupt only if it neither is nor hangs; with an allowance of more than twice the number of blocks, interrupted if and only if the original never ends |
| NbtreeTheorems.RevisitPassesHalfDead | contrib/amcheck/verify_nbtree.c:725-910 | between two visits of a level walk to a block lies a half-dead page |
| NbtreeEndless.RevisitMisled | contrib/amcheck/verify_nbtree.c:835-845 | a level walk with a live page comes back to a block only if a half-dead page on it has a left link that is not the page before it, a link that no test looks at |
| NbtreeEndless.LevelForeverIff | contrib/amcheck/verify_nbtree.c:725-910 | a silent level walk of more than twice as many pages as there are blocks exists if and only if there are silent walks of every length |
| NbtreeEndless.LevelRecurrent | contrib/amcheck/verify_nbtree.c:859-905 | low key, linkage and left neighbour repeat from the second lap on, so tests that passed one lap before pass again |
| NbtreeTheorems.LevelWalkVisitsOnce | contrib/amcheck/verify_nbtree.c:725-910 | without half-dead pages no block is visited twice and the walk has at most as many steps as there are blocks |
| NbtreeTheorems.WalkSiblings | contrib/amcheck/verify_nbtree.c:725-910 | on a level walk left links agree with right links and pages passed over are half-dead |
| NbtreeTheorems.OrderOnPage | contrib/amcheck/verify_nbtree.c:1505-1552 | any two real items of a page in a silent level are in strict order |
| NbtreeTheorems.OrderAcross | contrib/amcheck/verify_nbtree.c:1554-1610 | the last item of a page is strictly below the first of the next live page |
| NbtreeTheorems.LevelOrder | contrib/amcheck/verify_nbtree.c:1505-1610 | on a silent level the items of all pages in sequence are strictly increasing if and only if they are across empty pages, and always if no live page is empty |
| NbtreeLockstep.Lockstep | contrib/amcheck/verify_nbtree.c:1935-2167 | after a silent pass over an internal level, half-dead pages linked into it or not, the level below is one run of pages for each downlink of its live pages, in order and without gaps, and pages without a downlink are excused |
| NbtreeKeySpace.LockstepExact | contrib/amcheck/verify_nbtree.c:1935-2167 | the lockstep holds if and only if every downlink of the live pages can be followed |
| NbtreeKeySpace.LastRest | contrib/amcheck/verify_nbtree.c:878-905 | what later pages of a run repeat is the low key known by then, the high key of the page passed last, skipped or not |
| NbtreeKeySpace.LevelBelowIsRuns | contrib/amcheck/verify_nbtree.c:1935-2167 | the walk over the level below visits exactly the pages of those runs |
| NbtreeKeySpace.ChildHighKey | contrib/amcheck/verify_nbtree.c:2050-2149 | the high key of a completed child is the separator after its downlink, across page boundaries too |
| NbtreeKeySpace.ChildrenBelow | contrib/amcheck/verify_nbtree.c:1935-2167 | every child is a page of the level below, with that high key |
| NbtreeKeySpace.TwoLevelKeySpace | contrib/amcheck/verify_nbtree.c:2182-2332 | the items of a child lie strictly above its downlink's key and within the separator after it |
| NbtreeIndex.IndexWalks | contrib/amcheck/verify_nbtree.c:591-610 | the check of the index is silent if and only if every level has a silent walk that starts where the level above says |
| NbtreeIndex.IndexOrder | contrib/amcheck/verify_nbtree.c:591-610 | the order of items on every level of a silent index, with its exact condition |
| NbtreeIndex.IndexKeySpace | contrib/amcheck/verify_nbtree.c:591-610 | the key space of children on every two adjacent levels of a silent index |
| NbtreeAncestors.OrderUnderParent | contrib/amcheck/verify_nbtree.c:2182-2332 | items of any completed page in the run of one downlink are strictly below the items of the child of any later downlink of the same page, whatever empty pages are between |
| NbtreeAncestors.RunOfDown | contrib/amcheck/verify_nbtree.c:1935-2167 | every downlink but the last of its page has such a run |
| NbtreeAncestors.BoundByAncestors | contrib/amcheck/verify_nbtree.c:2050-2149 | the items of a page are within the separators after the downlinks on the way down to it, on every level above, if no split on the way is incomplete |
| NbtreeAncestors.AboveAncestors | contrib/amcheck/verify_nbtree.c:2182-2332 | they are strictly above the keys of those downlinks, as long as none on the way is the first of its page; incomplete splits do not matter |
| NbtreeAncestors.OrderUnderAncestor | contrib/amcheck/verify_nbtree.c:591-610 | the ends of two ways down from one page are in order, however deep, if the right one takes no first downlink and the left one meets no incomplete split |
| NbtreeInputs.HalfDeadRingNeverEnds | contrib/amcheck/verify_nbtree.c:725-910 | two indexes whose check never ends: an empty root leaf and a half-dead leaf that follow each other, where a left link misleads, and two half-dead leaves, where none does |
| NbtreeInputs.ZeroDownlinkHidesKeySpace | contrib/amcheck/verify_nbtree.c:1987-1992 | an index where the only downlink of a page is block 0 passes, whatever its metapage is, although an item is outside its key space |
| NbtreeInputs.EmptyPageHidesOrder | contrib/amcheck/verify_nbtree.c:1656-1856 | an index of three levels passes, wherever its rows are in the heap, although the items around an empty leaf are out of order and one is below the key in the root that leads to it through a first downlink |
| NbtreeComplete.KeyIsOk | contrib/amcheck/verify_nbtree.c:1479-1512 | order along a level and the bound by the high key, which a leaf item may equal, are all that the key tests ask for |
| NbtreeComplete.FirstCall | contrib/amcheck/verify_nbtree.c:1935-2167 | the visit for the first downlink of a level passes: half-dead leaves before its child are no obstacle |
| NbtreeComplete.LaterCall | contrib/amcheck/verify_nbtree.c:1935-2167 | so does the visit for every later downlink, over the right halves of interrupted splits |
| NbtreeComplete.FinalCall | contrib/amcheck/verify_nbtree.c:1935-2167 | and the visit to what is right of the last child |
| NbtreeComplete.InnerLevel | contrib/amcheck/verify_nbtree.c:725-910 | an internal level over a tidy one passes |
| NbtreeComplete.InnerDown | contrib/amcheck/verify_nbtree.c:800-834 | it leads to the first page below that has a downlink |
| NbtreeComplete.LeafLevel | contrib/amcheck/verify_nbtree.c:725-910 | a leaf level passes from the first leaf that has a downlink on |
| NbtreeExact.PassesFrom | contrib/amcheck/verify_nbtree.c:591-610 | a settled sound index passes, from any of its levels down |
| NbtreeExact.PassedIsSettled | contrib/amcheck/verify_nbtree.c:591-610 | a sound index that passes is settled |
| NbtreeExact.VisitedLive | contrib/amcheck/verify_nbtree.c:2050-2149 | below a silent level the check meets no half-dead leaf, as its high key repeats no separator |
| NbtreeExact.SoundPassesExactly | contrib/amcheck/verify_nbtree.c:591-610 | a sound index, described by its pages alone, passes the check if and only if its root split is finished and half-dead leaves are at the left edge without a downlink |
| NbtreeCases.ExcuseExact | contrib/amcheck/verify_nbtree.c:2426-2513 | the excuse of an interrupted deletion is found if and only if the leaf under the first downlinks is half-dead and names the page |
| NbtreeCases.TopParentExcused | contrib/amcheck/verify_nbtree.c:2347-2513 | in a sound index the top of every interrupted deletion is excused, and who is excused so lies above a half-dead leaf that names it |
| NbtreeCases.HighKeyReached | contrib/amcheck/verify_nbtree.c:1479-1512 | an index with a leaf item equal to the high key of its leaf is sound and passes |
| NbtreeCases.InterruptedDeletionReported | contrib/amcheck/verify_nbtree.c:2050-2149 | a sound index with a half-dead leaf between two others is reported as corrupt |
| NbtreeCases.EdgeDeletionPasses | contrib/amcheck/verify_nbtree.c:931-983 | a sound index with a half-dead leaf at the left edge passes |
| NbtreeCases.RootSplitReported | contrib/amcheck/verify_nbtree.c:787-791 | a sound index whose root split was interrupted is reported as corrupt |
| BloomSignature.SeedRange | contrib/bloom/blutils.c:248-254 | the state after seeding is in range, and zero for exactly two seeds |
| BloomSignature.SeedStateExact | contrib/bloom/blutils.c:248-254 | a seed leaves its own successor as state, but for the three lowest and the two highest signed numbers |
| BloomSignature.SeedCollision | contrib/bloom/blutils.c:248-254 | which seeds leave the same state |
| BloomSignature.StepNonZero | contrib/bloom/blutils.c:221-246 | a step stays in range and leads to zero from zero only |
| BloomSignature.Generator.Rand | contrib/bloom/blutils.c:221-246 | Schrage's method equals multiplication by 16807 modulo 2^31 - 1 with no 32-bit overflow |
| BloomSignature.Generator.Srand | contrib/bloom/blutils.c:248-254 | the state is a function of the seed alone |
| BloomSignature.SeedValue | contrib/bloom/blutils.c:266-279 | the two seedings amount to one with the exclusive or of the hash value and the first number drawn for the column, 16807 (column + 1) - 1 |
| BloomSignature.XorBit | contrib/bloom/blutils.c:279 | a bit of the exclusive or is set exactly if it is set in one of the numbers but not in both |
| BloomSignature.ValueSeedExact | contrib/bloom/blutils.c:266-279 | every bit of the seed of a value, from the bits of the hash value and of the column's number |
| BloomSignature.SeedsDiffer | contrib/bloom/blutils.c:266-279 | different hash values of a column have different seeds |
| BloomSignature.ColumnsDiffer | contrib/bloom/blutils.c:266-279 | a hash value has different seeds in different columns |
| BloomSignature.SomeBits | contrib/bloom/blutils.c:259-287 | the first two bits of two values, as known answers |
| BloomSignature.DrawBit | contrib/bloom/blutils.c:281-286 | sets exactly the bit drawn, which is negative if and only if the state is zero |
| BloomSignature.DrawBits | contrib/bloom/blutils.c:281-286 | adds exactly the bits of the generator's next outputs |
| BloomSignature.DrawsExact | contrib/bloom/blutils.c:281-286 | the bits drawn go through the powers of 16807 modulo 2^31 - 1 |
| BloomSignature.SignValue | contrib/bloom/blutils.c:259-287 | adds exactly the bits of the value, whatever the generator was used for before |
| BloomSignature.WordSubset | contrib/bloom/blscan.c:148-156 | the masked word comparison is inclusion of bit sets |
| BloomTuple.SignColumn | contrib/bloom/blutils.c:300-308 | adds exactly the bits of a column, and nothing for a null |
| BloomTuple.SignKeys | contrib/bloom/blscan.c:97-115 | the loop signs the keys up to the first that is null or unusable |
| BloomTuple.FormTuple | contrib/bloom/blutils.c:292-311 | the signature has exactly the bits of the non-null columns, and fails for exactly the rows with an unusable seed |
| BloomTuple.SignScan | contrib/bloom/blscan.c:90-116 | the scan signature has exactly the bits of the keys; a null key ends the scan |
| BloomTuple.Matches | contrib/bloom/blscan.c:148-156 | the word loop decides inclusion of the bit sets |
| BloomTuple.NoFalseNegative | contrib/bloom/blscan.c:148-163 | the signature of a row that satisfies every key is never rejected |
| BloomPages.FreeSpaceIsRoom | contrib/bloom/bloom.h:152-155 | the free-space test holds exactly below the page's capacity, and tuples within it end before the special space |
| BloomPages.EmptyPageHasRoom | contrib/bloom/bloom.h:92 | every legal signature length leaves room for a tuple on an empty page |
| BloomPages.KeptExact | contrib/bloom/blvacuum.c:81-111 | of each entry exactly the copies whose row is not dead stay |
| BloomPages.KeptAndDropped | contrib/bloom/blvacuum.c:81-111 | kept and dropped entries make up the page |
| BloomPages.Compact | contrib/bloom/blvacuum.c:81-111 | the two-finger loop leaves exactly the kept entries, in order, at the front |
| BloomPages.MatchingExact | contrib/bloom/blscan.c:143-164 | the answer of a page has every matching entry as often as the page and no other |
| BloomPages.PageBuffer.InitPage | contrib/bloom/blutils.c:406-416 | an empty data page |
| BloomPages.PageBuffer.AddItem | contrib/bloom/blutils.c:317-345 | appends if and only if there is room, and changes nothing otherwise |
| BloomPages.PageBuffer.BulkDelete | contrib/bloom/blvacuum.c:73-137 | the new page value, the number removed, when the page is marked deleted and when it is listed |
| BloomPages.ScanPage | contrib/bloom/blscan.c:138-165 | the matching entries of a page in use, none of a new or deleted one |
| BloomPages.BuildState.Flush | contrib/bloom/blinsert.c:46-58 | the cached page joins the index with nothing lost |
| BloomPages.BuildState.Callback | contrib/bloom/blinsert.c:73-115 | one more tuple is collected, by flushing if the cached page is full |
| BloomPages.BuildState.StartPage | contrib/bloom/blinsert.c:90-105 | a full page joins the index and a new one begins with the tuple |
| BloomPages.BuildState.Finish | contrib/bloom/blinsert.c:147-149 | the built index holds exactly the tuples of all rows, and all pages but the last are full |
| BloomSafety.ReadMetaOk | contrib/bloom/blinsert.c:229-275 | reading the metapage keeps the invariant |
| BloomSafety.TryPageOk | contrib/bloom/blinsert.c:243-269 | trying the first listed page, which may have been deleted or filled meanwhile, keeps the invariant |
| BloomSafety.LockMetaOk | contrib/bloom/blinsert.c:281-289 | the second look at the metapage under an exclusive lock keeps it |
| BloomSafety.LoopPageOk | contrib/bloom/blinsert.c:296-334 | each page of the list tried under that lock keeps it |
| BloomSafety.RecycleOk | contrib/bloom/blutils.c:352-401 | taking a deleted page from the free-space map keeps it |
| BloomSafety.ExtendOk | contrib/bloom/blutils.c:352-401 | extending the relation keeps it |
| BloomSafety.FillOk | contrib/bloom/blinsert.c:340-360 | filling the new page and resetting the list keeps it |
| BloomSafety.DeletePageOk | contrib/bloom/blvacuum.c:64-138 | bulk delete of one page keeps it, with insertions and scans under way |
| BloomSafety.WriteListOk | contrib/bloom/blvacuum.c:146-158 | replacing the list of pages with room keeps it |
| BloomSafety.CleanPageOk | contrib/bloom/blvacuum.c:189-212 | the cleanup's recording of free pages keeps it |
| BloomSafety.BeginScanOk | contrib/bloom/blscan.c:122-126 | a new scan keeps it |
| BloomSafety.ReadPageOk | contrib/bloom/blscan.c:131-169 | a page read by a scan keeps it, including what scans have covered so far |
| BloomSafety.StepKeepsInv | contrib/bloom/blinsert.c:196-366 | every step of every process keeps the invariant |
| BloomSafety.RunsAreSafe | contrib/bloom/blinsert.c:196-366 | in every state of every run the pages hold exactly what was inserted and not removed, deleted pages are empty, and lists name data pages |
| BloomAnswers.ScanHistory | contrib/bloom/blscan.c:80-173 | what a scan has noted agrees with the removals between its start and now |
| BloomAnswers.ScanAnswer | contrib/bloom/blscan.c:80-173 | in every run a finished scan has found each matching entry that was not removed meanwhile, and only matching inserted entries |
| BloomAnswers.RowIsFound | contrib/bloom/blscan.c:80-173 | a row whose columns satisfy the scan keys is found by every scan that starts after its insertion and ends before its removal |
| BloomHistory.InsertionStep | contrib/bloom/blinsert.c:196-366 | each step of an insertion lands its entry and ends, or keeps it and inserts nothing |
| BloomHistory.InsertionLands | contrib/bloom/blinsert.c:196-366 | in every run, an insertion that is not stopped has inserted its entry exactly once, and nothing else, when it comes to rest |
| BloomHistory.DeleteIsComplete | contrib/bloom/blvacuum.c:53-138 | in every run, entries of dead rows still on the pages when a bulk delete is through were inserted after it began |
| BloomHistory.DeleteHistory | contrib/bloom/blvacuum.c:53-138 | while it is under way that holds of the pages it has passed and of those added since |
| BloomLists.RoomListStep | contrib/bloom/blvacuum.c:113-121 | one more page keeps the list ascending, in use, with room and complete |
| BloomLists.ListGrows | contrib/bloom/blvacuum.c:53-138 | so it is after every step of a bulk delete, if no other process changes a page |
| BloomLists.ListIsComplete | contrib/bloom/blvacuum.c:140-158 | the metapage then lists all pages in use with room, or the first of them that fit |
| BloomLists.ListsAlwaysAscend | contrib/bloom/blvacuum.c:113-158 | in every state of every run, whatever the processes do, the metapage lists pages in ascending order |
| BloomLists.LoopTried | contrib/bloom/blinsert.c:296-334 | an insertion that is past a place of the list has found no room on the page there |
| BloomLists.NewPageWhenFull | contrib/bloom/blinsert.c:281-345 | in every run an insertion takes a new page only after it has found no room on any listed page |
| BloomLists.CleanupRecords | contrib/bloom/blvacuum.c:189-212 | an undisturbed cleanup adds exactly the free pages to the free-space map |
| BloomIndex.Index.PutOn | contrib/bloom/blinsert.c:249-269 | the page with one entry more if it has room, no change otherwise |
| BloomIndex.Index.NewBlock | contrib/bloom/blutils.c:352-401 | a free block of the free-space map, or a new one at the end if the map has none; the map loses it and blocks that are not free |
| BloomIndex.Index.InsertNew | contrib/bloom/blinsert.c:336-365 | the entry is alone on a free or new page, which becomes the only one listed |
| BloomIndex.Index.Insert | contrib/bloom/blinsert.c:196-366 | exactly one entry more, on the first listed page that has room, where the list starts from now on, or else on a page of its own |
| BloomIndex.Index.InsertListed | contrib/bloom/blinsert.c:296-366 | the loop over the list finds the first page with room |
| BloomIndex.FirstFitExact | contrib/bloom/blinsert.c:296-334 | the first place of the list whose page has room, none before it |
| BloomIndex.Index.DeleteOn | contrib/bloom/blvacuum.c:64-138 | the page after a bulk delete, and listed if and only if it was in use, is not empty and has room |
| BloomIndex.Index.BulkDelete | contrib/bloom/blvacuum.c:57-158 | exactly the entries of dead rows are gone, and the new list has, in ascending order, all pages in use with room or the first of them that fit |
| BloomIndex.Index.CleanUp | contrib/bloom/blvacuum.c:181-212 | the free-space map has all free pages, and free pages and stored entries are counted |
| BloomIndex.Index.Scan | contrib/bloom/blscan.c:122-172 | returns each matching entry as often as it is stored and nothing else |
| Lexicographic.CommonExact | contrib/btree_gist/btree_utils_var.c:120-162 | the common prefix is the longest |
| VarKey.CommonPrefixLength | contrib/btree_gist/btree_utils_var.c:120-162 | the byte loop finds the longest common prefix of the two bounds |
| VarKey.HullBounds | contrib/btree_gist/btree_utils_var.c:232-277 | folding unions encloses every key |
| VarKey.CutCovers | contrib/btree_gist/btree_utils_var.c:203-228 | cutting the bounds keeps every value between them |
| VarKey.CutCoversCut | contrib/btree_gist/btree_utils_var.c:203-228 | cutting again keeps the values beyond an upper bound that was cut before |
| VarKey.UnionCovers | contrib/btree_gist/btree_utils_var.c:321-357 | a stored union covers all that its parts cover, however often they were cut |
| VarKey.Union | contrib/btree_gist/btree_utils_var.c:321-357 | the loop computes that union |
| VarKey.UnionBounds | contrib/btree_gist/btree_utils_var.c:321-357 | each stored bound begins the least or greatest bound of the parts, and ends with it or one byte after the first byte in which the two differ |
| VarKey.ConsistentFollows | contrib/btree_gist/btree_utils_var.c:553-612 | the internal test holds whenever a covered value satisfies any of the six operators |
| VarKey.ConsistentExact | contrib/btree_gist/btree_utils_var.c:553-612 | when an internal key is followed, both ways, for each strategy |
| VarKey.CutAdmitsIff | contrib/btree_gist/btree_utils_var.c:203-228 | cut bounds admit all that an enclosed key admits if and only if they do not overhang it |
| VarKey.CutHalves | contrib/btree_gist/btree_utils_var.c:529-544 | both halves are cut by the longer of their common prefixes |
| VarKey.PickSplit | contrib/btree_gist/btree_utils_var.c:457-547 | the first half of the entries, rounded down, goes left, each entry to exactly one half, no half is empty, no entry of the left half sorts above one of the right, and the keys are those of the halves |
| VarKey.SplitSeparates | contrib/btree_gist/btree_utils_var.c:511-527 | the halves of a split of leaf entries do not overlap |
| VarKey.SplitCovers | contrib/btree_gist/btree_utils_var.c:457-547 | a half covers every value between the exact bounds of its entries |
| VarKey.SplitCoversIff | contrib/btree_gist/btree_utils_var.c:529-544 | a half's cut hull covers all that a cut entry covers if and only if it does not overhang that entry |
| VarKey.SplitKeepsEntryIff | contrib/btree_gist/btree_utils_var.c:457-547 | the same for the keys that a split stores |
| VarKey.SearchExact | contrib/btree_gist/btree_utils_var.c:553-612 | search in a well keyed tree of any depth finds exactly the leaves that satisfy the operator |
| VarKey.UnionKeepsKeys | contrib/btree_gist/btree_utils_var.c:321-357 | a node built with the union key of its children is well keyed |
| VarKey.InsertKeepsKeys | contrib/btree_gist/btree_utils_var.c:232-277 | a node stays well keyed when it takes in a child and widens its key |
| VarKey.SplitLosesLeaf | contrib/btree_gist/btree_utils_var.c:529-544 | a split after which a leaf is not found any more |
| VarKey.UnionAdmitsLess | contrib/btree_gist/btree_utils_var.c:203-228 | a bound too short to have been cut loses its extra values in a union |
| HstorePairs.Difference | contrib/hstore/hstore_op.c:50-53 | the comparison is the strict order by length and then bytes, and zero for equal keys only |
| HstorePairs.ConcatSorted | contrib/hstore/hstore_op.c:524-561 | merging keeps the keys in strict order |
| HstorePairs.ConcatIsUnion | contrib/hstore/hstore_op.c:524-561 | the merge is the union of the maps with the second one winning |
| HstorePairs.MinusSorted | contrib/hstore/hstore_op.c:416-463 | the deleting merge keeps the order |
| HstorePairs.MinusIsDifference | contrib/hstore/hstore_op.c:416-463 | it is the difference of the maps, by key or by pair |
| HstorePairs.WithoutIsMinus | contrib/hstore/hstore_op.c:271-284 | deleting one key is the merge with that key alone |
| HstoreLayout.ImageDecodes | contrib/hstore/hstore.h:23-83 | unpacking gives back the pairs that were packed |
| HstoreLayout.LaidIsImage | contrib/hstore/hstore.h:23-83 | every well laid out value is the packed form of its own pairs |
| HstoreLayout.ImageUnique | contrib/hstore/hstore.h:23-83 | given pairs have one packed form |
| HstoreBuild.MoveDown | contrib/hstore/hstore.h:129-140 | an overlapping move downwards keeps the bytes |
| HstoreBuild.Builder.Append | contrib/hstore/hstore.h:99-106 | writes two words and the strings of one pair and keeps all pairs before |
| HstoreBuild.Builder.CopyItem | contrib/hstore/hstore.h:99-106 | appends pair i of another hstore |
| HstoreBuild.Builder.AddItem | contrib/hstore/hstore.h:112-126 | appends a given pair |
| HstoreBuild.Builder.Finalize | contrib/hstore/hstore.h:129-140 | the result is the packed form of exactly the pairs appended, within the allocation |
| HstoreMerge.ConcatStep | contrib/hstore/hstore_op.c:524-561 | each turn makes progress and keeps what is still to be merged |
| HstoreMerge.TakeBoth | contrib/hstore/hstore_op.c:545-553 | an equal key takes the pair of the second hstore and passes over that of the first |
| HstoreMerge.HstoreConcat | contrib/hstore/hstore_op.c:471-566 | canonical right-biased union; fails exactly when the allocation does |
| HstoreMerge.AssignStep | contrib/hstore/hstore_subs.c:214-251 | each turn of the one-key merge makes progress |
| HstoreMerge.SubscriptAssign | contrib/hstore/hstore_subs.c:142-258 | the map updated at one key, a null container counting as empty; fails exactly for a null key or when the allocation does |
| HstoreMerge.SizeIsExact | contrib/hstore/hstore_subs.c:203-205 | the size stays below 2^32, so that keeping it in a signed integer never yields a size that is allowed |
| HstoreMerge.DeleteStep | contrib/hstore/hstore_op.c:333-363 | each turn of the deleting merge makes progress |
| HstoreMerge.DeletePairs | contrib/hstore/hstore_op.c:292-368 | the map without the listed keys, or pairs |
| HstoreMerge.DeleteHstore | contrib/hstore/hstore_op.c:371-468 | the map without the pairs that the second one has with the same value |
| HstoreMerge.DeleteKey | contrib/hstore/hstore_op.c:245-289 | the map without one key |
| HstoreMerge.PackPairs | contrib/hstore/hstore_io.c:388-415 | the packed form of the given pairs |
| HstoreSearch.FindKey | contrib/hstore/hstore_op.c:35-70 | binary search from a lower bound gives the index that a search of everything would, and a lower bound for any later key |
| HstoreSearch.FindPair | contrib/hstore/hstore_op.c:989-1006 | decides whether the pair is there with its value |
| HstoreSearch.ContainsLoop | contrib/hstore/hstore_op.c:987-1007 | decides it for all pairs with resumed searches |
| HstoreSearch.Contains | contrib/hstore/hstore_op.c:965-1010 | decides the submap relation |
| HstoreSearch.ExistsAny | contrib/hstore/hstore_op.c:162-193 | some key is there |
| HstoreSearch.ExistsAll | contrib/hstore/hstore_op.c:196-227 | all keys are there |
| HstoreSearch.SliceLoop | contrib/hstore/hstore_op.c:632-691 | the pairs found in key order, and their size |
| HstoreSearch.SliceIsRestriction | contrib/hstore/hstore_op.c:632-691 | those pairs are the map restricted to the keys |
| HstoreSearch.SliceToHstore | contrib/hstore/hstore_op.c:632-691 | a canonical value of that restriction |
| HstoreText.GetVal | contrib/hstore/hstore_io.c:60-175 | reading goes forward over the text; what is read is the subject of HstoreGrammar |
| HstoreText.ScanQuoted | contrib/hstore/hstore_io.c:60-175 | a quoted and escaped string is read as the string, whatever follows |
| HstoreText.ScanNull | contrib/hstore/hstore_io.c:60-175 | the bare word NULL is read up to the comma |
| HstoreText.ParsePair | contrib/hstore/hstore_io.c:184-287 | a printed pair is read as that pair |
| HstoreText.ParseShow | contrib/hstore/hstore_io.c:1166-1234 | the printed text of any pairs is read as those pairs |
| HstoreGrammar.ReadWord | contrib/hstore/hstore_io.c:60-175 | a word in quotes or bare, each character as it is or after a backslash, is read as its characters, and where reading goes on |
| HstoreGrammar.ReadSimple | contrib/hstore/hstore_io.c:60-175 | a bare key is read up to the arrow and a bare value up to the comma or the end |
| HstoreGrammar.NullWord | contrib/hstore/hstore_io.c:255-260 | the four letters "null" in any case |
| HstoreGrammar.ReadItem | contrib/hstore/hstore_io.c:184-287 | a pair with any white space around its words is read as that pair, a bare null as the null value |
| HstoreGrammar.ReadDoc | contrib/hstore/hstore_io.c:184-287 | every text of the grammar is read as the pairs it spells |
| HstoreGrammar.FindWord | contrib/hstore/hstore_io.c:60-175 | every word that is read is one of the grammar |
| HstoreGrammar.FindDoc | contrib/hstore/hstore_io.c:184-287 | every text that is accepted is one of the grammar |
| HstoreGrammar.ParseExact | contrib/hstore/hstore_io.c:184-287 | the parser accepts exactly the texts of the grammar, with the pairs they spell, and refuses all others |
| HstoreGrammar.SimpleRoundTrip | contrib/hstore/hstore_io.c:184-287 | pairs written without quotes are read back |
| HstoreGrammar.ShowIs | contrib/hstore/hstore_io.c:1166-1234 | the printed text is the one with all words but NULL in quotes, backslashes where needed only, and a space after each comma |
| HstoreIO.HSParser.Write | contrib/hstore/hstore_io.c:42-51 | the growing buffer never overflows |
| HstoreIO.HSParser.StepBefore | contrib/hstore/hstore_io.c:71-98 | one character before a word leaves the same word to be read, or ends where the text does or the grammar has no word |
| HstoreIO.HSParser.StepPlain | contrib/hstore/hstore_io.c:99-130 | one character of a bare word agrees with the grammar |
| HstoreIO.HSParser.StepEscaped | contrib/hstore/hstore_io.c:131-169 | one character in quotes or after a backslash agrees with the grammar |
| HstoreIO.HSParser.GetWord | contrib/hstore/hstore_io.c:60-175 | the state machine reads exactly the word of the grammar, or fails where the grammar does |
| HstoreIO.HSParser.WordStep | contrib/hstore/hstore_io.c:198-264 | the states that want a key or a value |
| HstoreIO.HSParser.CharStep | contrib/hstore/hstore_io.c:213-281 | the states that want an arrow or a comma |
| HstoreIO.HSParser.ParseHstore | contrib/hstore/hstore_io.c:184-287 | accepts exactly the texts of the grammar, with its pairs |
| HstoreIO.UniqueLoop | contrib/hstore/hstore_io.c:339-361 | the two-finger loop in place keeps what it should |
| HstoreIO.UniquePairs | contrib/hstore/hstore_io.c:319-365 | the front of the array is the list without duplicates and the size of its strings |
| HstoreIO.DedupIsSorted | contrib/hstore/hstore_io.c:319-365 | keys are in strict order afterwards |
| HstoreIO.DedupKeeps | contrib/hstore/hstore_io.c:319-365 | no key is lost and none is new |
| HstoreIO.DedupFrom | contrib/hstore/hstore_io.c:319-365 | every pair kept was there before |
| HstoreIO.SortUnique | contrib/hstore/hstore_io.c:290-333 | pairs with different keys have only one sorted order |
| HstoreIO.HstoreIn | contrib/hstore/hstore_io.c:418-435 | the canonical value of the parsed pairs, or an error in exactly the two cases |
| HstoreIO.RoomFor | contrib/hstore/hstore_io.c:1192-1200 | the buffer size computed in advance |
| HstoreIO.ShowFits | contrib/hstore/hstore_io.c:1192-1200 | the printed text fits that size |
| HstoreIO.Printer.PutEscaped | contrib/hstore/hstore_io.c:1152-1164 | appends the escaped string |
| HstoreIO.Printer.PutPair | contrib/hstore/hstore_io.c:1206-1223 | appends one pair |
| HstoreIO.PrintPairs | contrib/hstore/hstore_io.c:1204-1231 | the whole text and its final zero within the buffer |
| HstoreIO.HstoreOut | contrib/hstore/hstore_io.c:1166-1234 | the printed text, or a failure exactly when the allocation fails |
| HstoreIO.TextRoundTrip | contrib/hstore/hstore_io.c:1166-1234 | what is read from the printed text is the same value, bit for bit, whatever sort is used |
| HstoreIO.PrintAndRead | contrib/hstore/hstore_io.c:418-435 | printing and reading as programs give the value back |
| HstoreUpgrade.CheckLengths | contrib/hstore/hstore_compat.c:195-204 | decides whether key lengths never decrease |
| HstoreUpgrade.CheckPositions | contrib/hstore/hstore_compat.c:212-218 | decides whether strings are contiguous, and where they end |
| HstoreUpgrade.ValidOldFormat | contrib/hstore/hstore_compat.c:170-229 | tells invalid, valid with slack and exactly valid old values apart |
| HstoreUpgrade.UpgradeEntries | contrib/hstore/hstore_compat.c:316-344 | the in-place rewriting reads every entry before it overwrites it |
| HstoreUpgrade.UpgradedMeaning | contrib/hstore/hstore_compat.c:316-344 | the rewritten words decode to the pairs of the old value |
| HstoreUpgrade.Upgrade | contrib/hstore/hstore_compat.c:316-344 | the upgraded value has the pairs of the old one and the exact size |
| HstoreUpgrade.MistakenIff | contrib/hstore/hstore_compat.c:250-256 | when the flag bit alone takes an old value for a new one |
| HstoreUpgrade.MistakenValue | contrib/hstore/hstore_compat.c:250-256 | such a value, and the pair it is taken for |
| HstoreVersion.CheckRising | contrib/hstore/hstore_compat.c:139-146 | decides whether only the first word is flagged and positions do not decrease |
| HstoreVersion.CheckKeys | contrib/hstore/hstore_compat.c:148-156 | decides whether key lengths do not decrease and later keys have no null flag |
| HstoreVersion.ValidNewFormat | contrib/hstore/hstore_compat.c:118-162 | tells invalid, valid with slack and exactly valid new values apart |
| HstoreVersion.NewIsLaid | contrib/hstore/hstore_compat.c:118-162 | a value that passes that test is well laid out if and only if null values are empty and the first key is not null |
| HstoreVersion.Decide | contrib/hstore/hstore_compat.c:242-314 | the whole decision: flagged, taken for new, rewritten or refused |
| HstoreVersion.OldIsRewrittenIff | contrib/hstore/hstore_compat.c:242-314 | of all old-format values exactly the mistaken ones are not rewritten |
| HstoreVersion.MistakenLosesPairs | contrib/hstore/hstore_compat.c:250-256 | those do not keep their pairs, whatever they are read as |
| HstoreVersion.NewIsTakenIff | contrib/hstore/hstore_compat.c:258-314 | an unflagged new-format value is kept unless it has 32768 bytes or more and passes for an old one |
| HstoreVersion.AmbiguousIsPadded | contrib/hstore/hstore_compat.c:60-72 | such a value of one pair has one byte of strings at most |
| HstoreVersion.UpgradeOld | contrib/hstore/hstore_compat.c:235-347 | an old-format value keeps its pairs if and only if it is not mistaken |
| HstoreFormats.CanonicalPasses | contrib/hstore/hstore_compat.c:118-162 | every packed value with its keys in order passes the test for the new format |
| HstoreFormats.OldValueKept | contrib/hstore/hstore_compat.c:235-347 | every value as the old version wrote it passes the test for the old format, is rewritten and keeps its pairs |
| HstoreCompare.CompareStrings | contrib/hstore/hstore_op.c:1116-1123 | the byte comparison with its tie-break by length |
| HstoreCompare.CompareWords | contrib/hstore/hstore_op.c:1133-1147 | the first difference in end position or null flag decides |
| HstoreCompare.CodeLess | contrib/hstore/hstore_op.c:1085-1163 | the order on codes is strings, then counts, then words |
| HstoreCompare.HstoreCmp | contrib/hstore/hstore_op.c:1085-1163 | the sign of the order on codes, the empty hstore first |
| HstoreCompare.ZeroIffSameMap | contrib/hstore/hstore_op.c:1085-1163 | zero exactly for values that stand for the same map |
| HstoreCompare.TotalOrder | contrib/hstore/hstore_op.c:1085-1163 | antisymmetric and transitive |
| HstoreGist.CompressLeaf | contrib/hstore/hstore_gist.c:147-176 | the signature has exactly the bits of keys and non-null values |
| HstoreGist.CompressInner | contrib/hstore/hstore_gist.c:177-196 | the short form is taken exactly when all bits are set, and covers the same |
| HstoreGist.UnionKey | contrib/hstore/hstore_gist.c:289-300 | adds the bits of a key |
| HstoreGist.Union | contrib/hstore/hstore_gist.c:302-327 | a bit is set exactly if some part has it |
| HstoreGist.DistanceExact | contrib/hstore/hstore_gist.c:259-287 | the distance, by cases, is the number of bits that one key has and the other has not |
| HstoreGist.WidenedExact | contrib/hstore/hstore_gist.c:459-469 | a widened key has the bits of both and no others |
| HstoreGist.Seeds | contrib/hstore/hstore_gist.c:390-414 | the two entries farthest apart of all but the last |
| HstoreGist.SplitStep | contrib/hstore/hstore_gist.c:440-488 | where one entry goes, and that the key of its half has exactly the bits of its entries |
| HstoreGist.SplitLoop | contrib/hstore/hstore_gist.c:438-489 | every entry goes to one half |
| HstoreGist.PickSplit | contrib/hstore/hstore_gist.c:357-497 | each entry is in exactly one half, no half is empty, and the key of a half has exactly the bits of its entries |
| HstoreGist.ConsistentContains | contrib/hstore/hstore_gist.c:515-547 | holds exactly if all bits of the query's pairs are set |
| HstoreGist.ConsistentExists | contrib/hstore/hstore_gist.c:548-554 | holds exactly if the key's bit is set |
| HstoreGist.ConsistentExistsAll | contrib/hstore/hstore_gist.c:555-577 | holds exactly if the bits of all keys that are not null are set |
| HstoreGist.ConsistentExistsAny | contrib/hstore/hstore_gist.c:578-602 | holds exactly if some key's bit is set |
| HstoreGist.CoveredPair | contrib/hstore/hstore_gist.c:500-607 | every covering key has the bits of a stored pair |
| HstoreGist.CoveredKey | contrib/hstore/hstore_gist.c:500-607 | every covering key has the bit of a stored key |
| HstoreGist.NoFalseNegatives | contrib/hstore/hstore_gist.c:500-607 | an hstore that satisfies an operator passes the test of every key above it |
| ToastCheck.LastSize | contrib/amcheck/verify_heapam.c:1197-1281 | unsigned wrap-around makes a size of 0 read as 2^32 and does nothing else |
| ToastCheck.ToastChecker.CheckTuple | contrib/amcheck/verify_heapam.c:1197-1281 | reports exactly the chunks with a wrong number, header or size |
| ToastCheck.ToastChecker.CheckAttribute | contrib/amcheck/verify_heapam.c:1468-1519 | reports corruption if and only if the chunks are not exactly those of the value |
| ToastCheck.CompleteIff | contrib/amcheck/verify_heapam.c:1197-1281 | the tests chunk by chunk amount to consecutive full chunks whose sizes add up |
| Cube.Union | contrib/cube/cube.c:746-804 | the least enclosing box, with missing dimensions read as zero |
| Cube.Contains | contrib/cube/cube.c:1122-1158 | decides containment |
| Cube.Overlap | contrib/cube/cube.c:1192-1228 | decides overlap |
| Cube.InternalConsistent | contrib/cube/cube.c:706-731 | the internal test holds whenever a leaf below satisfies overlap, containment or equality |
| Cube.ContainedByIff | contrib/cube/cube.c:723-726 | when the internal test for "contained by" misses no leaf |
| Cube.ContainedByMissed | contrib/cube/cube.c:723-726 | a leaf that it misses |
| Cube.GapIsDistance | contrib/cube/cube.c:1501-1514 | the branchy one-dimensional distance is the gap between the intervals, and symmetric |
| Cube.TaxicabDistance | contrib/cube/cube.c:1300-1342 | the sum of the gaps over all dimensions of either box |
| Cube.ChebyshevDistance | contrib/cube/cube.c:1344-1394 | the largest gap |
| Cube.DistanceSquared | contrib/cube/cube.c:1251-1298 | the sum of the squared gaps over all dimensions of either box |
| Cube.DistanceLowerBound | contrib/cube/cube.c:1396-1499 | the distance to an internal key never exceeds that to a leaf below it |
| Cube.EuclideanLowerBound | contrib/cube/cube.c:1396-1499 | the Euclidean distance to an internal key never exceeds that to a leaf below it |
| Cube.CoordLowerBound | contrib/cube/cube.c:1404-1473 | the value of an internal key for a coordinate never exceeds that of a leaf below it |
| CubePoints.CoordLeaf | contrib/cube/cube.c:1426-1445 | a leaf answers for coordinate 2i+1 with the least and for 2i+2 with the greatest coordinate i of its points, with zero beyond its dimensions |
| CubePoints.CoordInverse | contrib/cube/cube.c:1471-1473 | the opposite for a negative coordinate |
| CubePoints.CoordInner | contrib/cube/cube.c:1446-1464 | the answer of an internal key is that of some leaf it covers |
| CubePoints.MeetsExact | contrib/cube/cube.c:1192-1228 | boxes overlap exactly if they have a point in common |
| CubePoints.EnclosesExact | contrib/cube/cube.c:1122-1158 | a box contains another exactly if it does so with all its points, in the dimensions of the other |
| CubePoints.GapIsLeast | contrib/cube/cube.c:1501-1514 | no two points are nearer in a dimension than the gap |
| CubePoints.SumLeast | contrib/cube/cube.c:1300-1342 | no two points of the boxes are nearer by taxicab distance |
| CubePoints.LargestLeast | contrib/cube/cube.c:1344-1394 | nor by Chebyshev distance |
| CubePoints.SquaresLeast | contrib/cube/cube.c:1251-1298 | nor by Euclidean distance |
| CubePoints.DistancesAttained | contrib/cube/cube.c:1251-1394 | some two points are as near as the boxes by all three distances |
| CubePoints.VolumeAdds | contrib/cube/cube.c:908-931 | a cut across any dimension divides the volume between the parts |
| CubePoints.UnitVolume | contrib/cube/cube.c:908-931 | the unit box has volume 1 |
| Cube.UnionLeast | contrib/cube/cube.c:746-804 | no enclosing box of the same dimension has less volume than the union |
| Cube.Place | contrib/cube/cube.c:625-646 | an entry goes to the half that it enlarges least, among all ways to enlarge the other |
| Cube.SplitStep | contrib/cube/cube.c:612-646 | where one entry goes, and that its half covers it |
| Cube.DealtOnce | contrib/cube/cube.c:603-647 | each entry is in one half, once |
| Cube.Inter | contrib/cube/cube.c:819-893 | the loop computes the common part, or the gap, of two boxes |
| Cube.InterIsGreatest | contrib/cube/cube.c:819-893 | the common part of boxes that meet is the greatest box within both |
| Cube.WasteOf | contrib/cube/cube.c:555-563 | volume of the union less volume of the common part |
| Cube.Seeds | contrib/cube/cube.c:545-577 | two entries that waste most together of all but the last entry |
| Cube.PickSplit | contrib/cube/cube.c:509-654 | the halves list the entries in order, each exactly once, with one of the most wasteful pair each, and their boxes cover them |

## Left out

- The B-tree checker's fast mode without a parent lock, rootdescend and
  heapallindexed verification, posting lists, duplicates' lowest and highest
  TIDs, tuple size and attribute count tests, line pointer tests, the metapage
  test and indexes of versions before 4, whose keys are not unique.
- Error texts, debug messages and the order in which one page's errors are found:
  the model reports that something is wrong, not what.
- NbtreeKeySpace.TwoLevelKeySpace: no upper bound for the items of a child whose
  split is incomplete, as its downlink covers its right sibling too.
- The bloom index's write-ahead log, buffer manager, statistics, cost estimates
  and option parsing; a buffer lock is one atomic step, and blocking is not
  modelled.
- BloomIndex.Index.Scan: no cost or order of the rows; the recheck of rows that
  match by accident is the executor's part.
- The hash functions of the indexed types, and hstore's CRC-32, are arbitrary
  functions.
- hstore's JSON, record, array and Perl or Python conversions, its binary
  send and receive functions and GIN support.
- HstoreIO.HstoreIn: the library sort is any order that is sorted and has the same
  pairs, so values under duplicate keys are not determined, as in the original.
- HstoreIO.TextRoundTrip: for strings without a zero byte, which text cannot hold.
- HstoreUpgrade.Upgrade: values below the 2^30 limit on positions only, which
  every stored value is; the flag bits of entries are modelled as fields.
- HstoreGist.PickSplit: the order in which entries are placed is a parameter, any
  permutation, instead of the sort by cost; penalty and equality functions are
  left out.
- btree_gist's penalty function, the sort itself (its outcome is a parameter, any
  sorted order of the entries), the bit and multibyte text types and the
  fixed-length types; values are byte strings in byte order.
- Cube: numbers are reals, so neither rounding nor NaN is modelled; the square root
  at the end of the Euclidean distance is any root; parsing and comparison of
  boxes are left out because they would add easy members.
- The rest of PostgreSQL: parser, planner, executor, storage manager, replication
  and the MySQL protocol layer.
