# BustubX, modelled and verified in Dafny

BustubX is a small relational database: pages on disk with a free list, a buffer pool with LRU-K replacement, slotted
table pages chained into heaps, a B+ tree index, a pull-based executor, a rule-driven optimizer, and transactions with
a durable commit journal. This project models its stateful and recursive parts in Dafny and proves what they promise.
`dafny verify dfyconfig.toml` checks everything.

## How the model is built

Objects whose methods update fields are classes here, with the source's fields; loops are loops; values are datatypes.
Each method is specified by a function of the old state or by the abstract content it stands for, and the properties
are proved about those.

| files | part |
|---|---|
| `Prelude.dfy`, `KeyValues.dfy` | shared vocabulary; key-ordered lists and the stable sort |
| `IndexPage.dfy`, `IndexTree.dfy`, `IndexStore.dfy`, `IndexMerge.dfy`, `IndexSearch.dfy`, `IndexBorrow.dfy`, `IndexLend.dfy`, `IndexDelete.dfy`, `Index.dfy`, `IndexRuns.dfy`, `IndexIterator.dfy`, `Catalog.dfy` | the B+ tree: pages, the tree they stand for, its layout over a page store, merging and borrowing, what searches find and when they all are right, what a deletion leaves, the index object, runs of it, scans, building an index over a table |
| `Journal.dfy`, `LockManager.dfy`, `Transactions.dfy`, `Protocol.dfy`, `Commits.dfy` | journal format and recovery, locks, transactions, whole runs of the system, what each call answers and does |
| `Parallel.dfy`, `NestedLoopJoin.dfy`, `JoinMeaning.dfy`, `PhysicalLimit.dfy` | ordered parallel evaluation, the resumable join, which rows it hands out, the limit operator |
| `Replacer.dfy`, `BigEndian.dfy`, `DiskManager.dfy`, `FreelistCodec.dfy`, `BufferPool.dfy` | victim choice, numbers in bytes, page allocation, the bytes of free-list pages, the page cache |
| `TablePage.dfy`, `TableHeap.dfy`, `SeqScan.dfy` | slotted pages and their bytes, tables, serial and batched scans |
| `LogicalPlan.dfy`, `PlanEquivalence.dfy`, `LogicalPlanner.dfy`, `QueryMeaning.dfy`, `LimitRules.dfy`, `LimitExact.dfy`, `LimitHonored.dfy` | plans and the rows they denote, when two plans are equivalent, what queries are planned to and what they mean, the LIMIT rules and the optimizer driver, exactly when they keep rows |

The index keeps a ghost tree beside its page store. An insertion in progress is a subtree plus a context (the path from
the root with the siblings left and right of it); splitting, merging and borrowing rewrite the subtree and step the
context up, so every proof is about one level at a time. A deletion is followed the same way, by a subtree that may be
short. The buffer pool mirrors its frames in a ghost value and is specified by the content each page has for its users,
wherever that content currently is. The join and both scans are specified by the sequence of items still to come, which
every call shortens by exactly one. The transaction system is a step system over the functions that specify the
transaction methods; each mutex-protected section is one step.

What a specification function computes is said once more without it, in the terms of whoever calls the operation: which
bytes can be opened (`Journals.OpenExact`), which rows a join yields (`JoinMeaning.RowsExact`), what a commit publishes
(`Commits.CommitPublishes`), how a deletion repairs a tree (`IndexDelete.MendedRepairs`), what a query means
(`QueryMeaning.QueryMeans`), how many entries a free-list page holds (`FreelistCodec.CapacityExact`).

Plans are compared by a normal form in which chains of limits are one window: two plans have the same normal form
exactly when they compute the same rows whatever tables hold and operators compute. So what the optimizer keeps is
decided on plans alone.

Outside the model and given as parameters: what SQL statements do to a database image (`Engine`), whether and how far a
journal write gets and whether an image can be produced or opened (`Io`, `Host`), how many bytes of an append survive a
crash, what relational operators compute (`Semantics`), the condition of a join. Whether a thread starts, a worker
panics or an input can be initialized is left open at each call. Database images and tuples are their encodings, byte
sequences; index keys are natural numbers.

## Where the code and its documentation differ

The model follows the code in each case.

- `bustubx/src/optimizer/logical_optimizer.rs:6-9` promises plans that compute the same results. `LimitExact.RulesExact`
  says exactly when they do. Below a join it can fail, since `with_new_inputs` uses the first input for both sides; a
  query shows it (`LimitExact.JoinLosesInput`). Offsets that add up to 2^64 fail it too, but only in plans built by
  hand: no statement is planned to such a chain (`LimitExact.StatementExact`, `LimitExact.OffsetWraps`).
- `bustubx/src/buffer/buffer_pool.rs:26` calls the policy LRU-K. Fetching a resident page records no access, so as used
  by the pool it evicts the unpinned page that was loaded first (`BufferPool.LongestLoaded`), also one that was fetched
  again since (`BufferPool.EvictionRuns`).
- `bustubx/src/storage/table_heap.rs:43-52` documents an `Option`; the code returns an error when no page can be had and
  panics when a tuple does not fit an empty page (`TableHeap.TableHeap.InsertTuple`).
- A range scan of the index checks the end bound on every element but the first (`IndexIterator.ScanExact`,
  `IndexIterator.OvershootRuns`).
- A deletion may end with a borrow, which re-keys the parent by searching for a key the separator need not have. Then a
  key is stored but not found any more (`IndexBorrow.BorrowExactly`, `IndexSearch.BorrowFinds`; six insertions and two
  deletions: `IndexRuns.StaleDeleteRuns`).
- An internal page that borrows from its left sibling takes the subtree behind its own first one and re-keys the parent
  to the least key below the lender. Searches are never all right after that; while pages stay sorted, nothing below its
  former first subtree is found again (`IndexBorrow.LendExact`, `IndexBorrow.VictimLost`, `IndexRuns.LeftLendRuns`).
- An INSERT from a query ignores the query's order, limit and offset (`QueryMeaning.InsertMeans`).
- The header's deleted count is not taken back when a deleted mark is removed (`TablePage.DeletedCountExact`).

## Model

| member | source | states |
|---|---|---|
| `KeyValues.StableSortSorts` | bustubx/src/storage/page/index_page.rs:340-345 | Sorting a page by key orders its pairs and neither drops nor invents one |
| `KeyValues.StableSortPushed` | bustubx/src/storage/page/index_page.rs:127-137 | Pushing one pair onto sorted slots and sorting again puts it behind exactly the keys not greater than its own |
| `IndexPage.InternalPage.Insert` | bustubx/src/storage/page/index_page.rs:127-137 | The first slot, whose key is never consulted, stays first; the remaining slots and the new entry are sorted |
| `IndexPage.InternalPage.BatchInsert` | bustubx/src/storage/page/index_page.rs:138-144 | All old and new entries, sorted |
| `IndexPage.InternalPage.SplitOff` | bustubx/src/storage/page/index_page.rs:195-200 | Keeps the entries before the cut and hands out the rest |
| `IndexPage.InternalPage.ReverseSplitOff` | bustubx/src/storage/page/index_page.rs:201-208 | Hands out the first entries in order and keeps the rest |
| `IndexPage.InternalPage.DeletePageId` | bustubx/src/storage/page/index_page.rs:181-190 | Removes exactly the first entry pointing to the page; without one nothing changes |
| `IndexPage.InternalPage.SiblingPageIds` | bustubx/src/storage/page/index_page.rs:107-126 | The neighbours of the first entry pointing to the page, none at either end, none if the page is absent |
| `IndexPage.InternalPage.KeyIndex` | bustubx/src/storage/page/index_page.rs:217-241 | Binary search never leaves the slots and finds a separator exactly when it occurs among slots 1 onwards |
| `IndexPage.InternalPage.ReplaceKey` | bustubx/src/storage/page/index_page.rs:210-216 | Re-keys the one slot holding exactly the old key; if there is none nothing changes |
| `IndexPage.InternalPage.LookUp` | bustubx/src/storage/page/index_page.rs:242-266 | With at least two entries the binary search stays in bounds and ends at the slot whose key range contains the key |
| `IndexPage.LeafPage.Insert` | bustubx/src/storage/page/index_page.rs:340-345 | The stable sort of the old pairs and the new one |
| `IndexPage.LeafPage.BatchInsert` | bustubx/src/storage/page/index_page.rs:346-352 | The stable sort of the old and new pairs |
| `IndexPage.LeafPage.SplitOff` | bustubx/src/storage/page/index_page.rs:353-358 | Keeps the pairs before the cut and hands out the rest |
| `IndexPage.LeafPage.ReverseSplitOff` | bustubx/src/storage/page/index_page.rs:359-367 | Hands out the first entries in order and keeps the rest |
| `IndexPage.LeafPage.Delete` | bustubx/src/storage/page/index_page.rs:368-374 | Removes exactly the pair with the key; without one nothing changes |
| `IndexPage.LeafPage.KeyIndex` | bustubx/src/storage/page/index_page.rs:382-404 | Binary search on a sorted leaf finds a key exactly when it is there |
| `IndexPage.LeafPage.LookUp` | bustubx/src/storage/page/index_page.rs:377-381 | Some(rid) only for a stored pair, None only if no pair has the key |
| `IndexPage.LeafPage.NextClosest` | bustubx/src/storage/page/index_page.rs:405-419 | The first slot at or behind a start bound, None only if there is none |
| `IndexTree.OrderedFlat` | bustubx/src/storage/index.rs:256-285 | In a tree whose separators bound its subtrees, the leaves read left to right are strictly sorted, within bounds and never empty |
| `IndexTree.ContextBounds` | bustubx/src/storage/index.rs:256-285 | Wherever a descent stands, everything left of it is below its lower bound and everything right of it at or above its upper bound |
| `IndexTree.HalvesOrdered` | bustubx/src/storage/index.rs:288-326 | Halving a page that is one over full gives two pages of legal size, in order around the least key of the right one, with the same pairs |
| `IndexTree.AdoptOrdered` | bustubx/src/storage/index.rs:101-109 | A parent that takes both halves around that key stays in order, also when its old separators are only lower bounds |
| `IndexStore.SplitUnderParent` | bustubx/src/storage/index.rs:88-109 | After a split below a parent, the page store holds the same pairs, chained leaves and unshared pages, with only the parent possibly over full |
| `IndexStore.SplitRoot` | bustubx/src/storage/index.rs:110-133 | The same when the root splits and a new root with the empty first key is put on top |
| `IndexStore.Landed` | bustubx/src/storage/index.rs:136-144 | Writing back the first page on the way up that is not over full completes a well-formed stored tree |
| `Index.LeafDecides` | bustubx/src/storage/index.rs:256-285 | The leaf a descent for a key ends at holds every pair of the tree with that key |
| `Index.LeafGains` | bustubx/src/storage/index.rs:83-84 | Adding a new pair to that leaf adds exactly that binding to the whole tree and keeps it sorted |
| `Index.BPlusTreeIndex.constructor` | bustubx/src/storage/index.rs:47-61 | An empty index of any page limits; ready for insertions when internal pages may hold three entries and leaves one |
| `Index.BPlusTreeIndex.FindLeafPage` | bustubx/src/storage/index.rs:256-285 | Descent ends at the leaf a search looks into, in a tree in order the one responsible for the key; the read set is the path of pages above it |
| `Index.BPlusTreeIndex.Get` | bustubx/src/storage/index.rs:238-254 | `get` refines a finite map: Some(rid) exactly for the binding of the key; and on any stored tree of sorted pages, whatever its separators, it yields what following them finds |
| `Index.BPlusTreeIndex.FindSubtreeMinLeafKv` | bustubx/src/storage/index.rs:521-558 | The least pair of a stored subtree |
| `Index.BPlusTreeIndex.Split` | bustubx/src/storage/index.rs:288-326 | Cuts a page in half, links the new leaf behind the old one, and returns the least key of the new subtree as separator |
| `Index.BPlusTreeIndex.StartNewTree` | bustubx/src/storage/index.rs:217-236 | A single leaf with the one binding |
| `Index.BPlusTreeIndex.SplitPage` | bustubx/src/storage/index.rs:89-134 | One round of the split loop moves the overflow to the parent or to a new root and leaves the pairs alone; the remaining path gets shorter |
| `Index.BPlusTreeIndex.Insert` | bustubx/src/storage/index.rs:66-144 | For a key not present: the whole tree stays well formed (leaves at one depth, occupancy, separators, leaf chain, unshared pages) and gains exactly that binding, across cascading splits and root growth, and the loop ends; the new tree is determined up to the ids of new pages (`IndexSearch.Inserted`) |
| `IndexMerge.MergedParentOrdered` | bustubx/src/storage/index.rs:496-518 | Merging two siblings and dropping the right entry keeps the parent in order even when separators are stale lower bounds |
| `IndexMerge.MergedParentFlat` | bustubx/src/storage/index.rs:458-486 | Merging keeps all pairs in order |
| `IndexMerge.MergedLoose` | bustubx/src/storage/index.rs:488-517 | After a merge the page store holds the merged tree with its leaf chain, and the right page is gone |
| `IndexMerge.MergedCollapse` | bustubx/src/storage/index.rs:504-511 | When the merged page was one of only two below the root, dropping the root leaves a stored tree in order |
| `Index.BPlusTreeIndex.JoinPages` | bustubx/src/storage/index.rs:446-496 | Left page takes all entries (first internal key replaced by the least key of its subtree) and the right leaf's link; the right page is freed |
| `Index.BPlusTreeIndex.Merge` | bustubx/src/storage/index.rs:446-518 | Merging keeps the pairs, the leaf chain and the order; a root left with one child gives way to it; pages in use stay allocated, the old root always; the index is valid again unless the parent came up short |
| `Index.DeclinedCanMerge` | bustubx/src/storage/index.rs:172-195 | Where a page came up short by one and its sibling has nothing to lend, the two fit on one page |
| `IndexMerge.BorrowExact` | bustubx/src/storage/index.rs:398-432 | A pair moved between leaves leaves the tree in order if and only if the separator was the right leaf's first key |
| `IndexSearch.BorrowFinds` | bustubx/src/storage/index.rs:398-432 | In every tree, after the move a search for the moved pair finds it if and only if the separator was the right leaf's first key; otherwise it is stored and lost |
| `IndexMerge.BorrowedFlat` | bustubx/src/storage/index.rs:398-408 | The move keeps the pairs whatever happens to the separator |
| `IndexMerge.BorrowedStored` | bustubx/src/storage/index.rs:412-432 | After the three pages are written back the store holds the tree with the pair moved and the chain intact |
| `Index.BPlusTreeIndex.MoveFirst` | bustubx/src/storage/index.rs:398-402 | Takes the right leaf's first pair; the keys to exchange are its old and its new first key |
| `Index.BPlusTreeIndex.MoveLast` | bustubx/src/storage/index.rs:402-408 | Takes the left leaf's last pair; the keys to exchange are the borrower's second and first key |
| `Index.BPlusTreeIndex.BorrowLeaf` | bustubx/src/storage/index.rs:360-432 | Both leaves and the re-keyed parent are stored, the pairs are kept, all searches of the index are right exactly when the separator was exact, and then the index is valid |
| `Index.BPlusTreeIndex.Borrow` | bustubx/src/storage/index.rs:346-432 | Declined exactly when the lender is at its minimum, and then nothing changes and the two pages can be merged; otherwise, for leaves and for internal pages, the tree after the move, its pairs, and exactly when every search of it is right |
| `IndexBorrow.OrderedApt` | bustubx/src/storage/index.rs:238-285 | In a tree whose separators bound its subtrees every search finds what is stored under its key, and only that |
| `IndexBorrow.BorrowExactly` | bustubx/src/storage/index.rs:392-408 | After a pair moved between leaves every search of the whole tree is right if and only if the separator was the right leaf's first key |
| `IndexBorrow.LendExact` | bustubx/src/storage/index.rs:363-391 | After a subtree moved between internal pages every search of the whole tree is right if and only if it came from the right, the separator was the right page's slot zero key, and two subtrees stay there; so never when it came from the left |
| `IndexBorrow.VictimLost` | bustubx/src/storage/index.rs:363-391 | In every other case, if pages are still sorted, none of the pairs below the right page's first subtree of before is found any more, though they are stored |
| `IndexLend.LentKeeps` | bustubx/src/storage/index.rs:363-391 | Whichever way it goes, the tree has the same pages and the same pairs |
| `IndexLend.LentPlaced` | bustubx/src/storage/index.rs:412-432 | And every page of it is in its place |
| `Index.BPlusTreeIndex.MoveFirstKid` | bustubx/src/storage/index.rs:370-377 | Takes the right page's first subtree; the keys to exchange are its slot zero key and the least key the page still holds |
| `Index.BPlusTreeIndex.MoveLastKid` | bustubx/src/storage/index.rs:378-391 | Takes the left page's last subtree; the keys to exchange are the borrower's slot zero key and the least key below the lender |
| `Index.BPlusTreeIndex.BorrowInner` | bustubx/src/storage/index.rs:363-432 | Both pages and the re-keyed parent are stored, the pairs are kept, all searches are right exactly under that condition, and then, with pages of legal sizes, the index is valid |
| `Index.BPlusTreeIndex.DeleteFromLeaf` | bustubx/src/storage/index.rs:150-167 | The leaf a descent ends at loses the key; the tree is in order but for that leaf, which may be short by one |
| `Index.BPlusTreeIndex.FillUp` | bustubx/src/storage/index.rs:171-211 | One round for a page short by one: a loan from the left if the left sibling can spare, else from the right if that can, else a merge, with the left sibling if there is one, that may leave the parent short |
| `IndexDelete.LeafShrinks` | bustubx/src/storage/index.rs:150-167 | Without its pair the whole tree holds the old pairs but that one |
| `IndexDelete.WithoutFinds` | bustubx/src/storage/index.rs:146-167 | Of the pairs left, every other key is found as before, the deleted one is not |
| `IndexDelete.MendedRepairs` | bustubx/src/storage/index.rs:171-211 | Every tree with a page that came up short is repaired by merges and at most one loan, each due at that point: merged only where neither sibling can spare, with the left one if there is one; lent from the right only where no left one can spare |
| `Index.BPlusTreeIndex.Delete` | bustubx/src/storage/index.rs:146-214 | The whole loop, which ends: the pairs left are those with other keys; the leaf a descent ends at loses the key, then come merges, each of a short page neither of whose siblings can spare an entry and with the left one if there is one, and at most one loan, from the right only if no left sibling can spare; every search is right afterwards if and only if there was no loan or it met its exact condition; without a loan the index is valid again |
| `IndexRuns.StaleDeleteRuns` | bustubx/src/storage/index.rs:146-214 | Inserting 1, 2, 3, 5, 6 and 7 into leaves of four and deleting 3 and then 2 makes `get` of 5 return None, though 5 is stored |
| `IndexRuns.LeftLendRuns` | bustubx/src/storage/index.rs:146-214 | In an index in order, deleting 41 merges two leaves, the internal page above borrows from its left sibling, and `get` of 30 returns None, though 30 is stored |
| `IndexRuns.LeftAskedFirst` | bustubx/src/storage/index.rs:181-193 | Inserting 1, 2, 5, 6, 7, 8, 9, 10 and 3 and deleting 7 and then 6: the middle one of three leaves borrows from the left although the right one could spare too, and `get` of 8 still finds it |
| `IndexIterator.LeafChain` | bustubx/src/storage/index.rs:604-616 | The next-page links of a stored tree run through its leaves in key order and end after the last |
| `IndexIterator.GetFirstLeafPage` | bustubx/src/storage/index.rs:560-579 | The leftmost leaf |
| `IndexIterator.TreeIndexIterator.LoadNextLeafPage` | bustubx/src/storage/index.rs:604-616 | Moves to the next leaf of the chain, or reports the end |
| `IndexIterator.TreeIndexIterator.StartAtKey` | bustubx/src/storage/index.rs:676-719 | The first pair at or behind a start key, looking into the next leaf when the responsible one has none |
| `IndexIterator.TreeIndexIterator.Next` | bustubx/src/storage/index.rs:618-728 | First call: the first pair from the start bound; later calls: the next pair of the chain, or None when it is behind the end bound |
| `IndexIterator.TreeIndexIterator.Drain` | bustubx/src/storage/index.rs:618-728 | Calling `next` to the first None yields the first candidate and then the pairs up to the end bound, crossing leaves |
| `IndexIterator.ScanExact` | bustubx/src/storage/index.rs:676-728 | That is exactly the range if and only if the first candidate is inside the end bound or absent; without end bound it is always exact |
| `IndexIterator.SelectExact` | bustubx/src/storage/index.rs:676-728 | That range: the pairs at or behind an included start, behind an excluded one, likewise before the end, in order |
| `IndexIterator.ScanOvershoots` | bustubx/src/storage/index.rs:676-719 | Keys 1 and 5 scanned over (2, 4) yield key 5 |
| `IndexIterator.OvershootRuns` | bustubx/src/storage/index.rs:676-719 | An index into which 1 and 5 are inserted, scanned over (2, 4), hands out the record of 5 |
| `Catalog.CreateIndex` | bustubx/src/catalog/catalog.rs:278-292 | Building an index from a table scan binds every row's key to its record id |
| `Catalog.ScanVisitsTable` | bustubx/src/catalog/catalog.rs:278-292 | Hence an index scan visits exactly the table's rows, each once, sorted by key |
| `Journals.ReadRecord` | bustubx/src/transaction/recovery.rs:26-36 | A written record reads back with its version and payload, whatever follows it |
| `Journals.ReadTorn` | bustubx/src/transaction/recovery.rs:69-72 | Any proper prefix that includes the header reads as unfinished |
| `Journals.ReadExact` | bustubx/src/transaction/recovery.rs:56-78 | Whatever is accepted as a record is, byte for byte, the record of its version and payload |
| `Journals.RecoverWhole` | bustubx/src/transaction/recovery.rs:39-109 | A file of records 0..n recovers record n and is kept in full |
| `Journals.RecoverTorn` | bustubx/src/transaction/recovery.rs:39-109 | With any proper prefix of a next record behind it, it recovers record n and is cut to its end |
| `Journals.RecoverNoInitial` | bustubx/src/transaction/recovery.rs:92-96 | A file with only part of record 0 cannot be opened |
| `Journals.RecoverExact` | bustubx/src/transaction/recovery.rs:39-109 | Conversely, whatever opening succeeds with, the kept bytes are exactly records 0, 1, ... up to the returned one |
| `Journals.BehindHeader` | bustubx/src/transaction/recovery.rs:69-79 | Behind a proper header stands an append cut off, a record, or, if mark, payload or checksum do not belong to it, a damaged one |
| `Journals.OpenExact` | bustubx/src/transaction/recovery.rs:39-109 | On the bytes alone: which files can be opened, and what is kept of them |
| `Journals.DamageRefused` | bustubx/src/transaction/recovery.rs:56-90 | Behind whole records, a header that is none, a complete record with a wrong mark, payload or checksum, and a record out of turn are each refused with their own error |
| `Journals.FoldDiffers` | bustubx/src/transaction/recovery.rs:15-24 | Byte strings that differ in one byte have different checksums |
| `Journals.KnownHash` | bustubx/src/transaction/recovery.rs:15-24 | The published 64-bit FNV-1a of "a" |
| `Journals.KnownRecord` | bustubx/src/transaction/recovery.rs:26-36 | The bytes of a record around its two checksums |
| `Journals.OneByteRefused` | bustubx/src/transaction/recovery.rs:39-109 | No file of whole records can be opened once any one of its bytes has been altered |
| `Journals.Journal.ReadAt` | bustubx/src/transaction/recovery.rs:56-78 | One round of reading: header, length, commit mark, checksums, with each failure told apart (`Journals.BehindHeader`) |
| `Journals.Journal.Open` | bustubx/src/transaction/recovery.rs:39-109 | The reading loop: succeeds if and only if the file is records 0, 1, ... and at most an append cut off behind them, with record 0 complete unless the file is empty; then it keeps exactly the records and yields the last |
| `Journals.Journal.Append` | bustubx/src/transaction/recovery.rs:120-138 | Adds the record, or after a failed write some prefix of it and refuses further use |
| `Journals.Journal.EnsureUsable` | bustubx/src/transaction/recovery.rs:111-118 | Usable until a write has failed |
| `LockManagers.Exclusion` | bustubx/src/transaction/lock_manager.rs:10-33 | A writer excludes everybody else over every operation; a lock is granted exactly when nobody else is in the way |
| `LockManagers.LockManager.Shared` | bustubx/src/transaction/lock_manager.rs:11-17 | Shared lock |
| `LockManagers.LockManager.Exclusive` | bustubx/src/transaction/lock_manager.rs:18-27 | Exclusive lock or upgrade |
| `LockManagers.LockManager.Release` | bustubx/src/transaction/lock_manager.rs:28-33 | Release of both kinds |
| `Transactions.NewOnDisk` | bustubx/src/transaction/transaction_manager.rs:40-64 | Start over a journal: recovers the last image or writes record 0; what is left in the file and whether it starts, also when an image cannot be produced or opened |
| `Transactions.BeginWithIsolation` | bustubx/src/transaction/transaction_manager.rs:70-102 | Begin: journal check, id, lock, private copy and base version; the new manager state and each failure; a failing copy gives the lock back |
| `Transactions.Transaction.RunActiveStatement` | bustubx/src/transaction/transaction.rs:31-56 | A first write upgrades a serializable transaction's lock before executing; whatever it marks, `Commits` says what becomes of it |
| `Transactions.Transaction.Run` | bustubx/src/transaction/transaction.rs:24-30 | Any failing statement ends the transaction and gives its locks back |
| `Transactions.Transaction.Commit` | bustubx/src/transaction/transaction.rs:57-96 | Validation, image, journal, publication in this order, each failure included; the locks are released on every path |
| `Transactions.Transaction.Abort` | bustubx/src/transaction/transaction.rs:97-107 | Drops the private copy and the locks, once |
| `Commits.BeginExact` | bustubx/src/transaction/transaction_manager.rs:70-102 | In every reachable state: when a transaction can be begun, and that it is a new one on the current version that has executed nothing |
| `Commits.RunExact` | bustubx/src/transaction/transaction.rs:24-56 | When a statement is answered Ok: its transaction is live, it can be planned and executed on what the transaction sees, and for the first write of a serializable one nobody else holds a lock; else the transaction is over |
| `Commits.CommitExact` | bustubx/src/transaction/transaction.rs:57-96 | When a commit is answered Ok: the journal is usable and, if the transaction has executed a write, its base is current, nobody else holds a lock, there is a next version and the journal takes it |
| `Commits.CommitPublishes` | bustubx/src/transaction/transaction.rs:57-96 | A commit answered Ok of a transaction that has executed a write publishes exactly one version, what its statements make of its base, and appends its record; otherwise nothing is published |
| `Commits.AcknowledgedKept` | bustubx/src/transaction/transaction.rs:57-96 | Every acknowledged write is in the history of every later state of the run, across crashes too |
| `Commits.FirstBoot` | bustubx/src/transaction/transaction_manager.rs:40-64 | Over an empty file starting succeeds exactly when image and record can be written, with version 0 and record 0 |
| `Protocol.StepKeeps` | bustubx/src/transaction/transaction.rs:24-107 | Every begin, statement, commit, abort, failed append, crash and restart keeps the system invariant |
| `Protocol.RunsKeep` | bustubx/src/transaction/transaction.rs:24-107 | So every state of every run satisfies it |
| `Protocol.AppendDurable` | bustubx/src/transaction/recovery.rs:120-138 | An append leaves the file durable with one more version, or with part of a pending one |
| `Protocol.SerialEquivalence` | bustubx/src/transaction/transaction.rs:69-95 | In every interleaving the published database is what the committed transactions' statements make of version 0 in version order |
| `Protocol.SnapshotStability` | bustubx/src/transaction/transaction_manager.rs:85-101 | A live transaction sees its own statements on its base version and nothing else |
| `Protocol.NoTrace` | bustubx/src/transaction/transaction.rs:57-103 | Whatever does not publish leaves history, version and database alone |
| `Protocol.HistoryGrows` | bustubx/src/transaction/transaction.rs:69-95 | The acknowledged history only grows at its end, across crashes too, and a publisher worked on its last version |
| `Protocol.OneWriterPerVersion` | bustubx/src/transaction/transaction.rs:69-75 | At most one transaction commits writes on any base version |
| `Protocol.PendingWritten` | bustubx/src/transaction/transaction.rs:69-95 | A version pending behind the last acknowledged one was written by the last transaction that worked on it |
| `Protocol.VersionWritten` | bustubx/src/transaction/transaction.rs:69-95 | Every version a run adds, also one promoted at a restart, was written by exactly one transaction: the last that worked on the version before |
| `Protocol.NoLeakedLocks` | bustubx/src/transaction/transaction.rs:97-107 | Only live transactions hold locks; none live, none held |
| `Protocol.UpgradedNeverConflicts` | bustubx/src/transaction/transaction.rs:69-75 | A live serializable transaction works on the current version, so its commit never fails with a write conflict |
| `Protocol.SnapshotConflicts` | bustubx/src/transaction/transaction.rs:69-75 | Under snapshot isolation a writing commit conflicts exactly when the version moved on or a serializable transaction is live |
| `Protocol.RecoverDurable` | bustubx/src/transaction/recovery.rs:39-109 | Recovery of a durable file yields the last acknowledged version or the one unacknowledged version right behind it |
| `Protocol.Durability` | bustubx/src/transaction/transaction_manager.rs:40-64 | After a crash at any byte of an append and a restart: exactly the last acknowledged version, or the one whose append had not been acknowledged; where the image cannot be opened nothing starts and nothing is lost |
| `Parallel.OrderedMap` | bustubx/src/execution/parallel.rs:7-54 | Chunks evaluated apart and gathered in order give the input mapped in order, for every number of workers, or an error when one of several workers does not start or panics |
| `NestedLoopJoin.ScanAppend` | bustubx/src/execution/physical_plan/nested_loop_join.rs:172-206 | Scanning the right input in pieces, counting ordinals on, is scanning it at once |
| `NestedLoopJoin.PhysicalNestedLoopJoin.Init` | bustubx/src/execution/physical_plan/nested_loop_join.rs:107-111 | Starting over makes the whole join due again, unless an input cannot start over |
| `NestedLoopJoin.PhysicalNestedLoopJoin.ReadBatch` | bustubx/src/execution/physical_plan/nested_loop_join.rs:172-190 | Reads up to a batch of right rows; end and error told apart |
| `NestedLoopJoin.PhysicalNestedLoopJoin.JoinBatch` | bustubx/src/execution/physical_plan/nested_loop_join.rs:191-206 | Queues the joined rows in order and records exactly the ordinals of matched right rows |
| `NestedLoopJoin.PhysicalNestedLoopJoin.Advance` | bustubx/src/execution/physical_plan/nested_loop_join.rs:172-213 | One batch changes nothing of what is still to come |
| `NestedLoopJoin.PhysicalNestedLoopJoin.FinishLeft` | bustubx/src/execution/physical_plan/nested_loop_join.rs:143-156 | A preserved left row without match is handed over null-extended; the right input restarts, or the join fails |
| `NestedLoopJoin.PhysicalNestedLoopJoin.FetchLeft` | bustubx/src/execution/physical_plan/nested_loop_join.rs:158-170 | Next left row, or the unmatched right rows, or the end; a failing left row is reported and skipped; the right input may fail to restart |
| `NestedLoopJoin.PhysicalNestedLoopJoin.EmitUnmatched` | bustubx/src/execution/physical_plan/nested_loop_join.rs:122-140 | The next right row null-extended unless its ordinal was matched |
| `NestedLoopJoin.PhysicalNestedLoopJoin.Next` | bustubx/src/execution/physical_plan/nested_loop_join.rs:112-216 | Hands out exactly the items still to come, one per call, and terminates, for every batch size; an error when an input cannot restart or a worker fails |
| `NestedLoopJoin.Execute` | bustubx/src/execution/mod.rs:29-41 | Running the join to its end yields all rows or the first error, independent of parallelism, unless an input cannot restart or a worker fails |
| `NestedLoopJoin.JoinIsDeclared` | bustubx/src/execution/physical_plan/nested_loop_join.rs:82-104 | For inputs without errors and every join type, that is the declared join: per left row its matches or itself null-extended, then the right rows no left row matches |
| `NestedLoopJoin.LeftRowKept` | bustubx/src/execution/physical_plan/nested_loop_join.rs:98-101 | A preserved left row always occurs in some output row |
| `JoinMeaning.RowsExact` | bustubx/src/execution/physical_plan/nested_loop_join.rs:60-104 | On inputs without errors the output is exactly what is due, each once and in order: two rows side by side if and only if there is no condition or it is true of them (or its error), a row of a preserved side beside nulls, as many as the other side has columns, if and only if the condition is true of it with no row of the other side |
| `JoinMeaning.CollectedExact` | bustubx/src/execution/mod.rs:29-41 | A run to the end gives all rows, or the first error if there is one |
| `JoinMeaning.RightFails` | bustubx/src/execution/physical_plan/nested_loop_join.rs:172-213 | A right input that fails ends the join: the first left row joined with the rows before the error, then the error |
| `JoinMeaning.CompletesExact` | bustubx/src/execution/physical_plan/nested_loop_join.rs:112-216 | The join ends without error if and only if no input item that is read is one and the condition can be evaluated on every pair |
| `PhysicalLimit.PhysicalLimit.Next` | bustubx/src/execution/physical_plan/limit.rs:50-70 | Hands out the window, one row per call; once the quota is used no further row is requested |
| `PhysicalLimit.LimitIsWindow` | bustubx/src/execution/physical_plan/limit.rs:50-70 | On a clean input the rows handed out are the first `limit` after the first `offset` |
| `PhysicalLimit.LimitFails` | bustubx/src/execution/physical_plan/limit.rs:50-70 | An error of the input is handed out in its place unless the quota was used up before it |
| `Replacer.AccessesAre` | bustubx/src/buffer/replacer.rs:22-27 | The access times of a frame in the log are exactly those at which it was accessed |
| `Replacer.TrackedGrows` | bustubx/src/buffer/replacer.rs:22-27 | A history that holds the last k accesses still does after one more access of any frame |
| `Replacer.DistanceOrders` | bustubx/src/buffer/replacer.rs:60-64 | Below 2^63 accesses the computed distances order frames by backward k-distance, young frames first, without ties |
| `Replacer.LRUKReplacer.FindVictim` | bustubx/src/buffer/replacer.rs:53-69 | In whatever order the map is walked, the search finds the one evictable frame of greatest backward k-distance, if any |
| `Replacer.LRUKReplacer.Evict` | bustubx/src/buffer/replacer.rs:53-74 | Some exactly when the size is positive; removes exactly that frame |
| `Replacer.LRUKReplacer.RecordAccess` | bustubx/src/buffer/replacer.rs:77-95 | Keeps every history equal to the last k accesses; fails exactly for a new frame beyond the limit |
| `Replacer.LRUKReplacer.SetEvictable` | bustubx/src/buffer/replacer.rs:97-111 | Changes one flag and keeps the size equal to the number of evictable frames |
| `Replacer.LRUKReplacer.Remove` | bustubx/src/buffer/replacer.rs:113-119 | Forgets one evictable frame |
| `Replacer.LRUKReplacer.Size` | bustubx/src/buffer/replacer.rs:122-124 | The number of evictable frames |
| `DiskManager.FreelistPage.Push` | bustubx/src/storage/page/freelist_page.rs:45-48 | Appends one entry |
| `DiskManager.FreelistPage.Pop` | bustubx/src/storage/page/freelist_page.rs:50-56 | Takes the last entry, if any |
| `DiskManager.AllocateConserves` | bustubx/src/storage/disk_manager.rs:127-141 | Allocation never returns a page in use, and ids stay split without repeats into used, free-list and listed pages |
| `DiskManager.ReleaseConserves` | bustubx/src/storage/disk_manager.rs:150-194 | Freeing a page keeps that split, also when the free list grows by swallowing one of its own entries |
| `DiskManager.RunConserves` | bustubx/src/storage/disk_manager.rs:127-212 | So it holds after every sequence of allocations and valid frees, and every id of the file is accounted for |
| `DiskManager.RecycleExact` | bustubx/src/storage/disk_manager.rs:161-212 | A freed page is the next one allocated exactly when the first free-list page had room |
| `FreelistCodec.CapacityExact` | bustubx/src/storage/codec/freelist_page.rs:43-76 | A free-list page can be written if and only if it has no more entries than the capacity; then it takes exactly one page of the file and reads back as it was |
| `FreelistCodec.KnownPage` | bustubx/src/storage/codec/freelist_page.rs:9-16 | The bytes of a page with three entries; the capacity is 1021 |
| `FreelistCodec.FileEncodes` | bustubx/src/storage/codec/freelist_page.rs:43-76 | Every page of a manager's file takes 4096 bytes, and those of the free list read back as the list's pages |
| `BigEndian.BeBytes` | bustubx/src/storage/codec/common.rs:43-75 | Numbers of two and four bytes, the most significant byte first |
| `DiskManager.DiskManager.FreelistPop` | bustubx/src/storage/disk_manager.rs:196-212 | Walks the chain to the first non-empty page and takes its last entry |
| `DiskManager.DiskManager.AllocatePage` | bustubx/src/storage/disk_manager.rs:127-141 | A zeroed page not in use; pages in use keep their content |
| `DiskManager.DiskManager.AllocateFreelistPage` | bustubx/src/storage/disk_manager.rs:143-148 | The same, holding an empty free-list page |
| `DiskManager.DiskManager.ExtendChain` | bustubx/src/storage/disk_manager.rs:165-177 | Grows the chain of full pages by one, re-reading the last page since it may just have lost an entry |
| `DiskManager.DiskManager.FreelistPush` | bustubx/src/storage/disk_manager.rs:161-194 | Records the page on the first free-list page with room; the chain stays acyclic |
| `DiskManager.DiskManager.DeallocatePage` | bustubx/src/storage/disk_manager.rs:150-159 | The page is zeroed and no longer in use; other pages keep their content |
| `DiskManager.DiskManager.ReadPage` | bustubx/src/storage/disk_manager.rs:99-114 | The stored block, or an error for page 0 and beyond the end |
| `DiskManager.DiskManager.WritePage` | bustubx/src/storage/disk_manager.rs:116-125 | Replaces one used page; wrong lengths are refused |
| `DiskManager.DiskManager.constructor` | bustubx/src/storage/disk_manager.rs:69-89 | A new file: free list on page 1, system tables on pages 2 to 5 |
| `DiskManager.DiskManager.Reopen` | bustubx/src/storage/disk_manager.rs:30-67 | Opening an existing file restores the page count from its length and with the free list every page as it was |
| `BufferPool.Page.Destroy` | bustubx/src/buffer/page.rs:38-43 | Back to an empty frame |
| `BufferPool.Page.SetData` | bustubx/src/buffer/page.rs:45-48 | New data, marked dirty |
| `BufferPool.Page.Replace` | bustubx/src/buffer/page.rs:54-59 | All fields of the other page |
| `BufferPool.CleanVictimKeeps` | bustubx/src/buffer/buffer_pool.rs:215-222 | Evicting an unpinned frame, written back if dirty, changes no page's content |
| `BufferPool.LongestLoaded` | bustubx/src/buffer/replacer.rs:53-69 | Since only loading a page records an access, the pool's victim is the unpinned page loaded first |
| `BufferPool.EvictionRuns` | bustubx/src/buffer/buffer_pool.rs:83-119 | Two frames: load a, load b, fetch a again, load a third page: a is evicted and b stays |
| `BufferPool.ReferencesWouldDiffer` | bustubx/src/buffer/replacer.rs:53-69 | By references the victim would have been the other page |
| `BufferPool.BufferPoolManager.constructor` | bustubx/src/buffer/buffer_pool.rs:35-50 | All frames free |
| `BufferPool.BufferPoolManager.AllocateFrame` | bustubx/src/buffer/buffer_pool.rs:212-229 | A free or evicted frame, never a pinned one; fails exactly when there is neither; contents unchanged |
| `BufferPool.BufferPoolManager.NewPage` | bustubx/src/buffer/buffer_pool.rs:53-81 | A fresh zeroed page, pinned once; all other contents unchanged; fails exactly when no frame can be had |
| `BufferPool.BufferPoolManager.FetchPage` | bustubx/src/buffer/buffer_pool.rs:83-119 | The data last set on the page, however often it was evicted; contents unchanged; pins count references |
| `BufferPool.BufferPoolManager.SetData` | bustubx/src/buffer/page.rs:45-48 | Changes the content of the pinned page and of no other |
| `BufferPool.BufferPoolManager.DropRef` | bustubx/src/buffer/page.rs:76-99 | One reference less; the frame becomes evictable exactly at zero; contents unchanged |
| `BufferPool.BufferPoolManager.FlushPage` | bustubx/src/buffer/buffer_pool.rs:165-176 | Writes a resident page back; contents unchanged |
| `BufferPool.BufferPoolManager.FlushAllPages` | bustubx/src/buffer/buffer_pool.rs:178-184 | Afterwards the disk alone holds every page's content |
| `BufferPool.BufferPoolManager.DeletePage` | bustubx/src/buffer/buffer_pool.rs:187-210 | Refused exactly for a pinned page; removes an unpinned resident page and no other; a page that is not resident is left alone and still reported deleted |
| `TablePage.InsertAppends` | bustubx/src/storage/page/table_page.rs:129-153 | A tuple placed just below the others leaves all slots as they were and appends one |
| `TablePage.RoomExact` | bustubx/src/storage/page/table_page.rs:95-127 | The space test holds exactly when 8 + 21(n+1) bytes of directory and all tuples fit in 4096 bytes |
| `TablePage.OverwriteKeeps` | bustubx/src/storage/page/table_page.rs:178-182 | Overwriting with a tuple of equal size changes that slot only |
| `TablePage.PageRoundTrip` | bustubx/src/storage/codec/table_page.rs:11-39 | A stored page reads back with its header and every tuple: the directory never reaches the tuples |
| `TablePage.Layout` | bustubx/src/storage/codec/table_page.rs:41-94 | At which bytes of a stored page its link, its counts and the fields of each tuple stand |
| `TablePage.InfosRoundTrip` | bustubx/src/storage/codec/table_page.rs:41-79 | The directory reads back as written |
| `TablePage.TablePage.NextTupleOffset` | bustubx/src/storage/page/table_page.rs:95-127 | Ok exactly when there is room, with the offset just below the last tuple |
| `TablePage.TablePage.InsertTuple` | bustubx/src/storage/page/table_page.rs:129-153 | Appends a slot exactly when there is room, else changes nothing |
| `TablePage.TablePage.UpdateTupleMeta` | bustubx/src/storage/page/table_page.rs:156-169 | Changes one slot's meta; the deleted count grows only on a new mark |
| `TablePage.DeletedCountExact` | bustubx/src/storage/page/table_page.rs:163-165 | An exact deleted count stays exact if and only if the change takes no deleted mark off |
| `TablePage.TablePage.UpdateTuple` | bustubx/src/storage/page/table_page.rs:171-206 | In place or by rebuilding, exactly when the result fits: only that slot's tuple changes; else the page is unchanged; rebuilding recounts the deleted tuples |
| `TablePage.TablePage.InsertAll` | bustubx/src/storage/page/table_page.rs:196-201 | Filling an empty page succeeds exactly when all tuples fit together |
| `TablePage.TablePage.Tuple` | bustubx/src/storage/page/table_page.rs:208-225 | Reads a slot, or fails beyond the last |
| `TablePage.TablePage.GetNextRid` | bustubx/src/storage/page/table_page.rs:238-246 | The next slot on this page, if any |
| `TableHeap.RowsAre` | bustubx/src/storage/table_heap.rs:137-153 | A row is in the table exactly at its page and slot |
| `TableHeap.TableHeap.TryNew` | bustubx/src/storage/table_heap.rs:23-40 | A table of one empty page, on a page that was not in use, with all other pages as they were; or an error when no page can be had |
| `TableHeap.TableHeap.Extend` | bustubx/src/storage/table_heap.rs:72-98 | A full last page is linked to a new empty one; the chain stays acyclic with no empty page before the last; nothing changes when no page can be had |
| `TableHeap.TableHeap.InsertTuple` | bustubx/src/storage/table_heap.rs:53-111 | Appends one row under a record id not used before, at the end of the last page if it has room there and else alone on one new page; pages of others are untouched. It cannot fail while the last page has room; otherwise it may for want of a page, and then the store is as before; only a tuple that fits no empty page panics |
| `TableHeap.TableHeap.UpdateTuple` | bustubx/src/storage/table_heap.rs:113-123 | Replaces the tuple of one row exactly when its page can hold it; every other row stays as and where it is |
| `TableHeap.TableHeap.UpdateTupleMeta` | bustubx/src/storage/table_heap.rs:125-135 | Replaces the meta of one row |
| `TableHeap.TableHeap.FullTuple` | bustubx/src/storage/table_heap.rs:137-143 | Reads a row; slot numbers are cut to 16 bits |
| `TableHeap.TableHeap.GetFirstRid` | bustubx/src/storage/table_heap.rs:155-166 | The first row's id |
| `TableHeap.TableHeap.GetNextRid` | bustubx/src/storage/table_heap.rs:168-190 | The next row's id, on the same page or the next |
| `TableHeap.TableIterator.Next` | bustubx/src/storage/table_heap.rs:214-305 | Hands out the rows in insertion order until all have been handed out, then None for good |
| `SeqScan.ScanState.ReadPages` | bustubx/src/execution/physical_plan/seq_scan.rs:63-91 | Follows the chain for up to 16 pages; a page seen before, missing or undecodable ends the scan with its error |
| `SeqScan.ScanState.Next` | bustubx/src/execution/physical_plan/seq_scan.rs:50-113 | On any store, whatever its pages hold and its links say, the batched scan hands out what following the links yields and terminates; a failing worker ends it with an error |
| `SeqScan.PhysicalSeqScan.Init` | bustubx/src/execution/physical_plan/seq_scan.rs:117-133 | Serial or batched, all rows of the table are due, in the same order |
| `SeqScan.PhysicalSeqScan.Next` | bustubx/src/execution/physical_plan/seq_scan.rs:134-145 | Both modes hand out the same tuples, one per call; not before `init` |
| `SeqScan.ScanIsRows` | bustubx/src/execution/physical_plan/seq_scan.rs:63-91 | On a table's own chain the batched scan meets no page twice and yields exactly its rows |
| `SeqScan.ScanFollows` | bustubx/src/execution/physical_plan/seq_scan.rs:71-75 | On any store a chain that leads back is cut at the repeated page with an error, one that leads to no table page is cut there with that error, one that ends is read to its end |
| `LogicalPlan.WindowOfWindow` | bustubx/src/optimizer/rule/merge_limit.rs:17-30 | A window cut from a window is the one window the merge rule computes |
| `LogicalPlan.SortLimitsIdle` | bustubx/src/planner/physical_planner/physical_planner.rs:167-180 | Where no Sort carries a limit it does not matter that the executor ignores such limits |
| `LimitRules.TryExact` | bustubx/src/optimizer/rule/eliminate_limit.rs:9-32 | Each rule rewrites a node exactly when its guard holds there |
| `LimitRules.RewritesExact` | bustubx/src/optimizer/logical_optimizer.rs:74-125 | The driver rewrites a plan exactly when some node meets the guard |
| `LogicalPlanner.StatementPlanned` | bustubx/src/planner/logical_planner/plan_query.rs:10-93 | No statement is planned to a limit directly over a limit, to a limit or offset above 2^63 - 1, or to a sort with a limit |
| `QueryMeaning.QueryMeans` | bustubx/src/planner/logical_planner/plan_query.rs:10-93 | A query can be planned exactly when its bounds are integer literals that are not negative, and its plan yields the query's rows: those of FROM that pass WHERE, grouped, projected, ordered, without the first OFFSET and of the rest at most LIMIT |
| `QueryMeaning.InsertMeans` | bustubx/src/planner/logical_planner/plan_insert.rs:9-48 | An INSERT puts in its source's body, whatever order, limit and offset the source asks for |
| `QueryMeaning.QueryAnswered` | bustubx/src/database.rs:91-118 | Planned, optimized and run, a query yields its rows if and only if each join that shows has nothing to rewrite below it or equivalent inputs |
| `PlanEquivalence.Equivalent` | bustubx/src/optimizer/logical_optimizer.rs:6-9 | Two plans compute the same rows, whatever tables hold and operators compute, if and only if they have the same normal form |
| `LimitExact.Wrapped` | bustubx/src/optimizer/rule/merge_limit.rs:17-29 | The merge rule's machine arithmetic computes the window a chain of limits cuts exactly when its offsets add up below 2^64; else its window starts earlier and is no shorter |
| `LimitExact.MergeExact` | bustubx/src/optimizer/rule/merge_limit.rs:11-35 | Merging a chain of limits keeps the rows if and only if its offsets add up below 2^64, or the merged limit is zero, or there can be no rows behind the merged offset |
| `LimitExact.PushDownExact` | bustubx/src/optimizer/rule/push_down_limit.rs:9-37 | Pushing a limit into a sort always keeps the rows of an executor that ignores it; of one that obeys it, if and only if offset and limit add up below 2^64 or nothing shows anyway |
| `LimitExact.EliminateExact` | bustubx/src/optimizer/rule/eliminate_limit.rs:9-32 | Eliminating limits always keeps the rows |
| `LimitExact.RoundChain` | bustubx/src/optimizer/logical_optimizer.rs:59-125 | Any sequence of rules makes of a chain of limits the merged window over what its base is optimized to on its own |
| `LimitExact.RulesExact` | bustubx/src/optimizer/logical_optimizer.rs:59-125 | Any sequence of rules keeps the rows of a plan, joins included, if and only if each chain of limits that shows fits and each join that shows has nothing to rewrite below it or equivalent inputs |
| `LimitExact.Optimize` | bustubx/src/optimizer/logical_optimizer.rs:59-72 | The optimizer: rows kept if and only if that condition holds; schema and, where the sums the rules form fit, rows kept for plans with nothing to rewrite below a join, whether sorts obey limits or not |
| `LimitExact.RunAsPlanned` | bustubx/src/optimizer/logical_optimizer.rs:59-72 | Optimized and run by an executor that ignores the pushed limits, a plan whose sorts start without limits gives its rows under the same exact condition |
| `LimitExact.SafeClean` | bustubx/src/optimizer/logical_optimizer.rs:59-72 | With nothing to rewrite below joins and offsets that add up, the exact condition holds |
| `LimitHonored.ChainPasses` | bustubx/src/optimizer/logical_optimizer.rs:59-125 | Any number of passes makes of a chain of limits over a sort the merged window over that sort with the window pushed in, or nothing where nothing shows |
| `LimitHonored.HonoredExact` | bustubx/src/optimizer/logical_optimizer.rs:59-72 | For an executor that obeys sort limits: the three rules, however many passes, keep the rows of a plan, joins included, if and only if chains of limits fit, one over a sort adds up below 2^64 or shows nothing, and each join that shows has nothing to rewrite below it or equivalent inputs |
| `LimitHonored.SafeHonored` | bustubx/src/optimizer/logical_optimizer.rs:59-72 | With nothing to rewrite below joins and sums that fit, that condition holds |
| `LimitHonored.LastRowLost` | bustubx/src/optimizer/rule/push_down_limit.rs:9-37 | Limit 1 at offset 2^64 - 1 over a sort: kept for an executor that ignores sort limits, not for one that obeys them |
| `LimitExact.StatementExact` | bustubx/src/database.rs:91-118 | Of every statement: optimized and run, its plan gives its rows if and only if each join that shows has nothing to rewrite below it or equivalent inputs; no overflow can occur |
| `LimitRules.RecursionKeeps` | bustubx/src/optimizer/logical_optimizer.rs:74-100 | One rule applied all over a plan keeps rows and schema, whether sorts obey limits or not, where the sums it forms fit |
| `LimitRules.TwoPassesSuffice` | bustubx/src/optimizer/logical_optimizer.rs:38-50 | After two passes of the three rules no rule applies anywhere |
| `LimitRules.PassesSettle` | bustubx/src/optimizer/logical_optimizer.rs:59-72 | So further passes change nothing |
| `LimitRules.JoinInputs` | bustubx/src/planner/logical_plan/mod.rs:134-160 | A join with a rewritten input gets its left input on both sides |
| `LimitRules.JoinExact` | bustubx/src/optimizer/logical_optimizer.rs:102-125 | A join is left alone exactly when the rule has no work below it |
| `LimitExact.JoinKeepsExact` | bustubx/src/optimizer/logical_optimizer.rs:102-125 | Applied to a join a rule keeps the rows exactly when it has no work below or both inputs have the same normal form |
| `LimitExact.JoinLosesInput` | bustubx/src/planner/logical_plan/mod.rs:134-160 | The query `select * from (select * from a offset 0) cross join b` over one row each: planned it yields [x, y], optimized [x, x] |
| `LimitExact.OffsetWraps` | bustubx/src/optimizer/rule/merge_limit.rs:25-29 | A chain built by hand of offsets 2^63 - 1, 2^63 - 1 and 2, for which the exact condition fails: rows that should be skipped come back |

## Left out

- Index.BPlusTreeIndex.Insert: for keys not yet present only, since a new separator equal to an old one is sorted behind it (`KeyValues.StableSortPushed`) wherever its page belongs; internal pages must hold at least three entries, as in every index the catalog creates. A page can always be had; in the code, when none can be had halfway up the split loop, the right half split off below is written but no parent points to it.
- Index.BPlusTreeIndex.Delete: for indexes in order with pages of at least four entries (the catalog's have ten); in the code a page of three internal entries can be left with one child, of which a lookup panics, and an emptied right leaf panics when it borrows. Of a tree that a borrow has put out of order nothing is said but for its pages, its pairs and what searches find; and an index whose last pair is gone is no longer one that `Insert` is specified for. A page that is merged away while in use stays allocated.
- Index.BPlusTreeIndex.Borrow: leaves only when the borrower came up short by one and the right leaf is not empty, as the deletion loop calls it on pages of four entries or more; `MoveLast` reads the borrower's second pair after the move, so the borrower must hold one before.
- IndexIterator.TreeIndexIterator.Drain: up to the first None; what a further call does is in the contract of `Next`.
- Catalog.CreateIndex: the catalog's own tables and the check for existing indexes are not modelled.
- Journals.Journal.Open: file locking and the operating system's errors are not modelled; the checksum is proved to tell single altered bytes, and nothing is claimed about other collisions.
- Transactions.Transaction.Commit: the database inside a transaction is its image; a snapshot that succeeds and is opened again is taken to be exact.
- Transactions.BeginWithIsolation: identifiers and versions are 64-bit and exhaustion is an error as in the code; waiting does not occur in the code and is not modelled.
- Protocol.Durability: a write that fails leaves some prefix of the record; reordering within one append is not modelled.
- Parallel.OrderedMap: workers are pure functions over their chunk; a panic while the calling thread itself evaluates the only chunk is not modelled.
- NestedLoopJoin.PhysicalNestedLoopJoin.Next: inputs replay the same items after every `init` that succeeds; nothing is said of calls after one that failed, and the executor makes none.
- Replacer.LRUKReplacer.Evict: fewer than 2^63 recorded accesses.
- DiskManager.DiskManager.AllocatePage: page numbers do not wrap around at 2^32; input and output succeed; the manager keeps free-list pages decoded, `FreelistCodec.dfy` relates them to their bytes.
- BufferPool.BufferPoolManager.FetchPage: for pages in use; fetching a freed or invalid page leaves a stale entry behind in the code.
- BufferPool.BufferPoolManager.DeletePage: the code reports a page that is not resident as deleted without freeing it, and so does the model.
- TablePage.TablePage.UpdateTupleMeta: the deleted count wraps around at 16 bits, as in a release build.
- TablePage.TablePage.UpdateTuple: tuples are their encoded bytes, so decoding and encoding them again when the page is rebuilt is the identity here.
- TableHeap.TableHeap.InsertTuple: the buffer pool is a map of page contents here, which `BufferPool.dfy` proves it to be; a page of the table itself can always be fetched, while a new page may not be had.
- TableHeap.TableIterator.Next: scans of the whole table, the only kind the executor and the catalog use; bounded ranges are not modelled.
- SeqScan.ScanState.Next: a slot whose bytes leave its page is an error here; slicing panics in the code. Pages of a table's own chain have no such slot.
- LimitExact.Optimize: machine addition wraps around, as in a release build; the rows of a plan are a function of its operators, so a statement whose input is never asked for has no effect in the model either.
- LogicalPlanner.StatementPlanned: names are resolved and schemas given; what sqlparser accepts is not modelled.
- Sorting, aggregation, expression evaluation, casts, SQL parsing and binding, pretty printing, the command line and the WASM runner.
- The tuple and scalar codecs and the codecs of index pages.
