# Verified model of the storage and query-encoding core

This project models four connected parts of a multi-version document store and proves what they promise.

* **The segmented index trie.** Index values of any length are cut into 495-byte segments and chained through edge
  rows and leaf rows so that no key exceeds 511 bytes. `IndexTrie` gives the trie its meaning, a set of (index, value,
  document); `TrieStorage` reads the byte rows as a trie; `IndexUpdates` proves insertion and deletion against the set;
  `IndexTraversal`, `IndexSnapshot` and `IndexCursors` prove that the explicit-stack cursor returns exactly that set, in
  order, in both directions, and terminates.
* **Timestamped documents and transactions.** `Documents` and `DocumentCursors` prove that the point lookup and the two
  folds of the scanning cursor agree. `WriteSets`, `Overlays` and `Transactions` prove what a transaction sees through
  its own writes. `Catalogs` and `CatalogCursors` do the same for the versioned collection catalog, and `CursorStarts`
  says what a start and a direction ask of each cursor.
* **The storage engine.** `Batches` says what `put` does as a list of operations; `BatchInvariants` and `BatchEffects`
  prove what every operation keeps and what a whole batch changes; `Datastore` holds the imperative engine, proved equal
  to that specification loop by loop; `Engines`, `History` and `CatalogHistory` prove the claims over whole runs, with
  failed and lost commits and restarts; `BatchWrites` tells what a batch carries out from what was recorded;
  `CommitRefinement` proves where overlay, lookups and committed state agree; `AllocatedIds`, `NewCollections` and
  `NewIndexes` prove which ids a batch allocates and where writes under temporary ids end up; `CatalogWrites` and
  `IndexConfigurations` prove what it leaves in the catalogs; `Acceptance` proves which batches are accepted, and
  `Restarts` what a restart resumes and what it loses; `PlainBatches` gives batches that cannot be refused, and `Limits`
  shows where the promises end.
* **Order-preserving keys and query lowering.** `FloatOrder`, `KeyEncoding` and `KeyOrder` prove that encoded entries
  compare as the values do; `IndexRanges` and `Filters` prove what byte ranges and lowered filters mean.

LMDB is trusted as an ordered map (`Lmdb`): a database is a finite map from bytes to bytes, the DUP_SORT database a
finite set of rows in key-then-value order, a read transaction an immutable snapshot, a write transaction a private view
that is committed wholly or discarded, one writer at a time. Whether a commit succeeds is a parameter of `put`.

Ids and timestamps have the source's widths: `U64`, `U128` and two's-complement `I64`. Strings are byte sequences.

A transaction's result is stated as a predicate on the sequence a cursor yields (`IsDocumentResult`, `IsIndexResult`),
and the cursors are objects whose `Remaining()` shrinks by its head at each call.

Where the code and the written intention differ, the model follows the code:

* `Gt` and `Lte` bounds are not exact when further fields follow the range field; the exact condition and two concrete
  keys are proved in `IndexRanges`.
* The engine's timestamp moves in memory before the commit. If that commit is lost and a batch reuses the timestamp, it
  is never stored; `History.StoredTimestamp` gives the exact condition and `Limits.LostTimestamp` the failing run. After
  any run each version is the last accepted write with its timestamp; that the last write is also what is read holds
  under the exact condition of `History.LastWriteIsNewest`, always in orderly runs, in which the engine restarts only
  while the stored timestamp is the one in memory, and not in `Limits.DisorderlyExample`.
* Counters that a rejected batch has moved wait in memory to be saved, so that a restart gives them up: memory agrees
  with what is stored exactly while no counter waits (`Restarts.RestartIsHarmless`, with the rejected batch of
  `Restarts.RejectedBatchUnsaved`).
* A batch may write under non-negative ids that were never allocated, so freshness of ids covers the catalogs and the
  trie, not the document rows; `AllocatedIds.RowsStayWithin` gives the exact condition and
  `Limits.UnallocatedIdWritten` the failing case.
* A transaction that records entries of one index under two collections sees, through each, only its own, while the
  commit keeps the write under the greater id; `CommitRefinement.CommittedIndexCursor` gives the exact condition and
  `Limits.SharedIndexDiffers` the failing batch.

## Model

| member | source | states |
|---|---|---|
| HeedEncoding.SplitIndexKeySegments | crates/storage/src/implementations/heed/encoding.rs:203-209 | Splitting a value yields full 495-byte segments and a last one that is empty only if it is alone, and joining them gives the value back. |
| HeedEncoding.SegmentationUnique | crates/storage/src/implementations/heed/encoding.rs:203-209 | A value has exactly one segmentation, so it has one place in the trie. |
| HeedEncoding.DocumentKeyRoundTrip | crates/storage/src/implementations/heed/encoding.rs:122-143 | Decoding an encoded document key gives back collection, document and version. |
| HeedEncoding.DocumentKeyOrder | crates/storage/src/implementations/heed/encoding.rs:122-132 | Document keys are equal exactly for equal parts, and sort by collection bit pattern, document, version. |
| HeedEncoding.DocumentValueRoundTrip | crates/storage/src/implementations/heed/encoding.rs:145-160 | A stored value decodes to itself and the tombstone to nothing. |
| HeedEncoding.IndexNodeKeyRoundTrip | crates/storage/src/implementations/heed/encoding.rs:166-186 | Decoding an index node key gives back index, chain and segment, also for an empty segment. |
| HeedEncoding.IndexNodeKeyOnto | crates/storage/src/implementations/heed/encoding.rs:166-186 | Every key of at least 16 bytes decodes, and encodes back to itself. |
| HeedEncoding.IndexNodeKeyPrefix | crates/storage/src/implementations/heed/encoding.rs:188-193 | A row has the prefix of a node exactly if it belongs to that index and chain. |
| HeedEncoding.IndexNodeKeyOrder | crates/storage/src/implementations/heed/encoding.rs:166-172 | Rows of one node sort by their segments. |
| HeedEncoding.CollectionCatalogKeyRoundTrip | crates/storage/src/implementations/heed/encoding.rs:30-45 | Decoding a catalog key gives back collection and version. |
| HeedEncoding.CollectionCatalogKeyOrder | crates/storage/src/implementations/heed/encoding.rs:30-35 | Catalog keys sort by collection bit pattern, then version. |
| HeedEncoding.CollectionCatalogValueRoundTrip | crates/storage/src/implementations/heed/encoding.rs:47-76 | The length-prefixed name separates name and metadata again. |
| HeedEncoding.IndexCatalogKeyRoundTrip | crates/storage/src/implementations/heed/encoding.rs:78-93 | Decoding an index catalog key gives back collection and name. |
| HeedEncoding.IndexCatalogValueRoundTrip | crates/storage/src/implementations/heed/encoding.rs:95-109 | Decoding an index catalog value gives back id and configuration. |
| BigEndian.I64Order | crates/storage/src/implementations/heed/encoding.rs:18-20 | Big-endian signed ids compare as bit patterns: byte order is id order only among non-negative ids. |
| IndexTrie.LocateInjective | crates/storage/README.md:39-74 | Different values of an index, and different indexes, never share a leaf place. |
| IndexTrie.LeafIsPosting | crates/storage/README.md:39-74 | Every leaf row is reachable from the root of its index, at the place of exactly one posting. |
| IndexTrie.AddEdge | crates/storage/src/implementations/heed/datastore.rs:452-468 | A new edge to an unused, larger chain id changes no posting and keeps the forest, with the child as the only empty node. |
| IndexTrie.RemoveEdge | crates/storage/src/implementations/heed/datastore.rs:440-447 | Cutting the edge to an empty node changes no posting and moves the possibly empty node to the parent. |
| TrieStorage.KeysFit | crates/storage/src/implementations/heed/encoding.rs:15-16 | However long the values are, every edge key is exactly 511 bytes and every leaf key at most that. |
| TrieStorage.LeafScan | crates/storage/src/implementations/heed/datastore.rs:476-479 | The prefix scan of a node finds a leaf row exactly if the node has a leaf. |
| TrieStorage.EdgeScan | crates/storage/src/implementations/heed/datastore.rs:481-481 | The prefix scan of a node finds an edge row exactly if the node has an edge. |
| TrieStorage.AddStoredEdge | crates/storage/src/implementations/heed/datastore.rs:464-466 | The stored edge row is one new edge of the trie and nothing else. |
| TrieStorage.RemoveStoredLeaf | crates/storage/src/implementations/heed/datastore.rs:434-438 | Deleting one duplicate removes one posting of one index and no other. |
| IndexUpdates.EdgeStepKeeps | crates/storage/src/implementations/heed/datastore.rs:452-468 | Finding or creating an edge changes no posting, keeps every stored edge, and leads to a child of the parent; a malformed edge row is an error. |
| IndexUpdates.PathStepsKeep | crates/storage/src/implementations/heed/datastore.rs:396-398 | Following or building a whole path changes no posting and ends where a search for it ends. |
| IndexUpdates.PutEntryRefines | crates/storage/src/implementations/heed/datastore.rs:386-407 | For a value of any length, inserting adds exactly one (index, value, document) and keeps the trie: 495-byte edges, one parent each, larger children, no empty child. It fails only when the chain ids are exhausted. |
| IndexUpdates.PrunedKeeps | crates/storage/src/implementations/heed/datastore.rs:440-447 | Pruning upwards changes no posting and leaves no empty node. |
| IndexUpdates.MissingPathHasNoPosting | crates/storage/src/implementations/heed/datastore.rs:420-424 | If an edge of the path is missing, the entry was not stored, so returning early removes nothing wrongly. |
| IndexUpdates.DeleteEntryRefines | crates/storage/src/implementations/heed/datastore.rs:409-450 | Deleting removes exactly one (index, value, document), present or not, and keeps the trie without empty nodes. |
| IndexTraversal.WalkMembers | crates/storage/src/implementations/heed/cursors.rs:302-319 | The merged depth-first walk of a tree meets the leaves of the node and of every subtree, each under its path, and nothing else. |
| IndexTraversal.WalkSorted | crates/storage/src/implementations/heed/cursors.rs:479-491 | The choice between the next leaf and the next edge yields strictly ordered positions in both directions; full-length edge segments are what makes the descent sound. |
| IndexSnapshot.TraversalIsSortedIndex | crates/storage/src/implementations/heed/cursors.rs:302-319 | For every stored trie and direction, the traversal is sorted and meets a position exactly if it is stored under the index. |
| IndexSnapshot.TraversalReverses | crates/storage/src/implementations/heed/cursors.rs:302-319 | The reverse traversal is the forward traversal reversed. |
| IndexCursors.StepKeepsOutput | crates/storage/src/implementations/heed/cursors.rs:302-319 | Every action, returning a leaf included, leaves strictly fewer unconsumed rows below the stack; it returns the head of what is still to come or leaves that alone. |
| IndexCursors.ReadLeaf | crates/storage/src/implementations/heed/cursors.rs:493-503 | Reading a leaf row takes the first remaining leaf of the node. |
| IndexCursors.ReadEdge | crates/storage/src/implementations/heed/cursors.rs:505-521 | Reading an edge row takes the first remaining child of the node. |
| IndexCursors.NextAction | crates/storage/src/implementations/heed/cursors.rs:439-477 | A frame takes the leaf or edge that comes first, or reports that both are used up. |
| IndexCursors.IndexCursor.constructor | crates/storage/src/implementations/heed/cursors.rs:261-287 | A new cursor has the whole traversal ahead, from the requested start. |
| IndexCursors.IndexCursor.StepTop | crates/storage/src/implementations/heed/cursors.rs:302-319 | The top frame acts without losing or reordering what is still to come. |
| IndexCursors.IndexCursor.NextUnfiltered | crates/storage/src/implementations/heed/cursors.rs:302-319 | Each call returns the next position of the traversal and leaves the rest; it terminates by the rows left below the stack. |
| IndexCursors.IndexCursor.NextCandidate | crates/storage/src/implementations/heed/cursors.rs:321-344 | Each call returns the next stored position on the requested side of the start. |
| CursorStarts.PositionStart | crates/storage/src/implementations/heed/cursors.rs:331-344 | A start on an index cursor asks for the positions equal to it or beyond it, or only beyond it, in the direction of the cursor. |
| Documents.StoredIsVisible | crates/storage/src/implementations/heed/transaction.rs:360-378 | The lookup by greatest key finds the newest version at or below the timestamp, or nothing if that is a tombstone or absent, without error. |
| DocumentCursors.BoundsSelect | crates/storage/src/implementations/heed/transaction.rs:954-988 | The key bounds select exactly the documents of the collection on the requested side of the start. |
| DocumentCursors.FoldMeaning | crates/storage/src/implementations/heed/cursors.rs:88-119 | Folding runs of versions yields, in order, the documents whose newest version is live, forwards and in reverse. |
| DocumentCursors.DocumentCursor.NextPhysical | crates/storage/src/implementations/heed/cursors.rs:62-82 | The next stored version at or below the timestamp. |
| DocumentCursors.DocumentCursor.ReadRun | crates/storage/src/implementations/heed/cursors.rs:98-110 | The inner loop reads the remaining versions of one document and chooses the newest, forwards and in reverse. |
| DocumentCursors.DocumentCursor.Next | crates/storage/src/implementations/heed/cursors.rs:88-119 | Each call returns the next entry of the fold and leaves the rest. |
| DocumentCursors.ScanIsSortedVisible | crates/storage/src/implementations/heed/cursors.rs:62-120 | For any timestamp, start and direction the scan lists, in id order and once each, exactly the documents that the point lookup finds, with the same values. |
| CursorStarts.IdStart | crates/storage/src/implementations/heed/transaction.rs:597-609 | A start on a document cursor asks for ids at least, above, at most or below it. |
| WriteSets.WriteSet.Put | crates/storage/src/write_set.rs:43-47 | Records one document put over the writes so far. |
| WriteSets.WriteSet.PutMany | crates/storage/src/write_set.rs:49-57 | Puts each listed document with the value it is last listed with; no other document, collection, index entry or metadata changes, and the collection is touched even by an empty list. |
| WriteSets.WriteSet.Delete | crates/storage/src/write_set.rs:59-63 | Records one document deletion over the writes so far. |
| WriteSets.WriteSet.DeleteMany | crates/storage/src/write_set.rs:65-73 | Deletes exactly the listed documents and changes no other write. |
| WriteSets.WriteSet.PutIndexEntry | crates/storage/src/write_set.rs:75-83 | Records one index put. |
| WriteSets.WriteSet.DeleteIndexEntry | crates/storage/src/write_set.rs:105-119 | Records one index deletion. |
| WriteSets.WriteSet.WriteIndexEntries | crates/storage/src/write_set.rs:85-139 | Records the listed index writes in order. |
| WriteSets.WriteSet.NewCollection | crates/storage/src/write_set.rs:141-143 | Records a name for a temporary collection id. |
| WriteSets.WriteSet.NewIndex | crates/storage/src/write_set.rs:145-156 | Records an index under a collection, keeping the others. |
| WriteSets.WriteSet.UpdateCollectionMetadata | crates/storage/src/write_set.rs:158-160 | Records the metadata of a collection and keeps its other writes. |
| WriteSets.LastDocumentWriteWins | crates/storage/src/write_set.rs:49-73 | A bulk write decides each listed document by its last occurrence and leaves every other write alone. |
| WriteSets.IndexWritesWin | crates/storage/src/write_set.rs:85-139 | A bulk index write decides exactly the listed positions. |
| Overlays.VisibleDocumentIsSeen | crates/storage/src/implementations/heed/transaction.rs:338-358 | A read is the recorded write if there is one, else the newest visible version; it never fails on sound rows. |
| Overlays.OverlayDocumentEntries | crates/storage/src/implementations/heed/transaction.rs:406-440 | The overlay holds, in cursor order, exactly the recorded puts on the requested side of the start, and every recorded id counts as touched. |
| Overlays.OverlayIndexEntries | crates/storage/src/implementations/heed/transaction.rs:453-497 | The overlay holds, in cursor order, exactly the recorded index puts within the start whose document is live under the overlay. |
| Sequences.MergeCorrect | crates/storage/src/implementations/heed/transaction.rs:947-952 | Merging two sorted inputs without ties gives all their elements, sorted. |
| Transactions.MergedDocumentCursor.NextBase | crates/storage/src/implementations/heed/transaction.rs:659-673 | The next base document that the transaction has not written. |
| Transactions.MergedDocumentCursor.Next | crates/storage/src/implementations/heed/transaction.rs:678-698 | Each call returns the next entry of the merge and leaves the rest. |
| Transactions.MergedIndexCursor.NextBase | crates/storage/src/implementations/heed/transaction.rs:741-766 | The next base position that is not recorded and whose document is live under the overlay. |
| Transactions.MergedIndexCursor.Next | crates/storage/src/implementations/heed/transaction.rs:771-796 | Each call returns the next entry of the merge and leaves the rest. |
| Transactions.MergedDocuments | crates/storage/src/implementations/heed/transaction.rs:675-698 | The merge of untouched documents and overlay is exactly the documents that reads see, sorted, each once. |
| Transactions.MergedPositions | crates/storage/src/implementations/heed/transaction.rs:768-796 | The merge is exactly (stored plus recorded puts minus recorded deletes) with live documents, sorted, each with its overlay value. |
| Transactions.Transaction.Collection | crates/storage/src/implementations/heed/transaction.rs:75-110 | A collection recorded under the name answers first, the least temporary id if several are; otherwise the names and the catalog at the timestamp do. |
| Transactions.Transaction.Get | crates/storage/src/implementations/heed/transaction.rs:112-125 | Returns what the transaction sees of the document. |
| Transactions.Transaction.GetCursor | crates/storage/src/implementations/heed/transaction.rs:127-140 | The document cursor yields, sorted and once each, exactly the (id, value) pairs that `get` returns on the requested side of the start. |
| Transactions.Transaction.GetIndexCursor | crates/storage/src/implementations/heed/transaction.rs:142-181 | The index cursor yields, sorted and once each, exactly the seen positions with live documents on the requested side of the start. |
| CursorStarts.DocumentsFrom | crates/storage/src/implementations/heed/transaction.rs:127-140 | A document result is strictly ascending or descending in the ids and holds exactly the seen documents with ids at least, above, at most or below the start. |
| CursorStarts.DocumentsSplit | crates/storage/src/implementations/heed/transaction.rs:954-988 | The unbounded listing is the reverse one that excludes a document, met backwards, followed by the forward one that includes it, and the other way round. |
| CursorStarts.EntriesFrom | crates/storage/src/implementations/heed/transaction.rs:142-181 | An index result is strictly ordered by value and then document, and holds exactly the seen positions with live documents at or beyond, or only beyond, the start. |
| CursorStarts.EntriesSplit | crates/storage/src/implementations/heed/transaction.rs:611-623 | The unbounded index listing splits at any position as the document listing does at any id. |
| Transactions.Transaction.IntoWriteSet | crates/storage/src/implementations/heed/transaction.rs:332-335 | The recorded writes become the batch, stamped with the commit timestamp. |
| Transactions.DocumentResultUnique | crates/storage/src/implementations/heed/transaction.rs:675-698 | What a transaction sees determines the result of its document cursor. |
| Transactions.IndexResultUnique | crates/storage/src/implementations/heed/transaction.rs:768-796 | The results of two index cursors with the same documents agree exactly if the transactions see the same positions wherever a live document would be listed. |
| Catalogs.CollectionByIdIsNewest | crates/storage/src/implementations/heed/datastore.rs:301-321 | The lookup by id finds the newest catalog row at or below the version, or nothing if there is none, without error. |
| Catalogs.PutCatalogVersion | crates/storage/src/implementations/heed/datastore.rs:323-335 | A further version of a named collection keeps names and catalog in agreement. |
| Catalogs.PutVersionIsRead | crates/storage/src/implementations/heed/datastore.rs:323-335 | A version no older than the stored ones is what later lookups return. |
| Catalogs.NewName | crates/storage/src/implementations/heed/datastore.rs:278-287 | A new name with an id above the bound disturbs no row, and names and catalog keep agreeing one to one. |
| Catalogs.CatalogNames | crates/storage/src/implementations/heed/cursors.rs:186-190 | A lookup of the id a name leads to never returns another name. |
| Catalogs.NewIndexRow | crates/storage/src/implementations/heed/datastore.rs:350-353 | A new index row gets an id that no other row uses. |
| CatalogCursors.ReadNameRowSucceeds | crates/storage/src/implementations/heed/cursors.rs:173-196 | In every sound state the name-mismatch and decoding errors of the cursor are unreachable. |
| CatalogCursors.CollectionCatalogCursor.Next | crates/storage/src/implementations/heed/cursors.rs:173-196 | Each call returns the next visible collection, never an error. |
| CatalogCursors.CursorListsVisibleCollections | crates/storage/src/implementations/heed/cursors.rs:170-197 | For any start and direction the cursor lists, in name order and once each, exactly the collections with a catalog version at or below the timestamp. |
| CursorStarts.NameStart | crates/storage/src/implementations/heed/transaction.rs:625-635 | A start on a catalog cursor asks for names at least, above, at most or below it in byte order. |
| CursorStarts.CollectionsFrom | crates/storage/src/implementations/heed/transaction.rs:990-1006 | The catalog listing is strictly ordered by name and holds exactly the visible collections at or beyond, or only beyond, the start. |
| CursorStarts.CollectionsSplit | crates/storage/src/implementations/heed/transaction.rs:990-1006 | The unbounded catalog listing splits at any name. |
| BatchInvariants.CreateExistingCollection | crates/storage/src/implementations/heed/datastore.rs:271-276 | An existing name leads to its positive id and keeps the tables sound. |
| BatchInvariants.CreateNewCollection | crates/storage/src/implementations/heed/datastore.rs:278-287 | A new name gets a positive id that no catalog row uses, and the tables stay sound. |
| BatchInvariants.CreatedCollectionRow | crates/storage/src/implementations/heed/datastore.rs:264-288 | Creating a collection writes one catalog version: the given metadata, empty for a new collection without any; an existing one without new metadata is left alone. |
| BatchInvariants.CreateIndexKeeps | crates/storage/src/implementations/heed/datastore.rs:337-354 | An existing index changes nothing; a new one gets its configuration and an id that no index row uses. |
| BatchInvariants.UpdateMetadataKeeps | crates/storage/src/implementations/heed/datastore.rs:356-370 | Updating metadata succeeds exactly for a collection with some version, and keeps its name. |
| BatchInvariants.PutIndexEntryKeeps | crates/storage/src/implementations/heed/datastore.rs:386-407 | Adds exactly one posting and keeps tables and counters sound. |
| BatchInvariants.DeleteIndexEntryKeeps | crates/storage/src/implementations/heed/datastore.rs:409-450 | Removes exactly one posting and keeps tables and counters sound. |
| BatchInvariants.StepKeeps | crates/storage/src/implementations/heed/datastore.rs:497-560 | Every operation of a batch keeps the catalogs, the trie, the document rows and the counter bounds, or stops the batch. |
| BatchInvariants.RunKeeps | crates/storage/src/implementations/heed/datastore.rs:493-567 | So does every batch, of any shape, up to the point where it stops. |
| BatchEffects.RunDocuments | crates/storage/src/implementations/heed/datastore.rs:522-535 | After a batch a document version row is as before, except that the last write to the document is its version at the batch timestamp. |
| BatchEffects.RunPostings | crates/storage/src/implementations/heed/datastore.rs:537-555 | After a batch an entry is stored exactly if its last write was a put, or it had none and was stored before. |
| BatchEffects.RunVacuum | crates/storage/src/implementations/heed/datastore.rs:532-534 | After a batch a document is in the vacuum list exactly if it was there or the batch writes it. |
| HeedEncoding.VacuumTargetPrefix | crates/storage/src/implementations/heed/encoding.rs:162-164 | The vacuum key of a document is the prefix of the keys of its versions and of no other keys. |
| BatchEffects.RunCatalog | crates/storage/src/implementations/heed/datastore.rs:323-335 | A batch writes no catalog version but those at its own timestamp. |
| BatchEffects.RunNames | crates/storage/src/implementations/heed/datastore.rs:263-288 | No batch changes the id of a name. |
| BatchEffects.StepTables | crates/storage/src/implementations/heed/datastore.rs:493-560 | Each operation changes only its own tables. |
| Datastore.StorageEngine.LoadCounters | crates/storage/src/implementations/heed/datastore.rs:130-183 | Loads the stored timestamps and counters, zero if absent, and clears the changed flags; a malformed one, the visible timestamp included, is an error. |
| Datastore.StorageEngine.SaveCounters | crates/storage/src/implementations/heed/datastore.rs:185-217 | Writes exactly the counters that changed and clears their flags. |
| Datastore.StorageEngine.AllocateCollectionId | crates/storage/src/implementations/heed/datastore.rs:219-224 | The next collection id, marked for saving. |
| Datastore.StorageEngine.AllocateIndexId | crates/storage/src/implementations/heed/datastore.rs:226-230 | The next index id, marked for saving. |
| Datastore.StorageEngine.AllocateChainId | crates/storage/src/implementations/heed/datastore.rs:232-237 | The next chain id, marked for saving. |
| Datastore.StorageEngine.SetTs | crates/storage/src/implementations/heed/datastore.rs:239-261 | Refuses a lower timestamp, does nothing for an equal one, else moves memory and the written metadata. |
| Datastore.StorageEngine.PutCollectionCatalogEntry | crates/storage/src/implementations/heed/datastore.rs:323-335 | Writes one catalog version and nothing else. |
| Datastore.StorageEngine.CreateCollection | crates/storage/src/implementations/heed/datastore.rs:264-288 | Computes the specified new view, memory and id. |
| Datastore.StorageEngine.CreateIndex | crates/storage/src/implementations/heed/datastore.rs:337-354 | Computes the specified new view, memory and id. |
| Datastore.StorageEngine.UpdateCollectionMetadata | crates/storage/src/implementations/heed/datastore.rs:356-370 | Computes the specified new view, or fails and changes nothing. |
| Datastore.StorageEngine.FindOrCreateIndexEdge | crates/storage/src/implementations/heed/datastore.rs:452-468 | Follows a stored edge, fails on a malformed one, or writes one to a new chain id, for any edge table. |
| Datastore.StorageEngine.WalkOrCreatePath | crates/storage/src/implementations/heed/datastore.rs:393-398 | The loop over the full segments reaches the chain of the last one, or stops at an error. |
| Datastore.StorageEngine.PutIndexEntry | crates/storage/src/implementations/heed/datastore.rs:386-407 | The insertion whose refinement is proved above. |
| Datastore.StorageEngine.IndexNodeHasEntries | crates/storage/src/implementations/heed/datastore.rs:470-482 | Whether the node has a leaf or an edge. |
| Datastore.StorageEngine.WalkPath | crates/storage/src/implementations/heed/datastore.rs:420-432 | The edges on the way to the leaf, nothing if one is missing, an error if one is malformed. |
| Datastore.StorageEngine.PrunePath | crates/storage/src/implementations/heed/datastore.rs:440-447 | Cuts edges to empty nodes from the end of the path up to the first node with entries. |
| Datastore.StorageEngine.DeleteIndexEntry | crates/storage/src/implementations/heed/datastore.rs:409-450 | The deletion whose refinement is proved above. |
| Datastore.StorageEngine.MakeCollections | crates/storage/src/implementations/heed/datastore.rs:495-501 | The loop over new collections carries out their operations in id order and stops at an error. |
| Datastore.StorageEngine.MakeAllIndexes | crates/storage/src/implementations/heed/datastore.rs:503-512 | The loops over new indexes carry out their operations in id order and stop at an error. |
| Datastore.StorageEngine.PutDocuments | crates/storage/src/implementations/heed/datastore.rs:522-535 | The loop over documents writes one version and one vacuum row each. |
| Datastore.StorageEngine.PutIndexes | crates/storage/src/implementations/heed/datastore.rs:537-555 | The loops over index entries carry out their operations in order and stop at an error. |
| Datastore.StorageEngine.PutCollections | crates/storage/src/implementations/heed/datastore.rs:514-560 | The loop over collections carries out all their operations and stops at an error. |
| Datastore.StorageEngine.Transact | crates/storage/src/implementations/heed/datastore.rs:493-567 | The nested loops carry out exactly the operations of the batch, and nothing stored changes if they fail. |
| Datastore.StorageEngine.Finish | crates/storage/src/implementations/heed/datastore.rs:562-564 | Sets the timestamp, saves the counters and commits: all of the view becomes stored, or none of it while memory keeps what it reached. |
| Datastore.StorageEngine.Put | crates/storage/src/implementations/heed/datastore.rs:493-567 | A batch takes the engine to the state of the specification, with its result, and keeps the engine sound. |
| Datastore.StorageEngine.AdvanceTs | crates/storage/src/implementations/heed/datastore.rs:573-578 | Moves the timestamp in a transaction of its own. |
| Datastore.StorageEngine.SetVisibleTs | crates/storage/src/implementations/heed/datastore.rs:584-591 | Stores the visible timestamp in memory before the commit, in either direction, and keeps the engine sound. |
| Datastore.StorageEngine.BeginRead | crates/storage/src/implementations/heed/datastore.rs:488-491 | A read transaction over an immutable snapshot of a sound engine. |
| Datastore.Open | crates/storage/src/implementations/heed/datastore.rs:86-128 | Opening succeeds exactly if all five metadata rows decode, and starts from the stored ones. |
| Restarts.OpenMeaning | crates/storage/src/implementations/heed/datastore.rs:130-183 | Opening succeeds exactly if each of the five rows is absent or eight bytes, and resumes both timestamps and all three counters with nothing left to save. |
| Restarts.StoredRow | crates/storage/src/implementations/heed/datastore.rs:130-183 | A metadata row is absent, and counts as zero, or is read as eight big-endian bytes. |
| Restarts.PutTracked | crates/storage/src/implementations/heed/datastore.rs:562-564 | An accepted batch leaves no counter to save; a rejected one leaves what is stored as it was. |
| Restarts.RestartIsHarmless | crates/storage/src/implementations/heed/datastore.rs:130-217 | Over every run that loses no commit, a restart changes the engine exactly if some counter waits to be saved. |
| Restarts.AgreementKept | crates/storage/src/implementations/heed/datastore.rs:130-217 | If memory agrees with what is stored, it does after every event that loses no commit and is no rejected batch. |
| Restarts.RejectedBatchUnsaved | crates/storage/src/implementations/heed/datastore.rs:493-567 | A concrete rejected batch after which a restart does change the engine: the id it allocated was never saved. |
| Restarts.RestartUndoesRejected | crates/storage/src/implementations/heed/datastore.rs:493-567 | A restart after a rejected or lost batch gives back the engine from before it. |
| Engines.SavedCounters | crates/storage/src/implementations/heed/datastore.rs:185-217 | After saving, the stored counters are what bounded the transaction, and no other metadata changed. |
| Engines.PutKeeps | crates/storage/src/implementations/heed/datastore.rs:493-567 | Any batch, accepted, rejected or lost at commit, keeps the committed tables sound, within the stored counters, and memory at or ahead of them. |
| Engines.AdvanceTsMeaning | crates/storage/src/implementations/heed/datastore.rs:573-578 | Advancing the timestamp fails exactly for a smaller one or a failing commit; else memory holds it, and so does its row unless memory held it before. |
| Engines.AdvancedTs | crates/storage/src/implementations/heed/datastore.rs:573-578 | Where memory agrees with what is stored, both hold the timestamp after success. |
| Acceptance.PutOutcome | crates/storage/src/implementations/heed/datastore.rs:493-567 | While ids last, a batch is accepted exactly if it refers only to known collections, indexes and collections with a version, its timestamp is not below the engine timestamp, and its commit succeeds; otherwise the error tells which of these fails first. All of it is told before the call. |
| Acceptance.StepOutcome | crates/storage/src/implementations/heed/datastore.rs:497-560 | Each operation is carried out exactly if what it refers to is known, or stops at exhausted ids. |
| Engines.SetVisibleTsKeeps | crates/storage/src/implementations/heed/datastore.rs:584-591 | Showing another timestamp leaves every table, the counters and the timestamp alone. |
| Engines.ReplayKeeps | crates/storage/src/implementations/heed/datastore.rs:130-237 | So does every run of puts, lost commits, moves of both timestamps and restarts. |
| Engines.FreshIds | crates/storage/src/implementations/heed/datastore.rs:219-237 | In every reachable state the next collection, index and chain id is in use nowhere in the catalogs or the trie. |
| History.PutReads | crates/storage/src/implementations/heed/datastore.rs:493-567 | An accepted batch decides the reads at or after its timestamp of the documents it writes, where no stored version shadows it, and no other read, whatever the engine timestamp is. |
| History.LatestPutReads | crates/storage/src/implementations/heed/datastore.rs:493-567 | A batch at or after every stored version is read from its timestamp on. |
| History.PutIsNewest | crates/storage/src/implementations/heed/datastore.rs:522-535 | The version that an accepted batch writes is the newest at a later timestamp exactly if no stored version of the document lies between. |
| History.RowsAreLastWrites | crates/storage/src/implementations/heed/datastore.rs:493-567 | After any run whatever, the version of a document at a timestamp is the last accepted write with that timestamp. |
| History.LastWriteIsNewest | crates/storage/src/implementations/heed/datastore.rs:493-567 | After any run, the last write up to a timestamp is the newest version there, and what is read, exactly if nothing with a greater timestamp up to it was written. |
| History.ReplayVersionsUpTo | crates/storage/src/implementations/heed/datastore.rs:239-261 | In an orderly run no stored version is ever ahead of the timestamp in memory. |
| History.ReadsAreLastWrites | crates/storage/src/implementations/heed/datastore.rs:239-261 | So over every orderly run a document reads at any timestamp as the last write that accepted batches made to it up to that timestamp. |
| History.RejectedPut | crates/storage/src/implementations/heed/datastore.rs:242-246 | A rejected batch, or one lost at commit, changes nothing stored. |
| History.StableDocuments | crates/storage/src/implementations/heed/datastore.rs:493-567 | Over every run, batches with later timestamps change no document read. |
| CatalogHistory.StableCatalog | crates/storage/src/implementations/heed/datastore.rs:493-567 | Nor any catalog lookup by id. |
| CatalogHistory.StableVisible | crates/storage/src/implementations/heed/datastore.rs:493-567 | Nor which collections are visible at a timestamp, under which name and metadata: names created later stay invisible. |
| CatalogHistory.LookupMeaning | crates/storage/src/implementations/heed/transaction.rs:75-110 | A lookup by name finds exactly the visible collection of that name. |
| CatalogHistory.StableLookup | crates/storage/src/implementations/heed/transaction.rs:75-110 | Over every run, a name read at a timestamp leads to the same collection, or to none, whatever later batches do. |
| CatalogHistory.StableListing | crates/storage/src/implementations/heed/cursors.rs:170-197 | Over every run, the catalog cursor lists the same collections at a timestamp, from any start in any direction. |
| CatalogHistory.PutNames | crates/storage/src/implementations/heed/datastore.rs:372-384 | No batch, accepted or not, changes the id of a name. |
| CatalogWrites.RunMetadata | crates/storage/src/implementations/heed/datastore.rs:323-370 | After a batch a catalog version is as before, except that the last metadata stored for a collection is its version at the batch timestamp. |
| CatalogWrites.BatchMetadata | crates/storage/src/implementations/heed/datastore.rs:557-559 | What a batch stores for a collection is the metadata recorded last among the collections that stand for it, else empty metadata if the batch creates it. |
| CatalogWrites.PutMetadata | crates/storage/src/implementations/heed/datastore.rs:301-321 | After an accepted batch a lookup by id finds that metadata, from the batch timestamp on and where no stored version lies between, and otherwise what it found before. |
| CatalogWrites.BatchNames | crates/storage/src/implementations/heed/datastore.rs:263-288 | After a batch a name leads to the id it had, or to the id that its temporary id stands for, and no other name is stored. |
| CatalogWrites.PutListing | crates/storage/src/implementations/heed/cursors.rs:170-197 | After an accepted batch the catalog cursor lists, from any start in any direction, exactly the collections that the recorded names and metadata say. |
| IndexConfigurations.PutIndexConfig | crates/storage/src/implementations/heed/datastore.rs:337-354 | After an accepted batch an index has the configuration it had, or the first one that the batch records for its collection and name. |
| History.StoredTimestamp | crates/storage/src/implementations/heed/datastore.rs:248-258 | After an accepted batch the stored timestamp is the batch timestamp exactly if the batch moved the one in memory or found it stored. |
| History.InfallibleIsOrderly | crates/storage/src/implementations/heed/datastore.rs:248-258 | If no commit is lost, the stored timestamp is always the one in memory, so every run is orderly. |
| Limits.LostTimestamp | crates/storage/src/implementations/heed/datastore.rs:248-258 | A timestamp whose commit is lost and that a batch reuses is not stored: after a restart the engine is behind a stored version. |
| Limits.DisorderlyRead | crates/storage/src/implementations/heed/datastore.rs:248-258 | After such a restart a batch with an earlier timestamp is accepted: the last write of the run is its write, and what is read is the earlier one. |
| Limits.DisorderlyExample | crates/storage/src/implementations/heed/datastore.rs:248-258 | Such a run of the very first engine, with its read and its last write. |
| Limits.UnallocatedIdWritten | crates/storage/src/implementations/heed/datastore.rs:605-616 | A batch may write under a collection id not yet allocated, and that id is then allocated with documents already stored under it. |
| AllocatedIds.BatchMemory | crates/storage/src/implementations/heed/datastore.rs:497-512 | The counters after a batch: one more per name and per index key that no catalog row had. |
| AllocatedIds.CountersStored | crates/storage/src/implementations/heed/datastore.rs:185-217 | The counters stored with an accepted batch are the ones told from the engine and the batch before the call, and never smaller than before. |
| AllocatedIds.TemporariesCovered | crates/storage/src/implementations/heed/datastore.rs:605-628 | Every temporary id stands for an id that the counters stored with the batch cover. |
| AllocatedIds.RowsStayWithin | crates/storage/src/implementations/heed/datastore.rs:605-628 | Documents and entries stay under ids that the stored counters cover exactly if the batch, as recorded, writes under none beyond the counters told before the call. |
| BatchWrites.BatchDocument | crates/storage/src/implementations/heed/datastore.rs:514-535 | A batch writes to a document what the last collection, in id order, that stands for its collection has recorded. |
| BatchWrites.BatchEntry | crates/storage/src/implementations/heed/datastore.rs:537-555 | A batch writes to an index entry what the last collection, and in it the last index, that stands for its index has recorded. |
| BatchWrites.CommittedWriteIs | crates/storage/src/implementations/heed/datastore.rs:514-555 | For stored ids that is the write of the recording collection with the greatest id. |
| PlainBatches.PlainAccepted | crates/storage/src/implementations/heed/datastore.rs:493-567 | A batch over stored ids with short index values and a timestamp that is not too low is accepted and allocates nothing. |
| CommitRefinement.CommittedGet | crates/storage/src/implementations/heed/transaction.rs:338-358 | `get` under the overlay is `get` of a fresh transaction after the commit, at the commit timestamp. |
| CommitRefinement.CommittedPosition | crates/storage/src/implementations/heed/transaction.rs:453-497 | A position is seen under the overlay as it is stored after the commit exactly if the write under the greatest recording id has the effect of the own write. |
| CommitRefinement.CommittedDocumentCursor | crates/storage/src/implementations/heed/transaction.rs:127-140 | For every start and direction the transaction and a fresh one after its commit list the same documents. |
| CommitRefinement.CommittedIndexCursor | crates/storage/src/implementations/heed/transaction.rs:142-181 | For every start and direction they list the same index entries exactly if, wherever a live document would be listed, the write under the greatest recording id has the effect of the own write. |
| CommitRefinement.OwnedIndexAgrees | crates/storage/src/implementations/heed/transaction.rs:142-181 | In particular they list the same if only the collection itself writes to the index. |
| CommitRefinement.ForeignWriteUnseen | crates/storage/src/implementations/heed/transaction.rs:453-463 | An entry recorded last under another collection is committed whatever this one recorded: the two agree exactly where that write changes nothing of what is seen. |
| Limits.SharedIndexDiffers | crates/storage/src/implementations/heed/transaction.rs:142-181 | A concrete accepted batch, one collection inserting and another deleting the same entry, after which the index cursor lists nothing where the transaction listed the entry. |
| Limits.RefinementApplies | crates/storage/src/implementations/heed/transaction.rs:332-335 | The assumptions of these results can be met, from the first batch on. |
| NewCollections.MakeCollectionsResolve | crates/storage/src/implementations/heed/datastore.rs:497-501 | After the first loop every temporary collection id stands for the id that its name leads to. |
| NewCollections.NewCollectionDocument | crates/storage/src/implementations/heed/datastore.rs:605-616 | A document written under a temporary id is read, after the commit, under the id that the name of the new collection leads to, unless a later collection that stands for the same id writes it. |
| NewIndexes.NewIndexResolves | crates/storage/src/implementations/heed/datastore.rs:503-512 | After an accepted batch each temporary index id stands for the id in the catalog row of its collection and name. |
| NewIndexes.NewIndexEntry | crates/storage/src/implementations/heed/datastore.rs:618-628 | An entry written under a temporary index id is, after the commit, stored or deleted under the id in the catalog row of the index, unless a later write can stand for the same index. |
| FloatOrder.BitOperations | crates/database/src/encoding.rs:98-102 | Computed bit by bit, the exclusive-or with the sign bit, the complement and the test of the sign bit are the arithmetic forms of the model. |
| FloatOrder.OrderedBitsOrder | crates/database/src/encoding.rs:84-104 | The float code is strictly monotone in the numeric value over finite values and infinities, one code for both zeros, one for all NaNs above everything. |
| KeyEncoding.EncodeEscaped | crates/database/src/encoding.rs:124-133 | Appends the escaped bytes and the terminator. |
| KeyEncoding.EncodeInt | crates/database/src/encoding.rs:79-83 | Appends the tag and the sign-flipped integer. |
| KeyEncoding.EncodeFloat | crates/database/src/encoding.rs:84-104 | Appends the tag and the ordered bits of the float. |
| KeyEncoding.EncodeValue | crates/database/src/encoding.rs:74-122 | Appends the field of a scalar; an array or document is refused and appends nothing. |
| KeyEncoding.EncodeEntry | crates/database/src/encoding.rs:62-72 | Concatenates the fields, or fails exactly if one is an array or document. |
| KeyOrder.EscapedOrder | crates/database/src/encoding.rs:124-133 | Escaped strings compare as the strings do, and none is a prefix of another. |
| KeyOrder.FieldOrder | crates/database/src/encoding.rs:74-122 | Encoded fields compare as the fields do, Undefined < Null < Int < Float < Bool < String < Bytes, and are equal exactly for equal fields. |
| KeyOrder.TypesOrder | crates/database/src/encoding.rs:74-122 | The bytes of fields of different types sort as Undefined, Null, Int, Float, Bool, String, Bytes. |
| KeyOrder.ValuesOrder | crates/database/src/encoding.rs:74-122 | Within a type the bytes sort as the values: integers, floats as numbers, false before true, strings and bytes bytewise. |
| KeyOrder.FieldPrefixFree | crates/database/src/encoding.rs:74-122 | No encoded field is a proper prefix of another. |
| KeyOrder.EntryOrder | crates/database/src/encoding.rs:62-72 | Encoded entries compare as their fields do lexicographically, with equal bytes exactly for equal entries. |
| KeyOrder.EntryPrefix | crates/database/src/encoding.rs:62-72 | One encoded entry is a prefix of another exactly if its fields are the leading fields of the other, so concatenation decodes uniquely. |
| IndexRanges.PrefixSuccessor | crates/database/src/query/builder.rs:583-594 | Pops trailing 0xFF bytes and increments the last remaining one. |
| IndexRanges.PrefixIsRange | crates/database/src/query/builder.rs:579-594 | A key starts with p exactly if p <= key and key is below the successor, if there is one. |
| IndexRanges.SuccessorIsLeast | crates/database/src/query/builder.rs:579-594 | The successor is the least key above all extensions of p. |
| IndexRanges.NoSuccessorNoBound | crates/database/src/query/builder.rs:579-594 | Where there is no successor, no key lies above all extensions of p. |
| IndexRanges.PrefixHasSuccessor | crates/database/src/query/builder.rs:529-577 | A non-empty encoded equality prefix always has a successor. |
| IndexRanges.BuildWithIndex | crates/database/src/query/builder.rs:507-577 | Fails exactly if an operand is not scalar; else gives the index name, the two key bounds, and for each bound the names of the fields its bytes hold: the equality fields in order, then the range field, or none at an open end. |
| IndexRanges.RangeMeaning | crates/database/src/query/builder.rs:507-577 | For any arity, a key lies in the range exactly if its leading fields equal the eq values one by one and it passes both bounds as bytes apply them. |
| IndexRanges.RangeExactness | crates/database/src/query/builder.rs:543-571 | The range agrees with the filter exactly on the keys that do not sit on the operand of Gt or Lte with fields to follow. |
| IndexRanges.RangeExact | crates/database/src/query/builder.rs:543-571 | Gte, Lt and absent bounds are exact for every arity, Gt and Lte when the range field is last. |
| IndexRanges.RangesPartition | crates/database/src/query/builder.rs:543-571 | Gte and Lt of one operand cut the keys of the equalities in two, and so do Gt and Lte, whatever fields follow; the operand is on the side of Gte. |
| IndexRanges.GtKeepsOperandWithTrailingField | crates/database/src/query/builder.rs:549-551 | A concrete key equal to a Gt operand that the range keeps. |
| IndexRanges.LteLosesOperandWithTrailingField | crates/database/src/query/builder.rs:564-567 | A concrete key equal to a Lte operand that the range loses. |
| Filters.LoweringPreservesMeaning | crates/database/src/query/builder.rs:460-485 | The lowered filter, comparing encoded bytes, accepts exactly the documents on which the expression holds, for every nesting and every document whose named fields are absent or scalar; lowering fails exactly if an operand is an array or document. |
| Filters.ComparisonsComplement | crates/database/src/query/builder.rs:460-485 | Neq is the opposite of Eq, Gte of Lt and Lte of Gt, and equal values meet Eq, Gte and Lte. |
| Filters.BuildFilter | crates/database/src/query/builder.rs:446-458 | Collapses the list to nothing, the one filter, or their conjunction, and fails exactly if one does not lower. |
| Filters.BuiltFilterMeaning | crates/database/src/query/builder.rs:446-458 | The built filter accepts exactly the documents on which all expressions hold. |

## Left out

- Datastore.StorageEngine.AllocateCollectionId: reports exhaustion at the largest positive id, where the source would continue with negative ids and finally wrap.
- Datastore.StorageEngine.AllocateIndexId: reports exhaustion at the largest positive id, where the source would continue with negative ids and finally wrap.
- Datastore.StorageEngine.AllocateChainId: reports exhaustion at the largest 64-bit number, where the source would wrap.
- Datastore.StorageEngine.SetTs: the compare-and-exchange loop runs once, because LMDB admits one writer at a time.
- Datastore.StorageEngine.Put: the nested loops are split into one method per loop, the hash maps of temporary ids are maps, and error texts are reduced to their kind.
- NewIndexes.NewIndexEntry: for batches that use no temporary index id under two collections; a stored id above the index counter counts as one that may stand for a new index.
- LMDB's own limits and failures: names longer than a key allows, empty names, a full map, I/O errors, durability flags and `flush`.
- Vacuuming: the list is kept as in the source, but nothing modelled reads it.
- The cursors over sound rows: the decoding errors of rows that no reachable state has are not modelled there.
- The index catalog cursor and the merged catalog cursors: simple scans, or without a clear meaning when a transaction records a name twice.
- `HeedIndexCursor::next` with its own document lookup: transactions use `next_candidate` and look documents up under the overlay.
- Evaluation of filters and index ranges against stored rows: the worker that would run them is not implemented, so `Filters` and `IndexRanges` state the meaning that the encoding promises.
- UTF-8 validation, and the distinction between string and byte errors in decoding.
- The command channel, worker, write-ahead log, serde bridge, read sets and builder stages: plumbing, or code that does not exist yet.
