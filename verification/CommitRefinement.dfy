/**
 Committing a transaction's writes yields what the transaction already read: where the overlay and the commit agree.
 */
module CommitRefinement {
  import opened Types
  import opened Lmdb
  import opened IndexTrie
  import opened TrieStorage
  import opened DocumentCursors
  import opened Documents
  import opened WriteSets
  import opened Databases
  import opened Overlays
  import opened Transactions
  import opened Batches
  import opened BatchEffects
  import opened BatchWrites
  import opened Engines
  import opened History

  // ---------------------------------------------------------------- documents

  /** A read at or after every stored version does not depend on when. */
  lemma LatestRead(db: Database, ts: U64, ts': U64, c: CollectionId, d: DocumentId)
    requires DocumentRows(db) && VersionsUpTo(db, ts) && VersionsUpTo(db, ts')
    ensures Visible(db, ts, c, d) == Visible(db, ts', c, d)
  {
    forall v: U64 ensures Newest(db, ts, c, d, v) <==> Newest(db, ts', c, d, v) {
    }
    if v: U64 :| Newest(db, ts, c, d, v) {
      VisibleIsNewest(db, ts, c, d, v);
      VisibleIsNewest(db, ts', c, d, v);
    }
  }

  /** `get` under the overlay is `get` after the commit. */
  lemma CommittedGet(e: Engine, batch: Batch, commits: bool, ts: U64, c: CollectionId, d: DocumentId)
    requires EngineOk(e) && VersionsUpTo(e.committed.documents, batch.ts) && VersionsUpTo(e.committed.documents, ts)
    requires StoredIdsOnly(batch.collections) && Put(e, batch, commits).1.Success?
    ensures DocumentRows(Put(e, batch, commits).0.committed.documents)
    ensures Seen(map[], Put(e, batch, commits).0.committed.documents, batch.ts, c, d)
         == Seen(batch.collections, e.committed.documents, ts, c, d)
  {
    LatestPutReads(e, batch, commits, batch.ts, c, d);
    BatchDocumentWrite(Begin(e), batch, c, d);
    LatestRead(e.committed.documents, ts, batch.ts, c, d);
  }

  /**
   The document cursor of the transaction yields what a fresh transaction yields after the commit, from any start in any
   direction.
   */
  lemma CommittedDocumentCursor(e: Engine, batch: Batch, commits: bool, ts: U64, c: CollectionId,
                                start: CursorStart<DocumentId>, direction: Direction, out: seq<DocumentEntry>,
                                out': seq<DocumentEntry>)
    requires EngineOk(e) && VersionsUpTo(e.committed.documents, batch.ts) && VersionsUpTo(e.committed.documents, ts)
    requires StoredIdsOnly(batch.collections) && Put(e, batch, commits).1.Success?
    requires TablesDecode(e.committed) && TablesDecode(Put(e, batch, commits).0.committed)
    requires IsDocumentResult(batch.collections, e.committed, ts, c, start, direction, out)
    requires IsDocumentResult(map[], Put(e, batch, commits).0.committed, batch.ts, c, start, direction, out')
    ensures out == out'
  {
    var after := Put(e, batch, commits).0.committed;
    forall d ensures Seen(batch.collections, e.committed.documents, ts, c, d)
      == Seen(map[], after.documents, batch.ts, c, d) {
      CommittedGet(e, batch, commits, ts, c, d);
    }
    DocumentResultUnique(batch.collections, e.committed, ts, map[], after, batch.ts, c, start, direction, out, out');
  }

  // ------------------------------------------------------------ index entries

  ghost predicate TablesDecode(db: Databases) {
    DocumentRows(db.documents) && EdgeRows(db.indexEdges) && LeafRows(db.indexLeaves)
  }

  lemma SoundTablesDecode(e: Engine)
    requires EngineOk(e)
    ensures TablesDecode(e.committed)
  {
  }

  lemma PutPostings(e: Engine, batch: Batch, commits: bool, i: IndexId, at: IndexPosition)
    requires EngineOk(e) && Put(e, batch, commits).1.Success?
    ensures TablesDecode(e.committed) && TablesDecode(Put(e, batch, commits).0.committed)
    ensures Posting(i, at) in StoredPostings(Put(e, batch, commits).0.committed)
       <==> Stays(LastIndexWrite(Begin(e), Operations(batch), batch.ts, i, at),
                  Posting(i, at) in StoredPostings(e.committed))
  {
    BeginOk(e);
    AcceptedPut(e, batch, commits);
    RunPostings(Begin(e), Operations(batch), batch.ts, i, at);
    PutKeeps(e, batch, commits);
    SoundTablesDecode(Put(e, batch, commits).0);
  }

  /** Whether an entry is there after a write, if there is one. */
  predicate Stays(write: Option<IndexWrite>, stored: bool) {
    match write
    case Some(IndexPut) => true
    case Some(IndexDeleted) => false
    case None => stored
  }

  /**
   The write that a commit makes of an entry, the one recorded under the greatest collection id, does to what is stored
   what the collection's own write does.
   */
  ghost predicate SameEffect(e: Engine, writes: Collections, c: CollectionId, i: IndexId, at: IndexPosition)
    requires TablesDecode(e.committed)
  {
    var stored := Posting(i, at) in StoredPostings(e.committed);
    Stays(CommittedWrite(writes, i, at), stored) == Stays(IndexWriteOf(writes, c, i, at), stored)
  }

  /**
   A position is seen under the overlay as it is stored after the commit exactly if the two writes have the same
   effect.
   */
  lemma CommittedPosition(e: Engine, batch: Batch, commits: bool, c: CollectionId, i: IndexId, at: IndexPosition)
    requires EngineOk(e) && Put(e, batch, commits).1.Success? && StoredIdsOnly(batch.collections)
    ensures TablesDecode(e.committed) && TablesDecode(Put(e, batch, commits).0.committed)
    ensures SeenAlike(batch.collections, e.committed, map[], Put(e, batch, commits).0.committed, c, i, at)
       <==> SameEffect(e, batch.collections, c, i, at)
  {
    PutPostings(e, batch, commits, i, at);
    BatchIndexWrite(Begin(e), batch, i, at);
  }

  /** Where a live document would be listed, the entries of the index fare as the collection's own writes say. */
  ghost predicate OwnWritesDecide(e: Engine, writes: Collections, ts: U64, c: CollectionId, i: IndexId,
                                  start: CursorStart<IndexPosition>, direction: Direction)
    requires TablesDecode(e.committed)
  {
    forall at | Listed(writes, e.committed, ts, c, start, direction, at) :: SameEffect(e, writes, c, i, at)
  }

  lemma CommittedPositions(e: Engine, batch: Batch, commits: bool, ts: U64, c: CollectionId, i: IndexId,
                           start: CursorStart<IndexPosition>, direction: Direction)
    requires EngineOk(e) && Put(e, batch, commits).1.Success? && StoredIdsOnly(batch.collections)
    ensures TablesDecode(e.committed) && TablesDecode(Put(e, batch, commits).0.committed)
    ensures SamePositions(batch.collections, e.committed, ts, map[], Put(e, batch, commits).0.committed, c, i, start,
                          direction)
       <==> OwnWritesDecide(e, batch.collections, ts, c, i, start, direction)
  {
    CommittedPosition(e, batch, commits, c, i, IndexPosition([], 0));
    forall at
      ensures SeenAlike(batch.collections, e.committed, map[], Put(e, batch, commits).0.committed, c, i, at)
         <==> SameEffect(e, batch.collections, c, i, at)
    {
      CommittedPosition(e, batch, commits, c, i, at);
    }
  }

  /**
   The index cursor of the transaction yields what a fresh transaction yields after the commit exactly if no write to
   the index under another collection overrules one that the cursor would list.
   */
  lemma CommittedIndexCursor(e: Engine, batch: Batch, commits: bool, ts: U64, c: CollectionId, i: IndexId,
                             start: CursorStart<IndexPosition>, direction: Direction, out: seq<IndexEntry>,
                             out': seq<IndexEntry>)
    requires EngineOk(e) && VersionsUpTo(e.committed.documents, batch.ts) && VersionsUpTo(e.committed.documents, ts)
    requires StoredIdsOnly(batch.collections) && Put(e, batch, commits).1.Success?
    requires TablesDecode(e.committed) && TablesDecode(Put(e, batch, commits).0.committed)
    requires IsIndexResult(batch.collections, e.committed, ts, c, i, start, direction, out)
    requires IsIndexResult(map[], Put(e, batch, commits).0.committed, batch.ts, c, i, start, direction, out')
    ensures out == out' <==> OwnWritesDecide(e, batch.collections, ts, c, i, start, direction)
  {
    var after := Put(e, batch, commits).0.committed;
    forall d ensures Seen(batch.collections, e.committed.documents, ts, c, d)
      == Seen(map[], after.documents, batch.ts, c, d) {
      CommittedGet(e, batch, commits, ts, c, d);
    }
    CommittedPositions(e, batch, commits, ts, c, i, start, direction);
    IndexResultUnique(batch.collections, e.committed, ts, map[], after, batch.ts, c, i, start, direction, out, out');
  }

  /** Only this collection records entries of the index. */
  ghost predicate OwnedBy(writes: Collections, c: CollectionId, i: IndexId) {
    forall c' | c' in writes && i in writes[c'].indexEntries :: c' == c
  }

  /** So the cursors agree, from any start in any direction, if only the collection itself writes to the index. */
  lemma OwnedIndexAgrees(e: Engine, writes: Collections, ts: U64, c: CollectionId, i: IndexId,
                         start: CursorStart<IndexPosition>, direction: Direction)
    requires TablesDecode(e.committed) && OwnedBy(writes, c, i)
    ensures OwnWritesDecide(e, writes, ts, c, i, start, direction)
  {
    forall at ensures SameEffect(e, writes, c, i, at) {
      if IndexWriteOf(writes, c, i, at).Some? {
        CommittedWriteIs(writes, c, i, at);
      } else {
        NothingCommitted(writes, i, at);
      }
    }
  }

  /**
   An entry recorded under another collection, and under none with a greater id, is committed whatever this collection
   recorded: the two agree only where that write changes nothing of what the transaction sees.
   */
  lemma ForeignWriteUnseen(e: Engine, batch: Batch, commits: bool, c: CollectionId, other: CollectionId, i: IndexId,
                           at: IndexPosition)
    requires EngineOk(e) && Put(e, batch, commits).1.Success? && StoredIdsOnly(batch.collections)
    requires IndexWriteOf(batch.collections, other, i, at).Some?
    requires forall c' | c' in batch.collections && other < c' :: IndexWriteOf(batch.collections, c', i, at).None?
    ensures TablesDecode(e.committed) && TablesDecode(Put(e, batch, commits).0.committed)
    ensures SeenAlike(batch.collections, e.committed, map[], Put(e, batch, commits).0.committed, c, i, at)
       <==> (IndexWriteOf(batch.collections, other, i, at).value.IndexPut?
         <==> SeenPosition(batch.collections, e.committed, c, i, at))
  {
    CommittedPosition(e, batch, commits, c, i, at);
    CommittedWriteIs(batch.collections, other, i, at);
  }
}
