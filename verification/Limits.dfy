/**
 Where the promises of the storage engine end: ids that no catalog knows, indexes shared by collections, and lost
 timestamps.
 */
module Limits {
  import opened ByteStrings
  import opened Types
  import opened HeedEncoding
  import opened IndexTrie
  import opened TrieStorage
  import opened Documents
  import opened WriteSets
  import opened Databases
  import opened Overlays
  import opened Transactions
  import opened Batches
  import opened BatchInvariants
  import opened BatchWrites
  import opened PlainBatches
  import opened Engines
  import opened History
  import opened CommitRefinement

  /** A batch that writes one document. */
  function OneDocument(c: CollectionId, d: DocumentId, write: DocumentWrite, ts: U64): Batch {
    Batch(map[c := NO_WRITES.(documents := map[d := write])], map[], map[], ts)
  }

  lemma OneDocumentAccepted(e: Engine, c: CollectionId, d: DocumentId, write: DocumentWrite, ts: U64)
    requires EngineOk(e) && c >= 0 && e.memory.ts <= ts
    ensures Put(e, OneDocument(c, d, write, ts), true).1.Success?
    ensures var after := Put(e, OneDocument(c, d, write, ts), true).0;
      after.memory.ts == ts && after.memory.collectionId == e.memory.collectionId
  {
    PlainAccepted(e, OneDocument(c, d, write, ts));
  }

  lemma OneDocumentWrite(e: Engine, c: CollectionId, d: DocumentId, write: DocumentWrite, ts: U64)
    requires c >= 0
    ensures WriteOf(e, OneDocument(c, d, write, ts), c, d) == Some(write)
  {
    BatchDocumentWrite(Begin(e), OneDocument(c, d, write, ts), c, d);
  }

  lemma OneDocumentStored(e: Engine, c: CollectionId, d: DocumentId, write: DocumentWrite, ts: U64)
    requires EngineOk(e) && c >= 0 && e.memory.ts <= ts
    ensures var after := Put(e, OneDocument(c, d, write, ts), true).0;
      after.memory.collectionId == e.memory.collectionId && HasVersion(after.committed.documents, c, d, ts)
  {
    var batch := OneDocument(c, d, write, ts);
    OneDocumentAccepted(e, c, d, write, ts);
    PutRows(e, batch, true, c, d, ts);
    OneDocumentWrite(e, c, d, write, ts);
  }

  /** The assumptions of the commit refinement can be met, from the very first batch. */
  lemma RefinementApplies(c: CollectionId, d: DocumentId, write: DocumentWrite, ts: U64, i: IndexId)
    requires c >= 0
    ensures var batch := OneDocument(c, d, write, ts);
      && EngineOk(INITIAL) && VersionsUpTo(INITIAL.committed.documents, 0)
      && StoredIdsOnly(batch.collections) && OwnedBy(batch.collections, c, i)
      && Put(INITIAL, batch, true).1.Success?
  {
    InitialOk();
    OneDocumentAccepted(INITIAL, c, d, write, ts);
  }

  // --------------------------------------------------------------- unknown ids

  /** An id that was never allocated can be written under, and is then no longer free when it is allocated. */
  lemma UnallocatedIdWritten(e: Engine, d: DocumentId, write: DocumentWrite, ts: U64)
    requires EngineOk(e) && e.memory.ts <= ts && AllocateCollectionId(e.memory).Some?
    ensures var id := AllocateCollectionId(e.memory).value.1;
      var after := Put(e, OneDocument(id, d, write, ts), true).0;
      && AllocateCollectionId(after.memory).Some? && AllocateCollectionId(after.memory).value.1 == id
      && HasVersion(after.committed.documents, id, d, ts)
  {
    OneDocumentStored(e, AllocateCollectionId(e.memory).value.1, d, write, ts);
  }

  // ------------------------------------------------------------- shared indexes

  /** Collection 1 writes a document and inserts an entry for it; collection 2 deletes that entry of the same index. */
  function Contested(d: DocumentId, value: Bytes, i: IndexId, key: Bytes, ts: U64): Batch {
    var at := IndexPosition(key, d);
    Batch(map[1 := NO_WRITES.(documents := map[d := DocumentPut(value)], indexEntries := map[i := map[at := IndexPut]]),
              2 := NO_WRITES.(indexEntries := map[i := map[at := IndexDeleted]])], map[], map[], ts)
  }

  lemma NothingPosted()
    ensures TablesDecode(INITIAL.committed) && StoredPostings(INITIAL.committed) == iset{}
  {
    InitialOk();
    SoundTablesDecode(INITIAL);
    assert forall leaf :: leaf !in LeafView(INITIAL.committed.indexLeaves);
  }

  lemma ContestedIsPlain(d: DocumentId, value: Bytes, i: IndexId, key: Bytes, ts: U64)
    requires i >= 0 && |key| <= SEGMENT_SIZE
    ensures Plain(Contested(d, value, i, key, ts))
  {
    var batch := Contested(d, value, i, key, ts);
    forall c | c in batch.collections ensures batch.collections[c].metadata.None?
      && ShortValues(batch.collections[c].indexEntries) {
    }
  }

  lemma ContestedAccepted(d: DocumentId, value: Bytes, i: IndexId, key: Bytes, ts: U64)
    requires i >= 0 && |key| <= SEGMENT_SIZE
    ensures EngineOk(INITIAL) && Put(INITIAL, Contested(d, value, i, key, ts), true).1.Success?
    ensures StoredIdsOnly(Contested(d, value, i, key, ts).collections)
    ensures VersionsUpTo(INITIAL.committed.documents, 0)
  {
    InitialOk();
    ContestedIsPlain(d, value, i, key, ts);
    PlainAccepted(INITIAL, Contested(d, value, i, key, ts));
  }

  /** What the transaction's cursor over the contested index yields before the commit. */
  lemma ContestedBefore(d: DocumentId, value: Bytes, i: IndexId, key: Bytes, ts: U64)
    requires i >= 0
    ensures TablesDecode(INITIAL.committed)
    ensures IsIndexResult(Contested(d, value, i, key, ts).collections, INITIAL.committed, 0, 1, i, Unbounded, Forward,
                          [IndexEntry(key, d, value)])
  {
    NothingPosted();
  }

  lemma ContestedWrite(d: DocumentId, value: Bytes, i: IndexId, key: Bytes, ts: U64, at: IndexPosition)
    ensures CommittedWrite(Contested(d, value, i, key, ts).collections, i, at)
         == if at == IndexPosition(key, d) then Some(IndexDeleted) else None
  {
    var collections := Contested(d, value, i, key, ts).collections;
    if at == IndexPosition(key, d) {
      CommittedWriteIs(collections, 2, i, at);
    } else {
      NothingCommitted(collections, i, at);
    }
  }

  /** The entry is committed as collection 2 left it, so collection 1 loses it. */
  lemma ContestedAfter(d: DocumentId, value: Bytes, i: IndexId, key: Bytes, ts: U64, at: IndexPosition)
    requires i >= 0 && |key| <= SEGMENT_SIZE
    ensures TablesDecode(Put(INITIAL, Contested(d, value, i, key, ts), true).0.committed)
    ensures Posting(i, at) !in StoredPostings(Put(INITIAL, Contested(d, value, i, key, ts), true).0.committed)
  {
    var batch := Contested(d, value, i, key, ts);
    ContestedAccepted(d, value, i, key, ts);
    NothingPosted();
    PutPostings(INITIAL, batch, true, i, at);
    BatchIndexWrite(Begin(INITIAL), batch, i, at);
    ContestedWrite(d, value, i, key, ts, at);
  }

  /**
   The index cursor of a transaction and of a fresh transaction after its commit can differ: the first lists the entry,
   the second lists nothing.
   */
  lemma SharedIndexDiffers(d: DocumentId, value: Bytes, i: IndexId, key: Bytes, ts: U64)
    requires i >= 0 && |key| <= SEGMENT_SIZE
    ensures var batch := Contested(d, value, i, key, ts);
      var after := Put(INITIAL, batch, true).0.committed;
      && Put(INITIAL, batch, true).1.Success? && TablesDecode(INITIAL.committed) && TablesDecode(after)
      && IsIndexResult(batch.collections, INITIAL.committed, 0, 1, i, Unbounded, Forward, [IndexEntry(key, d, value)])
      && IsIndexResult(map[], after, ts, 1, i, Unbounded, Forward, [])
  {
    var after := Put(INITIAL, Contested(d, value, i, key, ts), true).0.committed;
    ContestedAccepted(d, value, i, key, ts);
    ContestedBefore(d, value, i, key, ts);
    ContestedAfter(d, value, i, key, ts, IndexPosition(key, d));
    forall at ensures Posting(i, at) !in StoredPostings(after) {
      ContestedAfter(d, value, i, key, ts, at);
    }
    NothingListed(after, ts, 1, i);
  }

  lemma NothingListed(db: Databases, ts: U64, c: CollectionId, i: IndexId)
    requires TablesDecode(db) && forall at :: Posting(i, at) !in StoredPostings(db)
    ensures IsIndexResult(map[], db, ts, c, i, Unbounded, Forward, [])
  {
    forall e ensures !SeenPosition(map[], db, c, i, PositionOfEntry(e)) {
    }
  }

  // ------------------------------------------------------------ lost timestamps

  /**
   A timestamp whose commit is lost stays in memory; a batch that reuses it commits, but does not store it. After a
   restart the engine's timestamp is behind a stored version.
   */
  lemma LostTimestamp(e: Engine, c: CollectionId, d: DocumentId, write: DocumentWrite, ts: U64)
    requires EngineOk(e) && StoredAt(e.committed.metadata, TS_KEY) == e.memory.ts < ts && c >= 0
    ensures var e1 := Next(e, MoveTs(ts, false));
      var e2 := Next(e1, PutBatch(OneDocument(c, d, write, ts), true));
      var e3 := Next(e2, Reopen);
      && Put(e1, OneDocument(c, d, write, ts), true).1.Success?
      && HasVersion(e3.committed.documents, c, d, ts)
      && e3.memory.ts == e.memory.ts < ts
  {
    AbortedMove(e, ts);
    var e1 := e.(memory := e.memory.(ts := ts));
    OneDocumentAccepted(e1, c, d, write, ts);
    OneDocumentStored(e1, c, d, write, ts);
    ReusedTimestamp(e1, OneDocument(c, d, write, ts));
  }

  lemma AbortedMove(e: Engine, ts: U64)
    requires EngineOk(e) && e.memory.ts < ts
    ensures Next(e, MoveTs(ts, false)) == e.(memory := e.memory.(ts := ts))
    ensures EngineOk(e.(memory := e.memory.(ts := ts)))
  {
    AbortedKeeps(e, e.memory.(ts := ts));
  }

  lemma ReusedTimestamp(e: Engine, batch: Batch)
    requires EngineOk(e) && Put(e, batch, true).1.Success? && batch.ts == e.memory.ts
    ensures var after := Next(e, PutBatch(batch, true));
      && Next(after, Reopen).committed == after.committed
      && Next(after, Reopen).memory.ts == StoredAt(e.committed.metadata, TS_KEY)
  {
    AcceptedPut(e, batch, true);
    PutKeeps(e, batch, true);
    Restarted(Put(e, batch, true).0);
  }

  /** The run of a lost timestamp, continued by a batch with an earlier one. */
  function Disorder(c: CollectionId, d: DocumentId, first: DocumentWrite, later: U64, second: DocumentWrite,
                    earlier: U64): seq<Event> {
    [MoveTs(later, false)]
    + ([PutBatch(OneDocument(c, d, first, later), true)]
      + ([Reopen] + [PutBatch(OneDocument(c, d, second, earlier), true)]))
  }

  /** The engine before the last event of the run holds the first write, and the timestamp it had at the start. */
  lemma BeforeLastEvent(e: Engine, c: CollectionId, d: DocumentId, first: DocumentWrite, later: U64)
    returns (e1: Engine, e2: Engine, e3: Engine)
    requires EngineOk(e) && StoredAt(e.committed.metadata, TS_KEY) == e.memory.ts < later && c >= 0
    ensures e1 == Next(e, MoveTs(later, false)) && e2 == Next(e1, PutBatch(OneDocument(c, d, first, later), true))
      && e3 == Next(e2, Reopen)
    ensures EngineOk(e3) && e3.memory.ts == e.memory.ts && HasVersion(e3.committed.documents, c, d, later)
    ensures DocumentRows(e3.committed.documents) && Visible(e3.committed.documents, later, c, d) == WrittenValue(first)
  {
    LostTimestamp(e, c, d, first, later);
    AbortedMove(e, later);
    e1 := Next(e, MoveTs(later, false));
    e2 := Next(e1, PutBatch(OneDocument(c, d, first, later), true));
    e3 := Next(e2, Reopen);
    PutKeeps(e1, OneDocument(c, d, first, later), true);
    NextKeeps(e2, Reopen);
    Restarted(e2);
    PutReads(e1, OneDocument(c, d, first, later), true, later, c, d);
    OneDocumentWrite(e1, c, d, first, later);
  }

  lemma LastEvent(e3: Engine, c: CollectionId, d: DocumentId, first: DocumentWrite, later: U64, second: DocumentWrite,
                  earlier: U64)
    requires EngineOk(e3) && e3.memory.ts <= earlier < later && c >= 0
      && HasVersion(e3.committed.documents, c, d, later)
    requires DocumentRows(e3.committed.documents) && Visible(e3.committed.documents, later, c, d) == WrittenValue(first)
    ensures var batch := OneDocument(c, d, second, earlier);
      && EventWrite(e3, PutBatch(batch, true), later, c, d) == Some(second)
      && DocumentRows(Put(e3, batch, true).0.committed.documents)
      && Visible(Put(e3, batch, true).0.committed.documents, later, c, d) == WrittenValue(first)
  {
    OneDocumentAccepted(e3, c, d, second, earlier);
    OneDocumentWrite(e3, c, d, second, earlier);
    PutReads(e3, OneDocument(c, d, second, earlier), true, later, c, d);
  }

  /** What a run leads to, and its last write to the document. */
  ghost predicate Leads(e: Engine, events: seq<Event>, ts: U64, c: CollectionId, d: DocumentId, after: Engine,
                        write: DocumentWrite) {
    Replay(e, events) == after && History.LastWrite(e, events, ts, c, d) == Some(write)
  }

  lemma OneEvent(e: Engine, event: Event, ts: U64, c: CollectionId, d: DocumentId, write: DocumentWrite)
    requires EventWrite(e, event, ts, c, d) == Some(write)
    ensures Leads(e, [event], ts, c, d, Next(e, event), write)
  {
    assert [event][1..] == [];
    assert Replay(Next(e, event), []) == Next(e, event) && History.LastWrite(Next(e, event), [], ts, c, d) == None;
  }

  lemma EarlierEvent(e: Engine, event: Event, rest: seq<Event>, ts: U64, c: CollectionId, d: DocumentId, after: Engine,
                     write: DocumentWrite)
    requires Leads(Next(e, event), rest, ts, c, d, after, write)
    ensures Leads(e, [event] + rest, ts, c, d, after, write)
  {
    assert ([event] + rest)[1..] == rest;
  }

  /**
   After a lost timestamp a later batch can be accepted with an earlier timestamp: the run's last write to the document
   is the second, and what is read is the first.
   */
  lemma DisorderlyRead(e: Engine, c: CollectionId, d: DocumentId, first: DocumentWrite, later: U64,
                       second: DocumentWrite, earlier: U64)
    requires EngineOk(e) && StoredAt(e.committed.metadata, TS_KEY) == e.memory.ts <= earlier < later && c >= 0
    ensures var events := Disorder(c, d, first, later, second, earlier);
      && History.LastWrite(e, events, later, c, d) == Some(second)
      && DocumentRows(Replay(e, events).committed.documents)
      && Visible(Replay(e, events).committed.documents, later, c, d) == WrittenValue(first)
  {
    var e1, e2, e3 := BeforeLastEvent(e, c, d, first, later);
    LastEvent(e3, c, d, first, later, second, earlier);
    var batch := OneDocument(c, d, second, earlier);
    var put1, put2 := PutBatch(OneDocument(c, d, first, later), true), PutBatch(batch, true);
    var after := Put(e3, batch, true).0;
    OneEvent(e3, put2, later, c, d, second);
    EarlierEvent(e2, Reopen, [put2], later, c, d, after, second);
    EarlierEvent(e1, put1, [Reopen] + [put2], later, c, d, after, second);
    EarlierEvent(e, MoveTs(later, false), [put1] + ([Reopen] + [put2]), later, c, d, after, second);
  }

  /** A run of the very first engine whose read is not its last write. */
  lemma DisorderlyExample()
    ensures var events := Disorder(1, 1, DocumentPut([1]), 2, DocumentPut([2]), 1);
      && DocumentRows(Replay(INITIAL, events).committed.documents)
      && Visible(Replay(INITIAL, events).committed.documents, 2, 1, 1) == Some([1])
      && History.LastWrite(INITIAL, events, 2, 1, 1) == Some(DocumentPut([2]))
  {
    InitialOk();
    DisorderlyRead(INITIAL, 1, 1, DocumentPut([1]), 2, DocumentPut([2]), 1);
  }
}
