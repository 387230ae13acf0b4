/**
 The writes a batch carries out, told from what was recorded: collections and indexes in id order, the last write
 deciding.
 */
module BatchWrites {
  import opened Types
  import opened HeedEncoding
  import opened Sequences
  import opened WriteSets
  import opened Batches
  import opened BatchEffects

  type Made = map<I64, I64>

  function OrElse<T>(later: Option<T>, earlier: Option<T>): Option<T> {
    if later.Some? then later else earlier
  }

  // ------------------------------------------------------------- recorded writes

  /** The write to document `d` of the last listed collection that stands for `c`. */
  function RecordedDocument(collections: Collections, cs: seq<CollectionId>, made: Made, c: CollectionId,
                            d: DocumentId): Option<DocumentWrite>
    decreases |cs|
  {
    if cs == [] then None
    else
      OrElse(RecordedDocument(collections, cs[1..], made, c, d),
        if Resolve(cs[0], made) == Some(c) then DocumentWriteOf(collections, cs[0], d) else None)
  }

  /** The write to a position of the last listed index that stands for `i`. */
  function RecordedEntry(indexes: map<IndexId, map<IndexPosition, IndexWrite>>, ids: seq<IndexId>, made: Made,
                         i: IndexId, at: IndexPosition): Option<IndexWrite>
    decreases |ids|
  {
    if ids == [] then None
    else
      OrElse(RecordedEntry(indexes, ids[1..], made, i, at),
        if Resolve(ids[0], made) == Some(i) && ids[0] in indexes && at in indexes[ids[0]] then Some(indexes[ids[0]][at])
        else None)
  }

  /** The write to a position of the last listed collection with one. */
  function RecordedPosition(collections: Collections, cs: seq<CollectionId>, made: Made, i: IndexId,
                            at: IndexPosition): Option<IndexWrite>
    decreases |cs|
  {
    if cs == [] then None
    else
      var indexes := Recorded(collections, cs[0]).indexEntries;
      OrElse(RecordedPosition(collections, cs[1..], made, i, at),
             RecordedEntry(indexes, Ids(indexes.Keys), made, i, at))
  }

  // --------------------------------------------------- the same from operations

  function DocumentOf(op: Operation, made: Made, c: CollectionId, d: DocumentId): Option<DocumentWrite> {
    if op.WriteDocument? && op.document == d && Resolve(op.collection, made) == Some(c) then Some(op.documentWrite)
    else None
  }

  function EntryOf(op: Operation, made: Made, i: IndexId, at: IndexPosition): Option<IndexWrite> {
    if op.WriteIndex? && op.position == at && Resolve(op.index, made) == Some(i) then Some(op.indexWrite) else None
  }

  function LastDocument(ops: seq<Operation>, made: Made, c: CollectionId, d: DocumentId): Option<DocumentWrite>
    decreases |ops|
  {
    if ops == [] then None
    else OrElse(LastDocument(ops[1..], made, c, d), DocumentOf(ops[0], made, c, d))
  }

  function LastEntry(ops: seq<Operation>, made: Made, i: IndexId, at: IndexPosition): Option<IndexWrite>
    decreases |ops|
  {
    if ops == [] then None
    else OrElse(LastEntry(ops[1..], made, i, at), EntryOf(ops[0], made, i, at))
  }

  lemma {:induction false} LastDocumentAppend(a: seq<Operation>, b: seq<Operation>, made: Made, c: CollectionId,
          d: DocumentId)
    ensures LastDocument(a + b, made, c, d) == OrElse(LastDocument(b, made, c, d), LastDocument(a, made, c, d))
    decreases |a|
  {
    if a == [] {
      assert a + b == b;
    } else {
      assert (a + b)[1..] == a[1..] + b;
      LastDocumentAppend(a[1..], b, made, c, d);
    }
  }

  lemma {:induction false} LastEntryAppend(a: seq<Operation>, b: seq<Operation>, made: Made, i: IndexId,
          at: IndexPosition)
    ensures LastEntry(a + b, made, i, at) == OrElse(LastEntry(b, made, i, at), LastEntry(a, made, i, at))
    decreases |a|
  {
    if a == [] {
      assert a + b == b;
    } else {
      assert (a + b)[1..] == a[1..] + b;
      LastEntryAppend(a[1..], b, made, i, at);
    }
  }

  lemma {:induction false} NoDocuments(ops: seq<Operation>, made: Made, c: CollectionId, d: DocumentId)
    requires forall op | op in ops :: !op.WriteDocument?
    ensures LastDocument(ops, made, c, d) == None
    decreases |ops|
  {
    if ops != [] {
      NoDocuments(ops[1..], made, c, d);
    }
  }

  lemma {:induction false} NoEntries(ops: seq<Operation>, made: Made, i: IndexId, at: IndexPosition)
    requires forall op | op in ops :: !op.WriteIndex?
    ensures LastEntry(ops, made, i, at) == None
    decreases |ops|
  {
    if ops != [] {
      NoEntries(ops[1..], made, i, at);
    }
  }

  // ----------------------------------------------------- the lists of a batch

  lemma {:induction false} DocumentsWritten(c': CollectionId, ids: seq<DocumentId>,
          documents: map<DocumentId, DocumentWrite>, made: Made, c: CollectionId, d: DocumentId)
    requires forall x | x in ids :: x in documents
    ensures LastDocument(WriteDocuments(c', ids, documents), made, c, d)
         == if Resolve(c', made) == Some(c) && d in ids then Some(documents[d]) else None
    decreases |ids|
  {
    if ids != [] {
      DocumentsWritten(c', ids[1..], documents, made, c, d);
    }
  }

  lemma {:induction false} PositionsWritten(i': IndexId, positions: seq<IndexPosition>,
          entries: map<IndexPosition, IndexWrite>, made: Made, i: IndexId, at: IndexPosition)
    requires forall x | x in positions :: x in entries
    ensures LastEntry(WritePositions(i', positions, entries), made, i, at)
         == if Resolve(i', made) == Some(i) && at in positions then Some(entries[at]) else None
    decreases |positions|
  {
    if positions != [] {
      PositionsWritten(i', positions[1..], entries, made, i, at);
    }
  }

  lemma {:induction false} IndexesWritten(ids: seq<IndexId>, indexes: map<IndexId, map<IndexPosition, IndexWrite>>,
                                          made: Made, i: IndexId, at: IndexPosition)
    requires forall x | x in ids :: x in indexes
    ensures LastEntry(WriteIndexes(ids, indexes), made, i, at) == RecordedEntry(indexes, ids, made, i, at)
    decreases |ids|
  {
    if ids != [] {
      var first := [UseIndex(ids[0])];
      var own := WritePositions(ids[0], Positions(indexes[ids[0]].Keys), indexes[ids[0]]);
      var rest := WriteIndexes(ids[1..], indexes);
      LastEntryAppend(first + own, rest, made, i, at);
      LastEntryAppend(first, own, made, i, at);
      NoEntries(first, made, i, at);
      PositionsWritten(ids[0], Positions(indexes[ids[0]].Keys), indexes[ids[0]], made, i, at);
      IndexesWritten(ids[1..], indexes, made, i, at);
    }
  }

  /** Of four parts only the second writes documents. */
  lemma DocumentsPart(w: seq<Operation>, x: seq<Operation>, y: seq<Operation>, z: seq<Operation>, made: Made,
                      c: CollectionId, d: DocumentId)
    requires forall op | op in w || op in y || op in z :: !op.WriteDocument?
    ensures LastDocument(w + x + y + z, made, c, d) == LastDocument(x, made, c, d)
  {
    LastDocumentAppend(w + x + y, z, made, c, d);
    LastDocumentAppend(w + x, y, made, c, d);
    LastDocumentAppend(w, x, made, c, d);
    NoDocuments(w, made, c, d);
    NoDocuments(y, made, c, d);
    NoDocuments(z, made, c, d);
  }

  /** Of four parts only the third writes index entries. */
  lemma EntriesPart(w: seq<Operation>, x: seq<Operation>, y: seq<Operation>, z: seq<Operation>, made: Made, i: IndexId,
                    at: IndexPosition)
    requires forall op | op in w || op in x || op in z :: !op.WriteIndex?
    ensures LastEntry(w + x + y + z, made, i, at) == LastEntry(y, made, i, at)
  {
    LastEntryAppend(w + x + y, z, made, i, at);
    LastEntryAppend(w + x, y, made, i, at);
    LastEntryAppend(w, x, made, i, at);
    NoEntries(w, made, i, at);
    NoEntries(x, made, i, at);
    NoEntries(z, made, i, at);
  }

  lemma OtherParts(c: CollectionId, data: CollectionWriteSet)
    ensures var indexes := WriteIndexes(Ids(data.indexEntries.Keys), data.indexEntries);
      forall op | op in [UseCollection(c)] || op in indexes || op in SetMetadataOf(c, data) :: !op.WriteDocument?
  {
    forall op | op in WriteIndexes(Ids(data.indexEntries.Keys), data.indexEntries) ensures !op.WriteDocument? {
      IndexesKinds(Ids(data.indexEntries.Keys), data.indexEntries, op);
    }
  }

  lemma CollectionDocuments(c': CollectionId, data: CollectionWriteSet, made: Made, c: CollectionId, d: DocumentId)
    ensures LastDocument(WriteCollection(c', data), made, c, d)
         == if Resolve(c', made) == Some(c) && d in data.documents then Some(data.documents[d]) else None
  {
    var documents := WriteDocuments(c', DocumentIds(data.documents.Keys), data.documents);
    var indexes := WriteIndexes(Ids(data.indexEntries.Keys), data.indexEntries);
    OtherParts(c', data);
    DocumentsPart([UseCollection(c')], documents, indexes, SetMetadataOf(c', data), made, c, d);
    DocumentsWritten(c', DocumentIds(data.documents.Keys), data.documents, made, c, d);
  }

  lemma CollectionEntries(c': CollectionId, data: CollectionWriteSet, made: Made, i: IndexId, at: IndexPosition)
    ensures LastEntry(WriteCollection(c', data), made, i, at)
       == RecordedEntry(data.indexEntries, Ids(data.indexEntries.Keys), made, i, at)
  {
    var documents := WriteDocuments(c', DocumentIds(data.documents.Keys), data.documents);
    var indexes := WriteIndexes(Ids(data.indexEntries.Keys), data.indexEntries);
    DocumentsKinds(c', DocumentIds(data.documents.Keys), data.documents);
    EntriesPart([UseCollection(c')], documents, indexes, SetMetadataOf(c', data), made, i, at);
    IndexesWritten(Ids(data.indexEntries.Keys), data.indexEntries, made, i, at);
  }

  lemma {:induction false} CollectionsWritten(cs: seq<CollectionId>, collections: Collections, made: Made,
          c: CollectionId, d: DocumentId, i: IndexId, at: IndexPosition)
    requires forall x | x in cs :: x in collections
    ensures LastDocument(WriteCollections(cs, collections), made, c, d) == RecordedDocument(collections, cs, made, c, d)
    ensures LastEntry(WriteCollections(cs, collections), made, i, at) == RecordedPosition(collections, cs, made, i, at)
    decreases |cs|
  {
    if cs != [] {
      var own, rest := WriteCollection(cs[0], collections[cs[0]]), WriteCollections(cs[1..], collections);
      LastDocumentAppend(own, rest, made, c, d);
      LastEntryAppend(own, rest, made, i, at);
      CollectionDocuments(cs[0], collections[cs[0]], made, c, d);
      CollectionEntries(cs[0], collections[cs[0]], made, i, at);
      CollectionsWritten(cs[1..], collections, made, c, d, i, at);
    }
  }

  // ------------------------------------------------------ kinds of operations

  function Creations(batch: Batch): seq<Operation> {
    MakeCollections(Ids(batch.newCollections.Keys), batch.newCollections)
  }

  function IndexCreations(batch: Batch): seq<Operation> {
    MakeAllIndexes(Ids(batch.newIndexes.Keys), batch.newIndexes)
  }

  function Writes(batch: Batch): seq<Operation> {
    WriteCollections(Ids(batch.collections.Keys), batch.collections)
  }

  lemma {:induction false} CreationsKinds(ids: seq<CollectionId>, names: map<CollectionId, Name>)
    requires forall c | c in ids :: c in names
    ensures forall op | op in MakeCollections(ids, names) :: op.MakeCollection? && op.temporaryCollection in ids
    decreases |ids|
  {
    if ids != [] {
      CreationsKinds(ids[1..], names);
    }
  }

  lemma {:induction false} IndexCreationsKinds(c: CollectionId, ids: seq<IndexId>,
          indexes: map<IndexId, IndexCatalogWrite>)
    requires forall i | i in ids :: i in indexes
    ensures forall op | op in MakeIndexes(c, ids, indexes) :: op.MakeIndex? && op.temporaryIndex in ids
    decreases |ids|
  {
    if ids != [] {
      IndexCreationsKinds(c, ids[1..], indexes);
    }
  }

  lemma {:induction false} AllIndexCreationsKinds(cs: seq<CollectionId>,
          indexes: map<CollectionId, map<IndexId, IndexCatalogWrite>>)
    requires forall c | c in cs :: c in indexes
    ensures forall op | op in MakeAllIndexes(cs, indexes) ::
      op.UseCollection? || (op.MakeIndex? && exists c | c in cs :: op.temporaryIndex in indexes[c])
    decreases |cs|
  {
    if cs != [] {
      IndexCreationsKinds(cs[0], Ids(indexes[cs[0]].Keys), indexes[cs[0]]);
      AllIndexCreationsKinds(cs[1..], indexes);
    }
  }

  lemma {:induction false} DocumentsKinds(c: CollectionId, ids: seq<DocumentId>,
                                          documents: map<DocumentId, DocumentWrite>)
    requires forall d | d in ids :: d in documents
    ensures forall op | op in WriteDocuments(c, ids, documents) :: op.WriteDocument? && op.collection == c
    decreases |ids|
  {
    if ids != [] {
      DocumentsKinds(c, ids[1..], documents);
    }
  }

  lemma {:induction false} PositionsKinds(i: IndexId, positions: seq<IndexPosition>,
                                          entries: map<IndexPosition, IndexWrite>)
    requires forall p | p in positions :: p in entries
    ensures forall op | op in WritePositions(i, positions, entries) ::
      op.WriteIndex? && op.index == i && op.position in positions
    decreases |positions|
  {
    if positions != [] {
      PositionsKinds(i, positions[1..], entries);
    }
  }

  lemma {:induction false} IndexesKinds(ids: seq<IndexId>, indexes: map<IndexId, map<IndexPosition, IndexWrite>>,
                                        op: Operation)
    requires (forall i | i in ids :: i in indexes) && op in WriteIndexes(ids, indexes)
    ensures (op.UseIndex? || op.WriteIndex?) && op.index in ids && (op.WriteIndex? ==> op.position in indexes[op.index])
    decreases |ids|
  {
    var own := WritePositions(ids[0], Positions(indexes[ids[0]].Keys), indexes[ids[0]]);
    if op in own {
      PositionsKinds(ids[0], Positions(indexes[ids[0]].Keys), indexes[ids[0]]);
    } else if op != UseIndex(ids[0]) {
      IndexesKinds(ids[1..], indexes, op);
    }
  }

  /** An operation that carries out a write, or a check before it, of the collection. */
  ghost predicate WriteOperation(c: CollectionId, data: CollectionWriteSet, op: Operation) {
    match op
    case UseCollection(c') => c' == c
    case WriteDocument(c', _, _) => c' == c
    case UseIndex(i) => i in data.indexEntries
    case WriteIndex(i, at, _) => i in data.indexEntries && at in data.indexEntries[i]
    case SetMetadata(c', metadata) => c' == c && data.metadata == Some(metadata)
    case _ => false
  }

  lemma CollectionKinds(c: CollectionId, data: CollectionWriteSet, op: Operation)
    requires op in WriteCollection(c, data)
    ensures WriteOperation(c, data, op)
  {
    var documents := WriteDocuments(c, DocumentIds(data.documents.Keys), data.documents);
    var indexes := WriteIndexes(Ids(data.indexEntries.Keys), data.indexEntries);
    assert op == UseCollection(c) || op in documents || op in indexes || op in SetMetadataOf(c, data);
    if op in documents {
      DocumentsKinds(c, DocumentIds(data.documents.Keys), data.documents);
    } else if op in indexes {
      IndexesKinds(Ids(data.indexEntries.Keys), data.indexEntries, op);
    }
  }

  lemma {:induction false} WritesKinds(cs: seq<CollectionId>, collections: Collections, op: Operation)
    requires (forall c | c in cs :: c in collections) && op in WriteCollections(cs, collections)
    ensures exists c | c in cs :: WriteOperation(c, collections[c], op)
    decreases |cs|
  {
    if op in WriteCollection(cs[0], collections[cs[0]]) {
      assert cs[0] in cs;
      CollectionKinds(cs[0], collections[cs[0]], op);
    } else {
      WritesKinds(cs[1..], collections, op);
    }
  }

  /** A batch first creates, then writes. */
  lemma Phases(batch: Batch)
    ensures Operations(batch) == Creations(batch) + IndexCreations(batch) + Writes(batch)
    ensures forall op | op in Creations(batch) :: op.MakeCollection? && op.temporaryCollection in batch.newCollections
    ensures forall op | op in IndexCreations(batch) :: op.UseCollection? || op.MakeIndex?
    ensures forall op | op in Writes(batch) :: exists c | c in batch.collections ::
      WriteOperation(c, batch.collections[c], op)
  {
    CreationsKinds(Ids(batch.newCollections.Keys), batch.newCollections);
    AllIndexCreationsKinds(Ids(batch.newIndexes.Keys), batch.newIndexes);
    forall op | op in Writes(batch) ensures exists c | c in batch.collections ::
      WriteOperation(c, batch.collections[c], op) {
      WritesKinds(Ids(batch.collections.Keys), batch.collections, op);
    }
  }

  lemma LaterPhases(batch: Batch)
    ensures forall op | op in IndexCreations(batch) || op in Writes(batch) :: !op.MakeCollection?
    ensures forall op | op in Writes(batch) :: !op.MakeIndex?
  {
    Phases(batch);
    forall op | op in Writes(batch) ensures !op.MakeCollection? && !op.MakeIndex? {
      var c :| c in batch.collections && WriteOperation(c, batch.collections[c], op);
    }
  }

  // ------------------------------------------------------------- fixed meanings

  lemma StepKeepsMade(p: Progress, op: Operation, ts: U64)
    ensures !op.MakeCollection? ==> Step(p, op, ts).newCollections == p.newCollections
    ensures !op.MakeIndex? ==> Step(p, op, ts).newIndexes == p.newIndexes
  {
  }

  lemma {:induction false} FixedCollections(p: Progress, ops: seq<Operation>, ts: U64, c: CollectionId, d: DocumentId)
    requires forall op | op in ops :: !op.MakeCollection?
    ensures Run(p, ops, ts).newCollections == p.newCollections
    ensures LastDocumentWrite(p, ops, ts, c, d) == LastDocument(ops, p.newCollections, c, d)
    decreases |ops|
  {
    if ops != [] {
      StepKeepsMade(p, ops[0], ts);
      FixedCollections(Step(p, ops[0], ts), ops[1..], ts, c, d);
    }
  }

  lemma {:induction false} FixedIndexes(p: Progress, ops: seq<Operation>, ts: U64, i: IndexId, at: IndexPosition)
    requires forall op | op in ops :: !op.MakeIndex?
    ensures Run(p, ops, ts).newIndexes == p.newIndexes
    ensures LastIndexWrite(p, ops, ts, i, at) == LastEntry(ops, p.newIndexes, i, at)
    decreases |ops|
  {
    if ops != [] {
      StepKeepsMade(p, ops[0], ts);
      FixedIndexes(Step(p, ops[0], ts), ops[1..], ts, i, at);
    }
  }

  lemma {:induction false} LastDocumentWriteAppend(p: Progress, a: seq<Operation>, b: seq<Operation>, ts: U64,
          c: CollectionId, d: DocumentId)
    requires forall op | op in a :: !op.WriteDocument?
    ensures LastDocumentWrite(p, a + b, ts, c, d) == LastDocumentWrite(Run(p, a, ts), b, ts, c, d)
    decreases |a|
  {
    if a == [] {
      assert a + b == b;
    } else {
      assert (a + b)[1..] == a[1..] + b;
      LastDocumentWriteAppend(Step(p, a[0], ts), a[1..], b, ts, c, d);
    }
  }

  lemma {:induction false} LastIndexWriteAppend(p: Progress, a: seq<Operation>, b: seq<Operation>, ts: U64, i: IndexId,
          at: IndexPosition)
    requires forall op | op in a :: !op.WriteIndex?
    ensures LastIndexWrite(p, a + b, ts, i, at) == LastIndexWrite(Run(p, a, ts), b, ts, i, at)
    decreases |a|
  {
    if a == [] {
      assert a + b == b;
    } else {
      assert (a + b)[1..] == a[1..] + b;
      LastIndexWriteAppend(Step(p, a[0], ts), a[1..], b, ts, i, at);
    }
  }

  // --------------------------------------------------------------- main results

  lemma WrittenDocument(p: Progress, batch: Batch, c: CollectionId, d: DocumentId)
    ensures Run(p, Writes(batch), batch.ts).newCollections == p.newCollections
    ensures LastDocumentWrite(p, Writes(batch), batch.ts, c, d)
         == RecordedDocument(batch.collections, Ids(batch.collections.Keys), p.newCollections, c, d)
  {
    LaterPhases(batch);
    FixedCollections(p, Writes(batch), batch.ts, c, d);
    CollectionsWritten(Ids(batch.collections.Keys), batch.collections, p.newCollections, c, d, 0, IndexPosition([], 0));
  }

  lemma WrittenEntry(p: Progress, batch: Batch, i: IndexId, at: IndexPosition)
    ensures Run(p, Writes(batch), batch.ts).newIndexes == p.newIndexes
    ensures LastIndexWrite(p, Writes(batch), batch.ts, i, at)
         == RecordedPosition(batch.collections, Ids(batch.collections.Keys), p.newIndexes, i, at)
  {
    LaterPhases(batch);
    FixedIndexes(p, Writes(batch), batch.ts, i, at);
    CollectionsWritten(Ids(batch.collections.Keys), batch.collections, p.newIndexes, 0, 0, i, at);
  }

  /** A batch writes to a document what the last collection that stands for the document's collection has recorded. */
  lemma BatchDocument(p: Progress, batch: Batch, c: CollectionId, d: DocumentId)
    ensures LastDocumentWrite(p, Operations(batch), batch.ts, c, d)
         == RecordedDocument(batch.collections, Ids(batch.collections.Keys),
                             Run(p, Operations(batch), batch.ts).newCollections, c, d)
  {
    var made, writes := Creations(batch) + IndexCreations(batch), Writes(batch);
    Phases(batch);
    LastDocumentWriteAppend(p, made, writes, batch.ts, c, d);
    RunAppend(p, made, writes, batch.ts);
    WrittenDocument(Run(p, made, batch.ts), batch, c, d);
  }

  /**
   A batch writes to an index entry what the last collection, and in it the last index that stands for the entry's, has
   recorded.
   */
  lemma BatchEntry(p: Progress, batch: Batch, i: IndexId, at: IndexPosition)
    ensures LastIndexWrite(p, Operations(batch), batch.ts, i, at)
         == RecordedPosition(batch.collections, Ids(batch.collections.Keys),
                             Run(p, Operations(batch), batch.ts).newIndexes, i, at)
  {
    var made, writes := Creations(batch) + IndexCreations(batch), Writes(batch);
    Phases(batch);
    LastIndexWriteAppend(p, made, writes, batch.ts, i, at);
    RunAppend(p, made, writes, batch.ts);
    WrittenEntry(Run(p, made, batch.ts), batch, i, at);
  }

  // ---------------------------------------------------------------- stored ids

  /** The batch writes only to stored ids. */
  ghost predicate StoredIdsOnly(writes: Collections) {
    forall c | c in writes :: c >= 0 && forall i | i in writes[c].indexEntries :: i >= 0
  }

  /** The write of the last listed collection that records one. */
  function LastRecorded(collections: Collections, cs: seq<CollectionId>, i: IndexId,
                        at: IndexPosition): Option<IndexWrite>
    decreases |cs|
  {
    if cs == [] then None
    else OrElse(LastRecorded(collections, cs[1..], i, at), IndexWriteOf(collections, cs[0], i, at))
  }

  /**
   What a commit makes of an entry of a stored index: the write of the last collection, in id order, that records one.
   */
  function CommittedWrite(collections: Collections, i: IndexId, at: IndexPosition): Option<IndexWrite> {
    LastRecorded(collections, Ids(collections.Keys), i, at)
  }

  lemma BatchDocumentWrite(p: Progress, batch: Batch, c: CollectionId, d: DocumentId)
    requires StoredIdsOnly(batch.collections)
    ensures LastDocumentWrite(p, Operations(batch), batch.ts, c, d) == DocumentWriteOf(batch.collections, c, d)
  {
    BatchDocument(p, batch, c, d);
    StoredDocuments(batch.collections, Ids(batch.collections.Keys), Run(p, Operations(batch), batch.ts).newCollections,
                    c, d);
  }

  lemma BatchIndexWrite(p: Progress, batch: Batch, i: IndexId, at: IndexPosition)
    requires StoredIdsOnly(batch.collections)
    ensures LastIndexWrite(p, Operations(batch), batch.ts, i, at) == CommittedWrite(batch.collections, i, at)
  {
    BatchEntry(p, batch, i, at);
    StoredPositions(batch.collections, Ids(batch.collections.Keys), Run(p, Operations(batch), batch.ts).newIndexes, i,
                    at);
  }

  /** The collection's write is the last one if no collection with a greater id records one. */
  lemma {:induction false} LastRecordedIs(collections: Collections, cs: seq<CollectionId>, c: CollectionId, i: IndexId,
                                          at: IndexPosition)
    requires Sorted(SignedLess, cs)
    requires forall c' | c' in cs && c < c' :: IndexWriteOf(collections, c', i, at).None?
    requires c in cs && IndexWriteOf(collections, c, i, at).Some?
    ensures LastRecorded(collections, cs, i, at) == IndexWriteOf(collections, c, i, at)
    decreases |cs|
  {
    if c == cs[0] {
      NoneRecorded(collections, cs[1..], i, at);
    } else {
      LastRecordedIs(collections, cs[1..], c, i, at);
    }
  }

  lemma {:induction false} NoneRecorded(collections: Collections, cs: seq<CollectionId>, i: IndexId, at: IndexPosition)
    requires forall c | c in cs :: IndexWriteOf(collections, c, i, at).None?
    ensures LastRecorded(collections, cs, i, at) == None
    decreases |cs|
  {
    if cs != [] {
      assert cs[0] in cs && forall c | c in cs[1..] :: c in cs;
      NoneRecorded(collections, cs[1..], i, at);
    }
  }

  /** What a commit makes of an entry: the write of the recording collection with the greatest id. */
  lemma CommittedWriteIs(collections: Collections, c: CollectionId, i: IndexId, at: IndexPosition)
    requires forall c' | c' in collections && c < c' :: IndexWriteOf(collections, c', i, at).None?
    requires IndexWriteOf(collections, c, i, at).Some?
    ensures CommittedWrite(collections, i, at) == IndexWriteOf(collections, c, i, at)
  {
    LastRecordedIs(collections, Ids(collections.Keys), c, i, at);
  }

  lemma NothingCommitted(collections: Collections, i: IndexId, at: IndexPosition)
    requires forall c | c in collections :: IndexWriteOf(collections, c, i, at).None?
    ensures CommittedWrite(collections, i, at) == None
  {
    NoneRecorded(collections, Ids(collections.Keys), i, at);
  }

  /** For a collection that no other id stands for, its own record decides. */
  lemma {:induction false} StoredDocuments(collections: Collections, cs: seq<CollectionId>, made: Made, c: CollectionId,
          d: DocumentId)
    requires forall x | x in cs :: x == c <==> Resolve(x, made) == Some(c)
    ensures RecordedDocument(collections, cs, made, c, d)
       == if c in cs then DocumentWriteOf(collections, c, d) else None
    decreases |cs|
  {
    if cs != [] {
      assert cs[0] in cs && forall x | x in cs[1..] :: x in cs;
      StoredDocuments(collections, cs[1..], made, c, d);
    }
  }

  lemma {:induction false} StoredEntries(indexes: map<IndexId, map<IndexPosition, IndexWrite>>, ids: seq<IndexId>,
                                         made: Made, i: IndexId, at: IndexPosition)
    requires forall x | x in ids :: x in indexes && (x == i <==> Resolve(x, made) == Some(i))
    ensures RecordedEntry(indexes, ids, made, i, at)
       == if i in ids && at in indexes[i] then Some(indexes[i][at]) else None
    decreases |ids|
  {
    if ids != [] {
      StoredEntries(indexes, ids[1..], made, i, at);
    }
  }

  /** For an index that no other id stands for, the last collection that records an entry decides. */
  lemma {:induction false} StoredPositions(collections: Collections, cs: seq<CollectionId>, made: Made, i: IndexId,
          at: IndexPosition)
    requires forall c, x | c in cs && x in Recorded(collections, c).indexEntries ::
      x == i <==> Resolve(x, made) == Some(i)
    ensures RecordedPosition(collections, cs, made, i, at) == LastRecorded(collections, cs, i, at)
    decreases |cs|
  {
    if cs != [] {
      assert cs[0] in cs && forall x | x in cs[1..] :: x in cs;
      var indexes := Recorded(collections, cs[0]).indexEntries;
      StoredEntries(indexes, Ids(indexes.Keys), made, i, at);
      StoredPositions(collections, cs[1..], made, i, at);
    }
  }
}
