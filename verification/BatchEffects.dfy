/**
 What a whole batch does to documents, index entries and the catalog: its last write to each decides, at its own
 timestamp.
 */
module BatchEffects {
  import opened ByteStrings
  import opened Types
  import opened Lmdb
  import opened HeedEncoding
  import opened IndexTrie
  import opened WriteSets
  import opened Databases
  import opened Catalogs
  import opened Batches
  import opened BatchInvariants

  // ------------------------------------------------------------------- tables

  /** The tables that an operation may change. */
  ghost predicate OnlyTables(op: Operation, before: Databases, after: Databases) {
    match op
    case MakeCollection(_, _) =>
      after == before.(collectionsCatalog := after.collectionsCatalog, collectionIdsByName := after.collectionIdsByName)
    case MakeIndex(_, _, _) => after == before.(indexesCatalog := after.indexesCatalog)
    case WriteDocument(_, _, _) => after == before.(documents := after.documents, vacuumTargets := after.vacuumTargets)
    case WriteIndex(_, _, _) => after == before.(indexEdges := after.indexEdges, indexLeaves := after.indexLeaves)
    case SetMetadata(_, _) => after == before.(collectionsCatalog := after.collectionsCatalog)
    case UseCollection(_) => after == before
    case UseIndex(_) => after == before
  }

  lemma MakeCollectionTables(p: Progress, temporary: CollectionId, name: Name, ts: U64)
    ensures OnlyTables(MakeCollection(temporary, name), p.writer.db,
                       StepMakeCollection(p, temporary, name, ts).writer.db)
  {
  }

  lemma MakeIndexTables(p: Progress, c: CollectionId, temporary: IndexId, write: IndexCatalogWrite)
    ensures OnlyTables(MakeIndex(c, temporary, write), p.writer.db, StepMakeIndex(p, c, temporary, write).writer.db)
  {
  }

  lemma PutIndexEntryTables(w: Writer, i: IndexId, value: Bytes, document: DocumentId)
    ensures var after := PutIndexEntry(w, i, value, document).0.db;
      after == w.db.(indexEdges := after.indexEdges, indexLeaves := after.indexLeaves)
  {
  }

  lemma DeleteIndexEntryTables(w: Writer, i: IndexId, value: Bytes, document: DocumentId)
    ensures var after := DeleteIndexEntry(w, i, value, document).0.db;
      after == w.db.(indexEdges := after.indexEdges, indexLeaves := after.indexLeaves)
  {
  }

  lemma WriteIndexTables(p: Progress, i: IndexId, position: IndexPosition, write: IndexWrite)
    ensures OnlyTables(WriteIndex(i, position, write), p.writer.db, StepWriteIndex(p, i, position, write).writer.db)
  {
    var resolved := ResolveIndex(p, i);
    if resolved.Some? {
      PutIndexEntryTables(p.writer, resolved.value, position.value, position.documentId);
      DeleteIndexEntryTables(p.writer, resolved.value, position.value, position.documentId);
    }
  }

  lemma SetMetadataTables(p: Progress, c: CollectionId, metadata: Bytes, ts: U64)
    ensures OnlyTables(SetMetadata(c, metadata), p.writer.db, StepSetMetadata(p, c, metadata, ts).writer.db)
  {
  }

  lemma StepTables(p: Progress, op: Operation, ts: U64)
    ensures OnlyTables(op, p.writer.db, Step(p, op, ts).writer.db)
  {
    match op
    case MakeCollection(temporary, name) => MakeCollectionTables(p, temporary, name, ts);
    case MakeIndex(c, temporary, write) => MakeIndexTables(p, c, temporary, write);
    case WriteIndex(i, position, write) => WriteIndexTables(p, i, position, write);
    case SetMetadata(c, metadata) => SetMetadataTables(p, c, metadata, ts);
    case WriteDocument(_, _, _) =>
    case UseCollection(_) =>
    case UseIndex(_) =>
  }

  // ---------------------------------------------------------------- documents

  /** The write of one operation to a document, once its collection is resolved. */
  function DocumentWriteBy(p: Progress, op: Operation, c: CollectionId, d: DocumentId): Option<DocumentWrite> {
    if op.WriteDocument? && op.document == d && ResolveCollection(p, op.collection) == Some(c)
    then Some(op.documentWrite)
    else None
  }

  function LastDocumentWrite(p: Progress, ops: seq<Operation>, ts: U64, c: CollectionId,
                             d: DocumentId): Option<DocumentWrite>
    decreases |ops|
  {
    if ops == [] then None
    else
      var later := LastDocumentWrite(Step(p, ops[0], ts), ops[1..], ts, c, d);
      if later.Some? then later else DocumentWriteBy(p, ops[0], c, d)
  }

  function RowAt(db: Database, key: Bytes): Option<Bytes> {
    if key in db then Some(db[key]) else None
  }

  lemma StepDocuments(p: Progress, op: Operation, ts: U64, c: CollectionId, d: DocumentId, v: U64)
    requires p.error.None? && Step(p, op, ts).error.None?
    ensures RowAt(Step(p, op, ts).writer.db.documents, EncodeDocumentKey(c, d, v)) ==
      var write := DocumentWriteBy(p, op, c, d);
      if v == ts && write.Some? then Some(EncodeWrite(write.value))
      else RowAt(p.writer.db.documents, EncodeDocumentKey(c, d, v))
  {
    if op.WriteDocument? {
      DocumentKeyOrder(c, d, v, ResolveCollection(p, op.collection).value, op.document, ts);
    } else {
      StepTables(p, op, ts);
    }
  }

  /**
   A version row exists after the batch as before it, except that the last write to the document is its version at
   `ts`.
   */
  lemma {:induction false} RunDocuments(p: Progress, ops: seq<Operation>, ts: U64, c: CollectionId, d: DocumentId,
                                        v: U64)
    requires Run(p, ops, ts).error.None?
    ensures RowAt(Run(p, ops, ts).writer.db.documents, EncodeDocumentKey(c, d, v)) ==
      var write := LastDocumentWrite(p, ops, ts, c, d);
      if v == ts && write.Some? then Some(EncodeWrite(write.value))
      else RowAt(p.writer.db.documents, EncodeDocumentKey(c, d, v))
    decreases |ops|
  {
    if ops != [] {
      NoEarlierError(p, ops, ts);
      StepDocuments(p, ops[0], ts, c, d, v);
      RunDocuments(Step(p, ops[0], ts), ops[1..], ts, c, d, v);
    }
  }

  lemma StepVacuum(p: Progress, op: Operation, ts: U64, c: CollectionId, d: DocumentId)
    requires p.error.None? && Step(p, op, ts).error.None?
    ensures EncodeVacuumTargetKey(c, d) in Step(p, op, ts).writer.db.vacuumTargets
       <==> EncodeVacuumTargetKey(c, d) in p.writer.db.vacuumTargets || DocumentWriteBy(p, op, c, d).Some?
  {
    if op.WriteDocument? {
      VacuumTargetPrefix(c, d, ResolveCollection(p, op.collection).value, op.document, ts);
    } else {
      StepTables(p, op, ts);
    }
  }

  /** A batch enters in the vacuum list exactly the documents it writes, and drops none. */
  lemma {:induction false} RunVacuum(p: Progress, ops: seq<Operation>, ts: U64, c: CollectionId, d: DocumentId)
    requires Run(p, ops, ts).error.None?
    ensures EncodeVacuumTargetKey(c, d) in Run(p, ops, ts).writer.db.vacuumTargets
       <==> EncodeVacuumTargetKey(c, d) in p.writer.db.vacuumTargets || LastDocumentWrite(p, ops, ts, c, d).Some?
    decreases |ops|
  {
    if ops != [] {
      NoEarlierError(p, ops, ts);
      StepVacuum(p, ops[0], ts, c, d);
      RunVacuum(Step(p, ops[0], ts), ops[1..], ts, c, d);
    }
  }

  lemma NoEarlierError(p: Progress, ops: seq<Operation>, ts: U64)
    requires ops != [] && Run(p, ops, ts).error.None?
    ensures p.error.None? && Step(p, ops[0], ts).error.None?
  {
    if p.error.Some? {
      RunStopped(p, ops, ts);
    }
    if Step(p, ops[0], ts).error.Some? {
      RunStopped(Step(p, ops[0], ts), ops[1..], ts);
    }
  }

  // ------------------------------------------------------------ index entries

  function IndexWriteBy(p: Progress, op: Operation, i: IndexId, position: IndexPosition): Option<IndexWrite> {
    if op.WriteIndex? && op.position == position && ResolveIndex(p, op.index) == Some(i) then Some(op.indexWrite)
    else None
  }

  function LastIndexWrite(p: Progress, ops: seq<Operation>, ts: U64, i: IndexId,
                          position: IndexPosition): Option<IndexWrite>
    decreases |ops|
  {
    if ops == [] then None
    else
      var later := LastIndexWrite(Step(p, ops[0], ts), ops[1..], ts, i, position);
      if later.Some? then later else IndexWriteBy(p, ops[0], i, position)
  }

  ghost predicate Posted(w: Writer, i: IndexId, position: IndexPosition)
    requires WriterOk(w)
  {
    Posting(i, position) in StoredPostings(w.db)
  }

  lemma AppliedEntry(w: Writer, index: IndexId, at: IndexPosition, write: IndexWrite, i: IndexId,
                     position: IndexPosition)
    requires WriterOk(w) && ApplyIndexWrite(w, index, at, write).1.None?
    ensures WriterOk(ApplyIndexWrite(w, index, at, write).0)
    ensures Posted(ApplyIndexWrite(w, index, at, write).0, i, position) <==>
      if index == i && at == position then write.IndexPut? else Posted(w, i, position)
  {
    match write
    case IndexPut => PutIndexEntryKeeps(w, index, at.value, at.documentId);
    case IndexDeleted => DeleteIndexEntryKeeps(w, index, at.value, at.documentId);
  }

  lemma EntryPosted(p: Progress, index: IndexId, at: IndexPosition, write: IndexWrite, i: IndexId,
                    position: IndexPosition)
    requires p.error.None? && WriterOk(p.writer) && StepWriteIndex(p, index, at, write).error.None?
    ensures WriterOk(StepWriteIndex(p, index, at, write).writer)
    ensures Posted(StepWriteIndex(p, index, at, write).writer, i, position) <==>
      if ResolveIndex(p, index) == Some(i) && at == position then write.IndexPut? else Posted(p.writer, i, position)
  {
    AppliedEntry(p.writer, ResolveIndex(p, index).value, at, write, i, position);
  }

  lemma StepPostings(p: Progress, op: Operation, ts: U64, i: IndexId, position: IndexPosition)
    requires ProgressOk(p) && p.error.None? && Step(p, op, ts).error.None?
    ensures WriterOk(Step(p, op, ts).writer)
    ensures Posted(Step(p, op, ts).writer, i, position) <==>
      match IndexWriteBy(p, op, i, position)
      case Some(IndexPut) => true
      case Some(IndexDeleted) => false
      case None => Posted(p.writer, i, position)
  {
    StepKeeps(p, op, ts);
    if op.WriteIndex? {
      EntryPosted(p, op.index, op.position, op.indexWrite, i, position);
    } else {
      StepTables(p, op, ts);
    }
  }

  /** The index tables after a batch hold the entries whose last write was a put, and those it did not touch. */
  lemma {:induction false} RunPostings(p: Progress, ops: seq<Operation>, ts: U64, i: IndexId, position: IndexPosition)
    requires ProgressOk(p) && Run(p, ops, ts).error.None?
    ensures p.error.None? && WriterOk(Run(p, ops, ts).writer)
    ensures Posted(Run(p, ops, ts).writer, i, position) <==>
      match LastIndexWrite(p, ops, ts, i, position)
      case Some(IndexPut) => true
      case Some(IndexDeleted) => false
      case None => Posted(p.writer, i, position)
    decreases |ops|
  {
    if ops != [] {
      NoEarlierError(p, ops, ts);
      StepKeeps(p, ops[0], ts);
      StepPostings(p, ops[0], ts, i, position);
      RunPostings(Step(p, ops[0], ts), ops[1..], ts, i, position);
    }
  }

  // ------------------------------------------------------------------ catalog

  lemma PutOtherVersion(w: Writer, id': CollectionId, name: Name, metadata: Bytes, ts: U64, id: CollectionId, v: U64)
    requires v != ts
    ensures RowAt(PutCatalogEntry(w, id', name, metadata, ts).db.collectionsCatalog, EncodeCollectionCatalogKey(id, v))
         == RowAt(w.db.collectionsCatalog, EncodeCollectionCatalogKey(id, v))
  {
    CollectionCatalogKeyOrder(id, v, id', ts);
  }

  lemma CreateAtVersion(w: Writer, name: Name, ts: U64, id: CollectionId, v: U64)
    requires v != ts
    ensures RowAt(CreateCollection(w, name, None, ts).0.db.collectionsCatalog, EncodeCollectionCatalogKey(id, v))
         == RowAt(w.db.collectionsCatalog, EncodeCollectionCatalogKey(id, v))
  {
    match AllocateCollectionId(w.memory)
    case None =>
    case Some((memory, id')) => PutOtherVersion(w.(memory := memory), id', name, [], ts, id, v);
  }

  lemma StepCatalog(p: Progress, op: Operation, ts: U64, id: CollectionId, v: U64)
    requires v != ts
    ensures RowAt(Step(p, op, ts).writer.db.collectionsCatalog, EncodeCollectionCatalogKey(id, v))
         == RowAt(p.writer.db.collectionsCatalog, EncodeCollectionCatalogKey(id, v))
  {
    match op
    case MakeCollection(_, name) => CreateAtVersion(p.writer, name, ts, id, v);
    case SetMetadata(c, metadata) =>
      var resolved := ResolveCollection(p, c);
      if resolved.Some? {
        var found := CollectionById(p.writer.db.collectionsCatalog, resolved.value, U64_MAX);
        if found.Success? && found.value.Some? {
          PutOtherVersion(p.writer, resolved.value, found.value.value.0, metadata, ts, id, v);
        }
      }
    case _ => StepTables(p, op, ts);
  }

  /** A batch writes no catalog version but those at its own timestamp. */
  lemma {:induction false} RunCatalog(p: Progress, ops: seq<Operation>, ts: U64, id: CollectionId, v: U64)
    requires v != ts
    ensures RowAt(Run(p, ops, ts).writer.db.collectionsCatalog, EncodeCollectionCatalogKey(id, v))
         == RowAt(p.writer.db.collectionsCatalog, EncodeCollectionCatalogKey(id, v))
    decreases |ops|
  {
    if ops != [] {
      StepCatalog(p, ops[0], ts, id, v);
      RunCatalog(Step(p, ops[0], ts), ops[1..], ts, id, v);
    }
  }

  lemma StepNames(p: Progress, op: Operation, ts: U64, name: Bytes)
    requires name in p.writer.db.collectionIdsByName
    ensures RowAt(Step(p, op, ts).writer.db.collectionIdsByName, name) == RowAt(p.writer.db.collectionIdsByName, name)
  {
    match op
    case MakeCollection(_, _) =>
    case _ => StepTables(p, op, ts);
  }

  /** A name keeps its id for ever. */
  lemma {:induction false} RunNames(p: Progress, ops: seq<Operation>, ts: U64, name: Bytes)
    requires name in p.writer.db.collectionIdsByName
    ensures RowAt(Run(p, ops, ts).writer.db.collectionIdsByName, name) == RowAt(p.writer.db.collectionIdsByName, name)
    decreases |ops|
  {
    if ops != [] {
      StepNames(p, ops[0], ts, name);
      RunNames(Step(p, ops[0], ts), ops[1..], ts, name);
    }
  }
}
