/**
 Which batches are accepted: those that refer to known ids only, with a timestamp that is not too low, while ids last.
 */
module Acceptance {
  import opened ByteStrings
  import opened Types
  import opened BigEndian
  import opened Lmdb
  import opened HeedEncoding
  import opened IndexUpdates
  import opened WriteSets
  import opened Catalogs
  import opened Batches
  import opened BatchInvariants
  import opened BatchEffects
  import opened BatchWrites
  import opened Engines
  import opened History
  import opened AllocatedIds
  import opened NewCollections
  import opened NewIndexes
  import opened CatalogWrites

  // --------------------------------------------------------------- one operation

  /** Some counter has reached its end. */
  predicate Exhausted(m: Memory) {
    m.collectionId >= TWO_63 - 1 || m.indexId >= TWO_63 - 1 || m.chainId == U64_MAX
  }

  /** The ids that the operation refers to are known, and metadata goes to a collection with some version. */
  ghost predicate Fits(p: Progress, op: Operation) {
    match op
    case MakeCollection(_, _) => true
    case UseCollection(c) => ResolveCollection(p, c).Some?
    case MakeIndex(c, _, _) => ResolveCollection(p, c).Some?
    case WriteDocument(c, _, _) => ResolveCollection(p, c).Some?
    case UseIndex(i) => ResolveIndex(p, i).Some?
    case WriteIndex(i, _, _) => ResolveIndex(p, i).Some?
    case SetMetadata(c, _) =>
      && ResolveCollection(p, c).Some?
      && HasCatalogRow(p.writer.db.collectionsCatalog, ResolveCollection(p, c).value)
  }

  /** Stopped by exhausted ids, or else not stopped exactly if everything fits. */
  ghost predicate Outcome(fits: bool, p: Progress) {
    || (p.error == Some(CountersExhausted) && Exhausted(p.writer.memory))
    || (if fits then p.error == None else p.error == Some(UnknownCollection) || p.error == Some(UnknownIndex))
  }

  lemma MakeCollectionOutcome(p: Progress, t: CollectionId, name: Name, ts: U64)
    requires ProgressOk(p) && p.error.None?
    ensures Outcome(true, StepMakeCollection(p, t, name, ts))
  {
    if name in p.writer.db.collectionIdsByName {
      var id := ExistingStep(p, t, name, ts);
    }
  }

  lemma MakeIndexOutcome(p: Progress, c: CollectionId, t: IndexId, write: IndexCatalogWrite)
    requires ProgressOk(p) && p.error.None?
    ensures Outcome(ResolveCollection(p, c).Some?, StepMakeIndex(p, c, t, write))
  {
    assert IndexCatalogOk(p.writer.db.indexesCatalog, IndexBound(p.writer));
  }

  lemma PutEntryOutcome(w: Writer, index: IndexId, value: Bytes, d: DocumentId)
    requires WriterOk(w)
    ensures var (w', error) := PutIndexEntry(w, index, value, d);
      error == None || (error == Some(CountersExhausted) && w'.memory.chainId == U64_MAX)
  {
    PutEntryRefines(Chains(w), w.db.indexLeaves, StoredAt(w.db.metadata, CHAIN_ID_KEY), index, value, d);
  }

  lemma WriteIndexOutcome(p: Progress, i: IndexId, at: IndexPosition, write: IndexWrite)
    requires ProgressOk(p) && p.error.None?
    ensures Outcome(ResolveIndex(p, i).Some?, StepWriteIndex(p, i, at, write))
  {
    if ResolveIndex(p, i).Some? {
      PutEntryOutcome(p.writer, ResolveIndex(p, i).value, at.value, at.documentId);
      DeleteIndexEntryKeeps(p.writer, ResolveIndex(p, i).value, at.value, at.documentId);
    }
  }

  lemma SetMetadataOutcome(p: Progress, c: CollectionId, metadata: Bytes, ts: U64)
    requires ProgressOk(p) && p.error.None?
    ensures Outcome(Fits(p, SetMetadata(c, metadata)), StepSetMetadata(p, c, metadata, ts))
  {
    if ResolveCollection(p, c).Some? {
      var id := ResolveCollection(p, c).value;
      UpdateMetadataKeeps(p.writer, id, metadata, ts);
      CollectionByIdIsNewest(p.writer.db.collectionIdsByName, p.writer.db.collectionsCatalog,
        CollectionBound(p.writer), id, U64_MAX);
    }
  }

  lemma StepOutcome(p: Progress, op: Operation, ts: U64)
    requires ProgressOk(p) && p.error.None?
    ensures Outcome(Fits(p, op), Step(p, op, ts))
  {
    match op
    case MakeCollection(t, name) => MakeCollectionOutcome(p, t, name, ts);
    case MakeIndex(c, t, write) => MakeIndexOutcome(p, c, t, write);
    case WriteIndex(i, at, write) => WriteIndexOutcome(p, i, at, write);
    case SetMetadata(c, metadata) => SetMetadataOutcome(p, c, metadata, ts);
    case UseCollection(_) =>
    case WriteDocument(_, _, _) =>
    case UseIndex(_) =>
  }

  // ------------------------------------------------------------ many operations

  ghost predicate AllFit(p: Progress, ops: seq<Operation>) {
    forall op | op in ops :: Fits(p, op)
  }

  /** What fits one of the operations does not depend on the others: none makes what another refers to. */
  ghost predicate Independent(ops: seq<Operation>) {
    || (forall op | op in ops :: op.UseCollection? || op.MakeIndex?)
    || (forall op | op in ops :: !op.MakeCollection? && !op.MakeIndex?)
  }

  lemma VersionKeepsRows(w: Writer, id: CollectionId, name: Name, metadata: Bytes, ts: U64, c: CollectionId)
    requires HasCatalogRow(w.db.collectionsCatalog, id)
    ensures HasCatalogRow(PutCatalogEntry(w, id, name, metadata, ts).db.collectionsCatalog, c)
       <==> HasCatalogRow(w.db.collectionsCatalog, c)
  {
    var catalog := w.db.collectionsCatalog;
    var key := EncodeCollectionCatalogKey(id, ts);
    if HasCatalogRow(catalog, c) {
      RowsStay(catalog, key, EncodeCollectionCatalogValue(name, metadata), c);
    }
    if v: U64 :| EncodeCollectionCatalogKey(c, v) in catalog[key := EncodeCollectionCatalogValue(name, metadata)] {
      CollectionCatalogKeyOrder(c, v, id, ts);
    }
  }

  lemma StepKeepsRows(p: Progress, op: Operation, ts: U64, c: CollectionId)
    requires ProgressOk(p) && p.error.None? && Step(p, op, ts).error.None? && !op.MakeCollection?
    ensures HasCatalogRow(Step(p, op, ts).writer.db.collectionsCatalog, c)
       <==> HasCatalogRow(p.writer.db.collectionsCatalog, c)
  {
    if op.SetMetadata? {
      var name := UpdatedRow(p, op.collection, op.metadata, ts);
      UpdateMetadataKeeps(p.writer, ResolveCollection(p, op.collection).value, op.metadata, ts);
      VersionKeepsRows(p.writer, ResolveCollection(p, op.collection).value, name, op.metadata, ts, c);
    } else {
      StepTables(p, op, ts);
    }
  }

  /** What an operation needs of the progress. */
  lemma FitDepends(p: Progress, p': Progress, later: Operation)
    requires p'.newCollections == p.newCollections
    requires (later.UseIndex? || later.WriteIndex?) ==> p'.newIndexes == p.newIndexes
    requires later.SetMetadata? && ResolveCollection(p, later.collection).Some? ==>
      var c := ResolveCollection(p, later.collection).value;
      HasCatalogRow(p'.writer.db.collectionsCatalog, c) <==> HasCatalogRow(p.writer.db.collectionsCatalog, c)
    ensures Fits(p', later) <==> Fits(p, later)
  {
  }

  lemma StepKeepsFit(p: Progress, p': Progress, op: Operation, ts: U64, later: Operation)
    requires ProgressOk(p) && p.error.None? && p' == Step(p, op, ts) && p'.error.None? && !op.MakeCollection?
    requires op.MakeIndex? ==> later.UseCollection? || later.MakeIndex?
    ensures Fits(p', later) <==> Fits(p, later)
  {
    StepKeepsMade(p, op, ts);
    if later.SetMetadata? && ResolveCollection(p, later.collection).Some? {
      StepKeepsRows(p, op, ts, ResolveCollection(p, later.collection).value);
    }
    FitDepends(p, p', later);
  }

  lemma {:induction false} RunOutcome(p: Progress, ops: seq<Operation>, ts: U64)
    requires ProgressOk(p) && p.error.None? && Independent(ops)
    ensures Outcome(AllFit(p, ops), Run(p, ops, ts))
    decreases |ops|
  {
    if ops != [] {
      assert ops[0] in ops && forall op | op in ops[1..] :: op in ops;
      var p' := Step(p, ops[0], ts);
      StepOutcome(p, ops[0], ts);
      StepKeeps(p, ops[0], ts);
      if p'.error.Some? {
        RunStopped(p', ops[1..], ts);
      } else {
        forall op | op in ops[1..] ensures Fits(p', op) <==> Fits(p, op) {
          StepKeepsFit(p, p', ops[0], ts, op);
        }
        assert AllFit(p, ops) <==> AllFit(p', ops[1..]);
        RunOutcome(p', ops[1..], ts);
      }
    }
  }

  lemma {:induction false} CreationsOutcome(p: Progress, ops: seq<Operation>, ts: U64)
    requires ProgressOk(p) && p.error.None? && forall op | op in ops :: op.MakeCollection?
    ensures Outcome(true, Run(p, ops, ts))
    decreases |ops|
  {
    if ops != [] {
      assert ops[0] in ops && forall op | op in ops[1..] :: op in ops;
      var p' := Step(p, ops[0], ts);
      StepOutcome(p, ops[0], ts);
      StepKeeps(p, ops[0], ts);
      if p'.error.Some? {
        RunStopped(p', ops[1..], ts);
      } else {
        CreationsOutcome(p', ops[1..], ts);
      }
    }
  }

  // ------------------------------------------------------ what a batch refers to

  ghost predicate KnownCollection(batch: Batch, c: CollectionId) {
    c >= 0 || c in batch.newCollections
  }

  ghost predicate KnownIndex(batch: Batch, i: IndexId) {
    i >= 0 || exists c | c in batch.newIndexes :: i in batch.newIndexes[c]
  }

  /** Metadata may go to a new collection, to one with a stored version, and to an id that the batch allocates. */
  ghost predicate TakesMetadata(e: Engine, batch: Batch, c: CollectionId) {
    c < 0 || HasCatalogRow(e.committed.collectionsCatalog, c) || Creates(e, batch, c)
  }

  ghost predicate KnownWrites(e: Engine, batch: Batch, c: CollectionId)
    requires c in batch.collections
  {
    && KnownCollection(batch, c)
    && (forall i | i in batch.collections[c].indexEntries :: KnownIndex(batch, i))
    && (batch.collections[c].metadata.Some? ==> TakesMetadata(e, batch, c))
  }

  /** The batch refers to known ids only: told from the engine and the batch before the call. */
  ghost predicate RefersToKnown(e: Engine, batch: Batch) {
    && (forall c | c in batch.newIndexes :: KnownCollection(batch, c))
    && (forall c | c in batch.collections :: KnownWrites(e, batch, c))
  }

  // --------------------------------------------------------------- first two phases

  lemma {:induction false} MadeIdsKeys(ids: seq<CollectionId>, names: map<CollectionId, Name>, table: Database,
                                       counter: U64)
    requires forall t | t in ids :: t in names
    ensures forall t | t in MadeIds(ids, names, table, counter) :: t in ids
    decreases |ids|
  {
    if ids != [] {
      var name := names[ids[0]];
      match CollectionIdByName(table, name)
      case Success(Some(id)) => MadeIdsKeys(ids[1..], names, table, counter);
      case _ =>
        if counter < TWO_63 - 1 {
          MadeIdsKeys(ids[1..], names, table[name := I64Be(counter + 1)], counter + 1);
        }
    }
  }

  /** After the first phase exactly the known collections are resolved. */
  lemma CollectionsKnown(e: Engine, batch: Batch, c: CollectionId)
    requires EngineOk(e) && Run(Begin(e), Creations(batch), batch.ts).error.None?
    ensures Resolve(c, Run(Begin(e), Creations(batch), batch.ts).newCollections).Some? <==> KnownCollection(batch, c)
  {
    BeginOk(e);
    CreationsMade(e, batch);
    MadeIdsKeys(Ids(batch.newCollections.Keys), batch.newCollections, e.committed.collectionIdsByName,
      e.memory.collectionId);
    if c in batch.newCollections {
      MakeCollectionsResolve(Begin(e), Ids(batch.newCollections.Keys), batch.newCollections, batch.ts, c);
    }
  }

  lemma {:induction false} IndexPhaseHas(cs: seq<CollectionId>,
                                         indexes: map<CollectionId, map<IndexId, IndexCatalogWrite>>, op: Operation)
    requires forall c | c in cs :: c in indexes
    ensures op in MakeAllIndexes(cs, indexes) ==> (op.UseCollection? || op.MakeIndex?) && op.collection in cs
    ensures op.UseCollection? && op.collection in cs ==> op in MakeAllIndexes(cs, indexes)
    decreases |cs|
  {
    if cs != [] {
      MakesListed(cs[0], Ids(indexes[cs[0]].Keys), indexes[cs[0]], op);
      IndexPhaseHas(cs[1..], indexes, op);
    }
  }

  lemma IndexOperationFits(e: Engine, batch: Batch, op: Operation)
    requires EngineOk(e) && Run(Begin(e), Creations(batch), batch.ts).error.None? && op in IndexCreations(batch)
    ensures (op.UseCollection? || op.MakeIndex?) && op.collection in batch.newIndexes
    ensures Fits(Run(Begin(e), Creations(batch), batch.ts), op) <==> KnownCollection(batch, op.collection)
  {
    IndexPhaseHas(Ids(batch.newIndexes.Keys), batch.newIndexes, op);
    CollectionsKnown(e, batch, op.collection);
  }

  lemma IndexPhaseFits(e: Engine, batch: Batch)
    requires EngineOk(e) && Run(Begin(e), Creations(batch), batch.ts).error.None?
    ensures AllFit(Run(Begin(e), Creations(batch), batch.ts), IndexCreations(batch))
       <==> forall c | c in batch.newIndexes :: KnownCollection(batch, c)
  {
    var p := Run(Begin(e), Creations(batch), batch.ts);
    if AllFit(p, IndexCreations(batch)) {
      forall c | c in batch.newIndexes ensures KnownCollection(batch, c) {
        IndexPhaseHas(Ids(batch.newIndexes.Keys), batch.newIndexes, UseCollection(c));
        IndexOperationFits(e, batch, UseCollection(c));
      }
    }
    if forall c | c in batch.newIndexes :: KnownCollection(batch, c) {
      forall op | op in IndexCreations(batch) ensures Fits(p, op) {
        IndexOperationFits(e, batch, op);
      }
    }
  }

  lemma {:induction false} MakesKey(p: Progress, ops: seq<Operation>, ts: U64, make: Operation)
    requires Run(p, ops, ts).error.None? && make.MakeIndex? && make in ops
    ensures make.temporaryIndex in Run(p, ops, ts).newIndexes
    decreases |ops|
  {
    NoEarlierError(p, ops, ts);
    if ops[0] == make {
      KeysStay(Step(p, ops[0], ts), ops[1..], ts, make.temporaryIndex);
    } else {
      MakesKey(Step(p, ops[0], ts), ops[1..], ts, make);
    }
  }

  lemma {:induction false} KeysStay(p: Progress, ops: seq<Operation>, ts: U64, t: IndexId)
    requires t in p.newIndexes
    ensures t in Run(p, ops, ts).newIndexes
    decreases |ops|
  {
    if ops != [] {
      KeyStays(p, ops[0], ts, t);
      KeysStay(Step(p, ops[0], ts), ops[1..], ts, t);
    }
  }

  lemma KeyStays(p: Progress, op: Operation, ts: U64, t: IndexId)
    requires t in p.newIndexes
    ensures t in Step(p, op, ts).newIndexes
  {
  }

  lemma ResolvedIsKnown(p: Progress, batch: Batch, i: IndexId)
    requires p.newIndexes == map[] && i in Run(p, IndexCreations(batch), batch.ts).newIndexes
    ensures KnownIndex(batch, i)
  {
    MadeByOperation(p, IndexCreations(batch), batch.ts, i);
    var op :| op in IndexCreations(batch) && op.MakeIndex? && op.temporaryIndex == i;
    AllMakesListed(Ids(batch.newIndexes.Keys), batch.newIndexes, op);
  }

  lemma KnownIsResolved(p: Progress, batch: Batch, c: CollectionId, i: IndexId)
    requires Run(p, IndexCreations(batch), batch.ts).error.None? && c in batch.newIndexes && i in batch.newIndexes[c]
    ensures i in Run(p, IndexCreations(batch), batch.ts).newIndexes
  {
    AllMakesListed(Ids(batch.newIndexes.Keys), batch.newIndexes, Creation(batch, c, i));
    MakesKey(p, IndexCreations(batch), batch.ts, Creation(batch, c, i));
  }

  /** After the second phase exactly the known indexes are resolved. */
  lemma IndexesKnown(p: Progress, batch: Batch, i: IndexId)
    requires p.newIndexes == map[] && Run(p, IndexCreations(batch), batch.ts).error.None?
    ensures Resolve(i, Run(p, IndexCreations(batch), batch.ts).newIndexes).Some? <==> KnownIndex(batch, i)
  {
    if i in Run(p, IndexCreations(batch), batch.ts).newIndexes {
      ResolvedIsKnown(p, batch, i);
    } else if c :| c in batch.newIndexes && i in batch.newIndexes[c] {
      KnownIsResolved(p, batch, c, i);
      assert false;
    }
  }

  // -------------------------------------------------------------------- third phase

  /** The engine's progress after both creation phases. */
  function Created(e: Engine, batch: Batch): Progress {
    Run(Run(Begin(e), Creations(batch), batch.ts), IndexCreations(batch), batch.ts)
  }

  ghost predicate CreatedOk(e: Engine, batch: Batch) {
    EngineOk(e) && Run(Begin(e), Creations(batch), batch.ts).error.None? && Created(e, batch).error.None?
  }

  lemma CreatedKeeps(e: Engine, batch: Batch)
    requires CreatedOk(e, batch)
    ensures ProgressOk(Created(e, batch))
    ensures Created(e, batch).newCollections == Run(Begin(e), Creations(batch), batch.ts).newCollections
         == MadeCollections(e, batch)
  {
    var p := Run(Begin(e), Creations(batch), batch.ts);
    BeginOk(e);
    RunKeeps(Begin(e), Creations(batch), batch.ts);
    RunKeeps(p, IndexCreations(batch), batch.ts);
    CreationsMade(e, batch);
    LaterPhases(batch);
    FixedCollections(p, IndexCreations(batch), batch.ts, 0, 0);
  }

  lemma CreatedIndexes(e: Engine, batch: Batch, i: IndexId)
    requires CreatedOk(e, batch)
    ensures Resolve(i, Created(e, batch).newIndexes).Some? <==> KnownIndex(batch, i)
  {
    Phases(batch);
    FixedIndexes(Begin(e), Creations(batch), batch.ts, 0, IndexPosition([], 0));
    IndexesKnown(Run(Begin(e), Creations(batch), batch.ts), batch, i);
  }

  lemma CreatedVersion(e: Engine, batch: Batch, c: CollectionId, v: U64)
    requires CreatedOk(e, batch)
    ensures EncodeCollectionCatalogKey(c, v) in Created(e, batch).writer.db.collectionsCatalog
       <==> || EncodeCollectionCatalogKey(c, v) in e.committed.collectionsCatalog
            || (v == batch.ts && Creates(e, batch, c))
  {
    var before, p := e.committed, Created(e, batch);
    BeginOk(e);
    CreatedKeeps(e, batch);
    CreationPhases(e, batch, c);
    RunAppend(Begin(e), Creations(batch), IndexCreations(batch), batch.ts);
    RunMetadata(Begin(e), Creations(batch) + IndexCreations(batch), batch.ts, c, v);
    RowHasMetadata(before.collectionIdsByName, before.collectionsCatalog,
      StoredAt(before.metadata, COLLECTION_ID_KEY), c, v);
    RowHasMetadata(p.writer.db.collectionIdsByName, p.writer.db.collectionsCatalog, CollectionBound(p.writer), c, v);
  }

  lemma VersionedOrCreated(before: Database, after: Database, c: CollectionId, at: U64, created: bool)
    requires forall v: U64 :: EncodeCollectionCatalogKey(c, v) in after
                         <==> EncodeCollectionCatalogKey(c, v) in before || (v == at && created)
    ensures HasCatalogRow(after, c) <==> HasCatalogRow(before, c) || created
  {
    if created {
      assert EncodeCollectionCatalogKey(c, at) in after;
    }
  }

  /** After the creations a collection has a version if it had one before, or was created. */
  lemma CreatedVersions(e: Engine, batch: Batch, c: CollectionId)
    requires CreatedOk(e, batch)
    ensures HasCatalogRow(Created(e, batch).writer.db.collectionsCatalog, c)
       <==> HasCatalogRow(e.committed.collectionsCatalog, c) || Creates(e, batch, c)
  {
    var before, after, created :=
      e.committed.collectionsCatalog, Created(e, batch).writer.db.collectionsCatalog, Creates(e, batch, c);
    forall v: U64
      ensures EncodeCollectionCatalogKey(c, v) in after
         <==> EncodeCollectionCatalogKey(c, v) in before || (v == batch.ts && created)
    {
      CreatedVersion(e, batch, c, v);
    }
    VersionedOrCreated(before, after, c, batch.ts, created);
  }

  /** A temporary id stands for a collection with a version. */
  lemma TemporaryHasVersion(e: Engine, batch: Batch, c: CollectionId)
    requires CreatedOk(e, batch) && c in batch.newCollections
    ensures c in Created(e, batch).newCollections
    ensures HasCatalogRow(Created(e, batch).writer.db.collectionsCatalog, Created(e, batch).newCollections[c])
  {
    var p, p' := Run(Begin(e), Creations(batch), batch.ts), Created(e, batch);
    BeginOk(e);
    CreatedKeeps(e, batch);
    LaterPhases(batch);
    MakeCollectionsResolve(Begin(e), Ids(batch.newCollections.Keys), batch.newCollections, batch.ts, c);
    RunKeepsResolved(p, IndexCreations(batch), batch.ts, c, batch.newCollections[c]);
    assert NameRow(p'.writer.db.collectionIdsByName, p'.writer.db.collectionsCatalog, CollectionBound(p'.writer),
                   batch.newCollections[c]);
  }

  lemma FitsMetadata(p: Progress, c: CollectionId, metadata: Bytes, known: bool, versioned: bool)
    requires ResolveCollection(p, c).Some? <==> known
    requires known ==> (HasCatalogRow(p.writer.db.collectionsCatalog, ResolveCollection(p, c).value) <==> versioned)
    ensures Fits(p, SetMetadata(c, metadata)) <==> known && versioned
  {
  }

  lemma VersionsKnown(e: Engine, batch: Batch, c: CollectionId)
    requires CreatedOk(e, batch) && ResolveCollection(Created(e, batch), c).Some?
    ensures HasCatalogRow(Created(e, batch).writer.db.collectionsCatalog, ResolveCollection(Created(e, batch), c).value)
       <==> TakesMetadata(e, batch, c)
  {
    if c >= 0 {
      CreatedVersions(e, batch, c);
    } else {
      CreatedKeeps(e, batch);
      CollectionsKnown(e, batch, c);
      TemporaryHasVersion(e, batch, c);
    }
  }

  /** Metadata fits exactly if its collection is known and has a version after the creations. */
  lemma MetadataFits(e: Engine, batch: Batch, c: CollectionId, metadata: Bytes)
    requires CreatedOk(e, batch)
    ensures Fits(Created(e, batch), SetMetadata(c, metadata))
       <==> KnownCollection(batch, c) && TakesMetadata(e, batch, c)
  {
    CreatedKeeps(e, batch);
    CollectionsKnown(e, batch, c);
    if ResolveCollection(Created(e, batch), c).Some? {
      VersionsKnown(e, batch, c);
    }
    FitsMetadata(Created(e, batch), c, metadata, KnownCollection(batch, c), TakesMetadata(e, batch, c));
  }

  lemma WriteFits(e: Engine, batch: Batch, c: CollectionId, op: Operation)
    requires CreatedOk(e, batch) && c in batch.collections && WriteOperation(c, batch.collections[c], op)
    requires KnownWrites(e, batch, c)
    ensures Fits(Created(e, batch), op)
  {
    CreatedKeeps(e, batch);
    match op
    case UseCollection(_) => CollectionsKnown(e, batch, c);
    case WriteDocument(_, _, _) => CollectionsKnown(e, batch, c);
    case UseIndex(i) => CreatedIndexes(e, batch, i);
    case WriteIndex(i, _, _) => CreatedIndexes(e, batch, i);
    case SetMetadata(_, metadata) => MetadataFits(e, batch, c, metadata);
  }

  lemma {:induction false} UsesIndex(ids: seq<IndexId>, indexes: map<IndexId, map<IndexPosition, IndexWrite>>,
                                     i: IndexId)
    requires (forall x | x in ids :: x in indexes) && i in ids
    ensures UseIndex(i) in WriteIndexes(ids, indexes)
    decreases |ids|
  {
    if i != ids[0] {
      UsesIndex(ids[1..], indexes, i);
    }
  }

  lemma {:induction false} PartOfWrites(cs: seq<CollectionId>, collections: Collections, c: CollectionId, op: Operation)
    requires (forall x | x in cs :: x in collections) && c in cs && op in WriteCollection(c, collections[c])
    ensures op in WriteCollections(cs, collections)
    decreases |cs|
  {
    if c != cs[0] {
      PartOfWrites(cs[1..], collections, c, op);
    }
  }

  lemma PartFits(p: Progress, batch: Batch, c: CollectionId, op: Operation)
    requires c in batch.collections && op in WriteCollection(c, batch.collections[c]) && AllFit(p, Writes(batch))
    ensures Fits(p, op)
  {
    PartOfWrites(Ids(batch.collections.Keys), batch.collections, c, op);
  }

  lemma IndexFits(e: Engine, batch: Batch, c: CollectionId, i: IndexId)
    requires CreatedOk(e, batch) && c in batch.collections && AllFit(Created(e, batch), Writes(batch))
    requires i in batch.collections[c].indexEntries
    ensures KnownIndex(batch, i)
  {
    UsesIndex(Ids(batch.collections[c].indexEntries.Keys), batch.collections[c].indexEntries, i);
    PartFits(Created(e, batch), batch, c, UseIndex(i));
    CreatedIndexes(e, batch, i);
  }

  lemma RecordedMetadataFits(e: Engine, batch: Batch, c: CollectionId)
    requires CreatedOk(e, batch) && c in batch.collections && AllFit(Created(e, batch), Writes(batch))
    requires batch.collections[c].metadata.Some?
    ensures TakesMetadata(e, batch, c)
  {
    var metadata := batch.collections[c].metadata.value;
    assert SetMetadata(c, metadata) in SetMetadataOf(c, batch.collections[c]);
    PartFits(Created(e, batch), batch, c, SetMetadata(c, metadata));
    MetadataFits(e, batch, c, metadata);
  }

  lemma CollectionFits(e: Engine, batch: Batch, c: CollectionId)
    requires CreatedOk(e, batch) && c in batch.collections && AllFit(Created(e, batch), Writes(batch))
    ensures KnownWrites(e, batch, c)
  {
    assert KnownCollection(batch, c) by {
      PartFits(Created(e, batch), batch, c, UseCollection(c));
      CreatedKeeps(e, batch);
      CollectionsKnown(e, batch, c);
    }
    forall i | i in batch.collections[c].indexEntries ensures KnownIndex(batch, i) {
      IndexFits(e, batch, c, i);
    }
    if batch.collections[c].metadata.Some? {
      RecordedMetadataFits(e, batch, c);
    }
  }

  lemma WritesFit(e: Engine, batch: Batch)
    requires CreatedOk(e, batch)
    ensures AllFit(Created(e, batch), Writes(batch)) <==> forall c | c in batch.collections :: KnownWrites(e, batch, c)
  {
    if AllFit(Created(e, batch), Writes(batch)) {
      forall c | c in batch.collections ensures KnownWrites(e, batch, c) {
        CollectionFits(e, batch, c);
      }
    }
    if forall c | c in batch.collections :: KnownWrites(e, batch, c) {
      forall op | op in Writes(batch) ensures Fits(Created(e, batch), op) {
        WritesKinds(Ids(batch.collections.Keys), batch.collections, op);
        var c :| c in Ids(batch.collections.Keys) && WriteOperation(c, batch.collections[c], op);
        WriteFits(e, batch, c, op);
      }
    }
  }

  // --------------------------------------------------------------------- main result

  lemma OperationsOutcome(e: Engine, batch: Batch)
    requires EngineOk(e)
    ensures Outcome(RefersToKnown(e, batch), Run(Begin(e), Operations(batch), batch.ts))
  {
    var ts, p := batch.ts, Begin(e);
    BeginOk(e);
    Phases(batch);
    LaterPhases(batch);
    RunAppend(p, Creations(batch) + IndexCreations(batch), Writes(batch), ts);
    RunAppend(p, Creations(batch), IndexCreations(batch), ts);
    CreationsOutcome(p, Creations(batch), ts);
    var p1 := Run(p, Creations(batch), ts);
    if p1.error.Some? {
      RunStopped(p1, IndexCreations(batch), ts);
      RunStopped(p1, Writes(batch), ts);
    } else {
      AfterCreations(e, batch);
    }
  }

  lemma AfterCreations(e: Engine, batch: Batch)
    requires EngineOk(e) && Run(Begin(e), Creations(batch), batch.ts).error.None?
    ensures Outcome(RefersToKnown(e, batch), Run(Created(e, batch), Writes(batch), batch.ts))
  {
    var ts, p := batch.ts, Run(Begin(e), Creations(batch), batch.ts);
    BeginOk(e);
    RunKeeps(Begin(e), Creations(batch), ts);
    IndexPhaseFits(e, batch);
    IndependentPhases(batch);
    RunOutcome(p, IndexCreations(batch), ts);
    if Created(e, batch).error.Some? {
      RunStopped(Created(e, batch), Writes(batch), ts);
    } else {
      CreatedKeeps(e, batch);
      WritesFit(e, batch);
      RunOutcome(Created(e, batch), Writes(batch), ts);
    }
  }

  lemma IndependentPhases(batch: Batch)
    ensures Independent(IndexCreations(batch)) && Independent(Writes(batch))
  {
    Phases(batch);
    LaterPhases(batch);
  }

  /**
   While ids last, a batch is accepted exactly if it refers to known ids only, its timestamp is not below the engine's
   and its commit succeeds; otherwise it fails with the error of the first of these that is not so.
   */
  lemma PutOutcome(e: Engine, batch: Batch, commits: bool)
    requires EngineOk(e)
    ensures var (e', r) := Put(e, batch, commits);
      || (r == Failure(CountersExhausted) && Exhausted(e'.memory))
      || (if !RefersToKnown(e, batch) then r == Failure(UnknownCollection) || r == Failure(UnknownIndex)
          else if batch.ts < e.memory.ts then r == Failure(LowerTimestamp)
          else if commits then r.Success?
          else r == Failure(CommitFailed))
  {
    OperationsOutcome(e, batch);
    BatchGrows(e, batch);
  }
}
