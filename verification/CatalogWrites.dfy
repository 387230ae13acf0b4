/**
 The catalog versions that a batch writes: the metadata it records, and an empty one for each collection it creates.
 */
module CatalogWrites {
  import opened ByteStrings
  import opened Types
  import opened Lmdb
  import opened HeedEncoding
  import opened WriteSets
  import opened Catalogs
  import opened CatalogCursors
  import opened Batches
  import opened BatchInvariants
  import opened BatchEffects
  import opened BatchWrites
  import opened Engines
  import opened History
  import opened CatalogHistory
  import opened AllocatedIds
  import opened NewCollections

  // -------------------------------------------------------------- one operation

  /** The metadata of a collection's version, if it has that version. */
  function MetadataAt(catalog: Database, c: CollectionId, v: U64): Option<Bytes> {
    var key := EncodeCollectionCatalogKey(c, v);
    if key !in catalog then None
    else
      match DecodeCollectionCatalogValue(catalog[key])
      case Success((_, metadata)) => Some(metadata)
      case Failure(_) => None
  }

  /** The metadata that one operation stores for a collection: empty when it creates the collection. */
  function MetadataBy(p: Progress, op: Operation, c: CollectionId): Option<Bytes> {
    match op
    case MakeCollection(_, name) =>
      if name !in p.writer.db.collectionIdsByName && p.writer.memory.collectionId + 1 == c then Some([]) else None
    case SetMetadata(c', metadata) => if ResolveCollection(p, c') == Some(c) then Some(metadata) else None
    case _ => None
  }

  function LastMetadata(p: Progress, ops: seq<Operation>, ts: U64, c: CollectionId): Option<Bytes>
    decreases |ops|
  {
    if ops == [] then None
    else OrElse(LastMetadata(Step(p, ops[0], ts), ops[1..], ts, c), MetadataBy(p, ops[0], c))
  }

  function MetadataAfter(before: Database, c: CollectionId, v: U64, at: U64, write: Option<Bytes>): Option<Bytes> {
    if v == at && write.Some? then write else MetadataAt(before, c, v)
  }

  lemma EntryMetadata(w: Writer, id: CollectionId, name: Name, metadata: Bytes, ts: U64, c: CollectionId, v: U64)
    ensures MetadataAt(PutCatalogEntry(w, id, name, metadata, ts).db.collectionsCatalog, c, v)
         == MetadataAfter(w.db.collectionsCatalog, c, v, ts, if id == c then Some(metadata) else None)
  {
    CollectionCatalogKeyOrder(c, v, id, ts);
    CollectionCatalogValueRoundTrip(name, metadata);
  }

  lemma NewRow(p: Progress, t: CollectionId, name: Name, ts: U64)
    requires p.error.None? && StepMakeCollection(p, t, name, ts).error.None? && name !in p.writer.db.collectionIdsByName
    ensures p.writer.memory.collectionId < TWO_63 - 1
    ensures StepMakeCollection(p, t, name, ts).writer.db.collectionsCatalog
         == PutCatalogEntry(p.writer, p.writer.memory.collectionId + 1, name, [], ts).db.collectionsCatalog
  {
  }

  lemma CreatedMetadata(p: Progress, t: CollectionId, name: Name, ts: U64, c: CollectionId, v: U64)
    requires ProgressOk(p) && p.error.None? && StepMakeCollection(p, t, name, ts).error.None?
    ensures MetadataAt(StepMakeCollection(p, t, name, ts).writer.db.collectionsCatalog, c, v)
         == MetadataAfter(p.writer.db.collectionsCatalog, c, v, ts, MetadataBy(p, MakeCollection(t, name), c))
  {
    if name in p.writer.db.collectionIdsByName {
      var id := ExistingStep(p, t, name, ts);
    } else {
      NewRow(p, t, name, ts);
      EntryMetadata(p.writer, p.writer.memory.collectionId + 1, name, [], ts, c, v);
    }
  }

  lemma UpdatedRow(p: Progress, c: CollectionId, metadata: Bytes, ts: U64) returns (name: Name)
    requires p.error.None? && StepSetMetadata(p, c, metadata, ts).error.None?
    ensures ResolveCollection(p, c).Some?
    ensures StepSetMetadata(p, c, metadata, ts).writer
         == PutCatalogEntry(p.writer, ResolveCollection(p, c).value, name, metadata, ts)
  {
    name := CollectionById(p.writer.db.collectionsCatalog, ResolveCollection(p, c).value, U64_MAX).value.value.0;
  }

  lemma UpdatedMetadata(p: Progress, c': CollectionId, metadata: Bytes, ts: U64, c: CollectionId, v: U64)
    requires p.error.None? && StepSetMetadata(p, c', metadata, ts).error.None?
    ensures MetadataAt(StepSetMetadata(p, c', metadata, ts).writer.db.collectionsCatalog, c, v)
         == MetadataAfter(p.writer.db.collectionsCatalog, c, v, ts, MetadataBy(p, SetMetadata(c', metadata), c))
  {
    var name := UpdatedRow(p, c', metadata, ts);
    EntryMetadata(p.writer, ResolveCollection(p, c').value, name, metadata, ts, c, v);
  }

  lemma StepMetadata(p: Progress, op: Operation, ts: U64, c: CollectionId, v: U64)
    requires ProgressOk(p) && p.error.None? && Step(p, op, ts).error.None?
    ensures MetadataAt(Step(p, op, ts).writer.db.collectionsCatalog, c, v)
         == MetadataAfter(p.writer.db.collectionsCatalog, c, v, ts, MetadataBy(p, op, c))
  {
    match op
    case MakeCollection(t, name) => CreatedMetadata(p, t, name, ts, c, v);
    case SetMetadata(c', metadata) => UpdatedMetadata(p, c', metadata, ts, c, v);
    case _ => StepTables(p, op, ts);
  }

  /** A catalog version is as before, except that the last metadata stored for a collection is its version at `ts`. */
  lemma {:induction false} RunMetadata(p: Progress, ops: seq<Operation>, ts: U64, c: CollectionId, v: U64)
    requires ProgressOk(p) && Run(p, ops, ts).error.None?
    ensures MetadataAt(Run(p, ops, ts).writer.db.collectionsCatalog, c, v)
         == MetadataAfter(p.writer.db.collectionsCatalog, c, v, ts, LastMetadata(p, ops, ts, c))
    decreases |ops|
  {
    if ops != [] {
      NoEarlierError(p, ops, ts);
      StepKeeps(p, ops[0], ts);
      StepMetadata(p, ops[0], ts, c, v);
      RunMetadata(Step(p, ops[0], ts), ops[1..], ts, c, v);
    }
  }

  // ------------------------------------------------------------ the phases of a batch

  lemma {:induction false} LastMetadataAppend(p: Progress, a: seq<Operation>, b: seq<Operation>, ts: U64,
                                              c: CollectionId)
    ensures LastMetadata(p, a + b, ts, c) == OrElse(LastMetadata(Run(p, a, ts), b, ts, c), LastMetadata(p, a, ts, c))
    decreases |a|
  {
    if a == [] {
      assert a + b == b;
    } else {
      assert (a + b)[1..] == a[1..] + b;
      LastMetadataAppend(Step(p, a[0], ts), a[1..], b, ts, c);
    }
  }

  lemma {:induction false} NoMetadata(p: Progress, ops: seq<Operation>, ts: U64, c: CollectionId)
    requires forall op | op in ops :: !op.MakeCollection? && !op.SetMetadata?
    ensures LastMetadata(p, ops, ts, c) == None
    decreases |ops|
  {
    if ops != [] {
      assert ops[0] in ops && forall op | op in ops[1..] :: op in ops;
      NoMetadata(Step(p, ops[0], ts), ops[1..], ts, c);
    }
  }

  lemma FirstCreated(p: Progress, t: CollectionId, name: Name, ts: U64, c: CollectionId)
    requires ProgressOk(p) && p.error.None? && StepMakeCollection(p, t, name, ts).error.None?
    ensures var n, n' := p.writer.memory.collectionId, StepMakeCollection(p, t, name, ts).writer.memory.collectionId;
      n <= n' && MetadataBy(p, MakeCollection(t, name), c) == if n < c <= n' then Some([]) else None
  {
    if name in p.writer.db.collectionIdsByName {
      var id := ExistingStep(p, t, name, ts);
    } else {
      NewStep(p, t, name, ts);
    }
  }

  /** The ids that the creations allocate, and no others, get empty metadata. */
  lemma {:induction false} CreationsMetadata(p: Progress, ids: seq<CollectionId>, names: map<CollectionId, Name>,
                                             ts: U64, c: CollectionId)
    requires ProgressOk(p) && (forall t | t in ids :: t in names)
    requires Run(p, MakeCollections(ids, names), ts).error.None?
    ensures var n := p.writer.memory.collectionId;
      var n' := Run(p, MakeCollections(ids, names), ts).writer.memory.collectionId;
      n <= n' && LastMetadata(p, MakeCollections(ids, names), ts, c) == if n < c <= n' then Some([]) else None
    decreases |ids|
  {
    if ids != [] {
      var ops := MakeCollections(ids, names);
      assert ops[1..] == MakeCollections(ids[1..], names);
      NoEarlierError(p, ops, ts);
      StepKeeps(p, ops[0], ts);
      FirstCreated(p, ids[0], names[ids[0]], ts, c);
      CreationsMetadata(Step(p, ops[0], ts), ids[1..], names, ts, c);
    }
  }

  // ------------------------------------------------------------- recorded metadata

  /** The metadata recorded by the last listed collection that stands for `c`. */
  function RecordedMetadata(collections: Collections, cs: seq<CollectionId>, made: Made, c: CollectionId): Option<Bytes>
    decreases |cs|
  {
    if cs == [] then None
    else
      OrElse(RecordedMetadata(collections, cs[1..], made, c),
        if Resolve(cs[0], made) == Some(c) then Recorded(collections, cs[0]).metadata else None)
  }

  lemma CollectionMetadata(p: Progress, c': CollectionId, data: CollectionWriteSet, ts: U64, c: CollectionId)
    ensures LastMetadata(p, WriteCollection(c', data), ts, c)
         == if Resolve(c', p.newCollections) == Some(c) then data.metadata else None
    ensures Run(p, WriteCollection(c', data), ts).newCollections == p.newCollections
  {
    var own := SetMetadataOf(c', data);
    var others := [UseCollection(c')] + WriteDocuments(c', DocumentIds(data.documents.Keys), data.documents)
      + WriteIndexes(Ids(data.indexEntries.Keys), data.indexEntries);
    forall op | op in others ensures !op.MakeCollection? && !op.SetMetadata? {
      OtherThanMetadata(c', data, op);
    }
    LastMetadataAppend(p, others, own, ts, c);
    NoMetadata(p, others, ts, c);
    FixedCollections(p, others, ts, 0, 0);
    RunAppend(p, others, own, ts);
    OwnMetadata(Run(p, others, ts), c', data, ts, c);
  }

  lemma OwnMetadata(p: Progress, c': CollectionId, data: CollectionWriteSet, ts: U64, c: CollectionId)
    ensures LastMetadata(p, SetMetadataOf(c', data), ts, c)
         == if Resolve(c', p.newCollections) == Some(c) then data.metadata else None
    ensures Run(p, SetMetadataOf(c', data), ts).newCollections == p.newCollections
  {
    var own := SetMetadataOf(c', data);
    FixedCollections(p, own, ts, 0, 0);
    if data.metadata.Some? {
      assert own[1..] == [];
      assert LastMetadata(Step(p, own[0], ts), [], ts, c) == None;
    }
  }

  lemma OtherThanMetadata(c': CollectionId, data: CollectionWriteSet, op: Operation)
    requires op in [UseCollection(c')] + WriteDocuments(c', DocumentIds(data.documents.Keys), data.documents)
      + WriteIndexes(Ids(data.indexEntries.Keys), data.indexEntries)
    ensures !op.MakeCollection? && !op.SetMetadata?
  {
    DocumentsKinds(c', DocumentIds(data.documents.Keys), data.documents);
    if op in WriteIndexes(Ids(data.indexEntries.Keys), data.indexEntries) {
      IndexesKinds(Ids(data.indexEntries.Keys), data.indexEntries, op);
    }
  }

  lemma {:induction false} CollectionsMetadata(p: Progress, cs: seq<CollectionId>, collections: Collections, ts: U64,
                                               c: CollectionId)
    requires forall x | x in cs :: x in collections
    ensures LastMetadata(p, WriteCollections(cs, collections), ts, c)
         == RecordedMetadata(collections, cs, p.newCollections, c)
    decreases |cs|
  {
    if cs != [] {
      var first, rest := WriteCollection(cs[0], collections[cs[0]]), WriteCollections(cs[1..], collections);
      LastMetadataAppend(p, first, rest, ts, c);
      CollectionMetadata(p, cs[0], collections[cs[0]], ts, c);
      CollectionsMetadata(Run(p, first, ts), cs[1..], collections, ts, c);
    }
  }

  // ------------------------------------------------------------------ whole batches

  /** The batch creates the collection: its id is one of those allocated next. */
  ghost predicate Creates(e: Engine, batch: Batch, c: CollectionId) {
    e.memory.collectionId < c <= e.memory.collectionId + NamesCount(e, batch)
  }

  /** The metadata that the batch stores for a collection, told before the call. */
  ghost function StoredMetadata(e: Engine, batch: Batch, c: CollectionId): Option<Bytes> {
    OrElse(RecordedMetadata(batch.collections, Ids(batch.collections.Keys), MadeCollections(e, batch), c),
      if Creates(e, batch, c) then Some([]) else None)
  }

  lemma CreationPhases(e: Engine, batch: Batch, c: CollectionId)
    requires EngineOk(e) && Run(Begin(e), Creations(batch), batch.ts).error.None?
    ensures LastMetadata(Begin(e), Creations(batch) + IndexCreations(batch), batch.ts, c)
         == if Creates(e, batch, c) then Some([]) else None
    ensures Run(Begin(e), Creations(batch) + IndexCreations(batch), batch.ts).newCollections
         == MadeCollections(e, batch)
  {
    var p := Begin(e);
    BeginOk(e);
    LaterPhases(batch);
    IndexPhaseKinds(batch);
    CreationsMade(e, batch);
    var p' := Run(p, Creations(batch), batch.ts);
    LastMetadataAppend(p, Creations(batch), IndexCreations(batch), batch.ts, c);
    RunAppend(p, Creations(batch), IndexCreations(batch), batch.ts);
    CreationsMetadata(p, Ids(batch.newCollections.Keys), batch.newCollections, batch.ts, c);
    NoMetadata(p', IndexCreations(batch), batch.ts, c);
    FixedCollections(p', IndexCreations(batch), batch.ts, 0, 0);
  }

  lemma IndexPhaseKinds(batch: Batch)
    ensures forall op | op in IndexCreations(batch) :: !op.MakeCollection? && !op.SetMetadata?
  {
    Phases(batch);
  }

  lemma BatchMetadata(e: Engine, batch: Batch, c: CollectionId)
    requires EngineOk(e) && Run(Begin(e), Operations(batch), batch.ts).error.None?
    ensures LastMetadata(Begin(e), Operations(batch), batch.ts, c) == StoredMetadata(e, batch, c)
  {
    var made := Creations(batch) + IndexCreations(batch);
    assert Operations(batch) == made + Writes(batch);
    PhaseRuns(Begin(e), batch);
    CreationPhases(e, batch, c);
    LastMetadataAppend(Begin(e), made, Writes(batch), batch.ts, c);
    CollectionsMetadata(Run(Begin(e), made, batch.ts), Ids(batch.collections.Keys), batch.collections, batch.ts, c);
  }

  // ------------------------------------------------------------------------ reads

  /** The metadata that a lookup by id finds at a timestamp. */
  function ReadMetadata(catalog: Database, c: CollectionId, ts: U64): Option<Bytes> {
    match CollectionById(catalog, c, ts)
    case Success(Some((_, metadata))) => Some(metadata)
    case _ => None
  }

  /** No stored version of the collection lies after `at` and up to `ts`. */
  ghost predicate UnshadowedCollection(catalog: Database, c: CollectionId, at: U64, ts: U64) {
    forall v: U64 | EncodeCollectionCatalogKey(c, v) in catalog && v <= ts :: v <= at
  }

  lemma RowHasMetadata(names: Database, catalog: Database, bound: U64, c: CollectionId, v: U64)
    requires CatalogOk(names, catalog, bound)
    ensures EncodeCollectionCatalogKey(c, v) in catalog <==> MetadataAt(catalog, c, v).Some?
  {
    if EncodeCollectionCatalogKey(c, v) in catalog {
      VersionsCarryName(names, catalog, bound, c, v);
    }
  }

  lemma NewestIsRead(names: Database, catalog: Database, bound: U64, c: CollectionId, ts: U64, v: U64)
    requires CatalogOk(names, catalog, bound) && NewestRow(catalog, ts, c, v)
    ensures ReadMetadata(catalog, c, ts) == MetadataAt(catalog, c, v)
  {
    CollectionByIdIsNewest(names, catalog, bound, c, ts);
    var w: U64 :| NewestRow(catalog, ts, c, w)
      && DecodeCollectionCatalogValue(catalog[EncodeCollectionCatalogKey(c, w)])
         == Success(CollectionById(catalog, c, ts).value.value);
    NewestRowUnique(catalog, ts, c, v, w);
  }

  lemma NothingRead(names: Database, catalog: Database, bound: U64, c: CollectionId, ts: U64)
    requires CatalogOk(names, catalog, bound) && forall v: U64 :: !NewestRow(catalog, ts, c, v)
    ensures ReadMetadata(catalog, c, ts) == None
  {
    CollectionByIdIsNewest(names, catalog, bound, c, ts);
  }

  /** The versions of one collection after metadata is stored at `at`. */
  ghost predicate OneVersionWritten(before: Database, after: Database, c: CollectionId, at: U64, write: Option<Bytes>) {
    forall v: U64 :: MetadataAt(after, c, v) == MetadataAfter(before, c, v, at, write)
  }

  /** What is read where metadata, if there is any, is stored at `at`. */
  ghost function MetadataRead(before: Database, c: CollectionId, at: U64, write: Option<Bytes>,
                              ts: U64): Option<Bytes> {
    if write.Some? && at <= ts && UnshadowedCollection(before, c, at, ts) then write else ReadMetadata(before, c, ts)
  }

  lemma VersionsAfter(names: Database, before: Database, bound: U64, names': Database, after: Database, bound': U64,
                      c: CollectionId, at: U64, write: Option<Bytes>)
    requires CatalogOk(names, before, bound) && CatalogOk(names', after, bound')
    requires OneVersionWritten(before, after, c, at, write)
    ensures forall v: U64 :: EncodeCollectionCatalogKey(c, v) in after
                        <==> EncodeCollectionCatalogKey(c, v) in before || (v == at && write.Some?)
  {
    forall v: U64
      ensures EncodeCollectionCatalogKey(c, v) in after
         <==> EncodeCollectionCatalogKey(c, v) in before || (v == at && write.Some?)
    {
      RowHasMetadata(names, before, bound, c, v);
      RowHasMetadata(names', after, bound', c, v);
      assert MetadataAt(after, c, v) == MetadataAfter(before, c, v, at, write);
    }
  }

  lemma WrittenVersionDecides(names: Database, before: Database, bound: U64, names': Database, after: Database,
                              bound': U64, c: CollectionId, at: U64, write: Option<Bytes>, ts: U64)
    requires CatalogOk(names, before, bound) && CatalogOk(names', after, bound')
    requires OneVersionWritten(before, after, c, at, write)
    ensures ReadMetadata(after, c, ts) == MetadataRead(before, c, at, write, ts)
  {
    VersionsAfter(names, before, bound, names', after, bound', c, at, write);
    if write.Some? && at <= ts && UnshadowedCollection(before, c, at, ts) {
      assert NewestRow(after, ts, c, at);
      NewestIsRead(names', after, bound', c, ts, at);
      assert MetadataAt(after, c, at) == MetadataAfter(before, c, at, at, write);
    } else if v: U64 :| NewestRow(before, ts, c, v) {
      StillNewest(before, after, c, at, write, ts, v);
      NewestIsRead(names, before, bound, c, ts, v);
      NewestIsRead(names', after, bound', c, ts, v);
      assert MetadataAt(after, c, v) == MetadataAfter(before, c, v, at, write);
    } else {
      NothingRead(names, before, bound, c, ts);
      StillNothing(before, after, c, at, write, ts);
      NothingRead(names', after, bound', c, ts);
    }
  }

  /** A version that the batch does not shadow stays the newest one, and keeps its metadata. */
  lemma StillNewest(before: Database, after: Database, c: CollectionId, at: U64, write: Option<Bytes>, ts: U64, v: U64)
    requires forall x: U64 :: EncodeCollectionCatalogKey(c, x) in after
                         <==> EncodeCollectionCatalogKey(c, x) in before || (x == at && write.Some?)
    requires !(write.Some? && at <= ts && UnshadowedCollection(before, c, at, ts)) && NewestRow(before, ts, c, v)
    ensures NewestRow(after, ts, c, v) && (write.Some? ==> v != at)
  {
    if write.Some? && at <= ts {
      var w: U64 :| EncodeCollectionCatalogKey(c, w) in before && w <= ts && at < w;
    }
  }

  lemma StillNothing(before: Database, after: Database, c: CollectionId, at: U64, write: Option<Bytes>, ts: U64)
    requires forall x: U64 :: EncodeCollectionCatalogKey(c, x) in after
                         <==> EncodeCollectionCatalogKey(c, x) in before || (x == at && write.Some?)
    requires !(write.Some? && at <= ts && UnshadowedCollection(before, c, at, ts))
    requires forall v: U64 :: !NewestRow(before, ts, c, v)
    ensures forall v: U64 :: !NewestRow(after, ts, c, v)
  {
    if v: U64 :| NewestRow(after, ts, c, v) {
      if x: U64 :| EncodeCollectionCatalogKey(c, x) in before && x <= ts {
        var newest := NewestExists(before, ts, c, x);
      }
    }
  }

  /**
   After an accepted batch a lookup by id finds the metadata that the batch stores, from the batch's timestamp on and
   where no stored version lies between, and otherwise what it found before.
   */
  lemma PutMetadata(e: Engine, batch: Batch, commits: bool, c: CollectionId, ts: U64)
    requires EngineOk(e) && Put(e, batch, commits).1.Success?
    ensures ReadMetadata(Put(e, batch, commits).0.committed.collectionsCatalog, c, ts)
         == MetadataRead(e.committed.collectionsCatalog, c, batch.ts, StoredMetadata(e, batch, c), ts)
  {
    var before, after := e.committed, Put(e, batch, commits).0.committed;
    PutKeeps(e, batch, commits);
    assert OneVersionWritten(before.collectionsCatalog, after.collectionsCatalog, c, batch.ts,
                             StoredMetadata(e, batch, c)) by {
      forall v: U64
        ensures MetadataAt(after.collectionsCatalog, c, v)
             == MetadataAfter(before.collectionsCatalog, c, v, batch.ts, StoredMetadata(e, batch, c))
      {
        PutVersions(e, batch, commits, c, v);
      }
    }
    WrittenVersionDecides(
      before.collectionIdsByName, before.collectionsCatalog, StoredAt(before.metadata, COLLECTION_ID_KEY),
      after.collectionIdsByName, after.collectionsCatalog, StoredAt(after.metadata, COLLECTION_ID_KEY),
      c, batch.ts, StoredMetadata(e, batch, c), ts);
  }

  lemma PutVersions(e: Engine, batch: Batch, commits: bool, c: CollectionId, v: U64)
    requires EngineOk(e) && Put(e, batch, commits).1.Success?
    ensures MetadataAt(Put(e, batch, commits).0.committed.collectionsCatalog, c, v)
         == MetadataAfter(e.committed.collectionsCatalog, c, v, batch.ts, StoredMetadata(e, batch, c))
  {
    BeginOk(e);
    AcceptedPut(e, batch, commits);
    RunMetadata(Begin(e), Operations(batch), batch.ts, c, v);
    BatchMetadata(e, batch, c);
  }

  // ---------------------------------------------------------------------- listings

  lemma {:induction false} RunNamesOnly(p: Progress, ops: seq<Operation>, ts: U64, name: Bytes)
    requires name in Run(p, ops, ts).writer.db.collectionIdsByName && name !in p.writer.db.collectionIdsByName
    ensures exists op :: op in ops && op.MakeCollection? && op.name == name
    decreases |ops|
  {
    assert ops != [] && ops[0] in ops && forall op | op in ops[1..] :: op in ops;
    StepNamesOnly(p, ops[0], ts, name);
    if name !in Step(p, ops[0], ts).writer.db.collectionIdsByName {
      RunNamesOnly(Step(p, ops[0], ts), ops[1..], ts, name);
    }
  }

  lemma StepNamesOnly(p: Progress, op: Operation, ts: U64, name: Bytes)
    ensures name in Step(p, op, ts).writer.db.collectionIdsByName ==>
      name in p.writer.db.collectionIdsByName || (op.MakeCollection? && op.name == name)
  {
    match op
    case MakeCollection(_, _) =>
    case _ => StepTables(p, op, ts);
  }

  lemma {:induction false} CreationNames(ids: seq<CollectionId>, names: map<CollectionId, Name>, op: Operation)
    requires (forall t | t in ids :: t in names) && op in MakeCollections(ids, names)
    ensures op.MakeCollection? && op.temporaryCollection in ids && op.name == names[op.temporaryCollection]
    decreases |ids|
  {
    if op in MakeCollections(ids[1..], names) {
      CreationNames(ids[1..], names, op);
    }
  }

  /** The temporary id is recorded with the name and comes to stand for the id. */
  ghost predicate LeadsBy(batch: Batch, made: Made, name: Bytes, id: CollectionId, t: CollectionId) {
    t in batch.newCollections && batch.newCollections[t] == name && t in made && made[t] == id
  }

  /** Where a name leads after the batch, told before it: to the id it has, or to the one a temporary id stands for. */
  ghost predicate NamedAfter(e: Engine, batch: Batch, name: Bytes, id: CollectionId) {
    if name in e.committed.collectionIdsByName then NamesId(e.committed.collectionIdsByName, name, id)
    else
      exists t :: LeadsBy(batch, MadeCollections(e, batch), name, id, t)
  }

  /** A new name is one of those recorded. */
  lemma RecordedName(e: Engine, batch: Batch, name: Bytes) returns (t: CollectionId)
    requires name in Run(Begin(e), Operations(batch), batch.ts).writer.db.collectionIdsByName
    requires name !in e.committed.collectionIdsByName
    ensures t in batch.newCollections && batch.newCollections[t] == name
  {
    RunNamesOnly(Begin(e), Operations(batch), batch.ts, name);
    var op :| op in Operations(batch) && op.MakeCollection? && op.name == name;
    Phases(batch);
    LaterPhases(batch);
    CreationNames(Ids(batch.newCollections.Keys), batch.newCollections, op);
    t := op.temporaryCollection;
  }

  lemma TemporaryLeads(e: Engine, batch: Batch, t: CollectionId)
    requires EngineOk(e) && Run(Begin(e), Operations(batch), batch.ts).error.None? && t in batch.newCollections
    ensures t in MadeCollections(e, batch)
    ensures NamesId(Run(Begin(e), Operations(batch), batch.ts).writer.db.collectionIdsByName, batch.newCollections[t],
                    MadeCollections(e, batch)[t])
  {
    NewCollectionNamed(e, batch, t);
  }

  lemma NewNameLeads(e: Engine, batch: Batch, name: Bytes, id: CollectionId)
    requires EngineOk(e) && Run(Begin(e), Operations(batch), batch.ts).error.None?
    requires name !in e.committed.collectionIdsByName
    requires NamesId(Run(Begin(e), Operations(batch), batch.ts).writer.db.collectionIdsByName, name, id)
    ensures NamedAfter(e, batch, name, id)
  {
    var t := RecordedName(e, batch, name);
    TemporaryLeads(e, batch, t);
    assert LeadsBy(batch, MadeCollections(e, batch), name, id, t);
  }

  lemma RecordedNameLeads(e: Engine, batch: Batch, name: Bytes, id: CollectionId)
    requires EngineOk(e) && Run(Begin(e), Operations(batch), batch.ts).error.None?
    requires name !in e.committed.collectionIdsByName && NamedAfter(e, batch, name, id)
    ensures NamesId(Run(Begin(e), Operations(batch), batch.ts).writer.db.collectionIdsByName, name, id)
  {
    var t :| LeadsBy(batch, MadeCollections(e, batch), name, id, t);
    TemporaryLeads(e, batch, t);
  }

  lemma BatchNames(e: Engine, batch: Batch, name: Bytes, id: CollectionId)
    requires EngineOk(e) && Run(Begin(e), Operations(batch), batch.ts).error.None?
    ensures NamesId(Run(Begin(e), Operations(batch), batch.ts).writer.db.collectionIdsByName, name, id)
       <==> NamedAfter(e, batch, name, id)
  {
    if name in e.committed.collectionIdsByName {
      RunNames(Begin(e), Operations(batch), batch.ts, name);
    } else {
      if NamesId(Run(Begin(e), Operations(batch), batch.ts).writer.db.collectionIdsByName, name, id) {
        NewNameLeads(e, batch, name, id);
      }
      if NamedAfter(e, batch, name, id) {
        RecordedNameLeads(e, batch, name, id);
      }
    }
  }

  /** A collection is visible after the batch under the name and the metadata told before it. */
  ghost predicate ShownAfter(e: Engine, batch: Batch, ts: U64, x: CollectionEntry) {
    && NamedAfter(e, batch, x.name, x.id)
    && MetadataRead(e.committed.collectionsCatalog, x.id, batch.ts, StoredMetadata(e, batch, x.id), ts)
       == Some(x.metadata)
  }

  lemma VisibleMeaning(names: Database, catalog: Database, ts: U64, x: CollectionEntry)
    requires NamesId(names, x.name, x.id) ==>
      && CollectionById(catalog, x.id, ts).Success?
      && (CollectionById(catalog, x.id, ts).value.Some? ==> CollectionById(catalog, x.id, ts).value.value.0 == x.name)
    ensures VisibleAt(names, catalog, ts, x)
       <==> NamesId(names, x.name, x.id) && ReadMetadata(catalog, x.id, ts) == Some(x.metadata)
  {
  }

  lemma ShownMeaning(e: Engine, ts: U64, x: CollectionEntry)
    requires EngineOk(e)
    ensures ShowsCollection(e.committed, ts, x) <==>
      && NamesId(e.committed.collectionIdsByName, x.name, x.id)
      && ReadMetadata(e.committed.collectionsCatalog, x.id, ts) == Some(x.metadata)
  {
    if NamesId(e.committed.collectionIdsByName, x.name, x.id) {
      CatalogNames(e.committed.collectionIdsByName, e.committed.collectionsCatalog,
        StoredAt(e.committed.metadata, COLLECTION_ID_KEY), x.name, x.id, ts);
    }
    VisibleMeaning(e.committed.collectionIdsByName, e.committed.collectionsCatalog, ts, x);
  }

  lemma PutShows(e: Engine, batch: Batch, commits: bool, ts: U64, x: CollectionEntry)
    requires EngineOk(e) && Put(e, batch, commits).1.Success?
    ensures ShowsCollection(Put(e, batch, commits).0.committed, ts, x) <==> ShownAfter(e, batch, ts, x)
  {
    PutKeeps(e, batch, commits);
    AcceptedPut(e, batch, commits);
    ShownMeaning(Put(e, batch, commits).0, ts, x);
    BatchNames(e, batch, x.name, x.id);
    PutMetadata(e, batch, commits, x.id, ts);
  }

  /** So the catalog cursor lists, after an accepted batch, what the recorded names and metadata say. */
  lemma PutListing(e: Engine, batch: Batch, commits: bool, ts: U64, start: CursorStart<Bytes>, direction: Direction)
    requires EngineOk(e) && Put(e, batch, commits).1.Success?
    ensures forall x :: x in Listing(Put(e, batch, commits).0.committed, ts, start, direction) <==>
      Accepts(Less, start, direction, x.name) && ShownAfter(e, batch, ts, x)
  {
    var after := Put(e, batch, commits).0;
    PutKeeps(e, batch, commits);
    ListingMeaning(after, ts, start, direction);
    forall x: CollectionEntry ensures ShowsCollection(after.committed, ts, x) <==> ShownAfter(e, batch, ts, x) {
      PutShows(e, batch, commits, ts, x);
    }
  }
}
