/**
 What `put` does to a write transaction's view and to the engine's counters
 (crates/storage/src/implementations/heed/datastore.rs). A batch is carried out
 as the list of its operations in the order in which the loops reach them.
 */
module Batches {
  import opened ByteStrings
  import opened Types
  import opened BigEndian
  import opened Sequences
  import opened Lmdb
  import opened HeedEncoding
  import opened IndexTrie
  import opened IndexUpdates
  import opened IndexTraversal
  import DocumentCursors
  import opened WriteSets
  import opened Databases
  import opened Catalogs
  import opened Overlays

  // ---------------------------------------------------------------- counters

  const TS_KEY: Bytes := [0x00]
  const CHAIN_ID_KEY: Bytes := [0x01]
  const COLLECTION_ID_KEY: Bytes := [0x02]
  const INDEX_ID_KEY: Bytes := [0x03]
  const VISIBLE_TS_KEY: Bytes := [0x04]

  /** The atomics of the engine: they survive an aborted write transaction. */
  datatype Memory = Memory(
    ts: U64,
    visibleTs: U64,
    collectionId: U64, collectionIdChanged: bool,
    indexId: U64, indexIdChanged: bool,
    chainId: U64, chainIdChanged: bool)

  /** A write transaction's view of the databases, with the engine's memory. */
  datatype Writer = Writer(db: Databases, memory: Memory)

  function StoredCounter(metadata: Database, key: Bytes): Result<U64> {
    if key in metadata then DecodeU64(metadata[key]) else Success(0)
  }

  function LoadCounters(metadata: Database): Result<Memory> {
    var ts :- StoredCounter(metadata, TS_KEY);
    var visibleTs :- StoredCounter(metadata, VISIBLE_TS_KEY);
    var collectionId :- StoredCounter(metadata, COLLECTION_ID_KEY);
    var indexId :- StoredCounter(metadata, INDEX_ID_KEY);
    var chainId :- StoredCounter(metadata, CHAIN_ID_KEY);
    Success(Memory(ts, visibleTs, collectionId, false, indexId, false, chainId, false))
  }

  function SaveCounter(metadata: Database, key: Bytes, changed: bool, counter: U64): Database {
    if changed then metadata[key := U64Be(counter)] else metadata
  }

  function SaveCounters(w: Writer): Writer {
    var m := w.memory;
    var afterCollections := SaveCounter(w.db.metadata, COLLECTION_ID_KEY, m.collectionIdChanged, m.collectionId);
    var afterIndexes := SaveCounter(afterCollections, INDEX_ID_KEY, m.indexIdChanged, m.indexId);
    var afterChains := SaveCounter(afterIndexes, CHAIN_ID_KEY, m.chainIdChanged, m.chainId);
    Writer(w.db.(metadata := afterChains),
           m.(collectionIdChanged := false, indexIdChanged := false, chainIdChanged := false))
  }

  /** Timestamps never go back; an unchanged one is not written. */
  function SetTs(w: Writer, ts: U64): Result<Writer> {
    if ts < w.memory.ts then Failure(LowerTimestamp)
    else if ts == w.memory.ts then Success(w)
    else Success(Writer(w.db.(metadata := w.db.metadata[TS_KEY := U64Be(ts)]), w.memory.(ts := ts)))
  }

  // ----------------------------------------------------------------- catalogs

  function PutCatalogEntry(w: Writer, id: CollectionId, name: Name, metadata: Bytes, version: U64): Writer {
    w.(db := w.db.(collectionsCatalog :=
      w.db.collectionsCatalog[EncodeCollectionCatalogKey(id, version) := EncodeCollectionCatalogValue(name, metadata)]))
  }

  /** A new id, or exhaustion: positive signed numbers are all that ids may be. */
  function AllocateCollectionId(m: Memory): Option<(Memory, CollectionId)> {
    if m.collectionId >= TWO_63 - 1 then None
    else Some((m.(collectionId := m.collectionId + 1, collectionIdChanged := true), m.collectionId + 1))
  }

  function AllocateIndexId(m: Memory): Option<(Memory, IndexId)> {
    if m.indexId >= TWO_63 - 1 then None
    else Some((m.(indexId := m.indexId + 1, indexIdChanged := true), m.indexId + 1))
  }

  function CreateCollection(w: Writer, name: Name, metadata: Option<Bytes>, version: U64): (Writer,
                            Result<CollectionId>) {
    match CollectionIdByName(w.db.collectionIdsByName, name)
    case Failure(e) => (w, Failure(e))
    case Success(Some(id)) =>
      (if metadata.Some? then PutCatalogEntry(w, id, name, metadata.value, version) else w, Success(id))
    case Success(None) =>
      match AllocateCollectionId(w.memory)
      case None => (w, Failure(CountersExhausted))
      case Some((memory, id)) =>
        var described := PutCatalogEntry(w.(memory := memory), id, name, if metadata.Some? then metadata.value
          else [], version);
        (described.(db := described.db.(collectionIdsByName := described.db.collectionIdsByName[name := I64Be(id)])),
         Success(id))
  }

  function CreateIndex(w: Writer, collection: CollectionId, name: Name, config: Bytes): (Writer, Result<IndexId>) {
    var key := EncodeIndexCatalogKey(collection, name);
    if key in w.db.indexesCatalog then
      match DecodeIndexCatalogValue(w.db.indexesCatalog[key])
      case Failure(e) => (w, Failure(e))
      case Success((id, _)) => (w, Success(id))
    else
      match AllocateIndexId(w.memory)
      case None => (w, Failure(CountersExhausted))
      case Some((memory, id)) =>
        (Writer(w.db.(indexesCatalog := w.db.indexesCatalog[key := EncodeIndexCatalogValue(id, config)]), memory),
         Success(id))
  }

  function UpdateCollectionMetadata(w: Writer, collection: CollectionId, metadata: Bytes,
                                    version: U64): Result<Writer> {
    match CollectionById(w.db.collectionsCatalog, collection, U64_MAX)
    case Failure(e) => Failure(e)
    case Success(None) => Failure(UnknownCollection)
    case Success(Some((name, _))) => Success(PutCatalogEntry(w, collection, name, metadata, version))
  }

  // ---------------------------------------------------- documents and entries

  function EncodeWrite(write: DocumentWrite): Bytes {
    if write.DocumentPut? then EncodeDocumentValue(write.value) else DOCUMENT_TOMBSTONE
  }

  function PutDocumentVersion(w: Writer, collection: CollectionId, document: DocumentId, write: DocumentWrite,
                              version: U64): Writer {
    w.(db := w.db.(
      documents := w.db.documents[EncodeDocumentKey(collection, document, version) := EncodeWrite(write)],
      vacuumTargets := w.db.vacuumTargets[EncodeVacuumTargetKey(collection, document) := []]))
  }

  function Chains(w: Writer): ChainState {
    ChainState(w.db.indexEdges, w.memory.chainId, w.memory.chainIdChanged)
  }

  function WithChains(w: Writer, s: ChainState): Writer {
    Writer(w.db.(indexEdges := s.edges), w.memory.(chainId := s.counter, chainIdChanged := s.changed))
  }

  function PutIndexEntry(w: Writer, index: IndexId, value: Bytes, document: DocumentId): (Writer, Option<Error>) {
    var (s, leaves) := PutEntry(Chains(w), w.db.indexLeaves, index, value, document);
    var w' := WithChains(w, s);
    match leaves
    case Failure(e) => (w', Some(e))
    case Success(leaves) => (w'.(db := w'.db.(indexLeaves := leaves)), None)
  }

  function DeleteIndexEntry(w: Writer, index: IndexId, value: Bytes, document: DocumentId): (Writer, Option<Error>) {
    match DeleteEntry(w.db.indexEdges, w.db.indexLeaves, index, value, document)
    case Failure(e) => (w, Some(e))
    case Success((edges, leaves)) => (w.(db := w.db.(indexEdges := edges, indexLeaves := leaves)), None)
  }

  function ApplyIndexWrite(w: Writer, index: IndexId, position: IndexPosition, write: IndexWrite): (Writer,
                           Option<Error>) {
    match write
    case IndexPut => PutIndexEntry(w, index, position.value, position.documentId)
    case IndexDeleted => DeleteIndexEntry(w, index, position.value, position.documentId)
  }

  // --------------------------------------------------------------- operations

  datatype Operation =
    | MakeCollection(temporaryCollection: CollectionId, name: Name)
    | UseCollection(collection: CollectionId)
    | MakeIndex(collection: CollectionId, temporaryIndex: IndexId, write: IndexCatalogWrite)
    | WriteDocument(collection: CollectionId, document: DocumentId, documentWrite: DocumentWrite)
    | UseIndex(index: IndexId)
    | WriteIndex(index: IndexId, position: IndexPosition, indexWrite: IndexWrite)
    | SetMetadata(collection: CollectionId, metadata: Bytes)

  /** How far a batch has come: temporary ids resolved so far, and the error that stopped it. */
  datatype Progress = Progress(
    writer: Writer,
    newCollections: map<CollectionId, CollectionId>,
    newIndexes: map<IndexId, IndexId>,
    error: Option<Error>)
  {
    function Failed(e: Error): Progress {
      this.(error := Some(e))
    }
  }

  /** A temporary id stands for what the batch created under it. */
  function Resolve(id: I64, made: map<I64, I64>): Option<I64> {
    if id >= 0 then Some(id) else if id in made then Some(made[id]) else None
  }

  function ResolveCollection(p: Progress, id: CollectionId): Option<CollectionId> {
    Resolve(id, p.newCollections)
  }

  function ResolveIndex(p: Progress, id: IndexId): Option<IndexId> {
    Resolve(id, p.newIndexes)
  }

  function StepMakeCollection(p: Progress, temporary: CollectionId, name: Name, ts: U64): Progress {
    var (w, id) := CreateCollection(p.writer, name, None, ts);
    match id
    case Failure(e) => p.(writer := w).Failed(e)
    case Success(id) => p.(writer := w, newCollections := p.newCollections[temporary := id])
  }

  function StepMakeIndex(p: Progress, collection: CollectionId, temporary: IndexId,
                         write: IndexCatalogWrite): Progress {
    match ResolveCollection(p, collection)
    case None => p.Failed(UnknownCollection)
    case Some(c) =>
      var (w, id) := CreateIndex(p.writer, c, write.name, write.metadata);
      match id
      case Failure(e) => p.(writer := w).Failed(e)
      case Success(id) => p.(writer := w, newIndexes := p.newIndexes[temporary := id])
  }

  function StepWriteDocument(p: Progress, collection: CollectionId, document: DocumentId, write: DocumentWrite,
                             ts: U64): Progress {
    match ResolveCollection(p, collection)
    case None => p.Failed(UnknownCollection)
    case Some(c) => p.(writer := PutDocumentVersion(p.writer, c, document, write, ts))
  }

  function StepWriteIndex(p: Progress, index: IndexId, position: IndexPosition, write: IndexWrite): Progress {
    match ResolveIndex(p, index)
    case None => p.Failed(UnknownIndex)
    case Some(i) =>
      var (w, error) := ApplyIndexWrite(p.writer, i, position, write);
      p.(writer := w, error := error)
  }

  function StepSetMetadata(p: Progress, collection: CollectionId, metadata: Bytes, ts: U64): Progress {
    match ResolveCollection(p, collection)
    case None => p.Failed(UnknownCollection)
    case Some(c) =>
      match UpdateCollectionMetadata(p.writer, c, metadata, ts)
      case Failure(e) => p.Failed(e)
      case Success(w) => p.(writer := w)
  }

  function Step(p: Progress, op: Operation, ts: U64): Progress {
    if p.error.Some? then p
    else
      match op
      case MakeCollection(temporary, name) => StepMakeCollection(p, temporary, name, ts)
      case UseCollection(c) => if ResolveCollection(p, c).None? then p.Failed(UnknownCollection) else p
      case MakeIndex(c, temporary, write) => StepMakeIndex(p, c, temporary, write)
      case WriteDocument(c, d, write) => StepWriteDocument(p, c, d, write, ts)
      case UseIndex(i) => if ResolveIndex(p, i).None? then p.Failed(UnknownIndex) else p
      case WriteIndex(i, position, write) => StepWriteIndex(p, i, position, write)
      case SetMetadata(c, metadata) => StepSetMetadata(p, c, metadata, ts)
  }

  function Run(p: Progress, ops: seq<Operation>, ts: U64): Progress
    decreases |ops|
  {
    if ops == [] then p else Run(Step(p, ops[0], ts), ops[1..], ts)
  }

  // ------------------------------------------------- the operations of a batch

  function MakeCollections(ids: seq<CollectionId>, names: map<CollectionId, Name>): seq<Operation>
    requires forall c | c in ids :: c in names
  {
    if ids == [] then [] else [MakeCollection(ids[0], names[ids[0]])] + MakeCollections(ids[1..], names)
  }

  function MakeIndexes(c: CollectionId, ids: seq<IndexId>, indexes: map<IndexId, IndexCatalogWrite>): seq<Operation>
    requires forall i | i in ids :: i in indexes
  {
    if ids == [] then [] else [MakeIndex(c, ids[0], indexes[ids[0]])] + MakeIndexes(c, ids[1..], indexes)
  }

  function MakeAllIndexes(cs: seq<CollectionId>,
                          indexes: map<CollectionId, map<IndexId, IndexCatalogWrite>>): seq<Operation>
    requires forall c | c in cs :: c in indexes
  {
    if cs == [] then []
    else
      [UseCollection(cs[0])] + MakeIndexes(cs[0], Ids(indexes[cs[0]].Keys), indexes[cs[0]])
      + MakeAllIndexes(cs[1..], indexes)
  }

  function WriteDocuments(c: CollectionId, ids: seq<DocumentId>,
                          documents: map<DocumentId, DocumentWrite>): seq<Operation>
    requires forall d | d in ids :: d in documents
  {
    if ids == [] then [] else [WriteDocument(c, ids[0], documents[ids[0]])] + WriteDocuments(c, ids[1..], documents)
  }

  function WritePositions(i: IndexId, positions: seq<IndexPosition>,
                          entries: map<IndexPosition, IndexWrite>): seq<Operation>
    requires forall p | p in positions :: p in entries
  {
    if positions == [] then []
    else [WriteIndex(i, positions[0], entries[positions[0]])] + WritePositions(i, positions[1..], entries)
  }

  function WriteIndexes(ids: seq<IndexId>, indexes: map<IndexId, map<IndexPosition, IndexWrite>>): seq<Operation>
    requires forall i | i in ids :: i in indexes
  {
    if ids == [] then []
    else
      [UseIndex(ids[0])] + WritePositions(ids[0], Positions(indexes[ids[0]].Keys), indexes[ids[0]])
      + WriteIndexes(ids[1..], indexes)
  }

  function SetMetadataOf(c: CollectionId, data: CollectionWriteSet): seq<Operation> {
    if data.metadata.Some? then [SetMetadata(c, data.metadata.value)] else []
  }

  function WriteCollection(c: CollectionId, data: CollectionWriteSet): seq<Operation> {
    [UseCollection(c)]
    + WriteDocuments(c, DocumentIds(data.documents.Keys), data.documents)
    + WriteIndexes(Ids(data.indexEntries.Keys), data.indexEntries)
    + SetMetadataOf(c, data)
  }

  function WriteCollections(cs: seq<CollectionId>, collections: Collections): seq<Operation>
    requires forall c | c in cs :: c in collections
  {
    if cs == [] then [] else WriteCollection(cs[0], collections[cs[0]]) + WriteCollections(cs[1..], collections)
  }

  function Operations(batch: Batch): seq<Operation> {
    MakeCollections(Ids(batch.newCollections.Keys), batch.newCollections)
    + MakeAllIndexes(Ids(batch.newIndexes.Keys), batch.newIndexes)
    + WriteCollections(Ids(batch.collections.Keys), batch.collections)
  }

  function DocumentIds(ids: set<DocumentId>): (s: seq<DocumentId>)
    ensures forall x :: x in s <==> x in ids
  {
    IdOrder();
    Enumerate(DocumentCursors.IdLess, ids)
  }

  function Positions(positions: set<IndexPosition>): (s: seq<IndexPosition>)
    ensures forall x :: x in s <==> x in positions
  {
    PositionOrder();
    Enumerate(PositionLess, positions)
  }

  // ------------------------------------------------------------------ running

  lemma {:induction false} RunAppend(p: Progress, a: seq<Operation>, b: seq<Operation>, ts: U64)
    ensures Run(p, a + b, ts) == Run(Run(p, a, ts), b, ts)
    decreases |a|
  {
    if a == [] {
      assert a + b == b;
    } else {
      assert (a + b)[1..] == a[1..] + b;
      RunAppend(Step(p, a[0], ts), a[1..], b, ts);
    }
  }

  lemma RunFirst(p: Progress, op: Operation, rest: seq<Operation>, ts: U64)
    ensures Run(p, [op] + rest, ts) == Run(Step(p, op, ts), rest, ts)
  {
    assert ([op] + rest)[1..] == rest;
  }

  /** After an error nothing more happens. */
  lemma {:induction false} RunStopped(p: Progress, ops: seq<Operation>, ts: U64)
    requires p.error.Some?
    ensures Run(p, ops, ts) == p
    decreases |ops|
  {
    if ops != [] {
      RunStopped(p, ops[1..], ts);
    }
  }

  /** A check followed by a group of operations and the rest. */
  lemma RunGroup(p: Progress, first: Operation, group: seq<Operation>,
                 rest: seq<Operation>, ts: U64)
    ensures var p' := Step(p, first, ts);
      Run(p, [first] + group + rest, ts) == if p'.error.Some? then p'
        else Run(Run(p', group, ts), rest, ts)
  {
    RunAppend(p, [first] + group, rest, ts);
    RunFirst(p, first, group, ts);
    var p' := Step(p, first, ts);
    if p'.error.Some? {
      RunStopped(p', group, ts);
      RunStopped(p', rest, ts);
    }
  }
}
