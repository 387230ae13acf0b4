/**
 What every operation of a batch keeps: the catalogs, the trie, the document rows, and ids bounded by the counters.
 */
module BatchInvariants {
  import opened ByteStrings
  import opened Types
  import opened BigEndian
  import opened Lmdb
  import opened HeedEncoding
  import opened IndexTrie
  import opened TrieStorage
  import opened IndexUpdates
  import opened Documents
  import opened WriteSets
  import opened Databases
  import opened Catalogs
  import opened Batches

  // ---------------------------------------------------------------- invariant

  ghost predicate CountersDecode(metadata: Database) {
    && StoredCounter(metadata, TS_KEY).Success?
    && StoredCounter(metadata, VISIBLE_TS_KEY).Success?
    && StoredCounter(metadata, COLLECTION_ID_KEY).Success?
    && StoredCounter(metadata, INDEX_ID_KEY).Success?
    && StoredCounter(metadata, CHAIN_ID_KEY).Success?
  }

  function StoredAt(metadata: Database, key: Bytes): U64 {
    match StoredCounter(metadata, key)
    case Success(n) => n
    case Failure(_) => 0
  }

  /** What a commit would leave stored. */
  ghost function CollectionBound(w: Writer): U64 {
    if w.memory.collectionIdChanged then w.memory.collectionId else StoredAt(w.db.metadata, COLLECTION_ID_KEY)
  }

  ghost function IndexBound(w: Writer): U64 {
    if w.memory.indexIdChanged then w.memory.indexId else StoredAt(w.db.metadata, INDEX_ID_KEY)
  }

  ghost function ChainBound(w: Writer): U64 {
    Chains(w).Bound(StoredAt(w.db.metadata, CHAIN_ID_KEY))
  }

  /** The tables are sound and use no id above the three bounds. */
  ghost predicate ContentsOk(db: Databases, collections: U64, indexes: U64, chains: U64) {
    && CatalogOk(db.collectionIdsByName, db.collectionsCatalog, collections)
    && IndexCatalogOk(db.indexesCatalog, indexes)
    && StoresTrie(db.indexEdges, db.indexLeaves, chains, ROOT_CHAIN)
    && DocumentRows(db.documents)
  }

  ghost predicate MemoryAhead(metadata: Database, m: Memory) {
    && CountersDecode(metadata)
    && StoredAt(metadata, COLLECTION_ID_KEY) <= m.collectionId
    && StoredAt(metadata, INDEX_ID_KEY) <= m.indexId
    && StoredAt(metadata, CHAIN_ID_KEY) <= m.chainId
  }

  ghost predicate WriterOk(w: Writer) {
    MemoryAhead(w.db.metadata, w.memory) && ContentsOk(w.db, CollectionBound(w), IndexBound(w), ChainBound(w))
  }

  /** Counters only grow; the timestamp is left alone. */
  ghost predicate Grows(m: Memory, m': Memory) {
    m.collectionId <= m'.collectionId && m.indexId <= m'.indexId && m.chainId <= m'.chainId && m.ts == m'.ts
      && m.visibleTs == m'.visibleTs
  }

  lemma ContentsMonotone(db: Databases, c: U64, i: U64, n: U64, c': U64, i': U64, n': U64)
    requires ContentsOk(db, c, i, n) && c <= c' && i <= i' && n <= n'
    ensures ContentsOk(db, c', i', n')
  {
    CatalogMonotone(db.collectionIdsByName, db.collectionsCatalog, c, c');
    CounterGrows(EdgeView(db.indexEdges), LeafView(db.indexLeaves), n, ROOT_CHAIN, n');
  }

  // --------------------------------------------------------------- operations

  lemma PutCatalogEntryKeeps(w: Writer, id: CollectionId, name: Name, metadata: Bytes, version: U64)
    requires WriterOk(w) && NamesId(w.db.collectionIdsByName, name, id)
    ensures WriterOk(PutCatalogEntry(w, id, name, metadata, version))
  {
    PutCatalogVersion(w.db.collectionIdsByName, w.db.collectionsCatalog, CollectionBound(w), name, id, metadata,
                      version);
  }

  /** An existing name leads to its positive id; a new one to an id that no catalog row uses. */
  ghost predicate CollectionCreated(w: Writer, name: Name, w': Writer, id: Result<CollectionId>) {
    && Grows(w.memory, w'.memory) && w'.db.metadata == w.db.metadata
    && (id.Success? ==>
        && WriterOk(w') && 1 <= id.value && NamesId(w'.db.collectionIdsByName, name, id.value)
        && (name !in w.db.collectionIdsByName ==> !HasCatalogRow(w.db.collectionsCatalog, id.value)))
  }

  lemma NewCollectionKeeps(w: Writer, name: Name, metadata: Bytes, version: U64)
    requires WriterOk(w) && name !in w.db.collectionIdsByName && w.memory.collectionId < TWO_63 - 1
    ensures var id := w.memory.collectionId + 1;
      var described := PutCatalogEntry(w.(memory := AllocateCollectionId(w.memory).value.0), id, name, metadata,
                                       version);
      CollectionCreated(w, name,
        described.(db := described.db.(collectionIdsByName := described.db.collectionIdsByName[name := I64Be(id)])),
        Success(id))
  {
    NewName(w.db.collectionIdsByName, w.db.collectionsCatalog, CollectionBound(w), name, metadata, version,
            w.memory.collectionId + 1);
    I64RoundTrip(w.memory.collectionId + 1);
  }

  lemma ExistingCollectionKeeps(w: Writer, name: Name, metadata: Option<Bytes>, version: U64)
    requires WriterOk(w) && name in w.db.collectionIdsByName
    ensures CollectionIdByName(w.db.collectionIdsByName, name).Success?
    ensures CollectionIdByName(w.db.collectionIdsByName, name).value.Some?
    ensures var id := CollectionIdByName(w.db.collectionIdsByName, name).value.value;
      CollectionCreated(w, name, if metadata.Some? then PutCatalogEntry(w, id, name, metadata.value, version)
        else w, Success(id))
  {
    assert NameRow(w.db.collectionIdsByName, w.db.collectionsCatalog, CollectionBound(w), name);
    if metadata.Some? {
      PutCatalogEntryKeeps(w, FromI64Be(w.db.collectionIdsByName[name]), name, metadata.value, version);
    }
  }

  lemma CreateExistingCollection(w: Writer, name: Name, metadata: Option<Bytes>, version: U64)
    requires WriterOk(w) && name in w.db.collectionIdsByName
    ensures var (w', id) := CreateCollection(w, name, metadata, version); CollectionCreated(w, name, w', id)
  {
    ExistingCollectionKeeps(w, name, metadata, version);
  }

  lemma CreateNewCollection(w: Writer, name: Name, metadata: Option<Bytes>, version: U64)
    requires WriterOk(w) && name !in w.db.collectionIdsByName
    ensures var (w', id) := CreateCollection(w, name, metadata, version); CollectionCreated(w, name, w', id)
  {
    if w.memory.collectionId < TWO_63 - 1 {
      NewCollectionKeeps(w, name, if metadata.Some? then metadata.value else [], version);
    }
  }

  /** The catalog version that creating a collection writes: the given metadata, or none for a new collection. */
  lemma CreatedCollectionRow(w: Writer, name: Name, metadata: Option<Bytes>, version: U64)
    requires WriterOk(w) && CreateCollection(w, name, metadata, version).1.Success?
    ensures var (w', id) := CreateCollection(w, name, metadata, version);
      var key := EncodeCollectionCatalogKey(id.value, version);
      if name in w.db.collectionIdsByName && metadata.None? then w' == w
      else
        && key in w'.db.collectionsCatalog
        && w'.db.collectionsCatalog == w.db.collectionsCatalog[key := w'.db.collectionsCatalog[key]]
        && DecodeCollectionCatalogValue(w'.db.collectionsCatalog[key])
           == Success((name, if metadata.Some? then metadata.value else []))
  {
    CollectionCatalogValueRoundTrip(name, if metadata.Some? then metadata.value else []);
    if name in w.db.collectionIdsByName {
      ExistingCollectionKeeps(w, name, metadata, version);
    }
  }

  /** An existing index keeps its row; a new one gets its configuration and an id that no index row uses. */
  ghost predicate IndexCreated(w: Writer, key: Bytes, config: Bytes, w': Writer, id: Result<IndexId>) {
    && Grows(w.memory, w'.memory) && w'.db.metadata == w.db.metadata
    && (key in w.db.indexesCatalog ==> w' == w)
    && (id.Success? ==>
        && WriterOk(w') && 1 <= id.value && IndexIdAt(w'.db.indexesCatalog, key) == id.value
        && (key !in w.db.indexesCatalog ==>
            && key in w'.db.indexesCatalog
               && DecodeIndexCatalogValue(w'.db.indexesCatalog[key]) == Success((id.value, config))
            && forall k | k in w.db.indexesCatalog :: IndexIdAt(w.db.indexesCatalog, k) != id.value))
  }

  lemma NewIndexKeeps(w: Writer, key: Bytes, config: Bytes)
    requires WriterOk(w) && key !in w.db.indexesCatalog && w.memory.indexId < TWO_63 - 1
    ensures var id := w.memory.indexId + 1;
      var w' := Writer(w.db.(indexesCatalog := w.db.indexesCatalog[key := EncodeIndexCatalogValue(id, config)]),
                       AllocateIndexId(w.memory).value.0);
      IndexCreated(w, key, config, w', Success(id))
  {
    NewIndexRow(w.db.indexesCatalog, IndexBound(w), key, w.memory.indexId + 1, config);
    IndexCatalogValueRoundTrip(w.memory.indexId + 1, config);
  }

  lemma CreateIndexKeeps(w: Writer, collection: CollectionId, name: Name, config: Bytes)
    requires WriterOk(w)
    ensures var (w', id) := CreateIndex(w, collection, name, config);
      IndexCreated(w, EncodeIndexCatalogKey(collection, name), config, w', id)
  {
    var key := EncodeIndexCatalogKey(collection, name);
    if key !in w.db.indexesCatalog && w.memory.indexId < TWO_63 - 1 {
      NewIndexKeeps(w, key, config);
    }
  }

  /** Updating metadata fails exactly for a collection without any version. */
  lemma UpdateMetadataKeeps(w: Writer, collection: CollectionId, metadata: Bytes, version: U64)
    requires WriterOk(w)
    ensures var r := UpdateCollectionMetadata(w, collection, metadata, version);
      && (r.Success? ==> WriterOk(r.value) && r.value.memory == w.memory && r.value.db.metadata == w.db.metadata)
      && (r.Success? <==> HasCatalogRow(w.db.collectionsCatalog, collection))
  {
    var names, catalog := w.db.collectionIdsByName, w.db.collectionsCatalog;
    CollectionByIdIsNewest(names, catalog, CollectionBound(w), collection, U64_MAX);
    var found := CollectionById(catalog, collection, U64_MAX).value;
    if found.Some? {
      var v: U64 :| NewestRow(catalog, U64_MAX, collection, v)
        && DecodeCollectionCatalogValue(catalog[EncodeCollectionCatalogKey(collection, v)]) == Success(found.value);
      VersionsCarryName(names, catalog, CollectionBound(w), collection, v);
      PutCatalogEntryKeeps(w, collection, found.value.0, metadata, version);
    } else if v: U64 :| EncodeCollectionCatalogKey(collection, v) in catalog {
      var newest := NewestExists(catalog, U64_MAX, collection, v);
    }
  }

  lemma PutDocumentVersionKeeps(w: Writer, collection: CollectionId, document: DocumentId, write: DocumentWrite,
                                version: U64)
    requires WriterOk(w) && collection >= 0
    ensures WriterOk(PutDocumentVersion(w, collection, document, write, version))
  {
    DocumentValueRoundTrip(if write.DocumentPut? then write.value else []);
    PutVersion(w.db.documents, collection, document, version, EncodeWrite(write));
  }

  function WithIndexTables(w: Writer, s: ChainState, leaves: DupDatabase): Writer {
    var w' := WithChains(w, s);
    w'.(db := w'.db.(indexLeaves := leaves))
  }

  /** Changes confined to the index tables and the chain counter. */
  lemma IndexTablesChange(w: Writer, s: ChainState, leaves: DupDatabase)
    requires WriterOk(w) && w.memory.chainId <= s.counter
    requires StoresTrie(s.edges, leaves, s.Bound(StoredAt(w.db.metadata, CHAIN_ID_KEY)), ROOT_CHAIN)
    ensures WriterOk(WithIndexTables(w, s, leaves))
    ensures StoredPostings(WithIndexTables(w, s, leaves).db) == Postings(EdgeView(s.edges), LeafView(leaves))
  {
    var done := WithIndexTables(w, s, leaves);
    assert CollectionBound(done) == CollectionBound(w) && IndexBound(done) == IndexBound(w);
    assert ChainBound(done) == s.Bound(StoredAt(w.db.metadata, CHAIN_ID_KEY));
    assert MemoryAhead(done.db.metadata, done.memory);
  }

  /** What holds after inserting or deleting one entry. */
  ghost predicate EntryWritten(w: Writer, w': Writer, error: Option<Error>, postings: iset<Posting>) {
    && Grows(w.memory, w'.memory) && w'.db.metadata == w.db.metadata
    && (error.None? ==> WriterOk(w') && StoredPostings(w'.db) == postings)
  }

  lemma IndexTablesWritten(w: Writer, s: ChainState, leaves: Result<DupDatabase>, postings: iset<Posting>)
    requires WriterOk(w) && w.memory.chainId <= s.counter
    requires leaves.Success? ==>
      && StoresTrie(s.edges, leaves.value, s.Bound(StoredAt(w.db.metadata, CHAIN_ID_KEY)), ROOT_CHAIN)
      && Postings(EdgeView(s.edges), LeafView(leaves.value)) == postings
    ensures leaves.Failure? ==> EntryWritten(w, WithChains(w, s), Some(leaves.error), postings)
    ensures leaves.Success? ==> EntryWritten(w, WithIndexTables(w, s, leaves.value), None, postings)
  {
    if leaves.Success? {
      IndexTablesChange(w, s, leaves.value);
    }
  }

  lemma PutIndexEntryKeeps(w: Writer, index: IndexId, value: Bytes, document: DocumentId)
    requires WriterOk(w)
    ensures var (w', error) := PutIndexEntry(w, index, value, document);
      EntryWritten(w, w', error, StoredPostings(w.db) + iset{Posting(index, IndexPosition(value, document))})
  {
    var (s, leaves) := PutEntry(Chains(w), w.db.indexLeaves, index, value, document);
    PutEntryRefines(Chains(w), w.db.indexLeaves, StoredAt(w.db.metadata, CHAIN_ID_KEY), index, value, document);
    IndexTablesWritten(w, s, leaves, StoredPostings(w.db) + iset{Posting(index, IndexPosition(value, document))});
  }

  /** Deleting never fails in a sound state. */
  lemma DeleteIndexEntryKeeps(w: Writer, index: IndexId, value: Bytes, document: DocumentId)
    requires WriterOk(w)
    ensures var (w', error) := DeleteIndexEntry(w, index, value, document);
      && error == None
      && EntryWritten(w, w', error, StoredPostings(w.db) - iset{Posting(index, IndexPosition(value, document))})
  {
    DeleteEntryRefines(w.db.indexEdges, w.db.indexLeaves, ChainBound(w), index, value, document);
    var (edges, leaves) := DeleteEntry(w.db.indexEdges, w.db.indexLeaves, index, value, document).value;
    var s := Chains(w).(edges := edges);
    IndexTablesWritten(w, s, Success(leaves),
                       StoredPostings(w.db) - iset{Posting(index, IndexPosition(value, document))});
    assert DeleteIndexEntry(w, index, value, document) == (WithIndexTables(w, s, leaves), None);
  }

  // --------------------------------------------------------------------- runs

  /** Until an error stops it, a batch leaves sound tables and resolves temporary ids to positive ones. */
  ghost predicate ProgressOk(p: Progress) {
    p.error.None? ==>
      && WriterOk(p.writer)
      && (forall t | t in p.newCollections :: 1 <= p.newCollections[t])
      && (forall t | t in p.newIndexes :: 1 <= p.newIndexes[t])
  }

  /** The step keeps everything that holds between operations. */
  ghost predicate StepOk(p: Progress, p': Progress) {
    && ProgressOk(p')
    && Grows(p.writer.memory, p'.writer.memory)
    && p'.writer.db.metadata == p.writer.db.metadata
  }

  lemma MakeCollectionKeeps(p: Progress, temporary: CollectionId, name: Name, ts: U64)
    requires ProgressOk(p) && p.error.None?
    ensures StepOk(p, StepMakeCollection(p, temporary, name, ts))
  {
    if name in p.writer.db.collectionIdsByName {
      CreateExistingCollection(p.writer, name, None, ts);
    } else {
      CreateNewCollection(p.writer, name, None, ts);
    }
  }

  lemma MakeIndexKeeps(p: Progress, c: CollectionId, temporary: IndexId, write: IndexCatalogWrite)
    requires ProgressOk(p) && p.error.None?
    ensures StepOk(p, StepMakeIndex(p, c, temporary, write))
  {
    if ResolveCollection(p, c).Some? {
      CreateIndexKeeps(p.writer, ResolveCollection(p, c).value, write.name, write.metadata);
    }
  }

  lemma WriteDocumentKeeps(p: Progress, c: CollectionId, d: DocumentId, write: DocumentWrite, ts: U64)
    requires ProgressOk(p) && p.error.None?
    ensures StepOk(p, StepWriteDocument(p, c, d, write, ts))
  {
    if ResolveCollection(p, c).Some? {
      PutDocumentVersionKeeps(p.writer, ResolveCollection(p, c).value, d, write, ts);
    }
  }

  lemma WriteIndexKeeps(p: Progress, i: IndexId, position: IndexPosition, write: IndexWrite)
    requires ProgressOk(p) && p.error.None?
    ensures StepOk(p, StepWriteIndex(p, i, position, write))
  {
    if ResolveIndex(p, i).Some? {
      var index := ResolveIndex(p, i).value;
      if write.IndexPut? {
        PutIndexEntryKeeps(p.writer, index, position.value, position.documentId);
      } else {
        DeleteIndexEntryKeeps(p.writer, index, position.value, position.documentId);
      }
    }
  }

  lemma SetMetadataKeeps(p: Progress, c: CollectionId, metadata: Bytes, ts: U64)
    requires ProgressOk(p) && p.error.None?
    ensures StepOk(p, StepSetMetadata(p, c, metadata, ts))
  {
    if ResolveCollection(p, c).Some? {
      UpdateMetadataKeeps(p.writer, ResolveCollection(p, c).value, metadata, ts);
    }
  }

  lemma StepKeeps(p: Progress, op: Operation, ts: U64)
    requires ProgressOk(p)
    ensures StepOk(p, Step(p, op, ts))
  {
    if p.error.None? {
      match op
      case MakeCollection(temporary, name) => MakeCollectionKeeps(p, temporary, name, ts);
      case MakeIndex(c, temporary, write) => MakeIndexKeeps(p, c, temporary, write);
      case WriteDocument(c, d, write) => WriteDocumentKeeps(p, c, d, write, ts);
      case WriteIndex(i, position, write) => WriteIndexKeeps(p, i, position, write);
      case SetMetadata(c, metadata) => SetMetadataKeeps(p, c, metadata, ts);
      case UseCollection(_) =>
      case UseIndex(_) =>
    }
  }

  /** Every batch, of any shape, keeps the tables sound up to the point where it stops. */
  lemma {:induction false} RunKeeps(p: Progress, ops: seq<Operation>, ts: U64)
    requires ProgressOk(p)
    ensures StepOk(p, Run(p, ops, ts))
    decreases |ops|
  {
    if ops != [] {
      StepKeeps(p, ops[0], ts);
      RunKeeps(Step(p, ops[0], ts), ops[1..], ts);
    }
  }
}
