/** The storage engine: atomics, write transactions and `put` (crates/storage/src/implementations/heed/datastore.rs). */
module Datastore {
  import opened ByteStrings
  import opened Types
  import opened BigEndian
  import opened Lmdb
  import opened HeedEncoding
  import opened IndexTrie
  import opened IndexUpdates
  import opened WriteSets
  import opened Databases
  import opened Transactions
  import Catalogs
  import Batches
  import opened BatchInvariants
  import Engines

  /** A write transaction: its own view of the databases, discarded unless committed. */
  class WriteTransaction {
    var db: Databases

    constructor (db: Databases)
      ensures this.db == db
    {
      this.db := db;
    }
  }

  class StorageEngine {
    var committed: Databases
    var ts: U64
    var visibleTs: U64
    var collectionIdCounter: U64
    var collectionIdCounterChanged: bool
    var indexIdCounter: U64
    var indexIdCounterChanged: bool
    var indexChainIdCounter: U64
    var indexChainIdCounterChanged: bool

    ghost function Memory(): Batches.Memory
      reads this
    {
      Batches.Memory(ts, visibleTs, collectionIdCounter, collectionIdCounterChanged, indexIdCounter,
                     indexIdCounterChanged,
        indexChainIdCounter, indexChainIdCounterChanged)
    }

    ghost function State(): Engines.Engine
      reads this
    {
      Engines.Engine(committed, Memory())
    }

    /** What a write transaction works on. */
    ghost function View(tx: WriteTransaction): Batches.Writer
      reads this, tx
    {
      Batches.Writer(tx.db, Memory())
    }

    ghost predicate Valid()
      reads this
    {
      Engines.EngineOk(State())
    }

    constructor (env: Databases)
      ensures committed == env && Memory() == Batches.Memory(0, 0, 0, false, 0, false, 0, false)
    {
      committed, ts, visibleTs := env, 0, 0;
      collectionIdCounter, collectionIdCounterChanged := 0, false;
      indexIdCounter, indexIdCounterChanged := 0, false;
      indexChainIdCounter, indexChainIdCounterChanged := 0, false;
    }

    // -------------------------------------------------------------- counters

    method LoadCounters(metadata: Database) returns (r: Result<()>)
      modifies this
      ensures committed == old(committed)
      ensures r.Success? <==> Batches.LoadCounters(metadata).Success?
      ensures r.Success? ==> Memory() == Batches.LoadCounters(metadata).value
    {
      var loaded := Batches.LoadCounters(metadata);
      match loaded {
        case Failure(e) => return Failure(e);
        case Success(m) =>
          ts, visibleTs := m.ts, m.visibleTs;
          collectionIdCounter, indexIdCounter, indexChainIdCounter := m.collectionId, m.indexId, m.chainId;
          collectionIdCounterChanged, indexIdCounterChanged, indexChainIdCounterChanged := false, false, false;
          return Success(());
      }
    }

    method SaveCounters(tx: WriteTransaction)
      modifies this`collectionIdCounterChanged, this`indexIdCounterChanged, this`indexChainIdCounterChanged, tx
      ensures View(tx) == Batches.SaveCounters(old(View(tx)))
    {
      if collectionIdCounterChanged {
        collectionIdCounterChanged := false;
        tx.db := tx.db.(metadata := tx.db.metadata[Batches.COLLECTION_ID_KEY := U64Be(collectionIdCounter)]);
      }
      if indexIdCounterChanged {
        indexIdCounterChanged := false;
        tx.db := tx.db.(metadata := tx.db.metadata[Batches.INDEX_ID_KEY := U64Be(indexIdCounter)]);
      }
      if indexChainIdCounterChanged {
        indexChainIdCounterChanged := false;
        tx.db := tx.db.(metadata := tx.db.metadata[Batches.CHAIN_ID_KEY := U64Be(indexChainIdCounter)]);
      }
    }

    method AllocateCollectionId() returns (id: Option<CollectionId>)
      modifies this`collectionIdCounter, this`collectionIdCounterChanged
      ensures match Batches.AllocateCollectionId(old(Memory()))
        case None => id == None && Memory() == old(Memory())
        case Some((m, i)) => id == Some(i) && Memory() == m
    {
      if collectionIdCounter >= TWO_63 - 1 {
        return None;
      }
      collectionIdCounter := collectionIdCounter + 1;
      collectionIdCounterChanged := true;
      return Some(collectionIdCounter);
    }

    method AllocateIndexId() returns (id: Option<IndexId>)
      modifies this`indexIdCounter, this`indexIdCounterChanged
      ensures match Batches.AllocateIndexId(old(Memory()))
        case None => id == None && Memory() == old(Memory())
        case Some((m, i)) => id == Some(i) && Memory() == m
    {
      if indexIdCounter >= TWO_63 - 1 {
        return None;
      }
      indexIdCounter := indexIdCounter + 1;
      indexIdCounterChanged := true;
      return Some(indexIdCounter);
    }

    /** Chain ids are never reused, not even after their edges are gone. */
    method AllocateChainId() returns (id: Option<U64>)
      modifies this`indexChainIdCounter, this`indexChainIdCounterChanged
      ensures id.None? ==> old(indexChainIdCounter) == U64_MAX && Memory() == old(Memory())
      ensures id.Some? ==>
        id.value == old(indexChainIdCounter) + 1
          && Memory() == old(Memory()).(chainId := id.value, chainIdChanged := true)
    {
      if indexChainIdCounter == U64_MAX {
        return None;
      }
      indexChainIdCounter := indexChainIdCounter + 1;
      indexChainIdCounterChanged := true;
      return Some(indexChainIdCounter);
    }

    /** There is one writer at a time, so the exchange in the source's loop succeeds at once. */
    method SetTs(tx: WriteTransaction, ts: U64) returns (r: Result<()>)
      modifies this`ts, tx
      ensures match Batches.SetTs(old(View(tx)), ts)
        case Failure(e) => r == Failure(e) && View(tx) == old(View(tx))
        case Success(w) => r == Success(()) && View(tx) == w
    {
      if ts < this.ts {
        return Failure(LowerTimestamp);
      }
      if ts != this.ts {
        this.ts := ts;
        tx.db := tx.db.(metadata := tx.db.metadata[Batches.TS_KEY := U64Be(ts)]);
      }
      return Success(());
    }

    // -------------------------------------------------------------- catalogs

    method PutCollectionCatalogEntry(tx: WriteTransaction, id: CollectionId, name: Name, metadata: Bytes, version: U64)
      modifies tx
      ensures View(tx) == Batches.PutCatalogEntry(old(View(tx)), id, name, metadata, version)
    {
      var key := EncodeCollectionCatalogKey(id, version);
      var value := EncodeCollectionCatalogValue(name, metadata);
      tx.db := tx.db.(collectionsCatalog := tx.db.collectionsCatalog[key := value]);
    }

    method CreateCollection(tx: WriteTransaction, name: Name, metadata: Option<Bytes>, version: U64)
        returns (r: Result<CollectionId>)
      modifies this`collectionIdCounter, this`collectionIdCounterChanged, tx
      ensures (View(tx), r) == Batches.CreateCollection(old(View(tx)), name, metadata, version)
    {
      var existing := Catalogs.CollectionIdByName(tx.db.collectionIdsByName, name);
      match existing {
        case Failure(e) => return Failure(e);
        case Success(Some(id)) =>
          if metadata.Some? {
            PutCollectionCatalogEntry(tx, id, name, metadata.value, version);
          }
          return Success(id);
        case Success(None) =>
          var newId := AllocateCollectionId();
          if newId.None? {
            return Failure(CountersExhausted);
          }
          PutCollectionCatalogEntry(tx, newId.value, name, if metadata.Some? then metadata.value else [], version);
          tx.db := tx.db.(collectionIdsByName := tx.db.collectionIdsByName[name := I64Be(newId.value)]);
          return Success(newId.value);
      }
    }

    method CreateIndex(tx: WriteTransaction, collection: CollectionId, name: Name, config: Bytes)
        returns (r: Result<IndexId>)
      modifies this`indexIdCounter, this`indexIdCounterChanged, tx
      ensures (View(tx), r) == Batches.CreateIndex(old(View(tx)), collection, name, config)
    {
      var key := EncodeIndexCatalogKey(collection, name);
      if key in tx.db.indexesCatalog {
        var decoded := DecodeIndexCatalogValue(tx.db.indexesCatalog[key]);
        match decoded {
          case Failure(e) => return Failure(e);
          case Success((id, _)) => return Success(id);
        }
      }
      var newId := AllocateIndexId();
      if newId.None? {
        return Failure(CountersExhausted);
      }
      tx.db := tx.db.(indexesCatalog := tx.db.indexesCatalog[key := EncodeIndexCatalogValue(newId.value, config)]);
      return Success(newId.value);
    }

    method UpdateCollectionMetadata(tx: WriteTransaction, collection: CollectionId, metadata: Bytes, version: U64)
        returns (r: Result<()>)
      modifies tx
      ensures match Batches.UpdateCollectionMetadata(old(View(tx)), collection, metadata, version)
        case Failure(e) => r == Failure(e) && View(tx) == old(View(tx))
        case Success(w) => r == Success(()) && View(tx) == w
    {
      var found := Catalogs.CollectionById(tx.db.collectionsCatalog, collection, U64_MAX);
      match found {
        case Failure(e) => return Failure(e);
        case Success(None) => return Failure(UnknownCollection);
        case Success(Some((name, _))) =>
          PutCollectionCatalogEntry(tx, collection, name, metadata, version);
          return Success(());
      }
    }

    // ------------------------------------------------------------ index trie

    method FindOrCreateIndexEdge(tx: WriteTransaction, index: IndexId, parent: U64, segment: Bytes)
        returns (child: Result<U64>)
      modifies this`indexChainIdCounter, this`indexChainIdCounterChanged, tx
      ensures var (s, next) := EdgeStep(old(Batches.Chains(View(tx))), index, parent, segment);
        child == next && View(tx) == Batches.WithChains(old(View(tx)), s)
    {
      var key := EncodeIndexNodeKey(index, parent, segment);
      if key in tx.db.indexEdges {
        return DecodeU64(tx.db.indexEdges[key]);
      }
      var id := AllocateChainId();
      if id.None? {
        return Failure(CountersExhausted);
      }
      tx.db := tx.db.(indexEdges := tx.db.indexEdges[key := U64Be(id.value)]);
      return Success(id.value);
    }

    /** The first loop of `put_index_entry`: the chain that the last segment's leaf belongs to. */
    method WalkOrCreatePath(tx: WriteTransaction, index: IndexId, segments: seq<Bytes>) returns (end: Result<U64>)
      modifies this`indexChainIdCounter, this`indexChainIdCounterChanged, tx
      ensures var (s, chain) := PathSteps(old(Batches.Chains(View(tx))), index, ROOT_CHAIN, segments);
        end == chain && View(tx) == Batches.WithChains(old(View(tx)), s)
    {
      var chain := ROOT_CHAIN;
      ghost var before := View(tx);
      ghost var s := Batches.Chains(before);
      ghost var whole := PathSteps(s, index, ROOT_CHAIN, segments);
      var i := 0;
      while i < |segments|
        invariant 0 <= i <= |segments|
        invariant s == Batches.Chains(View(tx)) && View(tx) == Batches.WithChains(before, s)
        invariant whole == PathSteps(s, index, chain, segments[i..])
      {
        assert segments[i..][0] == segments[i] && segments[i..][1..] == segments[i + 1..];
        var child := FindOrCreateIndexEdge(tx, index, chain, segments[i]);
        s := Batches.Chains(View(tx));
        if child.Failure? {
          return child;
        }
        chain := child.value;
        i := i + 1;
      }
      return Success(chain);
    }

    method PutIndexEntry(tx: WriteTransaction, index: IndexId, indexKey: Bytes, document: DocumentId)
        returns (error: Option<Error>)
      modifies this`indexChainIdCounter, this`indexChainIdCounterChanged, tx
      ensures (View(tx), error) == Batches.PutIndexEntry(old(View(tx)), index, indexKey, document)
    {
      var segments := SplitIndexKey(indexKey);
      var last := |segments| - 1;
      var chain := WalkOrCreatePath(tx, index, segments[..last]);
      if chain.Failure? {
        return Some(chain.error);
      }
      var row := LeafRow(index, chain.value, segments[last], document);
      tx.db := tx.db.(indexLeaves := tx.db.indexLeaves - {row});
      tx.db := tx.db.(indexLeaves := tx.db.indexLeaves + {row});
      return None;
    }

    method IndexNodeHasEntries(tx: WriteTransaction, index: IndexId, chain: U64) returns (some: bool)
      ensures some == NodeHasEntries(tx.db.indexEdges, tx.db.indexLeaves, index, chain)
    {
      var prefix := IndexNodePrefix(index, chain);
      if PrefixRows(tx.db.indexLeaves, prefix, Forward) != [] {
        return true;
      }
      return PrefixRows(Rows(tx.db.indexEdges), prefix, Forward) != [];
    }

    /** The first loop of `delete_index_entry`: the edges on the way to the leaf, or nothing if one is missing. */
    method WalkPath(tx: WriteTransaction, index: IndexId, segments: seq<Bytes>)
        returns (found: Result<Option<seq<IndexPathEdge>>>)
      ensures found == FindPath(tx.db.indexEdges, index, ROOT_CHAIN, segments)
    {
      var chain := ROOT_CHAIN;
      var path: seq<IndexPathEdge> := [];
      ghost var whole := FindPath(tx.db.indexEdges, index, ROOT_CHAIN, segments);
      Continues([], whole);
      var i := 0;
      while i < |segments|
        invariant 0 <= i <= |segments|
        invariant whole == Continued(path, FindPath(tx.db.indexEdges, index, chain, segments[i..]))
      {
        assert segments[i..][0] == segments[i] && segments[i..][1..] == segments[i + 1..];
        var key := EncodeIndexNodeKey(index, chain, segments[i]);
        if key !in tx.db.indexEdges {
          return Success(None);
        }
        var child := DecodeU64(tx.db.indexEdges[key]);
        if child.Failure? {
          return Failure(child.error);
        }
        var edge := IndexPathEdge(chain, segments[i], child.value);
        ContinuedStep(path, edge, FindPath(tx.db.indexEdges, index, child.value, segments[i + 1..]));
        path := path + [edge];
        chain := child.value;
        i := i + 1;
      }
      assert path + [] == path;
      return Success(Some(path));
    }

    /** The last loop of `delete_index_entry`: cut edges to empty nodes, from the leaf upwards. */
    method PrunePath(tx: WriteTransaction, index: IndexId, path: seq<IndexPathEdge>)
      modifies tx
      ensures tx.db == old(tx.db).(indexEdges := Pruned(old(tx.db.indexEdges), old(tx.db.indexLeaves), index, path))
    {
      ghost var before := tx.db;
      var n := |path|;
      assert path[..n] == path;
      while n > 0
        invariant 0 <= n <= |path|
        invariant tx.db == before.(indexEdges := tx.db.indexEdges)
        invariant Pruned(before.indexEdges, before.indexLeaves, index, path)
          == Pruned(tx.db.indexEdges, before.indexLeaves, index, path[..n])
      {
        n := n - 1;
        var edge := path[n];
        PrunedStep(tx.db.indexEdges, tx.db.indexLeaves, index, path, n);
        var hasEntries := IndexNodeHasEntries(tx, index, edge.childChain);
        if hasEntries {
          break;
        }
        tx.db := tx.db.(indexEdges := tx.db.indexEdges - {EncodeIndexNodeKey(index, edge.parentChain, edge.segment)});
      }
    }

    method DeleteIndexEntry(tx: WriteTransaction, index: IndexId, indexKey: Bytes, document: DocumentId)
        returns (error: Option<Error>)
      modifies tx
      ensures (View(tx), error) == Batches.DeleteIndexEntry(old(View(tx)), index, indexKey, document)
    {
      var segments := SplitIndexKey(indexKey);
      var last := |segments| - 1;
      var found := WalkPath(tx, index, segments[..last]);
      match found {
        case Failure(e) => return Some(e);
        case Success(None) => return None;
        case Success(Some(path)) =>
          var row := LeafRow(index, PathEnd(ROOT_CHAIN, path), segments[last], document);
          tx.db := tx.db.(indexLeaves := tx.db.indexLeaves - {row});
          PrunePath(tx, index, path);
          return None;
      }
    }

    // ------------------------------------------------------------------- put

    /** How far `put` has come. */
    ghost function At(tx: WriteTransaction, made: map<CollectionId, CollectionId>, madeIndexes: map<IndexId, IndexId>,
                      error: Option<Error>): Batches.Progress
      reads this, tx
    {
      Batches.Progress(View(tx), made, madeIndexes, error)
    }

    method MakeCollections(tx: WriteTransaction, names: map<CollectionId, Name>, version: U64)
        returns (made: map<CollectionId, CollectionId>, error: Option<Error>)
      modifies this`collectionIdCounter, this`collectionIdCounterChanged, tx
      ensures At(tx, made, map[], error)
           == Batches.Run(old(At(tx, map[], map[], None)), Batches.MakeCollections(Ids(names.Keys), names), version)
    {
      made := map[];
      var ids := Ids(names.Keys);
      ghost var whole := Batches.Run(At(tx, map[], map[], None), Batches.MakeCollections(ids, names), version);
      var i := 0;
      while i < |ids|
        invariant 0 <= i <= |ids|
        invariant whole == Batches.Run(At(tx, made, map[], None), Batches.MakeCollections(ids[i..], names), version)
      {
        MakeCollectionsStep(At(tx, made, map[], None), ids, names, i, version);
        var id := CreateCollection(tx, names[ids[i]], None, version);
        if id.Failure? {
          return made, Some(id.error);
        }
        made := made[ids[i] := id.value];
        i := i + 1;
      }
      return made, None;
    }

    method MakeIndexes(tx: WriteTransaction, requested: CollectionId, collection: CollectionId,
                       indexes: map<IndexId, IndexCatalogWrite>, version: U64,
                       made: map<CollectionId, CollectionId>, earlier: map<IndexId, IndexId>)
        returns (madeIndexes: map<IndexId, IndexId>, error: Option<Error>)
      requires Batches.Resolve(requested, made) == Some(collection)
      modifies this`indexIdCounter, this`indexIdCounterChanged, tx
      ensures At(tx, made, madeIndexes, error)
           == Batches.Run(old(At(tx, made, earlier, None)), Batches.MakeIndexes(requested, Ids(indexes.Keys), indexes),
                          version)
    {
      madeIndexes := earlier;
      var ids := Ids(indexes.Keys);
      ghost var whole := Batches.Run(At(tx, made, earlier, None), Batches.MakeIndexes(requested, ids, indexes),
                                     version);
      var i := 0;
      while i < |ids|
        invariant 0 <= i <= |ids|
        invariant whole
          == Batches.Run(At(tx, made, madeIndexes, None), Batches.MakeIndexes(requested, ids[i..], indexes), version)
      {
        MakeIndexesStep(At(tx, made, madeIndexes, None), requested, collection, ids, indexes, i, version);
        var write := indexes[ids[i]];
        var id := CreateIndex(tx, collection, write.name, write.metadata);
        if id.Failure? {
          return madeIndexes, Some(id.error);
        }
        madeIndexes := madeIndexes[ids[i] := id.value];
        i := i + 1;
      }
      return madeIndexes, None;
    }

    method MakeAllIndexes(tx: WriteTransaction, indexes: map<CollectionId, map<IndexId, IndexCatalogWrite>>,
                          version: U64, made: map<CollectionId, CollectionId>)
        returns (madeIndexes: map<IndexId, IndexId>, error: Option<Error>)
      modifies this`indexIdCounter, this`indexIdCounterChanged, tx
      ensures At(tx, made, madeIndexes, error)
           == Batches.Run(old(At(tx, made, map[], None)), Batches.MakeAllIndexes(Ids(indexes.Keys), indexes), version)
    {
      madeIndexes := map[];
      var cs := Ids(indexes.Keys);
      ghost var p := At(tx, made, map[], None);
      ghost var whole := Batches.Run(p, Batches.MakeAllIndexes(cs, indexes), version);
      var i := 0;
      while i < |cs|
        invariant 0 <= i <= |cs|
        invariant p == At(tx, made, madeIndexes, None)
        invariant whole == Batches.Run(p, Batches.MakeAllIndexes(cs[i..], indexes), version)
      {
        MakeAllIndexesStep(p, cs, indexes, i, version);
        var collection := Batches.Resolve(cs[i], made);
        if collection.None? {
          return madeIndexes, Some(UnknownCollection);
        }
        madeIndexes, error := MakeIndexes(tx, cs[i], collection.value, indexes[cs[i]], version, made, madeIndexes);
        p := At(tx, made, madeIndexes, error);
        if error.Some? {
          Batches.RunStopped(p, Batches.MakeAllIndexes(cs[i + 1..], indexes), version);
          return;
        }
        i := i + 1;
      }
      error := None;
    }

    method PutDocument(tx: WriteTransaction, collection: CollectionId, document: DocumentId, write: DocumentWrite,
                       version: U64)
      modifies tx
      ensures View(tx) == Batches.PutDocumentVersion(old(View(tx)), collection, document, write, version)
    {
      var key := EncodeDocumentKey(collection, document, version);
      match write {
        case DocumentPut(data) =>
          tx.db := tx.db.(documents := tx.db.documents[key := EncodeDocumentValue(data)]);
        case DocumentDeleted =>
          tx.db := tx.db.(documents := tx.db.documents[key := DOCUMENT_TOMBSTONE]);
      }
      tx.db := tx.db.(vacuumTargets := tx.db.vacuumTargets[EncodeVacuumTargetKey(collection, document) := []]);
    }

    method ApplyIndexWrite(tx: WriteTransaction, index: IndexId, position: IndexPosition, write: IndexWrite)
        returns (error: Option<Error>)
      modifies this`indexChainIdCounter, this`indexChainIdCounterChanged, tx
      ensures (View(tx), error) == Batches.ApplyIndexWrite(old(View(tx)), index, position, write)
    {
      match write {
        case IndexPut => error := PutIndexEntry(tx, index, position.value, position.documentId);
        case IndexDeleted => error := DeleteIndexEntry(tx, index, position.value, position.documentId);
      }
    }

    method PutDocuments(tx: WriteTransaction, requested: CollectionId, collection: CollectionId,
                        documents: map<DocumentId, DocumentWrite>, version: U64,
                        made: map<CollectionId, CollectionId>, madeIndexes: map<IndexId, IndexId>)
      requires Batches.Resolve(requested, made) == Some(collection)
      modifies tx
      ensures At(tx, made, madeIndexes, None)
           == Batches.Run(old(At(tx, made, madeIndexes, None)),
                          Batches.WriteDocuments(requested, Batches.DocumentIds(documents.Keys), documents), version)
    {
      var ids := Batches.DocumentIds(documents.Keys);
      ghost var whole := Batches.Run(At(tx, made, madeIndexes, None), Batches.WriteDocuments(requested, ids, documents),
                                     version);
      var i := 0;
      while i < |ids|
        invariant 0 <= i <= |ids|
        invariant whole
          == Batches.Run(At(tx, made, madeIndexes, None), Batches.WriteDocuments(requested, ids[i..], documents),
                         version)
      {
        WriteDocumentsStep(At(tx, made, madeIndexes, None), requested, collection, ids, documents, i, version);
        PutDocument(tx, collection, ids[i], documents[ids[i]], version);
        i := i + 1;
      }
    }

    method PutIndexEntries(tx: WriteTransaction, requested: IndexId, index: IndexId,
                           entries: map<IndexPosition, IndexWrite>, version: U64,
                           made: map<CollectionId, CollectionId>, madeIndexes: map<IndexId, IndexId>)
        returns (error: Option<Error>)
      requires Batches.Resolve(requested, madeIndexes) == Some(index)
      modifies this`indexChainIdCounter, this`indexChainIdCounterChanged, tx
      ensures At(tx, made, madeIndexes, error)
           == Batches.Run(old(At(tx, made, madeIndexes, None)),
                          Batches.WritePositions(requested, Batches.Positions(entries.Keys), entries), version)
    {
      var positions := Batches.Positions(entries.Keys);
      ghost var p := At(tx, made, madeIndexes, None);
      ghost var whole := Batches.Run(p, Batches.WritePositions(requested, positions, entries), version);
      var i := 0;
      while i < |positions|
        invariant 0 <= i <= |positions|
        invariant p == At(tx, made, madeIndexes, None)
        invariant whole == Batches.Run(p, Batches.WritePositions(requested, positions[i..], entries), version)
      {
        ghost var previous := p;
        error := ApplyIndexWrite(tx, index, positions[i], entries[positions[i]]);
        p := At(tx, made, madeIndexes, error);
        WritePositionsStep(previous, p, requested, index, positions, entries, i, version);
        if error.Some? {
          return;
        }
        i := i + 1;
      }
      error := None;
    }

    method PutIndexes(tx: WriteTransaction, indexes: map<IndexId, map<IndexPosition, IndexWrite>>, version: U64,
                      made: map<CollectionId, CollectionId>, madeIndexes: map<IndexId, IndexId>)
        returns (error: Option<Error>)
      modifies this`indexChainIdCounter, this`indexChainIdCounterChanged, tx
      ensures At(tx, made, madeIndexes, error)
           == Batches.Run(old(At(tx, made, madeIndexes, None)), Batches.WriteIndexes(Ids(indexes.Keys), indexes),
                          version)
    {
      var ids := Ids(indexes.Keys);
      ghost var p := At(tx, made, madeIndexes, None);
      ghost var whole := Batches.Run(p, Batches.WriteIndexes(ids, indexes), version);
      var i := 0;
      while i < |ids|
        invariant 0 <= i <= |ids|
        invariant p == At(tx, made, madeIndexes, None)
        invariant whole == Batches.Run(p, Batches.WriteIndexes(ids[i..], indexes), version)
      {
        WriteIndexesStep(p, ids, indexes, i, version);
        var index := Batches.Resolve(ids[i], madeIndexes);
        if index.None? {
          return Some(UnknownIndex);
        }
        error := PutIndexEntries(tx, ids[i], index.value, indexes[ids[i]], version, made, madeIndexes);
        p := At(tx, made, madeIndexes, error);
        if error.Some? {
          Batches.RunStopped(p, Batches.WriteIndexes(ids[i + 1..], indexes), version);
          return;
        }
        i := i + 1;
      }
      error := None;
    }

    method PutCollection(tx: WriteTransaction, requested: CollectionId, data: CollectionWriteSet, version: U64,
                         made: map<CollectionId, CollectionId>, madeIndexes: map<IndexId, IndexId>)
        returns (error: Option<Error>)
      modifies this`indexChainIdCounter, this`indexChainIdCounterChanged, tx
      ensures At(tx, made, madeIndexes, error)
           == Batches.Run(old(At(tx, made, madeIndexes, None)), Batches.WriteCollection(requested, data), version)
    {
      ghost var start := At(tx, made, madeIndexes, None);
      WriteCollectionParts(start, requested, data, version);
      var resolved := Batches.Resolve(requested, made);
      if resolved.None? {
        return Some(UnknownCollection);
      }
      PutDocuments(tx, requested, resolved.value, data.documents, version, made, madeIndexes);
      error := PutIndexes(tx, data.indexEntries, version, made, madeIndexes);
      ghost var indexed := At(tx, made, madeIndexes, error);
      if error.Some? || data.metadata.None? {
        SetMetadataStopped(indexed, requested, data, version);
        return;
      }
      SetMetadataStep(indexed, requested, resolved.value, data.metadata.value, version);
      var updated := UpdateCollectionMetadata(tx, resolved.value, data.metadata.value, version);
      if updated.Failure? {
        return Some(updated.error);
      }
    }

    method PutCollections(tx: WriteTransaction, collections: Collections, version: U64,
                          made: map<CollectionId, CollectionId>, madeIndexes: map<IndexId, IndexId>)
        returns (error: Option<Error>)
      modifies this`indexChainIdCounter, this`indexChainIdCounterChanged, tx
      ensures At(tx, made, madeIndexes, error)
           == Batches.Run(old(At(tx, made, madeIndexes, None)),
                          Batches.WriteCollections(Ids(collections.Keys), collections), version)
    {
      var cs := Ids(collections.Keys);
      ghost var p := At(tx, made, madeIndexes, None);
      ghost var whole := Batches.Run(p, Batches.WriteCollections(cs, collections), version);
      var i := 0;
      while i < |cs|
        invariant 0 <= i <= |cs|
        invariant p == At(tx, made, madeIndexes, None)
        invariant whole == Batches.Run(p, Batches.WriteCollections(cs[i..], collections), version)
      {
        WriteCollectionsStep(p, cs, collections, i, version);
        error := PutCollection(tx, cs[i], collections[cs[i]], version, made, madeIndexes);
        p := At(tx, made, madeIndexes, error);
        if error.Some? {
          Batches.RunStopped(p, Batches.WriteCollections(cs[i + 1..], collections), version);
          return;
        }
        i := i + 1;
      }
      error := None;
    }

    /** Everything `put` does before it sets the timestamp. */
    method Apply(tx: WriteTransaction, batch: WriteSet) returns (error: Option<Error>)
      modifies this`collectionIdCounter, this`collectionIdCounterChanged, this`indexIdCounter,
        this`indexIdCounterChanged,
        this`indexChainIdCounter, this`indexChainIdCounterChanged, tx
      ensures var p := Batches.Run(old(At(tx, map[], map[], None)), Batches.Operations(old(batch.Contents())),
                                   old(batch.ts));
        p.writer == View(tx) && p.error == error
    {
      OperationsParts(At(tx, map[], map[], None), batch.Contents());
      var made, madeIndexes;
      made, error := MakeCollections(tx, batch.newCollections, batch.ts);
      if error.Some? {
        Batches.RunStopped(At(tx, made, map[], error),
                           Batches.MakeAllIndexes(Ids(batch.newIndexes.Keys), batch.newIndexes), batch.ts);
        Batches.RunStopped(At(tx, made, map[], error),
                           Batches.WriteCollections(Ids(batch.collections.Keys), batch.collections), batch.ts);
        return;
      }
      madeIndexes, error := MakeAllIndexes(tx, batch.newIndexes, batch.ts, made);
      if error.Some? {
        Batches.RunStopped(At(tx, made, madeIndexes, error),
                           Batches.WriteCollections(Ids(batch.collections.Keys), batch.collections), batch.ts);
        return;
      }
      error := PutCollections(tx, batch.collections, batch.ts, made, madeIndexes);
    }

    /** The end of `put`: the timestamp, the counters, and LMDB's commit, which succeeds if `commits`. */
    method Finish(tx: WriteTransaction, ts: U64, commits: bool) returns (r: Result<()>)
      modifies this, tx
      ensures match Batches.SetTs(old(View(tx)), ts)
        case Failure(e) => r == Failure(e) && State() == old(State())
        case Success(w) => (State(), r) == Engines.Commit(old(State()), Batches.SaveCounters(w), commits)
    {
      r := SetTs(tx, ts);
      if r.Failure? {
        return;
      }
      SaveCounters(tx);
      if !commits {
        return Failure(CommitFailed);
      }
      committed := tx.db;
    }

    /** Carry out a batch in one write transaction. */
    method Transact(batch: WriteSet, commits: bool) returns (r: Result<()>)
      modifies this
      ensures (State(), r) == Engines.Put(old(State()), old(batch.Contents()), commits)
    {
      ghost var before, contents := State(), batch.Contents();
      var tx := new WriteTransaction(committed);
      assert At(tx, map[], map[], None) == Engines.Begin(before);
      var error := Apply(tx, batch);
      PutOutcome(before, contents, commits, View(tx), error);
      if error.Some? {
        return Failure(error.value);
      }
      r := Finish(tx, batch.ts, commits);
    }

    method Put(batch: WriteSet, commits: bool) returns (r: Result<()>)
      requires Valid()
      modifies this
      ensures Valid()
      ensures (State(), r) == Engines.Put(old(State()), old(batch.Contents()), commits)
    {
      Engines.PutKeeps(State(), batch.Contents(), commits);
      r := Transact(batch, commits);
    }

    /** Advance the timestamp without a batch. */
    method AdvanceTs(ts: U64, commits: bool) returns (r: Result<()>)
      requires Valid()
      modifies this
      ensures Valid()
      ensures (State(), r) == Engines.AdvanceTs(old(State()), ts, commits)
    {
      Engines.AdvanceTsKeeps(State(), ts, commits);
      var tx := new WriteTransaction(committed);
      r := SetTs(tx, ts);
      if r.Failure? {
        return;
      }
      if !commits {
        return Failure(CommitFailed);
      }
      committed := tx.db;
    }

    /** The timestamp that readers are shown; it moves either way. */
    method SetVisibleTs(ts: U64, commits: bool) returns (r: Result<()>)
      requires Valid()
      modifies this
      ensures Valid()
      ensures (State(), r) == Engines.SetVisibleTs(old(State()), ts, commits)
    {
      Engines.SetVisibleTsKeeps(State(), ts, commits);
      var tx := new WriteTransaction(committed);
      visibleTs := ts;
      tx.db := tx.db.(metadata := tx.db.metadata[Batches.VISIBLE_TS_KEY := U64Be(ts)]);
      if !commits {
        return Failure(CommitFailed);
      }
      committed := tx.db;
      return Success(());
    }

    /** A read transaction: an immutable snapshot of what is committed. */
    method BeginRead(ts: U64) returns (tx: Transaction)
      requires Valid()
      ensures fresh(tx) && tx.Valid() && tx.db == committed && tx.ts == ts && tx.writes.collections == map[]
    {
      tx := new Transaction(committed, ts, StoredAt(committed.metadata, Batches.CHAIN_ID_KEY));
    }
  }

  /** Open the engine over the stored databases. */
  method Open(env: Databases) returns (r: Result<StorageEngine>)
    ensures r.Success? <==> Engines.Open(env).Success?
    ensures r.Success? ==> fresh(r.value) && r.value.State() == Engines.Open(env).value
  {
    var engine := new StorageEngine(env);
    var loaded := engine.LoadCounters(env.metadata);
    match loaded {
      case Failure(e) => return Failure(e);
      case Success(_) => return Success(engine);
    }
  }

  lemma PutOutcome(e: Engines.Engine, batch: Batch, commits: bool, w: Batches.Writer, error: Option<Error>)
    requires var p := Batches.Run(Engines.Begin(e), Batches.Operations(batch), batch.ts);
      p.writer == w && p.error == error
    ensures Engines.Put(e, batch, commits) ==
      if error.Some? then (e.(memory := w.memory), Failure(error.value))
      else
        match Batches.SetTs(w, batch.ts)
        case Failure(e') => (e.(memory := w.memory), Failure(e'))
        case Success(w') => Engines.Commit(e, Batches.SaveCounters(w'), commits)
  {
  }

  lemma MakeCollectionsStep(p: Batches.Progress, ids: seq<CollectionId>, names: map<CollectionId, Name>, i: nat,
                            ts: U64)
    requires p.error.None? && i < |ids| && forall c | c in ids :: c in names
    ensures Batches.Run(p, Batches.MakeCollections(ids[i..], names), ts) ==
      var (w, id) := Batches.CreateCollection(p.writer, names[ids[i]], None, ts);
      if id.Failure? then p.(writer := w, error := Some(id.error))
      else Batches.Run(p.(writer := w, newCollections := p.newCollections[ids[i] := id.value]),
                       Batches.MakeCollections(ids[i + 1..], names), ts)
  {
    assert ids[i..][1..] == ids[i + 1..];
    var rest := Batches.MakeCollections(ids[i + 1..], names);
    var op := Batches.MakeCollection(ids[i], names[ids[i]]);
    Batches.RunFirst(p, op, rest, ts);
    if Batches.Step(p, op, ts).error.Some? {
      Batches.RunStopped(Batches.Step(p, op, ts), rest, ts);
    }
  }

  lemma MakeIndexesStep(p: Batches.Progress, c: CollectionId, collection: CollectionId, ids: seq<IndexId>,
                        indexes: map<IndexId, IndexCatalogWrite>, i: nat, ts: U64)
    requires p.error.None? && i < |ids| && (forall i | i in ids :: i in indexes)
      && Batches.Resolve(c, p.newCollections) == Some(collection)
    ensures Batches.Run(p, Batches.MakeIndexes(c, ids[i..], indexes), ts) ==
      var (w, id) := Batches.CreateIndex(p.writer, collection, indexes[ids[i]].name, indexes[ids[i]].metadata);
      if id.Failure? then p.(writer := w, error := Some(id.error))
      else Batches.Run(p.(writer := w, newIndexes := p.newIndexes[ids[i] := id.value]),
                       Batches.MakeIndexes(c, ids[i + 1..], indexes), ts)
  {
    assert ids[i..][1..] == ids[i + 1..];
    var rest := Batches.MakeIndexes(c, ids[i + 1..], indexes);
    var op := Batches.MakeIndex(c, ids[i], indexes[ids[i]]);
    Batches.RunFirst(p, op, rest, ts);
    if Batches.Step(p, op, ts).error.Some? {
      Batches.RunStopped(Batches.Step(p, op, ts), rest, ts);
    }
  }

  lemma MakeAllIndexesStep(p: Batches.Progress, cs: seq<CollectionId>,
                           indexes: map<CollectionId, map<IndexId, IndexCatalogWrite>>, i: nat, ts: U64)
    requires p.error.None? && i < |cs| && forall c | c in cs :: c in indexes
    ensures Batches.Run(p, Batches.MakeAllIndexes(cs[i..], indexes), ts) ==
      if Batches.Resolve(cs[i], p.newCollections).None? then p.Failed(UnknownCollection)
      else Batches.Run(
        Batches.Run(p, Batches.MakeIndexes(cs[i], Ids(indexes[cs[i]].Keys), indexes[cs[i]]), ts),
        Batches.MakeAllIndexes(cs[i + 1..], indexes), ts)
  {
    assert cs[i..][1..] == cs[i + 1..];
    Batches.RunGroup(p, Batches.UseCollection(cs[i]),
      Batches.MakeIndexes(cs[i], Ids(indexes[cs[i]].Keys), indexes[cs[i]]),
      Batches.MakeAllIndexes(cs[i + 1..], indexes), ts);
  }

  lemma WriteDocumentsStep(p: Batches.Progress, c: CollectionId, collection: CollectionId, ids: seq<DocumentId>,
                           documents: map<DocumentId, DocumentWrite>, i: nat, ts: U64)
    requires p.error.None? && i < |ids| && (forall d | d in ids :: d in documents)
      && Batches.Resolve(c, p.newCollections) == Some(collection)
    ensures Batches.Run(p, Batches.WriteDocuments(c, ids[i..], documents), ts)
         == Batches.Run(p.(writer := Batches.PutDocumentVersion(p.writer, collection, ids[i], documents[ids[i]], ts)),
              Batches.WriteDocuments(c, ids[i + 1..], documents), ts)
  {
    assert ids[i..][1..] == ids[i + 1..];
    Batches.RunFirst(p, Batches.WriteDocument(c, ids[i], documents[ids[i]]),
                     Batches.WriteDocuments(c, ids[i + 1..], documents), ts);
  }

  lemma WritePositionsStep(p: Batches.Progress, p': Batches.Progress, i: IndexId, index: IndexId,
                           positions: seq<IndexPosition>,
                           entries: map<IndexPosition, IndexWrite>, k: nat, ts: U64)
    requires p.error.None? && k < |positions| && (forall x | x in positions :: x in entries)
      && Batches.Resolve(i, p.newIndexes) == Some(index)
    requires var (w, error) := Batches.ApplyIndexWrite(p.writer, index, positions[k], entries[positions[k]]);
      p' == p.(writer := w, error := error)
    ensures Batches.Run(p, Batches.WritePositions(i, positions[k..], entries), ts)
         == if p'.error.Some? then p' else Batches.Run(p', Batches.WritePositions(i, positions[k + 1..], entries), ts)
  {
    assert positions[k..][1..] == positions[k + 1..];
    var op := Batches.WriteIndex(i, positions[k], entries[positions[k]]);
    var rest := Batches.WritePositions(i, positions[k + 1..], entries);
    Batches.RunFirst(p, op, rest, ts);
    assert Batches.Step(p, op, ts) == p';
    if p'.error.Some? {
      Batches.RunStopped(p', rest, ts);
    }
  }

  lemma WriteIndexesStep(p: Batches.Progress, ids: seq<IndexId>, indexes: map<IndexId, map<IndexPosition, IndexWrite>>,
                         i: nat, ts: U64)
    requires p.error.None? && i < |ids| && forall i | i in ids :: i in indexes
    ensures Batches.Run(p, Batches.WriteIndexes(ids[i..], indexes), ts) ==
      if Batches.Resolve(ids[i], p.newIndexes).None? then p.Failed(UnknownIndex)
      else Batches.Run(
        Batches.Run(p, Batches.WritePositions(ids[i], Batches.Positions(indexes[ids[i]].Keys), indexes[ids[i]]), ts),
        Batches.WriteIndexes(ids[i + 1..], indexes), ts)
  {
    assert ids[i..][1..] == ids[i + 1..];
    var mine := Batches.WritePositions(ids[i], Batches.Positions(indexes[ids[i]].Keys), indexes[ids[i]]);
    var rest := Batches.WriteIndexes(ids[i + 1..], indexes);
    assert Batches.WriteIndexes(ids[i..], indexes) == [Batches.UseIndex(ids[i])] + mine + rest;
    UseIndexStep(p, ids[i], ts);
    Batches.RunGroup(p, Batches.UseIndex(ids[i]), mine, rest, ts);
  }

  lemma UseIndexStep(p: Batches.Progress, i: IndexId, ts: U64)
    requires p.error.None?
    ensures Batches.Step(p, Batches.UseIndex(i), ts)
       == if Batches.Resolve(i, p.newIndexes).None? then p.Failed(UnknownIndex) else p
  {
  }

  lemma UseCollectionStep(p: Batches.Progress, c: CollectionId, ts: U64)
    requires p.error.None?
    ensures Batches.Step(p, Batches.UseCollection(c), ts)
       == if Batches.Resolve(c, p.newCollections).None? then p.Failed(UnknownCollection) else p
  {
  }

  lemma SetMetadataStep(p: Batches.Progress, c: CollectionId, collection: CollectionId, metadata: Bytes, ts: U64)
    requires p.error.None? && Batches.Resolve(c, p.newCollections) == Some(collection)
    ensures Batches.Step(p, Batches.SetMetadata(c, metadata), ts) ==
      match Batches.UpdateCollectionMetadata(p.writer, collection, metadata, ts)
      case Failure(e) => p.Failed(e)
      case Success(w) => p.(writer := w)
  {
  }

  lemma SetMetadataStopped(p: Batches.Progress, c: CollectionId, data: CollectionWriteSet, ts: U64)
    requires p.error.Some? || data.metadata.None?
    ensures (if data.metadata.None? then p else Batches.Step(p, Batches.SetMetadata(c, data.metadata.value), ts)) == p
  {
  }

  /** One collection of a batch: its documents, its index entries, its metadata. */
  lemma WriteCollectionParts(p: Batches.Progress, c: CollectionId, data: CollectionWriteSet, ts: U64)
    requires p.error.None?
    ensures Batches.Run(p, Batches.WriteCollection(c, data), ts) ==
      if Batches.Resolve(c, p.newCollections).None? then p.Failed(UnknownCollection)
      else
        var documented := Batches.Run(p,
                                      Batches.WriteDocuments(c, Batches.DocumentIds(data.documents.Keys),
                                                             data.documents), ts);
        var indexed := Batches.Run(documented, Batches.WriteIndexes(Ids(data.indexEntries.Keys), data.indexEntries),
                                   ts);
        if data.metadata.None? then indexed else Batches.Step(indexed, Batches.SetMetadata(c, data.metadata.value), ts)
  {
    var documents := Batches.WriteDocuments(c, Batches.DocumentIds(data.documents.Keys), data.documents);
    var indexes := Batches.WriteIndexes(Ids(data.indexEntries.Keys), data.indexEntries);
    var metadata := Batches.SetMetadataOf(c, data);
    assert Batches.WriteCollection(c, data) == [Batches.UseCollection(c)] + documents + indexes + metadata;
    Batches.RunAppend(p, [Batches.UseCollection(c)] + documents + indexes, metadata, ts);
    UseCollectionStep(p, c, ts);
    Batches.RunGroup(p, Batches.UseCollection(c), documents, indexes, ts);
    var indexed := Batches.Run(p, [Batches.UseCollection(c)] + documents + indexes, ts);
    if Batches.Resolve(c, p.newCollections).None? {
      Batches.RunStopped(indexed, metadata, ts);
    } else if data.metadata.Some? {
      assert metadata == [Batches.SetMetadata(c, data.metadata.value)] + [];
      Batches.RunFirst(indexed, Batches.SetMetadata(c, data.metadata.value), [], ts);
    }
  }

  lemma WriteCollectionsStep(p: Batches.Progress, cs: seq<CollectionId>, collections: Collections, i: nat, ts: U64)
    requires i < |cs| && forall c | c in cs :: c in collections
    ensures Batches.Run(p, Batches.WriteCollections(cs[i..], collections), ts)
         == Batches.Run(Batches.Run(p, Batches.WriteCollection(cs[i], collections[cs[i]]), ts),
                        Batches.WriteCollections(cs[i + 1..], collections), ts)
  {
    assert cs[i..][1..] == cs[i + 1..];
    Batches.RunAppend(p, Batches.WriteCollection(cs[i], collections[cs[i]]),
                      Batches.WriteCollections(cs[i + 1..], collections), ts);
  }

  lemma OperationsParts(p: Batches.Progress, batch: Batch)
    ensures Batches.Run(p, Batches.Operations(batch), batch.ts) ==
      var made := Batches.Run(p, Batches.MakeCollections(Ids(batch.newCollections.Keys), batch.newCollections),
                              batch.ts);
      var madeIndexes := Batches.Run(made, Batches.MakeAllIndexes(Ids(batch.newIndexes.Keys), batch.newIndexes),
                                     batch.ts);
      Batches.Run(madeIndexes, Batches.WriteCollections(Ids(batch.collections.Keys), batch.collections), batch.ts)
  {
    var a := Batches.MakeCollections(Ids(batch.newCollections.Keys), batch.newCollections);
    var b := Batches.MakeAllIndexes(Ids(batch.newIndexes.Keys), batch.newIndexes);
    var c := Batches.WriteCollections(Ids(batch.collections.Keys), batch.collections);
    Batches.RunAppend(p, a + b, c, batch.ts);
    Batches.RunAppend(p, a, b, batch.ts);
  }

  /** The path found so far, followed by the rest of it. */
  ghost function Continued(path: seq<IndexPathEdge>,
                           rest: Result<Option<seq<IndexPathEdge>>>): Result<Option<seq<IndexPathEdge>>> {
    match rest
    case Success(Some(further)) => Success(Some(path + further))
    case _ => rest
  }

  lemma PrunedStep(edges: Database, leaves: DupDatabase, index: IndexId, path: seq<IndexPathEdge>, n: nat)
    requires n < |path|
    ensures Pruned(edges, leaves, index, path[..n + 1]) ==
      if NodeHasEntries(edges, leaves, index, path[n].childChain) then edges
      else Pruned(edges - {EncodeIndexNodeKey(index, path[n].parentChain, path[n].segment)}, leaves, index, path[..n])
  {
    assert path[..n + 1][..n] == path[..n];
  }

  lemma Continues(path: seq<IndexPathEdge>, rest: Result<Option<seq<IndexPathEdge>>>)
    requires path == []
    ensures Continued(path, rest) == rest
  {
    if rest.Success? && rest.value.Some? {
      assert path + rest.value.value == rest.value.value;
    }
  }

  lemma ContinuedStep(path: seq<IndexPathEdge>, edge: IndexPathEdge, rest: Result<Option<seq<IndexPathEdge>>>)
    ensures Continued(path, Prepend(edge, rest)) == Continued(path + [edge], rest)
  {
    if rest.Success? && rest.value.Some? {
      assert path + ([edge] + rest.value.value) == path + [edge] + rest.value.value;
    }
  }
}
