/** The configuration that a batch leaves in the catalog row of an index: the stored one, or the first one recorded. */
module IndexConfigurations {
  import opened ByteStrings
  import opened Types
  import opened Lmdb
  import opened HeedEncoding
  import opened WriteSets
  import opened Catalogs
  import opened Batches
  import opened BatchInvariants
  import opened BatchEffects
  import opened BatchWrites
  import opened Engines
  import opened History
  import opened AllocatedIds

  function ConfigAt(catalog: Database, key: Bytes): Option<Bytes> {
    if key !in catalog then None
    else
      match DecodeIndexCatalogValue(catalog[key])
      case Success((_, config)) => Some(config)
      case Failure(_) => None
  }

  // -------------------------------------------------------------- operations

  /** The configuration that an operation would give to the index of a key. */
  function ConfigBy(op: Operation, made: Made, key: Bytes): Option<Bytes> {
    if !op.MakeIndex? then None
    else
      match Resolve(op.collection, made)
      case None => None
      case Some(c) => if EncodeIndexCatalogKey(c, op.write.name) == key then Some(op.write.metadata) else None
  }

  function FirstConfig(ops: seq<Operation>, made: Made, key: Bytes): Option<Bytes>
    decreases |ops|
  {
    if ops == [] then None else OrElse(ConfigBy(ops[0], made, key), FirstConfig(ops[1..], made, key))
  }

  lemma MakeIndexConfig(p: Progress, c: CollectionId, t: IndexId, write: IndexCatalogWrite, key: Bytes)
    requires ProgressOk(p) && p.error.None? && StepMakeIndex(p, c, t, write).error.None?
    ensures ConfigAt(StepMakeIndex(p, c, t, write).writer.db.indexesCatalog, key)
         == OrElse(ConfigAt(p.writer.db.indexesCatalog, key), ConfigBy(MakeIndex(c, t, write), p.newCollections, key))
  {
    var id := ResolveCollection(p, c).value;
    var k := EncodeIndexCatalogKey(id, write.name);
    CreateIndexKeeps(p.writer, id, write.name, write.metadata);
    assert IndexCatalogOk(p.writer.db.indexesCatalog, IndexBound(p.writer));
    if k !in p.writer.db.indexesCatalog {
      IndexCatalogValueRoundTrip(p.writer.memory.indexId + 1, write.metadata);
    }
  }

  lemma StepConfig(p: Progress, op: Operation, ts: U64, key: Bytes)
    requires ProgressOk(p) && p.error.None? && Step(p, op, ts).error.None?
    ensures ConfigAt(Step(p, op, ts).writer.db.indexesCatalog, key)
         == OrElse(ConfigAt(p.writer.db.indexesCatalog, key), ConfigBy(op, p.newCollections, key))
  {
    if op.MakeIndex? {
      MakeIndexConfig(p, op.collection, op.temporaryIndex, op.write, key);
    } else {
      StepTables(p, op, ts);
    }
  }

  /** A stored configuration stays; else the first creation of the index decides. */
  lemma {:induction false} RunConfig(p: Progress, ops: seq<Operation>, ts: U64, key: Bytes)
    requires ProgressOk(p) && Run(p, ops, ts).error.None? && forall op | op in ops :: !op.MakeCollection?
    ensures ConfigAt(Run(p, ops, ts).writer.db.indexesCatalog, key)
         == OrElse(ConfigAt(p.writer.db.indexesCatalog, key), FirstConfig(ops, p.newCollections, key))
    decreases |ops|
  {
    if ops != [] {
      assert ops[0] in ops && forall op | op in ops[1..] :: op in ops;
      NoEarlierError(p, ops, ts);
      StepKeeps(p, ops[0], ts);
      StepKeepsMade(p, ops[0], ts);
      StepConfig(p, ops[0], ts, key);
      RunConfig(Step(p, ops[0], ts), ops[1..], ts, key);
    }
  }

  lemma {:induction false} CreationsKeepIndexes(p: Progress, ops: seq<Operation>, ts: U64)
    requires forall op | op in ops :: !op.MakeIndex?
    ensures Run(p, ops, ts).writer.db.indexesCatalog == p.writer.db.indexesCatalog
    decreases |ops|
  {
    if ops != [] {
      assert ops[0] in ops && forall op | op in ops[1..] :: op in ops;
      StepTables(p, ops[0], ts);
      CreationsKeepIndexes(Step(p, ops[0], ts), ops[1..], ts);
    }
  }

  // ------------------------------------------------------------- what is recorded

  /** The configuration of the first listed index with that key. */
  function ListedConfig(c: CollectionId, ids: seq<IndexId>, indexes: map<IndexId, IndexCatalogWrite>,
                        key: Bytes): Option<Bytes>
    requires forall t | t in ids :: t in indexes
  {
    if ids == [] then None
    else if EncodeIndexCatalogKey(c, indexes[ids[0]].name) == key then Some(indexes[ids[0]].metadata)
    else ListedConfig(c, ids[1..], indexes, key)
  }

  /** The first recorded configuration for a key, collections and then indexes in id order. */
  function RecordedConfig(cs: seq<CollectionId>, indexes: map<CollectionId, map<IndexId, IndexCatalogWrite>>,
                          made: Made,
                          key: Bytes): Option<Bytes>
    requires forall c | c in cs :: c in indexes
  {
    if cs == [] then None
    else
      var own := match Resolve(cs[0], made)
        case None => None
        case Some(c) => ListedConfig(c, Ids(indexes[cs[0]].Keys), indexes[cs[0]], key);
      OrElse(own, RecordedConfig(cs[1..], indexes, made, key))
  }

  lemma {:induction false} FirstConfigAppend(a: seq<Operation>, b: seq<Operation>, made: Made, key: Bytes)
    ensures FirstConfig(a + b, made, key) == OrElse(FirstConfig(a, made, key), FirstConfig(b, made, key))
    decreases |a|
  {
    if a == [] {
      assert a + b == b;
    } else {
      assert (a + b)[1..] == a[1..] + b;
      FirstConfigAppend(a[1..], b, made, key);
    }
  }

  lemma {:induction false} ListedConfigs(c': CollectionId, ids: seq<IndexId>, indexes: map<IndexId, IndexCatalogWrite>,
                                         made: Made, key: Bytes)
    requires forall t | t in ids :: t in indexes
    ensures FirstConfig(MakeIndexes(c', ids, indexes), made, key)
         == match Resolve(c', made) case None => None case Some(c) => ListedConfig(c, ids, indexes, key)
    decreases |ids|
  {
    if ids != [] {
      ListedConfigs(c', ids[1..], indexes, made, key);
    }
  }

  lemma {:induction false} RecordedConfigs(cs: seq<CollectionId>,
                                           indexes: map<CollectionId, map<IndexId, IndexCatalogWrite>>, made: Made,
                                           key: Bytes)
    requires forall c | c in cs :: c in indexes
    ensures FirstConfig(MakeAllIndexes(cs, indexes), made, key) == RecordedConfig(cs, indexes, made, key)
    decreases |cs|
  {
    if cs != [] {
      var first, own := [UseCollection(cs[0])], MakeIndexes(cs[0], Ids(indexes[cs[0]].Keys), indexes[cs[0]]);
      FirstConfigAppend(first + own, MakeAllIndexes(cs[1..], indexes), made, key);
      FirstConfigAppend(first, own, made, key);
      assert FirstConfig(first[1..], made, key) == None;
      ListedConfigs(cs[0], Ids(indexes[cs[0]].Keys), indexes[cs[0]], made, key);
      RecordedConfigs(cs[1..], indexes, made, key);
    }
  }

  // -------------------------------------------------------------------- main result

  lemma BatchConfig(e: Engine, batch: Batch, key: Bytes)
    requires EngineOk(e) && Run(Begin(e), Operations(batch), batch.ts).error.None?
    ensures ConfigAt(Run(Begin(e), Operations(batch), batch.ts).writer.db.indexesCatalog, key)
         == OrElse(ConfigAt(e.committed.indexesCatalog, key),
              RecordedConfig(Ids(batch.newIndexes.Keys), batch.newIndexes, MadeCollections(e, batch), key))
  {
    var p := Run(Begin(e), Creations(batch), batch.ts);
    BeginOk(e);
    PhaseRuns(Begin(e), batch);
    Phases(batch);
    LaterPhases(batch);
    CreationsMade(e, batch);
    RunKeeps(Begin(e), Creations(batch), batch.ts);
    RunConfig(p, IndexCreations(batch), batch.ts, key);
    RecordedConfigs(Ids(batch.newIndexes.Keys), batch.newIndexes, MadeCollections(e, batch), key);
    CreationsKeepIndexes(Run(p, IndexCreations(batch), batch.ts), Writes(batch), batch.ts);
  }

  /**
   After an accepted batch an index has the configuration it had, or the first one that the batch records for its
   collection and name; told before the call.
   */
  lemma PutIndexConfig(e: Engine, batch: Batch, commits: bool, key: Bytes)
    requires EngineOk(e) && Put(e, batch, commits).1.Success?
    ensures ConfigAt(Put(e, batch, commits).0.committed.indexesCatalog, key)
         == OrElse(ConfigAt(e.committed.indexesCatalog, key),
              RecordedConfig(Ids(batch.newIndexes.Keys), batch.newIndexes, MadeCollections(e, batch), key))
  {
    AcceptedPut(e, batch, commits);
    BatchConfig(e, batch, key);
  }
}
