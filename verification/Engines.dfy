/** The storage engine as a state machine: committed databases and the memory that outlives aborted transactions. */
module Engines {
  import opened ByteStrings
  import opened Types
  import opened BigEndian
  import opened Lmdb
  import opened HeedEncoding
  import opened TrieStorage
  import opened WriteSets
  import opened Databases
  import opened Catalogs
  import opened Batches
  import opened BatchInvariants

  datatype Engine = Engine(committed: Databases, memory: Memory)

  const EMPTY_DATABASES := Databases(map[], map[], map[], map[], {}, map[], map[], map[])
  const INITIAL := Engine(EMPTY_DATABASES, Memory(0, 0, 0, false, 0, false, 0, false))

  // -------------------------------------------------------------- transitions

  function Begin(e: Engine): Progress {
    Progress(Writer(e.committed, e.memory), map[], map[], None)
  }

  /** Commit wholly or discard; the memory keeps what it reached either way. */
  function Commit(e: Engine, w: Writer, commits: bool): (Engine, Result<()>) {
    if commits then (Engine(w.db, w.memory), Success(())) else (e.(memory := w.memory), Failure(CommitFailed))
  }

  function Put(e: Engine, batch: Batch, commits: bool): (Engine, Result<()>) {
    var p := Run(Begin(e), Operations(batch), batch.ts);
    if p.error.Some? then (e.(memory := p.writer.memory), Failure(p.error.value))
    else
      match SetTs(p.writer, batch.ts)
      case Failure(error) => (e.(memory := p.writer.memory), Failure(error))
      case Success(w) => Commit(e, SaveCounters(w), commits)
  }

  function AdvanceTs(e: Engine, ts: U64, commits: bool): (Engine, Result<()>) {
    match SetTs(Writer(e.committed, e.memory), ts)
    case Failure(error) => (e, Failure(error))
    case Success(w) => Commit(e, w, commits)
  }

  /** The visible timestamp may move either way; it is stored in memory before the commit. */
  function SetVisibleTs(e: Engine, ts: U64, commits: bool): (Engine, Result<()>) {
    var metadata := e.committed.metadata[VISIBLE_TS_KEY := U64Be(ts)];
    Commit(e, Writer(e.committed.(metadata := metadata), e.memory.(visibleTs := ts)), commits)
  }

  /** A new process over the committed databases. */
  function Open(committed: Databases): Result<Engine> {
    var memory :- LoadCounters(committed.metadata);
    Success(Engine(committed, memory))
  }

  datatype Event = PutBatch(batch: Batch, commits: bool) | MoveTs(ts: U64, commits: bool) | MoveVisibleTs(visible: U64,
    commits: bool) | Reopen

  function Next(e: Engine, event: Event): Engine {
    match event
    case PutBatch(batch, commits) => Put(e, batch, commits).0
    case MoveTs(ts, commits) => AdvanceTs(e, ts, commits).0
    case MoveVisibleTs(ts, commits) => SetVisibleTs(e, ts, commits).0
    case Reopen => match Open(e.committed) case Success(restarted) => restarted case Failure(_) => e
  }

  function Replay(e: Engine, events: seq<Event>): Engine
    decreases |events|
  {
    if events == [] then e else Replay(Next(e, events[0]), events[1..])
  }

  // ---------------------------------------------------------------- invariant

  /** Everything committed is sound and within the stored counters, which the memory has reached. */
  ghost predicate EngineOk(e: Engine) {
    && MemoryAhead(e.committed.metadata, e.memory)
    && CommittedOk(e.committed)
  }

  ghost predicate CommittedOk(db: Databases) {
    ContentsOk(db, StoredAt(db.metadata, COLLECTION_ID_KEY), StoredAt(db.metadata, INDEX_ID_KEY),
               StoredAt(db.metadata, CHAIN_ID_KEY))
  }

  lemma InitialOk()
    ensures EngineOk(INITIAL)
  {
  }

  lemma BeginOk(e: Engine)
    requires EngineOk(e)
    ensures ProgressOk(Begin(e))
  {
    var db, w := e.committed, Begin(e).writer;
    ContentsMonotone(db, StoredAt(db.metadata, COLLECTION_ID_KEY), StoredAt(db.metadata, INDEX_ID_KEY),
                     StoredAt(db.metadata, CHAIN_ID_KEY),
      CollectionBound(w), IndexBound(w), ChainBound(w));
  }

  lemma KeysDistinct()
    ensures TS_KEY != CHAIN_ID_KEY && TS_KEY != COLLECTION_ID_KEY && TS_KEY != INDEX_ID_KEY
    ensures VISIBLE_TS_KEY !in {TS_KEY, CHAIN_ID_KEY, COLLECTION_ID_KEY, INDEX_ID_KEY}
    ensures CHAIN_ID_KEY != COLLECTION_ID_KEY && CHAIN_ID_KEY != INDEX_ID_KEY && COLLECTION_ID_KEY != INDEX_ID_KEY
  {
    assert VISIBLE_TS_KEY[0] == 4;
    assert TS_KEY[0] == 0 && CHAIN_ID_KEY[0] == 1 && COLLECTION_ID_KEY[0] == 2 && INDEX_ID_KEY[0] == 3;
  }

  lemma SaveCounterStores(metadata: Database, key: Bytes, changed: bool, counter: U64, other: Bytes)
    ensures StoredCounter(SaveCounter(metadata, key, changed, counter), other) ==
      if other == key && changed then Success(counter) else StoredCounter(metadata, other)
  {
    U64RoundTrip(counter);
  }

  /** Saving writes exactly the counters that changed, so what is stored is what the transaction was bounded by. */
  lemma SavedCounters(w: Writer)
    requires MemoryAhead(w.db.metadata, w.memory)
    ensures var metadata := SaveCounters(w).db.metadata;
      && MemoryAhead(metadata, SaveCounters(w).memory)
      && StoredCounter(metadata, TS_KEY) == StoredCounter(w.db.metadata, TS_KEY)
      && StoredCounter(metadata, VISIBLE_TS_KEY) == StoredCounter(w.db.metadata, VISIBLE_TS_KEY)
      && StoredAt(metadata, COLLECTION_ID_KEY) == CollectionBound(w)
      && StoredAt(metadata, INDEX_ID_KEY) == IndexBound(w)
      && StoredAt(metadata, CHAIN_ID_KEY) == ChainBound(w)
  {
    var m := w.memory;
    var a := SaveCounter(w.db.metadata, COLLECTION_ID_KEY, m.collectionIdChanged, m.collectionId);
    var b := SaveCounter(a, INDEX_ID_KEY, m.indexIdChanged, m.indexId);
    KeysDistinct();
    forall key ensures StoredCounter(SaveCounter(b, CHAIN_ID_KEY, m.chainIdChanged, m.chainId), key) ==
      if key == CHAIN_ID_KEY && m.chainIdChanged then Success(m.chainId)
      else if key == INDEX_ID_KEY && m.indexIdChanged then Success(m.indexId)
      else if key == COLLECTION_ID_KEY && m.collectionIdChanged then Success(m.collectionId)
      else StoredCounter(w.db.metadata, key)
    {
      SaveCounterStores(w.db.metadata, COLLECTION_ID_KEY, m.collectionIdChanged, m.collectionId, key);
      SaveCounterStores(a, INDEX_ID_KEY, m.indexIdChanged, m.indexId, key);
      SaveCounterStores(b, CHAIN_ID_KEY, m.chainIdChanged, m.chainId, key);
    }
  }

  lemma SetTsKeeps(w: Writer, ts: U64)
    requires MemoryAhead(w.db.metadata, w.memory)
    ensures SetTs(w, ts).Success? <==> ts >= w.memory.ts
    ensures SetTs(w, ts).Success? ==>
      var w' := SetTs(w, ts).value;
      && w' == Writer(w.db.(metadata := w'.db.metadata), w.memory.(ts := ts))
      && MemoryAhead(w'.db.metadata, w'.memory)
      && CollectionBound(w') == CollectionBound(w) && IndexBound(w') == IndexBound(w) && ChainBound(w') == ChainBound(w)
      && StoredAt(w'.db.metadata, TS_KEY) == (if ts == w.memory.ts then StoredAt(w.db.metadata, TS_KEY) else ts)
      && StoredAt(w'.db.metadata, VISIBLE_TS_KEY) == StoredAt(w.db.metadata, VISIBLE_TS_KEY)
      && StoredAt(w'.db.metadata, COLLECTION_ID_KEY) == StoredAt(w.db.metadata, COLLECTION_ID_KEY)
      && StoredAt(w'.db.metadata, INDEX_ID_KEY) == StoredAt(w.db.metadata, INDEX_ID_KEY)
      && StoredAt(w'.db.metadata, CHAIN_ID_KEY) == StoredAt(w.db.metadata, CHAIN_ID_KEY)
  {
    KeysDistinct();
    U64RoundTrip(ts);
  }

  /** A saved and committed transaction leaves sound tables within the stored counters. */
  lemma CommittedKeeps(w: Writer)
    requires WriterOk(w)
    ensures EngineOk(Engine(SaveCounters(w).db, SaveCounters(w).memory))
  {
    SavedCounters(w);
  }

  lemma AbortedKeeps(e: Engine, m: Memory)
    requires EngineOk(e) && e.memory.collectionId <= m.collectionId && e.memory.indexId <= m.indexId
      && e.memory.chainId <= m.chainId
    ensures EngineOk(e.(memory := m))
  {
  }

  lemma SetTsKeepsWriter(w: Writer, ts: U64)
    requires WriterOk(w) && SetTs(w, ts).Success?
    ensures WriterOk(SetTs(w, ts).value)
  {
    SetTsKeeps(w, ts);
  }

  lemma FinishKeeps(e: Engine, w: Writer, ts: U64, commits: bool)
    requires EngineOk(e) && WriterOk(w) && Grows(e.memory, w.memory) && SetTs(w, ts).Success?
    ensures EngineOk(Commit(e, SaveCounters(SetTs(w, ts).value), commits).0)
  {
    SetTsKeepsWriter(w, ts);
    CommittedKeeps(SetTs(w, ts).value);
    SetTsKeeps(w, ts);
    AbortedKeeps(e, SaveCounters(SetTs(w, ts).value).memory);
  }

  /** Any batch, accepted, rejected or lost at commit, keeps the engine sound. */
  lemma PutKeeps(e: Engine, batch: Batch, commits: bool)
    requires EngineOk(e)
    ensures EngineOk(Put(e, batch, commits).0)
  {
    BeginOk(e);
    RunKeeps(Begin(e), Operations(batch), batch.ts);
    var p := Run(Begin(e), Operations(batch), batch.ts);
    AbortedKeeps(e, p.writer.memory);
    if p.error.None? && SetTs(p.writer, batch.ts).Success? {
      FinishKeeps(e, p.writer, batch.ts, commits);
    }
  }

  lemma AdvanceTsKeeps(e: Engine, ts: U64, commits: bool)
    requires EngineOk(e)
    ensures EngineOk(AdvanceTs(e, ts, commits).0)
  {
    SetTsKeeps(Writer(e.committed, e.memory), ts);
  }

  /**
   The timestamp moves exactly if it is not smaller: in memory at once, and in its row if the commit succeeds and the
   one in memory was smaller.
   */
  lemma AdvanceTsMeaning(e: Engine, ts: U64, commits: bool)
    requires EngineOk(e)
    ensures var (e', r) := AdvanceTs(e, ts, commits);
      && (r == Failure(LowerTimestamp) <==> ts < e.memory.ts) && (r.Success? <==> e.memory.ts <= ts && commits)
      && e'.memory == (if e.memory.ts <= ts then e.memory.(ts := ts) else e.memory)
      && e'.committed == e.committed.(metadata := e'.committed.metadata)
      && (r.Failure? ==> e'.committed == e.committed)
      && (r.Success? ==>
          StoredAt(e'.committed.metadata, TS_KEY)
          == if e.memory.ts < ts then ts else StoredAt(e.committed.metadata, TS_KEY))
  {
    SetTsKeeps(Writer(e.committed, e.memory), ts);
  }

  /** So where memory agrees with what is stored, both hold the timestamp after success. */
  lemma AdvancedTs(e: Engine, ts: U64)
    requires EngineOk(e) && StoredAt(e.committed.metadata, TS_KEY) == e.memory.ts <= ts
    ensures var (e', r) := AdvanceTs(e, ts, true);
      r.Success? && e'.memory.ts == ts == StoredAt(e'.committed.metadata, TS_KEY)
  {
    AdvanceTsMeaning(e, ts, true);
  }

  /** Showing another timestamp leaves every table, the counters and the engine's timestamp alone. */
  lemma SetVisibleTsKeeps(e: Engine, ts: U64, commits: bool)
    requires EngineOk(e)
    ensures var (e', r) := SetVisibleTs(e, ts, commits);
      && EngineOk(e') && e'.memory == e.memory.(visibleTs := ts)
      && r == (if commits then Success(()) else Failure(CommitFailed))
      && e'.committed == e.committed.(metadata := e'.committed.metadata)
      && StoredCounter(e'.committed.metadata, TS_KEY) == StoredCounter(e.committed.metadata, TS_KEY)
      && StoredAt(e'.committed.metadata, VISIBLE_TS_KEY) ==
         (if r.Success? then ts else StoredAt(e.committed.metadata, VISIBLE_TS_KEY))
  {
    KeysDistinct();
    SaveCounterStores(e.committed.metadata, VISIBLE_TS_KEY, true, ts, TS_KEY);
    SaveCounterStores(e.committed.metadata, VISIBLE_TS_KEY, true, ts, VISIBLE_TS_KEY);
    SaveCounterStores(e.committed.metadata, VISIBLE_TS_KEY, true, ts, COLLECTION_ID_KEY);
    SaveCounterStores(e.committed.metadata, VISIBLE_TS_KEY, true, ts, INDEX_ID_KEY);
    SaveCounterStores(e.committed.metadata, VISIBLE_TS_KEY, true, ts, CHAIN_ID_KEY);
  }

  lemma ReopenKeeps(e: Engine)
    requires EngineOk(e)
    ensures Open(e.committed).Success? && EngineOk(Open(e.committed).value)
  {
  }

  lemma NextKeeps(e: Engine, event: Event)
    requires EngineOk(e)
    ensures EngineOk(Next(e, event))
  {
    match event
    case PutBatch(batch, commits) => PutKeeps(e, batch, commits);
    case MoveTs(ts, commits) => AdvanceTsKeeps(e, ts, commits);
    case MoveVisibleTs(ts, commits) => SetVisibleTsKeeps(e, ts, commits);
    case Reopen => ReopenKeeps(e);
  }

  /** Over every run of puts, lost commits, timestamp moves and restarts, the engine stays sound. */
  lemma {:induction false} ReplayKeeps(e: Engine, events: seq<Event>)
    requires EngineOk(e)
    ensures EngineOk(Replay(e, events))
    decreases |events|
  {
    if events != [] {
      NextKeeps(e, events[0]);
      ReplayKeeps(Next(e, events[0]), events[1..]);
    }
  }

  // ---------------------------------------------------------------- fresh ids

  ghost predicate ChainInUse(db: Databases, chain: U64)
    requires EdgeRows(db.indexEdges) && LeafRows(db.indexLeaves)
  {
    || (exists node ::
       node in EdgeView(db.indexEdges) && (node.chain == chain || EdgeView(db.indexEdges)[node] == chain))
    || (exists leaf :: leaf in LeafView(db.indexLeaves) && leaf.node.chain == chain)
  }

  ghost predicate CollectionInUse(db: Databases, id: CollectionId) {
    || HasCatalogRow(db.collectionsCatalog, id)
    || exists name :: NamesId(db.collectionIdsByName, name, id)
  }

  ghost predicate IndexInUse(db: Databases, id: IndexId) {
    exists key :: key in db.indexesCatalog && IndexIdAt(db.indexesCatalog, key) == id
  }

  /** The next id of each kind is in use nowhere in the catalogs or the trie. */
  ghost predicate NextIdsFresh(e: Engine)
    requires EngineOk(e)
  {
    && (AllocateCollectionId(e.memory).Some? ==> !CollectionInUse(e.committed, AllocateCollectionId(e.memory).value.1))
    && (AllocateIndexId(e.memory).Some? ==> !IndexInUse(e.committed, AllocateIndexId(e.memory).value.1))
    && (e.memory.chainId < U64_MAX ==> !ChainInUse(e.committed, e.memory.chainId + 1))
  }

  lemma FreshCollectionId(e: Engine)
    requires EngineOk(e) && e.memory.collectionId < TWO_63 - 1
    ensures !CollectionInUse(e.committed, e.memory.collectionId + 1)
  {
    FreshCollection(e.committed.collectionIdsByName, e.committed.collectionsCatalog,
      StoredAt(e.committed.metadata, COLLECTION_ID_KEY), e.memory.collectionId + 1);
  }

  lemma FreshIndexId(catalog: Database, bound: U64, id: IndexId)
    requires IndexCatalogOk(catalog, bound) && bound < id
    ensures forall key | key in catalog :: IndexIdAt(catalog, key) != id
  {
  }

  lemma FreshChain(db: Databases, counter: U64, chain: U64)
    requires StoresTrie(db.indexEdges, db.indexLeaves, counter, ROOT_CHAIN) && counter < chain
    ensures !ChainInUse(db, chain)
  {
  }

  lemma SoundEngineHasFreshIds(e: Engine)
    requires EngineOk(e)
    ensures NextIdsFresh(e)
  {
    if e.memory.collectionId < TWO_63 - 1 {
      FreshCollectionId(e);
    }
    if e.memory.indexId < TWO_63 - 1 {
      FreshIndexId(e.committed.indexesCatalog, StoredAt(e.committed.metadata, INDEX_ID_KEY), e.memory.indexId + 1);
    }
    if e.memory.chainId < U64_MAX {
      FreshChain(e.committed, StoredAt(e.committed.metadata, CHAIN_ID_KEY), e.memory.chainId + 1);
    }
  }

  /** In every reachable state, whatever batches failed or were lost on the way, newly allocated ids are fresh. */
  lemma FreshIds(events: seq<Event>)
    ensures EngineOk(Replay(INITIAL, events)) && NextIdsFresh(Replay(INITIAL, events))
  {
    InitialOk();
    ReplayKeeps(INITIAL, events);
    SoundEngineHasFreshIds(Replay(INITIAL, events));
  }
}
