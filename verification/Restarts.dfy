/** What a restart resumes: the stored timestamps and counters, and what of the memory is lost with the process. */
module Restarts {
  import opened ByteStrings
  import opened Types
  import opened BigEndian
  import opened Lmdb
  import opened HeedEncoding
  import opened IndexUpdates
  import opened WriteSets
  import opened Databases
  import opened Batches
  import opened BatchInvariants
  import opened Engines
  import opened History

  // --------------------------------------------------------------------- opening

  /** A metadata row is absent, and counts as zero, or holds eight big-endian bytes. */
  ghost predicate MetadataRow(metadata: Database, key: Bytes) {
    key in metadata ==> |metadata[key]| == 8
  }

  lemma StoredRow(metadata: Database, key: Bytes)
    ensures StoredCounter(metadata, key).Success? <==> MetadataRow(metadata, key)
    ensures MetadataRow(metadata, key) ==>
      StoredAt(metadata, key) == if key in metadata then FromU64Be(metadata[key]) else 0
  {
  }

  /** Opening succeeds exactly if the five rows decode, and resumes each of them with nothing left to save. */
  lemma OpenMeaning(db: Databases)
    ensures Open(db).Success? <==>
      && MetadataRow(db.metadata, TS_KEY) && MetadataRow(db.metadata, VISIBLE_TS_KEY)
      && MetadataRow(db.metadata, COLLECTION_ID_KEY) && MetadataRow(db.metadata, INDEX_ID_KEY)
      && MetadataRow(db.metadata, CHAIN_ID_KEY)
    ensures Open(db).Success? ==>
      var e := Open(db).value;
      && e.committed == db && Saved(e.memory)
      && e.memory.ts == StoredAt(db.metadata, TS_KEY)
      && e.memory.visibleTs == StoredAt(db.metadata, VISIBLE_TS_KEY)
      && e.memory.collectionId == StoredAt(db.metadata, COLLECTION_ID_KEY)
      && e.memory.indexId == StoredAt(db.metadata, INDEX_ID_KEY)
      && e.memory.chainId == StoredAt(db.metadata, CHAIN_ID_KEY)
  {
    StoredRow(db.metadata, TS_KEY);
    StoredRow(db.metadata, VISIBLE_TS_KEY);
    StoredRow(db.metadata, COLLECTION_ID_KEY);
    StoredRow(db.metadata, INDEX_ID_KEY);
    StoredRow(db.metadata, CHAIN_ID_KEY);
  }

  // -------------------------------------------------------------------- tracking

  /** No counter waits to be saved. */
  predicate Saved(m: Memory) {
    !m.collectionIdChanged && !m.indexIdChanged && !m.chainIdChanged
  }

  /** The timestamps are the stored ones, and so is every counter that does not wait to be saved. */
  ghost predicate Tracked(metadata: Database, m: Memory) {
    && m.ts == StoredAt(metadata, TS_KEY) && m.visibleTs == StoredAt(metadata, VISIBLE_TS_KEY)
    && (!m.collectionIdChanged ==> m.collectionId == StoredAt(metadata, COLLECTION_ID_KEY))
    && (!m.indexIdChanged ==> m.indexId == StoredAt(metadata, INDEX_ID_KEY))
    && (!m.chainIdChanged ==> m.chainId == StoredAt(metadata, CHAIN_ID_KEY))
  }

  /** A restart changes a tracked engine exactly if some counter waits to be saved. */
  lemma ReopenTracked(e: Engine)
    requires EngineOk(e) && Tracked(e.committed.metadata, e.memory)
    ensures Next(e, Reopen) == e <==> Saved(e.memory)
  {
    OpenMeaning(e.committed);
  }

  /** Counters that do not wait to be saved have not moved. */
  ghost predicate FlagsTell(m: Memory, m': Memory) {
    && (!m'.collectionIdChanged ==> !m.collectionIdChanged && m'.collectionId == m.collectionId)
    && (!m'.indexIdChanged ==> !m.indexIdChanged && m'.indexId == m.indexId)
    && (!m'.chainIdChanged ==> !m.chainIdChanged && m'.chainId == m.chainId)
  }

  lemma {:induction false} PathFlags(s: ChainState, index: IndexId, chain: U64, segments: seq<Bytes>)
    ensures var s' := PathSteps(s, index, chain, segments).0;
      !s'.changed ==> !s.changed && s'.counter == s.counter
    decreases |segments|
  {
    if segments != [] {
      var (s', next) := EdgeStep(s, index, chain, segments[0]);
      if next.Success? {
        PathFlags(s', index, next.value, segments[1..]);
      }
    }
  }

  lemma EntryFlags(w: Writer, index: IndexId, at: IndexPosition, write: IndexWrite)
    ensures FlagsTell(w.memory, ApplyIndexWrite(w, index, at, write).0.memory)
  {
    var segments := SplitIndexKey(at.value);
    PathFlags(Chains(w), index, ROOT_CHAIN, segments[..|segments| - 1]);
  }

  lemma StepFlags(p: Progress, op: Operation, ts: U64)
    ensures FlagsTell(p.writer.memory, Step(p, op, ts).writer.memory)
  {
    if op.WriteIndex? && ResolveIndex(p, op.index).Some? {
      EntryFlags(p.writer, ResolveIndex(p, op.index).value, op.position, op.indexWrite);
    }
  }

  lemma {:induction false} RunFlags(p: Progress, ops: seq<Operation>, ts: U64)
    ensures FlagsTell(p.writer.memory, Run(p, ops, ts).writer.memory)
    decreases |ops|
  {
    if ops != [] {
      StepFlags(p, ops[0], ts);
      RunFlags(Step(p, ops[0], ts), ops[1..], ts);
    }
  }

  lemma RunTracked(e: Engine, batch: Batch)
    requires EngineOk(e) && Tracked(e.committed.metadata, e.memory)
    ensures var w := Run(Begin(e), Operations(batch), batch.ts).writer;
      && w.db.metadata == e.committed.metadata && Tracked(w.db.metadata, w.memory)
      && MemoryAhead(w.db.metadata, w.memory)
  {
    BeginOk(e);
    RunKeeps(Begin(e), Operations(batch), batch.ts);
    RunFlags(Begin(e), Operations(batch), batch.ts);
  }

  lemma SetTsTracked(w: Writer, ts: U64)
    requires MemoryAhead(w.db.metadata, w.memory) && Tracked(w.db.metadata, w.memory) && SetTs(w, ts).Success?
    ensures var w' := SetTs(w, ts).value;
      MemoryAhead(w'.db.metadata, w'.memory) && Tracked(w'.db.metadata, w'.memory)
  {
    SetTsKeeps(w, ts);
  }

  lemma SavedTracked(w: Writer)
    requires MemoryAhead(w.db.metadata, w.memory) && Tracked(w.db.metadata, w.memory)
    ensures var w' := SaveCounters(w); Tracked(w'.db.metadata, w'.memory) && Saved(w'.memory)
  {
    SavedCounters(w);
  }

  /** An accepted batch leaves nothing to save; a rejected one leaves what is stored as it was. */
  lemma PutTracked(e: Engine, batch: Batch)
    requires EngineOk(e) && Tracked(e.committed.metadata, e.memory)
    ensures var (e', r) := Put(e, batch, true);
      && Tracked(e'.committed.metadata, e'.memory)
      && (r.Success? ==> Saved(e'.memory))
      && (r.Failure? ==> e'.committed == e.committed)
  {
    RunTracked(e, batch);
    var p := Run(Begin(e), Operations(batch), batch.ts);
    if p.error.None? && SetTs(p.writer, batch.ts).Success? {
      SetTsTracked(p.writer, batch.ts);
      SavedTracked(SetTs(p.writer, batch.ts).value);
    }
  }

  lemma NextTracked(e: Engine, event: Event)
    requires EngineOk(e) && Tracked(e.committed.metadata, e.memory) && (event.Reopen? || event.commits)
    ensures Tracked(Next(e, event).committed.metadata, Next(e, event).memory)
  {
    match event
    case PutBatch(batch, _) => PutTracked(e, batch);
    case MoveTs(ts, _) =>
      if ts >= e.memory.ts {
        SetTsTracked(Writer(e.committed, e.memory), ts);
      }
    case MoveVisibleTs(ts, _) => VisibleTracked(e, ts);
    case Reopen => OpenMeaning(e.committed);
  }

  lemma VisibleTracked(e: Engine, ts: U64)
    requires EngineOk(e) && Tracked(e.committed.metadata, e.memory)
    ensures var e' := SetVisibleTs(e, ts, true).0; Tracked(e'.committed.metadata, e'.memory)
  {
    SetVisibleTsKeeps(e, ts, true);
    KeysDistinct();
    assert StoredCounter(e.committed.metadata[VISIBLE_TS_KEY := U64Be(ts)], CHAIN_ID_KEY)
        == StoredCounter(e.committed.metadata, CHAIN_ID_KEY);
  }

  // --------------------------------------------------------------- laws of runs

  /**
   Over every run that loses no commit, a restart changes the engine exactly if a counter waits to be saved, which only
   a rejected batch can leave behind.
   */
  lemma {:induction false} RestartIsHarmless(e: Engine, events: seq<Event>)
    requires EngineOk(e) && Tracked(e.committed.metadata, e.memory) && Infallible(events)
    ensures EngineOk(Replay(e, events))
    ensures Tracked(Replay(e, events).committed.metadata, Replay(e, events).memory)
    ensures Next(Replay(e, events), Reopen) == Replay(e, events) <==> Saved(Replay(e, events).memory)
    decreases |events|
  {
    if events == [] {
      ReopenTracked(e);
    } else {
      assert Infallible(events[1..]);
      NextKeeps(e, events[0]);
      NextTracked(e, events[0]);
      RestartIsHarmless(Next(e, events[0]), events[1..]);
    }
  }

  lemma AgreeingIsTracked(e: Engine)
    requires EngineOk(e) && Next(e, Reopen) == e
    ensures Tracked(e.committed.metadata, e.memory)
  {
    OpenMeaning(e.committed);
  }

  /** The event is not a rejected batch. */
  ghost predicate NotRejected(e: Engine, event: Event) {
    event.PutBatch? ==> Put(e, event.batch, event.commits).1.Success?
  }

  /** If memory agrees with what is stored, it does after every event that loses no commit and is no rejected batch. */
  lemma AgreementKept(e: Engine, event: Event)
    requires EngineOk(e) && Next(e, Reopen) == e
    requires (event.Reopen? || event.commits) && NotRejected(e, event)
    ensures Next(Next(e, event), Reopen) == Next(e, event)
  {
    AgreeingIsTracked(e);
    NextKeeps(e, event);
    NextTracked(e, event);
    ReopenTracked(e);
    ReopenTracked(Next(e, event));
    match event
    case PutBatch(batch, _) => PutTracked(e, batch);
    case MoveTs(_, _) =>
    case MoveVisibleTs(_, _) =>
    case Reopen => OpenMeaning(e.committed);
  }

  /** A batch that names a new collection and then writes to one that it never named. */
  function Unresolved(name: Name, ts: U64): Batch {
    Batch(map[-2 := NO_WRITES], map[-1 := name], map[], ts)
  }

  lemma UnresolvedOperations(name: Name, ts: U64)
    ensures Operations(Unresolved(name, ts))
         == [MakeCollection(-1, name)] + [UseCollection(-2)] + WriteCollectionRest(Unresolved(name, ts))
  {
    var batch := Unresolved(name, ts);
    assert batch.newCollections.Keys == {-1} && batch.collections.Keys == {-2} && batch.newIndexes.Keys == {};
    assert Ids({-1}) == [-1] && Ids({-2}) == [-2];
    assert MakeCollections([-1], batch.newCollections)
        == [MakeCollection(-1, name)] + MakeCollections([], batch.newCollections);
    assert WriteCollections([-2], batch.collections) == WriteCollection(-2, NO_WRITES) + [];
  }

  function WriteCollectionRest(batch: Batch): seq<Operation> {
    WriteDocuments(-2, DocumentIds({}), map[]) + WriteIndexes(Ids({}), map[]) + SetMetadataOf(-2, NO_WRITES)
  }

  lemma UnresolvedStops(p: Progress, name: Name, ts: U64)
    requires p.error.None? && name !in p.writer.db.collectionIdsByName && AllocateCollectionId(p.writer.memory).Some?
    requires p.newCollections == map[]
    ensures var p' := Run(p, Operations(Unresolved(name, ts)), ts);
      && p'.error == Some(UnknownCollection)
      && p'.writer.memory.collectionId == p.writer.memory.collectionId + 1 && p'.writer.memory.collectionIdChanged
  {
    var make, rest := MakeCollection(-1, name), WriteCollectionRest(Unresolved(name, ts));
    UnresolvedOperations(name, ts);
    RunGroup(p, make, [UseCollection(-2)], rest, ts);
    var made := Step(p, make, ts);
    var stopped := Step(made, UseCollection(-2), ts);
    RunFirst(made, UseCollection(-2), [], ts);
    RunStopped(stopped, [], ts);
    RunStopped(stopped, rest, ts);
  }

  lemma UnsavedIsLost(e: Engine)
    requires EngineOk(e) && e.memory.collectionIdChanged
    ensures Next(e, Reopen) != e
  {
    OpenMeaning(e.committed);
  }

  /** It is rejected, no commit is lost, and yet a restart changes the engine: the new id was never saved. */
  lemma RejectedBatchUnsaved(e: Engine, name: Name, ts: U64)
    requires EngineOk(e) && name !in e.committed.collectionIdsByName && AllocateCollectionId(e.memory).Some?
    ensures var (e', r) := Put(e, Unresolved(name, ts), true);
      && r == Failure(UnknownCollection) && e'.memory.collectionId == e.memory.collectionId + 1
      && Next(e', Reopen) != e'
  {
    UnresolvedStops(Begin(e), name, ts);
    PutKeeps(e, Unresolved(name, ts), true);
    UnsavedIsLost(Put(e, Unresolved(name, ts), true).0);
  }

  lemma SameAfterRestart(e: Engine, e': Engine)
    requires EngineOk(e) && e'.committed == e.committed
    ensures Next(e', Reopen) == Next(e, Reopen)
  {
    OpenMeaning(e.committed);
  }

  /** A restart undoes a batch that is rejected or lost at commit: the engine is the one from before it. */
  lemma RestartUndoesRejected(e: Engine, batch: Batch, commits: bool)
    requires EngineOk(e) && Next(e, Reopen) == e && Put(e, batch, commits).1.Failure?
    ensures Next(Put(e, batch, commits).0, Reopen) == e
  {
    RejectedPut(e, batch, commits);
    SameAfterRestart(e, Put(e, batch, commits).0);
  }
}
