/** Temporary index ids: what a batch writes under a new index is found under the id in the catalog row of the index. */
module NewIndexes {
  import opened ByteStrings
  import opened Types
  import opened Sequences
  import opened Lmdb
  import opened HeedEncoding
  import opened IndexTrie
  import opened WriteSets
  import opened Databases
  import opened Catalogs
  import opened Batches
  import opened BatchInvariants
  import opened BatchEffects
  import opened BatchWrites
  import opened Engines
  import opened History
  import opened CommitRefinement
  import opened AllocatedIds

  // ------------------------------------------------------------- catalog rows

  /** The temporary id stands for the id in the catalog row of that key. */
  ghost predicate IndexRow(p: Progress, t: IndexId, key: Bytes) {
    t in p.newIndexes && key in p.writer.db.indexesCatalog
      && IndexIdAt(p.writer.db.indexesCatalog, key) == p.newIndexes[t]
  }

  /** Earlier catalog rows are as they were, and later ones have ids above the counter of then. */
  ghost predicate RowsSince(table: Database, counter: U64, p: Progress) {
    && counter <= p.writer.memory.indexId && table.Keys <= p.writer.db.indexesCatalog.Keys
    && forall key | key in p.writer.db.indexesCatalog ::
         if key in table then p.writer.db.indexesCatalog[key] == table[key]
         else counter < IndexIdAt(p.writer.db.indexesCatalog, key)
  }

  function RowKey(p: Progress, c: CollectionId, write: IndexCatalogWrite): Bytes
    requires ResolveCollection(p, c).Some?
  {
    EncodeIndexCatalogKey(ResolveCollection(p, c).value, write.name)
  }

  /** What creating one index does to the index catalog and to the temporary ids. */
  lemma IndexStep(p: Progress, c: CollectionId, t: IndexId, write: IndexCatalogWrite)
    requires ProgressOk(p) && p.error.None? && StepMakeIndex(p, c, t, write).error.None?
    ensures ResolveCollection(p, c).Some?
    ensures var p', key := StepMakeIndex(p, c, t, write), RowKey(p, c, write);
      && IndexRow(p', t, key) && p'.newIndexes == p.newIndexes[t := p'.newIndexes[t]]
      && (key in p.writer.db.indexesCatalog ==> p'.writer == p.writer)
      && (key !in p.writer.db.indexesCatalog ==>
          && p'.writer.memory.indexId == p.writer.memory.indexId + 1 == p'.newIndexes[t]
          && p'.writer.db.indexesCatalog == p.writer.db.indexesCatalog[key := p'.writer.db.indexesCatalog[key]])
  {
    CreateIndexKeeps(p.writer, ResolveCollection(p, c).value, write.name, write.metadata);
  }

  lemma MakeIndexRowsSince(table: Database, counter: U64, p: Progress, c: CollectionId, t: IndexId,
                           write: IndexCatalogWrite)
    requires ProgressOk(p) && p.error.None? && StepMakeIndex(p, c, t, write).error.None? && RowsSince(table, counter, p)
    ensures RowsSince(table, counter, StepMakeIndex(p, c, t, write))
  {
    IndexStep(p, c, t, write);
  }

  lemma StepRowsSince(table: Database, counter: U64, p: Progress, op: Operation, ts: U64)
    requires ProgressOk(p) && p.error.None? && Step(p, op, ts).error.None? && RowsSince(table, counter, p)
    ensures RowsSince(table, counter, Step(p, op, ts))
  {
    StepKeeps(p, op, ts);
    if op.MakeIndex? {
      MakeIndexRowsSince(table, counter, p, op.collection, op.temporaryIndex, op.write);
    } else {
      StepTables(p, op, ts);
    }
  }

  lemma {:induction false} RunRowsSince(table: Database, counter: U64, p: Progress, ops: seq<Operation>, ts: U64)
    requires ProgressOk(p) && Run(p, ops, ts).error.None? && RowsSince(table, counter, p)
    ensures RowsSince(table, counter, Run(p, ops, ts))
    decreases |ops|
  {
    if ops != [] {
      NoEarlierError(p, ops, ts);
      StepKeeps(p, ops[0], ts);
      StepRowsSince(table, counter, p, ops[0], ts);
      RunRowsSince(table, counter, Step(p, ops[0], ts), ops[1..], ts);
    }
  }

  // ------------------------------------------------------- resolving the indexes

  /** The operation makes no other index under the temporary id, and no collection. */
  predicate MakesOnly(op: Operation, t: IndexId, make: Operation) {
    !op.MakeCollection? && (op.MakeIndex? && op.temporaryIndex == t ==> op == make)
  }

  lemma RowKept(p: Progress, op: Operation, ts: U64, c: CollectionId, t: IndexId, write: IndexCatalogWrite)
    requires ProgressOk(p) && p.error.None? && Step(p, op, ts).error.None? && MakesOnly(op, t, MakeIndex(c, t, write))
    requires ResolveCollection(p, c).Some? && IndexRow(p, t, RowKey(p, c, write))
    ensures IndexRow(Step(p, op, ts), t, RowKey(p, c, write))
  {
    if op.MakeIndex? {
      IndexStep(p, op.collection, op.temporaryIndex, op.write);
    } else {
      StepTables(p, op, ts);
      StepKeepsMade(p, op, ts);
    }
  }

  lemma {:induction false} RowKeptByAll(p: Progress, ops: seq<Operation>, ts: U64, c: CollectionId, t: IndexId,
                                        write: IndexCatalogWrite)
    requires ProgressOk(p) && Run(p, ops, ts).error.None? && forall op | op in ops ::
      MakesOnly(op, t, MakeIndex(c, t, write))
    requires ResolveCollection(p, c).Some? && IndexRow(p, t, RowKey(p, c, write))
    ensures IndexRow(Run(p, ops, ts), t, RowKey(p, c, write))
    decreases |ops|
  {
    if ops != [] {
      assert ops[0] in ops && forall op | op in ops[1..] :: op in ops;
      NoEarlierError(p, ops, ts);
      StepKeeps(p, ops[0], ts);
      StepKeepsMade(p, ops[0], ts);
      RowKept(p, ops[0], ts, c, t, write);
      RowKeptByAll(Step(p, ops[0], ts), ops[1..], ts, c, t, write);
    }
  }

  lemma {:induction false} MakesRow(p: Progress, ops: seq<Operation>, ts: U64, c: CollectionId, t: IndexId,
                                    write: IndexCatalogWrite)
    requires ProgressOk(p) && Run(p, ops, ts).error.None? && forall op | op in ops ::
      MakesOnly(op, t, MakeIndex(c, t, write))
    requires MakeIndex(c, t, write) in ops
    ensures ResolveCollection(p, c).Some? && IndexRow(Run(p, ops, ts), t, RowKey(p, c, write))
    decreases |ops|
  {
    assert ops[0] in ops && forall op | op in ops[1..] :: op in ops;
    NoEarlierError(p, ops, ts);
    StepKeeps(p, ops[0], ts);
    StepKeepsMade(p, ops[0], ts);
    var p' := Step(p, ops[0], ts);
    if ops[0] == MakeIndex(c, t, write) {
      IndexStep(p, c, t, write);
      RowKeptByAll(p', ops[1..], ts, c, t, write);
    } else {
      MakesRow(p', ops[1..], ts, c, t, write);
    }
  }

  lemma {:induction false} MadeByOperation(p: Progress, ops: seq<Operation>, ts: U64, t: IndexId)
    requires t in Run(p, ops, ts).newIndexes && t !in p.newIndexes
    ensures exists op :: op in ops && op.MakeIndex? && op.temporaryIndex == t
    decreases |ops|
  {
    assert ops != [] && ops[0] in ops && forall op | op in ops[1..] :: op in ops;
    StepKeepsMade(p, ops[0], ts);
    if t !in Step(p, ops[0], ts).newIndexes {
      MadeByOperation(Step(p, ops[0], ts), ops[1..], ts, t);
    }
  }

  // ------------------------------------------------ the index creations of a batch

  /** No temporary index id is used under two collections. */
  ghost predicate DistinctTemporaries(batch: Batch) {
    forall c, c', t | c in batch.newIndexes && c' in batch.newIndexes && t in batch.newIndexes[c]
      && t in batch.newIndexes[c'] :: c == c'
  }

  lemma {:induction false} MakesListed(c: CollectionId, ids: seq<IndexId>, indexes: map<IndexId, IndexCatalogWrite>,
                                       op: Operation)
    requires forall t | t in ids :: t in indexes
    ensures op in MakeIndexes(c, ids, indexes) <==>
      op.MakeIndex? && op.collection == c && op.temporaryIndex in ids && op.write == indexes[op.temporaryIndex]
    decreases |ids|
  {
    if ids != [] {
      MakesListed(c, ids[1..], indexes, op);
    }
  }

  lemma {:induction false} AllMakesListed(cs: seq<CollectionId>,
                                          indexes: map<CollectionId, map<IndexId, IndexCatalogWrite>>, op: Operation)
    requires (forall c | c in cs :: c in indexes) && op.MakeIndex?
    ensures op in MakeAllIndexes(cs, indexes) <==>
      op.collection in cs && op.temporaryIndex in indexes[op.collection]
        && op.write == indexes[op.collection][op.temporaryIndex]
    decreases |cs|
  {
    if cs != [] {
      MakesListed(cs[0], Ids(indexes[cs[0]].Keys), indexes[cs[0]], op);
      AllMakesListed(cs[1..], indexes, op);
    }
  }

  /** The operation that creates the index of a temporary id. */
  function Creation(batch: Batch, c: CollectionId, t: IndexId): Operation
    requires c in batch.newIndexes && t in batch.newIndexes[c]
  {
    MakeIndex(c, t, batch.newIndexes[c][t])
  }

  lemma SoleCreation(batch: Batch, c: CollectionId, t: IndexId)
    requires DistinctTemporaries(batch) && c in batch.newIndexes && t in batch.newIndexes[c]
    ensures Creation(batch, c, t) in IndexCreations(batch)
    ensures forall op | op in IndexCreations(batch) :: MakesOnly(op, t, Creation(batch, c, t))
  {
    AllMakesListed(Ids(batch.newIndexes.Keys), batch.newIndexes, Creation(batch, c, t));
    LaterPhases(batch);
    forall op | op in IndexCreations(batch) ensures MakesOnly(op, t, Creation(batch, c, t)) {
      if op.MakeIndex? {
        AllMakesListed(Ids(batch.newIndexes.Keys), batch.newIndexes, op);
      }
    }
  }

  /** The catalog key of a new index, told before the batch is put. */
  function NewIndexKey(e: Engine, batch: Batch, c: CollectionId, t: IndexId): Option<Bytes>
    requires c in batch.newIndexes && t in batch.newIndexes[c]
  {
    match Resolve(c, MadeCollections(e, batch))
    case None => None
    case Some(id) => Some(EncodeIndexCatalogKey(id, batch.newIndexes[c][t].name))
  }

  /** After an accepted batch each temporary index id stands for the id in the row of its key. */
  lemma NewIndexResolves(e: Engine, batch: Batch, c: CollectionId, t: IndexId)
    requires EngineOk(e) && Run(Begin(e), Operations(batch), batch.ts).error.None?
    requires DistinctTemporaries(batch) && c in batch.newIndexes && t in batch.newIndexes[c]
    ensures NewIndexKey(e, batch, c, t).Some?
    ensures IndexRow(Run(Begin(e), Operations(batch), batch.ts), t, NewIndexKey(e, batch, c, t).value)
  {
    BeginOk(e);
    PhaseRuns(Begin(e), batch);
    CreationsMade(e, batch);
    RunKeeps(Begin(e), Creations(batch), batch.ts);
    SoleCreation(batch, c, t);
    LaterPhases(batch);
    var p := Run(Begin(e), Creations(batch), batch.ts);
    MakesRow(p, IndexCreations(batch), batch.ts, c, t, batch.newIndexes[c][t]);
    WritesKeepRow(Run(p, IndexCreations(batch), batch.ts), Writes(batch), batch.ts, t,
                  NewIndexKey(e, batch, c, t).value);
  }

  lemma {:induction false} WritesKeepRow(p: Progress, ops: seq<Operation>, ts: U64, t: IndexId, key: Bytes)
    requires IndexRow(p, t, key) && forall op | op in ops :: !op.MakeIndex?
    ensures IndexRow(Run(p, ops, ts), t, key)
    decreases |ops|
  {
    if ops != [] {
      assert ops[0] in ops && forall op | op in ops[1..] :: op in ops;
      StepTables(p, ops[0], ts);
      StepKeepsMade(p, ops[0], ts);
      WritesKeepRow(Step(p, ops[0], ts), ops[1..], ts, t, key);
    }
  }

  /** Only created ids are resolved. */
  lemma ResolvedIsCreated(e: Engine, batch: Batch, t: IndexId) returns (c: CollectionId)
    requires Run(Begin(e), Operations(batch), batch.ts).error.None?
      && t in Run(Begin(e), Operations(batch), batch.ts).newIndexes
    ensures c in batch.newIndexes && t in batch.newIndexes[c]
  {
    MadeByOperation(Begin(e), Operations(batch), batch.ts, t);
    Phases(batch);
    LaterPhases(batch);
    var op :| op in Operations(batch) && op.MakeIndex? && op.temporaryIndex == t;
    AllMakesListed(Ids(batch.newIndexes.Keys), batch.newIndexes, op);
    c := op.collection;
  }

  // ------------------------------------------------------------------- meanings

  /** Whether an index id of the batch can stand for the index of a catalog key, told before the batch is put. */
  ghost predicate MayMean(e: Engine, batch: Batch, x: IndexId, key: Bytes) {
    if x < 0 then exists c | c in batch.newIndexes ::
      x in batch.newIndexes[c] && NewIndexKey(e, batch, c, x) == Some(key)
    else if key in e.committed.indexesCatalog then IndexIdAt(e.committed.indexesCatalog, key) == x
    else e.memory.indexId < x
  }

  lemma OtherRow(p: Progress, x: IndexId, k: Bytes, t: IndexId, key: Bytes, bound: U64)
    requires IndexRow(p, x, k) && IndexRow(p, t, key) && k != key && IndexCatalogOk(p.writer.db.indexesCatalog, bound)
    ensures p.newIndexes[x] != p.newIndexes[t]
  {
  }

  lemma SoundIndexCatalog(e: Engine, batch: Batch) returns (bound: U64)
    requires EngineOk(e) && Run(Begin(e), Operations(batch), batch.ts).error.None?
    ensures IndexCatalogOk(Run(Begin(e), Operations(batch), batch.ts).writer.db.indexesCatalog, bound)
  {
    BeginOk(e);
    RunKeeps(Begin(e), Operations(batch), batch.ts);
    bound := IndexBound(Run(Begin(e), Operations(batch), batch.ts).writer);
  }

  lemma OtherTemporary(e: Engine, batch: Batch, x: IndexId, t: IndexId, key: Bytes)
    requires EngineOk(e) && Run(Begin(e), Operations(batch), batch.ts).error.None? && DistinctTemporaries(batch)
    requires x < 0 && !MayMean(e, batch, x, key) && IndexRow(Run(Begin(e), Operations(batch), batch.ts), t, key)
    ensures var made := Run(Begin(e), Operations(batch), batch.ts).newIndexes; Resolve(x, made) != Some(made[t])
  {
    var p := Run(Begin(e), Operations(batch), batch.ts);
    if x in p.newIndexes {
      var c := ResolvedIsCreated(e, batch, x);
      NewIndexResolves(e, batch, c, x);
      var bound := SoundIndexCatalog(e, batch);
      OtherRow(p, x, NewIndexKey(e, batch, c, x).value, t, key, bound);
    }
  }

  lemma OtherStored(e: Engine, batch: Batch, x: IndexId, t: IndexId, key: Bytes)
    requires EngineOk(e) && Run(Begin(e), Operations(batch), batch.ts).error.None?
    requires x >= 0 && !MayMean(e, batch, x, key) && IndexRow(Run(Begin(e), Operations(batch), batch.ts), t, key)
    ensures var made := Run(Begin(e), Operations(batch), batch.ts).newIndexes; Resolve(x, made) != Some(made[t])
  {
    BeginOk(e);
    RunRowsSince(e.committed.indexesCatalog, e.memory.indexId, Begin(e), Operations(batch), batch.ts);
  }

  lemma OtherMeaning(e: Engine, batch: Batch, x: IndexId, t: IndexId, key: Bytes)
    requires EngineOk(e) && Run(Begin(e), Operations(batch), batch.ts).error.None? && DistinctTemporaries(batch)
    requires !MayMean(e, batch, x, key) && IndexRow(Run(Begin(e), Operations(batch), batch.ts), t, key)
    ensures var made := Run(Begin(e), Operations(batch), batch.ts).newIndexes; Resolve(x, made) != Some(made[t])
  {
    if x < 0 {
      OtherTemporary(e, batch, x, t, key);
    } else {
      OtherStored(e, batch, x, t, key);
    }
  }

  // --------------------------------------------------------------- main results

  ghost predicate Later(c: CollectionId, t: IndexId, c': CollectionId, x: IndexId) {
    c < c' || (c == c' && t < x)
  }

  /** No later write to the position can stand for the index of that key. */
  ghost predicate LastToPost(e: Engine, batch: Batch, owner: CollectionId, t: IndexId, key: Bytes, at: IndexPosition) {
    forall c, x | Later(owner, t, c, x) && IndexWriteOf(batch.collections, c, x, at).Some? :: !MayMean(e, batch, x, key)
  }

  /** The write under `t` of the owner, and no later one, stands for index `i`. */
  ghost predicate LastMeaning(collections: Collections, made: Made, owner: CollectionId, t: IndexId, i: IndexId,
                              at: IndexPosition) {
    && Resolve(t, made) == Some(i) && IndexWriteOf(collections, owner, t, at).Some?
    && forall c, x | Later(owner, t, c, x) && IndexWriteOf(collections, c, x, at).Some? :: Resolve(x, made) != Some(i)
  }

  lemma {:induction false} NoEntryMeans(collections: Collections, c: CollectionId, ids: seq<IndexId>, made: Made,
                                        i: IndexId, at: IndexPosition)
    requires forall x | x in ids && IndexWriteOf(collections, c, x, at).Some? :: Resolve(x, made) != Some(i)
    ensures RecordedEntry(Recorded(collections, c).indexEntries, ids, made, i, at) == None
    decreases |ids|
  {
    if ids != [] {
      assert ids[0] in ids && forall x | x in ids[1..] :: x in ids;
      NoEntryMeans(collections, c, ids[1..], made, i, at);
    }
  }

  lemma {:induction false} LastEntryDecides(collections: Collections, owner: CollectionId, ids: seq<IndexId>,
          made: Made, t: IndexId,
                                            i: IndexId, at: IndexPosition)
    requires Sorted(SignedLess, ids) && t in ids && LastMeaning(collections, made, owner, t, i, at)
    ensures RecordedEntry(Recorded(collections, owner).indexEntries, ids, made, i, at)
       == IndexWriteOf(collections, owner, t, at)
    decreases |ids|
  {
    if t == ids[0] {
      assert forall x | x in ids[1..] :: Later(owner, t, owner, x);
      NoEntryMeans(collections, owner, ids[1..], made, i, at);
    } else {
      LastEntryDecides(collections, owner, ids[1..], made, t, i, at);
    }
  }

  lemma {:induction false} NoCollectionMeans(collections: Collections, cs: seq<CollectionId>, made: Made, i: IndexId,
          at: IndexPosition)
    requires forall c, x | c in cs && IndexWriteOf(collections, c, x, at).Some? :: Resolve(x, made) != Some(i)
    ensures RecordedPosition(collections, cs, made, i, at) == None
    decreases |cs|
  {
    if cs != [] {
      assert cs[0] in cs && forall c | c in cs[1..] :: c in cs;
      NoEntryMeans(collections, cs[0], Ids(Recorded(collections, cs[0]).indexEntries.Keys), made, i, at);
      NoCollectionMeans(collections, cs[1..], made, i, at);
    }
  }

  lemma {:induction false} LastPositionDecides(collections: Collections, cs: seq<CollectionId>, made: Made,
          owner: CollectionId, t: IndexId,
                                               i: IndexId, at: IndexPosition)
    requires Sorted(SignedLess, cs) && owner in cs && LastMeaning(collections, made, owner, t, i, at)
    ensures RecordedPosition(collections, cs, made, i, at) == IndexWriteOf(collections, owner, t, at)
    decreases |cs|
  {
    if owner == cs[0] {
      LastEntryDecides(collections, owner, Ids(Recorded(collections, owner).indexEntries.Keys), made, t, i, at);
      assert forall c, x | c in cs[1..] :: Later(owner, t, c, x);
      NoCollectionMeans(collections, cs[1..], made, i, at);
    } else {
      LastPositionDecides(collections, cs[1..], made, owner, t, i, at);
    }
  }

  lemma LastIfOthersMeanOther(e: Engine, batch: Batch, made: Made, i: IndexId, owner: CollectionId, t: IndexId,
                              key: Bytes, at: IndexPosition)
    requires Resolve(t, made) == Some(i) && IndexWriteOf(batch.collections, owner, t, at).Some?
    requires forall x :: MayMean(e, batch, x, key) || Resolve(x, made) != Some(i)
    requires LastToPost(e, batch, owner, t, key, at)
    ensures LastMeaning(batch.collections, made, owner, t, i, at)
  {
  }

  lemma LastMeans(e: Engine, batch: Batch, owner: CollectionId, t: IndexId, key: Bytes, at: IndexPosition)
    requires EngineOk(e) && Run(Begin(e), Operations(batch), batch.ts).error.None? && DistinctTemporaries(batch)
    requires t < 0 && IndexRow(Run(Begin(e), Operations(batch), batch.ts), t, key)
    requires IndexWriteOf(batch.collections, owner, t, at).Some? && LastToPost(e, batch, owner, t, key, at)
    ensures var made := Run(Begin(e), Operations(batch), batch.ts).newIndexes; LastMeaning(batch.collections, made,
      owner, t, made[t], at)
  {
    var made := Run(Begin(e), Operations(batch), batch.ts).newIndexes;
    forall x ensures MayMean(e, batch, x, key) || Resolve(x, made) != Some(made[t]) {
      if !MayMean(e, batch, x, key) {
        OtherMeaning(e, batch, x, t, key);
      }
    }
    LastIfOthersMeanOther(e, batch, made, made[t], owner, t, key, at);
  }

  /**
   An entry written under a temporary index id is, after the commit,
     stored or deleted under the id in the catalog row of
   the index.
   */
  lemma NewIndexEntry(e: Engine, batch: Batch, commits: bool, c: CollectionId, t: IndexId, key: Bytes,
                      owner: CollectionId, at: IndexPosition)
    requires EngineOk(e) && Put(e, batch, commits).1.Success? && DistinctTemporaries(batch)
    requires t < 0 && c in batch.newIndexes && t in batch.newIndexes[c] && NewIndexKey(e, batch, c, t) == Some(key)
    requires IndexWriteOf(batch.collections, owner, t, at).Some? && LastToPost(e, batch, owner, t, key, at)
    ensures key in Put(e, batch, commits).0.committed.indexesCatalog && TablesDecode(Put(e, batch, commits).0.committed)
    ensures var after := Put(e, batch, commits).0.committed;
      Posting(IndexIdAt(after.indexesCatalog, key), at) in StoredPostings(after)
      <==> IndexWriteOf(batch.collections, owner, t, at) == Some(IndexPut)
  {
    AcceptedPut(e, batch, commits);
    NewIndexResolves(e, batch, c, t);
    LastMeans(e, batch, owner, t, key, at);
    var made := Run(Begin(e), Operations(batch), batch.ts).newIndexes;
    BatchEntry(Begin(e), batch, made[t], at);
    LastPositionDecides(batch.collections, Ids(batch.collections.Keys), made, owner, t, made[t], at);
    PutPostings(e, batch, commits, made[t], at);
  }
}
