/**
 Which ids a batch can leave rows under: the counters that a commit stores, told before the call, and the rows they
 cover.
 */
module AllocatedIds {
  import opened ByteStrings
  import opened Types
  import opened BigEndian
  import opened Lmdb
  import opened HeedEncoding
  import opened IndexTrie
  import opened Documents
  import opened WriteSets
  import opened Databases
  import opened Catalogs
  import opened Batches
  import opened BatchInvariants
  import opened BatchEffects
  import opened BatchWrites
  import opened Engines
  import opened History
  import opened CommitRefinement

  // --------------------------------------------------------- collection counter

  function NamesOf(ids: seq<CollectionId>, names: map<CollectionId, Name>): set<Name>
    requires forall t | t in ids :: t in names
  {
    set t | t in ids :: names[t]
  }

  /** What each temporary id comes to stand for: the id its name has, or the next one. */
  function MadeIds(ids: seq<CollectionId>, names: map<CollectionId, Name>, table: Database,
                   counter: U64): map<CollectionId, CollectionId>
    requires forall t | t in ids :: t in names
    decreases |ids|
  {
    if ids == [] then map[]
    else
      var name := names[ids[0]];
      match CollectionIdByName(table, name)
      case Success(Some(id)) => map[ids[0] := id] + MadeIds(ids[1..], names, table, counter)
      case _ =>
        if counter >= TWO_63 - 1 then map[]
        else map[ids[0] := counter + 1] + MadeIds(ids[1..], names, table[name := I64Be(counter + 1)], counter + 1)
  }

  /** The counters of the memory, and what of them a commit would store. */
  ghost predicate CollectionsCounted(m: Memory, m': Memory, count: nat) {
    && m'.collectionId == m.collectionId + count
    && m'.collectionIdChanged == (m.collectionIdChanged || count > 0)
    && m'.indexId == m.indexId && m'.indexIdChanged == m.indexIdChanged
  }

  lemma OneMoreName(all: set<Name>, first: Name, rest: set<Name>, table: set<Bytes>, table': set<Bytes>)
    requires all == {first} + rest && table' == table + {first} && first !in table
    ensures |all - table| == 1 + |rest - table'|
  {
    assert all - table == {first} + (rest - table');
  }

  lemma KeysAfter(table: Database, name: Bytes, value: Bytes)
    ensures table[name := value].Keys == table.Keys + {name}
  {
  }

  /** What one creation does to the counters, the names and the resolved ids. */
  ghost predicate CreationCounted(p: Progress, p': Progress, ids: seq<CollectionId>, names: map<CollectionId, Name>)
    requires ids != [] && forall t | t in ids :: t in names
  {
    var table, table' := p.writer.db.collectionIdsByName, p'.writer.db.collectionIdsByName;
    var count: nat := if names[ids[0]] in table then 0 else 1;
    && CollectionsCounted(p.writer.memory, p'.writer.memory, count)
    && |NamesOf(ids, names) - table.Keys| == count + |NamesOf(ids[1..], names) - table'.Keys|
    && p'.newCollections + MadeIds(ids[1..], names, table', p'.writer.memory.collectionId)
       == p.newCollections + MadeIds(ids, names, table, p.writer.memory.collectionId)
  }

  lemma NamesSplit(ids: seq<CollectionId>, names: map<CollectionId, Name>)
    requires ids != [] && forall t | t in ids :: t in names
    ensures NamesOf(ids, names) == {names[ids[0]]} + NamesOf(ids[1..], names)
  {
    assert ids == [ids[0]] + ids[1..];
  }

  lemma UpdateThenAdd(m: map<I64, I64>, k: I64, v: I64, n: map<I64, I64>)
    ensures m[k := v] + n == m + (map[k := v] + n)
  {
  }

  lemma ExistingStep(p: Progress, t: CollectionId, name: Name, ts: U64) returns (id: CollectionId)
    requires ProgressOk(p) && p.error.None? && name in p.writer.db.collectionIdsByName
    ensures CollectionIdByName(p.writer.db.collectionIdsByName, name) == Success(Some(id))
    ensures StepMakeCollection(p, t, name, ts) == p.(newCollections := p.newCollections[t := id])
  {
    ExistingCollectionKeeps(p.writer, name, None, ts);
    id := CollectionIdByName(p.writer.db.collectionIdsByName, name).value.value;
  }

  lemma ExistingName(ids: seq<CollectionId>, names: map<CollectionId, Name>, table: Database)
    requires ids != [] && (forall t | t in ids :: t in names) && names[ids[0]] in table
    ensures NamesOf(ids, names) - table.Keys == NamesOf(ids[1..], names) - table.Keys
  {
    NamesSplit(ids, names);
  }

  lemma ExistingMade(made: map<CollectionId, CollectionId>, ids: seq<CollectionId>, names: map<CollectionId, Name>,
                     table: Database,
                     counter: U64, id: CollectionId)
    requires ids != [] && (forall t | t in ids :: t in names)
      && CollectionIdByName(table, names[ids[0]]) == Success(Some(id))
    ensures made[ids[0] := id] + MadeIds(ids[1..], names, table, counter) == made + MadeIds(ids, names, table, counter)
  {
    UpdateThenAdd(made, ids[0], id, MadeIds(ids[1..], names, table, counter));
  }

  lemma ExistingCounted(p: Progress, ids: seq<CollectionId>, names: map<CollectionId, Name>, ts: U64)
    requires ProgressOk(p) && p.error.None? && ids != [] && forall t | t in ids :: t in names
    requires names[ids[0]] in p.writer.db.collectionIdsByName
    ensures CreationCounted(p, StepMakeCollection(p, ids[0], names[ids[0]], ts), ids, names)
  {
    var id := ExistingStep(p, ids[0], names[ids[0]], ts);
    ExistingName(ids, names, p.writer.db.collectionIdsByName);
    ExistingMade(p.newCollections, ids, names, p.writer.db.collectionIdsByName, p.writer.memory.collectionId, id);
  }

  lemma NewStep(p: Progress, t: CollectionId, name: Name, ts: U64)
    requires p.error.None? && name !in p.writer.db.collectionIdsByName && StepMakeCollection(p, t, name, ts).error.None?
    ensures p.writer.memory.collectionId < TWO_63 - 1
    ensures var p', id := StepMakeCollection(p, t, name, ts), p.writer.memory.collectionId + 1;
      && p'.newCollections == p.newCollections[t := id]
      && p'.writer.db.collectionIdsByName == p.writer.db.collectionIdsByName[name := I64Be(id)]
      && CollectionsCounted(p.writer.memory, p'.writer.memory, 1)
  {
  }

  lemma NewCounted(p: Progress, ids: seq<CollectionId>, names: map<CollectionId, Name>, ts: U64)
    requires ProgressOk(p) && p.error.None? && ids != [] && forall t | t in ids :: t in names
    requires names[ids[0]] !in p.writer.db.collectionIdsByName
    requires StepMakeCollection(p, ids[0], names[ids[0]], ts).error.None?
    ensures CreationCounted(p, StepMakeCollection(p, ids[0], names[ids[0]], ts), ids, names)
  {
    NewStep(p, ids[0], names[ids[0]], ts);
    NewNameCounted(ids, names, p.writer.db.collectionIdsByName, p.writer.memory.collectionId + 1);
    NewNameMade(p.newCollections, ids, names, p.writer.db.collectionIdsByName, p.writer.memory.collectionId);
  }

  lemma NewNameCounted(ids: seq<CollectionId>, names: map<CollectionId, Name>, table: Database, id: CollectionId)
    requires ids != [] && (forall t | t in ids :: t in names) && names[ids[0]] !in table
    ensures |NamesOf(ids, names) - table.Keys|
       == 1 + |NamesOf(ids[1..], names) - table[names[ids[0]] := I64Be(id)].Keys|
  {
    var name := names[ids[0]];
    NamesSplit(ids, names);
    KeysAfter(table, name, I64Be(id));
    OneMoreName(NamesOf(ids, names), name, NamesOf(ids[1..], names), table.Keys, table[name := I64Be(id)].Keys);
  }

  lemma NewNameMade(made: map<CollectionId, CollectionId>, ids: seq<CollectionId>, names: map<CollectionId, Name>,
                    table: Database, counter: U64)
    requires ids != [] && (forall t | t in ids :: t in names) && names[ids[0]] !in table && counter < TWO_63 - 1
    ensures made[ids[0] := counter + 1]
      + MadeIds(ids[1..], names, table[names[ids[0]] := I64Be(counter + 1)], counter + 1)
         == made + MadeIds(ids, names, table, counter)
  {
    UpdateThenAdd(made, ids[0], counter + 1,
                  MadeIds(ids[1..], names, table[names[ids[0]] := I64Be(counter + 1)], counter + 1));
  }

  lemma FirstCreation(p: Progress, ids: seq<CollectionId>, names: map<CollectionId, Name>, ts: U64)
      returns (p': Progress)
    requires ProgressOk(p) && ids != [] && forall t | t in ids :: t in names
    requires Run(p, MakeCollections(ids, names), ts).error.None?
    ensures Run(p, MakeCollections(ids, names), ts) == Run(p', MakeCollections(ids[1..], names), ts)
    ensures ProgressOk(p') && CreationCounted(p, p', ids, names)
    ensures p'.writer.db.indexesCatalog == p.writer.db.indexesCatalog
  {
    var ops := MakeCollections(ids, names);
    NoEarlierError(p, ops, ts);
    StepKeeps(p, ops[0], ts);
    StepTables(p, ops[0], ts);
    p' := Step(p, ops[0], ts);
    assert ops[1..] == MakeCollections(ids[1..], names);
    if names[ids[0]] in p.writer.db.collectionIdsByName {
      ExistingCounted(p, ids, names, ts);
    } else {
      NewCounted(p, ids, names, ts);
    }
  }

  /** What all listed creations do. */
  ghost predicate AllCounted(p: Progress, p': Progress, ids: seq<CollectionId>, names: map<CollectionId, Name>)
    requires forall t | t in ids :: t in names
  {
    && CollectionsCounted(p.writer.memory, p'.writer.memory,
                          |NamesOf(ids, names) - p.writer.db.collectionIdsByName.Keys|)
    && p'.newCollections
       == p.newCollections + MadeIds(ids, names, p.writer.db.collectionIdsByName, p.writer.memory.collectionId)
    && p'.writer.db.indexesCatalog == p.writer.db.indexesCatalog
  }

  lemma {:induction false} CreationsCounted(p: Progress, ids: seq<CollectionId>, names: map<CollectionId, Name>,
          ts: U64)
    requires ProgressOk(p) && (forall t | t in ids :: t in names)
    requires Run(p, MakeCollections(ids, names), ts).error.None?
    ensures AllCounted(p, Run(p, MakeCollections(ids, names), ts), ids, names)
    decreases |ids|
  {
    if ids == [] {
      AddNothing(p.newCollections);
    } else {
      var p' := FirstCreation(p, ids, names, ts);
      CreationsCounted(p', ids[1..], names, ts);
    }
  }

  lemma AddNothing(m: map<I64, I64>)
    ensures m + map[] == m && map[] + m == m
  {
  }

  // -------------------------------------------------------------- index counter

  ghost predicate IndexesCounted(m: Memory, m': Memory, count: nat) {
    && m'.indexId == m.indexId + count
    && m'.indexIdChanged == (m.indexIdChanged || count > 0)
    && m'.collectionId == m.collectionId && m'.collectionIdChanged == m.collectionIdChanged
  }

  function KeysOf(c: CollectionId, ids: seq<IndexId>, indexes: map<IndexId, IndexCatalogWrite>): set<Bytes>
    requires forall t | t in ids :: t in indexes
  {
    set t | t in ids :: EncodeIndexCatalogKey(c, indexes[t].name)
  }

  /** The catalog keys of the listed collections' new indexes. */
  function AllKeys(cs: seq<CollectionId>, indexes: map<CollectionId, map<IndexId, IndexCatalogWrite>>,
                   made: Made): set<Bytes>
    requires forall c | c in cs :: c in indexes
  {
    if cs == [] then {}
    else
      var c := Resolve(cs[0], made);
      (if c.Some? then KeysOf(c.value, Ids(indexes[cs[0]].Keys), indexes[cs[0]]) else {})
        + AllKeys(cs[1..], indexes, made)
  }

  lemma CountUnion(a: set<Bytes>, b: set<Bytes>, table: set<Bytes>)
    ensures |(a + b) - table| == |a - table| + |b - (table + a)|
  {
    assert (a + b) - table == (a - table) + (b - (table + a));
  }

  /** What creating indexes with the given keys does. */
  ghost predicate KeysMade(p: Progress, p': Progress, keys: set<Bytes>) {
    && IndexesCounted(p.writer.memory, p'.writer.memory, |keys - p.writer.db.indexesCatalog.Keys|)
    && p'.writer.db.indexesCatalog.Keys == p.writer.db.indexesCatalog.Keys + keys
    && p'.newCollections == p.newCollections
  }

  lemma KeysMadeAppend(p: Progress, p': Progress, p'': Progress, a: set<Bytes>, b: set<Bytes>)
    requires KeysMade(p, p', a) && KeysMade(p', p'', b)
    ensures KeysMade(p, p'', a + b)
  {
    CountUnion(a, b, p.writer.db.indexesCatalog.Keys);
  }

  lemma IndexMade(p: Progress, c: CollectionId, t: IndexId, write: IndexCatalogWrite)
    requires p.error.None? && StepMakeIndex(p, c, t, write).error.None?
    ensures Resolve(c, p.newCollections).Some?
    ensures KeysMade(p, StepMakeIndex(p, c, t, write),
                     {EncodeIndexCatalogKey(Resolve(c, p.newCollections).value, write.name)})
  {
    var key := EncodeIndexCatalogKey(Resolve(c, p.newCollections).value, write.name);
    var table := p.writer.db.indexesCatalog;
    if key in table {
      assert {key} - table.Keys == {} && table.Keys + {key} == table.Keys;
    } else {
      assert {key} - table.Keys == {key};
    }
  }

  lemma KeysSplit(c: CollectionId, ids: seq<IndexId>, indexes: map<IndexId, IndexCatalogWrite>)
    requires ids != [] && forall t | t in ids :: t in indexes
    ensures KeysOf(c, ids, indexes) == {EncodeIndexCatalogKey(c, indexes[ids[0]].name)} + KeysOf(c, ids[1..], indexes)
  {
    assert ids == [ids[0]] + ids[1..];
  }

  lemma {:induction false} IndexesMade(p: Progress, c: CollectionId, ids: seq<IndexId>,
                                       indexes: map<IndexId, IndexCatalogWrite>, ts: U64)
    requires (forall t | t in ids :: t in indexes) && Resolve(c, p.newCollections).Some?
    requires Run(p, MakeIndexes(c, ids, indexes), ts).error.None?
    ensures KeysMade(p, Run(p, MakeIndexes(c, ids, indexes), ts),
                     KeysOf(Resolve(c, p.newCollections).value, ids, indexes))
    decreases |ids|
  {
    var collection := Resolve(c, p.newCollections).value;
    if ids == [] {
      assert KeysOf(collection, ids, indexes) == {};
    } else {
      var ops := MakeIndexes(c, ids, indexes);
      NoEarlierError(p, ops, ts);
      IndexMade(p, c, ids[0], indexes[ids[0]]);
      var p' := Step(p, ops[0], ts);
      assert ops[1..] == MakeIndexes(c, ids[1..], indexes);
      IndexesMade(p', c, ids[1..], indexes, ts);
      KeysSplit(collection, ids, indexes);
      KeysMadeAppend(p, p', Run(p, ops, ts), {EncodeIndexCatalogKey(collection, indexes[ids[0]].name)},
                     KeysOf(collection, ids[1..], indexes));
    }
  }

  lemma {:induction false} AllIndexesMade(p: Progress, cs: seq<CollectionId>,
                                          indexes: map<CollectionId, map<IndexId, IndexCatalogWrite>>, ts: U64)
    requires forall c | c in cs :: c in indexes
    requires Run(p, MakeAllIndexes(cs, indexes), ts).error.None?
    ensures KeysMade(p, Run(p, MakeAllIndexes(cs, indexes), ts), AllKeys(cs, indexes, p.newCollections))
    decreases |cs|
  {
    if cs != [] {
      var own, rest := MakeIndexes(cs[0], Ids(indexes[cs[0]].Keys), indexes[cs[0]]), MakeAllIndexes(cs[1..], indexes);
      NoEarlierError(p, MakeAllIndexes(cs, indexes), ts);
      RunAppend(p, [UseCollection(cs[0])] + own, rest, ts);
      RunFirst(p, UseCollection(cs[0]), own, ts);
      var p' := Run(p, own, ts);
      if p'.error.Some? {
        RunStopped(p', rest, ts);
      }
      IndexesMade(p, cs[0], Ids(indexes[cs[0]].Keys), indexes[cs[0]], ts);
      AllIndexesMade(p', cs[1..], indexes, ts);
      KeysMadeAppend(p, p', Run(p', rest, ts),
        KeysOf(Resolve(cs[0], p.newCollections).value, Ids(indexes[cs[0]].Keys), indexes[cs[0]]),
 AllKeys(cs[1..], indexes, p.newCollections));
    }
  }

  // ------------------------------------------------------- the counters of a batch

  /** The collection counter that a commit of the batch stores. */
  function CollectionCounter(e: Engine, batch: Batch): nat {
    if e.memory.collectionIdChanged || NamesCount(e, batch) > 0 then e.memory.collectionId + NamesCount(e, batch)
    else StoredAt(e.committed.metadata, COLLECTION_ID_KEY)
  }

  /** The index counter that a commit of the batch stores. */
  function IndexCounter(e: Engine, batch: Batch): nat {
    if e.memory.indexIdChanged || KeysCount(e, batch) > 0 then e.memory.indexId + KeysCount(e, batch)
    else StoredAt(e.committed.metadata, INDEX_ID_KEY)
  }

  lemma {:induction false} WritesKeepCounters(p: Progress, ops: seq<Operation>, ts: U64)
    requires forall op | op in ops :: !op.MakeCollection? && !op.MakeIndex?
    ensures var m, m' := p.writer.memory, Run(p, ops, ts).writer.memory;
      && m'.collectionId == m.collectionId && m'.collectionIdChanged == m.collectionIdChanged
      && m'.indexId == m.indexId && m'.indexIdChanged == m.indexIdChanged
    decreases |ops|
  {
    if ops != [] {
      assert ops[0] in ops;
      WriteKeepsCounters(p, ops[0], ts);
      WritesKeepCounters(Step(p, ops[0], ts), ops[1..], ts);
    }
  }

  lemma WriteKeepsCounters(p: Progress, op: Operation, ts: U64)
    requires !op.MakeCollection? && !op.MakeIndex?
    ensures var m, m' := p.writer.memory, Step(p, op, ts).writer.memory;
      && m'.collectionId == m.collectionId && m'.collectionIdChanged == m.collectionIdChanged
      && m'.indexId == m.indexId && m'.indexIdChanged == m.indexIdChanged
  {
  }

  lemma PhaseRuns(p: Progress, batch: Batch)
    requires Run(p, Operations(batch), batch.ts).error.None?
    ensures Run(p, Creations(batch), batch.ts).error.None?
    ensures Run(Run(p, Creations(batch), batch.ts), IndexCreations(batch), batch.ts).error.None?
    ensures Run(p, Operations(batch), batch.ts)
         == Run(Run(Run(p, Creations(batch), batch.ts), IndexCreations(batch), batch.ts), Writes(batch), batch.ts)
  {
    Phases(batch);
    RunAppend(p, Creations(batch) + IndexCreations(batch), Writes(batch), batch.ts);
    RunAppend(p, Creations(batch), IndexCreations(batch), batch.ts);
    var p1 := Run(p, Creations(batch), batch.ts);
    var p2 := Run(p1, IndexCreations(batch), batch.ts);
    if p2.error.Some? {
      RunStopped(p2, Writes(batch), batch.ts);
    }
    if p1.error.Some? {
      RunStopped(p1, IndexCreations(batch), batch.ts);
    }
  }

  function NamesCount(e: Engine, batch: Batch): nat {
    |NamesOf(Ids(batch.newCollections.Keys), batch.newCollections) - e.committed.collectionIdsByName.Keys|
  }

  /** What the temporary collection ids come to stand for. */
  function MadeCollections(e: Engine, batch: Batch): map<CollectionId, CollectionId> {
    MadeIds(Ids(batch.newCollections.Keys), batch.newCollections, e.committed.collectionIdsByName,
            e.memory.collectionId)
  }

  function KeysCount(e: Engine, batch: Batch): nat {
    |AllKeys(Ids(batch.newIndexes.Keys), batch.newIndexes, MadeCollections(e, batch)) - e.committed.indexesCatalog.Keys|
  }

  lemma CreationsMade(e: Engine, batch: Batch)
    requires EngineOk(e) && Run(Begin(e), Creations(batch), batch.ts).error.None?
    ensures var p := Run(Begin(e), Creations(batch), batch.ts);
      && CollectionsCounted(e.memory, p.writer.memory, NamesCount(e, batch))
      && p.newCollections == MadeCollections(e, batch)
      && p.writer.db.indexesCatalog == e.committed.indexesCatalog
  {
    BeginOk(e);
    CreationsCounted(Begin(e), Ids(batch.newCollections.Keys), batch.newCollections, batch.ts);
    AddNothing(MadeCollections(e, batch));
  }

  lemma BatchMemory(e: Engine, batch: Batch)
    requires EngineOk(e) && Run(Begin(e), Operations(batch), batch.ts).error.None?
    ensures var p := Run(Begin(e), Operations(batch), batch.ts);
      && p.writer.memory.collectionId == e.memory.collectionId + NamesCount(e, batch)
      && p.writer.memory.collectionIdChanged == (e.memory.collectionIdChanged || NamesCount(e, batch) > 0)
      && p.writer.memory.indexId == e.memory.indexId + KeysCount(e, batch)
      && p.writer.memory.indexIdChanged == (e.memory.indexIdChanged || KeysCount(e, batch) > 0)
      && p.newCollections == MadeCollections(e, batch)
  {
    PhaseRuns(Begin(e), batch);
    Phases(batch);
    CreationsMade(e, batch);
    var p1 := Run(Begin(e), Creations(batch), batch.ts);
    AllIndexesMade(p1, Ids(batch.newIndexes.Keys), batch.newIndexes, batch.ts);
    var p2 := Run(p1, IndexCreations(batch), batch.ts);
    WritesKeepCounters(p2, Writes(batch), batch.ts);
    FixedCollections(p2, Writes(batch), batch.ts, 0, 0);
  }

  lemma MetadataKept(e: Engine, batch: Batch)
    requires EngineOk(e)
    ensures Run(Begin(e), Operations(batch), batch.ts).writer.db.metadata == e.committed.metadata
  {
    BeginOk(e);
    RunKeeps(Begin(e), Operations(batch), batch.ts);
  }

  lemma BatchCounters(e: Engine, batch: Batch)
    requires EngineOk(e) && Run(Begin(e), Operations(batch), batch.ts).error.None?
    ensures var w := Run(Begin(e), Operations(batch), batch.ts).writer;
      CollectionBound(w) == CollectionCounter(e, batch) && IndexBound(w) == IndexCounter(e, batch)
  {
    BatchMemory(e, batch);
    MetadataKept(e, batch);
  }

  // ----------------------------------------------------------- temporary ids

  /** What temporary ids stand for is covered by the counters. */
  ghost predicate TemporariesWithin(p: Progress) {
    && (forall t | t in p.newCollections :: p.newCollections[t] <= CollectionBound(p.writer))
    && (forall t | t in p.newIndexes :: p.newIndexes[t] <= IndexBound(p.writer))
  }

  ghost predicate BoundsGrow(p: Progress, p': Progress) {
    CollectionBound(p.writer) <= CollectionBound(p'.writer) && IndexBound(p.writer) <= IndexBound(p'.writer)
  }

  lemma MakeCollectionWithin(p: Progress, t: CollectionId, name: Name, ts: U64)
    requires ProgressOk(p) && p.error.None? && StepMakeCollection(p, t, name, ts).error.None? && TemporariesWithin(p)
    ensures TemporariesWithin(StepMakeCollection(p, t, name, ts)) && BoundsGrow(p, StepMakeCollection(p, t, name, ts))
  {
    if name in p.writer.db.collectionIdsByName {
      var id := ExistingStep(p, t, name, ts);
      assert NameRow(p.writer.db.collectionIdsByName, p.writer.db.collectionsCatalog, CollectionBound(p.writer), name);
    }
  }

  lemma MakeIndexWithin(p: Progress, c: CollectionId, t: IndexId, write: IndexCatalogWrite)
    requires ProgressOk(p) && p.error.None? && StepMakeIndex(p, c, t, write).error.None? && TemporariesWithin(p)
    ensures TemporariesWithin(StepMakeIndex(p, c, t, write)) && BoundsGrow(p, StepMakeIndex(p, c, t, write))
  {
    CreateIndexKeeps(p.writer, ResolveCollection(p, c).value, write.name, write.metadata);
  }

  lemma StepWithin(p: Progress, op: Operation, ts: U64)
    requires ProgressOk(p) && p.error.None? && Step(p, op, ts).error.None? && TemporariesWithin(p)
    ensures TemporariesWithin(Step(p, op, ts)) && BoundsGrow(p, Step(p, op, ts))
  {
    match op
    case MakeCollection(t, name) => MakeCollectionWithin(p, t, name, ts);
    case MakeIndex(c, t, write) => MakeIndexWithin(p, c, t, write);
    case _ =>
      WriteKeepsCounters(p, op, ts);
      StepKeepsMade(p, op, ts);
      StepKeeps(p, op, ts);
  }

  lemma {:induction false} RunWithin(p: Progress, ops: seq<Operation>, ts: U64)
    requires ProgressOk(p) && Run(p, ops, ts).error.None? && TemporariesWithin(p)
    ensures TemporariesWithin(Run(p, ops, ts))
    decreases |ops|
  {
    if ops != [] {
      NoEarlierError(p, ops, ts);
      StepWithin(p, ops[0], ts);
      StepKeeps(p, ops[0], ts);
      RunWithin(Step(p, ops[0], ts), ops[1..], ts);
    }
  }

  /** After any accepted batch, every temporary id stands for one that the stored counters cover. */
  lemma TemporariesCovered(e: Engine, batch: Batch)
    requires EngineOk(e) && Run(Begin(e), Operations(batch), batch.ts).error.None?
    ensures var p := Run(Begin(e), Operations(batch), batch.ts);
      && (forall t | t in p.newCollections :: p.newCollections[t] <= CollectionCounter(e, batch))
      && (forall t | t in p.newIndexes :: p.newIndexes[t] <= IndexCounter(e, batch))
  {
    BeginOk(e);
    RunWithin(Begin(e), Operations(batch), batch.ts);
    BatchCounters(e, batch);
  }

  /** The stored counters after an accepted batch are the ones told before the call. */
  lemma CountersStored(e: Engine, batch: Batch, commits: bool)
    requires EngineOk(e) && Put(e, batch, commits).1.Success?
    ensures var after := Put(e, batch, commits).0.committed.metadata;
      && StoredAt(after, COLLECTION_ID_KEY)
         == CollectionCounter(e, batch) >= StoredAt(e.committed.metadata, COLLECTION_ID_KEY)
      && StoredAt(after, INDEX_ID_KEY) == IndexCounter(e, batch) >= StoredAt(e.committed.metadata, INDEX_ID_KEY)
  {
    BeginOk(e);
    RunKeeps(Begin(e), Operations(batch), batch.ts);
    BatchCounters(e, batch);
    var w := Run(Begin(e), Operations(batch), batch.ts).writer;
    SetTsKeeps(w, batch.ts);
    SavedCounters(SetTs(w, batch.ts).value);
  }

  // ------------------------------------------------------------ rows under ids

  ghost predicate DocumentsWithin(db: Database, bound: nat) {
    forall c: CollectionId, d: DocumentId, v: U64 | HasVersion(db, c, d, v) :: c <= bound
  }

  ghost predicate EntriesWithin(postings: iset<Posting>, bound: nat) {
    forall p: Posting | p in postings :: p.index <= bound
  }

  /** Documents and index entries only under ids that the stored counters cover. */
  ghost predicate RowsWithin(db: Databases)
    requires TablesDecode(db)
  {
    && DocumentsWithin(db.documents, StoredAt(db.metadata, COLLECTION_ID_KEY))
    && EntriesWithin(StoredPostings(db), StoredAt(db.metadata, INDEX_ID_KEY))
  }

  /** The batch writes no document under a collection id beyond the bound. */
  ghost predicate CollectionsWithin(batch: Batch, bound: nat) {
    forall c | c in batch.collections && batch.collections[c].documents != map[] :: c <= bound
  }

  /** The batch inserts no entry under an index id beyond the bound, unless a later collection deletes it again. */
  ghost predicate IndexesWithin(batch: Batch, bound: nat) {
    forall i: IndexId, at | CommittedWrite(batch.collections, i, at) == Some(IndexPut) :: i <= bound
  }

  /** An id above all that temporary ids stand for is meant by itself only. */
  lemma OnlyItself(made: Made, bound: nat, x: I64, c: I64)
    requires (forall t | t in made :: made[t] <= bound) && bound < c
    ensures x == c <==> Resolve(x, made) == Some(c)
  {
  }

  lemma UncoveredDocument(e: Engine, batch: Batch, c: CollectionId, d: DocumentId)
    requires EngineOk(e) && Run(Begin(e), Operations(batch), batch.ts).error.None? && CollectionCounter(e, batch) < c
    ensures WriteOf(e, batch, c, d) == DocumentWriteOf(batch.collections, c, d)
  {
    TemporariesCovered(e, batch);
    BatchDocument(Begin(e), batch, c, d);
    var made := Run(Begin(e), Operations(batch), batch.ts).newCollections;
    forall x ensures x == c <==> Resolve(x, made) == Some(c) {
      OnlyItself(made, CollectionCounter(e, batch), x, c);
    }
    StoredDocuments(batch.collections, Ids(batch.collections.Keys), made, c, d);
  }

  lemma UncoveredEntry(e: Engine, batch: Batch, i: IndexId, at: IndexPosition)
    requires EngineOk(e) && Run(Begin(e), Operations(batch), batch.ts).error.None? && IndexCounter(e, batch) < i
    ensures LastIndexWrite(Begin(e), Operations(batch), batch.ts, i, at) == CommittedWrite(batch.collections, i, at)
  {
    TemporariesCovered(e, batch);
    BatchEntry(Begin(e), batch, i, at);
    var made := Run(Begin(e), Operations(batch), batch.ts).newIndexes;
    forall x ensures x == i <==> Resolve(x, made) == Some(i) {
      OnlyItself(made, IndexCounter(e, batch), x, i);
    }
    StoredPositions(batch.collections, Ids(batch.collections.Keys), made, i, at);
  }

  /** A row appears under an uncovered collection id exactly for a recorded document. */
  lemma UncoveredRow(e: Engine, batch: Batch, commits: bool, c: CollectionId, d: DocumentId, v: U64)
    requires EngineOk(e) && Put(e, batch, commits).1.Success? && CollectionCounter(e, batch) < c
    requires !HasVersion(e.committed.documents, c, d, v)
    ensures HasVersion(Put(e, batch, commits).0.committed.documents, c, d, v)
       <==> v == batch.ts && DocumentWriteOf(batch.collections, c, d).Some?
  {
    AcceptedPut(e, batch, commits);
    PutRows(e, batch, commits, c, d, v);
    UncoveredDocument(e, batch, c, d);
  }

  /** The rows under uncovered collection ids are the recorded documents. */
  ghost predicate UncoveredRows(after: Database, batch: Batch, bound: nat) {
    forall c: CollectionId, d: DocumentId, v: U64 | bound < c ::
      HasVersion(after, c, d, v) <==> v == batch.ts && DocumentWriteOf(batch.collections, c, d).Some?
  }

  lemma UncoveredRowsWithin(after: Database, batch: Batch, bound: nat)
    requires UncoveredRows(after, batch, bound)
    ensures DocumentsWithin(after, bound) <==> CollectionsWithin(batch, bound)
  {
    if c :| c in batch.collections && batch.collections[c].documents != map[] && bound < c {
      var d :| d in batch.collections[c].documents;
      assert HasVersion(after, c, d, batch.ts);
    }
  }

  lemma DocumentsStayWithin(e: Engine, batch: Batch, commits: bool)
    requires EngineOk(e) && Put(e, batch, commits).1.Success?
      && DocumentsWithin(e.committed.documents, CollectionCounter(e, batch))
    ensures DocumentsWithin(Put(e, batch, commits).0.committed.documents, CollectionCounter(e, batch))
       <==> CollectionsWithin(batch, CollectionCounter(e, batch))
  {
    var bound, after := CollectionCounter(e, batch), Put(e, batch, commits).0.committed.documents;
    assert UncoveredRows(after, batch, bound) by {
      forall c: CollectionId, d: DocumentId, v: U64 | bound < c
        ensures HasVersion(after, c, d, v) <==> v == batch.ts && DocumentWriteOf(batch.collections, c, d).Some?
      {
        UncoveredRow(e, batch, commits, c, d, v);
      }
    }
    UncoveredRowsWithin(after, batch, bound);
  }

  /** The postings under uncovered index ids are the committed insertions. */
  ghost predicate UncoveredPostings(after: iset<Posting>, batch: Batch, bound: nat) {
    forall i: IndexId, at | bound < i :: Posting(i, at) in after
      <==> CommittedWrite(batch.collections, i, at) == Some(IndexPut)
  }

  lemma UncoveredPostingsWithin(after: iset<Posting>, batch: Batch, bound: nat)
    requires UncoveredPostings(after, batch, bound)
    ensures EntriesWithin(after, bound) <==> IndexesWithin(batch, bound)
  {
    assert forall p: Posting | p in after :: p == Posting(p.index, p.position);
  }

  lemma UncoveredPosting(e: Engine, batch: Batch, commits: bool, i: IndexId, at: IndexPosition)
    requires EngineOk(e) && Put(e, batch, commits).1.Success? && TablesDecode(e.committed)
    requires EntriesWithin(StoredPostings(e.committed), IndexCounter(e, batch)) && IndexCounter(e, batch) < i
    ensures TablesDecode(Put(e, batch, commits).0.committed)
    ensures Posting(i, at) in StoredPostings(Put(e, batch, commits).0.committed)
       <==> CommittedWrite(batch.collections, i, at) == Some(IndexPut)
  {
    AcceptedPut(e, batch, commits);
    PutPostings(e, batch, commits, i, at);
    UncoveredEntry(e, batch, i, at);
  }

  lemma EntriesStayWithin(e: Engine, batch: Batch, commits: bool)
    requires EngineOk(e) && Put(e, batch, commits).1.Success? && TablesDecode(e.committed)
    requires EntriesWithin(StoredPostings(e.committed), IndexCounter(e, batch))
    ensures TablesDecode(Put(e, batch, commits).0.committed)
    ensures EntriesWithin(StoredPostings(Put(e, batch, commits).0.committed), IndexCounter(e, batch))
       <==> IndexesWithin(batch, IndexCounter(e, batch))
  {
    PutKeeps(e, batch, commits);
    SoundTablesDecode(Put(e, batch, commits).0);
    var bound, after := IndexCounter(e, batch), StoredPostings(Put(e, batch, commits).0.committed);
    assert UncoveredPostings(after, batch, bound) by {
      forall i: IndexId, at | bound < i
        ensures Posting(i, at) in after <==> CommittedWrite(batch.collections, i, at) == Some(IndexPut)
      {
        UncoveredPosting(e, batch, commits, i, at);
      }
    }
    UncoveredPostingsWithin(after, batch, bound);
  }

  /**
   Documents and entries stay under ids that the stored counters cover exactly when the batch writes under none beyond
   them; the counters are told from the engine and the batch before the call.
   */
  lemma RowsStayWithin(e: Engine, batch: Batch, commits: bool)
    requires EngineOk(e) && Put(e, batch, commits).1.Success? && TablesDecode(e.committed) && RowsWithin(e.committed)
    ensures TablesDecode(Put(e, batch, commits).0.committed)
    ensures RowsWithin(Put(e, batch, commits).0.committed)
       <==> CollectionsWithin(batch, CollectionCounter(e, batch)) && IndexesWithin(batch, IndexCounter(e, batch))
  {
    CountersStored(e, batch, commits);
    DocumentsStayWithin(e, batch, commits);
    EntriesStayWithin(e, batch, commits);
  }
}
