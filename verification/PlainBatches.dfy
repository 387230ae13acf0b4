/** Batches that cannot be refused: they create nothing, write to stored ids, and index short values. */
module PlainBatches {
  import opened ByteStrings
  import opened Types
  import opened HeedEncoding
  import opened WriteSets
  import opened Batches
  import opened BatchInvariants
  import opened BatchWrites
  import opened Engines

  ghost predicate Plain(batch: Batch) {
    && batch.newCollections == map[] && batch.newIndexes == map[] && StoredIdsOnly(batch.collections)
    && forall c | c in batch.collections ::
       batch.collections[c].metadata.None? && ShortValues(batch.collections[c].indexEntries)
  }

  ghost predicate ShortValues(indexes: map<IndexId, map<IndexPosition, IndexWrite>>) {
    forall i, at | i in indexes && at in indexes[i] :: |at.value| <= SEGMENT_SIZE
  }

  ghost predicate PlainOperation(op: Operation) {
    match op
    case UseCollection(c) => c >= 0
    case WriteDocument(c, _, _) => c >= 0
    case UseIndex(i) => i >= 0
    case WriteIndex(i, at, _) => i >= 0 && |at.value| <= SEGMENT_SIZE
    case _ => false
  }

  lemma PlainOperations(batch: Batch)
    requires Plain(batch)
    ensures Operations(batch) == Writes(batch)
    ensures forall op | op in Writes(batch) :: PlainOperation(op)
  {
    Phases(batch);
    assert Creations(batch) == [] && IndexCreations(batch) == [];
    forall op | op in Writes(batch) ensures PlainOperation(op) {
      var c :| c in batch.collections && WriteOperation(c, batch.collections[c], op);
    }
  }

  /** A value of one segment needs no new chain. */
  lemma ShortPut(w: Writer, i: IndexId, value: Bytes, d: DocumentId)
    requires |value| <= SEGMENT_SIZE
    ensures PutIndexEntry(w, i, value, d).1 == None && PutIndexEntry(w, i, value, d).0.memory == w.memory
  {
    assert SplitIndexKey(value) == [value];
    assert [value][..0] == [];
  }

  lemma PlainStep(p: Progress, op: Operation, ts: U64)
    requires ProgressOk(p) && p.error.None? && PlainOperation(op)
    ensures ProgressOk(Step(p, op, ts)) && Step(p, op, ts).error.None?
    ensures Step(p, op, ts).writer.memory == p.writer.memory
  {
    StepKeeps(p, op, ts);
    if op.WriteIndex? {
      if op.indexWrite.IndexPut? {
        ShortPut(p.writer, op.index, op.position.value, op.position.documentId);
      } else {
        DeleteIndexEntryKeeps(p.writer, op.index, op.position.value, op.position.documentId);
      }
    }
  }

  lemma {:induction false} PlainRun(p: Progress, ops: seq<Operation>, ts: U64)
    requires ProgressOk(p) && p.error.None? && forall op | op in ops :: PlainOperation(op)
    ensures Run(p, ops, ts).error.None? && Run(p, ops, ts).writer.memory == p.writer.memory
    decreases |ops|
  {
    if ops != [] {
      assert ops[0] in ops;
      PlainStep(p, ops[0], ts);
      PlainRun(Step(p, ops[0], ts), ops[1..], ts);
    }
  }

  /** A plain batch with a timestamp that is not too low is accepted and allocates nothing. */
  lemma PlainAccepted(e: Engine, batch: Batch)
    requires EngineOk(e) && Plain(batch) && e.memory.ts <= batch.ts
    ensures Put(e, batch, true).1.Success?
    ensures var m := Put(e, batch, true).0.memory;
      m.ts == batch.ts && m.collectionId == e.memory.collectionId && m.indexId == e.memory.indexId
  {
    BeginOk(e);
    PlainOperations(batch);
    PlainRun(Begin(e), Writes(batch), batch.ts);
  }
}
