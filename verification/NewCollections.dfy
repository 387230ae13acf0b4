/**
 Temporary collection ids: what a batch writes under a new collection is found under the id that the collection's name
 leads to.
 */
module NewCollections {
  import opened Types
  import opened Sequences
  import opened HeedEncoding
  import opened Documents
  import opened WriteSets
  import opened Catalogs
  import opened Batches
  import opened BatchInvariants
  import opened BatchEffects
  import opened BatchWrites
  import opened Engines
  import opened History
  import opened AllocatedIds

  // ------------------------------------------------------- resolving the names

  /** The temporary id stands for the id that the name leads to. */
  ghost predicate Resolved(p: Progress, t: CollectionId, name: Name) {
    t in p.newCollections && NamesId(p.writer.db.collectionIdsByName, name, p.newCollections[t])
  }

  lemma MakeResolves(p: Progress, t: CollectionId, name: Name, ts: U64)
    requires ProgressOk(p) && p.error.None? && StepMakeCollection(p, t, name, ts).error.None?
    ensures Resolved(StepMakeCollection(p, t, name, ts), t, name)
  {
    if name in p.writer.db.collectionIdsByName {
      CreateExistingCollection(p.writer, name, None, ts);
    } else {
      CreateNewCollection(p.writer, name, None, ts);
    }
  }

  lemma StepKeepsResolved(p: Progress, op: Operation, ts: U64, t: CollectionId, name: Name)
    requires Resolved(p, t, name) && (op.MakeCollection? ==> op.temporaryCollection != t)
    ensures Resolved(Step(p, op, ts), t, name) && Step(p, op, ts).newCollections[t] == p.newCollections[t]
  {
    StepNames(p, op, ts, name);
    StepResolves(p, op, ts, t);
  }

  lemma StepResolves(p: Progress, op: Operation, ts: U64, t: CollectionId)
    requires t in p.newCollections && (op.MakeCollection? ==> op.temporaryCollection != t)
    ensures t in Step(p, op, ts).newCollections && Step(p, op, ts).newCollections[t] == p.newCollections[t]
  {
  }

  lemma {:induction false} RunKeepsResolved(p: Progress, ops: seq<Operation>, ts: U64, t: CollectionId, name: Name)
    requires Resolved(p, t, name) && forall op | op in ops && op.MakeCollection? :: op.temporaryCollection != t
    ensures Resolved(Run(p, ops, ts), t, name) && Run(p, ops, ts).newCollections[t] == p.newCollections[t]
    decreases |ops|
  {
    if ops != [] {
      StepKeepsResolved(p, ops[0], ts, t, name);
      RunKeepsResolved(Step(p, ops[0], ts), ops[1..], ts, t, name);
    }
  }

  /** Every temporary id of the batch is resolved. */
  lemma {:induction false} MakeCollectionsResolve(p: Progress, ids: seq<CollectionId>, names: map<CollectionId, Name>,
          ts: U64, t: CollectionId)
    requires ProgressOk(p) && (forall c | c in ids :: c in names) && Sorted(SignedLess, ids) && t in ids
    requires Run(p, MakeCollections(ids, names), ts).error.None?
    ensures Resolved(Run(p, MakeCollections(ids, names), ts), t, names[t])
    decreases |ids|
  {
    var ops := MakeCollections(ids, names);
    var p' := Step(p, ops[0], ts);
    assert ops[1..] == MakeCollections(ids[1..], names);
    NoEarlierError(p, ops, ts);
    StepKeeps(p, ops[0], ts);
    if t == ids[0] {
      MakeResolves(p, t, names[t], ts);
      CreationsKinds(ids[1..], names);
      RunKeepsResolved(p', ops[1..], ts, t, names[t]);
    } else {
      MakeCollectionsResolve(p', ids[1..], names, ts, t);
    }
  }

  /** The first operations of a batch resolve every temporary id, and the later ones leave that alone. */
  lemma BatchResolves(p: Progress, batch: Batch, t: CollectionId)
    requires ProgressOk(p) && t in batch.newCollections && Run(p, Operations(batch), batch.ts).error.None?
    ensures Resolved(Run(p, Operations(batch), batch.ts), t, batch.newCollections[t])
  {
    PhaseRuns(p, batch);
    LaterPhases(batch);
    var name := batch.newCollections[t];
    MakeCollectionsResolve(p, Ids(batch.newCollections.Keys), batch.newCollections, batch.ts, t);
    var p' := Run(p, Creations(batch), batch.ts);
    RunKeepsResolved(p', IndexCreations(batch), batch.ts, t, name);
    RunKeepsResolved(Run(p', IndexCreations(batch), batch.ts), Writes(batch), batch.ts, t, name);
  }

  // --------------------------------------------------------------- main result

  /** No collection with a greater id that stands for the same one writes the document. */
  ghost predicate LastToWrite(collections: Collections, made: Made, t: CollectionId, d: DocumentId) {
    forall c | c in collections && t < c && DocumentWriteOf(collections, c, d).Some? ::
      Resolve(c, made) != Resolve(t, made)
  }

  lemma {:induction false} NoLaterRecord(collections: Collections, cs: seq<CollectionId>, made: Made, c: CollectionId,
                                         d: DocumentId)
    requires forall x | x in cs && Resolve(x, made) == Some(c) :: DocumentWriteOf(collections, x, d).None?
    ensures RecordedDocument(collections, cs, made, c, d) == None
    decreases |cs|
  {
    if cs != [] {
      assert cs[0] in cs && forall x | x in cs[1..] :: x in cs;
      NoLaterRecord(collections, cs[1..], made, c, d);
    }
  }

  lemma {:induction false} LastRecordDecides(collections: Collections, cs: seq<CollectionId>, made: Made,
          t: CollectionId, c: CollectionId, d: DocumentId)
    requires Sorted(SignedLess, cs) && (forall x | x in cs :: x in collections) && t in cs
    requires Resolve(t, made) == Some(c) && DocumentWriteOf(collections, t, d).Some?
      && LastToWrite(collections, made, t, d)
    ensures RecordedDocument(collections, cs, made, c, d) == DocumentWriteOf(collections, t, d)
    decreases |cs|
  {
    if t == cs[0] {
      NoLaterRecord(collections, cs[1..], made, c, d);
    } else {
      assert forall x | x in cs[1..] :: x in cs;
      LastRecordDecides(collections, cs[1..], made, t, c, d);
    }
  }

  lemma TemporaryWrite(e: Engine, batch: Batch, made: Made, t: CollectionId, d: DocumentId)
    requires made == Run(Begin(e), Operations(batch), batch.ts).newCollections && t < 0 && t in made
    requires DocumentWriteOf(batch.collections, t, d).Some? && LastToWrite(batch.collections, made, t, d)
    ensures WriteOf(e, batch, made[t], d) == DocumentWriteOf(batch.collections, t, d)
  {
    BatchDocument(Begin(e), batch, made[t], d);
    LastRecordDecides(batch.collections, Ids(batch.collections.Keys), made, t, made[t], d);
  }

  lemma NewCollectionNamed(e: Engine, batch: Batch, t: CollectionId)
    requires EngineOk(e) && Run(Begin(e), Operations(batch), batch.ts).error.None? && t in batch.newCollections
    ensures Run(Begin(e), Operations(batch), batch.ts).newCollections == MadeCollections(e, batch)
      && t in MadeCollections(e, batch)
    ensures NamesId(Run(Begin(e), Operations(batch), batch.ts).writer.db.collectionIdsByName, batch.newCollections[t],
                    MadeCollections(e, batch)[t])
  {
    BeginOk(e);
    BatchResolves(Begin(e), batch, t);
    BatchMemory(e, batch);
  }

  /**
   What a batch writes to a document under a temporary id is its write under the id that the collection's name leads
   to.
   */
  lemma NewCollectionWrite(e: Engine, batch: Batch, commits: bool, t: CollectionId, d: DocumentId)
    requires EngineOk(e) && Put(e, batch, commits).1.Success? && t < 0 && t in batch.newCollections
    requires DocumentWriteOf(batch.collections, t, d).Some?
      && LastToWrite(batch.collections, MadeCollections(e, batch), t, d)
    ensures t in MadeCollections(e, batch)
    ensures NamesId(Put(e, batch, commits).0.committed.collectionIdsByName, batch.newCollections[t],
                    MadeCollections(e, batch)[t])
    ensures WriteOf(e, batch, MadeCollections(e, batch)[t], d) == DocumentWriteOf(batch.collections, t, d)
  {
    AcceptedPut(e, batch, commits);
    NewCollectionNamed(e, batch, t);
    TemporaryWrite(e, batch, MadeCollections(e, batch), t, d);
  }

  /**
   A document written under a temporary id is read, after the commit, under the id that the collection's name leads to,
   from any timestamp at or after the batch's that no stored version shadows it from.
   */
  lemma NewCollectionDocument(e: Engine, batch: Batch, commits: bool, t: CollectionId, d: DocumentId, ts: U64)
    requires EngineOk(e) && Put(e, batch, commits).1.Success? && t < 0 && t in batch.newCollections
    requires DocumentWriteOf(batch.collections, t, d).Some?
      && LastToWrite(batch.collections, MadeCollections(e, batch), t, d)
    requires batch.ts <= ts
    requires t in MadeCollections(e, batch) ==>
      Unshadowed(e.committed.documents, MadeCollections(e, batch)[t], d, batch.ts, ts)
    ensures t in MadeCollections(e, batch) && DocumentRows(Put(e, batch, commits).0.committed.documents)
    ensures NamesId(Put(e, batch, commits).0.committed.collectionIdsByName, batch.newCollections[t],
                    MadeCollections(e, batch)[t])
    ensures Visible(Put(e, batch, commits).0.committed.documents, ts, MadeCollections(e, batch)[t], d)
         == WrittenValue(DocumentWriteOf(batch.collections, t, d).value)
  {
    NewCollectionWrite(e, batch, commits, t, d);
    PutReads(e, batch, commits, ts, MadeCollections(e, batch)[t], d);
  }
}
