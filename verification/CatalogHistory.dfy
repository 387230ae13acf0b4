/** Catalog reads over whole runs: what a reader sees of the collections does not change behind it. */
module CatalogHistory {
  import opened ByteStrings
  import opened Types
  import opened BigEndian
  import opened Sequences
  import opened Lmdb
  import opened HeedEncoding
  import opened WriteSets
  import opened Databases
  import opened Catalogs
  import opened CatalogCursors
  import opened Batches
  import opened BatchInvariants
  import opened BatchEffects
  import opened Engines
  import opened History

  lemma SameRowsSameCollection(names: Database, before: Database, bound: U64, names': Database, after: Database,
                               bound': U64, id: CollectionId, ts: U64)
    requires CatalogOk(names, before, bound) && CatalogOk(names', after, bound')
    requires forall v: U64 | v <= ts ::
      RowAt(after, EncodeCollectionCatalogKey(id, v)) == RowAt(before, EncodeCollectionCatalogKey(id, v))
    ensures CollectionById(after, id, ts) == CollectionById(before, id, ts)
  {
    CollectionByIdIsNewest(names, before, bound, id, ts);
    CollectionByIdIsNewest(names', after, bound', id, ts);
    forall v: U64 | v <= ts
      ensures EncodeCollectionCatalogKey(id, v) in after <==> EncodeCollectionCatalogKey(id, v) in before
    {
      assert RowAt(after, EncodeCollectionCatalogKey(id, v)) == RowAt(before, EncodeCollectionCatalogKey(id, v));
    }
    forall v: U64 ensures NewestRow(after, ts, id, v) <==> NewestRow(before, ts, id, v) {
    }
    if CollectionById(before, id, ts).value.Some? {
      var v: U64 :| NewestRow(before, ts, id, v)
        && DecodeCollectionCatalogValue(before[EncodeCollectionCatalogKey(id, v)])
           == Success(CollectionById(before, id, ts).value.value);
      var w: U64 :| NewestRow(after, ts, id, w)
        && DecodeCollectionCatalogValue(after[EncodeCollectionCatalogKey(id, w)])
           == Success(CollectionById(after, id, ts).value.value);
      NewestRowUnique(before, ts, id, v, w);
      assert RowAt(after, EncodeCollectionCatalogKey(id, v)) == RowAt(before, EncodeCollectionCatalogKey(id, v));
    }
  }

  lemma AcceptedCatalogReads(e: Engine, batch: Batch, commits: bool, ts: U64, id: CollectionId)
    requires EngineOk(e) && Put(e, batch, commits).1.Success? && batch.ts > ts
    ensures CollectionById(Put(e, batch, commits).0.committed.collectionsCatalog, id, ts)
       == CollectionById(e.committed.collectionsCatalog, id, ts)
  {
    PutKeeps(e, batch, commits);
    AcceptedPut(e, batch, commits);
    var before, after := e.committed, Put(e, batch, commits).0.committed;
    forall v: U64 | v <= ts
      ensures RowAt(after.collectionsCatalog, EncodeCollectionCatalogKey(id, v))
         == RowAt(before.collectionsCatalog, EncodeCollectionCatalogKey(id, v))
    {
      RunCatalog(Begin(e), Operations(batch), batch.ts, id, v);
    }
    SameRowsSameCollection(
      before.collectionIdsByName, before.collectionsCatalog, StoredAt(before.metadata, COLLECTION_ID_KEY),
      after.collectionIdsByName, after.collectionsCatalog, StoredAt(after.metadata, COLLECTION_ID_KEY), id, ts);
  }

  /** A later batch, accepted or not, changes no catalog lookup at `ts`. */
  lemma PutCatalogReads(e: Engine, batch: Batch, commits: bool, ts: U64, id: CollectionId)
    requires EngineOk(e) && batch.ts > ts
    ensures CollectionById(Put(e, batch, commits).0.committed.collectionsCatalog, id, ts)
       == CollectionById(e.committed.collectionsCatalog, id, ts)
  {
    if Put(e, batch, commits).1.Success? {
      AcceptedCatalogReads(e, batch, commits, ts, id);
    } else {
      RejectedPut(e, batch, commits);
    }
  }

  /** No batch changes the id of a name. */
  lemma PutNames(e: Engine, batch: Batch, commits: bool, name: Bytes)
    requires EngineOk(e) && name in e.committed.collectionIdsByName
    ensures RowAt(Put(e, batch, commits).0.committed.collectionIdsByName, name)
       == RowAt(e.committed.collectionIdsByName, name)
  {
    if Put(e, batch, commits).1.Success? {
      AcceptedPut(e, batch, commits);
      RunNames(Begin(e), Operations(batch), batch.ts, name);
    } else {
      RejectedPut(e, batch, commits);
    }
  }

  lemma {:induction false} StableCatalog(e: Engine, events: seq<Event>, ts: U64, id: CollectionId)
    requires EngineOk(e) && LaterThan(events, ts)
    ensures CollectionById(Replay(e, events).committed.collectionsCatalog, id, ts)
       == CollectionById(e.committed.collectionsCatalog, id, ts)
    decreases |events|
  {
    if events != [] {
      assert LaterThan(events[1..], ts);
      NextKeeps(e, events[0]);
      if events[0].PutBatch? {
        PutCatalogReads(e, events[0].batch, events[0].commits, ts, id);
      } else {
        QuietEvent(e, events[0]);
      }
      StableCatalog(Next(e, events[0]), events[1..], ts, id);
    }
  }

  /** Whatever happens later, no name changes its id. */
  lemma {:induction false} StableNames(e: Engine, events: seq<Event>, name: Bytes)
    requires EngineOk(e) && name in e.committed.collectionIdsByName
    ensures RowAt(Replay(e, events).committed.collectionIdsByName, name) == RowAt(e.committed.collectionIdsByName, name)
    decreases |events|
  {
    if events != [] {
      NextKeeps(e, events[0]);
      if events[0].PutBatch? {
        PutNames(e, events[0].batch, events[0].commits, name);
      } else {
        QuietEvent(e, events[0]);
      }
      StableNames(Next(e, events[0]), events[1..], name);
    }
  }

  // ------------------------------------------------------------ what is visible

  ghost predicate ShowsCollection(db: Databases, ts: U64, x: CollectionEntry) {
    VisibleAt(db.collectionIdsByName, db.collectionsCatalog, ts, x)
  }

  /** A visible collection has a name row of its own. */
  lemma FoundIsNamed(e: Engine, ts: U64, id: CollectionId, name: Name, metadata: Bytes)
    requires EngineOk(e) && CollectionById(e.committed.collectionsCatalog, id, ts) == Success(Some((name, metadata)))
    ensures NamesId(e.committed.collectionIdsByName, name, id)
  {
    var names, catalog, bound := e.committed.collectionIdsByName, e.committed.collectionsCatalog,
      StoredAt(e.committed.metadata, COLLECTION_ID_KEY);
    CollectionByIdIsNewest(names, catalog, bound, id, ts);
    var v: U64 :| NewestRow(catalog, ts, id, v)
      && DecodeCollectionCatalogValue(catalog[EncodeCollectionCatalogKey(id, v)]) == Success((name, metadata));
    VersionsCarryName(names, catalog, bound, id, v);
  }

  /** Batches with later timestamps make no collection visible at `ts`, and hide none. */
  lemma StableVisible(e: Engine, events: seq<Event>, ts: U64, x: CollectionEntry)
    requires EngineOk(e) && LaterThan(events, ts)
    ensures ShowsCollection(Replay(e, events).committed, ts, x) <==> ShowsCollection(e.committed, ts, x)
  {
    StableCatalog(e, events, ts, x.id);
    if ShowsCollection(Replay(e, events).committed, ts, x) {
      FoundIsNamed(e, ts, x.id, x.name, x.metadata);
    }
    if ShowsCollection(e.committed, ts, x) {
      StableNames(e, events, x.name);
    }
  }

  /** A lookup by name finds exactly the visible collection of that name. */
  lemma LookupMeaning(e: Engine, name: Name, ts: U64, id: CollectionId)
    requires EngineOk(e)
    ensures var found := LookupCollection(e.committed.collectionIdsByName, e.committed.collectionsCatalog, name, ts);
      && found.Success?
      && (found.value == Some(id) <==>
          exists metadata :: ShowsCollection(e.committed, ts, CollectionEntry(id, name, metadata)))
  {
    var names, catalog, bound := e.committed.collectionIdsByName, e.committed.collectionsCatalog,
      StoredAt(e.committed.metadata, COLLECTION_ID_KEY);
    if name in names {
      assert NameRow(names, catalog, bound, name);
      var id' := FromI64Be(names[name]);
      CatalogNames(names, catalog, bound, name, id', ts);
      var found := CollectionById(catalog, id', ts).value;
      if found.Some? {
        assert ShowsCollection(e.committed, ts, CollectionEntry(id', name, found.value.1));
      }
    }
  }

  /** A name read at `ts` leads to the same collection, or to none, whatever happens later. */
  lemma StableLookup(e: Engine, events: seq<Event>, ts: U64, name: Name)
    requires EngineOk(e) && LaterThan(events, ts)
    ensures LookupCollection(Replay(e, events).committed.collectionIdsByName,
                             Replay(e, events).committed.collectionsCatalog, name, ts)
         == LookupCollection(e.committed.collectionIdsByName, e.committed.collectionsCatalog, name, ts)
  {
    var e' := Replay(e, events);
    ReplayKeeps(e, events);
    LookupMeaning(e, name, ts, 0);
    LookupMeaning(e', name, ts, 0);
    var before := LookupCollection(e.committed.collectionIdsByName, e.committed.collectionsCatalog, name, ts);
    var after := LookupCollection(e'.committed.collectionIdsByName, e'.committed.collectionsCatalog, name, ts);
    forall id: CollectionId ensures after.value == Some(id) <==> before.value == Some(id) {
      LookupMeaning(e, name, ts, id);
      LookupMeaning(e', name, ts, id);
      forall metadata
        ensures ShowsCollection(e'.committed, ts, CollectionEntry(id, name, metadata))
           <==> ShowsCollection(e.committed, ts, CollectionEntry(id, name, metadata))
      {
        StableVisible(e, events, ts, CollectionEntry(id, name, metadata));
      }
    }
  }

  /** What the catalog cursor lists over a snapshot. */
  function Listing(db: Databases, ts: U64, start: CursorStart<Bytes>, direction: Direction): seq<CollectionEntry> {
    var (lower, upper) := CollectionCatalogBounds(start, direction);
    Visited(db.collectionsCatalog, ts, Range(Rows(db.collectionIdsByName), lower, upper, direction))
  }

  lemma NameOrder(direction: Direction)
    ensures StrictOrder(Toward(NameLess, direction))
  {
    forall a, b, c | NameLess(a, b) && NameLess(b, c) ensures NameLess(a, c) {
      LessTransitive(a.name, b.name, c.name);
    }
    forall a ensures !NameLess(a, a) {
      LessIrreflexive(a.name);
    }
    assert StrictOrder(NameLess);
    TowardStrict(NameLess, direction);
  }

  lemma ListingMeaning(e: Engine, ts: U64, start: CursorStart<Bytes>, direction: Direction)
    requires EngineOk(e)
    ensures Sorted(Toward(NameLess, direction), Listing(e.committed, ts, start, direction))
    ensures forall x :: x in Listing(e.committed, ts, start, direction) <==>
      Accepts(Less, start, direction, x.name) && ShowsCollection(e.committed, ts, x)
  {
    CursorListsVisibleCollections(e.committed.collectionIdsByName, e.committed.collectionsCatalog,
      StoredAt(e.committed.metadata, COLLECTION_ID_KEY), ts, start, direction);
  }

  /** The catalog cursor at `ts` lists the same collections from any start in any direction, whatever happens later. */
  lemma StableListing(e: Engine, events: seq<Event>, ts: U64, start: CursorStart<Bytes>, direction: Direction)
    requires EngineOk(e) && LaterThan(events, ts)
    ensures Listing(Replay(e, events).committed, ts, start, direction) == Listing(e.committed, ts, start, direction)
  {
    ReplayKeeps(e, events);
    ListingMeaning(e, ts, start, direction);
    ListingMeaning(Replay(e, events), ts, start, direction);
    forall x: CollectionEntry
      ensures x in Listing(Replay(e, events).committed, ts, start, direction)
         <==> x in Listing(e.committed, ts, start, direction)
    {
      StableVisible(e, events, ts, x);
    }
    NameOrder(direction);
    SortedUnique(Toward(NameLess, direction), Listing(Replay(e, events).committed, ts, start, direction),
                 Listing(e.committed, ts, start, direction));
  }
}
