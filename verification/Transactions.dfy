/**
 Read transactions with recorded writes: point reads and merged cursors
 (crates/storage/src/implementations/heed/transaction.rs).
 */
module Transactions {
  import opened ByteStrings
  import opened Types
  import opened Sequences
  import opened Lmdb
  import opened IndexTrie
  import opened TrieStorage
  import opened IndexTraversal
  import opened IndexSnapshot
  import opened IndexCursors
  import opened Catalogs
  import opened Documents
  import opened DocumentCursors
  import opened WriteSets
  import opened Databases
  import opened Overlays

  // -------------------------------------------------------- merged documents

  function UntouchedIds(touched: set<DocumentId>): DocumentEntry -> bool {
    (e: DocumentEntry) => e.id !in touched
  }

  class MergedDocumentCursor {
    const base: DocumentCursor
    var overlay: seq<DocumentEntry>
    const touched: set<DocumentId>
    const direction: Direction
    var pendingBase: Option<DocumentEntry>

    ghost predicate Valid()
      reads this, base
    {
      base.Valid() && (pendingBase.Some? ==> pendingBase.value.id !in touched)
    }

    ghost function BaseEntries(): seq<DocumentEntry>
      reads this, base
    {
      var rest := Filter(UntouchedIds(touched), base.Remaining());
      if pendingBase.Some? then [pendingBase.value] + rest else rest
    }

    /** The entries still to be returned. */
    ghost function Remaining(): seq<DocumentEntry>
      reads this, base
    {
      Merge(Toward(EntryLess, direction), BaseEntries(), overlay)
    }

    constructor (base: DocumentCursor, overlay: seq<DocumentEntry>, touched: set<DocumentId>, direction: Direction)
      requires base.Valid()
      ensures Valid() && this.base == base
      ensures Remaining()
         == Merge(Toward(EntryLess, direction), Filter(UntouchedIds(touched), base.Remaining()), overlay)
    {
      this.base, this.overlay, this.touched, this.direction := base, overlay, touched, direction;
      pendingBase := None;
    }

    /** The next base entry whose document the transaction has not written. */
    method NextBase() returns (r: Option<DocumentEntry>)
      requires Valid()
      modifies this`pendingBase, base
      ensures Valid() && pendingBase == None
      ensures r == First(old(BaseEntries())) && BaseEntries() == Tail(old(BaseEntries()))
      ensures r.Some? ==> r.value.id !in touched
    {
      while true
        invariant Valid() && BaseEntries() == old(BaseEntries())
        decreases |base.Remaining()|, if pendingBase.Some? then 1 else 0
      {
        var next := pendingBase;
        pendingBase := None;
        if next.None? {
          next := base.Next();
        }
        if next.None? {
          return None;
        }
        if next.value.id !in touched {
          return next;
        }
      }
    }

    method Next() returns (r: Option<DocumentEntry>)
      requires Valid()
      modifies this, base
      ensures Valid()
      ensures r == First(old(Remaining())) && Remaining() == Tail(old(Remaining()))
    {
      if pendingBase.None? {
        pendingBase := NextBase();
      }
      assert BaseEntries() == old(BaseEntries());
      if pendingBase.None? && overlay == [] {
        return None;
      } else if overlay == [] || (pendingBase.Some? && Toward(EntryLess, direction)(pendingBase.value, overlay[0])) {
        r := pendingBase;
        pendingBase := None;
      } else if pendingBase.None? || Toward(EntryLess, direction)(overlay[0], pendingBase.value) {
        r := Some(overlay[0]);
        overlay := overlay[1..];
      } else {
        pendingBase := None;
        r := Some(overlay[0]);
        overlay := overlay[1..];
      }
    }
  }

  // ---------------------------------------------------------- merged indexes

  /** What reads of a transaction depend on: its writes, its snapshot of the documents, its timestamp. */
  datatype DocumentView = DocumentView(writes: Collections, documents: Database, ts: U64, collection: CollectionId)

  ghost function SeenIn(view: DocumentView, d: DocumentId): Option<Bytes>
    requires DocumentRows(view.documents)
  {
    Seen(view.writes, view.documents, view.ts, view.collection, d)
  }

  /** The untouched positions whose document is live under the overlay, with its value. */
  ghost function LiveEntries(view: DocumentView, touched: set<IndexPosition>,
                             positions: seq<IndexPosition>): seq<IndexEntry>
    requires DocumentRows(view.documents)
  {
    if positions == [] then []
    else
      var p := positions[0];
      var seen := SeenIn(view, p.documentId);
      (if p !in touched && seen.Some? then [IndexEntry(p.value, p.documentId, seen.value)] else [])
      + LiveEntries(view, touched, positions[1..])
  }

  lemma {:induction false} LiveEntriesMeaning(view: DocumentView, touched: set<IndexPosition>,
          positions: seq<IndexPosition>, direction: Direction)
    requires DocumentRows(view.documents) && Sorted(Toward(PositionLess, direction), positions)
    ensures Sorted(Toward(IndexEntryLess, direction), LiveEntries(view, touched, positions))
    ensures forall e :: e in LiveEntries(view, touched, positions) <==>
      && PositionOfEntry(e) in positions && PositionOfEntry(e) !in touched
      && SeenIn(view, e.documentId) == Some(e.documentValue)
  {
    if positions != [] {
      var p, rest := positions[0], positions[1..];
      LiveEntriesMeaning(view, touched, rest, direction);
      assert positions == [p] + rest;
      var seen := SeenIn(view, p.documentId);
      if p !in touched && seen.Some? {
        var head := IndexEntry(p.value, p.documentId, seen.value);
        forall e | e in LiveEntries(view, touched, rest) ensures Toward(IndexEntryLess, direction)(head, e) {
          assert Toward(PositionLess, direction)(p, PositionOfEntry(e));
          assert if direction.Forward? then IndexEntryLess(head, e) else IndexEntryLess(e, head);
        }
        SortedConcat(Toward(IndexEntryLess, direction), [head], LiveEntries(view, touched, rest));
      }
    }
  }

  class MergedIndexCursor {
    const base: IndexCursor
    var overlay: seq<IndexEntry>
    const touched: set<IndexPosition>
    const view: DocumentView
    const direction: Direction
    var pendingBase: Option<IndexEntry>

    ghost predicate Valid()
      reads this, base
    {
      base.Valid() && DocumentRows(view.documents)
    }

    ghost function BaseEntries(): seq<IndexEntry>
      requires DocumentRows(view.documents)
      reads this, base
    {
      var rest := LiveEntries(view, touched, base.Remaining());
      if pendingBase.Some? then [pendingBase.value] + rest else rest
    }

    /** The entries still to be returned. */
    ghost function Remaining(): seq<IndexEntry>
      requires DocumentRows(view.documents)
      reads this, base
    {
      Merge(Toward(IndexEntryLess, direction), BaseEntries(), overlay)
    }

    constructor (base: IndexCursor, overlay: seq<IndexEntry>, touched: set<IndexPosition>, view: DocumentView,
                 direction: Direction)
      requires base.Valid() && DocumentRows(view.documents)
      ensures Valid() && this.base == base
      ensures Remaining()
         == Merge(Toward(IndexEntryLess, direction), LiveEntries(view, touched, base.Remaining()), overlay)
    {
      this.base, this.overlay, this.touched, this.view, this.direction := base, overlay, touched, view, direction;
      pendingBase := None;
    }

    /** The next base candidate that is untouched and live under the overlay. */
    method NextBase() returns (r: Option<IndexEntry>)
      requires Valid() && pendingBase == None
      modifies base`stack, base`levels
      ensures Valid()
      ensures r == First(old(BaseEntries())) && BaseEntries() == Tail(old(BaseEntries()))
    {
      while true
        invariant Valid() && BaseEntries() == old(BaseEntries())
        decreases |base.Remaining()|
      {
        var candidate := base.NextCandidate();
        if candidate.None? {
          return None;
        }
        var position := candidate.value;
        if position in touched {
          continue;
        }
        VisibleDocumentIsSeen(view.writes, view.documents, view.ts, view.collection, position.documentId);
        var value := VisibleDocument(view.writes, view.documents, view.ts, view.collection, position.documentId).value;
        if value.Some? {
          return Some(IndexEntry(position.value, position.documentId, value.value));
        }
      }
    }

    method Next() returns (r: Option<IndexEntry>)
      requires Valid()
      modifies this, base`stack, base`levels
      ensures Valid()
      ensures r == First(old(Remaining())) && Remaining() == Tail(old(Remaining()))
    {
      if pendingBase.None? {
        pendingBase := NextBase();
      }
      assert BaseEntries() == old(BaseEntries());
      if pendingBase.None? && overlay == [] {
        return None;
      } else if overlay == [] || (pendingBase.Some?
        && Toward(IndexEntryLess, direction)(pendingBase.value, overlay[0])) {
        r := pendingBase;
        pendingBase := None;
      } else if pendingBase.None? || Toward(IndexEntryLess, direction)(overlay[0], pendingBase.value) {
        r := Some(overlay[0]);
        overlay := overlay[1..];
      } else {
        pendingBase := None;
        r := Some(overlay[0]);
        overlay := overlay[1..];
      }
    }
  }

  // ----------------------------------------------------------------- meaning

  /** The positions of an index as the transaction sees them: its own writes decide, then the snapshot. */
  ghost predicate SeenPosition(writes: Collections, db: Databases, c: CollectionId, i: IndexId, p: IndexPosition)
    requires EdgeRows(db.indexEdges) && LeafRows(db.indexLeaves)
  {
    match IndexWriteOf(writes, c, i, p)
    case Some(IndexPut) => true
    case Some(IndexDeleted) => false
    case None => Posting(i, p) in StoredPostings(db)
  }

  /** In cursor order, the documents `get` returns on the requested side of the start. */
  ghost predicate IsDocumentResult(writes: Collections, db: Databases, ts: U64, c: CollectionId,
                                   start: CursorStart<DocumentId>, direction: Direction, out: seq<DocumentEntry>)
    requires DocumentRows(db.documents)
  {
    && Sorted(Toward(EntryLess, direction), out)
    && forall e :: e in out <==>
         Accepts(IdLess, start, direction, e.id) && Seen(writes, db.documents, ts, c, e.id) == Some(e.value)
  }

  /** In cursor order, the seen positions on the requested side of the start whose document is live, with its value. */
  ghost predicate IsIndexResult(writes: Collections, db: Databases, ts: U64, c: CollectionId, i: IndexId,
                                start: CursorStart<IndexPosition>, direction: Direction, out: seq<IndexEntry>)
    requires DocumentRows(db.documents) && EdgeRows(db.indexEdges) && LeafRows(db.indexLeaves)
  {
    && Sorted(Toward(IndexEntryLess, direction), out)
    && forall e :: e in out <==>
         && Accepts(PositionLess, start, direction, PositionOfEntry(e))
         && SeenPosition(writes, db, c, i, PositionOfEntry(e))
         && Seen(writes, db.documents, ts, c, e.documentId) == Some(e.documentValue)
  }

  lemma ApartDocuments(direction: Direction, base: seq<DocumentEntry>, overlay: seq<DocumentEntry>)
    requires forall x, y | x in base && y in overlay :: x.id != y.id
    ensures Apart(Toward(EntryLess, direction), base, overlay)
  {
    forall x, y | x in base && y in overlay
      ensures Toward(EntryLess, direction)(x, y) || Toward(EntryLess, direction)(y, x)
    {
      assert EntryLess(x, y) || EntryLess(y, x);
    }
  }

  lemma ApartPositions(direction: Direction, base: seq<IndexEntry>, overlay: seq<IndexEntry>)
    requires forall x, y | x in base && y in overlay :: PositionOfEntry(x) != PositionOfEntry(y)
    ensures Apart(Toward(IndexEntryLess, direction), base, overlay)
  {
    PositionOrder();
    forall x, y | x in base && y in overlay
      ensures Toward(IndexEntryLess, direction)(x, y) || Toward(IndexEntryLess, direction)(y, x)
    {
      var p, q := PositionOfEntry(x), PositionOfEntry(y);
      assert p == q || PositionLess(p, q) || PositionLess(q, p);
      assert IndexEntryLess(x, y) || IndexEntryLess(y, x);
    }
  }

  lemma FilterUntouched(direction: Direction, entries: seq<DocumentEntry>, touched: set<DocumentId>)
    requires Sorted(Toward(EntryLess, direction), entries)
    ensures Sorted(Toward(EntryLess, direction), Filter(UntouchedIds(touched), entries))
    ensures forall e :: e in Filter(UntouchedIds(touched), entries) <==> e in entries && e.id !in touched
  {
    FilterSorted(Toward(EntryLess, direction), UntouchedIds(touched), entries);
  }

  /** What the base of the merge yields: the visible documents the transaction has not written. */
  lemma UntouchedScan(db: Database, ts: U64, c: CollectionId, start: CursorStart<DocumentId>, direction: Direction,
                      touched: set<DocumentId>)
    requires DocumentRows(db)
    ensures RowsIn(c, ScanRows(db, c, start, direction))
    ensures var base := Filter(UntouchedIds(touched), Scanned(db, ts, c, start, direction));
      && Sorted(Toward(EntryLess, direction), base)
      && forall e :: e in base <==>
           e.id !in touched && Accepts(IdLess, start, direction, e.id) && Visible(db, ts, c, e.id) == Some(e.value)
  {
    ScanIsSortedVisible(db, ts, c, start, direction);
    FilterUntouched(direction, Scanned(db, ts, c, start, direction), touched);
  }

  lemma MergedDocuments(writes: Collections, db: Databases, ts: U64, c: CollectionId, start: CursorStart<DocumentId>,
                        direction: Direction,
                        touched: set<DocumentId>, base: seq<DocumentEntry>, overlay: seq<DocumentEntry>)
    requires DocumentRows(db.documents)
    requires forall d :: d in touched <==> DocumentWriteOf(writes, c, d).Some?
    requires Sorted(Toward(EntryLess, direction), base) && Sorted(Toward(EntryLess, direction), overlay)
    requires forall e :: e in overlay <==> RecordedEntry(writes, c, start, direction, e)
    requires forall e :: e in base <==>
      && e.id !in touched && Accepts(IdLess, start, direction, e.id)
      && Visible(db.documents, ts, c, e.id) == Some(e.value)
    ensures IsDocumentResult(writes, db, ts, c, start, direction, Merge(Toward(EntryLess, direction), base, overlay))
  {
    EntryOrder(direction);
    ApartDocuments(direction, base, overlay);
    MergeCorrect(Toward(EntryLess, direction), base, overlay);
  }

  /** What the index cursor yields: the stored positions on the requested side of the start. */
  lemma Candidates(scan: Scan, start: CursorStart<IndexPosition>)
    requires Sound(scan)
    ensures var out := Filter(StartFilter(start, scan.direction), Traversal(scan));
      && Sorted(Toward(PositionLess, scan.direction), out)
      && forall p :: p in out <==> Accepts(PositionLess, start, scan.direction, p) && InIndex(scan, p)
  {
    TraversalIsSortedIndex(scan);
    FilterSorted(Toward(PositionLess, scan.direction), StartFilter(start, scan.direction), Traversal(scan));
  }

  lemma UntouchedCandidates(writes: Collections, documents: Database, ts: U64, c: CollectionId, i: IndexId,
                            direction: Direction,
                            candidates: seq<IndexPosition>, touched: set<IndexPosition>)
    requires DocumentRows(documents) && Sorted(Toward(PositionLess, direction), candidates)
    requires forall p :: p in touched <==> IndexWriteOf(writes, c, i, p).Some?
    ensures var base := LiveEntries(DocumentView(writes, documents, ts, c), touched, candidates);
      && Sorted(Toward(IndexEntryLess, direction), base)
      && forall e :: e in base <==>
           && PositionOfEntry(e) in candidates && IndexWriteOf(writes, c, i, PositionOfEntry(e)).None?
           && Seen(writes, documents, ts, c, e.documentId) == Some(e.documentValue)
  {
    LiveEntriesMeaning(DocumentView(writes, documents, ts, c), touched, candidates, direction);
  }

  lemma MergedPositions(writes: Collections, db: Databases, ts: U64, c: CollectionId, i: IndexId,
                        start: CursorStart<IndexPosition>, direction: Direction,
                        base: seq<IndexEntry>, overlay: seq<IndexEntry>)
    requires DocumentRows(db.documents) && EdgeRows(db.indexEdges) && LeafRows(db.indexLeaves)
    requires Sorted(Toward(IndexEntryLess, direction), base) && Sorted(Toward(IndexEntryLess, direction), overlay)
    requires forall e :: e in overlay <==> RecordedPosition(writes, db.documents, ts, c, i, start, direction, e)
    requires forall e :: e in base <==>
      && IndexWriteOf(writes, c, i, PositionOfEntry(e)).None?
         && Accepts(PositionLess, start, direction, PositionOfEntry(e))
      && Posting(i, PositionOfEntry(e)) in StoredPostings(db)
         && Seen(writes, db.documents, ts, c, e.documentId) == Some(e.documentValue)
    ensures IsIndexResult(writes, db, ts, c, i, start, direction,
                          Merge(Toward(IndexEntryLess, direction), base, overlay))
  {
    IndexEntryOrder(direction);
    ApartPositions(direction, base, overlay);
    MergeCorrect(Toward(IndexEntryLess, direction), base, overlay);
  }

  /** A result is determined by what the transaction sees. */
  lemma DocumentResultUnique(writes: Collections, db: Databases, ts: U64, writes': Collections, db': Databases,
                             ts': U64, c: CollectionId,
                             start: CursorStart<DocumentId>, direction: Direction, out: seq<DocumentEntry>,
                             out': seq<DocumentEntry>)
    requires DocumentRows(db.documents) && DocumentRows(db'.documents)
    requires IsDocumentResult(writes, db, ts, c, start, direction, out)
    requires IsDocumentResult(writes', db', ts', c, start, direction, out')
    requires forall d :: Seen(writes, db.documents, ts, c, d) == Seen(writes', db'.documents, ts', c, d)
    ensures out == out'
  {
    EntryOrder(direction);
    SortedUnique(Toward(EntryLess, direction), out, out');
  }

  /** The position is on the requested side of the start and its document is live. */
  ghost predicate Listed(writes: Collections, db: Databases, ts: U64, c: CollectionId,
                         start: CursorStart<IndexPosition>, direction: Direction, at: IndexPosition)
    requires DocumentRows(db.documents)
  {
    Accepts(PositionLess, start, direction, at) && Seen(writes, db.documents, ts, c, at.documentId).Some?
  }

  /** Both see the same positions of the index wherever the first would list one. */
  ghost predicate SamePositions(writes: Collections, db: Databases, ts: U64, writes': Collections, db': Databases,
                                c: CollectionId, i: IndexId,
                                start: CursorStart<IndexPosition>, direction: Direction)
    requires DocumentRows(db.documents) && EdgeRows(db.indexEdges) && LeafRows(db.indexLeaves)
    requires EdgeRows(db'.indexEdges) && LeafRows(db'.indexLeaves)
  {
    forall at | Listed(writes, db, ts, c, start, direction, at) :: SeenAlike(writes, db, writes', db', c, i, at)
  }

  ghost predicate SeenAlike(writes: Collections, db: Databases, writes': Collections, db': Databases, c: CollectionId,
                            i: IndexId, at: IndexPosition)
    requires EdgeRows(db.indexEdges) && LeafRows(db.indexLeaves) && EdgeRows(db'.indexEdges)
      && LeafRows(db'.indexLeaves)
  {
    SeenPosition(writes, db, c, i, at) <==> SeenPosition(writes', db', c, i, at)
  }

  /**
   A position that one transaction sees and the other does not, where it would be listed, makes their results differ.
   */
  lemma ResultsDiffer(writes: Collections, db: Databases, ts: U64, writes': Collections, db': Databases, ts': U64,
                      c: CollectionId, i: IndexId,
                      start: CursorStart<IndexPosition>, direction: Direction, out: seq<IndexEntry>,
                      out': seq<IndexEntry>, at: IndexPosition)
    requires DocumentRows(db.documents) && EdgeRows(db.indexEdges) && LeafRows(db.indexLeaves)
    requires DocumentRows(db'.documents) && EdgeRows(db'.indexEdges) && LeafRows(db'.indexLeaves)
    requires IsIndexResult(writes, db, ts, c, i, start, direction, out)
    requires IsIndexResult(writes', db', ts', c, i, start, direction, out')
    requires Seen(writes, db.documents, ts, c, at.documentId) == Seen(writes', db'.documents, ts', c, at.documentId)
    requires Listed(writes, db, ts, c, start, direction, at)
    requires !SeenAlike(writes, db, writes', db', c, i, at)
    ensures out != out'
  {
    var e := IndexEntry(at.value, at.documentId, Seen(writes, db.documents, ts, c, at.documentId).value);
    assert PositionOfEntry(e) == at;
    assert (e in out) != (e in out');
  }

  lemma ResultEntry(writes: Collections, db: Databases, ts: U64, writes': Collections, db': Databases, ts': U64,
                    c: CollectionId, i: IndexId,
                    start: CursorStart<IndexPosition>, direction: Direction, out: seq<IndexEntry>,
                    out': seq<IndexEntry>, x: IndexEntry)
    requires DocumentRows(db.documents) && EdgeRows(db.indexEdges) && LeafRows(db.indexLeaves)
    requires DocumentRows(db'.documents) && EdgeRows(db'.indexEdges) && LeafRows(db'.indexLeaves)
    requires IsIndexResult(writes, db, ts, c, i, start, direction, out)
    requires IsIndexResult(writes', db', ts', c, i, start, direction, out')
    requires Seen(writes, db.documents, ts, c, x.documentId) == Seen(writes', db'.documents, ts', c, x.documentId)
    requires SamePositions(writes, db, ts, writes', db', c, i, start, direction)
    ensures x in out <==> x in out'
  {
    var at := PositionOfEntry(x);
    if Listed(writes, db, ts, c, start, direction, at) {
      assert SeenAlike(writes, db, writes', db', c, i, at);
    }
  }

  lemma ResultsAgree(writes: Collections, db: Databases, ts: U64, writes': Collections, db': Databases, ts': U64,
                     c: CollectionId, i: IndexId,
                     start: CursorStart<IndexPosition>, direction: Direction, out: seq<IndexEntry>,
                     out': seq<IndexEntry>)
    requires DocumentRows(db.documents) && EdgeRows(db.indexEdges) && LeafRows(db.indexLeaves)
    requires DocumentRows(db'.documents) && EdgeRows(db'.indexEdges) && LeafRows(db'.indexLeaves)
    requires IsIndexResult(writes, db, ts, c, i, start, direction, out)
    requires IsIndexResult(writes', db', ts', c, i, start, direction, out')
    requires forall d :: Seen(writes, db.documents, ts, c, d) == Seen(writes', db'.documents, ts', c, d)
    requires SamePositions(writes, db, ts, writes', db', c, i, start, direction)
    ensures out == out'
  {
    forall x ensures x in out <==> x in out' {
      ResultEntry(writes, db, ts, writes', db', ts', c, i, start, direction, out, out', x);
    }
    IndexEntryOrder(direction);
    SortedUnique(Toward(IndexEntryLess, direction), out, out');
  }

  /**
   Index results agree exactly if the transactions see the same positions wherever a live document would be listed.
   */
  lemma IndexResultUnique(writes: Collections, db: Databases, ts: U64, writes': Collections, db': Databases, ts': U64,
                          c: CollectionId, i: IndexId,
                          start: CursorStart<IndexPosition>, direction: Direction, out: seq<IndexEntry>,
                          out': seq<IndexEntry>)
    requires DocumentRows(db.documents) && EdgeRows(db.indexEdges) && LeafRows(db.indexLeaves)
    requires DocumentRows(db'.documents) && EdgeRows(db'.indexEdges) && LeafRows(db'.indexLeaves)
    requires IsIndexResult(writes, db, ts, c, i, start, direction, out)
    requires IsIndexResult(writes', db', ts', c, i, start, direction, out')
    requires forall d :: Seen(writes, db.documents, ts, c, d) == Seen(writes', db'.documents, ts', c, d)
    ensures out == out' <==> SamePositions(writes, db, ts, writes', db', c, i, start, direction)
  {
    if SamePositions(writes, db, ts, writes', db', c, i, start, direction) {
      ResultsAgree(writes, db, ts, writes', db', ts', c, i, start, direction, out, out');
    } else {
      var at :| Listed(writes, db, ts, c, start, direction, at) && !SeenAlike(writes, db, writes', db', c, i, at);
      ResultsDiffer(writes, db, ts, writes', db', ts', c, i, start, direction, out, out', at);
    }
  }

  // ------------------------------------------------------------- transactions

  /** A snapshot read at a timestamp, with the writes recorded so far. */
  class Transaction {
    const db: Databases
    const ts: U64
    const writes: WriteSet
    ghost const counter: U64

    ghost predicate Valid()
      reads this
    {
      DocumentRows(db.documents) && IndexesOk(db, counter)
    }

    constructor (db: Databases, ts: U64, ghost counter: U64)
      requires DocumentRows(db.documents) && IndexesOk(db, counter)
      ensures Valid() && this.db == db && this.ts == ts && fresh(writes)
      ensures writes.collections == map[] && writes.newCollections == map[] && writes.newIndexes == map[]
        && writes.ts == ts
    {
      this.db, this.ts, this.counter := db, ts, counter;
      writes := new WriteSet(ts);
    }

    method Get(c: CollectionId, key: DocumentId) returns (r: Option<Bytes>)
      requires Valid()
      ensures r == Seen(writes.collections, db.documents, ts, c, key)
    {
      VisibleDocumentIsSeen(writes.collections, db.documents, ts, c, key);
      r := VisibleDocument(writes.collections, db.documents, ts, c, key).value;
    }

    /** A name recorded by the transaction, under its least temporary id, before one visible in the snapshot. */
    method Collection(name: Bytes) returns (r: Result<Option<CollectionId>>)
      ensures forall t | t in writes.newCollections && writes.newCollections[t] == name
                && (forall t' | t' in writes.newCollections && writes.newCollections[t'] == name :: t <= t') ::
                   r == Success(Some(t))
      ensures (forall t | t in writes.newCollections :: writes.newCollections[t] != name) ==>
        r == LookupCollection(db.collectionIdsByName, db.collectionsCatalog, name, ts)
    {
      var ids := Ids(writes.newCollections.Keys);
      var i := 0;
      while i < |ids|
        invariant 0 <= i <= |ids|
        invariant forall k | 0 <= k < i :: writes.newCollections[ids[k]] != name
      {
        if writes.newCollections[ids[i]] == name {
          forall t | t in writes.newCollections && writes.newCollections[t] == name ensures ids[i] <= t {
            var k :| 0 <= k < |ids| && ids[k] == t;
            assert k == i || SignedLess(ids[i], ids[k]);
          }
          return Success(Some(ids[i]));
        }
        i := i + 1;
      }
      assert forall t | t in writes.newCollections :: t in ids;
      r := LookupCollection(db.collectionIdsByName, db.collectionsCatalog, name, ts);
    }

    method GetCursor(c: CollectionId, start: CursorStart<DocumentId>, direction: Direction)
        returns (cursor: MergedDocumentCursor)
      requires Valid()
      ensures fresh(cursor) && fresh(cursor.base) && cursor.Valid()
      ensures IsDocumentResult(writes.collections, db, ts, c, start, direction, cursor.Remaining())
    {
      var overlay, touched := OverlayDocumentEntries(writes.collections, c, start, direction);
      var bounds := DocumentCursorBounds(c, start, direction);
      var raw := Range(Rows(db.documents), bounds.0, bounds.1, direction);
      assert raw == ScanRows(db.documents, c, start, direction);
      UntouchedScan(db.documents, ts, c, start, direction, touched);
      var base := new DocumentCursor(raw, c, ts, direction.Reverse?);
      MergedDocuments(writes.collections, db, ts, c, start, direction, touched,
                      Filter(UntouchedIds(touched), base.Remaining()), overlay);
      cursor := new MergedDocumentCursor(base, overlay, touched, direction);
    }

    method GetIndexCursor(c: CollectionId, i: IndexId, start: CursorStart<IndexPosition>, direction: Direction)
        returns (cursor: MergedIndexCursor)
      requires Valid()
      ensures fresh(cursor) && fresh(cursor.base) && cursor.Valid()
      ensures IsIndexResult(writes.collections, db, ts, c, i, start, direction, cursor.Remaining())
    {
      var overlay, touched := OverlayIndexEntries(writes.collections, db.documents, ts, c, i, start, direction);
      ghost var scan := Scan(db.indexEdges, db.indexLeaves, i, direction, counter);
      TrieIsReadable(scan);
      Candidates(scan, start);
      var base := new IndexCursor(db.indexEdges, db.indexLeaves, i, start, direction, scan);
      var view := DocumentView(writes.collections, db.documents, ts, c);
      UntouchedCandidates(writes.collections, db.documents, ts, c, i, direction, base.Remaining(), touched);
      MergedPositions(writes.collections, db, ts, c, i, start, direction, LiveEntries(view, touched, base.Remaining()),
                      overlay);
      cursor := new MergedIndexCursor(base, overlay, touched, view, direction);
    }

    /** The recorded writes, to be committed at `ts`. */
    method IntoWriteSet(ts: U64) returns (batch: WriteSet)
      modifies writes`ts
      ensures batch == writes && batch.ts == ts
    {
      writes.ts := ts;
      batch := writes;
    }
  }
}
