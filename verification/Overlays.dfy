/** A transaction's own writes laid over a snapshot (crates/storage/src/implementations/heed/transaction.rs). */
module Overlays {
  import opened ByteStrings
  import opened Types
  import opened Sequences
  import opened Lmdb
  import opened Documents
  import opened DocumentCursors
  import opened IndexTraversal
  import opened WriteSets

  // ------------------------------------------------------------ point lookup

  /** A recorded write decides; otherwise the snapshot does. */
  function VisibleDocument(writes: Collections, db: Database, ts: U64, c: CollectionId,
                           d: DocumentId): Result<Option<Bytes>> {
    match DocumentWriteOf(writes, c, d)
    case Some(DocumentPut(value)) => Success(Some(value))
    case Some(DocumentDeleted) => Success(None)
    case None => StoredDocument(db, ts, c, d)
  }

  ghost function Seen(writes: Collections, db: Database, ts: U64, c: CollectionId, d: DocumentId): Option<Bytes>
    requires DocumentRows(db)
  {
    match DocumentWriteOf(writes, c, d)
    case Some(DocumentPut(value)) => Some(value)
    case Some(DocumentDeleted) => None
    case None => Visible(db, ts, c, d)
  }

  lemma VisibleDocumentIsSeen(writes: Collections, db: Database, ts: U64, c: CollectionId, d: DocumentId)
    requires DocumentRows(db)
    ensures VisibleDocument(writes, db, ts, c, d) == Success(Seen(writes, db, ts, c, d))
  {
    StoredIsVisible(db, ts, c, d);
  }

  // --------------------------------------------------------- recorded documents

  lemma IdOrder()
    ensures StrictOrder(IdLess) && Connected(IdLess)
  {
  }

  lemma EntryOrder(direction: Direction)
    ensures StrictOrder(Toward(EntryLess, direction))
  {
    TowardStrict(EntryLess, direction);
  }

  ghost predicate RecordedEntry(writes: Collections, c: CollectionId, start: CursorStart<DocumentId>,
                                direction: Direction, e: DocumentEntry) {
    Accepts(IdLess, start, direction, e.id) && DocumentWriteOf(writes, c, e.id) == Some(DocumentPut(e.value))
  }

  /** The accepted puts among the ids, in the order of the ids. */
  function PutsAt(documents: map<DocumentId, DocumentWrite>, start: CursorStart<DocumentId>, direction: Direction,
                  ids: seq<DocumentId>): seq<DocumentEntry>
    requires forall d | d in ids :: d in documents
  {
    if ids == [] then []
    else
      var id := ids[|ids| - 1];
      PutsAt(documents, start, direction, ids[..|ids| - 1])
      + (if Accepts(IdLess, start, direction, id) && documents[id].DocumentPut?
        then [DocumentEntry(id, documents[id].value)] else [])
  }

  lemma {:induction false} PutsAtMeaning(documents: map<DocumentId, DocumentWrite>, start: CursorStart<DocumentId>,
                                         direction: Direction, ids: seq<DocumentId>)
    requires (forall d | d in ids :: d in documents) && Sorted(IdLess, ids)
    ensures Sorted(EntryLess, PutsAt(documents, start, direction, ids))
    ensures forall e :: e in PutsAt(documents, start, direction, ids) <==>
      && e.id in ids && Accepts(IdLess, start, direction, e.id)
      && documents[e.id] == DocumentPut(e.value)
  {
    if ids != [] {
      var last, init := ids[|ids| - 1], ids[..|ids| - 1];
      PutsAtMeaning(documents, start, direction, init);
      assert ids == init + [last];
      var before := PutsAt(documents, start, direction, init);
      forall e | e in before ensures e.id < last {
        var k :| 0 <= k < |init| && init[k] == e.id;
        assert IdLess(ids[k], ids[|ids| - 1]);
      }
    }
  }

  lemma PutsAtStep(documents: map<DocumentId, DocumentWrite>, start: CursorStart<DocumentId>, direction: Direction,
                   ids: seq<DocumentId>, k: nat)
    requires (forall d | d in ids :: d in documents) && k < |ids|
    ensures ids[k] in documents
    ensures PutsAt(documents, start, direction, ids[..k + 1])
         == PutsAt(documents, start, direction, ids[..k])
            + (if Accepts(IdLess, start, direction, ids[k]) && documents[ids[k]].DocumentPut?
               then [DocumentEntry(ids[k], documents[ids[k]].value)] else [])
  {
    assert ids[..k + 1][..k] == ids[..k];
  }

  /** The recorded puts on the requested side of the start in cursor order, and every recorded id. */
  method OverlayDocumentEntries(writes: Collections, c: CollectionId, start: CursorStart<DocumentId>,
                                direction: Direction)
      returns (entries: seq<DocumentEntry>, touched: set<DocumentId>)
    ensures Sorted(Toward(EntryLess, direction), entries)
    ensures forall e :: e in entries <==> RecordedEntry(writes, c, start, direction, e)
    ensures forall d :: d in touched <==> DocumentWriteOf(writes, c, d).Some?
  {
    if c !in writes {
      return [], {};
    }
    var documents := writes[c].documents;
    touched := documents.Keys;
    IdOrder();
    var ids := Enumerate(IdLess, documents.Keys);
    entries := [];
    var i := 0;
    while i < |ids|
      invariant 0 <= i <= |ids| && entries == PutsAt(documents, start, direction, ids[..i])
    {
      var id := ids[i];
      PutsAtStep(documents, start, direction, ids, i);
      if Accepts(IdLess, start, direction, id) && documents[id].DocumentPut? {
        entries := entries + [DocumentEntry(id, documents[id].value)];
      }
      i := i + 1;
    }
    assert ids[..i] == ids;
    PutsAtMeaning(documents, start, direction, ids);
    DirectedSorted(EntryLess, direction, entries);
    if direction.Reverse? {
      entries := Sequences.Reverse(entries);
    }
  }

  // ------------------------------------------------------------ recorded positions

  function PositionOfEntry(e: IndexEntry): IndexPosition {
    IndexPosition(e.value, e.documentId)
  }

  predicate IndexEntryLess(a: IndexEntry, b: IndexEntry) {
    PositionLess(PositionOfEntry(a), PositionOfEntry(b))
  }

  lemma IndexEntryOrder(direction: Direction)
    ensures StrictOrder(Toward(IndexEntryLess, direction))
  {
    PositionOrder();
    assert StrictOrder(IndexEntryLess) by {
      forall a, b, c | IndexEntryLess(a, b) && IndexEntryLess(b, c) ensures IndexEntryLess(a, c) {
        assert PositionLess(PositionOfEntry(a), PositionOfEntry(b))
          && PositionLess(PositionOfEntry(b), PositionOfEntry(c));
      }
      forall a ensures !IndexEntryLess(a, a) {
        assert !PositionLess(PositionOfEntry(a), PositionOfEntry(a));
      }
    }
    TowardStrict(IndexEntryLess, direction);
  }

  ghost predicate RecordedPosition(writes: Collections, db: Database, ts: U64, c: CollectionId, i: IndexId,
                                   start: CursorStart<IndexPosition>, direction: Direction, e: IndexEntry)
    requires DocumentRows(db)
  {
    && IndexWriteOf(writes, c, i, PositionOfEntry(e)) == Some(IndexPut)
    && Accepts(PositionLess, start, direction, PositionOfEntry(e))
    && Seen(writes, db, ts, c, e.documentId) == Some(e.documentValue)
  }

  /** The accepted puts with a live document among the positions, in the order of the positions. */
  ghost function LivePutsAt(writes: Collections, db: Database, ts: U64, c: CollectionId, i: IndexId,
                            start: CursorStart<IndexPosition>, direction: Direction,
                            positions: seq<IndexPosition>): seq<IndexEntry>
    requires DocumentRows(db)
  {
    if positions == [] then []
    else
      var p := positions[|positions| - 1];
      var seen := Seen(writes, db, ts, c, p.documentId);
      LivePutsAt(writes, db, ts, c, i, start, direction, positions[..|positions| - 1])
      + (if IndexWriteOf(writes, c, i, p) == Some(IndexPut) && Accepts(PositionLess, start, direction, p) && seen.Some?
         then [IndexEntry(p.value, p.documentId, seen.value)] else [])
  }

  lemma {:induction false} LivePutsAtMeaning(writes: Collections, db: Database, ts: U64, c: CollectionId, i: IndexId,
                                             start: CursorStart<IndexPosition>, direction: Direction,
                                             positions: seq<IndexPosition>)
    requires DocumentRows(db) && Sorted(PositionLess, positions)
    ensures Sorted(IndexEntryLess, LivePutsAt(writes, db, ts, c, i, start, direction, positions))
    ensures forall e :: e in LivePutsAt(writes, db, ts, c, i, start, direction, positions)
                   <==> PositionOfEntry(e) in positions && RecordedPosition(writes, db, ts, c, i, start, direction, e)
  {
    if positions != [] {
      var last, init := positions[|positions| - 1], positions[..|positions| - 1];
      LivePutsAtMeaning(writes, db, ts, c, i, start, direction, init);
      assert positions == init + [last];
      var before := LivePutsAt(writes, db, ts, c, i, start, direction, init);
      forall e | e in before ensures PositionLess(PositionOfEntry(e), last) {
        var k :| 0 <= k < |init| && init[k] == PositionOfEntry(e);
        assert PositionLess(positions[k], positions[|positions| - 1]);
      }
    }
  }

  lemma LivePutsAtStep(writes: Collections, db: Database, ts: U64, c: CollectionId, i: IndexId,
                       start: CursorStart<IndexPosition>, direction: Direction, positions: seq<IndexPosition>, k: nat)
    requires DocumentRows(db) && k < |positions|
    ensures var p := positions[k];
      var seen := Seen(writes, db, ts, c, p.documentId);
      LivePutsAt(writes, db, ts, c, i, start, direction, positions[..k + 1])
      == LivePutsAt(writes, db, ts, c, i, start, direction, positions[..k])
         + (if IndexWriteOf(writes, c, i, p) == Some(IndexPut) && Accepts(PositionLess, start, direction, p)
           && seen.Some?
            then [IndexEntry(p.value, p.documentId, seen.value)] else [])
  {
    assert positions[..k + 1][..k] == positions[..k];
  }

  /** The recorded puts whose document is live under the overlay, in cursor order, and every recorded position. */
  method OverlayIndexEntries(writes: Collections, db: Database, ts: U64, c: CollectionId, i: IndexId,
                             start: CursorStart<IndexPosition>, direction: Direction)
      returns (entries: seq<IndexEntry>, touched: set<IndexPosition>)
    requires DocumentRows(db)
    ensures Sorted(Toward(IndexEntryLess, direction), entries)
    ensures forall e :: e in entries <==> RecordedPosition(writes, db, ts, c, i, start, direction, e)
    ensures forall p :: p in touched <==> IndexWriteOf(writes, c, i, p).Some?
  {
    if c !in writes || i !in writes[c].indexEntries {
      return [], {};
    }
    var indexWrites := writes[c].indexEntries[i];
    touched := indexWrites.Keys;
    PositionOrder();
    var positions := Enumerate(PositionLess, indexWrites.Keys);
    entries := [];
    var k := 0;
    while k < |positions|
      invariant 0 <= k <= |positions|
      invariant entries == LivePutsAt(writes, db, ts, c, i, start, direction, positions[..k])
    {
      var p := positions[k];
      assert p in positions;
      LivePutsAtStep(writes, db, ts, c, i, start, direction, positions, k);
      k := k + 1;
      VisibleDocumentIsSeen(writes, db, ts, c, p.documentId);
      if indexWrites[p] != IndexPut || !Accepts(PositionLess, start, direction, p) {
        continue;
      }
      var value := VisibleDocument(writes, db, ts, c, p.documentId).value;
      if value.Some? {
        entries := entries + [IndexEntry(p.value, p.documentId, value.value)];
      }
    }
    assert positions[..k] == positions;
    LivePutsAtMeaning(writes, db, ts, c, i, start, direction, positions);
    DirectedSorted(IndexEntryLess, direction, entries);
    if direction.Reverse? {
      entries := Sequences.Reverse(entries);
    }
  }
}
