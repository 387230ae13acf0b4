/** What the start and the direction of a cursor mean, told by comparing ids, positions and names. */
module CursorStarts {
  import opened ByteStrings
  import opened Types
  import opened Sequences
  import opened DocumentCursors
  import opened Documents
  import opened WriteSets
  import opened IndexTrie
  import opened IndexTraversal
  import opened TrieStorage
  import opened Databases
  import opened CatalogCursors
  import opened Overlays
  import opened Transactions
  import opened Engines
  import opened CatalogHistory

  // ---------------------------------------------------------------- one element

  /** A start asks for the ids from it on, or after it, in the direction of the cursor. */
  lemma IdStart(start: CursorStart<DocumentId>, direction: Direction, d: DocumentId)
    ensures Accepts(IdLess, start, direction, d) <==>
      && (start.Included? ==> if direction.Forward? then d >= start.at else d <= start.at)
      && (start.Excluded? ==> if direction.Forward? then d > start.at else d < start.at)
  {
  }

  /** The same for index positions, ordered by value and then by document. */
  lemma PositionStart(start: CursorStart<IndexPosition>, direction: Direction, p: IndexPosition)
    ensures Accepts(PositionLess, start, direction, p) <==>
      && (start.Included? ==>
          p == start.at || if direction.Forward? then PositionLess(start.at, p) else PositionLess(p, start.at))
      && (start.Excluded? ==> if direction.Forward? then PositionLess(start.at, p) else PositionLess(p, start.at))
  {
  }

  /** The same for names. */
  lemma NameStart(start: CursorStart<Bytes>, direction: Direction, name: Bytes)
    ensures Accepts(Less, start, direction, name) <==>
      && (start.Included? ==> if direction.Forward? then AtMost(start.at, name) else AtMost(name, start.at))
      && (start.Excluded? ==> if direction.Forward? then Less(start.at, name) else Less(name, start.at))
  {
  }

  // ------------------------------------------------------------------- documents

  /** A document result holds the live documents on the requested side of the start, ids ascending or descending. */
  lemma DocumentsFrom(writes: Collections, db: Databases, ts: U64, c: CollectionId, start: CursorStart<DocumentId>,
                      direction: Direction, out: seq<DocumentEntry>)
    requires DocumentRows(db.documents) && IsDocumentResult(writes, db, ts, c, start, direction, out)
    ensures direction.Forward? ==> forall i, j | 0 <= i < j < |out| :: out[i].id < out[j].id
    ensures direction.Reverse? ==> forall i, j | 0 <= i < j < |out| :: out[i].id > out[j].id
    ensures forall e :: e in out <==>
      && Seen(writes, db.documents, ts, c, e.id) == Some(e.value)
      && (start.Included? ==> if direction.Forward? then e.id >= start.at else e.id <= start.at)
      && (start.Excluded? ==> if direction.Forward? then e.id > start.at else e.id < start.at)
  {
    forall i, j | 0 <= i < j < |out|
      ensures if direction.Forward? then out[i].id < out[j].id else out[i].id > out[j].id
    {
      assert Toward(EntryLess, direction)(out[i], out[j]);
      assert if direction.Forward? then EntryLess(out[i], out[j]) else EntryLess(out[j], out[i]);
    }
  }

  /**
   The whole listing is what lies before a document, met backwards, followed by what starts with it; and what ends with
   it, met backwards, followed by what lies after it.
   */
  lemma DocumentsSplit(writes: Collections, db: Databases, ts: U64, c: CollectionId, at: DocumentId,
                       all: seq<DocumentEntry>, before: seq<DocumentEntry>, upTo: seq<DocumentEntry>,
                       from: seq<DocumentEntry>, after: seq<DocumentEntry>)
    requires DocumentRows(db.documents)
    requires IsDocumentResult(writes, db, ts, c, Unbounded, Forward, all)
    requires IsDocumentResult(writes, db, ts, c, Excluded(at), Direction.Reverse, before)
    requires IsDocumentResult(writes, db, ts, c, Included(at), Direction.Reverse, upTo)
    requires IsDocumentResult(writes, db, ts, c, Included(at), Forward, from)
    requires IsDocumentResult(writes, db, ts, c, Excluded(at), Forward, after)
    ensures all == Sequences.Reverse(before) + from == Sequences.Reverse(upTo) + after
  {
    DocumentsFrom(writes, db, ts, c, Unbounded, Forward, all);
    DocumentsFrom(writes, db, ts, c, Excluded(at), Direction.Reverse, before);
    DocumentsFrom(writes, db, ts, c, Included(at), Direction.Reverse, upTo);
    DocumentsFrom(writes, db, ts, c, Included(at), Forward, from);
    DocumentsFrom(writes, db, ts, c, Excluded(at), Forward, after);
    EntryOrder(Forward);
    SortedSplit(EntryLess, all, before, from);
    SortedSplit(EntryLess, all, upTo, after);
  }

  // --------------------------------------------------------------- index entries

  /** An index result holds the seen positions with live documents on the requested side of the start, in order. */
  lemma EntriesFrom(writes: Collections, db: Databases, ts: U64, c: CollectionId, i: IndexId,
                    start: CursorStart<IndexPosition>, direction: Direction, out: seq<IndexEntry>)
    requires DocumentRows(db.documents) && EdgeRows(db.indexEdges) && LeafRows(db.indexLeaves)
    requires IsIndexResult(writes, db, ts, c, i, start, direction, out)
    ensures direction.Forward? ==>
      forall j, k | 0 <= j < k < |out| :: PositionLess(PositionOfEntry(out[j]), PositionOfEntry(out[k]))
    ensures direction.Reverse? ==>
      forall j, k | 0 <= j < k < |out| :: PositionLess(PositionOfEntry(out[k]), PositionOfEntry(out[j]))
    ensures forall e :: e in out <==>
      && SeenPosition(writes, db, c, i, IndexPosition(e.value, e.documentId))
      && Seen(writes, db.documents, ts, c, e.documentId) == Some(e.documentValue)
      && var p := IndexPosition(e.value, e.documentId);
         && (start.Included? ==>
             p == start.at || if direction.Forward? then PositionLess(start.at, p) else PositionLess(p, start.at))
         && (start.Excluded? ==>
             if direction.Forward? then PositionLess(start.at, p) else PositionLess(p, start.at))
  {
    forall j, k | 0 <= j < k < |out|
      ensures if direction.Forward? then IndexEntryLess(out[j], out[k]) else IndexEntryLess(out[k], out[j])
    {
      assert Toward(IndexEntryLess, direction)(out[j], out[k]);
    }
    forall e: IndexEntry ensures PositionOfEntry(e) == IndexPosition(e.value, e.documentId) {
    }
  }

  lemma EntriesSplit(writes: Collections, db: Databases, ts: U64, c: CollectionId, i: IndexId, at: IndexPosition,
                     all: seq<IndexEntry>, before: seq<IndexEntry>, upTo: seq<IndexEntry>,
                     from: seq<IndexEntry>, after: seq<IndexEntry>)
    requires DocumentRows(db.documents) && EdgeRows(db.indexEdges) && LeafRows(db.indexLeaves)
    requires IsIndexResult(writes, db, ts, c, i, Unbounded, Forward, all)
    requires IsIndexResult(writes, db, ts, c, i, Excluded(at), Direction.Reverse, before)
    requires IsIndexResult(writes, db, ts, c, i, Included(at), Direction.Reverse, upTo)
    requires IsIndexResult(writes, db, ts, c, i, Included(at), Forward, from)
    requires IsIndexResult(writes, db, ts, c, i, Excluded(at), Forward, after)
    ensures all == Sequences.Reverse(before) + from == Sequences.Reverse(upTo) + after
  {
    EntriesFrom(writes, db, ts, c, i, Unbounded, Forward, all);
    EntriesFrom(writes, db, ts, c, i, Excluded(at), Direction.Reverse, before);
    EntriesFrom(writes, db, ts, c, i, Included(at), Direction.Reverse, upTo);
    EntriesFrom(writes, db, ts, c, i, Included(at), Forward, from);
    EntriesFrom(writes, db, ts, c, i, Excluded(at), Forward, after);
    PositionsApart(at);
    IndexEntryOrder(Forward);
    SortedSplit(IndexEntryLess, all, before, from);
    SortedSplit(IndexEntryLess, all, upTo, after);
  }

  lemma PositionsApart(at: IndexPosition)
    ensures forall p, q | PositionLess(p, at) && PositionLess(at, q) :: PositionLess(p, q)
    ensures forall p :: PositionLess(p, at) || p == at || PositionLess(at, p)
  {
    PositionOrder();
  }

  // ----------------------------------------------------------------------- names

  /** The visible collections on the requested side of the start, names ascending or descending in byte order. */
  ghost predicate ListsFrom(db: Databases, ts: U64, start: CursorStart<Bytes>, direction: Direction,
                            out: seq<CollectionEntry>) {
    && (direction.Forward? ==> forall i, j | 0 <= i < j < |out| :: Less(out[i].name, out[j].name))
    && (direction.Reverse? ==> forall i, j | 0 <= i < j < |out| :: Less(out[j].name, out[i].name))
    && forall x :: x in out <==>
         && ShowsCollection(db, ts, x)
         && (start.Included? ==> if direction.Forward? then AtMost(start.at, x.name) else AtMost(x.name, start.at))
         && (start.Excluded? ==> if direction.Forward? then Less(start.at, x.name) else Less(x.name, start.at))
  }

  /** That is what the catalog cursor lists. */
  lemma CollectionsFrom(e: Engine, ts: U64, start: CursorStart<Bytes>, direction: Direction)
    requires EngineOk(e)
    ensures ListsFrom(e.committed, ts, start, direction, Listing(e.committed, ts, start, direction))
  {
    var out := Listing(e.committed, ts, start, direction);
    ListingMeaning(e, ts, start, direction);
    forall i, j | 0 <= i < j < |out|
      ensures if direction.Forward? then NameLess(out[i], out[j]) else NameLess(out[j], out[i])
    {
      assert Toward(NameLess, direction)(out[i], out[j]);
    }
  }

  lemma NamesSplit(db: Databases, ts: U64, at: Bytes, all: seq<CollectionEntry>, before: seq<CollectionEntry>,
                   upTo: seq<CollectionEntry>, from: seq<CollectionEntry>, after: seq<CollectionEntry>)
    requires ListsFrom(db, ts, Unbounded, Forward, all)
    requires ListsFrom(db, ts, Excluded(at), Direction.Reverse, before)
    requires ListsFrom(db, ts, Included(at), Direction.Reverse, upTo)
    requires ListsFrom(db, ts, Included(at), Forward, from)
    requires ListsFrom(db, ts, Excluded(at), Forward, after)
    ensures all == Sequences.Reverse(before) + from == Sequences.Reverse(upTo) + after
  {
    NamesApart(at);
    NameOrder(Forward);
    SortedSplit(NameLess, all, before, from);
    SortedSplit(NameLess, all, upTo, after);
  }

  /** The catalog listing splits at any name, as documents and index entries do. */
  lemma CollectionsSplit(e: Engine, ts: U64, at: Bytes)
    requires EngineOk(e)
    ensures Listing(e.committed, ts, Unbounded, Forward)
         == Sequences.Reverse(Listing(e.committed, ts, Excluded(at), Direction.Reverse))
            + Listing(e.committed, ts, Included(at), Forward)
    ensures Listing(e.committed, ts, Unbounded, Forward)
         == Sequences.Reverse(Listing(e.committed, ts, Included(at), Direction.Reverse))
            + Listing(e.committed, ts, Excluded(at), Forward)
  {
    CollectionsFrom(e, ts, Unbounded, Forward);
    CollectionsFrom(e, ts, Excluded(at), Direction.Reverse);
    CollectionsFrom(e, ts, Included(at), Direction.Reverse);
    CollectionsFrom(e, ts, Included(at), Forward);
    CollectionsFrom(e, ts, Excluded(at), Forward);
    var all := Listing(e.committed, ts, Unbounded, Forward);
    var before := Listing(e.committed, ts, Excluded(at), Direction.Reverse);
    var upTo := Listing(e.committed, ts, Included(at), Direction.Reverse);
    var from := Listing(e.committed, ts, Included(at), Forward);
    var after := Listing(e.committed, ts, Excluded(at), Forward);
    NamesSplit(e.committed, ts, at, all, before, upTo, from, after);
  }

  lemma NamesApart(at: Bytes)
    ensures forall a, b | Less(a, at) && Less(at, b) :: Less(a, b)
    ensures forall a :: Less(a, at) || a == at || Less(at, a)
  {
    forall a, b | Less(a, at) && Less(at, b) ensures Less(a, b) {
      LessTransitive(a, at, b);
    }
    forall a ensures Less(a, at) || a == at || Less(at, a) {
      LessTotal(a, at);
    }
  }
}
