/** The changes a transaction records: the last write to each key wins (crates/storage/src/write_set.rs). */
module WriteSets {
  import opened ByteStrings
  import opened Types
  import opened HeedEncoding
  import opened Sequences

  datatype DocumentWrite = DocumentPut(value: Bytes) | DocumentDeleted

  datatype IndexWrite = IndexPut | IndexDeleted

  datatype IndexCatalogWrite = IndexCatalogWrite(name: Name, metadata: Bytes)

  datatype CollectionWriteSet = CollectionWriteSet(
    documents: map<DocumentId, DocumentWrite>,
    indexEntries: map<IndexId, map<IndexPosition, IndexWrite>>,
    metadata: Option<Bytes>)

  type Collections = map<CollectionId, CollectionWriteSet>

  /** The contents of a write set. */
  datatype Batch = Batch(
    collections: Collections,
    newCollections: map<CollectionId, Name>,
    newIndexes: map<CollectionId, map<IndexId, IndexCatalogWrite>>,
    ts: U64)

  const NO_WRITES := CollectionWriteSet(map[], map[], None)

  predicate SignedLess(a: I64, b: I64) {
    a < b
  }

  /** Ascending iteration over the keys of a map. */
  function Ids(ids: set<I64>): (s: seq<I64>)
    ensures forall x :: x in s <==> x in ids
  {
    Enumerate(SignedLess, ids)
  }

  // -------------------------------------------------------------- what is recorded

  /** The collection's writes; an unrecorded collection has none. */
  function Recorded(collections: Collections, c: CollectionId): CollectionWriteSet {
    if c in collections then collections[c] else NO_WRITES
  }

  function IndexWrites(collections: Collections, c: CollectionId, i: IndexId): map<IndexPosition, IndexWrite> {
    var entries := Recorded(collections, c).indexEntries;
    if i in entries then entries[i] else map[]
  }

  function DocumentWriteOf(collections: Collections, c: CollectionId, d: DocumentId): Option<DocumentWrite> {
    var documents := Recorded(collections, c).documents;
    if d in documents then Some(documents[d]) else None
  }

  function IndexWriteOf(collections: Collections, c: CollectionId, i: IndexId, p: IndexPosition): Option<IndexWrite> {
    var entries := IndexWrites(collections, c, i);
    if p in entries then Some(entries[p]) else None
  }

  // --------------------------------------------------------------------- recording

  function WithDocument(collections: Collections, c: CollectionId, d: DocumentId, w: DocumentWrite): Collections {
    var writes := Recorded(collections, c);
    collections[c := writes.(documents := writes.documents[d := w])]
  }

  function WithIndexWrite(collections: Collections, c: CollectionId, i: IndexId, p: IndexPosition,
                          w: IndexWrite): Collections {
    var writes := Recorded(collections, c);
    collections[c := writes.(indexEntries := writes.indexEntries[i := IndexWrites(collections, c, i)[p := w]])]
  }

  /** Bulk recording touches the collection even when nothing is listed. */
  function WithDocuments(collections: Collections, c: CollectionId,
                         list: seq<(DocumentId, DocumentWrite)>): Collections {
    if list == [] then collections[c := Recorded(collections, c)]
    else
      var last := |list| - 1;
      WithDocument(WithDocuments(collections, c, list[..last]), c, list[last].0, list[last].1)
  }

  /** The listed documents as puts. */
  function Puts(documents: seq<(DocumentId, Bytes)>): seq<(DocumentId, DocumentWrite)> {
    seq(|documents|, i requires 0 <= i < |documents| => (documents[i].0, DocumentPut(documents[i].1)))
  }

  function Deletions(keys: seq<DocumentId>): seq<(DocumentId, DocumentWrite)> {
    seq(|keys|, i requires 0 <= i < |keys| => (keys[i], DocumentDeleted))
  }

  function WithIndexWrites(collections: Collections, c: CollectionId, list: seq<(IndexId, IndexPosition)>,
                           w: IndexWrite): Collections {
    if list == [] then collections[c := Recorded(collections, c)]
    else
      var last := |list| - 1;
      WithIndexWrite(WithIndexWrites(collections, c, list[..last], w), c, list[last].0, list[last].1, w)
  }

  class WriteSet {
    var collections: Collections
    var newCollections: map<CollectionId, Name>
    var newIndexes: map<CollectionId, map<IndexId, IndexCatalogWrite>>
    var ts: U64

    function Contents(): Batch
      reads this
    {
      Batch(collections, newCollections, newIndexes, ts)
    }

    constructor (ts: U64)
      ensures collections == map[] && newCollections == map[] && newIndexes == map[] && this.ts == ts
    {
      collections, newCollections, newIndexes, this.ts := map[], map[], map[], ts;
    }

    method Put(c: CollectionId, key: DocumentId, value: Bytes)
      modifies this`collections
      ensures collections == WithDocument(old(collections), c, key, DocumentPut(value))
    {
      CollectionMut(c);
      var documents := collections[c].documents[key := DocumentPut(value)];
      collections := collections[c := collections[c].(documents := documents)];
    }

    method PutMany(c: CollectionId, documents: seq<(DocumentId, Bytes)>)
      modifies this`collections
      ensures collections == WithDocuments(old(collections), c, Puts(documents))
      ensures PutsRecorded(old(collections), collections, c, documents)
    {
      PutManyRecords(collections, c, documents);
      CollectionMut(c);
      ghost var list := Puts(documents);
      var i := 0;
      while i < |documents|
        invariant 0 <= i <= |documents|
        invariant c in collections && collections == WithDocuments(old(collections), c, list[..i])
      {
        assert list[..i + 1][..i] == list[..i];
        var (key, value) := documents[i];
        var written := collections[c].documents[key := DocumentPut(value)];
        collections := collections[c := collections[c].(documents := written)];
        i := i + 1;
      }
      assert list[..i] == list;
    }

    method Delete(c: CollectionId, key: DocumentId)
      modifies this`collections
      ensures collections == WithDocument(old(collections), c, key, DocumentDeleted)
    {
      CollectionMut(c);
      collections := collections[c := collections[c].(documents := collections[c].documents[key := DocumentDeleted])];
    }

    method DeleteMany(c: CollectionId, keys: seq<DocumentId>)
      modifies this`collections
      ensures collections == WithDocuments(old(collections), c, Deletions(keys))
      ensures DeletionsRecorded(old(collections), collections, c, keys)
    {
      DeleteManyRecords(collections, c, keys);
      CollectionMut(c);
      ghost var list := Deletions(keys);
      var i := 0;
      while i < |keys|
        invariant 0 <= i <= |keys|
        invariant c in collections && collections == WithDocuments(old(collections), c, list[..i])
      {
        assert list[..i + 1][..i] == list[..i];
        var written := collections[c].documents[keys[i] := DocumentDeleted];
        collections := collections[c := collections[c].(documents := written)];
        i := i + 1;
      }
      assert list[..i] == list;
    }

    method WriteIndexEntry(c: CollectionId, i: IndexId, key: Bytes, d: DocumentId, w: IndexWrite)
      modifies this`collections
      ensures collections == WithIndexWrite(old(collections), c, i, IndexPosition(key, d), w)
    {
      CollectionMut(c);
      InsertIndexWrite(c, i, IndexPosition(key, d), w);
    }

    method PutIndexEntry(c: CollectionId, i: IndexId, key: Bytes, d: DocumentId)
      modifies this`collections
      ensures collections == WithIndexWrite(old(collections), c, i, IndexPosition(key, d), IndexPut)
    {
      WriteIndexEntry(c, i, key, d, IndexPut);
    }

    method DeleteIndexEntry(c: CollectionId, i: IndexId, key: Bytes, d: DocumentId)
      modifies this`collections
      ensures collections == WithIndexWrite(old(collections), c, i, IndexPosition(key, d), IndexDeleted)
    {
      WriteIndexEntry(c, i, key, d, IndexDeleted);
    }

    /** `put_index_entries` and `delete_index_entries`, which differ only in the write they insert. */
    method WriteIndexEntries(c: CollectionId, entries: seq<(IndexId, IndexPosition)>, w: IndexWrite)
      modifies this`collections
      ensures collections == WithIndexWrites(old(collections), c, entries, w)
    {
      CollectionMut(c);
      var k := 0;
      while k < |entries|
        invariant 0 <= k <= |entries|
        invariant c in collections && collections == WithIndexWrites(old(collections), c, entries[..k], w)
      {
        assert entries[..k + 1][..k] == entries[..k];
        InsertIndexWrite(c, entries[k].0, entries[k].1, w);
        k := k + 1;
      }
      assert entries[..k] == entries;
    }

    method NewCollection(c: CollectionId, name: Name)
      modifies this`newCollections
      ensures newCollections == old(newCollections)[c := name]
    {
      newCollections := newCollections[c := name];
    }

    method NewIndex(c: CollectionId, i: IndexId, name: Name, metadata: Bytes)
      modifies this`newIndexes
      ensures newIndexes == old(newIndexes)[c :=
        (if c in old(newIndexes) then old(newIndexes)[c] else map[])[i := IndexCatalogWrite(name, metadata)]]
    {
      var indexes := if c in newIndexes then newIndexes[c] else map[];
      newIndexes := newIndexes[c := indexes[i := IndexCatalogWrite(name, metadata)]];
    }

    method UpdateCollectionMetadata(c: CollectionId, metadata: Bytes)
      modifies this`collections
      ensures collections == old(collections)[c := Recorded(old(collections), c).(metadata := Some(metadata))]
    {
      CollectionMut(c);
      collections := collections[c := collections[c].(metadata := Some(metadata))];
    }

    /** The entry for a collection, created empty if it is missing. */
    method CollectionMut(c: CollectionId)
      modifies this`collections
      ensures c in collections && collections == old(collections)[c := Recorded(old(collections), c)]
    {
      if c !in collections {
        collections := collections[c := NO_WRITES];
      }
    }

    method InsertIndexWrite(c: CollectionId, i: IndexId, p: IndexPosition, w: IndexWrite)
      requires c in collections
      modifies this`collections
      ensures c in collections && collections == WithIndexWrite(old(collections), c, i, p, w)
    {
      var writes := collections[c];
      var entries := if i in writes.indexEntries then writes.indexEntries[i] else map[];
      collections := collections[c := writes.(indexEntries := writes.indexEntries[i := entries[p := w]])];
    }
  }

  // ------------------------------------------------------------------ last write wins

  function LastWrite(list: seq<(DocumentId, DocumentWrite)>, d: DocumentId): Option<DocumentWrite> {
    if list == [] then None
    else if list[|list| - 1].0 == d then Some(list[|list| - 1].1)
    else LastWrite(list[..|list| - 1], d)
  }

  /** A bulk write decides each listed document by its last occurrence and leaves every other write alone. */
  lemma {:induction false} LastDocumentWriteWins(
      collections: Collections, c: CollectionId, list: seq<(DocumentId, DocumentWrite)>, c': CollectionId,
      d: DocumentId, i: IndexId)
    ensures var after := WithDocuments(collections, c, list);
      && DocumentWriteOf(after, c', d) ==
           (if c' == c && LastWrite(list, d).Some? then LastWrite(list, d) else DocumentWriteOf(collections, c', d))
      && IndexWrites(after, c', i) == IndexWrites(collections, c', i)
      && Recorded(after, c').metadata == Recorded(collections, c').metadata
  {
    if list != [] {
      LastDocumentWriteWins(collections, c, list[..|list| - 1], c', d, i);
    }
  }

  /** Only documents of the collection are written anew; the collection is touched in any case. */
  ghost predicate OnlyDocuments(before: Collections, after: Collections, c: CollectionId) {
    && after.Keys == before.Keys + {c}
    && (forall c' | c' in before && c' != c :: after[c'] == before[c'])
    && after[c].indexEntries == Recorded(before, c).indexEntries && after[c].metadata == Recorded(before, c).metadata
  }

  /** Each listed document is put with its last listed value, and no other write changes. */
  ghost predicate PutsRecorded(before: Collections, after: Collections, c: CollectionId,
                               documents: seq<(DocumentId, Bytes)>) {
    && OnlyDocuments(before, after, c)
    && (forall i | 0 <= i < |documents| && (forall j | i < j < |documents| :: documents[j].0 != documents[i].0) ::
         DocumentWriteOf(after, c, documents[i].0) == Some(DocumentPut(documents[i].1)))
    && forall d | (forall i | 0 <= i < |documents| :: documents[i].0 != d) ::
         DocumentWriteOf(after, c, d) == DocumentWriteOf(before, c, d)
  }

  /** Exactly the listed documents are deleted, and no other write changes. */
  ghost predicate DeletionsRecorded(before: Collections, after: Collections, c: CollectionId, keys: seq<DocumentId>) {
    && OnlyDocuments(before, after, c)
    && forall d :: DocumentWriteOf(after, c, d)
                == if d in keys then Some(DocumentDeleted) else DocumentWriteOf(before, c, d)
  }

  lemma {:induction false} OnlyDocumentsWritten(before: Collections, c: CollectionId,
                                                list: seq<(DocumentId, DocumentWrite)>)
    ensures OnlyDocuments(before, WithDocuments(before, c, list), c)
  {
    if list != [] {
      OnlyDocumentsWritten(before, c, list[..|list| - 1]);
    }
  }

  lemma {:induction false} LastWriteAt(list: seq<(DocumentId, DocumentWrite)>, i: nat)
    requires i < |list| && forall j | i < j < |list| :: list[j].0 != list[i].0
    ensures LastWrite(list, list[i].0) == Some(list[i].1)
    decreases |list|
  {
    if i < |list| - 1 {
      assert list[..|list| - 1][i] == list[i];
      LastWriteAt(list[..|list| - 1], i);
    }
  }

  lemma {:induction false} NoLastWrite(list: seq<(DocumentId, DocumentWrite)>, d: DocumentId)
    requires forall i | 0 <= i < |list| :: list[i].0 != d
    ensures LastWrite(list, d) == None
    decreases |list|
  {
    if list != [] {
      NoLastWrite(list[..|list| - 1], d);
    }
  }

  lemma PutManyRecords(before: Collections, c: CollectionId, documents: seq<(DocumentId, Bytes)>)
    ensures PutsRecorded(before, WithDocuments(before, c, Puts(documents)), c, documents)
  {
    var list := Puts(documents);
    OnlyDocumentsWritten(before, c, list);
    forall i | 0 <= i < |documents| && (forall j | i < j < |documents| :: documents[j].0 != documents[i].0)
      ensures DocumentWriteOf(WithDocuments(before, c, list), c, documents[i].0) == Some(DocumentPut(documents[i].1))
    {
      assert list[i] == (documents[i].0, DocumentPut(documents[i].1));
      LastWriteAt(list, i);
      LastDocumentWriteWins(before, c, list, c, documents[i].0, 0);
    }
    forall d | forall i | 0 <= i < |documents| :: documents[i].0 != d
      ensures DocumentWriteOf(WithDocuments(before, c, list), c, d) == DocumentWriteOf(before, c, d)
    {
      NoLastWrite(list, d);
      LastDocumentWriteWins(before, c, list, c, d, 0);
    }
  }

  lemma {:induction false} LastDeletion(list: seq<(DocumentId, DocumentWrite)>, d: DocumentId, i: nat)
    requires (forall j | 0 <= j < |list| :: list[j].1 == DocumentDeleted) && i < |list| && list[i].0 == d
    ensures LastWrite(list, d) == Some(DocumentDeleted)
    decreases |list|
  {
    var last := |list| - 1;
    if list[last].0 != d {
      LastDeletion(list[..last], d, i);
    }
  }

  lemma DeleteManyRecords(before: Collections, c: CollectionId, keys: seq<DocumentId>)
    ensures DeletionsRecorded(before, WithDocuments(before, c, Deletions(keys)), c, keys)
  {
    var list := Deletions(keys);
    OnlyDocumentsWritten(before, c, list);
    forall d
      ensures DocumentWriteOf(WithDocuments(before, c, list), c, d)
           == if d in keys then Some(DocumentDeleted) else DocumentWriteOf(before, c, d)
    {
      LastDocumentWriteWins(before, c, list, c, d, 0);
      if d in keys {
        var i :| 0 <= i < |keys| && keys[i] == d;
        LastDeletion(list, d, i);
      } else {
        NoLastWrite(list, d);
      }
    }
  }

  /** A bulk index write decides exactly the listed positions. */
  lemma {:induction false} IndexWritesWin(
      collections: Collections, c: CollectionId, list: seq<(IndexId, IndexPosition)>, w: IndexWrite, c': CollectionId,
      i: IndexId, p: IndexPosition, d: DocumentId)
    ensures var after := WithIndexWrites(collections, c, list, w);
      && IndexWriteOf(after, c', i, p)
         == (if c' == c && (i, p) in list then Some(w) else IndexWriteOf(collections, c', i, p))
      && DocumentWriteOf(after, c', d) == DocumentWriteOf(collections, c', d)
      && Recorded(after, c').metadata == Recorded(collections, c').metadata
  {
    if list != [] {
      var last := |list| - 1;
      IndexWritesWin(collections, c, list[..last], w, c', i, p, d);
      assert list == list[..last] + [list[last]];
    }
  }
}
