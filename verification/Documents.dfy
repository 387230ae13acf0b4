/**
 Timestamped documents: the point lookup and what it means (crates/storage/src/implementations/heed/transaction.rs).
 */
module Documents {
  import opened ByteStrings
  import opened Types
  import opened Lmdb
  import opened HeedEncoding

  // ------------------------------------------------------------------ meaning

  /** Every row is a version of a document in a real collection, live or a tombstone. */
  ghost predicate DocumentRows(db: Database) {
    forall k | k in db :: IsDocumentKey(k) && DecodeDocumentValue(db[k]).Success?
  }

  ghost predicate IsDocumentKey(k: Bytes) {
    exists c: CollectionId, d: DocumentId, v: U64 :: c >= 0 && k == EncodeDocumentKey(c, d, v)
  }

  ghost predicate HasVersion(db: Database, c: CollectionId, d: DocumentId, v: U64) {
    EncodeDocumentKey(c, d, v) in db
  }

  ghost function ValueAt(db: Database, c: CollectionId, d: DocumentId, v: U64): Option<Bytes>
    requires DocumentRows(db) && HasVersion(db, c, d, v)
  {
    DecodeDocumentValue(db[EncodeDocumentKey(c, d, v)]).value
  }

  /** `v` is the newest version at or below `ts`. */
  ghost predicate Newest(db: Database, ts: U64, c: CollectionId, d: DocumentId, v: U64) {
    && HasVersion(db, c, d, v) && v <= ts
    && forall w: U64 | HasVersion(db, c, d, w) && w <= ts :: w <= v
  }

  /** The value of the newest version at or below `ts`; none if there is none or it is a tombstone. */
  ghost function Visible(db: Database, ts: U64, c: CollectionId, d: DocumentId): Option<Bytes>
    requires DocumentRows(db)
  {
    if exists v: U64 :: Newest(db, ts, c, d, v) then
      var v: U64 :| Newest(db, ts, c, d, v);
      ValueAt(db, c, d, v)
    else None
  }

  lemma NewestUnique(db: Database, ts: U64, c: CollectionId, d: DocumentId, v: U64, w: U64)
    requires Newest(db, ts, c, d, v) && Newest(db, ts, c, d, w)
    ensures v == w
  {
    assert HasVersion(db, c, d, v) && HasVersion(db, c, d, w);
  }

  lemma VisibleIsNewest(db: Database, ts: U64, c: CollectionId, d: DocumentId, v: U64)
    requires DocumentRows(db) && Newest(db, ts, c, d, v)
    ensures Visible(db, ts, c, d) == ValueAt(db, c, d, v)
  {
    var w: U64 :| Newest(db, ts, c, d, w) && Visible(db, ts, c, d) == ValueAt(db, c, d, w);
    NewestUnique(db, ts, c, d, v, w);
  }

  lemma NothingVisible(db: Database, ts: U64, c: CollectionId, d: DocumentId)
    requires DocumentRows(db)
    requires forall v: U64 | HasVersion(db, c, d, v) :: v > ts
    ensures Visible(db, ts, c, d) == None
  {
  }

  // ------------------------------------------------------------------- lookup

  /** Greatest key at or below `(collection, document, ts)`, if it belongs to the document. */
  function StoredDocument(db: Database, ts: U64, c: CollectionId, d: DocumentId): Result<Option<Bytes>> {
    match GreatestAtMost(db, EncodeDocumentKey(c, d, ts))
    case None => Success(None)
    case Some(row) =>
      match DecodeDocumentKey(row.key)
      case Failure(e) => Failure(e)
      case Success((c', d', v')) =>
        if c' != c || d' != d || v' > ts then Success(None) else DecodeDocumentValue(row.value)
  }

  lemma VersionsOrder(db: Database, c: CollectionId, d: DocumentId, v: U64, w: U64)
    ensures AtMost(EncodeDocumentKey(c, d, v), EncodeDocumentKey(c, d, w)) <==> v <= w
  {
    DocumentKeyOrder(c, d, v, c, d, w);
  }

  /** A key between two versions of a document is a version of that document. */
  lemma BetweenVersions(c: CollectionId, d: DocumentId, v: U64, w: U64, c': CollectionId, d': DocumentId, x: U64)
    requires AtMost(EncodeDocumentKey(c, d, v), EncodeDocumentKey(c', d', x))
    requires AtMost(EncodeDocumentKey(c', d', x), EncodeDocumentKey(c, d, w))
    ensures c' == c && d' == d && v <= x <= w
  {
    DocumentKeyOrder(c, d, v, c', d', x);
    DocumentKeyOrder(c', d', x, c, d, w);
  }

  /** The lookup by greatest key finds the newest version at or below the timestamp. */
  lemma StoredIsVisible(db: Database, ts: U64, c: CollectionId, d: DocumentId)
    requires DocumentRows(db)
    ensures StoredDocument(db, ts, c, d) == Success(Visible(db, ts, c, d))
  {
    var upper := EncodeDocumentKey(c, d, ts);
    var r := GreatestAtMost(db, upper);
    if r.Some? && IsVersionOf(r.value.key, c, d) {
      var v: U64 :| r.value.key == EncodeDocumentKey(c, d, v);
      DocumentKeyRoundTrip(c, d, v);
      VersionsOrder(db, c, d, v, ts);
      forall w: U64 | HasVersion(db, c, d, w) && w <= ts ensures w <= v {
        VersionsOrder(db, c, d, w, ts);
        VersionsOrder(db, c, d, w, v);
      }
      VisibleIsNewest(db, ts, c, d, v);
    } else {
      forall v: U64 | HasVersion(db, c, d, v) ensures v > ts {
        VersionsOrder(db, c, d, v, ts);
        if v <= ts {
          var c', d', v' := KeyParts(r.value.key);
          BetweenVersions(c, d, v, ts, c', d', v');
        }
      }
      NothingVisible(db, ts, c, d);
      if r.Some? {
        var c', d', v' := KeyParts(r.value.key);
        DocumentKeyRoundTrip(c', d', v');
      }
    }
  }

  ghost predicate IsVersionOf(k: Bytes, c: CollectionId, d: DocumentId) {
    exists v: U64 :: k == EncodeDocumentKey(c, d, v)
  }

  lemma KeyParts(k: Bytes) returns (c: CollectionId, d: DocumentId, v: U64)
    requires IsDocumentKey(k)
    ensures c >= 0 && k == EncodeDocumentKey(c, d, v)
  {
    c, d, v :| c >= 0 && k == EncodeDocumentKey(c, d, v);
  }

  // ------------------------------------------------------------------ writing

  /** The effect of one version row on every read: it shadows what was newest at or after its timestamp. */
  lemma PutVersion(db: Database, c: CollectionId, d: DocumentId, v: U64, stored: Bytes)
    requires DocumentRows(db) && c >= 0 && DecodeDocumentValue(stored).Success?
    ensures DocumentRows(db[EncodeDocumentKey(c, d, v) := stored])
  {
    assert IsDocumentKey(EncodeDocumentKey(c, d, v));
  }
}
