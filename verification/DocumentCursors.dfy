/**
 The scanning document cursor, which folds the versions of each document
 (crates/storage/src/implementations/heed/cursors.rs).
 */
module DocumentCursors {
  import opened ByteStrings
  import opened Types
  import opened BigEndian
  import opened Sequences
  import opened Lmdb
  import opened HeedEncoding
  import opened Documents

  // ------------------------------------------------------------------- bounds

  predicate IdLess(a: DocumentId, b: DocumentId) {
    a < b
  }

  function CollectionEndBound(c: CollectionId): Bound {
    if c + 1 < TWO_63 then Exclusive(I64Be(c + 1)) else NoBound
  }

  function DocumentCursorBounds(c: CollectionId, start: CursorStart<DocumentId>, direction: Direction): (Bound, Bound) {
    var collectionStart := Inclusive(I64Be(c));
    var collectionEnd := CollectionEndBound(c);
    match direction
    case Forward => (
      match start
      case Unbounded => (collectionStart, collectionEnd)
      case Included(d) => (Inclusive(EncodeDocumentKey(c, d, 0)), collectionEnd)
      case Excluded(d) => (Exclusive(EncodeDocumentKey(c, d, U64_MAX)), collectionEnd))
    case Reverse => (
      match start
      case Unbounded => (collectionStart, collectionEnd)
      case Included(d) => (collectionStart, Inclusive(EncodeDocumentKey(c, d, U64_MAX)))
      case Excluded(d) => (collectionStart, Exclusive(EncodeDocumentKey(c, d, 0))))
  }

  predicate WithinBounds(key: Bytes, bounds: (Bound, Bound)) {
    Above(key, bounds.0) && Below(key, bounds.1)
  }

  lemma CollectionPrefixOrder(c: CollectionId, c': CollectionId, d: DocumentId, v: U64)
    ensures Less(I64Be(c), EncodeDocumentKey(c', d, v)) <==> Unsigned(c) <= Unsigned(c')
    ensures Less(EncodeDocumentKey(c', d, v), I64Be(c)) <==> Unsigned(c') < Unsigned(c)
    ensures I64Be(c) != EncodeDocumentKey(c', d, v)
  {
    var rest := U128Be(d) + U64Be(v);
    I64Order(c, c');
    I64Order(c', c);
    LessFields(I64Be(c), I64Be(c'), [], rest);
    LessFields(I64Be(c'), I64Be(c), rest, []);
    assert EncodeDocumentKey(c', d, v) == I64Be(c') + rest && I64Be(c) + [] == I64Be(c);
  }

  /** The key bounds select exactly the collection's documents on the requested side of the start. */
  lemma BoundsSelect(c: CollectionId, start: CursorStart<DocumentId>, direction: Direction, c': CollectionId,
                     d: DocumentId, v: U64)
    requires c' >= 0
    ensures WithinBounds(EncodeDocumentKey(c', d, v), DocumentCursorBounds(c, start, direction))
       <==> c' == c && Accepts(IdLess, start, direction, d)
  {
    CollectionPrefixOrder(c, c', d, v);
    if c + 1 < TWO_63 {
      CollectionPrefixOrder(c + 1, c', d, v);
    }
    if !start.Unbounded? {
      DocumentKeyOrder(c, start.at, 0, c', d, v);
      DocumentKeyOrder(c', d, v, c, start.at, 0);
      DocumentKeyOrder(c, start.at, U64_MAX, c', d, v);
      DocumentKeyOrder(c', d, v, c, start.at, U64_MAX);
    }
  }

  // ------------------------------------------------------------------ folding

  datatype Version = Version(document: DocumentId, version: U64, value: Option<Bytes>)

  /** How many of the leading versions belong to the first document. */
  function RunLength(rows: seq<Version>): (n: nat)
    requires rows != []
    ensures 1 <= n <= |rows|
    ensures forall i | 0 <= i < n :: rows[i].document == rows[0].document
    ensures n < |rows| ==> rows[n].document != rows[0].document
  {
    if |rows| > 1 && rows[1].document == rows[0].document then 1 + RunLength(rows[1..]) else 1
  }

  lemma {:induction false} RunLengthIs(rows: seq<Version>, n: nat)
    requires 1 <= n <= |rows|
    requires forall i | 0 <= i < n :: rows[i].document == rows[0].document
    requires n < |rows| ==> rows[n].document != rows[0].document
    ensures RunLength(rows) == n
  {
    if |rows| > 1 && rows[1].document == rows[0].document {
      assert forall i | 0 <= i < |rows| - 1 :: rows[1..][i] == rows[i + 1];
      RunLengthIs(rows[1..], n - 1);
    }
  }

  /** The newest version of a run: the last one forwards, the first one in reverse. */
  function Chosen(direction: Direction, rows: seq<Version>): Version
    requires rows != []
  {
    if direction.Reverse? then rows[0] else rows[RunLength(rows) - 1]
  }

  /** One entry for each document whose chosen version is live. */
  function Fold(direction: Direction, rows: seq<Version>): seq<DocumentEntry> {
    if rows == [] then []
    else
      var chosen := Chosen(direction, rows);
      (if chosen.value.Some? then [DocumentEntry(rows[0].document, chosen.value.value)] else [])
      + Fold(direction, rows[RunLength(rows)..])
  }

  /** Folding a first run of known length. */
  lemma FoldRun(direction: Direction, rows: seq<Version>, n: nat)
    requires 1 <= n <= |rows|
    requires forall i | 0 <= i < n :: rows[i].document == rows[0].document
    requires n < |rows| ==> rows[n].document != rows[0].document
    ensures var chosen := if direction.Reverse? then rows[0] else rows[n - 1];
      Fold(direction, rows) ==
        if chosen.value.Some? then [DocumentEntry(rows[0].document, chosen.value.value)] + Fold(direction, rows[n..])
        else Fold(direction, rows[n..])
  {
    RunLengthIs(rows, n);
  }

  predicate VersionLess(a: Version, b: Version) {
    a.document < b.document || (a.document == b.document && a.version < b.version)
  }

  predicate EntryLess(a: DocumentEntry, b: DocumentEntry) {
    a.id < b.id
  }

  /** The row is the newest of its document among the rows. */
  ghost predicate NewestOf(rows: seq<Version>, r: Version) {
    r in rows && forall q | q in rows && q.document == r.document :: q.version <= r.version
  }

  lemma AfterRun(direction: Direction, rows: seq<Version>, i: nat)
    requires rows != [] && Sorted(Toward(VersionLess, direction), rows) && RunLength(rows) <= i < |rows|
    ensures if direction.Forward? then rows[0].document < rows[i].document else rows[i].document < rows[0].document
  {
    var n := RunLength(rows);
    assert Toward(VersionLess, direction)(rows[0], rows[n]);
    assert i == n || Toward(VersionLess, direction)(rows[n], rows[i]);
  }

  lemma InRun(direction: Direction, rows: seq<Version>, i: nat)
    requires rows != [] && Sorted(Toward(VersionLess, direction), rows) && i < RunLength(rows)
    ensures rows[i].version <= Chosen(direction, rows).version
  {
    var n := RunLength(rows);
    assert rows[i].document == rows[0].document == rows[n - 1].document;
    if direction.Forward? {
      assert i == n - 1 || VersionLess(rows[i], rows[n - 1]);
    } else {
      assert i == 0 || Toward(VersionLess, direction)(rows[0], rows[i]);
      assert i == 0 || VersionLess(rows[i], rows[0]);
    }
  }

  lemma ChosenIsNewest(direction: Direction, rows: seq<Version>)
    requires rows != [] && Sorted(Toward(VersionLess, direction), rows)
    ensures NewestOf(rows, Chosen(direction, rows)) && Chosen(direction, rows).document == rows[0].document
  {
    forall q | q in rows && q.document == rows[0].document ensures q.version <= Chosen(direction, rows).version {
      var i :| 0 <= i < |rows| && rows[i] == q;
      if i < RunLength(rows) {
        InRun(direction, rows, i);
      } else {
        AfterRun(direction, rows, i);
      }
    }
  }

  lemma RestIsOther(direction: Direction, rows: seq<Version>, r: Version)
    requires rows != [] && Sorted(Toward(VersionLess, direction), rows)
    ensures r in rows[RunLength(rows)..] <==> r in rows && r.document != rows[0].document
    ensures r in rows[RunLength(rows)..] ==>
      if direction.Forward? then rows[0].document < r.document else r.document < rows[0].document
  {
    var n := RunLength(rows);
    if r in rows[n..] {
      var i :| n <= i < |rows| && rows[i] == r;
      AfterRun(direction, rows, i);
    }
    if r in rows && r.document != rows[0].document {
      var i :| 0 <= i < |rows| && rows[i] == r;
      assert rows[n..][i - n] == r;
    }
  }

  /** Folding sorted versions yields the live newest versions, in document order. */
  lemma {:induction false} FoldMeaning(direction: Direction, rows: seq<Version>)
    requires Sorted(Toward(VersionLess, direction), rows)
    ensures Sorted(Toward(EntryLess, direction), Fold(direction, rows))
    ensures forall e :: e in Fold(direction, rows) <==> FromNewest(rows, e)
    decreases |rows|
  {
    if rows != [] {
      var rest, chosen := rows[RunLength(rows)..], Chosen(direction, rows);
      FoldMeaning(direction, rest);
      var head := if chosen.value.Some? then [DocumentEntry(rows[0].document, chosen.value.value)] else [];
      forall e ensures e in Fold(direction, rows) <==> FromNewest(rows, e) {
        FromNewestSplits(direction, rows, e);
      }
      forall x, y | x in head && y in Fold(direction, rest) ensures Toward(EntryLess, direction)(x, y) {
        var r :| NewestOf(rest, r) && r.document == y.id && r.value == Some(y.value);
        RestIsOther(direction, rows, r);
        assert x == head[0] && if direction.Forward? then EntryLess(x, y) else EntryLess(y, x);
      }
      SortedConcat(Toward(EntryLess, direction), head, Fold(direction, rest));
    } else {
      assert forall e :: !FromNewest(rows, e);
    }
  }

  ghost predicate FromNewest(rows: seq<Version>, e: DocumentEntry) {
    exists r :: NewestOf(rows, r) && r.document == e.id && r.value == Some(e.value)
  }

  lemma NewestOfRest(direction: Direction, rows: seq<Version>, r: Version)
    requires rows != [] && Sorted(Toward(VersionLess, direction), rows) && r.document != rows[0].document
    ensures NewestOf(rows, r) <==> NewestOf(rows[RunLength(rows)..], r)
  {
    var rest := rows[RunLength(rows)..];
    forall q: Version | q.document == r.document ensures q in rows <==> q in rest {
      RestIsOther(direction, rows, q);
    }
  }

  lemma FromNewestSplits(direction: Direction, rows: seq<Version>, e: DocumentEntry)
    requires rows != [] && Sorted(Toward(VersionLess, direction), rows)
    ensures FromNewest(rows, e)
       <==> || (e.id == rows[0].document && Chosen(direction, rows).value == Some(e.value))
            || FromNewest(rows[RunLength(rows)..], e)
  {
    var rest, chosen := rows[RunLength(rows)..], Chosen(direction, rows);
    ChosenIsNewest(direction, rows);
    if r :| NewestOf(rows, r) && r.document == e.id && r.value == Some(e.value) {
      if e.id == rows[0].document {
        SameVersion(direction, rows, r, chosen);
      } else {
        NewestOfRest(direction, rows, r);
      }
    }
    if r :| NewestOf(rest, r) && r.document == e.id && r.value == Some(e.value) {
      RestIsOther(direction, rows, r);
      NewestOfRest(direction, rows, r);
    }
  }

  lemma SameVersion(direction: Direction, rows: seq<Version>, a: Version, b: Version)
    requires Sorted(Toward(VersionLess, direction), rows) && a in rows && b in rows
    requires a.document == b.document && a.version == b.version
    ensures a == b
  {
    SortedApart(Toward(VersionLess, direction), rows, a, b);
  }

  // --------------------------------------------------------------- stored rows

  /** The row is a version of a document of the collection. */
  ghost predicate RowMeans(c: CollectionId, row: Row, r: Version) {
    row.key == EncodeDocumentKey(c, r.document, r.version) && DecodeDocumentValue(row.value) == Success(r.value)
  }

  ghost predicate IsVersion(c: CollectionId, row: Row) {
    exists r :: RowMeans(c, row, r)
  }

  ghost predicate RowsIn(c: CollectionId, rows: seq<Row>) {
    forall row | row in rows :: IsVersion(c, row)
  }

  lemma RowMeansUnique(c: CollectionId, row: Row, r: Version, q: Version)
    requires RowMeans(c, row, r) && RowMeans(c, row, q)
    ensures r == q
  {
    DocumentKeyRoundTrip(c, r.document, r.version);
    DocumentKeyRoundTrip(c, q.document, q.version);
  }

  ghost function VersionOf(c: CollectionId, row: Row): (r: Version)
    requires IsVersion(c, row)
    ensures RowMeans(c, row, r)
  {
    var r :| RowMeans(c, row, r);
    r
  }

  /** The versions at or below the timestamp, in row order. */
  ghost function Physical(c: CollectionId, ts: U64, rows: seq<Row>): seq<Version>
    requires RowsIn(c, rows)
  {
    if rows == [] then []
    else
      assert rows[0] in rows;
      var r := VersionOf(c, rows[0]);
      (if r.version <= ts then [r] else []) + Physical(c, ts, rows[1..])
  }

  lemma {:induction false} PhysicalMembers(c: CollectionId, ts: U64, rows: seq<Row>, r: Version)
    requires RowsIn(c, rows)
    ensures r in Physical(c, ts, rows) <==> r.version <= ts && exists row :: row in rows && RowMeans(c, row, r)
  {
    if rows != [] {
      PhysicalMembers(c, ts, rows[1..], r);
      assert rows[0] in rows;
      var q := VersionOf(c, rows[0]);
      assert rows == [rows[0]] + rows[1..];
      if row :| row in rows && RowMeans(c, row, r) {
        if row == rows[0] {
          RowMeansUnique(c, row, r, q);
        }
      }
    }
  }

  lemma VersionRowOrder(c: CollectionId, direction: Direction, a: Row, b: Row, q: Version, r: Version)
    requires RowMeans(c, a, q) && RowMeans(c, b, r) && a.key != b.key
    requires Toward(RowLess, direction)(a, b)
    ensures Toward(VersionLess, direction)(q, r)
  {
    DocumentKeyOrder(c, q.document, q.version, c, r.document, r.version);
    DocumentKeyOrder(c, r.document, r.version, c, q.document, q.version);
    if direction.Forward? {
      assert RowLess(a, b) && VersionLess(q, r);
    } else {
      assert RowLess(b, a) && VersionLess(r, q);
    }
  }

  ghost predicate DistinctKeys(rows: seq<Row>) {
    forall i, j | 0 <= i < j < |rows| :: rows[i].key != rows[j].key
  }

  lemma {:induction false} PhysicalSorted(c: CollectionId, ts: U64, rows: seq<Row>, direction: Direction)
    requires RowsIn(c, rows) && Sorted(Toward(RowLess, direction), rows) && DistinctKeys(rows)
    ensures Sorted(Toward(VersionLess, direction), Physical(c, ts, rows))
  {
    if rows != [] {
      assert rows[0] in rows;
      PhysicalSorted(c, ts, rows[1..], direction);
      var q, rest := VersionOf(c, rows[0]), Physical(c, ts, rows[1..]);
      forall r | r in rest ensures Toward(VersionLess, direction)(q, r) {
        PhysicalMembers(c, ts, rows[1..], r);
        var row :| row in rows[1..] && RowMeans(c, row, r);
        var i :| 0 < i < |rows| && rows[i] == row;
        VersionRowOrder(c, direction, rows[0], rows[i], q, r);
      }
      SortedConcat(Toward(VersionLess, direction), [q], rest);
    }
  }

  // ------------------------------------------------------------------- cursor

  datatype DecodedDocument = DecodedDocument(documentId: DocumentId, value: Option<Bytes>)

  function Strip(r: Version): DecodedDocument {
    DecodedDocument(r.document, r.value)
  }

  class DocumentCursor {
    var raw: seq<Row>
    const collection: CollectionId
    const ts: U64
    const reverse: bool
    var pending: Option<DecodedDocument>
    /** The version behind `pending`, then those still to be read. */
    ghost var ahead: seq<Version>

    ghost predicate Valid()
      reads this
    {
      && RowsIn(collection, raw)
      && (match pending
          case None => ahead == Physical(collection, ts, raw)
          case Some(p) => ahead != [] && p == Strip(ahead[0]) && ahead[1..] == Physical(collection, ts, raw))
    }

    /** The entries still to be returned. */
    ghost function Remaining(): seq<DocumentEntry>
      reads this
    {
      Fold(if reverse then Direction.Reverse else Forward, ahead)
    }

    constructor (raw: seq<Row>, collection: CollectionId, ts: U64, reverse: bool)
      requires RowsIn(collection, raw)
      ensures Valid() && this.reverse == reverse
      ensures Remaining() == Fold(if reverse then Direction.Reverse else Forward, Physical(collection, ts, raw))
    {
      this.raw, this.collection, this.ts, this.reverse := raw, collection, ts, reverse;
      pending := None;
      ahead := Physical(collection, ts, raw);
    }

    /** The next version at or below the timestamp. Decoding a stored row never fails. */
    method NextPhysical() returns (r: Option<DecodedDocument>)
      requires RowsIn(collection, raw)
      modifies this`raw
      ensures RowsIn(collection, raw)
      ensures Physical(collection, ts, raw) == Tail(old(Physical(collection, ts, raw)))
      ensures r == match First(old(Physical(collection, ts, raw))) case None => None case Some(v) => Some(Strip(v))
    {
      while raw != []
        invariant RowsIn(collection, raw) && Physical(collection, ts, raw) == old(Physical(collection, ts, raw))
        decreases |raw|
      {
        var row := raw[0];
        assert row in raw;
        ghost var v := VersionOf(collection, row);
        DocumentKeyRoundTrip(collection, v.document, v.version);
        assert Physical(collection, ts, raw)
          == (if v.version <= ts then [v] else []) + Physical(collection, ts, raw[1..]);
        raw := raw[1..];
        var key := DecodeDocumentKey(row.key).value;
        if key.0 != collection {
          return None;
        }
        if key.2 > ts {
          continue;
        }
        return Some(DecodedDocument(key.1, DecodeDocumentValue(row.value).value));
      }
      return None;
    }

    /** What `pending` and the unread rows are after the versions of one document. */
    ghost predicate RunRead(rows: seq<Version>, n: nat)
      reads this
    {
      && n <= |rows| && RowsIn(collection, raw)
      && match pending
         case None => rows[n..] == Physical(collection, ts, raw)
         case Some(p) => n < |rows| && p == Strip(rows[n]) && rows[n + 1..] == Physical(collection, ts, raw)
    }

    /** The inner loop of `next`: read the remaining versions of a document and choose the one to show. */
    method ReadRun(first: DecodedDocument, ghost rows: seq<Version>) returns (visibleValue: Option<Bytes>, ghost n: nat)
      requires pending == None && rows != [] && first == Strip(rows[0])
      requires RowsIn(collection, raw) && Physical(collection, ts, raw) == rows[1..]
      modifies this`raw, this`pending
      ensures RunRead(rows, n) && n >= 1
      ensures forall i | 0 <= i < n :: rows[i].document == first.documentId
      ensures n < |rows| ==> rows[n].document != first.documentId
      ensures visibleValue == (if reverse then rows[0] else rows[n - 1]).value
    {
      visibleValue := first.value;
      n := 1;
      while true
        invariant RowsIn(collection, raw) && pending == None
        invariant 1 <= n <= |rows| && Physical(collection, ts, raw) == rows[n..]
        invariant forall i | 0 <= i < n :: rows[i].document == first.documentId
        invariant visibleValue == (if reverse then rows[0] else rows[n - 1]).value
        decreases |rows| - n
      {
        var next := NextPhysical();
        if next.None? {
          assert n == |rows|;
          break;
        }
        assert Strip(rows[n]) == next.value;
        if next.value.documentId != first.documentId {
          pending := next;
          break;
        }
        if !reverse {
          visibleValue := next.value.value;
        }
        n := n + 1;
      }
    }

    method Next() returns (r: Option<DocumentEntry>)
      requires Valid()
      modifies this
      ensures Valid()
      ensures r == First(old(Remaining()))
      ensures Remaining() == Tail(old(Remaining()))
    {
      while true
        invariant Valid() && Remaining() == old(Remaining())
        decreases |ahead|
      {
        ghost var rows := ahead;
        var first := pending;
        pending := None;
        if first.None? {
          first := NextPhysical();
        }
        if first.None? {
          return None;
        }
        var visibleValue, n := ReadRun(first.value, rows);
        FoldRun(if reverse then Direction.Reverse else Forward, rows, n);
        ahead := rows[n..];
        if visibleValue.Some? {
          return Some(DocumentEntry(first.value.documentId, visibleValue.value));
        }
      }
    }
  }

  // --------------------------------------------------------------- main result

  ghost function ScanRows(db: Database, c: CollectionId, start: CursorStart<DocumentId>,
                          direction: Direction): seq<Row> {
    var (lower, upper) := DocumentCursorBounds(c, start, direction);
    Range(Rows(db), lower, upper, direction)
  }

  /** What a scan returns. */
  ghost function Scanned(db: Database, ts: U64, c: CollectionId, start: CursorStart<DocumentId>,
                         direction: Direction): seq<DocumentEntry>
    requires RowsIn(c, ScanRows(db, c, start, direction))
  {
    Fold(direction, Physical(c, ts, ScanRows(db, c, start, direction)))
  }

  lemma ScanRowsIn(db: Database, c: CollectionId, start: CursorStart<DocumentId>, direction: Direction)
    requires DocumentRows(db)
    ensures RowsIn(c, ScanRows(db, c, start, direction))
  {
    var rows := ScanRows(db, c, start, direction);
    forall row | row in rows ensures IsVersion(c, row) {
      var c', d, v := KeyParts(row.key);
      BoundsSelect(c, start, direction, c', d, v);
      assert RowMeans(c, row, Version(d, v, DecodeDocumentValue(row.value).value));
    }
  }

  /** The version is stored and the scan covers it. */
  ghost predicate Covered(db: Database, ts: U64, c: CollectionId, start: CursorStart<DocumentId>, direction: Direction,
                          r: Version)
    requires DocumentRows(db)
  {
    && HasVersion(db, c, r.document, r.version) && ValueAt(db, c, r.document, r.version) == r.value
    && r.version <= ts && Accepts(IdLess, start, direction, r.document)
  }

  lemma ScannedVersions(db: Database, ts: U64, c: CollectionId, start: CursorStart<DocumentId>, direction: Direction,
                        r: Version)
    requires DocumentRows(db)
    ensures RowsIn(c, ScanRows(db, c, start, direction))
    ensures r in Physical(c, ts, ScanRows(db, c, start, direction)) <==> Covered(db, ts, c, start, direction, r)
  {
    var rows, key := ScanRows(db, c, start, direction), EncodeDocumentKey(c, r.document, r.version);
    ScanRowsIn(db, c, start, direction);
    PhysicalMembers(c, ts, rows, r);
    if key in db {
      var c', d, v := KeyParts(key);
      DocumentKeyOrder(c, r.document, r.version, c', d, v);
      BoundsSelect(c, start, direction, c, r.document, r.version);
      assert Covered(db, ts, c, start, direction, r) ==> Row(key, db[key]) in rows && RowMeans(c, Row(key, db[key]), r);
    }
  }

  lemma ScanRowsDistinct(db: Database, c: CollectionId, start: CursorStart<DocumentId>, direction: Direction)
    ensures Sorted(Toward(RowLess, direction), ScanRows(db, c, start, direction))
    ensures DistinctKeys(ScanRows(db, c, start, direction))
  {
    var rows := ScanRows(db, c, start, direction);
    forall i, j | 0 <= i < j < |rows| ensures rows[i].key != rows[j].key {
      assert rows[i] in rows && rows[j] in rows;
      assert Toward(RowLess, direction)(rows[i], rows[j]);
      assert RowLess(rows[i], rows[j]) || RowLess(rows[j], rows[i]);
      assert rows[i].value == db[rows[i].key] && rows[j].value == db[rows[j].key];
      LessIrreflexive(rows[i].key);
      LessIrreflexive(rows[i].value);
    }
  }

  lemma ScannedSorted(db: Database, ts: U64, c: CollectionId, start: CursorStart<DocumentId>, direction: Direction)
    requires DocumentRows(db)
    ensures RowsIn(c, ScanRows(db, c, start, direction))
    ensures Sorted(Toward(VersionLess, direction), Physical(c, ts, ScanRows(db, c, start, direction)))
  {
    ScanRowsIn(db, c, start, direction);
    ScanRowsDistinct(db, c, start, direction);
    PhysicalSorted(c, ts, ScanRows(db, c, start, direction), direction);
  }

  /** Among the scanned versions the newest of a document is its newest at or below the timestamp. */
  lemma NewestScanned(db: Database, ts: U64, c: CollectionId, start: CursorStart<DocumentId>, direction: Direction,
                      r: Version)
    requires DocumentRows(db)
    ensures RowsIn(c, ScanRows(db, c, start, direction))
    ensures NewestOf(Physical(c, ts, ScanRows(db, c, start, direction)), r)
       <==> Covered(db, ts, c, start, direction, r) && Newest(db, ts, c, r.document, r.version)
  {
    ScannedVersions(db, ts, c, start, direction, r);
    var versions := Physical(c, ts, ScanRows(db, c, start, direction));
    if NewestOf(versions, r) {
      forall w: U64 | HasVersion(db, c, r.document, w) && w <= ts ensures w <= r.version {
        var q := Version(r.document, w, ValueAt(db, c, r.document, w));
        ScannedVersions(db, ts, c, start, direction, q);
      }
    }
    if Covered(db, ts, c, start, direction, r) && Newest(db, ts, c, r.document, r.version) {
      forall q | q in versions && q.document == r.document ensures q.version <= r.version {
        ScannedVersions(db, ts, c, start, direction, q);
      }
    }
  }

  lemma ScannedIsVisible(db: Database, ts: U64, c: CollectionId, start: CursorStart<DocumentId>, direction: Direction,
                         e: DocumentEntry)
    requires DocumentRows(db)
    requires RowsIn(c, ScanRows(db, c, start, direction)) && e in Scanned(db, ts, c, start, direction)
    requires FromNewest(Physical(c, ts, ScanRows(db, c, start, direction)), e)
    ensures Accepts(IdLess, start, direction, e.id) && Visible(db, ts, c, e.id) == Some(e.value)
  {
    var versions := Physical(c, ts, ScanRows(db, c, start, direction));
    var r :| NewestOf(versions, r) && r.document == e.id && r.value == Some(e.value);
    NewestScanned(db, ts, c, start, direction, r);
    VisibleIsNewest(db, ts, c, e.id, r.version);
  }

  lemma VisibleIsScanned(db: Database, ts: U64, c: CollectionId, start: CursorStart<DocumentId>, direction: Direction,
                         e: DocumentEntry)
    requires DocumentRows(db)
    requires Accepts(IdLess, start, direction, e.id) && Visible(db, ts, c, e.id) == Some(e.value)
    ensures RowsIn(c, ScanRows(db, c, start, direction))
    ensures FromNewest(Physical(c, ts, ScanRows(db, c, start, direction)), e)
  {
    ScanRowsIn(db, c, start, direction);
    var v: U64 :| Newest(db, ts, c, e.id, v);
    var r := Version(e.id, v, Some(e.value));
    VisibleIsNewest(db, ts, c, e.id, v);
    NewestScanned(db, ts, c, start, direction, r);
    assert NewestOf(Physical(c, ts, ScanRows(db, c, start, direction)), r);
  }

  /** A scan returns, in order, exactly the documents the point lookup finds on the requested side of the start. */
  lemma ScanIsSortedVisible(db: Database, ts: U64, c: CollectionId, start: CursorStart<DocumentId>,
                            direction: Direction)
    requires DocumentRows(db)
    ensures RowsIn(c, ScanRows(db, c, start, direction))
    ensures Sorted(Toward(EntryLess, direction), Scanned(db, ts, c, start, direction))
    ensures forall e :: e in Scanned(db, ts, c, start, direction)
                   <==> Accepts(IdLess, start, direction, e.id) && Visible(db, ts, c, e.id) == Some(e.value)
  {
    ScannedSorted(db, ts, c, start, direction);
    FoldMeaning(direction, Physical(c, ts, ScanRows(db, c, start, direction)));
    forall e: DocumentEntry
      ensures e in Scanned(db, ts, c, start, direction)
         <==> Accepts(IdLess, start, direction, e.id) && Visible(db, ts, c, e.id) == Some(e.value)
    {
      if e in Scanned(db, ts, c, start, direction) {
        ScannedIsVisible(db, ts, c, start, direction, e);
      }
      if Accepts(IdLess, start, direction, e.id) && Visible(db, ts, c, e.id) == Some(e.value) {
        VisibleIsScanned(db, ts, c, start, direction, e);
      }
    }
  }
}
