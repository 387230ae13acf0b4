/** The cursor over the collections visible at a timestamp (crates/storage/src/implementations/heed/cursors.rs). */
module CatalogCursors {
  import opened ByteStrings
  import opened Types
  import opened BigEndian
  import opened Sequences
  import opened Lmdb
  import opened HeedEncoding
  import opened Catalogs

  datatype CollectionEntry = CollectionEntry(id: CollectionId, name: Name, metadata: Bytes)

  /** Look up the collection a name row leads to; the catalog must give it the same name. */
  function ReadNameRow(catalog: Database, ts: U64, row: Row): Result<Option<CollectionEntry>> {
    match DecodeI64(row.value)
    case Failure(e) => Failure(e)
    case Success(id) =>
      match CollectionById(catalog, id, ts)
      case Failure(e) => Failure(e)
      case Success(None) => Success(None)
      case Success(Some((name, metadata))) =>
        if name != row.key then Failure(NameMismatch) else Success(Some(CollectionEntry(id, name, metadata)))
  }

  ghost predicate NameRowsOf(names: Database, raw: seq<Row>) {
    forall row | row in raw :: row.key in names && names[row.key] == row.value
  }

  /** What one name row contributes. */
  function Contribution(catalog: Database, ts: U64, row: Row): seq<CollectionEntry> {
    match ReadNameRow(catalog, ts, row) case Success(Some(entry)) => [entry] case _ => []
  }

  /** What remains to be returned for the remaining name rows. */
  function Visited(catalog: Database, ts: U64, raw: seq<Row>): seq<CollectionEntry> {
    if raw == [] then [] else Contribution(catalog, ts, raw[0]) + Visited(catalog, ts, raw[1..])
  }

  /** No error is reachable: every row decodes, and the names agree. */
  lemma ReadNameRowSucceeds(names: Database, catalog: Database, bound: U64, ts: U64, row: Row)
    requires CatalogOk(names, catalog, bound) && row.key in names && names[row.key] == row.value
    ensures |row.value| == 8 && ReadNameRow(catalog, ts, row).Success?
    ensures var id := FromI64Be(row.value);
      && CollectionById(catalog, id, ts).Success?
      && (ReadNameRow(catalog, ts, row).value.Some? <==> CollectionById(catalog, id, ts).value.Some?)
      && (ReadNameRow(catalog, ts, row).value.Some? ==>
          ReadNameRow(catalog, ts, row).value.value
            == CollectionEntry(id, row.key, CollectionById(catalog, id, ts).value.value.1))
  {
    assert NameRow(names, catalog, bound, row.key);
    CatalogNames(names, catalog, bound, row.key, FromI64Be(row.value), ts);
  }

  class CollectionCatalogCursor {
    var raw: seq<Row>
    const catalog: Database
    const ts: U64
    ghost const names: Database
    ghost const bound: U64

    ghost predicate Valid()
      reads this
    {
      CatalogOk(names, catalog, bound) && NameRowsOf(names, raw)
    }

    ghost function Remaining(): seq<CollectionEntry>
      reads this
    {
      Visited(catalog, ts, raw)
    }

    constructor (raw: seq<Row>, catalog: Database, ts: U64, ghost names: Database, ghost bound: U64)
      requires CatalogOk(names, catalog, bound) && NameRowsOf(names, raw)
      ensures Valid() && Remaining() == Visited(catalog, ts, raw)
    {
      this.raw, this.catalog, this.ts, this.names, this.bound := raw, catalog, ts, names, bound;
    }

    /** The next visible collection; invisible ones are skipped, and no error is ever returned. */
    method Next() returns (r: Result<Option<CollectionEntry>>)
      requires Valid()
      modifies this
      ensures Valid()
      ensures r == Success(First(old(Remaining()))) && Remaining() == Tail(old(Remaining()))
    {
      while raw != []
        invariant Valid() && Remaining() == old(Remaining())
        decreases |raw|
      {
        var row := raw[0];
        assert row in raw;
        ReadNameRowSucceeds(names, catalog, bound, ts, row);
        raw := raw[1..];
        r := ReadNameRow(catalog, ts, row);
        if r.Failure? || r.value.Some? {
          return;
        }
      }
      return Success(None);
    }
  }

  // --------------------------------------------------------------- main result

  function CollectionCatalogBounds(start: CursorStart<Bytes>, direction: Direction): (Bound, Bound) {
    var bound := match start
      case Unbounded => NoBound
      case Included(name) => Inclusive(name)
      case Excluded(name) => Exclusive(name);
    if direction.Forward? then (bound, NoBound) else (NoBound, bound)
  }

  predicate NameLess(a: CollectionEntry, b: CollectionEntry) {
    Less(a.name, b.name)
  }

  ghost predicate VisibleAt(names: Database, catalog: Database, ts: U64, e: CollectionEntry) {
    && NamesId(names, e.name, e.id)
    && CollectionById(catalog, e.id, ts) == Success(Some((e.name, e.metadata)))
  }

  ghost predicate Listed(names: Database, raw: seq<Row>, name: Bytes) {
    name in names && Row(name, names[name]) in raw
  }

  lemma ContributionMeaning(names: Database, catalog: Database, bound: U64, ts: U64, row: Row, e: CollectionEntry)
    requires CatalogOk(names, catalog, bound) && row.key in names && names[row.key] == row.value
    ensures e in Contribution(catalog, ts, row) <==> VisibleAt(names, catalog, ts, e) && e.name == row.key
  {
    ReadNameRowSucceeds(names, catalog, bound, ts, row);
    CatalogNames(names, catalog, bound, row.key, FromI64Be(row.value), ts);
  }

  lemma {:induction false} VisitedHas(names: Database, catalog: Database, bound: U64, ts: U64, raw: seq<Row>,
                                      e: CollectionEntry)
    requires CatalogOk(names, catalog, bound) && NameRowsOf(names, raw)
    ensures e in Visited(catalog, ts, raw) <==> VisibleAt(names, catalog, ts, e) && Listed(names, raw, e.name)
    decreases |raw|
  {
    if raw != [] {
      assert raw[0] in raw;
      ContributionMeaning(names, catalog, bound, ts, raw[0], e);
      VisitedHas(names, catalog, bound, ts, raw[1..], e);
    }
  }

  lemma {:induction false} VisitedSorted(names: Database, catalog: Database, bound: U64, ts: U64, direction: Direction,
                                         raw: seq<Row>)
    requires CatalogOk(names, catalog, bound) && NameRowsOf(names, raw) && Sorted(Toward(RowLess, direction), raw)
    ensures Sorted(Toward(NameLess, direction), Visited(catalog, ts, raw))
    decreases |raw|
  {
    if raw != [] {
      var row, rest := raw[0], raw[1..];
      VisitedSorted(names, catalog, bound, ts, direction, rest);
      var head, tail := Contribution(catalog, ts, row), Visited(catalog, ts, rest);
      assert row in raw;
      forall h, e | h in head && e in tail ensures Toward(NameLess, direction)(h, e) {
        ContributionMeaning(names, catalog, bound, ts, row, h);
        VisitedHas(names, catalog, bound, ts, rest, e);
        FirstRowBefore(names, direction, raw, Row(e.name, names[e.name]));
        EntriesFollowNames(direction, h, e);
      }
      SortedConcat(Toward(NameLess, direction), head, tail);
    }
  }

  lemma EntriesFollowNames(direction: Direction, a: CollectionEntry, b: CollectionEntry)
    requires if direction.Forward? then Less(a.name, b.name) else Less(b.name, a.name)
    ensures Toward(NameLess, direction)(a, b)
  {
    assert if direction.Forward? then NameLess(a, b) else NameLess(b, a);
  }

  lemma FirstRowBefore(names: Database, direction: Direction, raw: seq<Row>, later: Row)
    requires NameRowsOf(names, raw) && Sorted(Toward(RowLess, direction), raw) && raw != [] && later in raw[1..]
    ensures if direction.Forward? then Less(raw[0].key, later.key) else Less(later.key, raw[0].key)
  {
    var i :| 1 <= i < |raw| && raw[i] == later;
    assert Toward(RowLess, direction)(raw[0], raw[i]);
    assert raw[0] in raw && raw[i] in raw;
    DistinctNames(names, direction, raw[0], later);
  }

  lemma DistinctNames(names: Database, direction: Direction, a: Row, b: Row)
    requires a.key in names && names[a.key] == a.value && b.key in names && names[b.key] == b.value
    requires Toward(RowLess, direction)(a, b)
    ensures if direction.Forward? then Less(a.key, b.key) else Less(b.key, a.key)
  {
    LessIrreflexive(a.value);
    assert if direction.Forward? then RowLess(a, b) else RowLess(b, a);
  }

  lemma BoundsAccept(start: CursorStart<Bytes>, direction: Direction, name: Bytes)
    ensures var (lower, upper) := CollectionCatalogBounds(start, direction);
      Above(name, lower) && Below(name, upper) <==> Accepts(Less, start, direction, name)
  {
  }

  /** In name order, the collections visible at the timestamp on the requested side of the start, each once. */
  lemma CursorListsVisibleCollections(names: Database, catalog: Database, bound: U64, ts: U64,
                                      start: CursorStart<Bytes>, direction: Direction)
    requires CatalogOk(names, catalog, bound)
    ensures var (lower, upper) := CollectionCatalogBounds(start, direction);
      var raw := Range(Rows(names), lower, upper, direction);
      var out := Visited(catalog, ts, raw);
      && NameRowsOf(names, raw)
      && Sorted(Toward(NameLess, direction), out)
      && forall e :: e in out <==> Accepts(Less, start, direction, e.name) && VisibleAt(names, catalog, ts, e)
  {
    var (lower, upper) := CollectionCatalogBounds(start, direction);
    var raw := Range(Rows(names), lower, upper, direction);
    VisitedSorted(names, catalog, bound, ts, direction, raw);
    forall e: CollectionEntry
      ensures e in Visited(catalog, ts, raw)
         <==> Accepts(Less, start, direction, e.name) && VisibleAt(names, catalog, ts, e)
    {
      VisitedHas(names, catalog, bound, ts, raw, e);
      BoundsAccept(start, direction, e.name);
      assert VisibleAt(names, catalog, ts, e) ==> Row(e.name, names[e.name]) in Rows(names);
    }
  }
}
