/**
 The versioned collection catalog, its name table and the index catalog
 (crates/storage/src/implementations/heed/datastore.rs).
 */
module Catalogs {
  import opened ByteStrings
  import opened Types
  import opened BigEndian
  import opened Lmdb
  import opened HeedEncoding

  // -------------------------------------------------------------- invariant

  ghost predicate IsCatalogKey(k: Bytes, id: CollectionId) {
    exists v: U64 :: k == EncodeCollectionCatalogKey(id, v)
  }

  ghost predicate HasCatalogRow(catalog: Database, id: CollectionId) {
    exists v: U64 :: EncodeCollectionCatalogKey(id, v) in catalog
  }

  ghost predicate NamesId(names: Database, name: Bytes, id: CollectionId) {
    name in names && |names[name]| == 8 && FromI64Be(names[name]) == id
  }

  /** A name's row: a positive id within the bound, with at least one catalog version. */
  ghost predicate NameRow(names: Database, catalog: Database, bound: U64, name: Bytes)
    requires name in names
  {
    && |name| < TWO_64 && |names[name]| == 8
    && 1 <= FromI64Be(names[name]) <= bound
    && HasCatalogRow(catalog, FromI64Be(names[name]))
  }

  /** A catalog row carries the name that leads to its id. */
  ghost predicate CatalogRow(names: Database, catalog: Database, k: Bytes)
    requires k in catalog
  {
    && DecodeCollectionCatalogValue(catalog[k]).Success?
    && var name := DecodeCollectionCatalogValue(catalog[k]).value.0;
       name in names && |names[name]| == 8 && IsCatalogKey(k, FromI64Be(names[name]))
  }

  ghost predicate DistinctIds(names: Database) {
    forall m, n | m in names && n in names && names[m] == names[n] :: m == n
  }

  /** Names and catalog agree one to one: every version of an id carries the one name that leads to it. */
  ghost predicate CatalogOk(names: Database, catalog: Database, bound: U64) {
    && (forall name {:trigger NameRow(names, catalog, bound, name)} | name in names ::
       NameRow(names, catalog, bound, name))
    && DistinctIds(names)
    && (forall k {:trigger CatalogRow(names, catalog, k)} | k in catalog :: CatalogRow(names, catalog, k))
  }

  lemma CatalogMonotone(names: Database, catalog: Database, bound: U64, bound': U64)
    requires CatalogOk(names, catalog, bound) && bound <= bound'
    ensures CatalogOk(names, catalog, bound')
  {
    forall name | name in names ensures NameRow(names, catalog, bound', name) {
      assert NameRow(names, catalog, bound, name);
    }
    forall k | k in catalog ensures CatalogRow(names, catalog, k) {
      assert CatalogRow(names, catalog, k);
    }
  }

  // ------------------------------------------------------------------ lookups

  function CollectionIdByName(names: Database, name: Bytes): Result<Option<CollectionId>> {
    if name !in names then Success(None)
    else
      match DecodeI64(names[name])
      case Success(id) => Success(Some(id))
      case Failure(e) => Failure(e)
  }

  /** The catalog row with the greatest version at or below `version`. */
  function CollectionById(catalog: Database, id: CollectionId, version: U64): Result<Option<(Name, Bytes)>> {
    match GreatestAtMost(catalog, EncodeCollectionCatalogKey(id, version))
    case None => Success(None)
    case Some(row) =>
      match DecodeCollectionCatalogKey(row.key)
      case Failure(e) => Failure(e)
      case Success((id', version')) =>
        if id' != id || version' > version then Success(None)
        else
          match DecodeCollectionCatalogValue(row.value)
          case Success(entry) => Success(Some(entry))
          case Failure(e) => Failure(e)
  }

  /** The id of a name, if its collection is visible at the timestamp. */
  function LookupCollection(names: Database, catalog: Database, name: Bytes, ts: U64): Result<Option<CollectionId>> {
    match CollectionIdByName(names, name)
    case Failure(e) => Failure(e)
    case Success(None) => Success(None)
    case Success(Some(id)) =>
      match CollectionById(catalog, id, ts)
      case Failure(e) => Failure(e)
      case Success(None) => Success(None)
      case Success(Some(_)) => Success(Some(id))
  }

  ghost predicate NewestRow(catalog: Database, ts: U64, id: CollectionId, v: U64) {
    && EncodeCollectionCatalogKey(id, v) in catalog && v <= ts
    && forall w: U64 | EncodeCollectionCatalogKey(id, w) in catalog && w <= ts :: w <= v
  }

  lemma VersionsOrder(id: CollectionId, v: U64, w: U64)
    ensures AtMost(EncodeCollectionCatalogKey(id, v), EncodeCollectionCatalogKey(id, w)) <==> v <= w
  {
    CollectionCatalogKeyOrder(id, v, id, w);
  }

  /** A key between two versions of a collection is a version of that collection. */
  lemma BetweenVersions(id: CollectionId, v: U64, w: U64, id': CollectionId, x: U64)
    requires AtMost(EncodeCollectionCatalogKey(id, v), EncodeCollectionCatalogKey(id', x))
    requires AtMost(EncodeCollectionCatalogKey(id', x), EncodeCollectionCatalogKey(id, w))
    ensures id' == id && v <= x <= w
  {
    CollectionCatalogKeyOrder(id, v, id', x);
    CollectionCatalogKeyOrder(id', x, id, w);
  }

  /** The lookup finds the newest row at or below the version, or nothing if there is none. */
  lemma CollectionByIdIsNewest(names: Database, catalog: Database, bound: U64, id: CollectionId, ts: U64)
    requires CatalogOk(names, catalog, bound)
    ensures CollectionById(catalog, id, ts).Success?
    ensures CollectionById(catalog, id, ts).value.Some? ==>
      exists v: U64 :: NewestRow(catalog, ts, id, v)
        && DecodeCollectionCatalogValue(catalog[EncodeCollectionCatalogKey(id, v)])
           == Success(CollectionById(catalog, id, ts).value.value)
    ensures CollectionById(catalog, id, ts).value.None? ==> forall v: U64 :: !NewestRow(catalog, ts, id, v)
  {
    var r := GreatestAtMost(catalog, EncodeCollectionCatalogKey(id, ts));
    if r.Some? && IsCatalogKey(r.value.key, id) {
      var v: U64 :| r.value.key == EncodeCollectionCatalogKey(id, v);
      CollectionCatalogKeyRoundTrip(id, v);
      VersionsOrder(id, v, ts);
      assert CatalogRow(names, catalog, r.value.key);
      forall w: U64 | EncodeCollectionCatalogKey(id, w) in catalog && w <= ts ensures w <= v {
        VersionsOrder(id, w, ts);
        VersionsOrder(id, w, v);
      }
      assert NewestRow(catalog, ts, id, v);
    } else {
      forall v: U64 | EncodeCollectionCatalogKey(id, v) in catalog ensures v > ts {
        VersionsOrder(id, v, ts);
        if v <= ts {
          var id', v' := KeyParts(names, catalog, bound, r.value.key);
          BetweenVersions(id, v, ts, id', v');
        }
      }
      if r.Some? {
        var id', v' := KeyParts(names, catalog, bound, r.value.key);
        CollectionCatalogKeyRoundTrip(id', v');
      }
    }
  }

  lemma NewestRowUnique(catalog: Database, ts: U64, id: CollectionId, v: U64, w: U64)
    requires NewestRow(catalog, ts, id, v) && NewestRow(catalog, ts, id, w)
    ensures v == w
  {
    assert EncodeCollectionCatalogKey(id, v) in catalog && EncodeCollectionCatalogKey(id, w) in catalog;
  }

  lemma KeyParts(names: Database, catalog: Database, bound: U64, k: Bytes) returns (id: CollectionId, v: U64)
    requires CatalogOk(names, catalog, bound) && k in catalog
    ensures k == EncodeCollectionCatalogKey(id, v)
  {
    assert CatalogRow(names, catalog, k);
    var name := DecodeCollectionCatalogValue(catalog[k]).value.0;
    id := FromI64Be(names[name]);
    v :| k == EncodeCollectionCatalogKey(id, v);
  }

  lemma {:induction false} NewestExists(catalog: Database, ts: U64, id: CollectionId, v: U64) returns (w: U64)
    requires EncodeCollectionCatalogKey(id, v) in catalog && v <= ts
    ensures NewestRow(catalog, ts, id, w)
    decreases ts - v
  {
    if x: U64 :| EncodeCollectionCatalogKey(id, x) in catalog && v < x <= ts {
      w := NewestExists(catalog, ts, id, x);
    } else {
      w := v;
    }
  }

  // ------------------------------------------------------------------ changes

  /** A version of a named collection: the name and catalog keep agreeing. */
  lemma PutCatalogVersion(names: Database, catalog: Database, bound: U64, name: Name, id: CollectionId, metadata: Bytes,
                          v: U64)
    requires CatalogOk(names, catalog, bound) && NamesId(names, name, id)
    ensures CatalogOk(names, catalog[EncodeCollectionCatalogKey(id, v) := EncodeCollectionCatalogValue(name, metadata)],
                      bound)
  {
    var key := EncodeCollectionCatalogKey(id, v);
    var after := catalog[key := EncodeCollectionCatalogValue(name, metadata)];
    CollectionCatalogValueRoundTrip(name, metadata);
    NamesStay(names, catalog, bound, key, after[key]);
    forall k | k in after ensures CatalogRow(names, after, k) {
      if k == key {
        assert IsCatalogKey(k, id);
      } else {
        assert CatalogRow(names, catalog, k);
      }
    }
  }

  /** A version no older than the others is what later lookups read. */
  lemma PutVersionIsRead(names: Database, catalog: Database, bound: U64, name: Name, id: CollectionId, metadata: Bytes,
                         v: U64, ts: U64)
    requires CatalogOk(names, catalog, bound) && NamesId(names, name, id) && v <= ts
    requires forall w: U64 | EncodeCollectionCatalogKey(id, w) in catalog :: w <= v
    ensures CollectionById(catalog[EncodeCollectionCatalogKey(id, v) := EncodeCollectionCatalogValue(name, metadata)],
                           id, ts)
         == Success(Some((name, metadata)))
  {
    var after := catalog[EncodeCollectionCatalogKey(id, v) := EncodeCollectionCatalogValue(name, metadata)];
    PutCatalogVersion(names, catalog, bound, name, id, metadata, v);
    CollectionByIdIsNewest(names, after, bound, id, ts);
    CollectionCatalogValueRoundTrip(name, metadata);
    forall w: U64 | EncodeCollectionCatalogKey(id, w) in after ensures w <= v {
      CollectionCatalogKeyOrder(id, v, id, w);
    }
    assert NewestRow(after, ts, id, v);
    var w: U64 :| NewestRow(after, ts, id, w)
      && DecodeCollectionCatalogValue(after[EncodeCollectionCatalogKey(id, w)])
         == Success(CollectionById(after, id, ts).value.value);
    NewestRowUnique(after, ts, id, v, w);
  }

  lemma NamesStay(names: Database, catalog: Database, bound: U64, key: Bytes, value: Bytes)
    requires CatalogOk(names, catalog, bound)
    ensures forall n {:trigger NameRow(names, catalog[key := value], bound, n)} | n in names ::
      NameRow(names, catalog[key := value], bound, n)
  {
    forall n | n in names ensures NameRow(names, catalog[key := value], bound, n) {
      assert NameRow(names, catalog, bound, n);
      RowsStay(catalog, key, value, FromI64Be(names[n]));
    }
  }

  lemma RowsStay(catalog: Database, key: Bytes, value: Bytes, id: CollectionId)
    requires HasCatalogRow(catalog, id)
    ensures HasCatalogRow(catalog[key := value], id)
  {
    var w: U64 :| EncodeCollectionCatalogKey(id, w) in catalog;
    assert EncodeCollectionCatalogKey(id, w) in catalog[key := value];
  }

  /** A fresh id for a new name: no stored row is disturbed and the id was not in use. */
  lemma NewName(names: Database, catalog: Database, bound: U64, name: Name, metadata: Bytes, v: U64, id: CollectionId)
    requires CatalogOk(names, catalog, bound) && name !in names && 0 <= bound < id
    ensures !HasCatalogRow(catalog, id)
    ensures CatalogOk(names[name := I64Be(id)],
                      catalog[EncodeCollectionCatalogKey(id, v) := EncodeCollectionCatalogValue(name, metadata)], id)
  {
    var key := EncodeCollectionCatalogKey(id, v);
    var names', after := names[name := I64Be(id)], catalog[key := EncodeCollectionCatalogValue(name, metadata)];
    CollectionCatalogValueRoundTrip(name, metadata);
    I64RoundTrip(id);
    FreshCollection(names, catalog, bound, id);
    forall n | n in names' ensures NameRow(names', after, id, n) {
      if n == name {
        assert key in after;
      } else {
        assert NameRow(names, catalog, bound, n);
        RowsStay(catalog, key, after[key], FromI64Be(names[n]));
      }
    }
    NewNameDistinct(names, name, id);
    forall k | k in after ensures CatalogRow(names', after, k) {
      if k == key {
        assert IsCatalogKey(k, id);
      } else {
        assert CatalogRow(names, catalog, k);
      }
    }
  }

  lemma NewNameDistinct(names: Database, name: Name, id: CollectionId)
    requires DistinctIds(names) && name !in names
    requires forall n | n in names :: |names[n]| == 8 && FromI64Be(names[n]) != id
    ensures DistinctIds(names[name := I64Be(id)])
  {
    I64RoundTrip(id);
  }

  /** Ids above the bound are not in the catalog. */
  lemma FreshCollection(names: Database, catalog: Database, bound: U64, id: CollectionId)
    requires CatalogOk(names, catalog, bound) && bound < id
    ensures !HasCatalogRow(catalog, id)
    ensures forall name | name in names :: |names[name]| == 8 && FromI64Be(names[name]) != id
  {
    forall name | name in names ensures |names[name]| == 8 && FromI64Be(names[name]) != id {
      assert NameRow(names, catalog, bound, name);
    }
    if v: U64 :| EncodeCollectionCatalogKey(id, v) in catalog {
      VersionsCarryName(names, catalog, bound, id, v);
    }
  }

  /** Every version of an id carries the name that leads to the id. */
  lemma VersionsCarryName(names: Database, catalog: Database, bound: U64, id: CollectionId, v: U64)
    requires CatalogOk(names, catalog, bound) && EncodeCollectionCatalogKey(id, v) in catalog
    ensures DecodeCollectionCatalogValue(catalog[EncodeCollectionCatalogKey(id, v)]).Success?
    ensures NamesId(names, DecodeCollectionCatalogValue(catalog[EncodeCollectionCatalogKey(id, v)]).value.0, id)
  {
    var key := EncodeCollectionCatalogKey(id, v);
    assert CatalogRow(names, catalog, key);
    var n := DecodeCollectionCatalogValue(catalog[key]).value.0;
    var w: U64 :| key == EncodeCollectionCatalogKey(FromI64Be(names[n]), w);
    CollectionCatalogKeyOrder(id, v, FromI64Be(names[n]), w);
  }

  lemma IdNamedOnce(names: Database, m: Bytes, n: Bytes, id: CollectionId)
    requires DistinctIds(names) && NamesId(names, m, id) && NamesId(names, n, id)
    ensures m == n
  {
    I64Onto(names[m]);
    I64Onto(names[n]);
  }

  /** A catalog lookup never meets a name other than the one that leads to the id. */
  lemma CatalogNames(names: Database, catalog: Database, bound: U64, name: Bytes, id: CollectionId, ts: U64)
    requires CatalogOk(names, catalog, bound) && NamesId(names, name, id)
    ensures CollectionById(catalog, id, ts).Success?
    ensures CollectionById(catalog, id, ts).value.Some? ==> CollectionById(catalog, id, ts).value.value.0 == name
  {
    CollectionByIdIsNewest(names, catalog, bound, id, ts);
    if CollectionById(catalog, id, ts).value.Some? {
      var v: U64 :| NewestRow(catalog, ts, id, v)
        && DecodeCollectionCatalogValue(catalog[EncodeCollectionCatalogKey(id, v)])
           == Success(CollectionById(catalog, id, ts).value.value);
      VersionsCarryName(names, catalog, bound, id, v);
      IdNamedOnce(names, name, CollectionById(catalog, id, ts).value.value.0, id);
    }
  }

  // ------------------------------------------------------------- index catalog

  /** Index ids are positive, within the bound, and belong to one catalog row each. */
  ghost predicate IndexCatalogOk(catalog: Database, bound: U64) {
    && (forall k | k in catalog :: DecodeIndexCatalogValue(catalog[k]).Success? && 1 <= IndexIdAt(catalog, k) <= bound)
    && (forall k, l | k in catalog && l in catalog && IndexIdAt(catalog, k) == IndexIdAt(catalog, l) :: k == l)
  }

  function IndexIdAt(catalog: Database, k: Bytes): IndexId {
    if k in catalog && |catalog[k]| >= 8 then FromI64Be(catalog[k][..8]) else 0
  }

  lemma NewIndexRow(catalog: Database, bound: U64, key: Bytes, id: IndexId, config: Bytes)
    requires IndexCatalogOk(catalog, bound) && key !in catalog && 0 <= bound < id
    ensures IndexCatalogOk(catalog[key := EncodeIndexCatalogValue(id, config)], id)
    ensures IndexIdAt(catalog[key := EncodeIndexCatalogValue(id, config)], key) == id
    ensures forall k | k in catalog :: IndexIdAt(catalog, k) != id
  {
    var after := catalog[key := EncodeIndexCatalogValue(id, config)];
    IndexCatalogValueRoundTrip(id, config);
    assert IndexIdAt(after, key) == id;
    assert forall k | k in catalog :: IndexIdAt(after, k) == IndexIdAt(catalog, k);
  }
}
