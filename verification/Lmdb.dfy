/**
 The trusted key-value store. A database is a finite map in byte order; a
 DUP_SORT database is a finite set of rows in key-then-value order. Iterators
 over a snapshot are the remaining rows.
 */
module Lmdb {
  import opened ByteStrings
  import opened Sequences
  import opened Types

  type Database = map<Bytes, Bytes>

  datatype Row = Row(key: Bytes, value: Bytes)

  type DupDatabase = set<Row>

  datatype Bound = NoBound | Inclusive(key: Bytes) | Exclusive(key: Bytes)

  predicate RowLess(a: Row, b: Row) {
    Less(a.key, b.key) || (a.key == b.key && Less(a.value, b.value))
  }

  lemma RowOrder()
    ensures StrictOrder(RowLess) && Connected(RowLess)
  {
    forall a ensures !RowLess(a, a) {
      LessIrreflexive(a.key);
      LessIrreflexive(a.value);
    }
    forall a, b, c | RowLess(a, b) && RowLess(b, c) ensures RowLess(a, c) {
      if Less(a.key, b.key) && Less(b.key, c.key) {
        LessTransitive(a.key, b.key, c.key);
      } else if a.key == b.key == c.key {
        LessTransitive(a.value, b.value, c.value);
      }
    }
    forall a, b ensures a == b || RowLess(a, b) || RowLess(b, a) {
      LessTotal(a.key, b.key);
      LessTotal(a.value, b.value);
    }
  }

  function Rows(db: Database): set<Row> {
    set k | k in db :: Row(k, db[k])
  }

  predicate Above(key: Bytes, lower: Bound) {
    match lower
    case NoBound => true
    case Inclusive(k) => AtMost(k, key)
    case Exclusive(k) => Less(k, key)
  }

  predicate Below(key: Bytes, upper: Bound) {
    match upper
    case NoBound => true
    case Inclusive(k) => AtMost(key, k)
    case Exclusive(k) => Less(key, k)
  }

  /** `range` and `rev_range`. */
  function Range(rows: set<Row>, lower: Bound, upper: Bound, direction: Direction): (r: seq<Row>)
    ensures Sorted(Toward(RowLess, direction), r)
    ensures forall x :: x in r <==> x in rows && Above(x.key, lower) && Below(x.key, upper)
  {
    RowOrder();
    var ascending := Enumerate(RowLess, set x | x in rows && Above(x.key, lower) && Below(x.key, upper));
    DirectedSorted(RowLess, direction, ascending);
    Directed(ascending, direction)
  }

  /** `prefix_iter` and `rev_prefix_iter`, moving through duplicates. */
  function PrefixRows(rows: set<Row>, prefix: Bytes, direction: Direction): (r: seq<Row>)
    ensures Sorted(Toward(RowLess, direction), r)
    ensures forall x :: x in r <==> x in rows && prefix <= x.key
  {
    RowOrder();
    var ascending := Enumerate(RowLess, set x | x in rows && prefix <= x.key);
    DirectedSorted(RowLess, direction, ascending);
    Directed(ascending, direction)
  }

  lemma LastIsGreatest(below: seq<Row>, x: Row)
    requires Sorted(RowLess, below) && x in below
    ensures AtMost(x.key, below[|below| - 1].key)
  {
    var i :| 0 <= i < |below| && below[i] == x;
    assert i == |below| - 1 || RowLess(below[i], below[|below| - 1]);
  }

  /** `get_lower_than_or_equal_to`. */
  function GreatestAtMost(db: Database, key: Bytes): (r: Option<Row>)
    ensures r.Some? ==> r.value.key in db && r.value.value == db[r.value.key] && AtMost(r.value.key, key)
    ensures forall k | k in db && AtMost(k, key) :: r.Some? && AtMost(k, r.value.key)
  {
    var below := Range(Rows(db), NoBound, Inclusive(key), Forward);
    assert forall k | k in db && AtMost(k, key) :: below != [] && AtMost(k, below[|below| - 1].key) by {
      forall k | k in db && AtMost(k, key)
        ensures below != [] && AtMost(k, below[|below| - 1].key)
      {
        assert Row(k, db[k]) in below;
        LastIsGreatest(below, Row(k, db[k]));
      }
    }
    if below == [] then None
    else
      assert below[|below| - 1] in below;
      Some(below[|below| - 1])
  }
}
