/** Lowering an index filter to a byte range (crates/database/src/query/builder.rs). */
module IndexRanges {
  import opened ByteStrings
  import opened Types
  import opened Lmdb
  import opened KeyEncoding
  import opened KeyOrder

  datatype LowerBound = Gt(value: Value) | Gte(value: Value)

  datatype UpperBound = Lt(value: Value) | Lte(value: Value)

  /** Equalities on the leading fields, then bounds on the next one, each with its field name. */
  datatype IndexFilter = IndexFilter(
    indexName: Bytes,
    eq: seq<(Bytes, Value)>,
    lower: Option<(Bytes, LowerBound)>,
    upper: Option<(Bytes, UpperBound)>)

  datatype WithIndex = WithIndex(indexName: Bytes, lower: (seq<Bytes>, Bound), upper: (seq<Bytes>, Bound))

  // -------------------------------------------------------- prefix successor

  predicate AllOnes(p: Bytes) {
    forall i | 0 <= i < |p| :: p[i] == 0xFF
  }

  function Successor(p: Bytes): (s: Option<Bytes>)
    ensures s.None? <==> AllOnes(p)
  {
    if p == [] then None
    else
      var last := |p| - 1;
      assert p == p[..last] + [p[last]];
      if p[last] == 0xFF then Successor(p[..last]) else Some(p[..last] + [p[last] + 1])
  }

  method PrefixSuccessor(prefix: Bytes) returns (r: Option<Bytes>)
    ensures r == Successor(prefix)
  {
    var out := prefix;
    while out != []
      invariant Successor(out) == Successor(prefix)
      decreases |out|
    {
      var last := out[|out| - 1];
      if last == 0xFF {
        out := out[..|out| - 1];
      } else {
        return Some(out[..|out| - 1] + [last + 1]);
      }
    }
    return None;
  }

  /** The keys that start with `p` are the keys from `p` up to its successor. */
  lemma {:induction false} PrefixIsRange(p: Bytes, key: Bytes)
    ensures p <= key <==> AtMost(p, key) && (Successor(p).Some? ==> Less(key, Successor(p).value))
  {
    if p != [] {
      var last := |p| - 1;
      var init := p[..last];
      assert p == init + [p[last]];
      LessSplits(p, key);
      if p[last] == 0xFF {
        PrefixIsRange(init, key);
        OnesAreLast(init, key);
      } else {
        var s := init + [p[last] + 1];
        LessSplits(key, s);
        if init <= key {
          var tail := key[last..];
          assert key == init + tail;
          LessCommonPrefix(init, tail, [p[last] + 1]);
          LessCommonPrefix(init, [p[last]], tail);
          assert p <= key <==> tail != [] && tail[0] == p[last];
        } else {
          SameSideOfPrefix(init, [p[last]], [p[last] + 1], key);
        }
      }
    }
  }

  /** A key that does not extend `p` is on the same side of every extension of `p`. */
  lemma {:induction false} SameSideOfPrefix(p: Bytes, x: Bytes, y: Bytes, key: Bytes)
    requires !(p <= key)
    ensures AtMost(p + x, key) <==> AtMost(p + y, key)
    ensures Less(key, p + x) <==> Less(key, p + y)
    ensures p + x != key && p + y != key
    ensures AtMost(p + x, key) <==> !Less(key, p + y)
  {
    assert forall z :: p <= p + z;
    if key != [] && key[0] == p[0] {
      assert p == [p[0]] + p[1..] && key == [key[0]] + key[1..];
      SameSideOfPrefix(p[1..], x, y, key[1..]);
      assert (p + x)[1..] == p[1..] + x && (p + y)[1..] == p[1..] + y;
      assert p + x == [p[0]] + (p[1..] + x) && p + y == [p[0]] + (p[1..] + y);
    }
  }

  lemma OnesAreLast(init: Bytes, key: Bytes)
    ensures init <= key && AtMost(init + [0xFF], key) ==> init + [0xFF] <= key
    ensures !(init <= key) ==> (AtMost(init, key) <==> AtMost(init + [0xFF], key))
  {
    if init <= key {
      var tail := key[|init|..];
      assert key == init + tail;
      LessCommonPrefix(init, [0xFF], tail);
      if AtMost(init + [0xFF], key) && tail != [] {
        assert key[|init|] == tail[0];
      }
    } else {
      SameSideOfPrefix(init, [], [0xFF], key);
      assert init + [] == init;
    }
  }

  /** The successor is above every extension of `p` and no smaller key is. */
  lemma SuccessorIsLeast(p: Bytes, bound: Bytes)
    requires Successor(p).Some?
    requires forall x | p <= x :: Less(x, bound)
    ensures AtMost(Successor(p).value, bound)
  {
    var s := Successor(p).value;
    LessTotal(s, bound);
    if Less(bound, s) {
      assert p <= p && Less(p, bound);
      PrefixIsRange(p, bound);
      assert Less(bound, bound);
      LessIrreflexive(bound);
    }
  }

  function Ones(n: nat): (r: Bytes)
    ensures |r| == n && AllOnes(r)
  {
    seq(n, _ => 0xFF)
  }

  lemma {:induction false} OnesAreGreatest(ones: Bytes, key: Bytes)
    requires AllOnes(ones) && |key| <= |ones|
    ensures !Less(ones, key)
    decreases |key|
  {
    if key != [] {
      OnesAreGreatest(ones[1..], key[1..]);
    }
  }

  /** Without a successor no key is above every extension, so the scan must be unbounded. */
  lemma NoSuccessorNoBound(p: Bytes, bound: Bytes) returns (extension: Bytes)
    requires Successor(p).None?
    ensures p <= extension && !Less(extension, bound)
  {
    extension := p + Ones(|bound|);
    OnesAreGreatest(extension, bound);
  }

  // ---------------------------------------------------------------- lowering

  function EqEntry(eq: seq<(Bytes, Value)>): (e: Entry)
    ensures |e| == |eq|
    ensures AllScalar(e) <==> forall i | 0 <= i < |eq| :: IsScalar(Some(eq[i].1))
  {
    var e: Entry := seq(|eq|, i requires 0 <= i < |eq| => Some(eq[i].1));
    assert forall i | 0 <= i < |eq| :: e[i] in e && e[i] == Some(eq[i].1);
    assert AllScalar(e) <==> forall i | 0 <= i < |e| :: IsScalar(e[i]);
    e
  }

  function EqNames(eq: seq<(Bytes, Value)>): (names: seq<Bytes>)
    ensures |names| == |eq|
  {
    seq(|eq|, i requires 0 <= i < |eq| => eq[i].0)
  }

  /** A bound's names are the fields whose values its bytes hold, in index order; an open end holds none. */
  ghost predicate Tagged(tagged: (seq<Bytes>, Bound), eq: seq<(Bytes, Value)>, range: Option<Bytes>) {
    var (names, bound) := tagged;
    if bound.NoBound? then names == []
    else
      && |names| == |eq| + (if range.Some? then 1 else 0)
      && (forall i | 0 <= i < |eq| :: names[i] == eq[i].0)
      && (range.Some? ==> names[|eq|] == range.value)
  }

  function Attach(names: seq<Bytes>, bound: Bound): (seq<Bytes>, Bound) {
    if bound.NoBound? then ([], NoBound) else (names, bound)
  }

  predicate ScalarOperands(filter: IndexFilter) {
    && (forall i | 0 <= i < |filter.eq| :: IsScalar(Some(filter.eq[i].1)))
    && (filter.lower.Some? ==> IsScalar(Some(filter.lower.value.1.value)))
    && (filter.upper.Some? ==> IsScalar(Some(filter.upper.value.1.value)))
  }

  function Prefix(filter: IndexFilter): Bytes
    requires ScalarOperands(filter)
  {
    EncodedFields(EqEntry(filter.eq))
  }

  function LowerKey(filter: IndexFilter): Bound
    requires ScalarOperands(filter)
  {
    match filter.lower
    case None => if filter.eq == [] then NoBound else Inclusive(Prefix(filter))
    case Some((_, Gt(v))) => Exclusive(Prefix(filter) + EncodedField(Some(v)))
    case Some((_, Gte(v))) => Inclusive(Prefix(filter) + EncodedField(Some(v)))
  }

  function UpperKey(filter: IndexFilter): Bound
    requires ScalarOperands(filter)
  {
    match filter.upper
    case None => (match Successor(Prefix(filter)) case Some(s) => Exclusive(s) case None => NoBound)
    case Some((_, Lt(v))) => Exclusive(Prefix(filter) + EncodedField(Some(v)))
    case Some((_, Lte(v))) => Inclusive(Prefix(filter) + EncodedField(Some(v)))
  }

  lemma RangeKey(entry: Entry, value: Value)
    requires AllScalar(entry)
    ensures EncodedEntry(entry + [Some(value)])
         == if IsScalar(Some(value)) then Encoded(EncodedFields(entry) + EncodedField(Some(value))) else NotAScalar
  {
    if IsScalar(Some(value)) {
      EncodedFieldsAppend(entry, [Some(value)]);
      assert EncodedFields([Some(value)]) == EncodedField(Some(value)) + EncodedFields([]);
    } else {
      assert (entry + [Some(value)])[|entry|] in entry + [Some(value)];
    }
  }

  /** `None` when some operand is an array or a document. */
  method BuildWithIndex(filter: IndexFilter) returns (r: Option<WithIndex>)
    ensures r.Some? <==> ScalarOperands(filter)
    ensures r.Some? ==> r.value.indexName == filter.indexName
    ensures r.Some? ==> r.value.lower.1 == LowerKey(filter) && r.value.upper.1 == UpperKey(filter)
    ensures r.Some? ==>
      Tagged(r.value.lower, filter.eq, if filter.lower.Some? then Some(filter.lower.value.0) else None)
    ensures r.Some? ==>
      Tagged(r.value.upper, filter.eq, if filter.upper.Some? then Some(filter.upper.value.0) else None)
  {
    var eqFields := EqNames(filter.eq);
    var prefixFields := EqEntry(filter.eq);
    var encoding := EncodeEntry(prefixFields);
    if encoding.NotAScalar? {
      return None;
    }
    var prefix := encoding.bytes;
    var prefixStart := if filter.eq != [] then Inclusive(prefix) else NoBound;
    var successor := PrefixSuccessor(prefix);
    var prefixEnd := match successor case Some(s) => Exclusive(s) case None => NoBound;
    PrefixHasSuccessor(prefixFields);

    var lower, upper;
    match filter.lower {
      case None => lower := Attach(eqFields, prefixStart);
      case Some((field, bound)) =>
        RangeKey(prefixFields, bound.value);
        encoding := EncodeEntry(prefixFields + [Some(bound.value)]);
        if encoding.NotAScalar? {
          return None;
        }
        var key := encoding.bytes;
        lower := Attach(eqFields + [field], if bound.Gt? then Exclusive(key) else Inclusive(key));
    }
    match filter.upper {
      case None => upper := Attach(eqFields, prefixEnd);
      case Some((field, bound)) =>
        RangeKey(prefixFields, bound.value);
        encoding := EncodeEntry(prefixFields + [Some(bound.value)]);
        if encoding.NotAScalar? {
          return None;
        }
        var key := encoding.bytes;
        upper := Attach(eqFields + [field], if bound.Lt? then Exclusive(key) else Inclusive(key));
    }
    return Some(WithIndex(filter.indexName, lower, upper));
  }

  /** Type tags are small, so a non-empty encoded prefix always has a successor. */
  lemma PrefixHasSuccessor(entry: Entry)
    requires AllScalar(entry)
    ensures Successor(EncodedFields(entry)).Some? <==> entry != []
  {
    if entry != [] {
      var key := EncodedFields(entry);
      assert key[0] == EncodedField(entry[0])[0] < 0xFF;
    }
  }

  // ----------------------------------------------------------------- meaning

  ghost predicate InRange(key: Bytes, filter: IndexFilter)
    requires ScalarOperands(filter)
  {
    Above(key, LowerKey(filter)) && Below(key, UpperKey(filter))
  }

  /** An entry long enough for the filter to speak about its fields. */
  ghost predicate Covers(entry: Entry, filter: IndexFilter) {
    && AllScalar(entry)
    && |entry| >= |filter.eq| + (if filter.lower.Some? || filter.upper.Some? then 1 else 0)
  }

  /** The leading fields equal the values asked for, one by one. */
  ghost predicate EqMatches(entry: Entry, filter: IndexFilter)
    requires ScalarOperands(filter) && Covers(entry, filter)
  {
    forall i | 0 <= i < |filter.eq| :: FieldEqual(Some(filter.eq[i].1), entry[i])
  }

  lemma EqMatchesEntry(entry: Entry, filter: IndexFilter)
    requires ScalarOperands(filter) && Covers(entry, filter)
    ensures EqMatches(entry, filter) <==> EntryEqual(EqEntry(filter.eq), entry[..|filter.eq|])
  {
    var e := EqEntry(filter.eq);
    assert forall i | 0 <= i < |filter.eq| :: e[i] == Some(filter.eq[i].1) && entry[..|filter.eq|][i] == entry[i];
  }

  ghost predicate MeetsLower(field: Option<Value>, lower: LowerBound)
    requires IsScalar(field) && IsScalar(Some(lower.value))
  {
    FieldLess(Some(lower.value), field) || (lower.Gte? && FieldEqual(Some(lower.value), field))
  }

  ghost predicate MeetsUpper(field: Option<Value>, upper: UpperBound)
    requires IsScalar(field) && IsScalar(Some(upper.value))
  {
    FieldLess(field, Some(upper.value)) || (upper.Lte? && FieldEqual(Some(upper.value), field))
  }

  /** What the filter asks for. */
  ghost predicate Matches(entry: Entry, filter: IndexFilter)
    requires ScalarOperands(filter) && Covers(entry, filter)
  {
    && EqMatches(entry, filter)
    && (filter.lower.Some? ==> MeetsLower(entry[|filter.eq|], filter.lower.value.1))
    && (filter.upper.Some? ==> MeetsUpper(entry[|filter.eq|], filter.upper.value.1))
  }

  /** Whether fields follow the range field. */
  ghost predicate Trailing(entry: Entry, filter: IndexFilter) {
    |entry| > |filter.eq| + 1
  }

  /** The entry's range field equals the operand of an exclusive lower bound. */
  ghost predicate AtExcludedLower(entry: Entry, filter: IndexFilter)
    requires ScalarOperands(filter) && Covers(entry, filter)
  {
    filter.lower.Some? && filter.lower.value.1.Gt? && FieldEqual(Some(filter.lower.value.1.value), entry[|filter.eq|])
  }

  ghost predicate AtIncludedUpper(entry: Entry, filter: IndexFilter)
    requires ScalarOperands(filter) && Covers(entry, filter)
  {
    filter.upper.Some? && filter.upper.value.1.Lte? && FieldEqual(Some(filter.upper.value.1.value), entry[|filter.eq|])
  }

  /** The lower bound as the byte comparison applies it. */
  ghost predicate PassesLower(entry: Entry, filter: IndexFilter)
    requires ScalarOperands(filter) && Covers(entry, filter)
  {
    filter.lower.Some? ==>
      || MeetsLower(entry[|filter.eq|], filter.lower.value.1)
      || (Trailing(entry, filter) && AtExcludedLower(entry, filter))
  }

  ghost predicate PassesUpper(entry: Entry, filter: IndexFilter)
    requires ScalarOperands(filter) && Covers(entry, filter)
  {
    filter.upper.Some? ==>
      && MeetsUpper(entry[|filter.eq|], filter.upper.value.1)
      && !(Trailing(entry, filter) && AtIncludedUpper(entry, filter))
  }

  /** How an operand's encoding compares with a field's encoding and what follows it. */
  lemma FieldAgainstOperand(operand: Option<Value>, field: Option<Value>, rest: Bytes)
    requires IsScalar(operand) && IsScalar(field)
    ensures var x, y := EncodedField(operand), EncodedField(field) + rest;
            && (Less(x, y) <==> FieldLess(operand, field) || (FieldEqual(operand, field) && rest != []))
            && (Less(y, x) <==> FieldLess(field, operand))
            && (x == y <==> FieldEqual(operand, field) && rest == [])
  {
    var x, f := EncodedField(operand), EncodedField(field);
    FieldOrder(operand, field);
    FieldOrder(field, operand);
    FieldTrichotomy(operand, field);
    assert x + [] == x;
    if FieldEqual(operand, field) {
      LessCommonPrefix(x, [], rest);
      LessCommonPrefix(x, rest, []);
      if rest != [] { assert |x| < |f + rest|; } else { assert f + rest == f; }
    } else if FieldLess(operand, field) {
      DivergesExtends(x, f, [], rest);
      LessAsymmetric(x, f + rest);
    } else {
      DivergesExtends(f, x, rest, []);
      LessAsymmetric(f + rest, x);
    }
  }

  lemma {:induction false} EncodedNonEmpty(entry: Entry)
    requires AllScalar(entry)
    ensures EncodedFields(entry) != [] <==> entry != []
  {
  }

  /** Cut an entry's key after the fields of the equality prefix and the range field. */
  lemma KeyParts(entry: Entry, k: nat)
    requires AllScalar(entry) && k < |entry|
    ensures EncodedFields(entry) == EncodedFields(entry[..k]) + (EncodedField(entry[k]) + EncodedFields(entry[k + 1..]))
  {
    assert entry == entry[..k] + entry[k..];
    EncodedFieldsAppend(entry[..k], entry[k..]);
    assert entry[k..][1..] == entry[k + 1..];
  }

  lemma StartsWithPrefix(entry: Entry, filter: IndexFilter)
    requires ScalarOperands(filter) && Covers(entry, filter) && EqMatches(entry, filter)
    ensures EncodedFields(entry[..|filter.eq|]) == Prefix(filter)
    ensures Prefix(filter) <= EncodedFields(entry)
  {
    var k := |filter.eq|;
    EqMatchesEntry(entry, filter);
    EntryOrder(EqEntry(filter.eq), entry[..k]);
    assert entry == entry[..k] + entry[k..];
    EncodedFieldsAppend(entry[..k], entry[k..]);
  }

  lemma InsidePrefixLower(entry: Entry, filter: IndexFilter)
    requires ScalarOperands(filter) && Covers(entry, filter) && EqMatches(entry, filter)
    ensures Above(EncodedFields(entry), LowerKey(filter)) <==> PassesLower(entry, filter)
  {
    var k, p, key := |filter.eq|, Prefix(filter), EncodedFields(entry);
    StartsWithPrefix(entry, filter);
    if filter.lower.Some? {
      KeyParts(entry, k);
      var field, rest := EncodedField(entry[k]), EncodedFields(entry[k + 1..]);
      EncodedNonEmpty(entry[k + 1..]);
      var v := Some(filter.lower.value.1.value);
      FieldAgainstOperand(v, entry[k], rest);
      LessCommonPrefix(p, EncodedField(v), field + rest);
      ConcatEqual(p, EncodedField(v), field + rest);
    } else {
      PrefixIsRange(p, key);
    }
  }

  lemma InsidePrefixUpper(entry: Entry, filter: IndexFilter)
    requires ScalarOperands(filter) && Covers(entry, filter) && EqMatches(entry, filter)
    ensures Below(EncodedFields(entry), UpperKey(filter)) <==> PassesUpper(entry, filter)
  {
    var k, p, key := |filter.eq|, Prefix(filter), EncodedFields(entry);
    StartsWithPrefix(entry, filter);
    if filter.upper.Some? {
      KeyParts(entry, k);
      var field, rest := EncodedField(entry[k]), EncodedFields(entry[k + 1..]);
      EncodedNonEmpty(entry[k + 1..]);
      var v := Some(filter.upper.value.1.value);
      FieldAgainstOperand(v, entry[k], rest);
      FieldTrichotomy(v, entry[k]);
      LessCommonPrefix(p, field + rest, EncodedField(v));
      ConcatEqual(p, EncodedField(v), field + rest);
    } else {
      PrefixIsRange(p, key);
    }
  }

  lemma ConcatEqual(p: Bytes, x: Bytes, y: Bytes)
    ensures p + x == p + y <==> x == y
  {
    assert (p + x)[|p|..] == x && (p + y)[|p|..] == y;
  }

  lemma OutsidePrefix(entry: Entry, filter: IndexFilter)
    requires ScalarOperands(filter) && Covers(entry, filter) && !EqMatches(entry, filter)
    ensures !InRange(EncodedFields(entry), filter)
  {
    var p, key := Prefix(filter), EncodedFields(entry);
    EqMatchesEntry(entry, filter);
    EntryPrefix(EqEntry(filter.eq), entry);
    PrefixHasSuccessor(EqEntry(filter.eq));
    PrefixIsRange(p, key);
    var x := if filter.lower.Some? then EncodedField(Some(filter.lower.value.1.value)) else [];
    var y := if filter.upper.Some? then EncodedField(Some(filter.upper.value.1.value)) else [];
    assert p + [] == p;
    SameSideOfPrefix(p, x, y, key);
    SameSideOfPrefix(p, [], y, key);
    LessTotal(p, key);
    LessTotal(p + x, key);
    LessTotal(key, p + y);
    if AtMost(p + x, key) {
      if Less(p + x, key) { LessAsymmetric(p + x, key); }
      if Less(key, p + y) { LessAsymmetric(key, p + y); }
    }
  }

  /** The byte range holds exactly the keys that pass both bounds as bytes apply them, for any arity. */
  lemma RangeMeaning(entry: Entry, filter: IndexFilter)
    requires ScalarOperands(filter) && Covers(entry, filter)
    ensures InRange(EncodedFields(entry), filter)
       <==> EqMatches(entry, filter) && PassesLower(entry, filter) && PassesUpper(entry, filter)
  {
    if EqMatches(entry, filter) {
      InsidePrefixLower(entry, filter);
      InsidePrefixUpper(entry, filter);
    } else {
      OutsidePrefix(entry, filter);
    }
  }

  /**
   The only keys on which the range and the filter disagree sit on the operand of `Gt` or `Lte` with fields to follow.
   */
  lemma RangeExactness(entry: Entry, filter: IndexFilter)
    requires ScalarOperands(filter) && Covers(entry, filter)
    ensures (InRange(EncodedFields(entry), filter) <==> Matches(entry, filter))
       <==> !(&& EqMatches(entry, filter) && Trailing(entry, filter)
              && (|| (AtExcludedLower(entry, filter) && PassesUpper(entry, filter))
                  || (AtIncludedUpper(entry, filter)
                     && (filter.lower.Some? ==> MeetsLower(entry[|filter.eq|], filter.lower.value.1)))))
  {
    RangeMeaning(entry, filter);
    if filter.lower.Some? {
      FieldTrichotomy(Some(filter.lower.value.1.value), entry[|filter.eq|]);
    }
    if filter.upper.Some? {
      FieldTrichotomy(Some(filter.upper.value.1.value), entry[|filter.eq|]);
    }
  }

  /** Inclusive lower and exclusive upper bounds are exact for every arity; the other two when nothing follows. */
  lemma RangeExact(entry: Entry, filter: IndexFilter)
    requires ScalarOperands(filter) && Covers(entry, filter)
    requires Trailing(entry, filter) ==>
      && (filter.lower.Some? ==> filter.lower.value.1.Gte?)
      && (filter.upper.Some? ==> filter.upper.value.1.Lt?)
    ensures InRange(EncodedFields(entry), filter) <==> Matches(entry, filter)
  {
    RangeExactness(entry, filter);
  }

  /** `a > 1` over an index on (a, b) also scans the entry (1, null). */
  lemma GtKeepsOperandWithTrailingField()
    ensures var filter := IndexFilter([], [], Some(([], Gt(I64(1)))), None);
            var entry: Entry := [Some(I64(1)), Some(Null)];
            InRange(EncodedFields(entry), filter) && !Matches(entry, filter)
  {
    var filter := IndexFilter([], [], Some(([], Gt(I64(1)))), None);
    var entry: Entry := [Some(I64(1)), Some(Null)];
    RangeMeaning(entry, filter);
  }

  /** `a <= 1` over an index on (a, b) misses the entry (1, null). */
  lemma LteLosesOperandWithTrailingField()
    ensures var filter := IndexFilter([], [], None, Some(([], Lte(I64(1)))));
            var entry: Entry := [Some(I64(1)), Some(Null)];
            !InRange(EncodedFields(entry), filter) && Matches(entry, filter)
  {
    var filter := IndexFilter([], [], None, Some(([], Lte(I64(1)))));
    var entry: Entry := [Some(I64(1)), Some(Null)];
    RangeMeaning(entry, filter);
  }

  // ------------------------------------------------------------- complementary bounds

  /** Equalities alone, with a lower or with an upper bound on the next field. */
  function Bounded(eq: seq<(Bytes, Value)>, lower: Option<(Bytes, LowerBound)>,
                   upper: Option<(Bytes, UpperBound)>): IndexFilter {
    IndexFilter([], eq, lower, upper)
  }

  /**
   `Gte` and `Lt` of one operand cut the keys of the equalities in two, and so do `Gt` and `Lte`, whatever fields
   follow; the operand itself is on the side of `Gte`.
   */
  lemma RangesPartition(entry: Entry, eq: seq<(Bytes, Value)>, field: Bytes, v: Value)
    requires AllScalar(entry) && |entry| > |eq| && IsScalar(Some(v))
    requires forall i | 0 <= i < |eq| :: IsScalar(Some(eq[i].1))
    ensures var key, all := EncodedFields(entry), InRange(EncodedFields(entry), Bounded(eq, None, None));
      && (InRange(key, Bounded(eq, Some((field, Gte(v))), None))
          <==> all && !InRange(key, Bounded(eq, None, Some((field, Lt(v))))))
      && (InRange(key, Bounded(eq, Some((field, Gt(v))), None))
          <==> all && !InRange(key, Bounded(eq, None, Some((field, Lte(v))))))
      && (FieldEqual(Some(v), entry[|eq|]) && all ==> InRange(key, Bounded(eq, Some((field, Gte(v))), None)))
  {
    RangeMeaning(entry, Bounded(eq, None, None));
    RangeMeaning(entry, Bounded(eq, Some((field, Gte(v))), None));
    RangeMeaning(entry, Bounded(eq, Some((field, Gt(v))), None));
    RangeMeaning(entry, Bounded(eq, None, Some((field, Lt(v)))));
    RangeMeaning(entry, Bounded(eq, None, Some((field, Lte(v)))));
    FieldTrichotomy(Some(v), entry[|eq|]);
    SameEqualities(entry, eq, Some((field, Gte(v))), None);
    SameEqualities(entry, eq, Some((field, Gt(v))), None);
    SameEqualities(entry, eq, None, Some((field, Lt(v))));
    SameEqualities(entry, eq, None, Some((field, Lte(v))));
  }

  lemma SameEqualities(entry: Entry, eq: seq<(Bytes, Value)>, lower: Option<(Bytes, LowerBound)>,
                       upper: Option<(Bytes, UpperBound)>)
    requires ScalarOperands(Bounded(eq, lower, upper)) && Covers(entry, Bounded(eq, lower, upper))
    ensures EqMatches(entry, Bounded(eq, lower, upper)) <==> EqMatches(entry, Bounded(eq, None, None))
  {
  }
}
