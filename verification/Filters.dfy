/** Lowering filter expressions to comparisons on encoded bytes (crates/database/src/query/builder.rs). */
module Filters {
  import opened ByteStrings
  import opened Types
  import opened KeyEncoding
  import opened KeyOrder

  datatype ComparisonOperator = Eq | Neq | Gt | Gte | Lt | Lte

  datatype FilterExpr =
    | AllOf(exprs: seq<FilterExpr>)
    | AnyOf(exprs: seq<FilterExpr>)
    | Negate(inner: FilterExpr)
    | Compare(field: Bytes, operator: ComparisonOperator, value: Value)

  datatype Filter =
    | And(filters: seq<Filter>)
    | Or(filters: seq<Filter>)
    | Not(negated: Filter)
    | Comparison(field: Bytes, operator: ComparisonOperator, value: Bytes)

  // ---------------------------------------------------------------- meaning

  /** A document as far as filters see it; a missing field is Undefined. */
  type Fields = map<Bytes, Value>

  function Lookup(doc: Fields, field: Bytes): Option<Value> {
    if field in doc then Some(doc[field]) else None
  }

  ghost predicate CompareValues(operator: ComparisonOperator, a: Option<Value>, b: Option<Value>)
    requires IsScalar(a) && IsScalar(b)
  {
    match operator
    case Eq => FieldEqual(a, b)
    case Neq => !FieldEqual(a, b)
    case Gt => FieldLess(b, a)
    case Gte => FieldLess(b, a) || FieldEqual(a, b)
    case Lt => FieldLess(a, b)
    case Lte => FieldLess(a, b) || FieldEqual(a, b)
  }

  ghost predicate CompareBytes(operator: ComparisonOperator, a: Bytes, b: Bytes) {
    match operator
    case Eq => a == b
    case Neq => a != b
    case Gt => Less(b, a)
    case Gte => !Less(a, b)
    case Lt => Less(a, b)
    case Lte => !Less(b, a)
  }

  /** Every comparison operand in the tree is a scalar. */
  predicate Lowerable(expr: FilterExpr) {
    match expr
    case AllOf(exprs) => forall e | e in exprs :: Lowerable(e)
    case AnyOf(exprs) => forall e | e in exprs :: Lowerable(e)
    case Negate(inner) => Lowerable(inner)
    case Compare(_, _, value) => IsScalar(Some(value))
  }

  /** The fields that the expression names are absent or scalar; the document's other fields are of no interest. */
  predicate NamesScalars(expr: FilterExpr, doc: Fields) {
    match expr
    case AllOf(exprs) => forall e | e in exprs :: NamesScalars(e, doc)
    case AnyOf(exprs) => forall e | e in exprs :: NamesScalars(e, doc)
    case Negate(inner) => NamesScalars(inner, doc)
    case Compare(field, _, _) => IsScalar(Lookup(doc, field))
  }

  ghost predicate Holds(expr: FilterExpr, doc: Fields)
    requires NamesScalars(expr, doc) && Lowerable(expr)
  {
    match expr
    case AllOf(exprs) => forall e | e in exprs :: Holds(e, doc)
    case AnyOf(exprs) => exists e | e in exprs :: Holds(e, doc)
    case Negate(inner) => !Holds(inner, doc)
    case Compare(field, operator, value) => CompareValues(operator, Lookup(doc, field), Some(value))
  }

  /** The fields that the filter compares are absent or scalar. */
  predicate ComparesScalars(filter: Filter, doc: Fields) {
    match filter
    case And(filters) => forall f | f in filters :: ComparesScalars(f, doc)
    case Or(filters) => forall f | f in filters :: ComparesScalars(f, doc)
    case Not(inner) => ComparesScalars(inner, doc)
    case Comparison(field, _, _) => IsScalar(Lookup(doc, field))
  }

  /** Evaluation by comparing a field's key bytes with the operand's. */
  ghost predicate Accepts(filter: Filter, doc: Fields)
    requires ComparesScalars(filter, doc)
  {
    match filter
    case And(filters) => forall f | f in filters :: Accepts(f, doc)
    case Or(filters) => exists f | f in filters :: Accepts(f, doc)
    case Not(inner) => !Accepts(inner, doc)
    case Comparison(field, operator, value) => CompareBytes(operator, EncodedField(Lookup(doc, field)), value)
  }

  // --------------------------------------------------------------- lowering

  /** `None` stands for the encoding error. */
  function FilterExprToFilter(expr: FilterExpr): Option<Filter> {
    match expr
    case AllOf(exprs) => (match LowerAll(exprs) case Some(fs) => Some(And(fs)) case None => None)
    case AnyOf(exprs) => (match LowerAll(exprs) case Some(fs) => Some(Or(fs)) case None => None)
    case Negate(inner) => (match FilterExprToFilter(inner) case Some(f) => Some(Not(f)) case None => None)
    case Compare(field, operator, value) =>
      match EncodedEntry([Some(value)])
      case Encoded(bytes) => Some(Comparison(field, operator, bytes))
      case NotAScalar => None
  }

  /** Lower one by one, stopping at the first error. */
  function LowerAll(exprs: seq<FilterExpr>): Option<seq<Filter>> {
    if exprs == [] then Some([])
    else
      match FilterExprToFilter(exprs[0])
      case None => None
      case Some(first) =>
        match LowerAll(exprs[1..])
        case None => None
        case Some(rest) => Some([first] + rest)
  }

  lemma SingleField(value: Value)
    ensures EncodedEntry([Some(value)])
         == if IsScalar(Some(value)) then Encoded(EncodedField(Some(value))) else NotAScalar
  {
    var entry: Entry := [Some(value)];
    if IsScalar(Some(value)) {
      EncodedFieldsOfOne(Some(value));
    } else {
      assert entry[0] in entry;
    }
  }

  lemma ComparisonsAgree(operator: ComparisonOperator, a: Option<Value>, b: Option<Value>)
    requires IsScalar(a) && IsScalar(b)
    ensures CompareBytes(operator, EncodedField(a), EncodedField(b)) <==> CompareValues(operator, a, b)
  {
    EncodedFieldsOfOne(a);
    EncodedFieldsOfOne(b);
    EntryOrder([a], [b]);
    EntryOrder([b], [a]);
    FieldTrichotomy(a, b);
    assert [a][1..] == [] && [b][1..] == [];
    assert EntryEqual([a], [b]) <==> FieldEqual([a][0], [b][0]);
  }

  /**
   The comparisons come in opposite pairs, on values as on bytes, and the operand itself meets `Eq`, `Gte` and `Lte`.
   */
  lemma ComparisonsComplement(a: Option<Value>, b: Option<Value>)
    requires IsScalar(a) && IsScalar(b)
    ensures CompareValues(Neq, a, b) <==> !CompareValues(Eq, a, b)
    ensures CompareValues(Gte, a, b) <==> !CompareValues(Lt, a, b)
    ensures CompareValues(Lte, a, b) <==> !CompareValues(Gt, a, b)
    ensures CompareValues(Gt, a, b) <==> CompareValues(Lt, b, a)
    ensures FieldEqual(a, b) ==> CompareValues(Eq, a, b) && CompareValues(Gte, a, b) && CompareValues(Lte, a, b)
    ensures FieldLess(a, b) ==> CompareValues(Lt, a, b)
  {
    FieldTrichotomy(a, b);
    assert FieldEqual(a, b) <==> FieldEqual(b, a);
  }

  lemma EncodedFieldsOfOne(a: Option<Value>)
    requires IsScalar(a)
    ensures AllScalar([a]) && EncodedFields([a]) == EncodedField(a)
  {
    assert [a][1..] == [];
  }

  /** The filter reads the same fields as the expression, and accepts the documents on which it holds. */
  ghost predicate SameMeaning(filter: Filter, expr: FilterExpr, doc: Fields)
    requires Lowerable(expr)
  {
    && (ComparesScalars(filter, doc) <==> NamesScalars(expr, doc))
    && (ComparesScalars(filter, doc) && NamesScalars(expr, doc) ==> (Accepts(filter, doc) <==> Holds(expr, doc)))
  }

  /** Lowering fails exactly when some operand is an array or a document, and keeps the meaning otherwise. */
  lemma {:induction false} LoweringPreservesMeaning(expr: FilterExpr, doc: Fields)
    ensures FilterExprToFilter(expr).Some? <==> Lowerable(expr)
    ensures FilterExprToFilter(expr).Some? ==> SameMeaning(FilterExprToFilter(expr).value, expr, doc)
    decreases expr
  {
    match expr
    case AllOf(exprs) => LoweringAllPreservesMeaning(exprs, doc);
    case AnyOf(exprs) => LoweringAllPreservesMeaning(exprs, doc);
    case Negate(inner) => LoweringPreservesMeaning(inner, doc);
    case Compare(field, operator, value) =>
      SingleField(value);
      if IsScalar(Some(value)) && IsScalar(Lookup(doc, field)) {
        ComparisonsAgree(operator, Lookup(doc, field), Some(value));
      }
  }

  lemma {:induction false} LoweringAllPreservesMeaning(exprs: seq<FilterExpr>, doc: Fields)
    ensures LowerAll(exprs).Some? <==> forall i | 0 <= i < |exprs| :: Lowerable(exprs[i])
    ensures LowerAll(exprs).Some? ==>
      && |LowerAll(exprs).value| == |exprs|
      && (forall i | 0 <= i < |exprs| :: SameMeaning(LowerAll(exprs).value[i], exprs[i], doc))
    decreases exprs
  {
    if exprs != [] {
      LoweringPreservesMeaning(exprs[0], doc);
      LoweringAllPreservesMeaning(exprs[1..], doc);
      assert forall i | 1 <= i < |exprs| :: exprs[i] == exprs[1..][i - 1];
      assert forall i | 0 <= i < |exprs| - 1 :: exprs[1..][i] == exprs[i + 1];
    }
  }

  // ----------------------------------------------------------- several filters

  /** The conjunction of the lowered filters, as at most one filter. */
  function Combined(filters: seq<Filter>): Option<Filter> {
    if filters == [] then None
    else if |filters| == 1 then Some(filters[0])
    else Some(And(filters))
  }

  method BuildFilter(filters: seq<FilterExpr>) returns (r: Option<Option<Filter>>)
    ensures r.Some? <==> LowerAll(filters).Some?
    ensures r.Some? ==> r.value == Combined(LowerAll(filters).value)
  {
    var converted: seq<Filter> := [];
    var i := 0;
    while i < |filters|
      invariant 0 <= i <= |filters|
      invariant LowerAll(filters[..i]) == Some(converted)
    {
      LowerAllAppend(filters[..i], filters[i]);
      assert filters[..i + 1] == filters[..i] + [filters[i]];
      var filter := FilterExprToFilter(filters[i]);
      if filter.None? {
        LowerAllPrefix(filters, i + 1);
        return None;
      }
      converted := converted + [filter.value];
      i := i + 1;
    }
    assert filters[..i] == filters;
    match |converted| {
      case 0 => return Some(None);
      case 1 => return Some(Some(converted[0]));
      case _ => return Some(Some(And(converted)));
    }
  }

  lemma {:induction false} LowerAllAppend(exprs: seq<FilterExpr>, e: FilterExpr)
    ensures LowerAll(exprs + [e]) ==
      if LowerAll(exprs).Some? && FilterExprToFilter(e).Some?
      then Some(LowerAll(exprs).value + [FilterExprToFilter(e).value]) else None
  {
    if exprs == [] {
      assert exprs + [e] == [e] && [e][1..] == [];
      assert LowerAll([]) == Some([]);
      if FilterExprToFilter(e).Some? {
        var last := FilterExprToFilter(e).value;
        assert [last] + [] == [] + [last];
      }
    } else {
      LowerAllAppend(exprs[1..], e);
      assert (exprs + [e])[1..] == exprs[1..] + [e];
      assert (exprs + [e])[0] == exprs[0];
      if LowerAll(exprs).Some? && FilterExprToFilter(e).Some? {
        var first, rest, last := FilterExprToFilter(exprs[0]).value, LowerAll(exprs[1..]).value,
        FilterExprToFilter(e).value;
        assert [first] + (rest + [last]) == ([first] + rest) + [last];
      }
    }
  }

  lemma {:induction false} LowerAllPrefix(exprs: seq<FilterExpr>, n: nat)
    requires n <= |exprs| && LowerAll(exprs[..n]).None?
    ensures LowerAll(exprs).None?
  {
    if n > 0 {
      assert exprs[..n][1..] == exprs[1..][..n - 1];
      if FilterExprToFilter(exprs[0]).Some? {
        LowerAllPrefix(exprs[1..], n - 1);
      }
    }
  }

  lemma CombinedMeaning(filters: seq<Filter>, doc: Fields)
    requires forall i | 0 <= i < |filters| :: ComparesScalars(filters[i], doc)
    ensures Combined(filters).Some? ==> ComparesScalars(Combined(filters).value, doc)
    ensures (Combined(filters).Some? ==> Accepts(Combined(filters).value, doc))
       <==> forall i | 0 <= i < |filters| :: Accepts(filters[i], doc)
  {
    if |filters| > 1 {
      assert ComparesScalars(And(filters), doc);
      assert Accepts(And(filters), doc) <==> forall f | f in filters :: Accepts(f, doc);
    }
  }

  /** The assembled filter accepts the documents on which every expression holds. */
  lemma BuiltFilterMeaning(filters: seq<FilterExpr>, doc: Fields)
    requires forall i | 0 <= i < |filters| :: NamesScalars(filters[i], doc)
    ensures LowerAll(filters).Some? <==> forall i | 0 <= i < |filters| :: Lowerable(filters[i])
    ensures LowerAll(filters).Some? ==>
      var built := Combined(LowerAll(filters).value);
      && (built.Some? ==> ComparesScalars(built.value, doc))
      && ((built.Some? ==> Accepts(built.value, doc)) <==> forall i | 0 <= i < |filters| :: Holds(filters[i], doc))
  {
    LoweringAllPreservesMeaning(filters, doc);
    if LowerAll(filters).Some? {
      CombinedMeaning(LowerAll(filters).value, doc);
    }
  }
}
