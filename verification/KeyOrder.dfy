/** Why comparing encoded keys with `memcmp` compares the values field by field. */
module KeyOrder {
  import opened ByteStrings
  import opened Types
  import opened BigEndian
  import opened FloatOrder
  import opened KeyEncoding

  /** Escaping keeps the order and makes every difference explicit in the bytes. */
  lemma {:induction false} EscapedOrder(s: Bytes, t: Bytes)
    ensures Less(s, t) <==> Diverges(Escaped(s), Escaped(t))
    ensures s == t <==> Escaped(s) == Escaped(t)
    decreases |s|
  {
    if s != [] && t != [] && s[0] == t[0] {
      EscapedOrder(s[1..], t[1..]);
      assert s == [s[0]] + s[1..] && t == [t[0]] + t[1..];
      var head := if s[0] == 0 then [0x00, 0xFF] else [s[0]];
      assert Escaped(s) == head + Escaped(s[1..]) && Escaped(t) == head + Escaped(t[1..]);
      DivergesCommonPrefix(head, Escaped(s[1..]), Escaped(t[1..]));
      assert Escaped(s)[|head|..] == Escaped(s[1..]) && Escaped(t)[|head|..] == Escaped(t[1..]);
    } else {
      EscapedHead(s);
      EscapedHead(t);
      DivergesWithinTwo(Escaped(s), Escaped(t));
    }
  }

  lemma DivergesWithinTwo(u: Bytes, v: Bytes)
    requires |u| >= 2 && |v| >= 2
    ensures u[0] != v[0] ==> (Diverges(u, v) <==> u[0] < v[0])
    ensures u[0] == v[0] && u[1] != v[1] ==> (Diverges(u, v) <==> u[1] < v[1])
    ensures u == v ==> !Diverges(u, v)
  {
    assert u[1..][0] == u[1] && v[1..][0] == v[1];
    if u == v && Diverges(u, v) {
      DivergesNotPrefix(u, v);
    }
  }

  lemma EscapedHead(s: Bytes)
    ensures |Escaped(s)| >= 2
    ensures Escaped(s)[0] == if s == [] then 0 else s[0]
    ensures Escaped(s)[0] == 0 ==> Escaped(s)[1] == if s == [] then 0 else 0xFF
  {
  }

  lemma {:induction false} DivergesCommonPrefix(p: Bytes, a: Bytes, b: Bytes)
    ensures Diverges(p + a, p + b) <==> Diverges(a, b)
  {
    if p == [] {
      assert p + a == a && p + b == b;
    } else {
      DivergesCommonPrefix(p[1..], a, b);
      assert (p + a)[1..] == p[1..] + a && (p + b)[1..] == p[1..] + b;
    }
  }

  lemma U64Diverges(x: U64, y: U64)
    ensures Diverges(U64Be(x), U64Be(y)) <==> x < y
    ensures U64Be(x) == U64Be(y) <==> x == y
  {
    U64Order(x, y);
    SameWidthDiverges(U64Be(x), U64Be(y));
  }

  /** One field: logical order is a byte difference, logical equality is byte equality. */
  lemma FieldOrder(a: Option<Value>, b: Option<Value>)
    requires IsScalar(a) && IsScalar(b)
    ensures FieldLess(a, b) <==> Diverges(EncodedField(a), EncodedField(b))
    ensures FieldEqual(a, b) <==> EncodedField(a) == EncodedField(b)
  {
    var x, y := EncodedField(a), EncodedField(b);
    if x[0] == y[0] {
      assert x == [x[0]] + x[1..] && y == [y[0]] + y[1..];
      assert |x| == |y| == 1 ==> x[1..] == [] && y[1..] == [];
      match (a, b)
      case (Some(I64(i)), Some(I64(j))) =>
        assert x[1..] == U64Be(FlipSign(Unsigned(i))) && y[1..] == U64Be(FlipSign(Unsigned(j)));
        U64Diverges(FlipSign(Unsigned(i)), FlipSign(Unsigned(j)));
      case (Some(F64(i)), Some(F64(j))) =>
        assert x[1..] == U64Be(OrderedBits(i)) && y[1..] == U64Be(OrderedBits(j));
        U64Diverges(OrderedBits(i), OrderedBits(j));
        OrderedBitsOrder(i, j);
      case (Some(Str(s)), Some(Str(t))) =>
        assert x[1..] == Escaped(s) && y[1..] == Escaped(t);
        EscapedOrder(s, t);
      case (Some(Binary(s)), Some(Binary(t))) =>
        assert x[1..] == Escaped(s) && y[1..] == Escaped(t);
        EscapedOrder(s, t);
      case (Some(Bool(_)), Some(Bool(_))) =>
        DivergesWithinTwo(x, y);
      case _ =>
    }
  }

  /** The bytes of any fields of different types order them as Undefined, Null, Int, Float, Bool, String, Bytes. */
  lemma TypesOrder(b: bool, i: I64, bits: U64, s: Bytes, t: Bytes)
    ensures Less(EncodedField(None), EncodedField(Some(Null)))
    ensures Less(EncodedField(Some(Null)), EncodedField(Some(I64(i))))
    ensures Less(EncodedField(Some(I64(i))), EncodedField(Some(F64(bits))))
    ensures Less(EncodedField(Some(F64(bits))), EncodedField(Some(Bool(b))))
    ensures Less(EncodedField(Some(Bool(b))), EncodedField(Some(Str(s))))
    ensures Less(EncodedField(Some(Str(s))), EncodedField(Some(Binary(t))))
  {
  }

  /** Within a type the bytes order the values: integers, floats as numbers, false before true, strings as bytes. */
  lemma ValuesOrder(i: I64, j: I64, x: U64, y: U64, s: Bytes, t: Bytes)
    ensures Less(EncodedField(Some(I64(i))), EncodedField(Some(I64(j)))) <==> i < j
    ensures Less(EncodedField(Some(F64(x))), EncodedField(Some(F64(y))))
       <==> NumberLess(NumericValue(x), NumericValue(y))
    ensures Less(EncodedField(Some(Bool(false))), EncodedField(Some(Bool(true))))
    ensures Less(EncodedField(Some(Str(s))), EncodedField(Some(Str(t)))) <==> Less(s, t)
    ensures Less(EncodedField(Some(Binary(s))), EncodedField(Some(Binary(t)))) <==> Less(s, t)
  {
    FieldBytesOrder(Some(I64(i)), Some(I64(j)));
    FieldBytesOrder(Some(F64(x)), Some(F64(y)));
    FieldBytesOrder(Some(Bool(false)), Some(Bool(true)));
    FieldBytesOrder(Some(Str(s)), Some(Str(t)));
    FieldBytesOrder(Some(Binary(s)), Some(Binary(t)));
  }

  lemma FieldBytesOrder(a: Option<Value>, b: Option<Value>)
    requires IsScalar(a) && IsScalar(b)
    ensures Less(EncodedField(a), EncodedField(b)) <==> FieldLess(a, b)
  {
    FieldOrder(a, b);
    FieldPrefixFree(a, b);
    FieldTrichotomy(a, b);
    LessSplits(EncodedField(a), EncodedField(b));
  }

  /** Any two fields are logically equal or one is below the other, never two of these at once. */
  lemma FieldTrichotomy(a: Option<Value>, b: Option<Value>)
    requires IsScalar(a) && IsScalar(b)
    ensures FieldEqual(a, b) || FieldLess(a, b) || FieldLess(b, a)
    ensures !(FieldLess(a, b) && FieldLess(b, a))
    ensures FieldEqual(a, b) ==> !FieldLess(a, b) && !FieldLess(b, a)
  {
    match (a, b)
    case (Some(Str(s)), Some(Str(t))) =>
      LessTotal(s, t);
      if Less(s, t) { LessAsymmetric(s, t); }
      if Less(t, s) { LessAsymmetric(t, s); }
    case (Some(Binary(s)), Some(Binary(t))) =>
      LessTotal(s, t);
      if Less(s, t) { LessAsymmetric(s, t); }
      if Less(t, s) { LessAsymmetric(t, s); }
    case _ =>
  }

  lemma {:induction false} DivergesNotPrefix(a: Bytes, b: Bytes)
    requires Diverges(a, b)
    ensures !(a <= b) && !(b <= a)
    decreases |a|
  {
    assert a <= b ==> a[1..] <= b[1..];
    assert b <= a ==> b[1..] <= a[1..];
    if a[0] == b[0] {
      DivergesNotPrefix(a[1..], b[1..]);
    }
  }

  /** No encoded field is a proper prefix of another: fields delimit themselves. */
  lemma FieldPrefixFree(a: Option<Value>, b: Option<Value>)
    requires IsScalar(a) && IsScalar(b)
    ensures EncodedField(a) <= EncodedField(b) <==> FieldEqual(a, b)
  {
    FieldOrder(a, b);
    FieldOrder(b, a);
    FieldTrichotomy(a, b);
    if FieldLess(a, b) { DivergesNotPrefix(EncodedField(a), EncodedField(b)); }
    if FieldLess(b, a) { DivergesNotPrefix(EncodedField(b), EncodedField(a)); }
  }

  /** The encoding preserves order and reflects equality, for entries of any arity. */
  lemma {:induction false} EntryOrder(a: Entry, b: Entry)
    requires AllScalar(a) && AllScalar(b)
    ensures Less(EncodedFields(a), EncodedFields(b)) <==> EntryLess(a, b)
    ensures EncodedFields(a) == EncodedFields(b) <==> EntryEqual(a, b)
    decreases |a|
  {
    if a != [] && b != [] {
      var x, y := EncodedField(a[0]), EncodedField(b[0]);
      var u, v := EncodedFields(a[1..]), EncodedFields(b[1..]);
      FieldOrder(a[0], b[0]);
      FieldOrder(b[0], a[0]);
      FieldTrichotomy(a[0], b[0]);
      if FieldEqual(a[0], b[0]) {
        EntryOrder(a[1..], b[1..]);
        LessCommonPrefix(x, u, v);
        EntryEqualTail(a, b);
        assert (x + u)[|x|..] == u && (y + v)[|x|..] == v;
      } else if FieldLess(a[0], b[0]) {
        DivergesExtends(x, y, u, v);
        LessAsymmetric(x + u, y + v);
      } else {
        DivergesExtends(y, x, v, u);
        LessAsymmetric(y + v, x + u);
      }
    }
  }

  lemma EntryEqualTail(a: Entry, b: Entry)
    requires AllScalar(a) && AllScalar(b) && a != [] && b != []
    ensures EntryEqual(a, b) <==> FieldEqual(a[0], b[0]) && EntryEqual(a[1..], b[1..])
  {
    if EntryEqual(a, b) {
      assert forall i | 0 <= i < |a[1..]| :: a[1..][i] == a[i + 1] && b[1..][i] == b[i + 1];
    }
    if FieldEqual(a[0], b[0]) && EntryEqual(a[1..], b[1..]) {
      forall i | 0 <= i < |a| ensures FieldEqual(a[i], b[i]) {
        if i > 0 {
          assert a[i] == a[1..][i - 1] && b[i] == b[1..][i - 1];
        }
      }
    }
  }

  /** An entry's key extends another's exactly when its leading fields equal the other's. */
  lemma {:induction false} EntryPrefix(a: Entry, b: Entry)
    requires AllScalar(a) && AllScalar(b)
    ensures EncodedFields(a) <= EncodedFields(b) <==> |a| <= |b| && EntryEqual(a, b[..|a|])
    decreases |a|
  {
    if a == [] {
    } else if b == [] {
    } else {
      var x, y := EncodedField(a[0]), EncodedField(b[0]);
      var u, v := EncodedFields(a[1..]), EncodedFields(b[1..]);
      EntryPrefix(a[1..], b[1..]);
      FieldOrder(a[0], b[0]);
      FieldOrder(b[0], a[0]);
      FieldTrichotomy(a[0], b[0]);
      if |a| <= |b| {
        EntryEqualTail(a, b[..|a|]);
        assert b[..|a|][1..] == b[1..][..|a| - 1];
      }
      if FieldEqual(a[0], b[0]) {
        assert (x + u)[|x|..] == u && (y + v)[|x|..] == v;
        if x + u <= y + v { assert u <= v; }
        if u <= v { assert x + u <= y + v; }
      } else if FieldLess(a[0], b[0]) {
        DivergesExtends(x, y, u, v);
        DivergesNotPrefix(x + u, y + v);
      } else {
        DivergesExtends(y, x, v, u);
        DivergesNotPrefix(y + v, x + u);
      }
    }
  }
}
