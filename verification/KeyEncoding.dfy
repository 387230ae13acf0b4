/** The order-preserving key encoder (crates/database/src/encoding.rs) and what its bytes mean. */
module KeyEncoding {
  import opened ByteStrings
  import opened Types
  import opened BigEndian
  import opened FloatOrder
  import opened Sequences

  /** The document data model. A float is its bit pattern, a string its UTF-8 bytes. */
  datatype Value =
    | Null
    | Bool(b: bool)
    | I64(i: Types.I64)
    | F64(bits: U64)
    | Str(s: Bytes)
    | Binary(s: Bytes)
    | Array(items: seq<Value>)
    | Document(entries: seq<(Bytes, Value)>)

  datatype Encoding = Encoded(bytes: Bytes) | NotAScalar

  /** A compound index entry; an absent field is Undefined. */
  type Entry = seq<Option<Value>>

  predicate IsScalar(field: Option<Value>) {
    field.Some? ==> !field.value.Array? && !field.value.Document?
  }

  predicate AllScalar(entry: Entry) {
    forall field | field in entry :: IsScalar(field)
  }

  // --------------------------------------------------------- logical order

  function TypeRank(field: Option<Value>): nat
    requires IsScalar(field)
  {
    match field
    case None => 0
    case Some(Null) => 1
    case Some(I64(_)) => 2
    case Some(F64(_)) => 3
    case Some(Bool(_)) => 4
    case Some(Str(_)) => 5
    case Some(Binary(_)) => 6
  }

  /** Undefined < Null < Int < Float < Bool < String < Bytes, then by value. */
  predicate FieldLess(a: Option<Value>, b: Option<Value>)
    requires IsScalar(a) && IsScalar(b)
  {
    match (a, b)
    case (Some(I64(x)), Some(I64(y))) => x < y
    case (Some(F64(x)), Some(F64(y))) => NumberLess(NumericValue(x), NumericValue(y))
    case (Some(Bool(x)), Some(Bool(y))) => !x && y
    case (Some(Str(x)), Some(Str(y))) => Less(x, y)
    case (Some(Binary(x)), Some(Binary(y))) => Less(x, y)
    case _ => TypeRank(a) < TypeRank(b)
  }

  predicate FieldEqual(a: Option<Value>, b: Option<Value>)
    requires IsScalar(a) && IsScalar(b)
  {
    match (a, b)
    case (Some(F64(x)), Some(F64(y))) => NumericValue(x) == NumericValue(y)
    case _ => a == b
  }

  predicate EntryLess(a: Entry, b: Entry)
    requires AllScalar(a) && AllScalar(b)
    decreases |a|
  {
    if b == [] then false
    else if a == [] then true
    else FieldLess(a[0], b[0]) || (FieldEqual(a[0], b[0]) && EntryLess(a[1..], b[1..]))
  }

  predicate EntryEqual(a: Entry, b: Entry)
    requires AllScalar(a) && AllScalar(b)
  {
    |a| == |b| && forall i | 0 <= i < |a| :: FieldEqual(a[i], b[i])
  }

  // ------------------------------------------------------------ what is encoded

  /** Zero bytes are escaped and the string is terminated. */
  function Escaped(s: Bytes): Bytes {
    if s == [] then [0x00, 0x00]
    else if s[0] == 0x00 then [0x00, 0xFF] + Escaped(s[1..])
    else [s[0]] + Escaped(s[1..])
  }

  function EncodedField(field: Option<Value>): (b: Bytes)
    requires IsScalar(field)
    ensures b != [] && b[0] == TypeRank(field)
  {
    match field
    case None => [0x00]
    case Some(Null) => [0x01]
    case Some(I64(i)) => [0x02] + U64Be(FlipSign(Unsigned(i)))
    case Some(F64(bits)) => [0x03] + U64Be(OrderedBits(bits))
    case Some(Bool(b)) => [0x04, if b then 1 else 0]
    case Some(Str(s)) => [0x05] + Escaped(s)
    case Some(Binary(s)) => [0x06] + Escaped(s)
  }

  function EncodedFields(entry: Entry): Bytes
    requires AllScalar(entry)
  {
    if entry == [] then [] else EncodedField(entry[0]) + EncodedFields(entry[1..])
  }

  function EncodedEntry(entry: Entry): Encoding {
    if AllScalar(entry) then Encoded(EncodedFields(entry)) else NotAScalar
  }

  // ------------------------------------------------------------ the encoder

  /** A growing byte vector. */
  class Buffer {
    var bytes: Bytes

    constructor ()
      ensures bytes == []
    {
      bytes := [];
    }

    method Push(byte: Byte)
      modifies this
      ensures bytes == old(bytes) + [byte]
    {
      bytes := bytes + [byte];
    }

    method Extend(more: Bytes)
      modifies this
      ensures bytes == old(bytes) + more
    {
      bytes := bytes + more;
    }
  }

  lemma {:induction false} EscapedAppend(s: Bytes, byte: Byte)
    ensures Escaped(s + [byte]) == Unterminated(s) + Escaped([byte])
    ensures Escaped(s) == Unterminated(s) + [0x00, 0x00]
    ensures Unterminated(s + [byte]) == Unterminated(s) + (if byte == 0x00 then [0x00, 0xFF] else [byte])
  {
    if s != [] {
      EscapedAppend(s[1..], byte);
      assert (s + [byte])[1..] == s[1..] + [byte];
      var first: Bytes := if s[0] == 0x00 then [0x00, 0xFF] else [s[0]];
      Regroup(first, Unterminated(s[1..]), Escaped([byte]));
      Regroup(first, Unterminated(s[1..]), [0x00, 0x00]);
      Regroup(first, Unterminated(s[1..]), if byte == 0x00 then [0x00, 0xFF] else [byte]);
    } else {
      assert s + [byte] == [byte];
      assert [byte][1..] == [];
    }
  }

  /** The escaped bytes without the terminator. */
  ghost function Unterminated(s: Bytes): Bytes {
    if s == [] then []
    else (if s[0] == 0x00 then [0x00, 0xFF] else [s[0]]) + Unterminated(s[1..])
  }

  method EncodeEscaped(buf: Buffer, bytes: Bytes)
    modifies buf
    ensures buf.bytes == old(buf.bytes) + Escaped(bytes)
  {
    var i := 0;
    while i < |bytes|
      invariant 0 <= i <= |bytes|
      invariant buf.bytes == old(buf.bytes) + Unterminated(bytes[..i])
    {
      EscapedAppend(bytes[..i], bytes[i]);
      assert bytes[..i + 1] == bytes[..i] + [bytes[i]];
      if bytes[i] == 0x00 {
        buf.Extend([0x00, 0xFF]);
      } else {
        buf.Push(bytes[i]);
      }
      i := i + 1;
    }
    EscapedAppend(bytes, 0);
    assert bytes[..i] == bytes;
    buf.Extend([0x00, 0x00]);
  }

  method EncodeValue(buf: Buffer, value: Value) returns (ok: bool)
    modifies buf
    ensures ok == IsScalar(Some(value))
    ensures ok ==> buf.bytes == old(buf.bytes) + EncodedField(Some(value))
    ensures !ok ==> buf.bytes == old(buf.bytes)
  {
    ok := true;
    match value
    case Null => buf.Push(0x01);
    case I64(v) => EncodeInt(buf, v);
    case F64(v) => EncodeFloat(buf, v);
    case Bool(v) => buf.Extend([0x04, if v then 1 else 0]);
    case Str(s) =>
      Regroup(buf.bytes, [0x05], Escaped(s));
      buf.Push(0x05);
      EncodeEscaped(buf, s);
    case Binary(s) =>
      Regroup(buf.bytes, [0x06], Escaped(s));
      buf.Push(0x06);
      EncodeEscaped(buf, s);
    case Array(_) => ok := false;
    case Document(_) => ok := false;
  }

  /** Flip the sign bit so two's-complement numbers sort as unsigned ones. */
  method EncodeInt(buf: Buffer, v: Types.I64)
    modifies buf
    ensures buf.bytes == old(buf.bytes) + EncodedField(Some(I64(v)))
  {
    buf.Push(0x02);
    var bits := FlipSign(Unsigned(v));
    buf.Extend(U64Be(bits));
  }

  /** Collapse zeros and NaNs, then flip the sign bit or, for a negative float, every bit. */
  method EncodeFloat(buf: Buffer, v: U64)
    modifies buf
    ensures buf.bytes == old(buf.bytes) + EncodedField(Some(F64(v)))
  {
    buf.Push(0x03);
    var f := if IsNan(v) then CANONICAL_NAN_BITS else if IsZero(v) then 0 else v;
    var ordered := if f < SIGN_BIT then FlipSign(f) else FlipAll(f);
    assert ordered == OrderedBits(v);
    buf.Extend(U64Be(ordered));
  }

  lemma FirstField(first: Option<Value>, rest: Entry)
    requires AllScalar([first] + rest) && AllScalar(rest)
    ensures EncodedFields([first] + rest) == EncodedField(first) + EncodedFields(rest)
  {
    assert ([first] + rest)[1..] == rest;
  }

  lemma AllScalarAppend(a: Entry, b: Entry)
    requires AllScalar(a) && AllScalar(b)
    ensures AllScalar(a + b)
  {
  }

  lemma {:induction false} EncodedFieldsAppend(a: Entry, b: Entry)
    requires AllScalar(a) && AllScalar(b)
    ensures AllScalar(a + b) && EncodedFields(a + b) == EncodedFields(a) + EncodedFields(b)
  {
    AllScalarAppend(a, b);
    if a == [] {
      assert a + b == b;
    } else {
      var first, rest := a[0], a[1..];
      EncodedFieldsAppend(rest, b);
      assert a == [first] + rest && a + b == [first] + (rest + b);
      FirstField(first, rest);
      FirstField(first, rest + b);
      Regroup(EncodedField(first), EncodedFields(rest), EncodedFields(b));
    }
  }

  method EncodeEntry(entry: Entry) returns (r: Encoding)
    ensures r == EncodedEntry(entry)
  {
    var buf := new Buffer();
    var i := 0;
    while i < |entry|
      invariant 0 <= i <= |entry|
      invariant fresh(buf)
      invariant AllScalar(entry[..i]) && buf.bytes == EncodedFields(entry[..i])
    {
      assert entry[..i + 1] == entry[..i] + [entry[i]];
      if entry[i].None? {
        EncodedFieldsAppend(entry[..i], [entry[i]]);
        buf.Push(0x00);
      } else {
        var ok := EncodeValue(buf, entry[i].value);
        if !ok {
          assert entry[i] in entry;
          return NotAScalar;
        }
        EncodedFieldsAppend(entry[..i], [entry[i]]);
      }
      assert EncodedFields([entry[i]]) == EncodedField(entry[i]) + EncodedFields([]);
      i := i + 1;
    }
    assert entry[..i] == entry;
    return Encoded(buf.bytes);
  }
}
