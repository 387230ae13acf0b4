/** Fixed-width big-endian numbers, as `to_be_bytes` and `from_be_bytes` produce them. */
module BigEndian {
  import opened ByteStrings
  import opened Types

  function Pow256(width: nat): (p: nat)
    ensures p > 0
  {
    if width == 0 then 1 else 256 * Pow256(width - 1)
  }

  lemma Widths()
    ensures Pow256(8) == TWO_64 && Pow256(16) == TWO_128
  {
    assert Pow256(4) == 0x1_0000_0000;
    assert Pow256(8) == 0x1_0000_0000 * Pow256(4);
    assert Pow256(12) == 0x1_0000_0000 * Pow256(8);
    assert Pow256(16) == 0x1_0000_0000 * Pow256(12);
  }

  function ToBe(n: nat, width: nat): (b: Bytes)
    requires n < Pow256(width)
    ensures |b| == width
  {
    if width == 0 then [] else ToBe(n / 256, width - 1) + [n % 256]
  }

  function FromBe(b: Bytes): (n: nat)
    ensures n < Pow256(|b|)
  {
    if b == [] then 0 else FromBe(b[..|b| - 1]) * 256 + b[|b| - 1]
  }

  lemma {:induction false} DecodeEncode(n: nat, width: nat)
    requires n < Pow256(width)
    ensures FromBe(ToBe(n, width)) == n
  {
    if width > 0 {
      DecodeEncode(n / 256, width - 1);
      assert ToBe(n, width)[..width - 1] == ToBe(n / 256, width - 1);
    }
  }

  lemma {:induction false} EncodeDecode(b: Bytes)
    ensures ToBe(FromBe(b), |b|) == b
  {
    if b != [] {
      var high := b[..|b| - 1];
      EncodeDecode(high);
      assert FromBe(b) / 256 == FromBe(high) && FromBe(b) % 256 == b[|b| - 1];
      assert b == high + [b[|b| - 1]];
    }
  }

  /** Byte order is numeric order. */
  lemma {:induction false} OrderPreserved(m: nat, n: nat, width: nat)
    requires m < Pow256(width) && n < Pow256(width)
    ensures Less(ToBe(m, width), ToBe(n, width)) <==> m < n
    ensures ToBe(m, width) == ToBe(n, width) <==> m == n
  {
    DecodeEncode(m, width);
    DecodeEncode(n, width);
    if width > 0 {
      OrderPreserved(m / 256, n / 256, width - 1);
      LessFields(ToBe(m / 256, width - 1), ToBe(n / 256, width - 1), [m % 256], [n % 256]);
    }
  }

  function U64Be(n: U64): (b: Bytes)
    ensures |b| == 8
  {
    Widths();
    ToBe(n, 8)
  }

  function U128Be(n: U128): (b: Bytes)
    ensures |b| == 16
  {
    Widths();
    ToBe(n, 16)
  }

  /** Two's complement: negative numbers take the upper half of the unsigned range. */
  function Unsigned(n: I64): U64 {
    if n < 0 then n + TWO_64 else n
  }

  function Signed(n: U64): I64 {
    if n < TWO_63 then n else n - TWO_64
  }

  function I64Be(n: I64): (b: Bytes)
    ensures |b| == 8
  {
    U64Be(Unsigned(n))
  }

  function FromU64Be(b: Bytes): U64
    requires |b| == 8
  {
    Widths();
    FromBe(b)
  }

  function FromU128Be(b: Bytes): U128
    requires |b| == 16
  {
    Widths();
    FromBe(b)
  }

  function FromI64Be(b: Bytes): I64
    requires |b| == 8
  {
    Signed(FromU64Be(b))
  }

  lemma U64RoundTrip(n: U64)
    ensures FromU64Be(U64Be(n)) == n
  {
    Widths();
    DecodeEncode(n, 8);
  }

  lemma U128RoundTrip(n: U128)
    ensures FromU128Be(U128Be(n)) == n
  {
    Widths();
    DecodeEncode(n, 16);
  }

  lemma I64RoundTrip(n: I64)
    ensures FromI64Be(I64Be(n)) == n
  {
    U64RoundTrip(Unsigned(n));
  }

  lemma U64Onto(b: Bytes)
    requires |b| == 8
    ensures U64Be(FromU64Be(b)) == b
  {
    Widths();
    EncodeDecode(b);
  }

  lemma U128Onto(b: Bytes)
    requires |b| == 16
    ensures U128Be(FromU128Be(b)) == b
  {
    Widths();
    EncodeDecode(b);
  }

  lemma I64Onto(b: Bytes)
    requires |b| == 8
    ensures I64Be(FromI64Be(b)) == b
  {
    U64Onto(b);
  }

  lemma U64Order(m: U64, n: U64)
    ensures Less(U64Be(m), U64Be(n)) <==> m < n
    ensures U64Be(m) == U64Be(n) <==> m == n
  {
    Widths();
    OrderPreserved(m, n, 8);
  }

  lemma U128Order(m: U128, n: U128)
    ensures Less(U128Be(m), U128Be(n)) <==> m < n
    ensures U128Be(m) == U128Be(n) <==> m == n
  {
    Widths();
    OrderPreserved(m, n, 16);
  }

  /** Signed keys sort as their unsigned bit patterns: only non-negative ids keep their order. */
  lemma I64Order(m: I64, n: I64)
    ensures Less(I64Be(m), I64Be(n)) <==> Unsigned(m) < Unsigned(n)
    ensures I64Be(m) == I64Be(n) <==> m == n
  {
    U64Order(Unsigned(m), Unsigned(n));
  }
}
