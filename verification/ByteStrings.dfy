/** Byte strings and the order in which LMDB and `memcmp` compare them. */
module ByteStrings {

  type Byte = b: int | 0 <= b < 256

  type Bytes = seq<Byte>

  /** Strict lexicographic order; a proper prefix sorts first. */
  predicate Less(a: Bytes, b: Bytes)
    decreases |a|
  {
    if b == [] then false
    else if a == [] then true
    else if a[0] != b[0] then a[0] < b[0]
    else Less(a[1..], b[1..])
  }

  predicate AtMost(a: Bytes, b: Bytes) {
    a == b || Less(a, b)
  }

  /** `a` sorts before `b` because of a differing byte, not because it is shorter. */
  predicate Diverges(a: Bytes, b: Bytes)
    decreases |a|
  {
    && a != [] && b != []
    && (a[0] < b[0] || (a[0] == b[0] && Diverges(a[1..], b[1..])))
  }

  lemma {:induction false} LessIrreflexive(a: Bytes)
    ensures !Less(a, a)
  {
    if a != [] {
      LessIrreflexive(a[1..]);
    }
  }

  lemma {:induction false} LessTransitive(a: Bytes, b: Bytes, c: Bytes)
    requires Less(a, b) && Less(b, c)
    ensures Less(a, c)
    decreases |a|
  {
    if a != [] && a[0] == b[0] == c[0] {
      LessTransitive(a[1..], b[1..], c[1..]);
    }
  }

  lemma {:induction false} LessTotal(a: Bytes, b: Bytes)
    ensures a == b || Less(a, b) || Less(b, a)
    decreases |a|
  {
    if a != [] && b != [] && a[0] == b[0] {
      LessTotal(a[1..], b[1..]);
      assert a == [a[0]] + a[1..] && b == [b[0]] + b[1..];
    }
  }

  lemma LessAsymmetric(a: Bytes, b: Bytes)
    requires Less(a, b)
    ensures !Less(b, a) && a != b
  {
    LessIrreflexive(a);
    if Less(b, a) {
      LessTransitive(a, b, a);
    }
  }

  /** A difference decides the order whatever follows on either side. */
  lemma {:induction false} DivergesExtends(a: Bytes, b: Bytes, x: Bytes, y: Bytes)
    requires Diverges(a, b)
    ensures Diverges(a + x, b + y) && Less(a + x, b + y)
    decreases |a|
  {
    if a[0] == b[0] {
      DivergesExtends(a[1..], b[1..], x, y);
      assert (a + x)[1..] == a[1..] + x && (b + y)[1..] == b[1..] + y;
    }
  }

  /** The two ways of being smaller. */
  lemma {:induction false} LessSplits(a: Bytes, b: Bytes)
    ensures Less(a, b) <==> Diverges(a, b) || a < b
    decreases |a|
  {
    if a == [] || b == [] {
    } else if a[0] == b[0] {
      LessSplits(a[1..], b[1..]);
      assert a == [a[0]] + a[1..] && b == [b[0]] + b[1..];
      if a < b {
        assert a[1..] < b[1..];
      }
      if a[1..] < b[1..] {
        assert forall i | 0 <= i < |a| :: a[i] == ([b[0]] + b[1..])[i];
      }
    }
  }

  lemma {:induction false} LessCommonPrefix(p: Bytes, a: Bytes, b: Bytes)
    ensures Less(p + a, p + b) <==> Less(a, b)
  {
    if p == [] {
      assert p + a == a && p + b == b;
    } else {
      LessCommonPrefix(p[1..], a, b);
      assert (p + a)[1..] == p[1..] + a && (p + b)[1..] == p[1..] + b;
    }
  }

  /** Fields of equal width compare one after the other. */
  lemma {:induction false} LessFields(a: Bytes, b: Bytes, x: Bytes, y: Bytes)
    requires |a| == |b|
    ensures Less(a + x, b + y) <==> Less(a, b) || (a == b && Less(x, y))
    decreases |a|
  {
    if a == [] {
      assert a + x == x && b + y == y;
    } else {
      LessFields(a[1..], b[1..], x, y);
      assert (a + x)[1..] == a[1..] + x && (b + y)[1..] == b[1..] + y;
      assert a == [a[0]] + a[1..] && b == [b[0]] + b[1..];
    }
  }

  /** Equal-width strings never differ by length alone. */
  lemma {:induction false} SameWidthDiverges(a: Bytes, b: Bytes)
    requires |a| == |b|
    ensures Less(a, b) <==> Diverges(a, b)
    decreases |a|
  {
    LessSplits(a, b);
  }

  /** Concatenations with equal-width heads agree only if both parts do. */
  lemma SplitEqual(a: Bytes, b: Bytes, x: Bytes, y: Bytes)
    requires |a| == |b| && a + x == b + y
    ensures a == b && x == y
  {
    assert a == (a + x)[..|a|] && b == (b + y)[..|b|];
    assert x == (a + x)[|a|..] && y == (b + y)[|b|..];
  }
}
