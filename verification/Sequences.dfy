/** Sorted sequences, enumeration of finite sets in order, and merging. */
module Sequences {
  import opened Types

  /** Irreflexive and transitive. */
  ghost predicate StrictOrder<T(!new)>(before: (T, T) -> bool) {
    && (forall a :: !before(a, a))
    && (forall a, b, c :: before(a, b) && before(b, c) ==> before(a, c))
  }

  ghost predicate Connected<T(!new)>(before: (T, T) -> bool) {
    forall a, b :: a == b || before(a, b) || before(b, a)
  }

  ghost predicate Sorted<T>(before: (T, T) -> bool, s: seq<T>) {
    forall i, j | 0 <= i < j < |s| :: before(s[i], s[j])
  }

  ghost predicate AllBefore<T>(before: (T, T) -> bool, s: seq<T>, t: seq<T>) {
    forall i, j | 0 <= i < |s| && 0 <= j < |t| :: before(s[i], t[j])
  }

  ghost predicate SameElements<T>(s: seq<T>, t: seq<T>) {
    (forall x | x in s :: x in t) && (forall x | x in t :: x in s)
  }

  /** A sorted sequence is determined by its elements. */
  lemma {:induction false} SortedUnique<T(!new)>(before: (T, T) -> bool, s: seq<T>, t: seq<T>)
    requires StrictOrder(before) && Sorted(before, s) && Sorted(before, t)
    requires SameElements(s, t)
    ensures s == t
    decreases |s|
  {
    if |t| > 0 {
      assert t[0] in s;
    }
    if s == [] {
    } else {
      assert s[0] in t;
      assert t[0] in s;
      assert s[0] == t[0];
      forall x | x in s[1..] ensures x in t[1..] {
        assert x in t;
        assert before(s[0], x);
      }
      forall x | x in t[1..] ensures x in s[1..] {
        assert x in s;
        assert before(t[0], x);
      }
      SortedUnique(before, s[1..], t[1..]);
      assert s == [s[0]] + s[1..] && t == [t[0]] + t[1..];
    }
  }

  /** Of two elements of a sorted sequence one comes first, unless they are the same. */
  lemma SortedApart<T>(before: (T, T) -> bool, s: seq<T>, a: T, b: T)
    requires Sorted(before, s) && a in s && b in s
    ensures a == b || before(a, b) || before(b, a)
  {
    var i :| 0 <= i < |s| && s[i] == a;
    var j :| 0 <= j < |s| && s[j] == b;
    assert i < j || i == j || j < i;
  }

  lemma Regroup<T>(a: seq<T>, b: seq<T>, c: seq<T>)
    ensures a + b + c == a + (b + c)
  {
  }

  lemma SortedConcat<T>(before: (T, T) -> bool, s: seq<T>, t: seq<T>)
    requires Sorted(before, s) && Sorted(before, t) && AllBefore(before, s, t)
    ensures Sorted(before, s + t)
  {
  }

  function Reverse<T(!new)>(s: seq<T>): (r: seq<T>)
    ensures |r| == |s|
    ensures forall i | 0 <= i < |s| :: r[i] == s[|s| - 1 - i]
    ensures forall x :: x in r <==> x in s
  {
    var r := seq(|s|, i requires 0 <= i < |s| => s[|s| - 1 - i]);
    assert forall x | x in s :: x in r by {
      forall x | x in s ensures x in r {
        var i :| 0 <= i < |s| && s[i] == x;
        assert r[|s| - 1 - i] == x;
      }
    }
    r
  }

  /** A finite non-empty set has a least element. */
  lemma {:induction false} LeastExists<T(!new)>(before: (T, T) -> bool, s: set<T>) returns (m: T)
    requires StrictOrder(before) && Connected(before) && s != {}
    ensures m in s && forall x | x in s :: x == m || before(m, x)
    decreases |s|
  {
    m :| m in s;
    if s != {m} {
      var rest := s - {m};
      var m' := LeastExists(before, rest);
      if before(m', m) {
        forall x | x in s ensures x == m' || before(m', x) {
          assert x == m || x in rest;
        }
        m := m';
      } else {
        forall x | x in s ensures x == m || before(m, x) {
          assert x == m || x in rest;
        }
      }
    }
  }

  /** The elements of a finite set, in order. */
  function Enumerate<T(!new,==)>(before: (T, T) -> bool, s: set<T>): (r: seq<T>)
    requires StrictOrder(before) && Connected(before)
    ensures Sorted(before, r)
    ensures forall x :: x in r <==> x in s
    ensures |r| == |s|
  {
    if s == {} then []
    else
      assert exists m :: m in s && forall x | x in s :: x == m || before(m, x) by {
        var m := LeastExists(before, s);
      }
      var m :| m in s && forall x | x in s :: x == m || before(m, x);
      var rest := Enumerate(before, s - {m});
      assert forall x | x in rest :: before(m, x);
      [m] + rest
  }

  function First<T>(s: seq<T>): Option<T> {
    if s == [] then None else Some(s[0])
  }

  function Tail<T>(s: seq<T>): seq<T> {
    if s == [] then [] else s[1..]
  }

  function Filter<T(!new)>(keep: T -> bool, s: seq<T>): (r: seq<T>)
    ensures forall x :: x in r <==> x in s && keep(x)
  {
    if s == [] then []
    else if keep(s[0]) then [s[0]] + Filter(keep, s[1..])
    else Filter(keep, s[1..])
  }

  lemma {:induction false} FilterSorted<T(!new)>(before: (T, T) -> bool, keep: T -> bool, s: seq<T>)
    requires Sorted(before, s)
    ensures Sorted(before, Filter(keep, s))
  {
    if s != [] {
      FilterSorted(before, keep, s[1..]);
      var rest := Filter(keep, s[1..]);
      assert forall x | x in rest :: x in s[1..] && before(s[0], x);
    }
  }

  /** The order in which a cursor of the given direction meets the elements. */
  function Toward<T>(less: (T, T) -> bool, direction: Direction): (T, T) -> bool {
    if direction.Forward? then less else (a, b) => less(b, a)
  }

  function Directed<T(!new)>(s: seq<T>, direction: Direction): (r: seq<T>)
    ensures |r| == |s| && forall x :: x in r <==> x in s
  {
    if direction.Forward? then s else Reverse(s)
  }

  lemma TowardStrict<T(!new)>(less: (T, T) -> bool, direction: Direction)
    requires StrictOrder(less)
    ensures StrictOrder(Toward(less, direction))
  {
  }

  lemma DirectedSorted<T(!new)>(less: (T, T) -> bool, direction: Direction, s: seq<T>)
    requires Sorted(less, s)
    ensures Sorted(Toward(less, direction), Directed(s, direction))
  {
  }

  /** A sorted sequence cut in two: the part below, met backwards, then the part above. */
  lemma SortedSplit<T(!new)>(less: (T, T) -> bool, all: seq<T>, below: seq<T>, above: seq<T>)
    requires StrictOrder(less) && Sorted(less, all) && Sorted(less, above)
    requires forall i, j | 0 <= i < j < |below| :: less(below[j], below[i])
    requires forall x, y | x in below && y in above :: less(x, y)
    requires forall x :: x in all <==> x in below || x in above
    ensures all == Reverse(below) + above
  {
    var ascending := Reverse(below);
    assert forall i, j | 0 <= i < |ascending| && 0 <= j < |above| :: ascending[i] in below && above[j] in above;
    SortedConcat(less, ascending, above);
    SortedUnique(less, all, ascending + above);
  }

  // ---------------------------------------------------------------- merging

  /** Two-way merge; when neither head is before the other the overlay's replaces the base's. */
  function Merge<T>(before: (T, T) -> bool, base: seq<T>, overlay: seq<T>): seq<T>
    decreases |base| + |overlay|
  {
    if base == [] then overlay
    else if overlay == [] then base
    else if before(base[0], overlay[0]) then [base[0]] + Merge(before, base[1..], overlay)
    else if before(overlay[0], base[0]) then [overlay[0]] + Merge(before, base, overlay[1..])
    else [overlay[0]] + Merge(before, base[1..], overlay[1..])
  }

  /** No element of the base ties with one of the overlay. */
  ghost predicate Apart<T>(before: (T, T) -> bool, base: seq<T>, overlay: seq<T>) {
    forall x, y | x in base && y in overlay :: before(x, y) || before(y, x)
  }

  lemma {:induction false} MergeMembers<T(!new)>(before: (T, T) -> bool, base: seq<T>, overlay: seq<T>, x: T)
    requires Apart(before, base, overlay)
    ensures x in Merge(before, base, overlay) <==> x in base || x in overlay
    decreases |base| + |overlay|
  {
    if base != [] && overlay != [] {
      assert base[0] in base && overlay[0] in overlay;
      if before(base[0], overlay[0]) {
        MergeMembers(before, base[1..], overlay, x);
      } else {
        MergeMembers(before, base, overlay[1..], x);
      }
    }
  }

  lemma {:induction false} MergeSorted<T(!new)>(before: (T, T) -> bool, base: seq<T>, overlay: seq<T>)
    requires StrictOrder(before) && Apart(before, base, overlay) && Sorted(before, base) && Sorted(before, overlay)
    ensures Sorted(before, Merge(before, base, overlay))
    decreases |base| + |overlay|
  {
    if base != [] && overlay != [] {
      assert base[0] in base && overlay[0] in overlay;
      if before(base[0], overlay[0]) {
        MergeSorted(before, base[1..], overlay);
        HeadFirst(before, base[0], base, overlay, base[1..], overlay);
        SortedConcat(before, [base[0]], Merge(before, base[1..], overlay));
      } else {
        MergeSorted(before, base, overlay[1..]);
        HeadFirst(before, overlay[0], overlay, base, base, overlay[1..]);
        SortedConcat(before, [overlay[0]], Merge(before, base, overlay[1..]));
      }
    }
  }

  lemma HeadFirst<T(!new)>(before: (T, T) -> bool, head: T, own: seq<T>, other: seq<T>, base: seq<T>, overlay: seq<T>)
    requires StrictOrder(before) && Sorted(before, own) && Sorted(before, other)
    requires own != [] && other != [] && head == own[0] && before(head, other[0])
    requires (base == own[1..] && overlay == other) || (base == other && overlay == own[1..])
    requires Apart(before, base, overlay)
    ensures forall x | x in Merge(before, base, overlay) :: before(head, x)
  {
    forall x | x in Merge(before, base, overlay) ensures before(head, x) {
      MergeMembers(before, base, overlay, x);
      if x in own[1..] {
        var i :| 0 < i < |own| && own[i] == x;
        assert before(own[0], own[i]);
      } else {
        var i :| 0 <= i < |other| && other[i] == x;
        assert i == 0 || before(other[0], other[i]);
      }
    }
  }

  /** Merging sorted inputs without ties gives all their elements, sorted. */
  lemma MergeCorrect<T(!new)>(before: (T, T) -> bool, base: seq<T>, overlay: seq<T>)
    requires StrictOrder(before) && Apart(before, base, overlay) && Sorted(before, base) && Sorted(before, overlay)
    ensures Sorted(before, Merge(before, base, overlay))
    ensures forall x :: x in Merge(before, base, overlay) <==> x in base || x in overlay
  {
    MergeSorted(before, base, overlay);
    forall x ensures x in Merge(before, base, overlay) <==> x in base || x in overlay {
      MergeMembers(before, base, overlay, x);
    }
  }
}
