/**
 The logical order of an index: merging, at every trie node, the leaf rows with
 the subtrees behind the edge rows.
 */
module IndexTraversal {
  import opened ByteStrings
  import opened Types
  import opened Sequences
  import opened HeedEncoding

  datatype LeafItem = LeafItem(segment: Bytes, document: DocumentId)

  /** A node as a cursor meets it: leaf rows and edge rows, each in cursor order. */
  datatype Tree = Tree(leaves: seq<LeafItem>, children: seq<Child>)

  datatype Child = Child(segment: Bytes, tree: Tree)

  datatype PendingAction = TakeLeaf | TakeEdge

  /** At equal segments the leaf is the smaller value, so it comes first forwards and last in reverse. */
  function ChooseAction(leaf: Option<Bytes>, edge: Option<Bytes>, direction: Direction): Option<PendingAction> {
    match (leaf, edge)
    case (Some(_), None) => Some(TakeLeaf)
    case (None, Some(_)) => Some(TakeEdge)
    case (None, None) => None
    case (Some(l), Some(e)) =>
      if AtMost(l, e)
      then Some(if direction.Forward? then TakeLeaf else TakeEdge)
      else Some(if direction.Forward? then TakeEdge else TakeLeaf)
  }

  function Choice(leaves: seq<LeafItem>, children: seq<Child>, direction: Direction): (c: Option<PendingAction>)
    ensures c.None? <==> leaves == [] && children == []
    ensures c == Some(TakeLeaf) ==> leaves != []
    ensures c == Some(TakeEdge) ==> children != []
  {
    ChooseAction(if leaves == [] then None else Some(leaves[0].segment),
                 if children == [] then None else Some(children[0].segment), direction)
  }

  // ---------------------------------------------------------------- traversal

  /** The positions below a node, from the given rows on. */
  function Walk(direction: Direction, prefix: Bytes, leaves: seq<LeafItem>, children: seq<Child>): seq<IndexPosition>
    decreases children, |leaves|
  {
    match Choice(leaves, children, direction)
    case None => []
    case Some(TakeLeaf) => [PositionOf(prefix, leaves[0])] + Walk(direction, prefix, leaves[1..], children)
    case Some(TakeEdge) => Behind(direction, prefix, children[0]) + Walk(direction, prefix, leaves, children[1..])
  }

  function PositionOf(prefix: Bytes, l: LeafItem): IndexPosition {
    IndexPosition(prefix + l.segment, l.document)
  }

  /** The positions behind one edge. */
  function Behind(direction: Direction, prefix: Bytes, child: Child): seq<IndexPosition>
    decreases child
  {
    Walk(direction, prefix + child.segment, child.tree.leaves, child.tree.children)
  }

  /** The rows a traversal still has to consume, and the nodes it still has to leave. */
  function Work(leaves: seq<LeafItem>, children: seq<Child>): nat
    decreases children, 1
  {
    |leaves| + WorkBelow(children) + 1
  }

  function WorkBelow(children: seq<Child>): nat
    decreases children, 0
  {
    if children == [] then 0
    else 1 + Work(children[0].tree.leaves, children[0].tree.children) + WorkBelow(children[1..])
  }

  // -------------------------------------------------------------------- order

  predicate LeafItemLess(a: LeafItem, b: LeafItem) {
    Less(a.segment, b.segment) || (a.segment == b.segment && a.document < b.document)
  }

  predicate ChildLess(a: Child, b: Child) {
    Less(a.segment, b.segment)
  }

  /** Rows in cursor order; full segments on edges; an empty leaf segment only at the root. */
  ghost predicate Ordered(direction: Direction, root: bool, leaves: seq<LeafItem>, children: seq<Child>)
    decreases children
  {
    && Sorted(Toward(LeafItemLess, direction), leaves)
    && Sorted(Toward(ChildLess, direction), children)
    && (forall l | l in leaves :: |l.segment| <= SEGMENT_SIZE && (l.segment == [] ==> root))
    && (forall c | c in children ::
       |c.segment| == SEGMENT_SIZE && Ordered(direction, false, c.tree.leaves, c.tree.children))
  }

  lemma OrderedTail(direction: Direction, root: bool, leaves: seq<LeafItem>, children: seq<Child>)
    requires Ordered(direction, root, leaves, children)
    ensures leaves != [] ==> leaves[0] in leaves && Ordered(direction, root, leaves[1..], children)
    ensures children != [] ==> children[0] in children && Ordered(direction, root, leaves, children[1..])
  {
  }

  ghost predicate FromLeaf(prefix: Bytes, leaves: seq<LeafItem>, p: IndexPosition) {
    exists l :: l in leaves && p == PositionOf(prefix, l)
  }

  ghost predicate FromChild(direction: Direction, prefix: Bytes, children: seq<Child>, p: IndexPosition) {
    exists c :: c in children && p in Behind(direction, prefix, c)
  }

  lemma {:induction false} WalkMembers(direction: Direction, prefix: Bytes, leaves: seq<LeafItem>, children: seq<Child>,
                                       p: IndexPosition)
    ensures p in Walk(direction, prefix, leaves, children)
       <==> FromLeaf(prefix, leaves, p) || FromChild(direction, prefix, children, p)
    decreases |leaves| + |children|
  {
    match Choice(leaves, children, direction)
    case None =>
    case Some(TakeLeaf) =>
      WalkMembers(direction, prefix, leaves[1..], children, p);
      assert leaves == [leaves[0]] + leaves[1..];
    case Some(TakeEdge) =>
      WalkMembers(direction, prefix, leaves, children[1..], p);
      assert children == [children[0]] + children[1..];
  }

  /** Everything behind an edge properly extends the edge's bytes. */
  lemma {:induction false} WalkExtends(direction: Direction, prefix: Bytes, leaves: seq<LeafItem>, children: seq<Child>,
                                       p: IndexPosition)
      returns (rest: Bytes)
    requires Ordered(direction, false, leaves, children) && p in Walk(direction, prefix, leaves, children)
    ensures rest != [] && p.value == prefix + rest
    decreases children
  {
    WalkMembers(direction, prefix, leaves, children, p);
    if FromLeaf(prefix, leaves, p) {
      var l :| l in leaves && p == PositionOf(prefix, l);
      rest := l.segment;
    } else {
      var c :| c in children && p in Behind(direction, prefix, c);
      rest := WalkExtends(direction, prefix + c.segment, c.tree.leaves, c.tree.children, p);
      assert p.value == (prefix + c.segment) + rest == prefix + (c.segment + rest);
      rest := c.segment + rest;
    }
  }

  lemma BelowExtends(direction: Direction, prefix: Bytes, c: Child, p: IndexPosition) returns (rest: Bytes)
    requires Ordered(direction, false, c.tree.leaves, c.tree.children) && p in Behind(direction, prefix, c)
    ensures rest != [] && p.value == prefix + (c.segment + rest)
  {
    rest := WalkExtends(direction, prefix + c.segment, c.tree.leaves, c.tree.children, p);
    assert p.value == (prefix + c.segment) + rest;
  }

  /**
   A full edge segment is no proper prefix of a sibling leaf segment, so a leaf lies wholly before or after a subtree.
   */
  lemma LeafAgainstChild(direction: Direction, prefix: Bytes, l: LeafItem, c: Child, q: IndexPosition)
    requires |l.segment| <= SEGMENT_SIZE == |c.segment|
    requires Ordered(direction, false, c.tree.leaves, c.tree.children) && q in Behind(direction, prefix, c)
    ensures AtMost(l.segment, c.segment) ==> PositionLess(PositionOf(prefix, l), q)
    ensures !AtMost(l.segment, c.segment) ==> PositionLess(q, PositionOf(prefix, l))
  {
    var rest := BelowExtends(direction, prefix, c, q);
    SegmentAgainstExtension(l.segment, c.segment, rest);
    LessCommonPrefix(prefix, l.segment, c.segment + rest);
    LessCommonPrefix(prefix, c.segment + rest, l.segment);
  }

  lemma SegmentAgainstExtension(l: Bytes, e: Bytes, rest: Bytes)
    requires |l| <= |e| && rest != []
    ensures if AtMost(l, e) then Less(l, e + rest) else Less(e + rest, l)
  {
    assert l + [] == l;
    LessSplits(l, e);
    LessSplits(l, e + rest);
    LessSplits(e, l);
    LessTotal(l, e);
    if Diverges(l, e) {
      DivergesExtends(l, e, [], rest);
    } else if Diverges(e, l) {
      DivergesExtends(e, l, rest, []);
    }
  }

  lemma ChildAgainstChild(direction: Direction, prefix: Bytes, c: Child, d: Child, p: IndexPosition, q: IndexPosition)
    requires |c.segment| == |d.segment| && Less(c.segment, d.segment)
    requires Ordered(direction, false, c.tree.leaves, c.tree.children) && p in Behind(direction, prefix, c)
    requires Ordered(direction, false, d.tree.leaves, d.tree.children) && q in Behind(direction, prefix, d)
    ensures PositionLess(p, q)
  {
    var x := BelowExtends(direction, prefix, c, p);
    var y := BelowExtends(direction, prefix, d, q);
    SameWidthDiverges(c.segment, d.segment);
    DivergesExtends(c.segment, d.segment, x, y);
    LessCommonPrefix(prefix, c.segment + x, d.segment + y);
  }

  lemma AtMostTransitive(a: Bytes, b: Bytes, c: Bytes)
    ensures AtMost(a, b) && AtMost(b, c) ==> AtMost(a, c)
    ensures AtMost(b, c) && !AtMost(a, c) ==> !AtMost(a, b)
    ensures AtMost(c, b) && !AtMost(a, b) ==> !AtMost(a, c)
    ensures AtMost(a, b) && !AtMost(c, b) ==> !AtMost(c, a)
  {
    if Less(a, b) && Less(b, c) { LessTransitive(a, b, c); }
    if Less(a, c) && Less(c, b) { LessTransitive(a, c, b); }
    if Less(c, a) && Less(a, b) { LessTransitive(c, a, b); }
  }

  /** How a leaf chosen against the first of the remaining edges compares with the later ones. */
  lemma ChosenLeafAgainstLater(direction: Direction, l: Bytes, first: Bytes, later: Bytes)
    requires AtMost(l, first) <==> direction.Forward?
    requires later == first || (if direction.Forward? then Less(first, later) else Less(later, first))
    ensures AtMost(l, later) <==> direction.Forward?
  {
    AtMostTransitive(l, first, later);
  }

  lemma ChosenEdgeAgainstLater(direction: Direction, e: Bytes, first: Bytes, later: Bytes)
    requires AtMost(first, e) <==> !direction.Forward?
    requires later == first || (if direction.Forward? then Less(first, later) else Less(later, first))
    ensures AtMost(later, e) <==> !direction.Forward?
  {
    AtMostTransitive(later, first, e);
    AtMostTransitive(first, e, later);
    AtMostTransitive(first, later, e);
  }

  lemma LeafAgainstLeaf(prefix: Bytes, l: LeafItem, m: LeafItem)
    requires LeafItemLess(l, m)
    ensures PositionLess(PositionOf(prefix, l), PositionOf(prefix, m))
  {
    LessCommonPrefix(prefix, l.segment, m.segment);
  }

  /** The chosen leaf precedes everything behind the remaining edges. */
  lemma LeafFirst(direction: Direction, root: bool, prefix: Bytes, leaves: seq<LeafItem>, children: seq<Child>,
                  c: Child, q: IndexPosition)
    requires Ordered(direction, root, leaves, children) && Choice(leaves, children, direction) == Some(TakeLeaf)
    requires c in children && q in Behind(direction, prefix, c)
    ensures Toward(PositionLess, direction)(PositionOf(prefix, leaves[0]), q)
  {
    var i :| 0 <= i < |children| && children[i] == c;
    assert i == 0 || Toward(ChildLess, direction)(children[0], children[i]);
    assert leaves[0] in leaves;
    ChosenLeafAgainstLater(direction, leaves[0].segment, children[0].segment, c.segment);
    LeafAgainstChild(direction, prefix, leaves[0], c, q);
  }

  /** The chosen edge's subtree precedes every remaining leaf. */
  lemma ChildFirst(direction: Direction, root: bool, prefix: Bytes, leaves: seq<LeafItem>, children: seq<Child>,
                   l: LeafItem, p: IndexPosition)
    requires Ordered(direction, root, leaves, children) && Choice(leaves, children, direction) == Some(TakeEdge)
    requires l in leaves && p in Behind(direction, prefix, children[0])
    ensures Toward(PositionLess, direction)(p, PositionOf(prefix, l))
  {
    var i :| 0 <= i < |leaves| && leaves[i] == l;
    assert i == 0 || Toward(LeafItemLess, direction)(leaves[0], leaves[i]);
    assert children[0] in children;
    ChosenEdgeAgainstLater(direction, children[0].segment, leaves[0].segment, l.segment);
    LeafAgainstChild(direction, prefix, l, children[0], p);
  }

  /** The head of a traversal precedes what follows: the chosen leaf. */
  lemma LeafPrecedesRest(direction: Direction, root: bool, prefix: Bytes, leaves: seq<LeafItem>, children: seq<Child>,
                         q: IndexPosition)
    requires Ordered(direction, root, leaves, children) && Choice(leaves, children, direction) == Some(TakeLeaf)
    requires q in Walk(direction, prefix, leaves[1..], children)
    ensures Toward(PositionLess, direction)(PositionOf(prefix, leaves[0]), q)
  {
    WalkMembers(direction, prefix, leaves[1..], children, q);
    if FromLeaf(prefix, leaves[1..], q) {
      var m :| m in leaves[1..] && q == PositionOf(prefix, m);
      assert Toward(LeafItemLess, direction)(leaves[0], m);
      if direction.Forward? {
        LeafAgainstLeaf(prefix, leaves[0], m);
      } else {
        LeafAgainstLeaf(prefix, m, leaves[0]);
      }
    } else {
      var c :| c in children && q in Behind(direction, prefix, c);
      LeafFirst(direction, root, prefix, leaves, children, c, q);
    }
  }

  lemma ChildBeforeSibling(direction: Direction, root: bool, prefix: Bytes, leaves: seq<LeafItem>, children: seq<Child>,
                           d: Child, p: IndexPosition, q: IndexPosition)
    requires Ordered(direction, root, leaves, children) && children != [] && d in children[1..]
    requires p in Behind(direction, prefix, children[0]) && q in Behind(direction, prefix, d)
    ensures Toward(PositionLess, direction)(p, q)
  {
    var c := children[0];
    assert c in children && d in children && Toward(ChildLess, direction)(c, d);
    if direction.Forward? {
      ChildAgainstChild(direction, prefix, c, d, p, q);
    } else {
      ChildAgainstChild(direction, prefix, d, c, q, p);
    }
  }

  /** The head of a traversal precedes what follows: the chosen edge's subtree. */
  lemma ChildPrecedesRest(direction: Direction, root: bool, prefix: Bytes, leaves: seq<LeafItem>, children: seq<Child>,
                          p: IndexPosition, q: IndexPosition)
    requires Ordered(direction, root, leaves, children) && Choice(leaves, children, direction) == Some(TakeEdge)
    requires p in Behind(direction, prefix, children[0]) && q in Walk(direction, prefix, leaves, children[1..])
    ensures Toward(PositionLess, direction)(p, q)
  {
    WalkMembers(direction, prefix, leaves, children[1..], q);
    if FromLeaf(prefix, leaves, q) {
      var m :| m in leaves && q == PositionOf(prefix, m);
      ChildFirst(direction, root, prefix, leaves, children, m, p);
    } else {
      var d :| d in children[1..] && q in Behind(direction, prefix, d);
      ChildBeforeSibling(direction, root, prefix, leaves, children, d, p, q);
    }
  }

  /** A traversal of ordered rows yields positions in strict cursor order. */
  lemma {:induction false} WalkSorted(direction: Direction, root: bool, prefix: Bytes, leaves: seq<LeafItem>,
                                      children: seq<Child>)
    requires Ordered(direction, root, leaves, children)
    ensures Sorted(Toward(PositionLess, direction), Walk(direction, prefix, leaves, children))
    decreases children, |leaves|
  {
    var before := Toward(PositionLess, direction);
    OrderedTail(direction, root, leaves, children);
    match Choice(leaves, children, direction)
    case None =>
    case Some(TakeLeaf) =>
      WalkSorted(direction, root, prefix, leaves[1..], children);
      var head, tail := [PositionOf(prefix, leaves[0])], Walk(direction, prefix, leaves[1..], children);
      forall q | q in tail ensures before(head[0], q) {
        LeafPrecedesRest(direction, root, prefix, leaves, children, q);
      }
      SortedConcat(before, head, tail);
    case Some(TakeEdge) =>
      var c := children[0];
      WalkSorted(direction, false, prefix + c.segment, c.tree.leaves, c.tree.children);
      WalkSorted(direction, root, prefix, leaves, children[1..]);
      var head, tail := Behind(direction, prefix, c), Walk(direction, prefix, leaves, children[1..]);
      forall p, q | p in head && q in tail ensures before(p, q) {
        ChildPrecedesRest(direction, root, prefix, leaves, children, p, q);
      }
      SortedConcat(before, head, tail);
  }

  lemma PositionOrder()
    ensures StrictOrder(PositionLess) && Connected(PositionLess)
  {
    forall a ensures !PositionLess(a, a) {
      LessIrreflexive(a.value);
    }
    forall a, b, c | PositionLess(a, b) && PositionLess(b, c) ensures PositionLess(a, c) {
      if Less(a.value, b.value) && Less(b.value, c.value) {
        LessTransitive(a.value, b.value, c.value);
      }
    }
    forall a, b ensures a == b || PositionLess(a, b) || PositionLess(b, a) {
      LessTotal(a.value, b.value);
    }
  }
}
