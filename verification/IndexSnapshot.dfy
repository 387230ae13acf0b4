/** The rows of a snapshot as the tree that an index cursor traverses. */
module IndexSnapshot {
  import opened ByteStrings
  import opened Types
  import opened BigEndian
  import opened Sequences
  import opened Lmdb
  import opened HeedEncoding
  import opened IndexTrie
  import opened TrieStorage
  import opened IndexTraversal

  /** One index of a snapshot, read in one direction. The counter bounds the chain ids. */
  datatype Scan = Scan(edges: Database, leaves: DupDatabase, index: IndexId, direction: Direction, counter: U64)

  /** Rows decode, and edges lead to larger chain ids. */
  ghost predicate Readable(scan: Scan) {
    && EdgeRows(scan.edges) && LeafRows(scan.leaves)
    && forall k | k in scan.edges :: NodeOf(k).chain < FromU64Be(scan.edges[k]) <= scan.counter
  }

  ghost predicate Sound(scan: Scan) {
    Readable(scan) && Trie(EdgeView(scan.edges), LeafView(scan.leaves), scan.counter)
  }

  lemma TrieIsReadable(scan: Scan)
    requires EdgeRows(scan.edges) && LeafRows(scan.leaves)
    requires Trie(EdgeView(scan.edges), LeafView(scan.leaves), scan.counter)
    ensures Sound(scan)
  {
    forall k | k in scan.edges ensures NodeOf(k).chain < FromU64Be(scan.edges[k]) <= scan.counter {
      assert NodeOf(k) in EdgeView(scan.edges);
    }
  }

  function NodeLeafRows(scan: Scan, chain: U64): seq<Row> {
    PrefixRows(scan.leaves, IndexNodePrefix(scan.index, chain), scan.direction)
  }

  function NodeEdgeRows(scan: Scan, chain: U64): seq<Row> {
    PrefixRows(Rows(scan.edges), IndexNodePrefix(scan.index, chain), scan.direction)
  }

  ghost predicate LeafRowsOf(scan: Scan, chain: U64, rows: seq<Row>)
    requires Readable(scan)
  {
    forall row | row in rows ::
      row in scan.leaves && NodeOf(row.key).index == scan.index && NodeOf(row.key).chain == chain
  }

  ghost predicate EdgeRowsOf(scan: Scan, chain: U64, rows: seq<Row>)
    requires Readable(scan)
  {
    forall row | row in rows ::
      row in Rows(scan.edges) && NodeOf(row.key).index == scan.index && NodeOf(row.key).chain == chain
  }

  lemma NodeRows(scan: Scan, chain: U64)
    requires Readable(scan)
    ensures LeafRowsOf(scan, chain, NodeLeafRows(scan, chain)) && EdgeRowsOf(scan, chain, NodeEdgeRows(scan, chain))
  {
    forall row | row in NodeLeafRows(scan, chain)
      ensures row in scan.leaves && NodeOf(row.key).index == scan.index && NodeOf(row.key).chain == chain
    {
      var node := NodeOf(row.key);
      IndexNodeKeyPrefix(scan.index, chain, node.index, node.chain, node.segment);
    }
    forall row | row in NodeEdgeRows(scan, chain)
      ensures row in Rows(scan.edges) && NodeOf(row.key).index == scan.index && NodeOf(row.key).chain == chain
    {
      var node := NodeOf(row.key);
      IndexNodeKeyPrefix(scan.index, chain, node.index, node.chain, node.segment);
    }
  }

  // --------------------------------------------------------------------- tree

  ghost function LeafItemOf(row: Row): LeafItem
    requires |row.key| >= NODE_PREFIX_LEN && |row.value| == 16
  {
    LeafItem(NodeOf(row.key).segment, FromU128Be(row.value))
  }

  ghost function LeavesOf(scan: Scan, chain: U64, rows: seq<Row>): (items: seq<LeafItem>)
    requires Readable(scan) && LeafRowsOf(scan, chain, rows)
    ensures |items| == |rows|
    ensures forall i | 0 <= i < |rows| :: rows[i] in scan.leaves && items[i] == LeafItemOf(rows[i])
  {
    assert forall i | 0 <= i < |rows| :: rows[i] in rows;
    seq(|rows|, i requires 0 <= i < |rows| => LeafItemOf(rows[i]))
  }

  ghost function ChildrenOf(scan: Scan, chain: U64, rows: seq<Row>): (children: seq<Child>)
    requires Readable(scan) && EdgeRowsOf(scan, chain, rows)
    ensures |children| == |rows|
    decreases scan.counter - chain, 0, |rows|
  {
    if rows == [] then []
    else
      assert rows[0] in rows;
      [ChildOf(scan, rows[0])] + ChildrenOf(scan, chain, rows[1..])
  }

  ghost function ChildOf(scan: Scan, row: Row): Child
    requires Readable(scan) && row in Rows(scan.edges)
    decreases scan.counter - FromU64Be(row.value), 2
  {
    Child(NodeOf(row.key).segment, TreeOf(scan, FromU64Be(row.value)))
  }

  ghost function TreeOf(scan: Scan, chain: U64): Tree
    requires Readable(scan)
    decreases scan.counter - chain, 1
  {
    NodeRows(scan, chain);
    Tree(LeavesOf(scan, chain, NodeLeafRows(scan, chain)), ChildrenOf(scan, chain, NodeEdgeRows(scan, chain)))
  }

  lemma {:induction false} ChildrenAt(scan: Scan, chain: U64, rows: seq<Row>, i: nat)
    requires Readable(scan) && EdgeRowsOf(scan, chain, rows) && i < |rows|
    ensures rows[i] in Rows(scan.edges) && ChildrenOf(scan, chain, rows)[i] == ChildOf(scan, rows[i])
    decreases |rows|
  {
    assert rows[i] in rows;
    if i > 0 {
      ChildrenAt(scan, chain, rows[1..], i - 1);
    }
  }

  // ------------------------------------------------------------------ members

  lemma TreeLeaves(scan: Scan, chain: U64, item: LeafItem)
    requires Readable(scan)
    ensures item in TreeOf(scan, chain).leaves
       <==> Leaf(NodeKey(scan.index, chain, item.segment), item.document) in LeafView(scan.leaves)
  {
    var rows, items := NodeLeafRows(scan, chain), TreeOf(scan, chain).leaves;
    NodeRows(scan, chain);
    var leaf := Leaf(NodeKey(scan.index, chain, item.segment), item.document);
    if leaf in LeafView(scan.leaves) {
      LeafOfRow(leaf);
      NodeOfKey(leaf.node);
      U128RoundTrip(leaf.document);
      IndexNodeKeyPrefix(scan.index, chain, scan.index, chain, item.segment);
      assert RowOf(leaf) in rows;
      var i :| 0 <= i < |rows| && rows[i] == RowOf(leaf);
      assert items[i] == item;
    }
    if item in items {
      var i :| 0 <= i < |items| && items[i] == item;
      assert rows[i] in rows;
      assert LeafOf(rows[i]) == leaf;
    }
  }

  lemma TreeChildren(scan: Scan, chain: U64, segment: Bytes, child: U64)
    requires Readable(scan) && IsChild(EdgeView(scan.edges), NodeKey(scan.index, chain, segment), child)
    ensures Child(segment, TreeOf(scan, child)) in TreeOf(scan, chain).children
  {
    var rows := NodeEdgeRows(scan, chain);
    NodeRows(scan, chain);
    var key := NodeKey(scan.index, chain, segment);
    var row := Row(KeyOf(key), scan.edges[KeyOf(key)]);
    NodeOfKey(key);
    IndexNodeKeyPrefix(scan.index, chain, scan.index, chain, segment);
    assert row in rows;
    var i :| 0 <= i < |rows| && rows[i] == row;
    ChildrenAt(scan, chain, rows, i);
    assert TreeOf(scan, chain).children[i] == Child(segment, TreeOf(scan, child));
  }

  lemma ChildrenAreEdges(scan: Scan, chain: U64, c: Child) returns (child: U64)
    requires Readable(scan) && c in TreeOf(scan, chain).children
    ensures IsChild(EdgeView(scan.edges), NodeKey(scan.index, chain, c.segment), child)
    ensures c.tree == TreeOf(scan, child) && chain < child <= scan.counter
  {
    var rows, children := NodeEdgeRows(scan, chain), TreeOf(scan, chain).children;
    NodeRows(scan, chain);
    var i :| 0 <= i < |children| && children[i] == c;
    ChildrenAt(scan, chain, rows, i);
    assert rows[i] in rows;
    child := FromU64Be(rows[i].value);
    assert NodeOf(rows[i].key) == NodeKey(scan.index, chain, c.segment);
  }

  // -------------------------------------------------------------------- order

  lemma LeafRowOrder(scan: Scan, chain: U64, a: Row, b: Row)
    requires Readable(scan) && LeafRowsOf(scan, chain, [a, b]) && RowLess(a, b)
    ensures a in scan.leaves && b in scan.leaves && LeafItemLess(LeafItemOf(a), LeafItemOf(b))
  {
    assert a in [a, b] && b in [a, b];
    IndexNodeKeyOrder(scan.index, chain, NodeOf(a.key).segment, NodeOf(b.key).segment);
    U128Onto(a.value);
    U128Onto(b.value);
    U128Order(FromU128Be(a.value), FromU128Be(b.value));
  }

  lemma EdgeRowOrder(scan: Scan, chain: U64, a: Row, b: Row)
    requires Readable(scan) && EdgeRowsOf(scan, chain, [a, b]) && RowLess(a, b)
    ensures a in Rows(scan.edges) && b in Rows(scan.edges) && ChildLess(ChildOf(scan, a), ChildOf(scan, b))
  {
    assert a in [a, b] && b in [a, b];
    IndexNodeKeyOrder(scan.index, chain, NodeOf(a.key).segment, NodeOf(b.key).segment);
    LessIrreflexive(a.value);
  }

  lemma TreeSorted(scan: Scan, chain: U64)
    requires Readable(scan)
    ensures Sorted(Toward(LeafItemLess, scan.direction), TreeOf(scan, chain).leaves)
    ensures Sorted(Toward(ChildLess, scan.direction), TreeOf(scan, chain).children)
  {
    var tree := TreeOf(scan, chain);
    var leafRows, edgeRows := NodeLeafRows(scan, chain), NodeEdgeRows(scan, chain);
    NodeRows(scan, chain);
    forall i, j | 0
      <= i < j < |tree.leaves| ensures Toward(LeafItemLess, scan.direction)(tree.leaves[i], tree.leaves[j]) {
      assert leafRows[i] in leafRows && leafRows[j] in leafRows;
      assert Toward(RowLess, scan.direction)(leafRows[i], leafRows[j]);
      if scan.direction.Forward? {
        LeafRowOrder(scan, chain, leafRows[i], leafRows[j]);
      } else {
        LeafRowOrder(scan, chain, leafRows[j], leafRows[i]);
      }
    }
    forall i, j | 0
      <= i < j < |tree.children| ensures Toward(ChildLess, scan.direction)(tree.children[i], tree.children[j]) {
      assert edgeRows[i] in edgeRows && edgeRows[j] in edgeRows;
      assert Toward(RowLess, scan.direction)(edgeRows[i], edgeRows[j]);
      ChildrenAt(scan, chain, edgeRows, i);
      ChildrenAt(scan, chain, edgeRows, j);
      if scan.direction.Forward? {
        EdgeRowOrder(scan, chain, edgeRows[i], edgeRows[j]);
      } else {
        EdgeRowOrder(scan, chain, edgeRows[j], edgeRows[i]);
      }
    }
  }

  lemma {:induction false} TreeOrdered(scan: Scan, chain: U64)
    requires Sound(scan)
    ensures Ordered(scan.direction, chain == ROOT_CHAIN, TreeOf(scan, chain).leaves, TreeOf(scan, chain).children)
    decreases scan.counter - chain
  {
    var tree := TreeOf(scan, chain);
    TreeSorted(scan, chain);
    forall l | l in tree.leaves ensures |l.segment| <= SEGMENT_SIZE && (l.segment == [] ==> chain == ROOT_CHAIN) {
      TreeLeaves(scan, chain, l);
      assert LeafInTrie(EdgeView(scan.edges), Leaf(NodeKey(scan.index, chain, l.segment), l.document));
    }
    forall c | c in tree.children
      ensures |c.segment| == SEGMENT_SIZE && Ordered(scan.direction, false, c.tree.leaves, c.tree.children)
    {
      var child := ChildrenAreEdges(scan, chain, c);
      TreeOrdered(scan, child);
    }
  }

  // --------------------------------------------------------------- main result

  /** The position continues from the node, `prefix` on, to a leaf row. */
  ghost predicate Continues(scan: Scan, chain: U64, prefix: Bytes, p: IndexPosition)
    requires Readable(scan)
  {
    && prefix <= p.value
    && Stored(EdgeView(scan.edges), LeafView(scan.leaves), scan.index, chain, p.value[|prefix|..], p.documentId)
  }

  lemma SliceAfter(value: Bytes, prefix: Bytes, segment: Bytes)
    requires prefix + segment <= value
    ensures prefix <= value && value[|prefix|..] == segment + value[|prefix + segment|..]
  {
    assert value == prefix + segment + value[|prefix + segment|..];
  }

  lemma SliceStep(value: Bytes, prefix: Bytes, n: nat)
    requires prefix <= value && |prefix| + n <= |value|
    ensures prefix + value[|prefix|..][..n] <= value
    ensures value[|prefix + value[|prefix|..][..n]|..] == value[|prefix|..][n..]
  {
    assert value == prefix + value[|prefix|..];
  }

  lemma LeafContinues(scan: Scan, chain: U64, prefix: Bytes, l: LeafItem)
    requires Sound(scan) && l in TreeOf(scan, chain).leaves
    ensures Continues(scan, chain, prefix, PositionOf(prefix, l))
  {
    TreeLeaves(scan, chain, l);
    var leaf := Leaf(NodeKey(scan.index, chain, l.segment), l.document);
    StoredAtLeaf(EdgeView(scan.edges), LeafView(scan.leaves), scan.counter, leaf);
    assert (prefix + l.segment)[|prefix|..] == l.segment;
  }

  lemma EdgeContinues(scan: Scan, chain: U64, segment: Bytes, child: U64, prefix: Bytes, p: IndexPosition)
    requires Sound(scan) && IsChild(EdgeView(scan.edges), NodeKey(scan.index, chain, segment), child)
    requires Continues(scan, child, prefix + segment, p)
    ensures Continues(scan, chain, prefix, p)
  {
    var rest := p.value[|prefix + segment|..];
    StoredThroughEdge(EdgeView(scan.edges), LeafView(scan.leaves), scan.counter, NodeKey(scan.index, chain, segment),
                      rest, p.documentId);
    SliceAfter(p.value, prefix, segment);
  }

  lemma {:induction false} TreeMembersContinue(scan: Scan, chain: U64, prefix: Bytes, p: IndexPosition)
    requires Sound(scan)
    requires p in Walk(scan.direction, prefix, TreeOf(scan, chain).leaves, TreeOf(scan, chain).children)
    ensures Continues(scan, chain, prefix, p)
    decreases scan.counter - chain
  {
    var tree := TreeOf(scan, chain);
    WalkMembers(scan.direction, prefix, tree.leaves, tree.children, p);
    if FromLeaf(prefix, tree.leaves, p) {
      var l :| l in tree.leaves && p == PositionOf(prefix, l);
      LeafContinues(scan, chain, prefix, l);
    } else {
      var c :| c in tree.children && p in Behind(scan.direction, prefix, c);
      var child := ChildrenAreEdges(scan, chain, c);
      TreeMembersContinue(scan, child, prefix + c.segment, p);
      EdgeContinues(scan, chain, c.segment, child, prefix, p);
    }
  }

  lemma LeafIsTraversed(scan: Scan, chain: U64, prefix: Bytes, l: LeafItem)
    requires Readable(scan) && Leaf(NodeKey(scan.index, chain, l.segment), l.document) in LeafView(scan.leaves)
    ensures PositionOf(prefix, l)
      in Walk(scan.direction, prefix, TreeOf(scan, chain).leaves, TreeOf(scan, chain).children)
  {
    TreeLeaves(scan, chain, l);
    WalkMembers(scan.direction, prefix, TreeOf(scan, chain).leaves, TreeOf(scan, chain).children,
                PositionOf(prefix, l));
  }

  lemma ChildIsTraversed(scan: Scan, chain: U64, segment: Bytes, child: U64, prefix: Bytes, p: IndexPosition)
    requires Readable(scan) && IsChild(EdgeView(scan.edges), NodeKey(scan.index, chain, segment), child)
    requires p in Walk(scan.direction, prefix + segment, TreeOf(scan, child).leaves, TreeOf(scan, child).children)
    ensures p in Walk(scan.direction, prefix, TreeOf(scan, chain).leaves, TreeOf(scan, chain).children)
  {
    TreeChildren(scan, chain, segment, child);
    var c := Child(segment, TreeOf(scan, child));
    assert p in Behind(scan.direction, prefix, c);
    WalkMembers(scan.direction, prefix, TreeOf(scan, chain).leaves, TreeOf(scan, chain).children, p);
  }

  lemma ContinuesToLeaf(scan: Scan, chain: U64, prefix: Bytes, p: IndexPosition)
    requires Readable(scan) && Continues(scan, chain, prefix, p) && |p.value| <= |prefix| + SEGMENT_SIZE
    ensures p in Walk(scan.direction, prefix, TreeOf(scan, chain).leaves, TreeOf(scan, chain).children)
  {
    var l := LeafItem(p.value[|prefix|..], p.documentId);
    ShortIsStoredHere(EdgeView(scan.edges), LeafView(scan.leaves), scan.index, chain, l);
    LeafIsTraversed(scan, chain, prefix, l);
    Rejoined(prefix, p, l);
  }

  lemma ShortIsStoredHere(edges: Edges, leaves: Leaves, index: IndexId, chain: U64, l: LeafItem)
    requires Stored(edges, leaves, index, chain, l.segment, l.document) && |l.segment| <= SEGMENT_SIZE
    ensures Leaf(NodeKey(index, chain, l.segment), l.document) in leaves
  {
  }

  lemma Rejoined(prefix: Bytes, p: IndexPosition, l: LeafItem)
    requires prefix <= p.value && l == LeafItem(p.value[|prefix|..], p.documentId)
    ensures p == PositionOf(prefix, l)
  {
  }

  lemma ContinuesStep(scan: Scan, chain: U64, prefix: Bytes, p: IndexPosition) returns (segment: Bytes, child: U64)
    requires Readable(scan) && Continues(scan, chain, prefix, p) && |p.value| > |prefix| + SEGMENT_SIZE
    ensures |segment| == SEGMENT_SIZE
    ensures IsChild(EdgeView(scan.edges), NodeKey(scan.index, chain, segment), child)
    ensures Continues(scan, child, prefix + segment, p)
  {
    segment := p.value[|prefix|..][..SEGMENT_SIZE];
    child := EdgeView(scan.edges)[NodeKey(scan.index, chain, segment)];
    SliceStep(p.value, prefix, SEGMENT_SIZE);
  }

  lemma {:induction false} ContinuesInTree(scan: Scan, chain: U64, prefix: Bytes, p: IndexPosition)
    requires Readable(scan) && Continues(scan, chain, prefix, p)
    ensures p in Walk(scan.direction, prefix, TreeOf(scan, chain).leaves, TreeOf(scan, chain).children)
    decreases |p.value| - |prefix|
  {
    if |p.value| <= |prefix| + SEGMENT_SIZE {
      ContinuesToLeaf(scan, chain, prefix, p);
    } else {
      var segment, child := ContinuesStep(scan, chain, prefix, p);
      ContinuesInTree(scan, child, prefix + segment, p);
      ChildIsTraversed(scan, chain, segment, child, prefix, p);
    }
  }

  /** The position is one the snapshot stores for the scanned index. */
  ghost predicate InIndex(scan: Scan, p: IndexPosition)
    requires Readable(scan)
  {
    Posting(scan.index, p) in Postings(EdgeView(scan.edges), LeafView(scan.leaves))
  }

  /** Everything a cursor over the index yields. */
  ghost function Traversal(scan: Scan): seq<IndexPosition>
    requires Readable(scan)
  {
    Walk(scan.direction, [], TreeOf(scan, ROOT_CHAIN).leaves, TreeOf(scan, ROOT_CHAIN).children)
  }

  /** A full traversal meets every stored position of the index once, in order. */
  lemma TraversalIsSortedIndex(scan: Scan)
    requires Sound(scan)
    ensures Sorted(Toward(PositionLess, scan.direction), Traversal(scan))
    ensures forall p :: p in Traversal(scan) <==> InIndex(scan, p)
  {
    TreeOrdered(scan, ROOT_CHAIN);
    WalkSorted(scan.direction, true, [], TreeOf(scan, ROOT_CHAIN).leaves, TreeOf(scan, ROOT_CHAIN).children);
    forall p: IndexPosition ensures p in Traversal(scan) <==> InIndex(scan, p) {
      assert p.value[0..] == p.value;
      if p in Traversal(scan) {
        TreeMembersContinue(scan, ROOT_CHAIN, [], p);
      }
      if InIndex(scan, p) {
        assert Continues(scan, ROOT_CHAIN, [], p);
        ContinuesInTree(scan, ROOT_CHAIN, [], p);
      }
    }
  }

  /** The traversal in reverse is the reversed traversal. */
  lemma TraversalReverses(forwards: Scan, backwards: Scan)
    requires Sound(forwards) && Sound(backwards)
    requires forwards.direction == Direction.Forward && backwards == forwards.(direction := Direction.Reverse)
    ensures Traversal(backwards) == Sequences.Reverse(Traversal(forwards))
  {
    TraversalIsSortedIndex(forwards);
    TraversalIsSortedIndex(backwards);
    PositionOrder();
    TowardStrict(PositionLess, Direction.Reverse);
    DirectedSorted(PositionLess, Direction.Reverse, Traversal(forwards));
    SortedUnique(Toward(PositionLess, Direction.Reverse), Traversal(backwards),
                 Directed(Traversal(forwards), Direction.Reverse));
  }
}
