/** The rows of `index_edges` and `index_leaves` read as a trie. */
module TrieStorage {
  import opened ByteStrings
  import opened Types
  import opened BigEndian
  import opened Lmdb
  import opened HeedEncoding
  import opened IndexTrie

  function KeyOf(node: NodeKey): (key: Bytes)
    ensures |key| >= NODE_PREFIX_LEN
  {
    EncodeIndexNodeKey(node.index, node.chain, node.segment)
  }

  function NodeOf(key: Bytes): (node: NodeKey)
    requires |key| >= NODE_PREFIX_LEN
    ensures KeyOf(node) == key
  {
    IndexNodeKeyOnto(key);
    var (index, chain, segment) := DecodeIndexNodeKey(key).value;
    NodeKey(index, chain, segment)
  }

  lemma NodeOfKey(node: NodeKey)
    ensures NodeOf(KeyOf(node)) == node
  {
    IndexNodeKeyRoundTrip(node.index, node.chain, node.segment);
  }

  lemma KeysDiffer(a: NodeKey, b: NodeKey)
    ensures KeyOf(a) == KeyOf(b) <==> a == b
  {
    NodeOfKey(a);
    NodeOfKey(b);
  }

  ghost predicate EdgeRows(db: Database) {
    forall k | k in db :: |k| >= NODE_PREFIX_LEN && |db[k]| == 8
  }

  ghost predicate LeafRows(db: DupDatabase) {
    forall row | row in db :: |row.key| >= NODE_PREFIX_LEN && |row.value| == 16
  }

  function RowOf(leaf: Leaf): Row {
    Row(KeyOf(leaf.node), U128Be(leaf.document))
  }

  function LeafOf(row: Row): (leaf: Leaf)
    requires |row.key| >= NODE_PREFIX_LEN && |row.value| == 16
    ensures RowOf(leaf) == row
  {
    U128Onto(row.value);
    Leaf(NodeOf(row.key), FromU128Be(row.value))
  }

  lemma LeafOfRow(leaf: Leaf)
    ensures LeafOf(RowOf(leaf)) == leaf
  {
    NodeOfKey(leaf.node);
    U128RoundTrip(leaf.document);
  }

  ghost predicate EdgesMirror(db: Database, edges: Edges)
    requires EdgeRows(db)
  {
    && (forall n :: n in edges <==> KeyOf(n) in db)
    && (forall n | n in edges :: edges[n] == FromU64Be(db[KeyOf(n)]))
  }

  ghost predicate LeavesMirror(db: DupDatabase, leaves: Leaves)
    requires LeafRows(db)
  {
    forall l :: l in leaves <==> RowOf(l) in db
  }

  lemma EdgeMirrorExists(db: Database) returns (edges: Edges)
    requires EdgeRows(db)
    ensures EdgesMirror(db, edges)
  {
    forall n: NodeKey | KeyOf(n) in db ensures NodeOf(KeyOf(n)) == n {
      NodeOfKey(n);
    }
    var nodes := set k | k in db :: NodeOf(k);
    edges := map n | n in nodes :: FromU64Be(db[KeyOf(n)]);
  }

  lemma LeafMirrorExists(db: DupDatabase) returns (leaves: Leaves)
    requires LeafRows(db)
    ensures LeavesMirror(db, leaves)
  {
    forall l: Leaf | RowOf(l) in db ensures LeafOf(RowOf(l)) == l {
      LeafOfRow(l);
    }
    leaves := set row | row in db :: LeafOf(row);
  }

  /** The edges that the rows stand for. */
  ghost function EdgeView(db: Database): (edges: Edges)
    requires EdgeRows(db)
    ensures EdgesMirror(db, edges)
  {
    assert exists e :: EdgesMirror(db, e) by {
      var e := EdgeMirrorExists(db);
    }
    var e :| EdgesMirror(db, e);
    e
  }

  /** The leaves that the rows stand for. */
  ghost function LeafView(db: DupDatabase): (leaves: Leaves)
    requires LeafRows(db)
    ensures LeavesMirror(db, leaves)
  {
    assert exists l :: LeavesMirror(db, l) by {
      var l := LeafMirrorExists(db);
    }
    var l :| LeavesMirror(db, l);
    l
  }

  lemma PutEdgeRow(db: Database, node: NodeKey, child: U64)
    requires EdgeRows(db)
    ensures EdgeRows(db[KeyOf(node) := U64Be(child)])
    ensures EdgeView(db[KeyOf(node) := U64Be(child)]) == EdgeView(db)[node := child]
  {
    var after := db[KeyOf(node) := U64Be(child)];
    U64RoundTrip(child);
    forall n: NodeKey
      ensures n in EdgeView(after) <==> n in EdgeView(db)[node := child]
      ensures n in EdgeView(after) ==> EdgeView(after)[n] == EdgeView(db)[node := child][n]
    {
      KeysDiffer(n, node);
    }
  }

  lemma DeleteEdgeRow(db: Database, node: NodeKey)
    requires EdgeRows(db)
    ensures EdgeRows(db - {KeyOf(node)})
    ensures EdgeView(db - {KeyOf(node)}) == EdgeView(db) - {node}
  {
    forall n: NodeKey
      ensures n in EdgeView(db - {KeyOf(node)}) <==> n in EdgeView(db) - {node}
    {
      KeysDiffer(n, node);
    }
  }

  lemma ChangeLeafRow(db: DupDatabase, leaf: Leaf)
    requires LeafRows(db)
    ensures LeafRows(db - {RowOf(leaf)}) && LeafRows(db + {RowOf(leaf)})
    ensures LeafView(db - {RowOf(leaf)}) == LeafView(db) - {leaf}
    ensures LeafView(db + {RowOf(leaf)}) == LeafView(db) + {leaf}
  {
    LeafOfRow(leaf);
    forall l: Leaf
      ensures l in LeafView(db - {RowOf(leaf)}) <==> l in LeafView(db) - {leaf}
      ensures l in LeafView(db + {RowOf(leaf)}) <==> l in LeafView(db) + {leaf}
    {
      LeafOfRow(l);
    }
  }

  lemma LeafScan(leaves: DupDatabase, index: IndexId, chain: U64, direction: Direction)
    requires LeafRows(leaves)
    ensures PrefixRows(leaves, IndexNodePrefix(index, chain), direction) != []
       <==> exists leaf :: leaf in LeafView(leaves) && leaf.node.index == index && leaf.node.chain == chain
  {
    var rows := PrefixRows(leaves, IndexNodePrefix(index, chain), direction);
    if rows != [] {
      assert rows[0] in rows;
      var leaf := LeafOf(rows[0]);
      IndexNodeKeyPrefix(index, chain, leaf.node.index, leaf.node.chain, leaf.node.segment);
      assert leaf in LeafView(leaves);
    }
    if leaf :| leaf in LeafView(leaves) && leaf.node.index == index && leaf.node.chain == chain {
      IndexNodeKeyPrefix(index, chain, index, chain, leaf.node.segment);
      assert RowOf(leaf) in rows;
    }
  }

  lemma EdgeScan(edges: Database, index: IndexId, chain: U64, direction: Direction)
    requires EdgeRows(edges)
    ensures PrefixRows(Rows(edges), IndexNodePrefix(index, chain), direction) != []
       <==> exists node :: node in EdgeView(edges) && node.index == index && node.chain == chain
  {
    var rows := PrefixRows(Rows(edges), IndexNodePrefix(index, chain), direction);
    if rows != [] {
      assert rows[0] in rows;
      var node := NodeOf(rows[0].key);
      IndexNodeKeyPrefix(index, chain, node.index, node.chain, node.segment);
      assert node in EdgeView(edges);
    }
    if node :| node in EdgeView(edges) && node.index == index && node.chain == chain {
      IndexNodeKeyPrefix(index, chain, index, chain, node.segment);
      assert Row(KeyOf(node), edges[KeyOf(node)]) in rows;
    }
  }

  // -------------------------------------------------- changing the stored trie

  /** The databases hold a trie with at most one empty node. */
  ghost predicate StoresTrie(edges: Database, leaves: DupDatabase, counter: U64, hole: U64) {
    && EdgeRows(edges) && LeafRows(leaves)
    && TrieExcept(EdgeView(edges), LeafView(leaves), counter, hole)
  }

  /** LMDB takes keys of at most this many bytes. */
  const MAX_KEY_LEN := 511

  /** However long the indexed values are, every stored key fits. */
  lemma KeysFit(edges: Database, leaves: DupDatabase, counter: U64, hole: U64)
    requires StoresTrie(edges, leaves, counter, hole)
    ensures forall k | k in edges :: |k| == MAX_KEY_LEN
    ensures forall row | row in leaves :: |row.key| <= MAX_KEY_LEN
  {
    forall k | k in edges ensures |k| == MAX_KEY_LEN {
      assert NodeOf(k) in EdgeView(edges);
    }
    forall row | row in leaves ensures |row.key| <= MAX_KEY_LEN {
      assert LeafOf(row) in LeafView(leaves);
    }
  }

  lemma AddStoredEdge(edges: Database, leaves: DupDatabase, counter: U64, key: NodeKey, child: U64)
    requires StoresTrie(edges, leaves, counter, key.chain)
    requires Rooted(EdgeView(edges), key.index, key.chain) && |key.segment| == SEGMENT_SIZE
    requires KeyOf(key) !in edges && counter < child
    ensures var after := edges[KeyOf(key) := U64Be(child)];
      && StoresTrie(after, leaves, child, child)
      && EdgeView(after) == EdgeView(edges)[key := child]
      && Postings(EdgeView(after), LeafView(leaves)) == Postings(EdgeView(edges), LeafView(leaves))
  {
    PutEdgeRow(edges, key, child);
    AddEdge(EdgeView(edges), LeafView(leaves), counter, key, child);
  }

  lemma RemoveStoredEdge(edges: Database, leaves: DupDatabase, counter: U64, key: NodeKey)
    requires EdgeRows(edges) && KeyOf(key) in edges
    requires StoresTrie(edges, leaves, counter, EdgeView(edges)[key])
    requires !HasEntries(EdgeView(edges), LeafView(leaves), key.index, EdgeView(edges)[key])
    ensures var after := edges - {KeyOf(key)};
      && StoresTrie(after, leaves, counter, key.chain)
      && EdgeView(after) == EdgeView(edges) - {key}
      && Postings(EdgeView(after), LeafView(leaves)) == Postings(EdgeView(edges), LeafView(leaves))
  {
    DeleteEdgeRow(edges, key);
    RemoveEdge(EdgeView(edges), LeafView(leaves), counter, key);
  }

  /** Re-inserting the leaf row of a value whose node has been reached completes the insertion. */
  lemma AddStoredLeaf(edges: Database, leaves: DupDatabase, counter: U64, index: IndexId, value: Bytes, node: NodeKey,
                      document: DocumentId)
    requires StoresTrie(edges, leaves, counter, node.chain)
    requires Locate(EdgeView(edges), index, ROOT_CHAIN, value) == Some(node)
    requires LeafInTrie(EdgeView(edges), Leaf(node, document))
    ensures var after := leaves + {RowOf(Leaf(node, document))};
      && StoresTrie(edges, after, counter, ROOT_CHAIN)
      && Postings(EdgeView(edges), LeafView(after))
         == Postings(EdgeView(edges), LeafView(leaves)) + iset{Posting(index, IndexPosition(value, document))}
  {
    ChangeLeafRow(leaves, Leaf(node, document));
    AddLeaf(EdgeView(edges), LeafView(leaves), counter, node.chain, index, value, document);
  }

  lemma RemoveStoredLeaf(edges: Database, leaves: DupDatabase, counter: U64, index: IndexId, value: Bytes,
                         node: NodeKey, document: DocumentId)
    requires StoresTrie(edges, leaves, counter, ROOT_CHAIN)
    requires Locate(EdgeView(edges), index, ROOT_CHAIN, value) == Some(node)
    ensures var after := leaves - {RowOf(Leaf(node, document))};
      && StoresTrie(edges, after, counter, node.chain)
      && Postings(EdgeView(edges), LeafView(after))
         == Postings(EdgeView(edges), LeafView(leaves)) - iset{Posting(index, IndexPosition(value, document))}
  {
    ChangeLeafRow(leaves, Leaf(node, document));
    RemoveLeaf(EdgeView(edges), LeafView(leaves), counter, index, value, document);
  }
}
