/**
 The segmented index trie: a forest of nodes named by chain ids, one root per
 index, edges that consume a full segment, leaves that hold the rest of a value.
 */
module IndexTrie {
  import opened ByteStrings
  import opened Types
  import opened HeedEncoding

  datatype NodeKey = NodeKey(index: IndexId, chain: U64, segment: Bytes)

  datatype Leaf = Leaf(node: NodeKey, document: DocumentId)

  type Edges = map<NodeKey, U64>

  type Leaves = set<Leaf>

  /** What the trie stands for: a set of index positions, one set per index. */
  datatype Posting = Posting(index: IndexId, position: IndexPosition)

  // ------------------------------------------------------------ abstraction

  /** Follow full segments from `chain`; the last segment names the leaf. */
  function Locate(edges: Edges, index: IndexId, chain: U64, value: Bytes): Option<NodeKey>
    decreases |value|
  {
    if |value| <= SEGMENT_SIZE then Some(NodeKey(index, chain, value))
    else
      var key := NodeKey(index, chain, value[..SEGMENT_SIZE]);
      if key in edges then Locate(edges, index, edges[key], value[SEGMENT_SIZE..]) else None
  }

  ghost predicate Stored(edges: Edges, leaves: Leaves, index: IndexId, chain: U64, value: Bytes, document: DocumentId) {
    var node := Locate(edges, index, chain, value);
    node.Some? && Leaf(node.value, document) in leaves
  }

  ghost function Postings(edges: Edges, leaves: Leaves): iset<Posting> {
    iset p: Posting | Stored(edges, leaves, p.index, ROOT_CHAIN, p.position.value, p.position.documentId)
  }

  // --------------------------------------------------------------- invariant

  ghost predicate IsChild(edges: Edges, key: NodeKey, chain: U64) {
    key in edges && edges[key] == chain
  }

  /** The chain is a root or the child of an edge of the same index. */
  ghost predicate Rooted(edges: Edges, index: IndexId, chain: U64) {
    chain == ROOT_CHAIN || exists key :: IsChild(edges, key, chain) && key.index == index
  }

  ghost predicate Forest(edges: Edges, counter: U64) {
    && (forall k | k in edges :: |k.segment| == SEGMENT_SIZE && k.chain < edges[k] <= counter)
    && (forall k, k' | k in edges && k' in edges && edges[k] == edges[k'] :: k == k')
    && (forall k | k in edges :: Rooted(edges, k.index, k.chain))
  }

  ghost predicate LeafInTrie(edges: Edges, leaf: Leaf) {
    && Rooted(edges, leaf.node.index, leaf.node.chain)
    && |leaf.node.segment| <= SEGMENT_SIZE
    && (leaf.node.chain != ROOT_CHAIN ==> leaf.node.segment != [])
  }

  ghost predicate HasEntries(edges: Edges, leaves: Leaves, index: IndexId, chain: U64) {
    || (exists leaf :: leaf in leaves && leaf.node.index == index && leaf.node.chain == chain)
    || (exists key :: key in edges && key.index == index && key.chain == chain)
  }

  /** No child node is empty, except perhaps `hole` while an operation is under way. */
  ghost predicate NoEmptyNodes(edges: Edges, leaves: Leaves, hole: U64) {
    forall k | k in edges && edges[k] != hole :: HasEntries(edges, leaves, k.index, edges[k])
  }

  ghost predicate TrieExcept(edges: Edges, leaves: Leaves, counter: U64, hole: U64) {
    && Forest(edges, counter)
    && (forall leaf | leaf in leaves :: LeafInTrie(edges, leaf))
    && NoEmptyNodes(edges, leaves, hole)
  }

  ghost predicate Trie(edges: Edges, leaves: Leaves, counter: U64) {
    TrieExcept(edges, leaves, counter, ROOT_CHAIN)
  }

  // ------------------------------------------------------ paths from the root

  /** The bytes consumed on the way from the root to a chain. */
  ghost function PathOf(edges: Edges, counter: U64, chain: U64): Bytes
    requires Forest(edges, counter)
    decreases chain
  {
    if exists key :: IsChild(edges, key, chain) then
      var key :| IsChild(edges, key, chain);
      PathOf(edges, counter, key.chain) + key.segment
    else []
  }

  lemma PathOfChild(edges: Edges, counter: U64, key: NodeKey)
    requires Forest(edges, counter) && key in edges
    ensures PathOf(edges, counter, edges[key]) == PathOf(edges, counter, key.chain) + key.segment
  {
    assert IsChild(edges, key, edges[key]);
  }

  lemma PathOfRoot(edges: Edges, counter: U64)
    requires Forest(edges, counter)
    ensures PathOf(edges, counter, ROOT_CHAIN) == []
  {
  }

  /** Where a search ends determines what was searched for. */
  lemma {:induction false} LocateDetermines(edges: Edges, counter: U64, index: IndexId, chain: U64, value: Bytes)
    requires Forest(edges, counter) && Locate(edges, index, chain, value).Some?
    ensures var node := Locate(edges, index, chain, value).value;
            node.index == index
            && PathOf(edges, counter, chain) + value == PathOf(edges, counter, node.chain) + node.segment
    decreases |value|
  {
    if |value| > SEGMENT_SIZE {
      var segment, rest := value[..SEGMENT_SIZE], value[SEGMENT_SIZE..];
      var key := NodeKey(index, chain, segment);
      LocateDetermines(edges, counter, index, edges[key], rest);
      PathOfChild(edges, counter, key);
      assert value == segment + rest;
      assert PathOf(edges, counter, chain) + (segment + rest) == (PathOf(edges, counter, chain) + segment) + rest;
    }
  }

  /** Distinct values of an index have distinct leaves, and indexes share none. */
  lemma LocateInjective(edges: Edges, counter: U64, index: IndexId, value: Bytes, index': IndexId, value': Bytes)
    requires Forest(edges, counter)
    requires Locate(edges, index, ROOT_CHAIN, value).Some?
    requires Locate(edges, index, ROOT_CHAIN, value) == Locate(edges, index', ROOT_CHAIN, value')
    ensures index == index' && value == value'
  {
    LocateDetermines(edges, counter, index, ROOT_CHAIN, value);
    LocateDetermines(edges, counter, index', ROOT_CHAIN, value');
    PathOfRoot(edges, counter);
    SameAfterPrefix(PathOf(edges, counter, ROOT_CHAIN), value, value');
  }

  lemma SameAfterPrefix(prefix: Bytes, value: Bytes, value': Bytes)
    requires prefix + value == prefix + value'
    ensures value == value'
  {
    assert (prefix + value)[|prefix|..] == value && (prefix + value')[|prefix|..] == value';
  }

  /** Searching for a chain's path leads to the chain. */
  lemma {:induction false} PathLeadsToChain(edges: Edges, counter: U64, index: IndexId, chain: U64, rest: Bytes)
    requires Forest(edges, counter) && Rooted(edges, index, chain)
    requires chain != ROOT_CHAIN ==> rest != []
    ensures Locate(edges, index, ROOT_CHAIN, PathOf(edges, counter, chain) + rest) == Locate(edges, index, chain, rest)
    decreases chain
  {
    if chain == ROOT_CHAIN {
      PathOfRoot(edges, counter);
      assert [] + rest == rest;
    } else {
      var key :| IsChild(edges, key, chain) && key.index == index;
      PathOfChild(edges, counter, key);
      var path := PathOf(edges, counter, key.chain);
      PathLeadsToChain(edges, counter, index, key.chain, key.segment + rest);
      assert (path + key.segment) + rest == path + (key.segment + rest);
      assert (key.segment + rest)[..SEGMENT_SIZE] == key.segment;
      assert (key.segment + rest)[SEGMENT_SIZE..] == rest;
    }
  }

  /** Every leaf row is reachable: it is the place of exactly one posting of its index. */
  lemma LeafIsPosting(edges: Edges, leaves: Leaves, counter: U64, leaf: Leaf) returns (value: Bytes)
    requires Forest(edges, counter) && leaf in leaves && LeafInTrie(edges, leaf)
    ensures value == PathOf(edges, counter, leaf.node.chain) + leaf.node.segment
    ensures Locate(edges, leaf.node.index, ROOT_CHAIN, value) == Some(leaf.node)
    ensures Posting(leaf.node.index, IndexPosition(value, leaf.document)) in Postings(edges, leaves)
  {
    value := PathOf(edges, counter, leaf.node.chain) + leaf.node.segment;
    PathLeadsToChain(edges, counter, leaf.node.index, leaf.node.chain, leaf.node.segment);
  }

  // ------------------------------------------------------- following segments

  /** The chain reached from `chain` through edges with the given segments. */
  function Follow(edges: Edges, index: IndexId, chain: U64, segments: seq<Bytes>): Option<U64>
    decreases |segments|
  {
    if segments == [] then Some(chain)
    else
      var key := NodeKey(index, chain, segments[0]);
      if key in edges then Follow(edges, index, edges[key], segments[1..]) else None
  }

  lemma {:induction false} FollowAppend(edges: Edges, index: IndexId, chain: U64, segments: seq<Bytes>, segment: Bytes)
    requires Follow(edges, index, chain, segments).Some?
    ensures var key := NodeKey(index, Follow(edges, index, chain, segments).value, segment);
            Follow(edges, index, chain, segments + [segment]) == if key in edges then Some(edges[key]) else None
    decreases |segments|
  {
    if segments != [] {
      var key := NodeKey(index, chain, segments[0]);
      FollowAppend(edges, index, edges[key], segments[1..], segment);
      assert (segments + [segment])[1..] == segments[1..] + [segment];
    } else {
      assert [segment][1..] == [] && segments + [segment] == [segment];
    }
  }

  /** A search that starts with full segments continues from the chain they lead to. */
  lemma {:induction false} LocateFollows(edges: Edges, index: IndexId, chain: U64, segments: seq<Bytes>, rest: Bytes)
    requires Follow(edges, index, chain, segments).Some?
    requires (forall i | 0 <= i < |segments| :: |segments[i]| == SEGMENT_SIZE) && (segments != [] ==> rest != [])
    ensures Locate(edges, index, chain, Join(segments) + rest)
       == Locate(edges, index, Follow(edges, index, chain, segments).value, rest)
    decreases |segments|
  {
    if segments == [] {
      assert Join(segments) + rest == rest;
    } else {
      LocateFollows(edges, index, edges[NodeKey(index, chain, segments[0])], segments[1..], rest);
      var value := Join(segments) + rest;
      assert value[..SEGMENT_SIZE] == segments[0] && value[SEGMENT_SIZE..] == Join(segments[1..]) + rest;
    }
  }

  lemma {:induction false} JoinAppend(segments: seq<Bytes>, more: seq<Bytes>)
    ensures Join(segments + more) == Join(segments) + Join(more)
  {
    if segments == [] {
      assert segments + more == more;
    } else {
      JoinAppend(segments[1..], more);
      assert (segments + more)[1..] == segments[1..] + more;
      assert segments[0] + (Join(segments[1..]) + Join(more)) == (segments[0] + Join(segments[1..])) + Join(more);
    }
  }

  /** What is left of a value after its first segments. */
  lemma SegmentsLeft(segments: seq<Bytes>, n: nat)
    requires IsSegmentation(segments) && n < |segments|
    ensures n == |segments| - 1 ==> Join(segments[n..]) == segments[n]
    ensures n < |segments| - 1 ==>
      |Join(segments[n..])| > SEGMENT_SIZE && Join(segments[n..])[..SEGMENT_SIZE] == segments[n]
  {
    var rest := segments[n..];
    assert rest[0] == segments[n] && Join(rest) == rest[0] + Join(rest[1..]);
    if n == |segments| - 1 {
      assert rest[1..] == [] && Join(rest[1..]) == [];
    } else {
      JoinNonEmpty(rest[1..]);
    }
  }

  /** Where the loop over a value's segments ends up. */
  lemma LocateBySegments(edges: Edges, index: IndexId, value: Bytes, n: nat)
    requires n < |SplitIndexKey(value)| && Follow(edges, index, ROOT_CHAIN, SplitIndexKey(value)[..n]).Some?
    ensures var segments := SplitIndexKey(value);
            var chain := Follow(edges, index, ROOT_CHAIN, segments[..n]).value;
            && IsSegmentation(segments)
            && (n == |segments| - 1 ==>
               Locate(edges, index, ROOT_CHAIN, value) == Some(NodeKey(index, chain, segments[n])))
            && (n < |segments| - 1 && NodeKey(index, chain, segments[n]) !in edges ==>
               Locate(edges, index, ROOT_CHAIN, value) == None)
  {
    var segments := SplitIndexKey(value);
    SplitIndexKeySegments(value);
    assert segments == segments[..n] + segments[n..];
    JoinAppend(segments[..n], segments[n..]);
    var rest := Join(segments[n..]);
    SegmentsLeft(segments, n);
    LocateFollows(edges, index, ROOT_CHAIN, segments[..n], rest);
  }

  /** A chain reached from the root belongs to the index. */
  lemma {:induction false} FollowRooted(edges: Edges, counter: U64, index: IndexId, chain: U64, segments: seq<Bytes>)
    requires Forest(edges, counter) && Rooted(edges, index, chain) && Follow(edges, index, chain, segments).Some?
    ensures Rooted(edges, index, Follow(edges, index, chain, segments).value)
    decreases |segments|
  {
    if segments != [] {
      var key := NodeKey(index, chain, segments[0]);
      assert IsChild(edges, key, edges[key]);
      FollowRooted(edges, counter, index, edges[key], segments[1..]);
    }
  }

  // ----------------------------------------------------------- steps of a search

  lemma StoredAtLeaf(edges: Edges, leaves: Leaves, counter: U64, leaf: Leaf)
    requires Trie(edges, leaves, counter) && leaf in leaves
    ensures |leaf.node.segment| <= SEGMENT_SIZE
    ensures Stored(edges, leaves, leaf.node.index, leaf.node.chain, leaf.node.segment, leaf.document)
  {
    assert LeafInTrie(edges, leaf);
  }

  lemma StoredThroughEdge(edges: Edges, leaves: Leaves, counter: U64, key: NodeKey, rest: Bytes, document: DocumentId)
    requires Trie(edges, leaves, counter) && key in edges
    requires Stored(edges, leaves, key.index, edges[key], rest, document)
    ensures rest != []
    ensures Stored(edges, leaves, key.index, key.chain, key.segment + rest, document)
  {
    var leaf := Leaf(Locate(edges, key.index, edges[key], rest).value, document);
    assert LeafInTrie(edges, leaf);
    assert (key.segment + rest)[..SEGMENT_SIZE] == key.segment;
    assert (key.segment + rest)[SEGMENT_SIZE..] == rest;
  }

  // ------------------------------------------------------------------ leaves

  /** A row added at a value's place adds that posting and nothing else. */
  lemma AddLeaf(edges: Edges, leaves: Leaves, counter: U64, hole: U64, index: IndexId, value: Bytes,
                document: DocumentId)
    requires TrieExcept(edges, leaves, counter, hole)
    requires Locate(edges, index, ROOT_CHAIN, value).Some?
    requires hole == Locate(edges, index, ROOT_CHAIN, value).value.chain
    requires LeafInTrie(edges, Leaf(Locate(edges, index, ROOT_CHAIN, value).value, document))
    ensures var leaf := Leaf(Locate(edges, index, ROOT_CHAIN, value).value, document);
            && Trie(edges, leaves + {leaf}, counter)
            && Postings(edges, leaves + {leaf})
               == Postings(edges, leaves) + iset{Posting(index, IndexPosition(value, document))}
  {
    var leaf := Leaf(Locate(edges, index, ROOT_CHAIN, value).value, document);
    var after := leaves + {leaf};
    LeafPostings(edges, leaves, counter, index, value, document);
    LocateDetermines(edges, counter, index, ROOT_CHAIN, value);
    forall k | k in edges ensures HasEntries(edges, after, k.index, edges[k]) {
      if edges[k] == hole {
        assert Rooted(edges, index, hole);
        assert IsChild(edges, k, hole);
        assert leaf in after;
      } else if exists l :: l in leaves && l.node.index == k.index && l.node.chain == edges[k] {
        var l :| l in leaves && l.node.index == k.index && l.node.chain == edges[k];
        assert l in after;
      }
    }
  }

  lemma LeafPostings(edges: Edges, leaves: Leaves, counter: U64, index: IndexId, value: Bytes, document: DocumentId)
    requires Forest(edges, counter) && Locate(edges, index, ROOT_CHAIN, value).Some?
    ensures var leaf := Leaf(Locate(edges, index, ROOT_CHAIN, value).value, document);
            var posting := Posting(index, IndexPosition(value, document));
            && Postings(edges, leaves + {leaf}) == Postings(edges, leaves) + iset{posting}
            && Postings(edges, leaves - {leaf}) == Postings(edges, leaves) - iset{posting}
  {
    var leaf := Leaf(Locate(edges, index, ROOT_CHAIN, value).value, document);
    var posting := Posting(index, IndexPosition(value, document));
    forall p: Posting
      ensures p in Postings(edges, leaves + {leaf}) <==> p in Postings(edges, leaves) + iset{posting}
      ensures p in Postings(edges, leaves - {leaf}) <==> p in Postings(edges, leaves) - iset{posting}
    {
      if Locate(edges, p.index, ROOT_CHAIN, p.position.value) == Some(leaf.node) {
        LocateInjective(edges, counter, index, value, p.index, p.position.value);
      }
    }
  }

  /** A row removed at a value's place removes that posting and may leave its node empty. */
  lemma RemoveLeaf(edges: Edges, leaves: Leaves, counter: U64, index: IndexId, value: Bytes, document: DocumentId)
    requires Trie(edges, leaves, counter)
    requires Locate(edges, index, ROOT_CHAIN, value).Some?
    ensures var leaf := Leaf(Locate(edges, index, ROOT_CHAIN, value).value, document);
            && TrieExcept(edges, leaves - {leaf}, counter, leaf.node.chain)
            && Postings(edges, leaves - {leaf})
               == Postings(edges, leaves) - iset{Posting(index, IndexPosition(value, document))}
  {
    var leaf := Leaf(Locate(edges, index, ROOT_CHAIN, value).value, document);
    var after := leaves - {leaf};
    LeafPostings(edges, leaves, counter, index, value, document);
    forall k | k in edges && edges[k] != leaf.node.chain ensures HasEntries(edges, after, k.index, edges[k]) {
      assert HasEntries(edges, leaves, k.index, edges[k]);
      if exists l :: l in leaves && l.node.index == k.index && l.node.chain == edges[k] {
        var l :| l in leaves && l.node.index == k.index && l.node.chain == edges[k];
        assert l in after;
      }
    }
  }

  // ------------------------------------------------------------------- edges

  /** Nothing hangs off the chain. */
  ghost predicate Unused(edges: Edges, leaves: Leaves, chain: U64) {
    && (forall leaf | leaf in leaves :: leaf.node.chain != chain)
    && (forall k | k in edges :: k.chain != chain && edges[k] != chain)
  }

  /** An edge to an unused chain changes no posting. */
  lemma {:induction false} EdgeToUnused(
      edges: Edges, leaves: Leaves, key: NodeKey, child: U64,
      index: IndexId, chain: U64, value: Bytes, document: DocumentId)
    requires key !in edges && Unused(edges, leaves, child)
    requires chain != child
    ensures Stored(edges[key := child], leaves, index, chain, value, document)
       <==> Stored(edges, leaves, index, chain, value, document)
    decreases |value|
  {
    if |value| > SEGMENT_SIZE {
      var k, rest := NodeKey(index, chain, value[..SEGMENT_SIZE]), value[SEGMENT_SIZE..];
      if k == key {
        NothingBelow(edges[key := child], leaves, index, child, rest, document);
      } else if k in edges {
        EdgeToUnused(edges, leaves, key, child, index, edges[k], rest, document);
      }
    }
  }

  lemma NothingBelow(edges: Edges, leaves: Leaves, index: IndexId, chain: U64, value: Bytes, document: DocumentId)
    requires forall leaf | leaf in leaves :: leaf.node.chain != chain
    requires forall k | k in edges :: k.chain != chain
    ensures !Stored(edges, leaves, index, chain, value, document)
  {
  }

  lemma EdgePostings(edges: Edges, leaves: Leaves, key: NodeKey, child: U64)
    requires key !in edges && Unused(edges, leaves, child) && child != ROOT_CHAIN
    ensures Postings(edges[key := child], leaves) == Postings(edges, leaves)
  {
    forall p: Posting ensures p in Postings(edges[key := child], leaves) <==> p in Postings(edges, leaves) {
      EdgeToUnused(edges, leaves, key, child, p.index, ROOT_CHAIN, p.position.value, p.position.documentId);
    }
  }

  lemma RootedWithin(edges: Edges, counter: U64, index: IndexId, chain: U64)
    requires Forest(edges, counter) && Rooted(edges, index, chain)
    ensures chain <= counter
  {
    if chain != ROOT_CHAIN {
      var k :| IsChild(edges, k, chain) && k.index == index;
    }
  }

  lemma RootedGrows(edges: Edges, key: NodeKey, child: U64, index: IndexId, chain: U64)
    requires key !in edges && Rooted(edges, index, chain)
    ensures Rooted(edges[key := child], index, chain)
  {
    if chain != ROOT_CHAIN {
      var k :| IsChild(edges, k, chain) && k.index == index;
      assert IsChild(edges[key := child], k, chain);
    }
  }

  /** Chains above the counter are unused. */
  lemma FreshIsUnused(edges: Edges, leaves: Leaves, counter: U64, child: U64)
    requires Forest(edges, counter) && counter < child
    requires forall leaf | leaf in leaves :: LeafInTrie(edges, leaf)
    ensures Unused(edges, leaves, child)
  {
    forall leaf | leaf in leaves ensures leaf.node.chain != child {
      RootedWithin(edges, counter, leaf.node.index, leaf.node.chain);
    }
  }

  lemma AddEdgeForest(edges: Edges, counter: U64, key: NodeKey, child: U64)
    requires Forest(edges, counter) && Rooted(edges, key.index, key.chain) && |key.segment| == SEGMENT_SIZE
    requires key !in edges && counter < child
    ensures Forest(edges[key := child], child)
  {
    var after := edges[key := child];
    RootedWithin(edges, counter, key.index, key.chain);
    forall k | k in after ensures Rooted(after, k.index, k.chain) {
      RootedGrows(edges, key, child, k.index, k.chain);
    }
  }

  lemma AddEdgeEntries(edges: Edges, leaves: Leaves, key: NodeKey, child: U64)
    requires NoEmptyNodes(edges, leaves, key.chain) && key !in edges
    requires forall k | k in edges && edges[k] == key.chain :: k.index == key.index
    ensures NoEmptyNodes(edges[key := child], leaves, child)
  {
    var after := edges[key := child];
    forall k | k in after && after[k] != child ensures HasEntries(after, leaves, k.index, after[k]) {
      if after[k] == key.chain {
        assert key in after;
      } else {
        assert HasEntries(edges, leaves, k.index, edges[k]);
        if e :| e in edges && e.index == k.index && e.chain == edges[k] {
          assert e in after;
        }
      }
    }
  }

  /** A fresh edge below the hole keeps the trie, with the new node as the hole. */
  lemma AddEdge(edges: Edges, leaves: Leaves, counter: U64, key: NodeKey, child: U64)
    requires TrieExcept(edges, leaves, counter, key.chain)
    requires Rooted(edges, key.index, key.chain) && |key.segment| == SEGMENT_SIZE
    requires key !in edges && counter < child
    ensures TrieExcept(edges[key := child], leaves, child, child)
    ensures Postings(edges[key := child], leaves) == Postings(edges, leaves)
    ensures Rooted(edges[key := child], key.index, child)
  {
    var after := edges[key := child];
    FreshIsUnused(edges, leaves, counter, child);
    EdgePostings(edges, leaves, key, child);
    AddEdgeForest(edges, counter, key, child);
    forall k | k in edges && edges[k] == key.chain ensures k.index == key.index {
      var e :| IsChild(edges, e, key.chain) && e.index == key.index;
    }
    AddEdgeEntries(edges, leaves, key, child);
    forall leaf | leaf in leaves ensures LeafInTrie(after, leaf) {
      RootedGrows(edges, key, child, leaf.node.index, leaf.node.chain);
    }
    assert IsChild(after, key, child);
  }

  lemma EmptyIsUnused(edges: Edges, leaves: Leaves, counter: U64, key: NodeKey)
    requires key in edges && TrieExcept(edges, leaves, counter, edges[key])
    requires !HasEntries(edges, leaves, key.index, edges[key])
    ensures Unused(edges - {key}, leaves, edges[key])
    ensures forall k | k in edges :: k.chain != edges[key]
  {
    var child := edges[key];
    forall leaf | leaf in leaves ensures leaf.node.chain != child {
      assert Rooted(edges, leaf.node.index, leaf.node.chain);
    }
    forall k | k in edges ensures k.chain != child {
      assert Rooted(edges, k.index, k.chain);
    }
  }

  lemma RootedShrinks(edges: Edges, key: NodeKey, index: IndexId, chain: U64)
    requires key in edges && Rooted(edges, index, chain) && chain != edges[key]
    ensures Rooted(edges - {key}, index, chain)
  {
    if chain != ROOT_CHAIN {
      var k :| IsChild(edges, k, chain) && k.index == index;
      assert IsChild(edges - {key}, k, chain);
    }
  }

  lemma RemoveEdgeEntries(edges: Edges, leaves: Leaves, key: NodeKey)
    requires key in edges && NoEmptyNodes(edges, leaves, edges[key])
    requires forall k | k in edges && edges[k] == edges[key] :: k == key
    ensures NoEmptyNodes(edges - {key}, leaves, key.chain)
  {
    var after := edges - {key};
    forall k | k in after && after[k] != key.chain ensures HasEntries(after, leaves, k.index, after[k]) {
      assert HasEntries(edges, leaves, k.index, edges[k]);
      if e :| e in edges && e.index == k.index && e.chain == edges[k] {
        assert e in after;
      }
    }
  }

  lemma RemoveEdgeRooted(edges: Edges, leaves: Leaves, key: NodeKey)
    requires key in edges
    requires forall k | k in edges :: Rooted(edges, k.index, k.chain) && k.chain != edges[key]
    requires forall leaf | leaf in leaves :: LeafInTrie(edges, leaf) && leaf.node.chain != edges[key]
    ensures forall k | k in edges - {key} :: Rooted(edges - {key}, k.index, k.chain)
    ensures forall leaf | leaf in leaves :: LeafInTrie(edges - {key}, leaf)
  {
    forall k | k in edges - {key} ensures Rooted(edges - {key}, k.index, k.chain) {
      RootedShrinks(edges, key, k.index, k.chain);
    }
    forall leaf | leaf in leaves ensures LeafInTrie(edges - {key}, leaf) {
      RootedShrinks(edges, key, leaf.node.index, leaf.node.chain);
    }
  }

  lemma RemoveEdgePostings(edges: Edges, leaves: Leaves, counter: U64, key: NodeKey)
    requires key in edges && TrieExcept(edges, leaves, counter, edges[key])
    requires !HasEntries(edges, leaves, key.index, edges[key])
    ensures Postings(edges - {key}, leaves) == Postings(edges, leaves)
  {
    var after, child := edges - {key}, edges[key];
    EmptyIsUnused(edges, leaves, counter, key);
    PutBack(edges, key);
    EdgePostings(after, leaves, key, child);
  }

  lemma PutBack(edges: Edges, key: NodeKey)
    requires key in edges
    ensures (edges - {key})[key := edges[key]] == edges
  {
  }

  /** Removing the edge to an empty node moves the hole to the parent. */
  lemma RemoveEdge(edges: Edges, leaves: Leaves, counter: U64, key: NodeKey)
    requires key in edges && TrieExcept(edges, leaves, counter, edges[key])
    requires !HasEntries(edges, leaves, key.index, edges[key])
    ensures TrieExcept(edges - {key}, leaves, counter, key.chain)
    ensures Postings(edges - {key}, leaves) == Postings(edges, leaves)
  {
    RemoveEdgePostings(edges, leaves, counter, key);
    EmptyIsUnused(edges, leaves, counter, key);
    RemoveEdgeEntries(edges, leaves, key);
    RemoveEdgeRooted(edges, leaves, key);
  }

  /** A node that has entries is no hole. */
  lemma HoleFilled(edges: Edges, leaves: Leaves, counter: U64, hole: U64, index: IndexId)
    requires TrieExcept(edges, leaves, counter, hole)
    requires hole == ROOT_CHAIN || HasEntries(edges, leaves, index, hole)
    requires forall k | k in edges && edges[k] == hole :: k.index == index
    ensures Trie(edges, leaves, counter)
  {
  }

  lemma ChildHasOneIndex(edges: Edges, counter: U64, key: NodeKey)
    requires Forest(edges, counter) && key in edges
    ensures forall k | k in edges && edges[k] == edges[key] :: k.index == key.index
  {
  }

  /** An existing edge carries the hole along: its parent has an entry. */
  lemma HoleMoves(edges: Edges, leaves: Leaves, counter: U64, key: NodeKey)
    requires TrieExcept(edges, leaves, counter, key.chain) && key in edges && Rooted(edges, key.index, key.chain)
    ensures Trie(edges, leaves, counter) && TrieExcept(edges, leaves, counter, edges[key])
  {
    assert HasEntries(edges, leaves, key.index, key.chain);
    if key.chain != ROOT_CHAIN {
      var k :| IsChild(edges, k, key.chain) && k.index == key.index;
      ChildHasOneIndex(edges, counter, k);
    }
    HoleFilled(edges, leaves, counter, key.chain, key.index);
  }

  /** A larger counter bounds the same trie. */
  lemma CounterGrows(edges: Edges, leaves: Leaves, counter: U64, hole: U64, larger: U64)
    requires TrieExcept(edges, leaves, counter, hole) && counter <= larger
    ensures TrieExcept(edges, leaves, larger, hole)
  {
  }
}
