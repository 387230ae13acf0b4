/** What inserting and deleting an index entry does to the rows, and to the set of postings they stand for. */
module IndexUpdates {
  import opened ByteStrings
  import opened Types
  import opened BigEndian
  import opened Lmdb
  import opened HeedEncoding
  import opened IndexTrie
  import opened TrieStorage

  /** The edge rows with the in-memory chain counter and its changed flag. */
  datatype ChainState = ChainState(edges: Database, counter: U64, changed: bool) {
    /** The counter that a commit would leave stored, when `stored` is the one stored now. */
    function Bound(stored: U64): U64 {
      if changed then counter else stored
    }
  }

  /** One step of the way from an index root to a leaf. */
  datatype IndexPathEdge = IndexPathEdge(parentChain: U64, segment: Bytes, childChain: U64)

  // ------------------------------------------------------------------ inserting

  /** Follow the edge or create it; an error for a malformed edge or when the chain ids are exhausted. */
  function EdgeStep(s: ChainState, index: IndexId, parent: U64, segment: Bytes): (ChainState, Result<U64>) {
    var key := EncodeIndexNodeKey(index, parent, segment);
    if key in s.edges then (s, DecodeU64(s.edges[key]))
    else if s.counter == U64_MAX then (s, Failure(CountersExhausted))
    else (ChainState(s.edges[key := U64Be(s.counter + 1)], s.counter + 1, true), Success(s.counter + 1))
  }

  function PathSteps(s: ChainState, index: IndexId, chain: U64, segments: seq<Bytes>): (ChainState, Result<U64>)
    decreases |segments|
  {
    if segments == [] then (s, Success(chain))
    else
      var (s', next) := EdgeStep(s, index, chain, segments[0]);
      if next.Failure? then (s', next) else PathSteps(s', index, next.value, segments[1..])
  }

  function LeafRow(index: IndexId, chain: U64, segment: Bytes, document: DocumentId): Row {
    Row(EncodeIndexNodeKey(index, chain, segment), U128Be(document))
  }

  /** Every stored edge is still there. */
  ghost predicate Extends(before: Edges, after: Edges) {
    forall k | k in before :: k in after && after[k] == before[k]
  }

  /** The trie after a step, with the node it leads to as the possibly empty one. */
  ghost predicate StepResult(s: ChainState, s': ChainState, leaves: DupDatabase, stored: U64, key: NodeKey, next: U64)
    requires EdgeRows(s.edges) && LeafRows(leaves)
  {
    && StoresTrie(s'.edges, leaves, s'.Bound(stored), next)
    && IsChild(EdgeView(s'.edges), key, next)
    && Extends(EdgeView(s.edges), EdgeView(s'.edges))
    && Postings(EdgeView(s'.edges), LeafView(leaves)) == Postings(EdgeView(s.edges), LeafView(leaves))
  }

  lemma EdgeFollowed(s: ChainState, leaves: DupDatabase, stored: U64, key: NodeKey)
    requires StoresTrie(s.edges, leaves, s.Bound(stored), key.chain) && Rooted(EdgeView(s.edges), key.index, key.chain)
    requires KeyOf(key) in s.edges
    ensures |s.edges[KeyOf(key)]| == 8 && StepResult(s, s, leaves, stored, key, FromU64Be(s.edges[KeyOf(key)]))
  {
    HoleMoves(EdgeView(s.edges), LeafView(leaves), s.Bound(stored), key);
  }

  lemma EdgeCreated(s: ChainState, leaves: DupDatabase, stored: U64, key: NodeKey)
    requires stored <= s.counter < U64_MAX && StoresTrie(s.edges, leaves, s.Bound(stored), key.chain)
    requires Rooted(EdgeView(s.edges), key.index, key.chain) && |key.segment| == SEGMENT_SIZE
    requires KeyOf(key) !in s.edges
    ensures StepResult(s, ChainState(s.edges[KeyOf(key) := U64Be(s.counter + 1)], s.counter + 1, true), leaves, stored,
                       key, s.counter + 1)
  {
    AddStoredEdge(s.edges, leaves, s.Bound(stored), key, s.counter + 1);
    ExtendsByEdge(EdgeView(s.edges), key, s.counter + 1);
  }

  lemma ExtendsByEdge(edges: Edges, key: NodeKey, child: U64)
    requires key !in edges
    ensures Extends(edges, edges[key := child]) && IsChild(edges[key := child], key, child)
  {
  }

  lemma EdgeStepCases(s: ChainState, key: NodeKey)
    ensures EdgeStep(s, key.index, key.chain, key.segment) ==
      if KeyOf(key) in s.edges then (s, DecodeU64(s.edges[KeyOf(key)]))
      else if s.counter == U64_MAX then (s, Failure(CountersExhausted))
      else (ChainState(s.edges[KeyOf(key) := U64Be(s.counter + 1)], s.counter + 1, true), Success(s.counter + 1))
  {
  }

  lemma EdgeStepKeeps(s: ChainState, leaves: DupDatabase, stored: U64, index: IndexId, parent: U64, segment: Bytes)
    requires stored <= s.counter && StoresTrie(s.edges, leaves, s.Bound(stored), parent)
    requires Rooted(EdgeView(s.edges), index, parent) && |segment| == SEGMENT_SIZE
    ensures var (s', next) := EdgeStep(s, index, parent, segment);
      && s.counter <= s'.counter
      && (next.Success? ==> StepResult(s, s', leaves, stored, NodeKey(index, parent, segment), next.value))
  {
    var key := NodeKey(index, parent, segment);
    assert EncodeIndexNodeKey(index, parent, segment) == KeyOf(key);
    EdgeStepCases(s, key);
    if KeyOf(key) in s.edges {
      EdgeFollowed(s, leaves, stored, key);
    } else if s.counter < U64_MAX {
      EdgeCreated(s, leaves, stored, key);
    }
  }

  /** The trie after a walk, with the node at its end as the possibly empty one. */
  ghost predicate PathResult(s: ChainState, s': ChainState, leaves: DupDatabase, stored: U64,
                             index: IndexId, chain: U64, segments: seq<Bytes>, end: U64)
    requires EdgeRows(s.edges) && LeafRows(leaves)
  {
    && StoresTrie(s'.edges, leaves, s'.Bound(stored), end)
    && Follow(EdgeView(s'.edges), index, chain, segments) == Some(end)
    && Extends(EdgeView(s.edges), EdgeView(s'.edges))
    && Postings(EdgeView(s'.edges), LeafView(leaves)) == Postings(EdgeView(s.edges), LeafView(leaves))
  }

  lemma StepThenPath(s: ChainState, s': ChainState, s'': ChainState, leaves: DupDatabase, stored: U64,
                     key: NodeKey, next: U64, segments: seq<Bytes>, end: U64)
    requires EdgeRows(s.edges) && LeafRows(leaves) && segments != [] && segments[0] == key.segment
    requires StepResult(s, s', leaves, stored, key, next)
    requires PathResult(s', s'', leaves, stored, key.index, next, segments[1..], end)
    ensures PathResult(s, s'', leaves, stored, key.index, key.chain, segments, end)
  {
  }

  lemma {:induction false} PathStepsGrow(s: ChainState, index: IndexId, chain: U64, segments: seq<Bytes>)
    ensures s.counter <= PathSteps(s, index, chain, segments).0.counter
    decreases |segments|
  {
    if segments != [] {
      var (s', next) := EdgeStep(s, index, chain, segments[0]);
      if next.Success? {
        PathStepsGrow(s', index, next.value, segments[1..]);
      }
    }
  }

  /** Following or creating a path changes no posting and leads where a search for it would. */
  lemma {:induction false} PathStepsKeep(s: ChainState, leaves: DupDatabase, stored: U64, index: IndexId, chain: U64,
                                         segments: seq<Bytes>)
    requires stored <= s.counter && StoresTrie(s.edges, leaves, s.Bound(stored), chain)
    requires Rooted(EdgeView(s.edges), index, chain)
    requires forall i | 0 <= i < |segments| :: |segments[i]| == SEGMENT_SIZE
    requires PathSteps(s, index, chain, segments).1.Success?
    ensures var (s', end) := PathSteps(s, index, chain, segments);
      PathResult(s, s', leaves, stored, index, chain, segments, end.value)
    decreases |segments|
  {
    if segments == [] {
      assert PathSteps(s, index, chain, segments) == (s, Success(chain));
    } else {
      EdgeStepKeeps(s, leaves, stored, index, chain, segments[0]);
      var (s', next) := EdgeStep(s, index, chain, segments[0]);
      var (s'', end) := PathSteps(s', index, next.value, segments[1..]);
      assert PathSteps(s, index, chain, segments) == (s'', end);
      var key := NodeKey(index, chain, segments[0]);
      ChildRooted(EdgeView(s'.edges), key, next.value);
      PathStepsKeep(s', leaves, stored, index, next.value, segments[1..]);
      StepThenPath(s, s', s'', leaves, stored, key, next.value, segments, end.value);
    }
  }

  /** Building a path fails only when the chain ids are exhausted. */
  lemma {:induction false} PathStepsFail(s: ChainState, index: IndexId, chain: U64, segments: seq<Bytes>)
    requires EdgeRows(s.edges)
    ensures var (s', end) := PathSteps(s, index, chain, segments);
      end.Failure? ==> end.error == CountersExhausted && s'.counter == U64_MAX
    decreases |segments|
  {
    if segments != [] {
      var (s', next) := EdgeStep(s, index, chain, segments[0]);
      if next.Success? {
        PathStepsFail(s', index, next.value, segments[1..]);
      }
    }
  }

  lemma ChildRooted(edges: Edges, key: NodeKey, child: U64)
    requires IsChild(edges, key, child)
    ensures Rooted(edges, key.index, child)
  {
  }

  /** The last segment is empty only at the root. */
  lemma LastSegmentInTrie(edges: Edges, counter: U64, index: IndexId, segments: seq<Bytes>, chain: U64,
                          document: DocumentId)
    requires Forest(edges, counter) && IsSegmentation(segments)
    requires Follow(edges, index, ROOT_CHAIN, segments[..|segments| - 1]) == Some(chain)
    ensures LeafInTrie(edges, Leaf(NodeKey(index, chain, segments[|segments| - 1]), document))
  {
    FollowRooted(edges, counter, index, ROOT_CHAIN, segments[..|segments| - 1]);
    if |segments| == 1 {
      assert segments[..0] == [];
    }
  }

  /** Inserting a posting: walk or build the path, then re-insert the leaf row. */
  function PutEntry(s: ChainState, leaves: DupDatabase, index: IndexId, value: Bytes,
                    document: DocumentId): (ChainState, Result<DupDatabase>) {
    var segments := SplitIndexKey(value);
    var (s', chain) := PathSteps(s, index, ROOT_CHAIN, segments[..|segments| - 1]);
    match chain
    case Failure(e) => (s', Failure(e))
    case Success(c) =>
      var row := LeafRow(index, c, segments[|segments| - 1], document);
      (s', Success(leaves - {row} + {row}))
  }

  lemma Reinserted(rows: DupDatabase, row: Row)
    ensures rows - {row} + {row} == rows + {row}
  {
  }

  /** The trie and its postings after an insertion. */
  ghost predicate EntryPut(s: ChainState, s': ChainState, leaves: DupDatabase, leaves': DupDatabase, stored: U64,
                           index: IndexId, value: Bytes, document: DocumentId)
    requires EdgeRows(s.edges) && LeafRows(leaves)
  {
    && StoresTrie(s'.edges, leaves', s'.Bound(stored), ROOT_CHAIN)
    && Postings(EdgeView(s'.edges), LeafView(leaves'))
       == Postings(EdgeView(s.edges), LeafView(leaves)) + iset{Posting(index, IndexPosition(value, document))}
  }

  /** The leaf at the end of the path is the one of the value. */
  lemma LeafInserted(s: ChainState, s': ChainState, leaves: DupDatabase, stored: U64, index: IndexId, value: Bytes,
                     document: DocumentId, segments: seq<Bytes>, chain: U64)
    requires EdgeRows(s.edges) && LeafRows(leaves) && segments == SplitIndexKey(value)
    requires PathResult(s, s', leaves, stored, index, ROOT_CHAIN, segments[..|segments| - 1], chain)
    ensures var row := LeafRow(index, chain, segments[|segments| - 1], document);
      EntryPut(s, s', leaves, leaves - {row} + {row}, stored, index, value, document)
  {
    SplitIndexKeySegments(value);
    var node := NodeKey(index, chain, segments[|segments| - 1]);
    LocateBySegments(EdgeView(s'.edges), index, value, |segments| - 1);
    LastSegmentInTrie(EdgeView(s'.edges), s'.Bound(stored), index, segments, chain, document);
    AddStoredLeaf(s'.edges, leaves, s'.Bound(stored), index, value, node, document);
    Reinserted(leaves, RowOf(Leaf(node, document)));
  }

  /**
   Insertion refines adding one posting, for a value of any length, and keeps the trie; it fails only when the chain ids
   are exhausted.
   */
  lemma PutEntryRefines(s: ChainState, leaves: DupDatabase, stored: U64, index: IndexId, value: Bytes,
                        document: DocumentId)
    requires stored <= s.counter && StoresTrie(s.edges, leaves, s.Bound(stored), ROOT_CHAIN)
    ensures var (s', leaves') := PutEntry(s, leaves, index, value, document);
      && s.counter <= s'.counter
      && (leaves'.Success? ==> EntryPut(s, s', leaves, leaves'.value, stored, index, value, document))
      && (leaves'.Failure? ==> leaves'.error == CountersExhausted && s'.counter == U64_MAX)
  {
    var segments := SplitIndexKey(value);
    SplitIndexKeySegments(value);
    var full := segments[..|segments| - 1];
    PathStepsGrow(s, index, ROOT_CHAIN, full);
    PathStepsFail(s, index, ROOT_CHAIN, full);
    var (s', chain) := PathSteps(s, index, ROOT_CHAIN, full);
    if chain.Success? {
      PathStepsKeep(s, leaves, stored, index, ROOT_CHAIN, full);
      LeafInserted(s, s', leaves, stored, index, value, document, segments, chain.value);
    }
  }

  // ------------------------------------------------------------------- deleting

  /** The edges from `chain` along full segments, `None` when one is missing, an error when one is malformed. */
  function FindPath(edges: Database, index: IndexId, chain: U64,
                    segments: seq<Bytes>): Result<Option<seq<IndexPathEdge>>>
    decreases |segments|
  {
    if segments == [] then Success(Some([]))
    else
      var key := EncodeIndexNodeKey(index, chain, segments[0]);
      if key !in edges then Success(None)
      else
        match DecodeU64(edges[key])
        case Failure(e) => Failure(e)
        case Success(child) => Prepend(IndexPathEdge(chain, segments[0], child),
                                       FindPath(edges, index, child, segments[1..]))
  }

  function Prepend(edge: IndexPathEdge, rest: Result<Option<seq<IndexPathEdge>>>): Result<Option<seq<IndexPathEdge>>> {
    match rest
    case Success(Some(path)) => Success(Some([edge] + path))
    case _ => rest
  }

  function PathEnd(chain: U64, path: seq<IndexPathEdge>): U64 {
    if path == [] then chain else path[|path| - 1].childChain
  }

  function NodeHasEntries(edges: Database, leaves: DupDatabase, index: IndexId, chain: U64): bool {
    var prefix := IndexNodePrefix(index, chain);
    PrefixRows(leaves, prefix, Forward) != [] || PrefixRows(Rows(edges), prefix, Forward) != []
  }

  /** Cut edges to empty nodes from the end of the path upwards, up to the first node with entries. */
  function Pruned(edges: Database, leaves: DupDatabase, index: IndexId, path: seq<IndexPathEdge>): Database {
    if path == [] then edges
    else
      var last := path[|path| - 1];
      if NodeHasEntries(edges, leaves, index, last.childChain) then edges
      else Pruned(edges - {EncodeIndexNodeKey(index, last.parentChain, last.segment)}, leaves, index,
                  path[..|path| - 1])
  }

  function DeleteEntry(edges: Database, leaves: DupDatabase, index: IndexId, value: Bytes,
                       document: DocumentId): Result<(Database, DupDatabase)> {
    var segments := SplitIndexKey(value);
    match FindPath(edges, index, ROOT_CHAIN, segments[..|segments| - 1])
    case Failure(e) => Failure(e)
    case Success(None) => Success((edges, leaves))
    case Success(Some(path)) =>
      var row := LeafRow(index, PathEnd(ROOT_CHAIN, path), segments[|segments| - 1], document);
      Success((Pruned(edges, leaves - {row}, index, path), leaves - {row}))
  }

  ghost predicate PathInTrie(edges: Edges, index: IndexId, chain: U64, path: seq<IndexPathEdge>) {
    && (forall i | 0 <= i < |path| ::
       IsChild(edges, NodeKey(index, path[i].parentChain, path[i].segment), path[i].childChain))
    && (path != [] ==> path[0].parentChain == chain)
    && (forall i | 0 < i < |path| :: path[i].parentChain == path[i - 1].childChain)
  }

  lemma {:induction false} FindPathFollows(edges: Database, index: IndexId, chain: U64, segments: seq<Bytes>)
    requires EdgeRows(edges)
    ensures FindPath(edges, index, chain, segments).Success?
    ensures FindPath(edges, index, chain, segments).value.Some?
       <==> Follow(EdgeView(edges), index, chain, segments).Some?
    ensures FindPath(edges, index, chain, segments).value.Some? ==>
      var path := FindPath(edges, index, chain, segments).value.value;
      && PathInTrie(EdgeView(edges), index, chain, path)
      && Follow(EdgeView(edges), index, chain, segments) == Some(PathEnd(chain, path))
    decreases |segments|
  {
    if segments != [] {
      var node := NodeKey(index, chain, segments[0]);
      assert EncodeIndexNodeKey(index, chain, segments[0]) == KeyOf(node);
      if KeyOf(node) in edges {
        var child := FromU64Be(edges[KeyOf(node)]);
        FindPathFollows(edges, index, child, segments[1..]);
        var rest := FindPath(edges, index, child, segments[1..]);
        if rest.value.Some? {
          PrependPath(EdgeView(edges), index, IndexPathEdge(chain, segments[0], child), rest.value.value);
        }
      }
    }
  }

  lemma PrependPath(edges: Edges, index: IndexId, first: IndexPathEdge, rest: seq<IndexPathEdge>)
    requires IsChild(edges, NodeKey(index, first.parentChain, first.segment), first.childChain)
    requires PathInTrie(edges, index, first.childChain, rest)
    ensures PathInTrie(edges, index, first.parentChain, [first] + rest)
    ensures PathEnd(first.parentChain, [first] + rest) == PathEnd(first.childChain, rest)
  {
    var path := [first] + rest;
    assert path[1..] == rest;
    forall i | 0 < i < |path| ensures path[i].parentChain == path[i - 1].childChain {
      assert path[i] == rest[i - 1];
    }
  }

  lemma {:induction false} PathIncreases(edges: Edges, counter: U64, index: IndexId, chain: U64,
                                         path: seq<IndexPathEdge>, i: nat, j: nat)
    requires Forest(edges, counter) && PathInTrie(edges, index, chain, path) && i < j < |path|
    ensures path[i].childChain < path[j].childChain
    decreases j - i
  {
    assert IsChild(edges, NodeKey(index, path[j].parentChain, path[j].segment), path[j].childChain);
    if i < j - 1 {
      PathIncreases(edges, counter, index, chain, path, i, j - 1);
    }
  }

  /** Cutting the last edge of a path leaves the rest of the path. */
  lemma PathShrinks(edges: Edges, counter: U64, index: IndexId, chain: U64, path: seq<IndexPathEdge>)
    requires Forest(edges, counter) && PathInTrie(edges, index, chain, path) && path != []
    ensures var last := path[|path| - 1];
      && PathInTrie(edges - {NodeKey(index, last.parentChain, last.segment)}, index, chain, path[..|path| - 1])
      && PathEnd(chain, path[..|path| - 1]) == last.parentChain
  {
    var last := path[|path| - 1];
    var key := NodeKey(index, last.parentChain, last.segment);
    assert IsChild(edges, key, last.childChain);
    forall i | 0 <= i < |path| - 1
      ensures IsChild(edges - {key}, NodeKey(index, path[i].parentChain, path[i].segment), path[i].childChain)
    {
      PathIncreases(edges, counter, index, chain, path, i, |path| - 1);
      assert IsChild(edges, NodeKey(index, path[i].parentChain, path[i].segment), path[i].childChain);
    }
  }

  lemma NodeHasEntriesMeaning(edges: Database, leaves: DupDatabase, index: IndexId, chain: U64)
    requires EdgeRows(edges) && LeafRows(leaves)
    ensures NodeHasEntries(edges, leaves, index, chain) <==> HasEntries(EdgeView(edges), LeafView(leaves), index, chain)
  {
    LeafScan(leaves, index, chain, Forward);
    EdgeScan(edges, index, chain, Forward);
  }

  /** Pruning changes no posting and leaves no empty node. */
  lemma {:induction false} PrunedKeeps(edges: Database, leaves: DupDatabase, counter: U64, index: IndexId,
                                       path: seq<IndexPathEdge>)
    requires StoresTrie(edges, leaves, counter, PathEnd(ROOT_CHAIN, path))
    requires PathInTrie(EdgeView(edges), index, ROOT_CHAIN, path)
    ensures var edges' := Pruned(edges, leaves, index, path);
      && StoresTrie(edges', leaves, counter, ROOT_CHAIN)
      && Postings(EdgeView(edges'), LeafView(leaves)) == Postings(EdgeView(edges), LeafView(leaves))
    decreases |path|
  {
    if path != [] {
      var last := path[|path| - 1];
      var node := NodeKey(index, last.parentChain, last.segment);
      assert IsChild(EdgeView(edges), node, last.childChain);
      NodeHasEntriesMeaning(edges, leaves, index, last.childChain);
      if NodeHasEntries(edges, leaves, index, last.childChain) {
        ChildHasOneIndex(EdgeView(edges), counter, node);
        HoleFilled(EdgeView(edges), LeafView(leaves), counter, last.childChain, index);
      } else {
        assert EncodeIndexNodeKey(index, last.parentChain, last.segment) == KeyOf(node);
        PathShrinks(EdgeView(edges), counter, index, ROOT_CHAIN, path);
        RemoveStoredEdge(edges, leaves, counter, node);
        PrunedKeeps(edges - {KeyOf(node)}, leaves, counter, index, path[..|path| - 1]);
      }
    }
  }

  lemma NothingToRemove(edges: Edges, leaves: Leaves, index: IndexId, value: Bytes, document: DocumentId)
    requires Locate(edges, index, ROOT_CHAIN, value) == None
    ensures Postings(edges, leaves) == Postings(edges, leaves) - iset{Posting(index, IndexPosition(value, document))}
  {
  }

  lemma {:induction false} FollowPrefix(edges: Edges, index: IndexId, segments: seq<Bytes>) returns (n: nat)
    requires Follow(edges, index, ROOT_CHAIN, segments) == None
    ensures n < |segments| && Follow(edges, index, ROOT_CHAIN, segments[..n]).Some?
    ensures NodeKey(index, Follow(edges, index, ROOT_CHAIN, segments[..n]).value, segments[n]) !in edges
    decreases |segments|
  {
    var last := |segments| - 1;
    var init := segments[..last];
    assert segments == init + [segments[last]];
    if Follow(edges, index, ROOT_CHAIN, init) == None {
      n := FollowPrefix(edges, index, init);
      assert init[..n] == segments[..n];
    } else {
      n := last;
      FollowAppend(edges, index, ROOT_CHAIN, init, segments[last]);
    }
  }

  lemma MissingPathHasNoPosting(edges: Database, leaves: DupDatabase, index: IndexId, value: Bytes,
                                document: DocumentId)
    requires EdgeRows(edges) && LeafRows(leaves)
    requires FindPath(edges, index, ROOT_CHAIN, SplitIndexKey(value)[..|SplitIndexKey(value)| - 1]) == Success(None)
    ensures Postings(EdgeView(edges), LeafView(leaves))
         == Postings(EdgeView(edges), LeafView(leaves)) - iset{Posting(index, IndexPosition(value, document))}
  {
    var segments := SplitIndexKey(value);
    var full := segments[..|segments| - 1];
    FindPathFollows(edges, index, ROOT_CHAIN, full);
    var n := FollowPrefix(EdgeView(edges), index, full);
    assert full[..n] == segments[..n] && full[n] == segments[n];
    LocateBySegments(EdgeView(edges), index, value, n);
    NothingToRemove(EdgeView(edges), LeafView(leaves), index, value, document);
  }

  lemma FoundPathEndsAtLeaf(edges: Database, index: IndexId, value: Bytes)
    requires EdgeRows(edges)
    requires FindPath(edges, index, ROOT_CHAIN, SplitIndexKey(value)[..|SplitIndexKey(value)| - 1]).Success?
    requires FindPath(edges, index, ROOT_CHAIN, SplitIndexKey(value)[..|SplitIndexKey(value)| - 1]).value.Some?
    ensures var segments := SplitIndexKey(value);
      var path := FindPath(edges, index, ROOT_CHAIN, segments[..|segments| - 1]).value.value;
      && PathInTrie(EdgeView(edges), index, ROOT_CHAIN, path)
      && Locate(EdgeView(edges), index, ROOT_CHAIN, value)
         == Some(NodeKey(index, PathEnd(ROOT_CHAIN, path), segments[|segments| - 1]))
  {
    var segments := SplitIndexKey(value);
    FindPathFollows(edges, index, ROOT_CHAIN, segments[..|segments| - 1]);
    LocateBySegments(EdgeView(edges), index, value, |segments| - 1);
  }

  /** Deletion refines removing one posting, present or not, and keeps the trie without empty nodes. */
  lemma DeleteEntryRefines(edges: Database, leaves: DupDatabase, counter: U64, index: IndexId, value: Bytes,
                           document: DocumentId)
    requires StoresTrie(edges, leaves, counter, ROOT_CHAIN)
    ensures DeleteEntry(edges, leaves, index, value, document).Success?
    ensures var (edges', leaves') := DeleteEntry(edges, leaves, index, value, document).value;
      && StoresTrie(edges', leaves', counter, ROOT_CHAIN)
      && Postings(EdgeView(edges'), LeafView(leaves'))
         == Postings(EdgeView(edges), LeafView(leaves)) - iset{Posting(index, IndexPosition(value, document))}
  {
    var segments := SplitIndexKey(value);
    SplitIndexKeySegments(value);
    FindPathFollows(edges, index, ROOT_CHAIN, segments[..|segments| - 1]);
    match FindPath(edges, index, ROOT_CHAIN, segments[..|segments| - 1]).value
    case None =>
      MissingPathHasNoPosting(edges, leaves, index, value, document);
    case Some(path) =>
      var node := NodeKey(index, PathEnd(ROOT_CHAIN, path), segments[|segments| - 1]);
      FoundPathEndsAtLeaf(edges, index, value);
      RemoveStoredLeaf(edges, leaves, counter, index, value, node, document);
      PrunedKeeps(edges, leaves - {RowOf(Leaf(node, document))}, counter, index, path);
  }
}
