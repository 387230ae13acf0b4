/** The depth-first index cursor (crates/storage/src/implementations/heed/cursors.rs). */
module IndexCursors {
  import opened ByteStrings
  import opened Types
  import opened Sequences
  import opened Lmdb
  import opened HeedEncoding
  import opened IndexTraversal
  import opened IndexSnapshot

  datatype EdgeCandidate = EdgeCandidate(segment: Bytes, childChain: U64)

  /** One node on the cursor's stack: its raw iterators and the rows read ahead. */
  datatype Frame = Frame(
    valuePrefix: Bytes,
    leaves: seq<Row>,
    edges: seq<Row>,
    pendingLeaf: Option<LeafItem>,
    pendingEdge: Option<EdgeCandidate>)

  datatype Action = LeafFound(entry: IndexPosition) | Descend(chain: U64, valuePrefix: Bytes) | Exhausted

  // ---------------------------------------------------- what a frame stands for

  /** What is left to traverse at one node. */
  datatype Level = Level(prefix: Bytes, leaves: seq<LeafItem>, children: seq<Child>)

  ghost predicate LeafRowMeans(row: Row, item: LeafItem) {
    && DecodeU128(row.value) == Success(item.document)
    && DecodeIndexNodeKey(row.key).Success? && DecodeIndexNodeKey(row.key).value.2 == item.segment
  }

  ghost predicate EdgeRowMeans(scan: Scan, row: Row, child: Child)
    requires Readable(scan)
  {
    && DecodeU64(row.value).Success? && child.tree == TreeOf(scan, DecodeU64(row.value).value)
    && DecodeIndexNodeKey(row.key).Success? && DecodeIndexNodeKey(row.key).value.2 == child.segment
  }

  ghost predicate LeavesMean(rows: seq<Row>, items: seq<LeafItem>) {
    |rows| == |items| && forall i | 0 <= i < |rows| :: LeafRowMeans(rows[i], items[i])
  }

  ghost predicate EdgesMean(scan: Scan, rows: seq<Row>, children: seq<Child>)
    requires Readable(scan)
  {
    |rows| == |children| && forall i | 0 <= i < |rows| :: EdgeRowMeans(scan, rows[i], children[i])
  }

  ghost predicate Represents(scan: Scan, f: Frame, level: Level)
    requires Readable(scan)
  {
    && f.valuePrefix == level.prefix
    && (match f.pendingLeaf
        case None => LeavesMean(f.leaves, level.leaves)
        case Some(l) => level.leaves != [] && l == level.leaves[0] && LeavesMean(f.leaves, level.leaves[1..]))
    && (match f.pendingEdge
        case None => EdgesMean(scan, f.edges, level.children)
        case Some(e) =>
          && level.children != [] && level.children[0] == Child(e.segment, TreeOf(scan, e.childChain))
          && EdgesMean(scan, f.edges, level.children[1..]))
  }

  ghost predicate RepresentsAll(scan: Scan, stack: seq<Frame>, levels: seq<Level>)
    requires Readable(scan)
  {
    |stack| == |levels| && forall i | 0 <= i < |stack| :: Represents(scan, stack[i], levels[i])
  }

  function LevelOutput(direction: Direction, level: Level): seq<IndexPosition> {
    Walk(direction, level.prefix, level.leaves, level.children)
  }

  /** The top level's positions first, then those of the levels beneath it. */
  function Output(direction: Direction, levels: seq<Level>): seq<IndexPosition> {
    if levels == [] then []
    else LevelOutput(direction, levels[|levels| - 1]) + Output(direction, levels[..|levels| - 1])
  }

  function TotalWork(levels: seq<Level>): nat {
    if levels == [] then 0
    else Work(levels[|levels| - 1].leaves, levels[|levels| - 1].children) + TotalWork(levels[..|levels| - 1])
  }

  /** What one action does to a level, given which rows come first. */
  ghost predicate Steps(scan: Scan, level: Level, action: Action)
    requires Readable(scan)
  {
    match Choice(level.leaves, level.children, scan.direction)
    case None => action == Exhausted
    case Some(TakeLeaf) => action == LeafFound(PositionOf(level.prefix, level.leaves[0]))
    case Some(TakeEdge) =>
      && action.Descend? && action.valuePrefix == level.prefix + level.children[0].segment
      && TreeOf(scan, action.chain) == level.children[0].tree
  }

  /** The level without what its next action takes. */
  ghost function AfterStep(level: Level, direction: Direction): Level {
    match Choice(level.leaves, level.children, direction)
    case None => level
    case Some(TakeLeaf) => level.(leaves := level.leaves[1..])
    case Some(TakeEdge) => level.(children := level.children[1..])
  }

  ghost function NodeLevel(scan: Scan, chain: U64, prefix: Bytes): Level
    requires Readable(scan)
  {
    Level(prefix, TreeOf(scan, chain).leaves, TreeOf(scan, chain).children)
  }

  lemma OutputPush(direction: Direction, levels: seq<Level>, level: Level)
    ensures Output(direction, levels + [level]) == LevelOutput(direction, level) + Output(direction, levels)
    ensures TotalWork(levels + [level]) == Work(level.leaves, level.children) + TotalWork(levels)
  {
    assert (levels + [level])[..|levels|] == levels;
  }

  lemma EdgeTaken(direction: Direction, prefix: Bytes, leaves: seq<LeafItem>, children: seq<Child>)
    requires Choice(leaves, children, direction) == Some(TakeEdge)
    ensures Walk(direction, prefix, leaves, children)
       == Behind(direction, prefix, children[0]) + Walk(direction, prefix, leaves, children[1..])
    ensures Work(leaves, children)
       == 1 + Work(children[0].tree.leaves, children[0].tree.children) + Work(leaves, children[1..])
  {
  }

  lemma LeafTaken(direction: Direction, below: seq<Level>, level: Level)
    requires Choice(level.leaves, level.children, direction) == Some(TakeLeaf)
    ensures var after := level.(leaves := level.leaves[1..]);
            && Output(direction, below + [level])
               == [PositionOf(level.prefix, level.leaves[0])] + Output(direction, below + [after])
            && TotalWork(below + [after]) < TotalWork(below + [level])
  {
    var after := level.(leaves := level.leaves[1..]);
    OutputPush(direction, below, level);
    OutputPush(direction, below, after);
  }

  /** Entering a subtree keeps the positions to come and leaves less work. */
  lemma SubtreeEntered(direction: Direction, below: seq<Level>, level: Level, child: Level)
    requires Choice(level.leaves, level.children, direction) == Some(TakeEdge)
    requires child.prefix == level.prefix + level.children[0].segment
    requires child.leaves == level.children[0].tree.leaves && child.children == level.children[0].tree.children
    ensures var after := level.(children := level.children[1..]);
            && Output(direction, below + [after] + [child]) == Output(direction, below + [level])
            && TotalWork(below + [after] + [child]) < TotalWork(below + [level])
  {
    var after := level.(children := level.children[1..]);
    OutputPush(direction, below, level);
    OutputPush(direction, below, after);
    OutputPush(direction, below + [after], child);
    EdgeTaken(direction, level.prefix, level.leaves, level.children);
    assert LevelOutput(direction, level) == LevelOutput(direction, child) + LevelOutput(direction, after);
  }

  lemma LevelExhausted(direction: Direction, below: seq<Level>, level: Level)
    requires Choice(level.leaves, level.children, direction) == None
    ensures Output(direction, below + [level]) == Output(direction, below)
    ensures TotalWork(below) < TotalWork(below + [level])
  {
    OutputPush(direction, below, level);
  }

  /** Each action keeps the positions to come, up to the one it returns, and leaves strictly less work. */
  lemma StepKeepsOutput(scan: Scan, below: seq<Level>, level: Level, action: Action)
    requires Readable(scan) && Steps(scan, level, action)
    ensures action.Exhausted? ==>
      && Output(scan.direction, below) == Output(scan.direction, below + [level])
      && TotalWork(below) < TotalWork(below + [level])
    ensures action.LeafFound? ==>
      var after := below + [AfterStep(level, scan.direction)];
      && Output(scan.direction, below + [level]) == [action.entry] + Output(scan.direction, after)
      && TotalWork(after) < TotalWork(below + [level])
    ensures action.Descend? ==>
      var entered := below + [AfterStep(level, scan.direction)] + [NodeLevel(scan, action.chain, action.valuePrefix)];
      && Output(scan.direction, entered) == Output(scan.direction, below + [level])
      && TotalWork(entered) < TotalWork(below + [level])
  {
    match action
    case Exhausted => LevelExhausted(scan.direction, below, level);
    case LeafFound(_) => LeafTaken(scan.direction, below, level);
    case Descend(child, prefix) => SubtreeEntered(scan.direction, below, level, NodeLevel(scan, child, prefix));
  }

  /** What an action of the top level does to the whole stack. */
  ghost predicate StackStepped(scan: Scan, levels: seq<Level>, levels': seq<Level>, action: Action)
    requires Readable(scan) && levels' != []
  {
    match action
    case Exhausted =>
      var below := levels'[..|levels'| - 1];
      Output(scan.direction, below) == Output(scan.direction, levels) && TotalWork(below) < TotalWork(levels)
    case LeafFound(entry) =>
      && Output(scan.direction, levels) == [entry] + Output(scan.direction, levels')
      && TotalWork(levels') < TotalWork(levels)
    case Descend(chain, prefix) =>
      var entered := levels' + [NodeLevel(scan, chain, prefix)];
      Output(scan.direction, entered) == Output(scan.direction, levels) && TotalWork(entered) < TotalWork(levels)
  }

  lemma SplitLast<T>(s: seq<T>)
    requires s != []
    ensures s == s[..|s| - 1] + [s[|s| - 1]]
  {
  }

  lemma RepresentsPop(scan: Scan, stack: seq<Frame>, levels: seq<Level>)
    requires Readable(scan) && RepresentsAll(scan, stack, levels) && stack != []
    ensures Represents(scan, stack[|stack| - 1], levels[|stack| - 1])
    ensures RepresentsAll(scan, stack[..|stack| - 1], levels[..|stack| - 1])
  {
  }

  lemma RepresentsPush(scan: Scan, stack: seq<Frame>, levels: seq<Level>, f: Frame, level: Level)
    requires Readable(scan) && RepresentsAll(scan, stack, levels) && Represents(scan, f, level)
    ensures RepresentsAll(scan, stack + [f], levels + [level])
  {
  }

  /** The top frame acts, and the frame after the action stands for the level after it. */
  lemma TopActed(scan: Scan, stack: seq<Frame>, levels: seq<Level>, action: Action, f: Frame)
      returns (levels': seq<Level>)
    requires Readable(scan) && RepresentsAll(scan, stack, levels) && stack != []
    requires Steps(scan, levels[|levels| - 1], action)
    requires Represents(scan, f, AfterStep(levels[|levels| - 1], scan.direction))
    ensures levels' != [] && RepresentsAll(scan, stack[..|stack| - 1] + [f], levels')
    ensures StackStepped(scan, levels, levels', action)
  {
    var top := |stack| - 1;
    var below, level := levels[..top], levels[top];
    levels' := below + [AfterStep(level, scan.direction)];
    SplitLast(levels);
    RepresentsPop(scan, stack, levels);
    RepresentsPush(scan, stack[..top], below, f, AfterStep(level, scan.direction));
    StepKeepsOutput(scan, below, level, action);
    assert levels'[..|levels'| - 1] == below;
  }

  // ------------------------------------------------------------------- frames

  function NewFrame(edges: Database, leaves: DupDatabase, index: IndexId, chain: U64, valuePrefix: Bytes,
                    direction: Direction): Frame {
    var prefix := IndexNodePrefix(index, chain);
    Frame(valuePrefix, PrefixRows(leaves, prefix, direction), PrefixRows(Rows(edges), prefix, direction), None, None)
  }

  lemma NewFrameIsNode(scan: Scan, chain: U64, valuePrefix: Bytes)
    requires Readable(scan)
    ensures Represents(scan, NewFrame(scan.edges, scan.leaves, scan.index, chain, valuePrefix, scan.direction),
                       NodeLevel(scan, chain, valuePrefix))
  {
    NewFrameLeaves(scan, chain);
    NewFrameEdges(scan, chain);
  }

  /** A cursor starts with the whole traversal ahead of it. */
  lemma RootFrame(scan: Scan)
    requires Readable(scan)
    ensures var frame := NewFrame(scan.edges, scan.leaves, scan.index, HeedEncoding.ROOT_CHAIN, [], scan.direction);
      RepresentsAll(scan, [frame], [NodeLevel(scan, HeedEncoding.ROOT_CHAIN, [])])
    ensures Output(scan.direction, [NodeLevel(scan, HeedEncoding.ROOT_CHAIN, [])]) == Traversal(scan)
  {
    var level := NodeLevel(scan, HeedEncoding.ROOT_CHAIN, []);
    NewFrameIsNode(scan, HeedEncoding.ROOT_CHAIN, []);
    OutputPush(scan.direction, [], level);
    assert [] + [level] == [level];
  }

  lemma NewFrameLeaves(scan: Scan, chain: U64)
    requires Readable(scan)
    ensures LeavesMean(NodeLeafRows(scan, chain), TreeOf(scan, chain).leaves)
  {
    var rows := NodeLeafRows(scan, chain);
    NodeRows(scan, chain);
    forall i | 0 <= i < |rows| ensures LeafRowMeans(rows[i], TreeOf(scan, chain).leaves[i]) {
      assert rows[i] in scan.leaves;
      IndexNodeKeyOnto(rows[i].key);
    }
  }

  lemma NewFrameEdges(scan: Scan, chain: U64)
    requires Readable(scan)
    ensures EdgesMean(scan, NodeEdgeRows(scan, chain), TreeOf(scan, chain).children)
  {
    var rows := NodeEdgeRows(scan, chain);
    NodeRows(scan, chain);
    forall i | 0 <= i < |rows| ensures EdgeRowMeans(scan, rows[i], TreeOf(scan, chain).children[i]) {
      ChildrenAt(scan, chain, rows, i);
      IndexNodeKeyOnto(rows[i].key);
    }
  }

  /** Read a leaf row ahead; the frame stands for the same rows. Decoding a stored row never fails. */
  method ReadLeaf(frame: Frame, ghost scan: Scan, ghost level: Level) returns (f: Frame)
    requires Readable(scan) && Represents(scan, frame, level)
    ensures Represents(scan, f, level) && f == frame.(leaves := f.leaves, pendingLeaf := f.pendingLeaf)
    ensures f.pendingLeaf == First(level.leaves)
  {
    f := frame;
    if f.pendingLeaf.None? && f.leaves != [] {
      var row := f.leaves[0];
      assert LeafRowMeans(row, level.leaves[0]);
      var node := DecodeIndexNodeKey(row.key).value;
      var document := DecodeU128(row.value).value;
      f := f.(leaves := f.leaves[1..], pendingLeaf := Some(LeafItem(node.2, document)));
    }
  }

  method ReadEdge(frame: Frame, ghost scan: Scan, ghost level: Level) returns (f: Frame)
    requires Readable(scan) && Represents(scan, frame, level)
    ensures Represents(scan, f, level) && f == frame.(edges := f.edges, pendingEdge := f.pendingEdge)
    ensures f.pendingEdge.None? <==> level.children == []
  {
    f := frame;
    if f.pendingEdge.None? && f.edges != [] {
      var row := f.edges[0];
      assert EdgeRowMeans(scan, row, level.children[0]);
      var node := DecodeIndexNodeKey(row.key).value;
      var child := DecodeU64(row.value).value;
      f := f.(edges := f.edges[1..], pendingEdge := Some(EdgeCandidate(node.2, child)));
    }
  }

  /** One step at a node: the next leaf in order, the next subtree to enter, or nothing left. */
  method NextAction(frame: Frame, direction: Direction, ghost scan: Scan, ghost level: Level)
      returns (action: Action, f: Frame)
    requires Readable(scan) && Represents(scan, frame, level) && direction == scan.direction
    ensures Steps(scan, level, action)
    ensures Represents(scan, f, AfterStep(level, direction))
  {
    f := ReadLeaf(frame, scan, level);
    f := ReadEdge(f, scan, level);
    var choice := ChooseAction(if f.pendingLeaf.Some? then Some(f.pendingLeaf.value.segment) else None,
                               if f.pendingEdge.Some? then Some(f.pendingEdge.value.segment) else None, direction);
    assert choice == Choice(level.leaves, level.children, direction);
    match choice {
      case None =>
        action := Exhausted;
      case Some(TakeLeaf) =>
        var leaf := f.pendingLeaf.value;
        f := f.(pendingLeaf := None);
        action := LeafFound(IndexPosition(f.valuePrefix + leaf.segment, leaf.document));
      case Some(TakeEdge) =>
        var edge := f.pendingEdge.value;
        f := f.(pendingEdge := None);
        action := Descend(edge.childChain, f.valuePrefix + edge.segment);
    }
  }

  /** The action of the top frame, and that frame after it. */
  method ActOnTop(stack: seq<Frame>, direction: Direction, ghost scan: Scan, ghost levels: seq<Level>)
      returns (action: Action, f: Frame, ghost levels': seq<Level>)
    requires Readable(scan) && RepresentsAll(scan, stack, levels) && stack != [] && direction == scan.direction
    ensures RepresentsAll(scan, stack[..|stack| - 1] + [f], levels')
    ensures levels' != [] && StackStepped(scan, levels, levels', action)
  {
    RepresentsPop(scan, stack, levels);
    action, f := NextAction(stack[|stack| - 1], direction, scan, levels[|levels| - 1]);
    levels' := TopActed(scan, stack, levels, action, f);
  }

  // ------------------------------------------------------------------- cursor

  function StartFilter(start: CursorStart<IndexPosition>, direction: Direction): IndexPosition -> bool {
    p => Accepts(PositionLess, start, direction, p)
  }

  class IndexCursor {
    const edges: Database
    const leaves: DupDatabase
    const index: IndexId
    const direction: Direction
    const start: CursorStart<IndexPosition>
    var stack: seq<Frame>
    ghost const scan: Scan
    ghost var levels: seq<Level>

    ghost predicate Valid()
      reads this
    {
      && scan == Scan(edges, leaves, index, direction, scan.counter)
      && Readable(scan)
      && RepresentsAll(scan, stack, levels)
    }

    /** The positions still to come, before the start is applied. */
    ghost function Unfiltered(): seq<IndexPosition>
      reads this
    {
      Output(direction, levels)
    }

    /** The positions still to be returned. */
    ghost function Remaining(): seq<IndexPosition>
      reads this
    {
      Filter(StartFilter(start, direction), Unfiltered())
    }

    constructor (edges: Database, leaves: DupDatabase, index: IndexId, start: CursorStart<IndexPosition>,
                 direction: Direction, ghost scan: Scan)
      requires scan == Scan(edges, leaves, index, direction, scan.counter) && Readable(scan)
      ensures Valid() && this.scan == scan && this.start == start && this.direction == direction
      ensures Unfiltered() == Traversal(scan)
      ensures Remaining() == Filter(StartFilter(start, direction), Traversal(scan))
    {
      this.edges, this.leaves, this.index := edges, leaves, index;
      this.direction, this.start, this.scan := direction, start, scan;
      stack := [NewFrame(edges, leaves, index, HeedEncoding.ROOT_CHAIN, [], direction)];
      levels := [NodeLevel(scan, HeedEncoding.ROOT_CHAIN, [])];
      new;
      RootFrame(scan);
    }

    method PushFrame(chain: U64, valuePrefix: Bytes)
      requires Valid()
      modifies this`stack, this`levels
      ensures Valid() && levels == old(levels) + [NodeLevel(scan, chain, valuePrefix)]
    {
      NewFrameIsNode(scan, chain, valuePrefix);
      var frame := NewFrame(edges, leaves, index, chain, valuePrefix, direction);
      RepresentsPush(scan, stack, levels, frame, NodeLevel(scan, chain, valuePrefix));
      stack := stack + [frame];
      levels := levels + [NodeLevel(scan, chain, valuePrefix)];
    }

    /** Let the top frame take its next action: what it then takes for the positions to come to stay as they were. */
    method StepTop() returns (action: Action)
      requires Valid() && stack != []
      modifies this`stack, this`levels
      ensures Valid() && stack != [] && StackStepped(scan, old(levels), levels, action)
    {
      var f;
      ghost var levels';
      action, f, levels' := ActOnTop(stack, direction, scan, levels);
      stack, levels := stack[..|stack| - 1] + [f], levels';
    }

    /** One round of the loop: return a leaf, or do strictly less work later for the same positions. */
    method Advance() returns (r: Option<IndexPosition>)
      requires Valid() && stack != []
      modifies this`stack, this`levels
      ensures Valid()
      ensures r.Some? ==> old(Unfiltered()) == [r.value] + Unfiltered()
      ensures r.None? ==> Unfiltered() == old(Unfiltered()) && TotalWork(levels) < old(TotalWork(levels))
    {
      var action := StepTop();
      match action {
        case LeafFound(entry) =>
          return Some(entry);
        case Descend(child, valuePrefix) =>
          PushFrame(child, valuePrefix);
        case Exhausted =>
          RepresentsPop(scan, stack, levels);
          stack, levels := stack[..|stack| - 1], levels[..|levels| - 1];
      }
      return None;
    }

    method NextUnfiltered() returns (r: Option<IndexPosition>)
      requires Valid()
      modifies this`stack, this`levels
      ensures Valid()
      ensures r == First(old(Unfiltered()))
      ensures Unfiltered() == Tail(old(Unfiltered()))
    {
      while stack != []
        invariant Valid() && Unfiltered() == old(Unfiltered())
        decreases TotalWork(levels)
      {
        r := Advance();
        if r.Some? {
          return;
        }
      }
      return None;
    }

    method NextCandidate() returns (r: Option<IndexPosition>)
      requires Valid()
      modifies this`stack, this`levels
      ensures Valid()
      ensures r == First(old(Remaining()))
      ensures Remaining() == Tail(old(Remaining()))
    {
      while true
        invariant Valid() && Remaining() == old(Remaining())
        decreases |Unfiltered()|
      {
        var entry := NextUnfiltered();
        if entry.None? {
          return None;
        }
        if Accepts(PositionLess, start, direction, entry.value) {
          return entry;
        }
      }
    }
  }
}
