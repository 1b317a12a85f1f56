/** The table generator: a breadth-first loop over the trie that appends nodes, edges and
    interned labels while it runs. */
module SuffixCompiler {
  import opened ByteStrings
  import opened SuffixRules
  import opened SuffixTrie
  import opened SuffixTables
  import opened BreadthFirst

  /** The vectors that grow while children are emitted. */
  datatype Draft = Draft(
    nodes: seq<TrieNode>,
    edges: seq<nat>,
    offsets: map<Label, nat>,
    labels: seq<Byte>)

  ghost predicate Interned(d: Draft, ls: seq<Label>) {
    && d.labels == Blob(ls) && d.edges == EdgesOf(ls) && OffsetsFit(ls)
    && (forall l :: l in d.offsets <==> l in ls)
    && (forall l :: l in ls ==> d.offsets[l] == Offset(ls, l))
  }

  /** One turn of the child loop: looks the label up or appends it, and records edge and child.
      `ok` is false where the source panics on a full label blob. */
  method EmitEdge(d: Draft, l: Label, child: TrieNode, ghost ls: seq<Label>)
    returns (ok: bool, r: Draft)
    requires Interned(d, ls)
    ensures ok <==> l in ls || |Blob(ls)| <= MAX_LABEL_OFFSET
    ensures ok ==> Interned(r, ls + [l]) && r.nodes == d.nodes + [child]
  {
    Snoc(ls, l);
    if l in d.offsets {
      var start := d.offsets[l];
      return true, d.(nodes := d.nodes + [child], edges := d.edges + [PackEdge(start, |l|)]);
    }
    if |d.labels| > MAX_LABEL_OFFSET {
      return false, d;
    }
    var start := |d.labels|;
    r := Draft(d.nodes + [child], d.edges + [PackEdge(start, |l|)],
               d.offsets[l := start], d.labels + l);
    ok := true;
  }

  /** The queue of nodes, named by their paths. */
  ghost predicate Names(tree: Tree, nodes: seq<TrieNode>, paths: seq<Path>) {
    && |nodes| == |paths|
    && forall j :: 0 <= j < |paths| ==> paths[j] in tree && nodes[j] == tree[paths[j]].node
  }

  /** The loop state: a queue that follows the breadth-first order, every edge pointing at the
      node that follows it, and labels interned in that order. */
  ghost predicate Drafted(tree: Tree, d: Draft, paths: seq<Path>, i: nat, done: seq<Label>) {
    && Queue(tree.Keys, paths, i, done)
    && Names(tree, d.nodes, paths)
    && paths[0] == [] && (forall j :: 1 <= j < |paths| ==> paths[j] != [])
    && Interned(d, EdgeLabels(paths))
  }

  lemma {:induction false} ShapeRooted(tree: Tree)
    requires Shape(tree)
    ensures Rooted(tree.Keys)
  {
    forall p | p in tree && p != [] ensures Init(p) in tree {
      NonEmptyPath(p);
      assert Init(p) + [Last(p)] in tree;
    }
  }

  lemma {:induction false} ShapeChildren(tree: Tree, p: Path)
    requires Shape(tree) && p in tree
    ensures ChildLabels(ValueOf(tree), p) == tree[p].children.Keys
    ensures forall l :: l in tree[p].children <==> p + [l] in tree
  {
    forall l ensures l in ChildLabels(ValueOf(tree), p) <==> l in tree[p].children {
      ChildLabelsMember(ValueOf(tree), p, l);
    }
    forall l ensures l in tree[p].children <==> p + [l] in tree {}
  }

  lemma {:induction false} PushedLabels(paths: seq<Path>, p: Path)
    requires paths != [] && p != [] && forall j :: 1 <= j < |paths| ==> paths[j] != []
    ensures EdgeLabels(paths + [p]) == EdgeLabels(paths) + [Last(p)]
  {
  }

  /** A blob overflow on a prefix of the order is one on the whole order. */
  lemma {:induction false} OverflowIsFinal(t: TrieMap, paths: seq<Path>, p: Path)
    requires [] in t && paths != [] && p != [] && paths + [p] <= Order(t)
    requires forall j :: 1 <= j < |paths| ==> paths[j] != []
    requires Last(p) !in EdgeLabels(paths) && |Blob(EdgeLabels(paths))| > MAX_LABEL_OFFSET
    ensures !Encodable(t)
  {
    var k, all := |paths| - 1, EdgeLabels(Order(t));
    assert all[..k] == EdgeLabels(paths) && all[k] == Last(p);
  }

  /** What the next child does to the queue. */
  lemma {:induction false} NextChild(tree: Tree, d: Draft, paths: seq<Path>, i: nat, sorted: seq<Label>, k: nat)
    requires Shape(tree) && i < |paths| && k < |sorted|
    requires Drafted(tree, d, paths, i, sorted[..k])
    requires Ascending(sorted) && forall l :: l in sorted <==> paths[i] + [l] in tree
    ensures var q := paths[i] + [sorted[k]];
            && q in tree && EdgeLabels(paths + [q]) == EdgeLabels(paths) + [sorted[k]]
            && Queue(tree.Keys, paths + [q], i, sorted[..k + 1])
            && paths + [q] <= Order(ValueOf(tree))
  {
    var l := sorted[k];
    var q := paths[i] + [l];
    assert l in sorted;
    ShapeRooted(tree);
    SortedPrefixDone(tree.Keys, paths[i], sorted, k);
    SortedPrefixDone(tree.Keys, paths[i], sorted, k + 1);
    QueueChild(tree.Keys, paths, i, sorted[..k], l);
    PushedLabels(paths, q);
    QueueIsPrefix(tree.Keys, paths + [q], i, sorted[..k + 1], Order(ValueOf(tree)));
  }

  lemma {:induction false} ChildNode(trie: RuleTrie, p: Path, l: Label)
    requires trie.Valid() && p in trie.tree && p + [l] in trie.tree
    ensures l in trie.tree[p].node.children
    ensures trie.tree[p].node.children[l] == trie.tree[p + [l]].node
  {
    assert l in trie.tree[p].children;
    assert trie.tree[p].children[l] == trie.tree[p + [l]].node;
    assert trie.Backed(p, trie.tree[p]);
  }

  lemma {:induction false} ChildDrafted(
    tree: Tree, d: Draft, r: Draft, paths: seq<Path>, i: nat, done: seq<Label>, l: Label)
    requires i < |paths| && Drafted(tree, d, paths, i, done) && paths[i] + [l] in tree
    requires Queue(tree.Keys, paths + [paths[i] + [l]], i, done + [l])
    requires Interned(r, EdgeLabels(paths) + [l])
    requires r.nodes == d.nodes + [tree[paths[i] + [l]].node]
    ensures Drafted(tree, r, paths + [paths[i] + [l]], i, done + [l])
  {
    hide Queue, Interned;
    PushedLabels(paths, paths[i] + [l]);
  }

  /** Emits child `k` of node `i`. */
  method EmitChild(trie: RuleTrie, d: Draft, i: nat, sorted: seq<Label>, k: nat, ghost paths: seq<Path>)
    returns (ok: bool, r: Draft, ghost queue: seq<Path>)
    requires trie.Valid() && i < |paths| && k < |sorted|
    requires Drafted(trie.tree, d, paths, i, sorted[..k])
    requires Ascending(sorted) && forall l :: l in sorted <==> paths[i] + [l] in trie.tree
    ensures !ok ==> !Encodable(trie.Value())
    ensures ok ==> Drafted(trie.tree, r, queue, i, sorted[..k + 1])
    ensures ok ==> |r.nodes| == |d.nodes| + 1 && paths <= queue
  {
    hide Queue, Interned, Encodable, Shape, Order, OffsetsFit;
    var l := sorted[k];
    ghost var q := paths[i] + [l];
    queue := paths + [q];
    NextChild(trie.tree, d, paths, i, sorted, k);
    ChildNode(trie, paths[i], l);
    ok, r := EmitEdge(d, l, d.nodes[i].children[l], EdgeLabels(paths));
    if ok {
      assert sorted[..k + 1] == sorted[..k] + [l];
      ChildDrafted(trie.tree, d, r, paths, i, sorted[..k], l);
    } else {
      OverflowIsFinal(trie.Value(), paths, q);
    }
  }

  /** Emits the children of node `i`, in the order of their labels. */
  method EmitChildren(trie: RuleTrie, d: Draft, i: nat, ghost paths: seq<Path>)
    returns (ok: bool, r: Draft, ghost queue: seq<Path>)
    requires trie.Valid() && i < |paths|
    requires Drafted(trie.tree, d, paths, i, [])
    ensures !ok ==> !Encodable(trie.Value())
    ensures ok ==> Drafted(trie.tree, r, queue, i + 1, [])
    ensures ok ==> |r.nodes| == |d.nodes| + |d.nodes[i].children| && paths <= queue
  {
    hide Interned, Encodable;
    var sorted := SortedLabels(d.nodes[i].children.Keys);
    ShapeChildren(trie.tree, paths[i]);
    r, queue := d, paths;
    for k := 0 to |sorted|
      invariant Drafted(trie.tree, r, queue, i, sorted[..k])
      invariant paths <= queue && |r.nodes| == |d.nodes| + k
    {
      ok, r, queue := EmitChild(trie, r, i, sorted, k, queue);
      if !ok {
        return;
      }
    }
    assert sorted[..|sorted|] == sorted;
    NextNode(trie.tree.Keys, queue, i, sorted);
    ok := true;
  }

  lemma {:induction false} EdgesBeforePrefix(t: TrieMap, paths: seq<Path>, queue: seq<Path>, i: nat)
    requires paths <= queue && i <= |paths|
    ensures EdgesBefore(t, paths, i) == EdgesBefore(t, queue, i)
  {
    if i > 0 {
      EdgesBeforePrefix(t, paths, queue, i - 1);
    }
  }

  lemma {:induction false} MetadataNext(t: TrieMap, paths: seq<Path>, queue: seq<Path>, i: nat)
    requires paths <= queue && i < |paths| && forall j :: 0 <= j <= i ==> paths[j] in t
    ensures MetadataOf(t, queue, i + 1) == MetadataOf(t, paths, i) +
              [PackNode(EdgesBefore(t, paths, i), ChildCount(t, paths[i]), t[paths[i]])]
    ensures EdgesBefore(t, queue, i + 1) == EdgesBefore(t, paths, i) + ChildCount(t, paths[i])
  {
    hide PackNode, ChildCount;
    forall j | 0 <= j <= i ensures EdgesBefore(t, paths, j) == EdgesBefore(t, queue, j) {
      EdgesBeforePrefix(t, paths, queue, j);
    }
  }

  /** When the loop ends the queue is the whole order and the vectors are the tables. */
  lemma {:induction false} Finished(tree: Tree, d: Draft, paths: seq<Path>)
    requires Shape(tree) && Drafted(tree, d, paths, |paths|, [])
    ensures paths == Order(ValueOf(tree))
    ensures d.edges == TablesOf(ValueOf(tree)).edges && d.labels == TablesOf(ValueOf(tree)).labels
    ensures OffsetsFit(EdgeLabels(paths))
  {
    ShapeRooted(tree);
    forall p ensures p in paths <==> p in tree {
      if p in tree { QueueComplete(tree.Keys, paths, p); }
    }
    AscendingUnique(paths, Order(ValueOf(tree)));
  }

  lemma {:induction false} Queued(trie: RuleTrie, d: Draft, paths: seq<Path>, i: nat)
    requires Drafted(trie.tree, d, paths, i, [])
    ensures i <= |paths| == |d.nodes| == |d.edges| + 1
    ensures forall j :: 0 <= j < |paths| ==> paths[j] in trie.tree
  {
  }

  /** What one queued node contributes to its metadata word. */
  lemma {:induction false} QueuedNode(trie: RuleTrie, d: Draft, paths: seq<Path>, i: nat)
    requires trie.Valid() && Drafted(trie.tree, d, paths, i, []) && i < |paths|
    ensures |paths| <= |trie.tree|
    ensures var t := trie.Value();
            && ChildCount(t, paths[i]) == |d.nodes[i].children|
            && t[paths[i]] == d.nodes[i].flags
  {
    hide Shape;
    QueueBounded(trie.tree.Keys, paths);
    ShapeChildren(trie.tree, paths[i]);
    assert trie.Backed(paths[i], trie.tree[paths[i]]);
  }

  /** The outer loop's invariant: the node count runs one ahead of the edge count, and the edge
      ranges of the nodes done so far tile the edges emitted so far. */
  ghost predicate Progress(trie: RuleTrie, d: Draft, metadata: seq<nat>, paths: seq<Path>, i: nat)
    requires trie.Valid()
    reads trie, trie.repr
  {
    var t := trie.Value();
    && Drafted(trie.tree, d, paths, i, []) && i <= |paths| == |d.nodes| == |d.edges| + 1
    && (forall j :: 0 <= j < |paths| ==> paths[j] in t)
    && metadata == MetadataOf(t, paths, i) && |d.edges| == EdgesBefore(t, paths, i)
    && forall j :: 0 <= j < i ==> ChildCount(t, paths[j]) <= MAX_EDGE_COUNT
  }

  lemma {:induction false} Started(trie: RuleTrie)
    requires trie.Valid()
    ensures [] in trie.Value() && Progress(trie, Draft([trie.root], [], map[], []), [], [[]], 0)
  {
    ShapeRooted(trie.tree);
    InitialQueue(trie.tree.Keys);
  }

  lemma {:induction false} Completed(trie: RuleTrie, d: Draft, metadata: seq<nat>, paths: seq<Path>)
    requires trie.Valid() && Progress(trie, d, metadata, paths, |paths|)
    ensures Encodable(trie.Value())
    ensures Tables(metadata, d.edges, d.labels) == TablesOf(trie.Value())
  {
    hide Drafted, Interned, MetadataOf, OffsetsFit, Shape;
    Finished(trie.tree, d, paths);
    var t := trie.Value();
    forall p | p in t ensures ChildCount(t, p) <= MAX_EDGE_COUNT {
      assert p in paths;
    }
  }

  lemma {:induction false} TooManyChildren(t: TrieMap, p: Path)
    requires [] in t && p in t && ChildCount(t, p) > MAX_EDGE_COUNT
    ensures !Encodable(t)
  {
  }

  /** The generator. `ok` is false exactly where the source panics: on a node with too many
      children or a label blob too long for an edge record. */
  method GenerateTables(trie: RuleTrie) returns (ok: bool, tables: Tables)
    requires trie.Valid()
    ensures ok <==> Encodable(trie.Value())
    ensures ok ==> tables == TablesOf(trie.Value())
  {
    hide Drafted, Shape, TablesOf, MetadataOf, Encodable, ChildCount, EdgesBefore, PackNode;
    var d := Draft([trie.root], [], map[], []);
    var metadata := [];
    var nodeIndex := 0;
    ghost var t, paths := trie.Value(), [[]];
    Started(trie);
    while nodeIndex < |d.nodes|
      invariant Progress(trie, d, metadata, paths, nodeIndex)
      decreases |trie.tree| - nodeIndex
    {
      var node := d.nodes[nodeIndex];
      var edgeStart := |d.edges|;
      QueuedNode(trie, d, paths, nodeIndex);
      if |node.children| > MAX_EDGE_COUNT {
        TooManyChildren(t, paths[nodeIndex]);
        return false, Tables([], [], []);
      }
      var emitted, r;
      ghost var queue;
      emitted, r, queue := EmitChildren(trie, d, nodeIndex, paths);
      if !emitted {
        return false, Tables([], [], []);
      }
      MetadataNext(t, paths, queue, nodeIndex);
      Queued(trie, r, queue, nodeIndex + 1);
      metadata := metadata + [PackNode(edgeStart, |node.children|, node.flags)];
      d, paths, nodeIndex := r, queue, nodeIndex + 1;
    }
    Completed(trie, d, metadata, paths);
    return true, Tables(metadata, d.edges, d.labels);
  }
}
