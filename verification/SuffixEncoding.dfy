/** What the packed tables mean: decoding them gives back every node, edge and label of the
    trie, and so the trie itself. */
module SuffixEncoding {
  import opened ByteStrings
  import opened SuffixRules
  import opened SuffixTables
  import opened BreadthFirst

  // ----- Edge ranges ----------------------------------------------------------------------

  lemma {:induction false} Expand(
    keys: set<Path>, paths: seq<Path>, i: nat, sorted: seq<Label>, k: nat)
    returns (queue: seq<Path>)
    requires Rooted(keys) && i < |paths| && k <= |sorted|
    requires Queue(keys, paths, i, sorted[..k])
    requires Ascending(sorted) && forall l :: l in sorted <==> paths[i] + [l] in keys
    ensures |queue| == |paths| + |sorted| - k && Queue(keys, queue, i + 1, [])
    decreases |sorted| - k
  {
    if k == |sorted| {
      assert sorted[..k] == sorted;
      NextNode(keys, paths, i, sorted);
      queue := paths;
    } else {
      SortedPrefixDone(keys, paths[i], sorted, k);
      SortedPrefixDone(keys, paths[i], sorted, k + 1);
      assert sorted[k] in sorted;
      QueueChild(keys, paths, i, sorted[..k], sorted[k]);
      queue := Expand(keys, paths + [paths[i] + [sorted[k]]], i, sorted, k + 1);
    }
  }

  lemma {:induction false} TrieRooted(t: TrieMap)
    requires WellFormedTrie(t)
    ensures [] in t && Rooted(t.Keys)
  {
  }

  lemma {:induction false} ExpandNode(t: TrieMap, i: nat, n: nat)
    requires WellFormedTrie(t) && i < n <= |t| && Queue(t.Keys, Order(t)[..n], i, [])
    ensures var m := n + ChildCount(t, Order(t)[i]);
            m <= |t| && Queue(t.Keys, Order(t)[..m], i + 1, [])
  {
    hide Queue, ChildLabels, PathsAscending, SortedPaths, Order, Ascending, Rooted, SortedLabels;
    var order := Order(t);
    var paths, sorted := order[..n], SortedLabels(ChildLabels(t, order[i]));
    TrieRooted(t);
    forall l ensures l in sorted <==> paths[i] + [l] in t.Keys {
      ChildLabelsMember(t, order[i], l);
    }
    var queue := Expand(t.Keys, paths, i, sorted, 0);
    QueueIsPrefix(t.Keys, queue, i + 1, [], order);
    assert queue == order[..|queue|];
  }

  /** The first edges of the table are those of the first nodes. */
  lemma {:induction false} EdgesBeforeMeaning(t: TrieMap, i: nat)
    requires WellFormedTrie(t) && i <= |t|
    ensures var n := 1 + EdgesBefore(t, Order(t), i);
            i <= n <= |t| && Queue(t.Keys, Order(t)[..n], i, [])
  {
    hide Queue, ChildCount, PathsAscending, SortedPaths, Order, WellFormedTrie;
    TrieRooted(t);
    if i == 0 {
      assert Order(t)[..1] == [[]];
      InitialQueue(t.Keys);
    } else {
      var n := 1 + EdgesBefore(t, Order(t), i - 1);
      EdgesBeforeMeaning(t, i - 1);
      HeadIsQueued(t, i - 1, n);
      ExpandNode(t, i - 1, n);
    }
  }

  /** The worklist does not run dry early: an unfinished queue holds the next node. */
  lemma {:induction false} HeadIsQueued(t: TrieMap, i: nat, n: nat)
    requires WellFormedTrie(t) && i < |t| && n <= |t| && i <= n
    requires Queue(t.Keys, Order(t)[..n], i, [])
    ensures i < n
  {
    var order := Order(t);
    if i == n {
      var p := order[n];
      assert n > 0;
      assert p in order;
      var parent := Init(p);
      NonEmptyPath(p);
      ChildOrder(parent, parent, Last(p), Last(p));
      assert parent in order;
      var k :| 0 <= k < |order| && order[k] == parent;
      AscendingDistinct(order, k, n);
      assert order[..n][..n][k] == parent;
      assert p in order[..n];
      var j :| 0 <= j < n && order[j] == p;
      AscendingDistinct(order, j, n);
    }
  }

  lemma {:induction false} EdgeRange(t: TrieMap, i: nat, e: nat)
    requires WellFormedTrie(t) && i < |t| && e + 1 < |t|
    ensures var order := Order(t);
            EdgesBefore(t, order, i) <= e < EdgesBefore(t, order, i + 1) <==>
            Init(order[e + 1]) == order[i]
  {
    EdgeBound(t, i, e);
    EdgeBound(t, i + 1, e);
    var order := Order(t);
    var parent := Init(order[e + 1]);
    assert parent in order[..i + 1] <==> parent in order[..i] || parent == order[i];
    if parent in order[..i] {
      var k :| 0 <= k < i && order[k] == parent;
      AscendingDistinct(order, k, i);
    }
  }

  /** Edges point forward: a child is numbered after its parent. */
  lemma {:induction false} ChildAfterParent(t: TrieMap, i: nat, e: nat)
    requires WellFormedTrie(t) && i < |t| && e + 1 < |t|
    requires EdgesBefore(t, Order(t), i) <= e < EdgesBefore(t, Order(t), i + 1)
    ensures i < e + 1
  {
    hide EdgesBefore, PathsAscending, Order, WellFormedTrie;
    TrieRooted(t);
    EdgeRange(t, i, e);
    var child := Order(t)[e + 1];
    NonEmptyPath(child);
    ChildOrder(Init(child), Init(child), Last(child), Last(child));
    AscendingDistinct(Order(t), i, e + 1);
  }

  lemma {:induction false} EdgeBound(t: TrieMap, i: nat, e: nat)
    requires WellFormedTrie(t) && i <= |t| && e + 1 < |t|
    ensures e < EdgesBefore(t, Order(t), i) <==> Init(Order(t)[e + 1]) in Order(t)[..i]
  {
    hide EdgesBefore, PathsAscending, SortedPaths, Order;
    var order, n := Order(t), 1 + EdgesBefore(t, Order(t), i);
    EdgesBeforeMeaning(t, i);
    assert order[e + 1] in order;
    assert order[..n][..i] == order[..i];
    AscendingPrefix(order, n, e + 1);
  }

  lemma {:induction false} AscendingPrefix(s: seq<Path>, n: nat, j: nat)
    requires PathsAscending(s) && n <= |s| && j < |s|
    ensures s[j] in s[..n] <==> j < n
  {
    if s[j] in s[..n] {
      var k :| 0 <= k < n && s[k] == s[j];
      AscendingDistinct(s, k, j);
    }
  }

  // ----- Decoding -------------------------------------------------------------------------

  /** The bytes an edge record points at, when they lie within the blob. */
  ghost predicate EdgeReads(tab: Tables, e: nat, l: Label)
    requires e < |tab.edges|
  {
    var start, length := LabelStart(tab.edges[e]), LabelLength(tab.edges[e]);
    start + length <= |tab.labels| && tab.labels[start..start + length] == l
  }

  /** Node `i` owns edge `e`. */
  ghost predicate Owns(tab: Tables, i: nat, e: nat)
    requires i < |tab.metadata|
  {
    EdgeStart(tab.metadata[i]) <= e < EdgeStart(tab.metadata[i]) + EdgeCount(tab.metadata[i])
  }

  /** Edge `e` is labelled with the last step to node `e + 1`. */
  ghost predicate Leads(tab: Tables, order: seq<Path>, e: nat)
    requires e < |tab.edges| && e + 1 < |order| && order[e + 1] != []
  {
    EdgeReads(tab, e, Last(order[e + 1]))
  }

  /** The tables say of every node and edge what the trie says, with node `i` standing for the
      `i`-th path in shortlex order and edge `e` leading to node `e + 1`. */
  ghost predicate Faithful(tab: Tables, t: TrieMap)
    requires [] in t
  {
    var order := Order(t);
    && |tab.metadata| == |t| == |tab.edges| + 1
    && (forall i :: 0 <= i < |t| ==>
          && NodeFlags(tab.metadata[i]) == t[order[i]]
          && EdgeStart(tab.metadata[i]) + EdgeCount(tab.metadata[i]) <= |tab.edges|)
    && (forall i, e :: 0 <= i < |t| && 0 <= e < |tab.edges| ==>
          (Owns(tab, i, e) <==> Init(order[e + 1]) == order[i]))
    && (forall e :: 0 <= e < |tab.edges| ==> Leads(tab, order, e))
  }

  lemma {:induction false} NodeWord(t: TrieMap, i: nat)
    requires [] in t && i < |t|
    ensures Order(t)[i] in t
    ensures TablesOf(t).metadata[i] ==
            PackNode(EdgesBefore(t, Order(t), i), ChildCount(t, Order(t)[i]), t[Order(t)[i]])
  {
    hide PathsAscending, Order, PackNode, ChildCount, EdgesBefore;
    assert Order(t)[i] in Order(t);
  }

  lemma {:induction false} NodeDecodes(t: TrieMap, i: nat)
    requires WellFormedTrie(t) && Encodable(t) && |t| <= 0x1_0000_0000 && i < |t|
    ensures var m, order := TablesOf(t).metadata[i], Order(t);
            && NodeFlags(m) == t[order[i]]
            && EdgeStart(m) == EdgesBefore(t, order, i)
            && EdgeStart(m) + EdgeCount(m) == EdgesBefore(t, order, i + 1) < |t|
  {
    hide Queue, PathsAscending, Order, PackNode, EdgeStart, EdgeCount, NodeFlags, ChildCount,
         TablesOf;
    var order := Order(t);
    NodeWord(t, i);
    TableSizes(t);
    EdgesBeforeMeaning(t, i);
    EdgesBeforeMeaning(t, i + 1);
    NodeRoundTrip(EdgesBefore(t, order, i), ChildCount(t, order[i]), t[order[i]]);
  }

  lemma {:induction false} EdgeDecodes(t: TrieMap, e: nat)
    requires WellFormedTrie(t) && Encodable(t) && e + 1 < |t|
    ensures Leads(TablesOf(t), Order(t), e)
  {
    hide PathsAscending, Order, PackEdge, LabelStart, LabelLength, Blob, Offset, MetadataOf, OffsetsFit;
    var ls := EdgeLabels(Order(t));
    var l := ls[e];
    assert Order(t)[e + 1] in Order(t);
    assert |l| <= MAX_LABEL_LEN by { var _ := Init(Order(t)[e + 1]); }
    OffsetReadsLabel(ls, l);
    OffsetFits(ls, l);
    EdgeRoundTrip(Offset(ls, l), |l|);
  }

  lemma {:induction false} TableSizes(t: TrieMap)
    requires [] in t
    ensures |TablesOf(t).metadata| == |t| == |TablesOf(t).edges| + 1
  {
  }

  /** The generated tables keep the meaning of the trie. */
  lemma {:induction false} TablesAreFaithful(t: TrieMap)
    requires WellFormedTrie(t) && Encodable(t) && |t| <= 0x1_0000_0000
    ensures Faithful(TablesOf(t), t)
  {
    hide EdgesBefore, Leads, EdgeStart, EdgeCount, NodeFlags, PathsAscending, Order,
         WellFormedTrie, Encodable, TablesOf;
    TrieRooted(t);
    TableSizes(t);
    var tab := TablesOf(t);
    forall i | 0 <= i < |t|
      ensures NodeFlags(tab.metadata[i]) == t[Order(t)[i]]
      ensures EdgeStart(tab.metadata[i]) + EdgeCount(tab.metadata[i]) <= |tab.edges|
    {
      NodeDecodes(t, i);
    }
    forall i, e | 0 <= i < |t| && 0 <= e < |tab.edges|
      ensures Owns(tab, i, e) <==> Init(Order(t)[e + 1]) == Order(t)[i]
    {
      NodeDecodes(t, i);
      EdgeRange(t, i, e);
    }
    forall e | 0 <= e < |tab.edges| ensures Leads(tab, Order(t), e) {
      EdgeDecodes(t, e);
    }
  }

  /** The last node of the order has no children, and all edges come before it. */
  lemma {:induction false} LastNode(t: TrieMap)
    requires WellFormedTrie(t)
    ensures var order, n := Order(t), |t| - 1;
            ChildCount(t, order[n]) == 0 && EdgesBefore(t, order, n) == n
  {
    hide Queue, PathsAscending, Order;
    var order, n := Order(t), |t| - 1;
    forall l ensures l !in ChildLabels(t, order[n]) {
      ChildLabelsMember(t, order[n], l);
      if order[n] + [l] in t {
        assert order[n] + [l] in order;
        var k :| 0 <= k < |order| && order[k] == order[n] + [l];
        ChildOrder(order[n], order[n], l, l);
        AscendingDistinct(order, n, k);
      }
    }
    assert ChildLabels(t, order[n]) == {};
    EdgesBeforeMeaning(t, n);
    EdgesBeforeMeaning(t, n + 1);
    LastEdges(t);
  }

  lemma {:induction false} LastEdges(t: TrieMap)
    requires WellFormedTrie(t)
    ensures EdgesBefore(t, Order(t), |t|) == |t| - 1
  {
    hide EdgesBefore, PathsAscending, Order;
    TrieRooted(t);
    EdgesBeforeMeaning(t, |t|);
    var e := |t| - 2;
    if e >= 0 {
      EdgeBound(t, |t|, e);
      assert Order(t)[..|t|] == Order(t);
      assert Order(t)[e + 1] in Order(t);
      assert Init(Order(t)[e + 1]) in Order(t);
    }
  }

  /** The first node whose edges start beyond 32 bits, in a trie that has one. */
  lemma {:induction false} FirstWideNode(t: TrieMap, n: nat) returns (i: nat)
    requires WellFormedTrie(t) && Encodable(t) && n < |t|
    requires EdgesBefore(t, Order(t), n) >= 0x1_0000_0000
    ensures i < |t|
    ensures 0x1_0000_0000 <= EdgesBefore(t, Order(t), i) < 0x1_0000_0000 + 0x1_0000
  {
    hide WellFormedTrie, PathsAscending, Order, ChildCount;
    TrieRooted(t);
    i := n;
    while i > 0 && EdgesBefore(t, Order(t), i - 1) >= 0x1_0000_0000
      invariant i <= n && EdgesBefore(t, Order(t), i) >= 0x1_0000_0000
    {
      i := i - 1;
    }
    assert i > 0;
    assert Order(t)[i - 1] in Order(t);
    FewChildren(t, Order(t)[i - 1]);
  }

  lemma {:induction false} FewChildren(t: TrieMap, p: Path)
    requires [] in t && Encodable(t) && p in t
    ensures ChildCount(t, p) <= MAX_EDGE_COUNT
  {
  }

  /** The 32-bit edge index is a real limit: beyond it some node claims an edge of another. */
  lemma {:induction false} WideTablesAreNot(t: TrieMap)
    requires WellFormedTrie(t) && Encodable(t) && |t| > 0x1_0000_0000
    ensures !Faithful(TablesOf(t), t)
  {
    hide EdgesBefore, EdgeStart, EdgeCount, NodeFlags, PathsAscending, Order, PackNode, ChildCount,
         TablesOf, Leads, Encodable;
    LastNode(t);
    var i := FirstWideNode(t, |t| - 1);
    var tab, order := TablesOf(t), Order(t);
    var e := EdgesBefore(t, order, i) - 0x1_0000_0000;
    TableSizes(t);
    NodeWord(t, i);
    FewChildren(t, order[i]);
    NodeOverflow(e, ChildCount(t, order[i]), t[order[i]]);
    assert Owns(tab, i, e);
    EdgeRange(t, i, e);
  }

  /** The tables are faithful exactly when the trie has at most `2^32` nodes: the one width that
      the generator does not check. */
  lemma {:induction false} FaithfulExactlyWhenNarrow(t: TrieMap)
    requires WellFormedTrie(t) && Encodable(t)
    ensures Faithful(TablesOf(t), t) <==> |t| <= 0x1_0000_0000
  {
    hide Faithful, TablesOf, Encodable, WellFormedTrie;
    if |t| <= 0x1_0000_0000 {
      TablesAreFaithful(t);
    } else {
      WideTablesAreNot(t);
    }
  }

  // ----- Recovering the trie from the tables ----------------------------------------------

  /** Following `p` from node 0 along decoded edges ends at node `i`; edge `e` ends at `e + 1`. */
  ghost predicate Walks(tab: Tables, p: Path, i: nat)
    decreases |p|
  {
    if p == [] then
      i == 0
    else
      && 1 <= i <= |tab.edges| && EdgeReads(tab, i - 1, Last(p))
      && exists j: nat :: Walks(tab, Init(p), j) && j < |tab.metadata| && Owns(tab, j, i - 1)
  }

  lemma {:induction false} LastStep(tab: Tables, p: Path, i: nat) returns (j: nat)
    requires p != [] && Walks(tab, p, i)
    ensures Walks(tab, Init(p), j) && j < |tab.metadata| && Owns(tab, j, i - 1)
  {
    j :| Walks(tab, Init(p), j) && j < |tab.metadata| && Owns(tab, j, i - 1);
  }

  /** A walk succeeds exactly on the paths of the trie, and ends at the node of that path. */
  lemma {:induction false} WalkMeaning(tab: Tables, t: TrieMap, p: Path, i: nat)
    requires WellFormedTrie(t) && Faithful(tab, t)
    ensures Walks(tab, p, i) <==> i < |t| && Order(t)[i] == p
    decreases |p|
  {
    hide Owns, EdgeReads, PathsAscending, Order, Faithful, WellFormedTrie;
    TrieRooted(t);
    FaithfulSizes(tab, t);
    if p != [] && 1 <= i <= |tab.edges| {
      var order := Order(t);
      var j := ParentIndex(tab, t, i - 1);
      LabelUnique(tab, i - 1, Last(order[i]), Last(p));
      NonEmptyPath(p);
      NonEmptyPath(order[i]);
      if order[i] == p {
        WalkMeaning(tab, t, Init(p), j);
      }
      if Walks(tab, p, i) {
        var k := LastStep(tab, p, i);
        WalkMeaning(tab, t, Init(p), k);
      }
    }
  }

  lemma {:induction false} FaithfulSizes(tab: Tables, t: TrieMap)
    requires [] in t && Faithful(tab, t)
    ensures |tab.metadata| == |t| == |tab.edges| + 1
  {
  }

  /** Every node but the root has one parent, which owns the edge that leads to it. */
  lemma {:induction false} ParentIndex(tab: Tables, t: TrieMap, e: nat) returns (j: nat)
    requires WellFormedTrie(t) && Faithful(tab, t) && e + 1 < |t|
    ensures j < |t| && Order(t)[j] == Init(Order(t)[e + 1])
    ensures forall k: nat :: k < |t| && Owns(tab, k, e) <==> k == j
    ensures EdgeReads(tab, e, Last(Order(t)[e + 1]))
  {
    hide Owns, EdgeReads, PathsAscending, Order;
    var order := Order(t);
    assert Leads(tab, order, e);
    assert order[e + 1] in order;
    assert Init(order[e + 1]) in order;
    j :| 0 <= j < |order| && order[j] == Init(order[e + 1]);
    forall k: nat | k < |t| ensures Owns(tab, k, e) <==> k == j {
      AscendingDistinct(order, j, k);
    }
  }

  lemma {:induction false} LabelUnique(tab: Tables, e: nat, l: Label, m: Label)
    requires e < |tab.edges| && EdgeReads(tab, e, l)
    ensures EdgeReads(tab, e, m) <==> l == m
  {
  }

  /** The encoding loses nothing: one set of tables belongs to one trie. */
  lemma {:induction false} TablesDetermineTrie(tab: Tables, t: TrieMap, u: TrieMap)
    requires WellFormedTrie(t) && Faithful(tab, t) && WellFormedTrie(u) && Faithful(tab, u)
    ensures t == u
  {
    hide Owns, Leads, Walks, PathsAscending, Order;
    var order := Order(t);
    assert |t| == |u|;
    forall i | 0 <= i < |t| ensures order[i] == Order(u)[i] {
      WalkMeaning(tab, t, order[i], i);
      WalkMeaning(tab, u, order[i], i);
    }
    assert order == Order(u);
    forall p ensures p in t <==> p in u {
      assert p in order <==> p in t;
    }
    forall p | p in t ensures t[p] == u[p] {
      assert p in order;
      var i :| 0 <= i < |order| && order[i] == p;
      assert NodeFlags(tab.metadata[i]) == t[order[i]];
    }
  }
}
