/** Breadth-first numbering of a prefix-closed set of paths: a queue that is extended by the
    children of its members, in order, is at every moment a prefix of the shortlex order. */
module BreadthFirst {
  import opened ByteStrings

  ghost predicate Rooted(keys: set<Path>) {
    [] in keys && forall p {:trigger Init(p)} :: p in keys && p != [] ==> Init(p) in keys
  }

  /** The queue after the nodes before `i` were expanded fully and node `i` by the labels in
      `done`: it holds the root and exactly the children met so far. */
  ghost predicate Frontier(keys: set<Path>, paths: seq<Path>, i: nat, done: seq<Label>) {
    && i <= |paths| && [] in paths
    && (forall p :: p in paths ==> p in keys)
    && (forall p {:trigger Init(p)} :: p in keys && p != [] ==>
          (p in paths <==> Init(p) in paths[..i] || (Expanding(paths, i, p) && Last(p) in done)))
  }

  ghost predicate Expanding(paths: seq<Path>, i: nat, p: Path)
    requires p != []
  {
    i < |paths| && Init(p) == paths[i]
  }

  /** The labels still to come below `p` are greater than those done. */
  ghost predicate DoneFirst(keys: set<Path>, p: Path, done: seq<Label>) {
    forall x, l :: x in done && l !in done && p + [l] in keys ==> Less(x, l)
  }

  ghost predicate Queue(keys: set<Path>, paths: seq<Path>, i: nat, done: seq<Label>) {
    && Frontier(keys, paths, i, done) && PathsAscending(paths)
    && (i < |paths| ==> DoneFirst(keys, paths[i], done))
  }

  lemma {:induction false} InitialQueue(keys: set<Path>)
    requires Rooted(keys)
    ensures Queue(keys, [[]], 0, [])
  {
  }

  /** A path not yet queued comes after everything that is queued. */
  lemma {:induction false} UnqueuedIsLater(
    keys: set<Path>, paths: seq<Path>, i: nat, done: seq<Label>, p: Path, j: nat)
    requires Rooted(keys) && Queue(keys, paths, i, done)
    requires p in keys && p !in paths && j < |paths|
    ensures PathLess(paths[j], p)
    decreases |p|
  {
    var parent, q := Init(p), paths[j];
    NonEmptyPath(p);
    ChildOrder(parent, parent, Last(p), Last(p));
    if parent !in paths {
      UnqueuedIsLater(keys, paths, i, done, parent, j);
      PathTransitive(q, parent, p);
    } else if q != [] {
      NonEmptyPath(q);
      assert q in paths && q in keys;
      var k :| 0 <= k < |paths| && paths[k] == parent;
      assert k >= i;
      if Init(q) in paths[..i] {
        var m :| 0 <= m < i && paths[m] == Init(q);
        ChildOrder(Init(q), parent, Last(q), Last(p));
      } else if k == i {
        assert Less(Last(q), Last(p)) by { assert parent + [Last(p)] in keys; }
        ChildOrder(parent, parent, Last(q), Last(p));
      } else {
        ChildOrder(Init(q), parent, Last(q), Last(p));
      }
    }
  }

  lemma {:induction false} QueueChild(keys: set<Path>, paths: seq<Path>, i: nat, done: seq<Label>, l: Label)
    requires Rooted(keys) && Queue(keys, paths, i, done)
    requires i < |paths| && paths[i] + [l] in keys && l !in done
    requires DoneFirst(keys, paths[i], done + [l])
    ensures paths[i] + [l] !in paths
    ensures Queue(keys, paths + [paths[i] + [l]], i, done + [l])
  {
    var p := paths[i] + [l];
    assert Init(p) == paths[i] && Last(p) == l;
    if Init(p) in paths[..i] {
      var k :| 0 <= k < i && paths[k] == paths[i];
      AscendingDistinct(paths, k, i);
    }
    assert p !in paths;
    forall j | 0 <= j < |paths| ensures PathLess(paths[j], p) {
      UnqueuedIsLater(keys, paths, i, done, p, j);
    }
    QueueChildFrontier(keys, paths, i, done, l);
  }

  lemma {:induction false} QueueChildFrontier(keys: set<Path>, paths: seq<Path>, i: nat, done: seq<Label>, l: Label)
    requires Frontier(keys, paths, i, done) && i < |paths| && paths[i] + [l] in keys
    ensures Frontier(keys, paths + [paths[i] + [l]], i, done + [l])
  {
    var p := paths[i] + [l];
    var longer := paths + [p];
    assert Init(p) == paths[i] && Last(p) == l;
    assert longer[..i] == paths[..i];
    forall q | q in keys && q != []
      ensures q in longer <==>
                Init(q) in longer[..i] || (Expanding(longer, i, q) && Last(q) in done + [l])
    {
      NonEmptyPath(q);
      assert q in longer <==> q in paths || q == p;
    }
  }

  lemma {:induction false} NextNode(keys: set<Path>, paths: seq<Path>, i: nat, done: seq<Label>)
    requires Queue(keys, paths, i, done) && i < |paths|
    requires forall l :: paths[i] + [l] in keys ==> l in done
    ensures Queue(keys, paths, i + 1, [])
  {
    forall p | p in keys && p != []
      ensures p in paths <==> Init(p) in paths[..i + 1]
    {
      NonEmptyPath(p);
      assert Init(p) in paths[..i + 1] <==> Init(p) in paths[..i] || Init(p) == paths[i];
    }
  }

  /** The queue never departs from the shortlex order. */
  lemma {:induction false} QueueIsPrefix(
    keys: set<Path>, paths: seq<Path>, i: nat, done: seq<Label>, all: seq<Path>)
    requires Rooted(keys) && Queue(keys, paths, i, done)
    requires PathsAscending(all) && forall p :: p in all <==> p in keys
    ensures paths <= all
  {
    var rest := SortedPaths(keys - set p | p in paths);
    var whole := paths + rest;
    forall a, b | 0 <= a < b < |whole| ensures PathLess(whole[a], whole[b]) {
      if a < |paths| <= b {
        assert whole[b] in rest;
        UnqueuedIsLater(keys, paths, i, done, whole[b], a);
      }
    }
    AscendingUnique(whole, all);
  }

  /** When every queued node has been expanded the queue holds every path. */
  lemma {:induction false} QueueComplete(keys: set<Path>, paths: seq<Path>, p: Path)
    requires Rooted(keys) && Frontier(keys, paths, |paths|, []) && p in keys
    ensures p in paths
    decreases |p|
  {
    if p != [] {
      QueueComplete(keys, paths, Init(p));
      assert paths[..|paths|] == paths;
    }
  }

  lemma {:induction false} QueueBounded(keys: set<Path>, paths: seq<Path>)
    requires PathsAscending(paths) && forall p :: p in paths ==> p in keys
    ensures |paths| <= |keys|
  {
    if paths != [] {
      var last := paths[|paths| - 1];
      var before := paths[..|paths| - 1];
      forall p | p in before ensures p in keys - {last} {
        var k :| 0 <= k < |before| && before[k] == p;
        AscendingDistinct(paths, k, |paths| - 1);
        assert p in paths;
      }
      assert last in paths;
      QueueBounded(keys - {last}, before);
    }
  }

  lemma {:induction false} SortedPrefixDone(keys: set<Path>, p: Path, sorted: seq<Label>, k: nat)
    requires Ascending(sorted) && k <= |sorted|
    requires forall l :: p + [l] in keys ==> l in sorted
    ensures DoneFirst(keys, p, sorted[..k])
    ensures k < |sorted| ==> sorted[k] !in sorted[..k] && sorted[..k + 1] == sorted[..k] + [sorted[k]]
  {
    forall x, l | x in sorted[..k] && l !in sorted[..k] && p + [l] in keys ensures Less(x, l) {
      var a :| 0 <= a < k && sorted[a] == x;
      var b :| 0 <= b < |sorted| && sorted[b] == l;
      assert b >= k;
    }
    if k < |sorted| && sorted[k] in sorted[..k] {
      LessIrreflexive(sorted[k]);
    }
  }
}
