/** The runtime reader of the tables: child lookup by binary search, and the walk that finds the
    public suffix of a domain. */
module SuffixLookup {
  import opened Options
  import opened ByteStrings
  import opened SuffixRules
  import opened SuffixTables
  import opened SuffixEncoding
  import opened Words

  /** The byte length of a suffix, and whether a rule of the list matched. */
  datatype Info = Info(len: nat, known: bool)

  // ----- Children -------------------------------------------------------------------------

  function EdgeLabel(tab: Tables, edge: nat): Label
    requires LabelStart(edge) + LabelLength(edge) <= |tab.labels|
  {
    tab.labels[LabelStart(edge)..LabelStart(edge) + LabelLength(edge)]
  }

  /** The labels of the edges of one node ascend, which is what binary search needs. */
  lemma {:induction false} SiblingsAscend(tab: Tables, t: TrieMap, i: nat, e: nat, f: nat)
    requires WellFormedTrie(t) && Faithful(tab, t)
    requires i < |t| && e < f < |tab.edges| && Owns(tab, i, e) && Owns(tab, i, f)
    ensures Less(Last(Order(t)[e + 1]), Last(Order(t)[f + 1]))
  {
    hide Owns, Order, Leads, EdgeStart, EdgeCount, NodeFlags;
    var p, q := Order(t)[e + 1], Order(t)[f + 1];
    assert PathLess(p, q);
    LexIrreflexive(Init(p));
  }

  lemma {:induction false} EdgeOf(tab: Tables, t: TrieMap, i: nat, e: nat)
    requires WellFormedTrie(t) && Faithful(tab, t) && i < |t| && Owns(tab, i, e)
    ensures e < |tab.edges| && EdgeReads(tab, e, Last(Order(t)[e + 1]))
    ensures Order(t)[e + 1] == Order(t)[i] + [Last(Order(t)[e + 1])]
  {
    hide Order, PathsAscending, EdgeReads, EdgeStart, EdgeCount, NodeFlags;
    assert Leads(tab, Order(t), e);
    NonEmptyPath(Order(t)[e + 1]);
  }

  lemma {:induction false} ChildEdge(tab: Tables, t: TrieMap, i: nat, l: Label) returns (e: nat)
    requires WellFormedTrie(t) && Faithful(tab, t) && i < |t| && Order(t)[i] + [l] in t
    ensures e < |tab.edges| && Owns(tab, i, e) && Last(Order(t)[e + 1]) == l
  {
    hide Order, Owns, PathsAscending, Leads, EdgeStart, EdgeCount, NodeFlags;
    var q := Order(t)[i] + [l];
    assert q in Order(t);
    var k :| 0 <= k < |t| && Order(t)[k] == q;
    e := k - 1;
    assert Init(q) == Order(t)[i] && Last(q) == l;
  }

  /** `binary_search_by` over one edge range whose labels are `ls`. */
  method SearchEdges(tab: Tables, start: nat, count: nat, l: Label, ghost ls: seq<Label>)
    returns (r: Option<nat>)
    requires start + count <= |tab.edges| == |ls|
    requires forall e :: start <= e < start + count ==> EdgeReads(tab, e, ls[e])
    requires Ascending(ls[start..start + count])
    ensures r.Some? <==> l in ls[start..start + count]
    ensures r.Some? ==> start <= r.value < start + count && ls[r.value] == l
  {
    var lo, hi := start, start + count;
    ghost var range := ls[start..start + count];
    while lo < hi
      invariant start <= lo <= hi <= start + count
      invariant forall e :: 0 <= e < lo - start ==> Less(range[e], l)
      invariant forall e :: hi - start <= e < count ==> Less(l, range[e])
    {
      var mid := (lo + hi) / 2;
      assert EdgeReads(tab, mid, ls[mid]) && range[mid - start] == ls[mid];
      var found := EdgeLabel(tab, tab.edges[mid]);
      if found == l {
        return Some(mid);
      } else if Less(found, l) {
        forall e | 0 <= e < mid - start ensures Less(range[e], l) {
          LessTransitive(range[e], found, l);
        }
        lo := mid + 1;
      } else {
        LessTotal(found, l);
        forall e | mid - start < e < count ensures Less(l, range[e]) {
          LessTransitive(l, found, range[e]);
        }
        hi := mid;
      }
    }
    LessIrreflexive(l);
    return None;
  }

  lemma {:induction false} RangeFits(tab: Tables, t: TrieMap, i: nat)
    requires [] in t && Faithful(tab, t) && i < |t|
    ensures EdgeStart(tab.metadata[i]) + EdgeCount(tab.metadata[i]) <= |tab.edges|
    ensures Order(t)[i] in t && NodeFlags(tab.metadata[i]) == t[Order(t)[i]]
  {
    assert Order(t)[i] in Order(t);
  }

  /** The labels of the edges that node `i` owns. */
  lemma {:induction false} OwnedLabels(tab: Tables, t: TrieMap, i: nat)
    requires WellFormedTrie(t) && Faithful(tab, t) && i < |t|
    ensures var start, count := EdgeStart(tab.metadata[i]), EdgeCount(tab.metadata[i]);
            var ls := EdgeLabels(Order(t));
            && start + count <= |tab.edges| == |ls|
            && (forall e :: start <= e < start + count ==> EdgeReads(tab, e, ls[e]))
            && Ascending(ls[start..start + count])
            && (forall l :: l in ls[start..start + count] <==> Order(t)[i] + [l] in t)
  {
    hide Order, EdgeReads, EdgeStart, EdgeCount, WellFormedTrie, PathsAscending, Faithful;
    TrieRooted(t);
    FaithfulSizes(tab, t);
    RangeFits(tab, t, i);
    var start, count := EdgeStart(tab.metadata[i]), EdgeCount(tab.metadata[i]);
    var ls := EdgeLabels(Order(t));
    var range := ls[start..start + count];
    forall e | start <= e < start + count ensures EdgeReads(tab, e, ls[e]) {
      EdgeOf(tab, t, i, e);
    }
    forall a, b | 0 <= a < b < |range| ensures Less(range[a], range[b]) {
      SiblingsAscend(tab, t, i, start + a, start + b);
    }
    forall l ensures l in range <==> Order(t)[i] + [l] in t {
      if l in range {
        var a :| 0 <= a < |range| && range[a] == l;
        EdgeOf(tab, t, i, start + a);
        assert Order(t)[start + a + 1] in Order(t);
      }
      if Order(t)[i] + [l] in t {
        var e := ChildEdge(tab, t, i, l);
        assert range[e - start] == l;
      }
    }
  }

  method Child(tab: Tables, nodeIndex: nat, l: Label, ghost t: TrieMap) returns (r: Option<nat>)
    requires WellFormedTrie(t) && Faithful(tab, t)
    ensures r.Some? <==> nodeIndex < |t| && Order(t)[nodeIndex] + [l] in t
    ensures r.Some? ==> r.value < |t| && Order(t)[r.value] == Order(t)[nodeIndex] + [l]
  {
    hide WellFormedTrie, Order, EdgeReads, Faithful, EdgeStart, EdgeCount, PathsAscending, Ascending;
    TrieRooted(t);
    FaithfulSizes(tab, t);
    if nodeIndex >= |tab.metadata| {
      return None;
    }
    var metadata := tab.metadata[nodeIndex];
    var edgeStart, edgeCount := EdgeStart(metadata), EdgeCount(metadata);
    OwnedLabels(tab, t, nodeIndex);
    if edgeStart + edgeCount > |tab.edges| {
      return None;
    }
    var found := SearchEdges(tab, edgeStart, edgeCount, l, EdgeLabels(Order(t)));
    if found.None? {
      return None;
    }
    EdgeOf(tab, t, nodeIndex, found.value);
    return Some(found.value + 1);
  }

  // ----- The walk -------------------------------------------------------------------------

  /** The byte length of the last `k` labels as they are written; `d` runs right to left. */
  ghost function DomainLen(d: Path, k: nat): nat
    requires 1 <= k <= |d|
  {
    |Render(d[..k])|
  }

  lemma {:induction false} LenGrows(d: Path, k: nat)
    requires 1 <= k <= |d|
    ensures DomainLen(d, 1) == |d[0]|
    ensures k < |d| ==> DomainLen(d, k + 1) == DomainLen(d, k) + |d[k]| + 1
  {
    if k < |d| {
      RenderLeftmost(d[..k + 1]);
      assert Init(d[..k + 1]) == d[..k];
    }
  }

  /** A domain ends in the text of its last `k` labels, and a tail of another length is another
      text. */
  lemma {:induction false} SuffixText(d: Path, k: nat, len: nat)
    requires 1 <= k <= |d|
    ensures DomainLen(d, k) <= |Render(d)|
    ensures len <= |Render(d)| ==>
              (Render(d)[|Render(d)| - len..] == Render(d[..k]) <==> len == DomainLen(d, k))
  {
    if k < |d| {
      SuffixText(Init(d), k, DomainLen(d, k));
      RenderLeftmost(d);
      assert Init(d)[..k] == d[..k];
      var head, rest := Last(d) + [46], Render(Init(d));
      assert Render(d) == head + rest;
      assert Render(d)[|Render(d)| - DomainLen(d, k)..] == rest[|rest| - DomainLen(d, k)..];
    } else {
      assert d[..k] == d && Render(d)[0..] == Render(d);
    }
  }

  ghost predicate IsLeaf(t: TrieMap, p: Path) {
    p in t && And(t[p], LEAF_FLAG) != 0
  }

  /** Some rule of `k` labels ends here, exactly or by a wildcard. */
  ghost predicate Hit(t: TrieMap, d: Path, k: nat)
    requires 1 <= k <= |d|
  {
    IsLeaf(t, d[..k]) || (k >= 2 && IsLeaf(t, d[..k - 1] + [WILDCARD]))
  }

  /** An exception rule names the last `k` labels. */
  ghost predicate Stop(t: TrieMap, d: Path, k: nat)
    requires 1 <= k <= |d|
  {
    k >= 2 && IsLeaf(t, d[..k]) && And(t[d[..k]], EXCEPTION_FLAG) != 0
  }

  ghost predicate NoStop(t: TrieMap, d: Path, n: nat)
    requires n <= |d|
  {
    forall k :: 1 <= k <= n ==> !Stop(t, d, k)
  }

  /** The longest hit among the first `k` labels, or one label when there is none. */
  ghost function Best(t: TrieMap, d: Path, k: nat): Info
    requires 1 <= k <= |d|
  {
    if Hit(t, d, k) then Info(DomainLen(d, k), true)
    else if k == 1 then Info(DomainLen(d, 1), false)
    else Best(t, d, k - 1)
  }

  /** What a lookup answers: the first exception decides, otherwise the longest hit. */
  ghost predicate Answers(t: TrieMap, d: Path, info: Info) {
    if d == [] then
      info == Info(0, false)
    else
      && (NoStop(t, d, |d|) ==> info == Best(t, d, |d|))
      && (forall k :: 2 <= k <= |d| && Stop(t, d, k) && NoStop(t, d, k - 1) ==>
            info == Info(DomainLen(d, k - 1), true))
  }

  /** Below a missing node there is nothing to find. */
  lemma {:induction false} NothingBelow(t: TrieMap, d: Path, k: nat, n: nat)
    requires WellFormedTrie(t) && 1 <= k <= n <= |d| && d[..k] !in t
    ensures d[..n] !in t && Best(t, d, n) == Best(t, d, k)
    ensures NoStop(t, d, k) ==> NoStop(t, d, n)
  {
    if k < n {
      NothingBelow(t, d, k, n - 1);
      var p, w := d[..n], d[..n - 1] + [WILDCARD];
      assert Init(p) == d[..n - 1] && Init(w) == d[..n - 1];
    }
  }

  /** A walk that leaves the trie after `k` labels has its answer. */
  lemma {:induction false} LeftTrie(t: TrieMap, d: Path, k: nat, info: Info)
    requires WellFormedTrie(t) && 1 <= k <= |d| && d[..k] !in t
    requires NoStop(t, d, k) && info == Best(t, d, k)
    ensures Answers(t, d, info)
  {
    NothingBelow(t, d, k, |d|);
  }

  lemma {:induction false} FirstStop(t: TrieMap, d: Path, k: nat)
    requires 2 <= k <= |d| && Stop(t, d, k) && NoStop(t, d, k - 1)
    ensures Answers(t, d, Info(DomainLen(d, k - 1), true))
  {
    forall j | 2 <= j <= |d| && Stop(t, d, j) && NoStop(t, d, j - 1) ensures j == k {
    }
  }

  /** The position of the longest hit, or 0 when nothing is hit. */
  lemma {:induction false} BestIsLongest(t: TrieMap, d: Path, n: nat) returns (k: nat)
    requires 1 <= n <= |d|
    ensures k <= n && forall j :: k < j <= n ==> !Hit(t, d, j)
    ensures k == 0 ==> Best(t, d, n) == Info(DomainLen(d, 1), false)
    ensures k > 0 ==> Hit(t, d, k) && Best(t, d, n) == Info(DomainLen(d, k), true)
  {
    hide Hit;
    if Hit(t, d, n) {
      k := n;
    } else if n == 1 {
      k := 0;
    } else {
      k := BestIsLongest(t, d, n - 1);
    }
  }

  /** The shortest exception that names the domain literally, if there is one. */
  lemma {:induction false} FindFirstStop(t: TrieMap, d: Path, n: nat) returns (k: nat)
    requires n <= |d|
    ensures k == 0 ==> NoStop(t, d, n)
    ensures k > 0 ==> k <= n && Stop(t, d, k) && NoStop(t, d, k - 1)
  {
    hide Stop;
    if n == 0 {
      return 0;
    }
    k := FindFirstStop(t, d, n - 1);
    if k == 0 && Stop(t, d, n) {
      k := n;
    }
  }

  lemma {:induction false} StopDepth(t: TrieMap, d: Path, k: nat)
    requires 1 <= k <= |d| && Stop(t, d, k)
    ensures k >= 2
  {
  }

  /** An answer is the byte length of some of the domain's last labels: that many bytes at the end
      of the domain spell them. */
  lemma {:induction false} AnswerIsText(t: TrieMap, d: Path, info: Info)
    requires d != [] && Answers(t, d, info)
    ensures info.len <= |Render(d)|
    ensures exists k :: 1 <= k <= |d| && Render(d)[|Render(d)| - info.len..] == Render(d[..k])
  {
    hide Stop, Hit, Render, Best;
    var stop := FindFirstStop(t, d, |d|);
    if stop > 0 {
      StopDepth(t, d, stop);
      SuffixText(d, stop - 1, info.len);
    } else {
      var k := BestIsLongest(t, d, |d|);
      SuffixText(d, if k > 0 then k else 1, info.len);
    }
  }

  method Flags(tab: Tables, nodeIndex: nat, ghost t: TrieMap) returns (r: nat)
    requires WellFormedTrie(t) && Faithful(tab, t) && nodeIndex < |t|
    ensures Order(t)[nodeIndex] in t && r == t[Order(t)[nodeIndex]]
  {
    hide Faithful;
    FaithfulSizes(tab, t);
    RangeFits(tab, t, nodeIndex);
    r := NodeFlags(tab.metadata[nodeIndex]);
  }

  lemma {:induction false} NextLabel(t: TrieMap, d: Path, k: nat)
    requires 1 <= k < |d|
    ensures d[..k + 1] == d[..k] + [d[k]]
    ensures DomainLen(d, k + 1) == DomainLen(d, k) + |d[k]| + 1
    ensures NoStop(t, d, k + 1) <==> NoStop(t, d, k) && !Stop(t, d, k + 1)
    ensures Best(t, d, k + 1) ==
            if Hit(t, d, k + 1) then Info(DomainLen(d, k + 1), true) else Best(t, d, k)
  {
    hide Stop, Hit, DomainLen;
    LenGrows(d, k);
  }

  /** One label further: the wildcard candidate, then the exact branch. `next` is None when the
      walk ends, by a missing branch or by an exception. */
  method FindStep(tab: Tables, d: Path, k: nat, nodeIndex: nat, lenSoFar: nat, info: Info,
                  ghost t: TrieMap)
    returns (r: Info, next: Option<nat>)
    requires WellFormedTrie(t) && Faithful(tab, t)
    requires 1 <= k < |d| && nodeIndex < |t| && Order(t)[nodeIndex] == d[..k]
    requires lenSoFar == DomainLen(d, k) && NoStop(t, d, k) && info == Best(t, d, k)
    ensures next.None? ==> Answers(t, d, r)
    ensures next.Some? ==> next.value < |t| && Order(t)[next.value] == d[..k + 1]
    ensures next.Some? ==> NoStop(t, d, k + 1) && r == Best(t, d, k + 1)
  {
    hide Faithful, WellFormedTrie, Order, And, Answers, PathsAscending, NoStop, Best, DomainLen;
    var l := d[k];
    var labelPlusDot := |l| + 1;
    NextLabel(t, d, k);
    TrieRooted(t);
    r := info;
    var wildcard := Child(tab, nodeIndex, WILDCARD, t);
    if wildcard.Some? {
      var flags := Flags(tab, wildcard.value, t);
      if And(flags, LEAF_FLAG) != 0 {
        r := Info(lenSoFar + labelPlusDot, true);
      }
    }
    next := Child(tab, nodeIndex, l, t);
    if next.None? {
      LeftTrie(t, d, k + 1, r);
      return;
    }
    var flags := Flags(tab, next.value, t);
    if And(flags, LEAF_FLAG) != 0 {
      if And(flags, EXCEPTION_FLAG) != 0 {
        FirstStop(t, d, k + 1);
        return Info(lenSoFar, true), None;
      }
      r := Info(lenSoFar + labelPlusDot, true);
    }
  }

  /** The public suffix lookup over a domain whose labels run right to left. */
  method Find(tab: Tables, d: Path, ghost t: TrieMap) returns (info: Info)
    requires WellFormedTrie(t) && Faithful(tab, t)
    ensures Answers(t, d, info)
    ensures d != [] ==>
              && info.len <= |Render(d)|
              && exists k :: 1 <= k <= |d| && Render(d)[|Render(d)| - info.len..] == Render(d[..k])
  {
    hide Faithful, WellFormedTrie, Order, And, DomainLen, Render;
    if d == [] {
      return Info(0, false);
    }
    TrieRooted(t);
    LenGrows(d, 1);
    assert d[..1] == [] + [d[0]];
    info := Info(|d[0]|, false);
    var node := Child(tab, 0, d[0], t);
    if node.None? {
      LeftTrie(t, d, 1, info);
    } else {
      var nodeIndex := node.value;
      var flags := Flags(tab, nodeIndex, t);
      if And(flags, LEAF_FLAG) != 0 {
        info := Info(info.len, true);
      }
      var lenSoFar, k := info.len, 1;
      while k < |d|
        invariant 1 <= k <= |d| && 0 <= nodeIndex < |t| && Order(t)[nodeIndex] == d[..k]
        invariant lenSoFar == DomainLen(d, k) && NoStop(t, d, k) && info == Best(t, d, k)
      {
        var next;
        NextLabel(t, d, k);
        info, next := FindStep(tab, d, k, nodeIndex, lenSoFar, info, t);
        if next.None? {
          break;
        }
        nodeIndex, lenSoFar, k := next.value, lenSoFar + |d[k]| + 1, k + 1;
      }
    }
    AnswerIsText(t, d, info);
  }
}
