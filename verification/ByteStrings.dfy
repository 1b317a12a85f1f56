/** Byte strings, label paths, and the two orders the table compiler relies on: the bytewise
    order of the trie's ordered child maps, and the shortlex order in which a breadth-first
    traversal meets the paths of the trie. */
module ByteStrings {

  type Byte = x: int | 0 <= x < 256
  type Label = seq<Byte>

  /** The labels from the root of the trie downwards, that is, a domain read right to left. */
  type Path = seq<Label>

  const BANG: Byte := 33
  const STAR: Byte := 42
  const DOT: Byte := 46
  const SLASH: Byte := 47

  const WILDCARD: Label := [STAR]

  function Init(p: Path): Path
    requires p != []
  {
    p[..|p| - 1]
  }

  function Last(p: Path): Label
    requires p != []
  {
    p[|p| - 1]
  }

  /** Bytewise lexicographic order, as `Ord` on byte slices and ASCII strings. */
  predicate Less(a: Label, b: Label) {
    b != [] && (a == [] || a[0] < b[0] || (a[0] == b[0] && Less(a[1..], b[1..])))
  }

  /** The order decides at the first differing byte, and a proper prefix comes first. */
  lemma {:induction false} LessMeans(a: Label, b: Label)
    ensures Less(a, b) <==>
              exists k :: 0 <= k <= |a| && k < |b| && a[..k] == b[..k] && (k == |a| || a[k] < b[k])
  {
    if b != [] && a != [] && a[0] == b[0] {
      LessMeans(a[1..], b[1..]);
      assert a == [a[0]] + a[1..] && b == [b[0]] + b[1..];
      if k :| 0 <= k <= |a[1..]| && k < |b[1..]| && a[1..][..k] == b[1..][..k] &&
              (k == |a[1..]| || a[1..][k] < b[1..][k])
      {
        assert a[..k + 1] == [a[0]] + a[1..][..k] && b[..k + 1] == [b[0]] + b[1..][..k];
        assert k + 1 == |a| || a[k + 1] < b[k + 1];
      }
      if k :| 0 <= k <= |a| && k < |b| && a[..k] == b[..k] && (k == |a| || a[k] < b[k]) {
        assert a[1..][..k - 1] == a[..k][1..] && b[1..][..k - 1] == b[..k][1..];
        assert k - 1 == |a[1..]| || a[1..][k - 1] < b[1..][k - 1];
      }
    } else if b != [] {
      assert a[..0] == b[..0];
      forall k | 0 < k <= |a| && k < |b| ensures a[..k] != b[..k] {
        assert a[..k][0] != b[..k][0];
      }
    }
  }

  lemma {:induction false} LessIrreflexive(a: Label)
    ensures !Less(a, a)
  {
    if a != [] {
      LessIrreflexive(a[1..]);
    }
  }

  lemma {:induction false} LessTransitive(a: Label, b: Label, c: Label)
    requires Less(a, b) && Less(b, c)
    ensures Less(a, c)
  {
    if a != [] && a[0] == b[0] == c[0] {
      LessTransitive(a[1..], b[1..], c[1..]);
    }
  }

  lemma {:induction false} LessTotal(a: Label, b: Label)
    ensures a == b || Less(a, b) || Less(b, a)
  {
    if a != [] && b != [] && a[0] == b[0] {
      LessTotal(a[1..], b[1..]);
      assert a == [a[0]] + a[1..] && b == [b[0]] + b[1..];
    }
  }

  /** Lexicographic order on paths of equal length. */
  ghost predicate LexLess(p: Path, q: Path)
    requires |p| == |q|
  {
    p != [] && (LexLess(Init(p), Init(q)) || (Init(p) == Init(q) && Less(Last(p), Last(q))))
  }

  /** Shorter paths first; paths of equal length lexicographically by label. */
  ghost predicate PathLess(p: Path, q: Path) {
    |p| < |q| || (|p| == |q| && LexLess(p, q))
  }

  lemma {:induction false} LexIrreflexive(p: Path)
    ensures !LexLess(p, p)
  {
    if p != [] {
      LexIrreflexive(Init(p));
      LessIrreflexive(Last(p));
    }
  }

  lemma {:induction false} LexTransitive(p: Path, q: Path, r: Path)
    requires |p| == |q| == |r|
    requires LexLess(p, q) && LexLess(q, r)
    ensures LexLess(p, r)
  {
    if LexLess(Init(p), Init(q)) && LexLess(Init(q), Init(r)) {
      LexTransitive(Init(p), Init(q), Init(r));
    } else if Init(p) == Init(q) && Init(q) == Init(r) {
      LessTransitive(Last(p), Last(q), Last(r));
    }
  }

  lemma {:induction false} LexTotal(p: Path, q: Path)
    requires |p| == |q|
    ensures p == q || LexLess(p, q) || LexLess(q, p)
  {
    if p != [] {
      LexTotal(Init(p), Init(q));
      LessTotal(Last(p), Last(q));
      assert p == Init(p) + [Last(p)] && q == Init(q) + [Last(q)];
    }
  }

  lemma {:induction false} PathIrreflexive(p: Path)
    ensures !PathLess(p, p)
  {
    LexIrreflexive(p);
  }

  lemma {:induction false} PathTransitive(p: Path, q: Path, r: Path)
    requires PathLess(p, q) && PathLess(q, r)
    ensures PathLess(p, r)
  {
    if |p| == |q| == |r| {
      LexTransitive(p, q, r);
    }
  }

  lemma {:induction false} PathTotal(p: Path, q: Path)
    ensures p == q || PathLess(p, q) || PathLess(q, p)
  {
    if |p| == |q| {
      LexTotal(p, q);
    }
  }

  /** The heart of the breadth-first argument: children follow the order of their parents,
      and the children of one parent follow the order of their labels. */
  lemma {:induction false} ChildOrder(p: Path, q: Path, a: Label, b: Label)
    ensures PathLess(p, q) ==> PathLess(p + [a], q + [b])
    ensures Less(a, b) ==> PathLess(p + [a], p + [b])
    ensures PathLess(p, p + [a])
  {
    assert Init(p + [a]) == p && Init(q + [b]) == q && Init(p + [b]) == p;
  }

  lemma {:induction false} NonEmptyPath(p: Path)
    requires p != []
    ensures p == Init(p) + [Last(p)]
  {
  }

  // ----- Ascending enumerations of finite sets ------------------------------------------

  ghost predicate Ascending(s: seq<Label>) {
    forall i, j :: 0 <= i < j < |s| ==> Less(s[i], s[j])
  }

  ghost predicate PathsAscending(s: seq<Path>) {
    forall i, j {:trigger PathLess(s[i], s[j])} :: 0 <= i < j < |s| ==> PathLess(s[i], s[j])
  }

  predicate IsLeastLabel(s: set<Label>, m: Label) {
    m in s && forall x :: x in s ==> x == m || Less(m, x)
  }

  lemma {:induction false} LeastLabelExists(s: set<Label>) returns (m: Label)
    requires s != {}
    ensures IsLeastLabel(s, m)
  {
    var x :| x in s;
    if s == {x} {
      m := x;
    } else {
      var rest := s - {x};
      assert s == rest + {x};
      m := LeastLabelExists(rest);
      LessTotal(x, m);
      if Less(x, m) {
        forall y | y in rest && y != m ensures Less(x, y) { LessTransitive(x, m, y); }
        m := x;
      }
    }
  }

  lemma {:induction false} LeastLabelUnique(s: set<Label>)
    ensures forall m, n :: IsLeastLabel(s, m) && IsLeastLabel(s, n) ==> m == n
  {
    forall m, n | IsLeastLabel(s, m) && IsLeastLabel(s, n) ensures m == n {
      if m != n {
        LessTransitive(m, n, m);
        LessIrreflexive(m);
      }
    }
  }

  /** The first key of an ordered map. */
  function LeastLabel(s: set<Label>): (m: Label)
    requires s != {}
    ensures IsLeastLabel(s, m)
  {
    assert exists m :: IsLeastLabel(s, m) by { var m := LeastLabelExists(s); }
    LeastLabelUnique(s);
    var m :| m in s && IsLeastLabel(s, m);
    m
  }

  /** The keys of an ordered map in iteration order. */
  function SortedLabels(s: set<Label>): (r: seq<Label>)
    ensures |r| == |s|
    ensures forall x :: x in r <==> x in s
    ensures Ascending(r)
  {
    if s == {} then
      []
    else
      var m := LeastLabel(s);
      var rest := SortedLabels(s - {m});
      [m] + rest
  }

  ghost predicate IsLeastPath(s: set<Path>, m: Path) {
    m in s && forall x :: x in s ==> x == m || PathLess(m, x)
  }

  lemma {:induction false} LeastPathExists(s: set<Path>) returns (m: Path)
    requires s != {}
    ensures IsLeastPath(s, m)
  {
    var x :| x in s;
    if s == {x} {
      m := x;
    } else {
      var rest := s - {x};
      assert s == rest + {x};
      m := LeastPathExists(rest);
      PathTotal(x, m);
      if PathLess(x, m) {
        forall y | y in rest && y != m ensures PathLess(x, y) { PathTransitive(x, m, y); }
        m := x;
      }
    }
  }

  /** All paths of a finite set, shortest first and lexicographically within one length. */
  ghost function SortedPaths(s: set<Path>): (r: seq<Path>)
    ensures |r| == |s|
    ensures forall x :: x in r <==> x in s
    ensures PathsAscending(r)
  {
    if s == {} then
      []
    else
      assert exists m :: IsLeastPath(s, m) by { var m := LeastPathExists(s); }
      var m :| IsLeastPath(s, m);
      var rest := SortedPaths(s - {m});
      [m] + rest
  }

  /** An ascending enumeration lists each path once, at one position. */
  lemma {:induction false} AscendingDistinct(s: seq<Path>, i: nat, j: nat)
    requires PathsAscending(s) && i < |s| && j < |s|
    ensures s[i] == s[j] <==> i == j
    ensures PathLess(s[i], s[j]) <==> i < j
  {
    PathIrreflexive(s[i]);
    if j < i && PathLess(s[i], s[j]) {
      PathTransitive(s[i], s[j], s[i]);
    }
  }

  /** Only one ascending sequence lists a given set of paths. */
  lemma {:induction false} AscendingUnique(s: seq<Path>, t: seq<Path>)
    requires PathsAscending(s) && PathsAscending(t)
    requires forall x :: x in s <==> x in t
    ensures s == t
  {
    assert s != [] ==> s[0] in s;
    assert t != [] ==> t[0] in t;
    if s != [] {
      var i :| 0 <= i < |t| && t[i] == s[0];
      var j :| 0 <= j < |s| && s[j] == t[0];
      if s[0] != t[0] {
        PathTransitive(s[0], t[0], s[0]);
        PathIrreflexive(s[0]);
      }
      forall x ensures x in s[1..] <==> x in t[1..] {
        if x in s[1..] {
          var k :| 1 <= k < |s| && s[k] == x;
          AscendingDistinct(s, 0, k);
          assert x in s && x in t;
        }
        if x in t[1..] {
          var k :| 1 <= k < |t| && t[k] == x;
          AscendingDistinct(t, 0, k);
          assert x in t && x in s;
        }
      }
      AscendingUnique(s[1..], t[1..]);
      assert s == [s[0]] + s[1..] && t == [t[0]] + t[1..];
    }
  }
}
