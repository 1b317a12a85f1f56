/** A list that the build accepts and compiles to wrong tables: all rules of `n` labels over two
    one-byte labels, for `n` large enough to need more than 32 bits of edge index. */
module SuffixWidth {
  import opened ByteStrings
  import opened SuffixRules
  import opened SuffixTables
  import opened SuffixEncoding
  import opened SuffixBuild
  import opened Words

  const LEFT: Label := [97]
  const RIGHT: Label := [98]

  ghost predicate Binary(p: Path) {
    forall i :: 0 <= i < |p| ==> p[i] == LEFT || p[i] == RIGHT
  }

  ghost function Below(s: set<Path>, l: Label): set<Path> {
    set p | p in s :: p + [l]
  }

  /** All binary paths of length `n`. */
  ghost function Level(n: nat): set<Path> {
    if n == 0 then {[]} else Below(Level(n - 1), LEFT) + Below(Level(n - 1), RIGHT)
  }

  lemma {:induction false} BelowSize(s: set<Path>, l: Label)
    ensures |Below(s, l)| == |s|
  {
    if s != {} {
      var p :| p in s;
      BelowSize(s - {p}, l);
      forall q | q in s - {p} ensures q + [l] != p + [l] {
        assert Init(q + [l]) == q && Init(p + [l]) == p;
      }
      assert Below(s, l) == Below(s - {p}, l) + {p + [l]};
    } else {
      assert Below(s, l) == {};
    }
  }

  lemma {:induction false} LevelSize(n: nat)
    ensures |Level(n)| == Pow2(n)
  {
    if n > 0 {
      LevelSize(n - 1);
      var s := Level(n - 1);
      BelowSize(s, LEFT);
      BelowSize(s, RIGHT);
      forall p | p in Below(s, LEFT) ensures p !in Below(s, RIGHT) {
        assert Last(p) == LEFT && LEFT[0] != RIGHT[0];
      }
      assert Below(s, LEFT) !! Below(s, RIGHT);
    }
  }

  lemma {:induction false} LevelMember(n: nat, p: Path)
    requires p in Level(n)
    ensures |p| == n && Binary(p)
  {
    if n > 0 {
      var l :| (l == LEFT || l == RIGHT) && p in Below(Level(n - 1), l);
      var q :| q in Level(n - 1) && p == q + [l];
      LevelMember(n - 1, q);
    }
  }

  ghost function WideRules(n: nat): seq<Rule> {
    var paths := SortedPaths(Level(n));
    seq(|paths|, i requires 0 <= i < |paths| => Rule(paths[i], false))
  }

  lemma {:induction false} WideRule(n: nat, i: nat)
    requires n >= 2 && i < |WideRules(n)|
    ensures |WideRules(n)[i].path| == n && Binary(WideRules(n)[i].path)
    ensures WellFormedRule(WideRules(n)[i]) && !WideRules(n)[i].exception
  {
    hide WellFormedRule, Binary, PathsAscending;
    var p := SortedPaths(Level(n))[i];
    assert p in SortedPaths(Level(n));
    LevelMember(n, p);
    BinaryRule(p);
  }

  lemma {:induction false} LabelFacts(l: Label)
    requires l == LEFT || l == RIGHT
    ensures LabelFits(l) && DOT !in l && STAR !in l && LowercaseAscii(l)
  {
  }

  lemma {:induction false} BinaryRule(p: Path)
    requires |p| >= 2 && Binary(p)
    ensures WellFormedRule(Rule(p, false))
  {
    hide LabelFits, LowercaseAscii;
    forall i | 0 <= i < |p|
      ensures LabelFits(p[i]) && DOT !in p[i] && STAR !in p[i] && LowercaseAscii(p[i])
    {
      LabelFacts(p[i]);
    }
  }

  lemma {:induction false} WideRulesWellFormed(n: nat)
    requires n >= 2
    ensures WellFormedRules(WideRules(n)) && |WideRules(n)| == Pow2(n)
  {
    LevelSize(n);
    var paths, rules := SortedPaths(Level(n)), WideRules(n);
    forall i | 0 <= i < |rules| ensures WellFormedRule(rules[i]) { WideRule(n, i); }
    forall i, j | 0 <= i < j < |rules| ensures rules[i].path != rules[j].path {
      AscendingDistinct(paths, i, j);
    }
  }

  // ----- Its trie is encodable, and large -------------------------------------------------

  lemma {:induction false} WideTrieBinary(n: nat, p: Path)
    requires n >= 2 && p in TrieOf(WideRules(n))
    ensures Binary(p)
  {
    NodePathsMember(WideRules(n), p);
    if r :| r in WideRules(n) && p <= r.path {
      var i :| 0 <= i < |WideRules(n)| && WideRules(n)[i] == r;
      WideRule(n, i);
    }
  }

  lemma {:induction false} FewLabels(s: set<Label>)
    requires forall l :: l in s ==> l == LEFT || l == RIGHT
    ensures |s| <= 2
  {
    assert s <= {LEFT, RIGHT};
    SubsetSize(s, {LEFT, RIGHT});
  }

  lemma {:induction false} SubsetSize(a: set<Label>, b: set<Label>)
    requires a <= b
    ensures |a| <= |b|
  {
    assert b == a + (b - a) && a !! (b - a);
  }

  lemma {:induction false} ShortBlob(ls: seq<Label>)
    requires forall i :: 0 <= i < |ls| ==> ls[i] == LEFT || ls[i] == RIGHT
    ensures |Blob(ls)| == (if LEFT in ls then 1 else 0) + (if RIGHT in ls then 1 else 0)
  {
    if ls != [] {
      var front, l := ls[..|ls| - 1], ls[|ls| - 1];
      ShortBlob(front);
      assert ls == front + [l] && LEFT[0] != RIGHT[0];
    }
  }

  lemma {:induction false} WideTrieEncodable(n: nat)
    requires n >= 2
    ensures [] in TrieOf(WideRules(n)) && Encodable(TrieOf(WideRules(n)))
  {
    hide WideRules, TrieOf, Order, PathsAscending;
    var t := TrieOf(WideRules(n));
    NodePathsMember(WideRules(n), []);
    RootInTrie(WideRules(n));
    forall p | p in t ensures ChildCount(t, p) <= MAX_EDGE_COUNT {
      forall l | l in ChildLabels(t, p) ensures l == LEFT || l == RIGHT {
        ChildLabelsMember(t, p, l);
        WideTrieBinary(n, p + [l]);
        assert (p + [l])[|p|] == l;
      }
      FewLabels(ChildLabels(t, p));
    }
    var ls := EdgeLabels(Order(t));
    forall i | 0 <= i < |ls| ensures ls[i] == LEFT || ls[i] == RIGHT {
      assert Order(t)[i + 1] in Order(t);
      WideTrieBinary(n, Order(t)[i + 1]);
    }
    forall i | 0 <= i < |ls| ensures |Blob(ls[..i])| <= MAX_LABEL_OFFSET {
      ShortBlob(ls[..i]);
    }
  }

  lemma {:induction false} RootInTrie(rules: seq<Rule>)
    ensures [] in TrieOf(rules)
  {
  }

  lemma {:induction false} WideTrieLarge(n: nat)
    requires n >= 2
    ensures |TrieOf(WideRules(n))| > Pow2(n)
  {
    var t, rules := TrieOf(WideRules(n)), WideRules(n);
    LevelSize(n);
    forall p | p in Level(n) ensures p in t && p != [] {
      LevelMember(n, p);
      assert p in SortedPaths(Level(n));
      var i :| 0 <= i < |SortedPaths(Level(n))| && SortedPaths(Level(n))[i] == p;
      assert rules[i] in rules && p <= rules[i].path;
      NodePathsMember(rules, p);
    }
    RootInTrie(rules);
    var some := Level(n) + {[]};
    assert some <= t.Keys;
    PathSubset(some, t.Keys);
  }

  lemma {:induction false} PathSubset(a: set<Path>, b: set<Path>)
    requires a <= b
    ensures |a| <= |b|
  {
    assert b == a + (b - a) && a !! (b - a);
  }

  // ----- Its lines are accepted -----------------------------------------------------------

  ghost function LinesOf(rules: seq<Rule>): seq<seq<Byte>>
    requires forall i :: 0 <= i < |rules| ==> rules[i].path != []
  {
    seq(|rules|, i requires 0 <= i < |rules| => LineOf(rules[i]))
  }

  lemma {:induction false} WideLine(r: Rule)
    requires WellFormedRule(r) && !r.exception && |r.path| >= 2 && Binary(r.path)
    ensures ParseLine(LineOf(r)) == Accepted(r)
  {
    RenderLeftmost(r.path);
    var first := Last(r.path)[0];
    assert first == 97 || first == 98;
    assert LineOf(r)[0] == first;
    RuleRoundTrip(r);
  }

  lemma {:induction false} LinesRead(rules: seq<Rule>)
    requires forall i :: 0 <= i < |rules| ==> rules[i].path != []
    requires forall i :: 0 <= i < |rules| ==> ParseLine(LineOf(rules[i])) == Accepted(rules[i])
    ensures RulesOf(LinesOf(rules)) == rules && NoneRejected(LinesOf(rules))
  {
    hide ParseLine;
    if rules != [] {
      var front := rules[..|rules| - 1];
      LinesRead(front);
      assert LinesOf(rules)[..|rules| - 1] == LinesOf(front);
    }
  }

  lemma {:induction false} WideListAccepted(n: nat) returns (lines: seq<seq<Byte>>)
    requires n >= 2
    ensures AcceptedList(lines) && RulesOf(lines) == WideRules(n)
  {
    var rules := WideRules(n);
    WideRulesWellFormed(n);
    forall i | 0 <= i < |rules|
      ensures rules[i].path != [] && ParseLine(LineOf(rules[i])) == Accepted(rules[i])
    {
      WideRule(n, i);
      WideLine(rules[i]);
    }
    lines := LinesOf(rules);
    LinesRead(rules);
  }

  lemma {:induction false} WideListMiscompiles(n: nat) returns (lines: seq<seq<Byte>>)
    requires n >= 2 && Pow2(n) >= 0x1_0000_0000
    ensures AcceptedList(lines) && [] in CompiledTrie(lines) && Encodable(CompiledTrie(lines))
    ensures !Faithful(TablesOf(CompiledTrie(lines)), CompiledTrie(lines))
  {
    hide AcceptedList, Encodable, Faithful, TablesOf, WideRules, TrieOf, WellFormedRules;
    lines := WideListAccepted(n);
    WideRulesWellFormed(n);
    WideTrieEncodable(n);
    WideTrieLarge(n);
    TrieOfWellFormed(WideRules(n));
    FaithfulExactlyWhenNarrow(TrieOf(WideRules(n)));
  }

  /** The build goes through on some list, with tables that do not say what the list says. */
  lemma {:induction false} MiscompiledListExists() returns (lines: seq<seq<Byte>>)
    ensures AcceptedList(lines) && [] in CompiledTrie(lines) && Encodable(CompiledTrie(lines))
    ensures !Faithful(TablesOf(CompiledTrie(lines)), CompiledTrie(lines))
  {
    hide AcceptedList, Encodable, Faithful, TablesOf, CompiledTrie;
    Widths();
    lines := WideListMiscompiles(32);
  }
}
