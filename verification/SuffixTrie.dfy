/** The mutable rule trie of the build script and the loop that fills it from the rule list. */
module SuffixTrie {
  import opened ByteStrings
  import opened SuffixRules

  class TrieNode {
    var flags: nat
    var children: map<Label, TrieNode>

    /** The labels that lead here from the root. */
    ghost const path: Path

    constructor (ghost path: Path)
      ensures flags == 0 && children == map[] && this.path == path
    {
      this.path := path;
      flags := 0;
      children := map[];
    }
  }

  /** What the heap holds at one path. */
  datatype Entry = Entry(node: TrieNode, flags: nat, children: map<Label, TrieNode>)

  type Tree = map<Path, Entry>

  /** Every node but the root hangs below another, and the children recorded at a path are
      exactly the nodes one label below it. */
  ghost predicate Shape(tree: Tree) {
    && [] in tree
    && (forall p, l {:trigger p + [l]} :: p + [l] in tree ==> p in tree)
    && (forall p, l {:trigger p + [l]} :: p in tree ==>
          (l in tree[p].children <==> p + [l] in tree))
    && (forall p, l {:trigger tree[p].children[l]} :: p in tree && l in tree[p].children ==>
          p + [l] in tree && tree[p].children[l] == tree[p + [l]].node)
  }

  ghost function ValueOf(tree: Tree): TrieMap {
    map p | p in tree :: tree[p].flags
  }

  lemma {:induction false} AppendInjective(p: Path, l: Label, q: Path, m: Label)
    requires p + [l] == q + [m]
    ensures p == q && l == m
  {
    assert Init(p + [l]) == p && Init(q + [m]) == q && Last(p + [l]) == l && Last(q + [m]) == m;
  }

  lemma {:induction false} TakeNext(path: Path, k: nat)
    requires k < |path|
    ensures path[..k + 1] == path[..k] + [path[k]]
    ensures AllFit(path[..k + 1]) <==> AllFit(path[..k]) && LabelFits(path[k])
  {
  }

  /** `tree` with a default node added at `p + [l]`. */
  ghost function Grown(tree: Tree, p: Path, l: Label, child: TrieNode): Tree
    requires p in tree
  {
    var parent := tree[p].(children := tree[p].children[l := child]);
    tree[p := parent][p + [l] := Entry(child, 0, map[])]
  }

  lemma {:induction false} GrownShape(tree: Tree, p: Path, l: Label, child: TrieNode)
    requires Shape(tree) && p in tree && l !in tree[p].children
    ensures p + [l] !in tree
    ensures Shape(Grown(tree, p, l, child))
  {
    var q := p + [l];
    forall r, m {:trigger r + [m]} | r + [m] == q ensures r == p && m == l {
      AppendInjective(r, m, p, l);
    }
    forall m: Label ensures q + [m] !in tree && q + [m] != q && q != p {}
  }

  lemma {:induction false} GrownValue(tree: Tree, p: Path, l: Label, child: TrieNode)
    requires p in tree && p + [l] !in tree
    ensures ValueOf(Grown(tree, p, l, child)) == ValueOf(tree)[p + [l] := 0]
  {
  }

  ghost function Flagged(tree: Tree, p: Path, flags: nat): Tree
    requires p in tree
  {
    tree[p := tree[p].(flags := flags)]
  }

  lemma {:induction false} FlaggedShape(tree: Tree, p: Path, flags: nat)
    requires Shape(tree) && p in tree
    ensures Shape(Flagged(tree, p, flags))
    ensures ValueOf(Flagged(tree, p, flags)) == ValueOf(tree)[p := flags]
  {
  }

  /** A root node together with the ghost record of every node by its path. */
  class RuleTrie {
    const root: TrieNode
    ghost var tree: Tree
    ghost var repr: set<TrieNode>

    ghost predicate Backed(p: Path, e: Entry)
      reads this, repr
    {
      && e.node in repr && e.node.path == p
      && e.node.flags == e.flags && e.node.children == e.children
    }

    ghost predicate Valid()
      reads this, repr
    {
      && Shape(tree) && tree[[]].node == root
      && forall p :: p in tree ==> Backed(p, tree[p])
    }

    ghost function Value(): TrieMap
      reads this
    {
      ValueOf(tree)
    }

    constructor ()
      ensures Valid() && fresh(repr)
      ensures Value() == TrieOf([])
    {
      var node := new TrieNode([]);
      root := node;
      tree := map[[] := Entry(node, 0, map[])];
      repr := {node};
    }

    /** Hangs a default node below the node named by `p`, which has no child labelled `l`. */
    method AddChild(node: TrieNode, ghost p: Path, l: Label) returns (child: TrieNode)
      requires Valid() && p in tree && tree[p].node == node && l !in node.children
      modifies this, node
      ensures Valid() && fresh(child)
      ensures p + [l] !in old(tree) && tree == Grown(old(tree), p, l, child)
      ensures repr == old(repr) + {child}
    {
      child := new TrieNode(p + [l]);
      GrownShape(tree, p, l, child);
      hide Shape;
      node.children := node.children[l := child];
      tree := Grown(tree, p, l, child);
      repr := repr + {child};
    }

    /** `node.children.entry(label).or_default()` at the node named by `p`. */
    method Enter(node: TrieNode, ghost p: Path, l: Label) returns (child: TrieNode)
      requires Valid() && p in tree && tree[p].node == node
      modifies this, node
      ensures Valid() && fresh(repr - old(repr))
      ensures p + [l] in tree && tree[p + [l]].node == child
      ensures Value() == WithNode(old(Value()), p + [l])
    {
      if l in node.children {
        assert p + [l] in tree;
        child := node.children[l];
        assert tree[p].children[l] == child;
      } else {
        ghost var before := tree;
        child := AddChild(node, p, l);
        GrownValue(before, p, l, child);
      }
    }

    method SetFlags(node: TrieNode, ghost p: Path, flags: nat)
      requires Valid() && p in tree && tree[p].node == node
      modifies this`tree, node`flags
      ensures Valid()
      ensures p in old(Value()) && Value() == old(Value())[p := flags]
    {
      FlaggedShape(tree, p, flags);
      node.flags := flags;
      tree := Flagged(tree, p, flags);
    }

    /** The label loop of one rule: creates the nodes along `path` and returns the last. `ok` is
        false where the source panics on an empty or overlong label. */
    method Walk(path: Path) returns (ok: bool, node: TrieNode)
      requires Valid()
      modifies this, repr
      ensures Valid() && fresh(repr - old(repr))
      ensures ok <==> AllFit(path)
      ensures ok ==> path in tree && tree[path].node == node
      ensures ok ==> Value() == WithPrefixes(old(Value()), path, |path|)
    {
      node := root;
      var labelCount := 0;
      ghost var before, done := Value(), path[..0];
      while labelCount < |path|
        invariant 0 <= labelCount <= |path| && done == path[..labelCount]
        invariant Valid() && fresh(repr - old(repr))
        invariant done in tree && tree[done].node == node
        invariant Value() == WithPrefixes(before, path, labelCount)
        invariant AllFit(done)
      {
        var l := path[labelCount];
        if l == [] || |l| > MAX_LABEL_LEN {
          return false, node;
        }
        TakeNext(path, labelCount);
        node := Enter(node, done, l);
        labelCount, done := labelCount + 1, done + [l];
      }
      assert done == path;
      return true, node;
    }
  }

  /** `t` with an unflagged node at `p`, unless it already has a node there. */
  ghost function WithNode(t: TrieMap, p: Path): TrieMap {
    if p in t then t else t[p := 0]
  }

  ghost function WithPrefixes(t: TrieMap, p: Path, k: nat): TrieMap
    requires k <= |p|
  {
    if k == 0 then t else WithNode(WithPrefixes(t, p, k - 1), p[..k])
  }

  /** `t` with the path of `r` present and its last node flagged. */
  ghost function WithRule(t: TrieMap, r: Rule): TrieMap {
    WithPrefixes(t, r.path, |r.path|)[r.path := RuleFlags(r.exception)]
  }

  ghost predicate Unflagged(t: TrieMap, p: Path) {
    p in t ==> t[p] == 0
  }

  lemma {:induction false} WithPrefixesContents(t: TrieMap, p: Path, k: nat, q: Path)
    requires k <= |p| && [] in t
    ensures q in WithPrefixes(t, p, k) <==> q in t || q <= p[..k]
    ensures q in WithPrefixes(t, p, k) ==>
              WithPrefixes(t, p, k)[q] == if q in t then t[q] else 0
  {
    if k > 0 {
      WithPrefixesContents(t, p, k - 1, q);
      assert q <= p[..k] <==> q <= p[..k - 1] || q == p[..k];
    }
  }

  /** One line of the list that is neither blank nor a comment. `ok` is false where the source
      panics, which ends the build. */
  method AddRule(trie: RuleTrie, line: seq<Byte>) returns (ok: bool)
    requires trie.Valid() && !IsSkipped(line)
    modifies trie, trie.repr
    ensures ok <==> ParseLine(line).Accepted? &&
                    Unflagged(old(trie.Value()), ParseLine(line).rule.path)
    ensures ok ==> trie.Valid() && fresh(trie.repr - old(trie.repr))
    ensures ok ==> trie.Value() == WithRule(old(trie.Value()), ParseLine(line).rule)
  {
    var exception := line[0] == BANG;
    var text := if exception then line[1..] else line;
    if text == [] || !LowercaseAscii(text) || !WildcardLeftmost(text) {
      return false;
    }
    var path := RSplit(text);
    ghost var before := trie.Value();
    var fits, node := trie.Walk(path);
    if !fits || (exception && |path| <= 1) {
      return false;
    }
    WithPrefixesContents(before, path, |path|, path);
    assert path[..|path|] == path;
    if node.flags != 0 {
      return false;
    }
    trie.SetFlags(node, path, LEAF_FLAG + if exception then EXCEPTION_FLAG else 0);
    return true;
  }

  /** Adding a rule to the trie of a rule list gives the trie of the longer list. */
  lemma {:induction false} WithRuleIsTrieOf(rules: seq<Rule>, r: Rule)
    requires Unflagged(TrieOf(rules), r.path)
    ensures WithRule(TrieOf(rules), r) == TrieOf(rules + [r])
  {
    var t := TrieOf(rules);
    var grown, expected := WithRule(t, r), TrieOf(rules + [r]);
    UnflaggedMeansNew(rules, r.path);
    assert r.path[..|r.path|] == r.path;
    forall q ensures q in grown <==> q in expected {
      WithPrefixesContents(t, r.path, |r.path|, q);
      NodePathsMember(rules, q);
      NodePathsMember(rules + [r], q);
      if q == [] || q <= r.path { assert r in rules + [r]; }
    }
    forall q | q in grown ensures grown[q] == expected[q] {
      WithPrefixesContents(t, r.path, |r.path|, q);
      RuleNeedsNode(rules, q);
    }
  }

  lemma {:induction false} UnflaggedMeansNew(rules: seq<Rule>, p: Path)
    ensures Unflagged(TrieOf(rules), p) <==> forall i :: 0 <= i < |rules| ==> rules[i].path != p
  {
    RuleNeedsNode(rules, p);
    if i :| 0 <= i < |rules| && rules[i].path == p {
      assert rules[i] == Rule(p, true) || rules[i] == Rule(p, false);
    }
  }

  lemma {:induction false} RuleNeedsNode(rules: seq<Rule>, p: Path)
    ensures p !in TrieOf(rules) ==> Rule(p, true) !in rules && Rule(p, false) !in rules
  {
    NodePathsMember(rules, p);
  }

  ghost predicate Sound(lines: seq<seq<Byte>>) {
    NoneRejected(lines) && DistinctPaths(RulesOf(lines))
  }

  ghost predicate Extends(rules: seq<Rule>, line: Line) {
    line.Skipped? || (line.Accepted? && Unflagged(TrieOf(rules), line.rule.path))
  }

  /** A list without defects stays so exactly when the next line is skipped or adds a new path. */
  lemma {:induction false} SoundNext(lines: seq<seq<Byte>>, i: nat)
    requires i < |lines| && Sound(lines[..i])
    ensures Sound(lines[..i + 1]) <==> Extends(RulesOf(lines[..i]), ParseLine(lines[i]))
  {
    hide ParseLine, TrieOf, RulesOf;
    var rules, line := RulesOf(lines[..i]), ParseLine(lines[i]);
    RulesOfNext(lines, i);
    if line.Accepted? {
      UnflaggedMeansNew(rules, line.rule.path);
      if k :| 0 <= k < |rules| && rules[k].path == line.rule.path {
        var longer := RulesOf(lines[..i + 1]);
        assert longer[k].path == longer[|rules|].path;
      }
    }
    if line.Rejected? {
      assert lines[..i + 1][i] == lines[i];
    }
  }

  lemma {:induction false} NextLine(lines: seq<seq<Byte>>, i: nat)
    requires i < |lines| && Sound(lines[..i])
    ensures var rules, line := RulesOf(lines[..i]), ParseLine(lines[i]);
            && (Extends(rules, line) <==> Sound(lines[..i + 1]))
            && (!Extends(rules, line) ==> !AcceptedList(lines))
            && (Extends(rules, line) && line.Skipped? ==> RulesOf(lines[..i + 1]) == rules)
            && (Extends(rules, line) && line.Accepted? ==>
                  && |RulesOf(lines[..i + 1])| == |rules| + 1
                  && TrieOf(RulesOf(lines[..i + 1])) == WithRule(TrieOf(rules), line.rule))
  {
    hide ParseLine, TrieOf, RulesOf, Sound, WithRule;
    var rules, line := RulesOf(lines[..i]), ParseLine(lines[i]);
    SoundNext(lines, i);
    RulesOfNext(lines, i);
    if !Extends(rules, line) {
      RejectedPrefix(lines, i + 1);
    } else if line.Accepted? {
      WithRuleIsTrieOf(rules, line.rule);
    }
  }

  /** The body of the line loop; `added` is 1 for a rule and 0 for a skipped line. */
  method AddLine(trie: RuleTrie, lines: seq<seq<Byte>>, i: nat) returns (ok: bool, added: nat)
    requires i < |lines| && Sound(lines[..i])
    requires trie.Valid() && trie.Value() == TrieOf(RulesOf(lines[..i]))
    modifies trie, trie.repr
    ensures ok <==> Sound(lines[..i + 1])
    ensures !ok ==> !AcceptedList(lines)
    ensures ok ==> trie.Valid() && fresh(trie.repr - old(trie.repr))
    ensures ok ==> trie.Value() == TrieOf(RulesOf(lines[..i + 1]))
    ensures ok ==> |RulesOf(lines[..i + 1])| == |RulesOf(lines[..i])| + added
  {
    NextLine(lines, i);
    if IsSkipped(lines[i]) {
      return true, 0;
    }
    ok := AddRule(trie, lines[i]);
    added := 1;
  }

  /** The whole build input. `ok` is false exactly where the source panics: on a malformed line,
      on a duplicate rule, or when no rule is left. */
  method ParseRules(lines: seq<seq<Byte>>) returns (ok: bool, trie: RuleTrie, ruleCount: nat)
    ensures ok <==> AcceptedList(lines)
    ensures ok ==> trie.Valid() && fresh(trie) && fresh(trie.repr)
    ensures ok ==> trie.Value() == TrieOf(RulesOf(lines)) && ruleCount == |RulesOf(lines)|
  {
    trie := new RuleTrie();
    ruleCount := 0;
    for i := 0 to |lines|
      invariant trie.Valid() && fresh(trie) && fresh(trie.repr)
      invariant Sound(lines[..i])
      invariant trie.Value() == TrieOf(RulesOf(lines[..i])) && ruleCount == |RulesOf(lines[..i])|
    {
      var added, count := AddLine(trie, lines, i);
      if !added {
        return false, trie, ruleCount;
      }
      ruleCount := ruleCount + count;
    }
    assert lines[..|lines|] == lines;
    ok := ruleCount > 0;
  }

  lemma {:induction false} RulesOfNext(lines: seq<seq<Byte>>, i: nat)
    requires i < |lines|
    ensures RulesOf(lines[..i + 1]) == match ParseLine(lines[i])
                                       case Accepted(rule) => RulesOf(lines[..i]) + [rule]
                                       case _ => RulesOf(lines[..i])
  {
    assert lines[..i + 1][..i] == lines[..i];
  }

  /** A defect in a prefix of the list is a defect of the list. */
  lemma {:induction false} RejectedPrefix(lines: seq<seq<Byte>>, i: nat)
    requires i <= |lines|
    requires !Sound(lines[..i])
    ensures !AcceptedList(lines)
    decreases |lines| - i
  {
    if i == |lines| {
      assert lines[..i] == lines;
    } else {
      RulesOfNext(lines, i);
      assert lines[..i] == lines[..i + 1][..i];
      assert RulesOf(lines[..i]) <= RulesOf(lines[..i + 1]);
      RejectedPrefix(lines, i + 1);
    }
  }
}
