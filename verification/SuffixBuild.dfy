/** The build as a whole: from the lines of the list to the tables, what the tables then answer,
    and what the outcome does not depend on. */
module SuffixBuild {
  import opened ByteStrings
  import opened SuffixRules
  import opened SuffixTrie
  import opened SuffixTables
  import opened SuffixCompiler
  import opened SuffixEncoding
  import opened SuffixLookup
  import opened SuffixSemantics

  ghost function CompiledTrie(lines: seq<seq<Byte>>): TrieMap {
    TrieOf(RulesOf(lines))
  }

  /** Parses the list and generates the tables. `ok` is false exactly where the build panics. */
  method Build(lines: seq<seq<Byte>>) returns (ok: bool, tables: Tables, ruleCount: nat)
    ensures ok <==> AcceptedList(lines) && Encodable(CompiledTrie(lines))
    ensures ok ==> tables == TablesOf(CompiledTrie(lines)) && ruleCount == |RulesOf(lines)|
    ensures ok && |CompiledTrie(lines)| <= 0x1_0000_0000 ==> Compiles(RulesOf(lines))
  {
    hide AcceptedList, Encodable, TablesOf, TrieOf, WellFormedRules;
    AcceptedRules(lines);
    tables := Tables([], [], []);
    var trie;
    ok, trie, ruleCount := ParseRules(lines);
    RootPresent(lines);
    if ok {
      ok, tables := GenerateTables(trie);
    }
  }

  lemma {:induction false} AcceptedRules(lines: seq<seq<Byte>>)
    ensures AcceptedList(lines) ==> WellFormedRules(RulesOf(lines))
  {
    RulesOfWellFormed(lines);
  }

  lemma {:induction false} RootPresent(lines: seq<seq<Byte>>)
    ensures [] in CompiledTrie(lines)
  {
    NodePathsMember(RulesOf(lines), []);
  }

  /** The tables of a list small enough for 32-bit edge indices. */
  ghost predicate Compiles(rules: seq<Rule>) {
    && WellFormedRules(rules) && [] in TrieOf(rules)
    && Encodable(TrieOf(rules)) && |TrieOf(rules)| <= 0x1_0000_0000
  }

  /** Walking the decoded tables succeeds exactly on the prefixes of the rules, and the flags met
      there say whether the path is a rule and of which kind. */
  lemma {:induction false} CompiledWalk(rules: seq<Rule>, tab: Tables, p: Path)
    requires Compiles(rules) && tab == TablesOf(TrieOf(rules))
    ensures (exists i: nat :: Walks(tab, p, i)) <==>
              p == [] || exists r :: r in rules && p <= r.path
    ensures forall i: nat :: Walks(tab, p, i) ==>
              i < |tab.metadata| && NodeFlags(tab.metadata[i]) == FlagsFor(rules, p)
  {
    hide Walks, TablesOf, Order, Encodable, Faithful, NodeFlags, WellFormedTrie, WellFormedRules;
    var t := TrieOf(rules);
    TrieOfWellFormed(rules);
    TablesAreFaithful(t);
    FaithfulSizes(tab, t);
    NodePathsMember(rules, p);
    forall i: nat ensures Walks(tab, p, i) <==> i < |t| && Order(t)[i] == p {
      WalkMeaning(tab, t, p, i);
    }
    forall i: nat | i < |t| ensures Order(t)[i] in t && NodeFlags(tab.metadata[i]) == t[Order(t)[i]] {
      RangeFits(tab, t, i);
    }
    if p in t {
      assert p in Order(t);
      var i :| 0 <= i < |t| && Order(t)[i] == p;
      assert Walks(tab, p, i);
    }
  }

  /** Looking a domain up in the generated tables gives its public suffix, exactly on the domains
      whose matching exceptions include a literal one. */
  method FindInBuild(tab: Tables, d: Path, ghost rules: seq<Rule>) returns (info: Info)
    requires Compiles(rules) && tab == TablesOf(TrieOf(rules)) && d != []
    ensures IsPublicSuffix(rules, d, info) <==> ExceptionsLiteral(rules, d)
    ensures info.len <= |Render(d)|
    ensures exists k :: 1 <= k <= |d| && Render(d)[|Render(d)| - info.len..] == Render(d[..k])
  {
    hide TablesOf, Order, Render, TrieOf, Answers, Encodable, Faithful, WellFormedTrie;
    hide IsPublicSuffix, ExceptionsLiteral;
    TrieOfWellFormed(rules);
    TablesAreFaithful(TrieOf(rules));
    info := Find(tab, d, TrieOf(rules));
    LookupIsPublicSuffix(rules, d, info);
  }

  // ----- The shape of the trie ------------------------------------------------------------

  ghost predicate Childless(t: TrieMap, p: Path) {
    forall l :: p + [l] !in t
  }

  lemma {:induction false} NodeShape(rules: seq<Rule>, p: Path)
    requires WellFormedRules(rules) && p in TrieOf(rules) && p != []
    ensures Childless(TrieOf(rules), p) ==> TrieOf(rules)[p] != 0
    ensures TrieOf(rules)[p] == RuleFlags(true) ==> |p| >= 2
    ensures Last(p) == WILDCARD ==>
              |p| >= 2 && TrieOf(rules)[p] != 0 && Childless(TrieOf(rules), p)
  {
    var t := TrieOf(rules);
    NodePathsMember(rules, p);
    var r :| r in rules && p <= r.path;
    assert r == Rule(r.path, true) || r == Rule(r.path, false);
    if p != r.path {
      var q := p + [r.path[|p|]];
      assert q <= r.path;
      NodePathsMember(rules, q);
    }
    if Last(p) == WILDCARD {
      WildcardEnds(rules, p, r);
      forall l ensures p + [l] !in t {
        NodePathsMember(rules, p + [l]);
        if s :| s in rules && p + [l] <= s.path {
          WildcardEnds(rules, p, s);
        }
      }
    }
  }

  lemma {:induction false} WildcardEnds(rules: seq<Rule>, p: Path, r: Rule)
    requires WellFormedRules(rules) && r in rules && p != [] && p <= r.path && Last(p) == WILDCARD
    ensures r.path == p && |p| >= 2
  {
    var i :| 0 <= i < |rules| && rules[i] == r;
    assert STAR in r.path[|p| - 1];
  }

  /** Flagged nodes and rules correspond one to one. */
  lemma {:induction false} FlaggedNodesAreRules(rules: seq<Rule>)
    requires DistinctPaths(rules)
    ensures |set p | p in TrieOf(rules) && TrieOf(rules)[p] != 0| == |rules|
  {
    var flagged := set p | p in TrieOf(rules) && TrieOf(rules)[p] != 0;
    var paths := set i | 0 <= i < |rules| :: rules[i].path;
    forall p ensures p in flagged <==> p in paths {
      LeafMeansRule(rules, p);
      RuleNeedsNode(rules, p);
      if p in paths {
        var i :| 0 <= i < |rules| && rules[i].path == p;
        assert rules[i] == Rule(p, true) || rules[i] == Rule(p, false);
      }
    }
    DistinctCount(rules, |rules|);
    assert flagged == paths;
  }

  lemma {:induction false} DistinctCount(rules: seq<Rule>, n: nat)
    requires DistinctPaths(rules) && n <= |rules|
    ensures |set i | 0 <= i < n :: rules[i].path| == n
  {
    if n > 0 {
      DistinctCount(rules, n - 1);
      var fewer := set i | 0 <= i < n - 1 :: rules[i].path;
      assert (set i | 0 <= i < n :: rules[i].path) == fewer + {rules[n - 1].path};
    }
  }

  // ----- Independence of the order of the lines -------------------------------------------

  lemma {:induction false} RulesOfConcat(a: seq<seq<Byte>>, b: seq<seq<Byte>>)
    ensures RulesOf(a + b) == RulesOf(a) + RulesOf(b)
  {
    if b == [] {
      assert a + b == a;
    } else {
      var c := b[..|b| - 1];
      RulesOfConcat(a, c);
      assert (a + b)[..|a + b| - 1] == a + c;
    }
  }

  lemma {:induction false} WithoutLine(b: seq<seq<Byte>>, k: nat) returns (rest: seq<seq<Byte>>)
    requires k < |b|
    ensures |rest| == |b| - 1 && multiset(rest) == multiset(b) - multiset{b[k]}
    ensures multiset(RulesOf(b)) == multiset(RulesOf(rest)) + multiset(RulesOf([b[k]]))
  {
    hide RulesOf;
    rest := b[..k] + b[k + 1..];
    assert b == b[..k] + [b[k]] + b[k + 1..];
    assert multiset(b) == multiset(b[..k]) + multiset{b[k]} + multiset(b[k + 1..]);
    RulesOfConcat(b[..k] + [b[k]], b[k + 1..]);
    RulesOfConcat(b[..k], [b[k]]);
    RulesOfConcat(b[..k], b[k + 1..]);
  }

  lemma {:induction false} SameRules(a: seq<seq<Byte>>, b: seq<seq<Byte>>)
    requires multiset(a) == multiset(b)
    ensures multiset(RulesOf(a)) == multiset(RulesOf(b))
    decreases |a|
  {
    hide RulesOf;
    SameMembers(a, b);
    if a == [] {
      assert b == [];
    } else {
      var x := a[0];
      assert x in a;
      var k :| 0 <= k < |b| && b[k] == x;
      var front := WithoutLine(a, 0);
      var rest := WithoutLine(b, k);
      SameRules(front, rest);
    }
  }

  lemma {:induction false} Twice<T>(s: seq<T>, x: T) returns (i: nat, j: nat)
    requires multiset(s)[x] >= 2
    ensures i < j < |s| && s[i] == s[j] == x
  {
    var last, front := s[|s| - 1], s[..|s| - 1];
    assert s == front + [last];
    if last == x {
      assert x in multiset(front);
      i, j :| 0 <= i < |front| && front[i] == x && j == |front|;
    } else {
      i, j := Twice(front, x);
    }
  }

  lemma {:induction false} CountTwo<T>(s: seq<T>, i: nat, j: nat)
    requires i < j < |s| && s[i] == s[j]
    ensures multiset(s)[s[i]] >= 2
  {
    assert s == s[..i] + [s[i]] + s[i + 1..];
    assert s[j] == s[i + 1..][j - i - 1];
    assert s[j] in multiset(s[i + 1..]);
  }

  lemma {:induction false} SameDistinct(a: seq<Rule>, b: seq<Rule>)
    requires multiset(a) == multiset(b) && DistinctPaths(a)
    ensures DistinctPaths(b)
  {
    forall i, j | 0 <= i < j < |b| ensures b[i].path != b[j].path {
      assert b[i] in multiset(a) && b[j] in multiset(a);
      if b[i] == b[j] {
        CountTwo(b, i, j);
        var k, m := Twice(a, b[i]);
      } else {
        var k :| 0 <= k < |a| && a[k] == b[i];
        var m :| 0 <= m < |a| && a[m] == b[j];
      }
    }
  }

  lemma {:induction false} SameMembers<T>(a: seq<T>, b: seq<T>)
    requires multiset(a) == multiset(b)
    ensures |a| == |b| && forall x :: x in a <==> x in b
  {
    assert |multiset(a)| == |a| && |multiset(b)| == |b|;
    assert forall x :: x in a <==> x in multiset(a);
    assert forall x :: x in b <==> x in multiset(b);
  }

  /** Shuffling the lines changes neither acceptance nor the trie nor the rule count, and hence
      not the tables, which are a function of the trie. */
  lemma {:induction false} OrderIndependent(lines: seq<seq<Byte>>, shuffled: seq<seq<Byte>>)
    requires multiset(lines) == multiset(shuffled)
    ensures AcceptedList(lines) <==> AcceptedList(shuffled)
    ensures CompiledTrie(lines) == CompiledTrie(shuffled)
    ensures |RulesOf(lines)| == |RulesOf(shuffled)|
  {
    hide ParseLine;
    var a, b := RulesOf(lines), RulesOf(shuffled);
    SameRules(lines, shuffled);
    SameMembers(a, b);
    SameMembers(lines, shuffled);
    assert NoneRejected(lines) <==> forall x :: x in lines ==> !ParseLine(x).Rejected?;
    assert NoneRejected(shuffled) <==> forall x :: x in shuffled ==> !ParseLine(x).Rejected?;
    if DistinctPaths(a) { SameDistinct(a, b); }
    if DistinctPaths(b) { SameDistinct(b, a); }
    SameTrie(a, b);
  }

  lemma {:induction false} SameTrie(a: seq<Rule>, b: seq<Rule>)
    requires forall x :: x in a <==> x in b
    ensures TrieOf(a) == TrieOf(b)
  {
    forall p ensures p in TrieOf(a) <==> p in TrieOf(b) {
      NodePathsMember(a, p);
      NodePathsMember(b, p);
    }
  }
}
