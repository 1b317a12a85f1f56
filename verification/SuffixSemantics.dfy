/** The Public Suffix List's own matching algorithm over rules, and its agreement with what the
    tables answer. */
module SuffixSemantics {
  import opened ByteStrings
  import opened SuffixRules
  import opened SuffixLookup
  import opened Words

  /** A domain matches a rule label by label from the right, a wildcard matching any label. */
  ghost predicate Matches(r: Rule, d: Path) {
    && |r.path| <= |d|
    && forall k :: 0 <= k < |r.path| ==> r.path[k] == d[k] || r.path[k] == WILDCARD
  }

  /** A matching rule that prevails: an exception if any exception matches, otherwise one with
      the most labels. */
  ghost predicate Prevails(rules: seq<Rule>, d: Path, r: Rule) {
    && r in rules && Matches(r, d)
    && if ExceptionMatches(rules, d) then r.exception
       else forall s :: s in rules && Matches(s, d) ==> |s.path| <= |r.path|
  }

  ghost predicate ExceptionMatches(rules: seq<Rule>, d: Path) {
    exists r :: r in rules && r.exception && Matches(r, d)
  }

  /** An exception rule counts without its leftmost label. */
  ghost function SuffixLabels(r: Rule): int {
    if r.exception then |r.path| - 1 else |r.path|
  }

  /** The last `len` bytes of the written domain are its last `k` labels. */
  ghost predicate Spells(d: Path, k: int, len: nat)
    requires 1 <= k <= |d|
  {
    len <= |Render(d)| && Render(d)[|Render(d)| - len..] == Render(d[..k])
  }

  lemma {:induction false} SpellsMeans(d: Path, k: nat, len: nat)
    requires 1 <= k <= |d|
    ensures Spells(d, k, len) <==> len == DomainLen(d, k)
  {
    SuffixText(d, k, len);
  }

  /** The algorithm's answer: the suffix of a prevailing rule, or one label if none matches. */
  ghost predicate IsPublicSuffix(rules: seq<Rule>, d: Path, info: Info)
    requires WellFormedRules(rules) && d != []
  {
    if exists r :: r in rules && Matches(r, d) then
      info.known && exists r :: Prevails(rules, d, r) && Spells(d, SuffixLabels(r), info.len)
    else
      !info.known && Spells(d, 1, info.len)
  }

  /** Every matching exception is backed by one that names the domain's labels literally. */
  ghost predicate ExceptionsLiteral(rules: seq<Rule>, d: Path) {
    ExceptionMatches(rules, d) ==> exists r :: r in rules && r.exception && r.path <= d
  }

  // ----- Rules seen through the trie ------------------------------------------------------

  lemma {:induction false} MatchForms(r: Rule, d: Path)
    requires WellFormedRule(r)
    ensures Matches(r, d) <==>
              || r.path <= d
              || (2 <= |r.path| <= |d| && r.path == d[..|r.path| - 1] + [WILDCARD])
  {
    var n := |r.path|;
    forall k | 0 <= k < n && r.path[k] == WILDCARD ensures k == n - 1 > 0 {
      assert STAR in r.path[k];
    }
    if Matches(r, d) && r.path[n - 1] == WILDCARD {
      assert r.path == d[..n - 1] + [WILDCARD];
    }
    if Matches(r, d) && r.path[n - 1] != WILDCARD {
      assert r.path == d[..n];
    }
  }

  lemma {:induction false} LeafMeansRule(rules: seq<Rule>, p: Path)
    ensures IsLeaf(TrieOf(rules), p) <==> Rule(p, true) in rules || Rule(p, false) in rules
    ensures Rule(p, true) in rules <==>
              IsLeaf(TrieOf(rules), p) && And(TrieOf(rules)[p], EXCEPTION_FLAG) != 0
  {
    NodePathsMember(rules, p);
    assert And(1, 1) == 1 && And(3, 1) == 1 && And(1, 2) == 0 && And(3, 2) == 2;
  }

  lemma {:induction false} HitMeansMatch(rules: seq<Rule>, d: Path, k: nat)
    requires WellFormedRules(rules) && 1 <= k <= |d|
    ensures Hit(TrieOf(rules), d, k) <==> exists r :: r in rules && Matches(r, d) && |r.path| == k
    ensures Stop(TrieOf(rules), d, k) <==> Rule(d[..k], true) in rules
  {
    var p, w := d[..k], d[..k - 1] + [WILDCARD];
    LeafMeansRule(rules, p);
    LeafMeansRule(rules, w);
    forall r | r in rules && |r.path| == k ensures Matches(r, d) <==> r.path == p || (k >= 2 && r.path == w) {
      assert WellFormedRule(r);
      MatchForms(r, d);
    }
    if r :| r in rules && |r.path| == k && (r.path == p || r.path == w) {
      assert r == Rule(r.path, true) || r == Rule(r.path, false);
    }
  }

  lemma {:induction false} LongerSuffix(d: Path, j: nat, k: nat)
    requires 1 <= j < k <= |d|
    ensures DomainLen(d, j) < DomainLen(d, k)
  {
    hide DomainLen;
    LenGrows(d, k - 1);
    if j < k - 1 {
      LongerSuffix(d, j, k - 1);
    }
  }

  lemma {:induction false} LiteralExceptionStops(rules: seq<Rule>, d: Path, r: Rule)
    requires WellFormedRules(rules) && r in rules && r.exception && r.path <= d
    ensures 1 <= |r.path| <= |d| && Stop(TrieOf(rules), d, |r.path|)
  {
    assert r == Rule(d[..|r.path|], true);
    HitMeansMatch(rules, d, |r.path|);
  }

  lemma {:induction false} StoppedIsCorrect(rules: seq<Rule>, d: Path, info: Info, k: nat)
    requires WellFormedRules(rules) && 2 <= k <= |d|
    requires Stop(TrieOf(rules), d, k) && info == Info(DomainLen(d, k - 1), true)
    ensures IsPublicSuffix(rules, d, info) && ExceptionsLiteral(rules, d)
  {
    hide Spells, DomainLen;
    var r := Rule(d[..k], true);
    HitMeansMatch(rules, d, k);
    SpellsMeans(d, k - 1, info.len);
    assert r in rules && Matches(r, d);
    assert Prevails(rules, d, r) && SuffixLabels(r) == k - 1;
  }

  lemma {:induction false} LongestIsCorrect(rules: seq<Rule>, d: Path, info: Info)
    requires WellFormedRules(rules) && d != [] && !ExceptionMatches(rules, d)
    requires info == Best(TrieOf(rules), d, |d|)
    ensures IsPublicSuffix(rules, d, info)
  {
    hide Hit, Stop, Matches, TrieOf, Spells, DomainLen;
    var k := BestIsLongest(TrieOf(rules), d, |d|);
    SpellsMeans(d, if k > 0 then k else 1, info.len);
    forall r | r in rules && Matches(r, d) ensures 1 <= |r.path| <= k {
      MatchLength(rules, r, d);
      HitMeansMatch(rules, d, |r.path|);
    }
    if k > 0 {
      HitMeansMatch(rules, d, k);
      var r :| r in rules && Matches(r, d) && |r.path| == k;
      assert Prevails(rules, d, r) && SuffixLabels(r) == k;
    }
  }

  lemma {:induction false} MatchLength(rules: seq<Rule>, r: Rule, d: Path)
    requires WellFormedRules(rules) && r in rules && Matches(r, d)
    ensures WellFormedRule(r) && 1 <= |r.path| <= |d|
  {
  }

  /** A matching wildcard exception is taken for a plain wildcard, which is one label too many. */
  lemma {:induction false} LongestIsTooLong(rules: seq<Rule>, d: Path, info: Info)
    requires WellFormedRules(rules) && d != [] && ExceptionMatches(rules, d)
    requires info == Best(TrieOf(rules), d, |d|)
    ensures !IsPublicSuffix(rules, d, info)
  {
    hide Hit, Stop, Matches, TrieOf, Spells, DomainLen;
    var k := BestIsLongest(TrieOf(rules), d, |d|);
    forall r | Prevails(rules, d, r)
      ensures 1 <= SuffixLabels(r) <= |d| && !Spells(d, SuffixLabels(r), info.len)
    {
      MatchLength(rules, r, d);
      HitMeansMatch(rules, d, |r.path|);
      LongerSuffix(d, |r.path| - 1, k);
      SpellsMeans(d, |r.path| - 1, info.len);
    }
  }

  /** The lookup answers as the Public Suffix List algorithm does, on every domain whose matching
      exceptions include a literal one, and on no other. */
  lemma {:induction false} LookupIsPublicSuffix(rules: seq<Rule>, d: Path, info: Info)
    requires WellFormedRules(rules) && d != [] && Answers(TrieOf(rules), d, info)
    ensures IsPublicSuffix(rules, d, info) <==> ExceptionsLiteral(rules, d)
  {
    hide Stop, IsPublicSuffix, TrieOf, WellFormedRules;
    var k := FindFirstStop(TrieOf(rules), d, |d|);
    if k > 0 {
      StopDepth(TrieOf(rules), d, k);
      StoppedIsCorrect(rules, d, info, k);
    } else {
      forall r | r in rules && r.exception ensures !(r.path <= d) {
        if r.path <= d { LiteralExceptionStops(rules, d, r); }
      }
      if ExceptionMatches(rules, d) {
        LongestIsTooLong(rules, d, info);
      } else {
        LongestIsCorrect(rules, d, info);
      }
    }
  }

  /** A list without wildcard exceptions is looked up correctly on every domain. */
  lemma {:induction false} LiteralListIsCorrect(rules: seq<Rule>, d: Path, info: Info)
    requires WellFormedRules(rules) && d != [] && Answers(TrieOf(rules), d, info)
    requires forall r :: r in rules && r.exception ==> Last(r.path) != WILDCARD
    ensures IsPublicSuffix(rules, d, info)
  {
    LookupIsPublicSuffix(rules, d, info);
    if r :| r in rules && r.exception && Matches(r, d) {
      assert WellFormedRule(r);
      MatchForms(r, d);
    }
  }

  /** The rule `!*.x` passes every check of the parser, yet the domain `a.x` is answered wrongly. */
  lemma {:induction false} WildcardExceptionFails(info: Info)
    ensures var line: seq<Byte> := [33, 42, 46, 120];
            var rule, d := Rule([[120], [42]], true), [[120], [97]];
            && ParseLine(line) == Accepted(rule)
            && (Answers(TrieOf([rule]), d, info) ==>
                  WellFormedRules([rule]) && !IsPublicSuffix([rule], d, info))
  {
    hide IsPublicSuffix, Answers, TrieOf, ParseLine;
    var rule, d: Path := Rule([[120], [42]], true), [[120], [97]];
    WildcardLine();
    AcceptedIsWellFormed([33, 42, 46, 120]);
    assert WellFormedRules([rule]);
    if Answers(TrieOf([rule]), d, info) {
      LookupIsPublicSuffix([rule], d, info);
      assert Matches(rule, d);
      assert rule.path[1] == [42] && d[1] == [97] && rule.path[1][0] != d[1][0];
      assert !(rule.path <= d);
    }
  }

  lemma {:induction false} WildcardLine()
    ensures ParseLine([33, 42, 46, 120]) == Accepted(Rule([[120], [42]], true))
  {
    hide RSplit;
    var line: seq<Byte>, text: seq<Byte> := [33, 42, 46, 120], [42, 46, 120];
    assert RuleText(line) == text;
    assert text == [STAR] + [DOT] + [120];
    RSplitAtDot([STAR], [120]);
    SingleLabel(STAR);
    SingleLabel(120);
    assert RSplit(text) == [[120], [42]];
  }
}
