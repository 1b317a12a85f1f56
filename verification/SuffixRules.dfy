/** The Public Suffix List rule format, as the build script accepts it, and the rule trie that
    an accepted list denotes: a prefix-closed map from label paths to node flags. */
module SuffixRules {
  import opened ByteStrings

  const LEAF_FLAG: nat := 1
  const EXCEPTION_FLAG: nat := 2
  const MAX_LABEL_LEN: nat := 255

  /** A rule with its labels right to left, so that `path[0]` is the top-level label. */
  datatype Rule = Rule(path: Path, exception: bool)

  /** What one trimmed line of the list amounts to. */
  datatype Line = Skipped | Rejected | Accepted(rule: Rule)

  // ----- Splitting rule text into labels --------------------------------------------------

  /** Extends split text by one byte on the right. */
  function AppendByte(path: Path, c: Byte): (r: Path)
    requires path != []
    ensures r != []
  {
    if c == DOT then [[]] + path else [path[0] + [c]] + path[1..]
  }

  /** The dot-separated pieces of `text`, rightmost first. */
  function RSplit(text: seq<Byte>): (path: Path)
    ensures path != []
  {
    if text == [] then [[]] else AppendByte(RSplit(text[..|text| - 1]), text[|text| - 1])
  }

  /** The inverse of `RSplit`. */
  function Render(path: Path): seq<Byte>
    requires path != []
  {
    if |path| == 1 then path[0] else Render(path[1..]) + [DOT] + path[0]
  }

  lemma {:induction false} RenderRSplit(text: seq<Byte>)
    ensures Render(RSplit(text)) == text
  {
    if text != [] {
      var before := RSplit(text[..|text| - 1]);
      var c := text[|text| - 1];
      RenderRSplit(text[..|text| - 1]);
      assert text == text[..|text| - 1] + [c];
      if c == DOT {
        assert RSplit(text)[1..] == before;
      } else if |before| > 1 {
        assert RSplit(text)[1..] == before[1..];
      }
    }
  }

  lemma {:induction false} RSplitAtDot(left: seq<Byte>, right: seq<Byte>)
    ensures RSplit(left + [DOT] + right) == RSplit(right) + RSplit(left)
  {
    var text := left + [DOT] + right;
    if right == [] {
      assert text[..|text| - 1] == left;
    } else {
      var shorter, c := right[..|right| - 1], right[|right| - 1];
      assert text[..|text| - 1] == left + [DOT] + shorter;
      RSplitAtDot(left, shorter);
      AppendByteLeft(RSplit(shorter), RSplit(left), c);
    }
  }

  lemma {:induction false} AppendByteLeft(a: Path, b: Path, c: Byte)
    requires a != []
    ensures AppendByte(a + b, c) == AppendByte(a, c) + b
  {
  }

  lemma {:induction false} SingleLabel(b: Byte)
    requires b != DOT
    ensures RSplit([b]) == [[b]]
  {
    var text: seq<Byte>, empty: Path := [b], [[]];
    assert RSplit(text[..0]) == empty;
    assert RSplit(text) == AppendByte(empty, b) == [empty[0] + [b]];
    assert empty[0] + [b] == [b];
  }

  lemma {:induction false} RSplitBytes(text: seq<Byte>, i: nat, b: Byte)
    requires i < |RSplit(text)| && b in RSplit(text)[i]
    ensures b in text && b != DOT
  {
    if text != [] {
      var before := RSplit(text[..|text| - 1]);
      var c := text[|text| - 1];
      if c == DOT {
        RSplitBytes(text[..|text| - 1], i - 1, b);
      } else if i > 0 || b in before[0] {
        RSplitBytes(text[..|text| - 1], i, b);
      }
    }
  }

  // ----- The line format ------------------------------------------------------------------

  predicate LowercaseAscii(text: seq<Byte>) {
    forall b | b in text :: b < 128 && !(65 <= b <= 90)
  }

  /** A wildcard may only be a whole leftmost label. */
  predicate WildcardLeftmost(text: seq<Byte>) {
    STAR in text ==>
      |text| >= 2 && text[0] == STAR && text[1] == DOT && STAR !in text[2..]
  }

  predicate LabelFits(l: Label) {
    l != [] && |l| <= MAX_LABEL_LEN
  }

  predicate AllFit(path: Path) {
    forall i | 0 <= i < |path| :: LabelFits(path[i])
  }

  predicate IsSkipped(line: seq<Byte>) {
    line == [] || (|line| >= 2 && line[0] == SLASH && line[1] == SLASH)
  }

  function RuleText(line: seq<Byte>): seq<Byte>
    requires line != []
  {
    if line[0] == BANG then line[1..] else line
  }

  function ParseLine(line: seq<Byte>): Line {
    if IsSkipped(line) then
      Skipped
    else
      var text := RuleText(line);
      var path := RSplit(text);
      var exception := line[0] == BANG;
      if && text != [] && LowercaseAscii(text) && WildcardLeftmost(text)
         && AllFit(path)
         && (exception ==> |path| > 1)
      then Accepted(Rule(path, exception))
      else Rejected
  }

  /** What the checks on a line buy: wildcards are whole leftmost labels that never
      stand alone, exceptions have a parent, and every label is short, non-empty and dot-free. */
  ghost predicate WellFormedRule(r: Rule) {
    && r.path != []
    && (r.exception ==> |r.path| >= 2)
    && (forall i :: 0 <= i < |r.path| ==>
          LabelFits(r.path[i]) && DOT !in r.path[i] && LowercaseAscii(r.path[i]))
    && (forall i :: 0 <= i < |r.path| && STAR in r.path[i] ==>
          i == |r.path| - 1 && i > 0 && r.path[i] == WILDCARD)
  }

  lemma {:induction false} AcceptedIsWellFormed(line: seq<Byte>)
    requires ParseLine(line).Accepted?
    ensures WellFormedRule(ParseLine(line).rule)
  {
    var text := RuleText(line);
    var path := RSplit(text);
    hide RSplit;
    forall i | 0 <= i < |path| ensures DOT !in path[i] && LowercaseAscii(path[i]) {
      forall b | b in path[i] ensures b in text && b != DOT {
        RSplitBytes(text, i, b);
      }
    }
    forall i | 0 <= i < |path| && STAR in path[i]
      ensures i == |path| - 1 && i > 0 && path[i] == WILDCARD
    {
      RSplitBytes(text, i, STAR);
      var rest := text[2..];
      assert text == [STAR] + [DOT] + rest;
      RSplitAtDot([STAR], rest);
      SingleLabel(STAR);
      if i < |path| - 1 {
        assert path[i] == RSplit(rest)[i];
        RSplitBytes(rest, i, STAR);
      }
    }
  }

  /** The line that writes a rule. */
  function LineOf(r: Rule): seq<Byte>
    requires r.path != []
  {
    (if r.exception then [BANG] else []) + Render(r.path)
  }

  /** A line is determined by the rule read from it: no two lines collide. */
  lemma {:induction false} LineFromRule(line: seq<Byte>)
    requires ParseLine(line).Accepted?
    ensures line == LineOf(ParseLine(line).rule)
  {
    RenderRSplit(RuleText(line));
  }

  lemma {:induction false} DotFreeIsOneLabel(l: Label)
    requires DOT !in l
    ensures RSplit(l) == [l]
  {
    if l != [] {
      var front, c := l[..|l| - 1], l[|l| - 1];
      DotFreeIsOneLabel(front);
      assert l == front + [c];
    }
  }

  lemma {:induction false} RSplitRender(path: Path)
    requires path != [] && forall i :: 0 <= i < |path| ==> DOT !in path[i]
    ensures RSplit(Render(path)) == path
  {
    DotFreeIsOneLabel(path[0]);
    if |path| > 1 {
      RSplitRender(path[1..]);
      RSplitAtDot(Render(path[1..]), path[0]);
      assert path == [path[0]] + path[1..];
    }
  }

  /** The last label of the path is written first, with a full stop behind it. */
  lemma {:induction false} RenderLeftmost(path: Path)
    requires |path| > 1
    ensures Render(path) == Last(path) + [46] + Render(Init(path))
  {
    if |path| > 2 {
      RenderLeftmost(path[1..]);
      assert Init(path)[1..] == Init(path[1..]) && Last(path[1..]) == Last(path);
      var a, b := Last(path) + [DOT], Render(Init(path[1..]));
      assert Render(path) == (a + b) + [DOT] + path[0];
      assert (a + b) + [DOT] + path[0] == a + (b + [DOT] + path[0]);
    }
  }

  lemma {:induction false} RenderBytes(path: Path, b: Byte)
    requires path != [] && b in Render(path)
    ensures b == DOT || exists i :: 0 <= i < |path| && b in path[i]
  {
    if |path| > 1 && b != DOT && b !in path[0] {
      RenderBytes(path[1..], b);
      var i :| 0 <= i < |path[1..]| && b in path[1..][i];
      assert b in path[i + 1];
    }
  }

  lemma {:induction false} RenderWildcard(r: Rule)
    requires WellFormedRule(r)
    ensures WildcardLeftmost(Render(r.path)) && LowercaseAscii(Render(r.path))
  {
    var text := Render(r.path);
    forall b | b in text ensures b < 128 && !(65 <= b <= 90) { RenderBytes(r.path, b); }
    if STAR in text {
      RenderBytes(r.path, STAR);
      var i :| 0 <= i < |r.path| && STAR in r.path[i];
      RenderLeftmost(r.path);
      var rest := Render(Init(r.path));
      assert text == WILDCARD + [DOT] + rest && text[2..] == rest;
      if STAR in rest {
        RenderBytes(Init(r.path), STAR);
      }
    }
  }

  /** Every rule with short lowercase ASCII labels is read back from the line that writes it,
      unless that line is a comment or shows a plain rule as an exception: the checks refuse
      nothing else. */
  lemma {:induction false} RuleRoundTrip(r: Rule)
    requires r.path != [] && (r.exception ==> |r.path| >= 2)
    requires forall i :: 0 <= i < |r.path| ==> 1 <= |r.path[i]| <= 255
    requires forall i, b :: 0 <= i < |r.path| && b in r.path[i] ==> b < 128 && !(65 <= b <= 90) && b != 46
    requires forall i :: 0 <= i < |r.path| && 42 in r.path[i] ==>
                           i == |r.path| - 1 && i > 0 && r.path[i] == [42]
    requires !r.exception ==> !([33] <= LineOf(r)) && !([47, 47] <= LineOf(r))
    ensures ParseLine(LineOf(r)) == Accepted(r)
  {
    hide WildcardLeftmost, Render;
    RSplitRender(r.path);
    RenderWildcard(r);
    RenderNonEmpty(r.path);
    hide LowercaseAscii;
    var line := LineOf(r);
    assert RuleText(line) == Render(r.path);
    assert !IsSkipped(line) by { NotSkipped(line); }
  }

  lemma {:induction false} RenderNonEmpty(path: Path)
    requires path != [] && path[0] != []
    ensures Render(path) != []
  {
  }

  lemma {:induction false} NotSkipped(line: seq<Byte>)
    ensures IsSkipped(line) <==> line == [] || [47, 47] <= line
  {
    assert [47, 47] <= line <==> |line| >= 2 && line[..2] == [47, 47];
  }

  /** The line format in bytes: blank lines and `//` lines are skipped, and a line is read as a
      rule exactly when it writes that rule and the rule keeps to the checks. */
  lemma {:induction false} ParsedExactly(line: seq<Byte>, r: Rule)
    ensures ParseLine(line).Skipped? <==> line == [] || [47, 47] <= line
    ensures ParseLine(line) == Accepted(r) <==>
              && r.path != [] && line == (if r.exception then [33] else []) + Render(r.path)
              && (if r.exception then |r.path| >= 2 else !([33] <= line) && !([47, 47] <= line))
              && (forall i :: 0 <= i < |r.path| ==> 1 <= |r.path[i]| <= 255)
              && (forall i, b :: 0 <= i < |r.path| && b in r.path[i] ==>
                    b < 128 && !(65 <= b <= 90) && b != 46)
              && (forall i :: 0 <= i < |r.path| && 42 in r.path[i] ==>
                    i == |r.path| - 1 && i > 0 && r.path[i] == [42])
  {
    hide WildcardLeftmost, Render, RSplit;
    NotSkipped(line);
    if ParseLine(line) == Accepted(r) {
      AcceptedIsWellFormed(line);
      LineFromRule(line);
    }
    if && r.path != [] && line == (if r.exception then [33] else []) + Render(r.path)
       && (if r.exception then |r.path| >= 2 else !([33] <= line) && !([47, 47] <= line))
       && (forall i :: 0 <= i < |r.path| ==> 1 <= |r.path[i]| <= 255)
       && (forall i, b :: 0 <= i < |r.path| && b in r.path[i] ==> b < 128 && !(65 <= b <= 90) && b != 46)
       && (forall i :: 0 <= i < |r.path| && 42 in r.path[i] ==>
             i == |r.path| - 1 && i > 0 && r.path[i] == [42])
    {
      assert line == LineOf(r);
      RuleRoundTrip(r);
    }
  }

  // ----- Rule lists -----------------------------------------------------------------------

  ghost function RulesOf(lines: seq<seq<Byte>>): seq<Rule> {
    if lines == [] then
      []
    else
      var before := RulesOf(lines[..|lines| - 1]);
      match ParseLine(lines[|lines| - 1])
      case Accepted(rule) => before + [rule]
      case _ => before
  }

  /** No two rules share a path, whether or not they are exceptions. */
  ghost predicate DistinctPaths(rules: seq<Rule>) {
    forall i, j :: 0 <= i < j < |rules| ==> rules[i].path != rules[j].path
  }

  ghost predicate NoneRejected(lines: seq<seq<Byte>>) {
    forall i :: 0 <= i < |lines| ==> !ParseLine(lines[i]).Rejected?
  }

  /** The lists for which the build succeeds. */
  ghost predicate AcceptedList(lines: seq<seq<Byte>>) {
    NoneRejected(lines) && DistinctPaths(RulesOf(lines)) && RulesOf(lines) != []
  }

  lemma {:induction false} RulesOfMember(lines: seq<seq<Byte>>, r: Rule)
    ensures r in RulesOf(lines) <==> exists i :: 0 <= i < |lines| && ParseLine(lines[i]) == Accepted(r)
  {
    hide ParseLine;
    if lines != [] {
      var front, last := lines[..|lines| - 1], lines[|lines| - 1];
      RulesOfMember(front, r);
      if i :| 0 <= i < |lines| && ParseLine(lines[i]) == Accepted(r) {
        assert i < |front| ==> ParseLine(front[i]) == Accepted(r);
      }
      if i :| 0 <= i < |front| && ParseLine(front[i]) == Accepted(r) {
        assert ParseLine(lines[i]) == Accepted(r);
      }
    }
  }

  /** No two lines write rules for one path. */
  ghost predicate DistinctLines(lines: seq<seq<Byte>>) {
    forall i, j :: 0 <= i < j < |lines| && ParseLine(lines[i]).Accepted? && ParseLine(lines[j]).Accepted? ==>
                     ParseLine(lines[i]).rule.path != ParseLine(lines[j]).rule.path
  }

  lemma {:induction false} DistinctExactly(lines: seq<seq<Byte>>)
    ensures DistinctPaths(RulesOf(lines)) <==> DistinctLines(lines)
  {
    hide ParseLine, DistinctPaths, DistinctLines;
    if lines == [] {
      NoLines();
    } else {
      var n := |lines| - 1;
      var front, last := lines[..n], ParseLine(lines[n]);
      DistinctExactly(front);
      DistinctLinesSnoc(lines);
      if last.Accepted? {
        NewPath(front, last.rule.path);
        DistinctSnoc(RulesOf(front), last.rule);
      }
    }
  }

  lemma {:induction false} NoLines()
    ensures DistinctPaths([]) && DistinctLines([])
  {
  }

  lemma {:induction false} RuleCount(lines: seq<seq<Byte>>)
    ensures |RulesOf(lines)| == |set i | 0 <= i < |lines| && ParseLine(lines[i]).Accepted?|
  {
    hide ParseLine;
    if lines != [] {
      var n := |lines| - 1;
      RuleCount(lines[..n]);
      var fewer := set i | 0 <= i < n && ParseLine(lines[..n][i]).Accepted?;
      assert (set i | 0 <= i < |lines| && ParseLine(lines[i]).Accepted?) ==
             fewer + if ParseLine(lines[n]).Accepted? then {n} else {};
    }
  }

  lemma {:induction false} DistinctSnoc(rules: seq<Rule>, r: Rule)
    ensures DistinctPaths(rules + [r]) <==>
              DistinctPaths(rules) && forall i :: 0 <= i < |rules| ==> rules[i].path != r.path
  {
    var all := rules + [r];
    if DistinctPaths(all) {
      forall i | 0 <= i < |rules| ensures rules[i].path != r.path {
        assert all[i].path != all[|rules|].path;
      }
      forall i, j | 0 <= i < j < |rules| ensures rules[i].path != rules[j].path {
        assert all[i].path != all[j].path;
      }
    }
  }

  lemma {:induction false} DistinctLinesSnoc(lines: seq<seq<Byte>>)
    requires lines != []
    ensures var n := |lines| - 1;
            DistinctLines(lines) <==>
              && DistinctLines(lines[..n])
              && (ParseLine(lines[n]).Accepted? ==>
                    forall i :: 0 <= i < n && ParseLine(lines[i]).Accepted? ==>
                                  ParseLine(lines[i]).rule.path != ParseLine(lines[n]).rule.path)
  {
    hide ParseLine;
    var front := lines[..|lines| - 1];
    assert forall i :: 0 <= i < |front| ==> front[i] == lines[i];
  }

  lemma {:induction false} NewPath(lines: seq<seq<Byte>>, p: Path)
    ensures (forall i :: 0 <= i < |RulesOf(lines)| ==> RulesOf(lines)[i].path != p) <==>
            (forall i :: 0 <= i < |lines| && ParseLine(lines[i]).Accepted? ==> ParseLine(lines[i]).rule.path != p)
  {
    hide ParseLine, RulesOf;
    forall i | 0 <= i < |RulesOf(lines)|
      ensures exists j :: 0 <= j < |lines| && ParseLine(lines[j]) == Accepted(RulesOf(lines)[i])
    {
      RulesOfMember(lines, RulesOf(lines)[i]);
    }
    forall j | 0 <= j < |lines| && ParseLine(lines[j]).Accepted?
      ensures ParseLine(lines[j]).rule in RulesOf(lines)
    {
      RulesOfMember(lines, ParseLine(lines[j]).rule);
    }
  }

  /** What an accepted list is, line by line, and how many rules it has. */
  lemma {:induction false} AcceptedExactly(lines: seq<seq<Byte>>)
    ensures AcceptedList(lines) <==>
              && (forall i :: 0 <= i < |lines| ==> !ParseLine(lines[i]).Rejected?)
              && (forall i, j :: 0 <= i < j < |lines| &&
                                 ParseLine(lines[i]).Accepted? && ParseLine(lines[j]).Accepted? ==>
                    ParseLine(lines[i]).rule.path != ParseLine(lines[j]).rule.path)
              && (exists i :: 0 <= i < |lines| && ParseLine(lines[i]).Accepted?)
    ensures |RulesOf(lines)| == |set i | 0 <= i < |lines| && ParseLine(lines[i]).Accepted?|
  {
    hide ParseLine, RulesOf;
    DistinctExactly(lines);
    RuleCount(lines);
    var accepted := set i | 0 <= i < |lines| && ParseLine(lines[i]).Accepted?;
    if i :| 0 <= i < |lines| && ParseLine(lines[i]).Accepted? {
      assert i in accepted;
    }
    if accepted != {} {
      var i :| i in accepted;
    }
  }

  ghost predicate WellFormedRules(rules: seq<Rule>) {
    && (forall i :: 0 <= i < |rules| ==> WellFormedRule(rules[i]))
    && DistinctPaths(rules)
  }

  lemma {:induction false} RulesOfWellFormed(lines: seq<seq<Byte>>)
    ensures forall i :: 0 <= i < |RulesOf(lines)| ==> WellFormedRule(RulesOf(lines)[i])
  {
    if lines != [] {
      RulesOfWellFormed(lines[..|lines| - 1]);
      if ParseLine(lines[|lines| - 1]).Accepted? {
        AcceptedIsWellFormed(lines[|lines| - 1]);
      }
    }
  }

  // ----- The trie a rule list denotes -----------------------------------------------------

  /** The value of a trie: its node paths, each with the flags of the node. */
  type TrieMap = map<Path, nat>

  ghost function RuleFlags(exception: bool): nat {
    LEAF_FLAG + if exception then EXCEPTION_FLAG else 0
  }

  ghost function FlagsFor(rules: seq<Rule>, p: Path): nat {
    if Rule(p, true) in rules then RuleFlags(true)
    else if Rule(p, false) in rules then RuleFlags(false)
    else 0
  }

  /** The root and every prefix of every rule. */
  ghost function NodePaths(rules: seq<Rule>): set<Path> {
    (set r, k | r in rules && 0 <= k <= |r.path| :: r.path[..k]) + {[]}
  }

  ghost function TrieOf(rules: seq<Rule>): TrieMap {
    map p | p in NodePaths(rules) :: FlagsFor(rules, p)
  }

  lemma {:induction false} NodePathsMember(rules: seq<Rule>, p: Path)
    ensures p in NodePaths(rules) <==> p == [] || exists r :: r in rules && p <= r.path
  {
    if r :| r in rules && p <= r.path {
      assert p == r.path[..|p|];
    }
  }

  /** The trie of a list, line by line: its nodes are the root and the prefixes of the rules, and
      a node is flagged 1 by a plain rule, 3 by an exception and 0 by none. */
  lemma {:induction false} TrieExactly(lines: seq<seq<Byte>>, p: Path)
    ensures p in TrieOf(RulesOf(lines)) <==>
              || p == []
              || exists i :: 0 <= i < |lines| && ParseLine(lines[i]).Accepted? && p <= ParseLine(lines[i]).rule.path
    ensures p in TrieOf(RulesOf(lines)) ==>
              TrieOf(RulesOf(lines))[p] ==
                if exists i :: 0 <= i < |lines| && ParseLine(lines[i]) == Accepted(Rule(p, true)) then 3
                else if exists i :: 0 <= i < |lines| && ParseLine(lines[i]) == Accepted(Rule(p, false)) then 1
                else 0
  {
    hide ParseLine, RulesOf;
    var rules := RulesOf(lines);
    NodePathsMember(rules, p);
    RulesOfMember(lines, Rule(p, true));
    RulesOfMember(lines, Rule(p, false));
    if r :| r in rules && p <= r.path {
      RulesOfMember(lines, r);
    }
    if i :| 0 <= i < |lines| && ParseLine(lines[i]).Accepted? && p <= ParseLine(lines[i]).rule.path {
      RulesOfMember(lines, ParseLine(lines[i]).rule);
    }
  }

  /** Tries that the table generator can be given: rooted, prefix-closed, with byte flags and
      labels short enough for an edge record. */
  ghost predicate WellFormedTrie(t: TrieMap) {
    && [] in t
    && (forall p {:trigger Init(p)} :: p in t && p != [] ==> Init(p) in t && |Last(p)| <= MAX_LABEL_LEN)
    && (forall p :: p in t ==> t[p] < 256)
  }

  lemma {:induction false} TrieOfWellFormed(rules: seq<Rule>)
    requires WellFormedRules(rules)
    ensures WellFormedTrie(TrieOf(rules))
  {
    var t := TrieOf(rules);
    forall p | p in t && p != [] ensures Init(p) in t && |Last(p)| <= MAX_LABEL_LEN {
      NodePathsMember(rules, p);
      NodePathsMember(rules, Init(p));
      var r :| r in rules && p <= r.path;
      assert Init(p) <= r.path && Last(p) == r.path[|p| - 1];
    }
  }

  ghost function ChildLabels(t: TrieMap, p: Path): set<Label> {
    set q | q in t && |q| == |p| + 1 && q[..|p|] == p :: q[|p|]
  }

  lemma {:induction false} ChildLabelsMember(t: TrieMap, p: Path, l: Label)
    ensures l in ChildLabels(t, p) <==> p + [l] in t
  {
    if p + [l] in t {
      assert (p + [l])[..|p|] == p;
    }
    if l in ChildLabels(t, p) {
      var q :| q in t && |q| == |p| + 1 && q[..|p|] == p && q[|p|] == l;
      assert q == p + [l];
    }
  }
}
