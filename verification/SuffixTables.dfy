/** The packed lookup tables: their bit layout, the interned label blob, and the tables that a
    trie denotes when its nodes are numbered in shortlex order of their paths. */
module SuffixTables {
  import opened ByteStrings
  import opened SuffixRules
  import opened Words

  const MAX_EDGE_COUNT: nat := 0xffff
  const MAX_LABEL_OFFSET: nat := 0x00ff_ffff

  datatype Tables = Tables(metadata: seq<nat>, edges: seq<nat>, labels: seq<Byte>)

  // ----- Bit layout -----------------------------------------------------------------------

  function PackNode(edgeStart: nat, edgeCount: nat, flags: nat): nat {
    Or(Or(edgeStart, Shl(edgeCount, 32)), Shl(flags, 48))
  }

  function EdgeStart(metadata: nat): nat {
    And(metadata, 0xffff_ffff)
  }

  function EdgeCount(metadata: nat): nat {
    And(Shr(metadata, 32), 0xffff)
  }

  function NodeFlags(metadata: nat): nat {
    And(Shr(metadata, 48), 0xff)
  }

  function PackEdge(offset: nat, length: nat): nat {
    Or(Shl(offset, 8), length)
  }

  function LabelStart(edge: nat): nat {
    Shr(edge, 8)
  }

  function LabelLength(edge: nat): nat {
    And(edge, 0xff)
  }

  /** The three fields of a node word come back when each keeps to its width. */
  lemma {:induction false} NodeRoundTrip(edgeStart: nat, edgeCount: nat, flags: nat)
    requires edgeStart < 0x1_0000_0000 && edgeCount <= MAX_EDGE_COUNT && flags < 256
    ensures EdgeStart(PackNode(edgeStart, edgeCount, flags)) == edgeStart
    ensures EdgeCount(PackNode(edgeStart, edgeCount, flags)) == edgeCount
    ensures NodeFlags(PackNode(edgeStart, edgeCount, flags)) == flags
  {
    Widths();
    ThreeFields(edgeStart, edgeCount, flags, 32, 16, 8);
  }

  /** An edge start that just exceeds 32 bits loses its top bit to the edge count. */
  lemma {:induction false} NodeOverflow(low: nat, edgeCount: nat, flags: nat)
    requires low < 0x1_0000_0000 && edgeCount <= MAX_EDGE_COUNT && flags < 256
    ensures EdgeStart(PackNode(0x1_0000_0000 + low, edgeCount, flags)) == low
    ensures EdgeCount(PackNode(0x1_0000_0000 + low, edgeCount, flags)) > 0
  {
    Widths();
    TopBit();
    var spilled := Or(1, edgeCount);
    OrShifted(low, 1, edgeCount, 32);
    OrFits(1, edgeCount, 16);
    OrDisjoint(low, spilled, 32);
    assert PackNode(0x1_0000_0000 + low, edgeCount, flags) == PackNode(low, spilled, flags);
    NodeRoundTrip(low, spilled, flags);
  }

  lemma {:induction false} TopBit()
    ensures Shl(1, 32) == 0x1_0000_0000
  {
    assert Shl(1, 8) == 0x100 && Shl(1, 16) == 0x1_0000 && Shl(1, 24) == 0x100_0000;
  }

  lemma {:induction false} EdgeRoundTrip(offset: nat, length: nat)
    requires offset <= MAX_LABEL_OFFSET && length <= MAX_LABEL_LEN
    ensures LabelStart(PackEdge(offset, length)) == offset
    ensures LabelLength(PackEdge(offset, length)) == length
  {
    Widths();
    OrCommutes(Shl(offset, 8), length);
    OrDisjoint(length, offset, 8);
    AndLow(length, offset, 8);
    ShrHigh(length, offset, 8);
  }

  lemma {:induction false} HighWidths()
    ensures Pow2(24) == 0x100_0000 && Pow2(48) == 0x1_0000_0000_0000
  {
    Widths();
    Pow2Adds(16, 8);
    Pow2Adds(32, 16);
  }

  /** The value of a node word. */
  lemma {:induction false} NodeWord(edgeStart: nat, edgeCount: nat, flags: nat)
    requires edgeStart < 0x1_0000_0000 && edgeCount <= 0xffff && flags < 256
    ensures PackNode(edgeStart, edgeCount, flags) ==
            edgeStart + edgeCount * 0x1_0000_0000 + flags * 0x1_0000_0000_0000 < 0x1_0000_0000_0000_0000
  {
    hide Or, Shl, Pow2;
    Widths();
    HighWidths();
    ThreeFieldsSum(edgeStart, edgeCount, flags, 32, 16);
    ShlMeans(edgeCount, 32);
    ShlMeans(flags, 48);
  }

  /** The value of an edge word. */
  lemma {:induction false} EdgeWord(offset: nat, length: nat)
    requires length <= 255
    ensures PackEdge(offset, length) == offset * 256 + length
    ensures PackEdge(offset, length) < 0x1_0000_0000 <==> offset <= 0x00ff_ffff
  {
    hide Or, Shl, Pow2;
    Widths();
    OrCommutes(Shl(offset, 8), length);
    OrDisjoint(length, offset, 8);
    ShlMeans(offset, 8);
  }

  /** The fields that the reader takes from a word, as quotients and remainders. */
  lemma {:induction false} FieldsMean(word: nat)
    ensures EdgeStart(word) == word % 0x1_0000_0000
    ensures EdgeCount(word) == word / 0x1_0000_0000 % 0x1_0000
    ensures NodeFlags(word) == word / 0x1_0000_0000_0000 % 256
    ensures LabelStart(word) == word / 256 && LabelLength(word) == word % 256
  {
    hide And, Shr, Pow2;
    Widths();
    HighWidths();
    ShrMeans(word, 8);
    ShrMeans(word, 32);
    ShrMeans(word, 48);
    MaskMeans(word, 32);
    MaskMeans(word, 8);
    MaskMeans(Shr(word, 32), 16);
    MaskMeans(Shr(word, 48), 8);
  }

  /** An edge count comes back exactly when it is one that the generator does not refuse. */
  lemma {:induction false} CountExactly(edgeStart: nat, edgeCount: nat, flags: nat)
    requires edgeStart < 0x1_0000_0000 && flags < 256
    ensures EdgeCount(PackNode(edgeStart, edgeCount, flags)) == edgeCount <==> edgeCount <= MAX_EDGE_COUNT
  {
    hide EdgeCount, PackNode, EdgeStart, NodeFlags;
    FieldsMean(PackNode(edgeStart, edgeCount, flags));
    if edgeCount <= MAX_EDGE_COUNT {
      NodeRoundTrip(edgeStart, edgeCount, flags);
    }
  }

  /** A label offset comes back from a 32-bit edge word exactly when the generator does not
      refuse it. */
  lemma {:induction false} OffsetExactly(offset: nat, length: nat)
    requires length <= 255
    ensures LabelStart(PackEdge(offset, length) % 0x1_0000_0000) == offset <==> offset <= MAX_LABEL_OFFSET
    ensures LabelLength(PackEdge(offset, length) % 0x1_0000_0000) == length
  {
    hide LabelStart, LabelLength, PackEdge;
    EdgeWord(offset, length);
    var low, high := offset % 0x100_0000, offset / 0x100_0000;
    var word := low * 256 + length;
    assert PackEdge(offset, length) % 0x1_0000_0000 == word by {
      assert offset * 256 + length == word + high * 0x1_0000_0000;
    }
    FieldsMean(word);
    assert word / 256 == low && word % 256 == length;
  }

  // ----- Label interning ------------------------------------------------------------------

  /** The blob after interning `ls` in order: each label is appended at its first occurrence. */
  ghost function Blob(ls: seq<Label>): seq<Byte> {
    if ls == [] then
      []
    else
      var before, l := ls[..|ls| - 1], ls[|ls| - 1];
      Blob(before) + if l in before then [] else l
  }

  /** Where the blob keeps `l`. */
  ghost function Offset(ls: seq<Label>, l: Label): nat
    requires l in ls
  {
    var before := ls[..|ls| - 1];
    if l in before then Offset(before, l) else |Blob(before)|
  }

  ghost function EdgesOf(ls: seq<Label>): seq<nat> {
    seq(|ls|, e requires 0 <= e < |ls| => PackEdge(Offset(ls, ls[e]), |ls[e]|))
  }

  /** Interning stays within the 24 bits of an edge record. */
  ghost predicate OffsetsFit(ls: seq<Label>) {
    forall i {:trigger Blob(ls[..i])} ::
      0 <= i < |ls| && ls[i] !in ls[..i] ==> |Blob(ls[..i])| <= MAX_LABEL_OFFSET
  }

  lemma {:induction false} Snoc(ls: seq<Label>, l: Label)
    ensures (ls + [l])[..|ls|] == ls && (ls + [l])[|ls + [l]| - 1] == l
    ensures forall x :: x in ls + [l] <==> x in ls || x == l
    ensures Blob(ls + [l]) == Blob(ls) + if l in ls then [] else l
    ensures l !in ls ==> Offset(ls + [l], l) == |Blob(ls)|
    ensures forall x :: x in ls ==> Offset(ls + [l], x) == Offset(ls, x)
    ensures EdgesOf(ls + [l]) == EdgesOf(ls) + [PackEdge(Offset(ls + [l], l), |l|)]
    ensures OffsetsFit(ls + [l]) <==>
              OffsetsFit(ls) && (l in ls || |Blob(ls)| <= MAX_LABEL_OFFSET)
  {
    var longer := ls + [l];
    assert longer[..|ls|] == ls;
    forall i | 0 <= i < |longer| ensures longer[..i] == if i < |ls| then ls[..i] else ls {}
  }

  /** Every label reads back from the blob, whatever was interned after it. */
  lemma {:induction false} OffsetReadsLabel(ls: seq<Label>, l: Label)
    requires l in ls
    ensures Offset(ls, l) + |l| <= |Blob(ls)|
    ensures Blob(ls)[Offset(ls, l)..Offset(ls, l) + |l|] == l
  {
    var before := ls[..|ls| - 1];
    assert ls == before + [ls[|ls| - 1]];
    if l in before {
      OffsetReadsLabel(before, l);
    } else {
      assert l == ls[|ls| - 1];
    }
  }

  /** The labels in order of first occurrence. */
  ghost function Firsts(ls: seq<Label>): seq<Label> {
    if ls == [] then
      []
    else
      var before, l := ls[..|ls| - 1], ls[|ls| - 1];
      Firsts(before) + if l in before then [] else [l]
  }

  ghost function Concat(ls: seq<Label>): seq<Byte> {
    if ls == [] then [] else Concat(ls[..|ls| - 1]) + ls[|ls| - 1]
  }

  /** The blob holds every label once and nothing else. */
  lemma {:induction false} BlobStoresEachOnce(ls: seq<Label>)
    ensures Blob(ls) == Concat(Firsts(ls))
    ensures forall l :: l in Firsts(ls) <==> l in ls
    ensures forall i, j :: 0 <= i < j < |Firsts(ls)| ==> Firsts(ls)[i] != Firsts(ls)[j]
  {
    if ls != [] {
      var before, l := ls[..|ls| - 1], ls[|ls| - 1];
      BlobStoresEachOnce(before);
      assert ls == before + [l];
      if l in before {
        assert Firsts(ls) == Firsts(before) && Blob(ls) == Blob(before);
      } else {
        assert Firsts(ls)[..|Firsts(ls)| - 1] == Firsts(before);
      }
    }
  }

  lemma {:induction false} OffsetFits(ls: seq<Label>, l: Label)
    requires l in ls && OffsetsFit(ls)
    ensures Offset(ls, l) <= MAX_LABEL_OFFSET
  {
    hide Blob, EdgesOf, OffsetsFit;
    var before := ls[..|ls| - 1];
    assert ls == before + [ls[|ls| - 1]];
    Snoc(before, ls[|ls| - 1]);
    if l in before {
      OffsetFits(before, l);
    }
  }

  // ----- The tables of a trie -------------------------------------------------------------

  /** The labels of the edges when node `e + 1` is the target of edge `e`. */
  ghost function EdgeLabels(paths: seq<Path>): seq<Label>
    requires paths != [] && forall j :: 1 <= j < |paths| ==> paths[j] != []
  {
    seq(|paths| - 1, e requires 0 <= e < |paths| - 1 => Last(paths[e + 1]))
  }

  ghost function ChildCount(t: TrieMap, p: Path): nat {
    |ChildLabels(t, p)|
  }

  /** How many edges the first `i` nodes have together. */
  ghost function EdgesBefore(t: TrieMap, paths: seq<Path>, i: nat): nat
    requires i <= |paths|
  {
    if i == 0 then 0 else EdgesBefore(t, paths, i - 1) + ChildCount(t, paths[i - 1])
  }

  ghost function MetadataOf(t: TrieMap, paths: seq<Path>, n: nat): seq<nat>
    requires n <= |paths| && forall i :: 0 <= i < n ==> paths[i] in t
  {
    seq(n, i requires 0 <= i < n =>
      PackNode(EdgesBefore(t, paths, i), ChildCount(t, paths[i]), t[paths[i]]))
  }

  /** The nodes of a trie in table order. */
  ghost function Order(t: TrieMap): (paths: seq<Path>)
    requires [] in t
    ensures paths != [] && paths[0] == [] && |paths| == |t|
    ensures forall p :: p in paths <==> p in t
    ensures forall j :: 1 <= j < |paths| ==> paths[j] != []
    ensures PathsAscending(paths)
  {
    var paths := SortedPaths(t.Keys);
    OrderStartsAtRoot(paths);
    paths
  }

  lemma {:induction false} OrderStartsAtRoot(paths: seq<Path>)
    requires PathsAscending(paths) && [] in paths
    ensures paths[0] == [] && forall j :: 1 <= j < |paths| ==> paths[j] != []
  {
    var i :| 0 <= i < |paths| && paths[i] == [];
    assert i > 0 ==> PathLess(paths[0], paths[i]);
    forall j | 1 <= j < |paths| ensures paths[j] != [] { assert PathLess(paths[0], paths[j]); }
  }

  ghost function TablesOf(t: TrieMap): Tables
    requires [] in t
  {
    var paths := Order(t);
    assert forall i :: 0 <= i < |paths| ==> paths[i] in paths;
    var ls := EdgeLabels(paths);
    Tables(MetadataOf(t, paths, |paths|), EdgesOf(ls), Blob(ls))
  }

  /** The tries whose tables the generator does not refuse. */
  ghost predicate Encodable(t: TrieMap)
    requires [] in t
  {
    && (forall p {:trigger ChildCount(t, p)} :: p in t ==> ChildCount(t, p) <= MAX_EDGE_COUNT)
    && OffsetsFit(EdgeLabels(Order(t)))
  }

  lemma {:induction false} OffsetStays(ls: seq<Label>, i: nat)
    requires i < |ls| && ls[i] !in ls[..i]
    ensures ls[i] in ls && Offset(ls, ls[i]) == |Blob(ls[..i])|
  {
    hide Blob;
    var before := ls[..|ls| - 1];
    assert ls[i] in ls;
    if i < |ls| - 1 {
      assert before[i] == ls[i] && before[..i] == ls[..i];
      OffsetStays(before, i);
    }
  }

  /** The generator refuses exactly the tries with a child count or a label offset that its words
      would not give back. */
  lemma {:induction false} RefusedExactly(t: TrieMap)
    requires WellFormedTrie(t)
    ensures Encodable(t) <==>
              && (forall p {:trigger ChildLabels(t, p)} :: p in t ==>
                    EdgeCount(PackNode(0, |ChildLabels(t, p)|, t[p])) == |ChildLabels(t, p)|)
              && (forall l :: l in EdgeLabels(Order(t)) ==>
                    var offset := Offset(EdgeLabels(Order(t)), l);
                    LabelStart(PackEdge(offset, |l|) % 0x1_0000_0000) == offset)
  {
    hide PackNode, PackEdge, EdgeCount, LabelStart, LabelLength, Order, Offset, Blob, ChildLabels, PathsAscending;
    var ls := EdgeLabels(Order(t));
    forall p | p in t
      ensures EdgeCount(PackNode(0, |ChildLabels(t, p)|, t[p])) == |ChildLabels(t, p)| <==>
              ChildCount(t, p) <= MAX_EDGE_COUNT
    {
      CountExactly(0, |ChildLabels(t, p)|, t[p]);
    }
    forall l | l in ls
      ensures LabelStart(PackEdge(Offset(ls, l), |l|) % 0x1_0000_0000) == Offset(ls, l) <==>
              Offset(ls, l) <= MAX_LABEL_OFFSET
    {
      LabelsShort(t, l);
      OffsetExactly(Offset(ls, l), |l|);
    }
    OffsetsExactly(ls);
  }

  lemma {:induction false} OffsetsExactly(ls: seq<Label>)
    ensures OffsetsFit(ls) <==> forall l :: l in ls ==> Offset(ls, l) <= MAX_LABEL_OFFSET
  {
    hide Offset, Blob;
    if OffsetsFit(ls) {
      forall l | l in ls ensures Offset(ls, l) <= MAX_LABEL_OFFSET {
        OffsetFits(ls, l);
      }
    }
    if forall l :: l in ls ==> Offset(ls, l) <= MAX_LABEL_OFFSET {
      forall i {:trigger Blob(ls[..i])} | 0 <= i < |ls| && ls[i] !in ls[..i]
        ensures |Blob(ls[..i])| <= MAX_LABEL_OFFSET
      {
        OffsetStays(ls, i);
      }
    }
  }

  lemma {:induction false} LabelsShort(t: TrieMap, l: Label)
    requires WellFormedTrie(t) && l in EdgeLabels(Order(t))
    ensures |l| <= 255
  {
    var order := Order(t);
    var e :| 0 <= e < |order| - 1 && EdgeLabels(order)[e] == l;
    assert order[e + 1] in order && Last(order[e + 1]) == l;
    assert Init(order[e + 1]) in t;
  }
}
