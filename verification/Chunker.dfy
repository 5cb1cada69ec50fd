/** Leaf-clause chunking: a short node is prefixed with the first sentence of its parent. */
module Chunker {
  import opened Results
  import opened Text
  import opened ClauseParser
  import opened ClauseLines
  import opened WrapJoining
  import opened ParserProperties
  import opened ParserRoundTrip
  import opened TreeRecovery

  const STEM_MIN_TOKENS := 40
  const STEM_MAX_CHARS := 200

  datatype Key = Key(para: string, level2: Option<Level2>, level3: Option<Level3>)

  datatype Strategy = Leaf | LeafWithStem

  datatype Chunk = Chunk(node: Node, textWithStem: string, tokens: nat, strategy: Strategy, index: nat)

  function KeyOf(n: Node): Key { Key(n.para, n.level2, n.level3) }

  /** The lookup table over the first n nodes; a later node with the same key replaces an earlier one. */
  function ByKey(nodes: seq<Node>, n: nat): map<Key, Node>
    requires n <= |nodes|
  {
    if n == 0 then map[] else ByKey(nodes, n - 1)[KeyOf(nodes[n - 1]) := nodes[n - 1]]
  }

  function Lookup(table: map<Key, Node>, k: Key): Option<Node> { if k in table then Some(table[k]) else None }

  function ParentOf(table: map<Key, Node>, n: Node): Option<Node> {
    if n.level3.Some? then Lookup(table, Key(n.para, n.level2, None))
    else if n.level2.Some? then Lookup(table, Key(n.para, None, None))
    else None
  }

  /** The end of the first sentence at or after i: past the mark and the whitespace behind it. */
  function SentenceEnd(text: string, i: nat): Option<nat>
    requires i <= |text|
    decreases |text| - i
  {
    if i == |text| then None
    else if text[i] in ".!?" && i + 1 == |text| then Some(i + 1)
    else if text[i] in ".!?" && IsSpace(text[i + 1]) then Some(i + 2)
    else SentenceEnd(text, i + 1)
  }

  function FirstSentence(text: string): (stem: string)
    ensures |stem| <= STEM_MAX_CHARS
  {
    var end := SentenceEnd(text, 0);
    SentenceEndInside(text, 0);
    var sentence := if end.Some? then Strip(text[..end.value]) else text;
    if |sentence| <= STEM_MAX_CHARS then sentence else sentence[..STEM_MAX_CHARS]
  }

  lemma {:induction false} SentenceEndInside(text: string, i: nat)
    requires i <= |text|
    ensures SentenceEnd(text, i).Some? ==> i < SentenceEnd(text, i).value <= |text|
    decreases |text| - i
  {
    if i < |text| { SentenceEndInside(text, i + 1); }
  }

  function ChunkOf(table: map<Key, Node>, node: Node, index: nat): Chunk {
    var tokens := |Words(node.text)|;
    var parent := ParentOf(table, node);
    if tokens < STEM_MIN_TOKENS && parent.Some? then
      Chunk(node, Strip(FirstSentence(parent.value.text) + " " + node.text), tokens, LeafWithStem, index)
    else
      Chunk(node, node.text, tokens, Leaf, index)
  }

  method ChunkNodes(nodes: seq<Node>) returns (chunks: seq<Chunk>)
    ensures |chunks| == |nodes|
    ensures forall i | 0 <= i < |nodes| :: chunks[i] == ChunkOf(ByKey(nodes, |nodes|), nodes[i], i)
  {
    hide ChunkOf, KeyOf;
    var table := map[];
    for i := 0 to |nodes|
      invariant table == ByKey(nodes, i)
    {
      table := table[KeyOf(nodes[i]) := nodes[i]];
    }
    chunks := [];
    for i := 0 to |nodes|
      invariant |chunks| == i
      invariant forall j | 0 <= j < i :: chunks[j] == ChunkOf(table, nodes[j], j)
    {
      chunks := chunks + [ChunkOf(table, nodes[i], i)];
    }
  }

  /** The table holds exactly the keys of the nodes, each with a node that carries it. */
  lemma {:induction false} TableHolds(nodes: seq<Node>, n: nat, k: Key)
    requires n <= |nodes|
    ensures k in ByKey(nodes, n) <==> exists i | 0 <= i < n :: KeyOf(nodes[i]) == k
    ensures k in ByKey(nodes, n) ==> KeyOf(ByKey(nodes, n)[k]) == k
  {
    if n != 0 {
      TableHolds(nodes, n - 1, k);
    }
  }

  /**
   On parsed nodes a parent is found for every clause and every letter, and for nothing
   else: a paragraph has none, and no node carries the key a note is looked up under.
   */
  lemma {:induction false} ParentFound(nodes: seq<Node>, i: nat)
    requires WellShaped(nodes) && i < |nodes|
    ensures var parent := ParentOf(ByKey(nodes, |nodes|), nodes[i]);
            && (parent.Some? <==> nodes[i].IsClause() || nodes[i].IsLetter())
            && (nodes[i].IsClause() ==> parent.value.IsPara() && parent.value.para == nodes[i].para)
            && (nodes[i].IsLetter() ==> parent.value.IsClause() && parent.value.para == nodes[i].para
                                        && parent.value.level2 == nodes[i].level2)
  {
    hide ByKey;
    var n := nodes[i];
    assert Attached(nodes, i);
    TableHolds(nodes, |nodes|, Key(n.para, n.level2, None));
    TableHolds(nodes, |nodes|, Key(n.para, None, None));
    if n.IsNote() {
      forall j | 0 <= j < |nodes|
        ensures KeyOf(nodes[j]) != Key(n.para, n.level2, None)
      {
        assert Attached(nodes, j);
      }
    } else if n.IsClause() {
      var p: nat :| ParaOf(nodes, p, i);
      assert KeyOf(nodes[p]) == Key(n.para, None, None);
    } else if n.IsLetter() {
      var q: nat :| ClauseOf(nodes, q, i);
      assert KeyOf(nodes[q]) == Key(n.para, n.level2, None);
    }
  }

  /** The table holds the last node of each key. */
  lemma {:induction false} TableLast(nodes: seq<Node>, n: nat, k: Key) returns (j: nat)
    requires n <= |nodes| && k in ByKey(nodes, n)
    ensures j < n && ByKey(nodes, n)[k] == nodes[j] && KeyOf(nodes[j]) == k
    ensures forall l | j < l < n :: KeyOf(nodes[l]) != k
  {
    if KeyOf(nodes[n - 1]) == k { j := n - 1; } else { j := TableLast(nodes, n - 1, k); }
  }

  /** p is where node i hangs: the nearest paragraph of a clause, the nearest clause of a letter. */
  predicate OwnParent(nodes: seq<Node>, p: nat, i: nat)
    requires i < |nodes|
  {
    (nodes[i].IsClause() && ParaOf(nodes, p, i)) || (nodes[i].IsLetter() && ClauseOf(nodes, p, i))
  }

  /** Every clause and letter has one. */
  lemma {:induction false} OwnParentExists(nodes: seq<Node>, i: nat) returns (p: nat)
    requires WellShaped(nodes) && i < |nodes| && (nodes[i].IsClause() || nodes[i].IsLetter())
    ensures OwnParent(nodes, p, i)
  {
    hide ParaOf, ClauseOf;
    assert Attached(nodes, i);
    if nodes[i].IsClause() { p :| ParaOf(nodes, p, i); } else { p :| ClauseOf(nodes, p, i); }
  }

  /** The parent the chunker finds is the node's own exactly when no later node repeats the parent's labels. */
  lemma {:induction false} OwnParentIff(nodes: seq<Node>, p: nat, i: nat)
    requires WellShaped(nodes) && i < |nodes| && OwnParent(nodes, p, i)
    ensures ParentOf(ByKey(nodes, |nodes|), nodes[i]) == Some(nodes[p])
            <==> forall j | i < j < |nodes| :: KeyOf(nodes[j]) != KeyOf(nodes[p])
  {
    hide ByKey;
    var k := KeyOf(nodes[p]);
    TableHolds(nodes, |nodes|, k);
    var last := TableLast(nodes, |nodes|, k);
    assert ParentOf(ByKey(nodes, |nodes|), nodes[i]) == Some(nodes[last]);
    assert nodes[last].order == last && nodes[p].order == p;
    OwnParentNearest(nodes, p, i);
  }

  lemma {:induction false} OwnParentNearest(nodes: seq<Node>, p: nat, i: nat)
    requires i < |nodes| && OwnParent(nodes, p, i)
    ensures p < i && forall j | p < j <= i :: KeyOf(nodes[j]) != KeyOf(nodes[p])
  {
    forall j | p < j <= i
      ensures KeyOf(nodes[j]) != KeyOf(nodes[p])
    {
      if j < i {
        assert !nodes[j].IsPara() && (nodes[i].IsLetter() ==> !nodes[j].IsClause());
      }
    }
  }

  /* ---------- a text where another paragraph is found ---------- */

  /** A paragraph with one clause, and a second paragraph of the same number. */
  const REPEATED: seq<Event> := [
    ParaEvent("1", Body("Banks.", [])), ClauseEvent("i", Body("Lend.", [])), ParaEvent("1", Body("Firms.", []))]

  const NO_HEADING := Heading(None, None, None, None)

  function RepeatedPara(text: string, order: nat): Node {
      Node(NO_HEADING, "1", ParaSort("1"), None, None, text, order, []) }

  function RepeatedNodes(): seq<Node> {
    [RepeatedPara("Banks.", 0), RepeatedPara("Lend.", 1).(level2 := Some(Clause("i"))), RepeatedPara("Firms.", 2)]
  }

  lemma {:induction false} RepeatedRun()
    ensures Legal(RomanDialect, START, REPEATED)
    ensures RunEvents(RomanDialect, START, REPEATED).nodes == RepeatedNodes()
  {
    hide ParaSort, GoodEvent, RomanValue, ScopeOf;
    var d, es := RomanDialect, REPEATED;
    RepeatedGood();
    var s := Effect(d, START, es[0]);
    assert s.nodes == [RepeatedPara("Banks.", 0)] && s.openPara == Some(0);
    var t := Effect(d, s, es[1]);
    assert t.nodes == [RepeatedPara("Banks.", 0), RepeatedPara("Lend.", 1).(level2 := Some(Clause("i")))];
    var u := Effect(d, t, es[2]);
    assert u.nodes == RepeatedNodes();
    assert es[1..][1..] == es[2..] && es[2..][1..] == [];
    assert Legal(d, u, []) && RunEvents(d, u, []) == u;
    assert Legal(d, t, es[2..]) && RunEvents(d, t, es[2..]) == u;
    assert Legal(d, s, es[1..]) && RunEvents(d, s, es[1..]) == u;
  }

  lemma {:induction false} RepeatedGood()
    ensures GoodEvents(RomanDialect, REPEATED)
  {
    assert GoodEvent(RomanDialect, REPEATED[0]) && GoodEvent(RomanDialect, REPEATED[1])
        && GoodEvent(RomanDialect, REPEATED[2]);
  }

  lemma {:induction false} RepeatedLines()
    ensures Lines(RomanDialect, REPEATED[0]) == ["1. Banks."]
    ensures Lines(RomanDialect, REPEATED[1]) == ["i. Lend."]
    ensures Lines(RomanDialect, REPEATED[2]) == ["1. Firms."]
  {
    assert "1" + "." + " " + "Banks." == "1. Banks." && "i" + "." + " " + "Lend." == "i. Lend.";
    assert "1" + "." + " " + "Firms." == "1. Firms.";
  }

  lemma {:induction false} RepeatedListing()
    ensures Listing(RomanDialect, REPEATED) == ["1. Banks.", "i. Lend.", "1. Firms."]
  {
    hide Lines;
    var es := REPEATED;
    RepeatedLines();
    assert es[1..][1..] == es[2..] && es[2..][1..] == [];
    assert Listing(RomanDialect, es[2..]) == ["1. Firms."] + [];
    assert Listing(RomanDialect, es[1..]) == ["i. Lend."] + Listing(RomanDialect, es[2..]);
  }

  lemma {:induction false} RepeatedOneLine()
    ensures OneLine("1. Banks.") && OneLine("i. Lend.") && OneLine("1. Firms.")
  {
  }

  /** In this text the clause of the first paragraph gets the second paragraph as its parent. */
  lemma {:induction false} OtherParagraphFound()
    ensures var text := Print(Listing(RomanDialect, REPEATED));
            var nodes := After(RomanDialect, START, JoinAll(RawLines(text, 0, 0))).nodes;
            && |nodes| == 3 && OwnParent(nodes, 0, 1)
            && ParentOf(ByKey(nodes, 3), nodes[1]) == Some(nodes[2])
  {
    hide After, JoinAll, RawLines, Print, Listing, Legal, RunEvents, ByKey, ParaSort, Plain, OneLine;
    RepeatedGood();
    RepeatedRun();
    RepeatedListing();
    RepeatedOneLine();
    var lines := Listing(RomanDialect, REPEATED);
    forall i | 0 <= i < |lines| ensures Plain(lines[i]) && OneLine(lines[i]) {
      ListingPlain(RomanDialect, REPEATED, i);
      assert lines[i] in lines;
    }
    PrintedLines(lines);
    ListingParsed(RomanDialect, START, REPEATED);
    var nodes := RepeatedNodes();
    TableHolds(nodes, 3, KeyOf(nodes[0]));
    var last := TableLast(nodes, 3, KeyOf(nodes[0]));
    assert KeyOf(nodes[2]) == KeyOf(nodes[0]);
    assert last == 2;
  }
}
