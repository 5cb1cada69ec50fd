/** What the parser guarantees about the nodes it makes of any text whatsoever. */
module ParserProperties {
  import opened Results
  import opened Text
  import opened ClauseLines
  import opened ClauseParser

  /* ---------- shape of the node list ---------- */

  /** The two nodes belong to the same paragraph: number, key, headings and borrower scope. */
  predicate SamePara(a: Node, b: Node) {
    a.para == b.para && a.paraSort == b.paraSort && a.heading == b.heading && a.scope == b.scope
  }

  predicate NoParas(nodes: seq<Node>, a: nat, b: nat)
    requires b <= |nodes|
  {
    forall k | a <= k < b :: !nodes[k].IsPara()
  }

  predicate NoClauses(nodes: seq<Node>, a: nat, b: nat)
    requires b <= |nodes|
  {
    forall k | a <= k < b :: !nodes[k].IsClause()
  }

  /** p is the nearest paragraph before i, and i belongs to it. */
  predicate ParaOf(nodes: seq<Node>, p: nat, i: nat)
    requires i < |nodes|
  {
    p < i && nodes[p].IsPara() && SamePara(nodes[p], nodes[i]) && NoParas(nodes, p + 1, i)
  }

  /** q is the nearest clause before i, in the same paragraph, and i carries its label. */
  predicate ClauseOf(nodes: seq<Node>, q: nat, i: nat)
    requires i < |nodes|
  {
    && q < i && nodes[q].IsClause() && nodes[q].level2 == nodes[i].level2 && SamePara(nodes[q], nodes[i])
    && NoParas(nodes, q + 1, i) && NoClauses(nodes, q + 1, i)
  }

  ghost predicate HasPara(nodes: seq<Node>, i: nat)
    requires i < |nodes|
  {
    exists p: nat :: ParaOf(nodes, p, i)
  }

  ghost predicate HasClause(nodes: seq<Node>, i: nat)
    requires i < |nodes|
  {
    exists q: nat :: ClauseOf(nodes, q, i)
  }

  /** A node is a paragraph, or hangs off an earlier one; a letter also hangs off an earlier clause. */
  ghost predicate Attached(nodes: seq<Node>, i: nat)
    requires i < |nodes|
  {
    || nodes[i].IsPara()
    || ((nodes[i].IsClause() || nodes[i].IsNote()) && HasPara(nodes, i))
    || (nodes[i].IsLetter() && HasPara(nodes, i) && HasClause(nodes, i))
  }

  ghost predicate WellShaped(nodes: seq<Node>) {
    forall i | 0 <= i < |nodes| :: nodes[i].order == i && Attached(nodes, i)
  }

  /** The open paragraph and the open clause are what the next sub-node needs. */
  ghost predicate OpenShaped(s: State) {
    && (s.openPara.Some? ==>
          && s.openPara.value < |s.nodes| && s.nodes[s.openPara.value].IsPara()
          && s.nodes[s.openPara.value].heading == s.heading && s.nodes[s.openPara.value].scope == s.scope
          && NoParas(s.nodes, s.openPara.value + 1, |s.nodes|))
    && (s.openLevel2.Some? ==>
          && s.openPara.Some? && s.openPara.value < s.openLevel2.value < |s.nodes|
          && s.nodes[s.openLevel2.value].IsClause() && NoClauses(s.nodes, s.openLevel2.value + 1, |s.nodes|)
          && SamePara(s.nodes[s.openPara.value], s.nodes[s.openLevel2.value]))
  }

  ghost predicate Inv(s: State) { OpenValid(s) && WellShaped(s.nodes) && OpenShaped(s) }

  lemma {:induction false} AttachedGrows(nodes: seq<Node>, n: Node, i: nat)
    requires i < |nodes| && Attached(nodes, i)
    ensures Attached(nodes + [n], i)
  {
    var m := nodes + [n];
    assert forall k | 0 <= k <= i :: m[k] == nodes[k];
    if HasPara(nodes, i) {
      var p: nat :| ParaOf(nodes, p, i);
      assert ParaOf(m, p, i);
    }
    if HasClause(nodes, i) {
      var q: nat :| ClauseOf(nodes, q, i);
      assert ClauseOf(m, q, i);
    }
  }

  lemma {:induction false} ShapeGrows(nodes: seq<Node>, n: Node)
    requires WellShaped(nodes) && n.order == |nodes| && Attached(nodes + [n], |nodes|)
    ensures WellShaped(nodes + [n])
  {
    forall i | 0 <= i < |nodes + [n]|
      ensures (nodes + [n])[i].order == i && Attached(nodes + [n], i)
    {
      if i < |nodes| { AttachedGrows(nodes, n, i); }
    }
  }

  lemma {:induction false} AttachedRetexted(nodes: seq<Node>, text: string, i: nat)
    requires i < |nodes| && Attached(nodes, i)
    ensures var k := |nodes| - 1; Attached(nodes[k := nodes[k].(text := text)], i)
  {
    var k := |nodes| - 1;
    var m := nodes[k := nodes[k].(text := text)];
    if HasPara(nodes, i) {
      var p: nat :| ParaOf(nodes, p, i);
      assert ParaOf(m, p, i);
    }
    if HasClause(nodes, i) {
      var q: nat :| ClauseOf(nodes, q, i);
      assert ClauseOf(m, q, i);
    }
  }

  lemma {:induction false} ShapeAppended(nodes: seq<Node>, line: string)
    requires WellShaped(nodes)
    ensures WellShaped(Appended(nodes, line))
  {
    hide Strip;
    if nodes != [] {
      var text := Strip(nodes[|nodes| - 1].text + " " + line);
      forall i | 0 <= i < |nodes|
        ensures Appended(nodes, line)[i].order == i && Attached(Appended(nodes, line), i)
      {
        AttachedRetexted(nodes, text, i);
      }
    }
  }

  /** A child of the open paragraph (and, for a letter, of the open clause) is attached. */
  lemma {:induction false} ChildAttached(s: State, n: Node)
    requires Inv(s) && s.openPara.Some?
    requires SamePara(s.nodes[s.openPara.value], n)
    requires n.IsClause() || n.IsNote() ||
             (n.IsLetter() && s.openLevel2.Some? && n.level2 == s.nodes[s.openLevel2.value].level2)
    ensures Attached(s.nodes + [n], |s.nodes|)
  {
    var m := s.nodes + [n];
    var p := s.openPara.value;
    assert forall k | 0 <= k < |s.nodes| :: m[k] == s.nodes[k];
    assert ParaOf(m, p, |s.nodes|);
    if n.IsLetter() {
      assert ClauseOf(m, s.openLevel2.value, |s.nodes|);
    }
  }

  lemma {:induction false} ApplyShaped(s: State, k: Kind, line: string)
    requires Inv(s)
    requires (k.Level2Line? || k.NoteLine? ==> s.openPara.Some?) && (k.Level3Line? ==> s.openLevel2.Some?)
    ensures Inv(Apply(s, k, line))
  {
    hide Attached, Strip, NotesOf, ScopeOf, ParaSort;
    var t := Apply(s, k, line);
    match k {
      case ChapterLine(_) =>
      case SectionLine(_) =>
      case ParaLine(m) =>
        var n := t.nodes[|s.nodes|];
        ParaAttached(s.nodes, n);
        ShapeGrows(s.nodes, n);
      case Level2Line(m) =>
        ChildAttached(s, t.nodes[|s.nodes|]);
        ShapeGrows(s.nodes, t.nodes[|s.nodes|]);
      case Level3Line(m) =>
        ChildAttached(s, t.nodes[|s.nodes|]);
        ShapeGrows(s.nodes, t.nodes[|s.nodes|]);
      case NoteLine(_) =>
        ChildAttached(s, t.nodes[|s.nodes|]);
        ShapeGrows(s.nodes, t.nodes[|s.nodes|]);
      case Continuation =>
        ShapeAppended(s.nodes, line);
    }
  }

  lemma {:induction false} ParaAttached(nodes: seq<Node>, n: Node)
    requires n.IsPara()
    ensures Attached(nodes + [n], |nodes|)
  {
  }

  /** For every list of lines, in either dialect, the nodes are well shaped. */
  lemma {:induction false} ParseWellShaped(dialect: Dialect, lines: seq<string>)
    ensures Inv(After(dialect, START, lines))
  {
    hide Classify, Apply, Attached;
    if lines == [] {
      AfterNone(dialect, START);
    } else {
      var before, line := lines[..|lines| - 1], lines[|lines| - 1];
      ParseWellShaped(dialect, before);
      assert lines == before + [line];
      AfterSnoc(dialect, START, before, line);
      var s := After(dialect, START, before);
      ApplyShaped(s, KindOf(dialect, s, line), line);
    }
  }

  /* ---------- paragraph numbering ---------- */

  ghost predicate Keyed(nodes: seq<Node>, v: nat) {
    exists i | 0 <= i < |nodes| :: nodes[i].IsPara() && nodes[i].paraSort == v
  }

  /** The keys seen so far run from that of the first node to the last one, without a gap. */
  ghost predicate Covered(s: State) {
    && (s.nodes == [] <==> s.lastPara.None?)
    && (s.nodes != [] ==>
          && s.nodes[0].paraSort <= s.lastPara.value
          && (forall v | s.nodes[0].paraSort <= v <= s.lastPara.value :: Keyed(s.nodes, v))
          && forall i | 0 <= i < |s.nodes| && s.nodes[i].IsPara() ::
               s.nodes[0].paraSort <= s.nodes[i].paraSort <= s.lastPara.value)
  }

  predicate Incremented(ws: seq<Warning>) { forall w | w in ws :: !w.NotIncremented? }

  lemma {:induction false} KeyedGrows(nodes: seq<Node>, n: Node, v: nat)
    requires Keyed(nodes, v) || (n.IsPara() && n.paraSort == v)
    ensures Keyed(nodes + [n], v)
  {
    var m := nodes + [n];
    if Keyed(nodes, v) {
      var i :| 0 <= i < |nodes| && nodes[i].IsPara() && nodes[i].paraSort == v;
      assert m[i] == nodes[i];
    } else {
      assert m[|nodes|] == n;
    }
  }

  lemma {:induction false} CoveredGrows(s: State, t: State, n: Node)
    requires Covered(s) && t.nodes == s.nodes + [n]
    requires if n.IsPara() then
               && t.lastPara == Some(n.paraSort)
               && (s.lastPara.Some? ==> n.paraSort == s.lastPara.value || n.paraSort == s.lastPara.value + 1)
             else s.nodes != [] && t.lastPara == s.lastPara
    ensures Covered(t)
  {
    forall v | t.nodes[0].paraSort <= v <= t.lastPara.value
      ensures Keyed(t.nodes, v)
    {
      KeyedGrows(s.nodes, n, v);
    }
  }

  lemma {:induction false} CoveredAppended(s: State, line: string)
    requires Covered(s)
    ensures Covered(s.(nodes := Appended(s.nodes, line)))
  {
    hide Strip;
    var t := s.(nodes := Appended(s.nodes, line));
    forall v | t.nodes != [] && t.nodes[0].paraSort <= v <= t.lastPara.value
      ensures Keyed(t.nodes, v)
    {
      assert Keyed(s.nodes, v);
      var i :| 0 <= i < |s.nodes| && s.nodes[i].IsPara() && s.nodes[i].paraSort == v;
      assert t.nodes[i].IsPara() && t.nodes[i].paraSort == v;
    }
  }

  lemma {:induction false} StepCovered(dialect: Dialect, s: State, k: Kind, line: string)
    requires OpenValid(s) && Covered(s) && Incremented(Warns(dialect, s, k))
    requires (k.Level2Line? || k.NoteLine? ==> s.openPara.Some?) && (k.Level3Line? ==> s.openLevel2.Some?)
    ensures Covered(Track(dialect, k, Apply(s, k, line)))
  {
    hide Strip, NotesOf, ScopeOf, ParaSort, RomanValue, Covered;
    var t := Track(dialect, k, Apply(s, k, line));
    match k {
      case ChapterLine(_) => CoveredSame(s, t);
      case SectionLine(_) => CoveredSame(s, t);
      case ParaLine(m) =>
        var w := NotIncremented(m.name, if s.lastPara.Some? then s.lastPara.value else 0);
        assert w !in Warns(dialect, s, k);
        CoveredGrows(s, t, t.nodes[|s.nodes|]);
      case Level2Line(_) => CoveredGrows(s, t, t.nodes[|s.nodes|]);
      case Level3Line(_) => CoveredGrows(s, t, t.nodes[|s.nodes|]);
      case NoteLine(_) => CoveredGrows(s, t, t.nodes[|s.nodes|]);
      case Continuation =>
        CoveredAppended(s, line);
        CoveredSame(s.(nodes := Appended(s.nodes, line)), t);
    }
  }

  lemma {:induction false} CoveredSame(s: State, t: State)
    requires Covered(s) && t.nodes == s.nodes && t.lastPara == s.lastPara
    ensures Covered(t)
  {
  }

  /** Without a numbering warning the paragraph keys cover every integer from first to last. */
  lemma {:induction false} NumberingHasNoGaps(dialect: Dialect, lines: seq<string>)
    requires Incremented(WarningsOf(dialect, lines))
    ensures Covered(After(dialect, START, lines))
  {
    hide Classify, Apply, Track, Warns;
    if lines == [] {
      AfterNone(dialect, START);
    } else {
      var before, line := lines[..|lines| - 1], lines[|lines| - 1];
      assert lines == before + [line];
      AfterSnoc(dialect, START, before, line);
      NumberingHasNoGaps(dialect, before);
      var s := After(dialect, START, before);
      StepCovered(dialect, s, KindOf(dialect, s, line), line);
    }
  }

  /* ---------- no text is lost ---------- */

  function TextWords(nodes: seq<Node>): seq<string> {
    if nodes == [] then [] else TextWords(nodes[..|nodes| - 1]) + Words(nodes[|nodes| - 1].text)
  }

  /** What a line puts into node texts: headings and lines before the first node, nothing. */
  function Contribution(s: State, k: Kind, line: string): string {
    match k
    case ChapterLine(_) => ""
    case SectionLine(_) => ""
    case ParaLine(m) => m.body
    case Level2Line(m) => m.body
    case Level3Line(m) => m.body
    case NoteLine(body) => body
    case Continuation => if s.nodes == [] then "" else line
  }

  function Contributed(dialect: Dialect, lines: seq<string>): seq<string> {
    if lines == [] then [] else
      var before, line := lines[..|lines| - 1], lines[|lines| - 1];
      var s := After(dialect, START, before);
      Contributed(dialect, before) + Words(Contribution(s, KindOf(dialect, s, line), line))
  }

  lemma {:induction false} TextSnoc(nodes: seq<Node>, n: Node)
    ensures TextWords(nodes + [n]) == TextWords(nodes) + Words(n.text)
  {
    assert (nodes + [n])[..|nodes|] == nodes;
  }

  lemma {:induction false} TextAppended(nodes: seq<Node>, line: string)
    requires nodes != []
    ensures TextWords(Appended(nodes, line)) == TextWords(nodes) + Words(line)
  {
    hide Words, Strip;
    var before, last := nodes[..|nodes| - 1], nodes[|nodes| - 1];
    var n := last.(text := Strip(last.text + " " + line));
    assert nodes == before + [last] && Appended(nodes, line) == before + [n];
    TextSnoc(before, last);
    TextSnoc(before, n);
    WordsStrip(last.text + " " + line);
    WordsJoined(last.text, line);
    Associative(TextWords(before), Words(last.text), Words(line));
  }

  lemma {:induction false} ApplyKeepsText(s: State, k: Kind, line: string)
    requires OpenValid(s)
    requires (k.Level2Line? || k.NoteLine? ==> s.openPara.Some?) && (k.Level3Line? ==> s.openLevel2.Some?)
    ensures TextWords(Apply(s, k, line).nodes) == TextWords(s.nodes) + Words(Contribution(s, k, line))
  {
    hide Words, Strip, TextWords, NotesOf, ScopeOf, ParaSort;
    var t := Apply(s, k, line);
    WordsOfBlank("");
    if k.Continuation? {
      if s.nodes != [] { TextAppended(s.nodes, line); }
    } else if !k.ChapterLine? && !k.SectionLine? {
      var n := t.nodes[|s.nodes|];
      assert t.nodes == s.nodes + [n];
      TextSnoc(s.nodes, n);
    }
  }

  /** Every line contributes its body to exactly one node, in order. */
  lemma {:induction false} NoTextLost(dialect: Dialect, lines: seq<string>)
    ensures TextWords(After(dialect, START, lines).nodes) == Contributed(dialect, lines)
  {
    hide Classify, Apply, Contribution;
    if lines == [] {
      AfterNone(dialect, START);
    } else {
      var before, line := lines[..|lines| - 1], lines[|lines| - 1];
      assert lines == before + [line];
      AfterSnoc(dialect, START, before, line);
      NoTextLost(dialect, before);
      var s := After(dialect, START, before);
      ApplyKeepsText(s, KindOf(dialect, s, line), line);
    }
  }

  /** A line that opens a paragraph, clause or letter loses only its marker word. */
  lemma {:induction false} MarkerLineWords(dialect: Dialect, s: State, line: string)
    requires KindOf(dialect, s, line).ParaLine? || KindOf(dialect, s, line).Level2Line?
             || KindOf(dialect, s, line).Level3Line?
    ensures Words(line) == [Head(line)] + Words(Contribution(s, KindOf(dialect, s, line), line))
  {
    hide Head, Tail, Words, IsParaWord, IsRomanWord, IsNumeralWord, IsLetterWord, IsSectionWord,
         NumeralLength, SkipSeparator, SkipSpaces, StartsNote, LowerCase, Strip;
    WordsHeadTail(line);
  }

  lemma {:induction false} WordsHeadTail(line: string)
    requires Tail(line) != ""
    ensures Words(line) == [Head(line)] + Words(Tail(line))
  {
    hide IsSpace;
    var l := SkipSpaces(line);
    WordsOfSkipped(line);
    WordLengthIs(l);
    var n := WordLength(l);
    assert l == l[..n] + l[n..];
    WordsFirst(l[..n], l[n..]);
    WordsOfSkipped(l[n..]);
  }
}
