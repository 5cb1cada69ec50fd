/** Which warnings a parse gives, in terms of the lines and of the nodes built so far. */
module ParserWarnings {
  import opened Results
  import opened Text
  import opened ClauseLines
  import opened ClauseParser
  import opened ParserProperties
  import opened LineContext

  /* ---------- what the parser remembers ---------- */

  /** The key of the last paragraph among the first n nodes. */
  function LastKey(nodes: seq<Node>, n: nat): Option<nat>
    requires n <= |nodes|
  {
    if n == 0 then None else if nodes[n - 1].IsPara() then Some(nodes[n - 1].paraSort) else LastKey(nodes, n - 1)
  }

  /** The value of the last clause of the last paragraph, if that is one of the first fifteen numerals. */
  function LastNumeral(nodes: seq<Node>, n: nat): Option<nat>
    requires n <= |nodes|
  {
    if n == 0 || nodes[n - 1].IsPara() then None
    else if nodes[n - 1].IsClause() then NumeralOf(nodes[n - 1].level2.value.name)
    else LastNumeral(nodes, n - 1)
  }

  const NUMERALS := ["i", "ii", "iii", "iv", "v", "vi", "vii", "viii", "ix", "x", "xi", "xii", "xiii", "xiv", "xv"]

  /** The place of a label among the first fifteen numerals, counted from one. */
  function NumeralOf(name: string): (r: Option<nat>)
    ensures r.Some? ==> 1 <= r.value <= 15 && NUMERALS[r.value - 1] == name
    ensures r.None? ==> name !in NUMERALS
  {
    PlaceIn(NUMERALS, name, 15)
  }

  function PlaceIn(names: seq<string>, name: string, n: nat): (r: Option<nat>)
    requires n <= |names|
    ensures r.Some? ==> 1 <= r.value <= n && names[r.value - 1] == name
    ensures r.None? ==> name !in names[..n]
  {
    if n == 0 then None else if names[n - 1] == name then Some(n) else PlaceIn(names, name, n - 1)
  }

  lemma {:induction false} RomanIsPlace(name: string)
    ensures RomanValue(name) == NumeralOf(name)
  {
    hide PlaceIn;
    var r := NumeralOf(name);
    assert NUMERALS[..15] == NUMERALS;
    if r.None? {
      assert forall i | 0 <= i < 15 :: NUMERALS[i] in NUMERALS && NUMERALS[i] != name;
      NotListed(name);
    } else {
      Listed(r.value);
    }
  }

  lemma {:induction false} Listed(n: nat)
    requires 1 <= n <= 15
    ensures RomanValue(NUMERALS[n - 1]) == Some(n)
  {
  }

  lemma {:induction false} NotListed(name: string)
    requires forall i | 0 <= i < 15 :: NUMERALS[i] != name
    ensures RomanValue(name).None?
  {
    assert name != NUMERALS[0] && name != NUMERALS[1] && name != NUMERALS[2] && name != NUMERALS[3];
    assert name != NUMERALS[4] && name != NUMERALS[5] && name != NUMERALS[6] && name != NUMERALS[7];
    assert name != NUMERALS[8] && name != NUMERALS[9] && name != NUMERALS[10] && name != NUMERALS[11];
    assert name != NUMERALS[12] && name != NUMERALS[13] && name != NUMERALS[14];
  }

  ghost predicate Remembers(dialect: Dialect, s: State) {
    && s.lastPara == LastKey(s.nodes, |s.nodes|)
    && (dialect.RomanDialect? && s.openPara.Some? ==> s.lastLevel2 == LastNumeral(s.nodes, |s.nodes|))
  }

  lemma {:induction false} LastKept(a: seq<Node>, b: seq<Node>, n: nat)
    requires n <= |a| && n <= |b|
    requires forall i | 0 <= i < n ::
               a[i].paraSort == b[i].paraSort && a[i].level2 == b[i].level2 && a[i].level3 == b[i].level3
    ensures LastKey(a, n) == LastKey(b, n) && LastNumeral(a, n) == LastNumeral(b, n)
  {
    hide NumeralOf;
    if n != 0 { LastKept(a, b, n - 1); }
  }

  lemma {:induction false} AppendedKeeps(nodes: seq<Node>, line: string)
    ensures |Appended(nodes, line)| == |nodes|
    ensures LastKey(Appended(nodes, line), |nodes|) == LastKey(nodes, |nodes|)
    ensures LastNumeral(Appended(nodes, line), |nodes|) == LastNumeral(nodes, |nodes|)
  {
    hide Strip;
    LastKept(Appended(nodes, line), nodes, |nodes|);
  }

  lemma {:induction false} StepRemembers(dialect: Dialect, s: State, line: string)
    requires Inv(s) && Remembers(dialect, s)
    ensures Remembers(dialect, Step(dialect, s, line))
  {
    hide Classify, ScopeOf, Strip, ParaSort, NotesOf, WellShaped, RomanValue, NumeralOf;
    var k, t := KindOf(dialect, s, line), Step(dialect, s, line);
    match k {
      case Continuation => AppendedKeeps(s.nodes, line);
      case ChapterLine(_) =>
      case SectionLine(_) =>
      case ParaLine(_) => LastKept(t.nodes, s.nodes, |s.nodes|);
      case Level2Line(m) =>
        LastKept(t.nodes, s.nodes, |s.nodes|);
        RomanIsPlace(m.name);
      case Level3Line(_) => LastKept(t.nodes, s.nodes, |s.nodes|);
      case NoteLine(_) => LastKept(t.nodes, s.nodes, |s.nodes|);
    }
  }

  /** For every text the parser's memory is what the nodes built so far say. */
  lemma {:induction false} AlwaysRemembers(dialect: Dialect, lines: seq<string>)
    ensures Remembers(dialect, After(dialect, START, lines))
  {
    hide Step, Inv;
    if lines == [] {
      AfterNone(dialect, START);
    } else {
      var before, line := lines[..|lines| - 1], lines[|lines| - 1];
      assert lines == before + [line];
      AfterSnoc(dialect, START, before, line);
      AlwaysRemembers(dialect, before);
      ParseWellShaped(dialect, before);
      StepRemembers(dialect, After(dialect, START, before), line);
    }
  }

  /* ---------- when a line warns ---------- */

  /** A warning of the lines is the warning of one of them, in the state before it. */
  lemma {:induction false} WarnedIff(dialect: Dialect, lines: seq<string>, w: Warning)
    ensures w in WarningsOf(dialect, lines) <==> exists i | 0 <= i < |lines| :: WarnsAt(dialect, lines, i, w)
  {
    hide Warns, KindOf, After;
    if lines != [] {
      var before, line := lines[..|lines| - 1], lines[|lines| - 1];
      WarnedIff(dialect, before, w);
      assert forall i | 0 <= i < |before| :: before[i] == lines[i] && before[..i] == lines[..i];
      if i :| 0 <= i < |before| && WarnsAt(dialect, before, i, w) { assert WarnsAt(dialect, lines, i, w); }
      if i :| 0 <= i < |lines| && WarnsAt(dialect, lines, i, w) {
        if i < |before| { assert WarnsAt(dialect, before, i, w); }
      }
      assert WarnsAt(dialect, lines, |before|, w) <==>
               w in Warns(dialect, After(dialect, START, before), KindOf(dialect, After(dialect, START, before), line));
    }
  }

  ghost predicate WarnsAt(dialect: Dialect, lines: seq<string>, i: nat, w: Warning)
    requires i < |lines|
  {
    var s := After(dialect, START, lines[..i]);
    w in Warns(dialect, s, KindOf(dialect, s, lines[i]))
  }

  /** The nodes built before line i. */
  function NodesBefore(dialect: Dialect, lines: seq<string>, i: nat): seq<Node>
    requires i < |lines|
  {
    After(dialect, START, lines[..i]).nodes
  }

  function KindAt(dialect: Dialect, lines: seq<string>, i: nat): Kind
    requires i < |lines|
  {
    KindOf(dialect, After(dialect, START, lines[..i]), lines[i])
  }

  /** A numbering warning stands for a paragraph line whose key is neither the previous one nor one more. */
  lemma {:induction false} NumberingWarned(dialect: Dialect, lines: seq<string>, i: nat, number: string, previous: nat)
    requires i < |lines|
    ensures WarnsAt(dialect, lines, i, NotIncremented(number, previous)) <==>
              && KindAt(dialect, lines, i).ParaLine? && KindAt(dialect, lines, i).mark.name == number
              && var before := NodesBefore(dialect, lines, i);
              && LastKey(before, |before|) == Some(previous)
              && ParaSort(number) != previous && ParaSort(number) != previous + 1
  {
    hide After, KindOf, ParaSort, RomanValue;
    AlwaysRemembers(dialect, lines[..i]);
  }

  /** A length warning stands for a paragraph line with a body of more than four thousand characters in one line. */
  lemma {:induction false} LengthWarned(dialect: Dialect, lines: seq<string>, i: nat, number: string)
    requires i < |lines|
    ensures WarnsAt(dialect, lines, i, TooLong(number)) <==>
              && KindAt(dialect, lines, i).ParaLine? && KindAt(dialect, lines, i).mark.name == number
              && |KindAt(dialect, lines, i).mark.body| > 4000 && '\n' !in KindAt(dialect, lines, i).mark.body
  {
    hide After, KindOf, ParaSort, RomanValue;
  }

  /** A sequence warning stands for a clause line whose numeral does not follow that of the clause before it. */
  lemma {:induction false} SequenceWarned(dialect: Dialect, lines: seq<string>, i: nat, name: string, previous: nat)
    requires i < |lines|
    ensures WarnsAt(dialect, lines, i, RomanSkips(name, previous)) <==>
              && dialect.RomanDialect? && KindAt(dialect, lines, i).Level2Line?
                  && KindAt(dialect, lines, i).mark.name == name
              && var before := NodesBefore(dialect, lines, i);
              && LastNumeral(before, |before|) == Some(previous)
              && NumeralOf(name).Some? && NumeralOf(name).value != previous + 1
  {
    hide After, ParaSort, RomanValue, NumeralOf, ChapterMark, SectionMark, NoteMark, Level2Mark, Level3Mark, ParaMark;
    AlwaysRemembers(dialect, lines[..i]);
    RomanIsPlace(name);
  }

  /* ---------- empty chapters ---------- */

  function ChapterName(line: string): string { if ChapterMark(line).Some? then ChapterMark(line).value.name else "" }

  /** The last chapter line before n, if any. */
  function LastChapter(lines: seq<string>, n: nat): (r: Option<nat>)
    requires n <= |lines|
    ensures r.Some? ==> r.value < n
  {
    if n == 0 then None else if IsChapter(lines[n - 1]) then Some(n - 1) else LastChapter(lines, n - 1)
  }

  lemma {:induction false} LastChapterIs(lines: seq<string>, n: nat)
    requires n <= |lines|
    ensures var r := LastChapter(lines, n);
            && (r.Some? ==> IsChapter(lines[r.value]) && forall j | r.value < j < n :: !IsChapter(lines[j]))
            && (r.None? ==> forall j | 0 <= j < n :: !IsChapter(lines[j]))
  {
    hide IsChapter;
    if n != 0 { LastChapterIs(lines, n - 1); }
  }

  /** No line from a up to b opens a paragraph. */
  ghost predicate NoParaLine(dialect: Dialect, lines: seq<string>, a: nat, b: nat)
    requires b <= |lines|
  {
    forall j | a <= j < b :: !KindAt(dialect, lines, j).ParaLine?
  }

  /** The chapter in force, and whether a paragraph has been opened in it. */
  ghost predicate ChapterState(dialect: Dialect, lines: seq<string>, n: nat)
    requires n <= |lines|
  {
    var s, at := After(dialect, START, lines[..n]), LastChapter(lines, n);
    && (at.None? ==> s.heading.chapter.None?)
    && (at.Some? ==> && s.heading.chapter == Some(ChapterName(lines[at.value]))
                     && (s.chapterParas == 0 <==> NoParaLine(dialect, lines, at.value + 1, n)))
  }

  lemma {:induction false} ChapterStateHolds(dialect: Dialect, lines: seq<string>, n: nat)
    requires n <= |lines|
    ensures ChapterState(dialect, lines, n)
  {
    hide After, Step, ChapterName, IsChapter, KindOf, NoParaLine;
    if n == 0 {
      AfterNone(dialect, START);
      assert lines[..0] == [];
    } else {
      var s, line := After(dialect, START, lines[..n - 1]), lines[n - 1];
      ChapterStateHolds(dialect, lines, n - 1);
      assert lines[..n] == lines[..n - 1] + [line];
      AfterSnoc(dialect, START, lines[..n - 1], line);
      StepChapter(dialect, s, line);
      var at := LastChapter(lines, n - 1);
      if IsChapter(line) {
        NoLineBetween(dialect, lines, n);
      } else if at.Some? {
        NoParaSnoc(dialect, lines, at.value + 1, n);
      }
    }
  }

  lemma {:induction false} NoLineBetween(dialect: Dialect, lines: seq<string>, n: nat)
    requires n <= |lines|
    ensures NoParaLine(dialect, lines, n, n)
  {
  }

  lemma {:induction false} NoParaSnoc(dialect: Dialect, lines: seq<string>, a: nat, n: nat)
    requires a < n <= |lines|
    ensures NoParaLine(dialect, lines, a, n) <==>
              NoParaLine(dialect, lines, a, n - 1)
              && !KindOf(dialect, After(dialect, START, lines[..n - 1]), lines[n - 1]).ParaLine?
  {
    hide KindOf, After;
    assert KindAt(dialect, lines, n - 1) == KindOf(dialect, After(dialect, START, lines[..n - 1]), lines[n - 1]);
  }

  lemma {:induction false} StepChapter(dialect: Dialect, s: State, line: string)
    requires OpenValid(s)
    ensures var t := Step(dialect, s, line);
            && (IsChapter(line) ==> t.heading.chapter == Some(ChapterName(line)) && t.chapterParas == 0)
            && (!IsChapter(line) ==>
                  && t.heading.chapter == s.heading.chapter
                  && t.chapterParas == s.chapterParas + (if KindOf(dialect, s, line).ParaLine? then 1 else 0))
  {
    hide ChapterMark, SectionMark, NoteMark, Level2Mark, Level3Mark, ParaMark, Strip, ScopeOf, ParaSort, NotesOf,
         RomanValue;
  }

  /** A chapter line warns exactly when no paragraph was opened since the chapter line before it, and names that one. */
  lemma {:induction false} EmptyChapterWarned(dialect: Dialect, lines: seq<string>, i: nat, name: string)
    requires i < |lines|
    ensures WarnsAt(dialect, lines, i, ChapterEmpty(name)) <==>
              && IsChapter(lines[i]) && LastChapter(lines, i).Some?
              && var at := LastChapter(lines, i).value;
              && ChapterName(lines[at]) == name && NoParaLine(dialect, lines, at + 1, i)
    ensures var r := LastChapter(lines, i);
            r.Some? ==> IsChapter(lines[r.value]) && forall j | r.value < j < i :: !IsChapter(lines[j])
  {
    hide After, ParaSort, RomanValue, SectionMark, NoteMark, Level2Mark, Level3Mark, ParaMark, ChapterMark, NoParaLine;
    ChapterStateHolds(dialect, lines, i);
    LastChapterIs(lines, i);
  }

  /** The end of the text warns of the last chapter in the same way. */
  lemma {:induction false} LastChapterWarned(dialect: Dialect, lines: seq<string>)
    ensures var at := LastChapter(lines, |lines|);
            EmptyChapter(After(dialect, START, lines)) ==
              if at.Some? && NoParaLine(dialect, lines, at.value + 1, |lines|)
              then [ChapterEmpty(ChapterName(lines[at.value]))] else []
  {
    hide After, ChapterName, NoParaLine, LastChapter, IsChapter;
    ChapterStateHolds(dialect, lines, |lines|);
    assert lines[..|lines|] == lines;
  }
}
