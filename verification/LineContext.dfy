/** What a node inherits from the headings before it, and what counts as a note. */
module LineContext {
  import opened Results
  import opened Text
  import opened ClauseLines
  import opened WrapJoining
  import opened ClauseParser
  import opened ParserProperties
  import opened ParserRoundTrip
  import opened TreeRecovery

  /* ---------- borrower scope follows the section ---------- */

  predicate IsChapter(line: string) { ChapterMark(line).Some? }

  predicate IsSection(line: string) { ChapterMark(line).None? && SectionMark(line).Some? }

  /** The scope that a section title implies; without a section, every borrower. */
  function TitleScope(h: Heading): seq<string> {
    if h.sectionTitle.Some? then ScopeOf(h.sectionTitle.value) else []
  }

  ghost predicate Scoped(s: State) {
    && s.scope == TitleScope(s.heading)
    && (s.heading.section.Some? <==> s.heading.sectionTitle.Some?)
    && forall i | 0 <= i < |s.nodes| :: s.nodes[i].scope == TitleScope(s.nodes[i].heading)
  }

  lemma {:induction false} ApplyScoped(s: State, k: Kind, line: string)
    requires Inv(s) && Scoped(s)
    requires (k.Level2Line? || k.NoteLine? ==> s.openPara.Some?) && (k.Level3Line? ==> s.openLevel2.Some?)
    ensures Scoped(Apply(s, k, line))
  {
    hide ScopeOf, Strip, ParaSort, NotesOf, WellShaped;
  }

  /** For every text each node's borrower scope is the one its own section title implies. */
  lemma {:induction false} ScopeFollowsSection(dialect: Dialect, lines: seq<string>)
    ensures Scoped(After(dialect, START, lines))
  {
    hide Classify, Apply, Inv;
    if lines == [] {
      AfterNone(dialect, START);
    } else {
      var before, line := lines[..|lines| - 1], lines[|lines| - 1];
      assert lines == before + [line];
      AfterSnoc(dialect, START, before, line);
      ScopeFollowsSection(dialect, before);
      ParseWellShaped(dialect, before);
      var s := After(dialect, START, before);
      ApplyScoped(s, KindOf(dialect, s, line), line);
      TrackKeeps(dialect, KindOf(dialect, s, line), Apply(s, KindOf(dialect, s, line), line));
    }
  }

  lemma {:induction false} TrackKeeps(dialect: Dialect, k: Kind, s: State)
    ensures var t := Track(dialect, k, s);
            t.nodes == s.nodes && t.heading == s.heading && t.scope == s.scope
  {
  }

  /* ---------- a chapter does not end the section before it ---------- */

  /** What the parser makes of the headings at a line. */
  function Marked(h: Heading, line: string): Heading {
    if IsChapter(line) then
      var m := ChapterMark(line).value;
      h.(chapter := Some(m.name), chapterTitle := if m.body == "" then None else Some(m.body))
    else if IsSection(line) then
      var m := SectionMark(line).value;
      h.(section := Some(m.name), sectionTitle := Some(Strip(m.body)))
    else h
  }

  /** What a reader would make of them: a chapter line also ends the section before it. */
  function Reset(h: Heading, line: string): Heading {
    if IsChapter(line) then Marked(h, line).(section := None, sectionTitle := None) else Marked(h, line)
  }

  function Expected(lines: seq<string>): Heading {
    if lines == [] then START.heading else Reset(Expected(lines[..|lines| - 1]), lines[|lines| - 1])
  }

  ghost predicate SectionSeen(lines: seq<string>) { exists j | 0 <= j < |lines| :: IsSection(lines[j]) }

  /** A chapter line stands behind a section line, and no section line has followed it. */
  ghost predicate CarriesOver(lines: seq<string>) {
    exists k | 0 <= k < |lines| ::
      && IsChapter(lines[k]) && SectionSeen(lines[..k])
      && forall m | k < m < |lines| :: !IsSection(lines[m])
  }

  lemma {:induction false} SeenSnoc(before: seq<string>, line: string)
    ensures SectionSeen(before + [line]) <==> SectionSeen(before) || IsSection(line)
  {
    hide IsSection;
    var lines := before + [line];
    if j :| 0 <= j < |before| && IsSection(before[j]) { assert IsSection(lines[j]); }
    assert lines[|before|] == line;
  }

  lemma {:induction false} CarriesSnoc(before: seq<string>, line: string)
    requires !(IsChapter(line) && IsSection(line))
    ensures CarriesOver(before + [line]) <==>
              (IsChapter(line) && SectionSeen(before)) || (!IsSection(line) && CarriesOver(before))
  {
    hide IsChapter, IsSection, SectionSeen;
    var lines, n := before + [line], |before|;
    assert lines[n] == line && lines[..n] == before;
    if IsChapter(line) && SectionSeen(before) { assert IsChapter(lines[n]) && SectionSeen(lines[..n]); }
    if !IsSection(line) && CarriesOver(before) {
      var k :| 0 <= k < n && IsChapter(before[k]) && SectionSeen(before[..k]) && forall m | k < m < n ::
          !IsSection(before[m]);
      assert lines[..k] == before[..k] && lines[k] == before[k];
      assert forall m | k < m < |lines| :: !IsSection(lines[m]);
    }
    if CarriesOver(lines) {
      var k :| 0 <= k <= n && IsChapter(lines[k]) && SectionSeen(lines[..k]) && forall m | k < m < |lines| ::
          !IsSection(lines[m]);
      if k < n {
        assert !IsSection(lines[n]);
        assert lines[..k] == before[..k] && lines[k] == before[k];
        assert forall m | k < m < n :: lines[m] == before[m];
      }
    }
  }

  /** What a line does to the headings depends on the line alone. */
  lemma {:induction false} StepHeading(dialect: Dialect, s: State, line: string)
    requires OpenValid(s)
    ensures Step(dialect, s, line).heading == Marked(s.heading, line)
  {
    hide ChapterMark, SectionMark, NoteMark, Level2Mark, Level3Mark, ParaMark, Strip, ScopeOf, ParaSort, NotesOf;
  }

  /** The headings h in force beside the expected ones e. */
  ghost predicate Beside(h: Heading, e: Heading, seen: bool, carried: bool) {
    && h.chapter == e.chapter && h.chapterTitle == e.chapterTitle
    && (h.section.Some? <==> seen) && (h.sectionTitle.Some? <==> seen)
    && (e.section.Some? <==> e.sectionTitle.Some?) && (e.section.Some? ==> h == e)
    && (h == e <==> !carried)
  }

  lemma {:induction false} BesideStep(h: Heading, e: Heading, seen: bool, carried: bool, line: string)
    requires Beside(h, e, seen, carried)
    ensures Beside(Marked(h, line), Reset(e, line), seen || IsSection(line),
                   (IsChapter(line) && seen) || (!IsSection(line) && carried))
  {
    hide ChapterMark, SectionMark, Strip;
  }

  /**
   The headings in force are the expected ones exactly when no section is carried over into a
   later chapter; the chapter itself is always right.
   */
  lemma {:induction false} HeadingIffNotCarried(dialect: Dialect, lines: seq<string>)
    ensures Beside(After(dialect, START, lines).heading, Expected(lines), SectionSeen(lines), CarriesOver(lines))
  {
    hide Step, IsChapter, IsSection, SectionSeen, CarriesOver, Marked, Reset, Beside;
    if lines == [] {
      AfterNone(dialect, START);
      NothingSeen();
    } else {
      var before, line := lines[..|lines| - 1], lines[|lines| - 1];
      assert lines == before + [line];
      AfterSnoc(dialect, START, before, line);
      HeadingIffNotCarried(dialect, before);
      StepHeading(dialect, After(dialect, START, before), line);
      BesideStep(After(dialect, START, before).heading, Expected(before), SectionSeen(before), CarriesOver(before),
          line);
      NotBoth(line);
      SeenSnoc(before, line);
      CarriesSnoc(before, line);
    }
  }

  lemma {:induction false} NotBoth(line: string)
    ensures !(IsChapter(line) && IsSection(line))
  {
  }

  lemma {:induction false} NothingSeen()
    ensures !SectionSeen([]) && !CarriesOver([]) && Beside(START.heading, Expected([]), false, false)
  {
  }

  /** Every node takes headings and scope from the lines before the one that opened it. */
  lemma {:induction false} NodeBorn(dialect: Dialect, lines: seq<string>, m: nat) returns (i: nat)
    requires m < |After(dialect, START, lines).nodes|
    ensures i < |lines| && |After(dialect, START, lines[..i]).nodes| == m
    ensures |After(dialect, START, lines[..i + 1]).nodes| == m + 1
    ensures var n, s := After(dialect, START, lines).nodes[m], After(dialect, START, lines[..i]);
            n.heading == s.heading && n.scope == s.scope
  {
    hide After, Step, Inv, KindOf;
    assert lines != [] by { AfterNone(dialect, START); }
    var before, line := lines[..|lines| - 1], lines[|lines| - 1];
    assert lines == before + [line];
    AfterSnoc(dialect, START, before, line);
    var s := After(dialect, START, before);
    ParseWellShaped(dialect, before);
    StepBirths(dialect, s, line);
    if m < |s.nodes| {
      i := NodeBorn(dialect, before, m);
      assert lines[..i] == before[..i] && lines[..i + 1] == before[..i + 1];
    } else {
      i := |before|;
      assert lines[..i] == before && lines[..i + 1] == lines;
    }
  }

  lemma {:induction false} StepBirths(dialect: Dialect, s: State, line: string)
    requires Inv(s)
    ensures var t := Step(dialect, s, line);
            && |s.nodes| <= |t.nodes| <= |s.nodes| + 1
            && (forall j | 0 <= j < |s.nodes| ::
                  t.nodes[j].heading == s.nodes[j].heading && t.nodes[j].scope == s.nodes[j].scope)
            && (|t.nodes| > |s.nodes| ==>
                  t.nodes[|s.nodes|].heading == s.heading && t.nodes[|s.nodes|].scope == s.scope)
  {
    hide Apply, Track, Classify;
    var k := KindOf(dialect, s, line);
    ApplyBirths(s, k, line);
    TrackKeeps(dialect, k, Apply(s, k, line));
  }

  lemma {:induction false} ApplyBirths(s: State, k: Kind, line: string)
    requires Inv(s)
    requires (k.Level2Line? || k.NoteLine? ==> s.openPara.Some?) && (k.Level3Line? ==> s.openLevel2.Some?)
    ensures var t := Apply(s, k, line);
            && |s.nodes| <= |t.nodes| <= |s.nodes| + 1
            && (forall j | 0 <= j < |s.nodes| ::
                  t.nodes[j].heading == s.nodes[j].heading && t.nodes[j].scope == s.nodes[j].scope)
            && (|t.nodes| > |s.nodes| ==>
                  t.nodes[|s.nodes|].heading == s.heading && t.nodes[|s.nodes|].scope == s.scope)
  {
    hide ScopeOf, Strip, ParaSort, NotesOf, WellShaped;
  }

  /** So a node carries a section of an earlier chapter exactly when no section line followed its chapter line. */
  lemma {:induction false} NodeIffNotCarried(dialect: Dialect, lines: seq<string>, m: nat) returns (i: nat)
    requires m < |After(dialect, START, lines).nodes|
    ensures i < |lines| && |After(dialect, START, lines[..i]).nodes| == m
    ensures |After(dialect, START, lines[..i + 1]).nodes| == m + 1
    ensures After(dialect, START, lines).nodes[m].heading == Expected(lines[..i]) <==> !CarriesOver(lines[..i])
    ensures After(dialect, START, lines).nodes[m].scope == TitleScope(After(dialect, START, lines).nodes[m].heading)
  {
    hide After, CarriesOver, Expected, TitleScope, SectionSeen;
    i := NodeBorn(dialect, lines, m);
    HeadingIffNotCarried(dialect, lines[..i]);
    ScopeFollowsSection(dialect, lines);
  }

  /* ---------- an input where the section is carried over ---------- */

  const CARRIED: seq<Block> := [
    ChapterBlock("I", None), SectionBlock('A', "Microfinance"), ChapterBlock("II", None),
    ParaBlock("1", Body("Banks.", []), [])]

  /** A paragraph of chapter II, listed under no section, is scoped to microfinance by a section of chapter I. */
  lemma {:induction false} SectionCarriedHere(dialect: Dialect)
    ensures var nodes := After(dialect, START,
            JoinAll(RawLines(Print(Listing(dialect, TreeEvents(CARRIED))), 0, 0))).nodes;
            && |nodes| == 1 && nodes[0].heading == Heading(Some("II"), None, Some("A"), Some("Microfinance"))
            && nodes[0].scope == ["microfinance"]
  {
    hide After, JoinAll, RawLines, Print, Listing, TreeEvents, TreeNodes, GoodTree, Rebuild, OutlineOf;
    CarriedGood(dialect);
    PrintThenParse(dialect, CARRIED);
    CarriedNodes();
  }

  lemma {:induction false} CarriedNodes()
    ensures TreeNodes(START.heading, [], 0, CARRIED) ==
              [ParaNode(Heading(Some("II"), None, Some("A"), Some("Microfinance")), ["microfinance"], 0, "1",
                  Body("Banks.", []))]
  {
    MicrofinanceScope();
    var base := ParaNode(Heading(Some("II"), None, Some("A"), Some("Microfinance")), ["microfinance"], 0, "1",
        Body("Banks.", []));
    var rest := CARRIED[1..];
    assert rest[1..] == CARRIED[2..] && CARRIED[2..][1..] == CARRIED[3..] && CARRIED[3..][1..] == [];
    assert ItemNodes(base, 1, 0, []) == [];
    assert TreeNodes(base.heading, ["microfinance"], 1, []) == [];
    assert TreeNodes(base.heading, ["microfinance"], 0, CARRIED[3..]) == [base];
  }

  lemma {:induction false} MicrofinanceScope()
    ensures ScopeOf("Microfinance") == ["microfinance"]
  {
    assert LowerCase("Microfinance") == "microfinance";
    assert OccursAt("microfinance", "microfinance", 0);
  }

  const CARRIED_EVENTS: seq<Event> := [
    ChapterEvent("I", None), SectionEvent('A', "Microfinance"), ChapterEvent("II", None),
    ParaEvent("1", Body("Banks.", []))]

  lemma {:induction false} CarriedGood(dialect: Dialect)
    ensures GoodTree(dialect, CARRIED)
    ensures forall l | l in Listing(dialect, TreeEvents(CARRIED)) :: OneLine(l)
  {
    hide GoodEvent, Listing, TreeEvents, OneLine;
    CarriedEvents();
    CarriedEventsGood(dialect);
    CarriedListing(dialect);
    CarriedOneLine();
  }

  lemma {:induction false} CarriedEventsGood(dialect: Dialect)
    ensures GoodEvents(dialect, CARRIED_EVENTS)
  {
    assert GoodEvent(dialect, CARRIED_EVENTS[0]) && GoodEvent(dialect, CARRIED_EVENTS[1]);
    assert GoodEvent(dialect, CARRIED_EVENTS[2]) && GoodEvent(dialect, CARRIED_EVENTS[3]);
  }

  lemma {:induction false} CarriedListing(dialect: Dialect)
    ensures Listing(dialect, CARRIED_EVENTS) == ["CHAPTER I", "A. Microfinance", "CHAPTER II", "1. Banks."]
  {
    hide Lines;
    var es := CARRIED_EVENTS;
    CarriedLines(dialect);
    assert es[1..][1..] == es[2..] && es[2..][1..] == es[3..] && es[3..][1..] == [];
    assert Listing(dialect, es[3..]) == ["1. Banks."] + [];
    assert Listing(dialect, es[2..]) == ["CHAPTER II"] + Listing(dialect, es[3..]);
    assert Listing(dialect, es[1..]) == ["A. Microfinance"] + Listing(dialect, es[2..]);
  }

  lemma {:induction false} CarriedOneLine()
    ensures OneLine("CHAPTER I") && OneLine("A. Microfinance") && OneLine("CHAPTER II") && OneLine("1. Banks.")
    ensures OneLine("Notebook entries.")
  {
  }

  lemma {:induction false} CarriedLines(dialect: Dialect)
    ensures Lines(dialect, ChapterEvent("I", None)) == ["CHAPTER I"]
    ensures Lines(dialect, ChapterEvent("II", None)) == ["CHAPTER II"]
    ensures Lines(dialect, SectionEvent('A', "Microfinance")) == ["A. Microfinance"]
    ensures Lines(dialect, ParaEvent("1", Body("Banks.", []))) == ["1. Banks."]
  {
    assert "CHAPTER" + " " + "I" == "CHAPTER I" && "CHAPTER" + " " + "II" == "CHAPTER II";
    assert ['A', '.'] + " " + "Microfinance" == "A. Microfinance";
    assert "1" + "." + " " + "Banks." == "1. Banks.";
  }

  lemma {:induction false} CarriedEvents()
    ensures TreeEvents(CARRIED) == CARRIED_EVENTS
  {
    assert CARRIED[1..][1..] == CARRIED[2..] && CARRIED[2..][1..] == CARRIED[3..] && CARRIED[3..][1..] == [];
    assert TreeEvents(CARRIED[3..]) == [ParaEvent("1", Body("Banks.", []))];
    assert TreeEvents(CARRIED[2..]) == [ChapterEvent("II", None)] + TreeEvents(CARRIED[3..]);
    assert TreeEvents(CARRIED[1..]) == [SectionEvent('A', "Microfinance")] + TreeEvents(CARRIED[2..]);
  }

  /* ---------- notes ---------- */

  lemma {:induction false} NoteHead(line: string)
    requires Plain(line) && StartsNote(line)
    ensures SkipSpaces(line) == line && |Head(line)| >= 4
    ensures (line[0] == 'n' || line[0] == 'N') && (line[1] == 'o' || line[1] == 'O')
    ensures Head(line)[0] == line[0] && Head(line)[1] == line[1]
  {
    assert LowerCase(line[..4])[0] == 'n' && LowerCase(line[..4])[1] == 'o';
    assert LowerCase(line[..4])[2] == 't' && LowerCase(line[..4])[3] == 'e';
    assert Lead(line) == 0;
    WordLengthIs(line);
    assert forall i | 0 <= i < 4 :: !IsSpace(line[i]);
  }

  /** With a paragraph open a line is a note exactly when it begins with the four letters, whatever follows. */
  lemma {:induction false} NoteIff(dialect: Dialect, s: State, line: string)
    requires Plain(line) && s.openPara.Some?
    ensures KindOf(dialect, s, line).NoteLine? <==> StartsNote(line)
  {
    hide Tail, NumeralLength, SkipSeparator, Strip, IsSpace, IsRoman;
    assert SkipSpaces(line) == line by { assert Lead(line) == 0; }
    if StartsNote(line) {
      NoteHead(line);
      NoMarkerLikeNote(dialect, line);
    }
  }

  lemma {:induction false} NoMarkerLikeNote(dialect: Dialect, line: string)
    requires |Head(line)| >= 4 && (Head(line)[0] == 'n' || Head(line)[0] == 'N')
    ensures ChapterMark(line).None? && SectionMark(line).None? && Level2Mark(dialect, line).None?
            && ParaMark(line).None?
  {
    hide Head, Tail, NumeralLength, SkipSeparator, Strip;
    var h := Head(line);
    assert !IsRomanWord(h) by {
      var r := LowerCase(h[..|h| - 1]);
      assert r[0] == 'n';
      if IsRoman(r) { RomanLetters(r); }
    }
    assert !IsParaWord(h) by { assert !Digit(h[0]); assert h[..|h| - 1][0] == h[0]; }
  }

  /** The wrap joiner's own test for a note: the word and a boundary. */
  predicate JoinerNote(line: string) { StartsNote(line) && (|line| == 4 || !WordChar(line[4])) }

  /** Parser and joiner agree on what a note is exactly when no word character follows the four letters. */
  lemma {:induction false} NoteAgreesIff(dialect: Dialect, s: State, line: string)
    requires Plain(line) && s.openPara.Some?
    ensures (KindOf(dialect, s, line).NoteLine? <==> JoinerNote(line))
            <==> !(StartsNote(line) && |line| > 4 && WordChar(line[4]))
  {
    hide KindOf, Plain;
    NoteIff(dialect, s, line);
  }

  /** So a line about a notebook becomes a note that begins in the middle of its first word. */
  lemma {:induction false} NotebookIsANote(dialect: Dialect, s: State)
    requires s.openPara.Some?
    ensures KindOf(dialect, s, "Notebook entries.") == NoteLine("book entries.") && !JoinerNote("Notebook entries.")
  {
    hide SkipSeparator, SkipSpaces, Classify;
    var line := "Notebook entries.";
    assert line[..4] == "Note" && LowerCase("Note") == "note";
    NoteIff(dialect, s, line);
    NoteText(dialect, s, line);
    assert line[4..] == "book entries.";
    SeparatorSkipped("book entries.");
  }

  /** And so does the second line of this text. */
  lemma {:induction false} NotebookText(dialect: Dialect)
    ensures var text := Print(["1. Banks.", "Notebook entries."]);
            var nodes := After(dialect, START, JoinAll(RawLines(text, 0, 0))).nodes;
            |nodes| == 2 && nodes[0].text == "Banks." && nodes[1].IsNote() && nodes[1].text == "book entries."
  {
    hide After, Step, JoinAll, RawLines, Print, Plain, OneLine;
    var first, second := "1. Banks.", "Notebook entries.";
    NotebookLines();
    CarriedOneLine();
    PrintedLines([first, second]);
    AfterTwo(dialect, first, second);
    BanksStep(dialect);
    NotebookStep(dialect, Step(dialect, START, first));
  }

  lemma {:induction false} AfterTwo(dialect: Dialect, first: string, second: string)
    ensures OpenValid(Step(dialect, START, first))
    ensures After(dialect, START, [first, second]) == Step(dialect, Step(dialect, START, first), second)
  {
    hide Step, After;
    StepOpenValid(dialect, START, first);
    AfterNone(dialect, START);
    AfterSnoc(dialect, START, [], first);
    AfterSnoc(dialect, START, [first], second);
    assert [] + [first] == [first] && [first] + [second] == [first, second];
  }

  lemma {:induction false} NotebookLines()
    ensures Plain("1. Banks.") && Plain("Notebook entries.")
    ensures JoinAll(["1. Banks.", "Notebook entries."]) == ["1. Banks.", "Notebook entries."]
  {
    hide JoinAll, EndsSentence;
    TrimmedEnd("1. Banks.");
    TwoLinesKept("1. Banks.", "Notebook entries.");
  }

  lemma {:induction false} TwoLinesKept(first: string, second: string)
    requires EndsSentence(first)
    ensures JoinAll([first, second]) == [first, second]
  {
    hide StartsMarker, EndsSentence;
    assert [first, second][..1] == [first] && [first][..0] == [];
    assert JoinAll([]) == [];
    assert JoinAll([first]) == [first];
  }

  lemma {:induction false} TrimmedEnd(line: string)
    requires line != "" && line[|line| - 1] == '.'
    ensures EndsSentence(line)
  {
    BodyOf(line, "");
    assert line + "" == line;
  }

  lemma {:induction false} BanksStep(dialect: Dialect)
    ensures var t := Step(dialect, START, "1. Banks.");
            OpenValid(t) && t.openPara == Some(0) && |t.nodes| == 1 && t.nodes[0].text == "Banks."
  {
    hide Step, GoodEvent, ParaSort;
    var e := ParaEvent("1", Body("Banks.", []));
    BanksGood(dialect);
    StepEffect(dialect, START, e, "Banks.");
    assert Marker(dialect, e) + " " + "Banks." == "1. Banks.";
  }

  lemma {:induction false} BanksGood(dialect: Dialect)
    ensures GoodEvent(dialect, ParaEvent("1", Body("Banks.", []))) && Plain("Banks.")
  {
  }

  lemma {:induction false} NotebookStep(dialect: Dialect, s: State)
    requires OpenValid(s) && s.openPara.Some?
    ensures var t := Step(dialect, s, "Notebook entries.");
            && |t.nodes| == |s.nodes| + 1 && t.nodes[..|s.nodes|] == s.nodes
            && t.nodes[|s.nodes|].IsNote() && t.nodes[|s.nodes|].text == "book entries."
  {
    hide Classify, NotesOf;
    NotebookIsANote(dialect, s);
  }

  lemma {:induction false} NoteText(dialect: Dialect, s: State, line: string)
    requires KindOf(dialect, s, line).NoteLine?
    ensures KindOf(dialect, s, line).body == SkipSeparator(SkipSpaces(line)[4..], ":.") && StartsNote(SkipSpaces(line))
    ensures Plain(line) ==> SkipSpaces(line) == line
  {
    hide SkipSeparator, ChapterMark, SectionMark, Level2Mark, Level3Mark, ParaMark;
  }

  lemma {:induction false} SeparatorSkipped(rest: string)
    requires rest != "" && !IsSpace(rest[0]) && rest[0] !in ":."
    ensures SkipSeparator(rest, ":.") == rest
  {
    assert Lead(rest) == 0;
  }

  lemma {:induction false} SkipSplit(s: string) returns (gap: string)
    ensures s == gap + SkipSpaces(s) && Blank(gap)
  {
    LeadIs(s);
    gap := s[..Lead(s)];
  }

  /** What a note line loses: the four letters, and after them at most one colon or full stop among spaces. */
  lemma {:induction false} NoteLineParts(dialect: Dialect, s: State, line: string)
      returns (gap: string, word: string, before: string, sign: string, after: string)
    requires KindOf(dialect, s, line).NoteLine?
    ensures line == gap + (word + (before + (sign + (after + KindOf(dialect, s, line).body))))
    ensures Blank(gap) && Blank(before) && Blank(after) && |word| == 4 && LowerCase(word) == "note"
    ensures sign == "" || sign == ":" || sign == "."
  {
    hide KindOf, SkipSeparator, SkipSpaces, Blank;
    NoteText(dialect, s, line);
    gap := SkipSplit(line);
    var l := SkipSpaces(line);
    word := l[..4];
    before, sign, after := SeparatorParts(l[4..]);
    assert l == word + l[4..];
  }

  lemma {:induction false} SeparatorParts(rest: string) returns (before: string, sign: string, after: string)
    ensures rest == before + (sign + (after + SkipSeparator(rest, ":.")))
    ensures Blank(before) && Blank(after) && (sign == "" || sign == ":" || sign == ".")
  {
    hide SkipSpaces, Blank;
    before := SkipSplit(rest);
    var r := SkipSpaces(rest);
    if r != "" && r[0] in ":." {
      sign := [r[0]];
      after := SkipSplit(r[1..]);
      assert r == sign + r[1..];
    } else {
      sign, after := "", "";
      NothingBlank();
      assert "" + ("" + r) == r;
    }
  }

  lemma {:induction false} NothingBlank()
    ensures Blank("")
  {
  }
}
