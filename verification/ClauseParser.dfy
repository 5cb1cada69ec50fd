/**
 The continuous-paragraph parser: a line state machine that turns the joined lines of an
 instrument into clause nodes, by stack context rather than by marker shape alone.
 */
module ClauseParser {
  import opened Results
  import opened Text
  import opened ClauseLines

  /* ---------- nodes ---------- */

  datatype Heading = Heading(
    chapter: Option<string>, chapterTitle: Option<string>,
    section: Option<string>, sectionTitle: Option<string>)

  datatype Level2 = Clause(name: string) | Note

  datatype Level3 = Letter(name: string) | NoteNumber(n: nat)

  datatype Node = Node(
    heading: Heading, para: string, paraSort: nat,
    level2: Option<Level2>, level3: Option<Level3>,
    text: string, order: nat, scope: seq<string>)
  {
    predicate IsPara() { level2.None? && level3.None? }
    predicate IsClause() { level2.Some? && level2.value.Clause? && level3.None? }
    predicate IsLetter() { level2.Some? && level2.value.Clause? && level3.Some? && level3.value.Letter? }
    predicate IsNote() { level2 == Some(Note) && level3.Some? && level3.value.NoteNumber? }
  }

  datatype Warning =
    | ChapterEmpty(chapter: string)
    | NotIncremented(number: string, previous: nat)
    | TooLong(number: string)
    | RomanSkips(name: string, previous: nat)

  /* ---------- paragraph sort keys and roman values ---------- */

  function LeadingDigits(n: string): (k: nat)
    ensures k <= |n|
  {
    if n == "" || !Digit(n[0]) then 0 else 1 + LeadingDigits(n[1..])
  }

  lemma {:induction false} LeadingDigitsIs(n: string)
    ensures AllDigits(n[..LeadingDigits(n)])
    ensures LeadingDigits(n) < |n| ==> !Digit(n[LeadingDigits(n)])
  {
    if n != "" && Digit(n[0]) {
      LeadingDigitsIs(n[1..]);
      assert n[..LeadingDigits(n)] == [n[0]] + n[1..][..LeadingDigits(n[1..])];
    }
  }

  function ParaSort(n: string): nat {
    LeadingDigitsIs(n);
    ToInt(n[..LeadingDigits(n)])
  }

  method ParaSortKey(number: string) returns (key: nat)
    ensures key == ParaSort(number)
  {
    var digits := "";
    var i := 0;
    LeadingDigitsIs(number);
    while i < |number| && Digit(number[i])
      invariant i <= LeadingDigits(number)
      invariant digits == number[..i] && AllDigits(digits)
    {
      assert i < LeadingDigits(number);
      digits := digits + [number[i]];
      i := i + 1;
    }
    assert i == LeadingDigits(number);
    return ToInt(digits);
  }

  function RomanValue(name: string): Option<nat> {
    match name
    case "i" => Some(1) case "ii" => Some(2) case "iii" => Some(3) case "iv" => Some(4) case "v" => Some(5)
    case "vi" => Some(6) case "vii" => Some(7) case "viii" => Some(8) case "ix" => Some(9) case "x" => Some(10)
    case "xi" => Some(11) case "xii" => Some(12) case "xiii" => Some(13) case "xiv" => Some(14) case "xv" => Some(15)
    case _ => None
  }

  /* ---------- the state machine ---------- */

  datatype State = State(
    nodes: seq<Node>, heading: Heading, scope: seq<string>,
    openPara: Option<nat>, openLevel2: Option<nat>,
    lastPara: Option<nat>, lastLevel2: Option<nat>, chapterParas: nat)

  const START := State([], Heading(None, None, None, None), [], None, None, None, None, 0)

  datatype Kind =
    | ChapterLine(mark: Mark)
    | SectionLine(mark: Mark)
    | ParaLine(mark: Mark)
    | Level2Line(mark: Mark)
    | Level3Line(mark: Mark)
    | NoteLine(body: string)
    | Continuation

  /** The branch a line takes, in the order the parser tries them. */
  function Classify(dialect: Dialect, paraOpen: bool, level2Open: bool, line: string): (k: Kind)
    ensures k.Level2Line? || k.NoteLine? ==> paraOpen
    ensures k.Level3Line? ==> level2Open
  {
    if ChapterMark(line).Some? then ChapterLine(ChapterMark(line).value)
    else if SectionMark(line).Some? then SectionLine(SectionMark(line).value)
    else
      var note := if paraOpen then NoteMark(line) else None;
      var level3 := if level2Open && note.None? then Level3Mark(line) else None;
      var level2 := if paraOpen && level3.None? then Level2Mark(dialect, line) else None;
      var para := if level2.None? then ParaMark(line) else None;
      if para.Some? then ParaLine(para.value)
      else if level2.Some? then Level2Line(level2.value)
      else if level3.Some? then Level3Line(level3.value)
      else if note.Some? then NoteLine(note.value)
      else Continuation
  }

  predicate Microfinance(title: string) {
    var t := LowerCase(title);
    Contains(t, "microfinance") || Contains(t, "mfi conduct") || Contains(t, "micro-finance")
  }

  function ScopeOf(title: string): seq<string> { if Microfinance(title) then ["microfinance"] else [] }

  /** The notes already attached to a paragraph number among the first n nodes. */
  function NotesOf(nodes: seq<Node>, para: string, n: nat): nat
    requires n <= |nodes|
  {
    if n == 0 then 0 else
      var here := if nodes[n - 1].para == para && nodes[n - 1].level2 == Some(Note) then 1 else 0;
      NotesOf(nodes, para, n - 1) + here
  }

  predicate OpenValid(s: State) {
    && (s.openPara.Some? ==> s.openPara.value < |s.nodes|)
    && (s.openLevel2.Some? ==> s.openLevel2.value < |s.nodes|)
  }

  /** A node below a paragraph takes everything but labels, text and scope from its parent. */
  function Child(s: State, parent: Node, level2: Level2, level3: Option<Level3>, text: string): Node {
    Node(parent.heading, parent.para, parent.paraSort, Some(level2), level3, text, |s.nodes|, s.scope)
  }

  function Appended(nodes: seq<Node>, line: string): seq<Node> {
    if nodes == [] then nodes else
      var last := nodes[|nodes| - 1];
      nodes[|nodes| - 1 := last.(text := Strip(last.text + " " + line))]
  }

  function Apply(s: State, k: Kind, line: string): State
    requires OpenValid(s)
    requires (k.Level2Line? || k.NoteLine? ==> s.openPara.Some?) && (k.Level3Line? ==> s.openLevel2.Some?)
  {
    match k
    case ChapterLine(m) =>
      s.(heading := s.heading.(chapter := Some(m.name), chapterTitle := if m.body == "" then None else Some(m.body)),
         chapterParas := 0, openPara := None, openLevel2 := None)
    case SectionLine(m) =>
      s.(heading := s.heading.(section := Some(m.name), sectionTitle := Some(Strip(m.body))),
         scope := ScopeOf(Strip(m.body)), openPara := None, openLevel2 := None)
    case ParaLine(m) =>
      s.(nodes := s.nodes + [Node(s.heading, m.name, ParaSort(m.name), None, None, m.body, |s.nodes|, s.scope)],
         openPara := Some(|s.nodes|), openLevel2 := None,
         lastPara := Some(ParaSort(m.name)), lastLevel2 := None, chapterParas := s.chapterParas + 1)
    case Level2Line(m) =>
      s.(nodes := s.nodes + [Child(s, s.nodes[s.openPara.value], Clause(m.name), None, m.body)],
         openLevel2 := Some(|s.nodes|))
    case Level3Line(m) =>
      var parent := s.nodes[s.openLevel2.value];
      s.(nodes := s.nodes + [Child(s, parent, Clause(m.name), None, m.body)
                               .(level2 := parent.level2, level3 := Some(Letter(m.name)))])
    case NoteLine(body) =>
      var parent := s.nodes[s.openPara.value];
      s.(nodes := s.nodes
           + [Child(s, parent, Note, Some(NoteNumber(NotesOf(s.nodes, parent.para, |s.nodes|) + 1)), body)])
    case Continuation => s.(nodes := Appended(s.nodes, line))
  }

  /** The roman sequence is only tracked in the roman dialect. */
  function Track(dialect: Dialect, k: Kind, s: State): State {
    if dialect.RomanDialect? && k.Level2Line? then s.(lastLevel2 := RomanValue(k.mark.name)) else s
  }

  function KindOf(dialect: Dialect, s: State, line: string): Kind {
    Classify(dialect, s.openPara.Some?, s.openLevel2.Some?, line)
  }

  function Step(dialect: Dialect, s: State, line: string): State
    requires OpenValid(s)
  {
    var k := KindOf(dialect, s, line);
    Track(dialect, k, Apply(s, k, line))
  }

  function EmptyChapter(s: State): seq<Warning> {
    if s.heading.chapter.Some? && s.chapterParas == 0 then [ChapterEmpty(s.heading.chapter.value)] else []
  }

  /** The warnings a line adds. */
  function Warns(dialect: Dialect, s: State, k: Kind): seq<Warning> {
    match k
    case ChapterLine(_) => EmptyChapter(s)
    case ParaLine(m) =>
      (if s.lastPara.Some? && ParaSort(m.name) != s.lastPara.value && ParaSort(m.name) != s.lastPara.value + 1
       then [NotIncremented(m.name, s.lastPara.value)] else [])
      + (if |m.body| > 4000 && '\n' !in m.body then [TooLong(m.name)] else [])
    case Level2Line(m) =>
      if dialect.RomanDialect? && RomanValue(m.name).Some? && s.lastLevel2.Some?
         && RomanValue(m.name).value != s.lastLevel2.value + 1
      then [RomanSkips(m.name, s.lastLevel2.value)] else []
    case _ => []
  }

  lemma {:induction false} StepOpenValid(dialect: Dialect, s: State, line: string)
    requires OpenValid(s)
    ensures OpenValid(Step(dialect, s, line))
  {
    hide ChapterMark, SectionMark, NoteMark, Level2Mark, Level3Mark, ParaMark, Strip, ScopeOf, ParaSort, NotesOf;
  }

  /** The state after the given lines. */
  function After(dialect: Dialect, s: State, lines: seq<string>): (t: State)
    requires OpenValid(s)
    ensures OpenValid(t)
  {
    if lines == [] then s else
      var before := After(dialect, s, lines[..|lines| - 1]);
      StepOpenValid(dialect, before, lines[|lines| - 1]);
      Step(dialect, before, lines[|lines| - 1])
  }

  function WarningsOf(dialect: Dialect, lines: seq<string>): seq<Warning> {
    if lines == [] then [] else
      var before := After(dialect, START, lines[..|lines| - 1]);
      WarningsOf(dialect, lines[..|lines| - 1]) + Warns(dialect, before, KindOf(dialect, before, lines[|lines| - 1]))
  }

  lemma AfterNone(dialect: Dialect, s: State)
    requires OpenValid(s)
    ensures After(dialect, s, []) == s && WarningsOf(dialect, []) == []
  {
  }

  lemma AfterSnoc(dialect: Dialect, s: State, lines: seq<string>, line: string)
    requires OpenValid(s)
    ensures After(dialect, s, lines + [line]) == Step(dialect, After(dialect, s, lines), line)
    ensures s == START ==>
      WarningsOf(dialect, lines + [line]) ==
        WarningsOf(dialect, lines)
        + Warns(dialect, After(dialect, START, lines), KindOf(dialect, After(dialect, START, lines), line))
  {
    assert (lines + [line])[..|lines|] == lines;
  }

  lemma {:induction false} AfterConcat(dialect: Dialect, s: State, a: seq<string>, b: seq<string>)
    requires OpenValid(s)
    ensures After(dialect, s, a + b) == After(dialect, After(dialect, s, a), b)
    decreases |b|
  {
    hide Step;
    if b == [] {
      assert a + b == a;
    } else {
      var c, l := b[..|b| - 1], b[|b| - 1];
      AfterConcat(dialect, s, a, c);
      assert b == c + [l];
      Associative(a, c, [l]);
      AfterSnoc(dialect, s, a + c, l);
      AfterSnoc(dialect, After(dialect, s, a), c, l);
    }
  }

  /* ---------- the parser as it runs ---------- */

  /** One line: adds or extends a node, opens and closes paragraphs and clauses, and warns. */
  method TakeLine(dialect: Dialect, s: State, line: string) returns (t: State, added: seq<Warning>)
    requires OpenValid(s)
    ensures t == Step(dialect, s, line)
    ensures added == Warns(dialect, s, KindOf(dialect, s, line))
  {
    hide Classify, ParaSort, NotesOf, ScopeOf, RomanValue, Strip;
    t, added := s, [];
    var k := Classify(dialect, s.openPara.Some?, s.openLevel2.Some?, line);
    match k {
      case ChapterLine(m) =>
        if s.heading.chapter.Some? && s.chapterParas == 0 { added := [ChapterEmpty(s.heading.chapter.value)]; }
        var title := if m.body == "" then None else Some(m.body);
        t := t.(heading := s.heading.(chapter := Some(m.name), chapterTitle := title));
        t := t.(chapterParas := 0, openPara := None, openLevel2 := None);
      case SectionLine(m) =>
        t := t.(heading := s.heading.(section := Some(m.name), sectionTitle := Some(Strip(m.body))));
        t := t.(scope := ScopeOf(Strip(m.body)), openPara := None, openLevel2 := None);
      case ParaLine(m) =>
        t, added := TakePara(dialect, s, m, line);
      case Level2Line(m) =>
        t, added := TakeLevel2(dialect, s, m, line);
      case Level3Line(m) =>
        var parent := s.nodes[s.openLevel2.value];
        t := t.(nodes := s.nodes + [Node(parent.heading, parent.para, parent.paraSort, parent.level2,
                                         Some(Letter(m.name)), m.body, |s.nodes|, s.scope)]);
      case NoteLine(body) =>
        var parent := s.nodes[s.openPara.value];
        var count := CountNotes(s.nodes, parent.para);
        t := t.(nodes := s.nodes + [Node(parent.heading, parent.para, parent.paraSort, Some(Note),
                                         Some(NoteNumber(count + 1)), body, |s.nodes|, s.scope)]);
      case Continuation =>
        if s.nodes != [] {
          var last := s.nodes[|s.nodes| - 1];
          t := t.(nodes := s.nodes[|s.nodes| - 1 := last.(text := Strip(last.text + " " + line))]);
        }
    }
  }

  method TakePara(dialect: Dialect, s: State, m: Mark, line: string) returns (t: State, added: seq<Warning>)
    requires OpenValid(s)
    ensures t == Track(dialect, ParaLine(m), Apply(s, ParaLine(m), line)) && added == Warns(dialect, s, ParaLine(m))
  {
    hide ParaSort;
    t, added := s, [];
    var key := ParaSortKey(m.name);
    if s.lastPara.Some? && key != s.lastPara.value && key != s.lastPara.value + 1 {
      added := [NotIncremented(m.name, s.lastPara.value)];
    }
    if |m.body| > 4000 && '\n' !in m.body { added := added + [TooLong(m.name)]; }
    t := t.(lastPara := Some(key), lastLevel2 := None, chapterParas := s.chapterParas + 1);
    t := t.(nodes := s.nodes + [Node(s.heading, m.name, key, None, None, m.body, |s.nodes|, s.scope)]);
    t := t.(openPara := Some(|s.nodes|), openLevel2 := None);
  }

  method TakeLevel2(dialect: Dialect, s: State, m: Mark, line: string) returns (t: State, added: seq<Warning>)
    requires OpenValid(s) && s.openPara.Some?
    ensures t == Track(dialect, Level2Line(m), Apply(s, Level2Line(m), line))
    ensures added == Warns(dialect, s, Level2Line(m))
  {
    hide RomanValue;
    t, added := s, [];
    if dialect.RomanDialect? {
      var value := RomanValue(m.name);
      if value.Some? && s.lastLevel2.Some? && value.value != s.lastLevel2.value + 1 {
        added := [RomanSkips(m.name, s.lastLevel2.value)];
      }
      t := t.(lastLevel2 := value);
    }
    var parent := s.nodes[s.openPara.value];
    t := t.(nodes := s.nodes + [Node(parent.heading, parent.para, parent.paraSort, Some(Clause(m.name)), None,
                                     m.body, |s.nodes|, s.scope)]);
    t := t.(openLevel2 := Some(|s.nodes|));
  }

  method Parse(dialect: Dialect, text: string) returns (nodes: seq<Node>, warnings: seq<Warning>)
    ensures var lines := JoinAll(RawLines(text, 0, 0));
            && nodes == After(dialect, START, lines).nodes
            && warnings == WarningsOf(dialect, lines) + EmptyChapter(After(dialect, START, lines))
  {
    hide Step, Warns, KindOf, After, WarningsOf, JoinAll, RawLines;
    var lines := JoinHardWraps(text);
    warnings := [];
    var state := START;
    AfterNone(dialect, START);
    assert lines[..0] == [];
    for i := 0 to |lines|
      invariant state == After(dialect, START, lines[..i])
      invariant warnings == WarningsOf(dialect, lines[..i])
    {
      assert lines[..i + 1] == lines[..i] + [lines[i]];
      AfterSnoc(dialect, START, lines[..i], lines[i]);
      var added;
      state, added := TakeLine(dialect, state, lines[i]);
      warnings := warnings + added;
    }
    assert lines[..|lines|] == lines;
    if state.heading.chapter.Some? && state.chapterParas == 0 {
      warnings := warnings + [ChapterEmpty(state.heading.chapter.value)];
    }
    nodes := state.nodes;
  }

  method CountNotes(nodes: seq<Node>, para: string) returns (count: nat)
    ensures count == NotesOf(nodes, para, |nodes|)
  {
    count := 0;
    for i := 0 to |nodes|
      invariant count == NotesOf(nodes, para, i)
    {
      if nodes[i].para == para && nodes[i].level2 == Some(Note) { count := count + 1; }
    }
  }
}
