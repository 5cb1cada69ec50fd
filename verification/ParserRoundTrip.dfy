/**
 Listing a clause tree one marker per line, with bodies wrapped over any number of further
 lines, and parsing the listing recovers exactly that tree.
 */
module ParserRoundTrip {
  import opened Results
  import opened Text
  import opened ClauseLines
  import opened ClauseParser

  /* ---------- clause trees ---------- */

  /** A body and the lines it is wrapped over. */
  datatype Body = Body(first: string, more: seq<string>)

  datatype LetterItem = LetterItem(letter: char, body: Body)

  datatype Item =
    | ClauseItem(name: string, body: Body, letters: seq<LetterItem>)
    | NoteItem(body: Body)

  datatype Block =
    | ChapterBlock(number: string, title: Option<string>)
    | SectionBlock(letter: char, caption: string)
    | ParaBlock(number: string, body: Body, items: seq<Item>)

  function TextOf(b: Body, n: nat): string
    requires n <= |b.more|
  {
    if n == 0 then b.first else TextOf(b, n - 1) + " " + b.more[n - 1]
  }

  function FullText(b: Body): string { TextOf(b, |b.more|) }

  /** Opens like a marker, followed by anything or nothing. */
  predicate Opens(line: string) { MarkerWord(Head(line)) || StartsNote(line) }

  predicate GoodBody(b: Body) {
    Plain(b.first) && forall i | 0 <= i < |b.more| :: Plain(b.more[i]) && !Opens(b.more[i])
  }

  /* ---------- the listing as a sequence of marked entries ---------- */

  datatype Event =
    | ChapterEvent(number: string, title: Option<string>)
    | SectionEvent(letter: char, caption: string)
    | ParaEvent(number: string, body: Body)
    | ClauseEvent(name: string, body: Body)
    | LetterEvent(letter: char, body: Body)
    | NoteEvent(body: Body)
  {
    predicate IsHeading() { ChapterEvent? || SectionEvent? }
  }

  predicate IsChapterNumber(n: string) { n != "" && forall i | 0 <= i < |n| :: IsChapterNumeral(n[i]) }

  predicate GoodEvent(dialect: Dialect, e: Event) {
    match e
    case ChapterEvent(number, title) => IsChapterNumber(number) && (title.Some? ==> Plain(title.value))
    case SectionEvent(letter, title) => Upper(letter) && Plain(title)
    case ParaEvent(number, body) => IsParaNumber(number) && GoodBody(body)
    case ClauseEvent(name, body) =>
      && GoodBody(body)
      && (match dialect
          case RomanDialect => name != "" && IsRoman(name)
          case ParenNumeral => 1 <= |name| <= 2 && AllDigits(name))
    case LetterEvent(name, body) => Lower(name) && GoodBody(body)
    case NoteEvent(body) => GoodBody(body)
  }

  /** The marker a listing writes in front of an entry. */
  function Marker(dialect: Dialect, e: Event): string {
    match e
    case ChapterEvent(_, _) => "CHAPTER"
    case SectionEvent(letter, _) => [letter, '.']
    case ParaEvent(number, _) => number + "."
    case ClauseEvent(name, _) => if dialect.RomanDialect? then name + "." else "(" + name + ")"
    case LetterEvent(name, _) => ['(', name, ')']
    case NoteEvent(_) => "Note:"
  }

  function Remainder(e: Event): string {
    match e
    case ChapterEvent(number, title) => if title.None? then number else number + (" - " + title.value)
    case SectionEvent(_, title) => title
    case _ => e.body.first
  }

  function Wraps(e: Event): seq<string> { if e.IsHeading() then [] else e.body.more }

  function Lines(dialect: Dialect, e: Event): seq<string> {
    [Marker(dialect, e) + " " + Remainder(e)] + Wraps(e)
  }

  function Listing(dialect: Dialect, es: seq<Event>): seq<string> {
    if es == [] then [] else Lines(dialect, es[0]) + Listing(dialect, es[1..])
  }

  /** The branch the parser should take on an entry whose text so far is `text`. */
  function EventKind(e: Event, text: string): Kind {
    match e
    case ChapterEvent(number, title) => ChapterLine(Mark(number, if title.None? then "" else title.value))
    case SectionEvent(letter, title) => SectionLine(Mark([letter], title))
    case ParaEvent(number, _) => ParaLine(Mark(number, text))
    case ClauseEvent(name, _) => Level2Line(Mark(name, text))
    case LetterEvent(name, _) => Level3Line(Mark([name], text))
    case NoteEvent(_) => NoteLine(text)
  }

  /** The entry has a place to hang on. */
  predicate Fits(s: State, e: Event) {
    && (e.ClauseEvent? || e.NoteEvent? ==> s.openPara.Some?)
    && (e.LetterEvent? ==> s.openLevel2.Some? && s.openPara.Some?)
  }

  /* ---------- markers are recognised ---------- */

  predicate NoSpaces(h: string) { forall i | 0 <= i < |h| :: !IsSpace(h[i]) }

  lemma {:induction false} NoSpacesConcat(a: string, b: string)
    requires NoSpaces(a) && NoSpaces(b)
    ensures NoSpaces(a + b)
  {
    hide IsSpace;
  }

  lemma {:induction false} DigitsSolid(s: string)
    requires AllDigits(s)
    ensures NoSpaces(s)
  {
    forall i | 0 <= i < |s| ensures !IsSpace(s[i]) { assert Digit(s[i]); }
  }

  lemma {:induction false} RomanLetters(s: string)
    requires IsRoman(s)
    ensures forall i | 0 <= i < |s| :: s[i] == 'i' || s[i] == 'v' || s[i] == 'x'
    ensures LowerCase(s) == s && NoSpaces(s)
  {
    assert IsRoman(s);
  }

  lemma {:induction false} LiteralsSolid(c: char)
    requires c == '.' || Upper(c) || Lower(c)
    ensures NoSpaces("CHAPTER") && NoSpaces("Note:") && NoSpaces(".") && NoSpaces("(") && NoSpaces(")") && NoSpaces([c])
  {
  }

  lemma {:induction false} ParaNumberSolid(n: string)
    requires IsParaNumber(n)
    ensures NoSpaces(n)
  {
    hide IsSpace;
    if AllDigits(n) {
      DigitsSolid(n);
    } else {
      var k := |n| - 1;
      DigitsSolid(n[..k]);
      LiteralsSolid(n[k]);
      NoSpacesConcat(n[..k], [n[k]]);
      assert n == n[..k] + [n[k]];
    }
  }

  lemma {:induction false} MarkerSolid(dialect: Dialect, e: Event)
    requires GoodEvent(dialect, e)
    ensures NoSpaces(Marker(dialect, e)) && Marker(dialect, e) != ""
  {
    hide NoSpaces, IsSpace, IsRoman, IsParaNumber, GoodBody;
    match e {
      case ChapterEvent(_, _) => LiteralsSolid('.');
      case SectionEvent(letter, _) =>
        LiteralsSolid(letter);
        NoSpacesConcat([letter], ".");
        assert [letter] + "." == [letter, '.'];
      case ParaEvent(number, _) =>
        LiteralsSolid('.');
        ParaNumberSolid(number);
        NoSpacesConcat(number, ".");
      case ClauseEvent(name, _) =>
        LiteralsSolid('.');
        if dialect.RomanDialect? {
          RomanLetters(name);
          NoSpacesConcat(name, ".");
        } else {
          DigitsSolid(name);
          NoSpacesConcat("(", name);
          NoSpacesConcat("(" + name, ")");
        }
      case LetterEvent(letter, _) =>
        LiteralsSolid(letter);
        NoSpacesConcat("(", [letter]);
        NoSpacesConcat("(" + [letter], ")");
        assert "(" + [letter] + ")" == ['(', letter, ')'];
      case NoteEvent(_) => LiteralsSolid('.');
    }
  }

  lemma {:induction false} MarkerSplit(dialect: Dialect, e: Event, text: string)
    requires GoodEvent(dialect, e) && Plain(text)
    ensures var l := Marker(dialect, e) + " " + text;
            && Head(l) == Marker(dialect, e) && Tail(l) == text && HeadFollowed(l) && Lead(l) == 0
            && SkipSpaces(l) == l && l[0] == Marker(dialect, e)[0]
  {
    hide Head, Tail, HeadFollowed, IsSpace, Marker, GoodEvent;
    MarkerSolid(dialect, e);
    HeadTailOf(Marker(dialect, e), text);
  }

  lemma {:induction false} NotANote(l: string)
    requires l != "" && l[0] != 'n' && l[0] != 'N'
    ensures !StartsNote(l)
  {
    if |l| >= 4 { assert LowerCase(l[..4])[0] == ToLower(l[0]); }
  }

  lemma {:induction false} ParaKind(dialect: Dialect, s: State, number: string, text: string)
    requires IsParaNumber(number) && Plain(text)
    requires var l := number + "." + " " + text;
             Head(l) == number + "." && Tail(l) == text && SkipSpaces(l) == l && l[0] == number[0]
    ensures KindOf(dialect, s, number + "." + " " + text) == ParaLine(Mark(number, text))
  {
    hide Head, Tail, SkipSpaces, NumeralLength, SkipSeparator, Strip, IsSpace;
    var h := number + ".";
    var l := h + " " + text;
    assert Digit(number[0]) by { assert AllDigits(number) || AllDigits(number[..|number| - 1]); }
    assert h[0] == number[0] && h[..|h| - 1] == number;
    NotANote(l);
    assert !IsRoman(LowerCase(number)) by { NoDigitRoman(number); }
  }

  lemma {:induction false} NoDigitRoman(n: string)
    requires n != "" && Digit(n[0])
    ensures !IsRoman(LowerCase(n))
  {
    var m := LowerCase(n);
    assert m[0] == n[0];
    if IsRoman(m) { RomanLetters(m); }
  }

  lemma {:induction false} RomanKind(s: State, name: string, text: string)
    requires name != "" && IsRoman(name) && Plain(text) && s.openPara.Some?
    requires var l := name + "." + " " + text;
             Head(l) == name + "." && Tail(l) == text && SkipSpaces(l) == l && l[0] == name[0]
    ensures KindOf(RomanDialect, s, name + "." + " " + text) == Level2Line(Mark(name, text))
  {
    hide Head, Tail, SkipSpaces, NumeralLength, SkipSeparator, Strip, IsSpace, IsRoman;
    var h := name + ".";
    RomanLetters(name);
    assert name[0] == 'i' || name[0] == 'v' || name[0] == 'x';
    assert h[0] == name[0] && h[..|h| - 1] == name;
    NotANote(h + " " + text);
  }

  lemma {:induction false} NumeralKind(s: State, name: string, text: string)
    requires 1 <= |name| <= 2 && AllDigits(name) && Plain(text) && s.openPara.Some?
    requires var l := "(" + name + ")" + " " + text;
             Head(l) == "(" + name + ")" && Tail(l) == text && SkipSpaces(l) == l && l[0] == '('
    ensures KindOf(ParenNumeral, s, "(" + name + ")" + " " + text) == Level2Line(Mark(name, text))
  {
    hide Head, Tail, SkipSpaces, NumeralLength, SkipSeparator, Strip, IsSpace, IsRoman;
    var h := "(" + name + ")";
    assert Digit(name[0]);
    assert h[0] == '(' && h[1] == name[0] && h[1..|h| - 1] == name && h[|h| - 1] == ')';
    NotANote(h + " " + text);
  }

  lemma {:induction false} LetterKind(dialect: Dialect, s: State, letter: char, text: string)
    requires Lower(letter) && Plain(text) && s.openPara.Some? && s.openLevel2.Some?
    requires var l := ['(', letter, ')'] + " " + text;
             Head(l) == ['(', letter, ')'] && Tail(l) == text && SkipSpaces(l) == l && l[0] == '('
    ensures KindOf(dialect, s, ['(', letter, ')'] + " " + text) == Level3Line(Mark([letter], text))
  {
    hide Head, Tail, SkipSpaces, NumeralLength, SkipSeparator, Strip, IsSpace, IsRoman;
    var h := ['(', letter, ')'];
    assert h[1..2] == [letter];
    NotANote(h + " " + text);
  }

  lemma {:induction false} NoteRecognised(text: string)
    requires Plain(text) && SkipSpaces("Note:" + " " + text) == "Note:" + " " + text
    ensures NoteMark("Note:" + " " + text) == Some(text)
  {
    hide SkipSeparator, SkipSpaces;
    var l := "Note:" + " " + text;
    assert LowerCase(l[..4]) == "note" by { assert l[..4] == "Note"; }
    assert l[4..] == ":" + (" " + text);
    ColonSkipped(text);
  }

  lemma {:induction false} NoteKind(dialect: Dialect, s: State, text: string)
    requires Plain(text) && s.openPara.Some?
    requires var l := "Note:" + " " + text;
             Head(l) == "Note:" && Tail(l) == text && SkipSpaces(l) == l
    ensures KindOf(dialect, s, "Note:" + " " + text) == NoteLine(text)
  {
    hide Head, Tail, NumeralLength, Strip, IsSpace, IsRoman, IsParaNumber, NoteMark, SkipSpaces, SkipSeparator;
    NoteRecognised(text);
  }

  lemma {:induction false} ColonSkipped(text: string)
    requires Plain(text)
    ensures SkipSeparator(":" + (" " + text), ":.") == text
  {
    var r := ":" + (" " + text);
    assert SkipSpaces(r) == r;
    assert r[1..] == " " + text;
    LeadOf(" ", text);
    assert SkipSpaces(" " + text) == text;
  }

  lemma {:induction false} NumeralLengthOf(n: string, rest: string)
    requires (forall i | 0 <= i < |n| :: IsChapterNumeral(n[i])) && (rest == "" || !IsChapterNumeral(rest[0]))
    ensures NumeralLength(n + rest) == |n|
    decreases |n|
  {
    if n == "" {
      assert n + rest == rest;
    } else {
      assert (n + rest)[1..] == n[1..] + rest;
      NumeralLengthOf(n[1..], rest);
    }
  }

  lemma {:induction false} DashSkipped(title: string)
    requires Plain(title)
    ensures Strip(SkipSeparator(" - " + title, DASHES)) == title
  {
    var r := "- " + title;
    LeadOf(" ", r);
    assert " " + r == " - " + title;
    assert SkipSpaces(" - " + title) == r;
    assert r[0] == '-' && '-' in DASHES by { assert DASHES[0] == '-'; }
    assert r[1..] == " " + title;
    LeadOf(" ", title);
    assert SkipSpaces(" " + title) == title;
    TrimmedIsStripped(title);
  }

  lemma {:induction false} NothingSkipped()
    ensures Strip(SkipSeparator("", DASHES)) == ""
  {
  }

  /** What follows the word CHAPTER is cut into number and title as it was put together. */
  lemma {:induction false} ChapterCut(number: string, title: Option<string>)
    requires IsChapterNumber(number) && (title.Some? ==> Plain(title.value))
    ensures var t := Remainder(ChapterEvent(number, title));
            && NumeralLength(t) == |number| && t[..|number|] == number
            && Strip(SkipSeparator(t[|number|..], DASHES)) == (if title.None? then "" else title.value)
  {
    hide Strip, SkipSeparator;
    var t := Remainder(ChapterEvent(number, title));
    if title.None? {
      NumeralLengthOf(number, "");
      assert number + "" == number;
      assert t[|number|..] == "";
      NothingSkipped();
    } else {
      var rest := " - " + title.value;
      NumeralLengthOf(number, rest);
      assert t[|number|..] == rest;
      DashSkipped(title.value);
    }
  }

  lemma {:induction false} RemainderPlain(dialect: Dialect, e: Event)
    requires GoodEvent(dialect, e)
    ensures Plain(Remainder(e))
  {
    if e.ChapterEvent? {
      var n := e.number;
      assert !IsSpace(n[0]) && !IsSpace(n[|n| - 1]) by {
        assert IsChapterNumeral(n[0]) && IsChapterNumeral(n[|n| - 1]);
      }
      if e.title.Some? {
        var r := Remainder(e);
        assert r[0] == n[0] && r[|r| - 1] == e.title.value[|e.title.value| - 1];
      }
    }
  }

  /** Every entry takes the branch meant for it, whatever its text has grown to. */
  lemma {:induction false} EventRecognised(dialect: Dialect, s: State, e: Event, text: string)
    requires GoodEvent(dialect, e) && Fits(s, e) && Plain(text) && (e.IsHeading() ==> text == Remainder(e))
    ensures KindOf(dialect, s, Marker(dialect, e) + " " + text) == EventKind(e, text)
  {
    hide Head, Tail, KindOf, SkipSpaces, IsSpace, HeadFollowed, IsRoman, IsParaNumber, GoodBody;
    MarkerSplit(dialect, e, text);
    match e {
      case ChapterEvent(number, title) => ChapterKind(dialect, s, number, title);
      case SectionEvent(letter, caption) => SectionKind(dialect, s, letter, caption);
      case ParaEvent(number, _) =>
        assert Marker(dialect, e)[0] == number[0] by { ParaNumberSome(number); }
        ParaKind(dialect, s, number, text);
      case ClauseEvent(name, _) =>
        if dialect.RomanDialect? {
          RomanKind(s, name, text);
        } else {
          NumeralKind(s, name, text);
        }
      case LetterEvent(letter, _) => LetterKind(dialect, s, letter, text);
      case NoteEvent(_) => NoteKind(dialect, s, text);
    }
  }

  lemma {:induction false} ParaNumberSome(number: string)
    requires IsParaNumber(number)
    ensures number != ""
  {
  }

  lemma {:induction false} ChapterKind(dialect: Dialect, s: State, number: string, title: Option<string>)
    requires IsChapterNumber(number) && (title.Some? ==> Plain(title.value))
    requires var l := "CHAPTER" + " " + Remainder(ChapterEvent(number, title));
             Head(l) == "CHAPTER" && Tail(l) == Remainder(ChapterEvent(number, title))
    ensures KindOf(dialect, s, "CHAPTER" + " " + Remainder(ChapterEvent(number, title)))
         == EventKind(ChapterEvent(number, title), Remainder(ChapterEvent(number, title)))
  {
    hide Head, Tail, SkipSpaces, SkipSeparator, Strip, NumeralLength, Remainder;
    ChapterCut(number, title);
  }

  lemma {:induction false} SectionKind(dialect: Dialect, s: State, letter: char, caption: string)
    requires Upper(letter) && Plain(caption)
    requires var l := [letter, '.'] + " " + caption; Head(l) == [letter, '.'] && Tail(l) == caption
    ensures KindOf(dialect, s, [letter, '.'] + " " + caption) == SectionLine(Mark([letter], caption))
  {
    hide Head, Tail, SkipSpaces, SkipSeparator, Strip, NumeralLength;
    assert [letter, '.'][..1] == [letter];
  }

  /* ---------- continuations are recognised as such ---------- */

  lemma {:induction false} ContinuationKind(dialect: Dialect, s: State, c: string)
    requires Plain(c) && !Opens(c)
    ensures KindOf(dialect, s, c) == Continuation
    ensures !StartsMarker(c)
  {
    hide Head, Tail, SkipSeparator, SkipSpaces, Strip, NumeralLength, HeadFollowed, Lead, StartsNote,
         MarkerWord, IsSectionWord, IsParaWord, IsRomanWord, IsNumeralWord, IsLetterWord;
    PlainUnskipped(c);
    NoMarkerWord(Head(c));
  }

  lemma {:induction false} NoMarkerWord(h: string)
    requires !MarkerWord(h)
    ensures h != "CHAPTER" && !IsSectionWord(h) && !IsParaWord(h) && !IsRomanWord(h)
    ensures !IsNumeralWord(h) && !IsLetterWord(h)
  {
    hide IsRoman, IsParaNumber;
    assert h == "CHAPTER" ==> LowerCase(h) == "chapter";
  }

  lemma {:induction false} PlainUnskipped(c: string)
    requires Plain(c)
    ensures SkipSpaces(c) == c
  {
    assert c[0..] == c;
  }

  lemma {:induction false} GluedStaysShut(l: string, c: string)
    requires Plain(l) && Plain(c) && !Opens(l)
    ensures !Opens(l + " " + c)
  {
    hide MarkerWord, Head, Tail, HeadFollowed, StartsNote;
    HeadTailExtend(l, c);
    GluedNoNote(l, c);
  }

  lemma {:induction false} GluedNoNote(l: string, c: string)
    requires !StartsNote(l)
    ensures !StartsNote(l + " " + c)
  {
    var m := l + " " + c;
    if |l| >= 4 {
      assert m[..4] == l[..4];
    } else if |m| >= 4 {
      assert m[|l|] == ' ';
      assert LowerCase(m[..4])[|l|] == ' ';
    }
  }

  lemma {:induction false} EventStartsMarker(dialect: Dialect, e: Event)
    requires GoodEvent(dialect, e)
    ensures StartsMarker(Marker(dialect, e) + " " + Remainder(e))
  {
    hide Head, HeadFollowed, Lead, Remainder, GoodBody;
    RemainderPlain(dialect, e);
    MarkerSplit(dialect, e, Remainder(e));
    var h := Marker(dialect, e);
    var l := h + " " + Remainder(e);
    match e {
      case ChapterEvent(_, _) => assert LowerCase("CHAPTER") == "chapter";
      case SectionEvent(_, _) =>
      case ParaEvent(number, _) => assert h[..|h| - 1] == number;
      case ClauseEvent(name, _) =>
        if dialect.RomanDialect? {
          RomanLetters(name);
          assert h[..|h| - 1] == name;
        } else {
          assert h[1..|h| - 1] == name;
        }
      case LetterEvent(_, _) =>
      case NoteEvent(_) =>
        assert l[..4] == "Note" && l[4] == ':';
        assert LowerCase("Note") == "note";
    }
  }

  /* ---------- one entry ---------- */

  /** What an entry with this text does to the parser state. */
  function EffectWith(dialect: Dialect, s: State, e: Event, text: string): (t: State)
    requires OpenValid(s) && Fits(s, e)
    ensures OpenValid(t)
  {
    var k := EventKind(e, text);
    Track(dialect, k, Apply(s, k, ""))
  }

  function EventText(e: Event): string { if e.IsHeading() then Remainder(e) else FullText(e.body) }

  function Effect(dialect: Dialect, s: State, e: Event): (t: State)
    requires OpenValid(s) && Fits(s, e)
    ensures OpenValid(t)
  {
    EffectWith(dialect, s, e, EventText(e))
  }

  lemma {:induction false} StepEffect(dialect: Dialect, s: State, e: Event, text: string)
    requires OpenValid(s) && Fits(s, e) && GoodEvent(dialect, e) && Plain(text)
    requires e.IsHeading() ==> text == Remainder(e)
    ensures Step(dialect, s, Marker(dialect, e) + " " + text) == EffectWith(dialect, s, e, text)
  {
    hide Classify, Marker, GoodEvent;
    EventRecognised(dialect, s, e, text);
    assert !EventKind(e, text).Continuation?;
  }

  /** Gluing a wrapped piece to a text, whatever surrounded the text. */
  lemma {:induction false} StripGlue(u: string, l: string, c: string)
    requires Plain(l) && Plain(c)
    ensures Strip(u + " " + (l + " " + c)) == Strip(Strip(u + " " + l) + " " + c)
  {
    hide Strip, IsSpace;
    var x := u + " " + l;
    var p, q := StripParts(x);
    StripTrimmed(x);
    var m := Strip(x);
    assert x[|x| - 1] == l[|l| - 1];
    assert q == "";
    assert m == "" ==> x == p;
    GluePlain(m, c);
    TrimmedIsStripped(m + " " + c);
    assert u + " " + (l + " " + c) == p + (m + " " + c);
    PaddedStrip(p, m + " " + c);
  }

  lemma {:induction false} PaddedStrip(p: string, m: string)
    requires Blank(p) && Plain(m)
    ensures Strip(p + m) == m
  {
    LeadOf(p, m);
    assert SkipSpaces(p + m) == m;
  }

  lemma {:induction false} AppendedTwice(nodes: seq<Node>, l: string, c: string)
    requires Plain(l) && Plain(c)
    ensures Appended(nodes, l + " " + c) == Appended(Appended(nodes, l), c)
  {
    hide Strip;
    if nodes != [] { StripGlue(nodes[|nodes| - 1].text, l, c); }
  }

  lemma {:induction false} EffectExtends(dialect: Dialect, s: State, e: Event, text: string, c: string)
    requires OpenValid(s) && Fits(s, e) && !e.IsHeading() && Plain(text) && Plain(c)
    ensures var t := EffectWith(dialect, s, e, text);
            && t.nodes != []
            && EffectWith(dialect, s, e, text + " " + c) == t.(nodes := Appended(t.nodes, c))
  {
    hide Strip, NotesOf, ParaSort, RomanValue;
    GluePlain(text, c);
    TrimmedIsStripped(text + " " + c);
  }

  lemma {:induction false} ContinuationStep(dialect: Dialect, s: State, c: string)
    requires OpenValid(s) && Plain(c) && !Opens(c)
    ensures Step(dialect, s, c) == s.(nodes := Appended(s.nodes, c))
  {
    hide Classify, Opens;
    ContinuationKind(dialect, s, c);
  }

  /** The first n pieces of an entry, joined. */
  function EntryJoined(dialect: Dialect, e: Event, n: nat): seq<string>
    requires !e.IsHeading() && n <= |e.body.more|
  {
    if n == 0 then [Marker(dialect, e) + " " + e.body.first]
    else JoinOne(EntryJoined(dialect, e, n - 1), e.body.more[n - 1])
  }

  /** The joined lines j of an entry with this much text have had the effect of that text. */
  ghost predicate EntryDone(dialect: Dialect, s: State, e: Event, j: seq<string>, text: string)
    requires OpenValid(s) && Fits(s, e)
  {
    && j != [] && Plain(text)
    && After(dialect, s, j) == EffectWith(dialect, s, e, text)
    && (if |j| == 1 then j[0] == Marker(dialect, e) + " " + text
        else Plain(j[|j| - 1]) && !Opens(j[|j| - 1]))
  }

  lemma {:induction false} EntryStart(dialect: Dialect, s: State, e: Event)
    requires OpenValid(s) && Fits(s, e) && !e.IsHeading() && GoodEvent(dialect, e)
    ensures EntryDone(dialect, s, e, [Marker(dialect, e) + " " + e.body.first], e.body.first)
  {
    hide After, Step, Marker, EffectWith, Opens, GoodEvent, Fits;
    EventBody(dialect, e);
    var l := Marker(dialect, e) + " " + e.body.first;
    AfterNone(dialect, s);
    AfterSnoc(dialect, s, [], l);
    assert [] + [l] == [l];
    StepEffect(dialect, s, e, e.body.first);
  }

  lemma {:induction false} EventBody(dialect: Dialect, e: Event)
    requires GoodEvent(dialect, e) && !e.IsHeading()
    ensures GoodBody(e.body)
  {
    hide GoodBody, IsRoman, IsParaNumber;
  }

  lemma {:induction false} EntryNext(dialect: Dialect, s: State, e: Event, j: seq<string>, text: string, c: string)
    requires OpenValid(s) && Fits(s, e) && !e.IsHeading() && GoodEvent(dialect, e)
    requires EntryDone(dialect, s, e, j, text) && Plain(c) && !Opens(c)
    ensures EntryDone(dialect, s, e, JoinOne(j, c), text + " " + c)
  {
    hide After, Step, Marker, EffectWith, Opens, StartsMarker, EndsSentence, EventKind, Fits, GoodEvent, Appended;
    ContinuationKind(dialect, s, c);
    GluePlain(text, c);
    EffectExtends(dialect, s, e, text, c);
    var last := j[|j| - 1];
    if EndsSentence(last) {
      SeparateLater(dialect, s, j, c);
    } else if |j| == 1 {
      GluedFirst(dialect, s, e, text, c);
      assert j[..0] + [last + " " + c] == [last + " " + c];
    } else {
      GluedLater(dialect, s, j, c);
      GluedStaysShut(last, c);
      GluePlain(last, c);
    }
  }

  lemma {:induction false} SeparateLater(dialect: Dialect, s: State, j: seq<string>, c: string)
    requires OpenValid(s) && Plain(c) && !Opens(c)
    ensures var done := After(dialect, s, j);
            After(dialect, s, j + [c]) == done.(nodes := Appended(done.nodes, c))
  {
    hide After, Step, Opens, Appended;
    AfterSnoc(dialect, s, j, c);
    ContinuationStep(dialect, After(dialect, s, j), c);
  }

  lemma {:induction false} GluedFirst(dialect: Dialect, s: State, e: Event, text: string, c: string)
    requires OpenValid(s) && Fits(s, e) && !e.IsHeading() && GoodEvent(dialect, e) && Plain(text) && Plain(c)
    ensures var l := Marker(dialect, e) + " " + text + " " + c;
            && After(dialect, s, [l]) == EffectWith(dialect, s, e, text + " " + c)
            && l == Marker(dialect, e) + " " + (text + " " + c)
  {
    hide Step, Marker, EffectWith;
    var l := Marker(dialect, e) + " " + text + " " + c;
    GluePlain(text, c);
    assert l == Marker(dialect, e) + " " + (text + " " + c);
    AfterNone(dialect, s);
    AfterSnoc(dialect, s, [], l);
    assert [] + [l] == [l];
    StepEffect(dialect, s, e, text + " " + c);
  }

  lemma {:induction false} GluedLater(dialect: Dialect, s: State, j: seq<string>, c: string)
    requires OpenValid(s) && j != [] && Plain(c) && !Opens(c)
    requires Plain(j[|j| - 1]) && !Opens(j[|j| - 1])
    ensures var done := After(dialect, s, j);
            After(dialect, s, j[..|j| - 1] + [j[|j| - 1] + " " + c]) == done.(nodes := Appended(done.nodes, c))
  {
    hide After, Step, Opens;
    var init, last := j[..|j| - 1], j[|j| - 1];
    assert j == init + [last];
    AfterSnoc(dialect, s, init, last);
    AfterSnoc(dialect, s, init, last + " " + c);
    var s0 := After(dialect, s, init);
    ContinuationStep(dialect, s0, last);
    GluedStaysShut(last, c);
    GluePlain(last, c);
    ContinuationStep(dialect, s0, last + " " + c);
    AppendedTwice(s0.nodes, last, c);
  }

  lemma {:induction false} EntryAll(dialect: Dialect, s: State, e: Event, n: nat)
    requires OpenValid(s) && Fits(s, e) && !e.IsHeading() && GoodEvent(dialect, e) && n <= |e.body.more|
    ensures EntryDone(dialect, s, e, EntryJoined(dialect, e, n), TextOf(e.body, n))
  {
    hide EntryDone, GoodEvent, Fits, JoinOne, Opens;
    EventBody(dialect, e);
    if n == 0 {
      EntryStart(dialect, s, e);
    } else {
      EntryAll(dialect, s, e, n - 1);
      EntryNext(dialect, s, e, EntryJoined(dialect, e, n - 1), TextOf(e.body, n - 1), e.body.more[n - 1]);
    }
  }

  lemma {:induction false} EntryIsJoin(dialect: Dialect, e: Event, n: nat)
    requires !e.IsHeading() && n <= |e.body.more|
    ensures EntryJoined(dialect, e, n) == JoinAll([Marker(dialect, e) + " " + e.body.first] + e.body.more[..n])
  {
    hide Marker, JoinOne;
    var first := Marker(dialect, e) + " " + e.body.first;
    if n == 0 {
      assert [first] + e.body.more[..0] == [first];
      JoinSingle(first);
    } else {
      EntryIsJoin(dialect, e, n - 1);
      var ls := [first] + e.body.more[..n];
      assert ls[..|ls| - 1] == [first] + e.body.more[..n - 1];
    }
  }

  lemma {:induction false} JoinSingle(l: string)
    ensures JoinAll([l]) == [l]
  {
    assert [l][..0] == [];
  }

  /** Joining and parsing the lines of one entry has exactly the effect of the entry. */
  lemma {:induction false} EntryParsed(dialect: Dialect, s: State, e: Event)
    requires OpenValid(s) && Fits(s, e) && GoodEvent(dialect, e)
    ensures After(dialect, s, JoinAll(Lines(dialect, e))) == Effect(dialect, s, e)
  {
    hide Step, Marker, EffectWith, Opens, JoinOne;
    if e.IsHeading() {
      var l := Marker(dialect, e) + " " + Remainder(e);
      assert Lines(dialect, e) == [l];
      JoinSingle(l);
      AfterNone(dialect, s);
      AfterSnoc(dialect, s, [], l);
      assert [] + [l] == [l];
      RemainderPlain(dialect, e);
      StepEffect(dialect, s, e, Remainder(e));
    } else {
      var n := |e.body.more|;
      EntryAll(dialect, s, e, n);
      EntryIsJoin(dialect, e, n);
      assert e.body.more[..n] == e.body.more;
    }
  }

  /* ---------- a whole listing ---------- */

  lemma {:induction false} JoinConcat(a: seq<string>, b: seq<string>)
    requires b != [] && StartsMarker(b[0])
    ensures JoinAll(a + b) == JoinAll(a) + JoinAll(b) && JoinAll(b) != []
    decreases |b|
  {
    hide StartsMarker, JoinOne;
    var init, l := b[..|b| - 1], b[|b| - 1];
    assert (a + b)[..|a + b| - 1] == a + init;
    if init == [] {
      assert a + init == a;
      assert b == [l];
      JoinSingle(l);
      JoinMarker(JoinAll(a), l);
    } else {
      JoinConcat(a, init);
      JoinOneConcat(JoinAll(a), JoinAll(init), l);
    }
  }

  lemma {:induction false} JoinMarker(x: seq<string>, l: string)
    requires StartsMarker(l)
    ensures JoinOne(x, l) == x + [l]
  {
    hide StartsMarker, EndsSentence;
  }

  lemma {:induction false} JoinOneConcat(x: seq<string>, y: seq<string>, l: string)
    requires y != []
    ensures JoinOne(x + y, l) == x + JoinOne(y, l) && JoinOne(y, l) != []
  {
    hide StartsMarker, EndsSentence;
    assert (x + y)[..|x + y| - 1] == x + y[..|y| - 1];
  }

  /** Every entry finds its place as the entries before it take effect. */
  ghost predicate Legal(dialect: Dialect, s: State, es: seq<Event>)
    requires OpenValid(s)
    decreases |es|
  {
    es == [] || (GoodEvent(dialect, es[0]) && Fits(s, es[0]) && Legal(dialect, Effect(dialect, s, es[0]), es[1..]))
  }

  ghost function RunEvents(dialect: Dialect, s: State, es: seq<Event>): (t: State)
    requires OpenValid(s) && Legal(dialect, s, es)
    ensures OpenValid(t)
    decreases |es|
  {
    if es == [] then s else RunEvents(dialect, Effect(dialect, s, es[0]), es[1..])
  }

  lemma {:induction false} ListingParsed(dialect: Dialect, s: State, es: seq<Event>)
    requires OpenValid(s) && Legal(dialect, s, es)
    ensures After(dialect, s, JoinAll(Listing(dialect, es))) == RunEvents(dialect, s, es)
    decreases |es|
  {
    hide Effect, GoodEvent, Fits, Lines, JoinOne, Step;
    if es == [] {
      AfterNone(dialect, s);
    } else {
      var e, rest := es[0], es[1..];
      EntryParsed(dialect, s, e);
      ListingParsed(dialect, Effect(dialect, s, e), rest);
      var a, b := Lines(dialect, e), Listing(dialect, rest);
      if rest == [] {
        assert a + b == a;
        AfterNone(dialect, Effect(dialect, s, e));
      } else {
        LinesStart(dialect, rest[0]);
        assert b[0] == Lines(dialect, rest[0])[0];
        JoinConcat(a, b);
        AfterConcat(dialect, s, JoinAll(a), JoinAll(b));
      }
    }
  }

  lemma {:induction false} LinesStart(dialect: Dialect, e: Event)
    requires GoodEvent(dialect, e)
    ensures Lines(dialect, e) != [] && StartsMarker(Lines(dialect, e)[0])
  {
    hide GoodEvent, StartsMarker, Marker, Remainder;
    EventStartsMarker(dialect, e);
  }

  lemma {:induction false} RunConcat(dialect: Dialect, s: State, a: seq<Event>, b: seq<Event>)
    requires OpenValid(s) && Legal(dialect, s, a) && Legal(dialect, RunEvents(dialect, s, a), b)
    ensures Legal(dialect, s, a + b)
    ensures RunEvents(dialect, s, a + b) == RunEvents(dialect, RunEvents(dialect, s, a), b)
    decreases |a|
  {
    hide Effect, GoodEvent, Fits;
    if a == [] {
      assert a + b == b;
    } else {
      RunConcat(dialect, Effect(dialect, s, a[0]), a[1..], b);
      assert (a + b)[1..] == a[1..] + b;
    }
  }

  lemma {:induction false} RunOne(dialect: Dialect, s: State, e: Event)
    requires OpenValid(s) && GoodEvent(dialect, e) && Fits(s, e)
    ensures Legal(dialect, s, [e]) && RunEvents(dialect, s, [e]) == Effect(dialect, s, e)
  {
    hide Effect, GoodEvent, Fits;
    assert [e][1..] == [];
  }

  /* ---------- trees as entries, and as nodes ---------- */

  function LetterEvents(ls: seq<LetterItem>): seq<Event> {
    if ls == [] then [] else [LetterEvent(ls[0].letter, ls[0].body)] + LetterEvents(ls[1..])
  }

  function ItemEvents(items: seq<Item>): seq<Event> {
    if items == [] then [] else
    match items[0]
    case ClauseItem(name, body, letters) =>
      [ClauseEvent(name, body)] + LetterEvents(letters) + ItemEvents(items[1..])
    case NoteItem(body) => [NoteEvent(body)] + ItemEvents(items[1..])
  }

  function BlockEvents(b: Block): seq<Event> {
    match b
    case ChapterBlock(number, title) => [ChapterEvent(number, title)]
    case SectionBlock(letter, caption) => [SectionEvent(letter, caption)]
    case ParaBlock(number, body, items) => [ParaEvent(number, body)] + ItemEvents(items)
  }

  function TreeEvents(bs: seq<Block>): seq<Event> {
    if bs == [] then [] else BlockEvents(bs[0]) + TreeEvents(bs[1..])
  }

  /** The nodes of the letters of a clause, in order. */
  function LetterNodes(base: Node, name: string, order: nat, ls: seq<LetterItem>): seq<Node>
    decreases |ls|
  {
    if ls == [] then [] else
      [LetterNode(base, name, order, ls[0])] + LetterNodes(base, name, order + 1, ls[1..])
  }

  /** The nodes below a paragraph; its notes are numbered from notes + 1. */
  function ItemNodes(base: Node, order: nat, notes: nat, items: seq<Item>): seq<Node>
    decreases |items|
  {
    if items == [] then [] else
    match items[0]
    case ClauseItem(name, body, letters) =>
      [base.(level2 := Some(Clause(name)), text := FullText(body), order := order)]
      + LetterNodes(base, name, order + 1, letters)
      + ItemNodes(base, order + 1 + |letters|, notes, items[1..])
    case NoteItem(body) =>
      [base.(level2 := Some(Note), level3 := Some(NoteNumber(notes + 1)), text := FullText(body), order := order)]
      + ItemNodes(base, order + 1, notes + 1, items[1..])
  }

  function ParaNode(h: Heading, scope: seq<string>, order: nat, number: string, body: Body): Node {
    Node(h, number, ParaSort(number), None, None, FullText(body), order, scope)
  }

  /** The clause nodes of a tree, under the headings in force, in document order. */
  function TreeNodes(h: Heading, scope: seq<string>, order: nat, bs: seq<Block>): seq<Node>
    decreases |bs|
  {
    if bs == [] then [] else
    match bs[0]
    case ChapterBlock(number, title) =>
      TreeNodes(h.(chapter := Some(number), chapterTitle := title), scope, order, bs[1..])
    case SectionBlock(letter, caption) =>
      TreeNodes(h.(section := Some([letter]), sectionTitle := Some(caption)), ScopeOf(caption), order, bs[1..])
    case ParaBlock(number, body, items) =>
      var base := ParaNode(h, scope, order, number, body);
      var below := ItemNodes(base, order + 1, 0, items);
      [base] + below + TreeNodes(h, scope, order + 1 + |below|, bs[1..])
  }

  predicate GoodEvents(dialect: Dialect, es: seq<Event>) { forall e | e in es :: GoodEvent(dialect, e) }

  predicate DistinctNumbers(bs: seq<Block>) {
    forall i, j | 0 <= i < j < |bs| && bs[i].ParaBlock? && bs[j].ParaBlock? :: bs[i].number != bs[j].number
  }

  /** Labels and bodies the dialect can list, and no paragraph number used twice. */
  predicate GoodTree(dialect: Dialect, bs: seq<Block>) {
    GoodEvents(dialect, TreeEvents(bs)) && DistinctNumbers(bs)
  }

  lemma {:induction false} LetterCount(base: Node, name: string, order: nat, ls: seq<LetterItem>)
    ensures |LetterNodes(base, name, order, ls)| == |ls|
    decreases |ls|
  {
    if ls != [] { LetterCount(base, name, order + 1, ls[1..]); }
  }

  /* ---------- the entries of a tree build its nodes ---------- */

  /** The state has this paragraph open. */
  predicate UnderPara(s: State, base: Node) {
    && OpenValid(s) && s.openPara.Some? && s.nodes[s.openPara.value] == base
    && base.IsPara() && s.scope == base.scope && s.heading == base.heading
  }

  /** The state has this clause of the open paragraph open. */
  predicate UnderClause(s: State, base: Node, name: string) {
    && UnderPara(s, base) && s.openLevel2.Some?
    && var q := s.nodes[s.openLevel2.value];
    && q.heading == base.heading && q.para == base.para && q.paraSort == base.paraSort
    && q.level2 == Some(Clause(name))
  }

  function LetterNode(base: Node, name: string, order: nat, l: LetterItem): Node {
    base.(level2 := Some(Clause(name)), level3 := Some(Letter([l.letter])), text := FullText(l.body), order := order)
  }

  lemma {:induction false} LetterStep(dialect: Dialect, s: State, base: Node, name: string, l: LetterItem)
    requires OpenValid(s) && UnderClause(s, base, name)
    ensures var e := LetterEvent(l.letter, l.body);
            && Fits(s, e)
            && Effect(dialect, s, e) == s.(nodes := s.nodes + [LetterNode(base, name, |s.nodes|, l)])
            && UnderClause(Effect(dialect, s, e), base, name)
  {
    hide FullText, NotesOf, ParaSort, RomanValue, ScopeOf;
  }

  lemma {:induction false} LettersRun(dialect: Dialect, s: State, base: Node, name: string, ls: seq<LetterItem>)
    requires OpenValid(s) && UnderClause(s, base, name) && GoodEvents(dialect, LetterEvents(ls))
    ensures Legal(dialect, s, LetterEvents(ls))
    ensures RunEvents(dialect, s, LetterEvents(ls)) == s.(nodes := s.nodes + LetterNodes(base, name, |s.nodes|, ls))
    decreases |ls|
  {
    hide GoodEvent, LetterNode, UnderClause, Effect, Fits;
    if ls == [] {
      assert s.nodes + [] == s.nodes;
    } else {
      var e := LetterEvent(ls[0].letter, ls[0].body);
      assert LetterEvents(ls)[0] == e && LetterEvents(ls)[1..] == LetterEvents(ls[1..]);
      LetterStep(dialect, s, base, name, ls[0]);
      var t := Effect(dialect, s, e);
      var n := LetterNode(base, name, |s.nodes|, ls[0]);
      LettersRun(dialect, t, base, name, ls[1..]);
      Associative(s.nodes, [n], LetterNodes(base, name, |s.nodes| + 1, ls[1..]));
    }
  }

  lemma {:induction false} NotesConcat(a: seq<Node>, b: seq<Node>, para: string, n: nat)
    requires n <= |b|
    ensures NotesOf(a + b, para, |a| + n) == NotesOf(a, para, |a|) + NotesOf(b, para, n)
  {
    if n == 0 {
      NotesPrefix(a, b, para, |a|);
    } else {
      NotesConcat(a, b, para, n - 1);
      assert (a + b)[|a| + n - 1] == b[n - 1];
    }
  }

  lemma {:induction false} NotesPrefix(a: seq<Node>, b: seq<Node>, para: string, n: nat)
    requires n <= |a|
    ensures NotesOf(a + b, para, n) == NotesOf(a, para, n)
  {
    if n != 0 {
      NotesPrefix(a, b, para, n - 1);
      assert (a + b)[n - 1] == a[n - 1];
    }
  }

  lemma {:induction false} NoNotes(b: seq<Node>, para: string, n: nat)
    requires n <= |b| && forall i | 0 <= i < |b| :: b[i].level2 != Some(Note) || b[i].para != para
    ensures NotesOf(b, para, n) == 0
  {
    if n != 0 { NoNotes(b, para, n - 1); }
  }

  lemma {:induction false} LettersAreClauses(base: Node, name: string, order: nat, ls: seq<LetterItem>)
    ensures forall i | 0 <= i < |LetterNodes(base, name, order, ls)| ::
              LetterNodes(base, name, order, ls)[i].level2 == Some(Clause(name))
    decreases |ls|
  {
    hide FullText;
    if ls != [] { LettersAreClauses(base, name, order + 1, ls[1..]); }
  }

  lemma {:induction false} UnderParaGrows(s: State, t: State, base: Node, more: seq<Node>)
    requires UnderPara(s, base) && OpenValid(t) && t.nodes == s.nodes + more
    requires t.openPara == s.openPara && t.scope == s.scope && t.heading == s.heading
    ensures UnderPara(t, base)
  {
  }

  lemma {:induction false} ClauseRun(dialect: Dialect, s: State, base: Node, name: string, body: Body,
      ls: seq<LetterItem>)
      returns (t: State, more: seq<Node>)
    requires UnderPara(s, base) && GoodEvent(dialect, ClauseEvent(name, body)) && GoodEvents(dialect, LetterEvents(ls))
    ensures Legal(dialect, s, [ClauseEvent(name, body)] + LetterEvents(ls))
    ensures t == RunEvents(dialect, s, [ClauseEvent(name, body)] + LetterEvents(ls))
    ensures more == [base.(level2 := Some(Clause(name)), text := FullText(body), order := |s.nodes|)]
                    + LetterNodes(base, name, |s.nodes| + 1, ls)
    ensures UnderPara(t, base) && t.nodes == s.nodes + more
  {
    hide GoodEvent, FullText, NotesOf, ParaSort, RomanValue, ScopeOf, Legal, RunEvents, LetterEvents;
    var e := ClauseEvent(name, body);
    var u := Effect(dialect, s, e);
    var c := base.(level2 := Some(Clause(name)), text := FullText(body), order := |s.nodes|);
    assert u.nodes == s.nodes + [c] && u.openLevel2 == Some(|s.nodes|);
    UnderParaGrows(s, u, base, [c]);
    assert UnderClause(u, base, name);
    RunOne(dialect, s, e);
    LettersRun(dialect, u, base, name, ls);
    RunConcat(dialect, s, [e], LetterEvents(ls));
    t := RunEvents(dialect, s, [e] + LetterEvents(ls));
    var letters := LetterNodes(base, name, |s.nodes| + 1, ls);
    more := [c] + letters;
    Associative(s.nodes, [c], letters);
    UnderParaGrows(s, t, base, more);
  }

  lemma {:induction false} NoteRun(dialect: Dialect, s: State, base: Node, notes: nat, body: Body)
      returns (t: State, n: Node)
    requires UnderPara(s, base) && GoodEvent(dialect, NoteEvent(body))
    requires NotesOf(s.nodes, base.para, |s.nodes|) == notes
    ensures Legal(dialect, s, [NoteEvent(body)]) && t == RunEvents(dialect, s, [NoteEvent(body)])
    ensures n == base.(level2 := Some(Note), level3 := Some(NoteNumber(notes + 1)), text := FullText(body),
            order := |s.nodes|)
    ensures UnderPara(t, base) && t.nodes == s.nodes + [n]
  {
    hide GoodEvent, FullText, NotesOf, ParaSort, RomanValue, ScopeOf, Legal, RunEvents;
    RunOne(dialect, s, NoteEvent(body));
    t := Effect(dialect, s, NoteEvent(body));
    n := base.(level2 := Some(Note), level3 := Some(NoteNumber(notes + 1)), text := FullText(body), order := |s.nodes|);
    assert t.nodes == s.nodes + [n];
    UnderParaGrows(s, t, base, [n]);
  }

  lemma {:induction false} NotesAfterClause(nodes: seq<Node>, base: Node, name: string, body: Body, order: nat,
      ls: seq<LetterItem>)
    ensures var more := [base.(level2 := Some(Clause(name)), text := FullText(body), order := order)]
                        + LetterNodes(base, name, order + 1, ls);
            NotesOf(nodes + more, base.para, |nodes + more|) == NotesOf(nodes, base.para, |nodes|)
  {
    hide FullText;
    var more := [base.(level2 := Some(Clause(name)), text := FullText(body), order := order)]
                + LetterNodes(base, name, order + 1, ls);
    LettersAreClauses(base, name, order + 1, ls);
    NotesConcat(nodes, more, base.para, |more|);
    NoNotes(more, base.para, |more|);
  }

  lemma {:induction false} NotesAfterNote(nodes: seq<Node>, n: Node)
    requires n.level2 == Some(Note)
    ensures NotesOf(nodes + [n], n.para, |nodes + [n]|) == NotesOf(nodes, n.para, |nodes|) + 1
  {
    NotesConcat(nodes, [n], n.para, 1);
  }

  lemma {:induction false} ItemsRun(dialect: Dialect, s: State, base: Node, notes: nat, items: seq<Item>)
    requires UnderPara(s, base) && GoodEvents(dialect, ItemEvents(items))
    requires NotesOf(s.nodes, base.para, |s.nodes|) == notes
    ensures Legal(dialect, s, ItemEvents(items))
    ensures var t := RunEvents(dialect, s, ItemEvents(items));
            t.nodes == s.nodes + ItemNodes(base, |s.nodes|, notes, items) && UnderPara(t, base)
    decreases |items|
  {
    if items == [] {
      assert s.nodes + [] == s.nodes;
    } else {
      ItemsRunStep(dialect, s, base, notes, items);
    }
  }

  lemma {:induction false} ItemsRunStep(dialect: Dialect, s: State, base: Node, notes: nat, items: seq<Item>)
    requires OpenValid(s) && UnderPara(s, base) && GoodEvents(dialect, ItemEvents(items)) && items != []
    requires NotesOf(s.nodes, base.para, |s.nodes|) == notes
    ensures Legal(dialect, s, ItemEvents(items))
    ensures var t := RunEvents(dialect, s, ItemEvents(items));
            t.nodes == s.nodes + ItemNodes(base, |s.nodes|, notes, items) && UnderPara(t, base)
    decreases |items|, 0
  {
    hide GoodEvent, FullText, NotesOf, Legal, RunEvents, UnderPara, LetterEvents, LetterNodes;
    var rest := items[1..];
    match items[0] {
      case ClauseItem(name, body, ls) =>
        var es := [ClauseEvent(name, body)] + LetterEvents(ls);
        assert ClauseEvent(name, body) in ItemEvents(items);
        assert GoodEvents(dialect, LetterEvents(ls)) && GoodEvents(dialect, ItemEvents(rest));
        var t, more := ClauseRun(dialect, s, base, name, body, ls);
        NotesAfterClause(s.nodes, base, name, body, |s.nodes|, ls);
        LetterCount(base, name, |s.nodes| + 1, ls);
        ItemsRun(dialect, t, base, notes, rest);
        RunConcat(dialect, s, es, ItemEvents(rest));
        Associative(s.nodes, more, ItemNodes(base, |t.nodes|, notes, rest));
      case NoteItem(body) =>
        assert NoteEvent(body) in ItemEvents(items);
        assert GoodEvents(dialect, ItemEvents(rest));
        var t, n := NoteRun(dialect, s, base, notes, body);
        NotesAfterNote(s.nodes, n);
        ItemsRun(dialect, t, base, notes + 1, rest);
        RunConcat(dialect, s, [NoteEvent(body)], ItemEvents(rest));
        Associative(s.nodes, [n], ItemNodes(base, |t.nodes|, notes + 1, rest));
    }
  }

  /* ---------- whole trees ---------- */

  /** None of the paragraphs to come is in the nodes already. */
  predicate Fresh(nodes: seq<Node>, bs: seq<Block>) {
    forall i, b | 0 <= i < |nodes| && b in bs && b.ParaBlock? :: nodes[i].para != b.number
  }

  lemma {:induction false} ItemsKeepPara(base: Node, order: nat, notes: nat, items: seq<Item>)
    ensures forall n | n in ItemNodes(base, order, notes, items) :: n.para == base.para
    decreases |items|
  {
    hide FullText;
    if items != [] {
      match items[0] {
        case ClauseItem(name, body, ls) =>
          LettersKeepPara(base, name, order + 1, ls);
          ItemsKeepPara(base, order + 1 + |ls|, notes, items[1..]);
        case NoteItem(_) =>
          ItemsKeepPara(base, order + 1, notes + 1, items[1..]);
      }
    }
  }

  lemma {:induction false} LettersKeepPara(base: Node, name: string, order: nat, ls: seq<LetterItem>)
    ensures forall n | n in LetterNodes(base, name, order, ls) :: n.para == base.para
    decreases |ls|
  {
    hide FullText;
    if ls != [] { LettersKeepPara(base, name, order + 1, ls[1..]); }
  }

  lemma {:induction false} ParaRun(dialect: Dialect, s: State, number: string, body: Body, items: seq<Item>)
      returns (t: State, more: seq<Node>)
    requires OpenValid(s) && GoodEvents(dialect, [ParaEvent(number, body)] + ItemEvents(items))
    requires forall i | 0 <= i < |s.nodes| :: s.nodes[i].para != number
    ensures Legal(dialect, s, [ParaEvent(number, body)] + ItemEvents(items))
    ensures t == RunEvents(dialect, s, [ParaEvent(number, body)] + ItemEvents(items))
    ensures var base := ParaNode(s.heading, s.scope, |s.nodes|, number, body);
            && more == [base] + ItemNodes(base, |s.nodes| + 1, 0, items)
            && t.nodes == s.nodes + more && UnderPara(t, base)
            && (forall n | n in more :: n.para == number)
  {
    hide GoodEvent, FullText, NotesOf, ParaSort, Legal, RunEvents, ItemEvents, ItemNodes;
    var e := ParaEvent(number, body);
    var base := ParaNode(s.heading, s.scope, |s.nodes|, number, body);
    var u := Effect(dialect, s, e);
    assert e in [e] + ItemEvents(items);
    assert GoodEvents(dialect, ItemEvents(items));
    assert u.nodes == s.nodes + [base] && UnderPara(u, base);
    RunOne(dialect, s, e);
    NotesConcat(s.nodes, [base], number, 1);
    NoNotes(s.nodes, number, |s.nodes|);
    NoNotes([base], number, 1);
    ItemsRun(dialect, u, base, 0, items);
    RunConcat(dialect, s, [e], ItemEvents(items));
    t := RunEvents(dialect, s, [e] + ItemEvents(items));
    var below := ItemNodes(base, |s.nodes| + 1, 0, items);
    more := [base] + below;
    Associative(s.nodes, [base], below);
    ItemsKeepPara(base, |s.nodes| + 1, 0, items);
  }

  /** What a heading block changes. */
  predicate HeadingChange(s: State, t: State, b: Block) {
    && t.nodes == s.nodes
    && (b.ChapterBlock? ==>
          t.heading == s.heading.(chapter := Some(b.number), chapterTitle := b.title) && t.scope == s.scope)
    && (b.SectionBlock? ==>
          t.heading == s.heading.(section := Some([b.letter]), sectionTitle := Some(b.caption))
          && t.scope == ScopeOf(b.caption))
  }

  lemma {:induction false} HeadingEffect(dialect: Dialect, s: State, b: Block)
    requires OpenValid(s) && !b.ParaBlock? && GoodEvent(dialect, BlockEvents(b)[0])
    ensures Fits(s, BlockEvents(b)[0]) && HeadingChange(s, Effect(dialect, s, BlockEvents(b)[0]), b)
  {
    hide ScopeOf, Strip, IsChapterNumber;
    if b.SectionBlock? { TrimmedIsStripped(b.caption); }
  }

  lemma {:induction false} HeadingRun(dialect: Dialect, s: State, b: Block)
    requires OpenValid(s) && !b.ParaBlock? && GoodEvents(dialect, BlockEvents(b))
    ensures Legal(dialect, s, BlockEvents(b))
    ensures HeadingChange(s, RunEvents(dialect, s, BlockEvents(b)), b)
  {
    hide Legal, RunEvents, GoodEvent, Effect, HeadingChange;
    var e := BlockEvents(b)[0];
    assert BlockEvents(b) == [e];
    assert e in BlockEvents(b);
    HeadingEffect(dialect, s, b);
    RunOne(dialect, s, e);
  }

  lemma {:induction false} FreshNow(nodes: seq<Node>, bs: seq<Block>)
    requires Fresh(nodes, bs) && bs != [] && bs[0].ParaBlock?
    ensures forall i | 0 <= i < |nodes| :: nodes[i].para != bs[0].number
  {
    assert bs[0] in bs;
  }

  lemma {:induction false} TreeRun(dialect: Dialect, s: State, bs: seq<Block>)
    requires OpenValid(s) && GoodTree(dialect, bs) && Fresh(s.nodes, bs)
    ensures Legal(dialect, s, TreeEvents(bs))
    ensures RunEvents(dialect, s, TreeEvents(bs)).nodes == s.nodes + TreeNodes(s.heading, s.scope, |s.nodes|, bs)
    decreases |bs|, 1
  {
    if bs == [] {
      assert s.nodes + [] == s.nodes;
    } else if bs[0].ParaBlock? {
      TreeRunPara(dialect, s, bs);
    } else {
      TreeRunHeading(dialect, s, bs);
    }
  }

  lemma {:induction false} GoodTreeParts(dialect: Dialect, bs: seq<Block>)
    requires GoodTree(dialect, bs) && bs != []
    ensures GoodEvents(dialect, BlockEvents(bs[0])) && GoodTree(dialect, bs[1..])
  {
    hide GoodEvent, BlockEvents;
    assert forall e | e in BlockEvents(bs[0]) :: e in TreeEvents(bs);
    assert forall e | e in TreeEvents(bs[1..]) :: e in TreeEvents(bs);
  }

  lemma {:induction false} TreeRunPara(dialect: Dialect, s: State, bs: seq<Block>)
    requires OpenValid(s) && GoodTree(dialect, bs) && Fresh(s.nodes, bs) && bs != [] && bs[0].ParaBlock?
    ensures Legal(dialect, s, TreeEvents(bs))
    ensures RunEvents(dialect, s, TreeEvents(bs)).nodes == s.nodes + TreeNodes(s.heading, s.scope, |s.nodes|, bs)
    decreases |bs|, 0
  {
    hide GoodEvents, ItemEvents, ItemNodes, Legal, RunEvents, Fresh, TreeNodes, TreeEvents, ParaNode, UnderPara;
    var b, rest := bs[0], bs[1..];
    GoodTreeParts(dialect, bs);
    FreshNow(s.nodes, bs);
    TreeStartsWithPara(s.heading, s.scope, |s.nodes|, bs);
    var t, more := ParaRun(dialect, s, b.number, b.body, b.items);
    UnderParaHeading(t, ParaNode(s.heading, s.scope, |s.nodes|, b.number, b.body));
    FreshAfter(s.nodes, more, b, rest, bs);
    TreeRun(dialect, t, rest);
    RunConcat(dialect, s, BlockEvents(b), TreeEvents(rest));
    Associative(s.nodes, more, TreeNodes(s.heading, s.scope, |t.nodes|, rest));
  }

  lemma {:induction false} UnderParaHeading(t: State, base: Node)
    requires UnderPara(t, base)
    ensures t.heading == base.heading && t.scope == base.scope && OpenValid(t)
  {
  }

  lemma {:induction false} TreeStartsWithPara(h: Heading, scope: seq<string>, order: nat, bs: seq<Block>)
    requires bs != [] && bs[0].ParaBlock?
    ensures bs == [bs[0]] + bs[1..] && TreeEvents(bs) == BlockEvents(bs[0]) + TreeEvents(bs[1..])
    ensures var base := ParaNode(h, scope, order, bs[0].number, bs[0].body);
            var more := [base] + ItemNodes(base, order + 1, 0, bs[0].items);
            && base.heading == h && base.scope == scope
            && TreeNodes(h, scope, order, bs) == more + TreeNodes(h, scope, order + |more|, bs[1..])
  {
    hide ItemNodes, FullText, ParaSort, BlockEvents;
  }

  lemma {:induction false} TreeRunHeading(dialect: Dialect, s: State, bs: seq<Block>)
    requires OpenValid(s) && GoodTree(dialect, bs) && Fresh(s.nodes, bs) && bs != [] && !bs[0].ParaBlock?
    ensures Legal(dialect, s, TreeEvents(bs))
    ensures RunEvents(dialect, s, TreeEvents(bs)).nodes == s.nodes + TreeNodes(s.heading, s.scope, |s.nodes|, bs)
    decreases |bs|, 0
  {
    hide GoodEvents, ScopeOf, Legal, RunEvents, BlockEvents;
    var b, rest := bs[0], bs[1..];
    GoodTreeParts(dialect, bs);
    HeadingRun(dialect, s, b);
    var t := RunEvents(dialect, s, BlockEvents(b));
    TreeRun(dialect, t, rest);
    RunConcat(dialect, s, BlockEvents(b), TreeEvents(rest));
  }

  lemma {:induction false} FreshAfter(nodes: seq<Node>, more: seq<Node>, b: Block, rest: seq<Block>, bs: seq<Block>)
    requires bs == [b] + rest && b.ParaBlock? && DistinctNumbers(bs) && Fresh(nodes, bs)
    requires forall n | n in more :: n.para == b.number
    ensures Fresh(nodes + more, rest)
  {
    forall i, c | 0 <= i < |nodes + more| && c in rest && c.ParaBlock?
      ensures (nodes + more)[i].para != c.number
    {
      assert c in bs;
      if |nodes| <= i {
        assert (nodes + more)[i] in more;
        var k :| 0 <= k < |rest| && rest[k] == c;
        assert bs[0] == b && bs[k + 1] == c;
      }
    }
  }

  /**
   Any text whose stripped lines list a good tree, in either dialect and however its bodies
   are wrapped, parses to exactly the nodes of that tree.
   */
  lemma {:induction false} ParseRecoversTree(dialect: Dialect, bs: seq<Block>, text: string)
    requires GoodTree(dialect, bs) && RawLines(text, 0, 0) == Listing(dialect, TreeEvents(bs))
    ensures After(dialect, START, JoinAll(RawLines(text, 0, 0))).nodes == TreeNodes(START.heading, [], 0, bs)
  {
    hide GoodTree, After, JoinAll, Listing, TreeNodes, TreeEvents, Legal, RunEvents, RawLines;
    TreeRun(dialect, START, bs);
    ListingParsed(dialect, START, TreeEvents(bs));
    assert [] + TreeNodes(START.heading, [], 0, bs) == TreeNodes(START.heading, [], 0, bs);
  }
}
