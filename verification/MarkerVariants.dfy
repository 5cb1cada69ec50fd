/** The spellings of a marker that a listing does not use but the parser accepts. */
module MarkerVariants {
  import opened Results
  import opened Text
  import opened ClauseLines
  import opened ClauseParser
  import opened ParserRoundTrip
  import opened LineContext

  predicate IsDash(c: char) { c == '-' || c == '\U{2013}' || c == '\U{2014}' || c == ':' }

  lemma {:induction false} DashesAre(c: char)
    ensures c in DASHES <==> IsDash(c)
  {
    assert DASHES[0] == '-' && DASHES[1] == '\U{2013}' && DASHES[2] == '\U{2014}' && DASHES[3] == ':';
    assert |DASHES| == 4;
  }

  lemma {:induction false} SignSkipped(c: char, separators: string, text: string)
    requires c in separators && !IsSpace(c) && Plain(text)
    ensures SkipSeparator([c] + (" " + text), separators) == text
    ensures SkipSeparator(" " + ([c] + (" " + text)), separators) == text
  {
    var r := [c] + (" " + text);
    LeadOf("", r);
    LeadOf(" ", r);
    assert "" + r == r && SkipSpaces(r) == r && SkipSpaces(" " + r) == r;
    assert r[1..] == " " + text;
    LeadOf(" ", text);
    assert SkipSpaces(" " + text) == text;
  }

  /** Number and title of a chapter may be separated by a hyphen, an en dash, an em dash or a colon. */
  lemma {:induction false} ChapterSeparated(number: string, c: char, title: string)
    requires IsChapterNumber(number) && IsDash(c) && Plain(title)
    ensures ChapterMark("CHAPTER" + " " + (number + (" " + ([c] + (" " + title))))) == Some(Mark(number, title))
  {
    hide SkipSeparator, Strip, NumeralLength, Head, Tail;
    var rest := " " + ([c] + (" " + title));
    var t := number + rest;
    DashesAre(c);
    DashIsNoSpace(c);
    NumberRest(number, title, c);
    HeadTailOf("CHAPTER", t);
    NumeralLengthOf(number, rest);
    assert t[..|number|] == number && t[|number|..] == rest;
    SignSkipped(c, DASHES, title);
    TrimmedIsStripped(title);
  }

  lemma {:induction false} DashIsNoSpace(c: char)
    requires IsDash(c)
    ensures !IsSpace(c)
  {
  }

  lemma {:induction false} NumberRest(number: string, title: string, c: char)
    requires IsChapterNumber(number) && Plain(title)
    ensures Plain(number + (" " + ([c] + (" " + title)))) && NoSpaces("CHAPTER")
  {
    var t := number + (" " + ([c] + (" " + title)));
    assert t[0] == number[0] && t[|t| - 1] == title[|title| - 1];
    assert IsChapterNumeral(number[0]);
  }

  /** A note may be marked by a colon, a full stop or nothing but the word. */
  lemma {:induction false} NoteSeparated(dialect: Dialect, s: State, c: char, text: string)
    requires s.openPara.Some? && (c == ':' || c == '.') && Plain(text)
    ensures KindOf(dialect, s, "Note" + ([c] + (" " + text))) == NoteLine(text)
    ensures text[0] != ':' && text[0] != '.' ==> KindOf(dialect, s, "Note" + (" " + text)) == NoteLine(text)
  {
    hide SkipSeparator, SkipSpaces, KindOf;
    var marked, bare := "Note" + ([c] + (" " + text)), "Note" + (" " + text);
    NotePlain(marked, text);
    NotePlain(bare, text);
    NoteIff(dialect, s, marked);
    NoteIff(dialect, s, bare);
    NoteText(dialect, s, marked);
    NoteText(dialect, s, bare);
    assert marked[4..] == [c] + (" " + text) && bare[4..] == " " + text;
    assert !IsSpace(c);
    SignSkipped(c, ":.", text);
    if text[0] != ':' && text[0] != '.' { BareSkipped(text); }
  }

  lemma {:induction false} NotePlain(line: string, text: string)
    requires Plain(text) && |line| > 4 && line[..4] == "Note" && line[|line| - 1] == text[|text| - 1]
    ensures Plain(line) && StartsNote(line)
  {
    assert line[0] == line[..4][0];
    assert LowerCase("Note") == "note";
  }

  lemma {:induction false} BareSkipped(text: string)
    requires Plain(text) && text[0] != ':' && text[0] != '.'
    ensures SkipSeparator(" " + text, ":.") == text
  {
    LeadOf(" ", text);
    assert SkipSpaces(" " + text) == text;
  }

  /** A clause numeral in capitals, or in mixed case, is read as the small one. */
  lemma {:induction false} CapitalNumeral(s: State, name: string, text: string)
    requires s.openPara.Some? && |name| >= 2 && NoSpaces(name) && IsRoman(LowerCase(name)) && Plain(text)
    ensures KindOf(RomanDialect, s, name + "." + " " + text) == Level2Line(Mark(LowerCase(name), text))
  {
    hide Head, Tail, SkipSpaces, NumeralLength, SkipSeparator, Strip, IsSpace, IsRoman;
    var h := name + ".";
    var l := h + " " + text;
    assert NoSpaces(h) by { LiteralsSolid('.'); NoSpacesConcat(name, "."); }
    HeadTailOf(h, text);
    RomanLetters(LowerCase(name));
    assert LowerCase(name)[0] == 'i' || LowerCase(name)[0] == 'v' || LowerCase(name)[0] == 'x';
    assert LowerCase(name)[0] == ToLower(name[0]);
    assert h[0] == name[0] && h[..|h| - 1] == name && l[0] == name[0];
    PlainLine(h, text);
    NotANote(l);
  }

  lemma {:induction false} PlainLine(h: string, text: string)
    requires h != "" && NoSpaces(h) && Plain(text)
    ensures SkipSpaces(h + " " + text) == h + " " + text
  {
    var l := h + " " + text;
    assert !IsSpace(l[0]);
    LeadOf("", l);
    assert "" + l == l;
  }

  /** A section title scopes its clauses to microfinance exactly when it holds one of three words, in any case. */
  lemma {:induction false} ScopeIff(title: string)
    ensures ScopeOf(title) == ["microfinance"] <==>
              exists i: nat, w :: w in ["microfinance", "mfi conduct", "micro-finance"]
                  && OccursAt(LowerCase(title), w, i)
    ensures ScopeOf(title) == ["microfinance"] || ScopeOf(title) == []
  {
    hide OccursAt, LowerCase;
    var t := LowerCase(title);
    var ws := ["microfinance", "mfi conduct", "micro-finance"];
    assert ws[0] in ws && ws[1] in ws && ws[2] in ws;
    if i: nat, w :| w in ws && OccursAt(t, w, i) {
      OccursInside(t, w, i);
      assert w == ws[0] || w == ws[1] || w == ws[2];
    }
  }

  lemma {:induction false} OccursInside(t: string, w: string, i: nat)
    requires OccursAt(t, w, i)
    ensures i <= |t| && Contains(t, w)
  {
  }

  /* ---------- the marker words ---------- */

  predicate Capital(c: char) { 'A' <= c <= 'Z' }

  predicate Small(c: char) { 'a' <= c <= 'z' }

  predicate Digits(s: string, least: nat, most: nat) {
    least <= |s| <= most && forall i | 0 <= i < |s| :: '0' <= s[i] <= '9'
  }

  /** One to three digits, and then at most one capital. */
  lemma {:induction false} ParaNumberIff(n: string)
    ensures IsParaNumber(n) <==>
              Digits(n, 1, 3) || (n != "" && Digits(n[..|n| - 1], 1, 3) && Capital(n[|n| - 1]))
  {
  }

  /** The words that open a section, a paragraph, a numbered clause and a letter. */
  lemma {:induction false} MarkerWordsAre(h: string)
    ensures IsSectionWord(h) <==> |h| == 2 && Capital(h[0]) && h[1] == '.'
    ensures IsParaWord(h) <==> |h| >= 1 && h[|h| - 1] == '.' && IsParaNumber(h[..|h| - 1])
    ensures IsNumeralWord(h) <==>
              |h| >= 2 && h[0] == '(' && h[|h| - 1] == ')' && Digits(h[1..|h| - 1], 1, 2)
    ensures IsLetterWord(h) <==> |h| == 3 && h[0] == '(' && Small(h[1]) && h[2] == ')'
  {
  }

  const TENS: set<string> := {"", "x", "xx", "xxx"}

  const UNITS: set<string> := {"", "i", "ii", "iii", "iv", "v", "vi", "vii", "viii", "ix"}

  /** A clause numeral is up to three tens and at most nine units. */
  lemma {:induction false} NumeralIff(s: string)
    ensures IsRoman(s) <==> exists t, u :: t in TENS && u in UNITS && s == t + u
  {
    hide IsRomanUnit;
    if IsRoman(s) {
      var t := if |s| >= 1 && s[0] == 'x' then
                 if |s| >= 2 && s[1] == 'x' then if |s| >= 3 && s[2] == 'x' then "xxx" else "xx" else "x"
               else "";
      UnitIff(s[|t|..]);
      assert s == t + s[|t|..] && t in TENS;
    }
    if t, u :| t in TENS && u in UNITS && s == t + u {
      UnitIff(u);
      UnitNoTen(u);
      assert s[|t|..] == u;
    }
  }

  lemma {:induction false} UnitIff(u: string)
    ensures IsRomanUnit(u) <==> u in UNITS
  {
  }

  lemma {:induction false} UnitNoTen(u: string)
    requires u in UNITS
    ensures u == "" || u[0] != 'x'
  {
  }

  /** The joiner takes for a marker what the parser does, in any case, and the word chapter. */
  lemma {:induction false} JoinerMarkerIff(h: string)
    ensures MarkerWord(h) <==>
              var l := LowerCase(h);
              || l == "chapter"
              || (|l| == 2 && Small(l[0]) && l[1] == '.')
              || (|l| >= 2 && l[|l| - 1] == '.'
                  && (Digits(l[..|l| - 1], 1, 3) || (Digits(l[..|l| - 2], 1, 3) && Small(l[|l| - 2]))))
              || (|l| >= 2 && l[0] == '(' && l[|l| - 1] == ')' && Digits(l[1..|l| - 1], 1, 2))
              || (|l| == 3 && l[0] == '(' && Small(l[1]) && l[2] == ')')
              || (|l| >= 1 && l[|l| - 1] == '.' && IsRoman(l[..|l| - 1]))
  {
    hide IsRoman;
    var l := LowerCase(h);
    assert forall i | 0 <= i < |h| :: l[i] == ToLower(h[i]);
    LowerDigits(h);
    if |h| >= 1 { assert LowerCase(h[..|h| - 1]) == l[..|l| - 1]; }
    if |h| >= 2 {
      assert h[..|h| - 1][..|h| - 2] == h[..|h| - 2] && l[..|l| - 1][..|l| - 2] == l[..|l| - 2];
      assert h[..|h| - 1][|h| - 2] == h[|h| - 2];
    }
  }

  lemma {:induction false} LowerDigits(h: string)
    ensures forall i | 0 <= i < |h| :: Digit(h[i]) <==> Digit(LowerCase(h)[i])
    ensures forall i | 0 <= i < |h| :: (Upper(h[i]) || Lower(h[i])) <==> Small(LowerCase(h)[i])
    ensures forall i, c | 0 <= i < |h| && c in "()." :: h[i] == c <==> LowerCase(h)[i] == c
  {
  }
}
