/** The wrap joiner loses no word of a text, and joining what it joined changes nothing. */
module WrapJoining {
  import opened Text
  import opened ClauseLines

  predicate AllPlain(lines: seq<string>) { forall i | 0 <= i < |lines| :: Plain(lines[i]) }

  /* ---------- words ---------- */

  function FlatWords(lines: seq<string>): seq<string> {
    if lines == [] then [] else FlatWords(lines[..|lines| - 1]) + Words(lines[|lines| - 1])
  }

  lemma {:induction false} FlatSnoc(lines: seq<string>, line: string)
    ensures FlatWords(lines + [line]) == FlatWords(lines) + Words(line)
  {
    assert (lines + [line])[..|lines|] == lines;
  }

  lemma {:induction false} FlatCons(line: string, lines: seq<string>)
    ensures FlatWords([line] + lines) == Words(line) + FlatWords(lines)
  {
    hide Words;
    if lines == [] {
      assert [line] + lines == [] + [line];
      FlatSnoc([], line);
    } else {
      var front, last := lines[..|lines| - 1], lines[|lines| - 1];
      FlatCons(line, front);
      assert [line] + lines == ([line] + front) + [last] && lines == front + [last];
      FlatSnoc([line] + front, last);
      FlatSnoc(front, last);
      Associative(Words(line), FlatWords(front), Words(last));
    }
  }

  lemma {:induction false} JoinKeepsWords(lines: seq<string>)
    ensures FlatWords(JoinAll(lines)) == FlatWords(lines)
  {
    hide Words, StartsMarker, EndsSentence;
    if lines != [] {
      var before, line := lines[..|lines| - 1], lines[|lines| - 1];
      JoinKeepsWords(before);
      var j := JoinAll(before);
      if JoinOne(j, line) == j + [line] {
        FlatSnoc(j, line);
      } else {
        var init, last := j[..|j| - 1], j[|j| - 1];
        assert j == init + [last];
        FlatSnoc(init, last);
        FlatSnoc(init, last + " " + line);
        WordsJoined(last, line);
        Associative(FlatWords(init), Words(last), Words(line));
      }
    }
  }

  lemma {:induction false} BreaksAreSpaces(c: char)
    requires LineBreak(c)
    ensures IsSpace(c)
  {
  }

  lemma {:induction false} KeptWords(line: string, lines: seq<string>)
    ensures FlatWords(Kept(Strip(line)) + lines) == Words(line) + FlatWords(lines)
  {
    hide Words, Strip;
    WordsStrip(line);
    if Strip(line) == "" {
      WordsOfBlank("");
      assert Kept(Strip(line)) + lines == lines;
    } else {
      FlatCons(Strip(line), lines);
    }
  }

  lemma {:induction false} BreakSplitsWords(front: string, c: char, rest: string)
    requires IsSpace(c)
    ensures Words(front + ([c] + rest)) == Words(front) + Words(rest)
  {
    hide Words;
    WordsConcat(front, [c] + rest);
    WordsSkip([c], rest);
  }

  /** Splitting a text into stripped non-empty lines keeps its words. */
  lemma {:induction false} LinesKeepWords(text: string, start: nat, i: nat)
    requires start <= i <= |text|
    ensures FlatWords(RawLines(text, start, i)) == Words(text[start..])
    decreases |text| - i
  {
    hide Words, Strip, LineBreak, FlatWords, IsSpace;
    var front := text[start..i];
    if i == |text| {
      assert front == text[start..] && Kept(Strip(front)) + [] == Kept(Strip(front));
      KeptWords(front, []);
      NoWords();
    } else if LineBreak(text[i]) {
      LinesKeepWords(text, i + 1, i + 1);
      KeptWords(front, RawLines(text, i + 1, i + 1));
      assert text[start..] == front + ([text[i]] + text[i + 1..]);
      BreaksAreSpaces(text[i]);
      BreakSplitsWords(front, text[i], text[i + 1..]);
    } else {
      LinesKeepWords(text, start, i + 1);
    }
  }

  lemma {:induction false} NoWords()
    ensures FlatWords([]) == []
  {
  }

  /** For every text the joined lines have exactly its words, in order. */
  lemma {:induction false} JoinerKeepsWords(text: string)
    ensures FlatWords(JoinAll(RawLines(text, 0, 0))) == Words(text)
  {
    hide Words, FlatWords, RawLines, JoinAll;
    LinesKeepWords(text, 0, 0);
    assert text[0..] == text;
    JoinKeepsWords(RawLines(text, 0, 0));
  }

  /* ---------- joining settles ---------- */

  /** No two neighbours would be joined. */
  predicate Settled(j: seq<string>) {
    forall i | 0 <= i < |j| - 1 :: EndsSentence(j[i]) || StartsMarker(j[i + 1])
  }

  lemma {:induction false} GluedStillStarts(l: string, c: string)
    requires Plain(l) && Plain(c) && StartsMarker(l)
    ensures StartsMarker(l + " " + c)
  {
    hide MarkerWord, WordChar;
    HeadTailExtend(l, c);
    var m := l + " " + c;
    assert Lead(m) == 0;
    if StartsNote(l) && (|l| == 4 || !WordChar(l[4])) {
      assert m[..4] == l[..4];
      if |l| == 4 { assert m[4] == ' '; NotWordChar(); }
    }
  }

  lemma {:induction false} NotWordChar()
    ensures !WordChar(' ')
  {
  }

  lemma {:induction false} SettledGlued(init: seq<string>, last: string, line: string)
    requires Settled(init + [last]) && AllPlain(init + [last]) && Plain(line)
    ensures Settled(init + [last + " " + line]) && AllPlain(init + [last + " " + line])
  {
    hide StartsMarker, EndsSentence, Plain;
    var j, k := init + [last], init + [last + " " + line];
    assert j[|init|] == last && forall i | 0 <= i < |init| :: k[i] == j[i];
    GluePlain(last, line);
    if StartsMarker(last) { GluedStillStarts(last, line); }
    forall i | 0 <= i < |k| - 1
      ensures EndsSentence(k[i]) || StartsMarker(k[i + 1])
    {
      assert EndsSentence(j[i]) || StartsMarker(j[i + 1]);
    }
  }

  lemma {:induction false} SettledAppended(j: seq<string>, line: string)
    requires Settled(j) && AllPlain(j) && Plain(line)
    requires j == [] || EndsSentence(j[|j| - 1]) || StartsMarker(line)
    ensures Settled(j + [line]) && AllPlain(j + [line])
  {
    hide StartsMarker, EndsSentence, Plain;
  }

  lemma {:induction false} JoinSettles(lines: seq<string>)
    requires AllPlain(lines)
    ensures Settled(JoinAll(lines)) && AllPlain(JoinAll(lines))
  {
    hide StartsMarker, EndsSentence, Plain, Settled;
    if lines == [] {
      NothingSettled();
    } else {
      var before, line := lines[..|lines| - 1], lines[|lines| - 1];
      JoinSettles(before);
      var j := JoinAll(before);
      if j != [] && !EndsSentence(j[|j| - 1]) && !StartsMarker(line) {
        assert j == j[..|j| - 1] + [j[|j| - 1]];
        SettledGlued(j[..|j| - 1], j[|j| - 1], line);
      } else {
        SettledAppended(j, line);
      }
    }
  }

  lemma {:induction false} NothingSettled()
    ensures Settled([])
  {
  }

  lemma {:induction false} SettledUnchanged(j: seq<string>)
    requires Settled(j)
    ensures JoinAll(j) == j
  {
    hide StartsMarker, EndsSentence;
    if j != [] {
      var before := j[..|j| - 1];
      SettledUnchanged(before);
      assert j == before + [j[|j| - 1]];
      if before != [] { assert EndsSentence(j[|j| - 2]) || StartsMarker(j[|j| - 1]); }
    }
  }

  /* ---------- lines and texts ---------- */

  /** The lines the joiner starts from are stripped, not empty, and single lines. */
  lemma {:induction false} RawLinesPlain(text: string, start: nat, i: nat)
    requires start <= i <= |text| && OneLine(text[start..i])
    ensures AllPlain(RawLines(text, start, i)) && AllOneLine(RawLines(text, start, i))
    decreases |text| - i
  {
    hide Strip, LineBreak, OneLine, RawLines, Plain, Kept;
    RawLinesUnfold(text, start, i);
    KeptPlain(text[start..i]);
    if i < |text| {
      if LineBreak(text[i]) {
        NoLine(text, i + 1);
        RawLinesPlain(text, i + 1, i + 1);
      } else {
        OneLineGrows(text, start, i);
        RawLinesPlain(text, start, i + 1);
      }
    }
  }

  lemma {:induction false} KeptPlain(line: string)
    requires OneLine(line)
    ensures AllPlain(Kept(Strip(line))) && AllOneLine(Kept(Strip(line)))
  {
    hide Strip, OneLine, Plain;
    StrippedLine(line);
  }

  lemma {:induction false} RawLinesUnfold(text: string, start: nat, i: nat)
    requires start <= i <= |text|
    ensures RawLines(text, start, i) ==
              if i == |text| then Kept(Strip(text[start..i]))
              else if LineBreak(text[i]) then Kept(Strip(text[start..i])) + RawLines(text, i + 1, i + 1)
              else RawLines(text, start, i + 1)
  {
  }

  lemma {:induction false} NoLine(text: string, i: nat)
    requires i <= |text|
    ensures OneLine(text[i..i])
  {
  }

  lemma {:induction false} OneLineGrows(text: string, start: nat, i: nat)
    requires start <= i < |text| && OneLine(text[start..i]) && !LineBreak(text[i])
    ensures OneLine(text[start..i + 1])
  {
    hide LineBreak;
    assert text[start..i + 1] == text[start..i] + [text[i]];
  }

  lemma {:induction false} StrippedLine(line: string)
    requires OneLine(line)
    ensures Strip(line) != "" ==> Plain(Strip(line)) && OneLine(Strip(line))
  {
    hide LineBreak, Strip;
    StripTrimmed(line);
    var inner := Strip(line);
    var i: nat :| i <= |line| && OccursAt(line, inner, i);
    forall k | 0 <= k < |inner| ensures !LineBreak(inner[k]) {
      assert inner[k] == line[i..i + |inner|][k] == line[i + k];
    }
  }

  predicate AllOneLine(lines: seq<string>) { forall i | 0 <= i < |lines| :: OneLine(lines[i]) }

  lemma {:induction false} JoinedOneLine(lines: seq<string>)
    requires AllOneLine(lines)
    ensures AllOneLine(JoinAll(lines))
  {
    hide StartsMarker, EndsSentence, OneLine;
    if lines != [] {
      var before, line := lines[..|lines| - 1], lines[|lines| - 1];
      JoinedOneLine(before);
      var j := JoinAll(before);
      if j != [] { GluedOneLine(j[|j| - 1], line); }
    }
  }

  lemma {:induction false} GluedOneLine(l: string, c: string)
    requires OneLine(l) && OneLine(c)
    ensures OneLine(l + " " + c)
  {
    assert !LineBreak(' ');
    hide LineBreak;
  }

  /** The lines as a text. */
  function Print(lines: seq<string>): string {
    if lines == [] then "" else lines[0] + ("\n" + Print(lines[1..]))
  }

  predicate OneLine(s: string) { forall i | 0 <= i < |s| :: !LineBreak(s[i]) }

  lemma {:induction false} RawLinesScan(text: string, start: nat, i: nat, e: nat)
    requires start <= i <= e <= |text| && forall k | i <= k < e :: !LineBreak(text[k])
    ensures RawLines(text, start, i) == RawLines(text, start, e)
    decreases e - i
  {
    hide LineBreak, Strip;
    if i < e { RawLinesScan(text, start, i + 1, e); }
  }

  lemma {:induction false} RawLinesShift(a: string, b: string, start: nat, i: nat)
    requires start <= i <= |b|
    ensures RawLines(a + b, |a| + start, |a| + i) == RawLines(b, start, i)
    decreases |b| - i
  {
    hide LineBreak, Strip, RawLines, Kept;
    RawLinesUnfold(a + b, |a| + start, |a| + i);
    RawLinesUnfold(b, start, i);
    assert (a + b)[|a| + start..|a| + i] == b[start..i];
    if i < |b| {
      assert (a + b)[|a| + i] == b[i];
      if LineBreak(b[i]) { RawLinesShift(a, b, i + 1, i + 1); } else { RawLinesShift(a, b, start, i + 1); }
    }
  }

  lemma {:induction false} PrintedLines(lines: seq<string>)
    requires forall i | 0 <= i < |lines| :: Plain(lines[i]) && OneLine(lines[i])
    ensures RawLines(Print(lines), 0, 0) == lines
  {
    hide RawLines, Strip;
    if lines == [] {
      assert RawLines("", 0, 0) == [] by { NoLines(); }
    } else {
      var l, rest := lines[0], lines[1..];
      var front, tail := l + "\n", Print(rest);
      var text := Print(lines);
      PrintedLines(rest);
      assert text == front + tail;
      assert forall k | 0 <= k < |l| :: text[k] == l[k];
      RawLinesScan(text, 0, 0, |l|);
      assert text[0..|l|] == l && text[|l|] == '\n';
      FirstLine(text, |l|);
      RawLinesShift(front, tail, 0, 0);
      TrimmedIsStripped(l);
    }
  }

  lemma {:induction false} FirstLine(text: string, e: nat)
    requires e < |text| && text[e] == '\n'
    ensures RawLines(text, 0, e) == Kept(Strip(text[0..e])) + RawLines(text, e + 1, e + 1)
  {
    assert LineBreak('\n');
  }

  lemma {:induction false} NoLines()
    ensures RawLines("", 0, 0) == []
  {
    assert Strip("") == "";
  }

  /** Writing the joined lines out and joining them again gives the same lines, for every text. */
  lemma {:induction false} JoinerIdempotent(text: string)
    ensures var joined := JoinAll(RawLines(text, 0, 0));
            JoinAll(joined) == joined && JoinAll(RawLines(Print(joined), 0, 0)) == joined
  {
    hide RawLines, JoinAll, OneLine, Print, Plain, Settled;
    NoLine(text, 0);
    RawLinesPlain(text, 0, 0);
    var raw := RawLines(text, 0, 0);
    JoinSettles(raw);
    SettledUnchanged(JoinAll(raw));
    JoinedOneLine(raw);
    PrintedLines(JoinAll(raw));
  }

  /* ---------- when a line is glued ---------- */

  /** A plain line ends a sentence exactly when its last character is one of the five marks. */
  lemma {:induction false} EndsSentenceIff(line: string)
    requires Plain(line)
    ensures var c := line[|line| - 1];
            EndsSentence(line) <==> c == '.' || c == ':' || c == ';' || c == '?' || c == '!'
  {
    BodyOf(line, "");
    assert line + "" == line;
  }

  /** Two plain lines stay apart exactly when the first ends a sentence or the second opens a marker. */
  lemma {:induction false} ApartIff(a: string, b: string)
    requires Plain(a) && Plain(b)
    ensures var c := a[|a| - 1];
            JoinAll([a, b]) == (if c == '.' || c == ':' || c == ';' || c == '?' || c == '!' || StartsMarker(b)
                                then [a, b] else [a + " " + b])
  {
    hide EndsSentence, StartsMarker;
    EndsSentenceIff(a);
    assert [a, b][..1] == [a] && [a][..0] == [];
    assert JoinAll([]) == [];
    assert JoinAll([a]) == [a];
  }

  /* ---------- where a text is split ---------- */

  /** The characters that end a line. */
  const BREAKS: set<int> := {0x0A, 0x0B, 0x0C, 0x0D, 0x1C, 0x1D, 0x1E, 0x85, 0x2028, 0x2029}

  lemma {:induction false} BreaksAre(c: char)
    ensures LineBreak(c) <==> c as int in BREAKS
  {
  }

  /** At such a character the text falls into the lines before it and the lines behind it. */
  lemma {:induction false} SplitAtBreak(line: string, c: char, rest: string)
    requires OneLine(line) && c as int in BREAKS
    ensures RawLines(line + ([c] + rest), 0, 0) == Kept(Strip(line)) + RawLines(rest, 0, 0)
  {
    hide RawLines, Strip, LineBreak, Kept;
    var text, n := line + ([c] + rest), |line|;
    BreaksAre(c);
    assert forall k | 0 <= k < n :: text[k] == line[k];
    RawLinesScan(text, 0, 0, n);
    RawLinesUnfold(text, 0, n);
    assert text[0..n] == line && text[n] == c;
    RawLinesShift(line + [c], rest, 0, 0);
    assert (line + [c]) + rest == text;
  }
}
