/**
 The lines of a regulatory instrument: joining hard wraps and recognising the marker a line
 opens with. Every marker except a note is a whole first word, so recognisers look at the
 first word of a line and at what follows it.
 */
module ClauseLines {
  import opened Results
  import opened Text

  /* ---------- characters ---------- */

  predicate Upper(c: char) { 'A' <= c <= 'Z' }
  predicate Lower(c: char) { 'a' <= c <= 'z' }
  predicate WordChar(c: char) { Digit(c) || Upper(c) || Lower(c) || c == '_' }

  function ToLower(c: char): char { if Upper(c) then (c as int + 32) as char else c }

  function LowerCase(s: string): (r: string)
    ensures |r| == |s| && forall i | 0 <= i < |s| :: r[i] == ToLower(s[i])
  {
    seq(|s|, i requires 0 <= i < |s| => ToLower(s[i]))
  }

  /* ---------- first word and remainder ---------- */

  function Head(line: string): string {
    var l := SkipSpaces(line);
    l[..WordLength(l)]
  }

  function Tail(line: string): string {
    var l := SkipSpaces(line);
    SkipSpaces(l[WordLength(l)..])
  }

  /** Something, if only whitespace, follows the first word. */
  predicate HeadFollowed(line: string) {
    var l := SkipSpaces(line);
    WordLength(l) < |l|
  }

  /* ---------- marker words ---------- */

  /** One to three digits and at most one capital. */
  predicate IsParaNumber(n: string) {
    || (1 <= |n| <= 3 && AllDigits(n))
    || (2 <= |n| <= 4 && AllDigits(n[..|n| - 1]) && Upper(n[|n| - 1]))
  }

  /** Up to three x followed by a lower-roman numeral below ten, or by nothing. */
  predicate IsRoman(s: string) {
    if |s| >= 1 && s[0] == 'x' then
      if |s| >= 2 && s[1] == 'x' then
        if |s| >= 3 && s[2] == 'x' then IsRomanUnit(s[3..]) else IsRomanUnit(s[2..])
      else IsRomanUnit(s[1..])
    else IsRomanUnit(s)
  }

  predicate IsRomanUnit(s: string) {
    s in {"", "i", "ii", "iii", "iv", "v", "vi", "vii", "viii", "ix"}
  }

  predicate Dotted(head: string) { head != "" && head[|head| - 1] == '.' }

  predicate Bracketed(head: string) { |head| >= 2 && head[0] == '(' && head[|head| - 1] == ')' }

  predicate IsSectionWord(head: string) { |head| == 2 && Upper(head[0]) && head[1] == '.' }

  predicate IsParaWord(head: string) { Dotted(head) && IsParaNumber(head[..|head| - 1]) }

  predicate IsRomanWord(head: string) { Dotted(head) && IsRoman(LowerCase(head[..|head| - 1])) }

  predicate IsNumeralWord(head: string) {
    Bracketed(head) && 3 <= |head| <= 4 && AllDigits(head[1..|head| - 1])
  }

  predicate IsLetterWord(head: string) { Bracketed(head) && |head| == 3 && Lower(head[1]) }

  predicate IsChapterNumeral(c: char) { c in "IVXLCDM" }

  /* ---------- recognisers of the parser ---------- */

  datatype Dialect = RomanDialect | ParenNumeral

  datatype Mark = Mark(name: string, body: string)

  function NumeralLength(s: string): (n: nat)
    ensures n <= |s|
  {
    if s == "" || !IsChapterNumeral(s[0]) then 0 else 1 + NumeralLength(s[1..])
  }

  /** At most one separator of the given kind, with whitespace on either side. */
  function SkipSeparator(s: string, separators: string): string {
    var r := SkipSpaces(s);
    if r != "" && r[0] in separators then SkipSpaces(r[1..]) else r
  }

  const DASHES := "-\U{2013}\U{2014}:"

  function ChapterMark(line: string): Option<Mark> {
    var t := Tail(line);
    if Head(line) == "CHAPTER" && NumeralLength(t) > 0 then
      var n := NumeralLength(t);
      Some(Mark(t[..n], Strip(SkipSeparator(t[n..], DASHES))))
    else None
  }

  function SectionMark(line: string): Option<Mark> {
    if IsSectionWord(Head(line)) && Tail(line) != "" then Some(Mark(Head(line)[..1], Tail(line))) else None
  }

  function ParaMark(line: string): Option<Mark> {
    if IsParaWord(Head(line)) && Tail(line) != "" then
      Some(Mark(Head(line)[..|Head(line)| - 1], Tail(line)))
    else None
  }

  function Level2Mark(dialect: Dialect, line: string): Option<Mark> {
    var h := Head(line);
    if Tail(line) == "" then None else
    match dialect
    case RomanDialect =>
      if IsRomanWord(h) then Some(Mark(LowerCase(h[..|h| - 1]), Tail(line))) else None
    case ParenNumeral =>
      if IsNumeralWord(h) then Some(Mark(h[1..|h| - 1], Tail(line))) else None
  }

  function Level3Mark(line: string): Option<Mark> {
    if IsLetterWord(Head(line)) && Tail(line) != "" then Some(Mark(Head(line)[1..2], Tail(line))) else None
  }

  predicate StartsNote(l: string) { |l| >= 4 && LowerCase(l[..4]) == "note" }

  function NoteMark(line: string): Option<string> {
    var l := SkipSpaces(line);
    if StartsNote(l) then Some(SkipSeparator(l[4..], ":.")) else None
  }

  /* ---------- hard wraps ---------- */

  predicate AnyLetter(c: char) { Upper(c) || Lower(c) }

  /** The marker test of the wrap joiner, which ignores case. */
  predicate MarkerWord(head: string) {
    || LowerCase(head) == "chapter"
    || (|head| == 2 && AnyLetter(head[0]) && head[1] == '.')
    || (Dotted(head) && (IsParaNumber(head[..|head| - 1]) || IsLowerParaNumber(head[..|head| - 1])))
    || IsNumeralWord(head)
    || (Bracketed(head) && |head| == 3 && AnyLetter(head[1]))
    || IsRomanWord(head)
  }

  predicate IsLowerParaNumber(n: string) {
    2 <= |n| <= 4 && AllDigits(n[..|n| - 1]) && Lower(n[|n| - 1])
  }

  predicate StartsMarker(line: string) {
    || (MarkerWord(Head(line)) && HeadFollowed(line) && Lead(line) == 0)
    || (StartsNote(line) && (|line| == 4 || !WordChar(line[4])))
  }

  predicate EndsSentence(line: string) {
    var l := DropTrailing(line);
    l != "" && l[|l| - 1] in ".:;?!"
  }

  /** Appends a line, or glues it to the previous one when that one was only wrapped. */
  function JoinOne(joined: seq<string>, line: string): seq<string> {
    if joined != [] && !EndsSentence(joined[|joined| - 1]) && !StartsMarker(line)
    then joined[..|joined| - 1] + [joined[|joined| - 1] + " " + line]
    else joined + [line]
  }

  function JoinAll(lines: seq<string>): seq<string> {
    if lines == [] then [] else JoinOne(JoinAll(lines[..|lines| - 1]), lines[|lines| - 1])
  }

  predicate LineBreak(c: char) {
    var n := c as int;
    0x0A <= n <= 0x0D || 0x1C <= n <= 0x1E || n == 0x85 || n == 0x2028 || n == 0x2029
  }

  /** The stripped non-empty lines of a text; `start` is where the current line began. */
  function RawLines(text: string, start: nat, i: nat): seq<string>
    requires start <= i <= |text|
    decreases |text| - i
  {
    if i == |text| then Kept(Strip(text[start..i]))
    else if LineBreak(text[i]) then Kept(Strip(text[start..i])) + RawLines(text, i + 1, i + 1)
    else RawLines(text, start, i + 1)
  }

  function Kept(line: string): seq<string> { if line == "" then [] else [line] }

  method JoinHardWraps(text: string) returns (joined: seq<string>)
    ensures joined == JoinAll(RawLines(text, 0, 0))
  {
    var raw := RawLines(text, 0, 0);
    joined := [];
    for i := 0 to |raw|
      invariant joined == JoinAll(raw[..i])
    {
      assert raw[..i + 1][..i] == raw[..i];
      if joined != [] && !EndsSentence(joined[|joined| - 1]) && !StartsMarker(raw[i]) {
        joined := joined[|joined| - 1 := joined[|joined| - 1] + " " + raw[i]];
      } else {
        joined := joined + [raw[i]];
      }
    }
    assert raw[..|raw|] == raw;
  }

  /* ---------- lines grow at the end ---------- */

  predicate Plain(l: string) { l != "" && Trimmed(l) }

  lemma {:induction false} HeadTailOf(h: string, body: string)
    requires h != "" && (forall i | 0 <= i < |h| :: !IsSpace(h[i])) && Plain(body)
    ensures Head(h + " " + body) == h && Tail(h + " " + body) == body && HeadFollowed(h + " " + body)
    ensures Lead(h + " " + body) == 0
  {
    var l := h + " " + body;
    assert l == h + (" " + body);
    assert SkipSpaces(l) == l;
    WordLengthOf(h, " " + body);
    assert l[..|h|] == h && l[|h|..] == " " + body;
    LeadOf(" ", body);
    assert SkipSpaces(" " + body) == body;
  }

  /** Splitting a trimmed line at its first word. */
  lemma {:induction false} HeadTailSplit(l: string) returns (gap: string)
    requires Plain(l)
    ensures Head(l) != "" && (forall i | 0 <= i < |Head(l)| :: !IsSpace(Head(l)[i]))
    ensures Tail(l) == "" ==> l == Head(l) && gap == ""
    ensures Tail(l) != "" ==> Plain(Tail(l)) && gap != "" && Blank(gap) && l == Head(l) + (gap + Tail(l))
    ensures Lead(l) == 0
  {
    assert SkipSpaces(l) == l;
    WordLengthIs(l);
    var n := WordLength(l);
    var rest := l[n..];
    LeadIs(rest);
    gap := rest[..Lead(rest)];
    assert rest == gap + Tail(l);
    if Tail(l) == "" {
      assert rest == "";
    } else {
      assert Tail(l)[|Tail(l)| - 1] == l[|l| - 1];
    }
  }

  /** Gluing a continuation to a line leaves its first word alone and extends the rest. */
  lemma {:induction false} HeadTailExtend(l: string, c: string)
    requires Plain(l) && Plain(c)
    ensures Head(l + " " + c) == Head(l) && HeadFollowed(l + " " + c)
    ensures Tail(l + " " + c) == if Tail(l) == "" then c else Tail(l) + " " + c
    ensures Plain(l + " " + c)
  {
    var gap := HeadTailSplit(l);
    GluePlain(l, c);
    if Tail(l) == "" {
      HeadTailOf(Head(l), c);
    } else {
      GluePlain(Tail(l), c);
      Regroup(Head(l), gap, Tail(l), c);
      GapSplit(Head(l), gap, Tail(l) + " " + c);
    }
  }

  lemma {:induction false} GluePlain(l: string, c: string)
    requires Plain(l) && Plain(c)
    ensures Plain(l + " " + c) && (l + " " + c)[0] == l[0]
  {
    var m := l + " " + c;
    assert m[0] == l[0] && m[|m| - 1] == c[|c| - 1];
  }

  lemma {:induction false} Regroup(h: string, gap: string, t: string, c: string)
    ensures (h + (gap + t)) + " " + c == h + (gap + (t + " " + c))
  {
  }

  lemma {:induction false} GapSplit(h: string, gap: string, u: string)
    requires h != "" && (forall i | 0 <= i < |h| :: !IsSpace(h[i]))
    requires gap != "" && Blank(gap) && u != "" && !IsSpace(u[0])
    ensures var m := h + (gap + u); Head(m) == h && Tail(m) == u && HeadFollowed(m)
  {
    var m := h + (gap + u);
    assert SkipSpaces(m) == m;
    WordLengthOf(h, gap + u);
    assert m[..|h|] == h && m[|h|..] == gap + u;
    LeadOf(gap, u);
    assert SkipSpaces(gap + u) == u;
  }
}
