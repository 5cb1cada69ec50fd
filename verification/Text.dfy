/** Strings: whitespace, words and containment. */
module Text {

  /** The characters both `str.isspace` and the regex class `\s` take for whitespace. */
  predicate IsSpace(c: char) {
    var n := c as int;
    || 0x09 <= n <= 0x0D || 0x1C <= n <= 0x20 || n == 0x85 || n == 0xA0 || n == 0x1680
    || 0x2000 <= n <= 0x200A || n == 0x2028 || n == 0x2029 || n == 0x202F || n == 0x205F || n == 0x3000
  }

  predicate Blank(s: string) { forall i | 0 <= i < |s| :: IsSpace(s[i]) }

  predicate Trimmed(s: string) { s == "" || (!IsSpace(s[0]) && !IsSpace(s[|s| - 1])) }

  /** The number of leading spaces. */
  function Lead(s: string): (n: nat)
    ensures n <= |s| && (n < |s| ==> !IsSpace(s[n]))
  {
    if s == "" || !IsSpace(s[0]) then 0 else 1 + Lead(s[1..])
  }

  /** The length without trailing spaces. */
  function Body(s: string): (n: nat)
    ensures n <= |s|
  {
    if s == "" || !IsSpace(s[|s| - 1]) then |s| else Body(s[..|s| - 1])
  }

  /** The length of the leading word. */
  function WordLength(s: string): (n: nat)
    ensures n <= |s| && (s != "" && !IsSpace(s[0]) ==> n >= 1)
  {
    if s == "" || IsSpace(s[0]) then 0 else 1 + WordLength(s[1..])
  }

  function SkipSpaces(s: string): string { s[Lead(s)..] }

  function DropTrailing(s: string): string { s[..Body(s)] }

  function Strip(s: string): string { DropTrailing(SkipSpaces(s)) }

  /** The maximal runs of characters that are not whitespace, in order. */
  function Words(s: string): (ws: seq<string>)
    decreases |s|
  {
    var r := SkipSpaces(s);
    if r == "" then [] else
      var n := WordLength(r);
      [r[..n]] + Words(r[n..])
  }

  predicate OccursAt(hay: string, needle: string, i: nat) {
    i + |needle| <= |hay| && hay[i..i + |needle|] == needle
  }

  predicate Contains(hay: string, needle: string) {
    exists i: nat | 0 <= i <= |hay| :: OccursAt(hay, needle, i)
  }

  /** The code points of whitespace. */
  const SPACES: set<int> := {
    0x09, 0x0A, 0x0B, 0x0C, 0x0D, 0x1C, 0x1D, 0x1E, 0x1F, 0x20, 0x85, 0xA0, 0x1680,
    0x2000, 0x2001, 0x2002, 0x2003, 0x2004, 0x2005, 0x2006, 0x2007, 0x2008, 0x2009, 0x200A,
    0x2028, 0x2029, 0x202F, 0x205F, 0x3000}

  lemma {:induction false} SpacesAre(c: char)
    ensures IsSpace(c) <==> c as int in SPACES
  {
  }

  /* ---------- digits ---------- */

  predicate Digit(c: char) { '0' <= c <= '9' }

  predicate AllDigits(s: string) { forall i | 0 <= i < |s| :: Digit(s[i]) }

  /** The number a digit string stands for. */
  function ToInt(s: string): nat
    requires AllDigits(s)
  {
    if s == "" then 0 else 10 * ToInt(s[..|s| - 1]) + (s[|s| - 1] as int - '0' as int)
  }

  /* ---------- what the scans find ---------- */

  lemma {:induction false} LeadIs(s: string)
    ensures Blank(s[..Lead(s)])
    decreases |s|
  {
    if s != "" && IsSpace(s[0]) {
      LeadIs(s[1..]);
      assert s[..Lead(s)] == [s[0]] + s[1..][..Lead(s[1..])];
    }
  }

  lemma {:induction false} LeadOf(s: string, t: string)
    requires Blank(s) && (t == "" || !IsSpace(t[0]))
    ensures Lead(s + t) == |s|
    decreases |s|
  {
    if s == "" {
      assert s + t == t;
    } else {
      assert (s + t)[1..] == s[1..] + t;
      LeadOf(s[1..], t);
    }
  }

  lemma {:induction false} BodyIs(s: string)
    ensures Blank(s[Body(s)..]) && (Body(s) > 0 ==> !IsSpace(s[Body(s) - 1]))
    decreases |s|
  {
    if s != "" && IsSpace(s[|s| - 1]) {
      var u := s[..|s| - 1];
      BodyIs(u);
      assert s[Body(s)..] == u[Body(u)..] + [s[|s| - 1]];
    }
  }

  lemma {:induction false} BodyOf(s: string, t: string)
    requires Blank(t) && (s == "" || !IsSpace(s[|s| - 1]))
    ensures Body(s + t) == |s|
    decreases |t|
  {
    if t == "" {
      assert s + t == s;
    } else {
      assert (s + t)[..|s + t| - 1] == s + t[..|t| - 1];
      BodyOf(s, t[..|t| - 1]);
    }
  }

  lemma {:induction false} WordLengthOf(s: string, t: string)
    requires (forall i | 0 <= i < |s| :: !IsSpace(s[i])) && (t == "" || IsSpace(t[0]))
    ensures WordLength(s + t) == |s|
    decreases |s|
  {
    if s == "" {
      assert s + t == t;
    } else {
      assert (s + t)[1..] == s[1..] + t;
      WordLengthOf(s[1..], t);
    }
  }

  lemma {:induction false} WordLengthIs(s: string)
    ensures forall i | 0 <= i < WordLength(s) :: !IsSpace(s[i])
    ensures WordLength(s) < |s| ==> IsSpace(s[WordLength(s)])
    decreases |s|
  {
    if s != "" && !IsSpace(s[0]) {
      WordLengthIs(s[1..]);
      forall i | 0 <= i < WordLength(s)
        ensures !IsSpace(s[i])
      {
        if i > 0 { assert s[i] == s[1..][i - 1]; }
      }
    }
  }

  lemma {:induction false} StripTrimmed(s: string)
    ensures Trimmed(Strip(s)) && Contains(s, Strip(s))
  {
    hide IsSpace, Lead, Body;
    var i := Lead(s);
    BodyIs(s[i..]);
    var n := Body(s[i..]);
    assert s[i..i + n] == s[i..][..n];
    assert OccursAt(s, Strip(s), i);
  }

  lemma {:induction false} TrimmedIsStripped(s: string)
    requires Trimmed(s)
    ensures Strip(s) == s
  {
    assert s[0..] == s;
  }

  lemma {:induction false} ContainsTransitive(a: string, b: string, c: string)
    requires Contains(b, a) && Contains(c, b)
    ensures Contains(c, a)
  {
    var i: nat :| i <= |b| && OccursAt(b, a, i);
    var j: nat :| j <= |c| && OccursAt(c, b, j);
    forall k | 0 <= k < |a|
      ensures c[j + i + k] == a[k]
    {
      assert a[k] == b[i..i + |a|][k] && b[i + k] == c[j..j + |b|][i + k];
    }
    assert OccursAt(c, a, j + i);
  }

  /* ---------- words of longer texts ---------- */

  lemma {:induction false} WordsSkip(s: string, t: string)
    requires Blank(s)
    ensures Words(s + t) == Words(t)
  {
    var k := Lead(t);
    LeadIs(t);
    assert s + t == (s + t[..k]) + t[k..];
    LeadOf(s + t[..k], t[k..]);
    assert SkipSpaces(s + t) == SkipSpaces(t);
  }

  lemma {:induction false} WordsFirst(w: string, t: string)
    requires w != "" && (forall i | 0 <= i < |w| :: !IsSpace(w[i])) && (t == "" || IsSpace(t[0]))
    ensures Words(w + t) == [w] + Words(t)
  {
    assert Lead(w + t) == 0;
    assert SkipSpaces(w + t) == w + t;
    WordLengthOf(w, t);
    assert (w + t)[..|w|] == w;
    assert (w + t)[|w|..] == t;
  }

  lemma {:induction false} WordsOfBlank(s: string)
    requires Blank(s)
    ensures Words(s) == []
  {
    WordsSkip(s, "");
    assert s + "" == s;
  }

  /** Leading whitespace aside, a text is its first word followed by the rest. */
  lemma {:induction false} WordsSplit(s: string) returns (w: string, rest: string)
    requires Lead(s) < |s|
    ensures s[Lead(s)..] == w + rest
    ensures w != "" && (forall i | 0 <= i < |w| :: !IsSpace(w[i])) && (rest == "" || IsSpace(rest[0]))
    ensures |rest| < |s|
  {
    var r := s[Lead(s)..];
    WordLengthIs(r);
    w, rest := r[..WordLength(r)], r[WordLength(r)..];
  }

  lemma {:induction false} Associative<T>(a: seq<T>, b: seq<T>, c: seq<T>)
    ensures a + b + c == a + (b + c)
  {
  }

  lemma {:induction false} WordsOfParts(p: string, w: string, rest: string)
    requires Blank(p) && w != "" && (forall i | 0 <= i < |w| :: !IsSpace(w[i])) && (rest == "" || IsSpace(rest[0]))
    ensures Words(p + (w + rest)) == [w] + Words(rest)
  {
    WordsSkip(p, w + rest);
    WordsFirst(w, rest);
  }

  lemma {:induction false} Parts(s: string) returns (p: string, w: string, rest: string)
    ensures s == p + (w + rest) && Blank(p)
    ensures w == "" ==> rest == ""
    ensures (forall i | 0 <= i < |w| :: !IsSpace(w[i])) && (rest == "" || IsSpace(rest[0]))
  {
    LeadIs(s);
    p, w, rest := s[..Lead(s)], "", "";
    if Lead(s) < |s| {
      w, rest := WordsSplit(s);
    }
  }

  /** At a word boundary the words of a text are the words of its two parts. */
  lemma {:induction false} WordsConcat(s: string, t: string)
    requires t == "" || IsSpace(t[0])
    ensures Words(s + t) == Words(s) + Words(t)
    decreases |s|
  {
    hide Words, IsSpace;
    var p, w, rest := Parts(s);
    if w == "" {
      assert s == p;
      WordsSkip(s, t);
      WordsOfBlank(s);
    } else {
      WordsConcat(rest, t);
      WordsConcatStep(p, w, rest, t);
    }
  }

  lemma {:induction false} WordsConcatStep(p: string, w: string, rest: string, t: string)
    requires Blank(p) && w != "" && (forall i | 0 <= i < |w| :: !IsSpace(w[i])) && (rest == "" || IsSpace(rest[0]))
    requires t == "" || IsSpace(t[0])
    requires Words(rest + t) == Words(rest) + Words(t)
    ensures Words(p + (w + rest) + t) == Words(p + (w + rest)) + Words(t)
  {
    Associative(p, w + rest, t);
    Associative(w, rest, t);
    WordsOfParts(p, w, rest + t);
    WordsOfParts(p, w, rest);
    Associative([w], Words(rest), Words(t));
  }

  lemma {:induction false} WordsJoined(s: string, t: string)
    ensures Words(s + " " + t) == Words(s) + Words(t)
  {
    assert s + " " + t == s + (" " + t);
    WordsConcat(s, " " + t);
    WordsSkip(" ", t);
  }

  lemma {:induction false} WordsMiddle(p: string, m: string, q: string)
    requires Blank(p) && Blank(q)
    ensures Words(p + m + q) == Words(m)
  {
    assert p + m + q == p + (m + q);
    WordsSkip(p, m + q);
    WordsConcat(m, q);
    WordsOfBlank(q);
  }

  lemma {:induction false} StripParts(s: string) returns (p: string, q: string)
    ensures Blank(p) && Blank(q) && s == p + Strip(s) + q
  {
    LeadIs(s);
    BodyIs(SkipSpaces(s));
    p, q := s[..Lead(s)], SkipSpaces(s)[Body(SkipSpaces(s))..];
  }

  lemma {:induction false} WordsStrip(s: string)
    ensures Words(Strip(s)) == Words(s)
  {
    var p, q := StripParts(s);
    WordsMiddle(p, Strip(s), q);
  }

  lemma {:induction false} WordsOfSkipped(s: string)
    ensures Words(SkipSpaces(s)) == Words(s)
  {
    LeadIs(s);
    assert s == s[..Lead(s)] + SkipSpaces(s);
    WordsSkip(s[..Lead(s)], SkipSpaces(s));
  }

  lemma {:induction false} SomeWord(s: string)
    requires s != "" && !IsSpace(s[0])
    ensures Words(s) != []
  {
    assert SkipSpaces(s) == s;
  }
}
