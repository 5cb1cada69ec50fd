/**
 The literal-quotation test of the citation validator: whitespace runs are normalised,
 everything else must match exactly.
 */
module Quotation {
  import opened Text

  /** Every whitespace run becomes one space. */
  function CollapseRuns(s: string): string
    decreases |s|
  {
    if s == "" then ""
    else if IsSpace(s[0]) then " " + CollapseRuns(SkipSpaces(s))
    else [s[0]] + CollapseRuns(s[1..])
  }

  function NormaliseWs(s: string): string { Strip(CollapseRuns(s)) }

  predicate IsLiteralSubstring(excerpt: string, clauseText: string) {
    excerpt != "" && Contains(NormaliseWs(clauseText), NormaliseWs(excerpt))
  }

  /* ---------- normalising keeps the words and nothing else ---------- */

  lemma {:induction false} CollapseWords(s: string)
    ensures Words(CollapseRuns(s)) == Words(s)
    decreases |s|
  {
    var p, w, rest := Parts(s);
    if w == "" {
      assert s == p;
      CollapseBlank(p);
      WordsOfBlank(s);
      WordsOfBlank(CollapseRuns(s));
    } else {
      CollapseParts(p, w, rest);
      CollapseWords(rest);
      CollapseStart(rest);
      WordsOfParts(p, w, rest);
      WordsOfParts(if p == "" then "" else " ", w, CollapseRuns(rest));
    }
  }

  lemma {:induction false} CollapseBlank(p: string)
    requires Blank(p)
    ensures CollapseRuns(p) == if p == "" then "" else " "
  {
    if p != "" {
      LeadOf(p, "");
      assert p + "" == p;
      assert SkipSpaces(p) == "";
    }
  }

  lemma {:induction false} CollapseStart(s: string)
    ensures CollapseRuns(s) == "" <==> s == ""
    ensures s != "" ==> IsSpace(CollapseRuns(s)[0]) == IsSpace(s[0])
  {
  }

  lemma {:induction false} CollapseWord(w: string, rest: string)
    requires forall i | 0 <= i < |w| :: !IsSpace(w[i])
    ensures CollapseRuns(w + rest) == w + CollapseRuns(rest)
    decreases |w|
  {
    if w == "" {
      assert w + rest == rest;
    } else {
      assert (w + rest)[1..] == w[1..] + rest;
      CollapseWord(w[1..], rest);
    }
  }

  lemma {:induction false} CollapseParts(p: string, w: string, rest: string)
    requires Blank(p) && w != "" && (forall i | 0 <= i < |w| :: !IsSpace(w[i]))
    ensures CollapseRuns(p + (w + rest)) == (if p == "" then "" else " ") + (w + CollapseRuns(rest))
  {
    CollapseWord(w, rest);
    if p == "" {
      assert p + (w + rest) == w + rest;
    } else {
      LeadOf(p, w + rest);
      assert SkipSpaces(p + (w + rest)) == w + rest;
    }
  }

  /** Words joined by single spaces. */
  function JoinWords(ws: seq<string>): string {
    if ws == [] then "" else if |ws| == 1 then ws[0] else ws[0] + (" " + JoinWords(ws[1..]))
  }

  lemma {:induction false} StripIs(p: string, m: string, q: string)
    requires Blank(p) && Blank(q) && m != "" && Trimmed(m)
    ensures Strip(p + (m + q)) == m
  {
    LeadOf(p, m + q);
    assert SkipSpaces(p + (m + q)) == m + q;
    BodyOf(m, q);
    assert (m + q)[..|m|] == m;
  }

  lemma {:induction false} NormaliseSkips(s: string)
    ensures NormaliseWs(s) == NormaliseWs(SkipSpaces(s))
  {
    if s != "" && IsSpace(s[0]) {
      var y := CollapseRuns(SkipSpaces(s));
      CollapseStart(SkipSpaces(s));
      LeadOf(" ", y);
      assert SkipSpaces(" " + y) == y;
      assert y[0..] == y;
    } else {
      assert s[0..] == s;
    }
  }

  lemma {:induction false} NormaliseTwoWords(w: string, x: string)
    requires w != "" && (forall i | 0 <= i < |w| :: !IsSpace(w[i]))
    requires x != "" && !IsSpace(x[0])
    ensures Strip(w + (" " + x)) == w + (" " + Strip(x))
  {
    var p, q := StripParts(x);
    StripTrimmed(x);
    assert p == "";
    var m := w + (" " + Strip(x));
    assert x == Strip(x) + q;
    assert Strip(x) == "" ==> x == q;
    assert w + (" " + x) == "" + (m + q);
    StripIs("", m, q);
  }

  /** A normalised text is its words joined by single spaces. */
  lemma {:induction false} NormaliseIsJoin(s: string)
    ensures NormaliseWs(s) == JoinWords(Words(s))
    decreases |s|
  {
    var p, w, rest := Parts(s);
    if w == "" {
      assert s == p;
      WordsOfBlank(s);
      LeadOf(s, "");
      assert s + "" == s;
      NormaliseSkips(s);
    } else {
      NormaliseSkips(s);
      LeadOf(p, w + rest);
      assert SkipSpaces(s) == w + rest;
      WordsOfParts(p, w, rest);
      CollapseWord(w, rest);
      if rest == "" {
        StripIs("", w, "");
        assert "" + (w + "") == w;
      } else {
        var tail := SkipSpaces(rest);
        NormaliseSkips(rest);
        NormaliseIsJoin(rest);
        NormaliseLast(w, rest, tail);
      }
    }
  }

  lemma {:induction false} NormaliseLast(w: string, rest: string, tail: string)
    requires w != "" && (forall i | 0 <= i < |w| :: !IsSpace(w[i]))
    requires rest != "" && IsSpace(rest[0]) && tail == SkipSpaces(rest)
    requires NormaliseWs(tail) == JoinWords(Words(rest))
    ensures Strip(w + CollapseRuns(rest)) == JoinWords([w] + Words(rest))
  {
    WordsOfSkipped(rest);
    if tail == "" {
      WordsOfBlank(tail);
      StripIs("", w, " ");
      assert "" + (w + " ") == w + " ";
    } else {
      CollapseStart(tail);
      NormaliseTwoWords(w, CollapseRuns(tail));
      SomeWord(tail);
      JoinCons(w, Words(rest));
    }
  }

  lemma {:induction false} JoinCons(w: string, ws: seq<string>)
    requires ws != []
    ensures JoinWords([w] + ws) == w + (" " + JoinWords(ws))
  {
    assert ([w] + ws)[1..] == ws;
  }

  lemma {:induction false} SameWordsIffSameNorm(a: string, b: string)
    ensures Words(a) == Words(b) <==> NormaliseWs(a) == NormaliseWs(b)
  {
    NormaliseIsJoin(a);
    NormaliseIsJoin(b);
    NormaliseKeepsWords(a);
    NormaliseKeepsWords(b);
  }

  lemma {:induction false} NormaliseKeepsWords(s: string)
    ensures Words(NormaliseWs(s)) == Words(s)
  {
    CollapseWords(s);
    WordsStrip(CollapseRuns(s));
  }

  lemma {:induction false} NormaliseIdempotent(s: string)
    ensures NormaliseWs(NormaliseWs(s)) == NormaliseWs(s)
  {
    NormaliseKeepsWords(s);
    SameWordsIffSameNorm(NormaliseWs(s), s);
  }

  lemma {:induction false} QuotationTransitive(a: string, b: string, c: string)
    requires IsLiteralSubstring(a, b) && IsLiteralSubstring(b, c)
    ensures IsLiteralSubstring(a, c)
  {
    ContainsTransitive(NormaliseWs(a), NormaliseWs(b), NormaliseWs(c));
  }

  /* ---------- an accepted quotation is a slice of the clause ---------- */

  lemma {:induction false} CollapsePrefix(t: string, q: nat) returns (j: nat)
    requires q <= |CollapseRuns(t)|
    ensures j <= |t| && CollapseRuns(t[..j]) == CollapseRuns(t)[..q]
    decreases |t|
  {
    if q == 0 {
      j := 0;
    } else if IsSpace(t[0]) {
      var m, rest := Lead(t), SkipSpaces(t);
      LeadIs(t);
      var k := CollapsePrefix(rest, q - 1);
      j := m + k;
      assert t[..j] == t[..m] + rest[..k];
      LeadOf(t[..m], rest[..k]);
      assert SkipSpaces(t[..j]) == rest[..k];
    } else {
      var k := CollapsePrefix(t[1..], q - 1);
      j := 1 + k;
      assert t[..j][1..] == t[1..][..k];
    }
  }

  lemma {:induction false} CollapseSuffix(t: string, p: nat) returns (i: nat)
    requires p <= |CollapseRuns(t)|
    ensures i <= |t| && CollapseRuns(t[i..]) == CollapseRuns(t)[p..]
    decreases |t|
  {
    if p == 0 {
      i := 0;
      assert t[0..] == t;
    } else if IsSpace(t[0]) {
      var rest := SkipSpaces(t);
      var k := CollapseSuffix(rest, p - 1);
      i := Lead(t) + k;
      assert t[i..] == rest[k..];
    } else {
      var k := CollapseSuffix(t[1..], p - 1);
      i := 1 + k;
      assert t[i..] == t[1..][k..];
    }
  }

  lemma {:induction false} CollapseSlice(t: string, p: nat, q: nat) returns (i: nat, j: nat)
    requires p <= q <= |CollapseRuns(t)|
    ensures i <= j <= |t| && CollapseRuns(t[i..j]) == CollapseRuns(t)[p..q]
  {
    i := CollapseSuffix(t, p);
    var k := CollapsePrefix(t[i..], q - p);
    j := i + k;
    assert t[i..][..k] == t[i..j];
    assert CollapseRuns(t)[p..][..q - p] == CollapseRuns(t)[p..q];
  }

  lemma {:induction false} QuotedRuns(e: string, t: string) returns (p: nat)
    requires Contains(NormaliseWs(t), NormaliseWs(e))
    ensures OccursAt(CollapseRuns(t), NormaliseWs(e), p)
  {
    StripTrimmed(CollapseRuns(t));
    ContainsTransitive(NormaliseWs(e), NormaliseWs(t), CollapseRuns(t));
    p :| p <= |CollapseRuns(t)| && OccursAt(CollapseRuns(t), NormaliseWs(e), p);
  }

  lemma {:induction false} QuotedSlice(e: string, t: string) returns (i: nat, j: nat)
    requires Contains(NormaliseWs(t), NormaliseWs(e))
    ensures i <= j <= |t| && Words(t[i..j]) == Words(e)
  {
    var p := QuotedRuns(e, t);
    i, j := SliceWithRuns(t, NormaliseWs(e), p);
    SameRunsSameWords(t[i..j], e);
  }

  lemma {:induction false} SliceWithRuns(t: string, n: string, p: nat) returns (i: nat, j: nat)
    requires OccursAt(CollapseRuns(t), n, p)
    ensures i <= j <= |t| && CollapseRuns(t[i..j]) == n
  {
    i, j := CollapseSlice(t, p, p + |n|);
  }

  lemma {:induction false} SameRunsSameWords(x: string, e: string)
    requires CollapseRuns(x) == NormaliseWs(e)
    ensures Words(x) == Words(e)
  {
    CollapseWords(x);
    NormaliseKeepsWords(e);
  }

  /* ---------- and every slice is accepted ---------- */

  /** A trimmed text inside a padded one does not touch the padding. */
  lemma {:induction false} InsidePadding(p: string, m: string, q: string, n: string, k: nat)
    requires Blank(p) && Blank(q) && n != "" && Trimmed(n) && OccursAt(p + m + q, n, k)
    ensures |p| <= k && OccursAt(m, n, k - |p|)
  {
    var b := p + m + q;
    assert b[k] == n[0] && b[k + |n| - 1] == n[|n| - 1];
    assert |p| <= k && k + |n| <= |p| + |m|;
    assert m[k - |p|..k - |p| + |n|] == b[k..k + |n|];
  }

  lemma {:induction false} StripInside(a: string, b: string)
    requires Contains(b, a)
    ensures Contains(Strip(b), Strip(a))
  {
    StripTrimmed(a);
    if Strip(a) == "" {
      assert OccursAt(Strip(b), "", 0);
    } else {
      ContainsTransitive(Strip(a), a, b);
      var k: nat :| k <= |b| && OccursAt(b, Strip(a), k);
      var p, q := StripParts(b);
      InsidePadding(p, Strip(b), q, Strip(a), k);
      assert OccursAt(Strip(b), Strip(a), k - |p|);
    }
  }

  lemma {:induction false} NormaliseGrowsLeft(c: char, x: string)
    ensures Contains(NormaliseWs([c] + x), NormaliseWs(x))
  {
    var s := [c] + x;
    assert s[1..] == x;
    if IsSpace(c) {
      NormaliseSkips(s);
      NormaliseSkips(x);
      assert SkipSpaces(s) == SkipSpaces(x) by { assert Lead(s) == 1 + Lead(x); }
      assert OccursAt(NormaliseWs(s), NormaliseWs(x), 0);
    } else {
      assert CollapseRuns(s)[1..1 + |CollapseRuns(x)|] == CollapseRuns(x);
      assert OccursAt(CollapseRuns(s), CollapseRuns(x), 1);
      StripInside(CollapseRuns(x), CollapseRuns(s));
    }
  }

  lemma {:induction false} CollapseSnoc(x: string, c: char)
    ensures CollapseRuns(x) <= CollapseRuns(x + [c])
    decreases |x|
  {
    if x != "" {
      if IsSpace(x[0]) {
        LeadIs(x);
        var p, rest := x[..Lead(x)], SkipSpaces(x);
        CollapseSnoc(rest, c);
        if rest != "" || !IsSpace(c) {
          assert x + [c] == p + (rest + [c]);
          LeadOf(p, rest + [c]);
          assert SkipSpaces(x + [c]) == rest + [c];
        } else {
          assert p == x;
        }
      } else {
        assert (x + [c])[1..] == x[1..] + [c];
        CollapseSnoc(x[1..], c);
      }
    }
  }

  lemma {:induction false} NormaliseGrowsRight(x: string, c: char)
    ensures Contains(NormaliseWs(x + [c]), NormaliseWs(x))
  {
    CollapseSnoc(x, c);
    assert OccursAt(CollapseRuns(x + [c]), CollapseRuns(x), 0);
    StripInside(CollapseRuns(x), CollapseRuns(x + [c]));
  }

  lemma {:induction false} NormaliseOfSlice(t: string, i: nat, j: nat)
    requires i <= j <= |t|
    ensures Contains(NormaliseWs(t), NormaliseWs(t[i..j]))
    decreases i + |t| - j
  {
    if i > 0 {
      NormaliseOfSlice(t, i - 1, j);
      assert t[i - 1..j] == [t[i - 1]] + t[i..j];
      NormaliseGrowsLeft(t[i - 1], t[i..j]);
      ContainsTransitive(NormaliseWs(t[i..j]), NormaliseWs(t[i - 1..j]), NormaliseWs(t));
    } else if j < |t| {
      NormaliseOfSlice(t, i, j + 1);
      assert t[i..j + 1] == t[i..j] + [t[j]];
      NormaliseGrowsRight(t[i..j], t[j]);
      ContainsTransitive(NormaliseWs(t[i..j]), NormaliseWs(t[i..j + 1]), NormaliseWs(t));
    } else {
      assert t[i..j] == t;
      assert OccursAt(NormaliseWs(t), NormaliseWs(t), 0);
    }
  }

  /** The quotation has the same words as the slice [i..j] of the clause. */
  ghost predicate Quotes(e: string, t: string, i: nat, j: nat) {
    i <= j <= |t| && Words(t[i..j]) == Words(e)
  }

  /** Exactly the non-empty excerpts whose words are the words of some slice are accepted. */
  lemma {:induction false} AcceptedIffSlice(e: string, t: string)
    ensures IsLiteralSubstring(e, t) <==> e != "" && exists i: nat, j: nat :: Quotes(e, t, i, j)
  {
    if IsLiteralSubstring(e, t) {
      var i, j := QuotedSlice(e, t);
      assert Quotes(e, t, i, j);
    }
    if i: nat, j: nat :| Quotes(e, t, i, j) {
      NormaliseOfSlice(t, i, j);
      SameWordsIffSameNorm(t[i..j], e);
    }
  }

  /** A whitespace-only excerpt quotes nothing and is accepted against every clause. */
  lemma {:induction false} BlankExcerptAccepted(e: string, t: string)
    requires e != "" && Blank(e)
    ensures IsLiteralSubstring(e, t)
  {
    WordsOfBlank(e);
    WordsOfBlank("");
    assert t[0..0] == "";
    assert Quotes(e, t, 0, 0);
    AcceptedIffSlice(e, t);
  }

  lemma {:induction false} WordlessIffBlank(s: string)
    ensures Words(s) == [] <==> Blank(s)
  {
    hide Words;
    if Blank(s) {
      WordsOfBlank(s);
    } else {
      LeadIs(s);
      assert s[..|s|] == s;
      WordsOfSkipped(s);
      SomeWord(SkipSpaces(s));
    }
  }

  /** An accepted excerpt quotes words of the clause exactly when it is not blank. */
  lemma {:induction false} RealQuotationIffNotBlank(e: string, t: string)
    requires IsLiteralSubstring(e, t)
    ensures (exists i: nat, j: nat :: Quotes(e, t, i, j) && !Blank(t[i..j])) <==> !Blank(e)
  {
    hide IsLiteralSubstring, Words, Blank;
    AcceptedIffSlice(e, t);
    WordlessIffBlank(e);
    var i: nat, j: nat :| Quotes(e, t, i, j);
    WordlessIffBlank(t[i..j]);
    if p: nat, q: nat :| Quotes(e, t, p, q) && !Blank(t[p..q]) { WordlessIffBlank(t[p..q]); }
  }
}
