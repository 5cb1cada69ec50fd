/** What the text of a chunk is: the node's words behind the first sentence of its parent. */
module ChunkText {
  import opened Results
  import opened Text
  import opened ClauseParser
  import opened ParserProperties
  import opened Chunker

  /** A sentence ends here: a mark with whitespace or nothing behind it. */
  predicate EndsAt(text: string, i: nat) {
    && i < |text| && (text[i] == '.' || text[i] == '!' || text[i] == '?')
    && (i + 1 == |text| || IsSpace(text[i + 1]))
  }

  /** The first two hundred characters. */
  function Short(s: string): string { if |s| <= 200 then s else s[..200] }

  lemma {:induction false} SentenceEndIs(text: string, i: nat)
    requires i <= |text|
    ensures var end := SentenceEnd(text, i);
            && (end.None? <==> forall j: nat | i <= j :: !EndsAt(text, j))
            && (end.Some? ==>
                  exists j: nat :: i <= j && EndsAt(text, j) && (forall l: nat | i <= l < j :: !EndsAt(text, l))
                                   && end.value == (if j + 1 == |text| then j + 1 else j + 2))
    decreases |text| - i
  {
    if i < |text| {
      if EndsAt(text, i) {
        assert SentenceEnd(text, i) == Some(if i + 1 == |text| then i + 1 else i + 2);
      } else {
        SentenceEndIs(text, i + 1);
        if SentenceEnd(text, i + 1).Some? {
          var j: nat :| i + 1 <= j && EndsAt(text, j) && (forall l: nat | i + 1 <= l < j :: !EndsAt(text, l))
                        && SentenceEnd(text, i + 1).value == (if j + 1 == |text| then j + 1 else j + 2);
          assert forall l: nat | i <= l < j :: !EndsAt(text, l);
        }
      }
    }
  }

  lemma {:induction false} StripTail(s: string, c: char)
    requires IsSpace(c) && s != "" && !IsSpace(s[|s| - 1])
    ensures Strip(s + [c]) == Strip(s)
  {
    var n := Lead(s);
    LeadIs(s);
    LeadSame(s, [c]);
    var t := s[n..];
    assert SkipSpaces(s + [c]) == t + [c];
    BodyOf(t, [c]);
    BodyOf(t, "");
    assert t + "" == t && (t + [c])[..|t|] == t;
  }

  lemma {:induction false} LeadSame(s: string, t: string)
    requires s != "" && !IsSpace(s[|s| - 1])
    ensures Lead(s + t) == Lead(s) < |s|
  {
    LeadIs(s);
    var n := Lead(s);
    assert s[..|s|] == s;
    LeadOf(s[..n], s[n..] + t);
    assert s[..n] + (s[n..] + t) == s + t;
  }

  /** The stem is the text up to and with its first sentence end, stripped and cut at two hundred characters. */
  lemma {:induction false} FirstSentenceAt(text: string, i: nat)
    requires EndsAt(text, i) && forall j: nat | j < i :: !EndsAt(text, j)
    ensures FirstSentence(text) == Short(Strip(text[..i + 1]))
  {
    hide Strip, SentenceEnd;
    SentenceEndIs(text, 0);
    SentenceEndInside(text, 0);
    var end := SentenceEnd(text, 0);
    assert end.Some?;
    var j: nat :| EndsAt(text, j) && (forall l: nat | l < j :: !EndsAt(text, l))
                  && end.value == (if j + 1 == |text| then j + 1 else j + 2);
    assert i == j;
    if i + 1 < |text| {
      assert text[..i + 2] == text[..i + 1] + [text[i + 1]];
      MarkIsNoSpace(text[i]);
      StripTail(text[..i + 1], text[i + 1]);
    }
  }

  lemma {:induction false} MarkIsNoSpace(c: char)
    requires c == '.' || c == '!' || c == '?'
    ensures !IsSpace(c)
  {
  }

  /** Without a sentence end it is the beginning of the whole text, as it stands. */
  lemma {:induction false} NoSentence(text: string)
    requires forall j: nat :: !EndsAt(text, j)
    ensures FirstSentence(text) == Short(text)
  {
    hide SentenceEnd;
    SentenceEndIs(text, 0);
  }

  /** The node is shorter than forty words and hangs below another. */
  predicate Stemmed(n: Node) { |Words(n.text)| < 40 && (n.IsClause() || n.IsLetter()) }

  /**
   The chunk of a parsed node: its own text, and for a short clause or letter the first
   sentence of the parent found in front of it; no word of the node is lost or moved.
   */
  lemma {:induction false} ChunkIs(nodes: seq<Node>, i: nat)
    requires WellShaped(nodes) && i < |nodes|
    ensures var table := ByKey(nodes, |nodes|);
            var n, c := nodes[i], ChunkOf(table, nodes[i], i);
            && c.node == n && c.index == i && c.tokens == |Words(n.text)|
            && (c.strategy == LeafWithStem <==> Stemmed(n))
            && (!Stemmed(n) ==> c.textWithStem == n.text)
            && (Stemmed(n) ==>
                  && ParentOf(table, n).Some?
                  && var stem := FirstSentence(ParentOf(table, n).value.text);
                  && c.textWithStem == Strip(stem + " " + n.text)
                  && Words(c.textWithStem) == Words(stem) + Words(n.text))
  {
    hide Words, Strip, FirstSentence, ByKey, WellShaped;
    var n := nodes[i];
    ParentFound(nodes, i);
    var parent := ParentOf(ByKey(nodes, |nodes|), n);
    if parent.Some? {
      var stem := FirstSentence(parent.value.text);
      WordsStrip(stem + " " + n.text);
      WordsJoined(stem, n.text);
    }
  }
}
