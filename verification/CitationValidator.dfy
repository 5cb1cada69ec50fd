/**
 The citation validator: whatever a model drafts, what leaves here cites only offered
 clauses, quotes them literally, and is conclusive only with a decisive citation.
 */
module CitationValidator {
  import opened Results
  import opened Text
  import opened Quotation
  import opened Corpus
  import opened Retrieval

  datatype Role = Decisive | Supporting | ContextOnly

  datatype Citation = Citation(path: string, role: Role, excerpt: string)

  datatype Verdict = Compliant | Violation | Ambiguous | NoClauseFound

  /** What the model returned; nothing about it is assumed. */
  datatype DraftVerdict = DraftVerdict(verdict: Verdict, citations: seq<Citation>)

  datatype RejectReason = NotOffered | NotCitable | NotInForce | ExcerptNotSubstring

  datatype Rejected = Rejected(citation: Citation, reason: RejectReason)

  datatype Note = NoValidDecisiveCitation | SingleDecisiveCitation | AbstentionWithCitations

  datatype Outcome = Outcome(
    verdict: Verdict, citations: seq<Citation>, downgraded: bool, note: Option<Note>, rejected: seq<Rejected>)

  predicate Conclusive(v: Verdict) { v != NoClauseFound }

  /* ---------- looking clauses up ---------- */

  function Find(list: seq<Candidate>, path: string): (r: Option<Candidate>)
    ensures r.Some? ==> r.value in list && r.value.path == path
    ensures r.None? ==> forall d | d in list :: d.path != path
  {
    if list == [] then None else if list[0].path == path then Some(list[0]) else Find(list[1..], path)
  }

  /** Candidates first, then context. */
  function ByPath(offered: CandidateSet, path: string): Option<Candidate> {
    if Find(offered.candidates, path).Some? then Find(offered.candidates, path) else Find(offered.contextOnly, path)
  }

  /* ---------- the verdict on one citation ---------- */

  function Judge(offered: CandidateSet, asOf: Date, c: Citation): Option<RejectReason> {
    var clause := ByPath(offered, c.path);
    if c.role == ContextOnly then
      if !HasPath(offered.contextOnly, c.path) then Some(NotOffered)
      else if clause.None? || !IsLiteralSubstring(c.excerpt, clause.value.text) then Some(ExcerptNotSubstring)
      else None
    else if !HasPath(offered.candidates, c.path) then Some(NotOffered)
    else if clause.None? || !clause.value.citable then Some(NotCitable)
    else if clause.value.effectiveFrom.Some? && clause.value.effectiveFrom.value > asOf then Some(NotInForce)
    else if clause.value.effectiveTo.Some? && clause.value.effectiveTo.value <= asOf then Some(NotInForce)
    else if !IsLiteralSubstring(c.excerpt, clause.value.text) then Some(ExcerptNotSubstring)
    else None
  }

  function KeptOf(offered: CandidateSet, asOf: Date, cs: seq<Citation>, n: nat): seq<Citation>
    requires n <= |cs|
  {
    if n == 0 then [] else
      KeptOf(offered, asOf, cs, n - 1) + (if Judge(offered, asOf, cs[n - 1]).None? then [cs[n - 1]] else [])
  }

  function RejectedOf(offered: CandidateSet, asOf: Date, cs: seq<Citation>, n: nat): seq<Rejected>
    requires n <= |cs|
  {
    if n == 0 then [] else
      var verdict := Judge(offered, asOf, cs[n - 1]);
      RejectedOf(offered, asOf, cs, n - 1) + (if verdict.Some? then [Rejected(cs[n - 1], verdict.value)] else [])
  }

  function AsContext(cs: seq<Citation>): (r: seq<Citation>)
    ensures |r| == |cs| && forall i | 0 <= i < |cs| :: r[i] == cs[i].(role := ContextOnly)
  {
    seq(|cs|, i requires 0 <= i < |cs| => cs[i].(role := ContextOnly))
  }

  function DecisiveCount(cs: seq<Citation>, n: nat): (k: nat)
    requires n <= |cs|
    ensures k > 0 <==> exists i | 0 <= i < n :: cs[i].role == Decisive
  {
    if n == 0 then 0 else DecisiveCount(cs, n - 1) + (if cs[n - 1].role == Decisive then 1 else 0)
  }

  function Decide(verdict: Verdict, kept: seq<Citation>, rejected: seq<Rejected>): Outcome {
    var decisive := DecisiveCount(kept, |kept|);
    if Conclusive(verdict) && decisive == 0 then
      Outcome(NoClauseFound, AsContext(kept), true, Some(NoValidDecisiveCitation), rejected)
    else if verdict == Ambiguous && decisive < 2 then
      Outcome(Ambiguous, kept, false, Some(SingleDecisiveCitation), rejected)
    else if verdict == NoClauseFound && decisive > 0 then
      Outcome(NoClauseFound, AsContext(kept), true, Some(AbstentionWithCitations), rejected)
    else Outcome(verdict, kept, false, None, rejected)
  }

  function Validated(draft: DraftVerdict, offered: CandidateSet, asOf: Date): Outcome {
    var n := |draft.citations|;
    Decide(draft.verdict, KeptOf(offered, asOf, draft.citations, n), RejectedOf(offered, asOf, draft.citations, n))
  }

  method Validate(draft: DraftVerdict, offered: CandidateSet, asOf: Date) returns (r: Outcome)
    ensures r == Validated(draft, offered, asOf)
  {
    hide Judge;
    var kept, rejected := [], [];
    for n := 0 to |draft.citations|
      invariant kept == KeptOf(offered, asOf, draft.citations, n)
      invariant rejected == RejectedOf(offered, asOf, draft.citations, n)
    {
      var c := draft.citations[n];
      var reason := JudgeCitation(offered, asOf, c);
      if reason.Some? { rejected := rejected + [Rejected(c, reason.value)]; } else { kept := kept + [c]; }
    }
    var decisive := 0;
    for i := 0 to |kept|
      invariant decisive == DecisiveCount(kept, i)
    {
      if kept[i].role == Decisive { decisive := decisive + 1; }
    }
    if Conclusive(draft.verdict) && decisive == 0 {
      return Outcome(NoClauseFound, AsContext(kept), true, Some(NoValidDecisiveCitation), rejected);
    }
    if draft.verdict == Ambiguous && decisive < 2 {
      return Outcome(Ambiguous, kept, false, Some(SingleDecisiveCitation), rejected);
    }
    if draft.verdict == NoClauseFound && decisive > 0 {
      return Outcome(NoClauseFound, AsContext(kept), true, Some(AbstentionWithCitations), rejected);
    }
    return Outcome(draft.verdict, kept, false, None, rejected);
  }

  /** The branches of the loop body, in order. */
  method JudgeCitation(offered: CandidateSet, asOf: Date, c: Citation) returns (reason: Option<RejectReason>)
    ensures reason == Judge(offered, asOf, c)
  {
    hide IsLiteralSubstring, Find;
    var clause := ByPath(offered, c.path);
    if c.role == ContextOnly {
      if !HasPath(offered.contextOnly, c.path) { return Some(NotOffered); }
      if clause.None? || !IsLiteralSubstring(c.excerpt, clause.value.text) { return Some(ExcerptNotSubstring); }
      return None;
    }
    if !HasPath(offered.candidates, c.path) { return Some(NotOffered); }
    if clause.None? || !clause.value.citable { return Some(NotCitable); }
    if clause.value.effectiveFrom.Some? && clause.value.effectiveFrom.value > asOf { return Some(NotInForce); }
    if clause.value.effectiveTo.Some? && clause.value.effectiveTo.value <= asOf { return Some(NotInForce); }
    if !IsLiteralSubstring(c.excerpt, clause.value.text) { return Some(ExcerptNotSubstring); }
    return None;
  }

  /* ---------- what the outcome guarantees, for every draft ---------- */

  /** Nothing is dropped silently: every drafted citation is kept or rejected with a reason. */
  lemma {:induction false} NothingVanishes(offered: CandidateSet, asOf: Date, cs: seq<Citation>, n: nat)
    requires n <= |cs|
    ensures |KeptOf(offered, asOf, cs, n)| + |RejectedOf(offered, asOf, cs, n)| == n
    ensures forall c | c in KeptOf(offered, asOf, cs, n) :: c in cs && Judge(offered, asOf, c).None?
    ensures forall r | r in RejectedOf(offered, asOf, cs, n) ::
              r.citation in cs && Judge(offered, asOf, r.citation) == Some(r.reason)
    ensures forall c | c in cs[..n] ::
              if Judge(offered, asOf, c).None? then c in KeptOf(offered, asOf, cs, n)
              else Rejected(c, Judge(offered, asOf, c).value) in RejectedOf(offered, asOf, cs, n)
  {
    hide Judge;
    if n != 0 {
      NothingVanishes(offered, asOf, cs, n - 1);
      assert cs[..n] == cs[..n - 1] + [cs[n - 1]];
    }
  }

  /** The clause behind a citation: found, and quoted literally. */
  predicate Grounded(offered: CandidateSet, c: Citation) {
    ByPath(offered, c.path).Some? && IsLiteralSubstring(c.excerpt, ByPath(offered, c.path).value.text)
  }

  /** A citation that counts: offered as a candidate, citable, and inside its window. */
  predicate Citable(offered: CandidateSet, asOf: Date, c: Citation) {
    && HasPath(offered.candidates, c.path)
    && ByPath(offered, c.path).Some?
    && var d := ByPath(offered, c.path).value;
    && d in offered.candidates && d.citable && InWindow(d.effectiveFrom, d.effectiveTo, asOf)
  }

  /** A citation is kept exactly when it is grounded in a list its role may use; none is rejected without need. */
  lemma {:induction false} KeptIff(offered: CandidateSet, asOf: Date, c: Citation)
    ensures Judge(offered, asOf, c).None? <==>
              && Grounded(offered, c)
              && (if c.role == ContextOnly then HasPath(offered.contextOnly, c.path) else Citable(offered, asOf, c))
  {
    hide IsLiteralSubstring;
    FindIff(offered.candidates, c.path);
  }

  lemma {:induction false} FindIff(list: seq<Candidate>, path: string)
    ensures Find(list, path).Some? <==> HasPath(list, path)
  {
    hide Find;
  }

  lemma {:induction false} OutcomeFromKept(draft: DraftVerdict, offered: CandidateSet, asOf: Date, i: nat)
    requires i < |Validated(draft, offered, asOf).citations|
    ensures var kept := KeptOf(offered, asOf, draft.citations, |draft.citations|);
            var c := Validated(draft, offered, asOf).citations[i];
            && i < |kept| && c.path == kept[i].path && c.excerpt == kept[i].excerpt
            && (c.role != ContextOnly ==> c == kept[i])
  {
    hide KeptOf, RejectedOf;
  }

  /** Every citation that leaves the validator is grounded; decisive and supporting ones are citable. */
  lemma {:induction false} OutcomeSound(draft: DraftVerdict, offered: CandidateSet, asOf: Date, i: nat)
    requires i < |Validated(draft, offered, asOf).citations|
    ensures var c := Validated(draft, offered, asOf).citations[i];
            Grounded(offered, c) && (c.role != ContextOnly ==> Citable(offered, asOf, c))
  {
    hide KeptOf, RejectedOf, Validated, Judge, IsLiteralSubstring, ByPath;
    var kept := KeptOf(offered, asOf, draft.citations, |draft.citations|);
    OutcomeFromKept(draft, offered, asOf, i);
    NothingVanishes(offered, asOf, draft.citations, |draft.citations|);
    assert kept[i] in kept;
    KeptIff(offered, asOf, kept[i]);
  }

  /** The verdict is conclusive exactly when a decisive citation stands. */
  lemma {:induction false} ConclusiveIffDecisive(draft: DraftVerdict, offered: CandidateSet, asOf: Date)
    ensures var r := Validated(draft, offered, asOf);
            Conclusive(r.verdict) <==> exists i | 0 <= i < |r.citations| :: r.citations[i].role == Decisive
  {
    hide KeptOf, RejectedOf, DecisiveCount;
    var kept := KeptOf(offered, asOf, draft.citations, |draft.citations|);
    var k := DecisiveCount(kept, |kept|);
    assert k > 0 <==> exists i | 0 <= i < |kept| :: kept[i].role == Decisive;
  }

  /** The model's own abstention is never overruled, and no verdict is ever strengthened. */
  lemma {:induction false} NeverStrengthened(draft: DraftVerdict, offered: CandidateSet, asOf: Date)
    ensures var r := Validated(draft, offered, asOf);
            && (r.verdict == draft.verdict || r.verdict == NoClauseFound)
            && (draft.verdict == NoClauseFound ==> r.verdict == NoClauseFound)
            && (r.downgraded ==> r.verdict == NoClauseFound && forall c | c in r.citations :: c.role == ContextOnly)
  {
    hide KeptOf, RejectedOf, DecisiveCount;
  }

  /* ---------- which paths a draft can make decisive ---------- */

  /** The candidate behind a path counts: citable, and inside its window. */
  predicate Countable(offered: CandidateSet, asOf: Date, path: string) {
    && Find(offered.candidates, path).Some?
    && var d := Find(offered.candidates, path).value;
    && d.citable && InWindow(d.effectiveFrom, d.effectiveTo, asOf)
  }

  ghost predicate MadeDecisive(draft: DraftVerdict, offered: CandidateSet, asOf: Date, path: string) {
    exists c | c in Validated(draft, offered, asOf).citations :: c.path == path && c.role == Decisive
  }

  /** One decisive citation that passes the quotation test carries any unambiguous conclusive verdict. */
  lemma {:induction false} SingleCitationStands(offered: CandidateSet, asOf: Date, verdict: Verdict, path: string,
      excerpt: string)
    requires Countable(offered, asOf, path)
    requires IsLiteralSubstring(excerpt, Find(offered.candidates, path).value.text)
    requires Conclusive(verdict) && verdict != Ambiguous
    ensures var cite := Citation(path, Decisive, excerpt);
            Validated(DraftVerdict(verdict, [cite]), offered, asOf) == Outcome(verdict, [cite], false, None, [])
  {
    hide IsLiteralSubstring, Find;
    var cite := Citation(path, Decisive, excerpt);
    FindIff(offered.candidates, path);
    assert Judge(offered, asOf, cite).None?;
    assert KeptOf(offered, asOf, [cite], 1) == [cite];
    assert RejectedOf(offered, asOf, [cite], 1) == [];
    assert DecisiveCount([cite], 1) == 1;
  }

  /**
   A conclusive verdict may rest on a blank quotation: only an excerpt with at least one word
   is sure to quote something.
   */
  lemma {:induction false} BlankQuoteDecides(offered: CandidateSet, asOf: Date, verdict: Verdict, path: string,
      excerpt: string)
    requires Countable(offered, asOf, path) && excerpt != "" && Blank(excerpt)
    requires Conclusive(verdict) && verdict != Ambiguous
    ensures var cite := Citation(path, Decisive, excerpt);
            Validated(DraftVerdict(verdict, [cite]), offered, asOf) == Outcome(verdict, [cite], false, None, [])
  {
    hide IsLiteralSubstring, Validated, Find;
    BlankExcerptAccepted(excerpt, Find(offered.candidates, path).value.text);
    SingleCitationStands(offered, asOf, verdict, path, excerpt);
  }

  /** Some draft makes a path decisive exactly when its first candidate counts: known before the model is asked. */
  lemma {:induction false} DecisiveIffCountable(offered: CandidateSet, asOf: Date, path: string)
    ensures (exists draft :: MadeDecisive(draft, offered, asOf, path)) <==> Countable(offered, asOf, path)
  {
    hide IsLiteralSubstring, Validated, Find;
    if draft :| MadeDecisive(draft, offered, asOf, path) {
      var cs := Validated(draft, offered, asOf).citations;
      var c :| c in cs && c.path == path && c.role == Decisive;
      var i: nat :| i < |cs| && cs[i] == c;
      OutcomeSound(draft, offered, asOf, i);
      FindIff(offered.candidates, path);
    }
    if Countable(offered, asOf, path) {
      BlankQuoteDecides(offered, asOf, Violation, path, " ");
      var cite := Citation(path, Decisive, " ");
      assert cite in Validated(DraftVerdict(Violation, [cite]), offered, asOf).citations;
      assert MadeDecisive(DraftVerdict(Violation, [cite]), offered, asOf, path);
    }
  }

  lemma {:induction false} WholeTextQuoted(text: string)
    requires text != ""
    ensures IsLiteralSubstring(text, text)
  {
    assert OccursAt(NormaliseWs(text), NormaliseWs(text), 0);
  }
}
