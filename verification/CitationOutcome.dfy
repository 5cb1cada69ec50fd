/** What the validator returns for a draft, stated over the draft and the offered clauses alone. */
module CitationOutcome {
  import opened Results
  import opened Corpus
  import opened Retrieval
  import opened Quotation
  import opened CitationValidator

  /** The citation stands: literally quoted from a clause its role may use, and, if it counts, from one in force. */
  predicate Passes(offered: CandidateSet, asOf: Date, c: Citation) {
    && Grounded(offered, c)
    && (if c.role == ContextOnly then HasPath(offered.contextOnly, c.path) else Citable(offered, asOf, c))
  }

  /** The citations that stand among the first n, in order. */
  function Passing(offered: CandidateSet, asOf: Date, cs: seq<Citation>, n: nat): seq<Citation>
    requires n <= |cs|
  {
    if n == 0 then [] else
      Passing(offered, asOf, cs, n - 1) + (if Passes(offered, asOf, cs[n - 1]) then [cs[n - 1]] else [])
  }

  /** The citations that do not stand among the first n, in order. */
  function Failing(offered: CandidateSet, asOf: Date, cs: seq<Citation>, n: nat): seq<Citation>
    requires n <= |cs|
  {
    if n == 0 then [] else
      Failing(offered, asOf, cs, n - 1) + (if Passes(offered, asOf, cs[n - 1]) then [] else [cs[n - 1]])
  }

  lemma {:induction false} RejectedIsFailing(offered: CandidateSet, asOf: Date, cs: seq<Citation>, n: nat)
    requires n <= |cs|
    ensures var rejected, failing := RejectedOf(offered, asOf, cs, n), Failing(offered, asOf, cs, n);
            && |rejected| == |failing|
            && forall i | 0 <= i < |failing| ::
                 rejected[i].citation == failing[i] && Judge(offered, asOf, failing[i]) == Some(rejected[i].reason)
  {
    hide Judge, Grounded, Citable, HasPath;
    if n != 0 {
      RejectedIsFailing(offered, asOf, cs, n - 1);
      KeptIff(offered, asOf, cs[n - 1]);
    }
  }

  /** Some decisive citation of the draft stands. */
  ghost predicate Founded(draft: DraftVerdict, offered: CandidateSet, asOf: Date) {
    exists i | 0 <= i < |draft.citations| :: draft.citations[i].role == Decisive
        && Passes(offered, asOf, draft.citations[i])
  }

  /** Exactly one citation of the list is decisive. */
  ghost predicate OneDecisive(cs: seq<Citation>) {
    exists i: nat :: OnlyDecisive(cs, i, |cs|)
  }

  lemma {:induction false} KeptIsPassing(offered: CandidateSet, asOf: Date, cs: seq<Citation>, n: nat)
    requires n <= |cs|
    ensures KeptOf(offered, asOf, cs, n) == Passing(offered, asOf, cs, n)
  {
    hide Judge, Grounded, Citable, HasPath;
    if n != 0 {
      KeptIsPassing(offered, asOf, cs, n - 1);
      KeptIff(offered, asOf, cs[n - 1]);
    }
  }

  lemma {:induction false} PassingDecisive(offered: CandidateSet, asOf: Date, cs: seq<Citation>, n: nat)
    requires n <= |cs|
    ensures var kept := Passing(offered, asOf, cs, n);
            (exists j | 0 <= j < |kept| :: kept[j].role == Decisive)
            <==> exists i | 0 <= i < n :: cs[i].role == Decisive && Passes(offered, asOf, cs[i])
  {
    hide Passes;
    if n != 0 {
      PassingDecisive(offered, asOf, cs, n - 1);
      var before, kept := Passing(offered, asOf, cs, n - 1), Passing(offered, asOf, cs, n);
      assert forall j | 0 <= j < |before| :: kept[j] == before[j];
      if cs[n - 1].role == Decisive && Passes(offered, asOf, cs[n - 1]) { assert kept[|before|].role == Decisive; }
      if j :| 0 <= j < |before| && before[j].role == Decisive { assert kept[j].role == Decisive; }
      if j :| 0 <= j < |kept| && kept[j].role == Decisive {
        if j < |before| {
          assert before[j].role == Decisive;
          var i :| 0 <= i < n - 1 && cs[i].role == Decisive && Passes(offered, asOf, cs[i]);
        } else {
          assert kept[j] == cs[n - 1] && Passes(offered, asOf, cs[n - 1]);
        }
      }
    }
  }

  ghost predicate OnlyDecisive(cs: seq<Citation>, i: nat, n: nat)
    requires n <= |cs|
  {
    i < n && cs[i].role == Decisive && forall j | 0 <= j < n && j != i :: cs[j].role != Decisive
  }

  /** Counting decisive citations tells none, one and several apart. */
  lemma {:induction false} CountTells(cs: seq<Citation>, n: nat)
    requires n <= |cs|
    ensures DecisiveCount(cs, n) == 1 <==> exists i: nat :: OnlyDecisive(cs, i, n)
  {
    if n != 0 {
      CountTells(cs, n - 1);
      if cs[n - 1].role == Decisive {
        if DecisiveCount(cs, n - 1) == 0 { assert OnlyDecisive(cs, n - 1, n); }
      } else {
        var m := n - 1;
        if i: nat :| OnlyDecisive(cs, i, m) { assert OnlyDecisive(cs, i, n); }
        if i: nat :| OnlyDecisive(cs, i, n) { assert OnlyDecisive(cs, i, m); }
      }
    }
  }

  lemma {:induction false} DecidedBy(draft: DraftVerdict, offered: CandidateSet, asOf: Date)
    ensures var kept := Passing(offered, asOf, draft.citations, |draft.citations|);
            var rejected := RejectedOf(offered, asOf, draft.citations, |draft.citations|);
            && Validated(draft, offered, asOf) == Decide(draft.verdict, kept, rejected)
            && (DecisiveCount(kept, |kept|) > 0 <==> Founded(draft, offered, asOf))
            && (DecisiveCount(kept, |kept|) == 1 <==> OneDecisive(kept))
  {
    hide Decide, DecisiveCount, RejectedOf, Passes;
    KeptIsPassing(offered, asOf, draft.citations, |draft.citations|);
    var kept := Passing(offered, asOf, draft.citations, |draft.citations|);
    PassingDecisive(offered, asOf, draft.citations, |draft.citations|);
    CountTells(kept, |kept|);
    assert DecisiveCount(kept, |kept|) > 0 <==> exists i | 0 <= i < |kept| :: kept[i].role == Decisive;
  }

  /**
   A founded conclusive draft is returned as it is, with exactly its passing citations. The
   outcome is a downgrade exactly when a conclusive draft is unfounded or an abstaining one is
   founded; it is then an abstention, and the same citations are kept as context.
   */
  lemma {:induction false} OutcomeExact(draft: DraftVerdict, offered: CandidateSet, asOf: Date)
    ensures var r := Validated(draft, offered, asOf);
            var kept := Passing(offered, asOf, draft.citations, |draft.citations|);
            var founded := Founded(draft, offered, asOf);
            && (r.downgraded <==> (draft.verdict != NoClauseFound) != founded)
            && (!r.downgraded ==> r.verdict == draft.verdict && r.citations == kept)
            && (r.downgraded ==> && r.verdict == NoClauseFound && |r.citations| == |kept|
                                 && forall i | 0 <= i < |kept| ::
                                      r.citations[i] == Citation(kept[i].path, ContextOnly, kept[i].excerpt))
            && (r.note == Some(NoValidDecisiveCitation) <==> draft.verdict != NoClauseFound && !founded)
            && (r.note == Some(AbstentionWithCitations) <==> draft.verdict == NoClauseFound && founded)
            && (r.note == Some(SingleDecisiveCitation) <==> draft.verdict == Ambiguous && OneDecisive(kept))
            && var failing := Failing(offered, asOf, draft.citations, |draft.citations|);
            && |r.rejected| == |failing|
            && forall i | 0 <= i < |failing| ::
                 r.rejected[i].citation == failing[i] && Judge(offered, asOf, failing[i]) == Some(r.rejected[i].reason)
  {
    hide Passing, Failing, Validated, RejectedOf, DecisiveCount, Founded, OneDecisive, Judge;
    DecidedBy(draft, offered, asOf);
    RejectedIsFailing(offered, asOf, draft.citations, |draft.citations|);
  }

  /* ---------- why a citation is rejected ---------- */

  /** The list a citation's role may draw from. */
  function ListFor(offered: CandidateSet, role: Role): seq<Candidate> {
    if role == ContextOnly then offered.contextOnly else offered.candidates
  }

  /** The reason names the first demand that is not met: offered, citable, in force, literally quoted. */
  lemma {:induction false} ReasonIff(offered: CandidateSet, asOf: Date, c: Citation)
    ensures var reason := Judge(offered, asOf, c);
            var listed := exists d | d in ListFor(offered, c.role) :: d.path == c.path;
            && (reason == Some(NotOffered) <==> !listed)
            && (listed ==>
                  && ByPath(offered, c.path).Some?
                  && var d := ByPath(offered, c.path).value;
                     var inForce := (d.effectiveFrom.Some? ==> d.effectiveFrom.value <= asOf)
                                    && (d.effectiveTo.Some? ==> asOf < d.effectiveTo.value);
                     var counts := c.role != ContextOnly;
                  && (reason == Some(NotCitable) <==> counts && !d.citable)
                  && (reason == Some(NotInForce) <==> counts && d.citable && !inForce)
                  && (reason == Some(ExcerptNotSubstring) <==>
                        (counts ==> d.citable && inForce) && !IsLiteralSubstring(c.excerpt, d.text)))
  {
    hide IsLiteralSubstring, Find;
    FindIff(offered.candidates, c.path);
    FindIff(offered.contextOnly, c.path);
  }
}
