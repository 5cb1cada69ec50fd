/** Which citations govern the account: what the filters of retrieval are worth after a reference hop. */
module CitationScope {
  import opened Results
  import opened Corpus
  import opened Retrieval
  import opened RetrievalProperties
  import opened RetrievalResult
  import opened Quotation
  import opened CitationValidator
  import Fusion

  /** Every candidate is quotable, and one that any filtered source knows is applicable. */
  lemma {:induction false} CandidateGoverned(x: Input, fused: seq<Candidate>, d: Candidate)
    requires ValidInput(x) && Fuses(x, fused) && d in Returned(x, fused).candidates
    ensures QuotableFrom(d, x.snapshot) && (d.source != ReferenceHop ==> AppliesFrom(d, x.snapshot, x.q))
  {
    hide QuotableFrom, AppliesFrom, PinnedUpTo, HopsUpTo, SearchResult, Fusion.IsFusion, Fusion.Rankable, Context;
    var i: nat :| i < |fused| && fused[i] == d;
    FusedAreQuotable(x.snapshot, x.q, x.paths, x.vector, x.lexical, TargetsOf(x), fused, i);
  }

  /** The candidate found for the path of a clause of the snapshot describes that clause. */
  lemma {:induction false} FoundDescribes(x: Input, fused: seq<Candidate>, c: Clause)
    requires ValidInput(x) && Fuses(x, fused) && c in x.snapshot
    requires HasPath(Returned(x, fused).candidates, c.path)
    ensures var d := Find(Returned(x, fused).candidates, c.path);
            && d.Some? && Describes(d.value, c) && Quotable(c)
            && (d.value.source != ReferenceHop ==> Applies(c, x.q))
  {
    hide Fuses, Returned, Applies, Quotable, ValidSnapshot, SearchResult, Find;
    FindIff(Returned(x, fused).candidates, c.path);
    var d := Find(Returned(x, fused).candidates, c.path).value;
    CandidateGoverned(x, fused, d);
    var e :| e in x.snapshot && Describes(d, e) && Quotable(e);
    var i: nat :| i < |x.snapshot| && x.snapshot[i] == e;
    UniquePath(x.snapshot, c, i);
    if d.source != ReferenceHop {
      var g :| g in x.snapshot && Describes(d, g) && Applies(g, x.q);
      var k: nat :| k < |x.snapshot| && x.snapshot[k] == g;
      UniquePath(x.snapshot, c, k);
    }
  }

  /** Some draft can make this clause decisive. */
  ghost predicate CanDecide(x: Input, fused: seq<Candidate>, c: Clause) {
    exists draft :: MadeDecisive(draft, Returned(x, fused), x.q.asOf, c.path)
  }

  lemma {:induction false} CanDecideIff(x: Input, fused: seq<Candidate>, c: Clause)
    requires ValidInput(x) && Fuses(x, fused) && c in x.snapshot
    ensures CanDecide(x, fused, c)
            <==> HasPath(Returned(x, fused).candidates, c.path) && InWindow(c.effectiveFrom, c.effectiveTo, x.q.asOf)
  {
    hide Fuses, Returned, ValidInput, MadeDecisive, Find, Applies;
    var offered := Returned(x, fused);
    DecisiveIffCountable(offered, x.q.asOf, c.path);
    FindIff(offered.candidates, c.path);
    if HasPath(offered.candidates, c.path) { FoundDescribes(x, fused, c); }
  }

  /** A hopped candidate in its own window that was filtered from no other source. */
  ghost predicate Stray(x: Input, fused: seq<Candidate>, c: Clause) {
    && Hopped(x, c) && HasPath(Returned(x, fused).candidates, c.path)
    && InWindow(c.effectiveFrom, c.effectiveTo, x.q.asOf) && !Applies(c, x.q)
  }

  /**
   Every clause any draft can make decisive governs the account exactly when no hopped
   candidate is in its own window but fails the instrument's window, the entity or the
   borrower scope. Retrieval alone settles this, before the model is asked.
   */
  lemma {:induction false} AllGovernIff(x: Input, fused: seq<Candidate>)
    requires ValidInput(x) && Fuses(x, fused)
    ensures (forall c | c in x.snapshot && CanDecide(x, fused, c) :: Applies(c, x.q))
            <==> forall c | c in x.snapshot :: !Stray(x, fused, c)
  {
    hide Fuses, Returned, ValidInput, CanDecide, Applies, InWindow, Hopped, ListsOf, Fusion.InAny;
    forall c | c in x.snapshot
      ensures CanDecide(x, fused, c) && !Applies(c, x.q) <==> Stray(x, fused, c)
    {
      CanDecideIff(x, fused, c);
      CutCandidates(x, fused, c.path);
      KnownIff(x, c);
    }
  }

  lemma {:induction false} CutCandidates(x: Input, fused: seq<Candidate>, path: string)
    requires Fuses(x, fused)
    ensures HasPath(Returned(x, fused).candidates, path) ==> Fusion.InAny(ListsOf(x), path)
  {
    hide Fuses, Cut, Context, ListsOf;
    CutKnows(x, fused, path);
  }

  /** Without hops every clause a draft can make decisive governs the account. */
  lemma {:induction false} NoHopsAllGovern(x: Input, fused: seq<Candidate>, c: Clause)
    requires ValidInput(x) && Fuses(x, fused) && c in x.snapshot && CanDecide(x, fused, c)
    requires x.hops < 1 || x.refs == []
    ensures Applies(c, x.q)
  {
    hide Fuses, Returned, ValidInput, CanDecide, Applies, InWindow;
    AllGovernIff(x, fused);
  }

  /**
   The validator restores the clause's own window and nothing else: when an applicable pin
   incorporates the instrument of c, a draft makes c decisive, whatever its entity types, its
   borrower classes and the window of its instrument.
   */
  lemma {:induction false} ScopeNotRestored(seed: Clause, c: Clause, q: Query, verdict: Verdict, fused: seq<Candidate>)
    requires seed.path != c.path && seed.id != c.id && Applies(seed, q) && Quotable(c) && c.text != ""
    requires InWindow(c.effectiveFrom, c.effectiveTo, q.asOf) && Fuses(SeedRefersTo(seed, c, q, [seed.path]), fused)
    requires Conclusive(verdict) && verdict != Ambiguous
    ensures var x := SeedRefersTo(seed, c, q, [seed.path]);
            var cite := Citation(c.path, Decisive, c.text);
            && ValidInput(x)
            && Validated(DraftVerdict(verdict, [cite]), Returned(x, fused), q.asOf)
                == Outcome(verdict, [cite], false, None, [])
            && (Stray(x, fused, c) <==> !Applies(c, q))
  {
    hide Fuses, Validated, Find, IsLiteralSubstring, Applies, ListsOf, Fusion.InAny, Quotable, Conclusive, TargetsOf;
    var x := SeedRefersTo(seed, c, q, [seed.path]);
    SeedHops(seed, c, q, [seed.path]);
    assert c in x.snapshot;
    FusedFitsSnapshot(x, fused);
    KnownIff(x, c);
    CutKnows(x, fused, c.path);
    FoundDescribes(x, fused, c);
    WholeTextQuoted(c.text);
    CitableIfQuotable(c);
    SingleCitationStands(Returned(x, fused), q.asOf, verdict, c.path, c.text);
  }

  lemma {:induction false} CitableIfQuotable(c: Clause)
    requires Quotable(c)
    ensures c.citable
  {
  }

  /** So beside any applicable clause a copy meant for other borrowers can be made decisive. */
  lemma {:induction false} StrayExists(seed: Clause, q: Query, other: string, fused: seq<Candidate>) returns (c: Clause)
    requires Applies(seed, q) && seed.text != "" && other != q.borrower
    requires Fuses(SeedRefersTo(seed, OtherBorrowers(seed, other), q, [seed.path]), fused)
    ensures c == OtherBorrowers(seed, other) && !Applies(c, q)
    ensures var x := SeedRefersTo(seed, c, q, [seed.path]);
            ValidInput(x) && Stray(x, fused, c) && CanDecide(x, fused, c)
  {
    hide Fuses, Returned, Stray, CanDecide, MadeDecisive;
    c := OtherBorrowers(seed, other);
    ScopeNotRestored(seed, c, q, Violation, fused);
    StrayDecides(SeedRefersTo(seed, c, q, [seed.path]), fused, c);
  }

  function OtherBorrowers(c: Clause, other: string): Clause {
    c.(id := c.id + 1, path := c.path + "/x", borrowerClasses := {other})
  }

  lemma {:induction false} StrayDecides(x: Input, fused: seq<Candidate>, c: Clause)
    requires ValidInput(x) && Fuses(x, fused) && c in x.snapshot && Stray(x, fused, c)
    ensures CanDecide(x, fused, c)
  {
    hide Fuses, Returned, CanDecide, ValidInput;
    CanDecideIff(x, fused, c);
  }
}
