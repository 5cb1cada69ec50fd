/** What is returned for a clause, read off its own fields, its instrument's and the account's. */
module RetrievalByFields {
  import opened Results
  import opened Corpus
  import opened Fusion
  import opened Retrieval
  import opened RetrievalProperties
  import opened RetrievalResult

  /** The clause and its instrument may be cited, and the instrument is no draft. */
  predicate MayBeCited(c: Clause) { c.citable && c.instrument.citable && c.instrument.status != Draft }

  /** The date is not before the first day, and before the day the window closes. */
  predicate Covers(from: Option<Date>, to: Option<Date>, asOf: Date) {
    (from.Some? ==> from.value <= asOf) && (to.Some? ==> asOf < to.value)
  }

  predicate OwnWindow(c: Clause, asOf: Date) { Covers(c.effectiveFrom, c.effectiveTo, asOf) }

  predicate InstrumentWindow(c: Clause, asOf: Date) {
    Covers(c.instrument.effectiveFrom, c.instrument.effectiveTo, asOf)
  }

  /** A clause without borrower classes is meant for every borrower. */
  predicate MeantFor(c: Clause, borrower: string) { c.borrowerClasses == {} || borrower in c.borrowerClasses }

  predicate Eligible(c: Clause, q: Query) {
    && MayBeCited(c) && q.entity in c.instrument.entityTypes && MeantFor(c, q.borrower)
    && OwnWindow(c, q.asOf) && InstrumentWindow(c, q.asOf)
  }

  lemma {:induction false} AppliesIffEligible(c: Clause, q: Query)
    ensures Applies(c, q) <==> Eligible(c, q)
    ensures Quotable(c) <==> MayBeCited(c)
  {
  }

  /**
   A pinned clause is a returned candidate exactly when it is eligible, or may be cited and a
   seed incorporates its instrument, and the sources do not put eight other paths before it.
   */
  lemma {:induction false} CandidateByFields(x: Input, fused: seq<Candidate>, c: Clause)
    requires ValidInput(x) && Fuses(x, fused) && c in x.snapshot && c.path in x.paths
    ensures InAny(ListsOf(x), c.path) <==>
              Eligible(c, x.q) || (MayBeCited(c) && c.instrument.code in TargetsOf(x))
    ensures HasPath(Returned(x, fused).candidates, c.path) <==>
              InAny(ListsOf(x), c.path) && !Outranked(ListsOf(x), c.path)
  {
    hide Fuses, ValidInput, InAny, ListsOf, TargetsOf, Outranked, Applies, Eligible, Quotable, MayBeCited, Cut, HasPath,
         Context;
    AppliesIffEligible(c, x.q);
    KnownIff(x, c);
    CutKnows(x, fused, c.path);
    if InAny(ListsOf(x), c.path) { CutIff(x, fused, c.path); }
  }

  /** At most eight candidates are returned. */
  lemma {:induction false} AtMostEight(x: Input, fused: seq<Candidate>)
    ensures |Returned(x, fused).candidates| <= 8
  {
  }

  /* ---------- context ---------- */

  lemma {:induction false} TemporalEntry(snapshot: Snapshot, q: Query, seeds: set<string>, n: nat, d: Candidate)
      returns (c: Clause)
    requires n <= |snapshot| && d in TemporalContext(snapshot, q, seeds, n)
    ensures c in snapshot && TemporalCase(c, q, seeds) && Describes(d, c) && d.exclusion == Some(ReasonFor(c, q.asOf))
  {
    hide Quotable, InWindow, ReasonFor;
    var e := snapshot[n - 1];
    if d in TemporalContext(snapshot, q, seeds, n - 1) {
      c := TemporalEntry(snapshot, q, seeds, n - 1, d);
    } else {
      c := e;
    }
  }

  lemma {:induction false} ScopeEntry(snapshot: Snapshot, q: Query, seeds: set<string>, n: nat, d: Candidate)
      returns (c: Clause)
    requires n <= |snapshot| && d in ScopeContext(snapshot, q, seeds, n)
    ensures c in snapshot && ScopeCase(c, q, seeds) && Describes(d, c) && d.exclusion == Some(BorrowerScope)
  {
    hide Quotable, Dated, InScope;
    var e := snapshot[n - 1];
    if d in ScopeContext(snapshot, q, seeds, n - 1) {
      c := ScopeEntry(snapshot, q, seeds, n - 1, d);
    } else {
      c := e;
    }
  }

  /** The clause is pinned, or the vector search found it. */
  ghost predicate Seeded(x: Input, path: string) { path in x.paths || HasPath(x.vector, path) }

  lemma {:induction false} SeedPathsAre(x: Input, path: string)
    ensures path in SeedPaths(x.paths, x.vector) <==> Seeded(x, path)
  {
  }

  /** Outside its own window the reason is the window, inside it the borrower. */
  function ReasonByFields(c: Clause, asOf: Date): Exclusion {
    if c.effectiveFrom.Some? && asOf < c.effectiveFrom.value then NotYetInForce
    else if c.effectiveTo.Some? && c.effectiveTo.value <= asOf then WasSuperseded
    else BorrowerScope
  }

  /**
   A clause is context exactly when it is seeded, may be cited, is meant for the entity, and is
   outside its own window or inside both windows but meant for other borrowers.
   */
  lemma {:induction false} ContextByFields(x: Input, fused: seq<Candidate>, c: Clause)
    requires ValidSnapshot(x.snapshot) && c in x.snapshot
    ensures HasPath(Returned(x, fused).contextOnly, c.path) <==>
              && Seeded(x, c.path) && MayBeCited(c) && x.q.entity in c.instrument.entityTypes
              && (if OwnWindow(c, x.q.asOf) then InstrumentWindow(c, x.q.asOf) && !MeantFor(c, x.q.borrower) else true)
  {
    hide ValidSnapshot, HasPath, TemporalContext, ScopeContext, Seeded;
    var seeds := SeedPaths(x.paths, x.vector);
    SeedPathsAre(x, c.path);
    TemporalIff(x.snapshot, x.q, seeds, c);
    ScopeIff(x.snapshot, x.q, seeds, c);
    HasPathConcat(TemporalContext(x.snapshot, x.q, seeds, |x.snapshot|),
                  ScopeContext(x.snapshot, x.q, seeds, |x.snapshot|), c.path);
  }

  /** A context entry carries the clause of its path and the reason its fields give. */
  lemma {:induction false} ContextEntry(x: Input, fused: seq<Candidate>, c: Clause, d: Candidate)
    requires ValidSnapshot(x.snapshot) && c in x.snapshot
    requires d in Returned(x, fused).contextOnly && d.path == c.path
    ensures d.clauseId == c.id && d.text == c.text && d.exclusion == Some(ReasonByFields(c, x.q.asOf))
  {
    hide ValidSnapshot, TemporalContext, ScopeContext;
    var seeds := SeedPaths(x.paths, x.vector);
    if d in TemporalContext(x.snapshot, x.q, seeds, |x.snapshot|) {
      var e := TemporalEntry(x.snapshot, x.q, seeds, |x.snapshot|, d);
      var i: nat :| i < |x.snapshot| && x.snapshot[i] == e;
      UniquePath(x.snapshot, c, i);
    } else {
      var e := ScopeEntry(x.snapshot, x.q, seeds, |x.snapshot|, d);
      var i: nat :| i < |x.snapshot| && x.snapshot[i] == e;
      UniquePath(x.snapshot, c, i);
    }
  }

  /** A clause without borrower classes is never excluded for its borrower. */
  lemma {:induction false} UnscopedNeverExcluded(x: Input, fused: seq<Candidate>, c: Clause, d: Candidate)
    requires ValidSnapshot(x.snapshot) && c in x.snapshot && c.borrowerClasses == {}
    requires d in Returned(x, fused).contextOnly && d.path == c.path
    ensures d.exclusion != Some(BorrowerScope)
  {
    hide ValidSnapshot, Returned;
    ContextEntry(x, fused, c, d);
    ContextByFields(x, fused, c);
    assert HasPath(Returned(x, fused).contextOnly, c.path);
  }
}
