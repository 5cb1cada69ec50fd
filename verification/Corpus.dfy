/** Clauses of a corpus snapshot, retrieval candidates, and the applicability predicates. */
module Corpus {
  import opened Results

  /** Dates are day numbers. */
  type Date = int

  datatype Status = InForce | NotYetEffective | Draft | Superseded

  datatype Instrument = Instrument(
    code: string, citable: bool, status: Status, entityTypes: set<string>,
    effectiveFrom: Option<Date>, effectiveTo: Option<Date>)

  datatype Clause = Clause(
    id: nat, path: string, instrument: Instrument, text: string, citable: bool,
    effectiveFrom: Option<Date>, effectiveTo: Option<Date>, borrowerClasses: set<string>)

  type Snapshot = seq<Clause>

  /** One row per path and per id, as the table's keys demand. */
  ghost predicate ValidSnapshot(snapshot: Snapshot) {
    forall i, j | 0 <= i < j < |snapshot| ::
      snapshot[i].path != snapshot[j].path && snapshot[i].id != snapshot[j].id
  }

  datatype Source = Pinned | Vector | Lexical | ReferenceHop

  datatype Exclusion = NotYetInForce | WasSuperseded | BorrowerScope

  datatype Candidate = Candidate(
    clauseId: nat, path: string, instrumentCode: string, text: string, citable: bool,
    effectiveFrom: Option<Date>, effectiveTo: Option<Date>,
    source: Source, rank: nat, score: real, exclusion: Option<Exclusion>)

  function CandidateOf(c: Clause, source: Source, rank: nat, exclusion: Option<Exclusion>): Candidate {
    Candidate(c.id, c.path, c.instrument.code, c.text, c.citable, c.effectiveFrom, c.effectiveTo,
              source, rank, 0.0, exclusion)
  }

  /** The candidate carries the identity, text and window of this clause. */
  predicate Describes(d: Candidate, c: Clause) {
    && d.clauseId == c.id && d.path == c.path && d.instrumentCode == c.instrument.code
    && d.text == c.text && d.citable == c.citable
    && d.effectiveFrom == c.effectiveFrom && d.effectiveTo == c.effectiveTo
  }

  /* ---------- applicability ---------- */

  predicate InWindow(from: Option<Date>, to: Option<Date>, asOf: Date) {
    (from.None? || from.value <= asOf) && (to.None? || to.value > asOf)
  }

  /** May be cited at all: clause and instrument are citable and the instrument is no draft. */
  predicate Quotable(c: Clause) { c.citable && c.instrument.citable && c.instrument.status != Draft }

  predicate InScope(c: Clause, borrower: string) { c.borrowerClasses == {} || borrower in c.borrowerClasses }

  predicate Dated(c: Clause, asOf: Date) {
    && InWindow(c.effectiveFrom, c.effectiveTo, asOf)
    && InWindow(c.instrument.effectiveFrom, c.instrument.effectiveTo, asOf)
  }

  predicate Applicable(c: Clause, entity: string, borrower: string, asOf: Date) {
    Quotable(c) && entity in c.instrument.entityTypes && InScope(c, borrower) && Dated(c, asOf)
  }

  /** The context query without the date predicates. */
  predicate ContextEligible(c: Clause, entity: string) { Quotable(c) && entity in c.instrument.entityTypes }

  /** The context query for clauses excluded by borrower scope alone. */
  predicate ScopeExcluded(c: Clause, entity: string, borrower: string, asOf: Date) {
    Quotable(c) && entity in c.instrument.entityTypes && !InScope(c, borrower) && Dated(c, asOf)
  }
}
