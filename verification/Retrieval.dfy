/** Candidate retrieval: pins, searches and reference hops, fused and cut, with excluded clauses as context. */
module Retrieval {
  import opened Results
  import opened Corpus
  import opened Fusion

  /** The account and date a fact is assessed for. */
  datatype Query = Query(entity: string, borrower: string, asOf: Date)

  datatype CandidateSet = CandidateSet(candidates: seq<Candidate>, contextOnly: seq<Candidate>)

  predicate Applies(c: Clause, q: Query) { Applicable(c, q.entity, q.borrower, q.asOf) }

  /* ---------- pinned clauses ---------- */

  /** The row of a path that passes the applicability filter, if any. */
  function Row(snapshot: Snapshot, q: Query, path: string): (r: Option<Clause>)
    ensures r.Some? ==> r.value in snapshot && r.value.path == path && Applies(r.value, q)
    ensures r.None? ==> forall c | c in snapshot && c.path == path :: !Applies(c, q)
  {
    if snapshot == [] then None
    else if snapshot[0].path == path && Applies(snapshot[0], q) then Some(snapshot[0])
    else Row(snapshot[1..], q, path)
  }

  /** The applicable clauses among the first n pinned paths, ranked by position. */
  function PinnedUpTo(snapshot: Snapshot, q: Query, paths: seq<string>, n: nat): seq<Candidate>
    requires n <= |paths|
  {
    if n == 0 then [] else
    match Row(snapshot, q, paths[n - 1])
    case None => PinnedUpTo(snapshot, q, paths, n - 1)
    case Some(c) => PinnedUpTo(snapshot, q, paths, n - 1) + [CandidateOf(c, Pinned, n, None)]
  }

  method PinnedCandidates(snapshot: Snapshot, q: Query, paths: seq<string>) returns (out: seq<Candidate>)
    ensures out == PinnedUpTo(snapshot, q, paths, |paths|)
  {
    out := [];
    for n := 0 to |paths|
      invariant out == PinnedUpTo(snapshot, q, paths, n)
    {
      var row := Row(snapshot, q, paths[n]);
      if row.Some? { out := out + [CandidateOf(row.value, Pinned, n + 1, None)]; }
    }
  }

  predicate DistinctStrings(paths: seq<string>) { forall i, j | 0 <= i < j < |paths| :: paths[i] != paths[j] }

  /** Pinned candidates are applicable clauses at the rank of their pin; distinct pins give distinct paths. */
  lemma {:induction false} PinnedFacts(snapshot: Snapshot, q: Query, paths: seq<string>, n: nat)
    requires n <= |paths| && DistinctStrings(paths)
    ensures var out := PinnedUpTo(snapshot, q, paths, n);
            && |out| <= n
            && (forall i | 0 <= i < |out| ::
                  && 1 <= out[i].rank <= n && out[i].path == paths[out[i].rank - 1] && out[i].source == Pinned
                  && exists c | c in snapshot :: Describes(out[i], c) && Applies(c, q))
            && DistinctPaths(out)
  {
    hide Applies, Applicable;
    if n != 0 {
      PinnedFacts(snapshot, q, paths, n - 1);
      var before, out := PinnedUpTo(snapshot, q, paths, n - 1), PinnedUpTo(snapshot, q, paths, n);
      if out != before {
        var c := Row(snapshot, q, paths[n - 1]).value;
        assert Describes(out[|before|], c);
        assert out[..|before|] == before;
        forall i | 0 <= i < |before|
          ensures out[i].path != out[|before|].path
        {
          assert out[i] == before[i];
          assert paths[out[i].rank - 1] != paths[n - 1];
        }
      }
    }
  }

  predicate DistinctPaths(list: seq<Candidate>) { forall i, j | 0 <= i < j < |list| :: list[i].path != list[j].path }

  /* ---------- reference hops ---------- */

  /** The quotable clauses of an instrument among the first n rows, ranked from `rank` on. */
  function HopRows(snapshot: Snapshot, code: string, rank: nat, n: nat): seq<Candidate>
    requires n <= |snapshot|
  {
    if n == 0 then [] else
      var before := HopRows(snapshot, code, rank, n - 1);
      var c := snapshot[n - 1];
      if c.instrument.code == code && Quotable(c)
      then before + [CandidateOf(c, ReferenceHop, rank + |before|, None)] else before
  }

  /** The clauses the first n reference edges lead to; no date, entity or borrower filter. */
  function HopsUpTo(snapshot: Snapshot, targets: seq<string>, n: nat): seq<Candidate>
    requires n <= |targets|
  {
    if n == 0 then [] else
      var before := HopsUpTo(snapshot, targets, n - 1);
      before + HopRows(snapshot, targets[n - 1], |before| + 1, |snapshot|)
  }

  /** A reference edge of the snapshot, from a clause to an instrument. */
  datatype Reference = Reference(from: nat, to: string, incorporates: bool)

  /** The instruments that the seeds incorporate, among the first n edges. */
  function Targets(refs: seq<Reference>, seeds: seq<nat>, n: nat): seq<string>
    requires n <= |refs|
  {
    if n == 0 then [] else
      var r := refs[n - 1];
      Targets(refs, seeds, n - 1) + (if r.incorporates && r.from in seeds then [r.to] else [])
  }

  /** No hop is made when hops are switched off. */
  function TargetsFor(refs: seq<Reference>, seeds: seq<nat>, hops: int): seq<string> {
    if hops < 1 then [] else Targets(refs, seeds, |refs|)
  }

  lemma {:induction false} TargetsAre(refs: seq<Reference>, seeds: seq<nat>, n: nat, code: string)
    requires n <= |refs|
    ensures code in Targets(refs, seeds, n) <==>
              exists i | 0 <= i < n :: refs[i].incorporates && refs[i].from in seeds && refs[i].to == code
  {
    if n != 0 { TargetsAre(refs, seeds, n - 1, code); }
  }

  lemma {:induction false} NoSeedsNoTargets(refs: seq<Reference>, n: nat)
    requires n <= |refs|
    ensures Targets(refs, [], n) == []
  {
    if n != 0 { NoSeedsNoTargets(refs, n - 1); }
  }

  method ReferenceHopCandidates(snapshot: Snapshot, refs: seq<Reference>, seeds: seq<nat>, hops: int)
      returns (out: seq<Candidate>)
    ensures var targets := TargetsFor(refs, seeds, hops);
            out == HopsUpTo(snapshot, targets, |targets|)
  {
    hide HopsUpTo;
    if hops < 1 || seeds == [] {
      NoSeedsNoTargets(refs, |refs|);
      NothingReached(snapshot);
      return [];
    }
    var edges := [];
    for n := 0 to |refs|
      invariant edges == Targets(refs, seeds, n)
    {
      if refs[n].incorporates && refs[n].from in seeds { edges := edges + [refs[n].to]; }
    }
    out := FollowEdges(snapshot, edges);
  }

  lemma {:induction false} NothingReached(snapshot: Snapshot)
    ensures HopsUpTo(snapshot, [], 0) == []
  {
  }

  method FollowEdges(snapshot: Snapshot, targets: seq<string>) returns (out: seq<Candidate>)
    ensures out == HopsUpTo(snapshot, targets, |targets|)
  {
    hide Quotable, CandidateOf;
    out := [];
    var rank := 1;
    for n := 0 to |targets|
      invariant out == HopsUpTo(snapshot, targets, n) && rank == |out| + 1
    {
      ghost var before := out;
      for m := 0 to |snapshot|
        invariant out == before + HopRows(snapshot, targets[n], |before| + 1, m)
        invariant rank == |out| + 1
      {
        var c := snapshot[m];
        if c.instrument.code == targets[n] && Quotable(c) {
          out := out + [CandidateOf(c, ReferenceHop, rank, None)];
          rank := rank + 1;
        }
      }
    }
  }

  ghost predicate QuotableFrom(d: Candidate, snapshot: Snapshot) {
    exists c | c in snapshot :: Describes(d, c) && Quotable(c)
  }

  lemma {:induction false} HopRowsFacts(snapshot: Snapshot, code: string, rank: nat, n: nat)
    requires n <= |snapshot|
    ensures forall i | 0 <= i < |HopRows(snapshot, code, rank, n)| ::
              var d := HopRows(snapshot, code, rank, n)[i];
              d.rank == rank + i && d.source == ReferenceHop && QuotableFrom(d, snapshot)
  {
    hide Quotable;
    if n != 0 {
      HopRowsFacts(snapshot, code, rank, n - 1);
      var before, out := HopRows(snapshot, code, rank, n - 1), HopRows(snapshot, code, rank, n);
      var c := snapshot[n - 1];
      if out != before {
        assert Describes(out[|before|], c) && Quotable(c);
        assert QuotableFrom(out[|before|], snapshot);
        assert out[..|before|] == before;
      }
    }
  }

  /** Hop candidates are ranked 1..n and none is a draft or not citable. */
  lemma {:induction false} HopFacts(snapshot: Snapshot, targets: seq<string>, n: nat)
    requires n <= |targets|
    ensures forall i | 0 <= i < |HopsUpTo(snapshot, targets, n)| ::
              HopsUpTo(snapshot, targets, n)[i].rank == i + 1
              && HopsUpTo(snapshot, targets, n)[i].source == ReferenceHop
              && QuotableFrom(HopsUpTo(snapshot, targets, n)[i], snapshot)
  {
    hide QuotableFrom, HopRows;
    if n != 0 {
      HopFacts(snapshot, targets, n - 1);
      HopRowsFacts(snapshot, targets[n - 1], |HopsUpTo(snapshot, targets, n - 1)| + 1, |snapshot|);
    }
  }

  /* ---------- context ---------- */

  function ReasonFor(c: Clause, asOf: Date): Exclusion {
    if c.effectiveFrom.Some? && c.effectiveFrom.value > asOf then NotYetInForce else WasSuperseded
  }

  /** Seeds outside their own window, among the first n rows. */
  function TemporalContext(snapshot: Snapshot, q: Query, seeds: set<string>, n: nat): seq<Candidate>
    requires n <= |snapshot|
  {
    if n == 0 then [] else
      var before := TemporalContext(snapshot, q, seeds, n - 1);
      var c := snapshot[n - 1];
      if c.path in seeds && ContextEligible(c, q.entity) && !InWindow(c.effectiveFrom, c.effectiveTo, q.asOf)
      then before + [CandidateOf(c, Pinned, 0, Some(ReasonFor(c, q.asOf)))] else before
  }

  function ScopeContext(snapshot: Snapshot, q: Query, seeds: set<string>, n: nat): seq<Candidate>
    requires n <= |snapshot|
  {
    if n == 0 then [] else
      var before := ScopeContext(snapshot, q, seeds, n - 1);
      var c := snapshot[n - 1];
      if c.path in seeds && ScopeExcluded(c, q.entity, q.borrower, q.asOf)
      then before + [CandidateOf(c, Pinned, 0, Some(BorrowerScope))] else before
  }

  function Context(snapshot: Snapshot, q: Query, seeds: set<string>): seq<Candidate> {
    TemporalContext(snapshot, q, seeds, |snapshot|) + ScopeContext(snapshot, q, seeds, |snapshot|)
  }

  method ContextOnlyCandidates(snapshot: Snapshot, q: Query, seeds: set<string>) returns (out: seq<Candidate>)
    ensures out == Context(snapshot, q, seeds)
  {
    out := [];
    for n := 0 to |snapshot|
      invariant out == TemporalContext(snapshot, q, seeds, n)
    {
      var c := snapshot[n];
      if c.path in seeds && ContextEligible(c, q.entity) {
        if !InWindow(c.effectiveFrom, c.effectiveTo, q.asOf) {
          out := out + [CandidateOf(c, Pinned, 0, Some(ReasonFor(c, q.asOf)))];
        }
      }
    }
    ghost var temporal := out;
    for n := 0 to |snapshot|
      invariant out == temporal + ScopeContext(snapshot, q, seeds, n)
    {
      var c := snapshot[n];
      if c.path in seeds && ScopeExcluded(c, q.entity, q.borrower, q.asOf) {
        out := out + [CandidateOf(c, Pinned, 0, Some(BorrowerScope))];
      }
    }
  }

  predicate HasPath(list: seq<Candidate>, path: string) { exists d | d in list :: d.path == path }

  lemma {:induction false} TemporalFacts(snapshot: Snapshot, q: Query, seeds: set<string>, n: nat)
    requires n <= |snapshot|
    ensures forall d | d in TemporalContext(snapshot, q, seeds, n) :: QuotableFrom(d, snapshot)
    ensures forall path :: HasPath(TemporalContext(snapshot, q, seeds, n), path) <==>
              exists i | 0 <= i < n :: snapshot[i].path == path && TemporalCase(snapshot[i], q, seeds)
  {
    hide Quotable, InWindow;
    if n != 0 {
      TemporalFacts(snapshot, q, seeds, n - 1);
      var before, out := TemporalContext(snapshot, q, seeds, n - 1), TemporalContext(snapshot, q, seeds, n);
      var c := snapshot[n - 1];
      if TemporalCase(c, q, seeds) {
        var d := CandidateOf(c, Pinned, 0, Some(ReasonFor(c, q.asOf)));
        assert out == before + [d] && Describes(d, c) && QuotableFrom(d, snapshot);
        ListsSnoc(before, d);
      }
      forall path
        ensures HasPath(out, path) <==>
                  exists i | 0 <= i < n :: snapshot[i].path == path && TemporalCase(snapshot[i], q, seeds)
      {
        if HasPath(out, path) && !HasPath(before, path) { assert snapshot[n - 1].path == path; }
      }
    }
  }

  predicate TemporalCase(c: Clause, q: Query, seeds: set<string>) {
    c.path in seeds && ContextEligible(c, q.entity) && !InWindow(c.effectiveFrom, c.effectiveTo, q.asOf)
  }

  predicate ScopeCase(c: Clause, q: Query, seeds: set<string>) {
    c.path in seeds && ScopeExcluded(c, q.entity, q.borrower, q.asOf)
  }

  lemma {:induction false} ListsSnoc(list: seq<Candidate>, d: Candidate)
    ensures forall path :: HasPath(list + [d], path) <==> HasPath(list, path) || d.path == path
  {
    forall path
      ensures HasPath(list + [d], path) <==> HasPath(list, path) || d.path == path
    {
      if HasPath(list, path) {
        var e :| e in list && e.path == path;
        assert e in list + [d];
      }
      assert d in list + [d];
    }
  }

  lemma {:induction false} ScopeFacts(snapshot: Snapshot, q: Query, seeds: set<string>, n: nat)
    requires n <= |snapshot|
    ensures forall d | d in ScopeContext(snapshot, q, seeds, n) :: QuotableFrom(d, snapshot)
    ensures forall path :: HasPath(ScopeContext(snapshot, q, seeds, n), path) <==>
              exists i | 0 <= i < n :: snapshot[i].path == path && ScopeCase(snapshot[i], q, seeds)
  {
    hide Quotable, Dated, InScope;
    if n != 0 {
      ScopeFacts(snapshot, q, seeds, n - 1);
      var before, out := ScopeContext(snapshot, q, seeds, n - 1), ScopeContext(snapshot, q, seeds, n);
      var c := snapshot[n - 1];
      if ScopeCase(c, q, seeds) {
        var d := CandidateOf(c, Pinned, 0, Some(BorrowerScope));
        assert out == before + [d] && Describes(d, c) && QuotableFrom(d, snapshot);
        ListsSnoc(before, d);
      }
      forall path
        ensures HasPath(out, path) <==>
                  exists i | 0 <= i < n :: snapshot[i].path == path && ScopeCase(snapshot[i], q, seeds)
      {
        if HasPath(out, path) && !HasPath(before, path) { assert snapshot[n - 1].path == path; }
      }
    }
  }

  /* ---------- the whole retrieval ---------- */

  const FINAL_K := 8
  const RRF_K := 60
  const WEIGHTS: map<Source, real> := map[Pinned := 2.5, Vector := 1.0, Lexical := 1.0, ReferenceHop := 1.0]

  /** What a filtered search may return: applicable clauses, each once, ranked 1..n. */
  ghost predicate SearchResult(list: seq<Candidate>, snapshot: Snapshot, q: Query, source: Source) {
    && DistinctPaths(list)
    && forall i | 0 <= i < |list| ::
         && list[i].rank == i + 1 && list[i].source == source
         && exists c | c in snapshot :: Describes(list[i], c) && Applies(c, q)
  }

  function Sources(pinned: seq<Candidate>, vector: seq<Candidate>, lexical: seq<Candidate>,
      hops: seq<Candidate>): Lists {
    map[Pinned := pinned, Vector := vector, Lexical := lexical, ReferenceHop := hops]
  }

  function Cut(list: seq<Candidate>, n: nat): seq<Candidate> { if |list| <= n then list else list[..n] }

  function SeedPaths(paths: seq<string>, vector: seq<Candidate>): set<string> {
    (set p | p in paths) + (set c | c in vector :: c.path)
  }

  predicate Ranked(pinned: seq<Candidate>, vector: seq<Candidate>, lexical: seq<Candidate>, hops: seq<Candidate>) {
    Rankable(Sources(pinned, vector, lexical, hops), RRF_K)
  }

  lemma {:induction false} AlwaysRankable(pinned: seq<Candidate>, vector: seq<Candidate>, lexical: seq<Candidate>,
      hops: seq<Candidate>)
    ensures Ranked(pinned, vector, lexical, hops)
  {
  }

  /** The clauses whose references are followed: applicable pins and vector results. */
  function SeedIds(list: seq<Candidate>): (ids: seq<nat>)
    ensures |ids| == |list| && forall i | 0 <= i < |list| :: ids[i] == list[i].clauseId
  {
    seq(|list|, i requires 0 <= i < |list| => list[i].clauseId)
  }

  method RetrieveCandidates(snapshot: Snapshot, q: Query, paths: seq<string>, vector: seq<Candidate>,
                            lexical: seq<Candidate>, refs: seq<Reference>, hops: int)
      returns (r: CandidateSet, ghost fused: seq<Candidate>)
    ensures var pinned := PinnedUpTo(snapshot, q, paths, |paths|);
            var targets := TargetsFor(refs, SeedIds(pinned + vector), hops);
            var lists := Sources(pinned, vector, lexical, HopsUpTo(snapshot, targets, |targets|));
            Rankable(lists, RRF_K) && IsFusion(lists, RRF_K, WEIGHTS, fused) && r.candidates == Cut(fused, FINAL_K)
    ensures r.contextOnly == Context(snapshot, q, SeedPaths(paths, vector))
  {
    hide IsFusion, PinnedUpTo, HopsUpTo, Context, TargetsFor;
    var pinned := PinnedCandidates(snapshot, q, paths);
    var found := ReferenceHopCandidates(snapshot, refs, SeedIds(pinned + vector), hops);
    AlwaysRankable(pinned, vector, lexical, found);
    var f := Rrf(Sources(pinned, vector, lexical, found), [Pinned, Vector, Lexical, ReferenceHop], RRF_K, WEIGHTS);
    fused := f;
    var context := ContextOnlyCandidates(snapshot, q, SeedPaths(paths, vector));
    r := CandidateSet(if |f| <= FINAL_K then f else f[..FINAL_K], context);
  }
}
