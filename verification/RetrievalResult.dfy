/** What the two lists that retrieval returns show of a clause, after fusion and after the cut. */
module RetrievalResult {
  import opened Results
  import opened Corpus
  import opened Fusion
  import opened Retrieval
  import opened RetrievalProperties

  /** Everything one retrieval depends on: the request, the search results and the reference edges. */
  datatype Input = Input(
    snapshot: Snapshot, q: Query, paths: seq<string>,
    vector: seq<Candidate>, lexical: seq<Candidate>, refs: seq<Reference>, hops: int)

  ghost predicate ValidInput(x: Input) {
    && ValidSnapshot(x.snapshot) && DistinctStrings(x.paths)
    && SearchResult(x.vector, x.snapshot, x.q, Vector) && SearchResult(x.lexical, x.snapshot, x.q, Lexical)
  }

  function Pins(x: Input): seq<Candidate> { PinnedUpTo(x.snapshot, x.q, x.paths, |x.paths|) }

  /** The instruments the seeds refer to. */
  function TargetsOf(x: Input): seq<string> { TargetsFor(x.refs, SeedIds(Pins(x) + x.vector), x.hops) }

  function Hops(x: Input): seq<Candidate> { HopsUpTo(x.snapshot, TargetsOf(x), |TargetsOf(x)|) }

  function ListsOf(x: Input): (lists: Lists)
    ensures Rankable(lists, RRF_K)
  {
    Sources(Pins(x), x.vector, x.lexical, Hops(x))
  }

  ghost predicate Fuses(x: Input, fused: seq<Candidate>) {
    IsFusion(ListsOf(x), RRF_K, WEIGHTS, fused)
  }

  function Returned(x: Input, fused: seq<Candidate>): CandidateSet {
    CandidateSet(Cut(fused, FINAL_K), Context(x.snapshot, x.q, SeedPaths(x.paths, x.vector)))
  }

  method Retrieve(x: Input) returns (r: CandidateSet, ghost fused: seq<Candidate>)
    ensures Fuses(x, fused) && r == Returned(x, fused)
  {
    hide IsFusion, PinnedUpTo, HopsUpTo, Context, TargetsFor;
    r, fused := RetrieveCandidates(x.snapshot, x.q, x.paths, x.vector, x.lexical, x.refs, x.hops);
  }

  /* ---------- which clauses the sources know ---------- */

  predicate Hopped(x: Input, c: Clause) { Quotable(c) && c.instrument.code in TargetsOf(x) }

  /** A clause whose references are followed: an applicable pin, or a clause the vector search found. */
  ghost predicate Seed(x: Input, s: Clause) {
    s in x.snapshot && ((s.path in x.paths && Applies(s, x.q)) || HasPath(x.vector, s.path))
  }

  lemma {:induction false} CandidateOfClause(x: Input, d: Candidate, s: Clause)
    requires ValidSnapshot(x.snapshot) && AppliesFrom(d, x.snapshot, x.q) && s in x.snapshot
    ensures d.path == s.path <==> d.clauseId == s.id
  {
    hide Applies;
    var e :| e in x.snapshot && Describes(d, e) && Applies(e, x.q);
    var i: nat :| i < |x.snapshot| && x.snapshot[i] == e;
    var j: nat :| j < |x.snapshot| && x.snapshot[j] == s;
  }

  lemma {:induction false} SeedIffId(x: Input, s: Clause)
    requires ValidInput(x) && s in x.snapshot
    ensures Seed(x, s) <==> s.id in SeedIds(Pins(x) + x.vector)
  {
    hide Applies, PinnedUpTo, SearchResult, AppliesFrom, ValidSnapshot;
    var list := Pins(x) + x.vector;
    assert x.paths[..|x.paths|] == x.paths;
    PinnedIff(x.snapshot, x.q, x.paths, s, |x.paths|);
    forall d | d in list
      ensures d.path == s.path <==> d.clauseId == s.id
    {
      if d in Pins(x) {
        PinnedApplies(x.snapshot, x.q, x.paths, d);
      } else {
        SearchApplies(x.vector, x.snapshot, x.q, Vector, d);
      }
      CandidateOfClause(x, d, s);
    }
    HasPathConcat(Pins(x), x.vector, s.path);
    if HasPath(list, s.path) {
      var d :| d in list && d.path == s.path;
      var i: nat :| i < |list| && list[i] == d;
      assert SeedIds(list)[i] == s.id;
    }
    if s.id in SeedIds(list) {
      var i: nat :| i < |list| && SeedIds(list)[i] == s.id;
      assert list[i] in list;
    }
  }

  /** A seed reaches the instruments that its incorporating references name, when hops are on. */
  lemma {:induction false} SeedReaches(x: Input, s: Clause, r: Reference)
    requires ValidInput(x) && x.hops >= 1 && Seed(x, s) && r in x.refs && r.incorporates && r.from == s.id
    ensures r.to in TargetsOf(x)
  {
    hide Targets, ValidInput, Pins, Applies;
    SeedIffId(x, s);
    TargetsAre(x.refs, SeedIds(Pins(x) + x.vector), |x.refs|, r.to);
  }

  /** Without a seed there is no hop. */
  lemma {:induction false} NoSeedNoHop(x: Input)
    requires Pins(x) == [] && x.vector == []
    ensures TargetsOf(x) == [] && Hops(x) == []
  {
    NoSeedsNoTargets(x.refs, |x.refs|);
    assert SeedIds([]) == [] && Pins(x) + x.vector == [];
    NothingReached(x.snapshot);
  }

  lemma {:induction false} HasPathConcat(a: seq<Candidate>, b: seq<Candidate>, path: string)
    ensures HasPath(a + b, path) <==> HasPath(a, path) || HasPath(b, path)
  {
    if d :| d in a && d.path == path { assert d in a + b; }
    if d :| d in b && d.path == path { assert d in a + b; }
  }

  lemma {:induction false} OccursInConcat(path: string, a: seq<Candidate>, b: seq<Candidate>)
    ensures Occurs(path, a + b) <==> Occurs(path, a) || Occurs(path, b)
  {
    if i :| 0 <= i < |a| && a[i].path == path { assert (a + b)[i].path == path; }
    if i :| 0 <= i < |b| && b[i].path == path { assert (a + b)[|a| + i].path == path; }
  }

  lemma {:induction false} HopRowsIff(snapshot: Snapshot, code: string, rank: nat, c: Clause, n: nat)
    requires ValidSnapshot(snapshot) && c in snapshot && n <= |snapshot|
    ensures Occurs(c.path, HopRows(snapshot, code, rank, n))
            <==> c in snapshot[..n] && c.instrument.code == code && Quotable(c)
  {
    hide Quotable, ValidSnapshot, Occurs;
    if n == 0 {
      NothingOccurs(c.path);
    } else {
      HopRowsIff(snapshot, code, rank, c, n - 1);
      var before, d := HopRows(snapshot, code, rank, n - 1), snapshot[n - 1];
      assert snapshot[..n] == snapshot[..n - 1] + [d];
      if d.path == c.path { UniquePath(snapshot, c, n - 1); }
      OccursInConcat(c.path, before, [CandidateOf(d, ReferenceHop, rank + |before|, None)]);
      OccursAlone(c.path, CandidateOf(d, ReferenceHop, rank + |before|, None));
    }
  }

  lemma {:induction false} NothingOccurs(path: string)
    ensures !Occurs(path, [])
  {
  }

  lemma {:induction false} OccursAlone(path: string, d: Candidate)
    ensures Occurs(path, [d]) <==> d.path == path
  {
    assert [d][0] == d;
  }

  lemma {:induction false} HopsIff(snapshot: Snapshot, targets: seq<string>, c: Clause, n: nat)
    requires ValidSnapshot(snapshot) && c in snapshot && n <= |targets|
    ensures Occurs(c.path, HopsUpTo(snapshot, targets, n)) <==> c.instrument.code in targets[..n] && Quotable(c)
  {
    hide Quotable, ValidSnapshot, Occurs, HopRows;
    if n == 0 {
      NothingOccurs(c.path);
    } else {
      HopsIff(snapshot, targets, c, n - 1);
      var before := HopsUpTo(snapshot, targets, n - 1);
      assert targets[..n] == targets[..n - 1] + [targets[n - 1]];
      assert snapshot[..|snapshot|] == snapshot;
      HopRowsIff(snapshot, targets[n - 1], |before| + 1, c, |snapshot|);
      OccursInConcat(c.path, before, HopRows(snapshot, targets[n - 1], |before| + 1, |snapshot|));
    }
  }

  lemma {:induction false} DescribedApplies(x: Input, list: seq<Candidate>, c: Clause)
    requires ValidSnapshot(x.snapshot) && c in x.snapshot && Occurs(c.path, list)
    requires forall d | d in list :: AppliesFrom(d, x.snapshot, x.q)
    ensures Applies(c, x.q)
  {
    hide Applies;
    var i :| 0 <= i < |list| && list[i].path == c.path;
    assert list[i] in list;
    var e :| e in x.snapshot && Describes(list[i], e) && Applies(e, x.q);
    var k: nat :| k < |x.snapshot| && x.snapshot[k] == e;
    UniquePath(x.snapshot, c, k);
  }

  /** A filtered source knows applicable clauses only; a hop knows the quotable ones of its instruments. */
  lemma {:induction false} KnownIff(x: Input, c: Clause)
    requires ValidInput(x) && c in x.snapshot
    ensures InSource(ListsOf(x), ReferenceHop, c.path) <==> Hopped(x, c)
    ensures InAny(ListsOf(x), c.path) ==> Hopped(x, c) || Applies(c, x.q)
    ensures Hopped(x, c) || (c.path in x.paths && Applies(c, x.q)) ==> InAny(ListsOf(x), c.path)
  {
    hide Applies, Quotable, ValidSnapshot, PinnedUpTo, HopsUpTo, Occurs, SearchResult, AppliesFrom;
    assert TargetsOf(x)[..|TargetsOf(x)|] == TargetsOf(x) && x.paths[..|x.paths|] == x.paths;
    HopsIff(x.snapshot, TargetsOf(x), c, |TargetsOf(x)|);
    PinnedIff(x.snapshot, x.q, x.paths, c, |x.paths|);
    OccursIsHasPath(c.path, Pins(x));
    assert InSource(ListsOf(x), ReferenceHop, c.path) <==> Hopped(x, c);
    assert InSource(ListsOf(x), Pinned, c.path) <==> HasPath(Pins(x), c.path);
    forall s | s != ReferenceHop && InSource(ListsOf(x), s, c.path)
      ensures Applies(c, x.q)
    {
      forall d | d in ListsOf(x)[s]
        ensures AppliesFrom(d, x.snapshot, x.q)
      {
        match s {
          case Pinned => PinnedApplies(x.snapshot, x.q, x.paths, d);
          case Vector => SearchApplies(x.vector, x.snapshot, x.q, Vector, d);
          case Lexical => SearchApplies(x.lexical, x.snapshot, x.q, Lexical, d);
        }
      }
      DescribedApplies(x, ListsOf(x)[s], c);
    }
  }

  lemma {:induction false} OccursIsHasPath(path: string, list: seq<Candidate>)
    ensures Occurs(path, list) <==> HasPath(list, path)
  {
    if i :| 0 <= i < |list| && list[i].path == path { assert list[i] in list; }
    if d :| d in list && d.path == path {
      var i :| 0 <= i < |list| && list[i] == d;
    }
  }

  /* ---------- the cut ---------- */

  lemma {:induction false} CutKnows(x: Input, fused: seq<Candidate>, path: string)
    requires Fuses(x, fused)
    ensures HasPath(Cut(fused, FINAL_K), path) ==> InAny(ListsOf(x), path)
    ensures |fused| <= FINAL_K && InAny(ListsOf(x), path) ==> HasPath(Cut(fused, FINAL_K), path)
  {
    hide InAny, FusedOf, KeyOf, Before, Rankable, ListsOf;
    if d :| d in Cut(fused, FINAL_K) && d.path == path {
      var i: nat :| i < |fused| && fused[i] == d;
    }
    if |fused| <= FINAL_K && InAny(ListsOf(x), path) {
      var i: nat :| i < |fused| && fused[i].path == path;
      assert fused[i] in Cut(fused, FINAL_K);
    }
  }

  /** q comes before p in any fusion of the lists. */
  predicate Ahead(lists: Lists, q: string, p: string)
    requires Rankable(lists, RRF_K) && InAny(lists, p)
  {
    InAny(lists, q) && Before(KeyOf(lists, RRF_K, WEIGHTS, q), KeyOf(lists, RRF_K, WEIGHTS, p))
  }

  /** Eight other paths of the sources come before p. */
  ghost predicate Outranked(lists: Lists, p: string)
    requires Rankable(lists, RRF_K) && InAny(lists, p)
  {
    exists qs: seq<string> :: |qs| == FINAL_K && DistinctStrings(qs) && AllAhead(lists, qs, p)
  }

  ghost predicate AllAhead(lists: Lists, qs: seq<string>, p: string)
    requires Rankable(lists, RRF_K) && InAny(lists, p)
  {
    forall q | q in qs :: Ahead(lists, q, p)
  }

  lemma {:induction false} AheadIsEarlier(lists: Lists, fused: seq<Candidate>, q: string, at: nat) returns (j: nat)
    requires Rankable(lists, RRF_K) && IsFusion(lists, RRF_K, WEIGHTS, fused) && at < |fused|
    requires InAny(lists, fused[at].path) && Ahead(lists, q, fused[at].path)
    ensures j < at && fused[j].path == q
  {
    hide Score, FusedOf, BestSource, InAny, Before;
    j :| 0 <= j < |fused| && fused[j].path == q;
    var x, y := KeyOf(lists, RRF_K, WEIGHTS, q), KeyOf(lists, RRF_K, WEIGHTS, fused[at].path);
    BeforeAsymmetric(x, y);
  }

  lemma {:induction false} FewAhead(lists: Lists, fused: seq<Candidate>, at: nat, qs: seq<string>)
    requires Rankable(lists, RRF_K) && IsFusion(lists, RRF_K, WEIGHTS, fused) && at < |fused|
    requires InAny(lists, fused[at].path) && DistinctStrings(qs) && AllAhead(lists, qs, fused[at].path)
    ensures |qs| <= at
  {
    hide IsFusion, Ahead, InAny, Rankable;
    var front := fused[..at];
    var all := set c | c in front :: c.path;
    forall q | q in qs
      ensures q in all
    {
      var j := AheadIsEarlier(lists, fused, q, at);
      assert front[j] in front;
    }
    FewFromFew(qs, all);
    PathSetSmall(front);
  }

  lemma {:induction false} FrontAhead(lists: Lists, fused: seq<Candidate>, at: nat, qs: seq<string>)
    requires Rankable(lists, RRF_K) && IsFusion(lists, RRF_K, WEIGHTS, fused) && at < |fused|
    requires InAny(lists, fused[at].path)
    requires |qs| <= at && forall j | 0 <= j < |qs| :: qs[j] == fused[j].path
    ensures DistinctStrings(qs) && AllAhead(lists, qs, fused[at].path)
  {
    hide Score, FusedOf, BestSource, InAny, Before;
    DistinctFront(lists, fused, qs);
  }

  /** A known path survives the cut exactly when the sources do not put eight other paths before it. */
  lemma {:induction false} CutIff(x: Input, fused: seq<Candidate>, p: string)
    requires Fuses(x, fused) && InAny(ListsOf(x), p)
    ensures HasPath(Cut(fused, FINAL_K), p) <==> !Outranked(ListsOf(x), p)
  {
    hide ListsOf, InAny, AllAhead;
    var lists := ListsOf(x);
    var at := FusedAt(lists, fused, p);
    if at < FINAL_K {
      assert fused[at] in Cut(fused, FINAL_K);
      forall qs: seq<string> | |qs| == FINAL_K && DistinctStrings(qs)
        ensures !AllAhead(lists, qs, p)
      {
        if AllAhead(lists, qs, p) { FewAhead(lists, fused, at, qs); }
      }
    } else {
      var qs := seq(FINAL_K, j requires 0 <= j < FINAL_K => fused[j].path);
      FrontAhead(lists, fused, at, qs);
      NotInFront(lists, fused, at);
    }
  }

  lemma {:induction false} FusedAt(lists: Lists, fused: seq<Candidate>, p: string) returns (at: nat)
    requires Rankable(lists, RRF_K) && IsFusion(lists, RRF_K, WEIGHTS, fused) && InAny(lists, p)
    ensures at < |fused| && fused[at].path == p
  {
    hide InAny, FusedOf, KeyOf, Before;
    at :| 0 <= at < |fused| && fused[at].path == p;
  }

  lemma {:induction false} NotInFront(lists: Lists, fused: seq<Candidate>, at: nat)
    requires Rankable(lists, RRF_K) && IsFusion(lists, RRF_K, WEIGHTS, fused) && FINAL_K <= at < |fused|
    ensures !HasPath(Cut(fused, FINAL_K), fused[at].path)
  {
    hide IsFusion, Rankable;
    var front := Cut(fused, FINAL_K);
    forall d | d in front
      ensures d.path != fused[at].path
    {
      var j: nat :| j < |front| && front[j] == d;
      FusedDistinct(lists, fused, j, at);
    }
  }

  /** A fusion has no more entries than the snapshot has clauses, so a small snapshot is never cut. */
  lemma {:induction false} FusedFitsSnapshot(x: Input, fused: seq<Candidate>)
    requires ValidInput(x) && Fuses(x, fused)
    ensures |fused| <= |x.snapshot|
  {
    hide IsFusion, Rankable, ListsOf, SearchResult, QuotableFrom, AppliesFrom;
    var paths := seq(|fused|, i requires 0 <= i < |fused| => fused[i].path);
    var all := set c | c in x.snapshot :: c.path;
    forall p | p in paths
      ensures p in all
    {
      var i: nat :| i < |paths| && paths[i] == p;
      FusedFromSnapshot(x, fused, i);
    }
    assert DistinctStrings(paths) by {
      forall a, b | 0 <= a < b < |fused| ensures fused[a].path != fused[b].path {
        FusedDistinct(ListsOf(x), fused, a, b);
      }
    }
    FewFromFew(paths, all);
    var known := seq(|x.snapshot|, i requires 0 <= i < |x.snapshot| => x.snapshot[i].path);
    forall p | p in all
      ensures p in known
    {
      var i :| 0 <= i < |x.snapshot| && x.snapshot[i].path == p;
      assert known[i] == p;
    }
    SetSmall(all, known);
  }

  lemma {:induction false} FusedFromSnapshot(x: Input, fused: seq<Candidate>, i: nat)
    requires ValidInput(x) && Fuses(x, fused) && i < |fused|
    ensures exists c | c in x.snapshot :: c.path == fused[i].path
  {
    hide IsFusion, Rankable, PinnedUpTo, HopsUpTo, SearchResult, AppliesFrom;
    FusedAreQuotable(x.snapshot, x.q, x.paths, x.vector, x.lexical, TargetsOf(x), fused, i);
    var c :| c in x.snapshot && Describes(fused[i], c);
  }

  /* ---------- a pinned clause in the returned lists ---------- */

  /** Shown as a candidate, as temporal context or as scope context, and only once. */
  ghost predicate ShownOnce(x: Input, fused: seq<Candidate>, c: Clause) {
    var seeds := SeedPaths(x.paths, x.vector);
    OnlyOne(HasPath(Returned(x, fused).candidates, c.path),
            HasPath(TemporalContext(x.snapshot, x.q, seeds, |x.snapshot|), c.path),
            HasPath(ScopeContext(x.snapshot, x.q, seeds, |x.snapshot|), c.path))
  }

  ghost predicate Pin(x: Input, c: Clause) {
    c in x.snapshot && c.path in x.paths && Quotable(c) && x.q.entity in c.instrument.entityTypes
  }

  /** The sources bring the clause in, and do not put eight other paths before it. */
  ghost predicate Reached(x: Input, c: Clause) {
    (Hopped(x, c) || Applies(c, x.q)) && (InAny(ListsOf(x), c.path) ==> !Outranked(ListsOf(x), c.path))
  }

  lemma {:induction false} CandidateIffReached(x: Input, fused: seq<Candidate>, c: Clause)
    requires ValidInput(x) && Fuses(x, fused) && Pin(x, c)
    ensures HasPath(Returned(x, fused).candidates, c.path) <==> Reached(x, c)
  {
    hide Fuses, ValidInput, HasPath, InAny, ListsOf, Cut, Outranked, Hopped, Applies, Context;
    KnownIff(x, c);
    CutKnows(x, fused, c.path);
    if InAny(ListsOf(x), c.path) { CutIff(x, fused, c.path); }
  }

  /**
   For every input: a pinned clause is shown once exactly when the sources reach it if it is
   applicable or hidden, and do not reach it otherwise.
   */
  lemma {:induction false} ShownOnceIff(x: Input, fused: seq<Candidate>, c: Clause)
    requires ValidInput(x) && Fuses(x, fused) && Pin(x, c)
    ensures ShownOnce(x, fused, c) <==> (Reached(x, c) <==> Applies(c, x.q) || Hidden(c, x.q.asOf))
  {
    hide HasPath, TemporalContext, ScopeContext, Fuses, Cut, SearchResult, ValidSnapshot, Reached;
    var seeds := SeedPaths(x.paths, x.vector);
    assert c.path in seeds;
    CandidateIffReached(x, fused, c);
    TemporalIff(x.snapshot, x.q, seeds, c);
    ScopeIff(x.snapshot, x.q, seeds, c);
  }

  /**
   A pinned clause no hop leads to is shown once exactly when it is not hidden and, if it is
   applicable, the sources do not put eight other paths before it.
   */
  lemma {:induction false} UnhoppedShownOnceIff(x: Input, fused: seq<Candidate>, c: Clause)
    requires ValidInput(x) && Fuses(x, fused) && Pin(x, c) && !Hopped(x, c)
    ensures Applies(c, x.q) ==> InAny(ListsOf(x), c.path)
    ensures ShownOnce(x, fused, c) <==>
              !Hidden(c, x.q.asOf) && (Applies(c, x.q) ==> !Outranked(ListsOf(x), c.path))
  {
    hide ShownOnce, Fuses, ValidInput, InAny, ListsOf, Outranked, Hopped;
    ShownOnceIff(x, fused, c);
    KnownIff(x, c);
    HiddenDoesNotApply(c, x.q);
  }

  lemma {:induction false} HiddenDoesNotApply(c: Clause, q: Query)
    ensures !(Hidden(c, q.asOf) && Applies(c, q))
  {
  }

  /** A hopped pin that is not cut is shown once exactly when it is applicable or hidden. */
  lemma {:induction false} HoppedShownOnceIff(x: Input, fused: seq<Candidate>, c: Clause)
    requires ValidInput(x) && Fuses(x, fused) && Pin(x, c) && Hopped(x, c) && |fused| <= FINAL_K
    ensures HasPath(Returned(x, fused).candidates, c.path)
    ensures ShownOnce(x, fused, c) <==> Applies(c, x.q) || Hidden(c, x.q.asOf)
  {
    hide ShownOnce, Fuses, ValidInput, HasPath, InAny, ListsOf, Cut, Reached;
    ShownOnceIff(x, fused, c);
    CandidateIffReached(x, fused, c);
    CutKnows(x, fused, c.path);
    KnownIff(x, c);
  }

  /**
   Without hop results, and with at most eight applicable pins all within the first sixteen
   pinned paths, every pinned clause is shown exactly once unless it is hidden.
   */
  lemma {:induction false} PinnedShownOnce(x: Input, fused: seq<Candidate>, c: Clause)
    requires ValidInput(x) && Fuses(x, fused) && Pin(x, c)
    requires Hops(x) == [] && |Pins(x)| <= FINAL_K && forall j | 0 <= j < |Pins(x)| :: Pins(x)[j].rank <= 16
    ensures ShownOnce(x, fused, c) <==> !Hidden(c, x.q.asOf)
  {
    hide ShownOnce, Fuses, ValidSnapshot, HasPath, PinnedUpTo, HopsUpTo, Cut, Applies, Hidden, Occurs, Outranked,
        TargetsOf,
         ListsOf;
    assert TargetsOf(x)[..|TargetsOf(x)|] == TargetsOf(x) && x.paths[..|x.paths|] == x.paths;
    HopsIff(x.snapshot, TargetsOf(x), c, |TargetsOf(x)|);
    NothingOccurs(c.path);
    UnhoppedShownOnceIff(x, fused, c);
    if Applies(c, x.q) {
      PinnedIff(x.snapshot, x.q, x.paths, c, |x.paths|);
      OccursIsHasPath(c.path, Pins(x));
      PinSurvives(x, fused, c.path);
      CutIff(x, fused, c.path);
    }
  }

  lemma {:induction false} PinSurvives(x: Input, fused: seq<Candidate>, path: string)
    requires ValidInput(x) && Fuses(x, fused) && Occurs(path, Pins(x))
    requires Hops(x) == [] && |Pins(x)| <= FINAL_K && forall j | 0 <= j < |Pins(x)| :: Pins(x)[j].rank <= 16
    ensures HasPath(Returned(x, fused).candidates, path)
  {
    hide FusedOf, KeyOf, Before, Occurs, PinnedUpTo, HopsUpTo, Applies;
    assert InSource(ListsOf(x), Pinned, path) && InAny(ListsOf(x), path);
    var at: nat :| at < |fused| && fused[at].path == path;
    NoPinLost(Pins(x), x.vector, x.lexical, fused, at);
    assert fused[at] in Cut(fused, FINAL_K);
  }

  /* ---------- the inputs that break it ---------- */

  /** Nine applicable pins are one too many: some pinned, applicable clause is then in no list at all. */
  lemma {:induction false} TooManyPins(x: Input, fused: seq<Candidate>) returns (c: Clause)
    requires ValidInput(x) && Fuses(x, fused) && |Pins(x)| > FINAL_K
    ensures Pin(x, c) && Applies(c, x.q) && !ShownOnce(x, fused, c)
    ensures !HasPath(Returned(x, fused).candidates, c.path) && !HasPath(Returned(x, fused).contextOnly, c.path)
  {
    hide ShownOnce, Fuses, SearchResult, ValidSnapshot, PinnedUpTo, TemporalContext, ScopeContext, Hidden, Reached;
    PinnedFacts(x.snapshot, x.q, x.paths, |x.paths|);
    var i := PinOutside(Pins(x), Returned(x, fused).candidates);
    var d := Pins(x)[i];
    assert 1 <= d.rank <= |x.paths| && d.path == x.paths[d.rank - 1];
    c :| c in x.snapshot && Describes(d, c) && Applies(c, x.q);
    ShownOnceIff(x, fused, c);
    CandidateIffReached(x, fused, c);
    NoContextWhenApplicable(x, c);
  }

  lemma {:induction false} PinOutside(pins: seq<Candidate>, shown: seq<Candidate>) returns (i: nat)
    requires DistinctPaths(pins) && |pins| > |shown|
    ensures i < |pins| && !HasPath(shown, pins[i].path)
  {
    var paths := seq(|pins|, i requires 0 <= i < |pins| => pins[i].path);
    var all := set c | c in shown :: c.path;
    if forall p | p in paths :: p in all {
      FewFromFew(paths, all);
      PathSetSmall(shown);
    }
    var p :| p in paths && p !in all;
    i :| 0 <= i < |paths| && paths[i] == p;
  }

  lemma {:induction false} NoContextWhenApplicable(x: Input, c: Clause)
    requires ValidSnapshot(x.snapshot) && c in x.snapshot && Applies(c, x.q)
    ensures !HasPath(Context(x.snapshot, x.q, SeedPaths(x.paths, x.vector)), c.path)
  {
    hide TemporalContext, ScopeContext, ValidSnapshot;
    var seeds := SeedPaths(x.paths, x.vector);
    TemporalIff(x.snapshot, x.q, seeds, c);
    ScopeIff(x.snapshot, x.q, seeds, c);
    HasPathConcat(TemporalContext(x.snapshot, x.q, seeds, |x.snapshot|),
                  ScopeContext(x.snapshot, x.q, seeds, |x.snapshot|), c.path);
  }

  /** n clauses that differ from c in id and path only, all of them pinned. */
  function Copies(c: Clause, n: nat): Snapshot { seq(n, i requires 0 <= i < n => c.(id := i, path := PathOfLength(i))) }

  function PathOfLength(i: nat): (p: string)
    ensures |p| == i
  {
    seq(i, _ => 'p')
  }

  function CopiesPinned(c: Clause, q: Query, n: nat): Input {
    Input(Copies(c, n), q, seq(n, i requires 0 <= i < n => PathOfLength(i)), [], [], [], 0)
  }

  /** Nine copies of any applicable clause are such an input. */
  lemma {:induction false} NinePinsLoseOne(c: Clause, q: Query, fused: seq<Candidate>) returns (lost: Clause)
    requires Applies(c, q) && Fuses(CopiesPinned(c, q, FINAL_K + 1), fused)
    ensures var x := CopiesPinned(c, q, FINAL_K + 1);
            ValidInput(x) && Pin(x, lost) && Applies(lost, q) && !Hidden(lost, q.asOf) && !ShownOnce(x, fused, lost)
  {
    hide ShownOnce, Fuses, PinnedUpTo, Applies, Hidden;
    var x := CopiesPinned(c, q, FINAL_K + 1);
    assert ValidInput(x) by {
      assert forall i, j | 0 <= i < j < |x.paths| :: |x.paths[i]| < |x.paths[j]|;
      assert forall i, j | 0 <= i < j < |x.snapshot| :: |x.snapshot[i].path| < |x.snapshot[j].path|;
    }
    forall i | 0 <= i < |x.paths|
      ensures HasApplicable(x.snapshot, q, x.paths[i])
    {
      CopyApplies(c, q, i, x.paths[i]);
      assert x.snapshot[i] in x.snapshot;
    }
    AllPinned(x.snapshot, q, x.paths, |x.paths|);
    lost := TooManyPins(x, fused);
    HiddenDoesNotApply(lost, q);
  }

  lemma {:induction false} CopyApplies(c: Clause, q: Query, id: nat, path: string)
    requires Applies(c, q)
    ensures Applies(c.(id := id, path := path), q)
  {
  }

  ghost predicate HasApplicable(snapshot: Snapshot, q: Query, path: string) {
    exists d | d in snapshot :: d.path == path && Applies(d, q)
  }

  /** When every pinned path has an applicable clause, there are as many pinned candidates as paths. */
  lemma {:induction false} AllPinned(snapshot: Snapshot, q: Query, paths: seq<string>, n: nat)
    requires n <= |paths|
    requires forall i | 0 <= i < n :: HasApplicable(snapshot, q, paths[i])
    ensures |PinnedUpTo(snapshot, q, paths, n)| == n
  {
    hide Applies, Row;
    assert n > 0 ==> HasApplicable(snapshot, q, paths[n - 1]);
    if n != 0 { AllPinned(snapshot, q, paths, n - 1); }
  }

  /** Two pins, of which the first incorporates the instrument of the second; no search finds anything. */
  function SeedRefersTo(seed: Clause, c: Clause, q: Query, pins: seq<string>): Input {
    Input([seed, c], q, pins, [], [], [Reference(seed.id, c.instrument.code, true)], 1)
  }

  lemma {:induction false} SeedHops(seed: Clause, c: Clause, q: Query, pins: seq<string>)
    requires seed.path != c.path && seed.id != c.id && Applies(seed, q) && Quotable(c)
    requires DistinctStrings(pins) && seed.path in pins
    ensures ValidInput(SeedRefersTo(seed, c, q, pins)) && Hopped(SeedRefersTo(seed, c, q, pins), c)
  {
    hide Applies, Quotable, TargetsOf;
    var x := SeedRefersTo(seed, c, q, pins);
    assert seed in x.snapshot;
    SeedReaches(x, seed, x.refs[0]);
  }

  /**
   Beside an applicable pin that incorporates its instrument, a hidden pin is a candidate after
   all, a superseded one is candidate and context, and so is one meant for other borrowers.
   */
  lemma {:induction false} HopBreaksBothWays(seed: Clause, c: Clause, q: Query, fused: seq<Candidate>)
    requires seed.path != c.path && seed.id != c.id && Applies(seed, q)
    requires Quotable(c) && q.entity in c.instrument.entityTypes
    requires Fuses(SeedRefersTo(seed, c, q, [seed.path, c.path]), fused)
    ensures var x := SeedRefersTo(seed, c, q, [seed.path, c.path]);
            && ValidInput(x) && Seed(x, seed) && Pin(x, c) && HasPath(Returned(x, fused).candidates, c.path)
            && (ShownOnce(x, fused, c) <==> Applies(c, q) || Hidden(c, q.asOf))
  {
    hide ShownOnce, Fuses, TargetsOf, Applies, Quotable, Hidden;
    var x := SeedRefersTo(seed, c, q, [seed.path, c.path]);
    SeedHops(seed, c, q, [seed.path, c.path]);
    assert seed in x.snapshot && c in x.snapshot;
    FusedFitsSnapshot(x, fused);
    HoppedShownOnceIff(x, fused, c);
  }
}
