/** Which layer of retrieval guarantees what, and which clauses a pin cannot lose. */
module RetrievalProperties {
  import opened Results
  import opened Corpus
  import opened Fusion
  import opened Retrieval

  /* ---------- what reaches the two lists ---------- */

  ghost predicate AppliesFrom(d: Candidate, snapshot: Snapshot, q: Query) {
    exists c | c in snapshot :: Describes(d, c) && Applies(c, q)
  }

  lemma {:induction false} AppliesIsQuotable(d: Candidate, snapshot: Snapshot, q: Query)
    requires AppliesFrom(d, snapshot, q)
    ensures QuotableFrom(d, snapshot)
  {
    var c :| c in snapshot && Describes(d, c) && Applies(c, q);
    assert Quotable(c);
  }

  lemma {:induction false} SameDescription(d: Candidate, e: Candidate, snapshot: Snapshot, q: Query)
    requires e == d.(rank := e.rank, score := e.score, exclusion := e.exclusion)
    ensures AppliesFrom(d, snapshot, q) ==> AppliesFrom(e, snapshot, q)
    ensures QuotableFrom(d, snapshot) ==> QuotableFrom(e, snapshot)
  {
    hide Applies, Quotable;
    if AppliesFrom(d, snapshot, q) {
      var c :| c in snapshot && Describes(d, c) && Applies(c, q);
      assert Describes(e, c);
    }
    if QuotableFrom(d, snapshot) {
      var c :| c in snapshot && Describes(d, c) && Quotable(c);
      assert Describes(e, c);
    }
  }

  lemma {:induction false} SearchApplies(list: seq<Candidate>, snapshot: Snapshot, q: Query, source: Source,
      d: Candidate)
    requires SearchResult(list, snapshot, q, source) && d in list
    ensures AppliesFrom(d, snapshot, q) && d.source == source
  {
    hide Applies;
    var i :| 0 <= i < |list| && list[i] == d;
    assert list[i].rank == i + 1;
  }

  /**
   Every fused candidate is a quotable clause of the snapshot; only a path known from
   nothing but a reference hop may fail the date, entity or borrower filter.
   */
  lemma {:induction false} FusedAreQuotable(snapshot: Snapshot, q: Query, paths: seq<string>, vector: seq<Candidate>,
                                            lexical: seq<Candidate>, targets: seq<string>, fused: seq<Candidate>,
                                            i: nat)
    requires DistinctStrings(paths)
    requires SearchResult(vector, snapshot, q, Vector) && SearchResult(lexical, snapshot, q, Lexical)
    requires var lists := Sources(PinnedUpTo(snapshot, q, paths, |paths|), vector, lexical,
             HopsUpTo(snapshot, targets, |targets|));
             Rankable(lists, RRF_K) && IsFusion(lists, RRF_K, WEIGHTS, fused)
    requires i < |fused|
    ensures var lists := Sources(PinnedUpTo(snapshot, q, paths, |paths|), vector, lexical,
            HopsUpTo(snapshot, targets, |targets|));
            && QuotableFrom(fused[i], snapshot) && InAny(lists, fused[i].path)
            && fused[i].source == BestSource(lists, fused[i].path)
            && (fused[i].source != ReferenceHop ==> AppliesFrom(fused[i], snapshot, q))
  {
    hide QuotableFrom, AppliesFrom, PinnedUpTo, HopsUpTo, SearchResult, Score, BestSource, InAny, First, Before;
    var pinned, hops := PinnedUpTo(snapshot, q, paths, |paths|), HopsUpTo(snapshot, targets, |targets|);
    var lists := Sources(pinned, vector, lexical, hops);
    assert fused[i] == FusedOf(lists, RRF_K, WEIGHTS, fused[i].path, i);
    var s := BestSource(lists, fused[i].path);
    var base := First(lists[s], fused[i].path);
    SameDescription(base, fused[i], snapshot, q);
    match s {
      case Pinned => PinnedApplies(snapshot, q, paths, base); AppliesIsQuotable(fused[i], snapshot, q);
      case Vector => SearchApplies(vector, snapshot, q, Vector, base); AppliesIsQuotable(fused[i], snapshot, q);
      case Lexical => SearchApplies(lexical, snapshot, q, Lexical, base); AppliesIsQuotable(fused[i], snapshot, q);
      case ReferenceHop => HopQuotable(snapshot, targets, base);
    }
  }

  lemma {:induction false} PinnedApplies(snapshot: Snapshot, q: Query, paths: seq<string>, d: Candidate)
    requires DistinctStrings(paths) && d in PinnedUpTo(snapshot, q, paths, |paths|)
    ensures AppliesFrom(d, snapshot, q) && d.source == Pinned
  {
    hide Applies, PinnedUpTo;
    PinnedFacts(snapshot, q, paths, |paths|);
    var out := PinnedUpTo(snapshot, q, paths, |paths|);
    var i :| 0 <= i < |out| && out[i] == d;
    assert 1 <= out[i].rank;
  }

  lemma {:induction false} HopQuotable(snapshot: Snapshot, targets: seq<string>, d: Candidate)
    requires d in HopsUpTo(snapshot, targets, |targets|)
    ensures QuotableFrom(d, snapshot) && d.source == ReferenceHop
  {
    hide QuotableFrom, HopsUpTo;
    HopFacts(snapshot, targets, |targets|);
  }

  lemma {:induction false} ContextQuotable(snapshot: Snapshot, q: Query, seeds: set<string>, d: Candidate)
    requires d in Context(snapshot, q, seeds)
    ensures QuotableFrom(d, snapshot)
  {
    hide QuotableFrom, TemporalContext, ScopeContext;
    TemporalFacts(snapshot, q, seeds, |snapshot|);
    ScopeFacts(snapshot, q, seeds, |snapshot|);
  }

  /* ---------- which pinned clauses each list shows ---------- */

  predicate OnlyOne(a: bool, b: bool, c: bool) { (a && !b && !c) || (!a && b && !c) || (!a && !b && c) }

  /** The clause is in its own window while its instrument is not. */
  predicate Hidden(c: Clause, asOf: Date) {
    InWindow(c.effectiveFrom, c.effectiveTo, asOf)
    && !InWindow(c.instrument.effectiveFrom, c.instrument.effectiveTo, asOf)
  }

  lemma {:induction false} UniquePath(snapshot: Snapshot, c: Clause, i: nat)
    requires ValidSnapshot(snapshot) && c in snapshot && i < |snapshot| && snapshot[i].path == c.path
    ensures snapshot[i] == c
  {
    var j :| 0 <= j < |snapshot| && snapshot[j] == c;
  }

  lemma {:induction false} PinnedIff(snapshot: Snapshot, q: Query, paths: seq<string>, c: Clause, n: nat)
    requires ValidSnapshot(snapshot) && c in snapshot && n <= |paths|
    ensures HasPath(PinnedUpTo(snapshot, q, paths, n), c.path) <==> c.path in paths[..n] && Applies(c, q)
  {
    hide Applies;
    if n != 0 {
      PinnedIff(snapshot, q, paths, c, n - 1);
      var before, row := PinnedUpTo(snapshot, q, paths, n - 1), Row(snapshot, q, paths[n - 1]);
      assert paths[..n] == paths[..n - 1] + [paths[n - 1]];
      if row.Some? {
        var d := CandidateOf(row.value, Pinned, n, None);
        ListsSnoc(before, d);
        if d.path == c.path {
          var i :| 0 <= i < |snapshot| && snapshot[i] == row.value;
          UniquePath(snapshot, c, i);
        }
      }
    }
  }

  lemma {:induction false} TemporalIff(snapshot: Snapshot, q: Query, seeds: set<string>, c: Clause)
    requires ValidSnapshot(snapshot) && c in snapshot
    ensures HasPath(TemporalContext(snapshot, q, seeds, |snapshot|), c.path) <==> TemporalCase(c, q, seeds)
  {
    hide TemporalContext, TemporalCase;
    TemporalFacts(snapshot, q, seeds, |snapshot|);
    var j :| 0 <= j < |snapshot| && snapshot[j] == c;
    if i :| 0 <= i < |snapshot| && snapshot[i].path == c.path && TemporalCase(snapshot[i], q, seeds) {
      UniquePath(snapshot, c, i);
    }
  }

  lemma {:induction false} ScopeIff(snapshot: Snapshot, q: Query, seeds: set<string>, c: Clause)
    requires ValidSnapshot(snapshot) && c in snapshot
    ensures HasPath(ScopeContext(snapshot, q, seeds, |snapshot|), c.path) <==> ScopeCase(c, q, seeds)
  {
    hide ScopeContext, ScopeCase;
    ScopeFacts(snapshot, q, seeds, |snapshot|);
    var j :| 0 <= j < |snapshot| && snapshot[j] == c;
    if i :| 0 <= i < |snapshot| && snapshot[i].path == c.path && ScopeCase(snapshot[i], q, seeds) {
      UniquePath(snapshot, c, i);
    }
  }

  datatype Window = Window(from: Option<Date>, to: Option<Date>)

  /** The window a clause gets at ingest: its paragraph's override, or the instrument's own. */
  function EffectiveWindow(para: string, instrument: Instrument, overrides: map<string, Window>): Window {
    if para in overrides then overrides[para] else Window(instrument.effectiveFrom, instrument.effectiveTo)
  }

  /** A clause ingested without a paragraph override is never hidden. */
  lemma NoOverrideNeverHidden(c: Clause, para: string, overrides: map<string, Window>, asOf: Date)
    requires Window(c.effectiveFrom, c.effectiveTo) == EffectiveWindow(para, c.instrument, overrides)
    requires Hidden(c, asOf)
    ensures para in overrides
  {
  }

  /** Where a clause stands in time: 0 not yet in force, 1 in force, 2 superseded. */
  function Stage(c: Clause, asOf: Date): nat {
    if c.effectiveFrom.Some? && c.effectiveFrom.value > asOf then 0
    else if c.effectiveTo.Some? && c.effectiveTo.value <= asOf then 2
    else 1
  }

  /** The stage agrees with the window and the reason given, and never goes back. */
  lemma StageMovesForward(c: Clause, asOf: Date, later: Date)
    requires asOf <= later
    ensures Stage(c, asOf) <= Stage(c, later)
    ensures Stage(c, asOf) == 1 <==> InWindow(c.effectiveFrom, c.effectiveTo, asOf)
    ensures Stage(c, asOf) == 0 ==> ReasonFor(c, asOf) == NotYetInForce
    ensures Stage(c, asOf) == 2 ==> ReasonFor(c, asOf) == WasSuperseded
  {
  }

  /* ---------- pins outrank search results ---------- */

  lemma {:induction false} DivideLess(w: real, x: real, y: real)
    requires w >= 0.0 && 0.0 < x <= y
    ensures 0.0 <= w / y <= w / x
  {
    assert w / y * y == w && w / x * x == w;
  }

  lemma {:induction false} ShareNonNegative(list: seq<Candidate>, path: string, w: real, k: int, n: nat)
    requires n <= |list| && (forall i | 0 <= i < |list| :: k + list[i].rank > 0) && w >= 0.0
    ensures Share(list, path, w, k, n) >= 0.0
  {
    if n != 0 {
      ShareNonNegative(list, path, w, k, n - 1);
      var x := (k + list[n - 1].rank) as real;
      DivideLess(w, x, x);
    }
  }

  lemma {:induction false} ShareAtLeast(list: seq<Candidate>, path: string, w: real, k: int, i: nat, n: nat)
    requires i < n <= |list| && (forall i | 0 <= i < |list| :: k + list[i].rank > 0) && w >= 0.0
    requires list[i].path == path
    ensures Share(list, path, w, k, n) >= w / (k + list[i].rank) as real
  {
    if i == n - 1 {
      ShareNonNegative(list, path, w, k, n - 1);
    } else {
      ShareAtLeast(list, path, w, k, i, n - 1);
      var x := (k + list[n - 1].rank) as real;
      DivideLess(w, x, x);
    }
  }

  /** A path listed at most once, at rank 1 or later, gets at most the share of rank 1. */
  lemma {:induction false} ShareAtMost(list: seq<Candidate>, path: string, w: real, k: nat, n: nat)
    requires n <= |list| && DistinctPaths(list) && w >= 0.0
    requires forall i | 0 <= i < |list| :: list[i].rank >= 1
    ensures Share(list, path, w, k, n) <= w / (k + 1) as real
    ensures Share(list, path, w, k, n) > 0.0 ==> exists i | 0 <= i < n :: list[i].path == path
  {
    var one := (k + 1) as real;
    if n == 0 {
      DivideLess(w, one, one);
    } else {
      ShareAtMost(list, path, w, k, n - 1);
      var c := list[n - 1];
      if c.path == path {
        assert forall i | 0 <= i < n - 1 :: list[i].path != path;
        assert Share(list, path, w, k, n - 1) <= 0.0;
        DivideLess(w, one, (k + c.rank) as real);
      }
    }
  }

  /**
   With the configured weights a pin of rank 16 or better strictly outranks every path that
   neither a pin nor a hop has, however well the two searches rank it.
   */
  lemma {:induction false} PinOutranks(pinned: seq<Candidate>, vector: seq<Candidate>, lexical: seq<Candidate>,
                                       hops: seq<Candidate>, i: nat, path: string)
    requires i < |pinned| && pinned[i].rank <= 16
    requires DistinctPaths(vector) && (forall j | 0 <= j < |vector| :: vector[j].rank >= 1)
    requires DistinctPaths(lexical) && (forall j | 0 <= j < |lexical| :: lexical[j].rank >= 1)
    requires !Occurs(path, pinned) && !Occurs(path, hops)
    ensures Ranked(pinned, vector, lexical, hops)
    ensures Score(Sources(pinned, vector, lexical, hops), RRF_K, WEIGHTS, pinned[i].path)
          > Score(Sources(pinned, vector, lexical, hops), RRF_K, WEIGHTS, path)
  {
    hide Share;
    AlwaysRankable(pinned, vector, lexical, hops);
    var p := pinned[i].path;
    ShareAtLeast(pinned, p, 2.5, RRF_K, i, |pinned|);
    ShareNonNegative(vector, p, 1.0, RRF_K, |vector|);
    ShareNonNegative(lexical, p, 1.0, RRF_K, |lexical|);
    ShareNonNegative(hops, p, 1.0, RRF_K, |hops|);
    DivideLess(2.5, (RRF_K + pinned[i].rank) as real, 76.0);
    ShareAtMost(vector, path, 1.0, RRF_K, |vector|);
    ShareAtMost(lexical, path, 1.0, RRF_K, |lexical|);
    assert pinned[..|pinned|] == pinned && hops[..|hops|] == hops;
    NothingYet(pinned, path, 2.5, RRF_K, |pinned|);
    NothingYet(hops, path, 1.0, RRF_K, |hops|);
  }

  /** Rank 17 is too late: a path ranked first by both searches then wins. */
  lemma {:induction false} PinRank17Loses(pin: Candidate, hit: Candidate)
    requires pin.rank == 17 && hit.rank == 1 && hit.path != pin.path
    ensures Ranked([pin], [hit], [hit], [])
    ensures Score(Sources([pin], [hit], [hit], []), RRF_K, WEIGHTS, pin.path)
          < Score(Sources([pin], [hit], [hit], []), RRF_K, WEIGHTS, hit.path)
  {
    AlwaysRankable([pin], [hit], [hit], []);
    assert Share([pin], pin.path, 2.5, RRF_K, 1) == 2.5 / 77.0;
    assert Share([hit], pin.path, 1.0, RRF_K, 1) == 0.0;
    assert Share([hit], hit.path, 1.0, RRF_K, 1) == 1.0 / 61.0;
    assert Share([pin], hit.path, 2.5, RRF_K, 1) == 0.0;
  }

  /* ---------- no pin is cut ---------- */

  lemma {:induction false} FewFromFew(paths: seq<string>, all: set<string>)
    requires DistinctStrings(paths) && forall p | p in paths :: p in all
    ensures |paths| <= |all|
  {
    if paths != [] {
      var last, init := paths[|paths| - 1], paths[..|paths| - 1];
      forall p | p in init ensures p in all - {last} {
        var i :| 0 <= i < |init| && init[i] == p;
        assert paths[i] != paths[|paths| - 1];
      }
      FewFromFew(init, all - {last});
      assert last in paths;
    }
  }

  lemma {:induction false} SetSmall(all: set<string>, paths: seq<string>)
    requires forall p | p in all :: p in paths
    ensures |all| <= |paths|
  {
    if paths == [] {
      assert all == {};
    } else {
      var init, last := paths[..|paths| - 1], paths[|paths| - 1];
      assert paths == init + [last];
      SetSmall(all - {last}, init);
    }
  }

  lemma {:induction false} PathSetSmall(list: seq<Candidate>)
    ensures |set c | c in list :: c.path| <= |list|
  {
    var paths := seq(|list|, i requires 0 <= i < |list| => list[i].path);
    forall p | p in set c | c in list :: c.path
      ensures p in paths
    {
      var i :| 0 <= i < |list| && list[i].path == p;
      assert paths[i] == p;
    }
    SetSmall(set c | c in list :: c.path, paths);
  }

  /** Without hop results, at most eight pins of rank at most 16 all survive the cut. */
  lemma {:induction false} NoPinLost(pinned: seq<Candidate>, vector: seq<Candidate>, lexical: seq<Candidate>,
      fused: seq<Candidate>, at: nat)
    requires |pinned| <= FINAL_K && forall j | 0 <= j < |pinned| :: pinned[j].rank <= 16
    requires DistinctPaths(vector) && (forall j | 0 <= j < |vector| :: vector[j].rank >= 1)
    requires DistinctPaths(lexical) && (forall j | 0 <= j < |lexical| :: lexical[j].rank >= 1)
    requires Ranked(pinned, vector, lexical, [])
             && IsFusion(Sources(pinned, vector, lexical, []), RRF_K, WEIGHTS, fused)
    requires at < |fused| && Occurs(fused[at].path, pinned)
    ensures at < FINAL_K
  {
    hide Score, Share, FusedOf, IsFusion, Occurs, Ranked;
    var paths := seq(at + 1, j requires 0 <= j < at + 1 => fused[j].path);
    var all := set c | c in pinned :: c.path;
    forall j | 0 <= j < at + 1
      ensures fused[j].path in all
    {
      if j < at { PinAhead(pinned, vector, lexical, fused, j, at); }
      OccursInSet(fused[j].path, pinned);
    }
    DistinctFront(Sources(pinned, vector, lexical, []), fused, paths);
    FewFromFew(paths, all);
    PathSetSmall(pinned);
  }

  lemma {:induction false} OccursInSet(path: string, list: seq<Candidate>)
    requires Occurs(path, list)
    ensures path in set c | c in list :: c.path
  {
    var i :| 0 <= i < |list| && list[i].path == path;
    assert list[i] in list;
  }

  lemma {:induction false} DistinctFront(lists: Lists, fused: seq<Candidate>, paths: seq<string>)
    requires Rankable(lists, RRF_K) && IsFusion(lists, RRF_K, WEIGHTS, fused)
    requires |paths| <= |fused| && forall j | 0 <= j < |paths| :: paths[j] == fused[j].path
    ensures DistinctStrings(paths)
  {
    hide IsFusion, Rankable;
    forall a, b | 0 <= a < b < |paths|
      ensures paths[a] != paths[b]
    {
      FusedDistinct(lists, fused, a, b);
    }
  }

  lemma {:induction false} FusedDistinct(lists: Lists, fused: seq<Candidate>, a: nat, b: nat)
    requires Rankable(lists, RRF_K) && IsFusion(lists, RRF_K, WEIGHTS, fused) && a < b < |fused|
    ensures fused[a].path != fused[b].path
  {
    hide Score, FusedOf, BestSource, InAny, Before;
    BeforeAsymmetric(KeyOf(lists, RRF_K, WEIGHTS, fused[a].path), KeyOf(lists, RRF_K, WEIGHTS, fused[b].path));
  }

  lemma {:induction false} PinAhead(pinned: seq<Candidate>, vector: seq<Candidate>, lexical: seq<Candidate>,
      fused: seq<Candidate>, j: nat, at: nat)
    requires forall j | 0 <= j < |pinned| :: pinned[j].rank <= 16
    requires DistinctPaths(vector) && (forall j | 0 <= j < |vector| :: vector[j].rank >= 1)
    requires DistinctPaths(lexical) && (forall j | 0 <= j < |lexical| :: lexical[j].rank >= 1)
    requires Ranked(pinned, vector, lexical, [])
             && IsFusion(Sources(pinned, vector, lexical, []), RRF_K, WEIGHTS, fused)
    requires j < at < |fused| && Occurs(fused[at].path, pinned)
    ensures Occurs(fused[j].path, pinned)
  {
    hide Score, FusedOf, BestSource, InAny;
    var i :| 0 <= i < |pinned| && pinned[i].path == fused[at].path;
    if !Occurs(fused[j].path, pinned) {
      PinOutranks(pinned, vector, lexical, [], i, fused[j].path);
    }
  }
}
