/**
 No finding without a real, literally quoted clause: whatever the model drafts, every
 persisted citation passes the evaluation suite's independent checker.
 */
module LedgerCitations {
  import opened Results
  import opened Quotation
  import opened Corpus
  import opened Retrieval
  import opened RetrievalProperties
  import opened RetrievalResult
  import opened CitationValidator
  import opened CitationScope
  import opened AssessmentLedger
  import opened LedgerProperties

  /* ---------- what the ledger is fed ---------- */

  /** Every snapshot is keyed, clause texts are non-empty, and clause ids are never reused. */
  ghost predicate ValidCorpora(corpora: Corpora) {
    && (forall s | s in corpora :: ValidSnapshot(corpora[s]) && forall c | c in corpora[s] :: c.text != "")
    && forall s, t, c, d | s in corpora && t in corpora && c in corpora[s] && d in corpora[t] && c.id == d.id :: s == t
  }

  /** A rule cites only its own paths, with the excerpt it was handed for the path. */
  ghost predicate Honest(run: RuleRun, snapshot: Snapshot) {
    run.outcome.Fired? ==> forall c | c in run.outcome.citations ::
      c.path in run.paths && forall k | k in snapshot && k.path == c.path :: c.excerpt == k.text
  }

  /** Retrieval offers quotable clauses of the snapshot; a candidate that is not from a hop is applicable. */
  ghost predicate OfferedFrom(offered: CandidateSet, snapshot: Snapshot, q: Query) {
    && (forall d | d in offered.candidates ::
          QuotableFrom(d, snapshot) && (d.source != ReferenceHop ==> AppliesFrom(d, snapshot, q)))
    && (forall d | d in offered.contextOnly :: QuotableFrom(d, snapshot))
  }

  /** The account and date a request asks about. */
  function QueryOf(req: Request): Query { Query(req.entity, req.borrower, req.eventDate) }

  /** Nothing at all is asked of the model's draft. */
  ghost predicate ValidRequest(corpora: Corpora, req: Request) {
    && req.snapshot in corpora
    && (forall run | run in req.runs :: Honest(run, corpora[req.snapshot]))
    && (req.model.Drafted? ==> OfferedFrom(req.model.offered, corpora[req.snapshot], QueryOf(req)))
  }

  ghost predicate ValidRun(corpora: Corpora, reqs: seq<Request>) {
    ValidCorpora(corpora) && forall r | r in reqs :: r.snapshot in corpora && ValidRequest(corpora, r)
  }

  /** What retrieval returns meets that demand. */
  lemma {:induction false} RetrievalOffers(x: Input, fused: seq<Candidate>)
    requires ValidInput(x) && Fuses(x, fused)
    ensures OfferedFrom(Returned(x, fused), x.snapshot, x.q)
  {
    hide QuotableFrom, AppliesFrom, Fuses, Context, ValidInput, Cut;
    forall d | d in Returned(x, fused).candidates
      ensures QuotableFrom(d, x.snapshot) && (d.source != ReferenceHop ==> AppliesFrom(d, x.snapshot, x.q))
    {
      CandidateGoverned(x, fused, d);
    }
    forall d | d in Returned(x, fused).contextOnly
      ensures QuotableFrom(d, x.snapshot)
    {
      ContextQuotable(x.snapshot, x.q, SeedPaths(x.paths, x.vector), d);
    }
  }

  /* ---------- citations resolve ---------- */

  /** The clause a persisted citation stands on. */
  predicate Backed(row: CitationRow, a: Assessment, c: Clause) {
    && c.id == row.clauseId && c.path == row.citation.path
    && IsLiteralSubstring(row.citation.excerpt, c.text)
    && (a.byModel ==> Quotable(c))
    && (a.byModel && row.citation.role != ContextOnly ==> InWindow(c.effectiveFrom, c.effectiveTo, a.eventDate))
  }

  predicate FromHop(offered: CandidateSet, path: string) {
    Find(offered.candidates, path).Some? && Find(offered.candidates, path).value.source == ReferenceHop
  }

  /** The request behind a row; the clause governs its account unless retrieval knew it from a hop only. */
  ghost predicate Governs(req: Request, row: CitationRow, a: Assessment, c: Clause) {
    && a == ModelAssessment(req, a.verdict).(supersededBy := a.supersededBy) && req.model.Drafted?
    && row.citation in Validated(req.model.draft, req.model.offered, req.eventDate).citations
    && (Applies(c, QueryOf(req)) || FromHop(req.model.offered, c.path))
  }

  ghost predicate Governed(reqs: seq<Request>, row: CitationRow, a: Assessment, c: Clause) {
    a.byModel && row.citation.role != ContextOnly ==> exists req | req in reqs :: Governs(req, row, a, c)
  }

  ghost predicate BackedIn(row: CitationRow, a: Assessment, corpora: Corpora, reqs: seq<Request>) {
    a.snapshot in corpora && exists c | c in corpora[a.snapshot] :: Backed(row, a, c) && Governed(reqs, row, a, c)
  }

  ghost predicate AllBacked(corpora: Corpora, reqs: seq<Request>, t: Tables) {
    forall i | 0 <= i < |t.citations| ::
      t.citations[i].assessment < |t.rows| && BackedIn(t.citations[i], t.rows[t.citations[i].assessment], corpora, reqs)
  }

  lemma {:induction false} CitationRowsAre(id: nat, cs: seq<Citation>, ids: map<string, nat>, n: nat)
    requires n <= |cs|
    ensures var r := CitationRows(id, cs, ids, n);
            && (r.Ok? <==> forall k | 0 <= k < n :: cs[k].path in ids)
            && (r.Ok? ==>
                  |r.value| == n && forall k | 0 <= k < n :: r.value[k] == CitationRow(id, ids[cs[k].path], cs[k]))
  {
    if n != 0 { CitationRowsAre(id, cs, ids, n - 1); }
  }

  lemma {:induction false} RefsResolve(snapshot: Snapshot, paths: seq<string>, path: string)
    ensures path in ClauseRefs(snapshot, paths) <==> path in paths && exists c | c in snapshot :: c.path == path
    ensures path in ClauseRefs(snapshot, paths) ==>
              exists c | c in snapshot :: c.path == path && c.id == ClauseRefs(snapshot, paths)[path]
    decreases |snapshot|
  {
    if snapshot != [] {
      var rest, last := snapshot[..|snapshot| - 1], snapshot[|snapshot| - 1];
      RefsResolve(rest, paths, path);
      assert snapshot == rest + [last];
    }
  }

  lemma {:induction false} OfferedResolve(list: seq<Candidate>, n: nat, path: string)
    requires n <= |list|
    ensures path in OfferedIds(list, n) <==> exists k | 0 <= k < n :: list[k].path == path
    ensures path in OfferedIds(list, n) ==>
              exists k | 0 <= k < n :: list[k].path == path && list[k].clauseId == OfferedIds(list, n)[path]
  {
    if n != 0 { OfferedResolve(list, n - 1, path); }
  }

  /** In a keyed snapshot all candidates of a path describe one clause: first wins and last wins agree. */
  lemma {:induction false} OneClausePerPath(snapshot: Snapshot, c: Clause, d: Clause)
    requires ValidSnapshot(snapshot) && c in snapshot && d in snapshot && c.path == d.path
    ensures c == d
  {
    var i: nat :| i < |snapshot| && snapshot[i] == c;
    var j: nat :| j < |snapshot| && snapshot[j] == d;
  }

  function All(offered: CandidateSet): seq<Candidate> { offered.candidates + offered.contextOnly }

  function ModelIds(offered: CandidateSet): map<string, nat> { OfferedIds(All(offered), |All(offered)|) }

  /** Each citation the validator lets through is backed by the clause its id names. */
  lemma {:induction false} OutcomeBacked(snapshot: Snapshot, req: Request, i: nat, id: nat) returns (c: Clause)
    requires ValidSnapshot(snapshot) && req.model.Drafted? && OfferedFrom(req.model.offered, snapshot, QueryOf(req))
    requires i < |Validated(req.model.draft, req.model.offered, req.eventDate).citations|
    ensures var outcome := Validated(req.model.draft, req.model.offered, req.eventDate);
            var cite, ids := outcome.citations[i], ModelIds(req.model.offered);
            && cite.path in ids && c in snapshot
            && Backed(CitationRow(id, ids[cite.path], cite), ModelAssessment(req, outcome.verdict), c)
            && (cite.role != ContextOnly ==>
                  Governs(req, CitationRow(id, ids[cite.path], cite), ModelAssessment(req, outcome.verdict), c))
  {
    hide Validated, IsLiteralSubstring, Find, OfferedIds, ValidSnapshot, Quotable, InWindow, Applies;
    var offered, draft := req.model.offered, req.model.draft;
    var cite := Validated(draft, offered, req.eventDate).citations[i];
    OutcomeSound(draft, offered, req.eventDate, i);
    var d := ByPath(offered, cite.path).value;
    var all := All(offered);
    assert d in all && d.path == cite.path;
    var at: nat :| at < |all| && all[at] == d;
    OfferedResolve(all, |all|, cite.path);
    var k: nat :| k < |all| && all[k].path == cite.path && all[k].clauseId == OfferedIds(all, |all|)[cite.path];
    assert all[k] in all;
    c := DescribedClause(snapshot, d);
    var e := DescribedClause(snapshot, all[k]);
    OneClausePerPath(snapshot, c, e);
    if cite.role != ContextOnly { CitedGoverns(snapshot, req, cite.path, d, c); }
  }

  lemma {:induction false} DescribedClause(snapshot: Snapshot, d: Candidate) returns (c: Clause)
    requires QuotableFrom(d, snapshot)
    ensures c in snapshot && Describes(d, c) && Quotable(c)
  {
    c :| c in snapshot && Describes(d, c) && Quotable(c);
  }

  /** The candidate behind a counting citation is applicable or known from a hop only. */
  lemma {:induction false} CitedGoverns(snapshot: Snapshot, req: Request, path: string, d: Candidate, c: Clause)
    requires ValidSnapshot(snapshot) && req.model.Drafted? && OfferedFrom(req.model.offered, snapshot, QueryOf(req))
    requires HasPath(req.model.offered.candidates, path) && ByPath(req.model.offered, path) == Some(d)
    requires c in snapshot && Describes(d, c) && c.path == path
    ensures Applies(c, QueryOf(req)) || FromHop(req.model.offered, path)
  {
    hide Find, ValidSnapshot, Quotable, Applies;
    FindIff(req.model.offered.candidates, path);
    if d.source != ReferenceHop {
      var g :| g in snapshot && Describes(d, g) && Applies(g, QueryOf(req));
      OneClausePerPath(snapshot, c, g);
    }
  }

  /** So the model path never trips the unresolvable-citation assertion. */
  lemma {:induction false} ModelPathPersists(corpora: Corpora, t: Tables, req: Request)
    requires ValidCorpora(corpora) && ValidRequest(corpora, req) && req.model.Drafted?
    ensures var outcome := Validated(req.model.draft, req.model.offered, req.eventDate);
            Persisted(t, ModelAssessment(req, outcome.verdict), outcome.citations, ModelIds(req.model.offered)).Ok?
  {
    hide Validated, OfferedFrom, CitationRows, Backed, Prior, Honest, ModelIds;
    var outcome := Validated(req.model.draft, req.model.offered, req.eventDate);
    var ids := ModelIds(req.model.offered);
    forall k | 0 <= k < |outcome.citations|
      ensures outcome.citations[k].path in ids
    {
      var _ := OutcomeBacked(corpora[req.snapshot], req, k, 0);
    }
    CitationRowsAre(|t.rows|, outcome.citations, ids, |outcome.citations|);
  }

  lemma {:induction false} RuleBacked(corpora: Corpora, req: Request, run: RuleRun, cite: Citation,
      id: nat) returns (c: Clause)
    requires ValidCorpora(corpora) && req.snapshot in corpora && Honest(run, corpora[req.snapshot])
    requires run.outcome.Fired? && cite in run.outcome.citations
             && cite.path in ClauseRefs(corpora[req.snapshot], run.paths)
    ensures c in corpora[req.snapshot]
    ensures Backed(CitationRow(id, ClauseRefs(corpora[req.snapshot], run.paths)[cite.path], cite),
            RuleAssessment(req, run), c)
  {
    hide IsLiteralSubstring, ClauseRefs, ValidSnapshot;
    RefsResolve(corpora[req.snapshot], run.paths, cite.path);
    c :| c in corpora[req.snapshot] && c.path == cite.path
        && c.id == ClauseRefs(corpora[req.snapshot], run.paths)[cite.path];
    WholeTextQuoted(c.text);
  }

  lemma {:induction false} PersistBacks(corpora: Corpora, reqs: seq<Request>, t: Tables, a: Assessment,
      cs: seq<Citation>, ids: map<string, nat>)
    requires AllBacked(corpora, reqs, t) && Persisted(t, a, cs, ids).Ok?
    requires forall k | 0 <= k < |cs| && cs[k].path in ids ::
             BackedIn(CitationRow(|t.rows|, ids[cs[k].path], cs[k]), a, corpora, reqs)
    ensures AllBacked(corpora, reqs, Persisted(t, a, cs, ids).value)
  {
    hide CitationRows, Prior, Backed;
    CitationRowsAre(|t.rows|, cs, ids, |cs|);
    PersistExtends(t, a, cs, ids);
    var u := Persisted(t, a, cs, ids).value;
    assert u.rows[|t.rows|] == a;
    forall i | 0 <= i < |u.citations|
      ensures u.citations[i].assessment < |u.rows|
              && BackedIn(u.citations[i], u.rows[u.citations[i].assessment], corpora, reqs)
    {
      if i < |t.citations| {
        var at := t.citations[i].assessment;
        StaysBacked(corpora, reqs, reqs, t.citations[i], t.rows[at], u.rows[at]);
      } else {
        var k := i - |t.citations|;
        assert u.citations[i] == CitationRow(|t.rows|, ids[cs[k].path], cs[k]);
      }
    }
  }

  /** A citation stays backed when its row is superseded and when further requests follow. */
  lemma {:induction false} StaysBacked(corpora: Corpora, reqs: seq<Request>, more: seq<Request>,
                                       row: CitationRow, a: Assessment, b: Assessment)
    requires BackedIn(row, a, corpora, reqs) && b == a.(supersededBy := b.supersededBy) && forall r | r in reqs ::
             r in more
    ensures BackedIn(row, b, corpora, more)
  {
    hide IsLiteralSubstring, Quotable, InWindow, Applies, FromHop, Validated;
    var c :| c in corpora[a.snapshot] && Backed(row, a, c) && Governed(reqs, row, a, c);
    assert Backed(row, b, c);
    if a.byModel && row.citation.role != ContextOnly {
      var req :| req in reqs && Governs(req, row, a, c);
      assert req in more && Governs(req, row, b, c);
    }
    assert Governed(more, row, b, c);
  }

  lemma {:induction false} MoreRequests(corpora: Corpora, reqs: seq<Request>, more: seq<Request>, t: Tables)
    requires AllBacked(corpora, reqs, t) && forall r | r in reqs :: r in more
    ensures AllBacked(corpora, more, t)
  {
    hide BackedIn;
    forall i | 0 <= i < |t.citations|
      ensures BackedIn(t.citations[i], t.rows[t.citations[i].assessment], corpora, more)
    {
      var a := t.rows[t.citations[i].assessment];
      StaysBacked(corpora, reqs, more, t.citations[i], a, a);
    }
  }

  lemma {:induction false} RulesBack(corpora: Corpora, reqs: seq<Request>, t: Tables, req: Request, n: nat)
    requires ValidCorpora(corpora) && ValidRequest(corpora, req) && AllBacked(corpora, reqs, t)
    requires n <= |req.runs| && RulesRun(corpora, t, req, n).Ok?
    ensures AllBacked(corpora, reqs, RulesRun(corpora, t, req, n).value.0)
  {
    hide ValidCorpora, AllBacked, Persisted, ClauseRefs, Honest, Backed, OfferedFrom;
    if n != 0 {
      RulesBack(corpora, reqs, t, req, n - 1);
      var u, run := RulesRun(corpora, t, req, n - 1).value.0, req.runs[n - 1];
      if run.outcome.Fired? {
        var a, cs, ids := RuleAssessment(req, run), run.outcome.citations, ClauseRefs(corpora[req.snapshot], run.paths);
        forall k | 0 <= k < |cs| && cs[k].path in ids
          ensures BackedIn(CitationRow(|u.rows|, ids[cs[k].path], cs[k]), a, corpora, reqs)
        {
          var c := RuleBacked(corpora, req, run, cs[k], |u.rows|);
          assert Governed(reqs, CitationRow(|u.rows|, ids[cs[k].path], cs[k]), a, c);
        }
        PersistBacks(corpora, reqs, u, a, cs, ids);
      }
    }
  }

  lemma {:induction false} StepBacks(corpora: Corpora, reqs: seq<Request>, t: Tables, req: Request)
    requires req in reqs && ValidCorpora(corpora) && ValidRequest(corpora, req) && AllBacked(corpora, reqs, t)
    ensures AllBacked(corpora, reqs, Step(corpora, t, req))
  {
    hide AllBacked, Persisted, RulesRun, Validated, OfferedIds, Settled, Backed, OfferedFrom, Honest, ValidSnapshot;
    if Assessed(corpora, t, req).Ok? {
      RulesBack(corpora, reqs, t, req, |req.runs|);
      var (u, decided) := RulesRun(corpora, t, req, |req.runs|).value;
      if !decided {
        var outcome := Validated(req.model.draft, req.model.offered, req.eventDate);
        var a, cs, ids := ModelAssessment(req, outcome.verdict), outcome.citations, ModelIds(req.model.offered);
        forall k | 0 <= k < |cs| && cs[k].path in ids
          ensures BackedIn(CitationRow(|u.rows|, ids[cs[k].path], cs[k]), a, corpora, reqs)
        {
          var c := OutcomeBacked(corpora[req.snapshot], req, k, |u.rows|);
          assert Governed(reqs, CitationRow(|u.rows|, ids[cs[k].path], cs[k]), a, c);
        }
        PersistBacks(corpora, reqs, u, a, cs, ids);
      }
      SettledBacks(corpora, reqs, Written(corpora, t, req), req);
    }
  }

  lemma {:induction false} SettledBacks(corpora: Corpora, reqs: seq<Request>, t: Tables, req: Request)
    requires AllBacked(corpora, reqs, t)
    ensures AllBacked(corpora, reqs, Settled(t, req))
  {
    hide BackedIn, Recount;
  }

  /** Over every run and for every model output, every persisted citation is backed. */
  lemma {:induction false} RunBacked(corpora: Corpora, reqs: seq<Request>)
    requires ValidRun(corpora, reqs)
    ensures AllBacked(corpora, reqs, Run(corpora, reqs))
  {
    hide ValidCorpora, Honest, OfferedFrom, Step, BackedIn;
    if reqs != [] {
      var before := reqs[..|reqs| - 1];
      assert forall r | r in before :: r in reqs;
      RunBacked(corpora, before);
      MoreRequests(corpora, before, reqs, Run(corpora, before));
      StepBacks(corpora, reqs, Run(corpora, before), reqs[|reqs| - 1]);
    }
  }

  /* ---------- a conclusive model verdict has a decisive citation ---------- */

  ghost predicate HasDecisive(t: Tables, i: nat) {
    exists k | 0 <= k < |t.citations| :: t.citations[k].assessment == i && t.citations[k].citation.role == Decisive
  }

  ghost predicate Founded(t: Tables) {
    && (forall k | 0 <= k < |t.citations| :: t.citations[k].assessment < |t.rows|)
    && forall i | 0 <= i < |t.rows| && t.rows[i].byModel :: Conclusive(t.rows[i].verdict) <==> HasDecisive(t, i)
  }

  lemma {:induction false} PersistFounds(t: Tables, a: Assessment, cs: seq<Citation>, ids: map<string, nat>)
    requires Founded(t) && Persisted(t, a, cs, ids).Ok?
    requires a.byModel ==> (Conclusive(a.verdict) <==> exists k | 0 <= k < |cs| :: cs[k].role == Decisive)
    ensures Founded(Persisted(t, a, cs, ids).value)
  {
    hide CitationRows, Prior;
    CitationRowsAre(|t.rows|, cs, ids, |cs|);
    PersistExtends(t, a, cs, ids);
    var u := Persisted(t, a, cs, ids).value;
    assert u.rows[|t.rows|] == a;
    forall k: nat | |t.citations| <= k < |u.citations|
      ensures u.citations[k].assessment == |t.rows| && u.citations[k].citation == cs[k - |t.citations|]
    {
    }
    forall i: nat | i < |u.rows| && u.rows[i].byModel
      ensures Conclusive(u.rows[i].verdict) <==> HasDecisive(u, i)
    {
      if i < |t.rows| {
        DecisiveKept(t, u, i);
      } else {
        DecisiveNew(t, u, cs);
      }
    }
  }

  lemma {:induction false} DecisiveKept(t: Tables, u: Tables, i: nat)
    requires t.citations <= u.citations && i < |t.rows|
    requires forall k | |t.citations| <= k < |u.citations| :: u.citations[k].assessment == |t.rows|
    ensures HasDecisive(u, i) <==> HasDecisive(t, i)
  {
    if HasDecisive(t, i) {
      var k :| 0 <= k < |t.citations| && t.citations[k].assessment == i && t.citations[k].citation.role == Decisive;
      assert u.citations[k] == t.citations[k];
    }
  }

  lemma {:induction false} DecisiveNew(t: Tables, u: Tables, cs: seq<Citation>)
    requires t.citations <= u.citations && |u.citations| == |t.citations| + |cs|
    requires forall k | 0 <= k < |t.citations| :: t.citations[k].assessment < |t.rows|
    requires forall k | |t.citations| <= k < |u.citations| ::
               u.citations[k].assessment == |t.rows| && u.citations[k].citation == cs[k - |t.citations|]
    ensures HasDecisive(u, |t.rows|) <==> exists k | 0 <= k < |cs| :: cs[k].role == Decisive
  {
    if k :| 0 <= k < |cs| && cs[k].role == Decisive {
      assert u.citations[k + |t.citations|].citation == cs[k];
    }
    if HasDecisive(u, |t.rows|) {
      var k :| 0 <= k < |u.citations| && u.citations[k].assessment == |t.rows|
          && u.citations[k].citation.role == Decisive;
      assert forall j | 0 <= j < |t.citations| :: u.citations[j] == t.citations[j];
      assert cs[k - |t.citations|].role == Decisive;
    }
  }

  lemma {:induction false} RulesFound(corpora: Corpora, t: Tables, req: Request, n: nat)
    requires n <= |req.runs| && req.snapshot in corpora && Founded(t) && RulesRun(corpora, t, req, n).Ok?
    ensures Founded(RulesRun(corpora, t, req, n).value.0)
  {
    hide Founded, Persisted, ClauseRefs;
    if n != 0 {
      RulesFound(corpora, t, req, n - 1);
      var u, run := RulesRun(corpora, t, req, n - 1).value.0, req.runs[n - 1];
      if run.outcome.Fired? {
        PersistFounds(u, RuleAssessment(req, run), run.outcome.citations, ClauseRefs(corpora[req.snapshot], run.paths));
      }
    }
  }

  lemma {:induction false} StepFounds(corpora: Corpora, t: Tables, req: Request)
    requires req.snapshot in corpora && Founded(t)
    ensures Founded(Step(corpora, t, req))
  {
    hide Founded, Persisted, RulesRun, Validated, OfferedIds, Settled;
    if Assessed(corpora, t, req).Ok? {
      RulesFound(corpora, t, req, |req.runs|);
      var (u, decided) := RulesRun(corpora, t, req, |req.runs|).value;
      if !decided {
        var outcome := Validated(req.model.draft, req.model.offered, req.eventDate);
        ConclusiveIffDecisive(req.model.draft, req.model.offered, req.eventDate);
        PersistFounds(u, ModelAssessment(req, outcome.verdict), outcome.citations, ModelIds(req.model.offered));
      }
      SettledFounds(Written(corpora, t, req), req);
    }
  }

  lemma {:induction false} SettledFounds(t: Tables, req: Request)
    requires Founded(t)
    ensures Founded(Settled(t, req))
  {
    hide Recount;
    assert Settled(t, req).rows == t.rows && Settled(t, req).citations == t.citations;
    forall i: nat | i < |t.rows| ensures HasDecisive(Settled(t, req), i) <==> HasDecisive(t, i) { }
  }

  /** Over every run a model-path row is conclusive exactly when it has a decisive citation on file. */
  lemma {:induction false} RunFounded(corpora: Corpora, reqs: seq<Request>)
    requires forall r | r in reqs :: r.snapshot in corpora
    ensures Founded(Run(corpora, reqs))
  {
    hide Step;
    if reqs != [] {
      var before := reqs[..|reqs| - 1];
      assert forall r | r in before :: r in reqs;
      RunFounded(corpora, before);
      StepFounds(corpora, Run(corpora, before), reqs[|reqs| - 1]);
    }
  }

  /* ---------- the independent checker ---------- */

  datatype PersistedCheck = PersistedCheck(path: string, role: Role, inWindow: bool, hallucinated: bool)

  /** The outer join on the clause id. */
  function ById(table: seq<Clause>, id: nat): (r: Option<Clause>)
    ensures r.Some? ==> r.value in table && r.value.id == id
    ensures r.None? ==> forall c | c in table :: c.id != id
  {
    if table == [] then None else if table[0].id == id then Some(table[0]) else ById(table[1..], id)
  }

  function CheckOf(table: seq<Clause>, row: CitationRow, asOf: Date): PersistedCheck {
    match ById(table, row.clauseId)
    case None => PersistedCheck(row.citation.path, row.citation.role, false, true)
    case Some(c) =>
      PersistedCheck(row.citation.path, row.citation.role, InWindow(c.effectiveFrom, c.effectiveTo, asOf),
                     !IsLiteralSubstring(row.citation.excerpt, c.text))
  }

  /** The checks of the rows of the given assessments among the first n. */
  function ChecksOf(table: seq<Clause>, rows: seq<CitationRow>, ids: set<nat>, asOf: Date, n: nat): seq<PersistedCheck>
    requires n <= |rows|
  {
    if n == 0 then [] else
      ChecksOf(table, rows, ids, asOf, n - 1) + (if rows[n - 1].assessment in ids
          then [CheckOf(table, rows[n - 1], asOf)] else [])
  }

  method ResolveCitations(table: seq<Clause>, rows: seq<CitationRow>, ids: set<nat>,
      asOf: Date) returns (out: seq<PersistedCheck>)
    ensures out == ChecksOf(table, rows, ids, asOf, |rows|)
  {
    out := [];
    for n := 0 to |rows|
      invariant out == ChecksOf(table, rows, ids, asOf, n)
    {
      var row := rows[n];
      if row.assessment in ids {
        var clause := ById(table, row.clauseId);
        var missing := clause.None?;
        var excerptOk := !missing && IsLiteralSubstring(row.citation.excerpt, clause.value.text);
        var inWindow := !missing
                        && (clause.value.effectiveFrom.None? || clause.value.effectiveFrom.value <= asOf)
                        && (clause.value.effectiveTo.None? || clause.value.effectiveTo.value > asOf);
        out := out + [PersistedCheck(row.citation.path, row.citation.role, inWindow, missing || !excerptOk)];
      }
    }
  }

  /** The clause table holds the clauses of all snapshots. */
  ghost predicate TableOf(table: seq<Clause>, corpora: Corpora) {
    && (forall s, c | s in corpora && c in corpora[s] :: c in table)
    && (forall c | c in table :: exists s | s in corpora :: c in corpora[s])
  }

  lemma {:induction false} TableFinds(corpora: Corpora, table: seq<Clause>, s: nat, c: Clause)
    requires ValidCorpora(corpora) && TableOf(table, corpora) && s in corpora && c in corpora[s]
    ensures ById(table, c.id) == Some(c)
  {
    hide ById;
    var found := ById(table, c.id);
    var s' :| s' in corpora && found.value in corpora[s'];
    assert s == s';
    var i: nat :| i < |corpora[s]| && corpora[s][i] == c;
    var j: nat :| j < |corpora[s]| && corpora[s][j] == found.value;
    assert ValidSnapshot(corpora[s]);
  }

  /**
   The checker never flags a persisted citation as hallucinated, and finds every decisive or
   supporting one of the model path in force on the event date, reference hops included.
   */
  lemma {:induction false} NothingHallucinated(corpora: Corpora, reqs: seq<Request>, table: seq<Clause>, i: nat)
    requires ValidRun(corpora, reqs) && TableOf(table, corpora)
    requires i < |Run(corpora, reqs).citations|
    ensures var t := Run(corpora, reqs);
            var row := t.citations[i];
            && row.assessment < |t.rows|
            && var a := t.rows[row.assessment];
               var check := CheckOf(table, row, a.eventDate);
            && !check.hallucinated
            && (a.byModel && row.citation.role != ContextOnly ==> check.inWindow)
            && exists c :: ById(table, row.clauseId) == Some(c) && a.snapshot in corpora && c in corpora[a.snapshot]
                && c.path == row.citation.path
  {
    hide Run, ValidCorpora, TableOf, ValidRequest, IsLiteralSubstring, InWindow, Quotable, ById;
    RunBacked(corpora, reqs);
    var t := Run(corpora, reqs);
    var row := t.citations[i];
    var a := t.rows[row.assessment];
    var c :| c in corpora[a.snapshot] && Backed(row, a, c) && Governed(reqs, row, a, c);
    TableFinds(corpora, table, a.snapshot, c);
  }

  /** A fact's assessment fails only because a rule cites a clause the snapshot lacks, or the model call does. */
  lemma {:induction false} RulesFailIff(corpora: Corpora, t: Tables, req: Request, n: nat)
    requires n <= |req.runs| && req.snapshot in corpora
    ensures RulesRun(corpora, t, req, n).Ok? <==> forall k | 0 <= k < n ::
            Resolvable(corpora[req.snapshot], req.runs[k])
    ensures RulesRun(corpora, t, req, n).Ok? ==>
              (RulesRun(corpora, t, req, n).value.1 <==>
                 exists k | 0 <= k < n :: req.runs[k].outcome.Fired? && !req.runs[k].shadow)
  {
    hide Resolvable, Persisted, ClauseRefs;
    if n != 0 {
      RulesFailIff(corpora, t, req, n - 1);
      if RulesRun(corpora, t, req, n - 1).Ok? {
        RunResolves(corpora, RulesRun(corpora, t, req, n - 1).value.0, req, req.runs[n - 1]);
      }
    }
  }

  ghost predicate Resolvable(snapshot: Snapshot, run: RuleRun) {
    run.outcome.Fired? ==> forall c | c in run.outcome.citations :: c.path in run.paths && exists k | k in snapshot ::
        k.path == c.path
  }

  lemma {:induction false} RunResolves(corpora: Corpora, t: Tables, req: Request, run: RuleRun)
    requires req.snapshot in corpora
    ensures Resolvable(corpora[req.snapshot], run) <==>
              (run.outcome.Fired? ==>
                 Persisted(t, RuleAssessment(req, run), run.outcome.citations,
                     ClauseRefs(corpora[req.snapshot], run.paths)).Ok?)
  {
    hide CitationRows, Prior, ClauseRefs;
    if run.outcome.Fired? {
      var cs, ids := run.outcome.citations, ClauseRefs(corpora[req.snapshot], run.paths);
      CitationRowsAre(|t.rows|, cs, ids, |cs|);
      forall c | c in cs
        ensures c.path in ids <==> c.path in run.paths && exists k | k in corpora[req.snapshot] :: k.path == c.path
      {
        RefsResolve(corpora[req.snapshot], run.paths, c.path);
      }
    }
  }

  /** Exactly when a call is rolled back; for valid inputs no draft of the model can cause it. */
  lemma {:induction false} FailsIff(corpora: Corpora, t: Tables, req: Request)
    requires ValidCorpora(corpora) && ValidRequest(corpora, req)
    ensures Assessed(corpora, t, req).Err? <==>
              || (exists k | 0 <= k < |req.runs| :: !Resolvable(corpora[req.snapshot], req.runs[k]))
              || (req.model.Raises?
                  && forall k | 0 <= k < |req.runs| :: req.runs[k].outcome.Skipped? || req.runs[k].shadow)
  {
    hide Resolvable, Persisted, RulesRun, Validated, OfferedIds, Settled, ValidCorpora, OfferedFrom, Honest;
    RulesFailIff(corpora, t, req, |req.runs|);
    if req.model.Drafted? && RulesRun(corpora, t, req, |req.runs|).Ok? {
      ModelPathPersists(corpora, RulesRun(corpora, t, req, |req.runs|).value.0, req);
    }
  }
}
