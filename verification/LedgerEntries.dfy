/** What one successful call writes: which rows, what they hold, and which citations they carry. */
module LedgerEntries {
  import opened Results
  import opened CitationValidator
  import opened AssessmentLedger
  import opened LedgerProperties
  import opened LedgerCitations

  /** The runs that fired among the first n, in order. */
  function FiredRuns(runs: seq<RuleRun>, n: nat): (r: seq<RuleRun>)
    requires n <= |runs|
    ensures forall run | run in r :: run in runs && run.outcome.Fired?
  {
    if n == 0 then [] else FiredRuns(runs, n - 1) + (if runs[n - 1].outcome.Fired? then [runs[n - 1]] else [])
  }

  /** A rule that is no shadow rule fired: the model is not asked. */
  ghost predicate RealRuleFired(req: Request) {
    exists k | 0 <= k < |req.runs| :: req.runs[k].outcome.Fired? && !req.runs[k].shadow
  }

  /** The row belongs to this request. */
  predicate RowOfRequest(a: Assessment, req: Request) {
    a.loan == req.loan && a.whatif == req.whatif && a.eventDate == req.eventDate && a.snapshot == req.snapshot
  }

  /** The row records what this rule decided. */
  predicate RowOfRun(a: Assessment, req: Request, run: RuleRun) {
    && run.outcome.Fired? && RowOfRequest(a, req) && !a.byModel
    && a.check == run.check && a.verdict == run.outcome.verdict && a.shadow == run.shadow
    && a.severity == (if run.outcome.verdict == NoClauseFound then Informational else run.severity)
  }

  /** The row records what the model path decided for the field. */
  predicate RowOfModel(a: Assessment, req: Request, verdict: Verdict) {
    && RowOfRequest(a, req) && a.byModel && !a.shadow
    && a.check == "F:" + req.field && a.verdict == verdict
    && a.severity == (if verdict == NoClauseFound then Informational else req.stageSeverity)
  }

  /** The citations on file for a row, in order, among the first n citation rows. */
  function CitedBy(rows: seq<CitationRow>, id: nat, n: nat): seq<Citation>
    requires n <= |rows|
  {
    if n == 0 then [] else
      CitedBy(rows, id, n - 1) + (if rows[n - 1].assessment == id then [rows[n - 1].citation] else [])
  }

  ghost predicate Filed(t: Tables) { forall i | 0 <= i < |t.citations| :: t.citations[i].assessment < |t.rows| }

  /* ---------- one row ---------- */

  lemma {:induction false} CitedPrefix(a: seq<CitationRow>, b: seq<CitationRow>, id: nat, n: nat)
    requires n <= |a| && n <= |b| && forall i | 0 <= i < n :: a[i] == b[i]
    ensures CitedBy(a, id, n) == CitedBy(b, id, n)
  {
    if n != 0 { CitedPrefix(a, b, id, n - 1); }
  }

  lemma {:induction false} CitedNone(rows: seq<CitationRow>, id: nat, n: nat)
    requires n <= |rows| && forall i | 0 <= i < n :: rows[i].assessment != id
    ensures CitedBy(rows, id, n) == []
  {
    if n != 0 { CitedNone(rows, id, n - 1); }
  }

  /** Behind rows of other assessments, the citations of the new one follow in order. */
  lemma {:induction false} CitedTail(rows: seq<CitationRow>, base: nat, id: nat, cs: seq<Citation>, n: nat)
    requires base + n <= |rows| && n <= |cs|
    requires forall j | base <= j < base + n :: rows[j].assessment == id && rows[j].citation == cs[j - base]
    ensures CitedBy(rows, id, base + n) == CitedBy(rows, id, base) + cs[..n]
  {
    if n != 0 {
      CitedTail(rows, base, id, cs, n - 1);
      assert cs[..n] == cs[..n - 1] + [cs[n - 1]];
    } else {
      assert cs[..0] == [];
    }
  }

  lemma {:induction false} CitedOther(rows: seq<CitationRow>, base: nat, id: nat, n: nat)
    requires base + n <= |rows| && forall j | base <= j < base + n :: rows[j].assessment != id
    ensures CitedBy(rows, id, base + n) == CitedBy(rows, id, base)
  {
    if n != 0 { CitedOther(rows, base, id, n - 1); }
  }

  /** One row more, the citations given for it on file, and those of every older row as before. */
  ghost predicate OneMore(t: Tables, u: Tables, a: Assessment, cs: seq<Citation>) {
    && Extends(t, u) && Filed(u)
    && |u.rows| == |t.rows| + 1 && u.rows[|t.rows|] == a
    && CitedBy(u.citations, |t.rows|, |u.citations|) == cs
    && forall id: nat | id < |t.rows| ::
         CitedBy(u.citations, id, |u.citations|) == CitedBy(t.citations, id, |t.citations|)
  }

  /** What persisting does to the citation rows. */
  ghost predicate Appended(t: Tables, u: Tables, cs: seq<Citation>) {
    && |u.citations| == |t.citations| + |cs|
    && (forall i | 0 <= i < |t.citations| :: u.citations[i] == t.citations[i])
    && forall j | |t.citations| <= j < |u.citations| ::
         u.citations[j].assessment == |t.rows| && u.citations[j].citation == cs[j - |t.citations|]
  }

  lemma {:induction false} PersistAppends(t: Tables, a: Assessment, cs: seq<Citation>, ids: map<string, nat>)
    requires Persisted(t, a, cs, ids).Ok?
    ensures Appended(t, Persisted(t, a, cs, ids).value, cs)
  {
    hide CitationRows, Prior, Supersede;
    CitationRowsAre(|t.rows|, cs, ids, |cs|);
  }

  lemma {:induction false} NewOnFile(t: Tables, u: Tables, cs: seq<Citation>)
    requires Filed(t) && Appended(t, u, cs)
    ensures CitedBy(u.citations, |t.rows|, |u.citations|) == cs
  {
    hide CitedBy;
    var base, id := |t.citations|, |t.rows|;
    CitedTail(u.citations, base, id, cs, |cs|);
    CitedNone(u.citations, id, base);
    assert cs[..|cs|] == cs && [] + cs == cs;
  }

  lemma {:induction false} OldOnFile(t: Tables, u: Tables, cs: seq<Citation>, id: nat)
    requires Appended(t, u, cs) && id < |t.rows|
    ensures CitedBy(u.citations, id, |u.citations|) == CitedBy(t.citations, id, |t.citations|)
  {
    hide CitedBy;
    CitedOther(u.citations, |t.citations|, id, |cs|);
    CitedPrefix(u.citations, t.citations, id, |t.citations|);
  }

  lemma {:induction false} AllFiled(t: Tables, u: Tables, cs: seq<Citation>)
    requires Filed(t) && Appended(t, u, cs) && |u.rows| == |t.rows| + 1
    ensures Filed(u)
  {
  }

  lemma {:induction false} PersistOneMore(t: Tables, a: Assessment, cs: seq<Citation>, ids: map<string, nat>)
    requires Filed(t) && Persisted(t, a, cs, ids).Ok?
    ensures OneMore(t, Persisted(t, a, cs, ids).value, a, cs)
  {
    hide Persisted, CitedBy, Extends, Appended, Filed;
    var u := Persisted(t, a, cs, ids).value;
    PersistExtends(t, a, cs, ids);
    PersistAppends(t, a, cs, ids);
    NewOnFile(t, u, cs);
    AllFiled(t, u, cs);
    forall id: nat | id < |t.rows|
      ensures CitedBy(u.citations, id, |u.citations|) == CitedBy(t.citations, id, |t.citations|)
    {
      OldOnFile(t, u, cs, id);
    }
  }

  /* ---------- the rules ---------- */

  /** The rows from `from` on are those of the runs, each with its citations on file. */
  ghost predicate RowsOfRuns(u: Tables, from: nat, req: Request, fired: seq<RuleRun>) {
    from + |fired| <= |u.rows| && forall i: nat | i < |fired| :: RunOnFile(u, from + i, req, fired[i])
  }

  ghost predicate RunOnFile(u: Tables, id: nat, req: Request, run: RuleRun)
    requires id < |u.rows|
  {
    RowOfRun(u.rows[id], req, run) && CitedBy(u.citations, id, |u.citations|) == run.outcome.citations
  }

  lemma {:induction false} RunStaysOnFile(t: Tables, u: Tables, a: Assessment, cs: seq<Citation>, id: nat, req: Request,
                                          run: RuleRun)
    requires OneMore(t, u, a, cs) && id < |t.rows| && RunOnFile(t, id, req, run)
    ensures RunOnFile(u, id, req, run)
  {
    hide CitedBy;
    assert u.rows[id] == t.rows[id].(supersededBy := u.rows[id].supersededBy);
  }

  lemma {:induction false} RunsStayOnFile(t: Tables, u: Tables, a: Assessment, cs: seq<Citation>, from: nat,
      req: Request,
                                          fired: seq<RuleRun>)
    requires OneMore(t, u, a, cs) && RowsOfRuns(t, from, req, fired)
    ensures RowsOfRuns(u, from, req, fired)
  {
    hide RunOnFile, CitedBy, Extends, Filed;
    forall i: nat | i < |fired|
      ensures RunOnFile(u, from + i, req, fired[i])
    {
      RunStaysOnFile(t, u, a, cs, from + i, req, fired[i]);
    }
  }

  lemma {:induction false} RuleRowIs(req: Request, run: RuleRun)
    requires run.outcome.Fired?
    ensures RowOfRun(RuleAssessment(req, run), req, run)
  {
  }

  lemma {:induction false} ModelRowIs(req: Request, verdict: Verdict)
    ensures RowOfModel(ModelAssessment(req, verdict), req, verdict)
  {
  }

  ghost predicate RulesWritten(t: Tables, u: Tables, req: Request, fired: seq<RuleRun>) {
    && |u.rows| == |t.rows| + |fired| && Extends(t, u) && Filed(u) && RowsOfRuns(u, |t.rows|, req, fired)
    && forall id: nat | id < |t.rows| ::
         CitedBy(u.citations, id, |u.citations|) == CitedBy(t.citations, id, |t.citations|)
  }

  lemma {:induction false} NoRunWritten(t: Tables, req: Request)
    requires Filed(t)
    ensures RulesWritten(t, t, req, [])
  {
    ExtendsSelf(t, req);
  }

  lemma {:induction false} OneRunWritten(t: Tables, u: Tables, w: Tables, req: Request, fired: seq<RuleRun>,
      run: RuleRun,
                                         a: Assessment)
    requires RulesWritten(t, u, req, fired) && run.outcome.Fired? && RowOfRun(a, req, run)
    requires OneMore(u, w, a, run.outcome.citations)
    ensures RulesWritten(t, w, req, fired + [run])
  {
    hide CitedBy, Extends, Filed, RowOfRun;
    ExtendsTransitive(t, u, w);
    RunsStayOnFile(u, w, a, run.outcome.citations, |t.rows|, req, fired);
    forall i: nat | i < |fired + [run]|
      ensures RunOnFile(w, |t.rows| + i, req, (fired + [run])[i])
    {
      if i < |fired| { assert RunOnFile(w, |t.rows| + i, req, fired[i]); }
    }
  }

  lemma {:induction false} RulesWrite(corpora: Corpora, t: Tables, req: Request, n: nat)
    requires n <= |req.runs| && req.snapshot in corpora && Filed(t) && RulesRun(corpora, t, req, n).Ok?
    ensures RulesWritten(t, RulesRun(corpora, t, req, n).value.0, req, FiredRuns(req.runs, n))
  {
    hide RulesWritten, Persisted, ClauseRefs, Filed;
    if n == 0 {
      NoRunWritten(t, req);
    } else {
      RulesWrite(corpora, t, req, n - 1);
      var u, run := RulesRun(corpora, t, req, n - 1).value.0, req.runs[n - 1];
      if run.outcome.Fired? {
        var a, cs, ids := RuleAssessment(req, run), run.outcome.citations, ClauseRefs(corpora[req.snapshot], run.paths);
        StillFiled(t, u, req, FiredRuns(req.runs, n - 1));
        PersistOneMore(u, a, cs, ids);
        RuleRowIs(req, run);
        OneRunWritten(t, u, Persisted(u, a, cs, ids).value, req, FiredRuns(req.runs, n - 1), run, a);
      } else {
        assert FiredRuns(req.runs, n) == FiredRuns(req.runs, n - 1);
      }
    }
  }

  lemma {:induction false} StillFiled(t: Tables, u: Tables, req: Request, fired: seq<RuleRun>)
    requires RulesWritten(t, u, req, fired)
    ensures Filed(u) && |u.rows| == |t.rows| + |fired|
  {
  }

  /* ---------- the whole call ---------- */

  /** The model row follows the rule rows, with the verdict and the citations the validator let through. */
  ghost predicate ModelOnFile(u: Tables, id: nat, req: Request) {
    && id < |u.rows| && req.model.Drafted?
    && var outcome := Validated(req.model.draft, req.model.offered, req.eventDate);
    && RowOfModel(u.rows[id], req, outcome.verdict)
    && CitedBy(u.citations, id, |u.citations|) == outcome.citations
  }

  /**
   A successful call appends one row for every run that fired, in order, and one for the model
   path exactly when no real rule fired; each holds what was decided and has its citations on
   file in order. Older rows keep theirs.
   */
  lemma {:induction false} CallWrites(corpora: Corpora, t: Tables, req: Request)
    requires req.snapshot in corpora && Filed(t) && Assessed(corpora, t, req).Ok?
    ensures var u, fired := Assessed(corpora, t, req).value, FiredRuns(req.runs, |req.runs|);
            && |u.rows| == |t.rows| + |fired| + (if RealRuleFired(req) then 0 else 1)
            && RowsOfRuns(u, |t.rows|, req, fired)
            && (!RealRuleFired(req) ==> ModelOnFile(u, |t.rows| + |fired|, req))
            && Extends(t, u) && Filed(u)
            && forall id: nat | id < |t.rows| ::
                 CitedBy(u.citations, id, |u.citations|) == CitedBy(t.citations, id, |t.citations|)
  {
    hide Persisted, RulesRun, Validated, OfferedIds, Settled, CitedBy, Extends, RowsOfRuns, RulesWritten, FiredRuns,
         Filed;
    var fired := FiredRuns(req.runs, |req.runs|);
    RulesWrite(corpora, t, req, |req.runs|);
    RulesFailIff(corpora, t, req, |req.runs|);
    var (u, decided) := RulesRun(corpora, t, req, |req.runs|).value;
    StillFiled(t, u, req, fired);
    assert decided <==> RealRuleFired(req);
    if decided {
      SettledWrites(t, u, req, fired);
    } else {
      ModelWrites(corpora, t, u, req, fired);
    }
  }

  lemma {:induction false} SettledWrites(t: Tables, u: Tables, req: Request, fired: seq<RuleRun>)
    requires RulesWritten(t, u, req, fired)
    ensures RulesWritten(t, Settled(u, req), req, fired)
    ensures var w := Settled(u, req);
            && w.rows == u.rows && w.citations == u.citations && RowsOfRuns(w, |t.rows|, req, fired)
            && Extends(t, w) && Filed(w)
            && forall id: nat | id < |t.rows| ::
                 CitedBy(w.citations, id, |w.citations|) == CitedBy(t.citations, id, |t.citations|)
  {
    hide CitedBy, Recount, RowOfRun;
    var w := Settled(u, req);
    assert w.rows == u.rows && w.citations == u.citations;
    forall i: nat | i < |fired|
      ensures RunOnFile(w, |t.rows| + i, req, fired[i])
    {
      assert RunOnFile(u, |t.rows| + i, req, fired[i]);
    }
  }

  lemma {:induction false} ModelWrites(corpora: Corpora, t: Tables, u: Tables, req: Request, fired: seq<RuleRun>)
    requires req.snapshot in corpora && Assessed(corpora, t, req).Ok? && RulesWritten(t, u, req, fired)
    requires RulesRun(corpora, t, req, |req.runs|) == Ok((u, false))
    ensures var w := Assessed(corpora, t, req).value;
            && |w.rows| == |t.rows| + |fired| + 1 && RowsOfRuns(w, |t.rows|, req, fired)
            && ModelOnFile(w, |t.rows| + |fired|, req) && Extends(t, w) && Filed(w)
            && forall id: nat | id < |t.rows| ::
                 CitedBy(w.citations, id, |w.citations|) == CitedBy(t.citations, id, |t.citations|)
  {
    hide Persisted, RulesRun, Validated, OfferedIds, Recount, CitedBy, Extends, RunOnFile, RowOfModel, Filed;
    StillFiled(t, u, req, fired);
    var outcome := Validated(req.model.draft, req.model.offered, req.eventDate);
    var all := req.model.offered.candidates + req.model.offered.contextOnly;
    var a, ids := ModelAssessment(req, outcome.verdict), OfferedIds(all, |all|);
    var x := Persisted(u, a, outcome.citations, ids).value;
    PersistOneMore(u, a, outcome.citations, ids);
    ModelRowIs(req, outcome.verdict);
    RunsStayOnFile(u, x, a, outcome.citations, |t.rows|, req, fired);
    ExtendsTransitive(t, u, x);
    var w := Settled(x, req);
    SameRows(t, x, w, |t.rows|, req, fired);
  }

  lemma {:induction false} SameRows(t: Tables, x: Tables, w: Tables, from: nat, req: Request, fired: seq<RuleRun>)
    requires w.rows == x.rows && w.citations == x.citations
    requires Extends(t, x) && Filed(x) && RowsOfRuns(x, from, req, fired)
    ensures Extends(t, w) && Filed(w) && RowsOfRuns(w, from, req, fired)
  {
    hide CitedBy, RowOfRun;
    forall i: nat | i < |fired|
      ensures RunOnFile(w, from + i, req, fired[i])
    {
      assert RunOnFile(x, from + i, req, fired[i]);
    }
  }

  /** The one demand on the ledger before the call holds after every run. */
  lemma {:induction false} RunFiled(corpora: Corpora, reqs: seq<Request>)
    requires forall r | r in reqs :: r.snapshot in corpora
    ensures Filed(Run(corpora, reqs))
  {
    hide Run, HasDecisive;
    RunFounded(corpora, reqs);
  }
}
