/** What holds of the ledger after every serial run of assessments, for every model output. */
module LedgerProperties {
  import opened Results
  import opened CitationValidator
  import opened AssessmentLedger

  /* ---------- the supersession chain ---------- */

  predicate SameCheck(a: Assessment, b: Assessment) { a.loan == b.loan && a.check == b.check && !a.whatif && !b.whatif }

  /** The first later assessment of the same check, among the first n rows. */
  function Next(rows: seq<Assessment>, i: nat, n: nat): Option<nat>
    requires i < |rows| && n <= |rows|
  {
    if n <= i + 1 then None else
    match Next(rows, i, n - 1)
    case Some(j) => Some(j)
    case None => if SameCheck(rows[i], rows[n - 1]) then Some(n - 1) else None
  }

  /**
   Each real assessment is superseded by the next one of its check and by nothing else; so
   per check the real rows form one forward chain. What-if rows stand apart.
   */
  ghost predicate Chained(rows: seq<Assessment>) {
    forall i | 0 <= i < |rows| :: rows[i].supersededBy == Next(rows, i, |rows|)
  }

  lemma {:induction false} NextIs(rows: seq<Assessment>, i: nat, n: nat)
    requires i < |rows| && n <= |rows|
    ensures var j := Next(rows, i, n);
            && (j.Some? ==> i < j.value < n && SameCheck(rows[i], rows[j.value]))
            && (j.Some? ==> forall k | i < k < j.value :: !SameCheck(rows[i], rows[k]))
            && (j.None? ==> forall k | i < k < n :: !SameCheck(rows[i], rows[k]))
  {
    hide SameCheck;
    if n > i + 1 { NextIs(rows, i, n - 1); }
  }

  predicate SameSubject(a: Assessment, b: Assessment) { a.loan == b.loan && a.check == b.check && a.whatif == b.whatif }

  lemma {:induction false} NextSame(a: seq<Assessment>, b: seq<Assessment>, i: nat, n: nat)
    requires i < |a| && n <= |a| && n <= |b| && i < |b|
    requires forall k | 0 <= k < n || k == i :: SameSubject(a[k], b[k])
    ensures Next(a, i, n) == Next(b, i, n)
  {
    if n > i + 1 { NextSame(a, b, i, n - 1); }
  }

  /** Of all real rows of a check exactly the last is open. */
  lemma {:induction false} OpenIffLast(rows: seq<Assessment>, i: nat)
    requires Chained(rows) && i < |rows| && !rows[i].whatif
    ensures rows[i].IsOpen() <==> forall k | i < k < |rows| :: !SameCheck(rows[i], rows[k])
  {
    hide Next;
    NextIs(rows, i, |rows|);
  }

  /** So the lookup of the open assessment has at most one row to choose from. */
  lemma {:induction false} OpenUnique(rows: seq<Assessment>, i: nat, j: nat)
    requires Chained(rows) && i < |rows| && j < |rows| && SameCheck(rows[i], rows[j])
    requires rows[i].IsOpen() && rows[j].IsOpen()
    ensures i == j
  {
    OpenIffLast(rows, i);
    OpenIffLast(rows, j);
  }

  lemma {:induction false} ChainGrows(t: Tables, a: Assessment, cs: seq<Citation>, ids: map<string, nat>)
    requires Chained(t.rows) && a.supersededBy.None? && Persisted(t, a, cs, ids).Ok?
    ensures Chained(Persisted(t, a, cs, ids).value.rows)
  {
    hide Next, CitationRows, Prior;
    var rows, rows' := t.rows, Persisted(t, a, cs, ids).value.rows;
    var n := |rows|;
    PriorInside(rows, a.loan, a.check, n);
    var prior := Prior(rows, a.loan, a.check, n);
    forall i | 0 <= i < |rows'|
      ensures rows'[i].supersededBy == Next(rows', i, n + 1)
    {
      NextUnfold(rows', i, n + 1);
      if i < n {
        assert SameSubject(rows[i], rows'[i]);
        NextSame(rows, rows', i, n);
        OpenLast(rows, prior, a, i);
      }
    }
  }

  lemma {:induction false} NextUnfold(rows: seq<Assessment>, i: nat, n: nat)
    requires i < |rows| && 0 < n <= |rows|
    ensures Next(rows, i, n) ==
              if n <= i + 1 then None
              else if Next(rows, i, n - 1).Some? then Next(rows, i, n - 1)
              else if SameCheck(rows[i], rows[n - 1]) then Some(n - 1) else None
  {
  }

  /** The row that the lookup finds is the only one the new row follows directly. */
  lemma {:induction false} OpenLast(rows: seq<Assessment>, prior: Option<nat>, a: Assessment, i: nat)
    requires Chained(rows) && i < |rows|
    requires prior == Prior(rows, a.loan, a.check, |rows|)
    ensures prior.Some? ==> prior.value < |rows|
    ensures !a.whatif && SameCheck(rows[i], a) && Next(rows, i, |rows|).None? <==> !a.whatif && prior == Some(i)
  {
    hide Next, Prior;
    PriorInside(rows, a.loan, a.check, |rows|);
    if prior.Some? && !a.whatif && SameCheck(rows[i], a) && Next(rows, i, |rows|).None? {
      OpenUnique(rows, i, prior.value);
    }
  }

  /* ---------- counting open checks ---------- */

  function OpenRows(rows: seq<Assessment>, loan: nat, shadow: bool, n: nat): nat
    requires n <= |rows|
  {
    if n == 0 then 0 else
      OpenRows(rows, loan, shadow, n - 1)
      + (if rows[n - 1].loan == loan && rows[n - 1].IsOpen() && rows[n - 1].shadow == shadow then 1 else 0)
  }

  function ChecksUpTo(rows: seq<Assessment>, loan: nat, n: nat): set<string>
    requires n <= |rows|
  {
    set i | 0 <= i < n && rows[i].loan == loan && rows[i].IsOpen() :: rows[i].check
  }

  lemma {:induction false} ChecksSnoc(rows: seq<Assessment>, loan: nat, n: nat)
    requires 0 < n <= |rows|
    ensures var r, before := rows[n - 1], ChecksUpTo(rows, loan, n - 1);
            ChecksUpTo(rows, loan, n) == if r.loan == loan && r.IsOpen() then before + {r.check} else before
  {
  }

  /** A second open row of a check would break the chain. */
  lemma {:induction false} CheckIsNew(rows: seq<Assessment>, loan: nat, n: nat)
    requires Chained(rows) && n < |rows| && rows[n].loan == loan && rows[n].IsOpen()
    ensures rows[n].check !in ChecksUpTo(rows, loan, n)
  {
    hide Chained;
    if rows[n].check in ChecksUpTo(rows, loan, n) {
      var i :| 0 <= i < n && rows[i].loan == loan && rows[i].IsOpen() && rows[i].check == rows[n].check;
      OpenUnique(rows, i, n);
    }
  }

  lemma {:induction false} DistinctChecks(rows: seq<Assessment>, loan: nat, n: nat)
    requires Chained(rows) && n <= |rows|
    ensures |ChecksUpTo(rows, loan, n)| == OpenRows(rows, loan, false, n) + OpenRows(rows, loan, true, n)
  {
    hide Chained, ChecksUpTo;
    if n != 0 {
      DistinctChecks(rows, loan, n - 1);
      ChecksSnoc(rows, loan, n);
      if rows[n - 1].loan == loan && rows[n - 1].IsOpen() { CheckIsNew(rows, loan, n - 1); }
    } else {
      NoChecks(rows, loan);
    }
  }

  lemma {:induction false} NoChecks(rows: seq<Assessment>, loan: nat)
    ensures ChecksUpTo(rows, loan, 0) == {}
  {
  }

  /** Counting distinct open checks is counting open rows, shadow and real ones together. */
  lemma {:induction false} ChecksRunIsOpenRows(rows: seq<Assessment>, loan: nat)
    requires Chained(rows)
    ensures |OpenChecks(rows, loan)| == OpenRows(rows, loan, false, |rows|) + OpenRows(rows, loan, true, |rows|)
  {
    DistinctChecks(rows, loan, |rows|);
    var all := ChecksUpTo(rows, loan, |rows|);
    forall c | c in OpenChecks(rows, loan)
      ensures c in all
    {
      var r :| r in rows && r.loan == loan && r.IsOpen() && r.check == c;
      var i :| 0 <= i < |rows| && rows[i] == r;
    }
    forall c | c in all
      ensures c in OpenChecks(rows, loan)
    {
      var i :| 0 <= i < |rows| && rows[i].loan == loan && rows[i].IsOpen() && rows[i].check == c;
      assert rows[i] in rows;
    }
    assert OpenChecks(rows, loan) == all;
  }

  /** Every open real row is counted under exactly one verdict. */
  lemma {:induction false} OpenRowsByVerdict(rows: seq<Assessment>, loan: nat, n: nat)
    requires n <= |rows|
    ensures OpenRows(rows, loan, false, n) ==
              CountVerdict(rows, loan, Violation, n) + CountVerdict(rows, loan, Ambiguous, n)
              + CountVerdict(rows, loan, NoClauseFound, n) + CountVerdict(rows, loan, Compliant, n)
  {
    if n != 0 { OpenRowsByVerdict(rows, loan, n - 1); }
  }

  /* ---------- what one assessment leaves alone ---------- */

  predicate SameFor(loan: nat, a: Assessment, b: Assessment) { a == b || (a.loan != loan && b.loan != loan) }

  lemma {:induction false} CountsKeep(a: seq<Assessment>, b: seq<Assessment>, loan: nat, v: Verdict, n: nat)
    requires n <= |a| && n <= |b| && forall i | 0 <= i < n :: SameFor(loan, a[i], b[i])
    ensures CountVerdict(a, loan, v, n) == CountVerdict(b, loan, v, n)
    ensures Highest(a, loan, n) == Highest(b, loan, n)
  {
    if n != 0 { CountsKeep(a, b, loan, v, n - 1); }
  }

  lemma {:induction false} OpenChecksKeep(a: seq<Assessment>, b: seq<Assessment>, loan: nat)
    requires |b| == |a| + 1 && forall i | 0 <= i < |a| :: SameFor(loan, a[i], b[i])
    requires !(b[|a|].loan == loan && b[|a|].IsOpen())
    ensures OpenChecks(a, loan) == OpenChecks(b, loan)
  {
    forall c | c in OpenChecks(a, loan)
      ensures c in OpenChecks(b, loan)
    {
      var i: nat :| i < |a| && a[i].loan == loan && a[i].IsOpen() && a[i].check == c;
      assert SameFor(loan, a[i], b[i]);
      assert b[i] in b;
    }
    forall c | c in OpenChecks(b, loan)
      ensures c in OpenChecks(a, loan)
    {
      var i: nat :| i < |b| && b[i].loan == loan && b[i].IsOpen() && b[i].check == c;
      assert SameFor(loan, a[i], b[i]);
      assert a[i] in a;
    }
  }

  /** A row for another loan, or a what-if row, leaves the recount of this loan alone. */
  lemma {:induction false} RecountKeeps(t: Tables, a: Assessment, cs: seq<Citation>, ids: map<string, nat>, loan: nat,
      conflicts: nat, version: nat)
    requires Persisted(t, a, cs, ids).Ok? && (a.whatif || a.loan != loan)
    ensures Recount(Persisted(t, a, cs, ids).value.rows, loan, conflicts, version)
            == Recount(t.rows, loan, conflicts, version)
  {
    hide CitationRows, Prior, CountVerdict, Highest, OpenChecks;
    var rows, rows' := t.rows, Persisted(t, a, cs, ids).value.rows;
    var n := |rows|;
    PriorInside(rows, a.loan, a.check, n);
    assert forall i | 0 <= i < n :: SameFor(loan, rows[i], rows'[i]);
    assert rows'[n] == a;
    OpenChecksKeep(rows, rows', loan);
    CountSnoc(rows', loan, Violation, n + 1);
    CountSnoc(rows', loan, Ambiguous, n + 1);
    CountSnoc(rows', loan, NoClauseFound, n + 1);
    CountsKeep(rows, rows', loan, Violation, n);
    CountsKeep(rows, rows', loan, Ambiguous, n);
    CountsKeep(rows, rows', loan, NoClauseFound, n);
  }

  lemma {:induction false} CountSnoc(rows: seq<Assessment>, loan: nat, v: Verdict, n: nat)
    requires 0 < n <= |rows| && !Counted(rows[n - 1], loan)
    ensures CountVerdict(rows, loan, v, n) == CountVerdict(rows, loan, v, n - 1)
    ensures Highest(rows, loan, n) == Highest(rows, loan, n - 1)
  {
  }

  /* ---------- a whole call, and a whole run ---------- */

  /** What holds of the ledger between calls. */
  ghost predicate Settling(t: Tables) {
    forall loan | loan in t.states ::
        t.states[loan] == Recount(t.rows, loan, t.states[loan].conflicts, t.states[loan].version)
  }

  /** Rows are only ever appended; a superseded mark is the only thing that changes on an old one. */
  ghost predicate Extends(t: Tables, u: Tables) {
    && |t.rows| <= |u.rows| && t.citations <= u.citations
    && forall i | 0 <= i < |t.rows| ::
         && u.rows[i] == t.rows[i].(supersededBy := u.rows[i].supersededBy)
         && (t.rows[i].supersededBy.Some? || t.rows[i].whatif ==> u.rows[i] == t.rows[i])
  }

  ghost predicate OthersKept(t: Tables, u: Tables, req: Request) {
    forall loan: nat, conflicts: nat, version: nat | req.whatif || loan != req.loan ::
      Recount(u.rows, loan, conflicts, version) == Recount(t.rows, loan, conflicts, version)
  }

  lemma {:induction false} PersistKeeps(t: Tables, a: Assessment, cs: seq<Citation>, ids: map<string, nat>,
      req: Request)
    requires Chained(t.rows) && Persisted(t, a, cs, ids).Ok?
    requires a.supersededBy.None? && a.loan == req.loan && a.whatif == req.whatif
    ensures var u := Persisted(t, a, cs, ids).value;
            Chained(u.rows) && Extends(t, u) && OthersKept(t, u, req) && u.states == t.states
  {
    hide Chained, Recount;
    ChainGrows(t, a, cs, ids);
    PersistExtends(t, a, cs, ids);
    forall loan: nat, conflicts: nat, version: nat | req.whatif || loan != req.loan
      ensures Recount(Persisted(t, a, cs, ids).value.rows, loan, conflicts, version)
              == Recount(t.rows, loan, conflicts, version)
    {
      RecountKeeps(t, a, cs, ids, loan, conflicts, version);
    }
  }

  lemma {:induction false} PersistExtends(t: Tables, a: Assessment, cs: seq<Citation>, ids: map<string, nat>)
    requires Persisted(t, a, cs, ids).Ok?
    ensures var u := Persisted(t, a, cs, ids).value;
            Extends(t, u) && |u.rows| == |t.rows| + 1 && u.rows[|t.rows|] == a
  {
    hide CitationRows, Prior;
    PriorInside(t.rows, a.loan, a.check, |t.rows|);
  }

  lemma {:induction false} ExtendsTransitive(t: Tables, u: Tables, w: Tables)
    requires Extends(t, u) && Extends(u, w)
    ensures Extends(t, w)
  {
  }

  lemma {:induction false} OthersTransitive(t: Tables, u: Tables, w: Tables, req: Request)
    requires OthersKept(t, u, req) && OthersKept(u, w, req)
    ensures OthersKept(t, w, req)
  {
    hide Recount;
  }

  lemma {:induction false} RulesKeep(corpora: Corpora, t: Tables, req: Request, n: nat)
    requires n <= |req.runs| && req.snapshot in corpora && Chained(t.rows)
    requires RulesRun(corpora, t, req, n).Ok?
    ensures var u := RulesRun(corpora, t, req, n).value.0;
            Chained(u.rows) && Extends(t, u) && OthersKept(t, u, req) && u.states == t.states
  {
    hide Chained, Extends, OthersKept, Persisted, ClauseRefs;
    if n == 0 {
      ExtendsSelf(t, req);
    } else {
      RulesKeep(corpora, t, req, n - 1);
      var u, run := RulesRun(corpora, t, req, n - 1).value.0, req.runs[n - 1];
      if run.outcome.Fired? {
        var a, ids := RuleAssessment(req, run), ClauseRefs(corpora[req.snapshot], run.paths);
        PersistKeeps(u, a, run.outcome.citations, ids, req);
        var w := Persisted(u, a, run.outcome.citations, ids).value;
        ExtendsTransitive(t, u, w);
        OthersTransitive(t, u, w, req);
      }
    }
  }

  lemma {:induction false} ExtendsSelf(t: Tables, req: Request)
    ensures Extends(t, t) && OthersKept(t, t, req)
  {
    hide Recount;
  }

  /** The tables a successful call wrote before the compliance row was refreshed. */
  function Written(corpora: Corpora, t: Tables, req: Request): (w: Tables)
    requires req.snapshot in corpora && Assessed(corpora, t, req).Ok?
    ensures Assessed(corpora, t, req).value == Settled(w, req)
  {
    var (u, decided) := RulesRun(corpora, t, req, |req.runs|).value;
    if decided then u else
      var outcome := Validated(req.model.draft, req.model.offered, req.eventDate);
      var all := req.model.offered.candidates + req.model.offered.contextOnly;
      Persisted(u, ModelAssessment(req, outcome.verdict), outcome.citations, OfferedIds(all, |all|)).value
  }

  lemma {:induction false} WrittenKeeps(corpora: Corpora, t: Tables, req: Request)
    requires req.snapshot in corpora && Chained(t.rows) && Assessed(corpora, t, req).Ok?
    ensures var u := Written(corpora, t, req);
            Chained(u.rows) && Extends(t, u) && OthersKept(t, u, req) && u.states == t.states
  {
    hide Chained, Extends, OthersKept, Persisted, RulesRun, Validated, OfferedIds, Settled;
    RulesKeep(corpora, t, req, |req.runs|);
    var (u, decided) := RulesRun(corpora, t, req, |req.runs|).value;
    if !decided {
      var outcome := Validated(req.model.draft, req.model.offered, req.eventDate);
      var all := req.model.offered.candidates + req.model.offered.contextOnly;
      var a, ids := ModelAssessment(req, outcome.verdict), OfferedIds(all, |all|);
      PersistKeeps(u, a, outcome.citations, ids, req);
      var w := Persisted(u, a, outcome.citations, ids).value;
      ExtendsTransitive(t, u, w);
      OthersTransitive(t, u, w, req);
    }
  }

  /**
   One call, whatever the rules and the model said: the chain survives, old rows are only
   marked superseded, other loans keep row and recount, and a what-if call leaves both of
   every loan alone; a real call that succeeds leaves a fresh recount for its loan.
   */
  lemma {:induction false} StepKeeps(corpora: Corpora, t: Tables, req: Request)
    requires req.snapshot in corpora && Chained(t.rows)
    ensures var u := Step(corpora, t, req);
            && Chained(u.rows) && Extends(t, u) && OthersKept(t, u, req)
            && (req.whatif ==> u.states == t.states)
            && (forall loan | loan != req.loan :: (loan in u.states <==> loan in t.states)
                                               && (loan in t.states ==> u.states[loan] == t.states[loan]))
            && (Assessed(corpora, t, req).Ok? && !req.whatif ==>
                  && req.loan in u.states
                  && u.states[req.loan] == Recount(u.rows, req.loan, req.openConflicts, u.states[req.loan].version)
                  && u.states[req.loan].version == (if req.loan in t.states then t.states[req.loan].version + 1 else 1))
            && (Assessed(corpora, t, req).Err? ==> u == t)
  {
    hide Chained, Extends, OthersKept, Assessed, Written;
    if Assessed(corpora, t, req).Ok? {
      WrittenKeeps(corpora, t, req);
      var w := Written(corpora, t, req);
      SettledKeeps(t, w, req);
    } else {
      ExtendsSelf(t, req);
    }
  }

  lemma {:induction false} SettledKeeps(t: Tables, w: Tables, req: Request)
    requires Chained(w.rows) && Extends(t, w) && OthersKept(t, w, req)
    ensures var u := Settled(w, req);
            Chained(u.rows) && Extends(t, u) && OthersKept(t, u, req) && u.rows == w.rows
  {
    hide Recount, Next;
  }

  lemma {:induction false} StepSettles(corpora: Corpora, t: Tables, req: Request)
    requires req.snapshot in corpora && Chained(t.rows) && Settling(t)
    ensures Settling(Step(corpora, t, req))
  {
    hide Chained, Extends, Recount, Step, Assessed;
    StepKeeps(corpora, t, req);
    var u := Step(corpora, t, req);
    forall loan | loan in u.states
      ensures u.states[loan] == Recount(u.rows, loan, u.states[loan].conflicts, u.states[loan].version)
    {
      if loan == req.loan && !req.whatif && Assessed(corpora, t, req).Ok? {
        RecountConflicts(u.rows, loan, req.openConflicts, u.states[loan].version);
      } else {
        assert u.states[loan] == t.states[loan];
      }
    }
  }

  lemma {:induction false} RecountConflicts(rows: seq<Assessment>, loan: nat, conflicts: nat, version: nat)
    ensures Recount(rows, loan, conflicts, version).conflicts == conflicts
  {
  }

  /** Over every serial run: one forward chain per check, and no stale compliance row. */
  lemma {:induction false} RunSettled(corpora: Corpora, reqs: seq<Request>)
    requires forall r | r in reqs :: r.snapshot in corpora
    ensures Chained(Run(corpora, reqs).rows) && Settling(Run(corpora, reqs))
  {
    hide Step, Recount, Settling;
    if reqs == [] {
      EmptySettled();
    } else {
      var before, req := reqs[..|reqs| - 1], reqs[|reqs| - 1];
      assert forall r | r in before :: r in reqs;
      RunSettled(corpora, before);
      StepKeeps(corpora, Run(corpora, before), req);
      StepSettles(corpora, Run(corpora, before), req);
    }
  }

  lemma {:induction false} EmptySettled()
    ensures Chained([]) && Settling(Tables([], [], map[]))
  {
  }

  /**
   The compliance row of any loan after any run: each verdict count exact, the severity a
   maximum over the counted rows, and the number of checks the number of open rows.
   */
  lemma {:induction false} ComplianceRowExact(corpora: Corpora, reqs: seq<Request>, loan: nat)
    requires forall r | r in reqs :: r.snapshot in corpora
    requires loan in Run(corpora, reqs).states
    ensures var t := Run(corpora, reqs);
            var row, n := t.states[loan], |t.rows|;
            && row.violations == CountVerdict(t.rows, loan, Violation, n)
            && row.ambiguous == CountVerdict(t.rows, loan, Ambiguous, n)
            && row.noClause == CountVerdict(t.rows, loan, NoClauseFound, n)
            && row.checksRun == row.violations + row.ambiguous + row.noClause
                                + CountVerdict(t.rows, loan, Compliant, n) + OpenRows(t.rows, loan, true, n)
            && (forall i | 0 <= i < n && Counted(t.rows[i], loan) ::
                SeverityRank(t.rows[i].severity) <= RankOf(row.highest))
            && (row.highest.Some? ==>
                  exists i | 0 <= i < n :: Counted(t.rows[i], loan) && Some(t.rows[i].severity) == row.highest)
  {
    hide Run, CountVerdict, Highest, OpenChecks, OpenRows, Chained, Counted, SeverityRank, RankOf;
    var t := Run(corpora, reqs);
    RunSettled(corpora, reqs);
    ChecksRunIsOpenRows(t.rows, loan);
    OpenRowsByVerdict(t.rows, loan, |t.rows|);
    HighestIs(t.rows, loan, |t.rows|);
  }

  /** After any run the open rows of a check are at most one, and any later row would supersede exactly it. */
  lemma {:induction false} LookupIsUnique(corpora: Corpora, reqs: seq<Request>, loan: nat, check: string, i: nat)
    requires forall r | r in reqs :: r.snapshot in corpora
    requires i < |Run(corpora, reqs).rows| && Run(corpora, reqs).rows[i].IsAbout(loan, check)
    ensures var rows := Run(corpora, reqs).rows;
            var p := Prior(rows, loan, check, |rows|);
            && p.Some? && p.value < |rows|
            && (forall j | 0 <= j < |rows| && rows[j].IsAbout(loan, check) ::
                  j <= p.value && (rows[j].IsOpen() <==> j == p.value))
  {
    hide Run, Next, Prior, Settling;
    var rows := Run(corpora, reqs).rows;
    RunSettled(corpora, reqs);
    PriorInside(rows, loan, check, |rows|);
    var last := LastAbout(rows, loan, check, i);
    OpenIffLast(rows, last);
    forall j | 0 <= j < |rows| && rows[j].IsAbout(loan, check)
      ensures j <= last && (rows[j].IsOpen() <==> j == last)
    {
      OpenIffLast(rows, j);
      assert SameCheck(rows[j], rows[last]);
    }
  }

  lemma {:induction false} LastAbout(rows: seq<Assessment>, loan: nat, check: string, i: nat) returns (last: nat)
    requires i < |rows| && rows[i].IsAbout(loan, check)
    ensures i <= last < |rows| && rows[last].IsAbout(loan, check)
    ensures forall k | last < k < |rows| :: !rows[k].IsAbout(loan, check)
    decreases |rows| - i
  {
    if k :| i < k < |rows| && rows[k].IsAbout(loan, check) {
      last := LastAbout(rows, loan, check, k);
    } else {
      last := i;
    }
  }

  /* ---------- what the recount counts ---------- */

  /** The open rows of a loan that count: not superseded, no what-if, no shadow. */
  ghost predicate Counts(r: Assessment, loan: nat) {
    r.loan == loan && r.supersededBy.None? && !r.whatif && !r.shadow
  }

  ghost function WithVerdict(rows: seq<Assessment>, loan: nat, v: Verdict, n: nat): set<nat>
    requires n <= |rows|
  {
    set i: nat | i < n && Counts(rows[i], loan) && rows[i].verdict == v
  }

  lemma {:induction false} WithVerdictSnoc(rows: seq<Assessment>, loan: nat, v: Verdict, n: nat)
    requires 0 < n <= |rows|
    ensures n - 1 !in WithVerdict(rows, loan, v, n - 1)
    ensures WithVerdict(rows, loan, v, n) == WithVerdict(rows, loan, v, n - 1)
              + (if Counts(rows[n - 1], loan) && rows[n - 1].verdict == v then {n - 1} else {})
  {
    hide Counts;
  }

  lemma {:induction false} WithVerdictNone(rows: seq<Assessment>, loan: nat, v: Verdict)
    ensures WithVerdict(rows, loan, v, 0) == {}
  {
  }

  /** A verdict count is the number of such rows with that verdict. */
  lemma {:induction false} CountIsCardinality(rows: seq<Assessment>, loan: nat, v: Verdict, n: nat)
    requires n <= |rows|
    ensures CountVerdict(rows, loan, v, n) == |WithVerdict(rows, loan, v, n)|
  {
    hide WithVerdict;
    if n == 0 {
      WithVerdictNone(rows, loan, v);
    } else {
      CountIsCardinality(rows, loan, v, n - 1);
      WithVerdictSnoc(rows, loan, v, n);
    }
  }

  ghost predicate SomeRow(rows: seq<Assessment>, loan: nat, s: Severity, n: nat)
    requires n <= |rows|
  {
    exists i: nat | i < n :: Counts(rows[i], loan) && rows[i].severity == s
  }

  /** The highest severity by name: critical if any row is, else major if any, else minor, else informational. */
  lemma {:induction false} HighestByName(rows: seq<Assessment>, loan: nat, n: nat)
    requires n <= |rows|
    ensures Highest(rows, loan, n) ==
              if SomeRow(rows, loan, Critical, n) then Some(Critical)
              else if SomeRow(rows, loan, Major, n) then Some(Major)
              else if SomeRow(rows, loan, Minor, n) then Some(Minor)
              else if SomeRow(rows, loan, Informational, n) then Some(Informational)
              else None
  {
    if n != 0 {
      HighestByName(rows, loan, n - 1);
      SomeRowSnoc(rows, loan, Critical, n);
      SomeRowSnoc(rows, loan, Major, n);
      SomeRowSnoc(rows, loan, Minor, n);
      SomeRowSnoc(rows, loan, Informational, n);
      hide SomeRow;
    }
  }

  lemma {:induction false} SomeRowSnoc(rows: seq<Assessment>, loan: nat, s: Severity, n: nat)
    requires 0 < n <= |rows|
    ensures SomeRow(rows, loan, s, n) <==>
              SomeRow(rows, loan, s, n - 1) || (Counts(rows[n - 1], loan) && rows[n - 1].severity == s)
  {
    hide Counts;
  }

  /** So after any run the compliance row of a loan reads off its open rows as a person would. */
  lemma {:induction false} ComplianceRowByName(corpora: Corpora, reqs: seq<Request>, loan: nat)
    requires forall r | r in reqs :: r.snapshot in corpora
    requires loan in Run(corpora, reqs).states
    ensures var t := Run(corpora, reqs);
            var row, n := t.states[loan], |t.rows|;
            && row.violations == |WithVerdict(t.rows, loan, Violation, n)|
            && row.ambiguous == |WithVerdict(t.rows, loan, Ambiguous, n)|
            && row.noClause == |WithVerdict(t.rows, loan, NoClauseFound, n)|
            && (row.highest == Some(Critical) <==> SomeRow(t.rows, loan, Critical, n))
            && (row.highest == Some(Major) <==>
                  SomeRow(t.rows, loan, Major, n) && !SomeRow(t.rows, loan, Critical, n))
            && (row.highest.None? <==>
                  forall i: nat | i < n :: !Counts(t.rows[i], loan))
  {
    hide Run, CountVerdict, Highest, OpenChecks, Chained, WithVerdict, SomeRow, Counts;
    var t := Run(corpora, reqs);
    var n := |t.rows|;
    RunSettled(corpora, reqs);
    CountIsCardinality(t.rows, loan, Violation, n);
    CountIsCardinality(t.rows, loan, Ambiguous, n);
    CountIsCardinality(t.rows, loan, NoClauseFound, n);
    HighestByName(t.rows, loan, n);
    NoRowIff(t.rows, loan, n);
  }

  lemma {:induction false} NoRowIff(rows: seq<Assessment>, loan: nat, n: nat)
    requires n <= |rows|
    ensures (forall i: nat | i < n :: !Counts(rows[i], loan)) <==>
              && !SomeRow(rows, loan, Critical, n) && !SomeRow(rows, loan, Major, n)
              && !SomeRow(rows, loan, Minor, n) && !SomeRow(rows, loan, Informational, n)
  {
    hide Counts;
    forall i: nat | i < n && Counts(rows[i], loan)
      ensures SomeRow(rows, loan, rows[i].severity, n)
    {
    }
  }
}
