/**
 The assessment ledger: rules and the model path append assessments and citations, a newer
 assessment of a check supersedes the older one, and a per-loan compliance row is recomputed.
 Every call is one transaction; calls are serial.
 */
module AssessmentLedger {
  import opened Results
  import opened Corpus
  import opened Retrieval
  import opened CitationValidator

  datatype Severity = Critical | Major | Minor | Informational

  function SeverityRank(s: Severity): nat {
    match s case Critical => 4 case Major => 3 case Minor => 2 case Informational => 1
  }

  /** A row is identified by its position in the ledger. */
  datatype Assessment = Assessment(
    loan: nat, check: string, verdict: Verdict, severity: Severity, shadow: bool, whatif: bool,
    eventDate: Date, snapshot: nat, byModel: bool, supersededBy: Option<nat>)
  {
    predicate IsOpen() { supersededBy.None? && !whatif }
    predicate IsAbout(k: nat, c: string) { loan == k && check == c && !whatif }
  }

  datatype CitationRow = CitationRow(assessment: nat, clauseId: nat, citation: Citation)

  datatype StateRow = StateRow(
    violations: nat, ambiguous: nat, noClause: nat, conflicts: nat,
    highest: Option<Severity>, checksRun: nat, version: nat)

  datatype Tables = Tables(rows: seq<Assessment>, citations: seq<CitationRow>, states: map<nat, StateRow>)

  datatype LedgerError = UnresolvableCitation(path: string) | ModelCallFailed

  /* ---------- persisting one assessment ---------- */

  /** The newest open assessment of a check among the first n rows. */
  function Prior(rows: seq<Assessment>, loan: nat, check: string, n: nat): Option<nat>
    requires n <= |rows|
  {
    if n == 0 then None
    else if rows[n - 1].IsAbout(loan, check) && rows[n - 1].IsOpen() then Some(n - 1)
    else Prior(rows, loan, check, n - 1)
  }

  function Supersede(rows: seq<Assessment>, prior: Option<nat>, newer: nat): seq<Assessment>
    requires prior.Some? ==> prior.value < |rows|
  {
    if prior.Some? then rows[prior.value := rows[prior.value].(supersededBy := Some(newer))] else rows
  }

  function CitationRows(id: nat, cs: seq<Citation>, ids: map<string, nat>, n: nat)
      : Result<seq<CitationRow>, LedgerError>
    requires n <= |cs|
  {
    if n == 0 then Ok([]) else
    match CitationRows(id, cs, ids, n - 1)
    case Err(e) => Err(e)
    case Ok(before) =>
      if cs[n - 1].path !in ids then Err(UnresolvableCitation(cs[n - 1].path))
      else Ok(before + [CitationRow(id, ids[cs[n - 1].path], cs[n - 1])])
  }

  lemma {:induction false} PriorInside(rows: seq<Assessment>, loan: nat, check: string, n: nat)
    requires n <= |rows|
    ensures var p := Prior(rows, loan, check, n);
            && (p.Some? ==> p.value < n && rows[p.value].IsAbout(loan, check) && rows[p.value].IsOpen())
            && (p.None? ==> forall i | 0 <= i < n && rows[i].IsAbout(loan, check) :: !rows[i].IsOpen())
  {
    if n != 0 { PriorInside(rows, loan, check, n - 1); }
  }

  function Persisted(t: Tables, a: Assessment, cs: seq<Citation>, ids: map<string, nat>): Result<Tables, LedgerError> {
    PriorInside(t.rows, a.loan, a.check, |t.rows|);
    var prior := Prior(t.rows, a.loan, a.check, |t.rows|);
    match CitationRows(|t.rows|, cs, ids, |cs|)
    case Err(e) => Err(e)
    case Ok(added) =>
      Ok(t.(rows := (if a.whatif then t.rows else Supersede(t.rows, prior, |t.rows|)) + [a],
            citations := t.citations + added))
  }

  /* ---------- the compliance row ---------- */

  predicate Counted(r: Assessment, loan: nat) { r.loan == loan && r.IsOpen() && !r.shadow }

  function CountVerdict(rows: seq<Assessment>, loan: nat, v: Verdict, n: nat): nat
    requires n <= |rows|
  {
    if n == 0 then 0 else
      CountVerdict(rows, loan, v, n - 1) + (if Counted(rows[n - 1], loan) && rows[n - 1].verdict == v then 1 else 0)
  }

  function CountGroup(rows: seq<Assessment>, loan: nat, v: Verdict, s: Severity, n: nat): nat
    requires n <= |rows|
  {
    if n == 0 then 0 else
      CountGroup(rows, loan, v, s, n - 1)
      + (if Counted(rows[n - 1], loan) && rows[n - 1].verdict == v && rows[n - 1].severity == s then 1 else 0)
  }

  function RankOf(s: Option<Severity>): nat { if s.None? then 0 else SeverityRank(s.value) }

  function Worse(a: Option<Severity>, b: Option<Severity>): Option<Severity> { if RankOf(b) > RankOf(a) then b else a }

  /** The highest severity among the counted rows. */
  function Highest(rows: seq<Assessment>, loan: nat, n: nat): Option<Severity>
    requires n <= |rows|
  {
    if n == 0 then None
    else Worse(Highest(rows, loan, n - 1), if Counted(rows[n - 1], loan) then Some(rows[n - 1].severity) else None)
  }

  /** The checks with an open assessment, shadow ones included. */
  function OpenChecks(rows: seq<Assessment>, loan: nat): set<string> {
    set r | r in rows && r.loan == loan && r.IsOpen() :: r.check
  }

  /** A fresh recount of the ledger for a loan. */
  function Recount(rows: seq<Assessment>, loan: nat, conflicts: nat, version: nat): StateRow {
    StateRow(CountVerdict(rows, loan, Violation, |rows|), CountVerdict(rows, loan, Ambiguous, |rows|),
             CountVerdict(rows, loan, NoClauseFound, |rows|), conflicts, Highest(rows, loan, |rows|),
             |OpenChecks(rows, loan)|, version)
  }

  function Recomputed(t: Tables, loan: nat, conflicts: nat): Tables {
    var version := if loan in t.states then t.states[loan].version + 1 else 1;
    t.(states := t.states[loan := Recount(t.rows, loan, conflicts, version)])
  }

  /* ---------- assessing a fact ---------- */

  datatype RuleOutcome = Skipped | Fired(verdict: Verdict, citations: seq<Citation>)

  /** One rule for the field: its check, the clauses it may cite, and what it decided. */
  datatype RuleRun = RuleRun(check: string, paths: seq<string>, severity: Severity, shadow: bool, outcome: RuleOutcome)

  datatype ModelPath = Raises | Drafted(offered: CandidateSet, draft: DraftVerdict)

  datatype Request = Request(
    loan: nat, field: string, entity: string, borrower: string, eventDate: Date, whatif: bool, snapshot: nat,
    runs: seq<RuleRun>, stageSeverity: Severity, model: ModelPath, openConflicts: nat)

  type Corpora = map<nat, Snapshot>

  /** The ids of the given paths in a snapshot. */
  function ClauseRefs(snapshot: Snapshot, paths: seq<string>): map<string, nat>
    decreases |snapshot|
  {
    if snapshot == [] then map[] else
      var rest := ClauseRefs(snapshot[..|snapshot| - 1], paths);
      var c := snapshot[|snapshot| - 1];
      if c.path in paths then rest[c.path := c.id] else rest
  }

  /** The ids of the offered clauses; a later entry for a path replaces an earlier one. */
  function OfferedIds(list: seq<Candidate>, n: nat): map<string, nat>
    requires n <= |list|
  {
    if n == 0 then map[] else OfferedIds(list, n - 1)[list[n - 1].path := list[n - 1].clauseId]
  }

  function SeverityFor(base: Severity, v: Verdict): Severity { if v == NoClauseFound then Informational else base }

  function RuleAssessment(req: Request, run: RuleRun): Assessment
    requires run.outcome.Fired?
  {
    Assessment(req.loan, run.check, run.outcome.verdict, SeverityFor(run.severity, run.outcome.verdict), run.shadow,
               req.whatif, req.eventDate, req.snapshot, false, None)
  }

  function ModelAssessment(req: Request, v: Verdict): Assessment {
    Assessment(req.loan, "F:" + req.field, v, SeverityFor(req.stageSeverity, v), false,
               req.whatif, req.eventDate, req.snapshot, true, None)
  }

  /** The ledger after the first n rules, and whether one of them decided the field. */
  function RulesRun(corpora: Corpora, t: Tables, req: Request, n: nat): Result<(Tables, bool), LedgerError>
    requires n <= |req.runs| && req.snapshot in corpora
  {
    if n == 0 then Ok((t, false)) else
    match RulesRun(corpora, t, req, n - 1)
    case Err(e) => Err(e)
    case Ok((u, decided)) =>
      var run := req.runs[n - 1];
      if run.outcome.Skipped? then Ok((u, decided)) else
      match Persisted(u, RuleAssessment(req, run), run.outcome.citations, ClauseRefs(corpora[req.snapshot], run.paths))
      case Err(e) => Err(e)
      case Ok(w) => Ok((w, decided || !run.shadow))
  }

  function Settled(t: Tables, req: Request): Tables {
    if req.whatif then t else Recomputed(t, req.loan, req.openConflicts)
  }

  function Assessed(corpora: Corpora, t: Tables, req: Request): Result<Tables, LedgerError>
    requires req.snapshot in corpora
  {
    match RulesRun(corpora, t, req, |req.runs|)
    case Err(e) => Err(e)
    case Ok((u, decided)) =>
      if decided then Ok(Settled(u, req)) else
      match req.model
      case Raises => Err(ModelCallFailed)
      case Drafted(offered, draft) =>
        var outcome := Validated(draft, offered, req.eventDate);
        var all := offered.candidates + offered.contextOnly;
        match Persisted(u, ModelAssessment(req, outcome.verdict), outcome.citations, OfferedIds(all, |all|))
        case Err(e) => Err(e)
        case Ok(w) => Ok(Settled(w, req))
  }

  /** One transaction: an exception leaves no trace. */
  function Step(corpora: Corpora, t: Tables, req: Request): Tables
    requires req.snapshot in corpora
  {
    var r := Assessed(corpora, t, req);
    if r.Ok? then r.value else t
  }

  function Run(corpora: Corpora, reqs: seq<Request>): Tables
    requires forall r | r in reqs :: r.snapshot in corpora
  {
    if reqs == [] then Tables([], [], map[])
    else Step(corpora, Run(corpora, reqs[..|reqs| - 1]), reqs[|reqs| - 1])
  }

  /* ---------- the ledger as it runs ---------- */

  class Ledger {
    var rows: seq<Assessment>
    var citations: seq<CitationRow>
    var states: map<nat, StateRow>

    constructor ()
      ensures Now() == Tables([], [], map[])
    {
      rows, citations, states := [], [], map[];
    }

    function Now(): Tables
      reads this
    {
      Tables(rows, citations, states)
    }

    /** On an error the transaction is abandoned: the caller rolls back. */
    method Persist(a: Assessment, cs: seq<Citation>, ids: map<string, nat>) returns (failed: Option<LedgerError>)
      modifies this`rows, this`citations
      ensures failed.None? ==> Persisted(old(Now()), a, cs, ids) == Ok(Now())
      ensures failed.Some? ==> Persisted(old(Now()), a, cs, ids) == Err(failed.value)
    {
      var prior := FindPrior(a.loan, a.check);
      var id := |rows|;
      PriorInside(rows, a.loan, a.check, |rows|);
      rows := rows + [a];
      ghost var added: seq<CitationRow> := [];
      for n := 0 to |cs|
        invariant CitationRows(id, cs, ids, n) == Ok(added)
        invariant citations == old(citations) + added && rows == old(rows) + [a]
      {
        if cs[n].path !in ids {
          CitationErrorStays(id, cs, ids, n + 1, |cs|);
          return Some(UnresolvableCitation(cs[n].path));
        }
        citations := citations + [CitationRow(id, ids[cs[n].path], cs[n])];
        added := added + [CitationRow(id, ids[cs[n].path], cs[n])];
      }
      if prior.Some? && !a.whatif {
        assert rows[prior.value := rows[prior.value].(supersededBy := Some(id))]
            == Supersede(old(rows), prior, id) + [a];
        rows := rows[prior.value := rows[prior.value].(supersededBy := Some(id))];
      }
      return None;
    }

    method FindPrior(loan: nat, check: string) returns (prior: Option<nat>)
      ensures prior == Prior(rows, loan, check, |rows|)
    {
      prior := None;
      for i := 0 to |rows|
        invariant prior == Prior(rows, loan, check, i)
      {
        if rows[i].IsAbout(loan, check) && rows[i].IsOpen() { prior := Some(i); }
      }
    }

    /** The open assessments of a loan grouped by verdict and severity, in no particular order. */
    method OpenCounts(loan: nat) returns (groups: seq<GroupCount>)
      ensures IsGrouping(rows, loan, groups)
    {
      var m: map<(Verdict, Severity), nat> := map[];
      for i := 0 to |rows|
        invariant forall v, s :: (v, s) in m <==> CountGroup(rows, loan, v, s, i) > 0
        invariant forall v, s | (v, s) in m :: m[(v, s)] == CountGroup(rows, loan, v, s, i)
      {
        var r := rows[i];
        if Counted(r, loan) {
          var key := (r.verdict, r.severity);
          m := m[key := (if key in m then m[key] else 0) + 1];
        }
      }
      groups := [];
      var todo := m.Keys;
      while todo != {}
        invariant todo <= m.Keys
        invariant forall g | g in groups ::
                    (g.verdict, g.severity) in m.Keys - todo && g.n == m[(g.verdict, g.severity)]
        invariant forall k | k in m.Keys - todo :: GroupCount(k.0, k.1, m[k]) in groups
        invariant forall i, j | 0 <= i < j < |groups| :: !SameGroup(groups[i], groups[j])
        decreases |todo|
      {
        var k :| k in todo;
        groups := groups + [GroupCount(k.0, k.1, m[k])];
        todo := todo - {k};
      }
    }

    method RecomputeState(loan: nat, conflicts: nat)
      modifies this`states
      ensures Now() == Recomputed(old(Now()), loan, conflicts)
    {
      hide CountVerdict, CountGroup, Highest, IsGrouping, OpenChecks;
      var groups := OpenCounts(loan);
      var violations, ambiguous, noClause := 0, 0, 0;
      var highest: Option<Severity> := None;
      for i := 0 to |groups|
        invariant violations == GroupSum(groups, Violation, i) && ambiguous == GroupSum(groups, Ambiguous, i)
        invariant noClause == GroupSum(groups, NoClauseFound, i) && highest == GroupHighest(groups, i)
      {
        var g := groups[i];
        match g.verdict {
          case Violation => violations := violations + g.n;
          case Ambiguous => ambiguous := ambiguous + g.n;
          case NoClauseFound => noClause := noClause + g.n;
          case Compliant =>
        }
        if SeverityRank(g.severity) > RankOf(highest) { highest := Some(g.severity); }
      }
      GroupsAgree(rows, loan, groups);
      var version := if loan in states then states[loan].version + 1 else 1;
      states := states[loan := StateRow(violations, ambiguous, noClause, conflicts, highest, |OpenChecks(rows, loan)|,
          version)];
    }

    method AssessFact(corpora: Corpora, req: Request) returns (failed: Option<LedgerError>)
      requires req.snapshot in corpora
      modifies this
      ensures failed.None? ==> Assessed(corpora, old(Now()), req) == Ok(Now())
      ensures failed.Some? ==> Assessed(corpora, old(Now()), req) == Err(failed.value) && Now() == old(Now())
    {
      hide Persisted, Recomputed, Validated, ClauseRefs, OfferedIds;
      var saved := Now();
      var decided := false;
      for n := 0 to |req.runs|
        invariant RulesRun(corpora, saved, req, n) == Ok((Now(), decided))
      {
        var run := req.runs[n];
        if run.outcome.Fired? {
          if !run.shadow { decided := true; }
          failed := Persist(RuleAssessment(req, run), run.outcome.citations,
              ClauseRefs(corpora[req.snapshot], run.paths));
          if failed.Some? {
            RulesErrorStays(corpora, saved, req, n + 1, |req.runs|);
            Rollback(saved);
            return;
          }
        }
      }
      if decided {
        if !req.whatif { RecomputeState(req.loan, req.openConflicts); }
        return None;
      }
      if req.model.Raises? {
        Rollback(saved);
        return Some(ModelCallFailed);
      }
      var outcome := Validate(req.model.draft, req.model.offered, req.eventDate);
      var all := req.model.offered.candidates + req.model.offered.contextOnly;
      failed := Persist(ModelAssessment(req, outcome.verdict), outcome.citations, OfferedIds(all, |all|));
      if failed.Some? {
        Rollback(saved);
        return;
      }
      if !req.whatif { RecomputeState(req.loan, req.openConflicts); }
    }

    method Rollback(saved: Tables)
      modifies this
      ensures Now() == saved
    {
      rows, citations, states := saved.rows, saved.citations, saved.states;
    }
  }

  lemma {:induction false} RulesErrorStays(corpora: Corpora, t: Tables, req: Request, n: nat, m: nat)
    requires n <= m <= |req.runs| && req.snapshot in corpora && RulesRun(corpora, t, req, n).Err?
    ensures RulesRun(corpora, t, req, m) == RulesRun(corpora, t, req, n)
  {
    hide Persisted, ClauseRefs;
    if n < m { RulesErrorStays(corpora, t, req, n, m - 1); }
  }

  /* ---------- grouped counts agree with a recount ---------- */

  datatype GroupCount = GroupCount(verdict: Verdict, severity: Severity, n: nat)

  predicate SameGroup(g: GroupCount, h: GroupCount) { g.verdict == h.verdict && g.severity == h.severity }

  ghost predicate IsGrouping(rows: seq<Assessment>, loan: nat, groups: seq<GroupCount>) {
    && (forall i, j | 0 <= i < j < |groups| :: !SameGroup(groups[i], groups[j]))
    && (forall g | g in groups :: g.n > 0 && g.n == CountGroup(rows, loan, g.verdict, g.severity, |rows|))
    && forall v, s :: CountGroup(rows, loan, v, s, |rows|) > 0 ==>
         exists g | g in groups :: g.verdict == v && g.severity == s
  }

  function GroupSum(groups: seq<GroupCount>, v: Verdict, n: nat): nat
    requires n <= |groups|
  {
    if n == 0 then 0 else GroupSum(groups, v, n - 1) + (if groups[n - 1].verdict == v then groups[n - 1].n else 0)
  }

  function GroupHighest(groups: seq<GroupCount>, n: nat): Option<Severity>
    requires n <= |groups|
  {
    if n == 0 then None else Worse(GroupHighest(groups, n - 1), Some(groups[n - 1].severity))
  }

  /** The count of the group (v, s) among the first n, or 0. */
  function GroupPart(groups: seq<GroupCount>, v: Verdict, s: Severity, n: nat): nat
    requires n <= |groups|
  {
    if n == 0 then 0 else
      GroupPart(groups, v, s, n - 1)
      + (if groups[n - 1].verdict == v && groups[n - 1].severity == s then groups[n - 1].n else 0)
  }

  lemma {:induction false} SumOfParts(groups: seq<GroupCount>, v: Verdict, n: nat)
    requires n <= |groups|
    ensures GroupSum(groups, v, n) == GroupPart(groups, v, Critical, n) + GroupPart(groups, v, Major, n)
                                    + GroupPart(groups, v, Minor, n) + GroupPart(groups, v, Informational, n)
  {
    if n != 0 {
      SumOfParts(groups, v, n - 1);
      match groups[n - 1].severity { case Critical => case Major => case Minor => case Informational => }
    }
  }

  lemma {:induction false} CountOfParts(rows: seq<Assessment>, loan: nat, v: Verdict, n: nat)
    requires n <= |rows|
    ensures CountVerdict(rows, loan, v, n) ==
              CountGroup(rows, loan, v, Critical, n) + CountGroup(rows, loan, v, Major, n)
              + CountGroup(rows, loan, v, Minor, n) + CountGroup(rows, loan, v, Informational, n)
  {
    hide Counted;
    if n != 0 {
      CountOfParts(rows, loan, v, n - 1);
      match rows[n - 1].severity { case Critical => case Major => case Minor => case Informational => }
    }
  }

  lemma {:induction false} PartAbsent(groups: seq<GroupCount>, v: Verdict, s: Severity, n: nat)
    requires n <= |groups| && forall i | 0 <= i < n :: !(groups[i].verdict == v && groups[i].severity == s)
    ensures GroupPart(groups, v, s, n) == 0
  {
    if n != 0 { PartAbsent(groups, v, s, n - 1); }
  }

  lemma {:induction false} PartPresent(groups: seq<GroupCount>, k: nat, n: nat)
    requires k < n <= |groups| && forall i, j | 0 <= i < j < |groups| :: !SameGroup(groups[i], groups[j])
    ensures GroupPart(groups, groups[k].verdict, groups[k].severity, n) == groups[k].n
  {
    var g := groups[k];
    if k == n - 1 {
      forall i | 0 <= i < k ensures !(groups[i].verdict == g.verdict && groups[i].severity == g.severity) {
        assert !SameGroup(groups[i], groups[k]);
      }
      PartAbsent(groups, g.verdict, g.severity, n - 1);
    } else {
      PartPresent(groups, k, n - 1);
      assert !SameGroup(groups[k], groups[n - 1]);
    }
  }

  lemma {:induction false} PartIsCount(rows: seq<Assessment>, loan: nat, groups: seq<GroupCount>, v: Verdict,
      s: Severity)
    requires IsGrouping(rows, loan, groups)
    ensures GroupPart(groups, v, s, |groups|) == CountGroup(rows, loan, v, s, |rows|)
  {
    hide CountGroup, GroupPart;
    if k :| 0 <= k < |groups| && groups[k].verdict == v && groups[k].severity == s {
      PartPresent(groups, k, |groups|);
      assert groups[k] in groups;
    } else {
      PartAbsent(groups, v, s, |groups|);
      assert forall g | g in groups :: !(g.verdict == v && g.severity == s);
    }
  }

  lemma {:induction false} SumIsCount(rows: seq<Assessment>, loan: nat, groups: seq<GroupCount>, v: Verdict)
    requires IsGrouping(rows, loan, groups)
    ensures GroupSum(groups, v, |groups|) == CountVerdict(rows, loan, v, |rows|)
  {
    hide CountGroup, GroupPart, CountVerdict, GroupSum, IsGrouping;
    SumOfParts(groups, v, |groups|);
    CountOfParts(rows, loan, v, |rows|);
    PartIsCount(rows, loan, groups, v, Critical);
    PartIsCount(rows, loan, groups, v, Major);
    PartIsCount(rows, loan, groups, v, Minor);
    PartIsCount(rows, loan, groups, v, Informational);
  }

  lemma {:induction false} GroupMember(rows: seq<Assessment>, loan: nat, v: Verdict, s: Severity, n: nat)
    requires n <= |rows|
    ensures CountGroup(rows, loan, v, s, n) > 0 <==>
              exists i | 0 <= i < n :: Counted(rows[i], loan) && rows[i].verdict == v && rows[i].severity == s
  {
    hide Counted;
    if n != 0 { GroupMember(rows, loan, v, s, n - 1); }
  }

  /** The highest severity bounds every counted row and is that of one of them. */
  lemma {:induction false} HighestIs(rows: seq<Assessment>, loan: nat, n: nat)
    requires n <= |rows|
    ensures forall i | 0 <= i < n && Counted(rows[i], loan) ::
            SeverityRank(rows[i].severity) <= RankOf(Highest(rows, loan, n))
    ensures Highest(rows, loan, n).Some? ==>
              exists i | 0 <= i < n :: Counted(rows[i], loan) && Some(rows[i].severity) == Highest(rows, loan, n)
  {
    hide Counted;
    if n != 0 { HighestIs(rows, loan, n - 1); }
  }

  lemma {:induction false} GroupHighestIs(groups: seq<GroupCount>, n: nat)
    requires n <= |groups|
    ensures forall i | 0 <= i < n :: SeverityRank(groups[i].severity) <= RankOf(GroupHighest(groups, n))
    ensures GroupHighest(groups, n).Some? ==> exists i | 0 <= i < n ::
            Some(groups[i].severity) == GroupHighest(groups, n)
  {
    if n != 0 { GroupHighestIs(groups, n - 1); }
  }

  lemma {:induction false} RankDetermines(a: Option<Severity>, b: Option<Severity>)
    requires RankOf(a) == RankOf(b)
    ensures a == b
  {
  }

  lemma {:induction false} HighestAgrees(rows: seq<Assessment>, loan: nat, groups: seq<GroupCount>)
    requires IsGrouping(rows, loan, groups)
    ensures GroupHighest(groups, |groups|) == Highest(rows, loan, |rows|)
  {
    hide CountGroup, Highest, GroupHighest, Counted, SeverityRank;
    var h, g := Highest(rows, loan, |rows|), GroupHighest(groups, |groups|);
    HighestIs(rows, loan, |rows|);
    GroupHighestIs(groups, |groups|);
    if h.Some? {
      var i :| 0 <= i < |rows| && Counted(rows[i], loan) && Some(rows[i].severity) == h;
      GroupMember(rows, loan, rows[i].verdict, rows[i].severity, |rows|);
      var k :| k in groups && k.verdict == rows[i].verdict && k.severity == rows[i].severity;
      var j :| 0 <= j < |groups| && groups[j] == k;
      assert SeverityRank(groups[j].severity) <= RankOf(g);
    }
    if g.Some? {
      var j :| 0 <= j < |groups| && Some(groups[j].severity) == g;
      assert groups[j] in groups;
      GroupMember(rows, loan, groups[j].verdict, groups[j].severity, |rows|);
      var i :| 0 <= i < |rows| && Counted(rows[i], loan) && rows[i].verdict == groups[j].verdict
          && rows[i].severity == groups[j].severity;
      assert SeverityRank(rows[i].severity) <= RankOf(h);
    }
    RankDetermines(g, h);
  }

  /** Whatever the order of the groups, summing them up gives the recount. */
  lemma {:induction false} GroupsAgree(rows: seq<Assessment>, loan: nat, groups: seq<GroupCount>)
    requires IsGrouping(rows, loan, groups)
    ensures forall v :: GroupSum(groups, v, |groups|) == CountVerdict(rows, loan, v, |rows|)
    ensures GroupHighest(groups, |groups|) == Highest(rows, loan, |rows|)
  {
    hide IsGrouping, GroupSum, CountVerdict, GroupHighest, Highest;
    forall v ensures GroupSum(groups, v, |groups|) == CountVerdict(rows, loan, v, |rows|) {
      SumIsCount(rows, loan, groups, v);
    }
    HighestAgrees(rows, loan, groups);
  }

  lemma {:induction false} CitationErrorStays(id: nat, cs: seq<Citation>, ids: map<string, nat>, n: nat, m: nat)
    requires n <= m <= |cs| && CitationRows(id, cs, ids, n).Err?
    ensures CitationRows(id, cs, ids, m) == CitationRows(id, cs, ids, n)
  {
    if n < m { CitationErrorStays(id, cs, ids, n, m - 1); }
  }
}
