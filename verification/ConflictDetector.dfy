/**
 Cross-document conflict detection. Every fact write compares the new fact with the current
 facts of the other members of its groups and inserts the disagreements it finds; rows are
 keyed by group and pair, so an insert that repeats a key does nothing.
 */
module ConflictDetector {
  import opened Results

  /* ---------- facts and groups ---------- */

  /** Instants are whole microseconds, dates whole days. */
  datatype FactValue =
    | DateValue(day: int)
    | DateTimeValue(instant: int)
    | TimeValue(ofDay: int)
    | MoneyValue(paise: int, currency: string)
    | RateValue(bps: int)
    | IntValue(n: int)
    | DaysValue(days: int)
    | BoolValue(b: bool)
    | EnumValue(name: string)
    | StringValue(text: string)

  datatype Direction = After(withinDays: Option<int>) | Before | StrictlyIncreasing

  datatype Operator = Equal | EqualWithin(tolerance: int) | DateOrder(direction: Direction)

  datatype ComparisonError = KindMismatch | NotNumeric | NotADate | NeedsChain

  datatype Member = Member(docType: string, field: string)

  datatype Group = Group(key: string, members: seq<Member>, op: Operator, raisesCheck: string)
  {
    predicate IsChain() { op == DateOrder(StrictlyIncreasing) }
  }

  /** A fact row; an absent fact is one without a value. Rows are listed in creation order. */
  datatype Fact = Fact(id: nat, loan: nat, docType: string, field: string, value: Option<FactValue>)

  datatype ConflictType = ValueMismatch | DateOrderBreach | ToleranceBreach

  datatype Conflict = Conflict(
    groupKey: string, field: string, a: nat, b: nat, conflictType: ConflictType, op: Operator, raisesCheck: string)

  datatype Row = Row(loan: nat, conflict: Conflict)

  /* ---------- comparing two values ---------- */

  predicate SameKind(a: FactValue, b: FactValue) {
    match a
    case DateValue(_) => b.DateValue?
    case DateTimeValue(_) => b.DateTimeValue?
    case TimeValue(_) => b.TimeValue?
    case MoneyValue(_, _) => b.MoneyValue?
    case RateValue(_) => b.RateValue?
    case IntValue(_) => b.IntValue?
    case DaysValue(_) => b.DaysValue?
    case BoolValue(_) => b.BoolValue?
    case EnumValue(_) => b.EnumValue?
    case StringValue(_) => b.StringValue?
  }

  predicate Numeric(v: FactValue) { v.MoneyValue? || v.RateValue? || v.DaysValue? || v.IntValue? }

  predicate Dated(v: FactValue) { v.DateValue? || v.DateTimeValue? }

  function Amount(v: FactValue): int
    requires Numeric(v)
  {
    match v
    case MoneyValue(paise, _) => paise
    case RateValue(bps) => bps
    case DaysValue(days) => days
    case IntValue(n) => n
  }

  function Point(v: FactValue): int
    requires Dated(v)
  {
    match v case DateValue(day) => day case DateTimeValue(instant) => instant
  }

  const MICROS_PER_DAY: int := 86_400_000_000

  /** Whole days from a to b, rounded down. */
  function DaysBetween(a: FactValue, b: FactValue): int
    requires Dated(a) && Dated(b)
  {
    if a.DateValue? then Point(b) - Point(a) else (Point(b) - Point(a)) / MICROS_PER_DAY
  }

  /** The scalars agree; the currency of an amount is not part of its scalar. */
  predicate SameScalar(a: FactValue, b: FactValue)
    requires SameKind(a, b)
  {
    if a.MoneyValue? then a.paise == b.paise else a == b
  }

  /** Ok(true) when the earlier listed value `a` and the later listed value `b` are consistent. */
  function Compare(op: Operator, a: FactValue, b: FactValue): Result<bool, ComparisonError> {
    if !SameKind(a, b) then Err(KindMismatch) else
    match op
    case Equal => Ok(SameScalar(a, b))
    case EqualWithin(tolerance) =>
      if !Numeric(a) then Err(NotNumeric)
      else Ok(-tolerance <= Amount(a) - Amount(b) <= tolerance)
    case DateOrder(direction) =>
      if !Dated(a) then Err(NotADate) else
      match direction
      case After(within) =>
        if Point(b) <= Point(a) then Ok(false)
        else Ok(within.None? || DaysBetween(a, b) <= within.value)
      case Before => Ok(Point(b) < Point(a))
      case StrictlyIncreasing => Err(NeedsChain)
  }

  /** The adjacent check of a chain: Ok(true) when `b` is strictly later than `a`. */
  function Increases(a: FactValue, b: FactValue): Result<bool, ComparisonError> {
    if !SameKind(a, b) then Err(KindMismatch)
    else if !Dated(a) then Err(NotADate)
    else Ok(Point(a) < Point(b))
  }

  function ConflictTypeFor(op: Operator): ConflictType {
    match op
    case EqualWithin(_) => ToleranceBreach
    case DateOrder(_) => DateOrderBreach
    case Equal => ValueMismatch
  }

  /* ---------- current facts ---------- */

  predicate Matches(f: Fact, loan: nat, m: Member) {
    f.loan == loan && f.field == m.field && f.docType == m.docType && f.value.Some?
  }

  /** The newest present fact of a member. */
  function Latest(facts: seq<Fact>, loan: nat, m: Member): (r: Option<Fact>)
    ensures r.Some? ==> r.value in facts && Matches(r.value, loan, m)
    ensures r.None? ==> forall f | f in facts :: !Matches(f, loan, m)
  {
    if facts == [] then None
    else if Matches(facts[|facts| - 1], loan, m) then Some(facts[|facts| - 1])
    else Latest(facts[..|facts| - 1], loan, m)
  }

  /** The members, among the first n, that have a current fact. */
  function Present(facts: seq<Fact>, loan: nat, g: Group, n: nat): (r: seq<(nat, Fact)>)
    requires n <= |g.members|
    ensures forall p | p in r :: p.0 < n && p.1.value.Some?
  {
    if n == 0 then [] else
    match Latest(facts, loan, g.members[n - 1])
    case None => Present(facts, loan, g, n - 1)
    case Some(f) => Present(facts, loan, g, n - 1) + [(n - 1, f)]
  }

  /* ---------- what detection finds ---------- */

  type Found = Result<seq<Conflict>, ComparisonError>

  function ConflictOf(g: Group, field: string, a: Fact, b: Fact): Conflict {
    Conflict(g.key, field, a.id, b.id, ConflictTypeFor(g.op), g.op, g.raisesCheck)
  }

  /** The pair formed by the trigger, at position t, and the fact of member `idx`, in member order. */
  function Oriented(t: nat, f: Fact, idx: nat, other: Fact): (Fact, Fact) {
    if idx < t then (other, f) else (f, other)
  }

  /** The disagreements of the trigger with the first n members. */
  function PairConflicts(facts: seq<Fact>, g: Group, t: nat, f: Fact, n: nat): Found
    requires t < |g.members| && n <= |g.members| && f.value.Some?
  {
    if n == 0 then Ok([]) else
    match PairConflicts(facts, g, t, f, n - 1)
    case Err(e) => Err(e)
    case Ok(before) =>
      if n - 1 == t then Ok(before) else
      match Latest(facts, f.loan, g.members[n - 1])
      case None => Ok(before)
      case Some(other) =>
        var (a, b) := Oriented(t, f, n - 1, other);
        match Compare(g.op, a.value.value, b.value.value)
        case Err(e) => Err(e)
        case Ok(consistent) =>
          Ok(if consistent then before else before + [ConflictOf(g, g.members[t].field, a, b)])
  }

  /** The adjacent pairs among the first n present facts that do not increase. */
  function ChainConflicts(g: Group, present: seq<(nat, Fact)>, n: nat): Found
    requires n <= |present|
    requires forall p | p in present :: p.0 < |g.members| && p.1.value.Some?
  {
    if n < 2 then Ok([]) else
    match ChainConflicts(g, present, n - 1)
    case Err(e) => Err(e)
    case Ok(before) =>
      var a, b := present[n - 2].1, present[n - 1].1;
      match Increases(a.value.value, b.value.value)
      case Err(e) => Err(e)
      case Ok(increasing) =>
        Ok(if increasing then before
           else before + [ConflictOf(g, g.members[present[n - 1].0].field, a, b).(conflictType := DateOrderBreach)])
  }

  function MemberOf(f: Fact): Member { Member(f.docType, f.field) }

  function IndexOf(ms: seq<Member>, m: Member): (i: nat)
    requires m in ms
    ensures i < |ms| && ms[i] == m && m !in ms[..i]
  {
    if ms[0] == m then 0 else 1 + IndexOf(ms[1..], m)
  }

  function GroupConflicts(facts: seq<Fact>, g: Group, f: Fact): Found
    requires f.value.Some? && MemberOf(f) in g.members
  {
    if g.IsChain() then
      var present := Present(facts, f.loan, g, |g.members|);
      ChainConflicts(g, present, |present|)
    else
      PairConflicts(facts, g, IndexOf(g.members, MemberOf(f)), f, |g.members|)
  }

  /** Detection over the first n groups of the registry. */
  function Detect(facts: seq<Fact>, groups: seq<Group>, f: Fact, n: nat): Found
    requires n <= |groups|
  {
    if n == 0 || f.value.None? then Ok([]) else
    match Detect(facts, groups, f, n - 1)
    case Err(e) => Err(e)
    case Ok(before) =>
      if MemberOf(f) !in groups[n - 1].members then Ok(before) else
      match GroupConflicts(facts, groups[n - 1], f)
      case Err(e) => Err(e)
      case Ok(more) => Ok(before + more)
  }

  /* ---------- the conflict table ---------- */

  predicate HasRow(rows: seq<Row>, key: string, a: nat, b: nat) {
    exists r | r in rows :: r.conflict.groupKey == key && r.conflict.a == a && r.conflict.b == b
  }

  /** Inserts the first n conflicts, skipping keys that are already there. */
  function Persist(rows: seq<Row>, loan: nat, cs: seq<Conflict>, n: nat): seq<Row>
    requires n <= |cs|
  {
    if n == 0 then rows else
      var before := Persist(rows, loan, cs, n - 1);
      var c := cs[n - 1];
      if HasRow(before, c.groupKey, c.a, c.b) then before else before + [Row(loan, c)]
  }

  datatype State = State(facts: seq<Fact>, rows: seq<Row>)

  /** One transaction: write the fact, detect, persist. A comparison error rolls it back. */
  function Step(groups: seq<Group>, s: State, f: Fact): State {
    var facts := s.facts + [f];
    match Detect(facts, groups, f, |groups|)
    case Err(_) => s
    case Ok(cs) => State(facts, Persist(s.rows, f.loan, cs, |cs|))
  }

  function Run(groups: seq<Group>, writes: seq<Fact>): State {
    if writes == [] then State([], [])
    else Step(groups, Run(groups, writes[..|writes| - 1]), writes[|writes| - 1])
  }

  /* ---------- the detector as it runs ---------- */

  class Store {
    const groups: seq<Group>
    var facts: seq<Fact>
    var rows: seq<Row>

    constructor (groups: seq<Group>)
      ensures this.groups == groups && Now() == State([], [])
    {
      this.groups := groups;
      facts, rows := [], [];
    }

    function Now(): State
      reads this
    {
      State(facts, rows)
    }

    method EvaluatePairwiseGroup(g: Group, t: nat, f: Fact) returns (r: Found)
      requires t < |g.members| && f.value.Some?
      ensures r == PairConflicts(facts, g, t, f, |g.members|)
    {
      var conflicts := [];
      for idx := 0 to |g.members|
        invariant PairConflicts(facts, g, t, f, idx) == Ok(conflicts)
      {
        if idx != t {
          var counterpart := Latest(facts, f.loan, g.members[idx]);
          if counterpart.Some? {
            var (a, b) := Oriented(t, f, idx, counterpart.value);
            var ok := Compare(g.op, a.value.value, b.value.value);
            if ok.Err? {
              ErrorStays(facts, g, t, f, idx + 1, |g.members|);
              return Err(ok.error);
            }
            if !ok.value { conflicts := conflicts + [ConflictOf(g, g.members[t].field, a, b)]; }
          }
        }
      }
      return Ok(conflicts);
    }

    method EvaluateStrictlyIncreasingGroup(loan: nat, g: Group) returns (r: Found)
      requires g.IsChain()
      ensures var present := Present(facts, loan, g, |g.members|);
              r == ChainConflicts(g, present, |present|)
    {
      var present: seq<(nat, Fact)> := [];
      for i := 0 to |g.members|
        invariant present == Present(facts, loan, g, i)
      {
        var fetched := Latest(facts, loan, g.members[i]);
        if fetched.Some? { present := present + [(i, fetched.value)]; }
      }
      r := ComparePresent(g, present);
    }

    method ComparePresent(g: Group, present: seq<(nat, Fact)>) returns (r: Found)
      requires forall p | p in present :: p.0 < |g.members| && p.1.value.Some?
      ensures r == ChainConflicts(g, present, |present|)
    {
      var conflicts := [];
      var n := 1;
      while n < |present|
        invariant 1 <= n && (n <= |present| || |present| == 0)
        invariant ChainConflicts(g, present, if |present| == 0 then 0 else n) == Ok(conflicts)
      {
        var a, b := present[n - 1].1, present[n].1;
        var ok := Increases(a.value.value, b.value.value);
        if ok.Err? {
          ChainErrorStays(g, present, n + 1, |present|);
          return Err(ok.error);
        }
        if !ok.value {
          conflicts := conflicts
            + [ConflictOf(g, g.members[present[n].0].field, a, b).(conflictType := DateOrderBreach)];
        }
        n := n + 1;
      }
      return Ok(conflicts);
    }

    method EvaluateGroup(g: Group, f: Fact) returns (r: Found)
      requires f.value.Some? && MemberOf(f) in g.members
      ensures r == GroupConflicts(facts, g, f)
    {
      if g.IsChain() {
        r := EvaluateStrictlyIncreasingGroup(f.loan, g);
      } else {
        r := EvaluatePairwiseGroup(g, IndexOf(g.members, MemberOf(f)), f);
      }
    }

    method DetectForFact(f: Fact) returns (r: Found)
      ensures r == Detect(facts, groups, f, |groups|)
    {
      if f.value.None? { return Ok([]); }
      var all := [];
      for n := 0 to |groups|
        invariant Detect(facts, groups, f, n) == Ok(all)
      {
        if MemberOf(f) in groups[n].members {
          var found := EvaluateGroup(groups[n], f);
          if found.Err? {
            DetectErrorStays(facts, groups, f, n + 1, |groups|);
            return found;
          }
          all := all + found.value;
        }
      }
      return Ok(all);
    }

    method PersistConflicts(loan: nat, cs: seq<Conflict>)
      modifies this`rows
      ensures rows == Persist(old(rows), loan, cs, |cs|)
    {
      for n := 0 to |cs|
        invariant rows == Persist(old(rows), loan, cs, n)
      {
        var c := cs[n];
        if !HasRow(rows, c.groupKey, c.a, c.b) { rows := rows + [Row(loan, c)]; }
      }
    }

    method RecordFact(f: Fact)
      modifies this
      ensures Now() == Step(groups, old(Now()), f)
    {
      var before := facts;
      facts := facts + [f];
      var found := DetectForFact(f);
      if found.Err? {
        facts := before;
      } else {
        PersistConflicts(f.loan, found.value);
      }
    }
  }

  lemma {:induction false} ErrorStays(facts: seq<Fact>, g: Group, t: nat, f: Fact, n: nat, m: nat)
    requires t < |g.members| && n <= m <= |g.members| && f.value.Some?
    requires PairConflicts(facts, g, t, f, n).Err?
    ensures PairConflicts(facts, g, t, f, m) == PairConflicts(facts, g, t, f, n)
  {
    if n < m { ErrorStays(facts, g, t, f, n, m - 1); }
  }

  lemma {:induction false} ChainErrorStays(g: Group, present: seq<(nat, Fact)>, n: nat, m: nat)
    requires forall p | p in present :: p.0 < |g.members| && p.1.value.Some?
    requires n <= m <= |present| && ChainConflicts(g, present, n).Err?
    ensures ChainConflicts(g, present, m) == ChainConflicts(g, present, n)
  {
    if n < m { ChainErrorStays(g, present, n, m - 1); }
  }

  lemma {:induction false} DetectErrorStays(facts: seq<Fact>, groups: seq<Group>, f: Fact, n: nat, m: nat)
    requires n <= m <= |groups| && Detect(facts, groups, f, n).Err?
    ensures Detect(facts, groups, f, m) == Detect(facts, groups, f, n)
  {
    if n < m { DetectErrorStays(facts, groups, f, n, m - 1); }
  }
}
