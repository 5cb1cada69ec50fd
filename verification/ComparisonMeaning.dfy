/** What each comparison means on the values themselves, and so what a conflict row says. */
module ComparisonMeaning {
  import opened Results
  import opened ConflictDetector
  import opened ConflictProperties

  /** Equality compares the scalars of each kind; an amount is compared whatever its currency. */
  lemma {:induction false} EqualOnValues(x: int, y: int, s: string, t: string, p: bool, q: bool)
    ensures Compare(Equal, DateValue(x), DateValue(y)) == Ok(x == y)
    ensures Compare(Equal, DateTimeValue(x), DateTimeValue(y)) == Ok(x == y)
    ensures Compare(Equal, TimeValue(x), TimeValue(y)) == Ok(x == y)
    ensures Compare(Equal, MoneyValue(x, s), MoneyValue(y, t)) == Ok(x == y)
    ensures Compare(Equal, RateValue(x), RateValue(y)) == Ok(x == y)
    ensures Compare(Equal, IntValue(x), IntValue(y)) == Ok(x == y)
    ensures Compare(Equal, DaysValue(x), DaysValue(y)) == Ok(x == y)
    ensures Compare(Equal, BoolValue(p), BoolValue(q)) == Ok(p == q)
    ensures Compare(Equal, EnumValue(s), EnumValue(t)) == Ok(s == t)
    ensures Compare(Equal, StringValue(s), StringValue(t)) == Ok(s == t)
  {
  }

  /** The value is a quantity of this size. */
  predicate Measures(v: FactValue, x: int) {
    || (v.MoneyValue? && v.paise == x) || (v.RateValue? && v.bps == x)
    || (v.DaysValue? && v.days == x) || (v.IntValue? && v.n == x)
  }

  /** The value is this day, or this instant. */
  predicate IsDay(v: FactValue, x: int) { v.DateValue? && v.day == x }

  predicate IsInstant(v: FactValue, x: int) { v.DateTimeValue? && v.instant == x }

  /** Two values are of one kind when the same of the ten kinds fits both. */
  predicate OneKind(a: FactValue, b: FactValue) {
    || (a.DateValue? && b.DateValue?) || (a.DateTimeValue? && b.DateTimeValue?) || (a.TimeValue? && b.TimeValue?)
    || (a.MoneyValue? && b.MoneyValue?) || (a.RateValue? && b.RateValue?) || (a.IntValue? && b.IntValue?)
    || (a.DaysValue? && b.DaysValue?) || (a.BoolValue? && b.BoolValue?) || (a.EnumValue? && b.EnumValue?)
    || (a.StringValue? && b.StringValue?)
  }

  /** Values of different kinds are never compared; whatever the operator, that is an error. */
  lemma {:induction false} KindsDecide(op: Operator, a: FactValue, b: FactValue)
    ensures Compare(op, a, b) == Err(KindMismatch) <==> !OneKind(a, b)
    ensures Increases(a, b) == Err(KindMismatch) <==> !OneKind(a, b)
  {
  }

  /** A tolerance admits exactly the quantities that differ by no more than it. */
  lemma {:induction false} ToleranceMeans(a: FactValue, b: FactValue, x: int, y: int, t: int)
    requires OneKind(a, b) && Measures(a, x) && Measures(b, y)
    ensures Compare(EqualWithin(t), a, b) == Ok(x <= y + t && y <= x + t)
  {
  }

  /** A tolerance on anything but a quantity is an error, and so is an order on anything but a date. */
  lemma {:induction false} OperatorsDemand(a: FactValue, b: FactValue, t: int, d: Direction)
    requires OneKind(a, b)
    ensures Compare(EqualWithin(t), a, b) == Err(NotNumeric)
            <==> a.DateValue? || a.DateTimeValue? || a.TimeValue? || a.BoolValue? || a.EnumValue? || a.StringValue?
    ensures Compare(DateOrder(d), a, b) == Err(NotADate) <==> !a.DateValue? && !a.DateTimeValue?
    ensures Increases(a, b) == Err(NotADate) <==> !a.DateValue? && !a.DateTimeValue?
    ensures Compare(DateOrder(d), a, b) == Err(NeedsChain)
            <==> (a.DateValue? || a.DateTimeValue?) && d == StrictlyIncreasing
  {
  }

  /** Dates and instants are ordered by time; within n days counts whole days, of instants the full ones. */
  lemma {:induction false} OrderMeans(a: FactValue, b: FactValue, x: int, y: int, n: int)
    requires (IsDay(a, x) && IsDay(b, y)) || (IsInstant(a, x) && IsInstant(b, y))
    ensures Compare(DateOrder(After(None)), a, b) == Ok(x < y)
    ensures Compare(DateOrder(Before), a, b) == Ok(y < x)
    ensures Increases(a, b) == Ok(x < y)
    ensures a.DateValue? ==> Compare(DateOrder(After(Some(n))), a, b) == Ok(x < y && y - x <= n)
    ensures a.DateTimeValue? ==>
              Compare(DateOrder(After(Some(n))), a, b) == Ok(x < y && y < x + (n + 1) * 86_400_000_000)
  {
    WithinDays(a, b, n);
  }

  /* ---------- rows ---------- */

  /**
     In a tolerance group a pair of current quantities has a row exactly when they differ by
     more than the tolerance.
    */
  lemma {:induction false} ToleranceRowIff(groups: seq<Group>, writes: seq<Fact>, g: Group, loan: nat, i: nat, j: nat,
                                           a: Fact, b: Fact, t: int, x: int, y: int)
    requires ValidRegistry(groups) && DistinctIds(writes) && g in groups && g.op == EqualWithin(t)
    requires Related(Run(groups, writes).facts, loan, g, i, j, a, b) && OneKind(a.value.value, b.value.value)
    requires Measures(a.value.value, x) && Measures(b.value.value, y)
    ensures HasRow(Run(groups, writes).rows, g.key, a.id, b.id) <==> x > y + t || y > x + t
  {
    hide Run, HasRow, Compare, UniqueKeys, Measures;
    RowIffDisagreement(groups, writes, g, loan, i, j, a, b);
    ToleranceMeans(a.value.value, b.value.value, x, y, t);
  }

  /** In an equality group exactly when the scalars differ. */
  lemma {:induction false} EqualityRowIff(groups: seq<Group>, writes: seq<Fact>, g: Group, loan: nat, i: nat, j: nat,
                                          a: Fact, b: Fact)
    requires ValidRegistry(groups) && DistinctIds(writes) && g in groups && g.op == Equal
    requires Related(Run(groups, writes).facts, loan, g, i, j, a, b) && OneKind(a.value.value, b.value.value)
    ensures var v, w := a.value.value, b.value.value;
            HasRow(Run(groups, writes).rows, g.key, a.id, b.id)
            <==> (if v.MoneyValue? then w.MoneyValue? && v.paise != w.paise else v != w)
  {
    hide Run, HasRow, UniqueKeys, Latest;
    RowIffDisagreement(groups, writes, g, loan, i, j, a, b);
  }

  /** In a group that asks for a later date exactly when the second is not later, or too much later. */
  lemma {:induction false} AfterRowIff(groups: seq<Group>, writes: seq<Fact>, g: Group, loan: nat, i: nat, j: nat,
                                       a: Fact, b: Fact, x: int, y: int, n: int)
    requires ValidRegistry(groups) && DistinctIds(writes) && g in groups && g.op == DateOrder(After(Some(n)))
    requires Related(Run(groups, writes).facts, loan, g, i, j, a, b)
    requires IsDay(a.value.value, x) && IsDay(b.value.value, y)
    ensures HasRow(Run(groups, writes).rows, g.key, a.id, b.id) <==> y <= x || y - x > n
  {
    hide Run, HasRow, Compare, UniqueKeys, Latest;
    RowIffDisagreement(groups, writes, g, loan, i, j, a, b);
    OrderMeans(a.value.value, b.value.value, x, y, n);
  }

  /** In a chain exactly when the later member's date is not later. */
  lemma {:induction false} ChainRowIff(groups: seq<Group>, writes: seq<Fact>, g: Group, loan: nat, i: nat, j: nat,
                                       a: Fact, b: Fact, x: int, y: int)
    requires ValidRegistry(groups) && DistinctIds(writes) && g in groups && g.op == DateOrder(StrictlyIncreasing)
    requires Related(Run(groups, writes).facts, loan, g, i, j, a, b)
    requires IsDay(a.value.value, x) && IsDay(b.value.value, y)
    ensures HasRow(Run(groups, writes).rows, g.key, a.id, b.id) <==> y <= x
  {
    hide Run, HasRow, Compare, Increases, UniqueKeys, Latest;
    RowIffDisagreement(groups, writes, g, loan, i, j, a, b);
    OrderMeans(a.value.value, b.value.value, x, y, 0);
  }

  /* ---------- current facts ---------- */

  /** The current fact of a member is the last write that has a value for it. */
  lemma {:induction false} LatestIsNewest(facts: seq<Fact>, loan: nat, m: Member, k: nat)
    requires k < |facts| && facts[k].loan == loan && facts[k].docType == m.docType && facts[k].field == m.field
    requires facts[k].value.Some?
    requires forall l | k < l < |facts| ::
               !(facts[l].loan == loan && facts[l].docType == m.docType && facts[l].field == m.field
                   && facts[l].value.Some?)
    ensures Latest(facts, loan, m) == Some(facts[k])
  {
    if k < |facts| - 1 {
      var front := facts[..|facts| - 1];
      LatestIsNewest(front, loan, m, k);
    }
  }
}
