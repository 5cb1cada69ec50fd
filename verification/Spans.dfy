/** The quotation budget of a document: greedy truncation, and admission under a row lock. */
module Spans {
  import opened Results

  /* ---------- truncating the longest spans first ---------- */

  datatype FactSpan = FactSpan(id: string, len: nat)

  predicate Within(order: seq<nat>, n: nat) { forall j | 0 <= j < |order| :: order[j] < n }

  /** Puts position i behind all spans that are at least as long. */
  function Insert(spans: seq<FactSpan>, order: seq<nat>, i: nat): (r: seq<nat>)
    requires i < |spans| && Within(order, |spans|)
    ensures |r| == |order| + 1 && Within(r, |spans|)
  {
    if order == [] then [i]
    else if spans[order[0]].len >= spans[i].len then
      [order[0]] + Insert(spans, order[1..], i)
    else [i] + order
  }

  /** The first n positions, longest span first; equal lengths keep their order. */
  function Order(spans: seq<FactSpan>, n: nat): (r: seq<nat>)
    requires n <= |spans|
    ensures |r| == n && Within(r, |spans|)
  {
    if n == 0 then [] else Insert(spans, Order(spans, n - 1), n - 1)
  }

  function Total(spans: seq<FactSpan>, n: nat): nat
    requires n <= |spans|
  {
    if n == 0 then 0 else Total(spans, n - 1) + spans[n - 1].len
  }

  /** The length of the k longest spans. */
  function Top(spans: seq<FactSpan>, order: seq<nat>, k: nat): nat
    requires k <= |order| && Within(order, |spans|)
  {
    if k == 0 then 0 else Top(spans, order, k - 1) + spans[order[k - 1]].len
  }

  ghost predicate StopsAt(spans: seq<FactSpan>, budget: int, k: nat) {
    var n := |spans|;
    && k <= n
    && (k < n ==> Total(spans, n) - Top(spans, Order(spans, n), k) <= budget)
    && forall r: nat | r < k :: Total(spans, n) - Top(spans, Order(spans, n), r) > budget
  }

  method TruncateLongestFirst(spans: seq<FactSpan>, budgetRemaining: int) returns (toTruncate: seq<string>)
    ensures StopsAt(spans, budgetRemaining, |toTruncate|)
    ensures forall j | 0 <= j < |toTruncate| :: toTruncate[j] == spans[Order(spans, |spans|)[j]].id
  {
    var order := Order(spans, |spans|);
    var total := 0;
    for i := 0 to |spans|
      invariant total == Total(spans, i)
    {
      total := total + spans[i].len;
    }
    toTruncate := [];
    for k := 0 to |spans|
      invariant |toTruncate| == k && total == Total(spans, |spans|) - Top(spans, order, k)
      invariant forall j | 0 <= j < k :: toTruncate[j] == spans[order[j]].id
      invariant forall r: nat | r < k :: Total(spans, |spans|) - Top(spans, order, r) > budgetRemaining
    {
      if total <= budgetRemaining { break; }
      toTruncate := toTruncate + [spans[order[k]].id];
      total := total - spans[order[k]].len;
    }
  }

  /* ---------- admitting a span ---------- */

  /** What is granted of a request when this much remains; nothing once the budget is used up. */
  function Granted(remaining: int, len: nat): Option<nat> {
    if remaining <= 0 then None else Some(if len <= remaining then len else remaining)
  }

  datatype Answer = Answer(admitted: bool, truncated: bool)

  function AnswerOf(remaining: int, len: nat): Answer {
    match Granted(remaining, len)
    case None => Answer(false, true)
    case Some(g) => Answer(true, g < len)
  }

  class Document {
    const spanBudgetChars: int
    var spanUsedChars: int

    constructor (budget: int)
      ensures spanBudgetChars == budget && spanUsedChars == 0
    {
      spanBudgetChars, spanUsedChars := budget, 0;
    }

    method AdmitSpan(spanLen: nat) returns (answer: Answer)
      modifies this
      ensures var remaining := spanBudgetChars - old(spanUsedChars);
              && answer == AnswerOf(remaining, spanLen)
              && spanUsedChars == old(spanUsedChars) + (if remaining <= 0 then 0 else Granted(remaining, spanLen).value)
    {
      var remaining := spanBudgetChars - spanUsedChars;
      if remaining <= 0 { return Answer(false, true); }
      var admittedLen := if spanLen <= remaining then spanLen else remaining;
      spanUsedChars := spanUsedChars + admittedLen;
      return Answer(true, admittedLen < spanLen);
    }
  }

  /* ---------- many writers, one row lock ---------- */

  type Writer = nat

  /** A writer selects the row for update, later writes it, and ends its transaction either way. */
  datatype Event =
    | Select(w: Writer, len: nat)
    | Update(w: Writer)
    | Commit(w: Writer)
    | Abort(w: Writer)

  /** What the lock holder has read: the remaining budget at that time, and the length it asks for. */
  datatype Reading = Reading(remaining: int, len: nat)

  datatype Reply = Reply(w: Writer, len: nat, answer: Answer)

  /** The committed row and admissions, and the lock holder's uncommitted ones. */
  datatype Row = Row(
    budget: int, used: int, admissions: seq<nat>,
    holder: Option<Writer>, work: int, pending: seq<nat>, reading: Option<Reading>, replies: seq<Reply>)

  function Start(budget: int): Row { Row(budget, 0, [], None, 0, [], None, []) }

  /** An event that is not enabled, such as a select on a row another writer holds, waits. */
  function Next(d: Row, e: Event): Row {
    match e
    case Select(w, len) =>
      if d.reading.None? && (d.holder.None? || d.holder == Some(w)) then
        d.(holder := Some(w), reading := Some(Reading(d.budget - d.work, len)))
      else d
    case Update(w) =>
      if d.holder == Some(w) && d.reading.Some? then
        var r := d.reading.value;
        var told := d.(reading := None, replies := d.replies + [Reply(w, r.len, AnswerOf(r.remaining, r.len))]);
        match Granted(r.remaining, r.len)
        case None => told
        case Some(inc) => told.(work := d.work + inc, pending := d.pending + [inc])
      else d
    case Commit(w) =>
      if d.holder == Some(w) && d.reading.None? then d.(holder := None, used := d.work, admissions := d.pending) else d
    case Abort(w) =>
      if d.holder == Some(w) then d.(holder := None, reading := None, work := d.used, pending := d.admissions) else d
  }

  function After(budget: int, events: seq<Event>): Row {
    if events == [] then Start(budget) else Next(After(budget, events[..|events| - 1]), events[|events| - 1])
  }
}
