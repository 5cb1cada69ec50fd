/** Truncation is optimal, and no interleaving of writers overdraws the budget. */
module SpanProperties {
  import opened Results
  import opened Spans

  /* ---------- the order ---------- */

  /** Longer first; of equally long spans the earlier one first. */
  predicate Precedes(spans: seq<FactSpan>, a: nat, b: nat)
    requires a < |spans| && b < |spans|
  {
    spans[a].len > spans[b].len || (spans[a].len == spans[b].len && a < b)
  }

  ghost predicate Descending(spans: seq<FactSpan>, order: seq<nat>)
    requires Within(order, |spans|)
  {
    forall a, b | 0 <= a < b < |order| :: Precedes(spans, order[a], order[b])
  }

  lemma {:induction false} InsertMembers(spans: seq<FactSpan>, order: seq<nat>, i: nat, b: nat)
    requires i < |spans| && Within(order, |spans|) && b <= |order|
    ensures var r := Insert(spans, order, i);
            r[b] == i || exists c | 0 <= c < |order| :: order[c] == r[b]
  {
    if order != [] && spans[order[0]].len >= spans[i].len && b > 0 {
      InsertMembers(spans, order[1..], i, b - 1);
      var r := Insert(spans, order[1..], i);
      if r[b - 1] != i {
        var c :| 0 <= c < |order[1..]| && order[1..][c] == r[b - 1];
        assert order[c + 1] == r[b - 1];
      }
    }
  }

  lemma {:induction false} DescendingTail(spans: seq<FactSpan>, order: seq<nat>)
    requires order != [] && Within(order, |spans|) && Descending(spans, order)
    ensures Descending(spans, order[1..])
    ensures forall b | 0 <= b < |order[1..]| :: Precedes(spans, order[0], order[1..][b])
  {
    hide Precedes;
    var rest := order[1..];
    assert forall a | 0 <= a < |rest| :: rest[a] == order[a + 1];
  }

  lemma {:induction false} DescendingCons(spans: seq<FactSpan>, a: nat, rest: seq<nat>)
    requires a < |spans| && Within(rest, |spans|) && Descending(spans, rest)
    requires forall b | 0 <= b < |rest| :: Precedes(spans, a, rest[b])
    ensures Descending(spans, [a] + rest)
  {
    hide Precedes;
  }

  lemma {:induction false} InsertDescending(spans: seq<FactSpan>, order: seq<nat>, i: nat)
    requires i < |spans| && Within(order, i) && Within(order, |spans|) && Descending(spans, order)
    ensures Descending(spans, Insert(spans, order, i))
  {
    hide Descending;
    if order == [] {
      NoneDescending(spans);
      DescendingCons(spans, i, []);
      assert [i] + [] == Insert(spans, order, i);
    } else if spans[order[0]].len >= spans[i].len {
      var rest := order[1..];
      DescendingTail(spans, order);
      InsertDescending(spans, rest, i);
      var r := Insert(spans, rest, i);
      forall b | 0 <= b < |r| ensures Precedes(spans, order[0], r[b]) { InsertMembers(spans, rest, i, b); }
      DescendingCons(spans, order[0], r);
    } else {
      DescendingTail(spans, order);
      forall b | 0 <= b < |order| ensures Precedes(spans, i, order[b]) {
        assert b > 0 ==> Precedes(spans, order[0], order[1..][b - 1]);
      }
      DescendingCons(spans, i, order);
    }
  }

  lemma {:induction false} NoneDescending(spans: seq<FactSpan>)
    ensures Descending(spans, [])
  {
  }

  /** The order is the stable sort: strictly descending by length, then by position. */
  lemma {:induction false} OrderDescending(spans: seq<FactSpan>, n: nat)
    requires n <= |spans|
    ensures Within(Order(spans, n), n) && Descending(spans, Order(spans, n))
  {
    hide Insert, Descending;
    if n == 0 {
      NoneDescending(spans);
    } else {
      var before := Order(spans, n - 1);
      OrderDescending(spans, n - 1);
      InsertDescending(spans, before, n - 1);
      var order := Insert(spans, before, n - 1);
      forall b | 0 <= b < n ensures order[b] < n { InsertMembers(spans, before, n - 1, b); }
    }
  }

  /* ---------- any choice of removals ---------- */

  /** The length of the spans a choice removes, among the first n. */
  function RemovedLength(spans: seq<FactSpan>, removed: seq<bool>, n: nat): nat
    requires n <= |spans| == |removed|
  {
    if n == 0 then 0 else RemovedLength(spans, removed, n - 1) + (if removed[n - 1] then spans[n - 1].len else 0)
  }

  function RemovedCount(removed: seq<bool>, n: nat): (c: nat)
    requires n <= |removed|
    ensures c <= n
  {
    if n == 0 then 0 else RemovedCount(removed, n - 1) + (if removed[n - 1] then 1 else 0)
  }

  predicate Fits(spans: seq<FactSpan>, removed: seq<bool>, budget: int)
    requires |spans| == |removed|
  {
    Total(spans, |spans|) - RemovedLength(spans, removed, |spans|) <= budget
  }

  /* ---------- no r spans are longer than the r longest ---------- */

  function Excess(len: nat, cut: nat): nat { if len > cut then len - cut else 0 }

  function ExcessAll(spans: seq<FactSpan>, cut: nat, n: nat): nat
    requires n <= |spans|
  {
    if n == 0 then 0 else ExcessAll(spans, cut, n - 1) + Excess(spans[n - 1].len, cut)
  }

  function ExcessAlong(spans: seq<FactSpan>, order: seq<nat>, cut: nat): nat
    requires Within(order, |spans|)
  {
    if order == [] then 0 else Excess(spans[order[0]].len, cut) + ExcessAlong(spans, order[1..], cut)
  }

  lemma {:induction false} InsertExcess(spans: seq<FactSpan>, order: seq<nat>, i: nat, cut: nat)
    requires i < |spans| && Within(order, |spans|)
    ensures ExcessAlong(spans, Insert(spans, order, i), cut)
            == ExcessAlong(spans, order, cut) + Excess(spans[i].len, cut)
  {
    hide Excess;
    var r := Insert(spans, order, i);
    if order == [] {
      assert r[1..] == [];
    } else if spans[order[0]].len >= spans[i].len {
      InsertExcess(spans, order[1..], i, cut);
      assert r[1..] == Insert(spans, order[1..], i);
    } else {
      assert r[1..] == order;
    }
  }

  lemma {:induction false} OrderExcess(spans: seq<FactSpan>, n: nat, cut: nat)
    requires n <= |spans|
    ensures ExcessAlong(spans, Order(spans, n), cut) == ExcessAll(spans, cut, n)
  {
    hide Excess;
    if n != 0 {
      OrderExcess(spans, n - 1, cut);
      InsertExcess(spans, Order(spans, n - 1), n - 1, cut);
    }
  }

  lemma {:induction false} ExcessSplit(spans: seq<FactSpan>, order: seq<nat>, k: nat, cut: nat)
    requires k <= |order| && Within(order, |spans|)
    ensures Within(order[..k], |spans|) && Within(order[k..], |spans|)
    ensures ExcessAlong(spans, order, cut) == ExcessAlong(spans, order[..k], cut) + ExcessAlong(spans, order[k..], cut)
  {
    hide Excess;
    if k != 0 {
      ExcessSplit(spans, order[1..], k - 1, cut);
      assert order[1..][..k - 1] == order[..k][1..] && order[1..][k - 1..] == order[k..];
    } else {
      assert order[..0] == [] && order[0..] == order;
    }
  }

  lemma {:induction false} NoExcess(spans: seq<FactSpan>, order: seq<nat>, cut: nat)
    requires Within(order, |spans|) && forall j | 0 <= j < |order| :: spans[order[j]].len <= cut
    ensures ExcessAlong(spans, order, cut) == 0
  {
    if order != [] { NoExcess(spans, order[1..], cut); }
  }

  lemma {:induction false} TopIsExcess(spans: seq<FactSpan>, order: seq<nat>, k: nat, cut: nat)
    requires k <= |order| && Within(order, |spans|) && forall j | 0 <= j < k :: spans[order[j]].len >= cut
    ensures Within(order[..k], |spans|)
    ensures Top(spans, order, k) == k * cut + ExcessAlong(spans, order[..k], cut)
  {
    if k == 0 {
      assert order[..0] == [];
    } else {
      TopIsExcess(spans, order, k - 1, cut);
      var front := order[..k];
      ExcessSplit(spans, front, k - 1, cut);
      assert front[..k - 1] == order[..k - 1] && front[k - 1..] == [order[k - 1]];
      assert ExcessAlong(spans, [order[k - 1]], cut) == Excess(spans[order[k - 1]].len, cut) by {
        assert [order[k - 1]][1..] == [];
      }
      assert k * cut == (k - 1) * cut + cut;
    }
  }

  lemma {:induction false} RemovedBound(spans: seq<FactSpan>, removed: seq<bool>, n: nat, cut: nat)
    requires n <= |spans| == |removed|
    ensures RemovedLength(spans, removed, n) <= RemovedCount(removed, n) * cut + ExcessAll(spans, cut, n)
  {
    if n != 0 {
      RemovedBound(spans, removed, n - 1, cut);
      var c := RemovedCount(removed, n - 1);
      assert (c + 1) * cut == c * cut + cut;
    }
  }

  /** The exchange argument: any choice removes at most what the same number of longest spans hold. */
  lemma {:induction false} LongestAreBest(spans: seq<FactSpan>, removed: seq<bool>)
    requires |removed| == |spans|
    ensures RemovedLength(spans, removed, |spans|) <= Top(spans, Order(spans, |spans|), RemovedCount(removed, |spans|))
  {
    hide Order, ExcessAll, Top, Excess;
    var n, r := |spans|, RemovedCount(removed, |spans|);
    var order := Order(spans, n);
    OrderDescending(spans, n);
    if r == 0 {
      RemovedNothing(spans, removed, n);
    } else {
      var cut := spans[order[r - 1]].len;
      RemovedBound(spans, removed, n, cut);
      OrderExcess(spans, n, cut);
      ExcessSplit(spans, order, r, cut);
      forall j | 0 <= j < r ensures spans[order[j]].len >= cut {
        assert j < r - 1 ==> Precedes(spans, order[j], order[r - 1]);
      }
      forall j | 0 <= j < n - r ensures spans[order[r..][j]].len <= cut {
        assert Precedes(spans, order[r - 1], order[r + j]);
      }
      NoExcess(spans, order[r..], cut);
      TopIsExcess(spans, order, r, cut);
    }
  }

  lemma {:induction false} RemovedNothing(spans: seq<FactSpan>, removed: seq<bool>, n: nat)
    requires n <= |spans| == |removed| && RemovedCount(removed, n) == 0
    ensures RemovedLength(spans, removed, n) == 0
  {
    if n != 0 { RemovedNothing(spans, removed, n - 1); }
  }

  /* ---------- removing the returned spans ---------- */

  /** The choice that removes the first k positions of the order. */
  function Chosen(order: seq<nat>, k: nat, n: nat): (m: seq<bool>)
    requires k <= |order| && Within(order, n)
    ensures |m| == n
  {
    if k == 0 then seq(n, _ => false) else Chosen(order, k - 1, n)[order[k - 1] := true]
  }

  lemma {:induction false} ChosenIs(order: seq<nat>, k: nat, n: nat, i: nat)
    requires k <= |order| && Within(order, n) && i < n
    ensures Chosen(order, k, n)[i] <==> exists j | 0 <= j < k :: order[j] == i
  {
    if k != 0 { ChosenIs(order, k - 1, n, i); }
  }

  lemma {:induction false} RemoveOneMore(spans: seq<FactSpan>, removed: seq<bool>, i: nat, n: nat)
    requires n <= |spans| == |removed| && i < |spans| && !removed[i]
    ensures var more := removed[i := true];
            && RemovedLength(spans, more, n) == RemovedLength(spans, removed, n) + (if i < n then spans[i].len else 0)
            && RemovedCount(more, n) == RemovedCount(removed, n) + (if i < n then 1 else 0)
  {
    if n != 0 { RemoveOneMore(spans, removed, i, n - 1); }
  }

  lemma {:induction false} NoneRemoved(spans: seq<FactSpan>, removed: seq<bool>, n: nat)
    requires n <= |spans| == |removed| && forall i | 0 <= i < n :: !removed[i]
    ensures RemovedLength(spans, removed, n) == 0 && RemovedCount(removed, n) == 0
  {
    if n != 0 { NoneRemoved(spans, removed, n - 1); }
  }

  lemma {:induction false} ChosenRemoves(spans: seq<FactSpan>, order: seq<nat>, k: nat)
    requires k <= |order| && Within(order, |spans|) && Descending(spans, order)
    ensures RemovedCount(Chosen(order, k, |spans|), |spans|) == k
    ensures RemovedLength(spans, Chosen(order, k, |spans|), |spans|) == Top(spans, order, k)
  {
    hide RemovedCount, RemovedLength;
    if k == 0 {
      NoneRemoved(spans, Chosen(order, 0, |spans|), |spans|);
    } else {
      ChosenRemoves(spans, order, k - 1);
      var i := order[k - 1];
      ChosenIs(order, k - 1, |spans|, i);
      assert forall j | 0 <= j < k - 1 :: Precedes(spans, order[j], order[k - 1]);
      RemoveOneMore(spans, Chosen(order, k - 1, |spans|), i, |spans|);
    }
  }

  lemma {:induction false} TopOfAll(spans: seq<FactSpan>)
    ensures Top(spans, Order(spans, |spans|), |spans|) == Total(spans, |spans|)
  {
    hide Order;
    var order := Order(spans, |spans|);
    TopIsExcess(spans, order, |spans|, 0);
    assert order[..|spans|] == order;
    OrderExcess(spans, |spans|, 0);
    TotalIsExcess(spans, |spans|);
  }

  lemma {:induction false} TotalIsExcess(spans: seq<FactSpan>, n: nat)
    requires n <= |spans|
    ensures ExcessAll(spans, 0, n) == Total(spans, n)
  {
    if n != 0 { TotalIsExcess(spans, n - 1); }
  }

  /**
   Truncation is optimal: removing what it returns fits the budget, and no choice that fits
   removes fewer spans.
   */
  lemma {:induction false} TruncationOptimal(spans: seq<FactSpan>, budget: int, k: nat)
    requires budget >= 0 && StopsAt(spans, budget, k)
    ensures var chosen := Chosen(Order(spans, |spans|), k, |spans|);
            RemovedCount(chosen, |spans|) == k && Fits(spans, chosen, budget)
    ensures forall removed: seq<bool> | |removed| == |spans| && Fits(spans, removed, budget) ::
            RemovedCount(removed, |spans|) >= k
  {
    hide Order, Top, Total, RemovedCount, RemovedLength, Chosen;
    var order := Order(spans, |spans|);
    OrderDescending(spans, |spans|);
    ChosenRemoves(spans, order, k);
    if k == |spans| { TopOfAll(spans); }
    forall removed: seq<bool> | |removed| == |spans| && Fits(spans, removed, budget)
      ensures RemovedCount(removed, |spans|) >= k
    {
      LongestAreBest(spans, removed);
    }
  }

  /** With an overdrawn budget everything is returned, and even that does not fit. */
  lemma {:induction false} OverdrawnNeverFits(spans: seq<FactSpan>, budget: int, k: nat, removed: seq<bool>)
    requires budget < 0 && StopsAt(spans, budget, k) && |removed| == |spans|
    ensures k == |spans| && !Fits(spans, removed, budget)
  {
    hide Order, Top, RemovedLength;
    AtMostTotal(spans, removed, |spans|);
    TopAtMostTotal(spans, k);
  }

  lemma {:induction false} AtMostTotal(spans: seq<FactSpan>, removed: seq<bool>, n: nat)
    requires n <= |spans| == |removed|
    ensures RemovedLength(spans, removed, n) <= Total(spans, n)
  {
    if n != 0 { AtMostTotal(spans, removed, n - 1); }
  }

  lemma {:induction false} TopAtMostTotal(spans: seq<FactSpan>, k: nat)
    requires k <= |spans|
    ensures Top(spans, Order(spans, |spans|), k) <= Total(spans, |spans|)
  {
    hide Order, Top, RemovedLength, Total;
    OrderDescending(spans, |spans|);
    ChosenRemoves(spans, Order(spans, |spans|), k);
    AtMostTotal(spans, Chosen(Order(spans, |spans|), k, |spans|), |spans|);
  }

  /* ---------- the row under concurrent writers ---------- */

  function Sum(xs: seq<nat>): nat { if xs == [] then 0 else Sum(xs[..|xs| - 1]) + xs[|xs| - 1] }

  lemma {:induction false} SumSnoc(xs: seq<nat>, x: nat)
    ensures Sum(xs + [x]) == Sum(xs) + x
  {
    assert (xs + [x])[..|xs|] == xs;
  }

  /** The row balances, and what the lock holder has read is still true. */
  ghost predicate Balanced(d: Row) {
    && 0 <= d.used <= d.work <= d.budget
    && d.used == Sum(d.admissions) && d.work == Sum(d.pending) && d.admissions <= d.pending
    && (d.holder.None? ==> d.work == d.used && d.pending == d.admissions && d.reading.None?)
    && (d.reading.Some? ==> d.reading.value.remaining == d.budget - d.work)
  }

  lemma {:induction false} NextBalanced(d: Row, e: Event)
    requires Balanced(d)
    ensures Balanced(Next(d, e))
    ensures Next(d, e).budget == d.budget && Next(d, e).used >= d.used && d.admissions <= Next(d, e).admissions
    ensures d.replies <= Next(d, e).replies
  {
    hide Sum;
    if e.Update? && d.reading.Some? {
      var granted := Granted(d.reading.value.remaining, d.reading.value.len);
      if granted.Some? { SumSnoc(d.pending, granted.value); }
    }
  }

  /** At every point of every interleaving the used length is the sum of the admissions and within the budget. */
  lemma {:induction false} NeverOverdrawn(budget: int, events: seq<Event>)
    requires budget >= 0
    ensures var d := After(budget, events);
            d.budget == budget && d.used == Sum(d.admissions) && 0 <= d.used <= budget && Balanced(d)
  {
    hide Next;
    if events != [] {
      NeverOverdrawn(budget, events[..|events| - 1]);
      NextBalanced(After(budget, events[..|events| - 1]), events[|events| - 1]);
    }
  }

  lemma {:induction false} AfterPrefix(budget: int, events: seq<Event>, n: nat)
    requires n < |events|
    ensures After(budget, events[..n + 1]) == Next(After(budget, events[..n]), events[n])
  {
    assert events[..n + 1][..n] == events[..n];
  }

  /** It never decreases, and committed admissions are never taken back. */
  lemma {:induction false} UsedGrows(budget: int, events: seq<Event>, n: nat, m: nat)
    requires budget >= 0 && n <= m <= |events|
    ensures After(budget, events[..n]).used <= After(budget, events[..m]).used
    ensures After(budget, events[..n]).admissions <= After(budget, events[..m]).admissions
    ensures After(budget, events[..n]).replies <= After(budget, events[..m]).replies
  {
    hide Next, After;
    if n < m {
      UsedGrows(budget, events, n, m - 1);
      NeverOverdrawn(budget, events[..m - 1]);
      AfterPrefix(budget, events, m - 1);
      NextBalanced(After(budget, events[..m - 1]), events[m - 1]);
    }
  }

  /** Once the budget is exhausted every later request, from whichever writer, is refused. */
  lemma {:induction false} RefusedOnceExhausted(budget: int, events: seq<Event>, n: nat, m: nat, i: nat)
    requires budget >= 0 && n <= m <= |events| && After(budget, events[..n]).used == budget
    ensures After(budget, events[..m]).used == budget
    ensures |After(budget, events[..n]).replies| <= i < |After(budget, events[..m]).replies| ==>
              After(budget, events[..m]).replies[i].answer == Answer(false, true)
  {
    hide After, Next, Balanced;
    UsedGrows(budget, events, n, m);
    NeverOverdrawn(budget, events[..m]);
    if n < m {
      RefusedOnceExhausted(budget, events, n, m - 1, i);
      NeverOverdrawn(budget, events[..m - 1]);
      AfterPrefix(budget, events, m - 1);
      RefusedStep(After(budget, events[..m - 1]), events[m - 1]);
    }
  }

  lemma {:induction false} RefusedStep(d: Row, e: Event)
    requires Balanced(d) && d.used == d.budget
    ensures var after := Next(d, e).replies;
            && |d.replies| <= |after| && after[..|d.replies|] == d.replies
            && forall i | |d.replies| <= i < |after| :: after[i].answer == Answer(false, true)
  {
  }

  /** A transaction that runs alone on the row does what the admission method does. */
  lemma {:induction false} AloneIsAdmit(d: Row, w: Writer, len: nat)
    requires Balanced(d) && d.holder.None?
    ensures var remaining := d.budget - d.used;
            var e := Next(Next(Next(d, Select(w, len)), Update(w)), Commit(w));
            && e.replies == d.replies + [Reply(w, len, AnswerOf(remaining, len))]
            && e.used == d.used + (if remaining <= 0 then 0 else Granted(remaining, len).value)
            && e.holder.None?
  {
  }

  /** A request is granted while anything remains, in full if it fits and otherwise as much as remains. */
  lemma {:induction false} GrantIs(remaining: int, len: nat)
    ensures remaining <= 0 ==> Granted(remaining, len).None? && AnswerOf(remaining, len) == Answer(false, true)
    ensures 0 < remaining && len <= remaining ==>
              Granted(remaining, len) == Some(len) && AnswerOf(remaining, len) == Answer(true, false)
    ensures 0 < remaining < len ==>
              Granted(remaining, len) == Some(remaining) && AnswerOf(remaining, len) == Answer(true, true)
  {
  }

  /** A truncated admission uses the budget up. */
  lemma {:induction false} TruncatedExhausts(d: Row, w: Writer)
    requires Balanced(d) && d.holder == Some(w) && d.reading.Some?
    ensures var e := Next(d, Update(w));
            var told := e.replies[|e.replies| - 1].answer;
            && |e.replies| == |d.replies| + 1
            && (told == Answer(true, true) ==> e.work == e.budget)
            && (told == Answer(true, false) ==> e.work == d.work + d.reading.value.len)
            && (told == Answer(false, true) ==> e.work == d.work == d.budget)
  {
    hide Sum;
    GrantIs(d.reading.value.remaining, d.reading.value.len);
  }
}
