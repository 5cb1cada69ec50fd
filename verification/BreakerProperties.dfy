/** Safety and rate of the breaker over every sequential run. */
module BreakerProperties {
  import opened Results
  import opened Breaker

  /** Calls follow each other on a monotone clock. */
  ghost predicate Ordered(calls: seq<Call>) {
    && (forall i | 0 <= i < |calls| :: calls[i].start <= calls[i].end)
    && (forall i, j | 0 <= i < j < |calls| :: calls[i].end <= calls[j].start)
  }

  /** The i-th call reaches the provider. */
  predicate Reaches(s: Settings, calls: seq<Call>, i: nat)
    requires i < |calls|
  {
    !IsOpen(s, After(s, calls, i), calls[i].start)
  }

  predicate Fails(s: Settings, calls: seq<Call>, i: nat)
    requires i < |calls|
  {
    Reaches(s, calls, i) && calls[i].reply == Transient
  }

  predicate Succeeds(s: Settings, calls: seq<Call>, i: nat)
    requires i < |calls|
  {
    Reaches(s, calls, i) && calls[i].reply == Success
  }

  /** Transient failures among the calls from i up to j. */
  function Failures(s: Settings, calls: seq<Call>, i: nat, j: nat): nat
    requires i <= j <= |calls|
  {
    if i == j then 0 else Failures(s, calls, i, j - 1) + (if Fails(s, calls, j - 1) then 1 else 0)
  }

  ghost predicate SuccessFree(s: Settings, calls: seq<Call>, i: nat, j: nat)
    requires i <= j <= |calls|
  {
    forall k | i <= k < j :: !Succeeds(s, calls, k)
  }

  /** A stretch starts afresh at the very first call or right after a success. */
  ghost predicate StartsAfresh(s: Settings, calls: seq<Call>, i: nat)
    requires i <= |calls|
  {
    i == 0 || Succeeds(s, calls, i - 1)
  }

  lemma {:induction false} AfterUnfold(s: Settings, calls: seq<Call>, n: nat)
    requires 0 < n <= |calls|
    ensures After(s, calls, n) == AfterCall(s, After(s, calls, n - 1), calls[n - 1])
  {
  }

  /** There is an opening time exactly when the failures since the last success reach the threshold. */
  lemma {:induction false} OpenedIffThreshold(s: Settings, calls: seq<Call>, i: nat, n: nat)
    requires s.failThreshold >= 1 && i <= n <= |calls|
    requires StartsAfresh(s, calls, i) && SuccessFree(s, calls, i, n)
    ensures After(s, calls, n).failures == Failures(s, calls, i, n)
    ensures After(s, calls, n).openedAt.Some? <==> Failures(s, calls, i, n) >= s.failThreshold
  {
    hide After, IsOpen;
    if i == n {
      AfterFresh(s, calls, i);
    } else {
      OpenedIffThreshold(s, calls, i, n - 1);
      AfterUnfold(s, calls, n);
      assert !Succeeds(s, calls, n - 1);
    }
  }

  lemma {:induction false} AfterFresh(s: Settings, calls: seq<Call>, i: nat)
    requires i <= |calls| && StartsAfresh(s, calls, i)
    ensures After(s, calls, i) == FRESH
  {
  }

  lemma {:induction false} LastFresh(s: Settings, calls: seq<Call>, n: nat) returns (i: nat)
    requires n <= |calls|
    ensures i <= n && StartsAfresh(s, calls, i) && SuccessFree(s, calls, i, n)
  {
    hide Succeeds;
    if n == 0 || Succeeds(s, calls, n - 1) { i := n; } else { i := LastFresh(s, calls, n - 1); }
  }

  /**
   At every moment of every run there is an opening time exactly when that many failures
   followed the last success.
   */
  lemma {:induction false} OpenedAtAnyMoment(s: Settings, calls: seq<Call>, n: nat) returns (i: nat)
    requires s.failThreshold >= 1 && n <= |calls|
    ensures i <= n && StartsAfresh(s, calls, i) && SuccessFree(s, calls, i, n)
    ensures After(s, calls, n).openedAt.Some? <==> Failures(s, calls, i, n) >= s.failThreshold
  {
    hide After, StartsAfresh, SuccessFree, Failures;
    i := LastFresh(s, calls, n);
    OpenedIffThreshold(s, calls, i, n);
  }

  /** At any moment the counter is at least the failures of any success-free stretch leading there. */
  lemma {:induction false} CounterCovers(s: Settings, calls: seq<Call>, i: nat, n: nat)
    requires i <= n <= |calls| && SuccessFree(s, calls, i, n)
    ensures After(s, calls, n).failures >= Failures(s, calls, i, n)
  {
    hide After, IsOpen;
    if i < n {
      CounterCovers(s, calls, i, n - 1);
      AfterUnfold(s, calls, n);
      assert !Succeeds(s, calls, n - 1);
    }
  }

  /**
   Once a success-free stretch has reached the threshold, each further failure is paid for
   with one whole reset window.
   */
  lemma {:induction false} WindowsPaid(s: Settings, calls: seq<Call>, i: nat, n: nat)
    requires s.failThreshold >= 1 && s.resetS >= 0 && Ordered(calls)
    requires i < n <= |calls| && SuccessFree(s, calls, i, n) && Failures(s, calls, i, n) >= s.failThreshold
    ensures var b := After(s, calls, n);
            && b.openedAt.Some? && b.openedAt.value <= calls[n - 1].end
            && b.openedAt.value >=
                 calls[i].start + (Failures(s, calls, i, n) - s.failThreshold) as real * s.resetS as real
  {
    hide After, SuccessFree, AfterCall, IsOpen, Failures;
    var m, b, c := Failures(s, calls, i, n - 1), After(s, calls, n - 1), calls[n - 1];
    AfterUnfold(s, calls, n);
    StretchShrinks(s, calls, i, n);
    CounterCovers(s, calls, i, n - 1);
    FailuresUnfold(s, calls, i, n);
    assert i < n - 1 ==> calls[i].end <= c.start;
    if n - 1 > i && m >= s.failThreshold {
      WindowsPaid(s, calls, i, n - 1);
      assert calls[n - 2].end <= c.start;
      OnePaid(s, b, c, calls[i].start, m - s.failThreshold);
    } else {
      assert Failures(s, calls, i, n) == m + 1 == s.failThreshold;
      NewlyOpened(s, b, c, calls[i].start, Failures(s, calls, i, n) - s.failThreshold);
    }
  }

  lemma {:induction false} FailuresUnfold(s: Settings, calls: seq<Call>, i: nat, n: nat)
    requires i < n <= |calls| && !Succeeds(s, calls, n - 1)
    ensures var b, c := After(s, calls, n - 1), calls[n - 1];
            && Failures(s, calls, i, n) ==
                 Failures(s, calls, i, n - 1) + (if !IsOpen(s, b, c.start) && c.reply == Transient then 1 else 0)
            && (!IsOpen(s, b, c.start) ==> c.reply != Success)
    ensures Failures(s, calls, i, i) == 0
  {
    hide After, IsOpen;
  }

  /** A call on a breaker with an opening time moves that time on by a whole window if it fails, and not at all else. */
  lemma {:induction false} OnePaid(s: Settings, b: BreakerState, c: Call, from: Time, k: nat)
    requires b.openedAt.Some? && from + k as real * s.resetS as real <= b.openedAt.value <= c.start <= c.end
    requires b.failures + 1 >= s.failThreshold && (!IsOpen(s, b, c.start) ==> c.reply != Success)
    ensures var more := if !IsOpen(s, b, c.start) && c.reply == Transient then 1 else 0;
            var d := AfterCall(s, b, c);
            && d.openedAt.Some? && d.openedAt.value <= c.end
            && d.openedAt.value >= from + (k + more) as real * s.resetS as real
  {
    OneMoreWindow(k, s.resetS as real);
  }

  lemma {:induction false} NewlyOpened(s: Settings, b: BreakerState, c: Call, from: Time, k: int)
    requires !IsOpen(s, b, c.start) && c.reply == Transient && b.failures + 1 >= s.failThreshold
    requires from <= c.end && k == 0
    ensures var d := AfterCall(s, b, c);
            d.openedAt == Some(c.end) && d.openedAt.value >= from + k as real * s.resetS as real
  {
  }

  lemma {:induction false} StretchShrinks(s: Settings, calls: seq<Call>, i: nat, n: nat)
    requires i < n <= |calls| && SuccessFree(s, calls, i, n)
    ensures !Succeeds(s, calls, n - 1) && SuccessFree(s, calls, i, n - 1)
  {
    hide Succeeds;
  }

  lemma {:induction false} OneMoreWindow(k: int, r: real)
    ensures (k + 1) as real * r == k as real * r + r
  {
  }

  /** A success-free stretch of length T sees at most threshold + floor(T / reset) transient failures. */
  lemma {:induction false} RateBound(s: Settings, calls: seq<Call>, i: nat, n: nat)
    requires s.failThreshold >= 1 && s.resetS >= 1 && Ordered(calls)
    requires i < n <= |calls| && SuccessFree(s, calls, i, n)
    ensures Failures(s, calls, i, n) <= s.failThreshold + ((calls[n - 1].end - calls[i].start) / s.resetS as real).Floor
  {
    hide After, SuccessFree;
    var span, r := calls[n - 1].end - calls[i].start, s.resetS as real;
    assert span >= 0.0 by { assert i < n - 1 ==> calls[i].end <= calls[n - 1].start; }
    assert span / r >= 0.0;
    var extra := Failures(s, calls, i, n) - s.failThreshold;
    if extra > 0 {
      WindowsPaid(s, calls, i, n);
      WholeWindows(extra, span, r);
    }
  }

  lemma {:induction false} WholeWindows(k: int, span: real, r: real)
    requires r > 0.0 && k as real * r <= span
    ensures k <= (span / r).Floor
  {
    assert k as real <= span / r;
  }

  /** While the circuit is open no call reaches the provider. */
  lemma {:induction false} QuietWhileOpen(s: Settings, calls: seq<Call>, i: nat, j: nat)
    requires s.failThreshold >= 1 && s.resetS >= 1 && Ordered(calls)
    requires i < j < |calls| && Fails(s, calls, i) && After(s, calls, i).failures + 1 >= s.failThreshold
    requires calls[j].start < calls[i].end + s.resetS as real
    ensures !Reaches(s, calls, j) && After(s, calls, j) == After(s, calls, i + 1)
  {
    hide After;
    AfterUnfold(s, calls, i + 1);
    assert calls[i].end <= calls[j].start;
    if j > i + 1 {
      assert calls[j - 1].end <= calls[j].start && calls[j - 1].start <= calls[j - 1].end;
      QuietWhileOpen(s, calls, i, j - 1);
      AfterUnfold(s, calls, j);
    }
  }

  /* ---------- the bound is reached ---------- */

  /** Failures at time 0 until the circuit opens, then one probe at the end of each window. */
  function Worst(s: Settings, n: nat): (calls: seq<Call>)
    ensures |calls| == n
  {
    if n == 0 then [] else Worst(s, n - 1) + [WorstCall(s, n - 1)]
  }

  function WorstCall(s: Settings, i: nat): Call {
    var t := if i < s.failThreshold then 0.0 else (i + 1 - s.failThreshold) as real * s.resetS as real;
    Call(t, Transient, t)
  }

  lemma {:induction false} AfterPrefix(s: Settings, a: seq<Call>, b: seq<Call>, n: nat)
    requires n <= |a| && n <= |b| && forall k | 0 <= k < n :: a[k] == b[k]
    ensures After(s, a, n) == After(s, b, n)
  {
    if n != 0 { AfterPrefix(s, a, b, n - 1); }
  }

  lemma {:induction false} WorstAt(s: Settings, n: nat, i: nat)
    requires i < n
    ensures Worst(s, n)[i] == WorstCall(s, i)
  {
    if i < n - 1 { WorstAt(s, n - 1, i); }
  }

  lemma {:induction false} WorstOrdered(s: Settings, n: nat)
    requires s.failThreshold >= 1 && s.resetS >= 1
    ensures Ordered(Worst(s, n))
  {
    hide Worst;
    var calls := Worst(s, n);
    forall i | 0 <= i < n ensures calls[i].start <= calls[i].end { WorstAt(s, n, i); }
    forall i, j | 0 <= i < j < n ensures calls[i].end <= calls[j].start {
      WorstAt(s, n, i);
      WorstAt(s, n, j);
      WorstGrows(s, i, j);
    }
  }

  lemma {:induction false} WorstGrows(s: Settings, i: nat, j: nat)
    requires s.failThreshold >= 1 && s.resetS >= 1 && i <= j
    ensures WorstCall(s, i).end <= WorstCall(s, j).start
    decreases j
  {
    if i < j {
      WorstGrows(s, i, j - 1);
      OneMoreWindow(j - s.failThreshold, s.resetS as real);
      if j == s.failThreshold { assert (j - s.failThreshold) as real * s.resetS as real == 0.0; }
    }
  }

  lemma {:induction false} WorstAfter(s: Settings, n: nat, i: nat)
    requires s.failThreshold >= 1 && s.resetS >= 1 && i <= n
    ensures After(s, Worst(s, n), i) ==
              BreakerState(i, if i >= s.failThreshold then Some(WorstCall(s, i - 1).end) else None)
    ensures Failures(s, Worst(s, n), 0, i) == i
  {
    hide After, Worst;
    if i == 0 {
      assert After(s, Worst(s, n), 0) == FRESH by { AfterFresh(s, Worst(s, n), 0); }
    } else {
      WorstAfter(s, n, i - 1);
      AfterUnfold(s, Worst(s, n), i);
      WorstAt(s, n, i - 1);
      WorstReaches(s, n, i - 1);
    }
  }

  lemma {:induction false} WorstReaches(s: Settings, n: nat, i: nat)
    requires s.failThreshold >= 1 && s.resetS >= 1 && i < n
    requires After(s, Worst(s, n), i) == BreakerState(i, if i >= s.failThreshold then Some(WorstCall(s, i - 1).end)
             else None)
    ensures Reaches(s, Worst(s, n), i)
  {
    hide After, Worst;
    WorstAt(s, n, i);
    if i >= s.failThreshold {
      OneMoreWindow(i - s.failThreshold, s.resetS as real);
      if i == s.failThreshold { assert (i - s.failThreshold) as real * s.resetS as real == 0.0; }
    }
  }

  /** For every number of windows there is a run that reaches the bound. */
  lemma {:induction false} RateBoundTight(s: Settings, windows: nat)
    requires s.failThreshold >= 1 && s.resetS >= 1
    ensures var n := s.failThreshold + windows;
            var calls := Worst(s, n);
            && Ordered(calls) && SuccessFree(s, calls, 0, n)
            && calls[n - 1].end - calls[0].start == windows as real * s.resetS as real
            && Failures(s, calls, 0, n) == s.failThreshold + windows
  {
    hide Worst, After;
    var n := s.failThreshold + windows;
    WorstOrdered(s, n);
    WorstAfter(s, n, n);
    WorstAt(s, n, 0);
    WorstAt(s, n, n - 1);
    if windows == 0 { assert windows as real * s.resetS as real == 0.0; }
    forall k | 0 <= k < n ensures !Succeeds(s, Worst(s, n), k) { WorstAt(s, n, k); }
  }

  /* ---------- providers do not disturb each other ---------- */

  datatype ClientCall = ClientCall(provider: string, call: Call)

  function ClientAfter(s: Settings, cs: seq<ClientCall>): Breakers {
    if cs == [] then map[] else
      var last := cs[|cs| - 1];
      AfterComplete(s, ClientAfter(s, cs[..|cs| - 1]), last.provider, last.call)
  }

  /** The calls made to one provider. */
  function CallsTo(provider: string, cs: seq<ClientCall>): seq<Call> {
    if cs == [] then [] else
      var before, last := CallsTo(provider, cs[..|cs| - 1]), cs[|cs| - 1];
      if last.provider == provider then before + [last.call] else before
  }

  /** Whatever the interleaving, a provider's breaker has seen exactly its own calls. */
  lemma {:induction false} BreakersIndependent(s: Settings, cs: seq<ClientCall>, provider: string)
    ensures StateOf(ClientAfter(s, cs), provider) == After(s, CallsTo(provider, cs), |CallsTo(provider, cs)|)
  {
    hide AfterCall;
    if cs != [] {
      var front, last := cs[..|cs| - 1], cs[|cs| - 1];
      BreakersIndependent(s, front, provider);
      if last.provider == provider {
        var before := CallsTo(provider, front);
        AfterPrefix(s, before, before + [last.call], |before|);
        AfterUnfold(s, before + [last.call], |before| + 1);
      }
    }
  }

  /* ---------- what the caller is told ---------- */

  /** The answer says whether the provider was reached, and what it replied. */
  lemma {:induction false} AnswerIff(s: Settings, calls: seq<Call>, i: nat)
    requires i < |calls|
    ensures var answer := AnswerOf(s, After(s, calls, i), calls[i]);
            && (answer == CircuitOpen <==> !Reaches(s, calls, i))
            && (answer == Answered <==> Succeeds(s, calls, i))
            && (answer == TransientError <==> Fails(s, calls, i))
            && (answer == PermanentError <==> Reaches(s, calls, i) && calls[i].reply == Permanent)
            && (answer == UnexpectedError <==> Reaches(s, calls, i) && calls[i].reply == Unexpected)
  {
    hide After, IsOpen;
  }

  /** Only a provider that could not serve counts as failing: other replies leave counter and opening time alone. */
  lemma {:induction false} OtherRepliesKeep(s: Settings, calls: seq<Call>, i: nat)
    requires i < |calls|
    ensures !Reaches(s, calls, i) || calls[i].reply == Permanent || calls[i].reply == Unexpected ==>
              After(s, calls, i + 1) == After(s, calls, i)
    ensures Succeeds(s, calls, i) ==> After(s, calls, i + 1) == BreakerState(0, None)
    ensures Fails(s, calls, i) ==>
              && After(s, calls, i + 1).failures == After(s, calls, i).failures + 1
              && After(s, calls, i + 1).openedAt ==
                   (if After(s, calls, i).failures + 1 >= s.failThreshold then Some(calls[i].end)
                    else After(s, calls, i).openedAt)
  {
    hide After, IsOpen;
    AfterUnfold(s, calls, i + 1);
  }

  /** The provider is what stands before the first slash of the model's name. */
  lemma {:induction false} ProviderIs(provider: string, rest: string, name: string)
    requires '/' !in provider && '/' !in name
    ensures ProviderOf(provider + "/" + rest) == provider && ProviderOf(name) == "unknown"
  {
    var model := provider + "/" + rest;
    SlashUnique(model, |provider|);
    assert model[..|provider|] == provider;
    SlashUnique(name, |name|);
  }

  lemma {:induction false} SlashUnique(model: string, i: nat)
    requires i <= |model| && (i < |model| ==> model[i] == '/') && '/' !in model[..i]
    ensures SlashAt(model) == i
  {
    hide SlashAt;
    var j := SlashAt(model);
    assert forall l | 0 <= l < i :: model[..i][l] == model[l];
    assert forall l | 0 <= l < j :: model[..j][l] == model[l];
  }
}
