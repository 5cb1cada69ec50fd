/** Reciprocal rank fusion of the four retrieval sources. Scores are exact reals here. */
module Fusion {
  import opened Results
  import opened Corpus

  type Lists = map<Source, seq<Candidate>>

  function Priority(s: Source): nat {
    match s case Pinned => 0 case Vector => 1 case Lexical => 2 case ReferenceHop => 3
  }

  function Weight(weights: map<Source, real>, s: Source): real { if s in weights then weights[s] else 1.0 }

  predicate Rankable(lists: Lists, k: int) {
    forall s, i | s in lists && 0 <= i < |lists[s]| :: k + lists[s][i].rank > 0
  }

  /* ---------- what a fused list is ---------- */

  predicate Occurs(path: string, list: seq<Candidate>) { exists i | 0 <= i < |list| :: list[i].path == path }

  /** The contribution of the first n candidates of a list to a path. */
  function Share(list: seq<Candidate>, path: string, w: real, k: int, n: nat): real
    requires n <= |list| && forall i | 0 <= i < |list| :: k + list[i].rank > 0
  {
    if n == 0 then 0.0
    else if list[n - 1].path == path then Share(list, path, w, k, n - 1) + w / (k + list[n - 1].rank) as real
    else Share(list, path, w, k, n - 1)
  }

  function SourceShare(lists: Lists, k: int, weights: map<Source, real>, s: Source, path: string): real
    requires Rankable(lists, k)
  {
    if s in lists then Share(lists[s], path, Weight(weights, s), k, |lists[s]|) else 0.0
  }

  function Score(lists: Lists, k: int, weights: map<Source, real>, path: string): real
    requires Rankable(lists, k)
  {
    SourceShare(lists, k, weights, Pinned, path) + SourceShare(lists, k, weights, Vector, path)
    + SourceShare(lists, k, weights, Lexical, path) + SourceShare(lists, k, weights, ReferenceHop, path)
  }

  predicate InSource(lists: Lists, s: Source, path: string) { s in lists && Occurs(path, lists[s]) }

  predicate InAny(lists: Lists, path: string) { exists s :: InSource(lists, s, path) }

  /** The source of highest priority that has the path. */
  function BestSource(lists: Lists, path: string): (s: Source)
    requires InAny(lists, path)
    ensures InSource(lists, s, path)
    ensures forall t :: InSource(lists, t, path) ==> Priority(s) <= Priority(t)
  {
    if InSource(lists, Pinned, path) then Pinned
    else if InSource(lists, Vector, path) then Vector
    else if InSource(lists, Lexical, path) then Lexical
    else
      assert InSource(lists, ReferenceHop, path) by {
        var s :| InSource(lists, s, path);
        assert s.ReferenceHop?;
      }
      ReferenceHop
  }

  function First(list: seq<Candidate>, path: string): (c: Candidate)
    requires Occurs(path, list)
    ensures c in list && c.path == path
  {
    if list[0].path == path then list[0] else
      assert Occurs(path, list[1..]) by {
        var i :| 0 <= i < |list| && list[i].path == path;
        assert list[1..][i - 1].path == path;
      }
      First(list[1..], path)
  }

  datatype SortKey = SortKey(score: real, priority: nat, path: string)

  predicate LexLess(a: string, b: string) {
    b != "" && (a == "" || a[0] < b[0] || (a[0] == b[0] && LexLess(a[1..], b[1..])))
  }

  /** Higher score first, then higher priority source, then the smaller path. */
  predicate Before(x: SortKey, y: SortKey) {
    || x.score > y.score
    || (x.score == y.score && x.priority < y.priority)
    || (x.score == y.score && x.priority == y.priority && LexLess(x.path, y.path))
  }

  function KeyOf(lists: Lists, k: int, weights: map<Source, real>, path: string): SortKey
    requires Rankable(lists, k) && InAny(lists, path)
  {
    SortKey(Score(lists, k, weights, path), Priority(BestSource(lists, path)), path)
  }

  /** The fused candidate of a path at a position. */
  function FusedOf(lists: Lists, k: int, weights: map<Source, real>, path: string, i: nat): Candidate
    requires Rankable(lists, k) && InAny(lists, path)
  {
    First(lists[BestSource(lists, path)], path)
      .(rank := i + 1, score := Score(lists, k, weights, path), exclusion := None)
  }

  /**
   Every path of any source exactly once, with its total score, ranks 1..n, in the order of
   the sort keys.
   */
  ghost predicate IsFusion(lists: Lists, k: int, weights: map<Source, real>, fused: seq<Candidate>)
    requires Rankable(lists, k)
  {
    && (forall i | 0 <= i < |fused| ::
          InAny(lists, fused[i].path) && fused[i] == FusedOf(lists, k, weights, fused[i].path, i))
    && (forall path :: InAny(lists, path) ==> exists i | 0 <= i < |fused| :: fused[i].path == path)
    && forall i, j | 0 <= i < j < |fused| ::
         Before(KeyOf(lists, k, weights, fused[i].path), KeyOf(lists, k, weights, fused[j].path))
  }

  /* ---------- the sort order is a strict total order ---------- */

  lemma {:induction false} LexTransitive(a: string, b: string, c: string)
    requires LexLess(a, b) && LexLess(b, c)
    ensures LexLess(a, c)
    decreases |a|
  {
    if a != "" && a[0] == b[0] && b[0] == c[0] { LexTransitive(a[1..], b[1..], c[1..]); }
  }

  lemma {:induction false} LexTotal(a: string, b: string)
    ensures a == b || LexLess(a, b) || LexLess(b, a)
    decreases |a|
  {
    if a != "" && b != "" && a[0] == b[0] {
      LexTotal(a[1..], b[1..]);
      assert a == [a[0]] + a[1..] && b == [b[0]] + b[1..];
    }
  }

  lemma {:induction false} LexIrreflexive(a: string)
    ensures !LexLess(a, a)
    decreases |a|
  {
    if a != "" { LexIrreflexive(a[1..]); }
  }

  lemma {:induction false} BeforeTransitive(x: SortKey, y: SortKey, z: SortKey)
    requires Before(x, y) && Before(y, z)
    ensures Before(x, z)
  {
    hide LexLess;
    if LexLess(x.path, y.path) && LexLess(y.path, z.path) { LexTransitive(x.path, y.path, z.path); }
  }

  lemma {:induction false} BeforeTotal(x: SortKey, y: SortKey)
    ensures x == y || Before(x, y) || Before(y, x)
    ensures !Before(x, x)
  {
    hide LexLess;
    LexTotal(x.path, y.path);
    LexIrreflexive(x.path);
  }

  lemma {:induction false} BeforeAsymmetric(x: SortKey, y: SortKey)
    requires Before(x, y)
    ensures !Before(y, x) && x != y
  {
    hide LexLess;
    BeforeTotal(x, x);
    if Before(y, x) { BeforeTransitive(x, y, x); }
  }

  /* ---------- a fused list is unique ---------- */

  lemma {:induction false} SomeMember(b: seq<SortKey>)
    ensures b == [] || exists x :: x in b
  {
    if b != [] { assert b[0] in b; }
  }

  /** A sorted list without repetition is determined by its elements. */
  lemma {:induction false} SortedUnique(a: seq<SortKey>, b: seq<SortKey>)
    requires forall i, j | 0 <= i < j < |a| :: Before(a[i], a[j])
    requires forall i, j | 0 <= i < j < |b| :: Before(b[i], b[j])
    requires forall x :: x in a <==> x in b
    ensures a == b
    decreases |a|
  {
    hide Before;
    if a == [] {
      SomeMember(b);
    } else {
      assert a[0] in a;
      var j :| 0 <= j < |b| && b[j] == a[0];
      assert b[0] in b;
      var i :| 0 <= i < |a| && a[i] == b[0];
      if a[0] != b[0] { BeforeAsymmetric(b[0], a[0]); }
      TailsAgree(a, b);
      SortedUnique(a[1..], b[1..]);
    }
  }

  lemma {:induction false} TailsAgree(a: seq<SortKey>, b: seq<SortKey>)
    requires a != [] && b != [] && a[0] == b[0]
    requires forall i, j | 0 <= i < j < |a| :: Before(a[i], a[j])
    requires forall i, j | 0 <= i < j < |b| :: Before(b[i], b[j])
    requires forall x :: x in a <==> x in b
    ensures forall x :: x in a[1..] <==> x in b[1..]
  {
    hide Before;
    BeforeTotal(a[0], a[0]);
    assert a[0] !in a[1..];
    assert b[0] !in b[1..];
    forall x
      ensures x in a[1..] <==> x in b[1..]
    {
      assert a == [a[0]] + a[1..] && b == [b[0]] + b[1..];
      assert (x in a <==> x == a[0] || x in a[1..]) && (x in b <==> x == b[0] || x in b[1..]);
    }
  }

  function Keys(lists: Lists, k: int, weights: map<Source, real>, fused: seq<Candidate>): (r: seq<SortKey>)
    requires Rankable(lists, k) && forall i | 0 <= i < |fused| :: InAny(lists, fused[i].path)
    ensures |r| == |fused| && forall i | 0 <= i < |fused| :: r[i] == KeyOf(lists, k, weights, fused[i].path)
  {
    seq(|fused|, i requires 0 <= i < |fused| => KeyOf(lists, k, weights, fused[i].path))
  }

  lemma {:induction false} FusionUnique(lists: Lists, k: int, weights: map<Source, real>, a: seq<Candidate>,
      b: seq<Candidate>)
    requires Rankable(lists, k) && IsFusion(lists, k, weights, a) && IsFusion(lists, k, weights, b)
    ensures a == b
  {
    hide Before, Score, BestSource, FusedOf, InAny;
    var x, y := Keys(lists, k, weights, a), Keys(lists, k, weights, b);
    SameKeys(lists, k, weights, a, b);
    SameKeys(lists, k, weights, b, a);
    SortedUnique(x, y);
    forall i | 0 <= i < |a| ensures a[i] == b[i] { assert x[i].path == y[i].path; }
  }

  lemma {:induction false} SameKeys(lists: Lists, k: int, weights: map<Source, real>, a: seq<Candidate>,
      b: seq<Candidate>)
    requires Rankable(lists, k) && IsFusion(lists, k, weights, a) && IsFusion(lists, k, weights, b)
    ensures forall x | x in Keys(lists, k, weights, a) :: x in Keys(lists, k, weights, b)
  {
    hide Before, Score, BestSource, FusedOf, InAny;
    forall x | x in Keys(lists, k, weights, a)
      ensures x in Keys(lists, k, weights, b)
    {
      var i :| 0 <= i < |a| && Keys(lists, k, weights, a)[i] == x;
      var j :| 0 <= j < |b| && b[j].path == a[i].path;
      assert Keys(lists, k, weights, b)[j] == x;
    }
  }

  /* ---------- fusing as the service does ---------- */

  predicate NoRepeats(order: seq<Source>) { forall i, j | 0 <= i < j < |order| :: order[i] != order[j] }

  /** The tables of the fusion loop after some sources, and the first n candidates of one more. */
  datatype Tables = Tables(scores: map<string, real>, source: map<string, Source>, candidate: map<string, Candidate>)

  /** The sum of the shares of the sources visited so far. */
  function Visited(lists: Lists, k: int, weights: map<Source, real>, order: seq<Source>, path: string, a: nat): real
    requires Rankable(lists, k) && a <= |order|
  {
    if a == 0 then 0.0
    else Visited(lists, k, weights, order, path, a - 1) + SourceShare(lists, k, weights, order[a - 1], path)
  }

  /** The visiting order does not matter to the sum. */
  lemma {:induction false} VisitedSum(lists: Lists, k: int, weights: map<Source, real>, order: seq<Source>,
      path: string, a: nat)
    requires Rankable(lists, k) && NoRepeats(order) && a <= |order|
    ensures Visited(lists, k, weights, order, path, a)
         == (if Pinned in order[..a] then SourceShare(lists, k, weights, Pinned, path) else 0.0)
          + (if Vector in order[..a] then SourceShare(lists, k, weights, Vector, path) else 0.0)
          + (if Lexical in order[..a] then SourceShare(lists, k, weights, Lexical, path) else 0.0)
          + (if ReferenceHop in order[..a] then SourceShare(lists, k, weights, ReferenceHop, path) else 0.0)
  {
    hide SourceShare;
    if a != 0 {
      VisitedSum(lists, k, weights, order, path, a - 1);
      var s := order[a - 1];
      assert order[..a] == order[..a - 1] + [s];
      assert s !in order[..a - 1];
      assert forall t: Source :: t in order[..a] <==> (t in order[..a - 1] || t == s);
      match s { case Pinned => case Vector => case Lexical => case ReferenceHop => }
    }
  }

  lemma {:induction false} VisitedAll(lists: Lists, k: int, weights: map<Source, real>, order: seq<Source>,
      path: string)
    requires Rankable(lists, k) && NoRepeats(order) && forall s :: s in order <==> s in lists
    ensures Visited(lists, k, weights, order, path, |order|) == Score(lists, k, weights, path)
  {
    VisitedSum(lists, k, weights, order, path, |order|);
    assert order[..|order|] == order;
  }

  lemma {:induction false} OccursSnoc(path: string, list: seq<Candidate>, i: nat)
    requires i < |list|
    ensures Occurs(path, list[..i + 1]) <==> Occurs(path, list[..i]) || list[i].path == path
  {
    var p, q := list[..i], list[..i + 1];
    if Occurs(path, p) {
      var j :| 0 <= j < |p| && p[j].path == path;
      assert q[j] == p[j];
    }
    if Occurs(path, q) {
      var j :| 0 <= j < |q| && q[j].path == path;
      assert j < i ==> p[j] == q[j];
    }
    assert q[i] == list[i];
  }

  lemma {:induction false} FirstPrefix(path: string, list: seq<Candidate>, i: nat)
    requires i <= |list| && Occurs(path, list[..i])
    ensures Occurs(path, list) && First(list, path) == First(list[..i], path)
  {
    var p := list[..i];
    var j :| 0 <= j < |p| && p[j].path == path;
    assert list[j] == p[j];
    if list[0].path != path {
      assert p[1..] == list[1..][..i - 1];
      assert p[1..][j - 1].path == path;
      FirstPrefix(path, list[1..], i - 1);
    }
  }

  lemma {:induction false} OccursTail(path: string, list: seq<Candidate>)
    requires list != []
    ensures Occurs(path, list[1..]) ==> Occurs(path, list)
  {
    if Occurs(path, list[1..]) {
      var j :| 0 <= j < |list[1..]| && list[1..][j].path == path;
      assert list[j + 1].path == path;
    }
  }

  lemma {:induction false} FirstHere(path: string, list: seq<Candidate>, i: nat)
    requires i < |list| && list[i].path == path && !Occurs(path, list[..i])
    ensures Occurs(path, list[..i + 1]) && First(list[..i + 1], path) == list[i]
  {
    OccursSnoc(path, list, i);
    if i > 0 {
      assert list[..i][0].path != path;
      assert list[..i + 1][1..] == list[1..][..i];
      OccursTail(path, list[..i]);
      assert list[..i][1..] == list[1..][..i - 1];
      FirstHere(path, list[1..], i - 1);
    }
  }

  predicate SameKeys3(t: Tables) { t.scores.Keys == t.source.Keys == t.candidate.Keys }

  function Known(t: Tables, path: string): real { if path in t.scores then t.scores[path] else 0.0 }

  /** Source s takes the path over: it has it, and no source of equal or higher priority did. */
  predicate Wins(t: Tables, s: Source, path: string) {
    path !in t.source || Priority(s) < Priority(t.source[path])
  }

  /** What one source's list does to the tables. */
  ghost predicate Added(t: Tables, u: Tables, s: Source, w: real, k: int, list: seq<Candidate>, n: nat)
    requires SameKeys3(t) && SameKeys3(u) && n <= |list| && forall i | 0 <= i < |list| :: k + list[i].rank > 0
  {
    && (forall p :: p in u.scores <==> p in t.scores || Occurs(p, list[..n]))
    && (forall p | p in u.scores :: u.scores[p] == Known(t, p) + Share(list, p, w, k, n))
    && (forall p | p in u.scores ::
          if Occurs(p, list[..n]) && Wins(t, s, p)
          then u.source[p] == s && u.candidate[p] == First(list[..n], p)
          else p in t.scores && u.source[p] == t.source[p] && u.candidate[p] == t.candidate[p])
  }

  method AddSource(t: Tables, s: Source, w: real, k: int, list: seq<Candidate>) returns (u: Tables)
    requires SameKeys3(t) && forall i | 0 <= i < |list| :: k + list[i].rank > 0
    ensures SameKeys3(u) && Added(t, u, s, w, k, list, |list|)
  {
    u := t;
    for n := 0 to |list|
      invariant SameKeys3(u) && Added(t, u, s, w, k, list, n)
    {
      var before := u;
      u := AddCandidate(before, s, w, k, list[n]);
      AddedStep(t, before, u, s, w, k, list, n);
    }
  }

  method AddCandidate(t: Tables, s: Source, w: real, k: int, c: Candidate) returns (u: Tables)
    requires SameKeys3(t) && k + c.rank > 0
    ensures SameKeys3(u) && u == WithCandidate(t, s, w, k, c)
  {
    var path := c.path;
    var contribution := w / (k + c.rank) as real;
    var scores := t.scores[path := (if path in t.scores then t.scores[path] else 0.0) + contribution];
    if path !in t.source || Priority(s) < Priority(t.source[path]) {
      u := Tables(scores, t.source[path := s], t.candidate[path := c]);
    } else {
      u := Tables(scores, t.source, t.candidate);
    }
  }

  function WithCandidate(t: Tables, s: Source, w: real, k: int, c: Candidate): Tables
    requires k + c.rank > 0
  {
    var scores := t.scores[c.path := Known(t, c.path) + w / (k + c.rank) as real];
    if Wins(t, s, c.path) then Tables(scores, t.source[c.path := s], t.candidate[c.path := c])
    else Tables(scores, t.source, t.candidate)
  }

  lemma {:induction false} AddedStep(t: Tables, v: Tables, u: Tables, s: Source, w: real, k: int,
                                     list: seq<Candidate>, n: nat)
    requires SameKeys3(t) && SameKeys3(v) && SameKeys3(u) && n < |list|
    requires forall i | 0 <= i < |list| :: k + list[i].rank > 0
    requires Added(t, v, s, w, k, list, n) && u == WithCandidate(v, s, w, k, list[n])
    ensures Added(t, u, s, w, k, list, n + 1)
  {
    hide First, Occurs, Share, Wins, WithCandidate;
    var m := n + 1;
    forall p
      ensures ScoreAt(t, u, w, k, list, m, p) && SourceAt(t, u, s, list, m, p)
    {
      AddedStepAt(t, v, u, s, w, k, list, n, p);
    }
    AddedEverywhere(t, u, s, w, k, list, m);
  }

  lemma {:induction false} AddedEverywhere(t: Tables, u: Tables, s: Source, w: real, k: int,
                                           list: seq<Candidate>, n: nat)
    requires SameKeys3(t) && SameKeys3(u) && n <= |list| && forall i | 0 <= i < |list| :: k + list[i].rank > 0
    requires forall p :: ScoreAt(t, u, w, k, list, n, p) && SourceAt(t, u, s, list, n, p)
    ensures Added(t, u, s, w, k, list, n)
  {
    hide First, Occurs, Share, Wins;
    forall p ensures p in u.scores <==> p in t.scores || Occurs(p, list[..n]) {
      assert ScoreAt(t, u, w, k, list, n, p);
    }
    forall p | p in u.scores ensures u.scores[p] == Known(t, p) + Share(list, p, w, k, n) {
      assert ScoreAt(t, u, w, k, list, n, p);
    }
    forall p | p in u.scores
      ensures if Occurs(p, list[..n]) && Wins(t, s, p)
              then u.source[p] == s && u.candidate[p] == First(list[..n], p)
              else p in t.scores && u.source[p] == t.source[p] && u.candidate[p] == t.candidate[p]
    {
      assert SourceAt(t, u, s, list, n, p);
    }
  }

  lemma {:induction false} NothingYet(list: seq<Candidate>, p: string, w: real, k: int, n: nat)
    requires n <= |list| && (forall i | 0 <= i < |list| :: k + list[i].rank > 0) && !Occurs(p, list[..n])
    ensures Share(list, p, w, k, n) == 0.0
  {
    if n != 0 {
      assert list[..n][n - 1].path != p;
      OccursSnoc(p, list, n - 1);
      NothingYet(list, p, w, k, n - 1);
    }
  }

  /** What the list did to the score of one path. */
  ghost predicate ScoreAt(t: Tables, u: Tables, w: real, k: int, list: seq<Candidate>, n: nat, p: string)
    requires n <= |list| && forall i | 0 <= i < |list| :: k + list[i].rank > 0
  {
    && (p in u.scores <==> p in t.scores || Occurs(p, list[..n]))
    && (p in u.scores ==> u.scores[p] == Known(t, p) + Share(list, p, w, k, n))
  }

  /** What it did to the candidate kept for one path. */
  ghost predicate SourceAt(t: Tables, u: Tables, s: Source, list: seq<Candidate>, n: nat, p: string)
    requires SameKeys3(t) && SameKeys3(u) && n <= |list|
  {
    p in u.scores ==>
      if Occurs(p, list[..n]) && Wins(t, s, p)
      then u.source[p] == s && u.candidate[p] == First(list[..n], p)
      else p in t.scores && u.source[p] == t.source[p] && u.candidate[p] == t.candidate[p]
  }

  lemma {:induction false} AddedHere(t: Tables, u: Tables, s: Source, w: real, k: int,
                                     list: seq<Candidate>, n: nat, p: string)
    requires SameKeys3(t) && SameKeys3(u) && n <= |list| && forall i | 0 <= i < |list| :: k + list[i].rank > 0
    requires Added(t, u, s, w, k, list, n)
    ensures ScoreAt(t, u, w, k, list, n, p) && SourceAt(t, u, s, list, n, p)
  {
    hide Occurs, First, Share, Wins;
  }

  lemma {:induction false} AddedStepAt(t: Tables, v: Tables, u: Tables, s: Source, w: real, k: int,
                                       list: seq<Candidate>, n: nat, p: string)
    requires SameKeys3(t) && SameKeys3(v) && SameKeys3(u) && n < |list|
    requires forall i | 0 <= i < |list| :: k + list[i].rank > 0
    requires Added(t, v, s, w, k, list, n) && u == WithCandidate(v, s, w, k, list[n])
    ensures ScoreAt(t, u, w, k, list, n + 1, p) && SourceAt(t, u, s, list, n + 1, p)
  {
    hide Added, ScoreAt, SourceAt, WithCandidate;
    AddedHere(t, v, s, w, k, list, n, p);
    AddedScoreAt(t, v, u, s, w, k, list, n, p);
    AddedSourceAt(t, v, u, s, w, k, list, n, p);
  }

  lemma {:induction false} AddedScoreAt(t: Tables, v: Tables, u: Tables, s: Source, w: real, k: int,
                                        list: seq<Candidate>, n: nat, p: string)
    requires n < |list| && forall i | 0 <= i < |list| :: k + list[i].rank > 0
    requires ScoreAt(t, v, w, k, list, n, p) && u == WithCandidate(v, s, w, k, list[n])
    ensures ScoreAt(t, u, w, k, list, n + 1, p)
  {
    hide First, Occurs, Wins;
    OccursSnoc(p, list, n);
    if !Occurs(p, list[..n]) { NothingYet(list, p, w, k, n); }
  }

  lemma {:induction false} AddedSourceAt(t: Tables, v: Tables, u: Tables, s: Source, w: real, k: int,
                                         list: seq<Candidate>, n: nat, p: string)
    requires SameKeys3(t) && SameKeys3(v) && SameKeys3(u) && n < |list|
    requires forall i | 0 <= i < |list| :: k + list[i].rank > 0
    requires ScoreAt(t, v, w, k, list, n, p) && SourceAt(t, v, s, list, n, p)
    requires u == WithCandidate(v, s, w, k, list[n])
    ensures SourceAt(t, u, s, list, n + 1, p)
  {
    hide First, Occurs, Share;
    OccursSnoc(p, list, n);
    if Occurs(p, list[..n]) {
      assert list[..n + 1][..n] == list[..n];
      FirstPrefix(p, list[..n + 1], n);
    } else if list[n].path == p {
      FirstHere(p, list, n);
    }
  }

  /** A visited source has the path. */
  predicate Met(lists: Lists, order: seq<Source>, a: nat, p: string)
    requires a <= |order|
  {
    exists b | 0 <= b < a :: InSource(lists, order[b], p)
  }

  /** The candidate kept for a path is the first one of the best source visited. */
  ghost predicate BestSoFar(lists: Lists, order: seq<Source>, a: nat, s: Source, c: Candidate, p: string)
    requires a <= |order|
  {
    && s in order[..a] && InSource(lists, s, p) && c == First(lists[s], p)
    && forall b | 0 <= b < a && InSource(lists, order[b], p) :: Priority(s) <= Priority(order[b])
  }

  /** The tables agree with the sources visited so far. */
  ghost predicate TablesOf(lists: Lists, k: int, weights: map<Source, real>, order: seq<Source>, a: nat, t: Tables)
    requires Rankable(lists, k) && a <= |order|
  {
    && SameKeys3(t)
    && (forall p :: p in t.scores <==> Met(lists, order, a, p))
    && (forall p | p in t.scores :: t.scores[p] == Visited(lists, k, weights, order, p, a))
    && (forall p | p in t.scores :: BestSoFar(lists, order, a, t.source[p], t.candidate[p], p))
  }

  lemma {:induction false} UnseenNothing(lists: Lists, k: int, weights: map<Source, real>, order: seq<Source>,
      p: string, a: nat)
    requires Rankable(lists, k) && a <= |order| && forall b | 0 <= b < a :: !InSource(lists, order[b], p)
    ensures Visited(lists, k, weights, order, p, a) == 0.0
  {
    hide Occurs, Share;
    if a != 0 {
      UnseenNothing(lists, k, weights, order, p, a - 1);
      var s := order[a - 1];
      if s in lists {
        assert !Occurs(p, lists[s]) by { assert !InSource(lists, order[a - 1], p); }
        assert lists[s][..|lists[s]|] == lists[s];
        NothingYet(lists[s], p, Weight(weights, s), k, |lists[s]|);
      }
    }
  }

  lemma {:induction false} MetMore(lists: Lists, order: seq<Source>, a: nat, p: string)
    requires a < |order|
    ensures Met(lists, order, a + 1, p) <==> Met(lists, order, a, p) || InSource(lists, order[a], p)
  {
    hide InSource;
  }

  lemma {:induction false} BestStays(lists: Lists, order: seq<Source>, a: nat, s: Source, c: Candidate, p: string)
    requires a < |order| && BestSoFar(lists, order, a, s, c, p)
    requires !InSource(lists, order[a], p) || Priority(s) <= Priority(order[a])
    ensures BestSoFar(lists, order, a + 1, s, c, p)
  {
    hide InSource, First;
    assert order[..a + 1] == order[..a] + [order[a]];
  }

  lemma {:induction false} BestChanges(lists: Lists, order: seq<Source>, a: nat, p: string)
    requires a < |order| && InSource(lists, order[a], p)
    requires forall b | 0 <= b < a && InSource(lists, order[b], p) :: Priority(order[a]) < Priority(order[b])
    ensures BestSoFar(lists, order, a + 1, order[a], First(lists[order[a]], p), p)
  {
    hide Occurs, First;
    assert order[..a + 1] == order[..a] + [order[a]];
  }

  lemma {:induction false} TablesScore(lists: Lists, k: int, weights: map<Source, real>, order: seq<Source>, a: nat,
      t: Tables, u: Tables, p: string)
    requires Rankable(lists, k) && a < |order| && TablesOf(lists, k, weights, order, a, t)
    requires order[a] in lists && SameKeys3(u)
    requires Added(t, u, order[a], Weight(weights, order[a]), k, lists[order[a]], |lists[order[a]]|)
    ensures p in u.scores <==> Met(lists, order, a + 1, p)
    ensures p in u.scores ==> u.scores[p] == Visited(lists, k, weights, order, p, a + 1)
  {
    hide First, Share, Occurs, BestSoFar, Met;
    var list := lists[order[a]];
    assert list[..|list|] == list;
    MetMore(lists, order, a, p);
    if p !in t.scores { NotMet(lists, order, a, p); UnseenNothing(lists, k, weights, order, p, a); }
  }

  lemma {:induction false} NotMet(lists: Lists, order: seq<Source>, a: nat, p: string)
    requires a <= |order| && !Met(lists, order, a, p)
    ensures forall b | 0 <= b < a :: !InSource(lists, order[b], p)
  {
  }

  lemma {:induction false} TablesBest(lists: Lists, k: int, weights: map<Source, real>, order: seq<Source>, a: nat,
      t: Tables, u: Tables, p: string)
    requires Rankable(lists, k) && a < |order| && TablesOf(lists, k, weights, order, a, t)
    requires order[a] in lists && SameKeys3(u) && p in u.scores
    requires Added(t, u, order[a], Weight(weights, order[a]), k, lists[order[a]], |lists[order[a]]|)
    ensures BestSoFar(lists, order, a + 1, u.source[p], u.candidate[p], p)
  {
    hide First, Share, Occurs, Met, Visited;
    var s := order[a];
    var list := lists[s];
    assert list[..|list|] == list;
    if Occurs(p, list) && Wins(t, s, p) {
      if p !in t.scores { NotMet(lists, order, a, p); }
      BestChanges(lists, order, a, p);
    } else {
      BestStays(lists, order, a, t.source[p], t.candidate[p], p);
    }
  }

  lemma {:induction false} TablesStep(lists: Lists, k: int, weights: map<Source, real>, order: seq<Source>, a: nat,
      t: Tables, u: Tables)
    requires Rankable(lists, k) && a < |order| && TablesOf(lists, k, weights, order, a, t)
    requires order[a] in lists && SameKeys3(u)
    requires Added(t, u, order[a], Weight(weights, order[a]), k, lists[order[a]], |lists[order[a]]|)
    ensures TablesOf(lists, k, weights, order, a + 1, u)
  {
    hide Added, Met, Visited, BestSoFar;
    forall p
      ensures p in u.scores <==> Met(lists, order, a + 1, p)
      ensures p in u.scores ==> u.scores[p] == Visited(lists, k, weights, order, p, a + 1)
    {
      TablesScore(lists, k, weights, order, a, t, u, p);
    }
    forall p | p in u.scores
      ensures BestSoFar(lists, order, a + 1, u.source[p], u.candidate[p], p)
    {
      TablesBest(lists, k, weights, order, a, t, u, p);
    }
  }

  /* ---------- sorting ---------- */

  predicate Sorted(xs: seq<SortKey>) { forall i, j | 0 <= i < j < |xs| :: Before(xs[i], xs[j]) }

  function Insert(xs: seq<SortKey>, x: SortKey): seq<SortKey> {
    if xs == [] then [x]
    else if Before(x, xs[0]) then [x] + xs
    else [xs[0]] + Insert(xs[1..], x)
  }

  lemma {:induction false} InsertMembers(xs: seq<SortKey>, x: SortKey)
    ensures forall y :: y in Insert(xs, x) <==> y == x || y in xs
    decreases |xs|
  {
    hide Before;
    if xs != [] && !Before(x, xs[0]) {
      InsertMembers(xs[1..], x);
      assert xs == [xs[0]] + xs[1..];
    }
  }

  lemma {:induction false} InsertSorted(xs: seq<SortKey>, x: SortKey)
    requires Sorted(xs) && x !in xs
    ensures Sorted(Insert(xs, x))
    decreases |xs|
  {
    hide Before;
    if xs != [] {
      if Before(x, xs[0]) {
        var r := [x] + xs;
        forall i, j | 0 <= i < j < |r|
          ensures Before(r[i], r[j])
        {
          if i == 0 && j > 1 { BeforeTransitive(x, xs[0], xs[j - 1]); }
        }
      } else {
        assert xs[0] in xs;
        BeforeTotal(x, xs[0]);
        InsertSorted(xs[1..], x);
        InsertMembers(xs[1..], x);
        var rest := Insert(xs[1..], x);
        var r := [xs[0]] + rest;
        forall i, j | 0 <= i < j < |r|
          ensures Before(r[i], r[j])
        {
          if i == 0 {
            assert r[j] in rest;
            if r[j] != x { assert r[j] in xs[1..]; }
          }
        }
      }
    }
  }

  function TableKey(t: Tables, p: string): SortKey
    requires SameKeys3(t) && p in t.scores
  {
    SortKey(t.scores[p], Priority(t.source[p]), p)
  }

  method SortPaths(t: Tables) returns (keys: seq<SortKey>)
    requires SameKeys3(t)
    ensures Sorted(keys)
    ensures forall x :: x in keys <==> x.path in t.scores && x == TableKey(t, x.path)
  {
    hide Before, Sorted;
    keys := [];
    EmptySorted();
    var todo := t.scores.Keys;
    while todo != {}
      invariant todo <= t.scores.Keys && Sorted(keys)
      invariant forall x :: x in keys <==> x.path in t.scores && x.path !in todo && x == TableKey(t, x.path)
      decreases |todo|
    {
      var p :| p in todo;
      var x := TableKey(t, p);
      InsertMembers(keys, x);
      InsertSorted(keys, x);
      keys := Insert(keys, x);
      todo := todo - {p};
    }
  }

  lemma EmptySorted()
    ensures Sorted([])
  {
  }

  /* ---------- the fusion itself ---------- */

  lemma {:induction false} TablesFinal(lists: Lists, k: int, weights: map<Source, real>, order: seq<Source>, t: Tables,
      p: string)
    requires Rankable(lists, k) && NoRepeats(order) && (forall s :: s in order <==> s in lists)
    requires SameKeys3(t) && TablesOf(lists, k, weights, order, |order|, t)
    ensures p in t.scores <==> InAny(lists, p)
    ensures p in t.scores ==>
              && TableKey(t, p) == KeyOf(lists, k, weights, p)
              && t.source[p] == BestSource(lists, p)
              && t.candidate[p] == First(lists[BestSource(lists, p)], p)
  {
    hide First, Score, Visited, Met, InAny, BestSource, BestSoFar;
    MetAll(lists, order, p);
    if p in t.scores {
      VisitedAll(lists, k, weights, order, p);
      BestIsBest(lists, order, t.source[p], t.candidate[p], p);
    }
  }

  lemma {:induction false} MetAll(lists: Lists, order: seq<Source>, p: string)
    requires forall s :: s in order <==> s in lists
    ensures Met(lists, order, |order|, p) <==> InAny(lists, p)
  {
    hide Occurs;
    if InAny(lists, p) {
      var s :| InSource(lists, s, p);
      assert s in order;
      var b :| 0 <= b < |order| && order[b] == s;
    }
  }

  lemma {:induction false} BestIsBest(lists: Lists, order: seq<Source>, s: Source, c: Candidate, p: string)
    requires (forall s :: s in order <==> s in lists) && InAny(lists, p)
    requires BestSoFar(lists, order, |order|, s, c, p)
    ensures s == BestSource(lists, p) && c == First(lists[s], p)
  {
    hide Occurs, First, BestSource, InAny;
    var best := BestSource(lists, p);
    assert best in order;
    var b :| 0 <= b < |order| && order[b] == best;
    assert Priority(s) <= Priority(order[b]);
    assert Priority(best) <= Priority(s);
  }

  method Rrf(lists: Lists, order: seq<Source>, k: int, weights: map<Source, real>) returns (fused: seq<Candidate>)
    requires Rankable(lists, k) && NoRepeats(order) && forall s :: s in order <==> s in lists
    ensures IsFusion(lists, k, weights, fused)
  {
    hide First, Share, Occurs, Score, Visited, BestSoFar, Met, Added, Sorted, InAny, BestSource;
    var t := Tables(map[], map[], map[]);
    NothingVisited(lists, k, weights, order);
    for a := 0 to |order|
      invariant TablesOf(lists, k, weights, order, a, t)
    {
      assert order[a] in order;
      var s := order[a];
      var w := if s in weights then weights[s] else 1.0;
      var u := AddSource(t, s, w, k, lists[s]);
      TablesStep(lists, k, weights, order, a, t, u);
      t := u;
    }
    var keys := SortPaths(t);
    fused := [];
    for i := 0 to |keys|
      invariant |fused| == i
      invariant forall j | 0 <= j < i ::
        && keys[j].path in t.candidate && keys[j].path in t.scores
        && fused[j] == t.candidate[keys[j].path].(rank := j + 1, score := t.scores[keys[j].path], exclusion := None)
    {
      assert keys[i] in keys;
      var base := t.candidate[keys[i].path];
      fused := fused + [base.(rank := i + 1, score := t.scores[keys[i].path], exclusion := None)];
    }
    FusedIsFusion(lists, k, weights, order, t, keys, fused);
  }

  lemma {:induction false} NothingVisited(lists: Lists, k: int, weights: map<Source, real>, order: seq<Source>)
    requires Rankable(lists, k)
    ensures TablesOf(lists, k, weights, order, 0, Tables(map[], map[], map[]))
  {
  }

  lemma {:induction false} FusedIsFusion(lists: Lists, k: int, weights: map<Source, real>, order: seq<Source>,
                                         t: Tables, keys: seq<SortKey>, fused: seq<Candidate>)
    requires Rankable(lists, k) && NoRepeats(order) && (forall s :: s in order <==> s in lists)
    requires SameKeys3(t) && TablesOf(lists, k, weights, order, |order|, t)
    requires Sorted(keys) && forall x :: x in keys <==> x.path in t.scores && x == TableKey(t, x.path)
    requires |fused| == |keys|
    requires forall j | 0 <= j < |keys| ::
      && keys[j].path in t.candidate && keys[j].path in t.scores
      && fused[j] == t.candidate[keys[j].path].(rank := j + 1, score := t.scores[keys[j].path], exclusion := None)
    ensures IsFusion(lists, k, weights, fused)
  {
    hide First, Share, Occurs, Score, Visited, BestSoFar, Met, InAny, BestSource, TablesOf, Before;
    forall j | 0 <= j < |fused|
      ensures fused[j].path == keys[j].path && InAny(lists, fused[j].path)
      ensures fused[j] == FusedOf(lists, k, weights, fused[j].path, j)
      ensures keys[j] == KeyOf(lists, k, weights, fused[j].path)
    {
      assert keys[j] in keys;
      TablesFinal(lists, k, weights, order, t, keys[j].path);
    }
    forall path | InAny(lists, path)
      ensures exists i | 0 <= i < |fused| :: fused[i].path == path
    {
      TablesFinal(lists, k, weights, order, t, path);
      assert TableKey(t, path) in keys;
      var i :| 0 <= i < |keys| && keys[i] == TableKey(t, path);
      assert fused[i].path == path;
    }
  }
}
