/** The fused order and the fused score, spelled out on the candidates. */
module FusionOrder {
  import opened Results
  import opened Corpus
  import opened Fusion

  /** a comes first in character order: at the first difference, or as a proper prefix. */
  ghost predicate Smaller(a: string, b: string) {
    exists n: nat :: FirstDifference(a, b, n)
  }

  predicate FirstDifference(a: string, b: string, n: nat) {
    && n <= |a| && n < |b| && a[..n] == b[..n]
    && (n == |a| || a[n] < b[n])
  }

  lemma {:induction false} LexIsSmaller(a: string, b: string)
    ensures LexLess(a, b) <==> Smaller(a, b)
    decreases |a|
  {
    if b == "" || a == "" || a[0] < b[0] {
      if b != "" { assert FirstDifference(a, b, 0); }
    } else if a[0] == b[0] {
      LexIsSmaller(a[1..], b[1..]);
      if n: nat :| FirstDifference(a[1..], b[1..], n) {
        assert a[..n + 1] == [a[0]] + a[1..][..n] && b[..n + 1] == [b[0]] + b[1..][..n];
        assert FirstDifference(a, b, n + 1);
      }
      if n: nat :| FirstDifference(a, b, n) {
        assert n > 0;
        assert a[1..][..n - 1] == a[..n][1..] && b[1..][..n - 1] == b[..n][1..];
        assert FirstDifference(a[1..], b[1..], n - 1);
      }
    } else {
      forall n: nat ensures !FirstDifference(a, b, n) {
        if n > 0 && n <= |a| && n < |b| { assert a[..n][0] == a[0] && b[..n][0] == b[0]; }
      }
    }
  }

  /** The order in which the sources take precedence. */
  const PRECEDENCE := [Pinned, Vector, Lexical, ReferenceHop]

  predicate Precedes(s: Source, t: Source) { exists i, j | 0 <= i < j < 4 :: PRECEDENCE[i] == s && PRECEDENCE[j] == t }

  lemma {:induction false} PriorityIsPrecedence(s: Source, t: Source)
    ensures Priority(s) < Priority(t) <==> Precedes(s, t)
    ensures Priority(s) == Priority(t) <==> s == t
  {
    assert PRECEDENCE[0] == Pinned && PRECEDENCE[1] == Vector && PRECEDENCE[2] == Lexical
        && PRECEDENCE[3] == ReferenceHop;
  }

  /** Higher score first; of equal scores the better source; of equal sources the smaller path. */
  lemma {:induction false} FusedInOrder(lists: Lists, k: int, weights: map<Source, real>, fused: seq<Candidate>,
                                        i: nat, j: nat)
    requires Rankable(lists, k) && IsFusion(lists, k, weights, fused) && i < j < |fused|
    ensures InAny(lists, fused[i].path) && InAny(lists, fused[j].path)
    ensures var s, t := BestSource(lists, fused[i].path), BestSource(lists, fused[j].path);
            || fused[i].score > fused[j].score
            || (fused[i].score == fused[j].score && Precedes(s, t))
            || (fused[i].score == fused[j].score && s == t && Smaller(fused[i].path, fused[j].path))
    ensures fused[i].rank == i + 1 && fused[j].rank == j + 1
  {
    hide Score, BestSource, InAny, First, LexLess, Smaller, Priority, Precedes;
    assert fused[i] == FusedOf(lists, k, weights, fused[i].path, i);
    assert fused[j] == FusedOf(lists, k, weights, fused[j].path, j);
    var s, t := BestSource(lists, fused[i].path), BestSource(lists, fused[j].path);
    assert Before(KeyOf(lists, k, weights, fused[i].path), KeyOf(lists, k, weights, fused[j].path));
    PriorityIsPrecedence(s, t);
    LexIsSmaller(fused[i].path, fused[j].path);
  }

  /** The best source is the first of the order that has the path. */
  lemma {:induction false} BestSourceIs(lists: Lists, path: string, s: Source)
    requires InAny(lists, path)
    ensures InSource(lists, BestSource(lists, path), path)
    ensures InSource(lists, s, path) && s != BestSource(lists, path) ==> Precedes(BestSource(lists, path), s)
  {
    hide Occurs, Priority, Precedes;
    PriorityIsPrecedence(BestSource(lists, path), s);
  }

  /* ---------- the score ---------- */

  /** An occurrence of a candidate in a source of some weight. */
  datatype Hit = Hit(weight: real, c: Candidate)

  function Hits(list: seq<Candidate>, w: real): (hs: seq<Hit>)
    ensures |hs| == |list| && forall i | 0 <= i < |list| :: hs[i] == Hit(w, list[i])
  {
    seq(|list|, i requires 0 <= i < |list| => Hit(w, list[i]))
  }

  /** The sum of weight / (k + rank) over the hits of a path. */
  function Total(hs: seq<Hit>, path: string, k: int): real
    requires forall h | h in hs :: k + h.c.rank > 0
  {
    if hs == [] then 0.0 else
      (if hs[0].c.path == path then hs[0].weight / (k + hs[0].c.rank) as real else 0.0) + Total(hs[1..], path, k)
  }

  lemma {:induction false} TotalConcat(a: seq<Hit>, b: seq<Hit>, path: string, k: int)
    requires forall h | h in a :: k + h.c.rank > 0
    requires forall h | h in b :: k + h.c.rank > 0
    requires forall h | h in a + b :: k + h.c.rank > 0
    ensures Total(a + b, path, k) == Total(a, path, k) + Total(b, path, k)
  {
    if a == [] {
      assert a + b == b;
    } else {
      assert (a + b)[1..] == a[1..] + b;
      TotalConcat(a[1..], b, path, k);
    }
  }

  lemma {:induction false} ShareIsTotal(list: seq<Candidate>, path: string, w: real, k: int, n: nat)
    requires n <= |list| && forall i | 0 <= i < |list| :: k + list[i].rank > 0
    ensures forall h | h in Hits(list[..n], w) :: k + h.c.rank > 0
    ensures Share(list, path, w, k, n) == Total(Hits(list[..n], w), path, k)
  {
    if n != 0 {
      ShareIsTotal(list, path, w, k, n - 1);
      var front, last := Hits(list[..n - 1], w), [Hit(w, list[n - 1])];
      assert Hits(list[..n], w) == front + last;
      TotalConcat(front, last, path, k);
      assert last[1..] == [];
    }
  }

  function HitsOf(lists: Lists, weights: map<Source, real>, s: Source): seq<Hit> {
    if s in lists then Hits(lists[s], if s in weights then weights[s] else 1.0) else []
  }

  lemma {:induction false} SourceShareIsTotal(lists: Lists, k: int, weights: map<Source, real>, s: Source, path: string)
    requires Rankable(lists, k)
    ensures forall h | h in HitsOf(lists, weights, s) :: k + h.c.rank > 0
    ensures SourceShare(lists, k, weights, s, path) == Total(HitsOf(lists, weights, s), path, k)
  {
    if s in lists {
      ShareIsTotal(lists[s], path, Weight(weights, s), k, |lists[s]|);
      assert lists[s][..|lists[s]|] == lists[s];
    }
  }

  /** The score of a path is the sum over all its occurrences in the four sources taken together. */
  lemma {:induction false} ScoreIsTotal(lists: Lists, k: int, weights: map<Source, real>, path: string)
    requires Rankable(lists, k)
    ensures var hs := HitsOf(lists, weights, Pinned) + HitsOf(lists, weights, Vector)
                      + HitsOf(lists, weights, Lexical) + HitsOf(lists, weights, ReferenceHop);
            (forall h | h in hs :: k + h.c.rank > 0) && Score(lists, k, weights, path) == Total(hs, path, k)
  {
    hide Total, HitsOf;
    var p, v := HitsOf(lists, weights, Pinned), HitsOf(lists, weights, Vector);
    var l, h := HitsOf(lists, weights, Lexical), HitsOf(lists, weights, ReferenceHop);
    SourceShareIsTotal(lists, k, weights, Pinned, path);
    SourceShareIsTotal(lists, k, weights, Vector, path);
    SourceShareIsTotal(lists, k, weights, Lexical, path);
    SourceShareIsTotal(lists, k, weights, ReferenceHop, path);
    TotalConcat(p, v, path, k);
    TotalConcat(p + v, l, path, k);
    TotalConcat(p + v + l, h, path, k);
  }
}
