/**
 The conflict table that online detection accumulates agrees, after every run of fact
 writes, with a batch check of the facts that are current.
 */
module ConflictProperties {
  import opened Results
  import opened ConflictDetector

  /* ---------- the batch check ---------- */

  predicate DistinctMembers(g: Group) {
    forall i, j | 0 <= i < j < |g.members| :: g.members[i] != g.members[j]
  }

  ghost predicate ValidRegistry(groups: seq<Group>) {
    && (forall g | g in groups :: DistinctMembers(g))
    && forall m, n | 0 <= m < n < |groups| :: groups[m].key != groups[n].key
  }

  /**
   The pairs a group constrains: current facts a and b of an earlier and a later member; in
   a chain, with no current fact of a member in between.
   */
  ghost predicate Related(facts: seq<Fact>, loan: nat, g: Group, i: nat, j: nat, a: Fact, b: Fact) {
    && i < j < |g.members|
    && Latest(facts, loan, g.members[i]) == Some(a)
    && Latest(facts, loan, g.members[j]) == Some(b)
    && (g.IsChain() ==> forall k | i < k < j :: Latest(facts, loan, g.members[k]).None?)
  }

  function Check(g: Group, a: Fact, b: Fact): Result<bool, ComparisonError>
    requires a.value.Some? && b.value.Some?
  {
    if g.IsChain() then Increases(a.value.value, b.value.value) else Compare(g.op, a.value.value, b.value.value)
  }

  /** Every related pair is comparable, and has a row if it disagrees. */
  ghost predicate Complete(groups: seq<Group>, s: State) {
    forall g, loan: nat, i: nat, j: nat, a, b :: g in groups && Related(s.facts, loan, g, i, j, a, b) ==>
      Check(g, a, b).Ok? && (Check(g, a, b) == Ok(false) ==> HasRow(s.rows, g.key, a.id, b.id))
  }

  /** What a conflict of the group says besides the pair: operator, check, type and the field it is filed under. */
  predicate Reports(c: Conflict, g: Group, i: nat, j: nat) {
    && c.groupKey == g.key && c.op == g.op && c.raisesCheck == g.raisesCheck
    && (g.op.Equal? ==> c.conflictType == ValueMismatch)
    && (g.op.EqualWithin? ==> c.conflictType == ToleranceBreach)
    && (g.op.DateOrder? ==> c.conflictType == DateOrderBreach)
    && i < |g.members| && j < |g.members|
    && (c.field == g.members[j].field || (c.field == g.members[i].field && !g.IsChain()))
  }

  /** The row records a disagreement between two facts that were current after the first n writes. */
  ghost predicate Witness(groups: seq<Group>, facts: seq<Fact>, r: Row,
                          n: nat, g: Group, i: nat, j: nat, a: Fact, b: Fact)
  {
    && n <= |facts| && g in groups && Reports(r.conflict, g, i, j)
    && Related(facts[..n], r.loan, g, i, j, a, b)
    && a.id == r.conflict.a && b.id == r.conflict.b
    && Check(g, a, b) == Ok(false)
  }

  ghost predicate Sound(groups: seq<Group>, s: State) {
    forall r | r in s.rows :: exists n: nat, g, i: nat, j: nat, a, b :: Witness(groups, s.facts, r, n, g, i, j, a, b)
  }

  predicate SameKey(c: Conflict, d: Conflict) { c.groupKey == d.groupKey && c.a == d.a && c.b == d.b }

  ghost predicate UniqueKeys(rows: seq<Row>) {
    forall m, n | 0 <= m < n < |rows| :: !SameKey(rows[m].conflict, rows[n].conflict)
  }

  ghost predicate DistinctIds(facts: seq<Fact>) {
    forall m, n | 0 <= m < n < |facts| :: facts[m].id != facts[n].id
  }

  ghost predicate Consistent(groups: seq<Group>, s: State) {
    DistinctIds(s.facts) && UniqueKeys(s.rows) && Complete(groups, s) && Sound(groups, s)
  }

  ghost predicate Lists(cs: seq<Conflict>, key: string, a: nat, b: nat) {
    exists c | c in cs :: c.groupKey == key && c.a == a && c.b == b
  }

  /* ---------- current facts under a write ---------- */

  lemma LatestAfter(facts: seq<Fact>, f: Fact, loan: nat, m: Member)
    ensures Latest(facts + [f], loan, m) == if Matches(f, loan, m) then Some(f) else Latest(facts, loan, m)
  {
    assert (facts + [f])[..|facts|] == facts;
  }

  lemma {:induction false} PresentAt(facts: seq<Fact>, loan: nat, g: Group, n: nat, k: nat)
    requires n <= |g.members| && k < |Present(facts, loan, g, n)|
    ensures var p := Present(facts, loan, g, n);
            p[k].0 < n && Latest(facts, loan, g.members[p[k].0]) == Some(p[k].1)
  {
    if k < |Present(facts, loan, g, n - 1)| { PresentAt(facts, loan, g, n - 1, k); }
  }

  lemma {:induction false} PresentOrdered(facts: seq<Fact>, loan: nat, g: Group, n: nat, k: nat, l: nat)
    requires n <= |g.members| && k < l < |Present(facts, loan, g, n)|
    ensures Present(facts, loan, g, n)[k].0 < Present(facts, loan, g, n)[l].0
  {
    var before := Present(facts, loan, g, n - 1);
    if l < |before| {
      PresentOrdered(facts, loan, g, n - 1, k, l);
    } else {
      PresentAt(facts, loan, g, n - 1, k);
    }
  }

  lemma {:induction false} PresentListsAll(facts: seq<Fact>, loan: nat, g: Group, n: nat, i: nat) returns (k: nat)
    requires i < n <= |g.members| && Latest(facts, loan, g.members[i]).Some?
    ensures var p := Present(facts, loan, g, n); k < |p| && p[k] == (i, Latest(facts, loan, g.members[i]).value)
  {
    if i == n - 1 {
      k := |Present(facts, loan, g, n)| - 1;
    } else {
      k := PresentListsAll(facts, loan, g, n - 1, i);
    }
  }

  /** Neighbours in the list of present facts are exactly the related pairs of a chain. */
  lemma NeighboursRelated(facts: seq<Fact>, loan: nat, g: Group, k: nat)
    requires g.IsChain() && k + 1 < |Present(facts, loan, g, |g.members|)|
    ensures var p := Present(facts, loan, g, |g.members|);
            Related(facts, loan, g, p[k].0, p[k + 1].0, p[k].1, p[k + 1].1)
  {
    var p, n := Present(facts, loan, g, |g.members|), |g.members|;
    PresentAt(facts, loan, g, n, k);
    PresentAt(facts, loan, g, n, k + 1);
    PresentOrdered(facts, loan, g, n, k, k + 1);
    forall m | p[k].0 < m < p[k + 1].0
      ensures Latest(facts, loan, g.members[m]).None?
    {
      if Latest(facts, loan, g.members[m]).Some? {
        var l := PresentListsAll(facts, loan, g, n, m);
        if l < k { PresentOrdered(facts, loan, g, n, l, k); }
        if k + 1 < l { PresentOrdered(facts, loan, g, n, k + 1, l); }
      }
    }
  }

  lemma RelatedNeighbours(facts: seq<Fact>, loan: nat, g: Group, i: nat, j: nat, a: Fact, b: Fact) returns (k: nat)
    requires g.IsChain() && Related(facts, loan, g, i, j, a, b)
    ensures var p := Present(facts, loan, g, |g.members|);
            k + 1 < |p| && p[k] == (i, a) && p[k + 1] == (j, b)
  {
    var n := |g.members|;
    k := PresentListsAll(facts, loan, g, n, i);
    var l := PresentListsAll(facts, loan, g, n, j);
    if l < k { PresentOrdered(facts, loan, g, n, l, k); }
    if k + 1 < l {
      PresentOrdered(facts, loan, g, n, k, k + 1);
      PresentOrdered(facts, loan, g, n, k + 1, l);
      PresentAt(facts, loan, g, n, k + 1);
    }
  }

  /* ---------- what detection reports ---------- */

  lemma {:induction false} PairFinds(facts: seq<Fact>, g: Group, t: nat, f: Fact, n: nat)
    requires t < |g.members| && n <= |g.members| && f.value.Some?
    requires PairConflicts(facts, g, t, f, n).Ok?
    ensures forall idx | 0 <= idx < n && idx != t && Latest(facts, f.loan, g.members[idx]).Some? ::
              var (a, b) := Oriented(t, f, idx, Latest(facts, f.loan, g.members[idx]).value);
              var ok := Compare(g.op, a.value.value, b.value.value);
              ok.Ok? && (ok == Ok(false) ==> Lists(PairConflicts(facts, g, t, f, n).value, g.key, a.id, b.id))
    ensures forall c | c in PairConflicts(facts, g, t, f, n).value ::
              exists idx | 0 <= idx < n :: PairSource(facts, g, t, f, idx, c)
  {
    if n != 0 {
      PairFinds(facts, g, t, f, n - 1);
      var before, cs := PairConflicts(facts, g, t, f, n - 1).value, PairConflicts(facts, g, t, f, n).value;
      assert before <= cs;
      forall idx | 0 <= idx < n && idx != t && Latest(facts, f.loan, g.members[idx]).Some?
        ensures var (a, b) := Oriented(t, f, idx, Latest(facts, f.loan, g.members[idx]).value);
                var ok := Compare(g.op, a.value.value, b.value.value);
                ok.Ok? && (ok == Ok(false) ==> Lists(cs, g.key, a.id, b.id))
      {
        var (a, b) := Oriented(t, f, idx, Latest(facts, f.loan, g.members[idx]).value);
        if idx == n - 1 {
          if Compare(g.op, a.value.value, b.value.value) == Ok(false) { assert cs[|cs| - 1] in cs; }
        } else if Compare(g.op, a.value.value, b.value.value) == Ok(false) {
          var c :| c in before && c.groupKey == g.key && c.a == a.id && c.b == b.id;
          assert c in cs;
        }
      }
      forall c | c in cs
        ensures exists idx | 0 <= idx < n :: PairSource(facts, g, t, f, idx, c)
      {
        if c !in before { assert PairSource(facts, g, t, f, n - 1, c); }
      }
    }
  }

  /** The conflict reports the disagreement of the trigger with the fact of member idx. */
  ghost predicate PairSource(facts: seq<Fact>, g: Group, t: nat, f: Fact, idx: nat, c: Conflict)
    requires t < |g.members| && f.value.Some?
  {
    && idx < |g.members| && idx != t && Latest(facts, f.loan, g.members[idx]).Some?
    && var (a, b) := Oriented(t, f, idx, Latest(facts, f.loan, g.members[idx]).value);
    && Compare(g.op, a.value.value, b.value.value) == Ok(false)
    && c == ConflictOf(g, g.members[t].field, a, b)
  }

  lemma {:induction false} ChainFinds(g: Group, present: seq<(nat, Fact)>, n: nat)
    requires n <= |present| && forall p | p in present :: p.0 < |g.members| && p.1.value.Some?
    requires ChainConflicts(g, present, n).Ok?
    ensures forall k | 0 <= k && k + 1 < n ::
              var ok := Increases(present[k].1.value.value, present[k + 1].1.value.value);
              ok.Ok? && (ok == Ok(false) ==>
                Lists(ChainConflicts(g, present, n).value, g.key, present[k].1.id, present[k + 1].1.id))
    ensures forall c | c in ChainConflicts(g, present, n).value ::
              exists k | 0 <= k < n - 1 :: ChainSource(g, present, k, c)
  {
    if n >= 2 {
      ChainFinds(g, present, n - 1);
      var before, cs := ChainConflicts(g, present, n - 1).value, ChainConflicts(g, present, n).value;
      assert before <= cs;
      forall k | 0 <= k && k + 1 < n
        ensures var ok := Increases(present[k].1.value.value, present[k + 1].1.value.value);
                ok.Ok? && (ok == Ok(false) ==> Lists(cs, g.key, present[k].1.id, present[k + 1].1.id))
      {
        if Increases(present[k].1.value.value, present[k + 1].1.value.value) == Ok(false) {
          if k + 2 == n {
            assert cs[|cs| - 1] in cs;
          } else {
            var c :| c in before && c.groupKey == g.key && c.a == present[k].1.id && c.b == present[k + 1].1.id;
            assert c in cs;
          }
        }
      }
      forall c | c in cs
        ensures exists k | 0 <= k < n - 1 :: ChainSource(g, present, k, c)
      {
        if c !in before { assert ChainSource(g, present, n - 2, c); }
      }
    }
  }

  ghost predicate ChainSource(g: Group, present: seq<(nat, Fact)>, k: nat, c: Conflict)
    requires forall p | p in present :: p.0 < |g.members| && p.1.value.Some?
  {
    && k + 1 < |present|
    && Increases(present[k].1.value.value, present[k + 1].1.value.value) == Ok(false)
    && c == ConflictOf(g, g.members[present[k + 1].0].field, present[k].1, present[k + 1].1)
              .(conflictType := DateOrderBreach)
  }

  /** The pairs a write of f makes the detector look at. */
  ghost predicate Triggered(g: Group, f: Fact, i: nat, j: nat) {
    i < j < |g.members| && (g.IsChain() || MemberOf(f) == g.members[i] || MemberOf(f) == g.members[j])
  }

  /** A group reports exactly the triggered related pairs that disagree. */
  lemma GroupFindsAll(facts: seq<Fact>, g: Group, f: Fact, i: nat, j: nat, a: Fact, b: Fact)
    requires f.value.Some? && MemberOf(f) in g.members && DistinctMembers(g)
    requires Latest(facts, f.loan, MemberOf(f)) == Some(f)
    requires GroupConflicts(facts, g, f).Ok?
    requires Triggered(g, f, i, j) && Related(facts, f.loan, g, i, j, a, b)
    ensures Check(g, a, b).Ok?
    ensures Check(g, a, b) == Ok(false) ==> Lists(GroupConflicts(facts, g, f).value, g.key, a.id, b.id)
  {
    if g.IsChain() {
      var present := Present(facts, f.loan, g, |g.members|);
      ChainFinds(g, present, |present|);
      var k := RelatedNeighbours(facts, f.loan, g, i, j, a, b);
    } else {
      var t := IndexOf(g.members, MemberOf(f));
      PairFinds(facts, g, t, f, |g.members|);
      assert t == i || t == j;
    }
  }

  lemma GroupFindsOnly(facts: seq<Fact>, g: Group, f: Fact, c: Conflict) returns (i: nat, j: nat, a: Fact, b: Fact)
    requires f.value.Some? && MemberOf(f) in g.members && DistinctMembers(g)
    requires Latest(facts, f.loan, MemberOf(f)) == Some(f)
    requires GroupConflicts(facts, g, f).Ok? && c in GroupConflicts(facts, g, f).value
    ensures Related(facts, f.loan, g, i, j, a, b) && Check(g, a, b) == Ok(false)
    ensures Reports(c, g, i, j) && c.a == a.id && c.b == b.id
  {
    if g.IsChain() {
      var present := Present(facts, f.loan, g, |g.members|);
      ChainFinds(g, present, |present|);
      var k :| 0 <= k < |present| - 1 && ChainSource(g, present, k, c);
      NeighboursRelated(facts, f.loan, g, k);
      i, j, a, b := present[k].0, present[k + 1].0, present[k].1, present[k + 1].1;
    } else {
      var t := IndexOf(g.members, MemberOf(f));
      PairFinds(facts, g, t, f, |g.members|);
      var idx :| 0 <= idx < |g.members| && PairSource(facts, g, t, f, idx, c);
      var (x, y) := Oriented(t, f, idx, Latest(facts, f.loan, g.members[idx]).value);
      i, j, a, b := if idx < t then idx else t, if idx < t then t else idx, x, y;
    }
  }

  lemma {:induction false} DetectFinds(facts: seq<Fact>, groups: seq<Group>, f: Fact, n: nat)
    requires n <= |groups| && f.value.Some? && Detect(facts, groups, f, n).Ok?
    ensures forall m | 0 <= m < n && MemberOf(f) in groups[m].members ::
              var found := GroupConflicts(facts, groups[m], f);
              found.Ok? && forall c | c in found.value :: c in Detect(facts, groups, f, n).value
    ensures forall c | c in Detect(facts, groups, f, n).value ::
              exists m | 0 <= m < n :: DetectSource(facts, groups[m], f, c)
  {
    if n != 0 {
      DetectFinds(facts, groups, f, n - 1);
      var before, cs := Detect(facts, groups, f, n - 1).value, Detect(facts, groups, f, n).value;
      assert before <= cs;
      forall c | c in cs
        ensures exists m | 0 <= m < n :: DetectSource(facts, groups[m], f, c)
      {
        if c !in before { assert DetectSource(facts, groups[n - 1], f, c); }
      }
    }
  }

  ghost predicate DetectSource(facts: seq<Fact>, g: Group, f: Fact, c: Conflict) {
    && f.value.Some? && MemberOf(f) in g.members
    && GroupConflicts(facts, g, f).Ok? && c in GroupConflicts(facts, g, f).value
  }

  /* ---------- what persisting does to the table ---------- */

  lemma {:induction false} PersistAdds(rows: seq<Row>, loan: nat, cs: seq<Conflict>, n: nat)
    requires n <= |cs| && UniqueKeys(rows)
    ensures var after := Persist(rows, loan, cs, n);
            && rows <= after && UniqueKeys(after)
            && (forall r | r in after :: r in rows || (r.loan == loan && r.conflict in cs))
            && forall c | c in cs[..n] :: HasRow(after, c.groupKey, c.a, c.b)
  {
    hide HasRow, UniqueKeys;
    if n != 0 {
      PersistAdds(rows, loan, cs, n - 1);
      var before, after := Persist(rows, loan, cs, n - 1), Persist(rows, loan, cs, n);
      var d := cs[n - 1];
      AddedRow(before, Row(loan, d));
      forall c | c in cs[..n]
        ensures HasRow(after, c.groupKey, c.a, c.b)
      {
        if c in cs[..n - 1] { RowStays(before, after, c.groupKey, c.a, c.b); } else { assert c == d; }
      }
    }
  }

  lemma {:induction false} AddedRow(rows: seq<Row>, r: Row)
    ensures HasRow(rows + [r], r.conflict.groupKey, r.conflict.a, r.conflict.b)
    ensures UniqueKeys(rows) && !HasRow(rows, r.conflict.groupKey, r.conflict.a, r.conflict.b) ==>
            UniqueKeys(rows + [r])
  {
    assert r in rows + [r];
    assert forall m | 0 <= m < |rows| :: rows[m] in rows;
  }

  lemma {:induction false} PersistNothingNew(rows: seq<Row>, loan: nat, cs: seq<Conflict>, n: nat)
    requires n <= |cs| && forall c | c in cs :: HasRow(rows, c.groupKey, c.a, c.b)
    ensures Persist(rows, loan, cs, n) == rows
  {
    if n != 0 { PersistNothingNew(rows, loan, cs, n - 1); }
  }

  /* ---------- one write ---------- */

  lemma StepComplete(groups: seq<Group>, s: State, f: Fact)
    requires ValidRegistry(groups) && Consistent(groups, s)
    requires Detect(s.facts + [f], groups, f, |groups|).Ok?
    ensures Complete(groups, Step(groups, s, f))
  {
    var facts, s' := s.facts + [f], Step(groups, s, f);
    var cs := Detect(facts, groups, f, |groups|).value;
    PersistAdds(s.rows, f.loan, cs, |cs|);
    assert cs[..|cs|] == cs;
    forall g, loan: nat, i: nat, j: nat, a, b | g in groups && Related(facts, loan, g, i, j, a, b)
      ensures Check(g, a, b).Ok? && (Check(g, a, b) == Ok(false) ==> HasRow(s'.rows, g.key, a.id, b.id))
    {
      forall k | 0 <= k < |g.members| { LatestAfter(s.facts, f, loan, g.members[k]); }
      if f.value.Some? && loan == f.loan && MemberOf(f) in g.members && Triggered(g, f, i, j) {
        LatestAfter(s.facts, f, loan, MemberOf(f));
        DetectFinds(facts, groups, f, |groups|);
        GroupFindsAll(facts, g, f, i, j, a, b);
      } else {
        assert Related(s.facts, loan, g, i, j, a, b);
        if Check(g, a, b) == Ok(false) { RowStays(s.rows, s'.rows, g.key, a.id, b.id); }
      }
    }
  }

  lemma RowStays(rows: seq<Row>, rows': seq<Row>, key: string, a: nat, b: nat)
    requires rows <= rows' && HasRow(rows, key, a, b)
    ensures HasRow(rows', key, a, b)
  {
    var r :| r in rows && r.conflict.groupKey == key && r.conflict.a == a && r.conflict.b == b;
    assert r in rows';
  }

  lemma {:induction false} OldRowWitness(groups: seq<Group>, s: State, f: Fact, r: Row)
    requires Sound(groups, s) && r in s.rows
    ensures exists n: nat, g, i: nat, j: nat, a, b :: Witness(groups, s.facts + [f], r, n, g, i, j, a, b)
  {
    var n: nat, g, i: nat, j: nat, a, b :| Witness(groups, s.facts, r, n, g, i, j, a, b);
    assert (s.facts + [f])[..n] == s.facts[..n];
    assert Witness(groups, s.facts + [f], r, n, g, i, j, a, b);
  }

  lemma {:induction false} NewRowWitness(groups: seq<Group>, facts: seq<Fact>, f: Fact, r: Row)
    requires ValidRegistry(groups) && facts != [] && facts[|facts| - 1] == f && r.loan == f.loan
    requires Detect(facts, groups, f, |groups|).Ok? && r.conflict in Detect(facts, groups, f, |groups|).value
    ensures exists g, i: nat, j: nat, a, b :: Witness(groups, facts, r, |facts|, g, i, j, a, b)
  {
    DetectFinds(facts, groups, f, |groups|);
    var m :| 0 <= m < |groups| && DetectSource(facts, groups[m], f, r.conflict);
    var i, j, a, b := GroupFindsOnly(facts, groups[m], f, r.conflict);
    assert facts[..|facts|] == facts;
    assert Witness(groups, facts, r, |facts|, groups[m], i, j, a, b);
  }

  lemma StepSound(groups: seq<Group>, s: State, f: Fact)
    requires ValidRegistry(groups) && Consistent(groups, s)
    requires Detect(s.facts + [f], groups, f, |groups|).Ok?
    ensures Sound(groups, Step(groups, s, f))
  {
    var facts, s' := s.facts + [f], Step(groups, s, f);
    var cs := Detect(facts, groups, f, |groups|).value;
    PersistAdds(s.rows, f.loan, cs, |cs|);
    forall r | r in s'.rows
      ensures exists n: nat, g, i: nat, j: nat, a, b :: Witness(groups, s'.facts, r, n, g, i, j, a, b)
    {
      if r in s.rows {
        OldRowWitness(groups, s, f, r);
      } else {
        NewRowWitness(groups, facts, f, r);
        var g, i: nat, j: nat, a, b :| Witness(groups, facts, r, |facts|, g, i, j, a, b);
      }
    }
  }

  /** Every write keeps the table consistent with the facts. */
  lemma StepConsistent(groups: seq<Group>, s: State, f: Fact)
    requires ValidRegistry(groups) && Consistent(groups, s)
    requires forall g | g in s.facts :: g.id != f.id
    ensures Consistent(groups, Step(groups, s, f))
  {
    var found := Detect(s.facts + [f], groups, f, |groups|);
    if found.Ok? {
      StepComplete(groups, s, f);
      StepSound(groups, s, f);
      PersistAdds(s.rows, f.loan, found.value, |found.value|);
    }
  }

  /** After every run of writes with fresh ids the table is consistent. */
  lemma {:induction false} RunConsistent(groups: seq<Group>, writes: seq<Fact>)
    requires ValidRegistry(groups) && DistinctIds(writes)
    ensures Consistent(groups, Run(groups, writes))
    ensures forall f | f in Run(groups, writes).facts :: f in writes
  {
    if writes != [] {
      var before, f := writes[..|writes| - 1], writes[|writes| - 1];
      RunConsistent(groups, before);
      StepConsistent(groups, Run(groups, before), f);
    }
  }

  /** A row that a write adds records a disagreement between facts that are current at that very write. */
  lemma {:induction false} TrueWhenWritten(groups: seq<Group>, writes: seq<Fact>, n: nat, r: Row)
    requires ValidRegistry(groups) && DistinctIds(writes) && n < |writes|
    requires r in Run(groups, writes[..n + 1]).rows && r !in Run(groups, writes[..n]).rows
    ensures var facts := Run(groups, writes[..n + 1]).facts;
            exists g, i: nat, j: nat, a, b :: Witness(groups, facts, r, |facts|, g, i, j, a, b)
  {
    hide Run, Witness;
    var s, f := Run(groups, writes[..n]), writes[n];
    RunSnoc(groups, writes, n);
    RunConsistent(groups, writes[..n]);
    var found := Detect(s.facts + [f], groups, f, |groups|);
    if found.Ok? {
      PersistAdds(s.rows, f.loan, found.value, |found.value|);
      NewRowWitness(groups, s.facts + [f], f, r);
    }
  }

  lemma {:induction false} RunSnoc(groups: seq<Group>, writes: seq<Fact>, n: nat)
    requires n < |writes|
    ensures Run(groups, writes[..n + 1]) == Step(groups, Run(groups, writes[..n]), writes[n])
  {
    hide Step;
    assert writes[..n + 1][..n] == writes[..n];
  }

  /** A pair of current facts has exactly one row, oriented by member order, if it disagrees, and none otherwise. */
  lemma {:induction false} RowIffDisagreement(groups: seq<Group>, writes: seq<Fact>, g: Group, loan: nat, i: nat,
      j: nat, a: Fact, b: Fact)
    requires ValidRegistry(groups) && DistinctIds(writes) && g in groups
    requires Related(Run(groups, writes).facts, loan, g, i, j, a, b)
    ensures Check(g, a, b).Ok?
    ensures HasRow(Run(groups, writes).rows, g.key, a.id, b.id) <==> Check(g, a, b) == Ok(false)
    ensures UniqueKeys(Run(groups, writes).rows) && !HasRow(Run(groups, writes).rows, g.key, b.id, a.id)
  {
    hide Run, Compare, Increases, Latest, Complete;
    RunConsistent(groups, writes);
    RunComplete(groups, Run(groups, writes), g, loan, i, j, a, b);
    NoReversedRow(groups, Run(groups, writes), g, loan, i, j, a, b);
    if HasRow(Run(groups, writes).rows, g.key, a.id, b.id) {
      RowMeansDisagreement(groups, Run(groups, writes), g, loan, i, j, a, b);
    }
  }

  lemma {:induction false} RunComplete(groups: seq<Group>, s: State, g: Group, loan: nat, i: nat, j: nat, a: Fact,
      b: Fact)
    requires Complete(groups, s) && g in groups && Related(s.facts, loan, g, i, j, a, b)
    ensures Check(g, a, b).Ok? && (Check(g, a, b) == Ok(false) ==> HasRow(s.rows, g.key, a.id, b.id))
  {
    hide HasRow, Related, Check;
  }

  /** The facts of a row, by the members they were recorded for. */
  lemma {:induction false} RowFacts(groups: seq<Group>, s: State, g: Group, r: Row) returns (i: nat, j: nat, a: Fact,
      b: Fact)
    requires ValidRegistry(groups) && Sound(groups, s) && g in groups && r in s.rows && r.conflict.groupKey == g.key
    ensures i < j < |g.members| && a in s.facts && b in s.facts && a.id == r.conflict.a && b.id == r.conflict.b
    ensures Matches(a, r.loan, g.members[i]) && Matches(b, r.loan, g.members[j])
  {
    hide Compare, Increases, Latest;
    var n: nat, h, i', j', a', b' :| Witness(groups, s.facts, r, n, h, i', j', a', b');
    SameGroupKey(groups, g, h);
    i, j, a, b := i', j', a', b';
  }

  /** No row holds the pair the other way round, whichever fact triggered its detection. */
  lemma {:induction false} NoReversedRow(groups: seq<Group>, s: State, g: Group, loan: nat, i: nat, j: nat, a: Fact,
      b: Fact)
    requires ValidRegistry(groups) && Consistent(groups, s) && g in groups && Related(s.facts, loan, g, i, j, a, b)
    ensures !HasRow(s.rows, g.key, b.id, a.id)
  {
    hide Compare, Increases, Latest, Complete, Sound;
    forall r | r in s.rows && r.conflict.groupKey == g.key
      ensures !(r.conflict.a == b.id && r.conflict.b == a.id)
    {
      var k, l, x, y := RowFacts(groups, s, g, r);
      if x.id == b.id {
        SameId(s.facts, x, b);
        SameMember(g, b, loan, r.loan, j, k);
      }
      if y.id == a.id {
        SameId(s.facts, y, a);
        SameMember(g, a, loan, r.loan, i, l);
      }
    }
  }

  lemma {:induction false} SameGroupKey(groups: seq<Group>, g: Group, h: Group)
    requires ValidRegistry(groups) && g in groups && h in groups && g.key == h.key
    ensures g == h
  {
  }

  lemma {:induction false} SameMember(g: Group, f: Fact, loan: nat, loan': nat, i: nat, j: nat)
    requires DistinctMembers(g) && i < |g.members| && j < |g.members|
    requires Matches(f, loan, g.members[i]) && Matches(f, loan', g.members[j])
    ensures i == j
  {
    assert g.members[i] == Member(f.docType, f.field) == g.members[j];
  }

  lemma {:induction false} RowMeansDisagreement(groups: seq<Group>, s: State, g: Group, loan: nat, i: nat, j: nat,
      a: Fact, b: Fact)
    requires ValidRegistry(groups) && Consistent(groups, s) && g in groups
    requires Related(s.facts, loan, g, i, j, a, b) && HasRow(s.rows, g.key, a.id, b.id)
    ensures Check(g, a, b) == Ok(false)
  {
    hide Compare, Increases, Latest;
    var r :| r in s.rows && r.conflict.groupKey == g.key && r.conflict.a == a.id && r.conflict.b == b.id;
    var n: nat, g', i': nat, j': nat, a', b' :| Witness(groups, s.facts, r, n, g', i', j', a', b');
    assert g' == g;
    SameId(s.facts, a, a');
    SameId(s.facts, b, b');
  }

  lemma {:induction false} SameId(facts: seq<Fact>, f: Fact, g: Fact)
    requires DistinctIds(facts) && f in facts && g in facts && f.id == g.id
    ensures f == g
  {
  }

  /** Detecting again for a fact that is still current finds nothing new. */
  lemma RedetectionAddsNothing(groups: seq<Group>, s: State, f: Fact)
    requires ValidRegistry(groups) && Consistent(groups, s)
    requires f.value.Some? && Latest(s.facts, f.loan, MemberOf(f)) == Some(f)
    ensures Detect(s.facts, groups, f, |groups|).Ok?
    ensures var cs := Detect(s.facts, groups, f, |groups|).value;
            Persist(s.rows, f.loan, cs, |cs|) == s.rows
  {
    CurrentDetectOk(groups, s, f, |groups|);
    var found := Detect(s.facts, groups, f, |groups|);
    DetectFinds(s.facts, groups, f, |groups|);
    forall c | c in found.value
      ensures HasRow(s.rows, c.groupKey, c.a, c.b)
    {
      var m :| 0 <= m < |groups| && DetectSource(s.facts, groups[m], f, c);
      var i, j, a, b := GroupFindsOnly(s.facts, groups[m], f, c);
    }
    PersistNothingNew(s.rows, f.loan, found.value, |found.value|);
  }

  lemma {:induction false} CurrentPairsOk(groups: seq<Group>, s: State, g: Group, t: nat, f: Fact, n: nat)
    requires Complete(groups, s) && g in groups && !g.IsChain()
    requires t < |g.members| && n <= |g.members| && f.value.Some?
    requires Latest(s.facts, f.loan, g.members[t]) == Some(f)
    ensures PairConflicts(s.facts, g, t, f, n).Ok?
  {
    if n != 0 {
      CurrentPairsOk(groups, s, g, t, f, n - 1);
      var other := Latest(s.facts, f.loan, g.members[n - 1]);
      if n - 1 != t && other.Some? {
        var (a, b) := Oriented(t, f, n - 1, other.value);
        var i, j := if n - 1 < t then n - 1 else t, if n - 1 < t then t else n - 1;
        assert Related(s.facts, f.loan, g, i, j, a, b);
      }
    }
  }

  lemma {:induction false} CurrentChainOk(groups: seq<Group>, s: State, g: Group, loan: nat, n: nat)
    requires Complete(groups, s) && g in groups && g.IsChain()
    requires n <= |Present(s.facts, loan, g, |g.members|)|
    ensures ChainConflicts(g, Present(s.facts, loan, g, |g.members|), n).Ok?
  {
    if n >= 2 {
      CurrentChainOk(groups, s, g, loan, n - 1);
      NeighboursRelated(s.facts, loan, g, n - 2);
    }
  }

  lemma {:induction false} CurrentDetectOk(groups: seq<Group>, s: State, f: Fact, n: nat)
    requires Complete(groups, s) && n <= |groups|
    requires f.value.Some? && Latest(s.facts, f.loan, MemberOf(f)) == Some(f)
    ensures Detect(s.facts, groups, f, n).Ok?
  {
    if n != 0 {
      CurrentDetectOk(groups, s, f, n - 1);
      var g := groups[n - 1];
      if MemberOf(f) in g.members {
        if g.IsChain() {
          CurrentChainOk(groups, s, g, f.loan, |Present(s.facts, f.loan, g, |g.members|)|);
        } else {
          CurrentPairsOk(groups, s, g, IndexOf(g.members, MemberOf(f)), f, |g.members|);
        }
      }
    }
  }

  /* ---------- chains ---------- */

  ghost predicate NoDisagreement(facts: seq<Fact>, loan: nat, g: Group) {
    forall i: nat, j: nat, a, b :: Related(facts, loan, g, i, j, a, b) ==> Check(g, a, b) != Ok(false)
  }

  ghost predicate Ascending(present: seq<(nat, Fact)>)
    requires forall p | p in present :: p.1.value.Some?
  {
    forall k, l | 0 <= k < l < |present| ::
      Increases(present[k].1.value.value, present[l].1.value.value) == Ok(true)
  }

  /** No neighbours out of order exactly when all present dates are pairwise increasing. */
  lemma {:induction false} ChainIffIncreasing(groups: seq<Group>, s: State, g: Group, loan: nat)
    requires Complete(groups, s) && g in groups && g.IsChain()
    ensures NoDisagreement(s.facts, loan, g) <==> Ascending(Present(s.facts, loan, g, |g.members|))
  {
    hide Increases, Latest, Present;
    var p := Present(s.facts, loan, g, |g.members|);
    if NoDisagreement(s.facts, loan, g) {
      forall k, l | 0 <= k < l < |p|
        ensures Increases(p[k].1.value.value, p[l].1.value.value) == Ok(true)
      {
        ChainClimbs(groups, s, g, loan, k, l);
      }
    }
    if Ascending(p) {
      forall i: nat, j: nat, a, b | Related(s.facts, loan, g, i, j, a, b)
        ensures Check(g, a, b) != Ok(false)
      {
        var k := RelatedNeighbours(s.facts, loan, g, i, j, a, b);
      }
    }
  }

  lemma {:induction false} ChainClimbs(groups: seq<Group>, s: State, g: Group, loan: nat, k: nat, l: nat)
    requires Complete(groups, s) && g in groups && g.IsChain() && NoDisagreement(s.facts, loan, g)
    requires k < l < |Present(s.facts, loan, g, |g.members|)|
    ensures var p := Present(s.facts, loan, g, |g.members|);
            Increases(p[k].1.value.value, p[l].1.value.value) == Ok(true)
  {
    var p := Present(s.facts, loan, g, |g.members|);
    NeighboursRelated(s.facts, loan, g, l - 1);
    assert Check(g, p[l - 1].1, p[l].1) == Ok(true);
    if k < l - 1 { ChainClimbs(groups, s, g, loan, k, l - 1); }
  }

  /* ---------- what the comparisons mean ---------- */

  /** Equality and tolerance do not depend on the orientation; tolerance zero is equality; before is after reversed. */
  lemma {:induction false} CompareTurned(a: FactValue, b: FactValue, tolerance: int)
    ensures Compare(Equal, a, b) == Compare(Equal, b, a)
    ensures Compare(EqualWithin(tolerance), a, b) == Compare(EqualWithin(tolerance), b, a)
    ensures Numeric(a) ==> Compare(EqualWithin(0), a, b) == Compare(Equal, a, b)
    ensures Compare(DateOrder(Before), a, b) == Compare(DateOrder(After(None)), b, a)
    ensures Increases(a, b) == Compare(DateOrder(After(None)), a, b)
  {
    match a {
      case DateValue(_) =>
      case DateTimeValue(_) =>
      case TimeValue(_) =>
      case MoneyValue(_, _) =>
      case RateValue(_) =>
      case IntValue(_) =>
      case DaysValue(_) =>
      case BoolValue(_) =>
      case EnumValue(_) =>
      case StringValue(_) =>
    }
  }

  function DayLength(v: FactValue): int { if v.DateValue? then 1 else MICROS_PER_DAY }

  /** Within n days means strictly later and before the end of the n-th full day. */
  lemma {:induction false} WithinDays(a: FactValue, b: FactValue, n: int)
    requires SameKind(a, b) && Dated(a)
    ensures Compare(DateOrder(After(Some(n))), a, b) == Ok(true)
            <==> Point(a) < Point(b) < Point(a) + (n + 1) * DayLength(a)
  {
    var gap := Point(b) - Point(a);
    if a.DateTimeValue? {
      var days := gap / MICROS_PER_DAY;
      assert days * MICROS_PER_DAY <= gap < (days + 1) * MICROS_PER_DAY;
      if days <= n {
        assert (days + 1) * MICROS_PER_DAY <= (n + 1) * MICROS_PER_DAY;
      } else {
        assert (n + 1) * MICROS_PER_DAY <= days * MICROS_PER_DAY;
      }
    }
  }
}
