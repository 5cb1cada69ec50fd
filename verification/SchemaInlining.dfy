/**
 The schema compiler of the LLM client: a JSON Schema is rewritten into the dialect a
 constrained decoder understands. References are inlined, an optional union becomes a
 `nullable` flag, and bounds and documentation keywords are dropped.
 */
module SchemaInlining {
  import opened Json

  predicate Dropped(k: Key) {
    k.Defs? || k.Minimum? || k.Maximum? || k.ExclusiveMinimum? || k.ExclusiveMaximum? || k.Description? || k.Title?
  }

  /* ---------- the rewrite ---------- */

  /** The part of a reference after its last '/'. */
  function LastSegment(ref: string): (name: string)
    ensures '/' !in name
  {
    if ref == "" then ""
    else if ref[|ref| - 1] == '/' then ""
    else LastSegment(ref[..|ref| - 1]) + [ref[|ref| - 1]]
  }

  predicate HasRef(f: map<Key, Json>) { Ref in f && f[Ref] != Null }

  predicate BinaryUnion(f: map<Key, Json>) {
    AnyOf in f && f[AnyOf].Arr? && |f[AnyOf].items| == 2
  }

  predicate IsNullBranch(b: Json) {
    b.Obj? && Type in b.fields && b.fields[Type] == Str("null")
  }

  /** Two branches of which exactly one is the null type. */
  predicate OptionalUnion(f: map<Key, Json>) {
    BinaryUnion(f) && (IsNullBranch(f[AnyOf].items[0]) != IsNullBranch(f[AnyOf].items[1]))
  }

  function NonNullBranch(f: map<Key, Json>): Json
    requires OptionalUnion(f)
  {
    if IsNullBranch(f[AnyOf].items[0]) then f[AnyOf].items[1] else f[AnyOf].items[0]
  }

  function NullBranch(f: map<Key, Json>): Json
    requires OptionalUnion(f)
  {
    if IsNullBranch(f[AnyOf].items[0]) then f[AnyOf].items[0] else f[AnyOf].items[1]
  }

  /** The single node an optional union is replaced by. */
  function Collapse(f: map<Key, Json>): (g: map<Key, Json>)
    requires OptionalUnion(f) && NonNullBranch(f).Obj?
  {
    var g := NonNullBranch(f).fields[Nullable := Bool(true)];
    if Default in f then g[Default := f[Default]] else g
  }

  /**
   The rewrite meets no missing definition, no reference that is not a string and no
   two-branch union with a branch that is not an object, and every reference goes to a
   definition of lower rank than `bound`.
   */
  ghost predicate Resolvable(node: Json, defs: map<string, Json>, rank: map<string, nat>, bound: nat) {
    match node
    case Obj(f) =>
      if HasRef(f) then
        && f[Ref].Str?
        && var name := LastSegment(f[Ref].s);
        && name in defs && name in rank && rank[name] < bound
      else
        && (BinaryUnion(f) ==> forall b | b in f[AnyOf].items :: b.Obj?)
        && forall k | k in f && !Dropped(k) :: Resolvable(f[k], defs, rank, bound)
    case Arr(items) => forall x | x in items :: Resolvable(x, defs, rank, bound)
    case _ => true
  }

  /** `rank` witnesses that the definitions are acyclic. */
  ghost predicate Acyclic(defs: map<string, Json>, rank: map<string, nat>) {
    forall d | d in defs :: d in rank && Resolvable(defs[d], defs, rank, rank[d])
  }

  lemma {:induction false} CollapseResolvable(f: map<Key, Json>, defs: map<string, Json>, rank: map<string, nat>,
      bound: nat)
    requires Resolvable(Obj(f), defs, rank, bound) && !HasRef(f) && OptionalUnion(f)
    ensures NonNullBranch(f).Obj?
    ensures Resolvable(NonNullBranch(f), defs, rank, bound)
    ensures Resolvable(Obj(Collapse(f)), defs, rank, bound)
  {
    assert Resolvable(f[AnyOf], defs, rank, bound);
    var x := NonNullBranch(f);
    assert x in f[AnyOf].items;
    var g := Collapse(f);
    if !HasRef(g) {
      forall k | k in g && !Dropped(k)
        ensures Resolvable(g[k], defs, rank, bound)
      {
        if k != Nullable && !(k == Default && Default in f) { assert g[k] == x.fields[k]; }
      }
    }
  }

  lemma {:induction false} CollapsedMembers(f: map<Key, Json>, c: Json)
    requires OptionalUnion(f) && NonNullBranch(f).Obj?
    requires c in (Collapse(f) - {Default}).Values
    ensures c == Bool(true) || c in (NonNullBranch(f).fields - {Default}).Values
  {
    var g := Collapse(f) - {Default};
    var k :| k in g && g[k] == c;
    if k != Nullable {
      assert k in NonNullBranch(f).fields - {Default};
    }
  }

  lemma {:induction false} UnionHeavierThanBranch(f: map<Key, Json>)
    requires OptionalUnion(f)
    ensures Heaviest(Obj(f), (f - {Default}).Values) >= 1 + Weight(NonNullBranch(f))
  {
    var u := f[AnyOf];
    assert AnyOf in f - {Default};
    assert u in (f - {Default}).Values;
    assert NonNullBranch(f) in (set x | x in u.items);
  }

  lemma {:induction false} CollapseLighter(f: map<Key, Json>)
    requires OptionalUnion(f) && NonNullBranch(f).Obj?
    ensures Weight(Obj(Collapse(f))) < Weight(Obj(f))
  {
    var x, g := NonNullBranch(f), Collapse(f);
    UnionHeavierThanBranch(f);
    var kept := Heaviest(Obj(g), (g - {Default}).Values);
    var inner := Heaviest(x, (x.fields - {Default}).Values);
    assert kept <= inner + 1 by {
      if kept != 0 {
        var c :| c in (g - {Default}).Values && kept == Weight(c);
        CollapsedMembers(f, c);
      }
    }
    assert Default in f ==> g[Default] == f[Default];
  }

  /** `rank` and `bound` only bound the recursion: cyclic definitions would never return. */
  function InlineRefs(node: Json, defs: map<string, Json>, ghost rank: map<string, nat>, ghost bound: nat): (out: Json)
    requires Acyclic(defs, rank) && Resolvable(node, defs, rank, bound)
    decreases bound, Weight(node)
  {
    match node
    case Obj(f) =>
      if HasRef(f) then
        var name := LastSegment(f[Ref].s);
        InlineRefs(defs[name], defs, rank, rank[name])
      else if OptionalUnion(f) then
        CollapseResolvable(f, defs, rank, bound);
        CollapseLighter(f);
        InlineRefs(Obj(Collapse(f)), defs, rank, bound)
      else
        Obj(map k | k in f && !Dropped(k) ::
          (MemberIsLighter(f, k); InlineRefs(f[k], defs, rank, bound)))
    case Arr(items) =>
      Arr(seq(|items|, i requires 0 <= i < |items| =>
        (ItemIsLighter(items, i); InlineRefs(items[i], defs, rank, bound))))
    case _ => node
  }

  predicate Rewritten(f: map<Key, Json>) { HasRef(f) || OptionalUnion(f) }

  lemma {:induction false} InlineMembers(f: map<Key, Json>, defs: map<string, Json>, rank: map<string, nat>, bound: nat)
    requires Acyclic(defs, rank) && Resolvable(Obj(f), defs, rank, bound) && !Rewritten(f)
    ensures var out := InlineRefs(Obj(f), defs, rank, bound);
            && out.Obj? && (forall k :: k in out.fields <==> k in f && !Dropped(k))
            && forall k | k in out.fields :: out.fields[k] == InlineRefs(f[k], defs, rank, bound)
  {
  }

  lemma {:induction false} InlineItems(items: seq<Json>, defs: map<string, Json>, rank: map<string, nat>, bound: nat)
    requires Acyclic(defs, rank) && Resolvable(Arr(items), defs, rank, bound)
    ensures var out := InlineRefs(Arr(items), defs, rank, bound);
            && out.Arr? && |out.items| == |items|
            && forall i | 0 <= i < |items| :: out.items[i] == InlineRefs(items[i], defs, rank, bound)
  {
  }

  /** No reference is left to follow and no dropped keyword is left, at any depth. */
  ghost predicate Stripped(j: Json) {
    match j
    case Obj(f) => !HasRef(f) && (forall k | k in f :: !Dropped(k)) && forall k | k in f :: Stripped(f[k])
    case Arr(items) => forall x | x in items :: Stripped(x)
    case _ => true
  }

  lemma {:induction false} InlineStrips(node: Json, defs: map<string, Json>, rank: map<string, nat>, bound: nat)
    requires Acyclic(defs, rank) && Resolvable(node, defs, rank, bound)
    ensures Stripped(InlineRefs(node, defs, rank, bound))
    decreases bound, Weight(node)
  {
    match node
    case Obj(f) =>
      if HasRef(f) {
        var name := LastSegment(f[Ref].s);
        InlineStrips(defs[name], defs, rank, rank[name]);
      } else if OptionalUnion(f) {
        CollapseResolvable(f, defs, rank, bound);
        CollapseLighter(f);
        InlineStrips(Obj(Collapse(f)), defs, rank, bound);
      } else {
        forall k | k in f && !Dropped(k)
          ensures Stripped(InlineRefs(f[k], defs, rank, bound))
        {
          MemberIsLighter(f, k);
          InlineStrips(f[k], defs, rank, bound);
        }
        if Ref in f { assert f[Ref] == Null; }
      }
    case Arr(items) =>
      forall i | 0 <= i < |items|
        ensures Stripped(InlineRefs(items[i], defs, rank, bound))
      {
        ItemIsLighter(items, i);
        InlineStrips(items[i], defs, rank, bound);
      }
    case _ =>
  }

  /** The witness of acyclicity does not influence the result. */
  lemma {:induction false} RankIrrelevant(node: Json, defs: map<string, Json>,
                                          r0: map<string, nat>, b0: nat, r1: map<string, nat>, b1: nat)
    requires Acyclic(defs, r0) && Resolvable(node, defs, r0, b0)
    requires Acyclic(defs, r1) && Resolvable(node, defs, r1, b1)
    ensures InlineRefs(node, defs, r0, b0) == InlineRefs(node, defs, r1, b1)
    decreases b0, Weight(node)
  {
    hide Weight, Heaviest, LastSegment;
    match node
    case Obj(f) =>
      if HasRef(f) {
        var name := LastSegment(f[Ref].s);
        RankIrrelevant(defs[name], defs, r0, r0[name], r1, r1[name]);
      } else if OptionalUnion(f) {
        CollapseResolvable(f, defs, r0, b0);
        CollapseResolvable(f, defs, r1, b1);
        CollapseLighter(f);
        RankIrrelevant(Obj(Collapse(f)), defs, r0, b0, r1, b1);
      } else {
        InlineMembers(f, defs, r0, b0);
        InlineMembers(f, defs, r1, b1);
        var o0, o1 := InlineRefs(node, defs, r0, b0), InlineRefs(node, defs, r1, b1);
        forall k | k in o0.fields
          ensures o0.fields[k] == o1.fields[k]
        {
          MemberIsLighter(f, k);
          RankIrrelevant(f[k], defs, r0, b0, r1, b1);
        }
        assert o0.fields == o1.fields;
      }
    case Arr(items) =>
      forall i | 0 <= i < |items|
        ensures InlineRefs(items[i], defs, r0, b0) == InlineRefs(items[i], defs, r1, b1)
      {
        ItemIsLighter(items, i);
        RankIrrelevant(items[i], defs, r0, b0, r1, b1);
      }
    case _ =>
  }
}
