/** What a schema accepts, and that the rewrite keeps it. */
module SchemaMeaning {
  import opened Json
  import opened SchemaInlining

  /** In the decoder's dialect `nullable: true` admits null; in JSON Schema it says nothing. */
  datatype Dialect = Standard | Generation

  /**
   The definitions a schema may refer to, the rank that makes them acyclic, and the meaning
   of every keyword that is not an applicator: `check(keyword, its value, instance)`.
   */
  datatype Context = Context(
    defs: map<string, Json>,
    rank: map<string, nat>,
    check: (Key, Json, Json) -> bool)

  predicate Annotation(k: Key) {
    k.Defs? || k.Title? || k.Description? || k.Default? || k.Nullable?
  }

  predicate Bound(k: Key) {
    k.Minimum? || k.Maximum? || k.ExclusiveMinimum? || k.ExclusiveMaximum?
  }

  function Declared(f: map<Key, Json>): set<Key> {
    if Properties in f && f[Properties].Obj? then f[Properties].fields.Keys else {}
  }

  ghost predicate Accepts(d: Dialect, c: Context, s: Json, bound: nat, v: Json)
    decreases bound, s, 1
  {
    match s
    case Bool(b) => b
    case Obj(f) =>
      || (d.Generation? && v == Null && Flagged(f))
      || forall k | k in f :: Holds(d, c, f, k, bound, v)
    case _ => false
  }

  ghost predicate Holds(d: Dialect, c: Context, f: map<Key, Json>, k: Key, bound: nat, v: Json)
    requires k in f
    decreases bound, Obj(f), 0
  {
    if Annotation(k) then true
    else if k.Ref? then
      && f[k].Str?
      && var name := LastSegment(f[k].s);
      && name in c.defs && name in c.rank && c.rank[name] < bound
      && Accepts(d, c, c.defs[name], c.rank[name], v)
    else if k.AnyOf? then
      f[k].Arr? && exists i | 0 <= i < |f[k].items| :: Accepts(d, c, f[k].items[i], bound, v)
    else if k.AllOf? then
      f[k].Arr? && forall i | 0 <= i < |f[k].items| :: Accepts(d, c, f[k].items[i], bound, v)
    else if k.Properties? then
      && f[k].Obj?
      && (v.Obj? ==> forall p | p in f[k].fields && p in v.fields ::
           Accepts(d, c, f[k].fields[p], bound, v.fields[p]))
    else if k.Items? then
      v.Arr? ==> forall i | 0 <= i < |v.items| :: Accepts(d, c, f[k], bound, v.items[i])
    else if k.AdditionalProperties? then
      v.Obj? ==> forall p | p in v.fields && p !in Declared(f) :: Accepts(d, c, f[k], bound, v.fields[p])
    else
      c.check(k, f[k], v)
  }

  /* ---------- the fragment ---------- */

  predicate Scalar(j: Json) { !j.Arr? && !j.Obj? }

  /** A value no rewrite step can change: a scalar or a list of scalars. */
  predicate Plain(j: Json) { Scalar(j) || (j.Arr? && forall x | x in j.items :: Scalar(x)) }

  ghost function Branches(f: map<Key, Json>, k: Key): (r: set<Json>)
    ensures forall s | s in r :: s < Obj(f)
  {
    if k in f && f[k].Arr? then
      assert forall x | x in f[k].items :: x < f[k];
      set x | x in f[k].items
    else {}
  }

  /** The members that are themselves schemas. */
  ghost function SubSchemas(f: map<Key, Json>): (r: set<Json>)
    ensures forall s | s in r :: s < Obj(f)
  {
    Branches(f, AnyOf) + Branches(f, AllOf)
    + (if Properties in f && f[Properties].Obj? then
         assert forall x | x in f[Properties].fields.Values :: x < f[Properties];
         f[Properties].fields.Values else {})
    + (if Items in f then {f[Items]} else {})
    + (if AdditionalProperties in f then {f[AdditionalProperties]} else {})
  }

  predicate KeywordShape(c: Context, f: map<Key, Json>, k: Key, bound: nat)
    requires k in f
  {
    if Annotation(k) then k.Nullable? ==> Scalar(f[k])
    else if k.Ref? then
      && f[k].Str?
      && var name := LastSegment(f[k].s);
      && f[k].s == "#/$defs/" + name
      && name in c.defs && name in c.rank && c.rank[name] < bound
    else if k.AnyOf? || k.AllOf? then f[k].Arr?
    else if k.Properties? then f[k].Obj? && (forall p | p in f[k].fields :: !Dropped(p))
    else if k.Items? || k.AdditionalProperties? then true
    else Plain(f[k])
  }

  /**
   A schema of the positive fragment. Keywords such as `not`, `if` and `oneOf` with schemas
   inside are not plain values and so fall outside it; a declared property whose name the
   rewrite would take for a dropped keyword falls outside too.
   */
  ghost predicate IsSchema(c: Context, s: Json, bound: nat) {
    match s
    case Bool(_) => true
    case Obj(f) =>
      && (forall k | k in f :: KeywordShape(c, f, k, bound))
      && forall sub | sub in SubSchemas(f) :: IsSchema(c, sub, bound)
    case _ => false
  }

  /** No optional union has a bare reference as its other branch. */
  ghost predicate NoOptionalRef(s: Json) {
    s.Obj? ==>
      && (OptionalUnion(s.fields) && NonNullBranch(s.fields).Obj? ==> !HasRef(NonNullBranch(s.fields).fields))
      && forall sub | sub in SubSchemas(s.fields) :: NoOptionalRef(sub)
  }

  /** What the rewrite discards at the top of this node constrains no instance. */
  ghost predicate LosslessNode(f: map<Key, Json>)
    decreases Obj(f), 0
  {
    && (forall k | k in f :: !Bound(k))
    && (HasRef(f) ==> forall k | k in f :: k.Ref? || Annotation(k))
    && (OptionalUnion(f) ==>
          && (forall k | k in f :: k.AnyOf? || Annotation(k))
          && forall k | k in NullBranch(f).fields :: k.Type? || Annotation(k))
    && forall sub | sub in SubSchemas(f) :: Lossless(sub)
  }

  predicate Flagged(f: map<Key, Json>) { Nullable in f && f[Nullable] == Bool(true) }

  /** No bound, no sibling of a reference or of an optional union, and no `nullable` of its own. */
  ghost predicate Lossless(s: Json)
    decreases s, 1
  {
    s.Obj? ==> LosslessNode(s.fields) && !Flagged(s.fields)
  }

  ghost predicate InFragment(c: Context, s: Json, bound: nat) {
    Resolvable(s, c.defs, c.rank, bound) && IsSchema(c, s, bound)
  }

  ghost predicate ValidContext(c: Context) {
    && Acyclic(c.defs, c.rank)
    && (forall d | d in c.defs :: IsSchema(c, c.defs[d], c.rank[d]))
    && forall v: Json :: c.check(Type, Str("null"), v) <==> v == Null
  }

  /** The output is read without definitions. */
  ghost function Closed(c: Context): Context { c.(defs := map[], rank := map[]) }

  ghost function Inlined(c: Context, s: Json, bound: nat): Json
    requires ValidContext(c) && InFragment(c, s, bound)
  {
    InlineRefs(s, c.defs, c.rank, bound)
  }

  lemma {:induction false} PlainUnchanged(c: Context, j: Json, bound: nat)
    requires ValidContext(c) && Plain(j) && Resolvable(j, c.defs, c.rank, bound)
    ensures InlineRefs(j, c.defs, c.rank, bound) == j
  {
    if j.Arr? {
      InlineItems(j.items, c.defs, c.rank, bound);
      var out := InlineRefs(j, c.defs, c.rank, bound);
      forall i | 0 <= i < |j.items|
        ensures out.items[i] == j.items[i]
      {
        assert Scalar(j.items[i]);
      }
      assert out.items == j.items;
    }
  }

  lemma {:induction false} CollapseSubSchemas(f: map<Key, Json>)
    requires OptionalUnion(f) && NonNullBranch(f).Obj?
    ensures NonNullBranch(f) in SubSchemas(f) && NullBranch(f) in SubSchemas(f)
    ensures SubSchemas(Collapse(f)) == SubSchemas(NonNullBranch(f).fields)
  {
    var x, g := NonNullBranch(f).fields, Collapse(f);
    assert Branches(g, AnyOf) == Branches(x, AnyOf);
    assert Branches(g, AllOf) == Branches(x, AllOf);
    assert NonNullBranch(f) in Branches(f, AnyOf) && NullBranch(f) in Branches(f, AnyOf);
  }

  lemma {:induction false} CollapseIsSchema(c: Context, f: map<Key, Json>, bound: nat)
    requires OptionalUnion(f) && NonNullBranch(f).Obj? && IsSchema(c, NonNullBranch(f), bound)
    ensures IsSchema(c, Obj(Collapse(f)), bound)
  {
    var x, g := NonNullBranch(f).fields, Collapse(f);
    CollapseSubSchemas(f);
    forall k | k in g
      ensures KeywordShape(c, g, k, bound)
    {
      if !Annotation(k) { assert g[k] == x[k] && KeywordShape(c, x, k, bound); }
    }
  }

  lemma {:induction false} CollapseInFragment(c: Context, f: map<Key, Json>, bound: nat)
    requires InFragment(c, Obj(f), bound) && !HasRef(f) && OptionalUnion(f)
    ensures NonNullBranch(f).Obj?
    ensures InFragment(c, NonNullBranch(f), bound) && InFragment(c, Obj(Collapse(f)), bound)
  {
    CollapseResolvable(f, c.defs, c.rank, bound);
    CollapseSubSchemas(f);
    CollapseIsSchema(c, f, bound);
  }

  lemma {:induction false} CollapseNoOptionalRef(f: map<Key, Json>)
    requires OptionalUnion(f) && NonNullBranch(f).Obj? && NoOptionalRef(Obj(f))
    ensures !HasRef(Collapse(f)) && NoOptionalRef(Obj(Collapse(f)))
  {
    CollapseSubSchemas(f);
    assert NoOptionalRef(NonNullBranch(f));
  }

  lemma {:induction false} CollapseMeans(c: Context, f: map<Key, Json>, bound: nat, v: Json)
    requires OptionalUnion(f) && NonNullBranch(f).Obj?
    ensures Accepts(Standard, c, Obj(Collapse(f)), bound, v) <==> Accepts(Standard, c, NonNullBranch(f), bound, v)
  {
    var x, g := NonNullBranch(f).fields, Collapse(f);
    forall k | k in x && !Annotation(k)
      ensures Holds(Standard, c, x, k, bound, v) <==> Holds(Standard, c, g, k, bound, v)
    {
      assert g[k] == x[k] && Declared(g) == Declared(x);
    }
  }

  /** An optional union admits only what its branch admits, and null. */
  lemma {:induction false} UnionMeans(c: Context, f: map<Key, Json>, bound: nat, v: Json)
    requires ValidContext(c) && OptionalUnion(f) && Accepts(Standard, c, Obj(f), bound, v)
    ensures v == Null || Accepts(Standard, c, NonNullBranch(f), bound, v)
  {
    assert Holds(Standard, c, f, AnyOf, bound, v);
    var i :| 0 <= i < 2 && Accepts(Standard, c, f[AnyOf].items[i], bound, v);
    var b := f[AnyOf].items[i];
    if IsNullBranch(b) {
      assert Holds(Standard, c, b.fields, Type, bound, v);
    }
  }

  /** A collapsed optional union keeps its `nullable` flag, unless it became a reference. */
  lemma {:induction false} NullKept(c: Context, f: map<Key, Json>, bound: nat)
    requires ValidContext(c) && InFragment(c, Obj(f), bound)
    requires Flagged(f)
    requires !HasRef(f) && NoOptionalRef(Obj(f))
    ensures Accepts(Generation, Closed(c), Inlined(c, Obj(f), bound), 0, Null)
    decreases Weight(Obj(f))
  {
    if OptionalUnion(f) {
      CollapseInFragment(c, f, bound);
      CollapseNoOptionalRef(f);
      CollapseLighter(f);
      NullKept(c, Collapse(f), bound);
    } else {
      InlineMembers(f, c.defs, c.rank, bound);
    }
  }

  /** The conditions under which the rewrite loses no instance. */
  ghost predicate Keeps(c: Context) {
    ValidContext(c) && forall d | d in c.defs :: NoOptionalRef(c.defs[d])
  }

  /** Every instance of a schema is an instance of its rewritten form. */
  lemma {:induction false} InliningSound(c: Context, s: Json, bound: nat, v: Json)
    requires Keeps(c) && InFragment(c, s, bound) && NoOptionalRef(s)
    requires Accepts(Standard, c, s, bound, v)
    ensures Accepts(Generation, Closed(c), Inlined(c, s, bound), 0, v)
    decreases bound, Weight(s), 2
  {
    if s.Obj? {
      var f := s.fields;
      if HasRef(f) {
        assert Holds(Standard, c, f, Ref, bound, v);
        var name := LastSegment(f[Ref].s);
        InliningSound(c, c.defs[name], c.rank[name], v);
      } else if OptionalUnion(f) {
        OptionalSound(c, f, bound, v);
      } else {
        InlineMembers(f, c.defs, c.rank, bound);
        var out := Inlined(c, s, bound).fields;
        forall k | k in out
          ensures Holds(Generation, Closed(c), out, k, 0, v)
        {
          assert Holds(Standard, c, f, k, bound, v);
          KeywordSound(c, f, k, bound, v);
        }
      }
    }
  }

  lemma {:induction false} OptionalSound(c: Context, f: map<Key, Json>, bound: nat, v: Json)
    requires Keeps(c) && InFragment(c, Obj(f), bound) && NoOptionalRef(Obj(f))
    requires !HasRef(f) && OptionalUnion(f) && Accepts(Standard, c, Obj(f), bound, v)
    ensures Accepts(Generation, Closed(c), Inlined(c, Obj(f), bound), 0, v)
    decreases bound, Weight(Obj(f)), 1
  {
    CollapseInFragment(c, f, bound);
    CollapseNoOptionalRef(f);
    CollapseLighter(f);
    UnionMeans(c, f, bound, v);
    if v == Null {
      NullKept(c, Collapse(f), bound);
    } else {
      CollapseMeans(c, f, bound, v);
      InliningSound(c, Obj(Collapse(f)), bound, v);
    }
  }

  lemma {:induction false} BranchesSound(c: Context, f: map<Key, Json>, k: Key, bound: nat, v: Json)
    requires Keeps(c) && InFragment(c, Obj(f), bound) && NoOptionalRef(Obj(f)) && !Rewritten(f)
    requires k in f && (k.AnyOf? || k.AllOf?) && Holds(Standard, c, f, k, bound, v)
    requires Inlined(c, Obj(f), bound).Obj? && k in Inlined(c, Obj(f), bound).fields
    ensures Holds(Generation, Closed(c), Inlined(c, Obj(f), bound).fields, k, 0, v)
    decreases bound, Weight(Obj(f)), 0
  {
    InlineMembers(f, c.defs, c.rank, bound);
    var out := Inlined(c, Obj(f), bound).fields;
    MemberIsLighter(f, k);
    InlineItems(f[k].items, c.defs, c.rank, bound);
    forall i | 0 <= i < |f[k].items| && Accepts(Standard, c, f[k].items[i], bound, v)
      ensures Accepts(Generation, Closed(c), out[k].items[i], 0, v)
    {
      assert f[k].items[i] in Branches(f, k);
      ItemIsLighter(f[k].items, i);
      InliningSound(c, f[k].items[i], bound, v);
    }
    assert k.AnyOf? ==> exists i | 0 <= i < |f[k].items| :: Accepts(Standard, c, f[k].items[i], bound, v);
  }

  lemma {:induction false} KeywordSound(c: Context, f: map<Key, Json>, k: Key, bound: nat, v: Json)
    requires Keeps(c) && InFragment(c, Obj(f), bound) && NoOptionalRef(Obj(f)) && !Rewritten(f)
    requires k in f && !Dropped(k) && Holds(Standard, c, f, k, bound, v)
    requires Inlined(c, Obj(f), bound).Obj? && k in Inlined(c, Obj(f), bound).fields
    ensures Holds(Generation, Closed(c), Inlined(c, Obj(f), bound).fields, k, 0, v)
    decreases bound, Weight(Obj(f)), 1
  {
    hide IsNullBranch, LastSegment;
    InlineMembers(f, c.defs, c.rank, bound);
    var out := Inlined(c, Obj(f), bound).fields;
    MemberIsLighter(f, k);
    if Annotation(k) {
    } else if k.AnyOf? || k.AllOf? {
      BranchesSound(c, f, k, bound, v);
    } else if k.Properties? {
      PropertiesInlined(c, f, bound);
      if v.Obj? {
        forall p | p in out[k].fields && p in v.fields
          ensures Accepts(Generation, Closed(c), out[k].fields[p], 0, v.fields[p])
        {
          MemberIsLighter(f[k].fields, p);
          assert f[k].fields[p] in f[k].fields.Values;
          InliningSound(c, f[k].fields[p], bound, v.fields[p]);
        }
      }
    } else if k.Items? {
      if v.Arr? {
        forall i | 0 <= i < |v.items|
          ensures Accepts(Generation, Closed(c), out[k], 0, v.items[i])
        {
          InliningSound(c, f[k], bound, v.items[i]);
        }
      }
    } else if k.AdditionalProperties? {
      PropertiesInlined(c, f, bound);
      if v.Obj? {
        forall p | p in v.fields && p !in Declared(out)
          ensures Accepts(Generation, Closed(c), out[k], 0, v.fields[p])
        {
          InliningSound(c, f[k], bound, v.fields[p]);
        }
      }
    } else {
      PlainUnchanged(c, f[k], bound);
    }
  }

  /** The names of the declared properties survive, each with its inlined schema. */
  lemma {:induction false} PropertiesInlined(c: Context, f: map<Key, Json>, bound: nat)
    requires ValidContext(c) && InFragment(c, Obj(f), bound) && !Rewritten(f)
    ensures Inlined(c, Obj(f), bound).Obj?
    ensures var out := Inlined(c, Obj(f), bound).fields;
            && Declared(out) == Declared(f)
            && (Properties in f ==>
                  && Properties in out && out[Properties].Obj?
                  && out[Properties].fields.Keys == f[Properties].fields.Keys
                  && (forall p | p in f[Properties].fields ::
                        && InFragment(c, f[Properties].fields[p], bound)
                        && out[Properties].fields[p] == Inlined(c, f[Properties].fields[p], bound)))
  {
    hide Weight, IsNullBranch, LastSegment;
    InlineMembers(f, c.defs, c.rank, bound);
    if Properties in f {
      var ps := f[Properties].fields;
      assert KeywordShape(c, f, Properties, bound);
      forall p | p in ps
        ensures IsSchema(c, ps[p], bound)
      {
        assert ps[p] in ps.Values;
      }
      assert Resolvable(f[Properties], c.defs, c.rank, bound);
      assert Ref in ps ==> IsSchema(c, ps[Ref], bound);
      assert AnyOf in ps ==> IsSchema(c, ps[AnyOf], bound);
      assert !Rewritten(ps);
      InlineMembers(ps, c.defs, c.rank, bound);
    }
  }

  lemma {:induction false} CollapseSameNode(f: map<Key, Json>)
    requires OptionalUnion(f) && NonNullBranch(f).Obj?
    ensures var x, g := NonNullBranch(f).fields, Collapse(f);
            && (forall k | !Annotation(k) :: (k in g <==> k in x) && (k in x ==> g[k] == x[k]))
            && HasRef(g) == HasRef(x) && OptionalUnion(g) == OptionalUnion(x)
            && (OptionalUnion(g) ==> NullBranch(g) == NullBranch(x))
  {
  }

  lemma {:induction false} CollapseLossless(f: map<Key, Json>)
    requires OptionalUnion(f) && NonNullBranch(f).Obj? && LosslessNode(f)
    ensures LosslessNode(Collapse(f)) && !Flagged(NonNullBranch(f).fields)
  {
    CollapseSubSchemas(f);
    CollapseSameNode(f);
    assert Lossless(NonNullBranch(f));
    assert LosslessNode(NonNullBranch(f).fields);
  }

  lemma {:induction false} UnionAdmits(c: Context, f: map<Key, Json>, bound: nat, v: Json)
    requires ValidContext(c) && OptionalUnion(f) && LosslessNode(f) && !HasRef(f)
    requires v == Null || Accepts(Standard, c, NonNullBranch(f), bound, v)
    ensures Accepts(Standard, c, Obj(f), bound, v)
  {
    if v == Null {
      forall k | k in NullBranch(f).fields
        ensures Holds(Standard, c, NullBranch(f).fields, k, bound, v)
      {
      }
      assert Accepts(Standard, c, NullBranch(f), bound, v);
    }
    assert Holds(Standard, c, f, AnyOf, bound, v);
  }

  /** When nothing that constrains was discarded, the rewritten form admits nothing new. */
  lemma {:induction false} InliningExact(c: Context, s: Json, bound: nat, v: Json)
    requires ValidContext(c) && (forall d | d in c.defs :: Lossless(c.defs[d]))
    requires InFragment(c, s, bound) && (s.Obj? ==> LosslessNode(s.fields))
    requires Accepts(Generation, Closed(c), Inlined(c, s, bound), 0, v)
    ensures Accepts(Standard, c, s, bound, v) || (v == Null && s.Obj? && Flagged(s.fields))
    decreases bound, Weight(s), 2
  {
    hide Weight, IsNullBranch, LastSegment;
    if s.Obj? {
      var f := s.fields;
      if HasRef(f) {
        var name := LastSegment(f[Ref].s);
        InliningExact(c, c.defs[name], c.rank[name], v);
      } else if OptionalUnion(f) {
        CollapseInFragment(c, f, bound);
        CollapseLossless(f);
        CollapseLighter(f);
        InliningExact(c, Obj(Collapse(f)), bound, v);
        CollapseMeans(c, f, bound, v);
        UnionAdmits(c, f, bound, v);
      } else {
        NodeExact(c, f, bound, v);
      }
    }
  }

  lemma {:induction false} NodeExact(c: Context, f: map<Key, Json>, bound: nat, v: Json)
    requires ValidContext(c) && (forall d | d in c.defs :: Lossless(c.defs[d]))
    requires InFragment(c, Obj(f), bound) && LosslessNode(f) && !Rewritten(f)
    requires Accepts(Generation, Closed(c), Inlined(c, Obj(f), bound), 0, v)
    ensures Accepts(Standard, c, Obj(f), bound, v) || (v == Null && Flagged(f))
    decreases bound, Weight(Obj(f)), 1
  {
    hide Weight, IsNullBranch, LastSegment, Rewritten, LosslessNode;
    InlineMembers(f, c.defs, c.rank, bound);
    var out := Inlined(c, Obj(f), bound).fields;
    assert Nullable in f ==> KeywordShape(c, f, Nullable, bound);
    assert Flagged(out) == Flagged(f);
    if !(v == Null && Flagged(f)) {
      assert forall k | k in out :: Holds(Generation, Closed(c), out, k, 0, v);
      forall k | k in f
        ensures Holds(Standard, c, f, k, bound, v)
      {
        if !Annotation(k) {
          NoBoundLost(f, k);
          KeywordExact(c, f, k, bound, v);
        }
      }
    }
  }

  lemma {:induction false} NoBoundLost(f: map<Key, Json>, k: Key)
    requires LosslessNode(f) && k in f && !Annotation(k)
    ensures !Dropped(k)
  {
  }

  lemma {:induction false} BranchExact(c: Context, f: map<Key, Json>, k: Key, i: nat, bound: nat, v: Json)
    requires ValidContext(c) && (forall d | d in c.defs :: Lossless(c.defs[d]))
    requires InFragment(c, Obj(f), bound) && LosslessNode(f)
    requires (k.AnyOf? || k.AllOf?) && k in f && f[k].Arr? && i < |f[k].items|
    requires Resolvable(f[k].items[i], c.defs, c.rank, bound)
    requires Accepts(Generation, Closed(c), InlineRefs(f[k].items[i], c.defs, c.rank, bound), 0, v)
    ensures Accepts(Standard, c, f[k].items[i], bound, v)
    decreases bound, Weight(f[k]), 1
  {
    var b := f[k].items[i];
    assert b in Branches(f, k) && b in SubSchemas(f);
    ItemIsLighter(f[k].items, i);
    assert Lossless(b);
    InliningExact(c, b, bound, v);
  }

  lemma {:induction false} BranchesExact(c: Context, f: map<Key, Json>, k: Key, bound: nat, v: Json)
    requires ValidContext(c) && (forall d | d in c.defs :: Lossless(c.defs[d]))
    requires InFragment(c, Obj(f), bound) && LosslessNode(f) && !Rewritten(f)
    requires (k.AnyOf? || k.AllOf?) && k in f
    requires Inlined(c, Obj(f), bound).Obj? && k in Inlined(c, Obj(f), bound).fields
    requires Holds(Generation, Closed(c), Inlined(c, Obj(f), bound).fields, k, 0, v)
    ensures Holds(Standard, c, f, k, bound, v)
    decreases bound, Weight(f[k]), 2
  {
    InlineMembers(f, c.defs, c.rank, bound);
    assert KeywordShape(c, f, k, bound);
    InlineItems(f[k].items, c.defs, c.rank, bound);
    var out := Inlined(c, Obj(f), bound).fields;
    forall i | 0 <= i < |f[k].items| && Accepts(Generation, Closed(c), out[k].items[i], 0, v)
      ensures Accepts(Standard, c, f[k].items[i], bound, v)
    {
      BranchExact(c, f, k, i, bound, v);
    }
    if k.AnyOf? {
      var i :| 0 <= i < |out[k].items| && Accepts(Generation, Closed(c), out[k].items[i], 0, v);
      assert Accepts(Standard, c, f[k].items[i], bound, v);
    }
  }

  lemma {:induction false} PropertyExact(c: Context, f: map<Key, Json>, p: Key, bound: nat, v: Json)
    requires ValidContext(c) && (forall d | d in c.defs :: Lossless(c.defs[d]))
    requires InFragment(c, Obj(f), bound) && LosslessNode(f)
    requires Properties in f && f[Properties].Obj? && p in f[Properties].fields
    requires Resolvable(f[Properties].fields[p], c.defs, c.rank, bound)
    requires Accepts(Generation, Closed(c), InlineRefs(f[Properties].fields[p], c.defs, c.rank, bound), 0, v)
    ensures Accepts(Standard, c, f[Properties].fields[p], bound, v)
    decreases bound, Weight(f[Properties]), 1
  {
    MemberIsLighter(f[Properties].fields, p);
    var s := f[Properties].fields[p];
    assert s in SubSchemas(f) by { assert s in f[Properties].fields.Values; }
    assert Lossless(s);
    InliningExact(c, s, bound, v);
  }

  lemma {:induction false} KeywordExact(c: Context, f: map<Key, Json>, k: Key, bound: nat, v: Json)
    requires ValidContext(c) && (forall d | d in c.defs :: Lossless(c.defs[d]))
    requires InFragment(c, Obj(f), bound) && LosslessNode(f) && !Rewritten(f)
    requires k in f && !Annotation(k)
    requires Inlined(c, Obj(f), bound).Obj? && k in Inlined(c, Obj(f), bound).fields
    requires Holds(Generation, Closed(c), Inlined(c, Obj(f), bound).fields, k, 0, v)
    ensures Holds(Standard, c, f, k, bound, v)
    decreases bound, Weight(Obj(f)), 0
  {
    InlineMembers(f, c.defs, c.rank, bound);
    var out := Inlined(c, Obj(f), bound).fields;
    MemberIsLighter(f, k);
    if k.AnyOf? || k.AllOf? {
      BranchesExact(c, f, k, bound, v);
    } else if k.Properties? {
      PropertiesInlined(c, f, bound);
      if v.Obj? {
        forall p | p in f[k].fields && p in v.fields
          ensures Accepts(Standard, c, f[k].fields[p], bound, v.fields[p])
        {
          assert Accepts(Generation, Closed(c), out[k].fields[p], 0, v.fields[p]);
          PropertyExact(c, f, p, bound, v.fields[p]);
        }
      }
    } else if k.Items? {
      assert Lossless(f[k]);
      if v.Arr? {
        forall i | 0 <= i < |v.items|
          ensures Accepts(Standard, c, f[k], bound, v.items[i])
        {
          InliningExact(c, f[k], bound, v.items[i]);
        }
      }
    } else if k.AdditionalProperties? {
      assert Lossless(f[k]);
      PropertiesInlined(c, f, bound);
      if v.Obj? {
        forall p | p in v.fields && p !in Declared(f)
          ensures Accepts(Standard, c, f[k], bound, v.fields[p])
        {
          InliningExact(c, f[k], bound, v.fields[p]);
        }
      }
    } else {
      PlainUnchanged(c, f[k], bound);
    }
  }

  /** The rewrite keeps the meaning of a schema exactly. */
  lemma {:induction false} InliningPreservesMeaning(c: Context, s: Json, bound: nat, v: Json)
    requires Keeps(c) && InFragment(c, s, bound) && NoOptionalRef(s)
    requires Lossless(s) && forall d | d in c.defs :: Lossless(c.defs[d])
    ensures Accepts(Standard, c, s, bound, v) <==> Accepts(Generation, Closed(c), Inlined(c, s, bound), 0, v)
  {
    if Accepts(Standard, c, s, bound, v) {
      InliningSound(c, s, bound, v);
    } else if Accepts(Generation, Closed(c), Inlined(c, s, bound), 0, v) {
      InliningExact(c, s, bound, v);
    }
  }
}
