/** Where the rewrite loses instances, with the exact condition on the source schema. */
module SchemaLosses {
  import opened Json
  import opened SchemaInlining
  import opened SchemaOutput
  import opened SchemaMeaning

  /* ---------- where the rewrite does lose instances ---------- */

  lemma {:induction false} RefMeans(c: Context, g: map<Key, Json>, bound: nat)
    requires ValidContext(c) && InFragment(c, Obj(g), bound) && HasRef(g)
    ensures g[Ref].Str?
    ensures var name := LastSegment(g[Ref].s);
            && name in c.defs && name in c.rank && InFragment(c, c.defs[name], c.rank[name])
            && Inlined(c, Obj(g), bound) == Inlined(c, c.defs[name], c.rank[name])
            && forall v :: Accepts(Standard, c, Obj(g), bound, v) ==>
                 Accepts(Standard, c, c.defs[name], c.rank[name], v)
  {
    assert KeywordShape(c, g, Ref, bound);
    var name := LastSegment(g[Ref].s);
    forall v | Accepts(Standard, c, Obj(g), bound, v)
      ensures Accepts(Standard, c, c.defs[name], c.rank[name], v)
    {
      assert Holds(Standard, c, g, Ref, bound, v);
    }
  }

  predicate OptionalRefTo(f: map<Key, Json>, name: string)
    requires OptionalUnion(f)
  {
    && NonNullBranch(f).Obj? && HasRef(NonNullBranch(f).fields)
    && NonNullBranch(f).fields[Ref].Str? && LastSegment(NonNullBranch(f).fields[Ref].s) == name
  }

  /**
   An optional union of a bare reference: the reference wins over the added flag, so the
   rewritten form keeps every instance exactly when the rewritten definition admits null.
   */
  lemma {:induction false} OptionalRefByOutput(c: Context, f: map<Key, Json>, bound: nat, name: string)
    requires Keeps(c) && InFragment(c, Obj(f), bound) && !HasRef(f) && OptionalUnion(f) && LosslessNode(f)
    requires OptionalRefTo(f, name)
    ensures name in c.defs && name in c.rank && InFragment(c, c.defs[name], c.rank[name])
    ensures (forall v | Accepts(Standard, c, Obj(f), bound, v) ::
               Accepts(Generation, Closed(c), Inlined(c, Obj(f), bound), 0, v))
            <==> Accepts(Generation, Closed(c), Inlined(c, c.defs[name], c.rank[name]), 0, Null)
  {
    CollapseInFragment(c, f, bound);
    CollapseSameNode(f);
    RefMeans(c, Collapse(f), bound);
    var out := Inlined(c, Obj(f), bound);
    assert out == Inlined(c, Obj(Collapse(f)), bound);
    UnionAdmits(c, f, bound, Null);
    if Accepts(Generation, Closed(c), out, 0, Null) {
      forall v | Accepts(Standard, c, Obj(f), bound, v)
        ensures Accepts(Generation, Closed(c), out, 0, v)
      {
        UnionMeans(c, f, bound, v);
        CollapseMeans(c, f, bound, v);
        if v != Null { InliningSound(c, c.defs[name], c.rank[name], v); }
      }
    }
  }

  /* ---------- what the rewrite keeps of null ---------- */

  /** The keyword holds of null, whatever its value. */
  predicate Spares(c: Context, f: map<Key, Json>, k: Key)
    requires k in f
  {
    || Annotation(k) || k.Properties? || k.Items? || k.AdditionalProperties?
    || (!k.Ref? && !k.AnyOf? && !k.AllOf? && c.check(k, f[k], Null))
  }

  /** What is discarded at this node says nothing about null; what lies below properties and items does not matter. */
  ghost predicate NullSafeNode(c: Context, f: map<Key, Json>)
    decreases Obj(f), 0
  {
    && (forall k | k in f && Bound(k) :: Spares(c, f, k))
    && (HasRef(f) ==> forall k | k in f :: k.Ref? || Spares(c, f, k))
    && (OptionalUnion(f) ==>
          && (forall k | k in f :: k.AnyOf? || Spares(c, f, k))
          && forall k | k in NullBranch(f).fields :: k.Type? || Spares(c, NullBranch(f).fields, k))
    && forall sub | sub in Branches(f, AnyOf) + Branches(f, AllOf) :: NullSafe(c, sub)
  }

  ghost predicate NullSafe(c: Context, s: Json)
    decreases s, 1
  {
    s.Obj? ==> NullSafeNode(c, s.fields) && !Flagged(s.fields)
  }

  lemma {:induction false} SparedHolds(c: Context, f: map<Key, Json>, k: Key, bound: nat)
    requires k in f && KeywordShape(c, f, k, bound) && Spares(c, f, k)
    ensures Holds(Standard, c, f, k, bound, Null)
  {
  }

  lemma {:induction false} SpareUnion(c: Context, f: map<Key, Json>, bound: nat)
    requires ValidContext(c) && InFragment(c, Obj(f), bound) && OptionalUnion(f) && NullSafeNode(c, f)
    ensures Accepts(Standard, c, Obj(f), bound, Null)
  {
    hide Resolvable, Spares;
    var b := NullBranch(f);
    var i := if IsNullBranch(f[AnyOf].items[0]) then 0 else 1;
    assert f[AnyOf].items[i] == b && b in Branches(f, AnyOf) && IsSchema(c, b, bound);
    forall k | k in b.fields
      ensures Holds(Standard, c, b.fields, k, bound, Null)
    {
      assert KeywordShape(c, b.fields, k, bound);
      if !k.Type? { SparedHolds(c, b.fields, k, bound); }
    }
    assert Accepts(Standard, c, f[AnyOf].items[i], bound, Null);
    forall k | k in f
      ensures Holds(Standard, c, f, k, bound, Null)
    {
      assert KeywordShape(c, f, k, bound);
      if !k.AnyOf? { SparedHolds(c, f, k, bound); }
    }
  }

  /** Where nothing that concerns null was discarded, null is not admitted anew. */
  lemma {:induction false} NullExact(c: Context, s: Json, bound: nat)
    requires ValidContext(c) && (forall d | d in c.defs :: NullSafe(c, c.defs[d]))
    requires InFragment(c, s, bound) && (s.Obj? ==> NullSafeNode(c, s.fields))
    requires Accepts(Generation, Closed(c), Inlined(c, s, bound), 0, Null)
    ensures Accepts(Standard, c, s, bound, Null) || (s.Obj? && Flagged(s.fields))
    decreases bound, Weight(s), 3
  {
    hide Weight, IsNullBranch, LastSegment, Spares;
    if s.Obj? {
      var f := s.fields;
      if HasRef(f) {
        NullExactRef(c, f, bound);
      } else if OptionalUnion(f) {
        SpareUnion(c, f, bound);
      } else {
        NullExactNode(c, f, bound);
      }
    }
  }

  lemma {:induction false} NullExactRef(c: Context, f: map<Key, Json>, bound: nat)
    requires ValidContext(c) && (forall d | d in c.defs :: NullSafe(c, c.defs[d]))
    requires InFragment(c, Obj(f), bound) && NullSafeNode(c, f) && HasRef(f)
    requires Accepts(Generation, Closed(c), Inlined(c, Obj(f), bound), 0, Null)
    ensures Accepts(Standard, c, Obj(f), bound, Null)
    decreases bound, Weight(Obj(f)), 2
  {
    hide Weight, IsNullBranch, LastSegment, Spares, NullSafeNode;
    RefMeans(c, f, bound);
    assert KeywordShape(c, f, Ref, bound);
    var name := LastSegment(f[Ref].s);
    assert NullSafe(c, c.defs[name]);
    NullExact(c, c.defs[name], c.rank[name]);
    forall k | k in f
      ensures Holds(Standard, c, f, k, bound, Null)
    {
      assert KeywordShape(c, f, k, bound);
      if !k.Ref? {
        RefSpares(c, f, k);
        SparedHolds(c, f, k, bound);
      }
    }
  }

  lemma {:induction false} RefSpares(c: Context, f: map<Key, Json>, k: Key)
    requires NullSafeNode(c, f) && HasRef(f) && k in f && !k.Ref?
    ensures Spares(c, f, k)
  {
    hide Spares;
  }

  lemma {:induction false} BoundSpares(c: Context, f: map<Key, Json>, k: Key)
    requires NullSafeNode(c, f) && k in f && Dropped(k)
    ensures Spares(c, f, k)
  {
    assert Bound(k) || Annotation(k);
  }

  lemma {:induction false} NullExactNode(c: Context, f: map<Key, Json>, bound: nat)
    requires ValidContext(c) && (forall d | d in c.defs :: NullSafe(c, c.defs[d]))
    requires InFragment(c, Obj(f), bound) && NullSafeNode(c, f) && !Rewritten(f)
    requires Accepts(Generation, Closed(c), Inlined(c, Obj(f), bound), 0, Null)
    ensures Accepts(Standard, c, Obj(f), bound, Null) || Flagged(f)
    decreases bound, Weight(Obj(f)), 2
  {
    hide Weight, IsNullBranch, LastSegment, Spares, NullSafeNode, Rewritten;
    InlineMembers(f, c.defs, c.rank, bound);
    var out := Inlined(c, Obj(f), bound).fields;
    assert Nullable in f ==> KeywordShape(c, f, Nullable, bound);
    assert Flagged(out) == Flagged(f);
    if !Flagged(f) {
      forall k | k in f
        ensures Holds(Standard, c, f, k, bound, Null)
      {
        assert KeywordShape(c, f, k, bound);
        if Dropped(k) {
          BoundSpares(c, f, k);
          SparedHolds(c, f, k, bound);
        } else {
          assert Holds(Generation, Closed(c), out, k, 0, Null);
          NullExactKeyword(c, f, k, bound);
        }
      }
    }
  }

  lemma {:induction false} NullExactKeyword(c: Context, f: map<Key, Json>, k: Key, bound: nat)
    requires ValidContext(c) && (forall d | d in c.defs :: NullSafe(c, c.defs[d]))
    requires InFragment(c, Obj(f), bound) && NullSafeNode(c, f) && !Rewritten(f)
    requires k in f && !Dropped(k)
    requires Inlined(c, Obj(f), bound).Obj? && k in Inlined(c, Obj(f), bound).fields
    requires Holds(Generation, Closed(c), Inlined(c, Obj(f), bound).fields, k, 0, Null)
    ensures Holds(Standard, c, f, k, bound, Null)
    decreases bound, Weight(Obj(f)), 1
  {
    hide Weight, IsNullBranch, LastSegment, NullSafeNode, Rewritten;
    InlineMembers(f, c.defs, c.rank, bound);
    assert KeywordShape(c, f, k, bound);
    NotRewritten(f);
    if k.AnyOf? || k.AllOf? {
      MemberIsLighter(f, k);
      NullExactBranches(c, f, k, bound);
    } else if !Annotation(k) && !k.Properties? && !k.Items? && !k.AdditionalProperties? {
      assert !k.Ref?;
      PlainUnchanged(c, f[k], bound);
    }
  }

  lemma {:induction false} NullExactBranch(c: Context, f: map<Key, Json>, k: Key, i: nat, bound: nat)
    requires ValidContext(c) && (forall d | d in c.defs :: NullSafe(c, c.defs[d]))
    requires InFragment(c, Obj(f), bound) && NullSafeNode(c, f)
    requires k in f && (k.AnyOf? || k.AllOf?) && f[k].Arr? && i < |f[k].items|
    requires Resolvable(f[k].items[i], c.defs, c.rank, bound)
    requires Accepts(Generation, Closed(c), InlineRefs(f[k].items[i], c.defs, c.rank, bound), 0, Null)
    ensures Accepts(Standard, c, f[k].items[i], bound, Null)
    decreases bound, Weight(f[k]), 4
  {
    hide IsNullBranch, LastSegment, Spares, Weight;
    var s := f[k].items[i];
    assert s in Branches(f, k);
    assert IsSchema(c, s, bound) && NullSafe(c, s);
    ItemIsLighter(f[k].items, i);
    NullExact(c, s, bound);
  }

  lemma {:induction false} NullExactBranches(c: Context, f: map<Key, Json>, k: Key, bound: nat)
    requires ValidContext(c) && (forall d | d in c.defs :: NullSafe(c, c.defs[d]))
    requires InFragment(c, Obj(f), bound) && NullSafeNode(c, f) && !Rewritten(f)
    requires k in f && (k.AnyOf? || k.AllOf?) && f[k].Arr? && Resolvable(f[k], c.defs, c.rank, bound)
    requires Inlined(c, Obj(f), bound).Obj? && k in Inlined(c, Obj(f), bound).fields
    requires Inlined(c, Obj(f), bound).fields[k] == InlineRefs(f[k], c.defs, c.rank, bound)
    requires Holds(Generation, Closed(c), Inlined(c, Obj(f), bound).fields, k, 0, Null)
    ensures Holds(Standard, c, f, k, bound, Null)
    decreases bound, Weight(f[k]), 5
  {
    hide IsNullBranch, LastSegment, Rewritten, Spares, NullSafeNode, Inlined, Weight, IsSchema;
    var items := f[k].items;
    InlineItems(items, c.defs, c.rank, bound);
    forall i | 0 <= i < |items| && Accepts(Generation, Closed(c), InlineRefs(items[i], c.defs, c.rank, bound), 0, Null)
      ensures Accepts(Standard, c, items[i], bound, Null)
    {
      NullExactBranch(c, f, k, i, bound);
    }
  }

  /**
   Every instance of an optional bare reference survives exactly when the referenced
   definition, as it stands in the source, admits null.
   */
  lemma {:induction false} OptionalRefLosesNull(c: Context, f: map<Key, Json>, bound: nat, name: string)
    requires Keeps(c) && InFragment(c, Obj(f), bound) && !HasRef(f) && OptionalUnion(f) && LosslessNode(f)
    requires OptionalRefTo(f, name) && forall d | d in c.defs :: NullSafe(c, c.defs[d])
    ensures name in c.defs && name in c.rank
    ensures (forall v | Accepts(Standard, c, Obj(f), bound, v) ::
               Accepts(Generation, Closed(c), Inlined(c, Obj(f), bound), 0, v))
            <==> Accepts(Standard, c, c.defs[name], c.rank[name], Null)
  {
    hide Accepts, Inlined, IsSchema, LosslessNode, Resolvable, NullSafeNode;
    OptionalRefByOutput(c, f, bound, name);
    var def, rank := c.defs[name], c.rank[name];
    if Accepts(Standard, c, def, rank, Null) { InliningSound(c, def, rank, Null); }
    if Accepts(Generation, Closed(c), Inlined(c, def, rank), 0, Null) {
      assert NullSafe(c, def);
      NullExact(c, def, rank);
    }
  }

  /** Definitions that lose nothing at all are a special case. */
  lemma {:induction false} LosslessIsNullSafe(c: Context, s: Json)
    requires Lossless(s)
    ensures NullSafe(c, s)
  {
    if s.Obj? {
      var f := s.fields;
      forall sub | sub in Branches(f, AnyOf) + Branches(f, AllOf)
        ensures NullSafe(c, sub)
      {
        assert sub in SubSchemas(f);
        LosslessIsNullSafe(c, sub);
      }
    }
  }

  /** The rewritten form of an optional bare reference is that of the definition. */
  lemma {:induction false} OptionalRefIsRef(c: Context, f: map<Key, Json>, bound: nat, name: string)
    requires Keeps(c) && InFragment(c, Obj(f), bound) && !HasRef(f) && OptionalUnion(f) && LosslessNode(f)
    requires OptionalRefTo(f, name)
    ensures name in c.defs && name in c.rank && InFragment(c, c.defs[name], c.rank[name])
    ensures Inlined(c, Obj(f), bound) == Inlined(c, c.defs[name], c.rank[name])
    ensures Accepts(Standard, c, Obj(f), bound, Null)
  {
    CollapseInFragment(c, f, bound);
    CollapseSameNode(f);
    RefMeans(c, Collapse(f), bound);
    assert Inlined(c, Obj(f), bound) == Inlined(c, Obj(Collapse(f)), bound);
    UnionAdmits(c, f, bound, Null);
  }

  lemma {:induction false} ModelExcludesNull(c: Context, m: map<Key, Json>, bound: nat)
    requires ValidContext(c) && InFragment(c, Obj(m), bound)
    requires !Rewritten(m) && !Flagged(m) && Type in m && !c.check(Type, m[Type], Null)
    ensures !Accepts(Generation, Closed(c), Inlined(c, Obj(m), bound), 0, Null)
  {
    hide Weight, LastSegment, IsNullBranch;
    InlineMembers(m, c.defs, c.rank, bound);
    var out := InlineRefs(Obj(m), c.defs, c.rank, bound).fields;
    assert KeywordShape(c, m, Type, bound);
    PlainUnchanged(c, m[Type], bound);
    assert Nullable in m ==> KeywordShape(c, m, Nullable, bound);
    assert !Flagged(out);
    assert !Holds(Generation, Closed(c), out, Type, 0, Null);
  }

  /** So null is lost for every optional nested model whose own `type` excludes null. */
  lemma {:induction false} OptionalModelLosesNull(c: Context, f: map<Key, Json>, bound: nat, name: string,
      m: map<Key, Json>)
    requires Keeps(c) && InFragment(c, Obj(f), bound) && !HasRef(f) && OptionalUnion(f) && LosslessNode(f)
    requires OptionalRefTo(f, name) && name in c.defs && c.defs[name] == Obj(m)
    requires !Rewritten(m) && !Flagged(m) && Type in m && !c.check(Type, m[Type], Null)
    ensures Accepts(Standard, c, Obj(f), bound, Null)
    ensures !Accepts(Generation, Closed(c), Inlined(c, Obj(f), bound), 0, Null)
  {
    hide Accepts, Inlined, InFragment, LosslessNode, OptionalUnion, Rewritten, Flagged, OptionalRefTo, IsSchema;
    OptionalRefIsRef(c, f, bound, name);
    ModelExcludesNull(c, m, c.rank[name]);
  }

  /** The node without the declared properties that are called like a dropped keyword. */
  function Pruned(f: map<Key, Json>): map<Key, Json>
    requires Properties in f && f[Properties].Obj?
  {
    var ps := f[Properties].fields;
    f[Properties := Obj(map p | p in ps && !Dropped(p) :: ps[p])]
  }

  /** A node outside the fragment only because some declared property has such a name. */
  ghost predicate OnlyNamesClash(c: Context, f: map<Key, Json>, bound: nat) {
    && Resolvable(Obj(f), c.defs, c.rank, bound) && !Rewritten(f) && Nullable !in f
    && Properties in f && f[Properties].Obj? && !Rewritten(f[Properties].fields)
    && InFragment(c, Obj(Pruned(f)), bound) && NoOptionalRef(Obj(Pruned(f)))
  }

  /** The output of a node that is not rewritten depends on its surviving members only. */
  lemma {:induction false} SameMembers(c: Context, f: map<Key, Json>, g: map<Key, Json>, bound: nat)
    requires Acyclic(c.defs, c.rank) && !Rewritten(f) && !Rewritten(g)
    requires Resolvable(Obj(f), c.defs, c.rank, bound) && Resolvable(Obj(g), c.defs, c.rank, bound)
    requires forall k | !Dropped(k) :: k in f <==> k in g
    requires forall k | k in f && k in g && !Dropped(k) :: SameOutput(c, f[k], g[k], bound)
    ensures InlineRefs(Obj(f), c.defs, c.rank, bound) == InlineRefs(Obj(g), c.defs, c.rank, bound)
  {
    hide InlineRefs, Rewritten, Resolvable, Acyclic, Dropped;
    InlineMembers(f, c.defs, c.rank, bound);
    InlineMembers(g, c.defs, c.rank, bound);
    var a, b := InlineRefs(Obj(f), c.defs, c.rank, bound).fields, InlineRefs(Obj(g), c.defs, c.rank, bound).fields;
    forall k | k in a ensures k in b && a[k] == b[k] { assert SameOutput(c, f[k], g[k], bound); }
    assert a == b;
  }

  ghost predicate SameOutput(c: Context, x: Json, y: Json, bound: nat)
    requires Acyclic(c.defs, c.rank)
  {
    Resolvable(x, c.defs, c.rank, bound) && Resolvable(y, c.defs, c.rank, bound)
    && InlineRefs(x, c.defs, c.rank, bound) == InlineRefs(y, c.defs, c.rank, bound)
  }

  /** The rewrite cannot tell such properties from keywords and removes them. */
  lemma {:induction false} PrunedAway(c: Context, f: map<Key, Json>, bound: nat)
    requires ValidContext(c) && OnlyNamesClash(c, f, bound)
    ensures InlineRefs(Obj(f), c.defs, c.rank, bound) == Inlined(c, Obj(Pruned(f)), bound)
  {
    hide Weight, IsSchema, NoOptionalRef, InlineRefs, Dropped, IsNullBranch, LastSegment;
    var g, ps := Pruned(f), f[Properties].fields;
    var qs := g[Properties].fields;
    PrunedPlain(f);
    assert Resolvable(f[Properties], c.defs, c.rank, bound) && Resolvable(g[Properties], c.defs, c.rank, bound);
    SameMembers(c, ps, qs, bound);
    SameMembers(c, f, g, bound);
  }

  lemma {:induction false} PrunedPlain(f: map<Key, Json>)
    requires Properties in f && f[Properties].Obj? && !Rewritten(f) && !Rewritten(f[Properties].fields)
    ensures !Rewritten(Pruned(f)) && !Rewritten(Pruned(f)[Properties].fields) && !Dropped(Properties)
  {
    hide IsNullBranch;
  }

  /** The properties the rewrite undeclares satisfy what is asked of undeclared ones. */
  ghost predicate FallBack(c: Context, f: map<Key, Json>, bound: nat, v: Json)
    requires AdditionalProperties in f
  {
    v.Obj? ==> forall p | p in v.fields && p in Declared(f) && Dropped(p) ::
      Accepts(Standard, c, f[AdditionalProperties], bound, v.fields[p])
  }

  lemma {:induction false} PrunedAccepts(c: Context, f: map<Key, Json>, bound: nat, v: Json)
    requires Properties in f && f[Properties].Obj? && Accepts(Standard, c, Obj(f), bound, v)
    requires AdditionalProperties in f ==> FallBack(c, f, bound, v)
    ensures Accepts(Standard, c, Obj(Pruned(f)), bound, v)
  {
    var g := Pruned(f);
    forall k | k in g
      ensures Holds(Standard, c, g, k, bound, v)
    {
      assert Holds(Standard, c, f, k, bound, v);
    }
  }

  /** Where undeclared properties are free the removal loses no instance. */
  lemma {:induction false} DroppedNameHarmless(c: Context, f: map<Key, Json>, bound: nat, v: Json)
    requires Keeps(c) && OnlyNamesClash(c, f, bound) && AdditionalProperties !in f
    requires Accepts(Standard, c, Obj(f), bound, v)
    ensures Accepts(Generation, Closed(c), InlineRefs(Obj(f), c.defs, c.rank, bound), 0, v)
  {
    hide Accepts, InFragment, NoOptionalRef;
    PrunedAccepts(c, f, bound, v);
    InliningSound(c, Obj(Pruned(f)), bound, v);
    PrunedAway(c, f, bound);
  }

  lemma {:induction false} SurvivorFallsBack(c: Context, f: map<Key, Json>, bound: nat, v: Json)
    requires Keeps(c) && OnlyNamesClash(c, f, bound) && AdditionalProperties in f
    requires Lossless(f[AdditionalProperties]) && forall d | d in c.defs :: Lossless(c.defs[d])
    requires Accepts(Generation, Closed(c), InlineRefs(Obj(f), c.defs, c.rank, bound), 0, v)
    ensures FallBack(c, f, bound, v)
  {
    hide Weight, IsNullBranch, LastSegment, LosslessNode, NoOptionalRef, Resolvable;
    var rest := f[AdditionalProperties];
    RestInFragment(c, f, bound);
    if v.Obj? {
      forall p | p in v.fields && p in Declared(f) && Dropped(p)
        ensures Accepts(Standard, c, rest, bound, v.fields[p])
      {
        UndeclaredAfter(c, f, bound, p, v);
        InliningExact(c, rest, bound, v.fields[p]);
      }
    }
  }

  lemma {:induction false} RestInFragment(c: Context, f: map<Key, Json>, bound: nat)
    requires OnlyNamesClash(c, f, bound) && AdditionalProperties in f
    ensures InFragment(c, f[AdditionalProperties], bound)
  {
    hide Weight, LosslessNode, NoOptionalRef, KeywordShape, Rewritten, LastSegment;
    assert f[AdditionalProperties] in SubSchemas(Pruned(f));
    assert !HasRef(f) by { NotRewritten(f); }
  }

  lemma {:induction false} NotRewritten(f: map<Key, Json>)
    requires !Rewritten(f)
    ensures !HasRef(f) && !OptionalUnion(f)
  {
  }

  /** After the rewrite such a property is read by the schema of undeclared properties. */
  lemma {:induction false} UndeclaredAfter(c: Context, f: map<Key, Json>, bound: nat, p: Key, v: Json)
    requires Acyclic(c.defs, c.rank) && Resolvable(Obj(f), c.defs, c.rank, bound) && !Rewritten(f) && Nullable !in f
    requires Properties in f && f[Properties].Obj? && !Rewritten(f[Properties].fields)
    requires AdditionalProperties in f && Resolvable(f[AdditionalProperties], c.defs, c.rank, bound)
    requires Dropped(p) && v.Obj? && p in v.fields
    requires Accepts(Generation, Closed(c), InlineRefs(Obj(f), c.defs, c.rank, bound), 0, v)
    ensures Accepts(Generation, Closed(c), InlineRefs(f[AdditionalProperties], c.defs, c.rank, bound), 0, v.fields[p])
  {
    InlineMembers(f, c.defs, c.rank, bound);
    assert Resolvable(f[Properties], c.defs, c.rank, bound);
    InlineMembers(f[Properties].fields, c.defs, c.rank, bound);
    var out := InlineRefs(Obj(f), c.defs, c.rank, bound).fields;
    assert p !in Declared(out);
    assert Holds(Generation, Closed(c), out, AdditionalProperties, 0, v);
  }

  /**
   An instance survives exactly when its properties with such names satisfy the schema of
   undeclared properties; where those are forbidden, when it has none.
   */
  lemma {:induction false} DroppedPropertyLost(c: Context, f: map<Key, Json>, bound: nat, v: Json)
    requires Keeps(c) && OnlyNamesClash(c, f, bound) && AdditionalProperties in f
    requires Lossless(f[AdditionalProperties]) && forall d | d in c.defs :: Lossless(c.defs[d])
    requires Accepts(Standard, c, Obj(f), bound, v)
    ensures Accepts(Generation, Closed(c), InlineRefs(Obj(f), c.defs, c.rank, bound), 0, v) <==>
            FallBack(c, f, bound, v)
  {
    hide Accepts, InFragment, NoOptionalRef, Dropped, InlineRefs, Resolvable, IsSchema, Lossless, FallBack;
    if FallBack(c, f, bound, v) {
      PrunedAccepts(c, f, bound, v);
      InliningSound(c, Obj(Pruned(f)), bound, v);
      PrunedAway(c, f, bound);
    }
    if Accepts(Generation, Closed(c), InlineRefs(Obj(f), c.defs, c.rank, bound), 0, v) {
      SurvivorFallsBack(c, f, bound, v);
    }
  }

  /** Where undeclared properties are forbidden this holds whatever the definitions lose. */
  lemma {:induction false} ForbiddenPropertyLost(c: Context, f: map<Key, Json>, bound: nat, v: Json)
    requires Keeps(c) && OnlyNamesClash(c, f, bound)
    requires AdditionalProperties in f && f[AdditionalProperties] == Bool(false)
    requires Accepts(Standard, c, Obj(f), bound, v)
    ensures Accepts(Generation, Closed(c), InlineRefs(Obj(f), c.defs, c.rank, bound), 0, v)
            <==> (v.Obj? ==> forall p | p in v.fields :: !Dropped(p))
  {
    hide Accepts, InFragment, NoOptionalRef, Dropped, InlineRefs, Resolvable, IsSchema;
    if p :| v.Obj? && p in v.fields && Dropped(p) {
      CarrierRejected(c, f, bound, p, v);
    } else {
      PrunedAccepts(c, f, bound, v);
      InliningSound(c, Obj(Pruned(f)), bound, v);
      PrunedAway(c, f, bound);
    }
  }

  lemma {:induction false} CarrierRejected(c: Context, f: map<Key, Json>, bound: nat, p: Key, v: Json)
    requires ValidContext(c) && OnlyNamesClash(c, f, bound)
    requires AdditionalProperties in f && f[AdditionalProperties] == Bool(false)
    requires Dropped(p) && v.Obj? && p in v.fields
    ensures !Accepts(Generation, Closed(c), InlineRefs(Obj(f), c.defs, c.rank, bound), 0, v)
  {
    hide IsSchema, NoOptionalRef, LastSegment, Weight;
    if Accepts(Generation, Closed(c), InlineRefs(Obj(f), c.defs, c.rank, bound), 0, v) {
      UndeclaredAfter(c, f, bound, p, v);
    }
  }

  /* ---------- one such schema ---------- */

  const MODEL: map<Key, Json> := map[Type := Str("object")]

  const REFERENCE: map<Key, Json> := map[Ref := Str("#/$defs/M")]

  const NULL_TYPE: map<Key, Json> := map[Type := Str("null")]

  /** `anyOf: [{$ref: #/$defs/M}, {type: null}]`, as an optional nested model is written. */
  const OPTIONAL: map<Key, Json> := map[AnyOf := Arr([Obj(REFERENCE), Obj(NULL_TYPE)])]

  predicate TypeCheck(k: Key, want: Json, v: Json) {
    k.Type? ==> (want == Str("null") ==> v == Null) && (want == Str("object") ==> v.Obj?)
  }

  function Here(): Context {
    Context(map["M" := Obj(MODEL)], map["M" := 0], (k, want, v) => TypeCheck(k, want, v))
  }

  lemma {:induction false} NameOfReference()
    ensures LastSegment("#/$defs/M") == "M"
  {
    LastSegmentOf("#/$defs", "M");
    assert "#/$defs" + "/" + "M" == "#/$defs/M";
  }

  /** The definition is a model whose type excludes null, and the optional reference to it loses null. */
  lemma {:induction false} NullLostHere()
    ensures Accepts(Standard, Here(), Obj(OPTIONAL), 1, Null)
    ensures Keeps(Here()) && InFragment(Here(), Obj(OPTIONAL), 1)
    ensures !Accepts(Generation, Closed(Here()), Inlined(Here(), Obj(OPTIONAL), 1), 0, Null)
  {
    var c := Here();
    ModelHere();
    OptionalHere();
    OptionalModelLosesNull(c, OPTIONAL, 1, "M", MODEL);
  }

  lemma {:induction false} ModelHere()
    ensures Keeps(Here())
  {
    hide Weight, IsNullBranch, LastSegment;
    var c := Here();
    assert SubSchemas(MODEL) == {};
    assert KeywordShape(c, MODEL, Type, 0);
    assert IsSchema(c, Obj(MODEL), 0);
    assert Resolvable(Obj(MODEL), c.defs, c.rank, 0);
    assert NoOptionalRef(Obj(MODEL));
  }

  lemma {:induction false} OptionalHere()
    ensures InFragment(Here(), Obj(OPTIONAL), 1) && !HasRef(OPTIONAL) && OptionalUnion(OPTIONAL)
            && LosslessNode(OPTIONAL)
    ensures OptionalRefTo(OPTIONAL, "M")
  {
    hide IsSchema, Resolvable, LosslessNode, LastSegment, SubSchemas;
    OptionalIsSchema();
    OptionalLossless();
    NameOfReference();
  }

  lemma {:induction false} BranchesHere()
    ensures SubSchemas(REFERENCE) == {} && SubSchemas(NULL_TYPE) == {}
    ensures SubSchemas(OPTIONAL) == {Obj(REFERENCE), Obj(NULL_TYPE)}
  {
  }

  lemma {:induction false} ReferenceIsSchema()
    ensures IsSchema(Here(), Obj(REFERENCE), 1) && Resolvable(Obj(REFERENCE), Here().defs, Here().rank, 1)
  {
    hide SubSchemas, LastSegment;
    BranchesHere();
    NameOfReference();
    assert KeywordShape(Here(), REFERENCE, Ref, 1);
  }

  lemma {:induction false} NullTypeIsSchema()
    ensures IsSchema(Here(), Obj(NULL_TYPE), 1) && Resolvable(Obj(NULL_TYPE), Here().defs, Here().rank, 1)
  {
    hide SubSchemas, LastSegment;
    BranchesHere();
    assert KeywordShape(Here(), NULL_TYPE, Type, 1);
  }

  lemma {:induction false} OptionalIsSchema()
    ensures InFragment(Here(), Obj(OPTIONAL), 1)
  {
    hide SubSchemas, LastSegment, Weight;
    BranchesHere();
    ReferenceIsSchema();
    NullTypeIsSchema();
    assert KeywordShape(Here(), OPTIONAL, AnyOf, 1);
    assert Resolvable(OPTIONAL[AnyOf], Here().defs, Here().rank, 1);
  }

  lemma {:induction false} OptionalLossless()
    ensures LosslessNode(OPTIONAL)
  {
    hide SubSchemas, LastSegment;
    BranchesHere();
    assert LosslessNode(REFERENCE) && Lossless(Obj(REFERENCE));
    assert LosslessNode(NULL_TYPE) && Lossless(Obj(NULL_TYPE));
  }

  /* ---------- a schema that loses a property ---------- */

  const STRING: map<Key, Json> := map[Type := Str("string")]

  const TITLED: map<Key, Json> := map[Title := Obj(STRING)]

  /** `{type: object, properties: {title: {type: string}}, additionalProperties: false}` */
  const CLOSED_MODEL: map<Key, Json> :=
    map[Type := Str("object"), Properties := Obj(TITLED), AdditionalProperties := Bool(false)]

  /** `{title: "x"}` */
  const INSTANCE := Obj(map[Title := Str("x")])

  function NoDefinitions(): Context { Here().(defs := map[], rank := map[]) }

  lemma {:induction false} StringIsSchema()
    ensures IsSchema(NoDefinitions(), Obj(STRING), 0) && Resolvable(Obj(STRING), map[], map[], 0)
    ensures NoOptionalRef(Obj(STRING)) && Accepts(Standard, NoDefinitions(), Obj(STRING), 0, Str("x"))
  {
    assert SubSchemas(STRING) == {};
    assert KeywordShape(NoDefinitions(), STRING, Type, 0);
  }

  const PRUNED_MODEL: map<Key, Json> :=
    map[Type := Str("object"), Properties := Obj(map[]), AdditionalProperties := Bool(false)]

  lemma {:induction false} PrunedModel()
    ensures Pruned(CLOSED_MODEL) == PRUNED_MODEL
  {
    assert (map p | p in TITLED && !Dropped(p) :: TITLED[p]) == map[];
  }

  lemma {:induction false} PrunedSubSchemas()
    ensures SubSchemas(PRUNED_MODEL) == {Bool(false)}
  {
  }

  lemma {:induction false} PrunedModelIsSchema()
    ensures IsSchema(NoDefinitions(), Obj(PRUNED_MODEL), 0) && NoOptionalRef(Obj(PRUNED_MODEL))
  {
    hide SubSchemas;
    var c := NoDefinitions();
    PrunedSubSchemas();
    assert KeywordShape(c, PRUNED_MODEL, Type, 0) && KeywordShape(c, PRUNED_MODEL, Properties, 0);
    assert KeywordShape(c, PRUNED_MODEL, AdditionalProperties, 0);
  }

  lemma {:induction false} PrunedModelInFragment()
    ensures InFragment(NoDefinitions(), Obj(PRUNED_MODEL), 0) && NoOptionalRef(Obj(PRUNED_MODEL))
  {
    hide IsSchema, NoOptionalRef;
    PrunedModelIsSchema();
    assert Resolvable(Obj(map[]), map[], map[], 0);
  }

  lemma {:induction false} NothingToKeep()
    ensures Keeps(NoDefinitions())
  {
  }

  lemma {:induction false} ClosedModelResolvable()
    ensures Resolvable(Obj(CLOSED_MODEL), map[], map[], 0)
  {
    assert Resolvable(Obj(STRING), map[], map[], 0);
    assert Resolvable(Obj(TITLED), map[], map[], 0);
  }

  lemma {:induction false} ClosedModelClashes()
    ensures Keeps(NoDefinitions()) && OnlyNamesClash(NoDefinitions(), CLOSED_MODEL, 0)
  {
    hide IsSchema, NoOptionalRef, Resolvable, Pruned, Keeps;
    NothingToKeep();
    ClosedModelResolvable();
    PrunedModel();
    PrunedModelInFragment();
  }

  lemma {:induction false} TitleAccepted()
    ensures Accepts(Standard, NoDefinitions(), Obj(CLOSED_MODEL), 0, INSTANCE)
  {
    var c := NoDefinitions();
    StringIsSchema();
    assert Holds(Standard, c, CLOSED_MODEL, Type, 0, INSTANCE);
    assert Holds(Standard, c, CLOSED_MODEL, Properties, 0, INSTANCE);
    assert Holds(Standard, c, CLOSED_MODEL, AdditionalProperties, 0, INSTANCE);
  }

  /** The instance is accepted before the rewrite and rejected after it. */
  lemma {:induction false} TitleLostHere()
    ensures Keeps(NoDefinitions()) && OnlyNamesClash(NoDefinitions(), CLOSED_MODEL, 0)
    ensures Accepts(Standard, NoDefinitions(), Obj(CLOSED_MODEL), 0, INSTANCE)
    ensures !Accepts(Generation, Closed(NoDefinitions()), InlineRefs(Obj(CLOSED_MODEL), map[], map[], 0), 0, INSTANCE)
  {
    hide Accepts, OnlyNamesClash, Keeps, InlineRefs;
    ClosedModelClashes();
    TitleAccepted();
    assert Title in INSTANCE.fields && Dropped(Title);
    ForbiddenPropertyLost(NoDefinitions(), CLOSED_MODEL, 0, INSTANCE);
  }

  /* ---------- such names at any depth ---------- */

  /** The schema without such properties, wherever they are declared. */
  function Prune(s: Json): Json {
    match s
    case Obj(f) => Obj(map k | k in f :: PruneMember(f, k))
    case _ => s
  }

  function PruneMember(f: map<Key, Json>, k: Key): Json
    requires k in f
    decreases Obj(f), 0
  {
    assert f[k] < Obj(f);
    if (k.AnyOf? || k.AllOf?) && f[k].Arr? then
      var items := f[k].items;
      Arr(seq(|items|, i requires 0 <= i < |items| => (assert items[i] < f[k]; Prune(items[i]))))
    else if k.Properties? && f[k].Obj? then
      var ps := f[k].fields;
      Obj(map p | p in ps && !Dropped(p) :: (assert ps[p] < f[k]; Prune(ps[p])))
    else if k.Items? || k.AdditionalProperties? then Prune(f[k])
    else f[k]
  }

  /** b is a up to members with dropped names, at any depth. */
  ghost predicate Thin(a: Json, b: Json)
    decreases a
  {
    match a
    case Obj(f) =>
      && b.Obj? && (forall k | !Dropped(k) :: k in f <==> k in b.fields)
      && forall k | k in f && k in b.fields && !Dropped(k) :: Thin(f[k], b.fields[k])
    case Arr(items) => b.Arr? && |b.items| == |items| && forall i | 0 <= i < |items| :: Thin(items[i], b.items[i])
    case _ => a == b
  }

  lemma {:induction false} ThinSelf(a: Json)
    ensures Thin(a, a)
  {
    match a
    case Obj(f) => forall k | k in f ensures Thin(f[k], f[k]) { ThinSelf(f[k]); }
    case Arr(items) => forall i | 0 <= i < |items| ensures Thin(items[i], items[i]) { ThinSelf(items[i]); }
    case _ =>
  }

  lemma {:induction false} PruneThins(s: Json)
    ensures Thin(s, Prune(s))
    decreases s, 1
  {
    if s.Obj? {
      forall k | k in s.fields
        ensures Thin(s.fields[k], Prune(s).fields[k])
      {
        PruneMemberThins(s.fields, k);
      }
    } else {
      ThinSelf(s);
    }
  }

  lemma {:induction false} PruneMemberThins(f: map<Key, Json>, k: Key)
    requires k in f
    ensures Thin(f[k], PruneMember(f, k))
    decreases Obj(f), 0
  {
    assert f[k] < Obj(f);
    if (k.AnyOf? || k.AllOf?) && f[k].Arr? {
      forall i | 0 <= i < |f[k].items| ensures Thin(f[k].items[i], Prune(f[k].items[i])) { PruneThins(f[k].items[i]); }
    } else if k.Properties? && f[k].Obj? {
      var ps := f[k].fields;
      forall p | p in ps ensures Thin(ps[p], Prune(ps[p])) { PruneThins(ps[p]); }
    } else if k.Items? || k.AdditionalProperties? {
      PruneThins(f[k]);
    } else {
      ThinSelf(f[k]);
    }
  }

  ghost predicate ThinDefs(defs: map<string, Json>, others: map<string, Json>) {
    defs.Keys == others.Keys && forall d | d in defs :: Thin(defs[d], others[d])
  }

  lemma {:induction false} ThinBranch(a: Json, b: Json)
    requires Thin(a, b)
    ensures IsNullBranch(a) == IsNullBranch(b)
  {
  }

  lemma {:induction false} ThinUnion(f: map<Key, Json>, g: map<Key, Json>)
    requires Thin(Obj(f), Obj(g))
    ensures HasRef(f) == HasRef(g) && OptionalUnion(f) == OptionalUnion(g)
    ensures HasRef(f) && f[Ref].Str? ==> g[Ref] == f[Ref]
    ensures OptionalUnion(f) ==> Thin(NonNullBranch(f), NonNullBranch(g))
  {
    hide IsNullBranch;
    if Ref in f { assert Thin(f[Ref], g[Ref]); }
    if AnyOf in f {
      assert Thin(f[AnyOf], g[AnyOf]);
      if BinaryUnion(f) {
        ThinBranch(f[AnyOf].items[0], g[AnyOf].items[0]);
        ThinBranch(f[AnyOf].items[1], g[AnyOf].items[1]);
      }
    }
  }

  lemma {:induction false} ThinCollapse(f: map<Key, Json>, g: map<Key, Json>)
    requires Thin(Obj(f), Obj(g)) && OptionalUnion(f) && OptionalUnion(g)
    requires NonNullBranch(f).Obj? && NonNullBranch(g).Obj?
    ensures Thin(Obj(Collapse(f)), Obj(Collapse(g)))
  {
    ThinUnion(f, g);
    ThinSelf(Bool(true));
    var a, b := Collapse(f), Collapse(g);
    forall k | k in a && k in b && !Dropped(k)
      ensures Thin(a[k], b[k])
    {
      if k.Default? && Default in f { assert Thin(f[Default], g[Default]); }
    }
  }

  /** The rewrite does not see members with dropped names, in the schema or in its definitions. */
  lemma {:induction false} ThinSame(a: Json, b: Json, c: Context, d: Context, bound: nat)
    requires c.rank == d.rank && Acyclic(c.defs, c.rank) && Acyclic(d.defs, d.rank) && ThinDefs(c.defs, d.defs)
    requires Resolvable(a, c.defs, c.rank, bound) && Resolvable(b, d.defs, d.rank, bound) && Thin(a, b)
    ensures InlineRefs(a, c.defs, c.rank, bound) == InlineRefs(b, d.defs, d.rank, bound)
    decreases bound, Weight(a), 1
  {
    match a
    case Obj(f) =>
      ThinUnion(f, b.fields);
      if HasRef(f) {
        var name := LastSegment(f[Ref].s);
        ThinSame(c.defs[name], d.defs[name], c, d, c.rank[name]);
      } else if OptionalUnion(f) {
        ThinSameUnion(f, b.fields, c, d, bound);
      } else {
        ThinSameNode(f, b.fields, c, d, bound);
      }
    case Arr(items) =>
      InlineItems(items, c.defs, c.rank, bound);
      InlineItems(b.items, d.defs, d.rank, bound);
      forall i | 0 <= i < |items|
        ensures InlineRefs(items[i], c.defs, c.rank, bound) == InlineRefs(b.items[i], d.defs, d.rank, bound)
      {
        ItemIsLighter(items, i);
        ThinSame(items[i], b.items[i], c, d, bound);
      }
    case _ =>
  }

  lemma {:induction false} ThinSameUnion(f: map<Key, Json>, g: map<Key, Json>, c: Context, d: Context, bound: nat)
    requires c.rank == d.rank && Acyclic(c.defs, c.rank) && Acyclic(d.defs, d.rank) && ThinDefs(c.defs, d.defs)
    requires Resolvable(Obj(f), c.defs, c.rank, bound) && Resolvable(Obj(g), d.defs, d.rank, bound)
    requires Thin(Obj(f), Obj(g)) && !HasRef(f) && !HasRef(g) && OptionalUnion(f) && OptionalUnion(g)
    ensures InlineRefs(Obj(f), c.defs, c.rank, bound) == InlineRefs(Obj(g), d.defs, d.rank, bound)
    decreases bound, Weight(Obj(f)), 0
  {
    hide Weight, IsNullBranch, LastSegment, Thin, ThinDefs, Acyclic;
    CollapseResolvable(f, c.defs, c.rank, bound);
    CollapseResolvable(g, d.defs, d.rank, bound);
    CollapseLighter(f);
    ThinCollapse(f, g);
    ThinSame(Obj(Collapse(f)), Obj(Collapse(g)), c, d, bound);
  }

  lemma {:induction false} ThinSameNode(f: map<Key, Json>, g: map<Key, Json>, c: Context, d: Context, bound: nat)
    requires c.rank == d.rank && Acyclic(c.defs, c.rank) && Acyclic(d.defs, d.rank) && ThinDefs(c.defs, d.defs)
    requires Resolvable(Obj(f), c.defs, c.rank, bound) && Resolvable(Obj(g), d.defs, d.rank, bound)
    requires Thin(Obj(f), Obj(g)) && !Rewritten(f) && !Rewritten(g)
    ensures InlineRefs(Obj(f), c.defs, c.rank, bound) == InlineRefs(Obj(g), d.defs, d.rank, bound)
    decreases bound, Weight(Obj(f)), 0
  {
    hide Weight, IsNullBranch, LastSegment, ThinDefs, Acyclic, InlineRefs;
    InlineMembers(f, c.defs, c.rank, bound);
    InlineMembers(g, d.defs, d.rank, bound);
    var x, y := InlineRefs(Obj(f), c.defs, c.rank, bound).fields, InlineRefs(Obj(g), d.defs, d.rank, bound).fields;
    forall k | k in x
      ensures k in y && x[k] == y[k]
    {
      MemberIsLighter(f, k);
      ThinSame(f[k], g[k], c, d, bound);
    }
    assert x == y;
  }

  /** The definitions without such properties. */
  function PrunedContext(c: Context): Context { c.(defs := map d | d in c.defs :: Prune(c.defs[d])) }

  /**
   Whatever names are dropped and however deep, an instance is accepted after the rewrite
   exactly when the source schema accepts it with those properties struck out, provided what
   is left is in the fragment and loses no constraint.
   */
  lemma {:induction false} SurvivesIffPruned(c: Context, s: Json, bound: nat, v: Json)
    requires Acyclic(c.defs, c.rank) && Resolvable(s, c.defs, c.rank, bound)
    requires Keeps(PrunedContext(c)) && InFragment(PrunedContext(c), Prune(s), bound) && NoOptionalRef(Prune(s))
    requires Lossless(Prune(s)) && forall d | d in c.defs :: Lossless(Prune(c.defs[d]))
    ensures Accepts(Generation, Closed(c), InlineRefs(s, c.defs, c.rank, bound), 0, v)
            <==> Accepts(Standard, PrunedContext(c), Prune(s), bound, v)
  {
    hide Accepts, InlineRefs, Prune, IsSchema, Resolvable, NoOptionalRef, Lossless, Thin;
    var p := PrunedContext(c);
    forall d | d in c.defs ensures Thin(c.defs[d], p.defs[d]) { PruneThins(c.defs[d]); }
    assert ThinDefs(c.defs, p.defs);
    PruneThins(s);
    ThinSame(s, Prune(s), c, p, bound);
    assert Closed(c) == Closed(p);
    InliningPreservesMeaning(p, Prune(s), bound, v);
  }
}
