/** What the rewritten schema looks like, keyword by keyword. */
module SchemaOutput {
  import opened Json
  import opened SchemaInlining

  /** The seven keywords that never reach the decoder. */
  const STRUCK: set<Key> := {Defs, Minimum, Maximum, ExclusiveMinimum, ExclusiveMaximum, Description, Title}

  lemma {:induction false} DroppedAreStruck(k: Key)
    ensures Dropped(k) <==> k in STRUCK
  {
  }

  /** None of them occurs at any depth, nor a reference to follow. */
  ghost predicate Clean(j: Json) {
    match j
    case Obj(f) =>
      && f.Keys !! STRUCK && (Ref in f ==> f[Ref] == Null)
      && forall k | k in f :: Clean(f[k])
    case Arr(items) => forall i | 0 <= i < |items| :: Clean(items[i])
    case _ => true
  }

  lemma {:induction false} StrippedIsClean(j: Json)
    requires Stripped(j)
    ensures Clean(j)
  {
    match j
    case Obj(f) =>
      forall k | k in f
        ensures Clean(f[k]) && k !in STRUCK
      {
        DroppedAreStruck(k);
        StrippedIsClean(f[k]);
      }
    case Arr(items) => forall i | 0 <= i < |items| ensures Clean(items[i]) { StrippedIsClean(items[i]); }
    case _ =>
  }

  /** At every depth of the output none of the seven keywords is left and no reference. */
  lemma {:induction false} OutputIsClean(node: Json, defs: map<string, Json>, rank: map<string, nat>, bound: nat)
    requires Acyclic(defs, rank) && Resolvable(node, defs, rank, bound)
    ensures Clean(InlineRefs(node, defs, rank, bound))
  {
    hide InlineRefs, Stripped, Clean;
    InlineStrips(node, defs, rank, bound);
    StrippedIsClean(InlineRefs(node, defs, rank, bound));
  }

  /* ---------- what is kept ---------- */

  predicate IsNullType(b: Json) { b.Obj? && Type in b.fields && b.fields[Type] == Str("null") }

  /** A union of two branches of which exactly one is the null type. */
  predicate IsOptional(f: map<Key, Json>) {
    && AnyOf in f && f[AnyOf].Arr? && |f[AnyOf].items| == 2
    && IsNullType(f[AnyOf].items[0]) != IsNullType(f[AnyOf].items[1])
  }

  predicate Refers(f: map<Key, Json>) { Ref in f && f[Ref] != Null }

  /** A node that is no reference and no optional union keeps every other member, rewritten in place. */
  lemma {:induction false} NodeOutput(f: map<Key, Json>, defs: map<string, Json>, rank: map<string, nat>, bound: nat)
    requires Acyclic(defs, rank) && Resolvable(Obj(f), defs, rank, bound) && !Refers(f) && !IsOptional(f)
    ensures var out := InlineRefs(Obj(f), defs, rank, bound);
            && out.Obj? && out.fields.Keys == f.Keys - STRUCK
            && forall k | k in out.fields ::
                 Resolvable(f[k], defs, rank, bound) && out.fields[k] == InlineRefs(f[k], defs, rank, bound)
  {
    hide InlineRefs, Resolvable, Acyclic;
    assert !Rewritten(f);
    InlineMembers(f, defs, rank, bound);
    var out := InlineRefs(Obj(f), defs, rank, bound);
    forall k ensures k in out.fields <==> k in f && k !in STRUCK { DroppedAreStruck(k); }
    forall k | k in out.fields ensures Resolvable(f[k], defs, rank, bound) {
        MemberResolvable(f, k, defs, rank, bound); }
  }

  lemma {:induction false} MemberResolvable(f: map<Key, Json>, k: Key, defs: map<string, Json>, rank: map<string, nat>,
                                            bound: nat)
    requires Resolvable(Obj(f), defs, rank, bound) && !Refers(f) && k in f && k !in STRUCK
    ensures Resolvable(f[k], defs, rank, bound)
  {
    DroppedAreStruck(k);
  }

  /** A list keeps its items in order; every other value is unchanged. */
  lemma {:induction false} ValueOutput(j: Json, defs: map<string, Json>, rank: map<string, nat>, bound: nat)
    requires Acyclic(defs, rank) && Resolvable(j, defs, rank, bound) && !j.Obj?
    ensures var out := InlineRefs(j, defs, rank, bound);
            if j.Arr? then
              && out.Arr? && |out.items| == |j.items|
              && forall i | 0 <= i < |j.items| :: out.items[i] == InlineRefs(j.items[i], defs, rank, bound)
            else out == j
  {
    if j.Arr? { InlineItems(j.items, defs, rank, bound); }
  }

  /** A reference is replaced by the definition behind its last slash, whatever stands beside it. */
  lemma {:induction false} RefOutput(f: map<Key, Json>, front: string, name: string, defs: map<string, Json>,
                                     rank: map<string, nat>, bound: nat)
    requires Acyclic(defs, rank) && Resolvable(Obj(f), defs, rank, bound)
    requires Ref in f && f[Ref] == Str(front + "/" + name) && '/' !in name
    ensures name in defs && name in rank && Resolvable(defs[name], defs, rank, rank[name])
    ensures InlineRefs(Obj(f), defs, rank, bound) == InlineRefs(defs[name], defs, rank, rank[name])
  {
    hide LastSegment;
    LastSegmentOf(front, name);
  }

  lemma {:induction false} LastSegmentOf(front: string, name: string)
    requires '/' !in name
    ensures LastSegment(front + "/" + name) == name
  {
    var ref := front + "/" + name;
    if name != "" {
      var init := name[..|name| - 1];
      LastSegmentOf(front, init);
      assert ref[..|ref| - 1] == front + "/" + init;
      assert name == init + [name[|name| - 1]];
    }
  }

  /** The branch of an optional union that is not the null type. */
  function Branch(f: map<Key, Json>): Json
    requires IsOptional(f)
  {
    if IsNullType(f[AnyOf].items[0]) then f[AnyOf].items[1] else f[AnyOf].items[0]
  }

  /** The branch with the flag, and with the default of the union over its own. */
  function Merged(f: map<Key, Json>): map<Key, Json>
    requires IsOptional(f) && Branch(f).Obj?
  {
    Branch(f).fields + map[Nullable := Bool(true)] + (if Default in f then map[Default := f[Default]] else map[])
  }

  lemma {:induction false} MergedIsCollapse(f: map<Key, Json>)
    requires IsOptional(f) && Branch(f).Obj?
    ensures OptionalUnion(f) && NonNullBranch(f) == Branch(f) && Collapse(f) == Merged(f)
  {
  }

  /**
   An optional union of a branch that is neither a reference nor such a union itself becomes
   that branch: its members without the seven keywords, `nullable: true`, and the default of the
   union if it has one.
   */
  lemma {:induction false} OptionalOutput(f: map<Key, Json>, defs: map<string, Json>, rank: map<string, nat>,
      bound: nat)
    requires Acyclic(defs, rank) && Resolvable(Obj(f), defs, rank, bound) && !Refers(f) && IsOptional(f)
    requires Branch(f).Obj? && !Refers(Branch(f).fields) && !IsOptional(Branch(f).fields)
    ensures var b, out := Branch(f).fields, InlineRefs(Obj(f), defs, rank, bound);
            && out.Obj?
            && out.fields.Keys == b.Keys - STRUCK + {Nullable} + (if Default in f then {Default} else {})
            && out.fields[Nullable] == Bool(true)
            && (Default in f ==>
                  Resolvable(f[Default], defs, rank, bound)
                  && out.fields[Default] == InlineRefs(f[Default], defs, rank, bound))
            && forall k | k in b && k !in STRUCK && !k.Nullable? && !(k.Default? && Default in f) ::
                 Resolvable(b[k], defs, rank, bound) && out.fields[k] == InlineRefs(b[k], defs, rank, bound)
  {
    hide InlineRefs, Resolvable, Acyclic, Merged;
    var g := Merged(f);
    OptionalUnfold(f, defs, rank, bound);
    MergedMembers(f);
    NodeOutput(g, defs, rank, bound);
    ValueOutput(Bool(true), defs, rank, bound) by { BoolResolvable(true, defs, rank, bound); }
  }

  lemma {:induction false} BoolResolvable(b: bool, defs: map<string, Json>, rank: map<string, nat>, bound: nat)
    ensures Resolvable(Bool(b), defs, rank, bound)
  {
  }

  lemma {:induction false} OptionalUnfold(f: map<Key, Json>, defs: map<string, Json>, rank: map<string, nat>,
      bound: nat)
    requires Acyclic(defs, rank) && Resolvable(Obj(f), defs, rank, bound) && !Refers(f) && IsOptional(f)
    requires Branch(f).Obj?
    ensures Resolvable(Obj(Merged(f)), defs, rank, bound)
    ensures InlineRefs(Obj(f), defs, rank, bound) == InlineRefs(Obj(Merged(f)), defs, rank, bound)
  {
    hide Merged;
    MergedIsCollapse(f);
    CollapseResolvable(f, defs, rank, bound);
  }

  lemma {:induction false} MergedMembers(f: map<Key, Json>)
    requires IsOptional(f) && Branch(f).Obj? && !Refers(Branch(f).fields) && !IsOptional(Branch(f).fields)
    ensures var b, g := Branch(f).fields, Merged(f);
            && !Refers(g) && !IsOptional(g) && Nullable in g && g[Nullable] == Bool(true)
            && g.Keys == b.Keys + {Nullable} + (if Default in f then {Default} else {})
            && (Default in f ==> g[Default] == f[Default])
            && forall k | k in b && !k.Nullable? && !(k.Default? && Default in f) :: g[k] == b[k]
  {
  }

  /** An optional union of a bare reference becomes the definition, without the flag. */
  lemma {:induction false} OptionalRefOutput(f: map<Key, Json>, front: string, name: string, defs: map<string, Json>,
                                             rank: map<string, nat>, bound: nat)
    requires Acyclic(defs, rank) && Resolvable(Obj(f), defs, rank, bound) && !Refers(f) && IsOptional(f)
    requires Branch(f).Obj? && Ref in Branch(f).fields && Branch(f).fields[Ref] == Str(front + "/" + name)
             && '/' !in name
    ensures name in defs && name in rank && Resolvable(defs[name], defs, rank, rank[name])
    ensures InlineRefs(Obj(f), defs, rank, bound) == InlineRefs(defs[name], defs, rank, rank[name])
  {
    hide InlineRefs, Resolvable, Acyclic, LastSegment;
    OptionalUnfold(f, defs, rank, bound);
    RefOutput(Merged(f), front, name, defs, rank, bound);
  }

  /* ---------- a bounded field ---------- */

  const CONFIDENCE: map<Key, Json> :=
    map[Type := Str("number"), Minimum := Num(0.0), Maximum := Num(1.0), Default := Num(0.5)]

  /** The bounds are dropped, type and default stay. */
  lemma {:induction false} ConfidenceHere()
    ensures Resolvable(Obj(CONFIDENCE), map[], map[], 0)
    ensures InlineRefs(Obj(CONFIDENCE), map[], map[], 0) == Obj(map[Type := Str("number"), Default := Num(0.5)])
  {
    hide InlineRefs;
    ConfidenceKeys();
    NodeOutput(CONFIDENCE, map[], map[], 0);
    ValueOutput(Str("number"), map[], map[], 0);
    ValueOutput(Num(0.5), map[], map[], 0);
    var out := InlineRefs(Obj(CONFIDENCE), map[], map[], 0);
    assert out.fields == map[Type := Str("number"), Default := Num(0.5)];
  }

  lemma {:induction false} ConfidenceKeys()
    ensures CONFIDENCE.Keys - STRUCK == {Type, Default}
  {
  }
}
