/** JSON values, and the weight that makes the schema rewrite terminate. */
module Json {
  /**
   A member name. The names the rewrite or the denotation looks at are constructors of
   their own; `Named` stands for every other name, so names and keys correspond one to one.
   */
  datatype Key =
    | Ref | Defs | AnyOf | AllOf | Properties | Items | AdditionalProperties
    | Type | Nullable | Default | Title | Description
    | Minimum | Maximum | ExclusiveMinimum | ExclusiveMaximum
    | Named(name: string)

  datatype Json =
    | Null
    | Bool(b: bool)
    | Num(n: real)
    | Str(s: string)
    | Arr(items: seq<Json>)
    | Obj(fields: map<Key, Json>)

  /**
   The termination measure of the rewrite. Collapsing an optional union moves its non-null
   branch up two levels but copies `default` along, so `default` is added to the depth of
   the other members instead of competing with it.
   */
  ghost function Weight(j: Json): (w: nat)
    decreases j, 1, 0
  {
    match j
    case Arr(items) => 1 + Heaviest(j, set x | x in items)
    case Obj(fields) =>
      1 + Heaviest(j, (fields - {Default}).Values)
        + (if Default in fields then 1 + Weight(fields[Default]) else 0)
    case _ => 1
  }

  ghost function Heaviest(parent: Json, children: set<Json>): (w: nat)
    requires forall c | c in children :: c < parent
    ensures forall c | c in children :: Weight(c) <= w
    ensures w == 0 || exists c | c in children :: w == Weight(c)
    decreases parent, 0, |children|
  {
    if children == {} then 0 else
      var c :| c in children;
      var rest := Heaviest(parent, children - {c});
      if rest <= Weight(c) then Weight(c) else rest
  }

  lemma {:induction false} MemberIsLighter(fields: map<Key, Json>, k: Key)
    requires k in fields
    ensures Weight(fields[k]) < Weight(Obj(fields))
  {
    if k != Default {
      assert k in (fields - {Default});
      assert fields[k] in (fields - {Default}).Values;
    }
  }

  lemma {:induction false} ItemIsLighter(items: seq<Json>, i: nat)
    requires i < |items|
    ensures Weight(items[i]) < Weight(Arr(items))
  {
    assert items[i] in (set x | x in items);
  }
}
