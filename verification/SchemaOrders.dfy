/**
 * Inlining along an explicit visiting order: what some order of the keys can answer is exactly what the unfolding and
 * its failures say (cmd/gen-control-schema/main.go).
 */
module SchemaOrders {
  import opened Json
  import opened SchemaInliner

  /** An order for the keys of an object and a plan below each of them; below a component reference, for its target. */
  datatype Plan = AtLeaf | InOrder(order: seq<string>, below: map<string, Plan>) | Each(plans: seq<Plan>)

  ghost predicate Orders(order: seq<string>, keys: set<string>) {
    Distinct(order) && forall k :: k in order <==> k in keys
  }

  /** The plan covers everything a run over `v` may visit. */
  ghost predicate Plans(v: Value, schemas: Schemas, onStack: set<string>, plan: Plan)
    decreases schemas.Keys - onStack, v, 1
  {
    match v
    case Obj(fields) =>
      && plan.InOrder? && Orders(plan.order, fields.Keys) && plan.below.Keys == fields.Keys
      && forall k :: k in fields ==> PlansField(v, schemas, onStack, plan, k)
    case Arr(items) =>
      && plan.Each? && |plan.plans| == |items|
      && forall i :: 0 <= i < |items| ==> Plans(items[i], schemas, onStack, plan.plans[i])
    case _ => plan.AtLeaf?
  }

  ghost predicate PlansField(v: Value, schemas: Schemas, onStack: set<string>, plan: Plan, k: string)
    requires v.Obj? && plan.InOrder? && k in v.fields && k in plan.below
    decreases schemas.Keys - onStack, v, 0
  {
    if k == REF then HasTarget(v, schemas, onStack) ==>
        Plans(Target(v, schemas), schemas, onStack + {NodeName(v)}, plan.below[k])
    else Plans(v.fields[k], schemas, onStack, plan.below[k])
  }

  ghost predicate HasTarget(v: Value, schemas: Schemas, onStack: set<string>) {
    IsRefNode(v) && NodeName(v) in schemas && NodeName(v) !in onStack
  }

  ghost function Target(v: Value, schemas: Schemas): Value
    requires IsRefNode(v) && NodeName(v) in schemas
  {
    schemas[NodeName(v)]
  }

  /** The inliner with its choices taken from the plan. */
  ghost function Inline(v: Value, schemas: Schemas, onStack: set<string>, plan: Plan): Result<Value, Failure>
    requires Plans(v, schemas, onStack, plan)
    decreases schemas.Keys - onStack, v, 2, 0
  {
    match v
    case Obj(fields) => InlineFields(v, schemas, onStack, plan, 0, map[])
    case Arr(items) => InlineItems(v, schemas, onStack, plan, 0, [])
    case _ => Ok(v)
  }

  /** The keys from position `i` of the order on, after those before it have left `out`. */
  ghost function InlineFields(v: Value, schemas: Schemas, onStack: set<string>, plan: Plan, i: nat,
                              out: map<string, Value>)
    : Result<Value, Failure>
    requires v.Obj? && Plans(v, schemas, onStack, plan) && i <= |plan.order|
    decreases schemas.Keys - onStack, v, 1, |plan.order| - i
  {
    if i == |plan.order| then Ok(Obj(out))
    else
      var k := plan.order[i];
      var r := InlineField(v, schemas, onStack, plan, k);
      if r.Err? || (k == REF && IsRefNode(v)) then r
      else InlineFields(v, schemas, onStack, plan, i + 1, out[k := r.value])
  }

  /** One key: what it contributes, or, for a component reference, the answer for the whole object. */
  ghost function InlineField(v: Value, schemas: Schemas, onStack: set<string>, plan: Plan,
                             k: string): Result<Value, Failure>
    requires v.Obj? && Plans(v, schemas, onStack, plan) && k in v.fields
    decreases schemas.Keys - onStack, v, 0, 0
  {
    var val := v.fields[k];
    assert PlansField(v, schemas, onStack, plan, k);
    if k != REF then Inline(val, schemas, onStack, plan.below[k])
    else if !val.Str? then Err(NotAString(val))
    else if !IsRefNode(v) then Ok(val)
    else if NodeName(v) !in schemas then Err(Unresolved(NodeName(v)))
    else if NodeName(v) in onStack then Err(Circular(NodeName(v)))
    else Inline(Target(v, schemas), schemas, onStack + {NodeName(v)}, plan.below[k])
  }

  ghost function InlineItems(v: Value, schemas: Schemas, onStack: set<string>, plan: Plan, i: nat, out: seq<Value>)
    : Result<Value, Failure>
    requires v.Arr? && Plans(v, schemas, onStack, plan) && i <= |v.items|
    decreases schemas.Keys - onStack, v, 1, |v.items| - i
  {
    if i == |v.items| then Ok(Arr(out))
    else
      var r := Inline(v.items[i], schemas, onStack, plan.plans[i]);
      if r.Err? then r else InlineItems(v, schemas, onStack, plan, i + 1, out + [r.value])
  }

  /** Some order answers `r`. */
  ghost predicate SomeOrderAnswers(v: Value, schemas: Schemas, onStack: set<string>, r: Result<Value, Failure>) {
    exists plan :: Plans(v, schemas, onStack, plan) && Inline(v, schemas, onStack, plan) == r
  }

  // ----- every order is justified -----

  lemma {:induction false} EveryOrderIsJustified(v: Value, schemas: Schemas, onStack: set<string>, plan: Plan)
    requires Plans(v, schemas, onStack, plan)
    ensures Justified(v, schemas, onStack, Inline(v, schemas, onStack, plan))
    decreases schemas.Keys - onStack, v, 2, 0
  {
    hide Unfold, CanFail;
    match v
    case Obj(_) => FieldsAreJustified(v, schemas, onStack, plan, 0, map[]);
    case Arr(_) => ItemsAreJustified(v, schemas, onStack, plan, 0, []);
    case _ => LeafUnfolds(v, schemas, onStack);
  }

  lemma LeafUnfolds(v: Value, schemas: Schemas, onStack: set<string>)
    requires !v.Obj? && !v.Arr?
    ensures Unfold(v, schemas, onStack) == Some(v) && forall e :: !CanFail(v, schemas, onStack, e)
  {
  }

  lemma {:induction false} FieldsAreJustified(v: Value, schemas: Schemas, onStack: set<string>, plan: Plan, i: nat,
                                              out: map<string, Value>)
    requires v.Obj? && Plans(v, schemas, onStack, plan) && i <= |plan.order|
    requires forall k :: k in out <==> k in plan.order[..i]
    requires forall k :: k in out ==> Unfold(v.fields[k], schemas, onStack) == Some(out[k])
    requires REF in out ==> !IsRefNode(v) && v.fields[REF].Str?
    ensures Justified(v, schemas, onStack, InlineFields(v, schemas, onStack, plan, i, out))
    decreases schemas.Keys - onStack, v, 1, |plan.order| - i
  {
    hide Unfold, CanFail, Inline, InlineField, Plans;
    OrderOf(v, schemas, onStack, plan);
    var order := plan.order;
    if i == |order| {
      assert order[..i] == order;
      UnfoldObj(v, schemas, onStack, out);
    } else {
      var k := order[i];
      assert k in order;
      FieldIsJustified(v, schemas, onStack, plan, k);
      var r := InlineField(v, schemas, onStack, plan, k);
      if r.Ok? && !(k == REF && IsRefNode(v)) {
        assert order[..i + 1] == order[..i] + [k];
        FieldsAreJustified(v, schemas, onStack, plan, i + 1, out[k := r.value]);
      }
    }
  }

  lemma {:induction false} FieldIsJustified(v: Value, schemas: Schemas, onStack: set<string>, plan: Plan, k: string)
    requires v.Obj? && Plans(v, schemas, onStack, plan) && k in v.fields
    ensures var r := InlineField(v, schemas, onStack, plan, k);
            && (r.Err? || (k == REF && IsRefNode(v)) ==> Justified(v, schemas, onStack, r))
            && (r.Ok? && !(k == REF && IsRefNode(v)) ==> Unfold(v.fields[k], schemas, onStack) == Some(r.value))
            && (r.Ok? && k == REF ==> v.fields[k].Str?)
    decreases schemas.Keys - onStack, v, 0, 0
  {
    hide Inline;
    assert PlansField(v, schemas, onStack, plan, k);
    if k != REF {
      EveryOrderIsJustified(v.fields[k], schemas, onStack, plan.below[k]);
    } else if HasTarget(v, schemas, onStack) {
      EveryOrderIsJustified(Target(v, schemas), schemas, onStack + {NodeName(v)}, plan.below[k]);
    }
  }

  lemma {:induction false} ItemsAreJustified(v: Value, schemas: Schemas, onStack: set<string>, plan: Plan, i: nat,
                                             out: seq<Value>)
    requires v.Arr? && Plans(v, schemas, onStack, plan) && i <= |v.items| && |out| == i
    requires forall j :: 0 <= j < i ==> Unfold(v.items[j], schemas, onStack) == Some(out[j])
    ensures Justified(v, schemas, onStack, InlineItems(v, schemas, onStack, plan, i, out))
    decreases schemas.Keys - onStack, v, 1, |v.items| - i
  {
    hide Unfold, Inline;
    if i == |v.items| {
      UnfoldArr(v, schemas, onStack, out);
    } else {
      EveryOrderIsJustified(v.items[i], schemas, onStack, plan.plans[i]);
      var r := Inline(v.items[i], schemas, onStack, plan.plans[i]);
      if r.Ok? {
        ItemsAreJustified(v, schemas, onStack, plan, i + 1, out + [r.value]);
      }
    }
  }

  // ----- every justified answer has an order -----

  lemma OrderFrom(keys: set<string>, first: string) returns (order: seq<string>)
    requires first in keys
    ensures Orders(order, keys) && order != [] && order[0] == first
  {
    order := [first];
    var todo := keys - {first};
    while todo != {}
      invariant todo <= keys && order != [] && order[0] == first && Distinct(order)
      invariant forall k :: k in order <==> k in keys && k !in todo
      decreases |todo|
    {
      var k :| k in todo;
      order := order + [k];
      todo := todo - {k};
    }
  }

  lemma SomeOrdering(keys: set<string>) returns (order: seq<string>)
    ensures Orders(order, keys)
  {
    if keys == {} {
      order := [];
    } else {
      var first :| first in keys;
      order := OrderFrom(keys, first);
    }
  }

  /** An object's plan from an order and a plan for each of its keys. */
  lemma PlanObject(v: Value, schemas: Schemas, onStack: set<string>, plan: Plan)
    requires v.Obj? && plan.InOrder? && Orders(plan.order, v.fields.Keys) && plan.below.Keys == v.fields.Keys
    requires forall k :: k in v.fields ==> PlansField(v, schemas, onStack, plan, k)
    ensures Plans(v, schemas, onStack, plan)
  {
  }

  lemma {:induction false} SomePlan(v: Value, schemas: Schemas, onStack: set<string>) returns (plan: Plan)
    ensures Plans(v, schemas, onStack, plan)
    decreases schemas.Keys - onStack, v, 1
  {
    hide Plans, PlansField, Orders;
    match v
    case Obj(fields) =>
      var order := SomeOrdering(fields.Keys);
      var below := SomeBelow(v, schemas, onStack, fields.Keys);
      plan := InOrder(order, below);
      FieldPlans(v, schemas, onStack, plan);
      PlanObject(v, schemas, onStack, plan);
    case Arr(items) =>
      var plans := [];
      for i := 0 to |items|
        invariant |plans| == i
        invariant forall j :: 0 <= j < i ==> Plans(items[j], schemas, onStack, plans[j])
      {
        var below := SomePlan(items[i], schemas, onStack);
        plans := plans + [below];
      }
      plan := Each(plans);
      PlanArray(v, schemas, onStack, plans);
    case _ =>
      plan := AtLeaf;
      PlanLeaf(v, schemas, onStack);
  }

  lemma PlanArray(v: Value, schemas: Schemas, onStack: set<string>, plans: seq<Plan>)
    requires v.Arr? && |plans| == |v.items|
    requires forall i :: 0 <= i < |v.items| ==> Plans(v.items[i], schemas, onStack, plans[i])
    ensures Plans(v, schemas, onStack, Each(plans))
  {
  }

  lemma PlanLeaf(v: Value, schemas: Schemas, onStack: set<string>)
    requires !v.Obj? && !v.Arr?
    ensures Plans(v, schemas, onStack, AtLeaf) && Inline(v, schemas, onStack, AtLeaf) == Ok(v)
  {
  }

  /** What a run visits under one key, if anything: the field, or the target of the reference. */
  ghost predicate PlansUnder(v: Value, schemas: Schemas, onStack: set<string>, k: string, p: Plan)
    requires v.Obj? && k in v.fields
  {
    if k == REF then HasTarget(v, schemas, onStack) ==> Plans(Target(v, schemas), schemas, onStack + {NodeName(v)}, p)
    else Plans(v.fields[k], schemas, onStack, p)
  }

  lemma FieldPlans(v: Value, schemas: Schemas, onStack: set<string>, plan: Plan)
    requires v.Obj? && plan.InOrder? && plan.below.Keys == v.fields.Keys
    ensures forall k :: k in v.fields ==>
              (PlansField(v, schemas, onStack, plan, k) <==> PlansUnder(v, schemas, onStack, k, plan.below[k]))
  {
    hide Plans;
  }

  lemma {:induction false} SomeBelow(v: Value, schemas: Schemas, onStack: set<string>, keys: set<string>)
    returns (below: map<string, Plan>)
    requires v.Obj? && keys <= v.fields.Keys
    ensures below.Keys == keys && forall k :: k in keys ==> PlansUnder(v, schemas, onStack, k, below[k])
    decreases schemas.Keys - onStack, v, 0
  {
    hide Plans;
    below := map[];
    var todo := keys;
    while todo != {}
      invariant todo <= keys && below.Keys == keys - todo
      invariant forall k :: k in below ==> PlansUnder(v, schemas, onStack, k, below[k])
      decreases |todo|
    {
      var k :| k in todo;
      var p := AtLeaf;
      if k != REF {
        p := SomePlan(v.fields[k], schemas, onStack);
      } else if HasTarget(v, schemas, onStack) {
        p := SomePlan(Target(v, schemas), schemas, onStack + {NodeName(v)});
      }
      below := below[k := p];
      todo := todo - {k};
    }
  }

  /** A plan that answers with the reference, or with the failure of one key, before anything else is looked at. */
  lemma PlanFirst(v: Value, schemas: Schemas, onStack: set<string>, first: string, p: Plan) returns (plan: Plan)
    requires v.Obj? && first in v.fields && PlansUnder(v, schemas, onStack, first, p)
    ensures Plans(v, schemas, onStack, plan) && plan.order != [] && plan.order[0] == first && plan.below[first] == p
    ensures var r := InlineField(v, schemas, onStack, plan, first);
            r.Err? || (first == REF && IsRefNode(v)) ==> Inline(v, schemas, onStack, plan) == r
  {
    hide Plans, PlansField, Orders, PlansUnder, InlineField;
    var order := OrderFrom(v.fields.Keys, first);
    var below := SomeBelow(v, schemas, onStack, v.fields.Keys);
    plan := InOrder(order, below[first := p]);
    FieldPlans(v, schemas, onStack, plan);
    PlanObject(v, schemas, onStack, plan);
  }

  lemma FieldAnswers(v: Value, schemas: Schemas, onStack: set<string>, plan: Plan, k: string)
    requires v.Obj? && Plans(v, schemas, onStack, plan) && k in v.fields
    ensures PlansUnder(v, schemas, onStack, k, plan.below[k])
    ensures k != REF ==> InlineField(v, schemas, onStack, plan, k) == Inline(v.fields[k], schemas, onStack,
              plan.below[k])
    ensures k == REF && HasTarget(v, schemas, onStack) ==>
              InlineField(v, schemas, onStack, plan, k)
              == Inline(Target(v, schemas), schemas, onStack + {NodeName(v)}, plan.below[k])
  {
    hide Inline;
    assert PlansField(v, schemas, onStack, plan, k);
  }

  /** Where there is an unfolding, some order finds it. */
  lemma {:induction false} PlanSuccess(v: Value, schemas: Schemas, onStack: set<string>) returns (plan: Plan)
    requires Unfold(v, schemas, onStack).Some?
    ensures Plans(v, schemas, onStack, plan)
    ensures Inline(v, schemas, onStack, plan) == Ok(Unfold(v, schemas, onStack).value)
    decreases schemas.Keys - onStack, v, 1
  {
    hide Plans, Inline, PlansUnder, InlineField;
    match v
    case Obj(fields) =>
      if IsRefNode(v) {
        var p := PlanSuccess(Target(v, schemas), schemas, onStack + {NodeName(v)});
        UnderTarget(v, schemas, onStack, p);
        plan := PlanFirst(v, schemas, onStack, REF, p);
        FieldAnswers(v, schemas, onStack, plan, REF);
      } else {
        var order := SomeOrdering(fields.Keys);
        var below := SuccessBelow(v, schemas, onStack);
        plan := InOrder(order, below);
        FieldPlans(v, schemas, onStack, plan);
        PlanObject(v, schemas, onStack, plan);
        FieldsFollow(v, schemas, onStack, plan, 0, map[]);
        StartsFields(v, schemas, onStack, plan);
      }
    case Arr(items) =>
      var plans := [];
      for i := 0 to |items|
        invariant |plans| == i
        invariant forall j :: 0 <= j < i ==>
                    && Plans(items[j], schemas, onStack, plans[j])
                    && Inline(items[j], schemas, onStack, plans[j]) == Ok(Unfold(items[j], schemas, onStack).value)
      {
        var p := PlanSuccess(items[i], schemas, onStack);
        plans := plans + [p];
      }
      plan := Each(plans);
      PlanArray(v, schemas, onStack, plans);
      ItemsFollow(v, schemas, onStack, plan, 0, []);
      StartsItems(v, schemas, onStack, plan);
    case _ =>
      plan := AtLeaf;
      PlanLeaf(v, schemas, onStack);
  }

  lemma UnderTarget(v: Value, schemas: Schemas, onStack: set<string>, p: Plan)
    requires HasTarget(v, schemas, onStack) && Plans(Target(v, schemas), schemas, onStack + {NodeName(v)}, p)
    ensures PlansUnder(v, schemas, onStack, REF, p)
  {
    hide Plans;
  }

  lemma StartsFields(v: Value, schemas: Schemas, onStack: set<string>, plan: Plan)
    requires v.Obj? && Plans(v, schemas, onStack, plan)
    ensures Inline(v, schemas, onStack, plan) == InlineFields(v, schemas, onStack, plan, 0, map[])
  {
  }

  lemma StartsItems(v: Value, schemas: Schemas, onStack: set<string>, plan: Plan)
    requires v.Arr? && Plans(v, schemas, onStack, plan)
    ensures Inline(v, schemas, onStack, plan) == InlineItems(v, schemas, onStack, plan, 0, [])
  {
  }

  lemma {:induction false} SuccessBelow(v: Value, schemas: Schemas, onStack: set<string>)
    returns (below: map<string, Plan>)
    requires v.Obj? && !IsRefNode(v) && Unfold(v, schemas, onStack).Some?
    ensures below.Keys == v.fields.Keys
    ensures forall k :: k in v.fields ==>
              PlansUnder(v, schemas, onStack, k, below[k]) && Follows(v, schemas, onStack, k, below[k])
    decreases schemas.Keys - onStack, v, 0
  {
    hide Plans, Inline, PlansUnder, Follows;
    below := map[];
    var todo := v.fields.Keys;
    while todo != {}
      invariant todo <= v.fields.Keys && below.Keys == v.fields.Keys - todo
      invariant forall k :: k in below ==>
                PlansUnder(v, schemas, onStack, k, below[k]) && Follows(v, schemas, onStack, k, below[k])
      decreases |todo|
    {
      var k :| k in todo;
      var p := AtLeaf;
      if k != REF {
        p := PlanSuccess(v.fields[k], schemas, onStack);
      }
      GoodUnder(v, schemas, onStack, k, p);
      below := below[k := p];
      todo := todo - {k};
    }
  }

  /** The plan finds the unfolding of the field. */
  ghost predicate Follows(v: Value, schemas: Schemas, onStack: set<string>, k: string, p: Plan)
    requires v.Obj? && k in v.fields
  {
    k != REF ==>
      && Plans(v.fields[k], schemas, onStack, p) && Unfold(v.fields[k], schemas, onStack).Some?
      && Inline(v.fields[k], schemas, onStack, p) == Ok(Unfold(v.fields[k], schemas, onStack).value)
  }

  lemma GoodUnder(v: Value, schemas: Schemas, onStack: set<string>, k: string, p: Plan)
    requires v.Obj? && !IsRefNode(v) && k in v.fields && Unfold(v, schemas, onStack).Some?
    requires k != REF ==> Unfold(v.fields[k], schemas, onStack).Some? && Plans(v.fields[k], schemas, onStack, p)
    requires k != REF ==> Inline(v.fields[k], schemas, onStack, p) == Ok(Unfold(v.fields[k], schemas, onStack).value)
    ensures PlansUnder(v, schemas, onStack, k, p) && Follows(v, schemas, onStack, k, p)
  {
    hide Plans, Inline, Unfold;
  }

  lemma {:induction false} FieldsFollow(v: Value, schemas: Schemas, onStack: set<string>, plan: Plan, i: nat,
                                        out: map<string, Value>)
    requires v.Obj? && !IsRefNode(v) && Unfold(v, schemas, onStack).Some?
    requires Plans(v, schemas, onStack, plan) && i <= |plan.order|
    requires forall k :: k in v.fields ==> Follows(v, schemas, onStack, k, plan.below[k])
    requires forall k :: k in out <==> k in plan.order[..i]
    requires forall k :: k in out ==> Unfold(v.fields[k], schemas, onStack) == Some(out[k])
    ensures InlineFields(v, schemas, onStack, plan, i, out) == Ok(Unfold(v, schemas, onStack).value)
    decreases |plan.order| - i
  {
    hide Unfold, Inline, InlineField, Plans, Follows, IsRefNode;
    OrderOf(v, schemas, onStack, plan);
    var order := plan.order;
    if i == |order| {
      assert order[..i] == order;
      AllFollow(v, schemas, onStack, out);
    } else {
      var k := order[i];
      assert k in order;
      FieldFollows(v, schemas, onStack, plan, k);
      assert order[..i + 1] == order[..i] + [k];
      FieldsFollow(v, schemas, onStack, plan, i + 1, out[k := InlineField(v, schemas, onStack, plan, k).value]);
    }
  }

  lemma OrderOf(v: Value, schemas: Schemas, onStack: set<string>, plan: Plan)
    requires v.Obj? && Plans(v, schemas, onStack, plan)
    ensures plan.InOrder? && plan.below.Keys == v.fields.Keys && forall k :: k in plan.order <==> k in v.fields
  {
  }

  lemma AllFollow(v: Value, schemas: Schemas, onStack: set<string>, out: map<string, Value>)
    requires v.Obj? && !IsRefNode(v) && Unfold(v, schemas, onStack).Some?
    requires forall k :: k in out <==> k in v.fields
    requires forall k :: k in out ==> Unfold(v.fields[k], schemas, onStack) == Some(out[k])
    ensures Unfold(v, schemas, onStack) == Some(Obj(out))
  {
    RefIsText(v, schemas, onStack);
    hide Unfold;
    UnfoldObj(v, schemas, onStack, out);
  }

  lemma FieldFollows(v: Value, schemas: Schemas, onStack: set<string>, plan: Plan, k: string)
    requires v.Obj? && !IsRefNode(v) && Unfold(v, schemas, onStack).Some?
    requires Plans(v, schemas, onStack, plan) && k in v.fields && Follows(v, schemas, onStack, k, plan.below[k])
    ensures var r := InlineField(v, schemas, onStack, plan, k);
            r.Ok? && Unfold(v.fields[k], schemas, onStack) == Some(r.value)
  {
    FieldAnswers(v, schemas, onStack, plan, k);
    RefIsText(v, schemas, onStack);
    hide Inline, Plans, Unfold;
  }

  /** A "$ref" that names no component contributes itself. */
  lemma RefIsText(v: Value, schemas: Schemas, onStack: set<string>)
    requires v.Obj? && !IsRefNode(v) && Unfold(v, schemas, onStack).Some?
    ensures REF in v.fields ==> v.fields[REF].Str? && Unfold(v.fields[REF], schemas, onStack) == Some(v.fields[REF])
  {
  }

  lemma {:induction false} ItemsFollow(v: Value, schemas: Schemas, onStack: set<string>, plan: Plan, i: nat,
                                       out: seq<Value>)
    requires v.Arr? && Unfold(v, schemas, onStack).Some? && Plans(v, schemas, onStack, plan) && i <= |v.items|
              && |out| == i
    requires forall j :: 0 <= j < |v.items| ==>
               && Unfold(v.items[j], schemas, onStack).Some?
               && Inline(v.items[j], schemas, onStack, plan.plans[j]) == Ok(Unfold(v.items[j], schemas, onStack).value)
    requires forall j :: 0 <= j < i ==> Unfold(v.items[j], schemas, onStack) == Some(out[j])
    ensures InlineItems(v, schemas, onStack, plan, i, out) == Ok(Unfold(v, schemas, onStack).value)
    decreases |v.items| - i
  {
    hide Unfold, Inline;
    if i == |v.items| {
      UnfoldArr(v, schemas, onStack, out);
    } else {
      var r := Inline(v.items[i], schemas, onStack, plan.plans[i]);
      ItemsFollow(v, schemas, onStack, plan, i + 1, out + [r.value]);
    }
  }

  /** Every failure is reported by some order. */
  lemma {:induction false} PlanFailure(v: Value, schemas: Schemas, onStack: set<string>, e: Failure)
    returns (plan: Plan)
    requires CanFail(v, schemas, onStack, e)
    ensures Plans(v, schemas, onStack, plan)
    ensures Inline(v, schemas, onStack, plan) == Err(e)
    decreases schemas.Keys - onStack, v
  {
    hide Plans, Inline, PlansUnder, Unfold;
    match v
    case Obj(fields) =>
      if k :| k in fields && k != REF && CanFail(fields[k], schemas, onStack, e) {
        var p := PlanFailure(fields[k], schemas, onStack, e);
        UnderField(v, schemas, onStack, k, p);
        plan := PlanFirst(v, schemas, onStack, k, p);
        FieldAnswers(v, schemas, onStack, plan, k);
      } else {
        var below := SomeBelow(v, schemas, onStack, fields.Keys);
        var p := below[REF];
        if HasTarget(v, schemas, onStack) {
          p := PlanFailure(Target(v, schemas), schemas, onStack + {NodeName(v)}, e);
          UnderTarget(v, schemas, onStack, p);
        }
        plan := PlanFirst(v, schemas, onStack, REF, p);
        FieldAnswers(v, schemas, onStack, plan, REF);
      }
    case Arr(items) => plan := PlanArrayFailure(v, schemas, onStack, e);
  }

  lemma UnderField(v: Value, schemas: Schemas, onStack: set<string>, k: string, p: Plan)
    requires v.Obj? && k in v.fields && k != REF && Plans(v.fields[k], schemas, onStack, p)
    ensures PlansUnder(v, schemas, onStack, k, p)
  {
    hide Plans;
  }

  lemma {:induction false} PlanArrayFailure(v: Value, schemas: Schemas, onStack: set<string>, e: Failure)
    returns (plan: Plan)
    requires v.Arr? && CanFail(v, schemas, onStack, e)
    ensures Plans(v, schemas, onStack, plan) && Inline(v, schemas, onStack, plan) == Err(e)
    decreases schemas.Keys - onStack, v, 0
  {
    var items := v.items;
    var n :| 0 <= n < |items| && CanFail(items[n], schemas, onStack, e)
      && forall j :: 0 <= j < n ==> Unfold(items[j], schemas, onStack).Some?;
    hide Plans, Inline, Unfold, CanFail, FailsAt;
    var plans := [];
    for i := 0 to |items|
      invariant |plans| == i
      invariant forall j :: 0 <= j < i ==> FailsAt(v, schemas, onStack, n, e, j, plans[j])
    {
      var p;
      if i < n {
        p := PlanSuccess(items[i], schemas, onStack);
      } else if i == n {
        p := PlanFailure(items[i], schemas, onStack, e);
      } else {
        p := SomePlan(items[i], schemas, onStack);
      }
      IsFailsAt(v, schemas, onStack, n, e, i, p);
      plans := plans + [p];
    }
    plan := Each(plans);
    FailsThere(v, schemas, onStack, n, e, plans);
  }

  /** Plan `p` for item `j` succeeds before position `n` and fails with `e` at it. */
  ghost predicate FailsAt(v: Value, schemas: Schemas, onStack: set<string>, n: nat, e: Failure, j: nat, p: Plan)
    requires v.Arr? && j < |v.items|
  {
    && Plans(v.items[j], schemas, onStack, p)
    && (j < n ==> Inline(v.items[j], schemas, onStack, p).Ok?)
    && (j == n ==> Inline(v.items[j], schemas, onStack, p) == Err(e))
  }

  lemma IsFailsAt(v: Value, schemas: Schemas, onStack: set<string>, n: nat, e: Failure, j: nat, p: Plan)
    requires v.Arr? && j < |v.items| && Plans(v.items[j], schemas, onStack, p)
    requires j < n ==> Inline(v.items[j], schemas, onStack, p).Ok?
    requires j == n ==> Inline(v.items[j], schemas, onStack, p) == Err(e)
    ensures FailsAt(v, schemas, onStack, n, e, j, p)
  {
  }

  lemma FailsThere(v: Value, schemas: Schemas, onStack: set<string>, n: nat, e: Failure, plans: seq<Plan>)
    requires v.Arr? && n < |v.items| && |plans| == |v.items|
    requires forall j :: 0 <= j < |plans| ==> FailsAt(v, schemas, onStack, n, e, j, plans[j])
    ensures Plans(v, schemas, onStack, Each(plans)) && Inline(v, schemas, onStack, Each(plans)) == Err(e)
  {
    hide Inline, Plans;
    PlanArray(v, schemas, onStack, plans);
    ItemsFail(v, schemas, onStack, Each(plans), 0, [], n, e);
    StartsItems(v, schemas, onStack, Each(plans));
  }

  lemma {:induction false} ItemsFail(v: Value, schemas: Schemas, onStack: set<string>, plan: Plan, i: nat,
                                     out: seq<Value>,
                                     n: nat, e: Failure)
    requires v.Arr? && Plans(v, schemas, onStack, plan) && i <= n < |v.items|
    requires forall j :: 0 <= j < n ==> Inline(v.items[j], schemas, onStack, plan.plans[j]).Ok?
    requires Inline(v.items[n], schemas, onStack, plan.plans[n]) == Err(e)
    ensures InlineItems(v, schemas, onStack, plan, i, out) == Err(e)
    decreases n - i
  {
    hide Inline;
    if i < n {
      var r := Inline(v.items[i], schemas, onStack, plan.plans[i]);
      ItemsFail(v, schemas, onStack, plan, i + 1, out + [r.value], n, e);
    }
  }

  /** The answers of all orders are exactly the unfolding and its failures. */
  lemma OrdersRealise(v: Value, schemas: Schemas, onStack: set<string>, r: Result<Value, Failure>)
    ensures SomeOrderAnswers(v, schemas, onStack, r) <==> Justified(v, schemas, onStack, r)
  {
    hide Inline, Plans, Unfold, CanFail;
    if plan :| Plans(v, schemas, onStack, plan) && Inline(v, schemas, onStack, plan) == r {
      EveryOrderIsJustified(v, schemas, onStack, plan);
    }
    if Justified(v, schemas, onStack, r) {
      var plan;
      match r {
        case Ok(x) => plan := PlanSuccess(v, schemas, onStack);
        case Err(e) => plan := PlanFailure(v, schemas, onStack, e);
      }
      assert Inline(v, schemas, onStack, plan) == r;
    }
  }

  /** In terms of orders: when some succeeds, when some fails. */
  lemma SuccessAndFailureByOrder(src: Value, schemas: Schemas)
    ensures (exists x :: SomeOrderAnswers(src, schemas, {}, Ok(x))) <==> Inlinable(src, schemas, false)
    ensures (exists e :: SomeOrderAnswers(src, schemas, {}, Err(e))) <==> !Inlinable(src, schemas, true)
  {
    hide SomeOrderAnswers, Unfold, CanFail, Inlinable;
    OrderShows(src, schemas);
    forall r
      ensures SomeOrderAnswers(src, schemas, {}, r) <==> Justified(src, schemas, {}, r)
    {
      OrdersRealise(src, schemas, {}, r);
    }
    if Unfold(src, schemas, {}).Some? {
      assert Justified(src, schemas, {}, Ok(Unfold(src, schemas, {}).value));
    }
    forall e
      ensures CanFail(src, schemas, {}, e) <==> Justified(src, schemas, {}, Err(e))
    {
    }
  }
}
