/** Templating of nested values (internal/server/engine_expr.go). */
module ValueTemplating {
  import opened Json
  import opened Strings
  import opened StringTemplating

  const MAX_DEPTH := 256

  // ----- nested values -----

  function StringResult(s: string, t: Templater): Result<Value, TemplateError> {
    if IsWhole(s) then
      match t.eval(s)
      case Err(e) => Err(Evaluation(e))
      case Ok(v) => Ok(v)
    else Ok(Str(Render(Cut(s), t)))
  }

  /** Every answer templating `v` may give, whatever order the fields are visited in. */
  ghost predicate Templated(v: Value, t: Templater, depth: nat, r: Result<Value, TemplateError>)
    decreases v, 0
  {
    if depth > MAX_DEPTH then r == Err(TooDeep)
    else match v
      case Str(s) => r == StringResult(s, t)
      case Obj(fields) =>
        (match r
         case Ok(out) =>
           && out.Obj?
           && (forall k :: k in fields ==> FieldFits(fields, k, t, depth, out.fields))
           && (forall k' :: k' in out.fields ==>
               exists k :: k in fields && FieldGives(fields, k, t, depth, k', out.fields[k']))
         case Err(e) =>
           exists k :: k in fields &&
             (KeyResult(k, t) == Err(e) || (KeyResult(k, t).Ok? && Templated(fields[k], t, depth + 1, Err(e)))))
      case Arr(items) =>
        (match r
         case Ok(out) =>
           && out.Arr? && |out.items| == |items|
           && forall i :: 0 <= i < |items| ==> Templated(items[i], t, depth + 1, Ok(out.items[i]))
         case Err(e) =>
           exists i :: 0 <= i < |items| && Templated(items[i], t, depth + 1, Err(e))
             && forall j :: 0 <= j < i ==> Succeeds(items[j], t, depth + 1))
      case _ => r == Ok(v)
  }

  /** Some visiting order succeeds with `x`. */
  ghost predicate Gives(v: Value, t: Templater, depth: nat, x: Value)
    decreases v, 1
  {
    Templated(v, t, depth, Ok(x))
  }

  ghost predicate Succeeds(v: Value, t: Templater, depth: nat)
    decreases v, 2
  {
    exists x :: Gives(v, t, depth, x)
  }

  ghost predicate FieldFits(fields: map<string, Value>, k: string, t: Templater, depth: nat, out: map<string, Value>)
    requires k in fields
    decreases fields[k], 1
  {
    && KeyResult(k, t).Ok? && KeyResult(k, t).value in out
    && exists x :: Templated(fields[k], t, depth + 1, Ok(x))
  }

  ghost predicate FieldGives(fields: map<string, Value>, k: string, t: Templater, depth: nat, k': string, x: Value)
    requires k in fields
    decreases fields[k], 1
  {
    KeyResult(k, t) == Ok(k') && Templated(fields[k], t, depth + 1, Ok(x))
  }

  /** The definition of Templated for an object, as one step. */
  lemma ObjectStep(v: Value, t: Templater, depth: nat, r: Result<Value, TemplateError>)
    requires v.Obj?
    ensures depth > MAX_DEPTH ==> (Templated(v, t, depth, r) <==> r == Err(TooDeep))
    ensures depth <= MAX_DEPTH && r.Err? ==>
              (Templated(v, t, depth, r) <==>
               exists k :: k in v.fields &&
                 (KeyResult(k, t) == Err(r.error) ||
                  (KeyResult(k, t).Ok? && Templated(v.fields[k], t, depth + 1, Err(r.error)))))
    ensures depth <= MAX_DEPTH && r.Ok? ==>
              (Templated(v, t, depth, r) <==>
               && r.value.Obj?
               && (forall k :: k in v.fields ==> FieldFits(v.fields, k, t, depth, r.value.fields))
               && (forall k' :: k' in r.value.fields ==>
                     exists k :: k in v.fields && FieldGives(v.fields, k, t, depth, k', r.value.fields[k'])))
  {
    hide KeyResult, StringResult, FieldFits, FieldGives;
  }

  method EvaluateValue(val: Value, t: Templater) returns (r: Result<Value, TemplateError>)
    ensures Templated(val, t, 0, r)
  {
    r := EvaluateValueDepth(val, t, 0);
  }

  method EvaluateValueDepth(val: Value, t: Templater, depth: nat) returns (r: Result<Value, TemplateError>)
    ensures Templated(val, t, depth, r)
    decreases val, 1
  {
    hide KeyResult, IsWhole, Render, CutFrom, Count;
    if depth > MAX_DEPTH {
      return Err(TooDeep);
    }
    match val
    case Str(str) =>
      WholeByCount(str);
      if OPEN <= str && HasSuffix(str, "}") && Count(str, OPEN) == 1 {
        match t.eval(str)
        case Err(e) => return Err(Evaluation(e));
        case Ok(v) => return Ok(v);
      }
      var s := ReplaceEmbedded(str, t);
      return Ok(Str(s));
    case Obj(fields) => r := EvaluateFields(val, t, depth);
    case Arr(items) => r := EvaluateItems(val, t, depth);
    case _ => return Ok(val);
  }

  /** The branch for objects: keys and values, in whatever order. */
  method EvaluateFields(val: Value, t: Templater, depth: nat) returns (r: Result<Value, TemplateError>)
    requires val.Obj? && depth <= MAX_DEPTH
    ensures Templated(val, t, depth, r)
    decreases val, 0
  {
    hide KeyResult, FieldFits, FieldGives, Templated;
    var fields := val.fields;
    var result: map<string, Value> := map[];
    var todo := fields.Keys;
    while todo != {}
      invariant todo <= fields.Keys
      invariant forall k :: k in fields && k !in todo ==> FieldFits(fields, k, t, depth, result)
      invariant forall k' :: k' in result ==> exists k :: k in fields && FieldGives(fields, k, t, depth, k', result[k'])
      decreases |todo|
    {
      var k :| k in todo;
      var resolvedK := EvaluateExpressionInString(k, t);
      if resolvedK.Err? {
        ObjectStep(val, t, depth, Err(resolvedK.error));
        return Err(resolvedK.error);
      }
      var resolvedItem := EvaluateValueDepth(fields[k], t, depth + 1);
      if resolvedItem.Err? {
        ObjectStep(val, t, depth, resolvedItem);
        return resolvedItem;
      }
      FieldDone(fields, k, t, depth, resolvedItem.value, result);
      forall j | j in fields && FieldFits(fields, j, t, depth, result)
        ensures FieldFits(fields, j, t, depth, result[resolvedK.value := resolvedItem.value])
      {
        StillFits(fields, j, t, depth, result, resolvedK.value, resolvedItem.value);
      }
      result := result[resolvedK.value := resolvedItem.value];
      todo := todo - {k};
    }
    ObjectStep(val, t, depth, Ok(Obj(result)));
    return Ok(Obj(result));
  }

  lemma FieldDone(fields: map<string, Value>, k: string, t: Templater, depth: nat, x: Value, out: map<string, Value>)
    requires k in fields && KeyResult(k, t).Ok? && Templated(fields[k], t, depth + 1, Ok(x))
    ensures FieldGives(fields, k, t, depth, KeyResult(k, t).value, x)
    ensures FieldFits(fields, k, t, depth, out[KeyResult(k, t).value := x])
  {
    hide KeyResult, Templated;
  }

  lemma StillFits(fields: map<string, Value>, k: string, t: Templater, depth: nat, out: map<string, Value>,
                  key: string, x: Value)
    requires k in fields && FieldFits(fields, k, t, depth, out)
    ensures FieldFits(fields, k, t, depth, out[key := x])
  {
    hide KeyResult, Templated;
  }

  /** The branch for arrays. */
  method EvaluateItems(val: Value, t: Templater, depth: nat) returns (r: Result<Value, TemplateError>)
    requires val.Arr? && depth <= MAX_DEPTH
    ensures Templated(val, t, depth, r)
    decreases val, 0
  {
    var items, result := val.items, [];
    for i := 0 to |items|
      invariant |result| == i
      invariant forall j :: 0 <= j < i ==> Templated(items[j], t, depth + 1, Ok(result[j]))
    {
      var resolvedItem := EvaluateValueDepth(items[i], t, depth + 1);
      if resolvedItem.Err? {
        FailsAt(val, t, depth, i, result, resolvedItem.error);
        return resolvedItem;
      }
      result := result + [resolvedItem.value];
    }
    return Ok(Arr(result));
  }

  /** Whether templating succeeds does not depend on the visiting order. */
  lemma {:induction false} SuccessIsDeterministic(v: Value, t: Templater, depth: nat, x: Value, e: TemplateError)
    requires Templated(v, t, depth, Ok(x))
    ensures !Templated(v, t, depth, Err(e))
    decreases v, 1
  {
    hide KeyResult, StringResult;
    match v
    case Obj(fields) => FieldsSucceed(v, t, depth, x, e);
    case Arr(items) =>
      forall i | 0 <= i < |items|
        ensures !Templated(items[i], t, depth + 1, Err(e))
      {
        SuccessIsDeterministic(items[i], t, depth + 1, x.items[i], e);
      }
    case _ =>
  }

  lemma {:induction false} FieldsSucceed(v: Value, t: Templater, depth: nat, x: Value, e: TemplateError)
    requires v.Obj? && Templated(v, t, depth, Ok(x))
    ensures !Templated(v, t, depth, Err(e))
    decreases v, 0
  {
    hide KeyResult, StringResult, Templated, FieldFits, FieldGives;
    ObjectStep(v, t, depth, Ok(x));
    ObjectStep(v, t, depth, Err(e));
    forall k | k in v.fields
      ensures KeyResult(k, t).Ok? && !Templated(v.fields[k], t, depth + 1, Err(e))
    {
      var y := FieldValue(v.fields, k, t, depth, x.fields);
      SuccessIsDeterministic(v.fields[k], t, depth + 1, y, e);
    }
  }

  lemma FieldValue(fields: map<string, Value>, k: string, t: Templater, depth: nat, out: map<string, Value>)
    returns (y: Value)
    requires k in fields && FieldFits(fields, k, t, depth, out)
    ensures KeyResult(k, t).Ok? && KeyResult(k, t).value in out
    ensures Templated(fields[k], t, depth + 1, Ok(y))
  {
    hide KeyResult;
    y :| Templated(fields[k], t, depth + 1, Ok(y));
  }

  /** Some visiting order of every value ends in an answer. */
  lemma {:induction false} SomeAnswer(v: Value, t: Templater, depth: nat) returns (r: Result<Value, TemplateError>)
    ensures Templated(v, t, depth, r)
    decreases v, 1
  {
    hide KeyResult, StringResult;
    if depth > MAX_DEPTH {
      return Err(TooDeep);
    }
    match v
    case Str(s) => r := StringResult(s, t);
    case Obj(fields) => r := SomeObject(v, t, depth);
    case Arr(items) => r := SomeArray(v, t, depth);
    case _ => r := Ok(v);
  }

  lemma {:induction false} SomeArray(v: Value, t: Templater, depth: nat) returns (r: Result<Value, TemplateError>)
    requires v.Arr? && depth <= MAX_DEPTH
    ensures Templated(v, t, depth, r)
    decreases v, 0
  {
    var answers := [];
    for i := 0 to |v.items|
      invariant |answers| == i
      invariant forall j :: 0 <= j < i ==> Templated(v.items[j], t, depth + 1, Ok(answers[j]))
    {
      var x := SomeAnswer(v.items[i], t, depth + 1);
      if x.Err? {
        FailsAt(v, t, depth, i, answers, x.error);
        return x;
      }
      answers := answers + [x.value];
    }
    r := Ok(Arr(answers));
  }

  lemma {:induction false} SomeObject(v: Value, t: Templater, depth: nat) returns (r: Result<Value, TemplateError>)
    requires v.Obj? && depth <= MAX_DEPTH
    ensures Templated(v, t, depth, r)
    decreases v, 0
  {
    hide KeyResult, StringResult, FieldFits, FieldGives, Templated;
    var fields := v.fields;
    var out: map<string, Value> := map[];
    var todo := fields.Keys;
    while todo != {}
      invariant todo <= fields.Keys
      invariant forall k :: k in fields && k !in todo ==> FieldFits(fields, k, t, depth, out)
      invariant forall k' :: k' in out ==> exists k :: k in fields && FieldGives(fields, k, t, depth, k', out[k'])
      decreases |todo|
    {
      var k :| k in todo;
      if KeyResult(k, t).Err? {
        ObjectStep(v, t, depth, Err(KeyResult(k, t).error));
        return Err(KeyResult(k, t).error);
      }
      var x := SomeAnswer(fields[k], t, depth + 1);
      if x.Err? {
        ObjectStep(v, t, depth, x);
        return x;
      }
      FieldDone(fields, k, t, depth, x.value, out);
      forall j | j in fields && FieldFits(fields, j, t, depth, out)
        ensures FieldFits(fields, j, t, depth, out[KeyResult(k, t).value := x.value])
      {
        StillFits(fields, j, t, depth, out, KeyResult(k, t).value, x.value);
      }
      out := out[KeyResult(k, t).value := x.value];
      todo := todo - {k};
    }
    ObjectStep(v, t, depth, Ok(Obj(out)));
    r := Ok(Obj(out));
  }

  /** All successful answers are the same. */
  ghost predicate Unique(v: Value, t: Templater, depth: nat) {
    forall x, y :: Gives(v, t, depth, x) && Gives(v, t, depth, y) ==> x == y
  }

  /** Whatever `w` can give, so can `v`. */
  ghost predicate GivesAllOf(v: Value, w: Value, t: Templater, depth: nat) {
    forall x :: Gives(w, t, depth, x) ==> Gives(v, t, depth, x)
  }

  /** Fields of one object that are templated into the same key are templated into the same value, at any level. */
  ghost predicate CollisionsAgree(v: Value, t: Templater, depth: nat) {
    match v
    case Obj(fields) =>
      && (forall k :: k in fields ==> CollisionsAgree(fields[k], t, depth + 1))
      && (forall a, b :: a in fields && b in fields && KeyResult(a, t) == KeyResult(b, t) ==>
            GivesAllOf(fields[b], fields[a], t, depth + 1))
    case Arr(items) => forall i :: 0 <= i < |items| ==> CollisionsAgree(items[i], t, depth + 1)
    case _ => true
  }

  /**
   * A value that is templated successfully has one answer whatever order its fields are visited in
   * exactly when colliding fields agree.
   */
  lemma {:induction false} AnswerIsUnique(v: Value, t: Templater, depth: nat)
    requires Succeeds(v, t, depth)
    ensures Unique(v, t, depth) <==> CollisionsAgree(v, t, depth)
    decreases v, 1
  {
    hide KeyResult, StringResult, Gives;
    match v
    case Obj(fields) => ObjectIsUnique(v, t, depth);
    case Arr(items) => ArrayIsUnique(v, t, depth);
    case _ => LeafIsUnique(v, t, depth);
  }

  lemma LeafIsUnique(v: Value, t: Templater, depth: nat)
    requires !v.Obj? && !v.Arr?
    ensures Unique(v, t, depth)
  {
    hide StringResult;
    forall x, y | Gives(v, t, depth, x) && Gives(v, t, depth, y)
      ensures x == y
    {
      assert Templated(v, t, depth, Ok(x)) && Templated(v, t, depth, Ok(y));
    }
  }

  // An array has the answers of its items, independently of each other.

  lemma ArrayStep(v: Value, t: Templater, depth: nat, x: Value)
    requires v.Arr? && depth <= MAX_DEPTH
    ensures Gives(v, t, depth, x) <==>
              && x.Arr? && |x.items| == |v.items|
              && forall i :: 0 <= i < |v.items| ==> Gives(v.items[i], t, depth + 1, x.items[i])
  {
  }

  lemma NoAnswerBelow(v: Value, t: Templater, depth: nat, x: Value)
    ensures depth > MAX_DEPTH ==> !Gives(v, t, depth, x)
  {
  }

  lemma {:induction false} ArrayIsUnique(v: Value, t: Templater, depth: nat)
    requires v.Arr? && Succeeds(v, t, depth)
    ensures Unique(v, t, depth) <==> CollisionsAgree(v, t, depth)
    decreases v, 0
  {
    hide Gives, Unique, CollisionsAgree;
    var items := v.items;
    var out :| Gives(v, t, depth, out);
    NoAnswerBelow(v, t, depth, out);
    ArrayStep(v, t, depth, out);
    forall i | 0 <= i < |items|
      ensures Unique(items[i], t, depth + 1) <==> CollisionsAgree(items[i], t, depth + 1)
    {
      assert Gives(items[i], t, depth + 1, out.items[i]);
      AnswerIsUnique(items[i], t, depth + 1);
    }
    UniqueItems(v, t, depth, out);
    ArrayAgrees(v, t, depth);
  }

  lemma ArrayAgrees(v: Value, t: Templater, depth: nat)
    requires v.Arr?
    ensures CollisionsAgree(v, t, depth) <==>
              forall i :: 0 <= i < |v.items| ==> CollisionsAgree(v.items[i], t, depth + 1)
  {
  }

  lemma UniqueItems(v: Value, t: Templater, depth: nat, out: Value)
    requires v.Arr? && depth <= MAX_DEPTH && Gives(v, t, depth, out)
    ensures Unique(v, t, depth) <==> forall i :: 0 <= i < |v.items| ==> Unique(v.items[i], t, depth + 1)
  {
    hide Gives;
    var items := v.items;
    ArrayStep(v, t, depth, out);
    if Unique(v, t, depth) {
      forall i | 0 <= i < |items|
        ensures Unique(items[i], t, depth + 1)
      {
        UniqueItem(v, t, depth, out, i);
      }
    }
    forall x, y | Gives(v, t, depth, x) && Gives(v, t, depth, y)
               && (forall i :: 0 <= i < |items| ==> Unique(items[i], t, depth + 1))
      ensures x == y
    {
      ArrayStep(v, t, depth, x);
      ArrayStep(v, t, depth, y);
      assert x.items == y.items;
    }
  }

  lemma UniqueItem(v: Value, t: Templater, depth: nat, out: Value, i: nat)
    requires v.Arr? && depth <= MAX_DEPTH && Gives(v, t, depth, out) && Unique(v, t, depth) && i < |v.items|
    ensures Unique(v.items[i], t, depth + 1)
  {
    hide Gives;
    ArrayStep(v, t, depth, out);
    var d := depth + 1;
    forall x, y | Gives(v.items[i], t, d, x) && Gives(v.items[i], t, d, y)
      ensures x == y
    {
      ArrayStep(v, t, depth, Arr(out.items[i := x]));
      ArrayStep(v, t, depth, Arr(out.items[i := y]));
      assert out.items[i := x][i] == out.items[i := y][i];
    }
  }

  // An object may take the value of any of the fields that collide in a key.

  /** `x` can end up under `k'`. */
  ghost predicate Lands(v: Value, t: Templater, depth: nat, k': string, x: Value)
    requires v.Obj?
  {
    exists k :: k in v.fields && FieldGives(v.fields, k, t, depth, k', x)
  }

  lemma LandsFrom(v: Value, t: Templater, depth: nat, k: string, x: Value)
    requires v.Obj? && k in v.fields && KeyResult(k, t).Ok? && Gives(v.fields[k], t, depth + 1, x)
    ensures Lands(v, t, depth, KeyResult(k, t).value, x)
  {
    hide KeyResult, Templated;
    assert FieldGives(v.fields, k, t, depth, KeyResult(k, t).value, x);
  }

  lemma LandedFrom(v: Value, t: Templater, depth: nat, k': string, x: Value) returns (k: string)
    requires v.Obj? && Lands(v, t, depth, k', x)
    ensures k in v.fields && KeyResult(k, t) == Ok(k') && Gives(v.fields[k], t, depth + 1, x)
  {
    hide KeyResult, Templated;
    k :| k in v.fields && FieldGives(v.fields, k, t, depth, k', x);
  }

  lemma ObjectGives(v: Value, t: Templater, depth: nat, x: Value)
    requires v.Obj? && depth <= MAX_DEPTH
    ensures Gives(v, t, depth, x) <==>
              && x.Obj?
              && (forall k :: k in v.fields ==>
                    KeyResult(k, t).Ok? && KeyResult(k, t).value in x.fields && Succeeds(v.fields[k], t, depth + 1))
              && (forall k' :: k' in x.fields ==> Lands(v, t, depth, k', x.fields[k']))
  {
    hide KeyResult, Templated;
    ObjectStep(v, t, depth, Ok(x));
    forall k, out | k in v.fields
      ensures FieldFits(v.fields, k, t, depth, out) <==>
                KeyResult(k, t).Ok? && KeyResult(k, t).value in out && Succeeds(v.fields[k], t, depth + 1)
    {
      FitsIff(v.fields, k, t, depth, out);
    }
  }

  /** What lands under one key can be exchanged for anything else that lands there. */
  lemma Exchange(v: Value, t: Templater, depth: nat, out: Value, k': string, x: Value)
    requires v.Obj? && depth <= MAX_DEPTH && Gives(v, t, depth, out)
    requires Lands(v, t, depth, k', x)
    ensures out.Obj? && Gives(v, t, depth, Obj(out.fields[k' := x]))
  {
    hide KeyResult, Gives, Lands, Succeeds;
    ObjectGives(v, t, depth, out);
    ObjectGives(v, t, depth, Obj(out.fields[k' := x]));
  }

  lemma UniqueLanding(v: Value, t: Templater, depth: nat, out: Value)
    requires v.Obj? && depth <= MAX_DEPTH && Gives(v, t, depth, out)
    ensures Unique(v, t, depth) <==> OneLands(v, t, depth)
  {
    hide KeyResult, Gives, Lands, Succeeds;
    forall k', x, y | Unique(v, t, depth) && Lands(v, t, depth, k', x) && Lands(v, t, depth, k', y)
      ensures x == y
    {
      Exchange(v, t, depth, out, k', x);
      Exchange(v, t, depth, out, k', y);
      assert out.fields[k' := x][k'] == out.fields[k' := y][k'];
    }
    forall x, y | Gives(v, t, depth, x) && Gives(v, t, depth, y)
               && OneLands(v, t, depth)
      ensures x == y
    {
      SameKeys(v, t, depth, x, y);
      SameKeys(v, t, depth, y, x);
      assert x.fields == y.fields;
    }
  }

  lemma SameKeys(v: Value, t: Templater, depth: nat, x: Value, y: Value)
    requires v.Obj? && depth <= MAX_DEPTH && Gives(v, t, depth, x) && Gives(v, t, depth, y)
    ensures x.Obj? && y.Obj? && x.fields.Keys <= y.fields.Keys
    ensures forall k' :: k' in x.fields ==> Lands(v, t, depth, k', x.fields[k'])
  {
    hide KeyResult, Gives, Lands, Succeeds;
    ObjectGives(v, t, depth, x);
    ObjectGives(v, t, depth, y);
    forall k' | k' in x.fields
      ensures k' in y.fields
    {
      var k := LandedFrom(v, t, depth, k', x.fields[k']);
    }
  }

  lemma {:induction false} ObjectIsUnique(v: Value, t: Templater, depth: nat)
    requires v.Obj? && Succeeds(v, t, depth)
    ensures Unique(v, t, depth) <==> CollisionsAgree(v, t, depth)
    decreases v, 0
  {
    hide KeyResult, Gives, Lands, Unique, CollisionsAgree;
    var fields := v.fields;
    var out :| Gives(v, t, depth, out);
    NoAnswerBelow(v, t, depth, out);
    ObjectGives(v, t, depth, out);
    UniqueLanding(v, t, depth, out);
    ObjectAgrees(v, t, depth);
    forall k | k in fields
      ensures Unique(fields[k], t, depth + 1) <==> CollisionsAgree(fields[k], t, depth + 1)
    {
      AnswerIsUnique(fields[k], t, depth + 1);
    }
    CollidingLand(v, t, depth);
  }

  lemma ObjectAgrees(v: Value, t: Templater, depth: nat)
    requires v.Obj?
    ensures CollisionsAgree(v, t, depth) <==>
              && (forall k :: k in v.fields ==> CollisionsAgree(v.fields[k], t, depth + 1))
              && SameAnswers(v, t, depth)
  {
    hide KeyResult, Gives, GivesAllOf;
  }

  ghost predicate SameAnswers(v: Value, t: Templater, depth: nat)
    requires v.Obj?
  {
    forall a, b :: a in v.fields && b in v.fields && KeyResult(a, t) == KeyResult(b, t) ==>
      GivesAllOf(v.fields[b], v.fields[a], t, depth + 1)
  }

  ghost predicate OneLands(v: Value, t: Templater, depth: nat)
    requires v.Obj?
  {
    forall k', x, y :: Lands(v, t, depth, k', x) && Lands(v, t, depth, k', y) ==> x == y
  }

  /** One value lands under each key exactly when each field has one answer and colliding fields have the same. */
  lemma CollidingLand(v: Value, t: Templater, depth: nat)
    requires v.Obj? && forall k :: k in v.fields ==> KeyResult(k, t).Ok? && Succeeds(v.fields[k], t, depth + 1)
    ensures OneLands(v, t, depth) <==>
              (forall k :: k in v.fields ==> Unique(v.fields[k], t, depth + 1)) && SameAnswers(v, t, depth)
  {
    hide KeyResult, Gives, Lands;
    var fields := v.fields;
    if OneLands(v, t, depth) {
      forall a, b | a in fields && b in fields && KeyResult(a, t) == KeyResult(b, t)
        ensures GivesAllOf(fields[b], fields[a], t, depth + 1) && Unique(fields[a], t, depth + 1)
      {
        LandTogether(v, t, depth, a, a);
        LandTogether(v, t, depth, a, b);
      }
    }
    forall k', x, y | (forall k :: k in fields ==> Unique(fields[k], t, depth + 1)) && SameAnswers(v, t, depth)
                   && Lands(v, t, depth, k', x) && Lands(v, t, depth, k', y)
      ensures x == y
    {
      var a := LandedFrom(v, t, depth, k', x);
      var b := LandedFrom(v, t, depth, k', y);
      assert GivesAllOf(fields[b], fields[a], t, depth + 1);
    }
  }

  lemma LandTogether(v: Value, t: Templater, depth: nat, a: string, b: string)
    requires v.Obj? && OneLands(v, t, depth) && a in v.fields && b in v.fields
    requires KeyResult(a, t).Ok? && KeyResult(a, t) == KeyResult(b, t) && Succeeds(v.fields[b], t, depth + 1)
    ensures GivesAllOf(v.fields[b], v.fields[a], t, depth + 1)
    ensures a == b ==> Unique(v.fields[a], t, depth + 1)
  {
    hide KeyResult, Gives, Lands;
    var d := depth + 1;
    var y :| Gives(v.fields[b], t, d, y);
    LandsFrom(v, t, depth, b, y);
    forall x | Gives(v.fields[a], t, d, x)
      ensures x == y
    {
      LandsFrom(v, t, depth, a, x);
    }
  }

  /** Colliding fields with different answers: one object, one evaluator, two different answers. */
  lemma CollidingKeysRace(v: Value, t: Templater, depth: nat, a: string, b: string, x: Value, y: Value)
    requires v.Obj? && Succeeds(v, t, depth) && a in v.fields && b in v.fields && KeyResult(a, t) == KeyResult(b, t)
    requires x != y && Gives(v.fields[a], t, depth + 1, x) && Gives(v.fields[b], t, depth + 1, y)
    ensures exists p, q :: p != q && Gives(v, t, depth, p) && Gives(v, t, depth, q)
  {
    hide KeyResult, Gives, Lands;
    var out :| Gives(v, t, depth, out);
    NoAnswerBelow(v, t, depth, out);
    ObjectGives(v, t, depth, out);
    var k' := KeyResult(a, t).value;
    LandsFrom(v, t, depth, a, x);
    LandsFrom(v, t, depth, b, y);
    Exchange(v, t, depth, out, k', x);
    Exchange(v, t, depth, out, k', y);
    var p, q := out.fields[k' := x], out.fields[k' := y];
    assert p[k'] != q[k'];
  }

  /** Such an object: two expressions as keys and an evaluator that gives both the same text. */
  lemma CollidingKeysExample() returns (t: Templater, v: Value)
    ensures v == Obj(map["{$a}" := Null, "{$b}" := Bool(true)])
    ensures exists p, q :: p != q && Gives(v, t, 0, p) && Gives(v, t, 0, q)
  {
    t := Templater(expr => Ok(Str("k")), value => None);
    var a, b := "{$a}", "{$b}";
    v := Obj(map[a := Null, b := Bool(true)]);
    WholeKey('a', t);
    WholeKey('b', t);
    hide KeyResult, Gives, Templated, Succeeds;
    CannotFail(v, t, a, b);
    ConstantAnswer(Null, t, 1);
    ConstantAnswer(Bool(true), t, 1);
    CollidingKeysRace(v, t, 0, a, b, Null, Bool(true));
  }

  lemma WholeKey(c: char, t: Templater)
    requires c != '{' && forall expr :: t.eval(expr) == Ok(Str("k"))
    ensures KeyResult("{$" + [c] + "}", t) == Ok("k")
  {
    var s := "{$" + [c] + "}";
    assert s[2..] == [c, '}'];
    forall i: nat
      ensures !OccursAt(OPEN, s[2..], i)
    {
      assert i < 2 ==> s[2..][i..][0] == s[2 + i];
    }
  }

  lemma ConstantAnswer(v: Value, t: Templater, depth: nat)
    requires (v.Null? || v.Bool?) && depth <= MAX_DEPTH
    ensures Gives(v, t, depth, v) && forall r :: Templated(v, t, depth, r) ==> r == Ok(v)
  {
    assert Templated(v, t, depth, Ok(v));
  }

  lemma CannotFail(v: Value, t: Templater, a: string, b: string)
    requires v == Obj(map[a := Null, b := Bool(true)]) && a != b
    requires KeyResult(a, t).Ok? && KeyResult(b, t).Ok?
    ensures Succeeds(v, t, 0)
  {
    var r := SomeAnswer(v, t, 0);
    ConstantAnswer(Null, t, 1);
    ConstantAnswer(Bool(true), t, 1);
    hide KeyResult, Templated, FieldFits, FieldGives;
    ObjectStep(v, t, 0, r);
    assert r.Ok?;
    GivesWhatIsTemplated(v, t, 0, r.value);
  }

  lemma GivesWhatIsTemplated(v: Value, t: Templater, depth: nat, x: Value)
    requires Templated(v, t, depth, Ok(x))
    ensures Succeeds(v, t, depth)
  {
    hide Templated;
    assert Gives(v, t, depth, x);
  }

  /** No two keys of one object are templated into the same key, at any level. */
  ghost predicate KeysStayApart(v: Value, t: Templater) {
    match v
    case Obj(fields) =>
      && (forall a, b :: a in fields && b in fields && a != b ==> KeyResult(a, t) != KeyResult(b, t))
      && forall k :: k in fields ==> KeysStayApart(fields[k], t)
    case Arr(items) => forall i :: 0 <= i < |items| ==> KeysStayApart(items[i], t)
    case _ => true
  }

  /** In particular, values without colliding keys have one answer. */
  lemma {:induction false} NoCollisionsAgree(v: Value, t: Templater, depth: nat)
    requires KeysStayApart(v, t)
    ensures CollisionsAgree(v, t, depth)
    decreases v
  {
    hide KeyResult, Gives;
    match v
    case Obj(fields) =>
      forall k | k in fields
        ensures CollisionsAgree(fields[k], t, depth + 1)
      {
        NoCollisionsAgree(fields[k], t, depth + 1);
      }
    case Arr(items) =>
      forall i | 0 <= i < |items|
        ensures CollisionsAgree(items[i], t, depth + 1)
      {
        NoCollisionsAgree(items[i], t, depth + 1);
      }
    case _ =>
  }

  // ----- the depth bound -----

  ghost predicate HeightAtMost(v: Value, h: int) {
    h >= 0 &&
    match v
    case Obj(fields) => forall k :: k in fields ==> HeightAtMost(fields[k], h - 1)
    case Arr(items) => forall i :: 0 <= i < |items| ==> HeightAtMost(items[i], h - 1)
    case _ => true
  }

  ghost predicate Plain(v: Value) {
    match v
    case Str(s) => !Contains(s, OPEN)
    case Obj(fields) => forall k :: k in fields ==> !Contains(k, OPEN) && Plain(fields[k])
    case Arr(items) => forall i :: 0 <= i < |items| ==> Plain(items[i])
    case _ => true
  }

  /** A value without expressions comes back as it is up to the depth bound, and is refused exactly beyond it. */
  lemma {:induction false} PlainValues(v: Value, t: Templater, depth: nat, r: Result<Value, TemplateError>)
    requires Plain(v)
    requires depth <= MAX_DEPTH + 1
    ensures Templated(v, t, depth, r) <==> r == if HeightAtMost(v, MAX_DEPTH - depth) then Ok(v) else Err(TooDeep)
    decreases v, 1
  {
    if depth <= MAX_DEPTH {
      match v
      case Obj(fields) => PlainObject(v, t, depth, r);
      case Arr(items) => PlainArray(v, t, depth, r);
      case _ => PlainLeaf(v, t, depth, r);
    }
  }

  lemma PlainLeaf(v: Value, t: Templater, depth: nat, r: Result<Value, TemplateError>)
    requires Plain(v) && !v.Obj? && !v.Arr? && depth <= MAX_DEPTH
    ensures Templated(v, t, depth, r) <==> r == Ok(v)
    ensures HeightAtMost(v, MAX_DEPTH - depth)
  {
    if v.Str? {
      PlainText(v.s, t);
    }
  }

  ghost function PlainAnswer(v: Value, depth: nat): Result<Value, TemplateError> {
    if HeightAtMost(v, MAX_DEPTH - depth) then Ok(v) else Err(TooDeep)
  }

  lemma {:induction false} PlainArray(v: Value, t: Templater, depth: nat, r: Result<Value, TemplateError>)
    requires Plain(v) && v.Arr?
    requires depth <= MAX_DEPTH
    ensures Templated(v, t, depth, r) <==> r == PlainAnswer(v, depth)
    decreases v, 0
  {
    hide Templated, HeightAtMost;
    var items, d := v.items, depth + 1;
    forall i | 0 <= i < |items|
      ensures forall q :: Templated(items[i], t, d, q) <==> q == PlainAnswer(items[i], d)
    {
      forall q
        ensures Templated(items[i], t, d, q) <==> q == PlainAnswer(items[i], d)
      {
        PlainValues(items[i], t, d, q);
      }
    }
    ArrayHeight(v, MAX_DEPTH - depth);
    match r
    case Ok(x) =>
      ArrayStep(v, t, depth, x);
      assert x.Arr? && |x.items| == |items| && (forall i :: 0 <= i < |items| ==> x.items[i] == items[i]) ==>
          x.items == items;
    case Err(e) =>
      ArrayFails(v, t, depth, e);
      if !HeightAtMost(v, MAX_DEPTH - depth) {
        var i := FirstTooHigh(v, MAX_DEPTH - depth);
        forall j | 0 <= j < i
          ensures Succeeds(items[j], t, d)
        {
          assert Templated(items[j], t, d, Ok(items[j]));
          assert Gives(items[j], t, d, items[j]);
        }
        assert Templated(items[i], t, d, Err(TooDeep));
      }
  }

  lemma FirstTooHigh(v: Value, h: nat) returns (i: nat)
    requires v.Arr? && !HeightAtMost(v, h)
    ensures i < |v.items| && !HeightAtMost(v.items[i], h - 1)
    ensures forall j :: 0 <= j < i ==> HeightAtMost(v.items[j], h - 1)
  {
    i := 0;
    while HeightAtMost(v.items[i], h - 1)
      invariant i < |v.items| && forall j :: 0 <= j < i ==> HeightAtMost(v.items[j], h - 1)
      decreases |v.items| - i
    {
      i := i + 1;
    }
  }

  /** The items before the failing one have been templated. */
  lemma FailsAt(v: Value, t: Templater, depth: nat, i: nat, answers: seq<Value>, e: TemplateError)
    requires v.Arr? && depth <= MAX_DEPTH && i < |v.items| && |answers| == i
    requires forall j :: 0 <= j < i ==> Templated(v.items[j], t, depth + 1, Ok(answers[j]))
    requires Templated(v.items[i], t, depth + 1, Err(e))
    ensures Templated(v, t, depth, Err(e))
  {
    forall j | 0 <= j < i
      ensures Succeeds(v.items[j], t, depth + 1)
    {
      assert Gives(v.items[j], t, depth + 1, answers[j]);
    }
    hide Succeeds, Gives;
    ArrayFails(v, t, depth, e);
  }

  lemma ArrayFails(v: Value, t: Templater, depth: nat, e: TemplateError)
    requires v.Arr? && depth <= MAX_DEPTH
    ensures Templated(v, t, depth, Err(e)) <==>
              exists i :: 0 <= i < |v.items| && Templated(v.items[i], t, depth + 1, Err(e))
                && forall j :: 0 <= j < i ==> Succeeds(v.items[j], t, depth + 1)
  {
  }

  lemma ArrayHeight(v: Value, h: nat)
    requires v.Arr?
    ensures HeightAtMost(v, h) <==> forall i :: 0 <= i < |v.items| ==> HeightAtMost(v.items[i], h - 1)
  {
  }

  lemma {:induction false} PlainObject(v: Value, t: Templater, depth: nat, r: Result<Value, TemplateError>)
    requires Plain(v) && v.Obj?
    requires depth <= MAX_DEPTH
    ensures Templated(v, t, depth, r) <==> r == PlainAnswer(v, depth)
    decreases v, 0
  {
    hide KeyResult;
    var fields := v.fields;
    forall k | k in fields
      ensures KeyResult(k, t) == Ok(k)
    {
      PlainText(k, t);
    }
    forall k, q {:trigger Templated(fields[k], t, depth + 1, q)} | k in fields
      ensures Templated(fields[k], t, depth + 1, q) <==> q == PlainAnswer(fields[k], depth + 1)
    {
      PlainValues(fields[k], t, depth + 1, q);
    }
    if HeightAtMost(v, MAX_DEPTH - depth) {
      PlainFields(v, t, depth, r);
    } else {
      var k :| k in fields && !HeightAtMost(fields[k], MAX_DEPTH - depth - 1);
      assert Templated(fields[k], t, depth + 1, Err(TooDeep));
      assert r.Ok? && r.value.Obj? ==> !FieldFits(fields, k, t, depth, r.value.fields);
    }
  }

  lemma PlainFields(v: Value, t: Templater, depth: nat, r: Result<Value, TemplateError>)
    requires v.Obj? && depth <= MAX_DEPTH
    requires forall k :: k in v.fields ==> KeyResult(k, t) == Ok(k)
    requires forall k, q {:trigger Templated(v.fields[k], t, depth + 1, q)} ::
               k in v.fields ==> (Templated(v.fields[k], t, depth + 1, q) <==> q == Ok(v.fields[k]))
    ensures Templated(v, t, depth, r) <==> r == Ok(v)
  {
    hide KeyResult, Templated, FieldFits, FieldGives;
    ObjectStep(v, t, depth, r);
    var fields := v.fields;
    forall k, k', x | k in fields
      ensures FieldGives(fields, k, t, depth, k', x) <==> k' == k && x == fields[k]
    {
      GivesIff(fields, k, t, depth, k', x);
    }
    forall k, out | k in fields
      ensures FieldFits(fields, k, t, depth, out) <==> k in out
    {
      FitsIff(fields, k, t, depth, out);
      assert Gives(fields[k], t, depth + 1, fields[k]);
    }
    assert forall k :: k in fields ==> FieldGives(fields, k, t, depth, k, fields[k]);
    if r.Ok? && Templated(v, t, depth, r) {
      var out := r.value.fields;
      assert forall k :: k in fields ==> FieldFits(fields, k, t, depth, out);
      assert forall k :: k in out ==> k in fields && out[k] == fields[k];
      assert out == fields;
    }
  }

  lemma GivesIff(fields: map<string, Value>, k: string, t: Templater, depth: nat, k': string, x: Value)
    requires k in fields
    ensures FieldGives(fields, k, t, depth, k', x) <==>
              KeyResult(k, t) == Ok(k') && Templated(fields[k], t, depth + 1, Ok(x))
  {
    hide KeyResult, Templated;
  }

  lemma FitsIff(fields: map<string, Value>, k: string, t: Templater, depth: nat, out: map<string, Value>)
    requires k in fields
    ensures FieldFits(fields, k, t, depth, out) <==>
              KeyResult(k, t).Ok? && KeyResult(k, t).value in out && Succeeds(fields[k], t, depth + 1)
  {
    hide KeyResult, Templated;
    forall x
      ensures Gives(fields[k], t, depth + 1, x) <==> Templated(fields[k], t, depth + 1, Ok(x))
    {
    }
    if x :| Templated(fields[k], t, depth + 1, Ok(x)) {
      assert Gives(fields[k], t, depth + 1, x);
    }
  }
}
