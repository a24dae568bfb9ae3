/**
 * x-mock-set-state: evaluated updates applied in whatever order the map yields them
 * (internal/server/engine_state.go).
 */
module SetState {
  import opened Json
  import opened Strings
  import opened StringTemplating
  import opened ValueTemplating
  import opened StateStore

  datatype Update = Skip | Delete | Increase(delta: real) | Put(v: Value)

  /** What an update makes of one key. */
  function Effect(u: Update, was: Option<Value>): Option<Value> {
    match u
    case Skip => was
    case Delete => None
    case Increase(delta) => Some(Number(Float64, Incremented(was, delta)))
    case Put(v) => Some(v)
  }

  type Parse = string -> Option<real>

  function CoerceNumber(v: Value, parse: Parse): Option<real> {
    match v
    case Number(kind, n) => if kind == Float64 || kind == Int then Some(n) else None
    case Str(s) => parse(s)
    case _ => None
  }

  function IncreaseBy(r: Result<Value, TemplateError>, parse: Parse): Update {
    if r.Err? || CoerceNumber(r.value, parse).None? then Skip else Increase(CoerceNumber(r.value, parse).value)
  }

  function PutOf(r: Result<Value, TemplateError>): Update {
    if r.Err? then Skip else Put(r.value)
  }

  /** The updates one entry may stand for; only templating of colliding keys leaves a choice. */
  ghost predicate Means(val: Value, t: Templater, parse: Parse, u: Update) {
    if val.Null? then u == Delete
    else if val.Obj? && "increment" in val.fields then
      exists r :: Templated(val.fields["increment"], t, 0, r) && u == IncreaseBy(r, parse)
    else if val.Obj? && "value" in val.fields then
      exists r :: Templated(val.fields["value"], t, 0, r) && u == PutOf(r)
    else
      exists r :: Templated(val, t, 0, r) && u == PutOf(r)
  }

  lemma MeansOneThing(val: Value, t: Templater, parse: Parse, u: Update, u': Update)
    requires KeysStayApart(val, t)
    requires Means(val, t, parse, u) && Means(val, t, parse, u')
    ensures u == u'
  {
    hide Templated, KeysStayApart;
    if !val.Null? {
      var source := Source(val);
      SourceStaysApart(val, t);
      var r :| Templated(source, t, 0, r) && u == (if IsIncrement(val) then IncreaseBy(r, parse) else PutOf(r));
      var r' :| Templated(source, t, 0, r') && u' == (if IsIncrement(val) then IncreaseBy(r', parse) else PutOf(r'));
      SameAnswer(source, t, r, r');
    }
  }

  predicate IsIncrement(val: Value) {
    val.Obj? && "increment" in val.fields
  }

  /** The part of an entry that is templated. */
  function Source(val: Value): Value {
    if IsIncrement(val) then val.fields["increment"]
    else if val.Obj? && "value" in val.fields then val.fields["value"]
    else val
  }

  lemma SourceStaysApart(val: Value, t: Templater)
    requires KeysStayApart(val, t)
    ensures KeysStayApart(Source(val), t)
  {
  }

  /** Answers agree up to which error is reported. */
  lemma SameAnswer(v: Value, t: Templater, r: Result<Value, TemplateError>, r': Result<Value, TemplateError>)
    requires KeysStayApart(v, t) && Templated(v, t, 0, r) && Templated(v, t, 0, r')
    ensures (r.Err? && r'.Err?) || r == r'
  {
    hide Templated, KeysStayApart, CollisionsAgree;
    if r.Ok? && r'.Ok? {
      NoCollisionsAgree(v, t, 0);
      assert Gives(v, t, 0, r.value) && Gives(v, t, 0, r'.value);
      AnswerIsUnique(v, t, 0);
    } else if r.Ok? {
      SuccessIsDeterministic(v, t, 0, r.value, r'.error);
    } else if r'.Ok? {
      SuccessIsDeterministic(v, t, 0, r'.value, r.error);
    }
  }

  // ----- one order -----

  type Order = seq<(string, Update)>

  /** An entry whose key cannot be evaluated is passed over, whatever its value. */
  ghost predicate Fits(stateMap: map<string, Value>, visit: (string, Update), t: Templater, parse: Parse)
    requires visit.0 in stateMap
  {
    KeyResult(visit.0, t).Ok? ==> Means(stateMap[visit.0], t, parse, visit.1)
  }

  /** `order` visits every entry once and gives each an update it stands for. */
  ghost predicate Visits(order: Order, stateMap: map<string, Value>, t: Templater, parse: Parse) {
    && (forall i, j :: 0 <= i < j < |order| ==> order[i].0 != order[j].0)
    && (forall i :: 0 <= i < |order| ==> order[i].0 in stateMap && Fits(stateMap, order[i], t, parse))
    && (forall key :: key in stateMap ==> exists i :: 0 <= i < |order| && order[i].0 == key)
  }

  /** The value of one key after the updates of `order`, in order. */
  ghost function ValueAfter(order: Order, t: Templater, key: string, was: Option<Value>): Option<Value>
    decreases |order|
  {
    if order == [] then was
    else
      var before := ValueAfter(order[..|order| - 1], t, key, was);
      var (entry, u) := order[|order| - 1];
      if KeyResult(entry, t) == Ok(key) then Effect(u, before) else before
  }

  ghost predicate Outcome(was: Store, now: Store, prefix: string, order: Order, t: Templater) {
    && NoEmptyNamespace(now)
    && forall ns, key :: Lookup(now, ns, key) ==
         if ns == prefix then ValueAfter(order, t, key, Lookup(was, ns, key)) else Lookup(was, ns, key)
  }

  class ExampleEngine {
    const stateStore: Manager
    const parseFloat: Parse

    constructor (stateStore: Manager, parseFloat: Parse)
      ensures this.stateStore == stateStore && this.parseFloat == parseFloat
    {
      this.stateStore := stateStore;
      this.parseFloat := parseFloat;
    }

    /** The store after the call is the outcome of some visiting order. */
    method ApplySetState(stateMap: map<string, Value>, t: Templater, prefix: string) returns (ghost order: Order)
      requires stateStore.Valid()
      modifies stateStore
      ensures stateStore.Valid()
      ensures Visits(order, stateMap, t, parseFloat)
      ensures Outcome(old(stateStore.state), stateStore.state, prefix, order, t)
      ensures CanLeave(old(stateStore.state), stateStore.state, prefix, stateMap, t, parseFloat)
    {
      hide Means, KeyResult, Effect;
      order := [];
      var todo := stateMap.Keys;
      while todo != {}
        invariant todo <= stateMap.Keys && stateStore.Valid()
        invariant Visited(order, stateMap, todo, t, parseFloat)
        invariant Outcome(old(stateStore.state), stateStore.state, prefix, order, t)
        decreases |todo|
      {
        var key :| key in todo;
        ghost var before := stateStore.state;
        ghost var u;
        var resolvedKey := EvaluateExpressionInString(key, t);
        if resolvedKey.Err? {
          u := Skip;
        } else {
          u := ApplyEntry(resolvedKey.value, stateMap[key], t, prefix);
        }
        ExtendOutcome(old(stateStore.state), before, stateStore.state, prefix, order, t, key, u);
        ExtendVisited(order, stateMap, todo, t, parseFloat, key, u);
        order := order + [(key, u)];
        todo := todo - {key};
      }
    }

    /** One entry whose key is resolved: delete, increment, set a value object, or set a plain value. */
    method ApplyEntry(resolvedKey: string, val: Value, t: Templater, prefix: string) returns (ghost u: Update)
      requires stateStore.Valid()
      modifies stateStore
      ensures stateStore.Valid() && Means(val, t, parseFloat, u)
      ensures forall ns, k :: Lookup(stateStore.state, ns, k) ==
                if ns == prefix && k == resolvedKey then Effect(u, old(Lookup(stateStore.state, ns, k)))
                else old(Lookup(stateStore.state, ns, k))
    {
      hide Templated;
      if val.Null? {
        u := Delete;
        stateStore.Delete(prefix, resolvedKey);
        return;
      }
      if val.Obj? {
        if "increment" in val.fields {
          u := HandleIncrement(resolvedKey, val.fields["increment"], t, prefix);
          return;
        }
        if "value" in val.fields {
          var r := EvaluateValue(val.fields["value"], t);
          u := PutOf(r);
          if r.Ok? {
            stateStore.Set(prefix, resolvedKey, r.value);
          }
          return;
        }
      }
      var r := EvaluateValue(val, t);
      u := PutOf(r);
      if r.Ok? {
        stateStore.Set(prefix, resolvedKey, r.value);
      }
    }

    method HandleIncrement(resolvedKey: string, incVal: Value, t: Templater, prefix: string) returns (ghost u: Update)
      requires stateStore.Valid()
      modifies stateStore
      ensures stateStore.Valid()
      ensures exists r :: Templated(incVal, t, 0, r) && u == IncreaseBy(r, parseFloat)
      ensures forall ns, k :: Lookup(stateStore.state, ns, k) ==
                if ns == prefix && k == resolvedKey then Effect(u, old(Lookup(stateStore.state, ns, k)))
                else old(Lookup(stateStore.state, ns, k))
    {
      hide Templated;
      var resolvedInc := EvaluateValue(incVal, t);
      u := IncreaseBy(resolvedInc, parseFloat);
      if resolvedInc.Err? {
        return;
      }
      var delta := CoerceNumber(resolvedInc.value, parseFloat);
      if delta.None? {
        return;
      }
      var newVal := stateStore.Increment(prefix, resolvedKey, delta.value);
    }
  }

  /** Between two rounds: the entries outside `todo` have been visited. */
  ghost predicate Visited(order: Order, stateMap: map<string, Value>, todo: set<string>, t: Templater, parse: Parse) {
    && (forall i, j :: 0 <= i < j < |order| ==> order[i].0 != order[j].0)
    && (forall i :: 0 <= i < |order| ==>
        order[i].0 in stateMap && order[i].0 !in todo && Fits(stateMap, order[i], t, parse))
    && (forall key :: key in stateMap && key !in todo ==> exists i :: 0 <= i < |order| && order[i].0 == key)
  }

  lemma ExtendVisited(order: Order, stateMap: map<string, Value>, todo: set<string>, t: Templater, parse: Parse,
                      key: string, u: Update)
    requires Visited(order, stateMap, todo, t, parse) && key in todo && key in stateMap
    requires Fits(stateMap, (key, u), t, parse)
    ensures Visited(order + [(key, u)], stateMap, todo - {key}, t, parse)
  {
    hide Fits;
    var longer := order + [(key, u)];
    assert longer[|order|].0 == key;
    forall k | k in stateMap && k !in todo - {key}
      ensures exists i :: 0 <= i < |longer| && longer[i].0 == k
    {
      if k != key {
        var i :| 0 <= i < |order| && order[i].0 == k;
        assert longer[i].0 == k;
      }
    }
  }

  lemma ExtendOutcome(was: Store, before: Store, after: Store, prefix: string, order: Order, t: Templater,
                      key: string, u: Update)
    requires Outcome(was, before, prefix, order, t) && NoEmptyNamespace(after)
    requires if KeyResult(key, t).Err? then after == before
             else forall ns, k :: Lookup(after, ns, k) ==
                    if ns == prefix && k == KeyResult(key, t).value then Effect(u, Lookup(before, ns, k))
                    else Lookup(before, ns, k)
    ensures Outcome(was, after, prefix, order + [(key, u)], t)
  {
    hide KeyResult, Effect;
    var longer := order + [(key, u)];
    assert longer[..|order|] == order && longer[|order|] == (key, u);
    forall ns, k
      ensures Lookup(after, ns, k) ==
                if ns == prefix then ValueAfter(longer, t, k, Lookup(was, ns, k)) else Lookup(was, ns, k)
    {
    }
  }

  // ----- any order -----

  ghost predicate DistinctTargets(stateMap: map<string, Value>, t: Templater) {
    forall a, b :: a in stateMap && b in stateMap && a != b && KeyResult(a, t).Ok? ==>
        KeyResult(a, t) != KeyResult(b, t)
  }

  ghost predicate Deterministic(stateMap: map<string, Value>, t: Templater) {
    forall key :: key in stateMap ==> KeysStayApart(stateMap[key], t)
  }

  /** With distinct targets each key gets exactly the update of its own entry, applied to its own old value. */
  lemma {:induction false} OwnUpdateOnly(order: Order, t: Templater, i: nat, key: string, was: Option<Value>)
    requires i < |order| && KeyResult(order[i].0, t) == Ok(key)
    requires forall j :: 0 <= j < |order| && j != i ==> KeyResult(order[j].0, t) != Ok(key)
    ensures ValueAfter(order, t, key, was) == Effect(order[i].1, was)
    decreases |order|
  {
    hide KeyResult, Effect;
    var n := |order| - 1;
    var before := order[..n];
    if i == n {
      Untouched(before, t, key, was);
    } else {
      OwnUpdateOnly(before, t, i, key, was);
    }
  }

  lemma {:induction false} Untouched(order: Order, t: Templater, key: string, was: Option<Value>)
    requires forall j :: 0 <= j < |order| ==> KeyResult(order[j].0, t) != Ok(key)
    ensures ValueAfter(order, t, key, was) == was
    decreases |order|
  {
    hide KeyResult, Effect;
    if order != [] {
      Untouched(order[..|order| - 1], t, key, was);
    }
  }

  // ----- when the order shows -----

  /** Two updates of one key that may be applied in either order. */
  predicate Compatible(u: Update, u': Update) {
    match (u, u')
    case (Skip, _) => true
    case (_, Skip) => true
    case (Delete, Delete) => true
    case (Increase(_), Increase(_)) => true
    case (Put(v), Put(v')) => v == v'
    case (Put(v), Increase(delta)) => delta == 0.0 && v.Number? && v.kind == Float64
    case (Increase(delta), Put(v)) => delta == 0.0 && v.Number? && v.kind == Float64
    case _ => false
  }

  /** From whatever value, compatible updates commute and incompatible ones do not. */
  lemma CompatibleCommute(u: Update, u': Update, was: Option<Value>)
    ensures Compatible(u, u') <==> Effect(u, Effect(u', was)) == Effect(u', Effect(u, was))
  {
  }

  /** One entry stands for one update, and two entries for compatible ones. */
  ghost predicate Agree(stateMap: map<string, Value>, a: string, b: string, t: Templater, parse: Parse)
    requires a in stateMap && b in stateMap
  {
    forall u, u' :: Means(stateMap[a], t, parse, u) && Means(stateMap[b], t, parse, u') ==>
      if a == b then u == u' else Compatible(u, u')
  }

  /** Entries with one target agree. */
  ghost predicate TargetsAgree(stateMap: map<string, Value>, t: Templater, parse: Parse) {
    forall a, b :: a in stateMap && b in stateMap && KeyResult(a, t).Ok? && KeyResult(a, t) == KeyResult(b, t) ==>
      Agree(stateMap, a, b, t, parse)
  }

  /** Some visiting order turns the store `was` into `s`. */
  ghost predicate CanLeave(was: Store, s: Store, prefix: string, stateMap: map<string, Value>, t: Templater,
                           parse: Parse) {
    exists order :: Visits(order, stateMap, t, parse) && Outcome(was, s, prefix, order, t)
  }

  ghost predicate OneOutcome(was: Store, prefix: string, stateMap: map<string, Value>, t: Templater, parse: Parse) {
    forall s, s' ::
      CanLeave(was, s, prefix, stateMap, t, parse) && CanLeave(was, s', prefix, stateMap, t, parse) ==> s == s'
  }

  /** Whatever the store, every iteration order leaves the same one exactly when entries with one target agree. */
  lemma OrderIsInvisible(was: Store, prefix: string, stateMap: map<string, Value>, t: Templater, parse: Parse)
    requires NoEmptyNamespace(was)
    ensures OneOutcome(was, prefix, stateMap, t, parse) <==> TargetsAgree(stateMap, t, parse)
  {
    hide KeyResult, Means, Agree, Visits, Outcome;
    if TargetsAgree(stateMap, t, parse) {
      forall s, s' | CanLeave(was, s, prefix, stateMap, t, parse) && CanLeave(was, s', prefix, stateMap, t, parse)
        ensures s == s'
      {
        var order: Order :| Visits(order, stateMap, t, parse) && Outcome(was, s, prefix, order, t);
        var order' :| Visits(order', stateMap, t, parse) && Outcome(was, s', prefix, order', t);
        SameOutcome(was, s, s', prefix, stateMap, t, parse, order, order');
      }
    } else {
      var a, b :| a in stateMap && b in stateMap && KeyResult(a, t).Ok? && KeyResult(a, t) == KeyResult(b, t)
                  && !Agree(stateMap, a, b, t, parse);
      var order, order' := Disagreement(stateMap, a, b, t, parse, Lookup(was, prefix, KeyResult(a, t).value));
      var s := SomeOutcome(was, prefix, order, t);
      var s' := SomeOutcome(was, prefix, order', t);
      OutcomesDiffer(was, s, s', prefix, order, order', t, KeyResult(a, t).value);
      assert CanLeave(was, s, prefix, stateMap, t, parse) && CanLeave(was, s', prefix, stateMap, t, parse);
    }
  }

  lemma OutcomesDiffer(was: Store, s: Store, s': Store, prefix: string, order: Order, order': Order, t: Templater,
                       key: string)
    requires Outcome(was, s, prefix, order, t) && Outcome(was, s', prefix, order', t)
    requires ValueAfter(order, t, key, Lookup(was, prefix, key)) != ValueAfter(order', t, key, Lookup(was, prefix, key))
    ensures s != s'
  {
    hide ValueAfter;
    assert Lookup(s, prefix, key) != Lookup(s', prefix, key);
  }

  // Agreeing targets: one order is turned into the other by moving one visit at a time to the end.

  ghost predicate ActsOn(visit: (string, Update), t: Templater, key: string) {
    KeyResult(visit.0, t) == Ok(key)
  }

  ghost predicate EntriesDiffer(order: Order) {
    forall i, j :: 0 <= i < j < |order| ==> order[i].0 != order[j].0
  }

  ghost predicate Harmless(order: Order, t: Templater, key: string) {
    forall i, j :: 0 <= i < j < |order| && ActsOn(order[i], t, key) && ActsOn(order[j], t, key) ==>
      Compatible(order[i].1, order[j].1)
  }

  ghost predicate SameVisits(order: Order, order': Order, t: Templater, key: string) {
    forall visit :: ActsOn(visit, t, key) ==> (visit in order <==> visit in order')
  }

  function Without(order: Order, j: nat): Order
    requires j < |order|
  {
    order[..j] + order[j + 1..]
  }

  lemma {:induction false} MoveToEnd(order: Order, j: nat, t: Templater, key: string, was: Option<Value>)
    requires j < |order| && Harmless(order, t, key) && ActsOn(order[j], t, key)
    ensures ValueAfter(order, t, key, was) == Effect(order[j].1, ValueAfter(Without(order, j), t, key, was))
    decreases |order|
  {
    hide KeyResult, Effect;
    var n := |order| - 1;
    var before := order[..n];
    if j == n {
      assert Without(order, j) == before;
    } else {
      var rest := Without(order, j);
      assert Harmless(before, t, key);
      MoveToEnd(before, j, t, key, was);
      assert rest[..|rest| - 1] == Without(before, j) && rest[|rest| - 1] == order[n];
      CompatibleCommute(order[j].1, order[n].1, ValueAfter(Without(before, j), t, key, was));
    }
  }

  lemma {:induction false} Reorder(order: Order, order': Order, t: Templater, key: string, was: Option<Value>)
    requires EntriesDiffer(order) && EntriesDiffer(order') && Harmless(order', t, key)
    requires SameVisits(order, order', t, key)
    ensures ValueAfter(order, t, key, was) == ValueAfter(order', t, key, was)
    decreases |order|
  {
    hide KeyResult, Effect, Compatible, ActsOn;
    if order == [] {
      forall j | 0 <= j < |order'|
        ensures !ActsOn(order'[j], t, key)
      {
        assert order'[j] in order';
      }
      UntouchedBy(order', t, key, was);
    } else {
      var n := |order| - 1;
      var before, last := order[..n], order[n];
      assert order == before + [last];
      LastVisit(order, t, key, was);
      if ActsOn(last, t, key) {
        assert last in order;
        var j :| 0 <= j < |order'| && order'[j] == last;
        TakeOut(order, order', j, t, key);
        MoveToEnd(order', j, t, key, was);
        Reorder(before, Without(order', j), t, key, was);
      } else {
        Reorder(before, order', t, key, was);
      }
    }
  }

  lemma LastVisit(order: Order, t: Templater, key: string, was: Option<Value>)
    requires order != []
    ensures var before, last := order[..|order| - 1], order[|order| - 1];
            ValueAfter(order, t, key, was) ==
              if ActsOn(last, t, key) then Effect(last.1, ValueAfter(before, t, key, was))
              else ValueAfter(before, t, key, was)
  {
    hide KeyResult, Effect;
  }

  lemma UntouchedBy(order: Order, t: Templater, key: string, was: Option<Value>)
    requires forall j :: 0 <= j < |order| ==> !ActsOn(order[j], t, key)
    ensures ValueAfter(order, t, key, was) == was
  {
    hide KeyResult, Effect;
    forall j | 0 <= j < |order|
      ensures KeyResult(order[j].0, t) != Ok(key)
    {
      assert !ActsOn(order[j], t, key);
    }
    Untouched(order, t, key, was);
  }

  /** The last visit is taken out of both orders. */
  lemma TakeOut(order: Order, order': Order, j: nat, t: Templater, key: string)
    requires EntriesDiffer(order) && EntriesDiffer(order') && Harmless(order', t, key)
    requires SameVisits(order, order', t, key)
    requires order != [] && j < |order'| && order'[j] == order[|order| - 1]
    ensures var before, rest := order[..|order| - 1], Without(order', j);
            EntriesDiffer(before) && EntriesDiffer(rest) && Harmless(rest, t, key) && SameVisits(before, rest, t, key)
  {
    hide KeyResult, Compatible, ActsOn;
    var before, last, rest := order[..|order| - 1], order[|order| - 1], Without(order', j);
    assert order == before + [last];
    assert forall i :: 0 <= i < |rest| ==> rest[i] == order'[if i < j then i else i + 1];
    InWithout(order', j);
    forall visit | ActsOn(visit, t, key)
      ensures visit in before <==> visit in rest
    {
      assert visit in before ==> visit != last;
      assert visit in order <==> visit in before || visit == last;
    }
  }

  lemma InWithout(order: Order, j: nat)
    requires EntriesDiffer(order) && j < |order|
    ensures forall visit :: visit in Without(order, j) <==> visit in order && visit != order[j]
  {
    assert order == order[..j] + [order[j]] + order[j + 1..];
  }

  lemma SameOutcome(was: Store, s: Store, s': Store, prefix: string, stateMap: map<string, Value>, t: Templater,
                    parse: Parse,
                    order: Order, order': Order)
    requires TargetsAgree(stateMap, t, parse)
    requires Visits(order, stateMap, t, parse) && Outcome(was, s, prefix, order, t)
    requires Visits(order', stateMap, t, parse) && Outcome(was, s', prefix, order', t)
    ensures s == s'
  {
    hide KeyResult, Means, Effect, ValueAfter, Agree, TargetsAgree, Visits, Harmless, SameVisits, EntriesDiffer;
    forall ns, key
      ensures Lookup(s, ns, key) == Lookup(s', ns, key)
    {
      if ns == prefix {
        VisitsAgree(stateMap, t, parse, order, order', key);
        Reorder(order, order', t, key, Lookup(was, ns, key));
      }
    }
    SameLookups(s, s');
  }

  lemma VisitsAgree(stateMap: map<string, Value>, t: Templater, parse: Parse, order: Order, order': Order, key: string)
    requires TargetsAgree(stateMap, t, parse) && Visits(order, stateMap, t, parse) && Visits(order', stateMap, t, parse)
    ensures EntriesDiffer(order) && EntriesDiffer(order') && Harmless(order', t, key)
    ensures SameVisits(order, order', t, key)
  {
    hide KeyResult, Means, Compatible;
    forall visit | ActsOn(visit, t, key)
      ensures visit in order <==> visit in order'
    {
      if visit in order {
        AlsoVisited(stateMap, t, parse, order, order', visit);
      }
      if visit in order' {
        AlsoVisited(stateMap, t, parse, order', order, visit);
      }
    }
    forall i, j | 0 <= i < j < |order'| && ActsOn(order'[i], t, key) && ActsOn(order'[j], t, key)
      ensures Compatible(order'[i].1, order'[j].1)
    {
      assert Agree(stateMap, order'[i].0, order'[j].0, t, parse);
    }
  }

  lemma AlsoVisited(stateMap: map<string, Value>, t: Templater, parse: Parse, order: Order, order': Order,
                    visit: (string, Update))
    requires TargetsAgree(stateMap, t, parse) && Visits(order, stateMap, t, parse) && Visits(order', stateMap, t, parse)
    requires visit in order && KeyResult(visit.0, t).Ok?
    ensures visit in order'
  {
    hide KeyResult, Means;
    var i :| 0 <= i < |order| && order[i] == visit;
    var j :| 0 <= j < |order'| && order'[j].0 == visit.0;
    assert Agree(stateMap, visit.0, visit.0, t, parse);
    assert Fits(stateMap, order[i], t, parse) && Fits(stateMap, order'[j], t, parse);
    assert order'[j] == visit;
  }

  // Disagreeing targets: two orders that end with the entries in question.

  lemma SomeMeaning(val: Value, t: Templater, parse: Parse) returns (u: Update)
    ensures Means(val, t, parse, u)
  {
    hide Templated;
    if val.Null? {
      return Delete;
    }
    var r := SomeAnswer(Source(val), t, 0);
    u := if IsIncrement(val) then IncreaseBy(r, parse) else PutOf(r);
  }

  /** An order of everything outside `left`. */
  lemma VisitAllBut(stateMap: map<string, Value>, left: set<string>, t: Templater, parse: Parse) returns (order: Order)
    requires left <= stateMap.Keys
    ensures Visited(order, stateMap, left, t, parse)
    decreases |stateMap.Keys - left|
  {
    hide Means, KeyResult;
    if left == stateMap.Keys {
      return [];
    }
    var key :| key in stateMap && key !in left;
    var more := left + {key};
    assert stateMap.Keys - more == stateMap.Keys - left - {key};
    var before := VisitAllBut(stateMap, more, t, parse);
    var u := SomeMeaning(stateMap[key], t, parse);
    ExtendVisited(before, stateMap, more, t, parse, key, u);
    assert more - {key} == left;
    order := before + [(key, u)];
  }

  lemma Disagreement(stateMap: map<string, Value>, a: string, b: string, t: Templater, parse: Parse, was: Option<Value>)
    returns (order: Order, order': Order)
    requires a in stateMap && b in stateMap && KeyResult(a, t).Ok? && KeyResult(a, t) == KeyResult(b, t)
    requires !Agree(stateMap, a, b, t, parse)
    ensures Visits(order, stateMap, t, parse) && Visits(order', stateMap, t, parse)
    ensures ValueAfter(order, t, KeyResult(a, t).value, was) != ValueAfter(order', t, KeyResult(a, t).value, was)
  {
    hide Means, KeyResult, Effect, Visits, Visited, Fits, Compatible;
    var key := KeyResult(a, t).value;
    var u, u' :| Means(stateMap[a], t, parse, u) && Means(stateMap[b], t, parse, u')
                 && !(if a == b then u == u' else Compatible(u, u'));
    var rest := VisitAllBut(stateMap, {a, b}, t, parse);
    var w := ValueAfter(rest, t, key, was);
    assert {a, b} - {a} - {b} == {a, b} - {b} - {a} == {};
    if a == b {
      assert {a, b} == {a} && {a} - {a} == {};
      order, order' := rest + [(a, u)], rest + [(a, u')];
      EndWith(stateMap, {a}, t, parse, rest, a, u, key, was);
      EndWith(stateMap, {a}, t, parse, rest, a, u', key, was);
      MeaningsDiffer(stateMap[a], t, parse, u, u', w);
    } else {
      assert {a, b} - {a} == {b} && {a, b} - {b} == {a};
      order, order' := rest + [(a, u)] + [(b, u')], rest + [(b, u')] + [(a, u)];
      EndWith(stateMap, {a, b}, t, parse, rest, a, u, key, was);
      EndWith(stateMap, {b}, t, parse, rest + [(a, u)], b, u', key, was);
      EndWith(stateMap, {a, b}, t, parse, rest, b, u', key, was);
      EndWith(stateMap, {a}, t, parse, rest + [(b, u')], a, u, key, was);
      CompatibleCommute(u, u', w);
    }
    AllVisited(order, stateMap, t, parse);
    AllVisited(order', stateMap, t, parse);
  }

  lemma AllVisited(order: Order, stateMap: map<string, Value>, t: Templater, parse: Parse)
    ensures Visited(order, stateMap, {}, t, parse) ==> Visits(order, stateMap, t, parse)
  {
    hide Fits;
  }

  lemma EndWith(stateMap: map<string, Value>, left: set<string>, t: Templater, parse: Parse, order: Order,
                a: string, u: Update, key: string, was: Option<Value>)
    requires Visited(order, stateMap, left, t, parse) && a in left && a in stateMap
    requires Means(stateMap[a], t, parse, u) && KeyResult(a, t) == Ok(key)
    ensures Visited(order + [(a, u)], stateMap, left - {a}, t, parse)
    ensures ValueAfter(order + [(a, u)], t, key, was) == Effect(u, ValueAfter(order, t, key, was))
  {
    hide Means, KeyResult, Effect;
    ExtendVisited(order, stateMap, left, t, parse, a, u);
    assert (order + [(a, u)])[..|order|] == order;
  }

  /** Only what is put can be ambiguous: two meanings of one entry put different values. */
  lemma MeaningsDiffer(val: Value, t: Templater, parse: Parse, u: Update, u': Update, was: Option<Value>)
    requires Means(val, t, parse, u) && Means(val, t, parse, u') && u != u'
    ensures Effect(u, was) != Effect(u', was)
  {
    hide Templated;
    var source := Source(val);
    var r :| Templated(source, t, 0, r) && u == (if IsIncrement(val) then IncreaseBy(r, parse) else PutOf(r));
    var r' :| Templated(source, t, 0, r') && u' == (if IsIncrement(val) then IncreaseBy(r', parse) else PutOf(r'));
    if r.Ok? && r'.Err? {
      SuccessIsDeterministic(source, t, 0, r.value, r'.error);
    }
    if r.Err? && r'.Ok? {
      SuccessIsDeterministic(source, t, 0, r'.value, r.error);
    }
    if r.Ok? && r'.Ok? {
      AmbiguousIsComposite(source, t, r.value, r'.value);
    }
  }

  lemma AmbiguousIsComposite(v: Value, t: Templater, x: Value, y: Value)
    requires Templated(v, t, 0, Ok(x)) && Templated(v, t, 0, Ok(y)) && x != y
    ensures (x.Obj? && y.Obj?) || (x.Arr? && y.Arr?)
  {
    hide KeyResult, StringResult;
  }

  function WithValue(st: Store, ns: string, key: string, v: Option<Value>): Store {
    var entries := if ns in st then st[ns] else map[];
    var left := match v case Some(x) => entries[key := x] case None => entries - {key};
    if left == map[] then st - {ns} else st[ns := left]
  }

  lemma WithValueLookups(st: Store, ns: string, key: string, v: Option<Value>)
    requires NoEmptyNamespace(st)
    ensures NoEmptyNamespace(WithValue(st, ns, key, v))
    ensures forall n, k :: Lookup(WithValue(st, ns, key, v), n, k) ==
              if n == ns && k == key then v else Lookup(st, n, k)
  {
    var entries := if ns in st then st[ns] else map[];
    var left := match v case Some(x) => entries[key := x] case None => entries - {key};
    assert v.Some? ==> key in left;
    assert forall k :: k in entries && k != key ==> k in left;
  }

  lemma {:induction false} SomeOutcome(was: Store, prefix: string, order: Order, t: Templater) returns (s: Store)
    requires NoEmptyNamespace(was)
    ensures Outcome(was, s, prefix, order, t)
    decreases |order|
  {
    hide KeyResult, Effect, WithValue;
    if order == [] {
      return was;
    }
    var n := |order| - 1;
    var before := SomeOutcome(was, prefix, order[..n], t);
    var (key, u) := order[n];
    s := before;
    if KeyResult(key, t).Ok? {
      var target := KeyResult(key, t).value;
      var v := Effect(u, Lookup(before, prefix, target));
      WithValueLookups(before, prefix, target, v);
      s := WithValue(before, prefix, target, v);
    }
    ExtendOutcome(was, before, s, prefix, order[..n], t, key, u);
    assert order == order[..n] + [(key, u)];
  }

  // ----- in particular -----

  /** With pairwise distinct targets every iteration order leaves the same store. */
  lemma Confluence(was: Store, prefix: string, stateMap: map<string, Value>, t: Templater, parse: Parse)
    requires NoEmptyNamespace(was)
    requires DistinctTargets(stateMap, t) && Deterministic(stateMap, t)
    ensures OneOutcome(was, prefix, stateMap, t, parse)
  {
    hide KeyResult, Means, KeysStayApart, OneOutcome;
    forall a, b | a in stateMap && b in stateMap && KeyResult(a, t).Ok? && KeyResult(a, t) == KeyResult(b, t)
      ensures Agree(stateMap, a, b, t, parse)
    {
      forall u, u' | Means(stateMap[a], t, parse, u) && Means(stateMap[b], t, parse, u')
        ensures a == b && u == u'
      {
        MeansOneThing(stateMap[a], t, parse, u, u');
      }
    }
    OrderIsInvisible(was, prefix, stateMap, t, parse);
  }

  /** Two entries with one target and different values: one map, two different stores, whatever was stored before. */
  lemma SharedTargetRaces(was: Store, prefix: string, t: Templater, parse: Parse, a: string, b: string)
    requires NoEmptyNamespace(was) && a != b && KeyResult(a, t).Ok? && KeyResult(a, t) == KeyResult(b, t)
    ensures var stateMap := map[a := Bool(false), b := Bool(true)];
            exists s, s' ::
              && s != s' && CanLeave(was, s, prefix, stateMap, t, parse)
              && CanLeave(was, s', prefix, stateMap, t, parse)
  {
    hide KeyResult, CanLeave;
    var stateMap := map[a := Bool(false), b := Bool(true)];
    assert Templated(Bool(false), t, 0, Ok(Bool(false))) && Templated(Bool(true), t, 0, Ok(Bool(true)));
    assert Means(stateMap[a], t, parse, Put(Bool(false))) && Means(stateMap[b], t, parse, Put(Bool(true)));
    assert !Agree(stateMap, a, b, t, parse);
    OrderIsInvisible(was, prefix, stateMap, t, parse);
  }

  // ----- entries as they are written -----

  /** A value without expressions, within the nesting bound. */
  ghost predicate IsConstant(v: Value) {
    Plain(v) && HeightAtMost(v, 256)
  }

  ghost predicate Counts(v: Value, n: real) {
    exists kind :: v == Number(kind, n) && kind in {Float64, Float32, Int, Int64}
  }

  /** What an increment adds: a Float64, an Int, or a text that is parsed. */
  ghost predicate Adds(v: Value, n: real, parse: Parse) {
    || v == Number(Float64, n) || v == Number(Int, n)
    || exists s :: v == Str(s) && parse(s) == Some(n)
  }

  lemma ConstantIsItself(v: Value, t: Templater)
    requires IsConstant(v)
    ensures forall r :: Templated(v, t, 0, r) <==> r == Ok(v)
  {
    hide Templated, HeightAtMost, Plain;
    forall r
      ensures Templated(v, t, 0, r) <==> r == Ok(v)
    {
      PlainValues(v, t, 0, r);
    }
  }

  /** One entry under a key without expressions: one visit, at that key. */
  lemma OneEntry(was: Store, s: Store, prefix: string, key: string, val: Value, t: Templater, parse: Parse)
    returns (u: Update)
    requires CanLeave(was, s, prefix, map[key := val], t, parse) && !Contains(key, "{$")
    ensures Means(val, t, parse, u) && Lookup(s, prefix, key) == Effect(u, Lookup(was, prefix, key))
    ensures forall ns, k :: ns != prefix || k != key ==> Lookup(s, ns, k) == Lookup(was, ns, k)
  {
    PlainText(key, t);
    hide Means, Effect, KeyResult, Contains;
    var stateMap := map[key := val];
    var order: Order :| Visits(order, stateMap, t, parse) && Outcome(was, s, prefix, order, t);
    OnlyVisit(order, key, val, t, parse);
    hide Visits;
    u := order[0].1;
    forall ns, k
      ensures Lookup(s, ns, k) == if ns == prefix && k == key then Effect(u, Lookup(was, ns, k)) else Lookup(was, ns, k)
    {
      assert order[..0] == [];
      LastVisit(order, t, k, Lookup(was, ns, k));
    }
  }

  lemma OnlyVisit(order: Order, key: string, val: Value, t: Templater, parse: Parse)
    requires Visits(order, map[key := val], t, parse)
    ensures |order| == 1 && order[0].0 == key && Fits(map[key := val], order[0], t, parse)
  {
    hide Fits;
    assert key in map[key := val];
    VisitedTwice(order, key);
  }

  lemma VisitedTwice(order: Order, key: string)
    requires forall j :: 0 <= j < |order| ==> order[j].0 == key
    ensures |order| > 1 ==> exists i, j :: 0 <= i < j < |order| && order[i].0 == order[j].0
  {
    if |order| > 1 {
      assert order[0].0 == order[1].0;
    }
  }

  /** A number to add to is stored there. */
  ghost predicate Held(s: Store, prefix: string, key: string, n: real) {
    Lookup(s, prefix, key).Some? && Counts(Lookup(s, prefix, key).value, n)
  }

  /**
   * An increment, whatever stands beside it, adds to a number, starts from nothing otherwise, and does nothing when
   * there is no number to add.
   */
  lemma IncrementEntry(was: Store, s: Store, prefix: string, key: string, fields: map<string, Value>, v: Value,
                       t: Templater, parse: Parse)
    requires CanLeave(was, s, prefix, map[key := Obj(fields)], t, parse) && !Contains(key, "{$")
    requires "increment" in fields && fields["increment"] == v && IsConstant(v)
    ensures forall n, before :: Adds(v, n, parse) && Held(was, prefix, key, before) ==>
              Lookup(s, prefix, key) == Some(Number(Float64, before + n))
    ensures forall n :: Adds(v, n, parse) && (forall m :: !Held(was, prefix, key, m)) ==>
              Lookup(s, prefix, key) == Some(Number(Float64, n))
    ensures !(exists n :: Adds(v, n, parse)) ==> Lookup(s, prefix, key) == Lookup(was, prefix, key)
    ensures forall ns, k :: ns != prefix || k != key ==> Lookup(s, ns, k) == Lookup(was, ns, k)
  {
    var u := OneEntry(was, s, prefix, key, Obj(fields), t, parse);
    ConstantIsItself(v, t);
    AddsMeans(v, parse);
    hide Templated, IsConstant, CanLeave, Contains, Adds;
    assert u == IncreaseBy(Ok(v), parse);
    var w := Lookup(was, prefix, key);
    HeldMeans(was, prefix, key);
    hide Counts, Held;
    if w.Some? && Numeric(w.value).Some? {
      assert Held(was, prefix, key, Numeric(w.value).value);
    }
  }

  lemma AddsMeans(v: Value, parse: Parse)
    ensures forall n :: Adds(v, n, parse) <==> CoerceNumber(v, parse) == Some(n)
  {
  }

  lemma HeldMeans(s: Store, prefix: string, key: string)
    ensures forall n :: Held(s, prefix, key, n) <==>
              Lookup(s, prefix, key).Some? && Numeric(Lookup(s, prefix, key).value) == Some(n)
  {
  }

  lemma NullEntry(was: Store, s: Store, prefix: string, key: string, t: Templater, parse: Parse)
    requires CanLeave(was, s, prefix, map[key := Null], t, parse) && !Contains(key, "{$")
    ensures forall ns, k :: Lookup(s, ns, k) == if ns == prefix && k == key then None else Lookup(was, ns, k)
  {
    var u := OneEntry(was, s, prefix, key, Null, t, parse);
  }

  /** The value of a value object is stored, whatever stands beside it other than an increment. */
  lemma ValueEntry(was: Store, s: Store, prefix: string, key: string, fields: map<string, Value>, t: Templater,
                   parse: Parse)
    requires CanLeave(was, s, prefix, map[key := Obj(fields)], t, parse) && !Contains(key, "{$")
    requires "value" in fields && "increment" !in fields && IsConstant(fields["value"])
    ensures forall ns, k ::
              Lookup(s, ns, k) == if ns == prefix && k == key then Some(fields["value"]) else Lookup(was, ns, k)
  {
    var u := OneEntry(was, s, prefix, key, Obj(fields), t, parse);
    ConstantIsItself(fields["value"], t);
    hide Templated, IsConstant, CanLeave, Contains;
  }

  lemma PlainEntry(was: Store, s: Store, prefix: string, key: string, v: Value, t: Templater, parse: Parse)
    requires CanLeave(was, s, prefix, map[key := v], t, parse) && !Contains(key, "{$")
    requires v != Null && IsConstant(v) && (v.Obj? ==> "increment" !in v.fields && "value" !in v.fields)
    ensures forall ns, k :: Lookup(s, ns, k) == if ns == prefix && k == key then Some(v) else Lookup(was, ns, k)
  {
    var u := OneEntry(was, s, prefix, key, v, t, parse);
    ConstantIsItself(v, t);
    hide Templated, IsConstant, CanLeave, Contains;
  }
}
