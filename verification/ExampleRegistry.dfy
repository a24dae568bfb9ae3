/** Injected examples with one-time use and expiry (internal/server/registry.go). */
module ExampleRegistry {
  import opened Json

  type Conditions = map<string, Value>

  /** Times are nanoseconds; a ttl of zero or less never expires. */
  datatype Example = Example(onceID: string, addedAt: int, ttl: int, once: bool, conditions: Conditions, body: Value)

  const SECOND := 1_000_000_000

  predicate Expired(ex: Example, now: int) {
    ex.ttl > 0 && ex.addedAt + ex.ttl * SECOND <= now
  }

  // ----- the store -----

  datatype Store = Store(once: set<string>, examples: map<string, seq<Example>>)

  function At(s: Store, key: string): seq<Example> {
    if key in s.examples then s.examples[key] else []
  }

  function Alive(exs: seq<Example>, now: int): seq<Example> {
    if exs == [] then []
    else (if Expired(exs[0], now) then [] else [exs[0]]) + Alive(exs[1..], now)
  }

  function Without(exs: seq<Example>, id: string): seq<Example> {
    if exs == [] then []
    else (if exs[0].onceID == id then [] else [exs[0]]) + Without(exs[1..], id)
  }

  lemma {:induction false} AliveSnoc(exs: seq<Example>, ex: Example, now: int)
    ensures Alive(exs + [ex], now) == Alive(exs, now) + if Expired(ex, now) then [] else [ex]
  {
    hide Expired;
    var all := exs + [ex];
    if exs == [] {
      assert all == [ex] && all[1..] == [];
    } else {
      var rest := exs[1..];
      assert all[0] == exs[0] && all[1..] == rest + [ex];
      AliveSnoc(rest, ex, now);
      AliveHead(all, now);
      AliveHead(exs, now);
    }
  }

  lemma AliveHead(exs: seq<Example>, now: int)
    requires exs != []
    ensures Alive(exs, now) == (if Expired(exs[0], now) then [] else [exs[0]]) + Alive(exs[1..], now)
  {
  }

  lemma {:induction false} WithoutSnoc(exs: seq<Example>, ex: Example, id: string)
    ensures Without(exs + [ex], id) == Without(exs, id) + if ex.onceID == id then [] else [ex]
  {
    var all := exs + [ex];
    if exs == [] {
      assert all == [ex] && all[1..] == [];
    } else {
      var rest := exs[1..];
      assert all[0] == exs[0] && all[1..] == rest + [ex];
      WithoutSnoc(rest, ex, id);
      WithoutHead(all, id);
      WithoutHead(exs, id);
    }
  }

  lemma WithoutHead(exs: seq<Example>, id: string)
    requires exs != []
    ensures Without(exs, id) == (if exs[0].onceID == id then [] else [exs[0]]) + Without(exs[1..], id)
  {
  }

  lemma {:induction false} InAlive(exs: seq<Example>, now: int)
    ensures forall ex :: ex in Alive(exs, now) <==> ex in exs && !Expired(ex, now)
  {
    if exs != [] {
      InAlive(exs[1..], now);
      assert forall ex :: ex in exs <==> ex == exs[0] || ex in exs[1..];
    }
  }

  lemma {:induction false} InWithout(exs: seq<Example>, id: string)
    ensures forall ex :: ex in Without(exs, id) <==> ex in exs && ex.onceID != id
  {
    if exs != [] {
      InWithout(exs[1..], id);
      assert forall ex :: ex in exs <==> ex == exs[0] || ex in exs[1..];
    }
  }

  ghost predicate Stored(s: Store, ex: Example) {
    exists key :: ex in At(s, key)
  }

  ghost predicate HasId(s: Store, id: string) {
    exists ex :: Stored(s, ex) && ex.onceID == id
  }

  ghost predicate HasExpiredId(s: Store, id: string, now: int) {
    exists ex :: Stored(s, ex) && ex.onceID == id && Expired(ex, now)
  }

  // ----- selection -----

  type Holds = Conditions -> bool

  predicate Eligible(ex: Example, once: set<string>, holds: Holds, now: int) {
    && !(ex.once && ex.onceID in once)
    && !Expired(ex, now)
    && (ex.conditions == map[] || holds(ex.conditions))
  }

  function Pick(exs: seq<Example>, once: set<string>, holds: Holds, now: int): (picked: Option<Example>)
    ensures picked.Some? ==> picked.value in exs && Eligible(picked.value, once, holds, now)
    ensures picked.None? ==> forall ex :: ex in exs ==> !Eligible(ex, once, holds, now)
  {
    if exs == [] then None
    else if Eligible(exs[0], once, holds, now) then Some(exs[0])
    else Pick(exs[1..], once, holds, now)
  }

  /** `ttl` whole seconds from `addedAt` on, and not from their end on; its one use; its conditions. */
  predicate Usable(ex: Example, once: set<string>, holds: Holds, now: int) {
    && (ex.once ==> ex.onceID !in once)
    && (ex.ttl > 0 ==> now - ex.addedAt < 1_000_000_000 * ex.ttl)
    && (|ex.conditions| > 0 ==> holds(ex.conditions))
  }

  lemma UsableIsEligible(ex: Example, once: set<string>, holds: Holds, now: int)
    ensures Usable(ex, once, holds, now) <==> Eligible(ex, once, holds, now)
  {
    assert |ex.conditions| == 0 <==> ex.conditions == map[];
  }

  /** The answer is the first usable example of the route. */
  lemma {:induction false} PickIsFirst(exs: seq<Example>, once: set<string>, holds: Holds, now: int, i: nat)
    requires i <= |exs| && forall j :: 0 <= j < i ==> !Usable(exs[j], once, holds, now)
    requires i < |exs| ==> Usable(exs[i], once, holds, now)
    ensures Pick(exs, once, holds, now) == if i < |exs| then Some(exs[i]) else None
  {
    hide Eligible, Usable;
    if exs != [] {
      UsableIsEligible(exs[0], once, holds, now);
      if i > 0 {
        PickIsFirst(exs[1..], once, holds, now, i - 1);
      }
    }
  }

  /** The registry after each operation. */
  ghost function AfterSelect(s: Store, key: string, holds: Holds, now: int): Store {
    match Pick(At(s, key), s.once, holds, now)
    case None => s
    case Some(ex) => s.(once := s.once + if ex.once then {ex.onceID} else {})
  }

  function AfterAdd(s: Store, key: string, ex: Example): Store {
    s.(examples := s.examples[key := At(s, key) + [ex]])
  }

  ghost function AfterRemove(s: Store, id: string): Store {
    Store(if HasId(s, id) then s.once - {id} else s.once,
          map key | key in s.examples && Without(s.examples[key], id) != [] :: Without(s.examples[key], id))
  }

  ghost function AfterSweep(s: Store, now: int): Store {
    Store(set id | id in s.once && !HasExpiredId(s, id, now),
          map key | key in s.examples && Alive(s.examples[key], now) != [] :: Alive(s.examples[key], now))
  }

  class ExampleRegistry {
    var onceExamples: set<string>
    var dynamicExamples: map<string, seq<Example>>

    function View(): Store
      reads this
    {
      Store(onceExamples, dynamicExamples)
    }

    constructor ()
      ensures View() == Store({}, map[])
    {
      onceExamples, dynamicExamples := {}, map[];
    }

    method MarkOnceUsed(id: string)
      modifies this
      ensures View() == old(View()).(once := old(onceExamples) + {id})
    {
      onceExamples := onceExamples + {id};
    }

    method AddDynamic(key: string, ex: Example)
      modifies this
      ensures View() == AfterAdd(old(View()), key, ex)
    {
      var before := if key in dynamicExamples then dynamicExamples[key] else [];
      dynamicExamples := dynamicExamples[key := before + [ex]];
    }

    method SelectDynamic(key: string, holds: Holds, now: int) returns (selected: Option<Example>, index: nat)
      modifies this
      ensures selected == Pick(At(old(View()), key), old(onceExamples), holds, now)
      ensures var all := At(old(View()), key);
              && (selected.Some? ==>
                  index < |all| && all[index] == selected.value && Usable(all[index], old(onceExamples), holds, now))
              && forall j :: 0 <= j < (if selected.Some? then index else |all|) ==>
                  !Usable(all[j], old(onceExamples), holds, now)
      ensures View() == AfterSelect(old(View()), key, holds, now)
    {
      var examples := if key in dynamicExamples then dynamicExamples[key] else [];
      for idx := 0 to |examples|
        invariant View() == old(View())
        invariant Pick(examples, onceExamples, holds, now) == Pick(examples[idx..], onceExamples, holds, now)
        invariant forall j :: 0 <= j < idx ==> !Usable(examples[j], onceExamples, holds, now)
      {
        var ex := examples[idx];
        UsableIsEligible(ex, onceExamples, holds, now);
        assert examples[idx..][1..] == examples[idx + 1..];
        if !Eligible(ex, onceExamples, holds, now) {
          continue;
        }
        if ex.once {
          MarkOnceUsed(ex.onceID);
        }
        return Some(ex), idx;
      }
      return None, 0;
    }

    method RemoveDynamic(id: string) returns (removed: bool)
      modifies this
      ensures View() == AfterRemove(old(View()), id)
      ensures removed <==> HasId(old(View()), id)
    {
      hide AfterRemove, HasId, HasIdIn, Without;
      ghost var before := View();
      PartlyWithout(before, id);
      removed := false;
      var todo := dynamicExamples.Keys;
      while todo != {}
        invariant todo <= before.examples.Keys
        invariant dynamicExamples == Partly(before.examples, todo, exs => Without(exs, id))
        invariant removed <==> exists key :: key in before.examples.Keys - todo && HasIdIn(before.examples[key], id)
        invariant onceExamples == if removed then before.once - {id} else before.once
        decreases |todo|
      {
        var key :| key in todo;
        PartlyStep(before.examples, todo, key, exs => Without(exs, id));
        var kept, found := KeepOthers(dynamicExamples[key], id);
        removed := removed || found;
        if |kept| == 0 {
          dynamicExamples := dynamicExamples - {key};
        } else {
          dynamicExamples := dynamicExamples[key := kept];
        }
        todo := todo - {key};
      }
    }

    /** The inner loop of RemoveDynamic: one route list, compacted. */
    method KeepOthers(examples: seq<Example>, id: string) returns (kept: seq<Example>, found: bool)
      modifies this`onceExamples
      ensures kept == Without(examples, id) && (found <==> HasIdIn(examples, id))
      ensures onceExamples == if found then old(onceExamples) - {id} else old(onceExamples)
    {
      kept, found := [], false;
      for i := 0 to |examples|
        invariant kept == Without(examples[..i], id) && (found <==> HasIdIn(examples[..i], id))
        invariant onceExamples == if found then old(onceExamples) - {id} else old(onceExamples)
      {
        var ex := examples[i];
        WithoutSnoc(examples[..i], ex, id);
        assert examples[..i + 1] == examples[..i] + [ex];
        if ex.onceID == id {
          assert ex in examples[..i + 1];
          found := true;
          onceExamples := onceExamples - {id};
          continue;
        }
        kept := kept + [ex];
      }
      assert examples[..|examples|] == examples;
    }

    method SweepExpired(now: int)
      modifies this
      ensures View() == AfterSweep(old(View()), now)
    {
      hide AfterSweep, ExpiredIn, Alive;
      ghost var before := View();
      PartlyAlive(before, now);
      var todo := dynamicExamples.Keys;
      while todo != {}
        invariant todo <= before.examples.Keys
        invariant dynamicExamples == Partly(before.examples, todo, exs => Alive(exs, now))
        invariant forall id :: id in onceExamples <==>
                    id in before.once &&
                    !exists key :: key in before.examples.Keys - todo && ExpiredIn(before.examples[key], id, now)
        decreases |todo|
      {
        var key :| key in todo;
        PartlyStep(before.examples, todo, key, exs => Alive(exs, now));
        var kept := KeepAlive(dynamicExamples[key], now);
        if |kept| == 0 {
          dynamicExamples := dynamicExamples - {key};
        } else {
          dynamicExamples := dynamicExamples[key := kept];
        }
        todo := todo - {key};
      }
    }

    /** The inner loop of SweepExpired: one route list, with the markers of what it drops. */
    method KeepAlive(examples: seq<Example>, now: int) returns (kept: seq<Example>)
      modifies this`onceExamples
      ensures kept == Alive(examples, now)
      ensures forall id :: id in onceExamples <==> id in old(onceExamples) && !ExpiredIn(examples, id, now)
    {
      kept := [];
      for i := 0 to |examples|
        invariant kept == Alive(examples[..i], now)
        invariant forall id :: id in onceExamples <==> id in old(onceExamples) && !ExpiredIn(examples[..i], id, now)
      {
        var ex := examples[i];
        AliveSnoc(examples[..i], ex, now);
        ExpiredSnoc(examples[..i], ex, now);
        assert examples[..i + 1] == examples[..i] + [ex];
        if !Expired(ex, now) {
          kept := kept + [ex];
          continue;
        }
        onceExamples := onceExamples - {ex.onceID};
      }
      assert examples[..|examples|] == examples;
    }
  }

  ghost predicate HasIdIn(exs: seq<Example>, id: string) {
    exists ex :: ex in exs && ex.onceID == id
  }

  ghost predicate ExpiredIn(exs: seq<Example>, id: string, now: int) {
    exists ex :: ex in exs && ex.onceID == id && Expired(ex, now)
  }

  lemma ExpiredSnoc(exs: seq<Example>, ex: Example, now: int)
    ensures forall id :: ExpiredIn(exs + [ex], id, now) <==>
              ExpiredIn(exs, id, now) || (ex.onceID == id && Expired(ex, now))
  {
    assert ex in exs + [ex];
    assert forall e :: e in exs ==> e in exs + [ex];
  }

  /** Route lists outside `todo` have been rewritten by `keep`; lists that became empty are gone. */
  ghost function Partly(examples: map<string, seq<Example>>, todo: set<string>,
                        keep: seq<Example> -> seq<Example>): map<string, seq<Example>> {
    map key | key in examples && (key in todo || keep(examples[key]) != []) ::
      if key in todo then examples[key] else keep(examples[key])
  }

  lemma PartlyStep(examples: map<string, seq<Example>>, todo: set<string>, key: string,
                   keep: seq<Example> -> seq<Example>)
    requires key in todo && todo <= examples.Keys
    ensures var partly, kept := Partly(examples, todo, keep), keep(examples[key]);
            && key in partly && partly[key] == examples[key]
            && Partly(examples, todo - {key}, keep) == if kept == [] then partly - {key} else partly[key := kept]
  {
    var partly, kept := Partly(examples, todo, keep), keep(examples[key]);
    if kept == [] {
      assert Partly(examples, todo - {key}, keep) == partly - {key};
    } else {
      assert Partly(examples, todo - {key}, keep) == partly[key := kept];
    }
  }

  lemma PartlyWithout(s: Store, id: string)
    ensures Partly(s.examples, s.examples.Keys, exs => Without(exs, id)) == s.examples
    ensures Partly(s.examples, {}, exs => Without(exs, id)) == AfterRemove(s, id).examples
    ensures HasId(s, id) <==> exists key :: key in s.examples.Keys - {} && HasIdIn(s.examples[key], id)
    ensures AfterRemove(s, id).once == if HasId(s, id) then s.once - {id} else s.once
  {
    forall ex
      ensures Stored(s, ex) <==> exists key :: key in s.examples && ex in s.examples[key]
    {
      StoredByKey(s, ex);
    }
  }

  lemma StoredByKey(s: Store, ex: Example)
    ensures Stored(s, ex) <==> exists key :: key in s.examples && ex in s.examples[key]
  {
    if key :| key in s.examples && ex in s.examples[key] {
      assert ex in At(s, key);
    }
  }

  lemma PartlyAlive(s: Store, now: int)
    ensures Partly(s.examples, s.examples.Keys, exs => Alive(exs, now)) == s.examples
    ensures Partly(s.examples, {}, exs => Alive(exs, now)) == AfterSweep(s, now).examples
    ensures forall id :: id in AfterSweep(s, now).once <==>
              id in s.once && !exists key :: key in s.examples.Keys - {} && ExpiredIn(s.examples[key], id, now)
  {
    forall ex
      ensures Stored(s, ex) <==> exists key :: key in s.examples && ex in s.examples[key]
    {
      StoredByKey(s, ex);
    }
  }
}
