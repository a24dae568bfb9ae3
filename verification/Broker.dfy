/** The event subscription index (internal/eventbus/broker.go). */
module Broker {
  import opened Json
  import opened Seqs

  const ANY := "*"

  /** `messages` are the spec names of the deliverables, None where there is no spec. */
  datatype Subscription = Subscription(address: string, event: string, delay: int, schema: string,
      messages: seq<Option<string>>)

  function Key(sub: Subscription): string {
    if sub.event == "" then ANY else sub.event
  }

  predicate HasDeliverableNamed(sub: Subscription, target: string) {
    Some(target) in sub.messages
  }

  function Under(key: string): Subscription -> bool {
    (sub: Subscription) => Key(sub) == key
  }

  function InScope(schema: string, global: bool): Subscription -> bool {
    (sub: Subscription) => global || sub.schema == schema
  }

  function NotRuntime(schema: string, id: string): Subscription -> bool {
    (sub: Subscription) => !(sub.schema == schema && HasDeliverableNamed(sub, "runtime-" + id))
  }

  lemma NotRuntimeTest(sub: Subscription, schema: string, id: string)
    ensures NotRuntime(schema, id)(sub) <==> !(sub.schema == schema && HasDeliverableNamed(sub, "runtime-" + id))
  {
  }

  function Stamped(subs: seq<Subscription>, schema: string): (stamped: seq<Subscription>)
    ensures |stamped| == |subs| && forall i :: 0 <= i < |subs| ==> stamped[i] == subs[i].(schema := schema)
  {
    seq(|subs|, i requires 0 <= i < |subs| => subs[i].(schema := schema))
  }

  /** What the index answers, read off the live registrations in registration order. */
  function Resolved(live: seq<Subscription>, event: string, schema: string, global: bool): seq<Subscription> {
    Filter(Filter(live, Under(event)) + Filter(live, Under(ANY)), InScope(schema, global))
  }

  /** A slice header: the first `len` elements of a backing array that may be shared. */
  datatype Slice = Slice(backing: array<Subscription>, len: nat)

  class Broker {
    var byEvent: map<string, Slice>

    /** Every registration not removed yet, in registration order. */
    ghost var live: seq<Subscription>

    ghost function Backing(): set<array<Subscription>>
      reads this`byEvent
    {
      set key | key in byEvent :: byEvent[key].backing
    }

    ghost predicate Separate()
      reads this`byEvent
    {
      && (forall key :: key in byEvent ==> byEvent[key].len <= byEvent[key].backing.Length)
      && forall a, b :: a in byEvent && b in byEvent && a != b ==> byEvent[a].backing != byEvent[b].backing
    }

    ghost function At(key: string): seq<Subscription>
      requires Separate()
      reads this`byEvent, Backing()
    {
      if key in byEvent then byEvent[key].backing[..byEvent[key].len] else []
    }

    ghost predicate Valid()
      reads this, Backing()
    {
      && Separate()
      && forall key :: At(key) == Filter(live, Under(key))
    }

    lemma IndexedKeys()
      requires Separate()
      ensures forall key :: if key in byEvent then byEvent[key].backing in Backing() else At(key) == []
    {
    }

    constructor ()
      ensures Valid() && live == [] && Backing() == {}
    {
      byEvent, live := map[], [];
    }

    /** append(byEvent[key], sub): in place while there is room, otherwise into a larger copy. */
    method Append(key: string, sub: Subscription)
      requires Valid() && key == Key(sub)
      modifies this, Backing()
      ensures Valid() && live == old(live) + [sub]
      ensures fresh(Backing() - old(Backing()))
    {
      hide Filter;
      forall k
        ensures Filter(live + [sub], Under(k)) == Filter(live, Under(k)) + if k == key then [sub] else []
      {
        FilterSnoc(live, sub, Under(k));
      }
      if key in byEvent && byEvent[key].len < byEvent[key].backing.Length {
        AppendInPlace(key, sub);
      } else {
        AppendToCopy(key, sub);
      }
      live := live + [sub];
    }

    method AppendInPlace(key: string, sub: Subscription)
      requires Separate() && key in byEvent && byEvent[key].len < byEvent[key].backing.Length
      modifies this`byEvent, byEvent[key].backing
      ensures Separate() && Backing() <= old(Backing())
      ensures forall k :: At(k) == old(At(k)) + if k == key then [sub] else []
    {
      var s := byEvent[key];
      s.backing[s.len] := sub;
      byEvent := byEvent[key := Slice(s.backing, s.len + 1)];
    }

    method AppendToCopy(key: string, sub: Subscription)
      requires Separate()
      modifies this`byEvent
      ensures Separate() && fresh(Backing() - old(Backing()))
      ensures forall k :: At(k) == old(At(k)) + if k == key then [sub] else []
    {
      var before := if key in byEvent then byEvent[key].backing[..byEvent[key].len] else [];
      var n := |before|;
      var grown := new Subscription[2 * n + 1](i => if 0 <= i < n then before[i] else sub);
      byEvent := byEvent[key := Slice(grown, n + 1)];
      assert At(key) == before + [sub];
    }

    method AddSubscriptions(schema: string, subs: array<Subscription>)
      requires Valid() && subs !in Backing()
      modifies this, Backing(), subs
      ensures Valid() && fresh(Backing() - old(Backing()))
      ensures subs[..] == Stamped(old(subs[..]), schema)
      ensures live == old(live) + Stamped(old(subs[..]), schema)
    {
      hide Broker.Valid, Separate, At, Filter;
      ghost var stamped := Stamped(subs[..], schema);
      for i := 0 to subs.Length
        invariant Valid() && subs !in Backing() && fresh(Backing() - old(Backing()))
        invariant forall j :: 0 <= j < i ==> subs[j] == stamped[j]
        invariant forall j :: i <= j < subs.Length ==> subs[j] == old(subs[j])
        invariant live == old(live) + stamped[..i]
      {
        subs[i] := subs[i].(schema := schema);
        var key := if subs[i].event == "" then ANY else subs[i].event;
        Append(key, subs[i]);
        assert stamped[..i + 1] == stamped[..i] + [stamped[i]];
      }
      assert stamped[..subs.Length] == stamped;
    }

    method RemoveRuntimeExample(schema: string, id: string)
      requires Valid()
      modifies this, Backing()
      ensures Valid() && Backing() <= old(Backing())
      ensures live == Filter(old(live), NotRuntime(schema, id))
    {
      hide Filter, NotRuntime, Under, At, Separate, Backing;
      ghost var keep := NotRuntime(schema, id);
      ghost var left := Filter(live, keep);
      forall key
        ensures Filter(Filter(live, Under(key)), keep) == Filter(left, Under(key))
      {
        FilterSwap(live, Under(key), keep);
      }
      FilterNothing(keep);
      var todo := byEvent.Keys;
      IndexedKeys();
      while todo != {}
        invariant Separate() && todo <= byEvent.Keys && Backing() <= old(Backing())
        invariant live == old(live)
        invariant forall key :: key in todo ==> At(key) == Filter(live, Under(key))
        invariant forall key :: key !in todo ==> At(key) == Filter(left, Under(key))
        decreases |todo|
      {
        var key :| key in todo;
        IndexedKeys();
        RemoveUnder(key, schema, id);
        todo := todo - {key};
      }
      live := left;
    }

    /** One round of the removal: a key left without subscriptions is dropped from the index. */
    method RemoveUnder(key: string, schema: string, id: string)
      requires Separate() && key in byEvent
      modifies this`byEvent, byEvent[key].backing
      ensures Separate() && Backing() <= old(Backing()) && byEvent.Keys >= old(byEvent.Keys) - {key}
      ensures forall k :: At(k) == if k == key then Filter(old(At(k)), NotRuntime(schema, id)) else old(At(k))
    {
      hide Filter, NotRuntime;
      var n := Compact(key, schema, id);
      if n == 0 {
        byEvent := byEvent - {key};
      } else {
        byEvent := byEvent[key := Slice(byEvent[key].backing, n)];
      }
    }

    /** kept := subs[:0]; the survivors overwrite the front of the same backing array. */
    method Compact(key: string, schema: string, id: string) returns (n: nat)
      requires Separate() && key in byEvent
      modifies byEvent[key].backing
      ensures n <= byEvent[key].len
      ensures byEvent[key].backing[..n] == Filter(old(At(key)), NotRuntime(schema, id))
    {
      hide Filter, NotRuntime;
      var subs := byEvent[key];
      FilterNothing(NotRuntime(schema, id));
      var target := "runtime-" + id;
      ghost var keep := NotRuntime(schema, id);
      ghost var before := subs.backing[..subs.len];
      n := 0;
      for i := 0 to subs.len
        invariant n <= i
        invariant subs.backing[..n] == Filter(before[..i], keep)
        invariant forall j :: i <= j < subs.len ==> subs.backing[j] == before[j]
      {
        var sub := subs.backing[i];
        assert sub == before[i];
        FilterSnoc(before[..i], sub, keep);
        assert before[..i + 1] == before[..i] + [sub];
        NotRuntimeTest(sub, schema, id);
        if sub.schema == schema && HasDeliverableNamed(sub, target) {
          continue;
        }
        ghost var front := subs.backing[..n];
        subs.backing[n] := sub;
        assert subs.backing[..n + 1] == front + [sub];
        n := n + 1;
      }
      assert before[..subs.len] == before;
    }

    method ResolveSubscribers(event: string, firingSchema: string, global: bool) returns (out: Slice, count: nat)
      requires Valid()
      ensures fresh(out.backing) && out.len <= out.backing.Length
      ensures out.backing[..out.len] == Resolved(live, event, firingSchema, global)
      ensures count == out.len
    {
      hide Filter;
      var all := CopyOf(event);
      var wild := CopyOf(ANY);
      out := Scoped(all + wild, firingSchema, global);
      count := out.len;
    }

    /** The second half of ResolveSubscribers: a fresh list of what is in scope. */
    static method Scoped(all: seq<Subscription>, firingSchema: string, global: bool) returns (out: Slice)
      ensures fresh(out.backing) && out.len <= out.backing.Length
      ensures out.backing[..out.len] == Filter(all, InScope(firingSchema, global))
    {
      hide Filter;
      ghost var scope := InScope(firingSchema, global);
      FilterNothing(scope);
      var buffer := new Subscription[|all|](i requires 0 <= i < |all| => all[i]);
      var n := 0;
      for i := 0 to |all|
        invariant n <= i
        invariant buffer[..n] == Filter(all[..i], scope)
      {
        FilterSnoc(all[..i], all[i], scope);
        assert all[..i + 1] == all[..i] + [all[i]];
        if global || all[i].schema == firingSchema {
          buffer[n] := all[i];
          n := n + 1;
        }
      }
      assert all[..|all|] == all;
      out := Slice(buffer, n);
    }

    method CopyOf(key: string) returns (copied: seq<Subscription>)
      requires Valid()
      ensures copied == Filter(live, Under(key))
    {
      assert At(key) == Filter(live, Under(key));
      copied := if key in byEvent then byEvent[key].backing[..byEvent[key].len] else [];
    }

    method HasSubscribers(event: string, firingSchema: string, global: bool) returns (found: bool)
      requires Valid()
      ensures found <==> Resolved(live, event, firingSchema, global) != []
    {
      hide Filter;
      var all := CopyOf(event);
      var wild := CopyOf(ANY);
      all := all + wild;
      ghost var scope := InScope(firingSchema, global);
      FilterMembers(all, scope);
      for i := 0 to |all|
        invariant forall j :: 0 <= j < i ==> !scope(all[j])
      {
        if global || all[i].schema == firingSchema {
          assert all[i] in Filter(all, scope);
          return true;
        }
      }
      FilterNone(all, scope);
      return false;
    }
  }

  // ----- lists handed out -----

  /** One later call on the broker. */
  datatype Call = AddAll(schema: string, subs: seq<Subscription>) | RemoveExample(schema: string, id: string)

  /** The registrations after the calls. */
  function LiveAfter(live: seq<Subscription>, calls: seq<Call>): seq<Subscription>
    decreases |calls|
  {
    if calls == [] then live
    else
      var before := LiveAfter(live, calls[..|calls| - 1]);
      match calls[|calls| - 1]
      case AddAll(schema, subs) => before + Stamped(subs, schema)
      case RemoveExample(schema, id) => Filter(before, NotRuntime(schema, id))
  }

  method Perform(b: Broker, call: Call)
    requires b.Valid()
    modifies b, b.Backing()
    ensures b.Valid() && fresh(b.Backing() - old(b.Backing()))
    ensures b.live == match call
                      case AddAll(schema, subs) => old(b.live) + Stamped(subs, schema)
                      case RemoveExample(schema, id) => Filter(old(b.live), NotRuntime(schema, id))
  {
    hide Filter, NotRuntime;
    match call
    case AddAll(schema, subs) =>
      var given := new Subscription[|subs|](i requires 0 <= i < |subs| => subs[i]);
      assert given[..] == subs;
      b.AddSubscriptions(schema, given);
    case RemoveExample(schema, id) =>
      b.RemoveRuntimeExample(schema, id);
  }

  /**
   * A list already handed out stays what it was through any later run of additions and removals, although both write
   * into the backing arrays the list was read from; and what the broker then answers is read off the run alone.
   */
  method ResolveThenRun(b: Broker, event: string, schema: string, global: bool, calls: seq<Call>)
    returns (first: Slice, later: Slice)
    requires b.Valid()
    modifies b, b.Backing()
    ensures b.Valid() && b.live == LiveAfter(old(b.live), calls)
    ensures first.len <= first.backing.Length && later.len <= later.backing.Length
    ensures first.backing[..first.len] == Resolved(old(b.live), event, schema, global)
    ensures later.backing[..later.len] == Resolved(LiveAfter(old(b.live), calls), event, schema, global)
  {
    hide Broker.Valid, Resolved, Filter, Stamped, NotRuntime;
    var count;
    first, count := b.ResolveSubscribers(event, schema, global);
    for i := 0 to |calls|
      invariant b.Valid() && b.live == LiveAfter(old(b.live), calls[..i])
      invariant fresh(b.Backing() - old(b.Backing())) && first.backing !in b.Backing()
      invariant first.backing[..first.len] == Resolved(old(b.live), event, schema, global)
    {
      Perform(b, calls[i]);
      assert calls[..i + 1][..i] == calls[..i];
    }
    assert calls[..|calls|] == calls;
    later, count := b.ResolveSubscribers(event, schema, global);
  }

  // ----- each registration once -----

  function Wanted(event: string, schema: string, global: bool): Subscription -> bool {
    (sub: Subscription) => (Key(sub) == event || Key(sub) == ANY) && (global || sub.schema == schema)
  }

  /**
   * Every live registration of the event or of any event, in scope, is answered exactly once,
   * unless the event is itself named "*" and someone in scope listens to any event.
   */
  lemma EachRegistrationOnce(live: seq<Subscription>, event: string, schema: string, global: bool)
    ensures multiset(Resolved(live, event, schema, global)) == multiset(Filter(live, Wanted(event, schema, global)))
       <==> event != ANY || Filter(Filter(live, Under(ANY)), InScope(schema, global)) == []
  {
    var scope := InScope(schema, global);
    FilterAppend(Filter(live, Under(event)), Filter(live, Under(ANY)), scope);
    if event == ANY {
      var wild := Filter(Filter(live, Under(ANY)), scope);
      WantedIsWild(live, schema, global);
      if wild != [] {
        assert multiset(wild + wild)[wild[0]] == 2 * multiset(wild)[wild[0]];
        assert multiset(wild)[wild[0]] > 0;
      }
    } else {
      SplitWanted(live, event, schema, global);
    }
  }

  lemma {:induction false} SplitWanted(live: seq<Subscription>, event: string, schema: string, global: bool)
    requires event != ANY
    ensures multiset(Filter(Filter(live, Under(event)), InScope(schema, global)))
          + multiset(Filter(Filter(live, Under(ANY)), InScope(schema, global)))
         == multiset(Filter(live, Wanted(event, schema, global)))
  {
    hide Filter;
    if live == [] {
      FilterNothing(Wanted(event, schema, global));
      FilterNothing(Under(event));
      FilterNothing(Under(ANY));
      FilterNothing(InScope(schema, global));
    } else {
      FilterCons(live, Wanted(event, schema, global));
      SplitWanted(live[1..], event, schema, global);
      FilterOfFiltered(live, Under(event), InScope(schema, global));
      FilterOfFiltered(live, Under(ANY), InScope(schema, global));
    }
  }

  lemma {:induction false} WantedIsWild(live: seq<Subscription>, schema: string, global: bool)
    ensures Filter(live, Wanted(ANY, schema, global)) == Filter(Filter(live, Under(ANY)), InScope(schema, global))
  {
    if live != [] {
      WantedIsWild(live[1..], schema, global);
      FilterOfFiltered(live, Under(ANY), InScope(schema, global));
    }
  }

  // ----- who is asked and who is removed -----

  /** A registration names an event, "*" or nothing; the last two listen to every event. */
  lemma ListensTo(live: seq<Subscription>, event: string, schema: string, global: bool, sub: Subscription)
    ensures sub in Resolved(live, event, schema, global) <==>
              && sub in live
              && (global || sub.schema == schema)
              && (sub.event == event || sub.event == "*" || sub.event == "")
  {
    var both := Filter(live, Under(event)) + Filter(live, Under(ANY));
    FilterMembers(both, InScope(schema, global));
    FilterMembers(live, Under(event));
    FilterMembers(live, Under(ANY));
    assert "*" == ANY;
  }

  /** The event's own registrations come first, those to any event behind them, each in the order they were made. */
  lemma AnswersInOrder(live: seq<Subscription>, event: string, schema: string)
    ensures Resolved(live, event, schema, true) == Named(live, event) + Named(live, "*")
  {
    FilterAppend(Filter(live, Under(event)), Filter(live, Under(ANY)), InScope(schema, true));
    hide Filter;
    NamedIsUnder(live, event, schema);
    NamedIsUnder(live, "*", schema);
  }

  /** The registrations that name the event, or leave it out where `event` is "*". */
  function Named(live: seq<Subscription>, event: string): seq<Subscription> {
    if live == [] then []
    else
      var rest, last := live[..|live| - 1], live[|live| - 1];
      Named(rest, event) + if (if last.event == "" then "*" else last.event) == event then [last] else []
  }

  lemma {:induction false} NamedIsUnder(live: seq<Subscription>, event: string, schema: string)
    ensures Filter(Filter(live, Under(event)), InScope(schema, true)) == Named(live, event)
  {
    hide Filter, InScope;
    FilterNothing(Under(event));
    FilterNothing(InScope(schema, true));
    if live != [] {
      var rest, last := live[..|live| - 1], live[|live| - 1];
      NamedIsUnder(rest, event, schema);
      assert live == rest + [last];
      FilterSnoc(rest, last, Under(event));
      FilterSnoc(Filter(rest, Under(event)), last, InScope(schema, true));
      assert InScope(schema, true)(last) by { GlobalIsInScope(schema, last); }
      if !Under(event)(last) {
        assert Filter(live, Under(event)) == Filter(rest, Under(event));
      }
    }
  }

  lemma GlobalIsInScope(schema: string, sub: Subscription)
    ensures InScope(schema, true)(sub)
  {
  }

  /** What a removal leaves: everything but the schema's registrations with a deliverable named after the example. */
  lemma SurvivesRemoval(live: seq<Subscription>, schema: string, id: string, sub: Subscription)
    ensures sub in Filter(live, NotRuntime(schema, id)) <==>
              && sub in live
              && (sub.schema == schema ==>
                  forall i :: 0 <= i < |sub.messages| ==> sub.messages[i] != Some("runtime-" + id))
  {
    FilterMembers(live, NotRuntime(schema, id));
    hide Filter;
    NotRuntimeTest(sub, schema, id);
  }
}
