/** What holds over whole runs of the example registry (internal/server/registry.go). */
module ExampleRuns {
  import opened Json
  import opened ExampleRegistry

  datatype Op =
    | Add(key: string, ex: Example)
    | Select(key: string, holds: Holds)
    | Remove(id: string)
    | Sweep
    | MarkStatic(id: string)

  datatype Step = Step(now: int, op: Op)

  ghost function Apply(s: Store, step: Step): Store {
    match step.op
    case Add(key, ex) => AfterAdd(s, key, ex)
    case Select(key, holds) => AfterSelect(s, key, holds, step.now)
    case Remove(id) => AfterRemove(s, id)
    case Sweep => AfterSweep(s, step.now)
    case MarkStatic(id) => s.(once := s.once + {id})
  }

  ghost function After(steps: seq<Step>): Store {
    if steps == [] then Store({}, map[]) else Apply(After(steps[..|steps| - 1]), steps[|steps| - 1])
  }

  /** The example a selection answers with. */
  ghost function Answer(s: Store, step: Step): Option<Example> {
    match step.op
    case Select(key, holds) => Pick(At(s, key), s.once, holds, step.now)
    case _ => None
  }

  ghost predicate Added(steps: seq<Step>, ex: Example) {
    exists i :: 0 <= i < |steps| && steps[i].op.Add? && steps[i].op.ex == ex
  }

  /** Ids of injected examples are never reused; only ids of static examples contain a colon. */
  ghost predicate GoodIds(steps: seq<Step>) {
    && (forall i :: 0 <= i < |steps| && steps[i].op.Add? ==> ':' !in steps[i].op.ex.onceID)
    && (forall i :: 0 <= i < |steps| && steps[i].op.MarkStatic? ==> ':' in steps[i].op.id)
    && forall i, j :: 0 <= i < j < |steps| && steps[i].op.Add? && steps[j].op.Add? ==>
         steps[i].op.ex.onceID != steps[j].op.ex.onceID
  }

  ghost predicate Advancing(steps: seq<Step>) {
    forall i, j :: 0 <= i < j < |steps| ==> steps[i].now <= steps[j].now
  }

  ghost predicate Run(steps: seq<Step>) {
    GoodIds(steps) && Advancing(steps)
  }

  // ----- what is stored was added once -----

  ghost predicate FromRun(s: Store, steps: seq<Step>) {
    && (forall ex :: Stored(s, ex) ==> Added(steps, ex))
    && (forall id :: id in s.once ==> ':' in id || exists ex :: Added(steps, ex) && ex.onceID == id)
  }

  ghost predicate UniqueIds(s: Store) {
    forall a, b :: Stored(s, a) && Stored(s, b) && a.onceID == b.onceID ==> a == b
  }

  lemma AddedOnce(steps: seq<Step>, a: Example, b: Example)
    requires GoodIds(steps) && Added(steps, a) && Added(steps, b) && a.onceID == b.onceID
    ensures a == b
  {
  }

  lemma AddedLater(steps: seq<Step>, more: seq<Step>, ex: Example)
    requires Added(steps, ex)
    ensures Added(steps + more, ex)
  {
    var i :| 0 <= i < |steps| && steps[i].op.Add? && steps[i].op.ex == ex;
    assert (steps + more)[i] == steps[i];
  }

  lemma StoredAfter(s: Store, step: Step, ex: Example)
    requires Stored(Apply(s, step), ex)
    ensures Stored(s, ex) || (step.op.Add? && step.op.ex == ex)
  {
    var key :| ex in At(Apply(s, step), key);
    match step.op
    case Add(k, e) => assert ex in At(s, key) || ex == e;
    case Remove(id) => InWithout(At(s, key), id);
    case Sweep => InAlive(At(s, key), step.now);
    case Select(_, _) => SameLists(s, step);
    case MarkStatic(_) => SameLists(s, step);
  }

  /** Selecting and marking leave the lists alone. */
  lemma SameLists(s: Store, step: Step)
    requires step.op.Select? || step.op.MarkStatic?
    ensures forall key :: At(Apply(s, step), key) == At(s, key)
  {
    assert Apply(s, step).examples == s.examples;
  }

  lemma MarkedAfter(s: Store, step: Step, id: string)
    requires id in Apply(s, step).once
    ensures id in s.once || step.op == MarkStatic(id) || exists ex :: Stored(s, ex) && ex.onceID == id
  {
    match step.op
    case Select(key, holds) =>
      var picked := Pick(At(s, key), s.once, holds, step.now);
      if picked.Some? {
        assert Stored(s, picked.value);
      }
    case _ =>
  }

  lemma {:induction false} StoreComesFromRun(steps: seq<Step>)
    requires GoodIds(steps)
    ensures FromRun(After(steps), steps)
    decreases |steps|
  {
    if steps != [] {
      var before, last := steps[..|steps| - 1], steps[|steps| - 1];
      assert steps == before + [last];
      StoreComesFromRun(before);
      FromRunStep(before, last);
    }
  }

  lemma FromRunStep(before: seq<Step>, last: Step)
    requires GoodIds(before + [last]) && FromRun(After(before), before)
    ensures FromRun(Apply(After(before), last), before + [last])
  {
    hide Apply, GoodIds;
    var s, steps := After(before), before + [last];
    assert steps[|before|] == last;
    forall ex | Added(before, ex)
      ensures Added(steps, ex)
    {
      AddedLater(before, [last], ex);
    }
    forall ex | Stored(Apply(s, last), ex)
      ensures Added(steps, ex)
    {
      StoredAfter(s, last, ex);
    }
    forall id | id in Apply(s, last).once
      ensures ':' in id || exists ex :: Added(steps, ex) && ex.onceID == id
    {
      MarkedAfter(s, last, id);
      StaticHasColon(steps, |before|);
    }
  }

  lemma StaticHasColon(steps: seq<Step>, i: nat)
    requires GoodIds(steps) && i < |steps|
    ensures steps[i].op.MarkStatic? ==> ':' in steps[i].op.id
    ensures steps[i].op.Add? ==> ':' !in steps[i].op.ex.onceID
  {
  }

  lemma RunStoresUniqueIds(steps: seq<Step>)
    requires GoodIds(steps)
    ensures UniqueIds(After(steps))
  {
    StoreComesFromRun(steps);
    forall a, b | Stored(After(steps), a) && Stored(After(steps), b) && a.onceID == b.onceID
      ensures a == b
    {
      AddedOnce(steps, a, b);
    }
  }

  lemma GoodPrefix(steps: seq<Step>, n: nat)
    requires GoodIds(steps) && n <= |steps|
    ensures GoodIds(steps[..n])
  {
  }

  // ----- once means once -----

  /** Whatever of that id is still stored is marked. */
  ghost predicate Spent(s: Store, id: string) {
    forall ex :: Stored(s, ex) && ex.onceID == id ==> id in s.once
  }

  lemma AnswerSpends(s: Store, step: Step, ex: Example)
    requires Answer(s, step) == Some(ex) && ex.once
    ensures Stored(s, ex) && Spent(Apply(s, step), ex.onceID)
  {
    assert ex in At(s, step.op.key);
  }

  lemma {:induction false} StaysSpent(steps: seq<Step>, i: nat, ex: Example)
    requires GoodIds(steps) && i < |steps|
    requires Answer(After(steps[..i]), steps[i]) == Some(ex) && ex.once
    ensures Spent(After(steps), ex.onceID) && Added(steps, ex)
    decreases |steps|
  {
    hide Apply, GoodIds, UniqueIds;
    var before, last := steps[..|steps| - 1], steps[|steps| - 1];
    assert steps == before + [last];
    var s := After(before);
    GoodPrefix(steps, |before|);
    StoreComesFromRun(before);
    RunStoresUniqueIds(before);
    if i == |before| {
      AnswerSpends(s, last, ex);
      AddedLater(before, [last], ex);
    } else {
      assert before[..i] == steps[..i];
      StaysSpent(before, i, ex);
      AddedLater(before, [last], ex);
      forall e | Stored(Apply(s, last), e) && e.onceID == ex.onceID
        ensures ex.onceID in Apply(s, last).once
      {
        StoredAfter(s, last, e);
        if last.op.Add? && last.op.ex == e {
          assert steps[|before|] == last;
          assert Added(steps, e);
          FreshIsNew(steps, ex);
        }
        MarkerSurvives(s, last, e);
      }
    }
  }

  /** The example added by the last step has an id no earlier example had. */
  lemma FreshIsNew(steps: seq<Step>, earlier: Example)
    requires GoodIds(steps) && steps != [] && steps[|steps| - 1].op.Add?
    requires Added(steps[..|steps| - 1], earlier)
    ensures earlier.onceID != steps[|steps| - 1].op.ex.onceID
  {
    var i :| 0 <= i < |steps| - 1 && steps[..|steps| - 1][i].op.Add? && steps[..|steps| - 1][i].op.ex == earlier;
    assert steps[i].op.ex == earlier;
  }

  lemma MarkerSurvives(s: Store, step: Step, e: Example)
    requires e.onceID in s.once && Stored(Apply(s, step), e)
    requires UniqueIds(s)
    ensures e.onceID in Apply(s, step).once
  {
    var key :| e in At(Apply(s, step), key);
    match step.op
    case Remove(id) => InWithout(At(s, key), id);
    case Sweep =>
      InAlive(At(s, key), step.now);
      assert Stored(s, e);
    case _ =>
  }

  /**
   * Over every run, an injected one-time example is answered by at most one selection,
   * and no selection answers with an example at or after its expiry.
   */
  lemma OnceAtMostOnce(steps: seq<Step>, i: nat, j: nat)
    requires Run(steps) && i < j < |steps|
    requires Answer(After(steps[..i]), steps[i]).Some? && Answer(After(steps[..j]), steps[j]).Some?
    ensures var a, b := Answer(After(steps[..i]), steps[i]).value, Answer(After(steps[..j]), steps[j]).value;
            && (a.once ==> a.onceID != b.onceID)
            && !Expired(a, steps[i].now) && !Expired(b, steps[j].now)
  {
    var a, b := Answer(After(steps[..i]), steps[i]).value, Answer(After(steps[..j]), steps[j]).value;
    if a.once {
      var before := steps[..j];
      GoodPrefix(steps, j);
      assert before[..i] == steps[..i] && before[i] == steps[i];
      StaysSpent(before, i, a);
      StoreComesFromRun(before);
      assert Stored(After(before), b);
      if a.onceID == b.onceID {
        AddedOnce(before, a, b);
        assert false;
      }
    }
  }

  // ----- sweeping cannot be noticed -----

  lemma {:induction false} AliveTwice(exs: seq<Example>, now: int, later: int)
    requires now <= later
    ensures Alive(Alive(exs, now), later) == Alive(exs, later)
  {
    if exs != [] {
      AliveTwice(exs[1..], now, later);
      if !Expired(exs[0], now) {
        assert Alive(exs, now)[1..] == Alive(exs[1..], now);
      } else {
        assert Alive(exs, now) == Alive(exs[1..], now);
      }
    }
  }

  lemma {:induction false} AliveWithout(exs: seq<Example>, id: string, now: int)
    ensures Alive(Without(exs, id), now) == Without(Alive(exs, now), id)
  {
    if exs != [] {
      AliveWithout(exs[1..], id, now);
      var head := [exs[0]];
      if exs[0].onceID != id && !Expired(exs[0], now) {
        assert Without(exs, id)[1..] == Without(exs[1..], id);
        assert Alive(exs, now)[1..] == Alive(exs[1..], now);
      } else if exs[0].onceID != id {
        assert Without(exs, id)[1..] == Without(exs[1..], id);
        assert Alive(exs, now) == Alive(exs[1..], now);
      } else if !Expired(exs[0], now) {
        assert Alive(exs, now)[1..] == Alive(exs[1..], now);
        assert Without(exs, id) == Without(exs[1..], id);
      } else {
        assert Without(exs, id) == Without(exs[1..], id);
        assert Alive(exs, now) == Alive(exs[1..], now);
      }
    }
  }

  lemma {:induction false} PickAlive(exs: seq<Example>, once: set<string>, holds: Holds, now: int)
    ensures Pick(Alive(exs, now), once, holds, now) == Pick(exs, once, holds, now)
  {
    if exs != [] {
      PickAlive(exs[1..], once, holds, now);
      if !Expired(exs[0], now) {
        assert Alive(exs, now)[1..] == Alive(exs[1..], now);
      } else {
        assert Alive(exs, now) == Alive(exs[1..], now);
      }
    }
  }

  lemma {:induction false} PickAgrees(exs: seq<Example>, once: set<string>, once': set<string>, holds: Holds, now: int)
    requires forall ex :: ex in exs ==> (ex.onceID in once <==> ex.onceID in once')
    ensures Pick(exs, once, holds, now) == Pick(exs, once', holds, now)
  {
    if exs != [] {
      PickAgrees(exs[1..], once, once', holds, now);
    }
  }

  /** From `now` on the two stores cannot be told apart by selecting. */
  ghost predicate Alike(s: Store, s': Store, now: int) {
    && (forall key :: Alive(At(s, key), now) == Alive(At(s', key), now))
    && (forall ex :: Stored(s, ex) && !Expired(ex, now) ==> (ex.onceID in s.once <==> ex.onceID in s'.once))
  }

  lemma StoredAlive(s: Store, s': Store, now: int, ex: Example)
    requires Alike(s, s', now) && !Expired(ex, now)
    ensures Stored(s, ex) <==> Stored(s', ex)
  {
    if key :| ex in At(s, key) {
      InAlive(At(s, key), now);
      InAlive(At(s', key), now);
    }
    if key :| ex in At(s', key) {
      InAlive(At(s, key), now);
      InAlive(At(s', key), now);
    }
  }

  lemma StayAlike(s: Store, s': Store, now: int, later: int)
    requires Alike(s, s', now) && now <= later
    ensures Alike(s, s', later)
  {
    forall key
      ensures Alive(At(s, key), later) == Alive(At(s', key), later)
    {
      AliveTwice(At(s, key), now, later);
      AliveTwice(At(s', key), now, later);
    }
  }

  lemma SweepIsAlike(s: Store, now: int)
    requires UniqueIds(s)
    ensures Alike(s, AfterSweep(s, now), now)
  {
    forall key
      ensures Alive(At(s, key), now) == Alive(At(AfterSweep(s, now), key), now)
    {
      SweptList(s, now, key);
      AliveTwice(At(s, key), now, now);
    }
  }

  lemma SweptList(s: Store, now: int, key: string)
    ensures At(AfterSweep(s, now), key) == Alive(At(s, key), now)
  {
  }

  lemma RemovedList(s: Store, id: string, key: string)
    ensures At(AfterRemove(s, id), key) == Without(At(s, key), id)
  {
  }

  lemma AlikeAnswers(s: Store, s': Store, step: Step)
    requires Alike(s, s', step.now)
    ensures Answer(s, step) == Answer(s', step)
  {
    if step.op.Select? {
      var key, holds, now := step.op.key, step.op.holds, step.now;
      PickAlive(At(s, key), s.once, holds, now);
      PickAlive(At(s', key), s'.once, holds, now);
      InAlive(At(s, key), now);
      forall ex | ex in Alive(At(s, key), now)
        ensures ex.onceID in s.once <==> ex.onceID in s'.once
      {
        assert Stored(s, ex);
      }
      PickAgrees(Alive(At(s, key), now), s.once, s'.once, holds, now);
    }
  }

  lemma StepKeepsAlike(s: Store, s': Store, step: Step)
    requires Alike(s, s', step.now) && UniqueIds(s) && UniqueIds(s')
    requires step.op.Add? ==> step.op.ex.onceID !in s.once && step.op.ex.onceID !in s'.once
    ensures Alike(Apply(s, step), Apply(s', step), step.now)
  {
    AlikeAnswers(s, s', step);
    forall key
      ensures Alive(At(Apply(s, step), key), step.now) == Alive(At(Apply(s', step), key), step.now)
    {
      ListsStayAlike(s, s', step, key);
    }
    forall ex | Stored(Apply(s, step), ex) && !Expired(ex, step.now)
      ensures ex.onceID in Apply(s, step).once <==> ex.onceID in Apply(s', step).once
    {
      MarkersStayAlike(s, s', step, ex);
    }
  }

  lemma ListsStayAlike(s: Store, s': Store, step: Step, key: string)
    requires Alike(s, s', step.now)
    ensures Alive(At(Apply(s, step), key), step.now) == Alive(At(Apply(s', step), key), step.now)
  {
    match step.op
    case Add(k, ex) =>
      AliveSnoc(At(s, key), ex, step.now);
      AliveSnoc(At(s', key), ex, step.now);
    case Remove(id) =>
      RemovedList(s, id, key);
      RemovedList(s', id, key);
      AliveWithout(At(s, key), id, step.now);
      AliveWithout(At(s', key), id, step.now);
    case Sweep =>
      SweptList(s, step.now, key);
      SweptList(s', step.now, key);
    case Select(_, _) =>
      SameLists(s, step);
      SameLists(s', step);
    case MarkStatic(_) =>
      SameLists(s, step);
      SameLists(s', step);
  }

  lemma MarkersStayAlike(s: Store, s': Store, step: Step, ex: Example)
    requires Alike(s, s', step.now) && UniqueIds(s) && UniqueIds(s')
    requires Answer(s, step) == Answer(s', step)
    requires step.op.Add? ==> step.op.ex.onceID !in s.once && step.op.ex.onceID !in s'.once
    requires Stored(Apply(s, step), ex) && !Expired(ex, step.now)
    ensures ex.onceID in Apply(s, step).once <==> ex.onceID in Apply(s', step).once
  {
    hide Alike, Stored, Pick, Eligible, Without, Alive, At, UniqueIds, AfterSweep, AfterRemove;
    StoredAfter(s, step, ex);
    StoredAlive(s, s', step.now, ex);
    NotTheRemoved(s, step, ex);
    MarkedAlike(s, s', step.now, ex);
    match step.op
    case Remove(id) => RemovedMarker(s, s', id, ex);
    case Sweep => SweptMarkers(s, s', step.now, ex);
    case _ =>
  }

  lemma MarkedAlike(s: Store, s': Store, now: int, ex: Example)
    requires Alike(s, s', now) && !Expired(ex, now)
    ensures Stored(s, ex) ==> (ex.onceID in s.once <==> ex.onceID in s'.once)
  {
  }

  lemma RemovedMarker(s: Store, s': Store, id: string, ex: Example)
    requires ex.onceID != id
    ensures ex.onceID in AfterRemove(s, id).once <==> ex.onceID in s.once
    ensures ex.onceID in AfterRemove(s', id).once <==> ex.onceID in s'.once
  {
  }

  lemma NotTheRemoved(s: Store, step: Step, ex: Example)
    requires Stored(Apply(s, step), ex)
    ensures step.op.Remove? ==> ex.onceID != step.op.id
  {
    if step.op.Remove? {
      var key :| ex in At(Apply(s, step), key);
      RemovedList(s, step.op.id, key);
      InWithout(At(s, key), step.op.id);
    }
  }

  lemma SweptMarkers(s: Store, s': Store, now: int, ex: Example)
    requires UniqueIds(s) && UniqueIds(s') && Stored(s, ex) && Stored(s', ex) && !Expired(ex, now)
    requires ex.onceID in s.once <==> ex.onceID in s'.once
    ensures ex.onceID in AfterSweep(s, now).once <==> ex.onceID in AfterSweep(s', now).once
  {
    hide Stored;
  }

  lemma FreshIsUnmarked(steps: seq<Step>, last: Step)
    requires GoodIds(steps + [last]) && last.op.Add?
    ensures last.op.ex.onceID !in After(steps).once
  {
    var all := steps + [last];
    assert all[|steps|] == last && all[..|all| - 1] == steps;
    assert GoodIds(steps) by {
      assert forall i :: 0 <= i < |steps| ==> steps[i] == all[i];
    }
    StoreComesFromRun(steps);
    forall ex | Added(steps, ex)
      ensures ex.onceID != last.op.ex.onceID
    {
      FreshIsNew(all, ex);
    }
  }

  /** The run without its `k`th step. */
  function Skip(steps: seq<Step>, k: nat): seq<Step>
    requires k < |steps|
  {
    steps[..k] + steps[k + 1..]
  }

  lemma SkipKeepsGoodIds(steps: seq<Step>, k: nat)
    requires GoodIds(steps) && k < |steps|
    ensures GoodIds(Skip(steps, k))
  {
    var fewer := Skip(steps, k);
    assert forall i :: 0 <= i < |fewer| ==> fewer[i] == steps[if i < k then i else i + 1];
  }

  /** A sweep anywhere in a run changes no later answer. */
  lemma SweepIsInvisible(steps: seq<Step>, k: nat, j: nat)
    requires Run(steps) && k < j < |steps| && steps[k].op == Sweep
    ensures Answer(After(Skip(steps[..j], k)), steps[j]) == Answer(After(steps[..j]), steps[j])
  {
    var swept := steps[..j];
    GoodPrefix(steps, j);
    assert Run(swept);
    SweptRunsAlike(swept, k);
    StayAlike(After(Skip(swept, k)), After(swept), swept[j - 1].now, steps[j].now);
    AlikeAnswers(After(Skip(swept, k)), After(swept), steps[j]);
  }

  lemma {:induction false} SweptRunsAlike(swept: seq<Step>, k: nat)
    requires Run(swept) && k < |swept| && swept[k].op == Sweep
    ensures Alike(After(Skip(swept, k)), After(swept), swept[|swept| - 1].now)
    decreases |swept|
  {
    hide Alike, UniqueIds, GoodIds, After, Apply;
    var n := |swept| - 1;
    var before, last := swept[..n], swept[n];
    GoodPrefix(swept, n);
    UnfoldAfter(swept);
    if k == n {
      assert Skip(swept, k) == before;
      RunStoresUniqueIds(before);
      SweepIsAlike(After(before), last.now);
      SweepStep(After(before), last);
    } else {
      var plain := Skip(swept, k);
      assert plain[..n - 1] == Skip(before, k) && plain[n - 1] == last;
      UnfoldAfter(plain);
      SkipKeepsGoodIds(before, k);
      SkipKeepsGoodIds(swept, k);
      SweptRunsAlike(before, k);
      StayAlike(After(Skip(before, k)), After(before), before[n - 1].now, last.now);
      RunStoresUniqueIds(Skip(before, k));
      RunStoresUniqueIds(before);
      if last.op.Add? {
        assert plain == Skip(before, k) + [last] && swept == before + [last];
        FreshIsUnmarked(Skip(before, k), last);
        FreshIsUnmarked(before, last);
      }
      StepKeepsAlike(After(Skip(before, k)), After(before), last);
    }
  }

  lemma UnfoldAfter(steps: seq<Step>)
    requires steps != []
    ensures After(steps) == Apply(After(steps[..|steps| - 1]), steps[|steps| - 1])
  {
  }

  lemma SweepStep(s: Store, step: Step)
    requires step.op == Sweep
    ensures Apply(s, step) == AfterSweep(s, step.now)
  {
  }

  /** Sweeping never touches the marker of a static example. */
  lemma SweepKeepsStaticMarkers(steps: seq<Step>, t: int, id: string)
    requires GoodIds(steps) && ':' in id
    ensures id in AfterSweep(After(steps), t).once <==> id in After(steps).once
  {
    StoreComesFromRun(steps);
    forall ex | Stored(After(steps), ex)
      ensures ex.onceID != id
    {
      var i :| 0 <= i < |steps| && steps[i].op.Add? && steps[i].op.ex == ex;
    }
  }
}
