/** Interval jobs, their stop channels and their run loops (internal/eventbus/scheduler.go). */
module Scheduling {

  /** One *ScheduledJob: `handle` tells job objects apart, `id` is the key they compete for. */
  datatype Job = Job(handle: nat, id: string)

  /** The job map, and for every stop channel that was made how often close was called on it. */
  datatype Registry = Registry(jobs: map<string, Job>, closes: map<Job, nat>)

  predicate IsOpen(r: Registry, job: Job) {
    job in r.closes && r.closes[job] == 0
  }

  predicate IsClosed(r: Registry, job: Job) {
    job in r.closes && r.closes[job] > 0
  }

  predicate Registered(r: Registry, job: Job) {
    job.id in r.jobs && r.jobs[job.id] == job
  }

  /** No channel is closed twice, and a job is registered exactly while its channel is open. */
  ghost predicate Sound(r: Registry) {
    && (forall id :: id in r.jobs ==> r.jobs[id].id == id && r.jobs[id] in r.closes)
    && (forall job :: job in r.closes ==> r.closes[job] <= 1)
    && (forall job :: job in r.closes ==> (IsOpen(r, job) <==> Registered(r, job)))
  }

  function Close(closes: map<Job, nat>, job: Job): map<Job, nat>
    requires job in closes
  {
    closes[job := closes[job] + 1]
  }

  /** A job object keeps the channel it has; whatever is registered under its id is closed, be it the job itself. */
  ghost function AfterAdd(r: Registry, job: Job): Registry
  {
    Registry(r.jobs[job.id := job],
             map j | j in r.closes.Keys + {job} ::
               (if j in r.closes then r.closes[j] else 0) + if Registered(r, j) && j.id == job.id then 1 else 0)
  }

  ghost function AfterCancel(r: Registry, id: string): Registry {
    Registry(r.jobs - {id}, map j | j in r.closes :: r.closes[j] + if Registered(r, j) && j.id == id then 1 else 0)
  }

  ghost function AfterShutdown(r: Registry): Registry {
    Registry(map[], map j | j in r.closes :: r.closes[j] + if Registered(r, j) then 1 else 0)
  }

  lemma Entry(r: Registry, id: string)
    requires Sound(r) && id in r.jobs
    ensures r.jobs[id].id == id && IsOpen(r, r.jobs[id]) && Registered(r, r.jobs[id])
  {
  }

  /** Adding is safe for a job object never added before, and for no other. */
  lemma AddKeepsSound(r: Registry, job: Job)
    requires Sound(r)
    ensures Sound(AfterAdd(r, job)) <==> job !in r.closes
  {
    var after := AfterAdd(r, job);
    assert Registered(after, job);
    assert job in r.closes ==> !IsOpen(after, job);
  }

  /** A job object added a second time is registered with a closed channel, and its next removal closes it again. */
  lemma SecondAddClosesTwice(r: Registry, job: Job)
    requires Sound(r) && job in r.closes
    ensures var again := AfterAdd(r, job);
            && Registered(again, job) && again.closes[job] == 1
            && AfterCancel(again, job.id).closes[job] == 2
            && AfterShutdown(again).closes[job] == 2
  {
    assert IsOpen(r, job) <==> Registered(r, job);
  }

  lemma CancelKeepsSound(r: Registry, id: string)
    requires Sound(r)
    ensures Sound(AfterCancel(r, id))
  {
  }

  lemma ShutdownKeepsSound(r: Registry)
    requires Sound(r)
    ensures Sound(AfterShutdown(r))
  {
  }

  class Scheduler {
    var jobs: map<string, Job>
    var closes: map<Job, nat>

    function View(): Registry
      reads this
    {
      Registry(jobs, closes)
    }

    ghost predicate Valid()
      reads this
    {
      Sound(View())
    }

    constructor ()
      ensures Valid() && View() == Registry(map[], map[])
    {
      jobs, closes := map[], map[];
    }

    method Add(job: Job)
      requires Valid()
      modifies this
      ensures View() == AfterAdd(old(View()), job)
      ensures Valid() <==> job !in old(closes)
    {
      hide Sound;
      AddKeepsSound(View(), job);
      if job !in closes {
        closes := closes[job := 0];
      }
      if job.id in jobs {
        Entry(old(View()), job.id);
        var existing := jobs[job.id];
        jobs := jobs - {job.id};
        closes := Close(closes, existing);
      }
      jobs := jobs[job.id := job];
      assert jobs == old(jobs)[job.id := job];
      assert closes == AfterAdd(old(View()), job).closes;
    }

    method Cancel(id: string) returns (job: Job, cancelled: bool)
      requires Valid()
      modifies this
      ensures Valid() && View() == AfterCancel(old(View()), id)
      ensures cancelled <==> id in old(jobs)
      ensures cancelled ==> job == old(jobs)[id] && IsClosed(View(), job)
    {
      hide Sound;
      CancelKeepsSound(View(), id);
      if id !in jobs {
        assert closes == AfterCancel(View(), id).closes;
        return Job(0, id), false;
      }
      Entry(View(), id);
      job := jobs[id];
      jobs := jobs - {id};
      closes := Close(closes, job);
      assert closes == AfterCancel(old(View()), id).closes;
      return job, true;
    }

    method Shutdown()
      requires Valid()
      modifies this
      ensures Valid() && View() == AfterShutdown(old(View()))
    {
      hide Sound, PartlyShutDown, AfterShutdown;
      ShutdownKeepsSound(View());
      ghost var before := View();
      ShutdownEnds(before);
      while jobs != map[]
        invariant PartlyShutDown(before, jobs, closes)
        decreases |jobs|
      {
        var id :| id in jobs;
        var job := jobs[id];
        ShutdownStep(before, jobs, closes, id);
        assert |jobs - {id}| < |jobs|;
        jobs := jobs - {id};
        closes := Close(closes, job);
      }
    }
  }

  /** Between two rounds of Shutdown: exactly the jobs already taken out have their channels closed. */
  ghost predicate PartlyShutDown(before: Registry, jobs: map<string, Job>, closes: map<Job, nat>) {
    && (forall id :: id in jobs ==> id in before.jobs && jobs[id] == before.jobs[id])
    && closes.Keys == before.closes.Keys
    && forall j :: j in closes ==>
         closes[j] == before.closes[j] + if Registered(before, j) && j.id !in jobs then 1 else 0
  }

  lemma ShutdownEnds(before: Registry)
    ensures PartlyShutDown(before, before.jobs, before.closes)
    ensures forall closes :: PartlyShutDown(before, map[], closes) ==> AfterShutdown(before) == Registry(map[], closes)
  {
    forall closes | PartlyShutDown(before, map[], closes)
      ensures AfterShutdown(before) == Registry(map[], closes)
    {
      assert closes == AfterShutdown(before).closes;
    }
  }

  lemma ShutdownStep(before: Registry, jobs: map<string, Job>, closes: map<Job, nat>, id: string)
    requires Sound(before) && PartlyShutDown(before, jobs, closes) && id in jobs
    ensures jobs[id] in closes && PartlyShutDown(before, jobs - {id}, Close(closes, jobs[id]))
  {
    Entry(before, id);
    hide Sound;
  }

  // ----- run loops -----

  /** Where a run loop stands: before the stop check, in the select, in Deliver, unwinding a panic, or gone. */
  datatype Pc = Checking | Waiting | Delivering | Recovering | Ended

  datatype Runner = Runner(job: Job, pc: Pc)

  datatype System = System(registry: Registry, runners: map<nat, Runner>)

  datatype Event =
    | Add(job: Job) | Cancel(id: string) | Shutdown
    | Start(r: nat, runs: Job)
    | Check(r: nat) | Stop(r: nat) | Tick(r: nat) | Return(r: nat) | Panic(r: nat) | Recover(r: nat)

  predicate At(s: System, r: nat, pc: Pc) {
    r in s.runners && s.runners[r].pc == pc
  }

  predicate Enabled(s: System, e: Event) {
    match e
    case Add(_) => true
    case Cancel(_) => true
    case Shutdown => true
    case Start(r, job) => r !in s.runners && job in s.registry.closes
    case Check(r) => At(s, r, Checking)
    case Stop(r) => At(s, r, Waiting) && IsClosed(s.registry, s.runners[r].job)
    case Tick(r) => At(s, r, Waiting)
    case Return(r) => At(s, r, Delivering)
    case Panic(r) => At(s, r, Delivering)
    case Recover(r) => At(s, r, Recovering)
  }

  ghost function Move(s: System, r: nat, pc: Pc): System
    requires r in s.runners
  {
    s.(runners := s.runners[r := s.runners[r].(pc := pc)])
  }

  ghost function Apply(s: System, e: Event): System
    requires Enabled(s, e)
  {
    match e
    case Add(job) => s.(registry := AfterAdd(s.registry, job))
    case Cancel(id) => s.(registry := AfterCancel(s.registry, id))
    case Shutdown => s.(registry := AfterShutdown(s.registry))
    case Start(r, job) => s.(runners := s.runners[r := Runner(job, Checking)])
    case Check(r) => Move(s, r, if IsClosed(s.registry, s.runners[r].job) then Ended else Waiting)
    case Stop(r) => Move(s, r, Ended)
    case Tick(r) => Move(s, r, Delivering)
    case Return(r) => Move(s, r, Checking)
    case Panic(r) => Move(s, r, Recovering)
    case Recover(r) =>
      var ended := Move(s, r, Ended);
      ended.(registry := AfterCancel(s.registry, s.runners[r].job.id))
  }

  const INITIAL := System(Registry(map[], map[]), map[])

  /** The events of a run, each enabled where it happens. */
  ghost predicate Run(events: seq<Event>)
    decreases |events|, 0
  {
    events == [] || (var before := events[..|events| - 1]; Run(before) && Enabled(After(before), events[|events| - 1]))
  }

  ghost function After(events: seq<Event>): System
    requires Run(events)
    decreases |events|, 1
  {
    if events == [] then INITIAL else Apply(After(events[..|events| - 1]), events[|events| - 1])
  }

  /** Deliveries runner `r` began after the stop channel of its job was closed. */
  ghost function LateDeliveries(events: seq<Event>, r: nat): nat
    requires Run(events)
    decreases |events|
  {
    if events == [] then 0
    else
      var before, last := events[..|events| - 1], events[|events| - 1];
      LateDeliveries(before, r)
      + if last == Tick(r) && IsClosed(After(before).registry, After(before).runners[r].job) then 1 else 0
  }

  ghost predicate RunnersKnowTheirJobs(s: System) {
    forall r :: r in s.runners ==> s.runners[r].job in s.registry.closes
  }

  /** A runner inside the select, or whose channel is open, has not been late. */
  ghost predicate Punctual(s: System, r: nat, late: nat) {
    && late <= 1
    && (late == 1 ==> r in s.runners && IsClosed(s.registry, s.runners[r].job) && s.runners[r].pc != Waiting)
  }

  lemma StepKeepsSound(s: System, e: Event)
    requires Sound(s.registry) && RunnersKnowTheirJobs(s) && Enabled(s, e)
    requires e.Add? ==> e.job !in s.registry.closes
    ensures Sound(Apply(s, e).registry) && RunnersKnowTheirJobs(Apply(s, e))
    ensures forall job :: IsClosed(s.registry, job) ==> IsClosed(Apply(s, e).registry, job)
  {
    hide Sound;
    match e
    case Add(job) => AddKeepsSound(s.registry, job);
    case Cancel(id) => CancelKeepsSound(s.registry, id);
    case Shutdown => ShutdownKeepsSound(s.registry);
    case Recover(r) => CancelKeepsSound(s.registry, s.runners[r].job.id);
    case _ =>
  }

  /** No job object is added twice. */
  ghost predicate AddsOnce(events: seq<Event>) {
    forall i, j :: 0 <= i < j < |events| && events[i].Add? && events[j].Add? ==> events[i].job != events[j].job
  }

  /** A stop channel is made by the first Add of its job and by nothing else. */
  lemma {:induction false} ChannelsComeFromAdds(events: seq<Event>, job: Job)
    requires Run(events)
    ensures job in After(events).registry.closes <==> Add(job) in events
    decreases |events|
  {
    hide Apply, Enabled;
    if events != [] {
      var before, last := events[..|events| - 1], events[|events| - 1];
      ChannelsComeFromAdds(before, job);
      ChannelsAfter(After(before), last, job);
      assert events == before + [last];
    }
  }

  lemma ChannelsAfter(s: System, e: Event, job: Job)
    requires Enabled(s, e)
    ensures job in Apply(s, e).registry.closes <==> job in s.registry.closes || e == Add(job)
  {
  }

  /** The last event adds a job only if nothing before it did. */
  lemma LastAddIsNew(events: seq<Event>)
    requires Run(events) && events != [] && AddsOnce(events)
    ensures var before, last := events[..|events| - 1], events[|events| - 1];
            AddsOnce(before) && (last.Add? ==> last.job !in After(before).registry.closes)
  {
    var before, last := events[..|events| - 1], events[|events| - 1];
    if last.Add? {
      ChannelsComeFromAdds(before, last.job);
      forall i | 0 <= i < |before|
        ensures before[i] != Add(last.job)
      {
        assert before[i] == events[i];
      }
    }
  }

  /**
   * In every interleaving no stop channel is closed twice, a job is registered exactly while its channel is
   * open, at most one job per id is open, and a run loop begins at most one delivery after its channel closed,
   * as long as no job object is added twice.
   */
  lemma {:induction false} EveryRunIsSafe(events: seq<Event>, r: nat)
    requires Run(events) && AddsOnce(events)
    ensures Sound(After(events).registry) && RunnersKnowTheirJobs(After(events))
    ensures Punctual(After(events), r, LateDeliveries(events, r))
    ensures OneOpenPerId(After(events).registry)
    decreases |events|
  {
    hide Sound, Punctual, RunnersKnowTheirJobs, OneOpenPerId, Apply, Enabled, AddsOnce;
    if events == [] {
      NothingHappened(r);
    } else {
      var before, last := events[..|events| - 1], events[|events| - 1];
      LastAddIsNew(events);
      EveryRunIsSafe(before, r);
      StepKeepsSound(After(before), last);
      StepKeepsPunctual(After(before), last, r, LateDeliveries(before, r));
    }
    SoundMeansOnePerId(After(events).registry);
  }

  lemma NothingHappened(r: nat)
    ensures Sound(INITIAL.registry) && RunnersKnowTheirJobs(INITIAL) && Punctual(INITIAL, r, 0)
  {
  }

  lemma StepKeepsPunctual(s: System, e: Event, r: nat, late: nat)
    requires Sound(s.registry) && RunnersKnowTheirJobs(s) && Enabled(s, e) && Punctual(s, r, late)
    requires e.Add? ==> e.job !in s.registry.closes
    ensures var isLate := e == Tick(r) && IsClosed(s.registry, s.runners[r].job);
            Punctual(Apply(s, e), r, late + if isLate then 1 else 0)
  {
    StepKeepsSound(s, e);
    hide Sound, AfterAdd, AfterCancel, AfterShutdown;
  }

  lemma SoundMeansOnePerId(r: Registry)
    requires Sound(r)
    ensures OneOpenPerId(r)
  {
  }

  ghost predicate OneOpenPerId(r: Registry) {
    forall a, b :: IsOpen(r, a) && IsOpen(r, b) && a.id == b.id ==> a == b
  }

  ghost predicate AllClosedOnce(r: Registry) {
    forall job :: job in r.closes ==> r.closes[job] == 1
  }

  /** After a shutdown nothing is open, and nothing but a new Add changes that. */
  lemma {:induction false} ShutdownStopsEverything(events: seq<Event>, later: seq<Event>)
    requires Run(events + [Shutdown] + later) && AddsOnce(events)
    requires forall e :: e in later ==> !e.Add?
    ensures AllClosedOnce(After(events + [Shutdown] + later).registry)
    decreases |later|
  {
    hide AddsOnce, Sound, Apply, Enabled, AllClosedOnce, RunnersKnowTheirJobs, Punctual, OneOpenPerId;
    var all := events + [Shutdown] + later;
    NoNewAdds(events, later);
    if later == [] {
      assert all[..|all| - 1] == events && all[|all| - 1] == Shutdown;
      EveryRunIsSafe(events, 0);
      ShutdownCloses(After(events));
    } else {
      var fewer := later[..|later| - 1];
      assert all[..|all| - 1] == events + [Shutdown] + fewer;
      assert all[|all| - 1] == later[|later| - 1];
      ShutdownStopsEverything(events, fewer);
      LastAddIsNew(all);
      EveryRunIsSafe(all[..|all| - 1], 0);
      StaysClosed(After(all[..|all| - 1]), all[|all| - 1]);
    }
  }

  lemma ShutdownCloses(s: System)
    requires Sound(s.registry)
    ensures AllClosedOnce(Apply(s, Shutdown).registry)
  {
  }

  lemma StaysClosed(s: System, e: Event)
    requires Sound(s.registry) && AllClosedOnce(s.registry) && Enabled(s, e) && !e.Add?
    ensures AllClosedOnce(Apply(s, e).registry)
  {
  }

  lemma NoNewAdds(events: seq<Event>, later: seq<Event>)
    requires AddsOnce(events) && forall e :: e in later ==> !e.Add?
    ensures AddsOnce(events + [Shutdown] + later)
  {
    var all := events + [Shutdown] + later;
    assert forall i :: |events| < i < |all| ==> all[i] == later[i - |events| - 1];
    assert forall i :: 0 <= i < |events| ==> all[i] == events[i];
  }

  /** Panic recovery cancels by id: it stops another job exactly when its own was already replaced. */
  lemma RecoveryStopsWhoeverHoldsTheId(events: seq<Event>, r: nat, other: Job)
    requires Run(events) && AddsOnce(events) && Enabled(After(events), Recover(r))
    ensures var s := After(events);
            var own := s.runners[r].job;
            IsOpen(s.registry, other) && !IsOpen(Apply(s, Recover(r)).registry, other)
            <==> Registered(s.registry, other) && other.id == own.id
    ensures var s := After(events);
            var own := s.runners[r].job;
            IsOpen(s.registry, own) ==>
              forall j :: j != own && IsOpen(s.registry, j) ==> IsOpen(Apply(s, Recover(r)).registry, j)
  {
    EveryRunIsSafe(events, r);
  }

  /** The registry stays sound throughout a run exactly when no job object is added twice. */
  lemma SafeExactlyWithoutReAdd(events: seq<Event>)
    requires Run(events)
    ensures AddsOnce(events) <==> forall n :: 0 <= n <= |events| ==> SoundAt(events, n)
  {
    hide Sound, SoundAt, Run, After, RunnersKnowTheirJobs, Punctual, OneOpenPerId;
    if AddsOnce(events) {
      forall n | 0 <= n <= |events|
        ensures SoundAt(events, n)
      {
        PrefixRuns(events, n);
        EveryRunIsSafe(events[..n], 0);
        IsSoundAt(events, n);
      }
    } else {
      var i, j :| 0 <= i < j < |events| && events[i].Add? && events[j].Add? && events[i].job == events[j].job;
      ReAddIsUnsound(events, i, j);
    }
  }

  ghost predicate SoundAt(events: seq<Event>, n: nat)
    requires n <= |events|
  {
    Run(events[..n]) && Sound(After(events[..n]).registry)
  }

  lemma IsSoundAt(events: seq<Event>, n: nat)
    requires n <= |events| && Run(events[..n]) && Sound(After(events[..n]).registry)
    ensures SoundAt(events, n)
  {
  }

  lemma {:induction false} PrefixRuns(events: seq<Event>, n: nat)
    requires Run(events) && n <= |events|
    ensures Run(events[..n])
    decreases |events|
  {
    if n < |events| {
      PrefixRuns(events[..|events| - 1], n);
      assert events[..|events| - 1][..n] == events[..n];
    } else {
      assert events[..n] == events;
    }
  }

  /** The state before a second Add of a job object, or the one after it, is unsound. */
  lemma ReAddIsUnsound(events: seq<Event>, i: nat, j: nat)
    requires Run(events) && i < j < |events| && events[i].Add? && events[j] == events[i]
    ensures !(SoundAt(events, j) && SoundAt(events, j + 1))
  {
    hide Sound, Run, After, Apply;
    var before, job := events[..j], events[j].job;
    PrefixRuns(events, j);
    assert before[i] == Add(job);
    ChannelsComeFromAdds(before, job);
    Snoc(before, Add(job));
    assert events[..j + 1] == before + [Add(job)];
    AddApplies(After(before), job);
    if Sound(After(before).registry) {
      AddKeepsSound(After(before).registry, job);
    }
  }

  lemma AddApplies(s: System, job: Job)
    ensures Apply(s, Add(job)).registry == AfterAdd(s.registry, job)
  {
  }

  lemma Snoc(events: seq<Event>, e: Event)
    requires Run(events) && Enabled(After(events), e)
    ensures Run(events + [e]) && After(events + [e]) == Apply(After(events), e)
  {
    assert (events + [e])[..|events|] == events;
  }

  /** A run in which recovery stops a replacement: the job was replaced during the delivery that panicked. */
  lemma RecoveryCanStopAReplacement(id: string) returns (events: seq<Event>, replacement: Job)
    ensures Run(events) && AddsOnce(events) && Enabled(After(events), Recover(0))
    ensures After(events).runners[0].job != replacement
    ensures IsOpen(After(events).registry, replacement)
    ensures !IsOpen(Apply(After(events), Recover(0)).registry, replacement)
  {
    hide Run, After, AddsOnce, AfterAdd, AfterCancel;
    var own := Job(0, id);
    replacement := Job(1, id);
    Replacing(own, replacement);
    var delivering := UpToDelivery(own);
    var replaced := delivering + [Add(replacement)];
    Snoc(delivering, Add(replacement));
    events := replaced + [Panic(0)];
    Snoc(replaced, Panic(0));
    TwoAdds(events, own, replacement);
  }

  lemma UpToDelivery(own: Job) returns (events: seq<Event>)
    ensures events == [Add(own), Start(0, own), Check(0), Tick(0)]
    ensures Run(events)
    ensures After(events) == System(AfterAdd(INITIAL.registry, own), map[0 := Runner(own, Delivering)])
  {
    hide Run, After;
    NoEvents();
    var added := [] + [Add(own)];
    Snoc([], Add(own));
    var started := added + [Start(0, own)];
    Snoc(added, Start(0, own));
    var checked := started + [Check(0)];
    Snoc(started, Check(0));
    events := checked + [Tick(0)];
    Snoc(checked, Tick(0));
  }

  lemma Replacing(own: Job, replacement: Job)
    requires own != replacement && own.id == replacement.id
    ensures var first := Registry(map[own.id := own], map[own := 0]);
            var second := Registry(map[own.id := replacement], map[own := 1, replacement := 0]);
            && AfterAdd(INITIAL.registry, own) == first && AfterAdd(first, replacement) == second
            && !IsOpen(AfterCancel(second, own.id), replacement)
  {
    var first := Registry(map[own.id := own], map[own := 0]);
    assert AfterAdd(INITIAL.registry, own).closes == first.closes;
    assert AfterAdd(first, replacement).closes == map[own := 1, replacement := 0];
  }

  lemma NoEvents()
    ensures Run([]) && After([]) == INITIAL
  {
  }

  lemma TwoAdds(events: seq<Event>, own: Job, replacement: Job)
    requires own != replacement
    requires events == [Add(own), Start(0, own), Check(0), Tick(0), Add(replacement), Panic(0)]
    ensures AddsOnce(events)
  {
  }
}
