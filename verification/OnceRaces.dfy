/**
 * One injected one-time example under selections whose steps interleave: the list is read under one lock, the marker
 * under a second and set under a third (internal/server/registry.go).
 */
module OnceRaces {

  /** How far a selection has come with the example: it has it in its list, saw no marker, found it applicable. */
  datatype Phase = Listed | Unmarked | Applicable | GivenUp | Answered

  datatype State = State(stored: bool, marked: bool, expired: bool, selections: map<nat, Phase>)

  datatype Event =
    | List(c: nat) | Check(c: nat) | Judge(c: nat, holds: bool) | Mark(c: nat)
    | Remove | Expire | Sweep

  const INITIAL := State(true, false, false, map[])

  predicate At(s: State, c: nat, phase: Phase) {
    c in s.selections && s.selections[c] == phase
  }

  predicate Enabled(s: State, e: Event) {
    match e
    case List(c) => c !in s.selections && s.stored
    case Check(c) => At(s, c, Listed)
    case Judge(c, _) => At(s, c, Unmarked)
    case Mark(c) => At(s, c, Applicable)
    case _ => true
  }

  function Move(s: State, c: nat, phase: Phase): State {
    s.(selections := s.selections[c := phase])
  }

  /** Removing and sweeping take the marker along with the example. */
  function Apply(s: State, e: Event): State {
    match e
    case List(c) => Move(s, c, Listed)
    case Check(c) => Move(s, c, if s.marked then GivenUp else Unmarked)
    case Judge(c, holds) => Move(s, c, if s.expired || !holds then GivenUp else Applicable)
    case Mark(c) => Move(s, c, Answered).(marked := true)
    case Remove => if s.stored then s.(stored := false, marked := false) else s
    case Expire => s.(expired := true)
    case Sweep => if s.stored && s.expired then s.(stored := false, marked := false) else s
  }

  ghost predicate Run(events: seq<Event>)
    decreases |events|
  {
    events == [] ||
    (var before := events[..|events| - 1]; Run(before) && Enabled(After(before), events[|events| - 1]))
  }

  function After(events: seq<Event>): State
    decreases |events|
  {
    if events == [] then INITIAL else Apply(After(events[..|events| - 1]), events[|events| - 1])
  }

  /** The state in which event `n` happens. */
  function Before(events: seq<Event>, n: nat): State
    requires n <= |events|
  {
    After(events[..n])
  }

  lemma Step(events: seq<Event>, n: nat)
    requires n < |events|
    ensures Before(events, n + 1) == Apply(Before(events, n), events[n])
  {
    assert events[..n + 1][..n] == events[..n];
  }

  lemma {:induction false} Happens(events: seq<Event>, n: nat)
    requires Run(events) && n < |events|
    ensures Enabled(Before(events, n), events[n])
    decreases |events|
  {
    var before := events[..|events| - 1];
    if n < |before| {
      Happens(before, n);
      assert before[..n] == events[..n];
    }
  }

  // ----- what a state tells about the past -----

  /** A selection that judges or has judged the example found it unmarked, with the example in a list read before. */
  lemma {:induction false} SawNoMarker(events: seq<Event>, n: nat, c: nat) returns (listed: nat, checked: nat)
    requires Run(events) && n <= |events| && At(Before(events, n), c, Unmarked)
    ensures listed < checked < n && events[listed] == List(c)
    ensures events[checked] == Check(c) && !Before(events, checked).marked
    decreases n
  {
    Step(events, n - 1);
    if events[n - 1] == Check(c) {
      checked := n - 1;
      Happens(events, n - 1);
      listed := HadList(events, n - 1, c);
    } else {
      listed, checked := SawNoMarker(events, n - 1, c);
    }
  }

  lemma {:induction false} HadList(events: seq<Event>, n: nat, c: nat) returns (listed: nat)
    requires Run(events) && n <= |events| && At(Before(events, n), c, Listed)
    ensures listed < n && events[listed] == List(c)
    decreases n
  {
    Step(events, n - 1);
    if events[n - 1] == List(c) {
      listed := n - 1;
    } else {
      listed := HadList(events, n - 1, c);
    }
  }

  lemma {:induction false} FoundApplicable(events: seq<Event>, n: nat, c: nat)
    returns (listed: nat, checked: nat, judged: nat)
    requires Run(events) && n <= |events| && At(Before(events, n), c, Applicable)
    ensures listed < checked < judged < n && events[listed] == List(c)
    ensures events[checked] == Check(c) && !Before(events, checked).marked
    ensures events[judged] == Judge(c, true) && !Before(events, judged).expired
    decreases n
  {
    Step(events, n - 1);
    if events[n - 1].Judge? && events[n - 1].c == c {
      judged := n - 1;
      Happens(events, n - 1);
      listed, checked := SawNoMarker(events, n - 1, c);
    } else {
      listed, checked, judged := FoundApplicable(events, n - 1, c);
    }
  }

  /** A marker only disappears with its example. */
  lemma {:induction false} MarkerLost(events: seq<Event>, marked: nat, n: nat) returns (m: nat)
    requires Run(events) && marked < n <= |events| && events[marked].Mark? && !Before(events, n).marked
    ensures marked < m < n && Before(events, m).stored
    ensures events[m] == Remove || (events[m] == Sweep && Before(events, m).expired)
    decreases n
  {
    Step(events, n - 1);
    if marked < n - 1 && !Before(events, n - 1).marked {
      m := MarkerLost(events, marked, n - 1);
    } else {
      m := n - 1;
    }
  }

  lemma {:induction false} GoneForGood(events: seq<Event>, m: nat, n: nat)
    requires m <= n <= |events|
    ensures !Before(events, m).stored ==> !Before(events, n).stored
    ensures Before(events, m).expired ==> Before(events, n).expired
    decreases n
  {
    if m < n {
      GoneForGood(events, m, n - 1);
      Step(events, n - 1);
    }
  }

  // ----- how often the example is answered -----

  ghost predicate AnsweredAtMostOnce(events: seq<Event>) {
    forall i, j :: 0 <= i < j < |events| && events[i].Mark? ==> !events[j].Mark?
  }

  /** No selection is left between its judgement and its mark. */
  ghost predicate Complete(events: seq<Event>) {
    forall c :: !At(After(events), c, Applicable)
  }

  /** Selection `d` finds the example applicable at some point of the run. */
  ghost predicate WillApply(events: seq<Event>, d: nat) {
    exists l: nat :: l < |events| && events[l] == Judge(d, true) && !Before(events, l).expired
  }

  /** When a selection marks the example, another one that saw no marker has not answered yet, and it will apply. */
  ghost predicate Overlap(events: seq<Event>, i: nat, d: nat) {
    && i < |events| && events[i].Mark? && events[i].c != d
    && (At(Before(events, i), d, Unmarked) || At(Before(events, i), d, Applicable))
    && WillApply(events, d)
  }

  /**
   * After a selection has marked the example it is removed, between the moment another selection read the list and
   * its check, and that selection will apply.
   */
  ghost predicate Rearmed(events: seq<Event>, i: nat, d: nat) {
    && i < |events| && events[i].Mark? && events[i].c != d
    && WillApply(events, d)
    && exists q: nat, m: nat, k: nat ::
         q < m < k < |events| && i < m && events[q] == List(d) && events[m] == Remove && events[k] == Check(d)
  }

  lemma {:induction false} StaysOver(events: seq<Event>, m: nat, n: nat, c: nat)
    requires Run(events) && m <= n <= |events|
    ensures At(Before(events, m), c, Answered) ==> At(Before(events, n), c, Answered)
    ensures At(Before(events, m), c, GivenUp) ==> At(Before(events, n), c, GivenUp)
    decreases n
  {
    hide Apply, Enabled, Before, Run;
    if m < n {
      StaysOver(events, m, n - 1, c);
      Step(events, n - 1);
      Happens(events, n - 1);
      OverStep(Before(events, n - 1), events[n - 1], c);
    }
  }

  lemma OverStep(s: State, e: Event, c: nat)
    requires Enabled(s, e)
    ensures At(s, c, Answered) ==> At(Apply(s, e), c, Answered)
    ensures At(s, c, GivenUp) ==> At(Apply(s, e), c, GivenUp)
  {
  }

  /** Selections that have checked are past their list for good. */
  lemma {:induction false} PastCheck(events: seq<Event>, k: nat, n: nat, c: nat)
    requires Run(events) && k < n <= |events| && events[k] == Check(c)
    ensures Past(Before(events, n), c)
    decreases n
  {
    hide Apply, Enabled, Before, Run, Past;
    Step(events, n - 1);
    Happens(events, n - 1);
    if k < n - 1 {
      PastCheck(events, k, n - 1, c);
    }
    PastStep(Before(events, n - 1), events[n - 1], c);
  }

  predicate Past(s: State, c: nat) {
    c in s.selections && s.selections[c] != Listed
  }

  lemma PastStep(s: State, e: Event, c: nat)
    requires Enabled(s, e) && (Past(s, c) || e == Check(c))
    ensures Past(Apply(s, e), c)
  {
  }

  /** A selection answers once. */
  lemma MarksDiffer(events: seq<Event>, i: nat, j: nat)
    requires Run(events) && i < j < |events| && events[i].Mark? && events[j].Mark?
    ensures events[i].c != events[j].c
  {
    Step(events, i);
    Happens(events, j);
    StaysOver(events, i + 1, j, events[i].c);
  }

  /** An applicable selection that no longer is has marked. */
  lemma {:induction false} HasMarked(events: seq<Event>, l: nat, n: nat, d: nat) returns (j: nat)
    requires Run(events) && l <= n <= |events|
    requires At(Before(events, l), d, Applicable) && !At(Before(events, n), d, Applicable)
    ensures l <= j < n && events[j] == Mark(d)
    decreases n
  {
    Step(events, n - 1);
    Happens(events, n - 1);
    if At(Before(events, n - 1), d, Applicable) {
      j := n - 1;
    } else {
      j := HasMarked(events, l, n - 1, d);
    }
  }

  /** In a complete run whoever applies answers. */
  lemma AppliesAnswers(events: seq<Event>, d: nat) returns (j: nat)
    requires Run(events) && Complete(events) && WillApply(events, d)
    ensures j < |events| && events[j] == Mark(d)
  {
    var l: nat :| l < |events| && events[l] == Judge(d, true) && !Before(events, l).expired;
    Step(events, l);
    assert events[..|events|] == events;
    j := HasMarked(events, l + 1, |events|, d);
  }

  lemma SecondAnswer(events: seq<Event>, i: nat, j: nat)
    requires Run(events) && i < j < |events| && events[i].Mark? && events[j].Mark?
    ensures Overlap(events, i, events[j].c) || Rearmed(events, i, events[j].c)
  {
    hide Before, Run;
    var d := events[j].c;
    MarksDiffer(events, i, j);
    Happens(events, j);
    var q, k, l := FoundApplicable(events, j, d);
    assert WillApply(events, d);
    if k > i {
      var m := MarkerLost(events, i, k);
      GoneForGood(events, m, l);
      ListedBeforeRemoval(events, q, m);
    } else {
      PastCheck(events, k, i, d);
      StaysOver(events, i, j, d);
    }
  }

  lemma ListedBeforeRemoval(events: seq<Event>, q: nat, m: nat)
    requires Run(events) && q < |events| && m < |events| && events[q].List? && events[m] == Remove
    ensures q < m
  {
    hide Before, Run;
    Happens(events, q);
    Step(events, m);
    if m < q {
      GoneForGood(events, m + 1, q);
    }
  }

  /**
   * In every interleaving whose selections run to their end, the example is answered at most once exactly when no
   * selection marks it while another one that will apply is between check and mark, and no later removal falls
   * between the list and the check of one that will apply.
   */
  lemma OnceUnlessRaced(events: seq<Event>)
    requires Run(events) && Complete(events)
    ensures AnsweredAtMostOnce(events) <==> forall i, d :: !Overlap(events, i, d) && !Rearmed(events, i, d)
  {
    hide Run, Complete, Overlap, Rearmed;
    forall i, j | 0 <= i < j < |events| && events[i].Mark? && events[j].Mark?
      ensures Overlap(events, i, events[j].c) || Rearmed(events, i, events[j].c)
    {
      SecondAnswer(events, i, j);
    }
    forall i, d | Overlap(events, i, d) || Rearmed(events, i, d)
      ensures !AnsweredAtMostOnce(events)
    {
      RaceAnswersTwice(events, i, d);
    }
  }

  lemma RaceAnswersTwice(events: seq<Event>, i: nat, d: nat)
    requires Run(events) && Complete(events) && (Overlap(events, i, d) || Rearmed(events, i, d))
    ensures !AnsweredAtMostOnce(events)
  {
    hide Run, Before, Complete;
    var j := AppliesAnswers(events, d);
    assert i < j || j < i;
  }

  /** Expiry and sweeping alone never cause a second answer. */
  lemma SweepsAreHarmless(events: seq<Event>, i: nat, j: nat)
    requires Run(events) && i < j < |events| && events[i].Mark? && events[j].Mark?
    requires !Overlap(events, i, events[j].c)
    ensures Remove in events
  {
    SecondAnswer(events, i, j);
    var q: nat, m: nat, k: nat :| q < m < k < |events| && i < m
      && events[q] == List(events[j].c) && events[m] == Remove && events[k] == Check(events[j].c);
    assert events[m] in events;
  }

  // ----- both races happen -----

  lemma Snoc(events: seq<Event>, e: Event)
    requires Run(events) && Enabled(After(events), e)
    ensures Run(events + [e]) && After(events + [e]) == Apply(After(events), e)
  {
    assert (events + [e])[..|events|] == events;
  }

  lemma OverlapHappens() returns (events: seq<Event>)
    ensures Run(events) && Complete(events) && !AnsweredAtMostOnce(events) && Remove !in events
  {
    hide Run, After;
    events := Start();
    events := Then(events, List(0));
    events := Then(events, List(1));
    events := Then(events, Check(0));
    events := Then(events, Check(1));
    events := Then(events, Judge(0, true));
    events := Then(events, Judge(1, true));
    events := Then(events, Mark(0));
    events := Then(events, Mark(1));
    assert events[6].Mark? && events[7].Mark?;
  }

  lemma RearmingHappens() returns (events: seq<Event>)
    ensures Run(events) && Complete(events) && !AnsweredAtMostOnce(events)
    ensures forall i, d :: !Overlap(events, i, d)
  {
    hide Run, After;
    events := Start();
    events := Then(events, List(0));
    events := Then(events, Check(0));
    events := Then(events, Judge(0, true));
    var once := events;
    events := Then(events, Mark(0));
    events := Then(events, List(1));
    events := Then(events, Remove);
    events := Then(events, Check(1));
    events := Then(events, Judge(1, true));
    var twice := events;
    events := Then(events, Mark(1));
    assert events[3] == Mark(0) && events[8] == Mark(1);
    assert events[..3] == once && events[..8] == twice;
  }

  lemma Start() returns (events: seq<Event>)
    ensures events == [] && Run(events) && After(events) == INITIAL
  {
    events := [];
  }

  lemma Then(events: seq<Event>, e: Event) returns (longer: seq<Event>)
    requires Run(events) && Enabled(After(events), e)
    ensures longer == events + [e] && Run(longer) && After(longer) == Apply(After(events), e)
  {
    longer := events + [e];
    Snoc(events, e);
  }
}
