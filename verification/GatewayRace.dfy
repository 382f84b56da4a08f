/**
 * The race between gateways: responses and failures are collected as they arrive, every promise then
 * checks the results, and a timer allows settling before all have reported.
 */
module GatewayRace {
  import opened Responses
  import opened PackageSelection

  /** A gateway response with the order of its keys. */
  datatype Candidate = Candidate(response: Response, keys: seq<string>)

  const NO_CANDIDATE: Candidate := Candidate(map[], [])

  function Timestamp(c: Candidate): int {
    ResponseTimestamp(c.response, c.keys)
  }

  function NewestOf(candidates: seq<Candidate>, newest: Candidate): Candidate {
    if candidates == [] then newest
    else NewestOf(candidates[1..], if Timestamp(candidates[0]) > Timestamp(newest) then candidates[0] else newest)
  }

  /** The reduction that starts from the empty response. */
  function Newest(candidates: seq<Candidate>): Candidate {
    NewestOf(candidates, NO_CANDIDATE)
  }

  datatype Settlement = Resolved(newest: Candidate) | Rejected

  /** The variables shared by the callbacks, and every call of `resolve` or `reject`. */
  datatype Shared = Shared(
    promises: nat,
    responses: seq<Candidate>,
    errors: nat,
    timerActive: bool,
    timedOut: bool,
    didResolveOrReject: bool,
    settlements: seq<Settlement>)

  function Started(promises: nat, waitForAllGatewaysTimeMs: nat): Shared {
    Shared(promises, [], 0, waitForAllGatewaysTimeMs != 0, waitForAllGatewaysTimeMs == 0, false, [])
  }

  function Settled(s: Shared, settlement: Settlement): Shared {
    s.(timerActive := false, didResolveOrReject := true, settlements := s.settlements + [settlement])
  }

  function Checked(s: Shared): Shared {
    if s.didResolveOrReject then s
    else if s.errors == s.promises then Settled(s, Rejected)
    else if |s.responses| + s.errors == s.promises || (s.timedOut && s.responses != []) then
      Settled(s, Resolved(Newest(s.responses)))
    else s
  }

  /** A fulfilled promise is collected as a response only if selection accepts it; otherwise as an error. */
  predicate Accepts(params: RequestParams, c: Candidate, now: int) {
    FilterAndSelectDataPackages(c.response, c.keys, params, now).Success?
  }

  function Collected(s: Shared, params: RequestParams, c: Candidate, now: int): Shared {
    if Accepts(params, c, now) then s.(responses := s.responses + [c]) else s.(errors := s.errors + 1)
  }

  class Race {
    const promises: nat
    const params: RequestParams
    var collectedResponses: seq<Candidate>
    var collectedErrors: nat
    var timerActive: bool
    var isTimedOut: bool
    var didResolveOrReject: bool
    var settlements: seq<Settlement>

    ghost function View(): Shared
      reads this
    {
      Shared(promises, collectedResponses, collectedErrors, timerActive, isTimedOut, didResolveOrReject, settlements)
    }

    constructor (promises: nat, params: RequestParams, waitForAllGatewaysTimeMs: nat)
      ensures View() == Started(promises, waitForAllGatewaysTimeMs) && this.params == params
      ensures timerActive == (waitForAllGatewaysTimeMs > 0) && isTimedOut == (waitForAllGatewaysTimeMs == 0)
    {
      this.promises, this.params := promises, params;
      collectedResponses, collectedErrors := [], 0;
      timerActive, isTimedOut := waitForAllGatewaysTimeMs != 0, waitForAllGatewaysTimeMs == 0;
      didResolveOrReject, settlements := false, [];
    }

    method CheckResults()
      modifies this
      ensures View() == Checked(old(View()))
    {
      if didResolveOrReject {
        return;
      }
      if collectedErrors == promises {
        timerActive := false;
        didResolveOrReject := true;
        settlements := settlements + [Rejected];
      } else if |collectedResponses| + collectedErrors == promises || (isTimedOut && |collectedResponses| != 0) {
        var newest := NO_CANDIDATE;
        for i := 0 to |collectedResponses|
          invariant View() == old(View())
          invariant Newest(collectedResponses) == NewestOf(collectedResponses[i..], newest)
        {
          if Timestamp(collectedResponses[i]) > Timestamp(newest) {
            newest := collectedResponses[i];
          }
        }
        timerActive := false;
        didResolveOrReject := true;
        settlements := settlements + [Resolved(newest)];
      }
    }

    method OnTimer()
      requires timerActive
      modifies this
      ensures View() == Checked(old(View()).(timedOut := true, timerActive := false))
    {
      timerActive := false;
      isTimedOut := true;
      CheckResults();
    }

    method OnFulfilled(c: Candidate, now: int)
      modifies this
      ensures View() == Collected(old(View()), params, c, now)
    {
      var selected := FilterAndSelect(c.response, c.keys, params, now);
      if selected.Success? {
        collectedResponses := collectedResponses + [c];
      } else {
        collectedErrors := collectedErrors + 1;
      }
    }

    method OnRejected()
      modifies this
      ensures View() == old(View()).(errors := old(View()).errors + 1)
    {
      collectedErrors := collectedErrors + 1;
    }
  }

  // ----- The newest candidate

  lemma {:induction false} NewestOfIsMax(candidates: seq<Candidate>, newest: Candidate)
    ensures var r := NewestOf(candidates, newest);
            && (r == newest || r in candidates)
            && Timestamp(r) >= Timestamp(newest)
            && forall c :: c in candidates ==> Timestamp(r) >= Timestamp(c)
  {
    if candidates != [] {
      NewestOfIsMax(candidates[1..], if Timestamp(candidates[0]) > Timestamp(newest) then candidates[0] else newest);
    }
  }

  /** The newest candidate is a collected one, unless no timestamp is positive; none is newer. */
  lemma NewestIsMax(candidates: seq<Candidate>)
    ensures forall c :: c in candidates ==> Timestamp(Newest(candidates)) >= Timestamp(c)
    ensures Newest(candidates) in candidates || Newest(candidates) == NO_CANDIDATE
    ensures (exists c :: c in candidates && Timestamp(c) > 0) ==> Newest(candidates) in candidates
    ensures !(exists c :: c in candidates && Timestamp(c) > 0) ==> Newest(candidates) == NO_CANDIDATE
  {
    NewestOfIsMax(candidates, NO_CANDIDATE);
    assert Timestamp(NO_CANDIDATE) == 0;
    hide Timestamp;
    if !exists c :: c in candidates && Timestamp(c) > 0 {
      NothingNewer(candidates, NO_CANDIDATE);
    }
  }

  /** Among the collected candidates of the greatest timestamp, the first collected wins. */
  lemma {:induction false} FirstNewestWins(candidates: seq<Candidate>, newest: Candidate, k: nat)
    requires k < |candidates| && Timestamp(candidates[k]) > Timestamp(newest)
    requires forall i :: 0 <= i < k ==> Timestamp(candidates[i]) < Timestamp(candidates[k])
    requires forall i :: 0 <= i < |candidates| ==> Timestamp(candidates[i]) <= Timestamp(candidates[k])
    ensures NewestOf(candidates, newest) == candidates[k]
  {
    hide Timestamp;
    if k > 0 {
      var next := if Timestamp(candidates[0]) > Timestamp(newest) then candidates[0] else newest;
      FirstNewestWins(candidates[1..], next, k - 1);
    } else {
      NothingNewer(candidates[1..], candidates[0]);
    }
  }

  lemma {:induction false} NothingNewer(candidates: seq<Candidate>, newest: Candidate)
    requires forall i :: 0 <= i < |candidates| ==> Timestamp(candidates[i]) <= Timestamp(newest)
    ensures NewestOf(candidates, newest) == newest
  {
    hide Timestamp;
    if candidates != [] {
      NothingNewer(candidates[1..], newest);
    }
  }

  // ----- Interleavings

  datatype Phase = Pending | Reported(ok: bool) | Done(ok: bool)

  /** The shared variables and where each promise chain stands. */
  datatype System = System(shared: Shared, phases: seq<Phase>)

  datatype Event =
    | Fulfil(i: nat, c: Candidate, now: int)
    | Reject(i: nat)
    | Check(i: nat)
    | Timeout

  function Initial(promises: nat, waitForAllGatewaysTimeMs: nat): System {
    System(Started(promises, waitForAllGatewaysTimeMs), seq(promises, _ => Pending))
  }

  predicate Enabled(s: System, e: Event) {
    match e
    case Fulfil(i, _, _) => i < |s.phases| && s.phases[i].Pending?
    case Reject(i) => i < |s.phases| && s.phases[i].Pending?
    case Check(i) => i < |s.phases| && s.phases[i].Reported?
    case Timeout => s.shared.timerActive
  }

  function Step(s: System, params: RequestParams, e: Event): System
    requires Enabled(s, e)
  {
    match e
    case Fulfil(i, c, now) =>
      System(Collected(s.shared, params, c, now), s.phases[i := Reported(Accepts(params, c, now))])
    case Reject(i) => System(s.shared.(errors := s.shared.errors + 1), s.phases[i := Reported(false)])
    case Check(i) => System(Checked(s.shared), s.phases[i := Done(s.phases[i].ok)])
    case Timeout => System(Checked(s.shared.(timedOut := true, timerActive := false)), s.phases)
  }

  /** States reached by runs of enabled events. */
  ghost predicate Reaches(promises: nat, wait: nat, params: RequestParams, events: seq<Event>, s: System)
    decreases |events|
  {
    if events == [] then s == Initial(promises, wait)
    else
      var n := |events| - 1;
      exists before :: Reaches(promises, wait, params, events[..n], before) && Enabled(before, events[n]) &&
                       s == Step(before, params, events[n])
  }

  predicate IsOk(p: Phase) {
    !p.Pending? && p.ok
  }

  function CountOk(phases: seq<Phase>): nat {
    if phases == [] then 0 else (if IsOk(phases[0]) then 1 else 0) + CountOk(phases[1..])
  }

  function CountFailed(phases: seq<Phase>): nat {
    if phases == [] then 0
    else (if !phases[0].Pending? && !phases[0].ok then 1 else 0) + CountFailed(phases[1..])
  }

  lemma {:induction false} CountUpdate(phases: seq<Phase>, i: nat, p: Phase)
    requires i < |phases|
    ensures CountOk(phases[i := p]) ==
              CountOk(phases) + (if IsOk(p) then 1 else 0) - (if IsOk(phases[i]) then 1 else 0)
    ensures CountFailed(phases[i := p]) ==
              CountFailed(phases) + (if !p.Pending? && !p.ok then 1 else 0)
                                  - (if !phases[i].Pending? && !phases[i].ok then 1 else 0)
  {
    var updated := phases[i := p];
    if i == 0 {
      assert updated[1..] == phases[1..];
    } else {
      assert updated[1..] == phases[1..][i - 1 := p];
      CountUpdate(phases[1..], i - 1, p);
    }
  }

  lemma {:induction false} CountsBound(phases: seq<Phase>)
    ensures CountOk(phases) + CountFailed(phases) <= |phases|
    ensures CountOk(phases) + CountFailed(phases) == |phases| <==>
              forall i :: 0 <= i < |phases| ==> !phases[i].Pending?
    ensures CountFailed(phases) == |phases| <==>
              forall i :: 0 <= i < |phases| ==> !phases[i].Pending? && !phases[i].ok
  {
    if phases != [] {
      CountsBound(phases[1..]);
      assert forall i :: 1 <= i < |phases| ==> phases[i] == phases[1..][i - 1];
    }
  }

  /** What every interleaving keeps. */
  ghost predicate Invariant(s: System) {
    var v := s.shared;
    && v.promises == |s.phases|
    && |v.responses| == CountOk(s.phases)
    && v.errors == CountFailed(s.phases)
    // settled at most once
    && |v.settlements| == (if v.didResolveOrReject then 1 else 0)
    && (v.didResolveOrReject ==> !v.timerActive)
    // rejected exactly when all failed
    && (v.didResolveOrReject ==> (v.settlements[0] == Rejected <==> v.errors == v.promises))
    && (v.didResolveOrReject && v.settlements[0].Resolved? ==> v.responses != [])
    // once every promise has been checked, it has settled
    && (s.phases != [] && AllDone(s.phases) ==> v.didResolveOrReject)
    // after the timeout, the first checked success settles it
    && (v.timedOut && (exists i :: 0 <= i < |s.phases| && s.phases[i] == Done(true)) ==> v.didResolveOrReject)
  }

  ghost predicate AllDone(phases: seq<Phase>) {
    forall i :: 0 <= i < |phases| ==> phases[i].Done?
  }

  lemma {:induction false} InitialCounts(promises: nat)
    ensures CountOk(seq(promises, _ => Pending)) == 0 && CountFailed(seq(promises, _ => Pending)) == 0
  {
    if promises > 0 {
      InitialCounts(promises - 1);
      assert seq(promises, _ => Pending)[1..] == seq(promises - 1, _ => Pending);
    }
  }

  lemma ReportKeepsInvariant(s: System, params: RequestParams, e: Event)
    requires Invariant(s) && Enabled(s, e) && (e.Fulfil? || e.Reject?)
    ensures Invariant(Step(s, params, e))
  {
    hide Accepts;
    var s' := Step(s, params, e);
    CountUpdate(s.phases, e.i, s'.phases[e.i]);
    CountsBound(s.phases);
    CountsBound(s'.phases);
    assert s'.phases[e.i].Reported?;
    assert forall i :: 0 <= i < |s.phases| && s'.phases[i] == Done(true) ==> s.phases[i] == Done(true);
  }

  lemma CheckKeepsInvariant(s: System, params: RequestParams, e: Event)
    requires Invariant(s) && Enabled(s, e) && e.Check?
    ensures Invariant(Step(s, params, e))
  {
    hide Newest;
    var s' := Step(s, params, e);
    CountUpdate(s.phases, e.i, s'.phases[e.i]);
    CountsBound(s.phases);
    CountsBound(s'.phases);
    if exists i :: 0 <= i < |s'.phases| && s'.phases[i] == Done(true) {
      SomeOk(s'.phases);
    }
  }

  lemma TimeoutKeepsInvariant(s: System, params: RequestParams)
    requires Invariant(s) && Enabled(s, Timeout)
    ensures Invariant(Step(s, params, Timeout))
  {
    hide Newest;
    CountsBound(s.phases);
    if exists i :: 0 <= i < |s.phases| && s.phases[i] == Done(true) {
      SomeOk(s.phases);
    }
  }

  lemma {:induction false} SomeOk(phases: seq<Phase>)
    requires exists i :: 0 <= i < |phases| && phases[i] == Done(true)
    ensures CountOk(phases) > 0
  {
    var i :| 0 <= i < |phases| && phases[i] == Done(true);
    if i > 0 {
      assert phases[1..][i - 1] == Done(true);
      SomeOk(phases[1..]);
    }
  }

  /**
   * After any interleaving of responses, failures, checks and the timer: the promise has settled at most
   * once; it has settled once every chain has been checked, and after the timeout once any success has
   * been checked; and it is rejected exactly when every gateway failed.
   */
  lemma {:induction false} EveryInterleaving(promises: nat, wait: nat, params: RequestParams, events: seq<Event>,
                                             s: System)
    requires Reaches(promises, wait, params, events, s)
    ensures Invariant(s)
    decreases |events|
  {
    if events == [] {
      InitialCounts(promises);
    } else {
      var n := |events| - 1;
      var e := events[n];
      var before :| Reaches(promises, wait, params, events[..n], before) && Enabled(before, e) &&
                    s == Step(before, params, e);
      EveryInterleaving(promises, wait, params, events[..n], before);
      match e {
        case Fulfil(_, _, _) => ReportKeepsInvariant(before, params, e);
        case Reject(_) => ReportKeepsInvariant(before, params, e);
        case Check(_) => CheckKeepsInvariant(before, params, e);
        case Timeout => TimeoutKeepsInvariant(before, params);
      }
    }
  }

  /**
   * The step that resolves does so with at least one success, and either all gateways have reported or
   * the timer has fired; the resolved response is at least as new as all collected by then.
   */
  lemma ResolvingStep(promises: nat, wait: nat, params: RequestParams, events: seq<Event>, s: System, e: Event)
    requires Reaches(promises, wait, params, events, s) && Enabled(s, e)
    requires !s.shared.didResolveOrReject && Step(s, params, e).shared.didResolveOrReject
    ensures var v := Step(s, params, e).shared;
            v.settlements[0].Resolved? ==>
              && v.responses != []
              && (v.timedOut || forall i :: 0 <= i < |s.phases| ==> !s.phases[i].Pending?)
              && v.settlements[0].newest == Newest(v.responses)
              && forall c :: c in v.responses ==> Timestamp(v.settlements[0].newest) >= Timestamp(c)
  {
    EveryInterleaving(promises, wait, params, events, s);
    var v := Step(s, params, e).shared;
    CountsBound(s.phases);
    NewestIsMax(v.responses);
    hide Newest, Accepts;
  }

  /** The timer has fired, or there was none. */
  ghost predicate DoneWaiting(wait: nat, events: seq<Event>) {
    wait == 0 || Timeout in events
  }

  /** Until waiting is done, only all reports settle the race. */
  ghost predicate InTime(wait: nat, events: seq<Event>, s: System) {
    && (s.shared.timedOut <==> DoneWaiting(wait, events))
    && (s.shared.didResolveOrReject && !s.shared.timedOut ==> NonePending(s.phases))
  }

  ghost predicate NonePending(phases: seq<Phase>) {
    forall i :: 0 <= i < |phases| ==> !phases[i].Pending?
  }

  lemma StepInTime(wait: nat, events: seq<Event>, s: System, params: RequestParams, e: Event)
    requires Enabled(s, e) && Invariant(s) && InTime(wait, events, s)
    ensures InTime(wait, events + [e], Step(s, params, e))
  {
    StepWaits(s, params, e);
    assert DoneWaiting(wait, events + [e]) <==> DoneWaiting(wait, events) || e == Timeout;
    hide DoneWaiting, Step, Invariant, NonePending;
  }

  lemma {:induction false} AlwaysInTime(promises: nat, wait: nat, params: RequestParams, events: seq<Event>, s: System)
    requires Reaches(promises, wait, params, events, s)
    ensures InTime(wait, events, s)
    decreases |events|
  {
    hide Invariant, Step;
    if events != [] {
      var n := |events| - 1;
      var e := events[n];
      var before :| Reaches(promises, wait, params, events[..n], before) && Enabled(before, e) &&
                    s == Step(before, params, e);
      hide Reaches, InTime;
      AlwaysInTime(promises, wait, params, events[..n], before);
      EveryInterleaving(promises, wait, params, events[..n], before);
      assert events == events[..n] + [e];
      StepInTime(wait, events[..n], before, params, e);
    }
  }

  /**
   * Over every interleaving, waiting ends exactly when the timer fires or there is none. From then on the first
   * checked success settles the race; until then it settles only when every gateway has reported.
   */
  lemma SettlesInTime(promises: nat, wait: nat, params: RequestParams, events: seq<Event>, s: System)
    requires Reaches(promises, wait, params, events, s)
    ensures s.shared.timedOut <==> wait == 0 || Timeout in events
    ensures s.shared.timedOut && (exists i :: 0 <= i < |s.phases| && s.phases[i] == Done(true)) ==>
              s.shared.didResolveOrReject
    ensures s.shared.didResolveOrReject && !s.shared.timedOut ==>
              forall i :: 0 <= i < |s.phases| ==> !s.phases[i].Pending?
  {
    hide Reaches;
    AlwaysInTime(promises, wait, params, events, s);
    EveryInterleaving(promises, wait, params, events, s);
  }

  lemma StepWaits(s: System, params: RequestParams, e: Event)
    requires Enabled(s, e) && Invariant(s)
    ensures Step(s, params, e).shared.timedOut <==> s.shared.timedOut || e == Timeout
    ensures Step(s, params, e).shared.didResolveOrReject && !Step(s, params, e).shared.timedOut &&
            (s.shared.didResolveOrReject ==> NonePending(s.phases)) ==>
              NonePending(Step(s, params, e).phases)
  {
    hide Accepts, Newest;
    CountsBound(s.phases);
  }

  /** Some gateway of the run fulfilled with this response, and selection accepted it then. */
  ghost predicate Selectable(params: RequestParams, events: seq<Event>, c: Candidate) {
    exists k :: 0 <= k < |events| && events[k].Fulfil? && events[k].c == c &&
                FilterAndSelectDataPackages(c.response, c.keys, params, events[k].now).Success?
  }

  lemma SelectableGrows(params: RequestParams, events: seq<Event>, e: Event, c: Candidate)
    requires Selectable(params, events, c)
    ensures Selectable(params, events + [e], c)
  {
    hide FilterAndSelectDataPackages;
    var k :| 0 <= k < |events| && events[k].Fulfil? && events[k].c == c &&
             FilterAndSelectDataPackages(c.response, c.keys, params, events[k].now).Success?;
    assert (events + [e])[k] == events[k];
  }

  /** What is collected or has been resolved is selectable, or the empty response when nothing collected is newer. */
  ghost predicate AllSelectable(params: RequestParams, events: seq<Event>, v: Shared) {
    && (forall c :: c in v.responses ==> Selectable(params, events, c))
    && (forall i :: 0 <= i < |v.settlements| && v.settlements[i].Resolved? ==>
          v.settlements[i].newest == NO_CANDIDATE || Selectable(params, events, v.settlements[i].newest))
  }

  /**
   * Over every interleaving only responses are collected that selection accepts, and a resolved response of positive
   * timestamp is one of them.
   */
  lemma {:induction false} ResolvedIsSelectable(promises: nat, wait: nat, params: RequestParams, events: seq<Event>,
                                                s: System)
    requires Reaches(promises, wait, params, events, s)
    ensures forall c :: c in s.shared.responses ==> Selectable(params, events, c)
    ensures forall i :: 0 <= i < |s.shared.settlements| && s.shared.settlements[i].Resolved? &&
                        Timestamp(s.shared.settlements[i].newest) > 0 ==>
                          Selectable(params, events, s.shared.settlements[i].newest)
    ensures AllSelectable(params, events, s.shared)
    decreases |events|
  {
    if events != [] {
      var n := |events| - 1;
      var e := events[n];
      var before :| Reaches(promises, wait, params, events[..n], before) && Enabled(before, e) &&
                    s == Step(before, params, e);
      ResolvedIsSelectable(promises, wait, params, events[..n], before);
      assert events == events[..n] + [e];
      StepSelectable(params, events[..n], before, e);
    }
    assert Timestamp(NO_CANDIDATE) == 0;
    hide Selectable, Timestamp;
  }

  lemma StepSelectable(params: RequestParams, events: seq<Event>, s: System, e: Event)
    requires Enabled(s, e) && AllSelectable(params, events, s.shared)
    ensures AllSelectable(params, events + [e], Step(s, params, e).shared)
  {
    hide FilterAndSelectDataPackages, Newest;
    NewestIsMax(s.shared.responses);
    forall c | Selectable(params, events, c) ensures Selectable(params, events + [e], c) {
      SelectableGrows(params, events, e, c);
    }
    if e.Fulfil? && Accepts(params, e.c, e.now) {
      assert (events + [e])[|events|] == e;
      assert Selectable(params, events + [e], e.c);
    }
    hide Selectable;
  }

  /** Nothing is left to happen: every chain has been checked and no timer is running. */
  ghost predicate Quiescent(s: System) {
    AllDone(s.phases) && !s.shared.timerActive
  }

  /** Without gateways the only possible event is the timer, which rejects. */
  lemma {:induction false} NoGateways(wait: nat, params: RequestParams, events: seq<Event>, s: System)
    requires Reaches(0, wait, params, events, s)
    ensures s == Initial(0, wait) || (wait > 0 && s.shared.didResolveOrReject)
    ensures s.phases == []
    decreases |events|
  {
    if events != [] {
      var n := |events| - 1;
      var before :| Reaches(0, wait, params, events[..n], before) && Enabled(before, events[n]) &&
                    s == Step(before, params, events[n]);
      NoGateways(wait, params, events[..n], before);
      EveryInterleaving(0, wait, params, events[..n], before);
      hide Reaches;
    }
  }

  /** Every run that has come to its end has settled, unless there were neither gateways nor a timer. */
  lemma QuiescentSettledExactly(promises: nat, wait: nat, params: RequestParams, events: seq<Event>, s: System)
    requires Reaches(promises, wait, params, events, s) && Quiescent(s)
    ensures s.shared.didResolveOrReject <==> promises > 0 || wait > 0
  {
    EveryInterleaving(promises, wait, params, events, s);
    if promises == 0 {
      NoGateways(wait, params, events, s);
    } else {
      PhaseCount(promises, wait, params, events, s);
    }
  }

  lemma {:induction false} PhaseCount(promises: nat, wait: nat, params: RequestParams, events: seq<Event>, s: System)
    requires Reaches(promises, wait, params, events, s)
    ensures |s.phases| == promises
    decreases |events|
  {
    if events != [] {
      var n := |events| - 1;
      var before :| Reaches(promises, wait, params, events[..n], before) && Enabled(before, events[n]) &&
                    s == Step(before, params, events[n]);
      PhaseCount(promises, wait, params, events[..n], before);
      hide Reaches;
    }
  }
}
