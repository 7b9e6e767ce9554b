/**
 Every interleaving of any number of calls through one breaker (app/core/resilience.py).

 A call is admitted or rejected when it arrives, and an admitted call ends later, in whatever state the
 breaker is then: with a result, with an exception the caller listed, or with anything else. Only the first
 two are recorded.
 */
module BreakerRuns {
  import opened Wrappers
  import opened Resilience

  type CallId = nat

  datatype Event = Arrive(id: CallId) | Succeed(id: CallId) | Fail(id: CallId) | Abort(id: CallId) {
    predicate Recorded() {
      Succeed? || Fail?
    }
  }

  datatype Step = Step(time: real, event: Event)

  datatype System = System(view: View, clock: real, inFlight: set<CallId>)

  const START := System(FRESH, 0.0, {})

  predicate Enabled(s: System, step: Step) {
    s.clock <= step.time && (step.event.Arrive? <==> step.event.id !in s.inFlight)
  }

  predicate Admitted(cfg: Config, s: System, step: Step) {
    step.event.Arrive? && Admits(cfg, s.view, step.time)
  }

  /** An admission while the breaker is not CLOSED. */
  predicate Trial(cfg: Config, s: System, step: Step) {
    Admitted(cfg, s, step) && s.view.state != Closed
  }

  function Next(cfg: Config, s: System, step: Step): System {
    var System(v, _, flying) := s;
    match step.event
    case Arrive(id) =>
      System(BeforeCall(cfg, v, step.time), step.time, if Admits(cfg, v, step.time) then flying + {id} else flying)
    case Succeed(id) => System(AfterSuccess(v), step.time, flying - {id})
    case Fail(id) => System(AfterFailure(cfg, v, step.time), step.time, flying - {id})
    case Abort(id) => System(v, step.time, flying - {id})
  }

  function After(cfg: Config, s: System, steps: seq<Step>): System {
    if steps == [] then s else Next(cfg, After(cfg, s, steps[..|steps| - 1]), steps[|steps| - 1])
  }

  ghost predicate IsRun(cfg: Config, s: System, steps: seq<Step>) {
    forall i {:trigger steps[i]} :: 0 <= i < |steps| ==> Enabled(After(cfg, s, steps[..i]), steps[i])
  }

  lemma RunPrefix(cfg: Config, s: System, steps: seq<Step>, n: nat)
    requires IsRun(cfg, s, steps) && n <= |steps|
    ensures IsRun(cfg, s, steps[..n])
  {
    forall i | 0 <= i < n ensures Enabled(After(cfg, s, steps[..n][..i]), steps[..n][i]) {
      assert steps[..n][..i] == steps[..i] && steps[..n][i] == steps[i];
    }
  }

  lemma OneStep(cfg: Config, s: System, steps: seq<Step>, i: nat)
    requires i < |steps|
    ensures After(cfg, s, steps[..i + 1]) == Next(cfg, After(cfg, s, steps[..i]), steps[i])
  {
    assert steps[..i + 1][..i] == steps[..i];
  }

  // ---- Safety -----------------------------------------------------------------------------------------

  ghost predicate Consistent(cfg: Config, v: View) {
    && (v.state != Closed <==> v.openedAt.Some?)
    && (v.state != Closed <==> v.failures >= cfg.failureThreshold)
  }

  lemma {:induction false} ConsistentAfter(cfg: Config, steps: seq<Step>)
    requires cfg.failureThreshold >= 1
    ensures Consistent(cfg, After(cfg, START, steps).view)
  {
    if steps != [] {
      ConsistentAfter(cfg, steps[..|steps| - 1]);
    }
  }

  /**
   Not CLOSED, a set timestamp and a reached threshold are one fact in every reachable state, exactly when the
   threshold is positive.
   */
  lemma NotClosedIsOneFact(cfg: Config)
    ensures (forall steps :: IsRun(cfg, START, steps) ==> Consistent(cfg, After(cfg, START, steps).view))
            <==> cfg.failureThreshold >= 1
  {
    if cfg.failureThreshold >= 1 {
      forall steps | IsRun(cfg, START, steps) ensures Consistent(cfg, After(cfg, START, steps).view) {
        ConsistentAfter(cfg, steps);
      }
    } else {
      assert IsRun(cfg, START, []) && !Consistent(cfg, After(cfg, START, []).view);
    }
  }

  /** Recording a failure by the count alone, without asking whether a trial was running. */
  function AfterFailureByCount(cfg: Config, v: View, now: real): View {
    if v.failures + 1 >= cfg.failureThreshold then View(Open, v.failures + 1, Some(now))
    else v.(failures := v.failures + 1)
  }

  lemma HalfOpenTestIsRedundant(cfg: Config, steps: seq<Step>, now: real)
    requires IsRun(cfg, START, steps)
    ensures var v := After(cfg, START, steps).view; AfterFailure(cfg, v, now) == AfterFailureByCount(cfg, v, now)
  {
    if cfg.failureThreshold >= 1 {
      ConsistentAfter(cfg, steps);
    }
  }

  lemma {:induction false} HalfOpenUntilRecorded(cfg: Config, s: System, steps: seq<Step>, i: nat, j: nat)
    requires i <= j <= |steps|
    requires After(cfg, s, steps[..i]).view.state == HalfOpen
    requires forall k :: i <= k < j ==> !steps[k].event.Recorded()
    ensures After(cfg, s, steps[..j]).view.state == HalfOpen
    decreases j - i
  {
    if i < j {
      OneStep(cfg, s, steps, i);
      HalfOpenUntilRecorded(cfg, s, steps, i + 1, j);
    }
  }

  /** Between two trials, from any state whatsoever, some outcome was recorded. */
  lemma OneTrialPerOutcome(cfg: Config, s: System, steps: seq<Step>, i: nat, j: nat)
    requires IsRun(cfg, s, steps) && i < j < |steps|
    requires Trial(cfg, After(cfg, s, steps[..i]), steps[i]) && Trial(cfg, After(cfg, s, steps[..j]), steps[j])
    ensures exists k :: i < k < j && steps[k].event.Recorded()
  {
    if forall k :: i < k < j ==> !steps[k].event.Recorded() {
      OneStep(cfg, s, steps, i);
      HalfOpenUntilRecorded(cfg, s, steps, i + 1, j);
      assert false;
    }
  }

  // ---- What the count is ------------------------------------------------------------------------------

  function FailuresIn(steps: seq<Step>): nat {
    if steps == [] then 0
    else FailuresIn(steps[..|steps| - 1]) + if steps[|steps| - 1].event.Fail? then 1 else 0
  }

  /** The steps from `k` on are those after the last success, or all of them when there was none. */
  ghost predicate IsStreak(steps: seq<Step>, k: nat) {
    && k <= |steps|
    && (k > 0 ==> steps[k - 1].event.Succeed?)
    && forall i :: k <= i < |steps| ==> !steps[i].event.Succeed?
  }

  lemma {:induction false} StreakExists(steps: seq<Step>) returns (k: nat)
    ensures IsStreak(steps, k)
  {
    k := |steps|;
    if steps != [] && !steps[k - 1].event.Succeed? {
      k := StreakExists(steps[..k - 1]);
    }
  }

  /** The count is that of the failures recorded since the last success: a success forgets all before it. */
  lemma {:induction false} FailuresAreConsecutive(cfg: Config, steps: seq<Step>, k: nat)
    requires IsStreak(steps, k)
    ensures After(cfg, START, steps).view.failures == FailuresIn(steps[k..])
  {
    if k < |steps| {
      var n := |steps| - 1;
      FailuresAreConsecutive(cfg, steps[..n], k);
      assert steps[k..][..n - k] == steps[..n][k..];
    } else if k > 0 {
      assert steps[k..] == [];
    }
  }

  /** With a positive threshold, in every run the breaker is not CLOSED exactly when that many calls failed in a row. */
  lemma OpenExactlyAtTheStreak(cfg: Config, steps: seq<Step>, k: nat)
    requires cfg.failureThreshold >= 1 && IsStreak(steps, k)
    ensures After(cfg, START, steps).view.state != Closed <==> FailuresIn(steps[k..]) >= cfg.failureThreshold
  {
    ConsistentAfter(cfg, steps);
    FailuresAreConsecutive(cfg, steps, k);
  }

  // ---- Timing -----------------------------------------------------------------------------------------

  function LatestFailure(steps: seq<Step>): Option<real> {
    if steps == [] then None
    else
      var last := steps[|steps| - 1];
      if last.event.Fail? then Some(last.time) else LatestFailure(steps[..|steps| - 1])
  }

  lemma {:induction false} OpenedAtLatestFailure(cfg: Config, steps: seq<Step>)
    ensures var v := After(cfg, START, steps).view;
            v.state != Closed ==>
              v.openedAt == LatestFailure(steps) && v.openedAt.Some? && v.failures >= cfg.failureThreshold
  {
    if steps != [] {
      OpenedAtLatestFailure(cfg, steps[..|steps| - 1]);
    }
  }

  lemma {:induction false} ClockIsLatest(cfg: Config, s: System, steps: seq<Step>, k: nat)
    requires IsRun(cfg, s, steps) && k < |steps|
    ensures steps[k].time <= After(cfg, s, steps).clock
  {
    var n := |steps| - 1;
    RunPrefix(cfg, s, steps, n);
    assert Enabled(After(cfg, s, steps[..n]), steps[n]);
    if k < n {
      ClockIsLatest(cfg, s, steps[..n], k);
    }
  }

  lemma {:induction false} LatestFailureIsLatest(cfg: Config, steps: seq<Step>, k: nat)
    requires IsRun(cfg, START, steps) && k < |steps| && steps[k].event.Fail?
    ensures LatestFailure(steps).Some? && steps[k].time <= LatestFailure(steps).value
  {
    var n := |steps| - 1;
    RunPrefix(cfg, START, steps, n);
    assert Enabled(After(cfg, START, steps[..n]), steps[n]);
    if steps[n].event.Fail? {
      if k < n {
        ClockIsLatest(cfg, START, steps[..n], k);
      }
    } else {
      LatestFailureIsLatest(cfg, steps[..n], k);
    }
  }

  /** A trial comes at least one cooldown after every failure recorded before it. */
  lemma TrialWaitsOutTheCooldown(cfg: Config, steps: seq<Step>, k: nat, i: nat)
    requires IsRun(cfg, START, steps) && k < i < |steps|
    requires steps[k].event.Fail? && Trial(cfg, After(cfg, START, steps[..i]), steps[i])
    ensures steps[i].time - steps[k].time >= cfg.cooldown
  {
    RunPrefix(cfg, START, steps, i);
    OpenedAtLatestFailure(cfg, steps[..i]);
    LatestFailureIsLatest(cfg, steps[..i], k);
  }

  // ---- Progress ---------------------------------------------------------------------------------------

  function LatestTrial(cfg: Config, steps: seq<Step>): Option<CallId> {
    if steps == [] then None
    else
      var n := |steps| - 1;
      if Trial(cfg, After(cfg, START, steps[..n]), steps[n]) then Some(steps[n].event.id)
      else LatestTrial(cfg, steps[..n])
  }

  ghost predicate EveryCallIsRecorded(steps: seq<Step>) {
    forall i :: 0 <= i < |steps| ==> !steps[i].event.Abort?
  }

  lemma {:induction false} HalfOpenHasItsTrial(cfg: Config, steps: seq<Step>)
    requires IsRun(cfg, START, steps) && EveryCallIsRecorded(steps)
    ensures var s := After(cfg, START, steps);
            s.view.state == HalfOpen ==> LatestTrial(cfg, steps).Some? && LatestTrial(cfg, steps).value in s.inFlight
  {
    if steps != [] {
      var n := |steps| - 1;
      RunPrefix(cfg, START, steps, n);
      HalfOpenHasItsTrial(cfg, steps[..n]);
      assert Enabled(After(cfg, START, steps[..n]), steps[n]) && !steps[n].event.Abort?;
    }
  }

  /** When every call ends in a result or a listed failure, an idle breaker past its cooldown admits. */
  lemma IdleBreakerAdmits(cfg: Config, steps: seq<Step>, next: Step)
    requires IsRun(cfg, START, steps) && EveryCallIsRecorded(steps)
    requires After(cfg, START, steps).inFlight == {} && next.event.Arrive?
    requires LatestFailure(steps).Some? ==> next.time >= LatestFailure(steps).value + cfg.cooldown
    ensures Admitted(cfg, After(cfg, START, steps), next)
  {
    HalfOpenHasItsTrial(cfg, steps);
    OpenedAtLatestFailure(cfg, steps);
  }

  /** No step of the run ends one of these calls. */
  ghost predicate Keeps(steps: seq<Step>, calls: set<CallId>) {
    forall i :: 0 <= i < |steps| ==> steps[i].event.Arrive? || steps[i].event.id !in calls
  }

  ghost predicate AdmitsNobody(cfg: Config, s: System, steps: seq<Step>) {
    forall i {:trigger steps[i]} :: 0 <= i < |steps| ==> !Admitted(cfg, After(cfg, s, steps[..i]), steps[i])
  }

  ghost predicate RejectsWhile(cfg: Config, s: System, calls: set<CallId>) {
    forall steps :: IsRun(cfg, s, steps) && Keeps(steps, calls) ==> AdmitsNobody(cfg, s, steps)
  }

  lemma {:induction false} HalfOpenStays(cfg: Config, s: System, calls: set<CallId>, steps: seq<Step>)
    requires s.view.state == HalfOpen && s.inFlight <= calls
    requires IsRun(cfg, s, steps) && Keeps(steps, calls)
    ensures After(cfg, s, steps).view.state == HalfOpen && After(cfg, s, steps).inFlight <= calls
    ensures AdmitsNobody(cfg, s, steps)
  {
    if steps != [] {
      var n := |steps| - 1;
      RunPrefix(cfg, s, steps, n);
      HalfOpenStays(cfg, s, calls, steps[..n]);
      assert Enabled(After(cfg, s, steps[..n]), steps[n]);
      forall i | 0 <= i < n ensures !Admitted(cfg, After(cfg, s, steps[..i]), steps[i]) {
        assert steps[..n][..i] == steps[..i] && steps[..n][i] == steps[i];
      }
    }
  }

  lemma TwoSteps(cfg: Config, s: System, a: Step, b: Step)
    requires Enabled(s, a) && Enabled(Next(cfg, s, a), b)
    ensures IsRun(cfg, s, [a, b]) && After(cfg, s, [a, b][..1]) == Next(cfg, s, a)
  {
    assert [a, b][..0] == [] && [a, b][..1] == [a] && [a][..0] == [];
  }

  /**
   A HALF_OPEN breaker rejects every arrival for as long as the given calls stay in flight exactly when no
   other call is in flight. With the trial alone it is exclusive; with nobody in flight (the trial ended
   without being recorded) it rejects for ever.
   */
  lemma HalfOpenRejectsExactlyWhile(cfg: Config, s: System, calls: set<CallId>)
    requires s.view.state == HalfOpen
    ensures RejectsWhile(cfg, s, calls) <==> s.inFlight <= calls
  {
    if s.inFlight <= calls {
      forall steps | IsRun(cfg, s, steps) && Keeps(steps, calls) ensures AdmitsNobody(cfg, s, steps) {
        HalfOpenStays(cfg, s, calls, steps);
      }
    } else {
      var other :| other in s.inFlight && other !in calls;
      var a, b := Step(s.clock, Succeed(other)), Step(s.clock, Arrive(other));
      TwoSteps(cfg, s, a, b);
      assert Admitted(cfg, After(cfg, s, [a, b][..1]), [a, b][1]);
      assert IsRun(cfg, s, [a, b]) && Keeps([a, b], calls) && !AdmitsNobody(cfg, s, [a, b]);
    }
  }

  ghost function AboveAll(ids: set<CallId>): (n: CallId)
    ensures forall id :: id in ids ==> id < n
  {
    if ids == {} then 0
    else
      var id :| id in ids;
      var n := AboveAll(ids - {id});
      assert forall other :: other in ids ==> other == id || other in ids - {id};
      if id < n then n else id + 1
  }

  /** The breaker is stuck, rejecting every call of every future, exactly when it is HALF_OPEN with nobody in flight. */
  lemma StuckExactlyWhen(cfg: Config, s: System)
    ensures RejectsWhile(cfg, s, {}) <==> s.view.state == HalfOpen && s.inFlight == {}
  {
    if s.view.state == HalfOpen {
      HalfOpenRejectsExactlyWhile(cfg, s, {});
    } else {
      var due := if s.view.openedAt.Some? then s.view.openedAt.value + cfg.cooldown else s.clock;
      var step := Step(if due < s.clock then s.clock else due, Arrive(AboveAll(s.inFlight)));
      assert [step][..0] == [] && [step][0] == step;
      assert Enabled(s, step) && Admitted(cfg, s, step);
      assert IsRun(cfg, s, [step]) && Keeps([step], {}) && !AdmitsNobody(cfg, s, [step]);
    }
  }

  lemma Extend(cfg: Config, steps: seq<Step>, step: Step)
    requires IsRun(cfg, START, steps) && Enabled(After(cfg, START, steps), step)
    ensures IsRun(cfg, START, steps + [step])
    ensures After(cfg, START, steps + [step]) == Next(cfg, After(cfg, START, steps), step)
    ensures TrialsInFlight(cfg, steps + [step]) == NextTrials(cfg, steps, step)
  {
    var longer := steps + [step];
    assert longer[..|steps|] == steps;
    forall i | 0 <= i < |longer| ensures Enabled(After(cfg, START, longer[..i]), longer[i]) {
      assert i < |steps| ==> longer[..i] == steps[..i] && longer[i] == steps[i];
    }
  }

  /** The trials that have not ended yet. */
  function TrialsInFlight(cfg: Config, steps: seq<Step>): set<CallId>
    decreases |steps|, 0
  {
    if steps == [] then {} else NextTrials(cfg, steps[..|steps| - 1], steps[|steps| - 1])
  }

  function NextTrials(cfg: Config, steps: seq<Step>, step: Step): set<CallId>
    decreases |steps|, 1
  {
    if Trial(cfg, After(cfg, START, steps), step) then TrialsInFlight(cfg, steps) + {step.event.id}
    else if step.event.Arrive? then TrialsInFlight(cfg, steps)
    else TrialsInFlight(cfg, steps) - {step.event.id}
  }

  /** One call fails, the next is admitted as the trial. */
  lemma RunToFirstTrial(cfg: Config, late: bool) returns (steps: seq<Step>)
    requires cfg.failureThreshold == 1 && cfg.cooldown >= 0.0
    ensures IsRun(cfg, START, steps)
    ensures After(cfg, START, steps) == System(View(HalfOpen, 1, Some(0.0)), cfg.cooldown, if late then {1, 2} else {2})
    ensures TrialsInFlight(cfg, steps) == {2}
  {
    steps := [];
    Extend(cfg, steps, Step(0.0, Arrive(0)));
    steps := steps + [Step(0.0, Arrive(0))];
    if late {
      Extend(cfg, steps, Step(0.0, Arrive(1)));
      steps := steps + [Step(0.0, Arrive(1))];
    }
    assert TrialsInFlight(cfg, steps) == {};
    Extend(cfg, steps, Step(0.0, Fail(0)));
    steps := steps + [Step(0.0, Fail(0))];
    assert After(cfg, START, steps) == System(View(Open, 1, Some(0.0)), 0.0, if late then {1} else {});
    Extend(cfg, steps, Step(cfg.cooldown, Arrive(2)));
    steps := steps + [Step(cfg.cooldown, Arrive(2))];
  }

  /** A trial that ends without being recorded does leave a reachable breaker stuck. */
  lemma AbortedTrialSticks(cfg: Config)
    requires cfg.failureThreshold == 1 && cfg.cooldown >= 0.0
    ensures exists steps :: IsRun(cfg, START, steps) && RejectsWhile(cfg, After(cfg, START, steps), {})
  {
    var steps := RunToFirstTrial(cfg, false);
    var end := Step(cfg.cooldown, Abort(2));
    Extend(cfg, steps, end);
    StuckExactlyWhen(cfg, After(cfg, START, steps + [end]));
  }

  /**
   The trial is not always alone: a call admitted while CLOSED can fail during the trial, which re-opens the
   breaker, and one cooldown later a second trial is admitted while the first is still running.
   */
  lemma TwoTrialsInFlight(cfg: Config)
    requires cfg.failureThreshold == 1 && cfg.cooldown >= 0.0
    ensures exists steps :: IsRun(cfg, START, steps) && TrialsInFlight(cfg, steps) == {2, 3}
  {
    var steps := RunToFirstTrial(cfg, true);
    var lateFailure, second := Step(cfg.cooldown, Fail(1)), Step(cfg.cooldown + cfg.cooldown, Arrive(3));
    Extend(cfg, steps, lateFailure);
    steps := steps + [lateFailure];
    assert After(cfg, START, steps).view == View(Open, 2, Some(cfg.cooldown));
    Extend(cfg, steps, second);
    steps := steps + [second];
    assert IsRun(cfg, START, steps) && TrialsInFlight(cfg, steps) == {2, 3};
  }
}
