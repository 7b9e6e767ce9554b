/**
 Submitting a turn at most once (app/job_queue/producer.py, `stream_turn`, over `claim_or_get_existing_submission`
 and `release_submission_claim` of app/job_queue/queue.py).

 A submission is a claim on a key that expires by itself, a publish, and a compensating delete if the publish
 fails. Each Redis command is one step; any number of submissions interleave and can die anywhere.
 */
module Submissions {
  import opened Wrappers

  /** A (thread, digest) pair. */
  type Key = string

  /** A submission, and the request id it would publish under. */
  type RequestId = nat

  /** `from` is how many turns had been published when the claim was set: history, not something Redis keeps. */
  datatype Claim = Claim(request: RequestId, expires: real, from: nat)

  datatype Phase =
    | Probing       // SET NX was refused; the holder is about to be read
    | Taking        // the holder had expired meanwhile; the key is about to be set
    | Won(deadline: real)       // the claim is ours until then; the job is about to be published
    | Failed(deadline: real)    // publishing failed; the claim is about to be released
    | Reading(of: RequestId)

  datatype Submission = Submission(key: Key, phase: Phase)

  datatype Turn = Turn(key: Option<Key>, request: RequestId)

  /** The submission's shared state when one call of `stream_turn` runs with nobody else. */
  class SubmissionStore {
    const ttl: real
    var claims: map<Key, (RequestId, real)>
    var turns: seq<Turn>

    constructor (ttl: real)
      ensures this.ttl == ttl && claims == map[] && turns == []
    {
      this.ttl := ttl;
      claims, turns := map[], [];
    }

    /**
     Without a key every call is a new turn; with a live claim on the key none is; a failed publish leaves no
     claim behind.
     */
    method StreamTurn(key: Option<Key>, id: RequestId, now: real, publishLands: bool)
      returns (request: Option<RequestId>)
      modifies this
      ensures var held := key.Some? && key.value in old(claims) && now < old(claims)[key.value].1;
              && turns == old(turns) + (if held || !publishLands then [] else [Turn(key, id)])
              && request == (if held then Some(old(claims)[key.value].0) else if publishLands then Some(id) else None)
              && claims == (if held || key.None? then old(claims)
                            else if publishLands then old(claims)[key.value := (id, now + ttl)]
                            else old(claims) - {key.value})
    {
      if key.Some? {
        if key.value in claims && now < claims[key.value].1 {
          return Some(claims[key.value].0);
        }
        claims := claims[key.value := (id, now + ttl)];
      }
      if publishLands {
        turns := turns + [Turn(key, id)];
        return Some(id);
      }
      if key.Some? {
        claims := claims - {key.value};
      }
      return None;
    }
  }

  /** `ousted` is history too: whose claim another call overwrote or deleted before it had expired. */
  datatype State = State(
    clock: real,
    claims: map<Key, Claim>,
    calls: map<RequestId, Submission>,
    turns: seq<Turn>,
    seen: set<RequestId>,
    died: set<RequestId>,
    ousted: set<RequestId>)

  const START := State(0.0, map[], map[], [], {}, {}, {})

  /** `Crash` is also a delete that fails after a failed publish, which the caller only logs. */
  datatype Event =
    | SetNx(id: RequestId, key: Key)
    | ReadHolder(id: RequestId)
    | SetAnyway(id: RequestId)
    | Publish(id: RequestId)
    | PublishFails(id: RequestId)
    | Release(id: RequestId)
    | Leave(id: RequestId)
    | Crash(id: RequestId)

  datatype Step = Step(time: real, event: Event)

  predicate Live(s: State, key: Key, now: real) {
    key in s.claims && now < s.claims[key].expires
  }

  predicate Enabled(s: State, step: Step) {
    && s.clock <= step.time
    && match step.event
       case SetNx(id, _) => id !in s.seen
       case ReadHolder(id) => id in s.calls && s.calls[id].phase.Probing?
       case SetAnyway(id) => id in s.calls && s.calls[id].phase.Taking?
       case Publish(id) => id in s.calls && s.calls[id].phase.Won?
       case PublishFails(id) => id in s.calls && s.calls[id].phase.Won?
       case Release(id) => id in s.calls && s.calls[id].phase.Failed?
       case Leave(id) => id in s.calls && s.calls[id].phase.Reading?
       case Crash(id) => id in s.calls
  }

  function Move(s: State, id: RequestId, phase: Phase): State
    requires id in s.calls
  {
    s.(calls := s.calls[id := s.calls[id].(phase := phase)])
  }

  /** The key is set to this call's request id, for `ttl` from now on. */
  function SetClaim(s: State, id: RequestId, ttl: real): State
    requires id in s.calls
  {
    var claimed := s.(claims := s.claims[s.calls[id].key := Claim(id, s.clock + ttl, |s.turns|)]);
    Move(claimed, id, Won(s.clock + ttl))
  }

  /** Whoever else holds the key now is ousted by what this call is about to do to it. */
  function Oust(s: State, id: RequestId): State
    requires id in s.calls
  {
    var key := s.calls[id].key;
    if Live(s, key, s.clock) then s.(ousted := s.ousted + ({s.claims[key].request} - {id})) else s
  }

  function Next(ttl: real, s0: State, step: Step): State
    requires Enabled(s0, step)
  {
    var s := s0.(clock := step.time);
    match step.event
    case SetNx(id, key) =>
      var joined := s.(calls := s.calls[id := Submission(key, Probing)], seen := s.seen + {id});
      if Live(s, key, step.time) then joined else SetClaim(joined, id, ttl)
    case ReadHolder(id) =>
      var key := s.calls[id].key;
      if Live(s, key, step.time) then Move(s, id, Reading(s.claims[key].request)) else Move(s, id, Taking)
    case SetAnyway(id) => SetClaim(Oust(s, id), id, ttl)
    case Publish(id) => Move(s.(turns := s.turns + [Turn(Some(s.calls[id].key), id)]), id, Reading(id))
    case PublishFails(id) => Move(s, id, Failed(s.calls[id].phase.deadline))
    case Release(id) => Oust(s, id).(claims := s.claims - {s.calls[id].key}, calls := s.calls - {id})
    case Leave(id) => s.(calls := s.calls - {id})
    case Crash(id) => s.(calls := s.calls - {id}, died := s.died + {id})
  }

  function After(ttl: real, steps: seq<Step>): Option<State> {
    if steps == [] then Some(START)
    else
      var before, step := After(ttl, steps[..|steps| - 1]), steps[|steps| - 1];
      if before.Some? && Enabled(before.value, step) then Some(Next(ttl, before.value, step)) else None
  }

  // ---- Who holds a claim, in every run ----------------------------------------------------------------

  /** The call has set its claim and has neither published nor released it. */
  predicate Claiming(s: State, id: RequestId) {
    id in s.calls && (s.calls[id].phase.Won? || s.calls[id].phase.Failed?)
  }

  /** What Redis has under the call's key at that time is the call's own request id. */
  ghost predicate Holds(s: State, id: RequestId, now: real)
    requires id in s.calls
  {
    Live(s, s.calls[id].key, now) && s.claims[s.calls[id].key].request == id
  }

  ghost predicate CallsAreSeen(s: State) {
    && s.calls.Keys <= s.seen && s.ousted <= s.seen
    && (forall id :: id in s.calls && (s.calls[id].phase.Probing? || s.calls[id].phase.Taking?) ==> id !in s.ousted)
  }

  ghost predicate ClaimIsOwned(s: State, key: Key, claim: Claim) {
    && claim.request in s.seen && claim.request !in s.ousted
    && (claim.request in s.calls ==>
          && var call := s.calls[claim.request];
          && call.key == key && !call.phase.Probing? && !call.phase.Taking?
          && (Claiming(s, claim.request) ==> claim.expires == call.phase.deadline))
  }

  ghost predicate ClaimsAreOwned(s: State) {
    forall key :: key in s.claims ==> ClaimIsOwned(s, key, s.claims[key])
  }

  ghost predicate OneKeyEach(s: State) {
    forall a, b :: a in s.claims && b in s.claims && s.claims[a].request == s.claims[b].request ==> a == b
  }

  ghost predicate OwnerHolds(s: State, id: RequestId) {
    Claiming(s, id) && id !in s.ousted && s.clock < s.calls[id].phase.deadline ==>
      s.calls[id].key in s.claims && s.claims[s.calls[id].key].request == id
  }

  ghost predicate HoldersOk(s: State) {
    CallsAreSeen(s) && ClaimsAreOwned(s) && OneKeyEach(s) && forall id :: OwnerHolds(s, id)
  }

  lemma CallsAreSeenStep(ttl: real, s: State, step: Step)
    requires CallsAreSeen(s) && ClaimsAreOwned(s) && Enabled(s, step)
    ensures CallsAreSeen(Next(ttl, s, step))
  {
  }

  lemma OneKeyEachStep(ttl: real, s: State, step: Step)
    requires CallsAreSeen(s) && ClaimsAreOwned(s) && OneKeyEach(s) && Enabled(s, step)
    ensures OneKeyEach(Next(ttl, s, step))
  {
  }

  lemma ClaimIsOwnedStep(ttl: real, s: State, step: Step, key: Key)
    requires CallsAreSeen(s) && OneKeyEach(s) && Enabled(s, step) && key in Next(ttl, s, step).claims
    requires key in s.claims ==> ClaimIsOwned(s, key, s.claims[key])
    ensures ClaimIsOwned(Next(ttl, s, step), key, Next(ttl, s, step).claims[key])
  {
  }

  lemma OwnerHoldsStep(ttl: real, s: State, step: Step, id: RequestId)
    requires CallsAreSeen(s) && ClaimsAreOwned(s) && OwnerHolds(s, id) && Enabled(s, step)
    ensures OwnerHolds(Next(ttl, s, step), id)
  {
  }

  lemma {:induction false} HoldersOkAfter(ttl: real, steps: seq<Step>)
    requires After(ttl, steps).Some?
    ensures HoldersOk(After(ttl, steps).value)
  {
    if steps != [] {
      var before, step := After(ttl, steps[..|steps| - 1]).value, steps[|steps| - 1];
      HoldersOkAfter(ttl, steps[..|steps| - 1]);
      var after := Next(ttl, before, step);
      CallsAreSeenStep(ttl, before, step);
      OneKeyEachStep(ttl, before, step);
      forall key | key in after.claims ensures ClaimIsOwned(after, key, after.claims[key]) {
        ClaimIsOwnedStep(ttl, before, step, key);
      }
      forall id ensures OwnerHolds(after, id) {
        OwnerHoldsStep(ttl, before, step, id);
      }
    }
  }

  lemma OwnersHoldUntil(s: State, id: RequestId, now: real)
    requires ClaimsAreOwned(s) && OwnerHolds(s, id) && Claiming(s, id) && s.clock <= now
    ensures Holds(s, id, now) <==> now < s.calls[id].phase.deadline && id !in s.ousted
  {
  }

  /** In every run, a call that claimed holds its claim exactly until its own deadline, unless it was ousted. */
  lemma HoldsExactlyWhen(ttl: real, steps: seq<Step>, id: RequestId, now: real)
    requires After(ttl, steps).Some? && Claiming(After(ttl, steps).value, id) && After(ttl, steps).value.clock <= now
    ensures var s := After(ttl, steps).value;
            Holds(s, id, now) <==> now < s.calls[id].phase.deadline && id !in s.ousted
  {
    HoldersOkAfter(ttl, steps);
    OwnersHoldUntil(After(ttl, steps).value, id, now);
  }

  /**
   In every run, a publish puts a turn under someone else's live claim exactly when the key is claimed at that
   time and the publisher's own deadline has passed or its claim was overwritten or deleted.
   */
  lemma PublishIsStrayExactlyWhen(ttl: real, steps: seq<Step>, step: Step)
    requires After(ttl, steps).Some? && Enabled(After(ttl, steps).value, step) && step.event.Publish?
    ensures var s, s' := After(ttl, steps).value, Next(ttl, After(ttl, steps).value, step);
            var id := step.event.id;
            var key := s.calls[id].key;
            && s'.turns == s.turns + [Turn(Some(key), id)]
            && (Live(s', key, s'.clock) && s'.claims[key].request != id <==>
                Live(s, key, step.time) && (s.calls[id].phase.deadline <= step.time || id in s.ousted))
  {
    HoldsExactlyWhen(ttl, steps, step.event.id, step.time);
  }

  // ---- At most one turn per claim ---------------------------------------------------------------------

  /** Who publishes or releases does so before its own deadline, and no claim is set over a live one. */
  ghost predicate Timely(s: State, step: Step)
    requires Enabled(s, step)
  {
    match step.event
    case SetAnyway(id) => !Live(s, s.calls[id].key, step.time)
    case Publish(id) => step.time < s.calls[id].phase.deadline
    case Release(id) => step.time < s.calls[id].phase.deadline
    case _ => true
  }

  ghost predicate TimelyRun(ttl: real, steps: seq<Step>)
    requires After(ttl, steps).Some?
  {
    steps != [] ==>
      && TimelyRun(ttl, steps[..|steps| - 1])
      && Timely(After(ttl, steps[..|steps| - 1]).value, steps[|steps| - 1])
  }

  lemma {:induction false} NobodyIsOusted(ttl: real, steps: seq<Step>)
    requires After(ttl, steps).Some? && TimelyRun(ttl, steps)
    ensures After(ttl, steps).value.ousted == {}
  {
    if steps != [] {
      var before, step := steps[..|steps| - 1], steps[|steps| - 1];
      NobodyIsOusted(ttl, before);
      if step.event.Release? {
        HoldsExactlyWhen(ttl, before, step.event.id, step.time);
      }
    }
  }

  /** The call has not published yet. */
  ghost predicate Silent(s: State, id: RequestId) {
    forall i :: 0 <= i < |s.turns| ==> s.turns[i].request != id
  }

  /** The turns published for the key since its claim was set are the claim's own. */
  ghost predicate ClaimsOk(s: State) {
    forall key :: key in s.claims ==>
      && s.claims[key].from <= |s.turns|
      && forall i :: s.claims[key].from <= i < |s.turns| && s.turns[i].key == Some(key) ==>
                       s.turns[i].request == s.claims[key].request
  }

  ghost predicate CallsOk(s: State) {
    && (forall id :: id in s.calls ==> id in s.seen && (!s.calls[id].phase.Reading? ==> Silent(s, id)))
    && (forall i :: 0 <= i < |s.turns| ==> s.turns[i].request in s.seen)
    && (forall i, j :: 0 <= i < j < |s.turns| ==> s.turns[i].request != s.turns[j].request)
  }

  lemma CallsStep(ttl: real, s: State, step: Step)
    requires CallsOk(s) && Enabled(s, step)
    ensures CallsOk(Next(ttl, s, step))
  {
  }

  lemma ClaimsStep(ttl: real, s: State, step: Step)
    requires ClaimsOk(s) && Enabled(s, step) && (step.event.Publish? ==> Holds(s, step.event.id, step.time))
    ensures ClaimsOk(Next(ttl, s, step))
  {
  }

  lemma {:induction false} OkAfter(ttl: real, steps: seq<Step>)
    requires After(ttl, steps).Some? && TimelyRun(ttl, steps)
    ensures ClaimsOk(After(ttl, steps).value) && CallsOk(After(ttl, steps).value)
  {
    if steps != [] {
      var before, step := steps[..|steps| - 1], steps[|steps| - 1];
      OkAfter(ttl, before);
      CallsStep(ttl, After(ttl, before).value, step);
      if step.event.Publish? {
        NobodyIsOusted(ttl, before);
        HoldsExactlyWhen(ttl, before, step.event.id, step.time);
      }
      ClaimsStep(ttl, After(ttl, before).value, step);
    }
  }

  /** Since a claim was set, at most one turn has been published for its key, under the claim's own request id. */
  lemma OneTurnPerClaim(ttl: real, steps: seq<Step>, key: Key, i: nat, j: nat)
    requires After(ttl, steps).Some? && TimelyRun(ttl, steps) && key in After(ttl, steps).value.claims
    requires var s := After(ttl, steps).value;
             && s.claims[key].from <= i < |s.turns| && s.claims[key].from <= j < |s.turns|
             && s.turns[i].key == Some(key) && s.turns[j].key == Some(key)
    ensures i == j && After(ttl, steps).value.turns[i].request == After(ttl, steps).value.claims[key].request
  {
    OkAfter(ttl, steps);
    var s := After(ttl, steps).value;
    assert s.turns[i].request == s.turns[j].request;
  }

  lemma Extend(ttl: real, steps: seq<Step>, step: Step)
    requires After(ttl, steps).Some? && Enabled(After(ttl, steps).value, step)
    ensures After(ttl, steps + [step]) == Some(Next(ttl, After(ttl, steps).value, step))
  {
    assert (steps + [step])[..|steps|] == steps;
  }

  /** The run ends with two turns published for the key since the claim now live on it was set. */
  ghost predicate TwoTurnsUnderOneClaim(ttl: real, steps: seq<Step>, key: Key, first: RequestId, second: RequestId) {
    && After(ttl, steps).Some?
    && var s := After(ttl, steps).value;
    && Live(s, key, s.clock) && s.claims[key].from == 0
    && first != second && s.turns == [Turn(Some(key), first), Turn(Some(key), second)]
  }

  /** The deadlines are needed: a submission that stalls past its own publishes a second turn under the next claim. */
  lemma StalledSubmissionPublishesTwice(ttl: real, key: Key)
    requires ttl > 0.0
    ensures exists steps :: TwoTurnsUnderOneClaim(ttl, steps, key, 1, 0)
  {
    var a, b := Step(0.0, SetNx(0, key)), Step(ttl, SetNx(1, key));
    var c, d := Step(ttl, Publish(1)), Step(ttl, Publish(0));
    Extend(ttl, [], a);
    Extend(ttl, [] + [a], b);
    Extend(ttl, [] + [a] + [b], c);
    Extend(ttl, [] + [a] + [b] + [c], d);
    assert TwoTurnsUnderOneClaim(ttl, [] + [a] + [b] + [c] + [d], key, 1, 0);
  }

  lemma TwoTakers(ttl: real, key: Key) returns (steps: seq<Step>)
    requires ttl > 0.0
    ensures After(ttl, steps).Some?
    ensures var s := After(ttl, steps).value;
            && s.clock == ttl && s.turns == [] && s.calls.Keys == {0, 1, 2} && s.seen == {0, 1, 2}
            && s.calls[1] == Submission(key, Taking) && s.calls[2] == Submission(key, Taking)
  {
    var a, b, c := Step(0.0, SetNx(0, key)), Step(0.0, SetNx(1, key)), Step(0.0, SetNx(2, key));
    var d, e := Step(ttl, ReadHolder(1)), Step(ttl, ReadHolder(2));
    Extend(ttl, [], a);
    Extend(ttl, [] + [a], b);
    Extend(ttl, [] + [a] + [b], c);
    Extend(ttl, [] + [a] + [b] + [c], d);
    Extend(ttl, [] + [a] + [b] + [c] + [d], e);
    steps := [] + [a] + [b] + [c] + [d] + [e];
  }

  /**
   So is the other half: two repeats that both find the key expired both set it, and both publish well within
   their deadlines.
   */
  lemma RacingTakersPublishTwice(ttl: real, key: Key)
    requires ttl > 0.0
    ensures exists steps :: TwoTurnsUnderOneClaim(ttl, steps, key, 1, 2)
  {
    var run := TwoTakers(ttl, key);
    var a, b := Step(ttl, SetAnyway(1)), Step(ttl, SetAnyway(2));
    var c, d := Step(ttl, Publish(1)), Step(ttl, Publish(2));
    Extend(ttl, run, a);
    Extend(ttl, run + [a], b);
    Extend(ttl, run + [a] + [b], c);
    Extend(ttl, run + [a] + [b] + [c], d);
    assert TwoTurnsUnderOneClaim(ttl, run + [a] + [b] + [c] + [d], key, 1, 2);
  }

  // ---- A claim points at a real turn ------------------------------------------------------------------

  ghost predicate Published(s: State, key: Key, id: RequestId) {
    exists i :: 0 <= i < |s.turns| && s.turns[i] == Turn(Some(key), id)
  }

  /** The claim's turn was published, is about to be, is about to be released, or its submission died. */
  ghost predicate Backed(s: State, key: Key) {
    key in s.claims ==>
      var id := s.claims[key].request;
      Published(s, key, id) || id in s.died || (Claiming(s, id) && s.calls[id].key == key)
  }

  lemma BackedStep(ttl: real, s: State, step: Step, key: Key)
    requires Backed(s, key) && Enabled(s, step) && (key in s.claims ==> s.claims[key].request in s.seen)
    ensures Backed(Next(ttl, s, step), key)
  {
    var s' := Next(ttl, s, step);
    if key in s.claims && Published(s, key, s.claims[key].request) {
      var i :| 0 <= i < |s.turns| && s.turns[i] == Turn(Some(key), s.claims[key].request);
      assert s'.turns[i] == s.turns[i];
    }
    if step.event.Publish? {
      assert s'.turns[|s.turns|] == Turn(Some(s.calls[step.event.id].key), step.event.id);
    }
  }

  /**
   In every run, a repeated submission reads the first one's turn: published, about to be, about to be taken
   back, or lost with its process.
   */
  lemma {:induction false} RepeatFindsTheFirst(ttl: real, steps: seq<Step>, key: Key)
    requires After(ttl, steps).Some?
    ensures Backed(After(ttl, steps).value, key)
  {
    if steps != [] {
      RepeatFindsTheFirst(ttl, steps[..|steps| - 1], key);
      HoldersOkAfter(ttl, steps[..|steps| - 1]);
      BackedStep(ttl, After(ttl, steps[..|steps| - 1]).value, steps[|steps| - 1], key);
    }
  }

  // ---- What a call claims, and whom it reads ----------------------------------------------------------

  /** The step is this call's SET, refused or not at the time. */
  predicate Claims(step: Step, id: RequestId) {
    step.event == SetAnyway(id) || (step.event.SetNx? && step.event.id == id)
  }

  /** A claim protects its key for the whole lifetime from the moment it was set. */
  lemma {:induction false} DeadlineIsOneLifetime(ttl: real, steps: seq<Step>, id: RequestId)
    requires After(ttl, steps).Some? && Claiming(After(ttl, steps).value, id)
    ensures exists i :: 0 <= i < |steps| && Claims(steps[i], id)
                        && After(ttl, steps).value.calls[id].phase.deadline == steps[i].time + ttl
  {
    var n := |steps| - 1;
    if Claims(steps[n], id) {
    } else {
      DeadlineIsOneLifetime(ttl, steps[..n], id);
      var i :| 0 <= i < n && Claims(steps[..n][i], id)
               && After(ttl, steps[..n]).value.calls[id].phase.deadline == steps[..n][i].time + ttl;
      assert steps[i] == steps[..n][i];
    }
  }

  /** The `i`-th step of the run is this call's GET, and it found the live claim of request `r` on the key. */
  ghost predicate FoundAt(ttl: real, steps: seq<Step>, i: nat, id: RequestId, key: Key, r: RequestId) {
    && i < |steps| && steps[i].event == ReadHolder(id) && After(ttl, steps[..i]).Some?
    && var s := After(ttl, steps[..i]).value;
    && Live(s, key, steps[i].time) && s.claims[key].request == r
  }

  /**
   In every run, a call reads its own events only once it has published, and any other request's only if that
   request held the live claim on the call's key when the call looked.
   */
  lemma {:induction false} ReadsItsOwnOrTheHolders(ttl: real, steps: seq<Step>, id: RequestId)
    requires After(ttl, steps).Some? && id in After(ttl, steps).value.calls
    requires After(ttl, steps).value.calls[id].phase.Reading?
    ensures var s := After(ttl, steps).value;
            var (key, r) := (s.calls[id].key, s.calls[id].phase.of);
            (r == id && Published(s, key, id)) || exists i: nat :: FoundAt(ttl, steps, i, id, key, r)
  {
    var n := |steps| - 1;
    var s, before := After(ttl, steps).value, After(ttl, steps[..n]).value;
    var key, r := s.calls[id].key, s.calls[id].phase.of;
    if steps[n].event == ReadHolder(id) {
      assert FoundAt(ttl, steps, n, id, key, r);
    } else if steps[n].event == Publish(id) {
      assert s.turns[|before.turns|] == Turn(Some(key), id);
    } else {
      ReadsItsOwnOrTheHolders(ttl, steps[..n], id);
      if i: nat :| FoundAt(ttl, steps[..n], i, id, key, r) {
        assert steps[..n][..i] == steps[..i];
        assert FoundAt(ttl, steps, i, id, key, r);
      } else {
        var i :| 0 <= i < |before.turns| && before.turns[i] == Turn(Some(key), id);
        assert s.turns[i] == before.turns[i];
      }
    }
  }

  // ---- A call on its own ------------------------------------------------------------------------------

  /** The request a live claim on the key names. */
  function Holder(s: State, key: Key, now: real): Option<RequestId> {
    if Live(s, key, now) then Some(s.claims[key].request) else None
  }

  /**
   The steps of one call with nobody else in between: a live claim on the key is joined and nothing is published;
   otherwise the key is claimed for one lifetime and the turn published, or the claim is gone again.
   */
  lemma CallOnItsOwn(ttl: real, steps: seq<Step>, key: Key, id: RequestId, now: real, publishLands: bool)
      returns (more: seq<Step>)
    requires After(ttl, steps).Some?
    requires id !in After(ttl, steps).value.seen && After(ttl, steps).value.clock <= now
    ensures After(ttl, steps + more).Some?
    ensures var s, s' := After(ttl, steps).value, After(ttl, steps + more).value;
            var holder := Holder(s, key, now);
            if holder.Some? then
              && s'.turns == s.turns && s'.claims == s.claims
              && s'.calls == s.calls[id := Submission(key, Reading(holder.value))]
            else if publishLands then
              && s'.turns == s.turns + [Turn(Some(key), id)]
              && s'.claims == s.claims[key := Claim(id, now + ttl, |s.turns|)]
              && s'.calls == s.calls[id := Submission(key, Reading(id))]
            else
              s'.turns == s.turns && s'.claims == s.claims - {key} && s'.calls == s.calls - {id}
  {
    var s := After(ttl, steps).value;
    var probe := Step(now, SetNx(id, key));
    var reaction :=
      if Live(s, key, now) then ReadHolder(id) else if publishLands then Publish(id) else PublishFails(id);
    var second := Step(now, reaction);
    Extend(ttl, steps, probe);
    Extend(ttl, steps + [probe], second);
    more := [probe, second];
    assert steps + more == steps + [probe] + [second];
    if !Live(s, key, now) && !publishLands {
      var release := Step(now, Release(id));
      Extend(ttl, steps + more, release);
      assert steps + more + [release] == steps + (more + [release]);
      more := more + [release];
    }
  }
}
