/**
 The front door's public keys as the API keeps them (app/core/internal_identity.py, `InternalKeys`).

 `InternalKeys` is one call of `key_for` with nothing else running. Calls do run together: the first look is
 outside the lock, and the call that holds the lock gives way while it fetches. `System` is the cache with
 every call in progress; its runs are all interleavings, with any clock readings, any answers of the front
 door and cancellation anywhere.
 */
module KeyCache {
  import opened Wrappers

  /** A public key; only its identity matters here. */
  datatype Key = Key(material: string)

  datatype Config = Config(ttl: real, grace: real, minRefresh: real)

  datatype Cache = Cache(keys: map<string, Key>, fetchedAt: Option<real>, lastAttempt: Option<real>)

  const EMPTY: Cache := Cache(map[], None, None)

  predicate Fresh(cfg: Config, c: Cache, now: real) {
    c.fetchedAt.Some? && now - c.fetchedAt.value < cfg.ttl
  }

  predicate Usable(cfg: Config, c: Cache, now: real) {
    c.fetchedAt.Some? && now - c.fetchedAt.value < cfg.ttl + cfg.grace
  }

  predicate Hit(cfg: Config, c: Cache, kid: string, now: real) {
    Fresh(cfg, c, now) && kid in c.keys
  }

  predicate MayFetch(cfg: Config, c: Cache, now: real) {
    c.lastAttempt.Some? ==> now - c.lastAttempt.value >= cfg.minRefresh
  }

  datatype Reply = Found(key: Key) | NoSuchKey | Unavailable

  /** The answer given at the end of the locked section. */
  function Answer(cfg: Config, c: Cache, kid: string, now: real): Reply {
    if !Usable(cfg, c, now) then Unavailable else if kid in c.keys then Found(c.keys[kid]) else NoSuchKey
  }

  function Store(c: Cache, keys: map<string, Key>, now: real): Cache {
    c.(keys := keys, fetchedAt := Some(now))
  }

  /** One element of the published key set: unusable elements are skipped. */
  datatype Jwk = Good(kid: string, key: Key) | Bad

  /** The keys of a published set; a later element replaces an earlier one with the same kid. */
  function KeySet(jwks: seq<Jwk>): map<string, Key> {
    if jwks == [] then map[]
    else
      var before, last := KeySet(jwks[..|jwks| - 1]), jwks[|jwks| - 1];
      if last.Good? then before[last.kid := last.key] else before
  }

  /** A published kid has the key of the last usable element that carries it. */
  lemma {:induction false} KeyIsTheLastOne(jwks: seq<Jwk>, i: nat, kid: string)
    requires i < |jwks| && IsLastOf(jwks, i, kid)
    ensures kid in KeySet(jwks) && KeySet(jwks)[kid] == jwks[i].key
  {
    var n := |jwks| - 1;
    if i < n {
      assert !Carries(jwks[n], kid);
      assert forall j :: i <= j < n ==> jwks[..n][j] == jwks[j];
      KeyIsTheLastOne(jwks[..n], i, kid);
    }
  }

  /** And every published kid is so carried: nothing else is in the set. */
  lemma {:induction false} KeyWasCarried(jwks: seq<Jwk>, kid: string) returns (i: nat)
    requires kid in KeySet(jwks)
    ensures i < |jwks| && IsLastOf(jwks, i, kid)
  {
    i := |jwks| - 1;
    if !Carries(jwks[i], kid) {
      var n := i;
      i := KeyWasCarried(jwks[..n], kid);
      assert forall j :: i <= j < n ==> jwks[..n][j] == jwks[j];
    }
  }

  /** A published set is the last key under each kid that some usable element carries, and nothing else. */
  lemma KeySetHolds(jwks: seq<Jwk>, kid: string, key: Key)
    ensures (kid in KeySet(jwks) && KeySet(jwks)[kid] == key) <==>
            exists i: nat :: i < |jwks| && IsLastOf(jwks, i, kid) && jwks[i].key == key
  {
    if kid in KeySet(jwks) {
      var i := KeyWasCarried(jwks, kid);
      KeyIsTheLastOne(jwks, i, kid);
    }
    forall i: nat | i < |jwks| && IsLastOf(jwks, i, kid)
      ensures kid in KeySet(jwks) && KeySet(jwks)[kid] == jwks[i].key
    {
      KeyIsTheLastOne(jwks, i, kid);
    }
  }

  ghost predicate IsLastOf(jwks: seq<Jwk>, i: nat, kid: string)
    requires i < |jwks|
  {
    Carries(jwks[i], kid) && forall j :: i < j < |jwks| ==> !Carries(jwks[j], kid)
  }

  predicate Carries(jwk: Jwk, kid: string) {
    jwk.Good? && jwk.kid == kid
  }

  /** The cache after a fetch that answered `response` (None: the request failed) and ended at `now`. */
  function AfterFetch(c: Cache, response: Option<seq<Jwk>>, now: real): Cache {
    if response.Some? && KeySet(response.value) != map[] then Store(c, KeySet(response.value), now) else c
  }

  class InternalKeys {
    const cfg: Config
    var keys: map<string, Key>
    var fetchedAt: Option<real>
    var lastAttempt: Option<real>

    function AsCache(): Cache
      reads this
    {
      Cache(keys, fetchedAt, lastAttempt)
    }

    constructor (cfg: Config)
      ensures this.cfg == cfg && AsCache() == EMPTY
    {
      this.cfg := cfg;
      keys, fetchedAt, lastAttempt := map[], None, None;
    }

    /** `_refresh`: the attempt is noted first; the held keys change only when a usable set came back. */
    method Refresh(now: real, response: Option<seq<Jwk>>, end: real)
      modifies this
      ensures AsCache() == AfterFetch(old(AsCache()).(lastAttempt := Some(now)), response, end)
    {
      lastAttempt := Some(now);
      if response.None? {
        return;
      }
      var jwks, fetched := response.value, map[];
      for i := 0 to |jwks|
        invariant AsCache() == old(AsCache()).(lastAttempt := Some(now))
        invariant fetched == KeySet(jwks[..i])
      {
        assert jwks[..i + 1][..i] == jwks[..i];
        if jwks[i].Good? {
          fetched := fetched[jwks[i].kid := jwks[i].key];
        }
      }
      assert jwks[..|jwks|] == jwks;
      if fetched == map[] {
        return;
      }
      keys, fetchedAt := fetched, Some(end);
    }

    /** `key_for` on its own: a fresh hit, else at most one fetch, else whatever is held if it is recent enough. */
    method KeyFor(kid: string, now: real, response: Option<seq<Jwk>>, end: real) returns (reply: Reply)
      modifies this
      ensures old(Hit(cfg, AsCache(), kid, now)) ==> AsCache() == old(AsCache()) && reply == Found(keys[kid])
      ensures !old(Hit(cfg, AsCache(), kid, now)) ==>
                && reply == Answer(cfg, AsCache(), kid, end)
                && AsCache() == if old(MayFetch(cfg, AsCache(), now))
                                then AfterFetch(old(AsCache()).(lastAttempt := Some(now)), response, end)
                                else old(AsCache())
    {
      if Fresh(cfg, AsCache(), now) && kid in keys {
        return Found(keys[kid]);
      }
      if lastAttempt.None? || now - lastAttempt.value >= cfg.minRefresh {
        Refresh(now, response, end);
      }
      if !Usable(cfg, AsCache(), end) {
        return Unavailable;
      }
      return if kid in keys then Found(keys[kid]) else NoSuchKey;
    }
  }

  // ---- Every interleaving of calls --------------------------------------------------------------------

  type CallId = nat

  datatype Phase = Waiting | Fetching | Checking

  datatype Call = Call(kid: string, phase: Phase)

  datatype System = System(cache: Cache, clock: real, lock: Option<CallId>, calls: map<CallId, Call>)

  const START: System := System(EMPTY, 0.0, None, map[])

  datatype Event =
    | Ask(id: CallId, kid: string)                       // the look outside the lock
    | Enter(id: CallId)                                  // the lock is taken and the look repeated
    | Fetched(id: CallId, response: Option<seq<Jwk>>)    // the front door answered, or did not
    | Finish(id: CallId)                                 // the last check, and the lock is released
    | Cancel(id: CallId)

  datatype Step = Step(time: real, event: Event)

  predicate InPhase(s: System, id: CallId, phase: Phase) {
    id in s.calls && s.calls[id].phase == phase
  }

  predicate Enabled(s: System, step: Step) {
    && s.clock <= step.time
    && match step.event
       case Ask(id, _) => id !in s.calls
       case Enter(id) => InPhase(s, id, Waiting) && s.lock.None?
       case Fetched(id, _) => InPhase(s, id, Fetching)
       case Finish(id) => InPhase(s, id, Checking)
       case Cancel(id) => id in s.calls
  }

  function Drop(s: System, id: CallId): System {
    s.(calls := s.calls - {id}, lock := if s.lock == Some(id) then None else s.lock)
  }

  function Next(cfg: Config, s0: System, step: Step): System
    requires Enabled(s0, step)
  {
    var s := s0.(clock := step.time);
    match step.event
    case Ask(id, kid) => if Hit(cfg, s.cache, kid, step.time) then s else s.(calls := s.calls[id := Call(kid, Waiting)])
    case Enter(id) =>
      var kid := s.calls[id].kid;
      if Hit(cfg, s.cache, kid, step.time) then Drop(s, id)
      else if MayFetch(cfg, s.cache, step.time) then
        s.(cache := s.cache.(lastAttempt := Some(step.time)), lock := Some(id),
           calls := s.calls[id := Call(kid, Fetching)])
      else s.(lock := Some(id), calls := s.calls[id := Call(kid, Checking)])
    case Fetched(id, response) =>
      s.(cache := AfterFetch(s.cache, response, step.time), calls := s.calls[id := Call(s.calls[id].kid, Checking)])
    case Finish(id) => Drop(s, id)
    case Cancel(id) => Drop(s, id)
  }

  /** The step begins a request to the front door: it leaves the call waiting for an answer. */
  predicate StartsFetch(cfg: Config, s: System, step: Step) {
    step.event.Enter? && Enabled(s, step) && InPhase(Next(cfg, s, step), step.event.id, Fetching)
  }

  /** What the step hands back to the caller who asked for this kid, if it ends the call. */
  function Replies(cfg: Config, s: System, step: Step): Option<(string, Reply)>
    requires Enabled(s, step)
  {
    match step.event
    case Ask(_, kid) => if Hit(cfg, s.cache, kid, step.time) then Some((kid, Found(s.cache.keys[kid]))) else None
    case Enter(id) =>
      var kid := s.calls[id].kid;
      if Hit(cfg, s.cache, kid, step.time) then Some((kid, Found(s.cache.keys[kid]))) else None
    case Finish(id) => Some((s.calls[id].kid, Answer(cfg, s.cache, s.calls[id].kid, step.time)))
    case Fetched(_, _) => None
    case Cancel(_) => None
  }

  /** The state after a run; None when some step was not possible. */
  function After(cfg: Config, steps: seq<Step>): Option<System> {
    if steps == [] then Some(START)
    else
      var before, step := After(cfg, steps[..|steps| - 1]), steps[|steps| - 1];
      if before.Some? && Enabled(before.value, step) then Some(Next(cfg, before.value, step)) else None
  }

  lemma {:induction false} PrefixRuns(cfg: Config, steps: seq<Step>, n: nat)
    requires After(cfg, steps).Some? && n <= |steps|
    ensures After(cfg, steps[..n]).Some?
    ensures n < |steps| ==> Enabled(After(cfg, steps[..n]).value, steps[n])
  {
    if n == |steps| {
      assert steps[..n] == steps;
    } else if n < |steps| - 1 {
      PrefixRuns(cfg, steps[..|steps| - 1], n);
      assert steps[..|steps| - 1][..n] == steps[..n];
    }
  }

  // ---- One request at a time, never too often ---------------------------------------------------------

  /** A call is fetching or checking exactly when it holds the lock. */
  ghost predicate SingleFlight(s: System) {
    && (forall id :: id in s.calls && s.calls[id].phase != Waiting ==> s.lock == Some(id))
    && (s.lock.Some? ==> s.lock.value in s.calls && s.calls[s.lock.value].phase != Waiting)
  }

  /** At most one call is fetching or checking in any reachable state, and nobody else holds the lock. */
  lemma {:induction false} OneFetchAtATime(cfg: Config, steps: seq<Step>)
    requires After(cfg, steps).Some?
    ensures SingleFlight(After(cfg, steps).value)
  {
    if steps != [] {
      OneFetchAtATime(cfg, steps[..|steps| - 1]);
    }
  }

  lemma Extend(cfg: Config, steps: seq<Step>, step: Step)
    requires After(cfg, steps).Some? && Enabled(After(cfg, steps).value, step)
    ensures After(cfg, steps + [step]) == Some(Next(cfg, After(cfg, steps).value, step))
  {
    assert (steps + [step])[..|steps|] == steps;
  }

  /** The run goes on, without cancelling anybody, to a step that answers this call. */
  ghost predicate Answers(cfg: Config, steps: seq<Step>, more: seq<Step>, last: Step, id: CallId) {
    && (forall i :: 0 <= i < |more| ==> !more[i].event.Cancel?)
    && After(cfg, steps + more).Some? && Enabled(After(cfg, steps + more).value, last)
    && (last.event == Enter(id) || last.event == Finish(id))
    && Replies(cfg, After(cfg, steps + more).value, last).Some?
  }

  /** The call that holds the lock can be brought to its reply. */
  lemma HolderCanFinish(cfg: Config, steps: seq<Step>, id: CallId) returns (more: seq<Step>, last: Step)
    requires After(cfg, steps).Some? && id in After(cfg, steps).value.calls
    requires After(cfg, steps).value.calls[id].phase != Waiting
    ensures Answers(cfg, steps, more, last, id) && last.event == Finish(id) && |more| <= 1
    ensures After(cfg, steps + more).value.calls.Keys == After(cfg, steps).value.calls.Keys
    ensures forall other :: other in After(cfg, steps).value.calls && other != id ==>
                              After(cfg, steps + more).value.calls[other] == After(cfg, steps).value.calls[other]
  {
    var s := After(cfg, steps).value;
    more, last := [], Step(s.clock, Finish(id));
    assert steps + [] == steps;
    if s.calls[id].phase == Fetching {
      more := [Step(s.clock, Fetched(id, None))];
      Extend(cfg, steps, more[0]);
    }
  }

  /** Whatever has happened, every call in progress can still be answered: nobody waits for a lock that is lost. */
  lemma EveryCallCanBeAnswered(cfg: Config, steps: seq<Step>, id: CallId)
    requires After(cfg, steps).Some? && id in After(cfg, steps).value.calls
    ensures exists more, last :: Answers(cfg, steps, more, last, id)
  {
    var s := After(cfg, steps).value;
    OneFetchAtATime(cfg, steps);
    if s.calls[id].phase != Waiting {
      var more, last := HolderCanFinish(cfg, steps, id);
    } else if s.lock.None? {
      assert steps + [] == steps;
      var more, last := WaiterCanFinish(cfg, steps, id);
    } else {
      var more, last := HolderCanFinish(cfg, steps, s.lock.value);
      Extend(cfg, steps + more, last);
      OneFetchAtATime(cfg, steps + more);
      var free := steps + more + [last];
      OneFetchAtATime(cfg, free);
      var rest, end := WaiterCanFinish(cfg, free, id);
      assert free + rest == steps + (more + [last] + rest);
      assert Answers(cfg, steps, more + [last] + rest, end, id);
    }
  }

  lemma WaiterCanFinish(cfg: Config, steps: seq<Step>, id: CallId) returns (more: seq<Step>, last: Step)
    requires After(cfg, steps).Some? && InPhase(After(cfg, steps).value, id, Waiting)
    requires After(cfg, steps).value.lock.None?
    ensures Answers(cfg, steps, more, last, id)
  {
    var s := After(cfg, steps).value;
    var enter := Step(s.clock, Enter(id));
    more, last := [], enter;
    assert steps + [] == steps;
    if Replies(cfg, s, enter).None? {
      Extend(cfg, steps, enter);
      var rest;
      rest, last := HolderCanFinish(cfg, steps + [enter], id);
      more := [enter] + rest;
      assert steps + more == steps + [enter] + rest;
    }
  }

  lemma {:induction false} AttemptIsRemembered(cfg: Config, steps: seq<Step>, i: nat)
    requires After(cfg, steps).Some? && i < |steps|
    requires After(cfg, steps[..i]).Some? && StartsFetch(cfg, After(cfg, steps[..i]).value, steps[i])
    ensures var last := After(cfg, steps).value.cache.lastAttempt; last.Some? && steps[i].time <= last.value
    ensures steps[i].time <= After(cfg, steps).value.clock
  {
    var n := |steps| - 1;
    if i == n {
    } else {
      PrefixRuns(cfg, steps, n);
      assert steps[..n][..i] == steps[..i];
      AttemptIsRemembered(cfg, steps[..n], i);
    }
  }

  /** Whatever kids are asked for, two requests start at least `minRefresh` apart. */
  lemma FetchesAreSpaced(cfg: Config, steps: seq<Step>, i: nat, j: nat)
    requires After(cfg, steps).Some? && i < j < |steps|
    requires After(cfg, steps[..i]).Some? && StartsFetch(cfg, After(cfg, steps[..i]).value, steps[i])
    requires After(cfg, steps[..j]).Some? && StartsFetch(cfg, After(cfg, steps[..j]).value, steps[j])
    ensures steps[j].time - steps[i].time >= cfg.minRefresh
  {
    assert steps[..j][..i] == steps[..i];
    AttemptIsRemembered(cfg, steps[..j], i);
  }

  // ---- Replies come from the last set stored, while it is recent --------------------------------------

  /** When the step stores a key set: that moment and the set. */
  function Stores(step: Step): Option<(real, map<string, Key>)> {
    match step.event
    case Fetched(_, response) =>
      if response.Some? && KeySet(response.value) != map[] then Some((step.time, KeySet(response.value))) else None
    case _ => None
  }

  function LastStore(steps: seq<Step>): Option<(real, map<string, Key>)> {
    if steps == [] then None
    else if Stores(steps[|steps| - 1]).Some? then Stores(steps[|steps| - 1])
    else LastStore(steps[..|steps| - 1])
  }

  lemma {:induction false} CacheIsLastStore(cfg: Config, steps: seq<Step>)
    requires After(cfg, steps).Some?
    ensures var c := After(cfg, steps).value.cache;
            match LastStore(steps)
            case None => c.fetchedAt.None?
            case Some((at, keys)) => c.fetchedAt == Some(at) && c.keys == keys
  {
    if steps != [] {
      CacheIsLastStore(cfg, steps[..|steps| - 1]);
    }
  }

  /**
   Every reply, on the fast path or the slow one, is the one the last stored set gives, and unless it is
   `Unavailable` that set was stored less than the TTL plus the grace before.
   */
  lemma RepliesRefineTheLastStore(cfg: Config, steps: seq<Step>, next: Step)
    requires cfg.grace >= 0.0 && After(cfg, steps).Some? && Enabled(After(cfg, steps).value, next)
    requires Replies(cfg, After(cfg, steps).value, next).Some?
    ensures var (kid, reply) := Replies(cfg, After(cfg, steps).value, next).value;
            match LastStore(steps)
            case None => reply == Unavailable
            case Some((at, keys)) =>
              if next.time - at < cfg.ttl + cfg.grace
              then reply == if kid in keys then Found(keys[kid]) else NoSuchKey
              else reply == Unavailable
  {
    CacheIsLastStore(cfg, steps);
  }

  ghost predicate StartedAt(cfg: Config, steps: seq<Step>, i: nat) {
    i < |steps| && After(cfg, steps[..i]).Some? && StartsFetch(cfg, After(cfg, steps[..i]).value, steps[i])
  }

  lemma {:induction false} AttemptWasARequest(cfg: Config, steps: seq<Step>) returns (i: nat)
    requires After(cfg, steps).Some? && After(cfg, steps).value.cache.lastAttempt.Some?
    ensures StartedAt(cfg, steps, i) && steps[i].time == After(cfg, steps).value.cache.lastAttempt.value
  {
    var n := |steps| - 1;
    if StartsFetch(cfg, After(cfg, steps[..n]).value, steps[n]) {
      i := n;
    } else {
      i := AttemptWasARequest(cfg, steps[..n]);
      assert steps[..n][..i] == steps[..i];
    }
  }

  /** When every request of the run lies at least the minimum interval back. */
  ghost predicate Rested(cfg: Config, steps: seq<Step>, now: real) {
    forall i: nat :: StartedAt(cfg, steps, i) ==> now - steps[i].time >= cfg.minRefresh
  }

  lemma MayFetchExactlyWhen(cfg: Config, steps: seq<Step>, now: real)
    requires After(cfg, steps).Some?
    ensures MayFetch(cfg, After(cfg, steps).value.cache, now) <==> Rested(cfg, steps, now)
  {
    var last := After(cfg, steps).value.cache.lastAttempt;
    if last.Some? {
      var i := AttemptWasARequest(cfg, steps);
    }
    forall i: nat | StartedAt(cfg, steps, i) ensures last.Some? && steps[i].time <= last.value {
      AttemptIsRemembered(cfg, steps, i);
    }
  }

  /** The set last stored is younger than the TTL and has the kid. */
  ghost predicate Covers(cfg: Config, steps: seq<Step>, kid: string, now: real) {
    match LastStore(steps)
    case None => false
    case Some((at, keys)) => now - at < cfg.ttl && kid in keys
  }

  /**
   A call that gets the lock asks the front door exactly when every earlier request of the run started at least
   the minimum interval before, and no set was stored or the last one is past its TTL or lacks the kid.
   */
  lemma FetchStartsExactlyWhen(cfg: Config, steps: seq<Step>, next: Step)
    requires After(cfg, steps).Some? && Enabled(After(cfg, steps).value, next) && next.event.Enter?
    ensures var s := After(cfg, steps).value;
            StartsFetch(cfg, s, next) <==>
            Rested(cfg, steps, next.time) && !Covers(cfg, steps, s.calls[next.event.id].kid, next.time)
  {
    CacheIsLastStore(cfg, steps);
    MayFetchExactlyWhen(cfg, steps, next.time);
  }

  /** On either look, a call is answered on the spot exactly when the last stored set covers its kid. */
  lemma AnsweredOnTheSpotExactlyWhen(cfg: Config, steps: seq<Step>, next: Step)
    requires After(cfg, steps).Some? && Enabled(After(cfg, steps).value, next)
    requires next.event.Ask? || next.event.Enter?
    ensures var s := After(cfg, steps).value;
            var kid := if next.event.Ask? then next.event.kid else s.calls[next.event.id].kid;
            Replies(cfg, s, next).Some? <==> Covers(cfg, steps, kid, next.time)
  {
    CacheIsLastStore(cfg, steps);
  }

  /** The fast path would outlive a negative grace: that is why the grace must not be negative. */
  lemma NegativeGraceIsOutlived(cfg: Config, keys: map<string, Key>, kid: string)
    requires cfg.grace < 0.0 && cfg.ttl + cfg.grace >= 0.0 && kid in keys
    ensures var c := Store(EMPTY, keys, 0.0);
            exists now :: Hit(cfg, c, kid, now) && !Usable(cfg, c, now)
  {
    var c := Store(EMPTY, keys, 0.0);
    var now := cfg.ttl + cfg.grace;
    assert Hit(cfg, c, kid, now) && !Usable(cfg, c, now);
  }

  ghost predicate StoredSince(steps: seq<Step>, since: real, kid: string) {
    exists i :: 0 <= i < |steps| && Stores(steps[i]).Some? && steps[i].time > since && kid in Stores(steps[i]).value.1
  }

  lemma {:induction false} LastStoreIsAStep(steps: seq<Step>)
    requires LastStore(steps).Some?
    ensures exists i :: 0 <= i < |steps| && Stores(steps[i]) == LastStore(steps)
  {
    var n := |steps| - 1;
    if Stores(steps[n]).None? {
      LastStoreIsAStep(steps[..n]);
      var i :| 0 <= i < n && Stores(steps[..n][i]) == LastStore(steps[..n]);
      assert Stores(steps[i]) == LastStore(steps);
    }
  }

  /**
   A key withdrawn at time `t`, absent from every set stored after it, is never handed out from
   `t + ttl + grace` on; and with no set stored at all since `t`, every reply from then on is a refusal.
   */
  lemma WithdrawnKeyIsForgotten(cfg: Config, steps: seq<Step>, next: Step, t: real, kid: string)
    requires cfg.grace >= 0.0 && After(cfg, steps).Some? && Enabled(After(cfg, steps).value, next)
    requires Replies(cfg, After(cfg, steps).value, next).Some?
    requires next.time >= t + cfg.ttl + cfg.grace
    ensures var (asked, reply) := Replies(cfg, After(cfg, steps).value, next).value;
            && (asked == kid && !StoredSince(steps, t, kid) ==> !reply.Found?)
            && ((forall i :: 0 <= i < |steps| && Stores(steps[i]).Some? ==> steps[i].time <= t) ==>
               reply == Unavailable)
  {
    RepliesRefineTheLastStore(cfg, steps, next);
    if LastStore(steps).Some? {
      LastStoreIsAStep(steps);
    }
  }
}
