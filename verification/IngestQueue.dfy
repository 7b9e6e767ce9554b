/**
 The at-least-once ingest queue: app/ingestion/ingest_worker.py over the stream operations of
 app/ingestion/ingest_queue.py and app/job_queue/queue.py.

 `Store` is what Redis holds, and every function on it is one Redis command. `IngestStreams` is the
 worker's own procedure over it when nothing interrupts it. In a deployment any task can die between two
 commands, so the properties are about `State`: the store together with the tasks that are alive, under any
 sequence of steps of any number of workers and reclaimers.
 */
module IngestQueue {
  import opened Wrappers

  type JobId = nat
  type EntryId = nat
  type TaskId = nat

  datatype Status = New | Pending | Acked

  /** `Garbled` does not parse; `Nameless` parses but has no job id, which no producer writes. */
  datatype Payload = Garbled | Nameless | Named(job: JobId)

  datatype Entry = Entry(payload: Payload, attempts: nat, status: Status)

  /** `finished`: the jobs with a terminal event; `dead`: the entries archived in the dead-letter stream. */
  datatype Store = Store(entries: seq<Entry>, finished: set<JobId>, dead: set<EntryId>) {
    predicate Has(e: EntryId) {
      e < |entries|
    }

    function Add(entry: Entry): Store {
      this.(entries := entries + [entry])
    }

    function Mark(e: EntryId, status: Status): Store
      requires Has(e)
    {
      this.(entries := entries[e := entries[e].(status := status)])
    }

    function Finish(job: JobId): Store {
      this.(finished := finished + {job})
    }

    function Bury(e: EntryId): Store {
      this.(dead := dead + {e})
    }

    /** A fresh entry for the same payload with one more attempt on it. */
    function Retried(e: EntryId): Entry
      requires Has(e)
    {
      Entry(entries[e].payload, entries[e].attempts + 1, New)
    }
  }

  // ---- The procedures, uninterrupted ------------------------------------------------------------------

  class IngestStreams {
    const cap: nat
    var store: Store

    constructor (cap: nat)
      ensures this.cap == cap && store == Store([], {}, {})
    {
      this.cap := cap;
      store := Store([], {}, {});
    }

    /**
     `process_job`: whatever the ingest does, a terminal event is published and the entry is acked. Without a
     job id to be read it raises before either.
     */
    method ProcessJob(e: EntryId)
      requires store.Has(e)
      modifies this
      ensures !old(store.entries[e].payload).Named? ==> store == old(store)
      ensures old(store.entries[e].payload).Named? ==>
                store == old(store.Finish(store.entries[e].payload.job).Mark(e, Acked))
    {
      match store.entries[e].payload
      case Garbled =>
      case Nameless =>
      case Named(job) =>
        store := store.Finish(job);
        store := store.Mark(e, Acked);
    }

    /**
     `_handle_reclaimed_job`: what parses is retried below the cap and archived at it, with an error event when
     there is a job id to tell; what does not parse is archived; acked in each case.
     */
    method HandleReclaimed(e: EntryId)
      requires store.Has(e)
      modifies this
      ensures old(store.entries[e].payload != Garbled && store.entries[e].attempts < cap) ==>
                store == old(store.Add(store.Retried(e)).Mark(e, Acked))
      ensures old(store.entries[e].payload.Named? && store.entries[e].attempts >= cap) ==>
                store == old(store.Finish(store.entries[e].payload.job).Bury(e).Mark(e, Acked))
      ensures old(store.entries[e].payload.Nameless? && store.entries[e].attempts >= cap) ==>
                store == old(store.Bury(e).Mark(e, Acked))
      ensures old(store.entries[e].payload.Garbled?) ==> store == old(store.Bury(e).Mark(e, Acked))
      ensures store == Handled(cap, old(store), e)
    {
      var entry := store.entries[e];
      if entry.payload == Garbled {
        store := store.Bury(e);
      } else if entry.attempts < cap {
        store := store.Add(store.Retried(e));
      } else {
        if entry.payload.Named? {
          store := store.Finish(entry.payload.job);
        }
        store := store.Bury(e);
      }
      store := store.Mark(e, Acked);
    }
  }

  // ---- Every interleaving, with crashes ---------------------------------------------------------------

  /** Where a task is: a worker's is Waiting, Running, Reported; a reclaimer's is Taken, then one of the others. */
  datatype Stage = Waiting | Running | Reported | Taken | Republished | Apologised | Archived

  datatype Task = Task(entry: EntryId, stage: Stage)

  datatype State = State(store: Store, tasks: map<TaskId, Task>, published: set<JobId>, started: seq<EntryId>)

  const START := State(Store([], {}, {}), map[], {}, [])

  datatype Step =
    | Publish(job: JobId)               // a producer adds a job
    | PublishOther(payload: Payload)    // an entry without a job id
    | Deliver(entry: EntryId, task: TaskId)
    | Start(task: TaskId)               // the semaphore lets the job begin
    | Report(task: TaskId)              // the terminal done or error event
    | Reclaim(entry: EntryId, task: TaskId)
    | Republish(task: TaskId)
    | Apologise(task: TaskId)           // the error event of an exhausted job
    | Archive(task: TaskId)
    | Ack(task: TaskId)
    | Cancel(task: TaskId)              // the running job ends with no event, cancelled or unable to publish one
    | Crash(dead: set<TaskId>)          // the processes of these tasks die

  /** The task is alive and at this stage. */
  predicate At(s: State, t: TaskId, stage: Stage) {
    t in s.tasks && s.tasks[t].stage == stage && s.store.Has(s.tasks[t].entry)
  }

  function EntryOf(s: State, t: TaskId): Entry
    requires t in s.tasks && s.store.Has(s.tasks[t].entry)
  {
    s.store.entries[s.tasks[t].entry]
  }

  predicate Enabled(cap: nat, s: State, step: Step) {
    match step
    case Publish(job) => job !in s.published
    case PublishOther(payload) => !payload.Named?
    case Deliver(e, t) => s.store.Has(e) && s.store.entries[e].status == New && t !in s.tasks
    case Start(t) => At(s, t, Waiting)
    case Report(t) => At(s, t, Running) && EntryOf(s, t).payload.Named?
    case Reclaim(e, t) => s.store.Has(e) && s.store.entries[e].status == Pending && t !in s.tasks
    case Republish(t) => At(s, t, Taken) && EntryOf(s, t).payload != Garbled && EntryOf(s, t).attempts < cap
    case Apologise(t) => At(s, t, Taken) && EntryOf(s, t).payload.Named? && EntryOf(s, t).attempts >= cap
    case Archive(t) =>
      || At(s, t, Apologised)
      || (At(s, t, Taken) && EntryOf(s, t).payload.Garbled?)
      || (At(s, t, Taken) && EntryOf(s, t).payload.Nameless? && EntryOf(s, t).attempts >= cap)
    case Ack(t) => At(s, t, Reported) || At(s, t, Republished) || At(s, t, Archived)
    case Cancel(t) => At(s, t, Running) && EntryOf(s, t).payload.Named?
    case Crash(dead) => true
  }

  function Next(cap: nat, s: State, step: Step): State
    requires Enabled(cap, s, step)
  {
    match step
    case Publish(job) => s.(store := s.store.Add(Entry(Named(job), 0, New)), published := s.published + {job})
    case PublishOther(payload) => s.(store := s.store.Add(Entry(payload, 0, New)))
    case Deliver(e, t) => s.(store := s.store.Mark(e, Pending), tasks := s.tasks[t := Task(e, Waiting)])
    case Start(t) =>
      var e := s.tasks[t].entry;
      if !EntryOf(s, t).payload.Named? then s.(tasks := s.tasks - {t})
      else s.(tasks := s.tasks[t := Task(e, Running)], started := s.started + [e])
    case Report(t) =>
      s.(store := s.store.Finish(EntryOf(s, t).payload.job), tasks := s.tasks[t := Task(s.tasks[t].entry, Reported)])
    case Reclaim(e, t) => s.(tasks := s.tasks[t := Task(e, Taken)])
    case Republish(t) =>
      var e := s.tasks[t].entry;
      s.(store := s.store.Add(s.store.Retried(e)), tasks := s.tasks[t := Task(e, Republished)])
    case Apologise(t) =>
      s.(store := s.store.Finish(EntryOf(s, t).payload.job), tasks := s.tasks[t := Task(s.tasks[t].entry, Apologised)])
    case Archive(t) =>
      var e := s.tasks[t].entry;
      s.(store := s.store.Bury(e), tasks := s.tasks[t := Task(e, Archived)])
    case Ack(t) => s.(store := s.store.Mark(s.tasks[t].entry, Acked), tasks := s.tasks - {t})
    case Cancel(t) => s.(store := s.store.Mark(s.tasks[t].entry, Acked), tasks := s.tasks - {t})
    case Crash(dead) => s.(tasks := s.tasks - dead)
  }

  /** The state a run from `s` leads to; None when some step was not possible. */
  function RunFrom(cap: nat, s: State, steps: seq<Step>): Option<State> {
    if steps == [] then Some(s)
    else
      var before := RunFrom(cap, s, steps[..|steps| - 1]);
      var step := steps[|steps| - 1];
      if before.Some? && Enabled(cap, before.value, step) then Some(Next(cap, before.value, step)) else None
  }

  function After(cap: nat, steps: seq<Step>): Option<State> {
    RunFrom(cap, START, steps)
  }

  // ---- No job is lost ---------------------------------------------------------------------------------

  /** An entry for the job that a worker or a reclaimer will still get to. */
  ghost predicate Open(st: Store, job: JobId, e: EntryId) {
    st.Has(e) && st.entries[e].payload == Named(job) && st.entries[e].status != Acked
  }

  ghost predicate Buried(st: Store, job: JobId, e: EntryId) {
    st.Has(e) && st.entries[e].payload == Named(job) && e in st.dead
  }

  /** The job has a terminal event or a dead-letter record. */
  ghost predicate Settled(st: Store, job: JobId) {
    job in st.finished || exists e: EntryId :: Buried(st, job, e)
  }

  /** The job has left a trace: an event, a record or an entry to be handled. */
  ghost predicate Covered(st: Store, job: JobId) {
    Settled(st, job) || exists e: EntryId :: Open(st, job, e)
  }

  /** A reclaimer has republished the entry and is about to ack it. */
  ghost predicate Leaving(s: State, e: EntryId) {
    exists t :: t in s.tasks && s.tasks[t] == Task(e, Republished)
  }

  /** Covered by something no ack under way will take away. */
  ghost predicate Anchored(s: State, job: JobId) {
    Settled(s.store, job) || exists e: EntryId :: Open(s.store, job, e) && !Leaving(s, e)
  }

  /** What the task's last command guarantees. */
  ghost predicate TaskOk(st: Store, task: Task) {
    && st.Has(task.entry)
    && (task.stage in {Reported, Apologised} ==>
          st.entries[task.entry].payload.Named? && st.entries[task.entry].payload.job in st.finished)
    && (task.stage == Archived ==> task.entry in st.dead)
  }

  ghost predicate TasksOk(s: State) {
    forall t :: t in s.tasks ==> TaskOk(s.store, s.tasks[t])
  }

  lemma TaskOkStep(cap: nat, s: State, step: Step, t: TaskId)
    requires TasksOk(s) && Enabled(cap, s, step) && t in Next(cap, s, step).tasks
    ensures TaskOk(Next(cap, s, step).store, Next(cap, s, step).tasks[t])
  {
  }

  lemma TasksOkStep(cap: nat, s: State, step: Step)
    requires TasksOk(s) && Enabled(cap, s, step)
    ensures TasksOk(Next(cap, s, step))
  {
    forall t | t in Next(cap, s, step).tasks ensures TaskOk(Next(cap, s, step).store, Next(cap, s, step).tasks[t]) {
      TaskOkStep(cap, s, step, t);
    }
  }

  lemma {:induction false} TasksOkAfter(cap: nat, steps: seq<Step>)
    requires After(cap, steps).Some?
    ensures TasksOk(After(cap, steps).value)
  {
    if steps != [] {
      TasksOkAfter(cap, steps[..|steps| - 1]);
      TasksOkStep(cap, After(cap, steps[..|steps| - 1]).value, steps[|steps| - 1]);
    }
  }

  lemma SettledStaysSettled(cap: nat, s: State, step: Step, job: JobId)
    requires Enabled(cap, s, step) && Settled(s.store, job)
    ensures Settled(Next(cap, s, step).store, job)
  {
    if e: EntryId :| Buried(s.store, job, e) {
      assert Buried(Next(cap, s, step).store, job, e);
    }
  }

  /** The anchor itself survives the step, unless the step acks or republishes that very entry. */
  lemma AnchorStays(cap: nat, s: State, step: Step, job: JobId, e: EntryId)
    requires Enabled(cap, s, step) && Open(s.store, job, e) && !Leaving(s, e)
    requires step.Ack? || step.Cancel? || step.Republish? ==> s.tasks[step.task].entry != e
    ensures Anchored(Next(cap, s, step), job)
  {
    var s' := Next(cap, s, step);
    assert Open(s'.store, job, e);
    assert !Leaving(s', e);
  }

  lemma RepublishedIsAnchored(cap: nat, s: State, t: TaskId, job: JobId)
    requires TasksOk(s) && Enabled(cap, s, Republish(t)) && EntryOf(s, t).payload == Named(job)
    ensures Anchored(Next(cap, s, Republish(t)), job)
  {
    var s' := Next(cap, s, Republish(t));
    assert Open(s'.store, job, |s.store.entries|) && !Leaving(s', |s.store.entries|);
  }

  lemma AckOfAnchorSettles(s: State, t: TaskId, job: JobId)
    requires TasksOk(s) && t in s.tasks && s.tasks[t].stage in {Reported, Archived}
    requires EntryOf(s, t).payload == Named(job)
    ensures Settled(s.store, job)
  {
    if s.tasks[t].stage == Archived {
      assert Buried(s.store, job, s.tasks[t].entry);
    }
  }

  /** Whatever anybody does next, short of a cancellation, an anchored job stays anchored. */
  lemma AnchoredStep(cap: nat, s: State, step: Step, job: JobId)
    requires TasksOk(s) && Enabled(cap, s, step) && !step.Cancel? && Anchored(s, job)
    ensures Anchored(Next(cap, s, step), job)
  {
    if Settled(s.store, job) {
      SettledStaysSettled(cap, s, step, job);
    } else {
      var e: EntryId :| Open(s.store, job, e) && !Leaving(s, e);
      if step.Republish? && s.tasks[step.task].entry == e {
        RepublishedIsAnchored(cap, s, step.task, job);
      } else if step.Ack? && s.tasks[step.task].entry == e {
        assert s.tasks[step.task] != Task(e, Republished);
        AckOfAnchorSettles(s, step.task, job);
      } else {
        AnchorStays(cap, s, step, job, e);
      }
    }
  }

  /** A cancellation touches no other job. */
  lemma CancelKeepsOthers(cap: nat, s: State, t: TaskId, job: JobId)
    requires Enabled(cap, s, Cancel(t)) && Anchored(s, job) && EntryOf(s, t).payload.job != job
    ensures Anchored(Next(cap, s, Cancel(t)), job)
  {
    if Settled(s.store, job) {
      SettledStaysSettled(cap, s, Cancel(t), job);
    } else {
      var e: EntryId :| Open(s.store, job, e) && !Leaving(s, e);
      AnchorStays(cap, s, Cancel(t), job, e);
    }
  }

  lemma PublishAnchors(cap: nat, s: State, job: JobId)
    requires TasksOk(s) && Enabled(cap, s, Publish(job))
    ensures Anchored(Next(cap, s, Publish(job)), job)
  {
    var s' := Next(cap, s, Publish(job));
    assert Open(s'.store, job, |s.store.entries|) && !Leaving(s', |s.store.entries|);
  }

  // ---- Exactly when a job can be lost -----------------------------------------------------------------

  /** No running job is cancelled. */
  ghost predicate NoCancel(steps: seq<Step>) {
    forall i :: 0 <= i < |steps| ==> !steps[i].Cancel?
  }

  /** This future, in which no running job is cancelled, leaves no trace of the job. */
  ghost predicate Loses(cap: nat, s: State, steps: seq<Step>, job: JobId) {
    && NoCancel(steps) && RunFrom(cap, s, steps).Some?
    && !Covered(RunFrom(cap, s, steps).value.store, job)
  }

  lemma {:induction false} AnchoredForEver(cap: nat, s: State, steps: seq<Step>, job: JobId)
    requires TasksOk(s) && Anchored(s, job) && NoCancel(steps) && RunFrom(cap, s, steps).Some?
    ensures TasksOk(RunFrom(cap, s, steps).value) && Anchored(RunFrom(cap, s, steps).value, job)
  {
    if steps != [] {
      var before, step := RunFrom(cap, s, steps[..|steps| - 1]).value, steps[|steps| - 1];
      AnchoredForEver(cap, s, steps[..|steps| - 1], job);
      TasksOkStep(cap, before, step);
      AnchoredStep(cap, before, step, job);
    }
  }

  lemma AckKeepsAdrift(cap: nat, s: State, t: TaskId, job: JobId)
    requires Enabled(cap, s, Ack(t)) && !Anchored(s, job)
    ensures !Anchored(Next(cap, s, Ack(t)), job)
  {
    var s' := Next(cap, s, Ack(t));
    assert forall e: EntryId :: Buried(s'.store, job, e) ==> Buried(s.store, job, e);
    forall e: EntryId | Open(s'.store, job, e) ensures Leaving(s', e) {
      assert Open(s.store, job, e);
      var u :| u in s.tasks && s.tasks[u] == Task(e, Republished);
      assert u in s'.tasks && s'.tasks[u] == Task(e, Republished);
    }
  }

  /** The reclaimers that are about to ack do so, one after the other. */
  lemma {:induction false} Drain(cap: nat, s0: State, steps: seq<Step>, s: State, job: JobId) returns (more: seq<Step>)
    requires RunFrom(cap, s0, steps) == Some(s) && NoCancel(steps) && !Anchored(s, job)
    ensures Loses(cap, s0, more, job)
    decreases s.tasks.Keys
  {
    more := steps;
    if Covered(s.store, job) {
      var e: EntryId :| Open(s.store, job, e);
      assert Leaving(s, e);
      var t :| t in s.tasks && s.tasks[t] == Task(e, Republished);
      var s' := Next(cap, s, Ack(t));
      Extend(cap, s0, steps, s, Ack(t), s');
      AckKeepsAdrift(cap, s, t, job);
      assert s'.tasks.Keys == s.tasks.Keys - {t};
      more := Drain(cap, s0, steps + [Ack(t)], s', job);
    }
  }

  /** Some future without a cancellation loses the job exactly when it is not anchored now. */
  lemma LosableExactlyWhen(cap: nat, s: State, job: JobId)
    requires TasksOk(s)
    ensures (exists steps :: Loses(cap, s, steps, job)) <==> !Anchored(s, job)
  {
    if Anchored(s, job) {
      forall steps | NoCancel(steps) && RunFrom(cap, s, steps).Some? ensures !Loses(cap, s, steps, job) {
        AnchoredForEver(cap, s, steps, job);
      }
    } else {
      var steps := Drain(cap, s, [], s, job);
    }
  }

  /**
   The running task's job has no event, no record, and no other entry to be handled but those a reclaimer has
   republished and is about to ack.
   */
  ghost predicate IsLastHope(s: State, t: TaskId)
    requires At(s, t, Running) && EntryOf(s, t).payload.Named?
  {
    var job := EntryOf(s, t).payload.job;
    && !Settled(s.store, job)
    && forall e: EntryId :: Open(s.store, job, e) && e != s.tasks[t].entry ==> Leaving(s, e)
  }

  lemma CancelLosesTheAnchorExactlyWhen(cap: nat, s: State, t: TaskId)
    requires Enabled(cap, s, Cancel(t))
    ensures Anchored(Next(cap, s, Cancel(t)), EntryOf(s, t).payload.job) <==> !IsLastHope(s, t)
  {
    var job, s' := EntryOf(s, t).payload.job, Next(cap, s, Cancel(t));
    assert forall e: EntryId :: Buried(s'.store, job, e) <==> Buried(s.store, job, e);
    forall e: EntryId | e != s.tasks[t].entry
      ensures Open(s'.store, job, e) <==> Open(s.store, job, e)
      ensures Leaving(s', e) <==> Leaving(s, e)
    {
      if u :| u in s.tasks && s.tasks[u] == Task(e, Republished) {
        assert u in s'.tasks && s'.tasks[u] == Task(e, Republished);
      }
    }
  }

  /**
   In every reachable state, a cancellation makes it possible to lose the job exactly when the task was its last
   hope.
   */
  lemma CancelLosesExactlyWhen(cap: nat, steps: seq<Step>, t: TaskId)
    requires After(cap, steps).Some? && Enabled(cap, After(cap, steps).value, Cancel(t))
    ensures var s := After(cap, steps).value;
            (exists future :: Loses(cap, Next(cap, s, Cancel(t)), future, EntryOf(s, t).payload.job))
              <==> IsLastHope(s, t)
  {
    var s := After(cap, steps).value;
    TasksOkAfter(cap, steps);
    TasksOkStep(cap, s, Cancel(t));
    CancelLosesTheAnchorExactlyWhen(cap, s, t);
    LosableExactlyWhen(cap, Next(cap, s, Cancel(t)), EntryOf(s, t).payload.job);
  }

  /** No cancellation of the run hits a job's last hope. */
  ghost predicate SpareRun(cap: nat, steps: seq<Step>)
    requires After(cap, steps).Some?
  {
    steps != [] ==>
      && SpareRun(cap, steps[..|steps| - 1])
      && (steps[|steps| - 1].Cancel? ==> !IsLastHope(After(cap, steps[..|steps| - 1]).value, steps[|steps| - 1].task))
  }

  lemma AnyStepKeepsAnchor(cap: nat, s: State, step: Step, job: JobId)
    requires TasksOk(s) && Enabled(cap, s, step) && (step.Cancel? ==> !IsLastHope(s, step.task))
    requires Anchored(s, job) || step == Publish(job)
    ensures Anchored(Next(cap, s, step), job)
  {
    if step == Publish(job) {
      PublishAnchors(cap, s, job);
    } else if !step.Cancel? {
      AnchoredStep(cap, s, step, job);
    } else if EntryOf(s, step.task).payload.job == job {
      CancelLosesTheAnchorExactlyWhen(cap, s, step.task);
    } else {
      CancelKeepsOthers(cap, s, step.task, job);
    }
  }

  lemma {:induction false} PublishedIsAnchored(cap: nat, steps: seq<Step>, job: JobId)
    requires After(cap, steps).Some? && SpareRun(cap, steps) && job in After(cap, steps).value.published
    ensures Anchored(After(cap, steps).value, job)
  {
    if steps != [] {
      var before, step := After(cap, steps[..|steps| - 1]).value, steps[|steps| - 1];
      if job in before.published {
        PublishedIsAnchored(cap, steps[..|steps| - 1], job);
      }
      TasksOkAfter(cap, steps[..|steps| - 1]);
      AnyStepKeepsAnchor(cap, before, step, job);
    }
  }

  /**
   Over every run with crashes anywhere, in which no cancellation hits a job's last hope, each published job
   has an entry still to be handled, a terminal event, or a dead-letter record; and it keeps one in every
   future without a cancellation.
   */
  lemma NoJobIsLost(cap: nat, steps: seq<Step>, job: JobId)
    requires After(cap, steps).Some? && SpareRun(cap, steps) && job in After(cap, steps).value.published
    ensures var st := After(cap, steps).value.store;
            || job in st.finished
            || (exists e: EntryId :: e in st.dead && st.Has(e) && st.entries[e].payload == Named(job))
            || (exists e: EntryId :: st.Has(e) && st.entries[e].payload == Named(job) && st.entries[e].status != Acked)
    ensures forall future :: !Loses(cap, After(cap, steps).value, future, job)
  {
    var s := After(cap, steps).value;
    PublishedIsAnchored(cap, steps, job);
    TasksOkAfter(cap, steps);
    LosableExactlyWhen(cap, s, job);
    if e: EntryId :| Buried(s.store, job, e) {
      assert e in s.store.dead && s.store.Has(e) && s.store.entries[e].payload == Named(job);
    } else if e: EntryId :| Open(s.store, job, e) {
      assert s.store.Has(e) && s.store.entries[e].payload == Named(job) && s.store.entries[e].status != Acked;
    }
  }

  /** A run without cancellations is such a run. */
  lemma {:induction false} NoCancelIsSpare(cap: nat, steps: seq<Step>)
    requires After(cap, steps).Some? && NoCancel(steps)
    ensures SpareRun(cap, steps)
  {
    if steps != [] {
      NoCancelIsSpare(cap, steps[..|steps| - 1]);
    }
  }

  // ---- Every job can still be settled -----------------------------------------------------------------

  ghost function Fresh(tasks: set<TaskId>): (t: TaskId)
    ensures forall u :: u in tasks ==> u < t
  {
    if tasks == {} then 0
    else
      var u :| u in tasks;
      var t := Fresh(tasks - {u});
      assert forall other :: other in tasks ==> other == u || other in tasks - {u};
      if u < t then t else u + 1
  }

  /** A worker that gets the entry, and is not interrupted, does to the store what `process_job` does. */
  lemma WorkerOnItsOwn(cap: nat, s0: State, steps: seq<Step>, s: State, e: EntryId, t: TaskId)
      returns (more: seq<Step>, s': State)
    requires RunFrom(cap, s0, steps) == Some(s) && NoCancel(steps) && t !in s.tasks
    requires s.store.Has(e) && s.store.entries[e].status == New && s.store.entries[e].payload.Named?
    ensures RunFrom(cap, s0, more) == Some(s') && NoCancel(more)
    ensures s'.store == s.store.Finish(s.store.entries[e].payload.job).Mark(e, Acked)
    ensures s'.tasks == s.tasks && s'.published == s.published
  {
    var s1 := Next(cap, s, Deliver(e, t));
    Extend(cap, s0, steps, s, Deliver(e, t), s1);
    var s2;
    more, s2 := StartsAndReports(cap, s0, steps + [Deliver(e, t)], s1, t);
    more, s' := AcksAndLeaves(cap, s0, more, s2, t);
    TaskCameAndWent(s.tasks, t, Task(e, Waiting), Task(e, Reported));
    MarkTwice(s.store, e, s.store.entries[e].payload.job);
  }

  lemma MarkTwice(st: Store, e: EntryId, job: JobId)
    requires st.Has(e)
    ensures st.Mark(e, Pending).Finish(job).Mark(e, Acked) == st.Finish(job).Mark(e, Acked)
  {
  }

  lemma StartsAndReports(cap: nat, s0: State, steps: seq<Step>, s: State, t: TaskId)
      returns (more: seq<Step>, s': State)
    requires RunFrom(cap, s0, steps) == Some(s) && NoCancel(steps)
    requires At(s, t, Waiting) && EntryOf(s, t).payload.Named?
    ensures RunFrom(cap, s0, more) == Some(s') && NoCancel(more)
    ensures s'.store == s.store.Finish(EntryOf(s, t).payload.job) && s'.published == s.published
    ensures s'.tasks == s.tasks[t := Task(s.tasks[t].entry, Reported)]
  {
    var s1 := Next(cap, s, Start(t));
    Extend(cap, s0, steps, s, Start(t), s1);
    s' := Next(cap, s1, Report(t));
    Extend(cap, s0, steps + [Start(t)], s1, Report(t), s');
    more := steps + [Start(t)] + [Report(t)];
  }

  /** What `_handle_reclaimed_job` leaves in the store. */
  function Handled(cap: nat, st: Store, e: EntryId): Store
    requires st.Has(e)
  {
    var entry := st.entries[e];
    if entry.payload != Garbled && entry.attempts < cap then st.Add(st.Retried(e)).Mark(e, Acked)
    else if entry.payload.Named? then st.Finish(entry.payload.job).Bury(e).Mark(e, Acked)
    else st.Bury(e).Mark(e, Acked)
  }

  /** A reclaimer that gets the entry, and is not interrupted, does to the store what `_handle_reclaimed_job` does. */
  lemma ReclaimerOnItsOwn(cap: nat, s0: State, steps: seq<Step>, s: State, e: EntryId, t: TaskId)
      returns (more: seq<Step>, s': State)
    requires RunFrom(cap, s0, steps) == Some(s) && NoCancel(steps) && t !in s.tasks
    requires s.store.Has(e) && s.store.entries[e].status == Pending
    ensures RunFrom(cap, s0, more) == Some(s') && NoCancel(more)
    ensures s'.store == Handled(cap, s.store, e) && s'.tasks == s.tasks && s'.published == s.published
  {
    var s1 := Next(cap, s, Reclaim(e, t));
    Extend(cap, s0, steps, s, Reclaim(e, t), s1);
    var s2;
    if s.store.entries[e].payload != Garbled && s.store.entries[e].attempts < cap {
      more, s2 := Retries(cap, s0, steps + [Reclaim(e, t)], s1, t);
    } else {
      more, s2 := GivesUp(cap, s0, steps + [Reclaim(e, t)], s1, t);
    }
    more, s' := AcksAndLeaves(cap, s0, more, s2, t);
    TaskCameAndWent(s.tasks, t, Task(e, Taken), s2.tasks[t]);
  }

  lemma TaskCameAndWent(tasks: map<TaskId, Task>, t: TaskId, first: Task, second: Task)
    requires t !in tasks
    ensures tasks[t := first][t := second] - {t} == tasks
  {
  }

  lemma Retries(cap: nat, s0: State, steps: seq<Step>, s: State, t: TaskId) returns (more: seq<Step>, s': State)
    requires RunFrom(cap, s0, steps) == Some(s) && NoCancel(steps) && Enabled(cap, s, Republish(t))
    ensures RunFrom(cap, s0, more) == Some(s') && NoCancel(more)
    ensures var e := s.tasks[t].entry;
            && s'.store == s.store.Add(s.store.Retried(e))
            && s'.tasks == s.tasks[t := Task(e, Republished)] && s'.published == s.published
  {
    s' := Next(cap, s, Republish(t));
    Extend(cap, s0, steps, s, Republish(t), s');
    more := steps + [Republish(t)];
  }

  lemma AcksAndLeaves(cap: nat, s0: State, steps: seq<Step>, s: State, t: TaskId) returns (more: seq<Step>, s': State)
    requires RunFrom(cap, s0, steps) == Some(s) && NoCancel(steps) && Enabled(cap, s, Ack(t))
    ensures RunFrom(cap, s0, more) == Some(s') && NoCancel(more) && s'.published == s.published
    ensures s'.store == s.store.Mark(s.tasks[t].entry, Acked) && s'.tasks == s.tasks - {t}
  {
    s' := Next(cap, s, Ack(t));
    Extend(cap, s0, steps, s, Ack(t), s');
    more := steps + [Ack(t)];
  }

  lemma GivesUp(cap: nat, s0: State, steps: seq<Step>, s: State, t: TaskId) returns (more: seq<Step>, s': State)
    requires RunFrom(cap, s0, steps) == Some(s) && NoCancel(steps) && At(s, t, Taken)
    requires EntryOf(s, t).payload == Garbled || EntryOf(s, t).attempts >= cap
    ensures RunFrom(cap, s0, more) == Some(s') && NoCancel(more)
    ensures var (e, payload) := (s.tasks[t].entry, EntryOf(s, t).payload);
            && s'.store == (if payload.Named? then s.store.Finish(payload.job) else s.store).Bury(e)
            && s'.tasks == s.tasks[t := Task(e, Archived)] && s'.published == s.published
  {
    more, s' := steps, s;
    if EntryOf(s, t).payload.Named? {
      s' := Next(cap, s, Apologise(t));
      Extend(cap, s0, steps, s, Apologise(t), s');
      more := steps + [Apologise(t)];
    }
    var last := Next(cap, s', Archive(t));
    Extend(cap, s0, more, s', Archive(t), last);
    more, s' := more + [Archive(t)], last;
  }

  /**
   From every state, whatever entry is left of a job, workers and reclaimers can still bring the job to an event or
   a record.
   */
  lemma CoveredCanBeSettled(cap: nat, s: State, job: JobId)
    requires Covered(s.store, job)
    ensures exists steps :: Settles(cap, s, steps, job)
  {
    if Settled(s.store, job) {
      assert Settles(cap, s, [], job);
    } else {
      var e: EntryId :| Open(s.store, job, e);
      var steps := SettleBy(cap, s, job, e);
    }
  }

  ghost predicate Settles(cap: nat, s: State, steps: seq<Step>, job: JobId) {
    NoCancel(steps) && RunFrom(cap, s, steps).Some? && Settled(RunFrom(cap, s, steps).value.store, job)
  }

  lemma SettleBy(cap: nat, s: State, job: JobId, e: EntryId) returns (steps: seq<Step>)
    requires Open(s.store, job, e)
    ensures Settles(cap, s, steps, job)
  {
    var t := Fresh(s.tasks.Keys);
    var s';
    if s.store.entries[e].status == New {
      steps, s' := WorkerOnItsOwn(cap, s, [], s, e, t);
    } else {
      steps, s' := ReclaimerOnItsOwn(cap, s, [], s, e, t);
      if s.store.entries[e].attempts < cap {
        steps, s' := WorkerOnItsOwn(cap, s, steps, s', |s.store.entries|, t);
      }
    }
  }

  ghost predicate Capped(cap: nat, st: Store) {
    forall e :: 0 <= e < |st.entries| ==> st.entries[e].attempts <= cap
  }

  /** No entry ever carries more than the permitted attempts. */
  lemma {:induction false} AttemptsStayCapped(cap: nat, steps: seq<Step>)
    requires After(cap, steps).Some?
    ensures Capped(cap, After(cap, steps).value.store)
  {
    if steps != [] {
      AttemptsStayCapped(cap, steps[..|steps| - 1]);
    }
  }

  /** It does happen: the only job, cancelled in its first run, is gone without a trace. */
  lemma CancelledJobIsLost(cap: nat)
    ensures exists steps :: && After(cap, steps).Some? && 0 in After(cap, steps).value.published
                            && !Covered(After(cap, steps).value.store, 0)
  {
    var steps, s := PublishOne(cap);
    var s1;
    steps, s1 := DeliverAndStart(cap, steps, s, 0, 0);
    var s2 := Next(cap, s1, Cancel(0));
    Extend(cap, START, steps, s1, Cancel(0), s2);
    assert s2.store.entries == [Entry(Named(0), 0, Acked)];
    assert After(cap, steps + [Cancel(0)]) == Some(s2) && !Covered(s2.store, 0);
  }

  // ---- How often a job runs ---------------------------------------------------------------------------

  /** The task has its entry but has not begun. */
  ghost predicate IsWaiting(s: State, t: TaskId) {
    t in s.tasks && s.tasks[t].stage == Waiting
  }

  ghost predicate Delivered(st: Store, e: EntryId) {
    st.Has(e) && st.entries[e].status != New
  }

  /** Started entries are delivered and different. */
  ghost predicate StartedOk(s: State) {
    && (forall i :: 0 <= i < |s.started| ==> Delivered(s.store, s.started[i]))
    && (forall i, j :: 0 <= i < j < |s.started| ==> s.started[i] != s.started[j])
  }

  /** Entries about to start are delivered, different, and have not started before. */
  ghost predicate WaitingOk(s: State) {
    && (forall t :: IsWaiting(s, t) ==> Delivered(s.store, s.tasks[t].entry) && s.tasks[t].entry !in s.started)
    && (forall t, u :: IsWaiting(s, t) && IsWaiting(s, u) && t != u ==> s.tasks[t].entry != s.tasks[u].entry)
  }

  ghost predicate StartsOnce(s: State) {
    StartedOk(s) && WaitingOk(s)
  }

  /** No delivered entry starts twice, whatever crashes and whoever is reclaimed. */
  lemma {:induction false} EachEntryStartsOnce(cap: nat, steps: seq<Step>)
    requires After(cap, steps).Some?
    ensures StartsOnce(After(cap, steps).value)
  {
    if steps != [] {
      EachEntryStartsOnce(cap, steps[..|steps| - 1]);
      StartsOnceStep(cap, After(cap, steps[..|steps| - 1]).value, steps[|steps| - 1]);
    }
  }

  lemma DeliveredStep(cap: nat, s: State, step: Step, e: EntryId)
    requires Enabled(cap, s, step) && Delivered(s.store, e)
    ensures Delivered(Next(cap, s, step).store, e)
  {
  }

  lemma StartsOnceStep(cap: nat, s: State, step: Step)
    requires StartsOnce(s) && Enabled(cap, s, step)
    ensures StartsOnce(Next(cap, s, step))
  {
    var s' := Next(cap, s, step);
    forall e: EntryId | Delivered(s.store, e) ensures Delivered(s'.store, e) {
      DeliveredStep(cap, s, step, e);
    }
    assert StartedOk(s') by {
      assert step.Start? ==> IsWaiting(s, step.task);
    }
    WaitingStep(cap, s, step);
  }

  lemma WaitingStep(cap: nat, s: State, step: Step)
    requires StartsOnce(s) && Enabled(cap, s, step)
    requires forall e: EntryId :: Delivered(s.store, e) ==> Delivered(Next(cap, s, step).store, e)
    ensures WaitingOk(Next(cap, s, step))
  {
    var s' := Next(cap, s, step);
    forall t | IsWaiting(s', t) ensures Delivered(s'.store, s'.tasks[t].entry) && s'.tasks[t].entry !in s'.started {
      if !step.Deliver? {
        assert IsWaiting(s, t) && s.tasks[t] == s'.tasks[t];
        assert step.Start? ==> IsWaiting(s, step.task);
      }
    }
    forall t, u | IsWaiting(s', t) && IsWaiting(s', u) && t != u ensures s'.tasks[t].entry != s'.tasks[u].entry {
      assert (step.Deliver? && t == step.task) || (IsWaiting(s, t) && s.tasks[t] == s'.tasks[t]);
      assert (step.Deliver? && u == step.task) || (IsWaiting(s, u) && s.tasks[u] == s'.tasks[u]);
    }
  }

  /** No reclaimer dies between republishing and acking, and nobody reclaims an entry somebody is alive on. */
  ghost predicate Careful(s: State, step: Step) {
    && (step.Crash? ==> forall t :: t in step.dead && t in s.tasks ==> s.tasks[t].stage != Republished)
    && (step.Reclaim? ==> forall t :: t in s.tasks ==> s.tasks[t].entry != step.entry)
  }

  ghost predicate CarefulRun(cap: nat, steps: seq<Step>) {
    steps != [] ==>
      && CarefulRun(cap, steps[..|steps| - 1])
      && (After(cap, steps[..|steps| - 1]).Some? ==>
            Careful(After(cap, steps[..|steps| - 1]).value, steps[|steps| - 1]))
  }

  ghost predicate SameJob(st: Store, e: EntryId, f: EntryId) {
    st.Has(e) && st.Has(f) && st.entries[e].payload.Named? && st.entries[e].payload == st.entries[f].payload
  }

  ghost predicate Handed(s: State, e: EntryId) {
    && s.store.Has(e)
    && (s.store.entries[e].status == Acked || exists t :: t in s.tasks && s.tasks[t] == Task(e, Republished))
  }

  /** The entry this one was republished from. */
  ghost predicate From(st: Store, e: EntryId, f: EntryId) {
    SameJob(st, e, f) && st.entries[f].attempts == st.entries[e].attempts + 1
  }

  ghost predicate Owned(st: Store, e: EntryId) {
    st.Has(e) && st.entries[e].status == Pending
  }

  /** At most one task is alive on an entry, which is then pending; every job was published. */
  ghost predicate Owners(s: State) {
    && (forall t :: t in s.tasks ==> Owned(s.store, s.tasks[t].entry))
    && (forall t, u :: t in s.tasks && u in s.tasks && t != u ==> s.tasks[t].entry != s.tasks[u].entry)
    && (forall e: EntryId :: s.store.Has(e) && s.store.entries[e].payload.Named? ==>
                               s.store.entries[e].payload.job in s.published)
  }

  /** A job's entries form one chain of attempts, and each link but the last has been handed on. */
  ghost predicate OneChain(s: State) {
    && Owners(s)
    && (forall e: EntryId, f: EntryId ::
          SameJob(s.store, e, f) && s.store.entries[e].attempts == s.store.entries[f].attempts ==> e == f)
    && (forall e: EntryId, f: EntryId :: From(s.store, e, f) ==> Handed(s, e))
    && (forall f: EntryId :: s.store.Has(f) && s.store.entries[f].payload.Named? && s.store.entries[f].attempts > 0 ==>
                               exists e :: From(s.store, e, f))
  }

  /** The entry a task is on never changes, and nobody else's ack can touch it. */
  lemma OwnedStep(cap: nat, s: State, step: Step, t: TaskId)
    requires Owners(s) && Enabled(cap, s, step) && t in Next(cap, s, step).tasks
    ensures var s' := Next(cap, s, step);
            Owned(s'.store, s'.tasks[t].entry) && (t in s.tasks ==> s'.tasks[t].entry == s.tasks[t].entry)
  {
  }

  lemma PublishedStep(cap: nat, s: State, step: Step, e: EntryId)
    requires Owners(s) && Enabled(cap, s, step) && Next(cap, s, step).store.Has(e)
    ensures var s' := Next(cap, s, step);
            s'.store.entries[e].payload.Named? ==> s'.store.entries[e].payload.job in s'.published
  {
  }

  lemma OwnersStep(cap: nat, s: State, step: Step)
    requires Owners(s) && Enabled(cap, s, step) && Careful(s, step)
    ensures Owners(Next(cap, s, step))
  {
    var s' := Next(cap, s, step);
    forall t | t in s'.tasks
      ensures Owned(s'.store, s'.tasks[t].entry) && (t in s.tasks ==> s'.tasks[t].entry == s.tasks[t].entry)
    {
      OwnedStep(cap, s, step, t);
    }
    forall e: EntryId | s'.store.Has(e)
      ensures s'.store.entries[e].payload.Named? ==> s'.store.entries[e].payload.job in s'.published
    {
      PublishedStep(cap, s, step, e);
    }
  }

  lemma HandedStep(cap: nat, s: State, step: Step, e: EntryId)
    requires OneChain(s) && Enabled(cap, s, step) && Careful(s, step) && Handed(s, e)
    ensures Handed(Next(cap, s, step), e)
  {
    var s' := Next(cap, s, step);
    if s.store.entries[e].status != Acked {
      var t :| t in s.tasks && s.tasks[t] == Task(e, Republished);
      assert !(step.Ack? && step.task == t) ==> t in s'.tasks && s'.tasks[t] == Task(e, Republished);
    }
  }

  lemma OneChainStep(cap: nat, s: State, step: Step)
    requires OneChain(s) && Enabled(cap, s, step) && Careful(s, step)
    ensures OneChain(Next(cap, s, step))
  {
    var s' := Next(cap, s, step);
    OwnersStep(cap, s, step);
    forall e: EntryId, f: EntryId | From(s'.store, e, f) ensures Handed(s', e) {
      ChainLink(cap, s, step, e, f);
    }
    forall e: EntryId, f: EntryId |
      SameJob(s'.store, e, f) && s'.store.entries[e].attempts == s'.store.entries[f].attempts
      ensures e == f
    {
      ChainPlace(cap, s, step, e, f);
      ChainPlace(cap, s, step, f, e);
    }
    forall f: EntryId | s'.store.Has(f) && s'.store.entries[f].payload.Named? && s'.store.entries[f].attempts > 0
      ensures exists e :: From(s'.store, e, f)
    {
      ChainStart(cap, s, step, f);
    }
  }

  /** No step changes what an entry says. */
  lemma EntryStays(cap: nat, s: State, step: Step, e: EntryId)
    requires Enabled(cap, s, step) && s.store.Has(e)
    ensures var (st, st') := (s.store, Next(cap, s, step).store);
            && st'.Has(e) && st'.entries[e].payload == st.entries[e].payload
            && st'.entries[e].attempts == st.entries[e].attempts
  {
  }

  lemma ChainStart(cap: nat, s: State, step: Step, f: EntryId)
    requires Enabled(cap, s, step) && Next(cap, s, step).store.Has(f)
    requires var entry := Next(cap, s, step).store.entries[f]; entry.payload.Named? && entry.attempts > 0
    requires s.store.Has(f) && s.store.entries[f].payload.Named? && s.store.entries[f].attempts > 0 ==>
               exists e :: From(s.store, e, f)
    ensures exists e :: From(Next(cap, s, step).store, e, f)
  {
    var s' := Next(cap, s, step);
    if f < |s.store.entries| {
      EntryStays(cap, s, step, f);
      var e :| From(s.store, e, f);
      EntryStays(cap, s, step, e);
      assert From(s'.store, e, f);
    } else {
      EntryStays(cap, s, step, s.tasks[step.task].entry);
      assert From(s'.store, s.tasks[step.task].entry, f);
    }
  }

  /** An entry somebody is about to republish has no successor yet. */
  lemma TakenIsLast(s: State, t: TaskId, f: EntryId)
    requires OneChain(s) && At(s, t, Taken)
    ensures !From(s.store, s.tasks[t].entry, f)
  {
  }

  /** Two different entries of a job are at different places of the chain after the step too. */
  lemma ChainPlace(cap: nat, s: State, step: Step, e: EntryId, f: EntryId)
    requires OneChain(s) && Enabled(cap, s, step) && Careful(s, step) && SameJob(Next(cap, s, step).store, e, f)
    requires var st := Next(cap, s, step).store; st.entries[e].attempts == st.entries[f].attempts
    ensures e >= f
  {
    if e < f {
      if f < |s.store.entries| {
        assert SameJob(s.store, e, f);
      } else if step.Republish? {
        TakenIsLast(s, step.task, e);
      }
      assert false;
    }
  }

  lemma ChainLink(cap: nat, s: State, step: Step, e: EntryId, f: EntryId)
    requires OneChain(s) && Enabled(cap, s, step) && Careful(s, step) && From(Next(cap, s, step).store, e, f)
    ensures Handed(Next(cap, s, step), e)
  {
    var n, s' := |s.store.entries|, Next(cap, s, step);
    if e < n && f < n {
      EntryStays(cap, s, step, e);
      EntryStays(cap, s, step, f);
      assert From(s.store, e, f);
      HandedStep(cap, s, step, e);
    } else if step.Republish? {
      var r := s.tasks[step.task].entry;
      if f == n {
        assert SameJob(s.store, r, e) && r == e;
        assert s'.tasks[step.task] == Task(e, Republished);
      } else {
        var g :| From(s.store, g, f);
        TakenIsLast(s, step.task, g);
        assert false;
      }
    }
  }

  lemma {:induction false} OneChainAfter(cap: nat, steps: seq<Step>)
    requires After(cap, steps).Some? && CarefulRun(cap, steps)
    ensures OneChain(After(cap, steps).value)
  {
    if steps != [] {
      OneChainAfter(cap, steps[..|steps| - 1]);
      OneChainStep(cap, After(cap, steps[..|steps| - 1]).value, steps[|steps| - 1]);
    }
  }

  /** At most `cap + 1` entries can sit at different attempt counts up to `cap`. */
  lemma {:induction false} Pigeonhole(st: Store, cap: int, es: set<EntryId>)
    requires cap >= -1
    requires forall e: EntryId :: e in es ==> st.Has(e) && st.entries[e].attempts <= cap
    requires forall e: EntryId, f: EntryId ::
             e in es && f in es && st.Has(e) && st.Has(f) && st.entries[e].attempts == st.entries[f].attempts ==> e == f
    ensures |es| <= cap + 1
    decreases cap
  {
    if e :| e in es && st.entries[e].attempts == cap {
      Pigeonhole(st, cap - 1, es - {e});
    } else if cap >= 0 {
      Pigeonhole(st, cap - 1, es);
    } else {
      assert forall e: EntryId :: e !in es;
      assert es == {};
    }
  }

  ghost function RunsOf(s: State, job: JobId): set<EntryId> {
    set e | e in s.started && s.store.Has(e) && s.store.entries[e].payload == Named(job)
  }

  /** On careful runs a job is run at most once plus once per permitted retry. */
  lemma RunsAreBounded(cap: nat, steps: seq<Step>, job: JobId)
    requires After(cap, steps).Some? && CarefulRun(cap, steps)
    ensures |RunsOf(After(cap, steps).value, job)| <= cap + 1
  {
    OneChainAfter(cap, steps);
    AttemptsStayCapped(cap, steps);
    var s := After(cap, steps).value;
    var es := RunsOf(s, job);
    forall e: EntryId, f: EntryId | e in es && f in es && s.store.entries[e].attempts == s.store.entries[f].attempts
      ensures e == f
    {
      assert SameJob(s.store, e, f);
    }
    Pigeonhole(s.store, cap, es);
  }

  lemma Extend(cap: nat, s0: State, steps: seq<Step>, s: State, step: Step, s': State)
    requires RunFrom(cap, s0, steps) == Some(s) && Enabled(cap, s, step) && s' == Next(cap, s, step)
    ensures RunFrom(cap, s0, steps + [step]) == Some(s')
  {
    assert (steps + [step])[..|steps|] == steps;
  }

  lemma PublishOne(cap: nat) returns (steps: seq<Step>, s: State)
    ensures After(cap, steps) == Some(s) && s == State(Store([Entry(Named(0), 0, New)], {}, {}), map[], {0}, [])
  {
    s := Next(cap, START, Publish(0));
    Extend(cap, START, [], START, Publish(0), s);
    steps := [] + [Publish(0)];
    assert s.store.entries == [Entry(Named(0), 0, New)];
  }

  /** A new entry is delivered to a new task, and starts. */
  lemma DeliverAndStart(cap: nat, steps: seq<Step>, s: State, e: EntryId, t: TaskId)
    returns (more: seq<Step>, s': State)
    requires After(cap, steps) == Some(s) && t !in s.tasks
    requires s.store.Has(e) && s.store.entries[e].status == New && s.store.entries[e].payload.Named?
    ensures After(cap, more) == Some(s')
    ensures s'.store == s.store.Mark(e, Pending) && s'.tasks.Keys == s.tasks.Keys + {t} && s'.started == s.started + [e]
    ensures s'.tasks[t] == Task(e, Running) && s'.published == s.published
  {
    var s1 := Next(cap, s, Deliver(e, t));
    s' := Next(cap, s1, Start(t));
    Extend(cap, START, steps, s, Deliver(e, t), s1);
    Extend(cap, START, steps + [Deliver(e, t)], s1, Start(t), s');
    more := steps + [Deliver(e, t)] + [Start(t)];
  }

  /** A reclaimer takes a pending entry and republishes it. */
  lemma ReclaimAndRepublish(cap: nat, steps: seq<Step>, s: State, e: EntryId, t: TaskId)
    returns (more: seq<Step>, s': State)
    requires After(cap, steps) == Some(s) && t !in s.tasks
    requires s.store.Has(e) && s.store.entries[e].status == Pending
    requires s.store.entries[e].payload.Named? && s.store.entries[e].attempts < cap
    ensures After(cap, more) == Some(s')
    ensures s'.store == s.store.Add(s.store.Retried(e))
    ensures s'.tasks.Keys == s.tasks.Keys + {t} && s'.started == s.started
  {
    var s1 := Next(cap, s, Reclaim(e, t));
    s' := Next(cap, s1, Republish(t));
    Extend(cap, START, steps, s, Reclaim(e, t), s1);
    Extend(cap, START, steps + [Reclaim(e, t)], s1, Republish(t), s');
    more := steps + [Reclaim(e, t)] + [Republish(t)];
  }

  /** Two reclaimers take one slow worker's entry and both republish it. */
  lemma TwoReclaimersOfOneEntry() returns (steps: seq<Step>, s: State)
    ensures After(1, steps) == Some(s) && s.started == [0] && 3 !in s.tasks && 4 !in s.tasks
    ensures s.store.entries == [Entry(Named(0), 0, Pending), Entry(Named(0), 1, New), Entry(Named(0), 1, New)]
  {
    steps, s := PublishOne(1);
    steps, s := DeliverAndStart(1, steps, s, 0, 0);
    assert s.store.entries == [Entry(Named(0), 0, Pending)];
    steps, s := ReclaimAndRepublish(1, steps, s, 0, 1);
    assert s.store.entries == [Entry(Named(0), 0, Pending), Entry(Named(0), 1, New)];
    steps, s := ReclaimAndRepublish(1, steps, s, 0, 2);
  }

  /** Without care the bound fails: with one permitted retry, such a job runs three times. */
  lemma CarelessRunsExceedTheBound()
    ensures exists steps :: After(1, steps).Some? && |RunsOf(After(1, steps).value, 0)| == 3
  {
    var steps, s := TwoReclaimersOfOneEntry();
    steps, s := DeliverAndStart(1, steps, s, 1, 3);
    assert s.store.entries == [Entry(Named(0), 0, Pending), Entry(Named(0), 1, Pending), Entry(Named(0), 1, New)];
    steps, s := DeliverAndStart(1, steps, s, 2, 4);
    assert s.store.entries == [Entry(Named(0), 0, Pending), Entry(Named(0), 1, Pending), Entry(Named(0), 1, Pending)];
    assert s.started == [0, 1, 2];
    assert RunsOf(s, 0) == {0, 1, 2};
  }
}
