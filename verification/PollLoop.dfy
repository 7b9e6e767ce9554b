/**
 The Telegram poll loop (app/channels/telegram.py): updates are handled one by one, and the offset is
 persisted after each. The process can die between any two steps and start again.
 */
module PollLoop {
  import opened Wrappers
  import opened Decimals
  import opened Separators

  type UpdateId = nat

  // ---- One reply of getUpdates, uninterrupted ---------------------------------------------------------

  class Channel {
    var offset: UpdateId
    var saved: UpdateId
    var handled: seq<UpdateId>

    /** A start reads the persisted offset. */
    constructor (saved: UpdateId)
      ensures offset == this.saved == saved && handled == []
    {
      offset, this.saved, handled := saved, saved, [];
    }

    method HandleUpdates(updates: seq<UpdateId>)
      modifies this
      ensures handled == old(handled) + updates
      ensures updates == [] ==> offset == old(offset) && saved == old(saved)
      ensures updates != [] ==> offset == saved == updates[|updates| - 1] + 1
    {
      for i := 0 to |updates|
        invariant handled == old(handled) + updates[..i]
        invariant i == 0 ==> offset == old(offset) && saved == old(saved)
        invariant i > 0 ==> offset == saved == updates[i - 1] + 1
      {
        handled := handled + [updates[i]];
        offset := updates[i] + 1;
        saved := offset;
      }
    }
  }

  // ---- Every run, with crashes ------------------------------------------------------------------------

  /** Where the process is: not running; asking for updates; or at update `next` of a reply that ends before `end`. */
  datatype Process =
    | Down
    | Polling(offset: UpdateId)
    | Handling(offset: UpdateId, next: nat, end: nat)     // the update is not handled yet
    | Answered(offset: UpdateId, next: nat, end: nat)     // handled; the offset is not advanced yet
    | Saving(offset: UpdateId, next: nat, end: nat)       // advanced in memory; not persisted yet

  /** `updates`: everything the server was ever sent, in order; `saved`: the persisted offset. */
  datatype State = State(updates: seq<UpdateId>, saved: UpdateId, process: Process, handled: set<UpdateId>)

  const START := State([], 0, Down, {})

  datatype Step =
    | Arrive(id: UpdateId)
    | Launch
    | Poll(from: nat, count: nat)    // the server returns this many updates from its first one at or past the offset
    | Handle
    | Advance
    | Save
    | Crash

  /** `from` is the position of the first update at or past the offset. */
  predicate FirstAt(updates: seq<UpdateId>, offset: UpdateId, from: nat) {
    from <= |updates| && (from > 0 ==> updates[from - 1] < offset) && (from < |updates| ==> offset <= updates[from])
  }

  predicate Enabled(s: State, step: Step) {
    match step
    case Arrive(id) => s.updates == [] || s.updates[|s.updates| - 1] < id
    case Launch => s.process.Down?
    case Poll(from, count) =>
      s.process.Polling? && FirstAt(s.updates, s.process.offset, from) && from + count <= |s.updates|
    case Handle => s.process.Handling? && s.process.next < s.process.end <= |s.updates|
    case Advance => s.process.Answered? && s.process.next < |s.updates|
    case Save => s.process.Saving?
    case Crash => true
  }

  /** The rest of a reply, or the next poll when there is none. */
  function Continue(offset: UpdateId, next: nat, end: nat): Process {
    if next < end then Handling(offset, next, end) else Polling(offset)
  }

  function Next(s: State, step: Step): State
    requires Enabled(s, step)
  {
    var p := s.process;
    match step
    case Arrive(id) => s.(updates := s.updates + [id])
    case Launch => s.(process := Polling(s.saved))
    case Poll(from, count) => s.(process := Continue(p.offset, from, from + count))
    case Handle => s.(process := Answered(p.offset, p.next, p.end), handled := s.handled + {s.updates[p.next]})
    case Advance => s.(process := Saving(s.updates[p.next] + 1, p.next, p.end))
    case Save => s.(saved := p.offset, process := Continue(p.offset, p.next + 1, p.end))
    case Crash => s.(process := Down)
  }

  function After(steps: seq<Step>): Option<State> {
    if steps == [] then Some(START)
    else
      var before, step := After(steps[..|steps| - 1]), steps[|steps| - 1];
      if before.Some? && Enabled(before.value, step) then Some(Next(before.value, step)) else None
  }

  ghost predicate Ordered(updates: seq<UpdateId>) {
    forall i, j :: 0 <= i < j < |updates| ==> updates[i] < updates[j]
  }

  /** Every update below the offset was handled, and no later arrival can fall below it. */
  ghost predicate Done(s: State, offset: UpdateId) {
    && (forall i :: 0 <= i < |s.updates| && s.updates[i] < offset ==> s.updates[i] in s.handled)
    && (offset > 0 ==> s.updates != [] && offset <= s.updates[|s.updates| - 1] + 1)
  }

  ghost predicate ProcessOk(s: State) {
    match s.process
    case Down => true
    case Polling(offset) => Done(s, offset)
    case Handling(offset, next, end) => next < end <= |s.updates| && Done(s, offset) && Done(s, s.updates[next])
    case Answered(offset, next, end) => next < end <= |s.updates| && Done(s, offset) && Done(s, s.updates[next] + 1)
    case Saving(offset, next, end) => next < end <= |s.updates| && offset == s.updates[next] + 1 && Done(s, offset)
  }

  ghost predicate Safe(s: State) {
    Ordered(s.updates) && Done(s, s.saved) && ProcessOk(s)
  }

  /** Being done up to an offset survives every step: updates only arrive past it, and handled ones stay handled. */
  lemma DoneStep(s: State, step: Step, offset: UpdateId)
    requires Done(s, offset) && Ordered(s.updates) && Enabled(s, step)
    ensures Done(Next(s, step), offset)
  {
  }

  /** What the process knows stays true while others move. */
  lemma OtherStep(s: State, step: Step)
    requires Safe(s) && Enabled(s, step) && (step.Arrive? || step.Launch? || step.Crash?)
    ensures ProcessOk(Next(s, step))
  {
    if step.Arrive? {
      match s.process
      case Down =>
      case Polling(offset) => DoneStep(s, step, offset);
      case Handling(offset, next, end) =>
        DoneStep(s, step, offset);
        DoneStep(s, step, s.updates[next]);
      case Answered(offset, next, end) =>
        DoneStep(s, step, offset);
        DoneStep(s, step, s.updates[next] + 1);
      case Saving(offset, next, end) => DoneStep(s, step, offset);
    }
  }

  /** And each of its own steps establishes what the next phase needs. */
  lemma OwnStep(s: State, step: Step)
    requires Safe(s) && Enabled(s, step) && !(step.Arrive? || step.Launch? || step.Crash?)
    ensures ProcessOk(Next(s, step))
  {
    match step
    case Poll(from, count) => PollStep(s, from, count);
    case Handle => HandleStep(s);
    case Advance =>
    case Save => SaveStep(s);
  }

  lemma PollStep(s: State, from: nat, count: nat)
    requires Safe(s) && Enabled(s, Poll(from, count))
    ensures ProcessOk(Next(s, Poll(from, count)))
  {
    if count > 0 {
      forall i | 0 <= i < |s.updates| && s.updates[i] < s.updates[from] ensures s.updates[i] in s.handled {
        assert i < from && s.updates[i] < s.process.offset;
      }
    }
  }

  lemma HandleStep(s: State)
    requires Safe(s) && Enabled(s, Handle)
    ensures ProcessOk(Next(s, Handle))
  {
    DoneStep(s, Handle, s.process.offset);
    NextIsDone(Next(s, Handle), s.process.next);
  }

  lemma SaveStep(s: State)
    requires Safe(s) && Enabled(s, Save)
    ensures ProcessOk(Next(s, Save))
  {
    DoneStep(s, Save, s.process.offset);
    if s.process.next + 1 < s.process.end {
      NextAfter(Next(s, Save), s.process.offset, s.process.next + 1);
    }
  }

  /** Done up to an update, and that update handled, is done up to just past it. */
  lemma NextIsDone(s: State, next: nat)
    requires Ordered(s.updates) && next < |s.updates| && s.updates[next] in s.handled
    requires forall i :: 0 <= i < |s.updates| && s.updates[i] < s.updates[next] ==> s.updates[i] in s.handled
    ensures Done(s, s.updates[next] + 1)
  {
  }

  /** Done up to just past one update is done up to the next. */
  lemma NextAfter(s: State, offset: UpdateId, next: nat)
    requires Ordered(s.updates) && 0 < next < |s.updates| && offset == s.updates[next - 1] + 1 && Done(s, offset)
    ensures Done(s, s.updates[next])
  {
    forall i | 0 <= i < |s.updates| && s.updates[i] < s.updates[next] ensures s.updates[i] in s.handled {
      assert i <= next - 1;
    }
  }

  lemma SafeStep(s: State, step: Step)
    requires Safe(s) && Enabled(s, step)
    ensures Safe(Next(s, step))
  {
    DoneStep(s, step, s.saved);
    if step.Arrive? || step.Launch? || step.Crash? {
      OtherStep(s, step);
    } else {
      OwnStep(s, step);
    }
    if step.Save? {
      DoneStep(s, step, s.process.offset);
    }
  }

  lemma {:induction false} SafeAfter(steps: seq<Step>)
    requires After(steps).Some?
    ensures Safe(After(steps).value)
  {
    if steps != [] {
      SafeAfter(steps[..|steps| - 1]);
      SafeStep(After(steps[..|steps| - 1]).value, steps[|steps| - 1]);
    }
  }

  /** In every run, with crashes anywhere, each update below the persisted offset was handled to completion. */
  lemma NoUpdateIsSkipped(steps: seq<Step>, i: nat)
    requires After(steps).Some? && i < |After(steps).value.updates|
    ensures var s := After(steps).value; s.updates[i] < s.saved ==> s.updates[i] in s.handled
  {
    SafeAfter(steps);
  }

  // ---- What a restart repeats -------------------------------------------------------------------------

  /** Where the process stands is at or past what was persisted. */
  ghost predicate PastSaved(s: State) {
    match s.process
    case Down => true
    case Polling(offset) => s.saved <= offset
    case Handling(offset, next, end) => next < |s.updates| && s.saved <= s.updates[next]
    case Answered(offset, next, end) => next < |s.updates| && s.saved <= s.updates[next]
    case Saving(offset, next, end) => s.saved <= offset
  }

  lemma PastSavedStep(s: State, step: Step)
    requires Safe(s) && PastSaved(s) && Enabled(s, step)
    ensures PastSaved(Next(s, step))
  {
    SafeStep(s, step);
    if step.Save? && s.process.next + 1 < s.process.end {
      assert s.updates[s.process.next] < s.updates[s.process.next + 1];
    }
  }

  lemma {:induction false} PastSavedAfter(steps: seq<Step>)
    requires After(steps).Some?
    ensures PastSaved(After(steps).value)
  {
    if steps != [] {
      PastSavedAfter(steps[..|steps| - 1]);
      SafeAfter(steps[..|steps| - 1]);
      PastSavedStep(After(steps[..|steps| - 1]).value, steps[|steps| - 1]);
    }
  }

  /** The step handles this update. */
  ghost predicate Handles(steps: seq<Step>, i: nat, u: UpdateId) {
    && i < |steps| && steps[i].Handle? && After(steps[..i]).Some? && Enabled(After(steps[..i]).value, Handle)
    && var s := After(steps[..i]).value;
    && s.updates[s.process.next] == u
  }

  /** An update below the persisted offset is never handled again, however often the process restarts. */
  lemma PersistedIsNotRepeated(steps: seq<Step>, i: nat, u: UpdateId)
    requires Handles(steps, i, u)
    ensures After(steps[..i]).value.saved <= u
  {
    PastSavedAfter(steps[..i]);
  }

  /** The process is past the update: it will handle only later ones while it lives. */
  ghost predicate Past(s: State, u: UpdateId) {
    match s.process
    case Down => false
    case Polling(offset) => u < offset
    case Handling(offset, next, end) => next < |s.updates| && u < s.updates[next]
    case Answered(offset, next, end) => next < |s.updates| && u <= s.updates[next]
    case Saving(offset, next, end) => u < offset
  }

  lemma PastStep(s: State, step: Step, u: UpdateId)
    requires Safe(s) && Past(s, u) && Enabled(s, step) && !step.Crash?
    ensures Past(Next(s, step), u)
  {
    SafeStep(s, step);
    if step.Save? && s.process.next + 1 < s.process.end {
      assert s.updates[s.process.next] < s.updates[s.process.next + 1];
    }
  }

  lemma {:induction false} PrefixRuns(steps: seq<Step>, n: nat)
    requires After(steps).Some? && n <= |steps|
    ensures After(steps[..n]).Some? && (n < |steps| ==> Enabled(After(steps[..n]).value, steps[n]))
  {
    if n == |steps| {
      assert steps[..n] == steps;
    } else if n < |steps| - 1 {
      PrefixRuns(steps[..|steps| - 1], n);
      assert steps[..|steps| - 1][..n] == steps[..n];
    }
  }

  lemma HandledIsPast(steps: seq<Step>, i: nat, u: UpdateId)
    requires Handles(steps, i, u)
    ensures After(steps[..i + 1]).Some? && Past(After(steps[..i + 1]).value, u)
  {
    assert steps[..i + 1][..i] == steps[..i];
  }

  lemma OneMoreStep(steps: seq<Step>, j: nat)
    requires After(steps).Some? && j < |steps|
    ensures After(steps[..j]).Some? && Enabled(After(steps[..j]).value, steps[j])
    ensures After(steps[..j + 1]) == Some(Next(After(steps[..j]).value, steps[j]))
  {
    PrefixRuns(steps, j);
    assert steps[..j + 1][..j] == steps[..j];
  }

  lemma {:induction false} PastUntilCrash(steps: seq<Step>, i: nat, j: nat, u: UpdateId)
    requires After(steps).Some? && i <= j <= |steps| && After(steps[..i]).Some? && Past(After(steps[..i]).value, u)
    requires forall k :: i <= k < j ==> !steps[k].Crash?
    ensures After(steps[..j]).Some? && Past(After(steps[..j]).value, u)
    decreases j
  {
    if i < j {
      PastUntilCrash(steps, i, j - 1, u);
      OneMoreStep(steps, j - 1);
      SafeAfter(steps[..j - 1]);
      PastStep(After(steps[..j - 1]).value, steps[j - 1], u);
    }
  }

  /** An update is handled twice only if the process died in between: at most once more than there were crashes. */
  lemma RepeatsOnlyAfterACrash(steps: seq<Step>, i: nat, j: nat, u: UpdateId)
    requires After(steps).Some? && i < j && Handles(steps, i, u) && Handles(steps, j, u)
    ensures exists k :: i < k < j && steps[k].Crash?
  {
    if forall k :: i < k < j ==> !steps[k].Crash? {
      HandledIsPast(steps, i, u);
      PastUntilCrash(steps, i + 1, j, u);
      assert false;
    }
  }

  // ---- What makes two deliveries the same submission --------------------------------------------------

  function DedupKey(domain: string, update: UpdateId): string {
    "telegram:" + domain + ":update:" + Decimal(update)
  }

  /** Two deliveries share a key exactly when they are the same update of the same bot. */
  lemma DedupKeyIsInjective(d: string, u: UpdateId, d': string, u': UpdateId)
    ensures DedupKey(d, u) == DedupKey(d', u') <==> d == d' && u == u'
  {
    if DedupKey(d, u) == DedupKey(d', u') {
      var a, b := "telegram:" + d + ":update", "telegram:" + d' + ":update";
      assert DedupKey(d, u) == a + ":" + Decimal(u) && DedupKey(d', u') == b + ":" + Decimal(u');
      LastSeparator(':', a, Decimal(u), b, Decimal(u'));
      assert a[9..9 + |d|] == d && b[9..9 + |d'|] == d';
      ValueOfDecimal(u);
      ValueOfDecimal(u');
    }
  }
}
