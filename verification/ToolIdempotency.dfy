/**
 The exactly-once guard around a mutating tool call (app/core/tool_idempotency.py) over its ledger
 (app/adapters/postgres/tool_idempotency.py), under failures of the ledger, of the tool, and of the process.
 */
module ToolIdempotency {
  import opened Wrappers

  /** One row of `tool_call_dedup`. */
  datatype Row = Absent | Claimed | Stored(result: string)

  type Ledger = map<string, Row>

  function Get(ledger: Ledger, id: string): Row {
    if id in ledger then ledger[id] else Absent
  }

  /** The claim is answered, or fails with the row inserted or not, or the process dies first. */
  datatype ClaimEnd = Answered | ClaimFails(landed: bool) | DiesBeforeClaim

  /** How the tool itself ends, if it is reached. */
  datatype FnEnd = Returns(result: string) | TimesOut | Raises(what: string) | DiesInside

  /** How storing its result ends: done, refused with the update applied or not, or the process dies first. */
  datatype StoreEnd = StoreOk | StoreFails(landed: bool) | DiesBeforeStore

  /** Everything outside the guard's control in one attempt; `diesBeforeRun` strikes between the claim and the tool. */
  datatype Fate = Fate(claim: ClaimEnd, diesBeforeRun: bool, fn: FnEnd, store: StoreEnd)

  datatype Reply = Result(text: string) | TimedOut | Failed(what: string) | Died

  /** What one attempt did: its reply, whether it ran the tool, and whether it ran it without the ledger. */
  datatype Done = Done(reply: Reply, ran: bool, degraded: bool)

  function Unguarded(fn: FnEnd): Reply {
    match fn
    case Returns(r) => Result(r)
    case TimesOut => Failed("TimeoutError")
    case Raises(what) => Failed(what)
    case DiesInside => Died
  }

  /** One call of `idempotent` for an id whose row is `row`. */
  function Attempt(row: Row, fate: Fate): (Row, Done) {
    var claimed := if row.Absent? then Claimed else row;
    match fate.claim
    case DiesBeforeClaim => (row, Done(Died, false, false))
    case ClaimFails(landed) =>
      (if landed then claimed else row, Done(Unguarded(fate.fn), true, true))
    case Answered =>
      if row.Stored? then (row, Done(Result(row.result), false, false))
      else if fate.diesBeforeRun then (claimed, Done(Died, false, false))
      else match fate.fn
        case TimesOut => (claimed, Done(TimedOut, true, false))
        case Raises(what) => (claimed, Done(Failed(what), true, false))
        case DiesInside => (claimed, Done(Died, true, false))
        case Returns(r) =>
          (if fate.store.StoreOk? || (fate.store.StoreFails? && fate.store.landed) then Stored(r) else claimed,
           Done(if fate.store.DiesBeforeStore? then Died else Result(r), true, false))
  }

  class ToolCallLedger {
    var rows: Ledger

    constructor ()
      ensures rows == map[]
    {
      rows := map[];
    }

    /** `INSERT ... ON CONFLICT DO NOTHING`, and what was there before if the insert did not land. */
    method ClaimOrCached(id: string) returns (cached: Option<string>)
      modifies this
      ensures rows == old(rows)[id := if old(Get(rows, id)).Absent? then Claimed else old(Get(rows, id))]
      ensures cached == match old(Get(rows, id)) case Stored(r) => Some(r) case _ => None
    {
      var row := Get(rows, id);
      if row.Absent? {
        rows := rows[id := Claimed];
        return None;
      }
      rows := rows[id := row];
      return if row.Stored? then Some(row.result) else None;
    }

    /** `idempotent`: claim, run, store, with the source's handling of each failure. */
    method Idempotent(id: string, fate: Fate) returns (done: Done)
      modifies this
      ensures (Get(rows, id), done) == Attempt(old(Get(rows, id)), fate)
      ensures forall other :: other != id ==> Get(rows, other) == old(Get(rows, other))
    {
      if fate.claim.DiesBeforeClaim? {
        return Done(Died, false, false);
      }
      if fate.claim.ClaimFails? {
        if fate.claim.landed {
          var _ := ClaimOrCached(id);
        }
        return Done(Unguarded(fate.fn), true, true);
      }
      var cached := ClaimOrCached(id);
      if cached.Some? {
        return Done(Result(cached.value), false, false);
      }
      if fate.diesBeforeRun {
        return Done(Died, false, false);
      }
      match fate.fn
      case TimesOut => return Done(TimedOut, true, false);
      case Raises(what) => return Done(Failed(what), true, false);
      case DiesInside => return Done(Died, true, false);
      case Returns(r) =>
        if fate.store.StoreOk? || (fate.store.StoreFails? && fate.store.landed) {
          rows := rows[id := Stored(r)];
        }
        return Done(if fate.store.DiesBeforeStore? then Died else Result(r), true, false);
    }
  }

  // ---- Any sequence of attempts under one id ----------------------------------------------------------

  function RowAfter(fates: seq<Fate>): Row {
    if fates == [] then Absent else Attempt(RowAfter(fates[..|fates| - 1]), fates[|fates| - 1]).0
  }

  /** What the n-th attempt did. */
  function DoneAt(fates: seq<Fate>, n: nat): Done
    requires n < |fates|
  {
    Attempt(RowAfter(fates[..n]), fates[n]).1
  }

  /** The attempt reached the ledger and ran the tool. */
  ghost predicate RanGuarded(fates: seq<Fate>, n: nat)
    requires n < |fates|
  {
    DoneAt(fates, n).ran && !DoneAt(fates, n).degraded
  }

  /** The update that stores a result was applied, whether or not its answer came back. */
  predicate Lands(store: StoreEnd) {
    store.StoreOk? || (store.StoreFails? && store.landed)
  }

  /** The attempt ran the tool through the ledger, and its result was stored. */
  ghost predicate StoredBy(fates: seq<Fate>, n: nat)
    requires n < |fates|
  {
    RanGuarded(fates, n) && fates[n].fn.Returns? && Lands(fates[n].store)
  }

  /**
   An attempt runs the tool exactly when the ledger could not be asked, or was asked, the process lived on, and no
   earlier attempt had stored a result: a claim whose run was lost is run again.
   */
  lemma RunsExactlyWhen(fates: seq<Fate>, n: nat)
    requires n < |fates|
    ensures DoneAt(fates, n).ran <==>
            || fates[n].claim.ClaimFails?
            || (fates[n].claim.Answered? && !fates[n].diesBeforeRun && forall i: nat :: i < n ==> !StoredBy(fates, i))
  {
    StoredExactlyWhen(fates, n);
  }

  /** The attempt inserted the row, or found it there. */
  predicate Inserts(claim: ClaimEnd) {
    claim.Answered? || (claim.ClaimFails? && claim.landed)
  }

  /** There is a row for the id exactly when some claim landed, whatever became of the rest of its attempt. */
  lemma {:induction false} RowExistsExactlyWhen(fates: seq<Fate>)
    ensures RowAfter(fates).Absent? <==> forall i :: 0 <= i < |fates| ==> !Inserts(fates[i].claim)
  {
    if fates != [] {
      var n := |fates| - 1;
      RowExistsExactlyWhen(fates[..n]);
      assert forall i :: 0 <= i < n ==> fates[..n][i] == fates[i];
    }
  }

  lemma StoredExactlyWhen(fates: seq<Fate>, n: nat)
    requires n <= |fates|
    ensures RowAfter(fates[..n]).Stored? <==> exists i: nat :: i < n && StoredBy(fates, i)
  {
    if RowAfter(fates[..n]).Stored? {
      var i := StoredResultHasOneOrigin(fates[..n]);
      assert fates[..n][..i] == fates[..i] && fates[..n][..i + 1] == fates[..i + 1];
      assert fates[..i + 1][..i] == fates[..i];
      assert StoredBy(fates, i);
    }
    if i: nat :| i < n && StoredBy(fates, i) {
      assert fates[..i + 1][..i] == fates[..i];
      StoredStays(fates, i + 1, n);
    }
  }

  /**
   What a run tells its caller: what the tool returned, whatever became of the claim or of storing it; that the
   tool timed out, told apart from other failures only when the ledger was asked; or what it raised. Nobody is told
   anything by a process that died.
   */
  lemma ReplyIsTheTools(fates: seq<Fate>, n: nat)
    requires n < |fates| && DoneAt(fates, n).ran
    ensures var (fate, reply) := (fates[n], DoneAt(fates, n).reply);
            && (reply == Died <==>
                  fate.fn.DiesInside? || (fate.claim.Answered? && fate.fn.Returns? && fate.store.DiesBeforeStore?))
            && (reply.Result? ==> fate.fn == Returns(reply.text))
            && (reply.TimedOut? <==> fate.fn.TimesOut? && fate.claim.Answered?)
            && (reply.Failed? ==>
                  if fate.fn.Raises? then reply.what == fate.fn.what
                  else fate.fn.TimesOut? && fate.claim.ClaimFails? && reply.what == "TimeoutError")
  {
  }

  lemma {:induction false} StoredStays(fates: seq<Fate>, i: nat, j: nat)
    requires i <= j <= |fates| && RowAfter(fates[..i]).Stored?
    ensures RowAfter(fates[..j]) == RowAfter(fates[..i])
    decreases j - i
  {
    if i < j {
      StoredStays(fates, i, j - 1);
      assert fates[..j][..j - 1] == fates[..j - 1];
    }
  }

  /** Once a result is stored, every later attempt whose claim is answered returns it and does not run the tool. */
  lemma StoredResultIsFinal(fates: seq<Fate>, i: nat, j: nat)
    requires i <= j < |fates| && RowAfter(fates[..i]).Stored? && fates[j].claim.Answered?
    ensures DoneAt(fates, j) == Done(Result(RowAfter(fates[..i]).result), false, false)
  {
    StoredStays(fates, i, j);
  }

  /** If the tool ran twice through the ledger, the earlier run ended without a stored result. */
  lemma OnlyTheLastRunIsStored(fates: seq<Fate>, i: nat, j: nat)
    requires i < j < |fates| && RanGuarded(fates, i) && RanGuarded(fates, j)
    ensures !RowAfter(fates[..i + 1]).Stored?
    ensures fates[i].fn.Returns? ==> !fates[i].store.StoreOk?
  {
    if RowAfter(fates[..i + 1]).Stored? {
      StoredResultIsFinal(fates, i + 1, j);
    }
    assert fates[..i + 1][..i] == fates[..i];
  }

  /** Whatever is stored is what one guarded run of the tool returned, and no guarded run came after it. */
  lemma {:induction false} StoredResultHasOneOrigin(fates: seq<Fate>) returns (origin: nat)
    requires RowAfter(fates).Stored?
    ensures origin < |fates| && RanGuarded(fates, origin) && fates[origin].fn == Returns(RowAfter(fates).result)
    ensures RowAfter(fates[..origin + 1]) == RowAfter(fates)
    ensures forall j: nat :: origin < j < |fates| ==> !RanGuarded(fates, j)
  {
    var n := |fates| - 1;
    if RowAfter(fates[..n]).Stored? {
      origin := StoredResultHasOneOrigin(fates[..n]);
      assert fates[..n][..origin] == fates[..origin] && fates[..n][..origin + 1] == fates[..origin + 1];
    } else {
      origin := n;
      assert fates[..n + 1] == fates;
    }
    forall j: nat | origin < j < |fates| ensures !RanGuarded(fates, j) {
      StoredStays(fates, origin + 1, j);
    }
  }
}
