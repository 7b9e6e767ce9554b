/**
 The carry-over of the usage ledger into the usage events (scripts/usage_events_carry_over.py).

 The two tables are values: the ledger a sequence of rows in id order, the events a map from event id. The
 batch statement is `Batch` followed by `Insert`; `Accounts.Run` is the loop of batches.
 */
module CarryOver {
  import opened Wrappers
  import opened Decimals

  /** `rest` stands for the columns copied verbatim. */
  datatype Row = Row(id: nat, tenant: string, recordedAt: real, cost: real, rest: string)

  /** `cost` is None where a call's price was unknown, which a carried row's never is. */
  datatype Event = Event(
    tenant: string, kind: string, occurredAt: real, recordedAt: real, cost: Option<real>, rest: string)

  type Events = map<string, Event>

  /** What one run is asked to carry. */
  datatype Scope = Scope(cutoff: real, tenant: Option<string>)

  const PREFIX := "ledger:"

  function EventId(row: Row): string {
    PREFIX + Decimal(row.id)
  }

  function EventOf(row: Row): Event {
    Event(row.tenant, "chat", row.recordedAt, row.recordedAt, Some(row.cost), row.rest)
  }

  /** The ledger's key: ids are generated from 1 upwards. */
  ghost predicate IsLedger(ledger: seq<Row>) {
    && (forall i :: 0 <= i < |ledger| ==> ledger[i].id >= 1)
    && (forall i, j :: 0 <= i < j < |ledger| ==> ledger[i].id < ledger[j].id)
  }

  predicate InScope(scope: Scope, row: Row) {
    row.recordedAt < scope.cutoff && (scope.tenant.None? || scope.tenant.value == row.tenant)
  }

  /** The rows still to carry, in id order: what the dry run counts. */
  function Pending(ledger: seq<Row>, events: Events, scope: Scope): seq<Row> {
    if ledger == [] then []
    else
      (if InScope(scope, ledger[0]) && EventId(ledger[0]) !in events then [ledger[0]] else [])
      + Pending(ledger[1..], events, scope)
  }

  /** `id > after`; comparing with NULL selects nothing. */
  function Above(rows: seq<Row>, after: Option<nat>): seq<Row> {
    if rows == [] then []
    else (if after.Some? && rows[0].id > after.value then [rows[0]] else []) + Above(rows[1..], after)
  }

  function Take<T>(xs: seq<T>, n: nat): seq<T> {
    if |xs| <= n then xs else xs[..n]
  }

  /** The rows one batch statement selects. */
  function Batch(ledger: seq<Row>, events: Events, scope: Scope, after: Option<nat>, n: nat): seq<Row> {
    Take(Above(Pending(ledger, events, scope), after), n)
  }

  function Insert(events: Events, rows: seq<Row>): Events
    decreases rows
  {
    if rows == [] then events else Insert(events[EventId(rows[0]) := EventOf(rows[0])], rows[1..])
  }

  function Cost(rows: seq<Row>): real {
    if rows == [] then 0.0 else rows[0].cost + Cost(rows[1..])
  }

  // ---- Carrying removes exactly the carried rows from what is pending ---------------------------------

  lemma EventIdIsInjective(a: Row, b: Row)
    requires EventId(a) == EventId(b)
    ensures a.id == b.id
  {
    assert EventId(a)[|PREFIX|..] == Decimal(a.id) && EventId(b)[|PREFIX|..] == Decimal(b.id);
    ValueOfDecimal(a.id);
    ValueOfDecimal(b.id);
  }

  lemma {:induction false} OtherRowsStayPending(rows: seq<Row>, events: Events, scope: Scope, row: Row)
    requires forall i :: 0 <= i < |rows| ==> rows[i].id != row.id
    ensures Pending(rows, events[EventId(row) := EventOf(row)], scope) == Pending(rows, events, scope)
  {
    if rows != [] {
      if EventId(rows[0]) == EventId(row) {
        EventIdIsInjective(rows[0], row);
      }
      OtherRowsStayPending(rows[1..], events, scope, row);
    }
  }

  lemma {:induction false} CarryOne(ledger: seq<Row>, events: Events, scope: Scope)
    requires IsLedger(ledger) && Pending(ledger, events, scope) != []
    ensures var p := Pending(ledger, events, scope);
            Pending(ledger, events[EventId(p[0]) := EventOf(p[0])], scope) == p[1..]
  {
    if InScope(scope, ledger[0]) && EventId(ledger[0]) !in events {
      OtherRowsStayPending(ledger[1..], events, scope, ledger[0]);
    } else {
      CarryOne(ledger[1..], events, scope);
    }
  }

  lemma {:induction false} CarryMany(ledger: seq<Row>, events: Events, scope: Scope, k: nat)
    requires IsLedger(ledger) && k <= |Pending(ledger, events, scope)|
    ensures var p := Pending(ledger, events, scope); Pending(ledger, Insert(events, p[..k]), scope) == p[k..]
    decreases k
  {
    if k > 0 {
      var p := Pending(ledger, events, scope);
      CarryOne(ledger, events, scope);
      var events' := events[EventId(p[0]) := EventOf(p[0])];
      CarryMany(ledger, events', scope, k - 1);
      assert p[1..][..k - 1] == p[..k][1..] && p[1..][k - 1..] == p[k..];
    }
  }

  lemma {:induction false} InsertAppend(events: Events, a: seq<Row>, b: seq<Row>)
    ensures Insert(events, a + b) == Insert(Insert(events, a), b) && Cost(a + b) == Cost(a) + Cost(b)
    decreases a
  {
    if a == [] {
      assert a + b == b;
    } else {
      InsertAppend(events[EventId(a[0]) := EventOf(a[0])], a[1..], b);
      assert (a + b)[1..] == a[1..] + b;
    }
  }

  lemma {:induction false} PendingIsOrdered(ledger: seq<Row>, events: Events, scope: Scope)
    requires IsLedger(ledger)
    ensures IsLedger(Pending(ledger, events, scope))
    ensures forall i :: 0 <= i < |Pending(ledger, events, scope)| ==> Pending(ledger, events, scope)[i] in ledger
  {
    if ledger != [] {
      PendingIsOrdered(ledger[1..], events, scope);
    }
  }

  lemma {:induction false} AllAbove(rows: seq<Row>, after: nat)
    requires forall i :: 0 <= i < |rows| ==> rows[i].id > after
    ensures Above(rows, Some(after)) == rows
  {
    if rows != [] {
      AllAbove(rows[1..], after);
    }
  }

  lemma CostOfOneMore(rows: seq<Row>, events: Events, scope: Scope)
    requires rows != []
    ensures var counts := InScope(scope, rows[0]) && EventId(rows[0]) !in events;
            var rest := Pending(rows[1..], events, scope);
            && |Pending(rows, events, scope)| == |rest| + (if counts then 1 else 0)
            && Cost(Pending(rows, events, scope)) == Cost(rest) + (if counts then rows[0].cost else 0.0)
  {
    var rest := Pending(rows[1..], events, scope);
    assert ([rows[0]] + rest)[1..] == rest && [] + rest == rest;
  }

  // ---- The run ----------------------------------------------------------------------------------------

  /** The events after carrying the first `budget` pending rows, or all of them if there are fewer. */
  function Carried(ledger: seq<Row>, events: Events, scope: Scope, budget: nat): Events {
    Insert(events, Take(Pending(ledger, events, scope), budget))
  }

  class Accounts {
    const ledger: seq<Row>
    var events: Events

    constructor (ledger: seq<Row>, events: Events)
      ensures this.ledger == ledger && this.events == events
    {
      this.ledger, this.events := ledger, events;
    }

    /** The aggregate query: one pass over the ledger, adding up the rows it selects. */
    method DryRun(scope: Scope) returns (count: nat, usd: real)
      ensures count == |Pending(ledger, events, scope)| && usd == Cost(Pending(ledger, events, scope))
    {
      count, usd := 0, 0.0;
      for i := 0 to |ledger|
        invariant count + |Pending(ledger[i..], events, scope)| == |Pending(ledger, events, scope)|
        invariant usd + Cost(Pending(ledger[i..], events, scope)) == Cost(Pending(ledger, events, scope))
      {
        var row := ledger[i];
        CostOfOneMore(ledger[i..], events, scope);
        assert ledger[i..][1..] == ledger[i + 1..];
        if InScope(scope, row) && EventId(row) !in events {
          count, usd := count + 1, usd + row.cost;
        }
      }
    }

    /** One batch statement, after `carried` of the rows pending in `before` have been carried. */
    method CarryBatch(scope: Scope, after: Option<nat>, n: nat, ghost before: Events, ghost carried: nat)
      returns (lastId: Option<nat>, scanned: nat, usd: real)
      requires IsLedger(ledger) && carried <= |Pending(ledger, before, scope)|
      requires events == Insert(before, Pending(ledger, before, scope)[..carried])
      requires n > 0 ==> after == Some(LastId(Pending(ledger, before, scope), carried))
      modifies this`events
      ensures var all := Pending(ledger, before, scope);
              && scanned == |Take(all[carried..], n)|
              && events == Insert(before, all[..carried + scanned])
              && Cost(all[..carried]) + usd == Cost(all[..carried + scanned])
              && (scanned > 0 ==> lastId == Some(LastId(all, carried + scanned)))
    {
      ghost var all := Pending(ledger, before, scope);
      var batch := Batch(ledger, events, scope, after, n);
      assert batch == Take(all[carried..], n) by {
        NextBatch(ledger, before, scope, carried, after, n);
      }
      InsertStretch(before, all, carried, n);
      events := Insert(events, batch);
      return if batch == [] then None else Some(batch[|batch| - 1].id), |batch|, Cost(batch);
    }

    /** Batches until one comes back short or the ceiling is reached. */
    method Run(scope: Scope, batchSize: nat, maxBatches: nat) returns (carried: nat, carriedUsd: real, complete: bool)
      requires IsLedger(ledger)
      modifies this`events
      ensures events == Carried(ledger, old(events), scope, Budget(batchSize, maxBatches))
      ensures var taken := Take(old(Pending(ledger, events, scope)), Budget(batchSize, maxBatches));
              carried == |taken| && carriedUsd == Cost(taken)
      ensures complete <==> old(|Pending(ledger, events, scope)|) < Budget(batchSize, maxBatches)
    {
      ghost var before, all := events, Pending(ledger, events, scope);
      var after: Option<nat> := Some(0);
      carried, carriedUsd, complete := 0, 0.0, false;
      assert all[..0] == [];
      var b := 0;
      while b < maxBatches && !complete
        invariant b <= maxBatches && carried <= |all|
        invariant !complete ==> carried == Budget(batchSize, b)
        invariant complete ==> carried == |all| < Budget(batchSize, b)
        invariant events == Insert(before, all[..carried]) && carriedUsd == Cost(all[..carried])
        invariant batchSize > 0 && !complete ==> after == Some(LastId(all, carried))
        decreases maxBatches - b
      {
        var scanned, usd;
        OneMoreBatch(all, carried, batchSize, b);
        after, scanned, usd := CarryBatch(scope, after, batchSize, before, carried);
        carried, carriedUsd := carried + scanned, carriedUsd + usd;
        complete := scanned < batchSize;
        b := b + 1;
      }
      RunEnds(all, batchSize, b, maxBatches, carried, complete);
    }
  }

  /** The most rows a run may carry: `maxBatches` batches of `batchSize`. */
  function Budget(batchSize: nat, maxBatches: nat): nat {
    if maxBatches == 0 then 0 else Budget(batchSize, maxBatches - 1) + batchSize
  }

  lemma OneMoreBatch(all: seq<Row>, carried: nat, batchSize: nat, b: nat)
    requires carried <= |all|
    ensures var scanned := |Take(all[carried..], batchSize)|;
            && carried + scanned <= |all| && (scanned < batchSize ==> carried + scanned == |all|)
            && scanned <= batchSize && Budget(batchSize, b + 1) == Budget(batchSize, b) + batchSize
  {
  }

  lemma RunEnds(all: seq<Row>, batchSize: nat, b: nat, maxBatches: nat, carried: nat, complete: bool)
    requires b <= maxBatches && carried <= |all|
    requires if complete then carried == |all| < Budget(batchSize, b)
             else b == maxBatches && carried == Budget(batchSize, b)
    ensures Take(all, Budget(batchSize, maxBatches)) == all[..carried]
    ensures complete <==> |all| < Budget(batchSize, maxBatches)
  {
    BudgetGrows(batchSize, b, maxBatches);
  }

  lemma {:induction false} BudgetGrows(n: nat, a: nat, b: nat)
    requires a <= b
    ensures Budget(n, a) <= Budget(n, b)
  {
    if a < b {
      BudgetGrows(n, a, b - 1);
    }
  }

  /** The next batch is the next stretch of what was pending at the start. */
  lemma NextBatch(ledger: seq<Row>, before: Events, scope: Scope, carried: nat, after: Option<nat>, n: nat)
    requires IsLedger(ledger) && carried <= |Pending(ledger, before, scope)|
    requires n > 0 ==> after == Some(LastId(Pending(ledger, before, scope), carried))
    ensures var all := Pending(ledger, before, scope);
            Batch(ledger, Insert(before, all[..carried]), scope, after, n) == Take(all[carried..], n)
  {
    var all := Pending(ledger, before, scope);
    CarryMany(ledger, before, scope, carried);
    if n > 0 {
      PendingIsOrdered(ledger, before, scope);
      AllAbove(all[carried..], after.value);
    }
  }

  /** The id of the last of the first `k` rows. */
  function LastId(rows: seq<Row>, k: nat): nat
    requires k <= |rows|
  {
    if k == 0 then 0 else rows[k - 1].id
  }

  lemma InsertStretch(before: Events, all: seq<Row>, carried: nat, n: nat)
    requires carried <= |all|
    ensures var batch := Take(all[carried..], n);
            && Insert(Insert(before, all[..carried]), batch) == Insert(before, all[..carried + |batch|])
            && Cost(all[..carried]) + Cost(batch) == Cost(all[..carried + |batch|])
            && (batch != [] ==> batch[|batch| - 1].id == LastId(all, carried + |batch|))
  {
    var batch := Take(all[carried..], n);
    InsertAppend(before, all[..carried], batch);
    assert all[..carried] + batch == all[..carried + |batch|];
  }

  // ---- Runs compose -----------------------------------------------------------------------------------

  lemma TakeTwice(p: seq<Row>, k: nat, a: nat, b: nat)
    requires k == if |p| <= a then |p| else a
    ensures p[..k] + Take(p[k..], b) == Take(p, a + b)
  {
  }

  /** Stopping at a ceiling and continuing later is the same as one longer run. */
  lemma RunsCompose(ledger: seq<Row>, events: Events, scope: Scope, a: nat, b: nat)
    requires IsLedger(ledger)
    ensures Carried(ledger, Carried(ledger, events, scope, a), scope, b) == Carried(ledger, events, scope, a + b)
  {
    var p := Pending(ledger, events, scope);
    var k := if |p| <= a then |p| else a;
    assert Take(p, a) == p[..k];
    CarryMany(ledger, events, scope, k);
    TakeTwice(p, k, a, b);
    InsertAppend(events, p[..k], Take(p[k..], b));
  }

  function CarriedByAll(ledger: seq<Row>, events: Events, scope: Scope, budgets: seq<nat>): Events {
    if budgets == [] then events
    else Carried(ledger, CarriedByAll(ledger, events, scope, budgets[..|budgets| - 1]), scope, budgets[|budgets| - 1])
  }

  function Total(budgets: seq<nat>): nat {
    if budgets == [] then 0 else Total(budgets[..|budgets| - 1]) + budgets[|budgets| - 1]
  }

  /** Any sequence of runs carries the first rows that were pending, as many as the runs' budgets add up to. */
  lemma {:induction false} AnyRunsReachTheSameState(ledger: seq<Row>, events: Events, scope: Scope, budgets: seq<nat>)
    requires IsLedger(ledger)
    ensures CarriedByAll(ledger, events, scope, budgets) == Carried(ledger, events, scope, Total(budgets))
  {
    if budgets != [] {
      AnyRunsReachTheSameState(ledger, events, scope, budgets[..|budgets| - 1]);
      RunsCompose(ledger, events, scope, Total(budgets[..|budgets| - 1]), budgets[|budgets| - 1]);
    }
  }

  /** Each run leaves fewer rows to carry, by its budget, until none is left; then nothing changes any more. */
  lemma RemainingRowsShrink(ledger: seq<Row>, events: Events, scope: Scope, budget: nat)
    requires IsLedger(ledger)
    ensures var left := |Pending(ledger, events, scope)|;
            |Pending(ledger, Carried(ledger, events, scope, budget), scope)|
            == if left <= budget then 0 else left - budget
    ensures Pending(ledger, events, scope) == [] ==> Carried(ledger, events, scope, budget) == events
  {
    var p := Pending(ledger, events, scope);
    var k := if |p| <= budget then |p| else budget;
    assert Take(p, budget) == p[..k];
    CarryMany(ledger, events, scope, k);
  }

  // ---- Conservation -----------------------------------------------------------------------------------

  /** What the ledger says was spent in the scope. */
  function Spent(ledger: seq<Row>, scope: Scope): real {
    if ledger == [] then 0.0
    else (if InScope(scope, ledger[0]) then ledger[0].cost else 0.0) + Spent(ledger[1..], scope)
  }

  /** `SUM(cost_usd)`: an event without a price adds nothing. */
  ghost function SumOver(ids: set<string>, events: Events): real
    requires ids <= events.Keys
  {
    if ids == {} then 0.0 else var id :| id in ids; Price(events[id]) + SumOver(ids - {id}, events)
  }

  function Price(event: Event): real {
    if event.cost.Some? then event.cost.value else 0.0
  }

  ghost function Window(events: Events, scope: Scope): set<string> {
    set id | id in events && events[id].recordedAt < scope.cutoff
             && (scope.tenant.None? || scope.tenant.value == events[id].tenant)
  }

  /** What the events table says was spent in the scope, whatever the events' ids. */
  ghost function Billed(events: Events, scope: Scope): real {
    SumOver(Window(events, scope), events)
  }

  lemma {:induction false} SumWithout(ids: set<string>, events: Events, id: string)
    requires ids <= events.Keys && id in ids
    ensures SumOver(ids, events) == Price(events[id]) + SumOver(ids - {id}, events)
    decreases ids
  {
    var first :| first in ids && SumOver(ids, events) == Price(events[first]) + SumOver(ids - {first}, events);
    if first != id {
      SumWithout(ids - {first}, events, id);
      SumWithout(ids - {id}, events, first);
      assert ids - {first} - {id} == ids - {id} - {first};
    }
  }

  lemma {:induction false} SumOfTheSameEvents(ids: set<string>, a: Events, b: Events)
    requires ids <= a.Keys && ids <= b.Keys && forall id :: id in ids ==> a[id] == b[id]
    ensures SumOver(ids, a) == SumOver(ids, b)
    decreases ids
  {
    if ids != {} {
      var id :| id in ids;
      SumWithout(ids, a, id);
      SumWithout(ids, b, id);
      SumOfTheSameEvents(ids - {id}, a, b);
    }
  }

  lemma NewRowAddsItsCost(events: Events, scope: Scope, row: Row)
    requires InScope(scope, row) && EventId(row) !in events
    ensures Billed(events[EventId(row) := EventOf(row)], scope) == Billed(events, scope) + row.cost
  {
    var id, next := EventId(row), events[EventId(row) := EventOf(row)];
    SumWithout(Window(next, scope), next, id);
    assert Window(next, scope) - {id} == Window(events, scope);
    SumOfTheSameEvents(Window(events, scope), events, next);
  }

  ghost predicate AllNew(rows: seq<Row>, events: Events, scope: Scope) {
    IsLedger(rows) && forall i :: 0 <= i < |rows| ==> InScope(scope, rows[i]) && EventId(rows[i]) !in events
  }

  lemma RestIsNew(rows: seq<Row>, events: Events, scope: Scope)
    requires AllNew(rows, events, scope) && rows != []
    ensures AllNew(rows[1..], events[EventId(rows[0]) := EventOf(rows[0])], scope)
  {
    forall i | 0 <= i < |rows| - 1 ensures EventId(rows[1..][i]) != EventId(rows[0]) {
      if EventId(rows[1..][i]) == EventId(rows[0]) {
        EventIdIsInjective(rows[1..][i], rows[0]);
      }
    }
  }

  lemma {:induction false} NewRowsAddTheirCost(rows: seq<Row>, events: Events, scope: Scope)
    requires AllNew(rows, events, scope)
    ensures Billed(Insert(events, rows), scope) == Billed(events, scope) + Cost(rows)
    decreases rows
  {
    if rows != [] {
      NewRowAddsItsCost(events, scope, rows[0]);
      RestIsNew(rows, events, scope);
      NewRowsAddTheirCost(rows[1..], events[EventId(rows[0]) := EventOf(rows[0])], scope);
    }
  }

  lemma {:induction false} InsertHolds(rows: seq<Row>, events: Events, scope: Scope, id: string)
    requires AllNew(rows, events, scope)
    ensures id in Insert(events, rows) <==> id in events || exists row :: row in rows && EventId(row) == id
    ensures id in events ==> Insert(events, rows)[id] == events[id]
    ensures forall row :: row in rows && EventId(row) == id ==> Insert(events, rows)[id] == EventOf(row)
    decreases rows
  {
    if rows != [] {
      RestIsNew(rows, events, scope);
      InsertHolds(rows[1..], events[EventId(rows[0]) := EventOf(rows[0])], scope, id);
      assert forall row :: row in rows <==> row == rows[0] || row in rows[1..];
    }
  }

  lemma {:induction false} PendingIsNew(ledger: seq<Row>, events: Events, scope: Scope)
    requires IsLedger(ledger)
    ensures AllNew(Pending(ledger, events, scope), events, scope)
    ensures forall row :: row in Pending(ledger, events, scope) <==>
                          row in ledger && InScope(scope, row) && EventId(row) !in events
  {
    PendingIsOrdered(ledger, events, scope);
    if ledger != [] {
      PendingIsNew(ledger[1..], events, scope);
    }
  }

  lemma {:induction false} SpentIsTheCostOfTheScope(ledger: seq<Row>, scope: Scope)
    ensures Spent(ledger, scope) == Cost(Pending(ledger, map[], scope))
  {
    if ledger != [] {
      SpentIsTheCostOfTheScope(ledger[1..], scope);
      CostOfOneMore(ledger, map[], scope);
    }
  }

  /** Every carried event is a ledger row's, as the row stands. */
  ghost predicate Faithful(ledger: seq<Row>, events: Events) {
    forall id :: id in events && !IsReal(id) ==>
                   exists row :: row in ledger && EventId(row) == id && events[id] == EventOf(row)
  }

  lemma {:induction false} InsertIsFaithful(ledger: seq<Row>, events: Events, rows: seq<Row>)
    requires Faithful(ledger, events) && forall i :: 0 <= i < |rows| ==> rows[i] in ledger
    ensures Faithful(ledger, Insert(events, rows))
    decreases rows
  {
    if rows != [] {
      InsertIsFaithful(ledger, events[EventId(rows[0]) := EventOf(rows[0])], rows[1..]);
    }
  }

  lemma CarriedRowIsItself(ledger: seq<Row>, events: Events, row: Row)
    requires IsLedger(ledger) && Faithful(ledger, events) && row in ledger && EventId(row) in events
    ensures events[EventId(row)] == EventOf(row)
  {
    var found :| found in ledger && EventId(found) == EventId(row) && events[EventId(row)] == EventOf(found);
    EventIdIsInjective(found, row);
    var i :| 0 <= i < |ledger| && ledger[i] == row;
    var j :| 0 <= j < |ledger| && ledger[j] == found;
    assert i == j;
  }

  /** With nothing pending, the events before the cutoff are the ledger's rows of the scope and no others. */
  lemma NothingPendingMeansAllBilled(ledger: seq<Row>, events: Events, scope: Scope)
    requires IsLedger(ledger) && Faithful(ledger, events) && Pending(ledger, events, scope) == []
    requires forall id :: id in events && IsReal(id) ==> scope.cutoff <= events[id].recordedAt
    ensures Billed(events, scope) == Spent(ledger, scope)
  {
    var rows := Pending(ledger, map[], scope);
    var only := Insert(map[], rows);
    PendingIsNew(ledger, map[], scope);
    PendingIsNew(ledger, events, scope);
    NewRowsAddTheirCost(rows, map[], scope);
    SpentIsTheCostOfTheScope(ledger, scope);
    forall id ensures id in Window(events, scope) <==> id in Window(only, scope)
              ensures id in Window(only, scope) ==> only[id] == events[id] {
      InsertHolds(rows, map[], scope, id);
      if id in Window(only, scope) {
        var row :| row in rows && EventId(row) == id;
        assert row !in Pending(ledger, events, scope);
        CarriedRowIsItself(ledger, events, row);
      }
    }
    SumOfTheSameEvents(Window(only, scope), only, events);
    assert Window(events, scope) == Window(only, scope);
  }

  /**
   Over the events table itself: every run keeps each event that was there and adds to the scope's total
   exactly what it reports. When no real event lies before the cutoff, a run whose budget suffices leaves the
   table's total for the scope equal to the ledger's.
   */
  lemma SpendIsConserved(ledger: seq<Row>, events: Events, scope: Scope, budget: nat)
    requires IsLedger(ledger) && Faithful(ledger, events)
    ensures var p, after := Pending(ledger, events, scope), Carried(ledger, events, scope, budget);
            && Faithful(ledger, after)
            && (forall id :: id in events ==> id in after && after[id] == events[id])
            && Billed(after, scope) == Billed(events, scope) + Cost(Take(p, budget))
            && (|p| <= budget ==>
                  forall row :: row in ledger && InScope(scope, row) ==>
                                  EventId(row) in after && after[EventId(row)] == EventOf(row))
            && (|p| <= budget && (forall id :: id in events && IsReal(id) ==> scope.cutoff <= events[id].recordedAt) ==>
                  Billed(after, scope) == Spent(ledger, scope))
  {
    var p := Pending(ledger, events, scope);
    var k := if |p| <= budget then |p| else budget;
    var after := Carried(ledger, events, scope, budget);
    assert Take(p, budget) == p[..k];
    PendingIsNew(ledger, events, scope);
    NewRowsAddTheirCost(p[..k], events, scope);
    InsertIsFaithful(ledger, events, p[..k]);
    forall id | id in events ensures id in after && after[id] == events[id] {
      InsertHolds(p[..k], events, scope, id);
    }
    if |p| <= budget {
      CarryMany(ledger, events, scope, k);
      PendingIsNew(ledger, after, scope);
      forall row | row in ledger && InScope(scope, row)
        ensures EventId(row) in after && after[EventId(row)] == EventOf(row)
      {
        assert row !in Pending(ledger, after, scope);
        CarriedRowIsItself(ledger, after, row);
      }
    }
    if |p| <= budget && forall id :: id in events && IsReal(id) ==> scope.cutoff <= events[id].recordedAt {
      forall id | IsReal(id) && id in after ensures scope.cutoff <= after[id].recordedAt {
        CarriedRowsAreNotReal(events, p[..k], id);
      }
      NothingPendingMeansAllBilled(ledger, after, scope);
    }
  }

  /**
   An event a run adds is named `ledger:` and the row's id, and is the row: tenant, price and verbatim columns
   unchanged, of kind chat, and dated as the row was.
   */
  lemma CarriedEventIsTheRow(ledger: seq<Row>, events: Events, scope: Scope, budget: nat, id: string)
    requires IsLedger(ledger) && id !in events && id in Carried(ledger, events, scope, budget)
    ensures exists row :: row in ledger && InScope(scope, row)
                          && IsTheRow(id, Carried(ledger, events, scope, budget)[id], row)
  {
    var taken := Take(Pending(ledger, events, scope), budget);
    PendingIsNew(ledger, events, scope);
    InsertHolds(taken, events, scope, id);
    var row :| row in taken && EventId(row) == id;
    assert IsTheRow(id, Carried(ledger, events, scope, budget)[id], row);
  }

  predicate IsTheRow(id: string, event: Event, row: Row) {
    && id == "ledger:" + Decimal(row.id)
    && event.tenant == row.tenant && event.cost == Some(row.cost) && event.rest == row.rest
    && event.kind == "chat" && event.occurredAt == row.recordedAt && event.recordedAt == row.recordedAt
  }

  // ---- The cutoff -------------------------------------------------------------------------------------

  predicate IsReal(eventId: string) {
    !(PREFIX <= eventId)
  }

  /** The time of the first real event, or `now` when there is none. */
  ghost predicate IsCutoff(events: Events, now: real, cutoff: real) {
    if exists id :: id in events && IsReal(id)
    then (exists id :: id in events && IsReal(id) && events[id].recordedAt == cutoff)
         && forall id :: id in events && IsReal(id) ==> cutoff <= events[id].recordedAt
    else cutoff == now
  }

  /**
   A whole history: at the cutoff the script takes, a run whose budget suffices leaves nothing of the scope to
   carry and the table's total for it equal to the ledger's.
   */
  lemma HistoryIsBilledOnce(ledger: seq<Row>, events: Events, now: real, scope: Scope, budget: nat)
    requires IsLedger(ledger) && Faithful(ledger, events) && IsCutoff(events, now, scope.cutoff)
    requires |Pending(ledger, events, scope)| <= budget
    ensures var after := Carried(ledger, events, scope, budget);
            && Billed(after, scope) == Spent(ledger, scope)
            && Pending(ledger, after, scope) == []
  {
    assert forall id :: id in events && IsReal(id) ==> scope.cutoff <= events[id].recordedAt;
    SpendIsConserved(ledger, events, scope, budget);
    RemainingRowsShrink(ledger, events, scope, budget);
  }

  lemma {:induction false} CarriedRowsAreNotReal(events: Events, rows: seq<Row>, id: string)
    requires IsReal(id)
    ensures id in Insert(events, rows) <==> id in events
    ensures id in events ==> Insert(events, rows)[id] == events[id]
    decreases rows
  {
    if rows != [] {
      CarriedRowsAreNotReal(events[EventId(rows[0]) := EventOf(rows[0])], rows[1..], id);
    }
  }

  /** Carrying rows does not move the cutoff: a later run of the same history sees the same scope. */
  lemma CutoffIsStable(events: Events, rows: seq<Row>, now: real, cutoff: real)
    ensures IsCutoff(Insert(events, rows), now, cutoff) <==> IsCutoff(events, now, cutoff)
  {
    forall id | IsReal(id)
      ensures id in Insert(events, rows) <==> id in events
      ensures id in events ==> Insert(events, rows)[id] == events[id]
    {
      CarriedRowsAreNotReal(events, rows, id);
    }
  }
}
