/**
 Rebuilding a collection under a new embedding identity (scripts/reembed.py).

 `Collections` holds what the run changes: the alias and the target collection. The source is read while
 others may write to it, so what the copy and the final read see of it are independent inputs, and so are
 the embedding service's answers and the sample check.
 */
module Reembed {
  import opened Wrappers

  type Vector = seq<real>

  datatype Sparse = Sparse(indices: seq<int>, values: seq<real>)

  /** `text` is None when the payload has no text or one that is not a string. */
  datatype Payload = Payload(text: Option<string>, rest: map<string, string>)

  datatype Record = Record(id: string, payload: Payload, sparse: Option<Sparse>) {
    predicate HasText() {
      payload.text.Some? && payload.text.value != ""
    }

    function Text(): string
      requires HasText()
    {
      payload.text.value
    }
  }

  datatype Point = Point(dense: Vector, sparse: Option<Sparse>, payload: Payload)

  /** One request to the embedding service. */
  datatype Embedded = Down | Vectors(all: seq<Vector>)

  /** Requests are numbered, because the service may answer the same texts differently. */
  type Service = (nat, seq<string>) -> Embedded

  datatype Options = Options(page: nat, dryRun: bool, resume: bool, allowSkips: set<string>)

  /** What the run reads of the world outside the two collections' own state. */
  datatype World = World(scrolled: seq<Record>, service: Service, sampleFindsItself: bool, finalIds: set<string>)

  datatype Outcome = Swapped | AlreadyCurrent | DryRun | Failed(exit: nat)

  const EXIT_ERROR := 1
  const EXIT_EMBED_DOWN := 3
  const EXIT_CHANGED := 4

  function IdsOf(records: seq<Record>): set<string> {
    if records == [] then {} else IdsOf(records[..|records| - 1]) + {records[|records| - 1].id}
  }

  function WithText(records: seq<Record>): set<string> {
    if records == [] then {}
    else
      var r := records[|records| - 1];
      WithText(records[..|records| - 1]) + if r.HasText() then {r.id} else {}
  }

  function WithoutText(records: seq<Record>): set<string> {
    if records == [] then {}
    else
      var r := records[|records| - 1];
      WithoutText(records[..|records| - 1]) + if r.HasText() then {} else {r.id}
  }

  lemma {:induction false} IdsSplit(records: seq<Record>)
    ensures IdsOf(records) == WithText(records) + WithoutText(records)
  {
    if records != [] {
      IdsSplit(records[..|records| - 1]);
    }
  }

  function TextsOf(batch: seq<Record>): (texts: seq<string>)
    requires forall i :: 0 <= i < |batch| ==> batch[i].HasText()
    ensures |texts| == |batch| && forall i :: 0 <= i < |batch| ==> texts[i] == batch[i].Text()
  {
    seq(|batch|, i requires 0 <= i < |batch| => batch[i].Text())
  }

  /** The service returned `v` at the place of `text` in one of the requests made, which it answered in full. */
  ghost predicate Answered(service: Service, asked: seq<seq<string>>, text: string, v: Vector) {
    exists n: nat, j: nat ::
      n < |asked| && j < |asked[n]| && asked[n][j] == text && AnswerAt(service, n, asked[n], j, v)
  }

  ghost predicate AnswerAt(service: Service, n: nat, texts: seq<string>, j: nat, v: Vector) {
    j < |texts| && service(n, texts).Vectors? && |service(n, texts).all| == |texts| && service(n, texts).all[j] == v
  }

  /**
   The point is this record under the new identity: its payload and sparse vector kept, its text embedded again
   by a request of this run.
   */
  ghost predicate Rewrites(service: Service, asked: seq<seq<string>>, r: Record, p: Point) {
    r.HasText() && p.payload == r.payload && p.sparse == r.sparse && Answered(service, asked, r.Text(), p.dense)
  }

  ghost predicate Writes(service: Service, asked: seq<seq<string>>, records: seq<Record>, points: map<string, Point>) {
    forall id :: id in points ==>
                   exists r :: r in records && r.id == id && Rewrites(service, asked, r, points[id])
  }

  /** The points of one upsert; of two records with one id the later wins. */
  function PointsOf(batch: seq<Record>, dense: seq<Vector>): map<string, Point>
    requires |dense| == |batch|
  {
    if batch == [] then map[]
    else
      var n := |batch| - 1;
      PointsOf(batch[..n], dense[..n])[batch[n].id := Point(dense[n], batch[n].sparse, batch[n].payload)]
  }

  /**
   Where the copy is: the requests made, the points written, the records waiting, the ids skipped, the points
   counted.
   */
  datatype Copying = Copying(
    asked: seq<seq<string>>, upserted: map<string, Point>, batch: seq<Record>, skipped: seq<string>, copied: nat)

  /** One flush: the batch is embedded in one request and written, or the run ends with an exit code. */
  function Flushed(service: Service, c: Copying): (result: Result<Copying, nat>)
    requires forall i :: 0 <= i < |c.batch| ==> c.batch[i].HasText()
    ensures result.Err? ==> result.error in {EXIT_EMBED_DOWN, EXIT_ERROR}
    ensures result.Ok? ==> result.value.batch == []
  {
    if c.batch == [] then Ok(c)
    else
      var answer := service(|c.asked|, TextsOf(c.batch));
      if answer.Down? then Err(EXIT_EMBED_DOWN)
      else if |answer.all| != |c.batch| then Err(EXIT_ERROR)
      else
        Ok(Copying(
             c.asked + [TextsOf(c.batch)], c.upserted + PointsOf(c.batch, answer.all), [], c.skipped,
             c.copied + |c.batch|))
  }

  /** The copy takes one more record, and flushes when a page is full. */
  function Taken(service: Service, page: nat, c: Copying, r: Record): (result: Result<Copying, nat>)
    requires forall i :: 0 <= i < |c.batch| ==> c.batch[i].HasText()
    ensures result.Err? ==> result.error in {EXIT_EMBED_DOWN, EXIT_ERROR}
    ensures result.Ok? ==> forall i :: 0 <= i < |result.value.batch| ==> result.value.batch[i].HasText()
  {
    if !r.HasText() then Ok(c.(skipped := c.skipped + [r.id]))
    else if |c.batch| + 1 >= page then Flushed(service, c.(batch := c.batch + [r]))
    else Ok(c.(batch := c.batch + [r]))
  }

  function CopiedSoFar(service: Service, page: nat, records: seq<Record>): (result: Result<Copying, nat>)
    ensures result.Err? ==> result.error in {EXIT_EMBED_DOWN, EXIT_ERROR}
    ensures result.Ok? ==> forall i :: 0 <= i < |result.value.batch| ==> result.value.batch[i].HasText()
  {
    if records == [] then Ok(Copying([], map[], [], [], 0))
    else
      var before, r := CopiedSoFar(service, page, records[..|records| - 1]), records[|records| - 1];
      if before.Err? then before else Taken(service, page, before.value, r)
  }

  function Copied(service: Service, page: nat, records: seq<Record>): (result: Result<Copying, nat>)
    ensures result.Err? ==> result.error in {EXIT_EMBED_DOWN, EXIT_ERROR}
  {
    match CopiedSoFar(service, page, records)
    case Ok(c) => Flushed(service, c)
    case Err(exit) => Err(exit)
  }

  /** `asked` and `upserted` are the run's history: its embedding requests and what it has written to the target. */
  class Collections {
    var live: Option<string>
    var target: map<string, Point>
    var targetExists: bool
    ghost var asked: seq<seq<string>>
    ghost var upserted: map<string, Point>

    constructor (live: Option<string>, target: map<string, Point>, targetExists: bool)
      ensures this.live == live && this.target == target && this.targetExists == targetExists
    {
      this.live, this.target, this.targetExists := live, target, targetExists;
      asked, upserted := [], map[];
    }

    /** Embeds the batch in one request and upserts it, each record under its own id. */
    method Flush(service: Service, n: nat, batch: seq<Record>) returns (failure: Option<nat>)
      requires n == |asked| && forall i :: 0 <= i < |batch| ==> batch[i].HasText()
      modifies this`target, this`asked, this`upserted
      ensures batch == [] ==> failure.None? && asked == old(asked)
      ensures batch != [] ==> asked == old(asked) + [TextsOf(batch)]
      ensures batch == [] || failure.Some? ==> target == old(target) && upserted == old(upserted)
      ensures batch != [] ==>
                var answer := service(n, TextsOf(batch));
                && (failure == Some(EXIT_EMBED_DOWN) <==> answer.Down?)
                && (failure == Some(EXIT_ERROR) <==> answer.Vectors? && |answer.all| != |batch|)
                && (failure.None? <==> answer.Vectors? && |answer.all| == |batch|)
                && (failure.None? ==>
                      && target == old(target) + PointsOf(batch, answer.all)
                      && upserted == old(upserted) + PointsOf(batch, answer.all))
    {
      if batch == [] {
        return None;
      }
      var dense := service(n, TextsOf(batch));
      asked := asked + [TextsOf(batch)];
      if dense.Down? {
        return Some(EXIT_EMBED_DOWN);
      }
      if |dense.all| != |batch| {
        return Some(EXIT_ERROR);
      }
      var points: map<string, Point> := map[];
      for i := 0 to |batch|
        invariant points == PointsOf(batch[..i], dense.all[..i])
      {
        assert batch[..i + 1][..i] == batch[..i] && dense.all[..i + 1][..i] == dense.all[..i];
        points := points[batch[i].id := Point(dense.all[i], batch[i].sparse, batch[i].payload)];
      }
      assert batch[..|batch|] == batch && dense.all[..|batch|] == dense.all;
      target, upserted := target + points, upserted + points;
      return None;
    }

    /** `flush` as the copy loop uses it, `c` being where the copy is. */
    method FlushCopied(service: Service, n: nat, batch: seq<Record>, ghost c: Copying, ghost start: map<string, Point>)
      returns (failure: Option<nat>)
      requires forall i :: 0 <= i < |c.batch| ==> c.batch[i].HasText()
      requires n == |asked| && c.asked == asked && c.upserted == upserted && c.batch == batch
      requires target == start + upserted
      modifies this`target, this`asked, this`upserted
      ensures target == start + upserted && |asked| == n + (if batch == [] then 0 else 1)
      ensures match Flushed(service, c)
              case Ok(c') => failure.None? && c' == Copying(asked, upserted, [], c.skipped, c.copied + |batch|)
              case Err(exit) => failure == Some(exit)
    {
      failure := Flush(service, n, batch);
      if failure.None? && batch != [] {
        Layered(start, c.upserted, PointsOf(batch, service(n, TextsOf(batch)).all));
      }
    }

    /** The body of the copy loop. */
    method TakeRecord(
        service: Service, page: nat, r: Record, batch: seq<Record>, skipped: seq<string>, copied: nat, requests: nat,
        ghost start: map<string, Point>)
      returns (failure: Option<nat>, batch': seq<Record>, skipped': seq<string>, copied': nat, requests': nat)
      requires forall i :: 0 <= i < |batch| ==> batch[i].HasText()
      requires requests == |asked| && target == start + upserted
      modifies this`target, this`asked, this`upserted
      ensures target == start + upserted
      ensures match Taken(service, page, old(Copying(asked, upserted, batch, skipped, copied)), r)
              case Ok(c) =>
                && failure.None? && requests' == |asked|
                && c == Copying(asked, upserted, batch', skipped', copied')
              case Err(exit) => failure == Some(exit)
    {
      failure, batch', skipped', copied', requests' := None, batch, skipped, copied, requests;
      if !r.HasText() {
        skipped' := skipped + [r.id];
        return;
      }
      batch' := batch + [r];
      if |batch'| >= page {
        failure := FlushCopied(service, requests, batch', Copying(asked, upserted, batch', skipped, copied), start);
        copied', requests', batch' := copied + |batch'|, requests + 1, [];
      }
    }

    /** The copy loop: afterwards the target is what it was under this run's upserts. */
    method Copy(world: World, page: nat) returns (failure: Option<nat>, copied: nat, skipped: seq<string>)
      requires asked == [] && upserted == map[]
      modifies this`target, this`asked, this`upserted
      ensures target == old(target) + upserted
      ensures match Copied(world.service, page, world.scrolled)
              case Ok(c) => failure.None? && c == Copying(asked, upserted, [], skipped, copied)
              case Err(exit) => failure == Some(exit)
    {
      copied, skipped, failure := 0, [], None;
      var batch: seq<Record>, requests := [], 0;
      assert target + map[] == target;
      for i := 0 to |world.scrolled|
        invariant requests == |asked| && target == old(target) + upserted
        invariant CopiedSoFar(world.service, page, world.scrolled[..i]) ==
                  Ok(Copying(asked, upserted, batch, skipped, copied))
      {
        OneMoreRecord(world.service, page, world.scrolled, i);
        failure, batch, skipped, copied, requests :=
          TakeRecord(world.service, page, world.scrolled[i], batch, skipped, copied, requests, old(target));
        if failure.Some? {
          FailureIsFinal(world.service, page, world.scrolled, i + 1);
          return;
        }
      }
      assert world.scrolled[..|world.scrolled|] == world.scrolled;
      ghost var c := Copying(asked, upserted, batch, skipped, copied);
      failure := FlushCopied(world.service, requests, batch, c, old(target));
      copied := copied + |batch|;
    }

    /** The whole run: copy, verify, swap. */
    method Reembed(name: string, options: Options, world: World) returns (outcome: Outcome)
      modifies this
      ensures live == if outcome.Swapped? then Some(name) else old(live)
      ensures outcome.Swapped? ==>
                && old(live).Some? && old(live) != Some(name) && !options.dryRun
                && Committed(options, world, asked, upserted, target)
      ensures outcome == Failed(EXIT_CHANGED) ==>
                !Committed(options, world, asked, upserted, target) || !world.sampleFindsItself
      ensures old(live).Some? && old(live) != Some(name) && !options.dryRun ==>
                var copy := Copied(world.service, options.page, world.scrolled);
                && (outcome.Failed? && outcome.exit != EXIT_CHANGED <==> copy.Err?)
                && (copy.Err? ==> outcome == Failed(copy.error))
      ensures outcome.AlreadyCurrent? <==> old(live) == Some(name)
      ensures outcome.DryRun? <==> old(live).Some? && old(live) != Some(name) && options.dryRun
      ensures old(live).None? ==> outcome == Failed(EXIT_ERROR)
      ensures outcome.AlreadyCurrent? || outcome.DryRun? || old(live).None? ==>
                target == old(target) && targetExists == old(targetExists) && asked == []
      ensures old(live).Some? && old(live) != Some(name) && !options.dryRun ==>
                var kept := if options.resume && old(targetExists) then old(target) else map[];
                && targetExists && target == kept + upserted
                && (outcome.Swapped? <==> Swaps(options, world, kept.Keys))
    {
      asked, upserted := [], map[];
      if live.None? {
        return Failed(EXIT_ERROR);
      }
      if live.value == name {
        return AlreadyCurrent;
      }
      if options.dryRun {
        return DryRun;
      }
      if !(options.resume && targetExists) {
        target, targetExists := map[], true;
      }
      ghost var start := target;
      var failure, copied, skipped := Copy(world, options.page);
      if failure.Some? {
        return Failed(failure.value);
      }
      CopyIsFaithful(world.service, options.page, world.scrolled);
      if exists i :: 0 <= i < |skipped| && skipped[i] !in options.allowSkips {
        SkipIsUnexplained(options, world, skipped);
        return Failed(EXIT_CHANGED);
      }
      var copiedIds := IdsOf(world.scrolled);
      if target.Keys != copiedIds - (set id | id in skipped) {
        return Failed(EXIT_CHANGED);
      }
      if !world.sampleFindsItself {
        return Failed(EXIT_CHANGED);
      }
      if world.finalIds != copiedIds {
        return Failed(EXIT_CHANGED);
      }
      live := Some(name);
      TargetIsWhatWasWritten(world.scrolled, start, upserted, target);
      return Swapped;
    }
  }

  lemma OneMoreRecord(service: Service, page: nat, records: seq<Record>, i: nat)
    requires i < |records| && CopiedSoFar(service, page, records[..i]).Ok?
    ensures var c, r := CopiedSoFar(service, page, records[..i]).value, records[i];
            CopiedSoFar(service, page, records[..i + 1]) == Taken(service, page, c, r)
  {
    assert records[..i + 1][..i] == records[..i];
  }

  lemma {:induction false} FailureIsFinal(service: Service, page: nat, records: seq<Record>, n: nat)
    requires n <= |records| && CopiedSoFar(service, page, records[..n]).Err?
    ensures CopiedSoFar(service, page, records) == CopiedSoFar(service, page, records[..n])
    decreases |records|
  {
    if n == |records| {
      assert records[..n] == records;
    } else {
      assert records[..|records| - 1][..n] == records[..n];
      FailureIsFinal(service, page, records[..|records| - 1], n);
    }
  }

  lemma Layered(start: map<string, Point>, a: map<string, Point>, b: map<string, Point>)
    ensures (start + a) + b == start + (a + b)
  {
  }

  /** Every record seen is waiting in the batch, written, or skipped for want of text. */
  ghost predicate Accounted(records: seq<Record>, c: Copying) {
    && (set id | id in c.skipped) == WithoutText(records)
    && c.upserted.Keys + IdsOf(c.batch) == WithText(records)
    && c.copied + |c.batch| + |c.skipped| == |records|
  }

  ghost predicate FromRecords(service: Service, records: seq<Record>, c: Copying) {
    (forall r :: r in c.batch ==> r in records) && Writes(service, c.asked, records, c.upserted)
  }

  lemma FlushAccounts(service: Service, records: seq<Record>, c: Copying)
    requires forall i :: 0 <= i < |c.batch| ==> c.batch[i].HasText()
    requires Accounted(records, c) && Flushed(service, c).Ok?
    ensures Accounted(records, Flushed(service, c).value)
  {
    if c.batch != [] {
      PointIds(c.batch, service(|c.asked|, TextsOf(c.batch)).all);
    }
  }

  lemma SkipAccounts(seen: seq<Record>, c: Copying, r: Record)
    requires Accounted(seen, c) && !r.HasText()
    ensures Accounted(seen + [r], c.(skipped := c.skipped + [r.id]))
  {
    assert (seen + [r])[..|seen|] == seen;
    assert (set id | id in c.skipped + [r.id]) == (set id | id in c.skipped) + {r.id};
  }

  lemma BatchAccounts(seen: seq<Record>, c: Copying, r: Record)
    requires Accounted(seen, c) && r.HasText()
    ensures Accounted(seen + [r], c.(batch := c.batch + [r]))
  {
    assert (seen + [r])[..|seen|] == seen;
    assert (c.batch + [r])[..|c.batch|] == c.batch;
  }

  lemma TakeAccounts(service: Service, page: nat, seen: seq<Record>, c: Copying, r: Record)
    requires forall i :: 0 <= i < |c.batch| ==> c.batch[i].HasText()
    requires Accounted(seen, c) && Taken(service, page, c, r).Ok?
    ensures Accounted(seen + [r], Taken(service, page, c, r).value)
  {
    if !r.HasText() {
      SkipAccounts(seen, c, r);
    } else {
      BatchAccounts(seen, c, r);
      if |c.batch| + 1 >= page {
        FlushAccounts(service, seen + [r], c.(batch := c.batch + [r]));
      }
    }
  }

  lemma {:induction false} CopyAccounts(service: Service, page: nat, records: seq<Record>)
    requires CopiedSoFar(service, page, records).Ok?
    ensures Accounted(records, CopiedSoFar(service, page, records).value)
  {
    if records == [] {
      assert Accounted([], Copying([], map[], [], [], 0));
    } else {
      var n := |records| - 1;
      CopyAccounts(service, page, records[..n]);
      TakeAccounts(service, page, records[..n], CopiedSoFar(service, page, records[..n]).value, records[n]);
      assert records == records[..n] + [records[n]];
    }
  }

  lemma FlushWrites(service: Service, records: seq<Record>, c: Copying)
    requires forall i :: 0 <= i < |c.batch| ==> c.batch[i].HasText()
    requires FromRecords(service, records, c) && Flushed(service, c).Ok?
    ensures FromRecords(service, records, Flushed(service, c).value)
  {
    if c.batch != [] {
      var points := PointsOf(c.batch, service(|c.asked|, TextsOf(c.batch)).all);
      BatchIsWritten(service, c.asked, c.batch);
      EarlierWritesStay(service, c.asked, TextsOf(c.batch), records, c.upserted);
      MergeWrites(service, c.asked + [TextsOf(c.batch)], records, c.batch, c.upserted, points);
    }
  }

  lemma {:induction false} CopyWrites(service: Service, page: nat, records: seq<Record>, all: seq<Record>)
    requires CopiedSoFar(service, page, records).Ok? && forall r :: r in records ==> r in all
    ensures FromRecords(service, all, CopiedSoFar(service, page, records).value)
  {
    if records != [] {
      var n := |records| - 1;
      var c, r := CopiedSoFar(service, page, records[..n]).value, records[n];
      CopyWrites(service, page, records[..n], all);
      if r.HasText() {
        var c' := c.(batch := c.batch + [r]);
        assert FromRecords(service, all, c');
        if |c'.batch| >= page {
          FlushWrites(service, all, c');
        }
      }
    }
  }

  /**
   A copy that does not fail writes every record that has text and skips every other, the counts add up, and each
   point it wrote is one of the records with the vector one of its own requests returned for that record's text.
   */
  lemma CopyIsFaithful(service: Service, page: nat, records: seq<Record>)
    requires Copied(service, page, records).Ok?
    ensures var c := Copied(service, page, records).value;
            && (set id | id in c.skipped) == WithoutText(records) && c.upserted.Keys == WithText(records)
            && c.copied + |c.skipped| == |records|
            && Writes(service, c.asked, records, c.upserted)
  {
    var c := CopiedSoFar(service, page, records).value;
    CopyAccounts(service, page, records);
    CopyWrites(service, page, records, records);
    FlushAccounts(service, records, c);
    FlushWrites(service, records, c);
  }

  lemma {:induction false} PointCameFrom(batch: seq<Record>, dense: seq<Vector>, id: string) returns (i: nat)
    requires |dense| == |batch| && id in PointsOf(batch, dense)
    ensures i < |batch| && batch[i].id == id
    ensures PointsOf(batch, dense)[id] == Point(dense[i], batch[i].sparse, batch[i].payload)
  {
    i := |batch| - 1;
    if batch[i].id != id {
      i := PointCameFrom(batch[..i], dense[..i], id);
    }
  }

  lemma {:induction false} PointIds(batch: seq<Record>, dense: seq<Vector>)
    requires |dense| == |batch|
    ensures PointsOf(batch, dense).Keys == IdsOf(batch)
  {
    if batch != [] {
      PointIds(batch[..|batch| - 1], dense[..|batch| - 1]);
    }
  }

  lemma BatchIsWritten(service: Service, asked: seq<seq<string>>, batch: seq<Record>)
    requires forall i :: 0 <= i < |batch| ==> batch[i].HasText()
    requires var answer := service(|asked|, TextsOf(batch)); answer.Vectors? && |answer.all| == |batch|
    ensures var points := PointsOf(batch, service(|asked|, TextsOf(batch)).all);
            points.Keys == IdsOf(batch) && Writes(service, asked + [TextsOf(batch)], batch, points)
  {
    var dense, asked' := service(|asked|, TextsOf(batch)).all, asked + [TextsOf(batch)];
    var points := PointsOf(batch, dense);
    PointIds(batch, dense);
    forall id | id in points
      ensures exists r :: r in batch && r.id == id && Rewrites(service, asked', r, points[id])
    {
      var i := PointCameFrom(batch, dense, id);
      assert asked'[|asked|][i] == batch[i].Text() && AnswerAt(service, |asked|, asked'[|asked|], i, dense[i]);
      assert batch[i] in batch && Rewrites(service, asked', batch[i], points[id]);
    }
  }

  lemma EarlierWritesStay(
      service: Service, asked: seq<seq<string>>, texts: seq<string>, records: seq<Record>, points: map<string, Point>)
    requires Writes(service, asked, records, points)
    ensures Writes(service, asked + [texts], records, points)
  {
    forall id | id in points
      ensures exists r :: r in records && r.id == id && Rewrites(service, asked + [texts], r, points[id])
    {
      var r :| r in records && r.id == id && Rewrites(service, asked, r, points[id]);
      var n: nat, j: nat :| n < |asked| && j < |asked[n]| && asked[n][j] == r.Text()
                            && AnswerAt(service, n, asked[n], j, points[id].dense);
      assert (asked + [texts])[n] == asked[n];
      assert Rewrites(service, asked + [texts], r, points[id]);
    }
  }

  lemma MergeWrites(
      service: Service, asked: seq<seq<string>>, records: seq<Record>, batch: seq<Record>,
      upserted: map<string, Point>, points: map<string, Point>)
    requires Writes(service, asked, records, upserted) && Writes(service, asked, batch, points)
    requires forall r :: r in batch ==> r in records
    ensures Writes(service, asked, records, upserted + points)
  {
    var all := upserted + points;
    forall id | id in all ensures exists r :: r in records && r.id == id && Rewrites(service, asked, r, all[id]) {
      if id in points {
        var r :| r in batch && r.id == id && Rewrites(service, asked, r, points[id]);
        assert r in records && all[id] == points[id];
      } else {
        assert all[id] == upserted[id];
      }
    }
  }

  /**
   What the swap commits to: the target holds exactly the ids of the final read of the source, less skips
   that were all allowed; it is, point for point, what this run upserted; and each point is a record the run
   scrolled, with the vector that one of the run's own requests returned for that record's text.
   */
  ghost predicate Committed(
      options: Options, world: World, asked: seq<seq<string>>,
      upserted: map<string, Point>, target: map<string, Point>)
  {
    && WithoutText(world.scrolled) <= options.allowSkips
    && world.finalIds == IdsOf(world.scrolled)
    && target.Keys == world.finalIds - WithoutText(world.scrolled)
    && target == upserted
    && Writes(world.service, asked, world.scrolled, target)
  }

  /** Nothing a stale target held is left: an id that was not written would not have been expected. */
  lemma TargetIsWhatWasWritten(
      records: seq<Record>, start: map<string, Point>, upserted: map<string, Point>, target: map<string, Point>)
    requires upserted.Keys == WithText(records) && target == start + upserted
    requires target.Keys == IdsOf(records) - WithoutText(records)
    ensures target == upserted
  {
    IdsSplit(records);
  }

  /**
   When a run that keeps these ids of the target ends in a swap: the copy does not fail, every record without text
   may be skipped, nothing was written to the source meanwhile, the sample finds itself, and what the target kept
   and what was written are together the source's ids less those skipped.
   */
  ghost predicate Swaps(options: Options, world: World, kept: set<string>) {
    && Copied(world.service, options.page, world.scrolled).Ok?
    && WithoutText(world.scrolled) <= options.allowSkips
    && world.finalIds == IdsOf(world.scrolled)
    && world.sampleFindsItself
    && kept + WithText(world.scrolled) == IdsOf(world.scrolled) - WithoutText(world.scrolled)
  }

  /**
   Without a half-built target to keep, the last condition is only that no id occurs with and without text: so a
   run over distinct ids swaps exactly when nothing it meets forbids it.
   */
  lemma FreshRunSwapsExactlyWhen(options: Options, world: World)
    requires forall i, j :: 0 <= i < j < |world.scrolled| ==> world.scrolled[i].id != world.scrolled[j].id
    ensures Swaps(options, world, {}) <==>
            && Copied(world.service, options.page, world.scrolled).Ok?
            && WithoutText(world.scrolled) <= options.allowSkips
            && world.finalIds == IdsOf(world.scrolled)
            && world.sampleFindsItself
  {
    IdsSplit(world.scrolled);
    TextsAndSkipsDiffer(world.scrolled);
  }

  lemma {:induction false} TextsAndSkipsDiffer(records: seq<Record>)
    requires forall i, j :: 0 <= i < j < |records| ==> records[i].id != records[j].id
    ensures WithText(records) !! WithoutText(records)
    ensures forall id :: id in WithText(records) || id in WithoutText(records) ==>
                           exists i :: 0 <= i < |records| && records[i].id == id
  {
    if records != [] {
      var n := |records| - 1;
      TextsAndSkipsDiffer(records[..n]);
      forall id | id in WithText(records) || id in WithoutText(records)
        ensures exists i :: 0 <= i < |records| && records[i].id == id
      {
        if id == records[n].id {
        } else {
          var i :| 0 <= i < n && records[..n][i].id == id;
          assert records[i].id == id;
        }
      }
      assert forall i :: 0 <= i < n ==> records[..n][i].id == records[i].id;
    }
  }

  // ---- The requests of a copy -------------------------------------------------------------------------

  function Concat(requests: seq<seq<string>>): seq<string> {
    if requests == [] then [] else Concat(requests[..|requests| - 1]) + requests[|requests| - 1]
  }

  /** The texts of the records that have one, in order. */
  function TextsIn(records: seq<Record>): seq<string> {
    if records == [] then []
    else
      var r := records[|records| - 1];
      TextsIn(records[..|records| - 1]) + if r.HasText() then [r.Text()] else []
  }

  lemma FlushAsks(service: Service, c: Copying)
    requires forall i :: 0 <= i < |c.batch| ==> c.batch[i].HasText()
    requires Flushed(service, c).Ok?
    ensures Concat(Flushed(service, c).value.asked) == Concat(c.asked) + TextsOf(c.batch)
  {
    if c.batch != [] {
      assert (c.asked + [TextsOf(c.batch)])[..|c.asked|] == c.asked;
    }
  }

  /** Every text is asked for or waits, once and in order; each request so far was a full page. */
  ghost predicate InPages(page: nat, records: seq<Record>, c: Copying) {
    && (forall i :: 0 <= i < |c.batch| ==> c.batch[i].HasText())
    && Concat(c.asked) + TextsOf(c.batch) == TextsIn(records)
    && (c.batch == [] || |c.batch| < page)
    && forall n :: 0 <= n < |c.asked| ==> |c.asked[n]| == if page == 0 then 1 else page
  }

  lemma BatchOneMore(seen: seq<Record>, c: Copying, r: Record)
    requires r.HasText() && forall i :: 0 <= i < |c.batch| ==> c.batch[i].HasText()
    requires Concat(c.asked) + TextsOf(c.batch) == TextsIn(seen)
    ensures Concat(c.asked) + TextsOf(c.batch + [r]) == TextsIn(seen + [r])
  {
    OneMoreText(seen, r);
    OneMoreTextOf(c.batch, r);
    Regroup(Concat(c.asked), TextsOf(c.batch), [r.Text()]);
  }

  lemma OneMoreText(seen: seq<Record>, r: Record)
    ensures TextsIn(seen + [r]) == TextsIn(seen) + if r.HasText() then [r.Text()] else []
  {
    assert (seen + [r])[..|seen|] == seen;
  }

  lemma OneMoreTextOf(batch: seq<Record>, r: Record)
    requires r.HasText() && forall i :: 0 <= i < |batch| ==> batch[i].HasText()
    ensures TextsOf(batch + [r]) == TextsOf(batch) + [r.Text()]
  {
  }

  lemma Regroup(a: seq<string>, b: seq<string>, c: seq<string>)
    ensures (a + b) + c == a + (b + c)
  {
  }

  lemma TakeInPages(service: Service, page: nat, seen: seq<Record>, c: Copying, r: Record)
    requires InPages(page, seen, c) && Taken(service, page, c, r).Ok?
    ensures InPages(page, seen + [r], Taken(service, page, c, r).value)
  {
    if !r.HasText() {
      OneMoreText(seen, r);
    } else {
      BatchOneMore(seen, c, r);
      if |c.batch| + 1 >= page {
        FlushAsks(service, c.(batch := c.batch + [r]));
      }
    }
  }

  lemma {:induction false} PagesSoFar(service: Service, page: nat, records: seq<Record>)
    requires CopiedSoFar(service, page, records).Ok?
    ensures InPages(page, records, CopiedSoFar(service, page, records).value)
  {
    if records != [] {
      var n := |records| - 1;
      PagesSoFar(service, page, records[..n]);
      TakeInPages(service, page, records[..n], CopiedSoFar(service, page, records[..n]).value, records[n]);
      assert records == records[..n] + [records[n]];
    }
  }

  /** A copy asks for every text once, in order, a full page at a time but for the last request. */
  lemma CopyAsksInPages(service: Service, page: nat, records: seq<Record>)
    requires Copied(service, page, records).Ok?
    ensures var asked := Copied(service, page, records).value.asked;
            && Concat(asked) == TextsIn(records)
            && forall n :: 0 <= n < |asked| ==>
                             && 1 <= |asked[n]| <= (if page == 0 then 1 else page)
                             && (n < |asked| - 1 && page > 0 ==> |asked[n]| == page)
  {
    PagesSoFar(service, page, records);
    FlushAsks(service, CopiedSoFar(service, page, records).value);
  }

  lemma SkipIsUnexplained(options: Options, world: World, skipped: seq<string>)
    requires (set id | id in skipped) == WithoutText(world.scrolled)
    requires exists i :: 0 <= i < |skipped| && skipped[i] !in options.allowSkips
    ensures !(WithoutText(world.scrolled) <= options.allowSkips)
  {
    var i :| 0 <= i < |skipped| && skipped[i] !in options.allowSkips;
    assert skipped[i] in (set id | id in skipped);
  }
}
