/**
 Chunk, embed, upsert (app/ingestion/ingestor.py): the points of one document, their content-derived ids,
 and why attempts that crash or repeat do no harm.
 */
module Ingestor {
  import opened Wrappers
  import opened Decimals
  import opened Separators
  import opened Chunking
  import opened Windows

  // ---- Point names ------------------------------------------------------------------------------------

  /** The string a point id is derived from. */
  function Name(tenant: string, source: string, index: nat, digest: string): string {
    tenant + "|" + source + "|" + Decimal(index) + "|" + digest
  }

  /** Two names are the same exactly when index, digest and the text `tenant|source` are. */
  lemma NameDetermines(t: string, s: string, i: nat, d: string, t': string, s': string, i': nat, d': string)
    requires '|' !in d && '|' !in d'
    ensures Name(t, s, i, d) == Name(t', s', i', d') <==> i == i' && d == d' && t + "|" + s == t' + "|" + s'
  {
    if Name(t, s, i, d) == Name(t', s', i', d') {
      LastSeparator('|', t + "|" + s + "|" + Decimal(i), d, t' + "|" + s' + "|" + Decimal(i'), d');
      LastSeparator('|', t + "|" + s, Decimal(i), t' + "|" + s', Decimal(i'));
      ValueOfDecimal(i);
      ValueOfDecimal(i');
    }
  }

  /** The pair of tenant and source gives the same name as this other pair. */
  ghost predicate Rival(tenant: string, source: string, t': string, s': string, index: nat, digest: string) {
    (t', s') != (tenant, source) && Name(t', s', index, digest) == Name(tenant, source, index, digest)
  }

  /** A name is shared with some other tenant and source exactly when the tenant or the source contains a bar. */
  lemma NameIsSharedExactlyWhen(tenant: string, source: string, index: nat, digest: string)
    requires '|' !in digest
    ensures (exists t', s' :: Rival(tenant, source, t', s', index, digest)) <==> '|' in tenant || '|' in source
  {
    if '|' in tenant {
      var k := BarIn(tenant);
      var t', s' := tenant[..k], tenant[k + 1..] + "|" + source;
      assert t' + "|" + s' == tenant + "|" + source;
      NameDetermines(t', s', index, digest, tenant, source, index, digest);
      assert Rival(tenant, source, t', s', index, digest);
    } else if '|' in source {
      var k := BarIn(source);
      var t', s' := tenant + "|" + source[..k], source[k + 1..];
      assert t' + "|" + s' == tenant + "|" + source;
      NameDetermines(t', s', index, digest, tenant, source, index, digest);
      assert Rival(tenant, source, t', s', index, digest);
    } else if t', s' :| Rival(tenant, source, t', s', index, digest) {
      NameDetermines(t', s', index, digest, tenant, source, index, digest);
      FirstBarIsTheOnlyOne(tenant, source, t', s');
    }
  }

  lemma FirstBarIsTheOnlyOne(a: string, x: string, b: string, y: string)
    requires '|' !in a && '|' !in x && b + "|" + y == a + "|" + x
    ensures a == b && x == y
  {
    var s := a + "|" + x;
    assert s[|b|] == '|';
    assert forall i :: 0 <= i < |s| && s[i] == '|' ==> i == |a|;
    assert s[..|a|] == a && s[..|b|] == b && s[|a| + 1..] == x && s[|b| + 1..] == y;
  }

  /** Among tenants without a bar, a name has one tenant and one source. */
  lemma BarFreeTenantsAreKeptApart(t: string, s: string, i: nat, d: string, t': string, s': string, i': nat, d': string)
    requires '|' !in d && '|' !in d' && '|' !in t && '|' !in t'
    requires Name(t, s, i, d) == Name(t', s', i', d')
    ensures t == t' && s == s' && i == i' && d == d'
  {
    NameDetermines(t, s, i, d, t', s', i', d');
    FirstSeparator('|', t, s, t', s');
  }

  /** Where the first bar is. */
  function BarIn(s: string): (k: nat)
    requires '|' in s
    ensures k < |s| && s[k] == '|' && '|' !in s[..k]
  {
    if s[0] == '|' then 0
    else
      var k := BarIn(s[1..]);
      assert s[..k + 1] == [s[0]] + s[1..][..k];
      1 + k
  }

  // ---- The points of a document -----------------------------------------------------------------------

  const PARENT_CHARS := 1200
  const CHILD_CHARS := 600
  const CHILD_OVERLAP := 150
  const EMBED_BATCH_SIZE := 200

  type Vector = seq<real>

  datatype Job = Job(
    text: string, title: string, tenant: string, principal: string, source: string, topic: Option<string>)

  /** What a point says, apart from the parent's random id and its vectors. */
  datatype Core = Core(
    text: string, parentText: string, title: string, source: string, ingestedBy: string, tenant: string,
    topic: Option<string>)

  datatype Point = Point(id: string, core: Core, parentId: string, dense: Vector, sparse: Option<Vector>)

  /** SHA-256 in hexadecimal, and uuid5 in this application's namespace. */
  datatype Hashes = Hashes(digest: string -> string, uuid: string -> string)

  /** The collision-freedom the ids rest on. */
  ghost predicate CollisionFree(h: Hashes) {
    && (forall text :: '|' !in h.digest(text))
    && (forall a, b :: h.uuid(a) == h.uuid(b) ==> a == b)
  }

  /**
   What one attempt draws or is told: the parents' random ids, the dense vectors, and the sparse ones if they
   could be computed.
   */
  datatype Attempt = Attempt(parentIds: nat -> string, embed: string -> Vector, sparse: Option<string -> Vector>)

  datatype Child = Child(text: string, parentText: string, parentId: string)

  function ChildrenOf(chunk: ParentChunk): seq<Child> {
    seq(|chunk.children|, i requires 0 <= i < |chunk.children| => Child(chunk.children[i], chunk.text, chunk.parentId))
  }

  function AllChildren(chunks: seq<ParentChunk>): seq<Child> {
    if chunks == [] then [] else AllChildren(chunks[..|chunks| - 1]) + ChildrenOf(chunks[|chunks| - 1])
  }

  /** The parents' texts. */
  function ParentTexts(job: Job): seq<string> {
    Texts(Pack(Paragraphs(job.text), [], PARENT_CHARS))
  }

  function ChunksOf(job: Job, a: Attempt): seq<ParentChunk> {
    Chunks(ParentTexts(job), a.parentIds, CHILD_CHARS, CHILD_OVERLAP)
  }

  function PointId(h: Hashes, job: Job, index: nat, text: string): string {
    h.uuid(Name(job.tenant, job.source, index, h.digest(text)))
  }

  function PointOf(h: Hashes, job: Job, a: Attempt, child: Child, index: nat): Point {
    Point(PointId(h, job, index, child.text),
          Core(child.text, child.parentText, job.title, job.source, job.principal, job.tenant,
               if job.topic == Some("") then None else job.topic),
          child.parentId,
          a.embed(child.text),
          if a.sparse.Some? then Some(a.sparse.value(child.text)) else None)
  }

  /** The points of one attempt: the i-th child with its own id, payload and vectors. */
  function PointsOf(h: Hashes, job: Job, a: Attempt): (points: seq<Point>)
    ensures |points| == |AllChildren(ChunksOf(job, a))|
  {
    var children := AllChildren(ChunksOf(job, a));
    seq(|children|, i requires 0 <= i < |children| => PointOf(h, job, a, children[i], i))
  }

  /** The dense vectors of all children, a batch at a time. */
  method EmbedAll(texts: seq<string>, embed: string -> Vector) returns (vectors: seq<Vector>)
    ensures |vectors| == |texts| && forall i :: 0 <= i < |texts| ==> vectors[i] == embed(texts[i])
  {
    vectors := [];
    var start := 0;
    while start < |texts|
      invariant |vectors| == if start < |texts| then start else |texts|
      invariant forall i :: 0 <= i < |vectors| ==> vectors[i] == embed(texts[i])
    {
      var end := if start + EMBED_BATCH_SIZE < |texts| then start + EMBED_BATCH_SIZE else |texts|;
      var batch := texts[start..end];
      vectors := vectors + seq(|batch|, i requires 0 <= i < |batch| => embed(batch[i]));
      start := start + EMBED_BATCH_SIZE;
    }
  }

  method ChildTexts(chunks: seq<ParentChunk>) returns (texts: seq<string>)
    ensures |texts| == |AllChildren(chunks)| && forall i :: 0 <= i < |texts| ==> texts[i] == AllChildren(chunks)[i].text
  {
    texts := [];
    for n := 0 to |chunks|
      invariant |texts| == |AllChildren(chunks[..n])|
      invariant forall i :: 0 <= i < |texts| ==> texts[i] == AllChildren(chunks[..n])[i].text
    {
      assert chunks[..n + 1][..n] == chunks[..n];
      texts := texts + chunks[n].children;
    }
    assert chunks[..|chunks|] == chunks;
  }

  /** The points so far are those of the first children. */
  ghost predicate ArePointsOf(h: Hashes, job: Job, a: Attempt, all: seq<Child>, points: seq<Point>) {
    |points| <= |all| && forall i :: 0 <= i < |points| ==> points[i] == PointOf(h, job, a, all[i], i)
  }

  /** Appends the points of one parent's children; the next point's number is how many there are. */
  method AppendPoints(
      h: Hashes, job: Job, a: Attempt, chunk: ParentChunk, dense: seq<Vector>, points: seq<Point>,
      ghost before: seq<Child>, ghost all: seq<Child>)
    returns (more: seq<Point>)
    requires before + ChildrenOf(chunk) <= all && |points| == |before| && |dense| == |all|
    requires forall i :: 0 <= i < |all| ==> dense[i] == a.embed(all[i].text)
    requires ArePointsOf(h, job, a, all, points)
    ensures |more| == |before| + |ChildrenOf(chunk)| && ArePointsOf(h, job, a, all, more)
  {
    more := points;
    for j := 0 to |chunk.children|
      invariant |more| == |before| + j && ArePointsOf(h, job, a, all, more)
    {
      var i := |more|;
      assert all[i] == (before + ChildrenOf(chunk))[i] == ChildrenOf(chunk)[j];
      var text := chunk.children[j];
      var topic := if job.topic.Some? && job.topic.value != "" then job.topic else None;
      var core := Core(text, chunk.text, job.title, job.source, job.principal, job.tenant, topic);
      var sparse := if a.sparse.Some? then Some(a.sparse.value(text)) else None;
      more := more + [Point(PointId(h, job, i, text), core, chunk.parentId, dense[i], sparse)];
    }
  }

  /** The nested loops over parents and their children. */
  method DocumentPoints(h: Hashes, job: Job, a: Attempt, chunks: seq<ParentChunk>) returns (points: seq<Point>)
    ensures |points| == |AllChildren(chunks)| && ArePointsOf(h, job, a, AllChildren(chunks), points)
  {
    var texts := ChildTexts(chunks);
    var dense := EmbedAll(texts, a.embed);
    points := [];
    for n := 0 to |chunks|
      invariant |points| == |AllChildren(chunks[..n])| && ArePointsOf(h, job, a, AllChildren(chunks), points)
    {
      ChildrenOfNext(chunks, n);
      points := AppendPoints(h, job, a, chunks[n], dense, points, AllChildren(chunks[..n]), AllChildren(chunks));
    }
    assert chunks[..|chunks|] == chunks;
  }

  /** `ingest_text` up to the upsert: refused without an owner, otherwise exactly the points of this attempt. */
  method IngestText(h: Hashes, job: Job, a: Attempt) returns (r: Result<seq<Point>, string>)
    ensures r.Err? <==> job.tenant == "" || job.principal == ""
    ensures r.Ok? ==> r.value == PointsOf(h, job, a)
  {
    if job.tenant == "" || job.principal == "" {
      return Err("a valid tenant+principal ctx is required to ingest content");
    }
    var chunked := ChunkText(job.text, a.parentIds, PARENT_CHARS, CHILD_CHARS, CHILD_OVERLAP);
    var chunks := chunked.value;
    var points := DocumentPoints(h, job, a, chunks);
    assert points == PointsOf(h, job, a);
    return Ok(points);
  }

  /** The children of the n-th parent follow those of the parents before it. */
  lemma ChildrenOfNext(chunks: seq<ParentChunk>, n: nat)
    requires n < |chunks|
    ensures AllChildren(chunks[..n + 1]) == AllChildren(chunks[..n]) + ChildrenOf(chunks[n])
    ensures AllChildren(chunks[..n]) + ChildrenOf(chunks[n]) <= AllChildren(chunks)
  {
    assert chunks[..n + 1][..n] == chunks[..n];
    ChildrenPrefix(chunks, n + 1);
  }

  lemma {:induction false} ChildrenPrefix(chunks: seq<ParentChunk>, n: nat)
    requires n <= |chunks|
    ensures AllChildren(chunks[..n]) <= AllChildren(chunks)
  {
    if n < |chunks| {
      ChildrenPrefix(chunks[..|chunks| - 1], n);
      assert chunks[..|chunks| - 1][..n] == chunks[..n];
    } else {
      assert chunks[..n] == chunks;
    }
  }

  // ---- Crashed, partial and repeated attempts ---------------------------------------------------------

  type Index = map<string, Point>

  /** The index after the points numbered in `written` have been upserted, in order. */
  function Upsert(index: Index, points: seq<Point>, written: set<nat>): Index {
    if points == [] then index
    else
      var n := |points| - 1;
      var before := Upsert(index, points[..n], written);
      if n in written then before[points[n].id := points[n]] else before
  }

  function FirstN(n: nat): (s: set<nat>)
    ensures forall i: nat :: i in s <==> i < n
  {
    if n == 0 then {} else FirstN(n - 1) + {n - 1}
  }

  function AllOf(points: seq<Point>): set<nat> {
    FirstN(|points|)
  }

  /** The points an attempt had, and which of them it wrote before it ended. */
  datatype Write = Write(points: seq<Point>, written: set<nat>) {
    predicate Complete() {
      AllOf(points) <= written
    }
  }

  function AfterWrites(index: Index, writes: seq<Write>): Index {
    if writes == [] then index
    else Upsert(AfterWrites(index, writes[..|writes| - 1]), writes[|writes| - 1].points, writes[|writes| - 1].written)
  }

  /** The two indexes hold the same ids, and at each the same text, parent text, title, source, owner and tenant. */
  ghost predicate SameDocuments(a: Index, b: Index) {
    a.Keys == b.Keys && forall id :: id in a ==> a[id].core == b[id].core
  }

  /** The same ids and the same documents, position by position. */
  ghost predicate Agree(p: seq<Point>, q: seq<Point>) {
    |p| == |q| && forall i :: 0 <= i < |p| ==> p[i].id == q[i].id && p[i].core == q[i].core
  }

  ghost predicate DistinctIds(p: seq<Point>) {
    forall i, j :: 0 <= i < j < |p| ==> p[i].id != p[j].id
  }

  lemma {:induction false} UpsertAt(index: Index, points: seq<Point>, written: set<nat>, id: string)
    requires DistinctIds(points)
    ensures (forall i: nat :: i < |points| && i in written ==> points[i].id != id) ==>
              && (id in Upsert(index, points, written) <==> id in index)
              && (id in index ==> Upsert(index, points, written)[id] == index[id])
    ensures forall i: nat :: i < |points| && i in written && points[i].id == id ==>
              id in Upsert(index, points, written) && Upsert(index, points, written)[id] == points[i]
  {
    if points != [] {
      UpsertAt(index, points[..|points| - 1], written, id);
    }
  }

  /** The index holds the point's document at the point's id. */
  ghost predicate Holds(index: Index, p: Point) {
    p.id in index && index[p.id].core == p.core
  }

  lemma OneWriteAt(index: Index, w: Write, reference: seq<Point>, i: nat)
    requires Agree(reference, w.points) && DistinctIds(w.points) && i < |reference|
    requires Holds(index, reference[i]) || w.Complete()
    ensures Holds(Upsert(index, w.points, w.written), reference[i])
  {
    UpsertAt(index, w.points, w.written, reference[i].id);
    assert w.points[i].id == reference[i].id;
  }

  lemma {:induction false} WritesAt(index: Index, writes: seq<Write>, reference: seq<Point>, k: nat, i: nat)
    requires forall n :: 0 <= n < |writes| ==> Agree(reference, writes[n].points) && DistinctIds(writes[n].points)
    requires k < |writes| && writes[k].Complete() && i < |reference|
    ensures Holds(AfterWrites(index, writes), reference[i])
  {
    var n := |writes| - 1;
    if k < n {
      WritesAt(index, writes[..n], reference, k, i);
    }
    OneWriteAt(AfterWrites(index, writes[..n]), writes[n], reference, i);
  }

  lemma {:induction false} WritesElsewhere(index: Index, writes: seq<Write>, reference: seq<Point>, id: string)
    requires forall n :: 0 <= n < |writes| ==> Agree(reference, writes[n].points) && DistinctIds(writes[n].points)
    requires forall i :: 0 <= i < |reference| ==> reference[i].id != id
    ensures var after := AfterWrites(index, writes);
            (id in after <==> id in index) && (id in index ==> after[id] == index[id])
  {
    if writes != [] {
      var n := |writes| - 1;
      WritesElsewhere(index, writes[..n], reference, id);
      UpsertAt(AfterWrites(index, writes[..n]), writes[n].points, writes[n].written, id);
    }
  }

  /** Writes that agree, of which one is complete in each sequence, leave the same documents. */
  lemma CompleteWritesAgree(index: Index, ws: seq<Write>, vs: seq<Write>, reference: seq<Point>, k: nat, m: nat)
    requires forall n :: 0 <= n < |ws| ==> Agree(reference, ws[n].points) && DistinctIds(ws[n].points)
    requires forall n :: 0 <= n < |vs| ==> Agree(reference, vs[n].points) && DistinctIds(vs[n].points)
    requires k < |ws| && ws[k].Complete() && m < |vs| && vs[m].Complete()
    ensures SameDocuments(AfterWrites(index, ws), AfterWrites(index, vs))
  {
    var a, b := AfterWrites(index, ws), AfterWrites(index, vs);
    forall id
      ensures id in a <==> id in b
      ensures id in a ==> a[id].core == b[id].core
    {
      if i :| 0 <= i < |reference| && reference[i].id == id {
        WritesAt(index, ws, reference, k, i);
        WritesAt(index, vs, reference, m, i);
      } else {
        WritesElsewhere(index, ws, reference, id);
        WritesElsewhere(index, vs, reference, id);
      }
    }
  }

  // ---- Attempts at one job ----------------------------------------------------------------------------

  ghost predicate SameTexts(a: seq<Child>, b: seq<Child>) {
    |a| == |b| && forall i :: 0 <= i < |a| ==> a[i].text == b[i].text && a[i].parentText == b[i].parentText
  }

  lemma {:induction false} ChildrenAreFixed(a: seq<ParentChunk>, b: seq<ParentChunk>)
    requires |a| == |b| && forall i :: 0 <= i < |a| ==> a[i].text == b[i].text && a[i].children == b[i].children
    ensures SameTexts(AllChildren(a), AllChildren(b))
  {
    if a != [] {
      var n := |a| - 1;
      ChildrenAreFixed(a[..n], b[..n]);
      assert SameTexts(ChildrenOf(a[n]), ChildrenOf(b[n]));
    }
  }

  /** Every attempt has the same ids and the same documents, whatever random ids and vectors it draws. */
  lemma AttemptsAgree(h: Hashes, job: Job, a: Attempt, b: Attempt)
    ensures Agree(PointsOf(h, job, a), PointsOf(h, job, b))
  {
    ChildrenAreFixed(ChunksOf(job, a), ChunksOf(job, b));
  }

  /** Chunks of one document never share an id, however alike their texts are. */
  lemma IdsAreDistinct(h: Hashes, job: Job, a: Attempt)
    requires CollisionFree(h)
    ensures DistinctIds(PointsOf(h, job, a))
  {
    var children := AllChildren(ChunksOf(job, a));
    forall i, j | 0 <= i < j < |children|
      ensures PointId(h, job, i, children[i].text) != PointId(h, job, j, children[j].text)
    {
      NameDetermines(
        job.tenant, job.source, i, h.digest(children[i].text), job.tenant, job.source, j, h.digest(children[j].text));
    }
  }

  /** What an attempt got done before it ended: the whole upsert, or any part of it. */
  datatype Try = Try(attempt: Attempt, written: set<nat>)

  function WritesOf(h: Hashes, job: Job, tries: seq<Try>): (writes: seq<Write>)
    ensures |writes| == |tries|
    ensures forall n :: 0 <= n < |tries| ==> writes[n] == Write(PointsOf(h, job, tries[n].attempt), tries[n].written)
  {
    seq(|tries|, n requires 0 <= n < |tries| => Write(PointsOf(h, job, tries[n].attempt), tries[n].written))
  }

  lemma TriesAgree(h: Hashes, job: Job, tries: seq<Try>, reference: Attempt)
    requires CollisionFree(h)
    ensures var ws := WritesOf(h, job, tries);
            forall n :: 0 <= n < |ws| ==> Agree(PointsOf(h, job, reference), ws[n].points) && DistinctIds(ws[n].points)
  {
    forall n | 0 <= n < |tries|
      ensures Agree(PointsOf(h, job, reference), PointsOf(h, job, tries[n].attempt))
              && DistinctIds(PointsOf(h, job, tries[n].attempt))
    {
      AttemptsAgree(h, job, reference, tries[n].attempt);
      IdsAreDistinct(h, job, tries[n].attempt);
    }
  }

  /**
   Any sequence of attempts, each writing any part of its points, of which at least one writes them all,
   leaves the documents a single clean ingest leaves.
   */
  lemma CrashTolerantIngestRefinesOne(h: Hashes, job: Job, index: Index, tries: seq<Try>, k: nat, clean: Attempt)
    requires CollisionFree(h) && k < |tries| && WritesOf(h, job, tries)[k].Complete()
    ensures SameDocuments(AfterWrites(index, WritesOf(h, job, tries)),
                          Upsert(index, PointsOf(h, job, clean), AllOf(PointsOf(h, job, clean))))
  {
    var points := PointsOf(h, job, clean);
    var once := [Try(clean, AllOf(points))];
    TriesAgree(h, job, tries, clean);
    TriesAgree(h, job, once, clean);
    CompleteWritesAgree(index, WritesOf(h, job, tries), WritesOf(h, job, once), points, k, 0);
    assert WritesOf(h, job, once) == [Write(points, AllOf(points))];
    assert AfterWrites(index, [Write(points, AllOf(points))]) == Upsert(index, points, AllOf(points));
  }

  // ---- What is indexed --------------------------------------------------------------------------------

  lemma {:induction false} ChildComesFromAChunk(chunks: seq<ParentChunk>, i: nat) returns (n: nat, j: nat)
    requires i < |AllChildren(chunks)|
    ensures n < |chunks| && j < |chunks[n].children|
            && AllChildren(chunks)[i] == Child(chunks[n].children[j], chunks[n].text, chunks[n].parentId)
  {
    var last := |chunks| - 1;
    var before := AllChildren(chunks[..last]);
    if i < |before| {
      n, j := ChildComesFromAChunk(chunks[..last], i);
    } else {
      n, j := last, i - |before|;
      assert AllChildren(chunks)[i] == ChildrenOf(chunks[last])[j];
    }
  }

  lemma {:induction false} ChunkHasItsChildren(chunks: seq<ParentChunk>, n: nat, j: nat) returns (i: nat)
    requires n < |chunks| && j < |chunks[n].children|
    ensures i < |AllChildren(chunks)|
            && AllChildren(chunks)[i] == Child(chunks[n].children[j], chunks[n].text, chunks[n].parentId)
  {
    var last := |chunks| - 1;
    if n == last {
      i := |AllChildren(chunks[..last])| + j;
      assert AllChildren(chunks)[i] == ChildrenOf(chunks[last])[j];
    } else {
      i := ChunkHasItsChildren(chunks[..last], n, j);
    }
  }

  /**
   Every point is a window of a parent of the document, under the id of its own tenant, source, place and text,
   with its own text's vector.
   */
  lemma PointsDescribeTheDocument(h: Hashes, job: Job, a: Attempt, i: nat)
    requires i < |PointsOf(h, job, a)|
    ensures var p := PointsOf(h, job, a)[i];
            && p.core.parentText in ParentTexts(job)
            && p.core.text in WindowsOf(p.core.parentText, CHILD_CHARS, CHILD_OVERLAP)
            && p.core.tenant == job.tenant && p.core.source == job.source
            && p.core.title == job.title && p.core.ingestedBy == job.principal
            && p.id == h.uuid(Name(p.core.tenant, p.core.source, i, h.digest(p.core.text)))
            && p.dense == a.embed(p.core.text)
            && (p.core.topic.Some? <==> job.topic.Some? && job.topic.value != "")
            && (p.core.topic.Some? ==> p.core.topic == job.topic)
            && (p.sparse.Some? <==> a.sparse.Some?)
            && (p.sparse.Some? ==> p.sparse.value == a.sparse.value(p.core.text))
            && exists n: nat :: n < |ParentTexts(job)| && IsParentOf(job, a, n, p)
  {
    var chunks := ChunksOf(job, a);
    var n, j := ChildComesFromAChunk(chunks, i);
    assert chunks[n].text == ParentTexts(job)[n];
    assert IsParentOf(job, a, n, PointsOf(h, job, a)[i]);
  }

  /** The point carries the text of the document's `n`-th parent and the id the attempt drew for it. */
  predicate IsParentOf(job: Job, a: Attempt, n: nat, p: Point)
    requires n < |ParentTexts(job)|
  {
    p.core.parentText == ParentTexts(job)[n] && p.parentId == a.parentIds(n)
  }

  /** Every passage of up to `CHILD_OVERLAP + 1` characters of every parent lies whole inside the text of some point. */
  lemma EveryPassageIsIndexed(h: Hashes, job: Job, a: Attempt, n: nat, from: nat, to: nat)
    requires n < |ParentTexts(job)| && from <= to <= |ParentTexts(job)[n]| && to - from <= CHILD_OVERLAP + 1
    ensures exists i: nat, at: nat ::
            i < |PointsOf(h, job, a)| && OccursAt(ParentTexts(job)[n][from..to], PointsOf(h, job, a)[i].core.text, at)
  {
    var parent := ParentTexts(job)[n];
    EveryPassageIsInSomeWindow(parent, CHILD_CHARS, CHILD_OVERLAP, from, to);
    var windows := WindowsOf(parent, CHILD_CHARS, CHILD_OVERLAP);
    var j: nat, at: nat :| j < |windows| && OccursAt(parent[from..to], windows[j], at);
    var chunks := ChunksOf(job, a);
    assert chunks[n].children == windows;
    var i := ChunkHasItsChildren(chunks, n, j);
    assert PointsOf(h, job, a)[i].core.text == windows[j];
  }
}
