/**
 What the prose says that the strict rewrite leaves behind (app/core/tool_schema.py): the notes folded into the
 descriptions carry exactly the length bounds and defaults that the rewrite takes out of the schema.
 */
module ToolNotes {
  import opened Wrappers
  import opened ToolSchema

  /** What a reader of the note makes of it. A default and the hint to pass null rule nothing out. */
  ghost predicate Holds(note: Note, v: Json)
    decreases note
  {
    match note
    case AtLeast(n) => v.JStr? ==> n <= |v.s|
    case AtMost(n) => v.JStr? ==> |v.s| <= n
    case EachItem(inner) => v.JArr? ==> forall i :: 0 <= i < |v.elements| ==> Holds(inner, v.elements[i])
    case Default(_) => true
    case PassNull => true
  }

  ghost predicate AllHold(notes: seq<Note>, v: Json) {
    forall i :: 0 <= i < |notes| ==> Holds(notes[i], v)
  }

  lemma AllHoldOfBoth(a: seq<Note>, b: seq<Note>, v: Json)
    ensures AllHold(a + b, v) <==> AllHold(a, v) && AllHold(b, v)
  {
    if AllHold(a + b, v) {
      forall i | 0 <= i < |a| ensures Holds(a[i], v) {
        assert (a + b)[i] == a[i];
      }
      forall i | 0 <= i < |b| ensures Holds(b[i], v) {
        assert (a + b)[|a| + i] == b[i];
      }
    }
  }

  // ---- One node's own notes ---------------------------------------------------------------------------

  lemma OwnNotesHold(s: Schema, v: Json)
    ensures AllHold(OwnNotes(s), v) <==> (v.JStr? ==> LengthOk(s, v.s))
  {
    var low := if s.minLength.Some? then [AtLeast(s.minLength.value)] else [];
    var high := if s.maxLength.Some? then [AtMost(s.maxLength.value)] else [];
    var usual := if s.default.Some? && s.default.value != JNull then [Default(s.default.value)] else [];
    AllHoldOfBoth(low + high, usual, v);
    AllHoldOfBoth(low, high, v);
    assert s.minLength.Some? ==> low[0] == AtLeast(s.minLength.value);
    assert s.maxLength.Some? ==> high[0] == AtMost(s.maxLength.value);
  }

  lemma {:induction false} EachItemHolds(notes: seq<Note>, v: Json)
    ensures AllHold(EachItemOf(notes), v) <==>
            (v.JArr? ==> forall i :: 0 <= i < |v.elements| ==> AllHold(notes, v.elements[i]))
  {
    if notes != [] {
      EachItemHolds(notes[1..], v);
      AllHoldOfBoth([EachItem(notes[0])], EachItemOf(notes[1..]), v);
      assert AllHold([EachItem(notes[0])], v) <==> Holds(EachItem(notes[0]), v) by {
        assert [EachItem(notes[0])][0] == EachItem(notes[0]);
      }
      forall w ensures AllHold(notes, w) <==> Holds(notes[0], w) && AllHold(notes[1..], w) {
        AllHoldOfBoth([notes[0]], notes[1..], w);
        assert notes == [notes[0]] + notes[1..] && [notes[0]][0] == notes[0];
      }
    }
  }

  lemma {:induction false} BranchNotesHold(branches: seq<Schema>, v: Json)
    ensures AllHold(NotesOfAll(branches), v) <==>
            forall i :: 0 <= i < |branches| ==> AllHold(Notes(branches[i]), v)
  {
    if branches != [] {
      BranchNotesHold(branches[1..], v);
      AllHoldOfBoth(Notes(branches[0]), NotesOfAll(branches[1..]), v);
      assert forall i :: 1 <= i < |branches| ==> branches[i] == branches[1..][i - 1];
      assert forall i :: 0 <= i < |branches| - 1 ==> branches[1..][i] == branches[i + 1];
    }
  }

  ghost predicate ItemNotesHold(s: Schema, v: Json) {
    s.items.Some? && v.JArr? ==> forall i :: 0 <= i < |v.elements| ==> AllHold(Notes(s.items.value), v.elements[i])
  }

  /** A node's notes are its own bounds, its branches' notes, and its items' notes about each item. */
  lemma NotesHold(s: Schema, v: Json)
    ensures AllHold(Notes(s), v) <==>
            && (v.JStr? ==> LengthOk(s, v.s))
            && (forall i :: 0 <= i < |s.anyOf| ==> AllHold(Notes(s.anyOf[i]), v))
            && ItemNotesHold(s, v)
  {
    var perItem := if s.items.Some? then EachItemOf(Notes(s.items.value)) else [];
    AllHoldOfBoth(OwnNotes(s) + NotesOfAll(s.anyOf), perItem, v);
    AllHoldOfBoth(OwnNotes(s), NotesOfAll(s.anyOf), v);
    OwnNotesHold(s, v);
    BranchNotesHold(s.anyOf, v);
    if s.items.Some? {
      EachItemHolds(Notes(s.items.value), v);
    }
  }

  // ---- What a property's description says -------------------------------------------------------------

  function Words(s: Schema): Description {
    if s.description.Some? then s.description.value else Description("", [])
  }

  lemma NotesOfWrapped(p: Schema)
    requires NeedsNull(p)
    ensures Notes(MakeNullable(p)) == Notes(p)
  {
    var pair := [Inner(p), NULL_SCHEMA];
    assert pair[1..] == [NULL_SCHEMA] && pair[1..][1..] == [];
    assert OwnNotes(NULL_SCHEMA) == [] && Notes(NULL_SCHEMA) == [];
    assert NotesOfAll(pair[1..]) == Notes(NULL_SCHEMA) + NotesOfAll([]);
    assert NotesOfAll(pair) == Notes(Inner(p)) + NotesOfAll(pair[1..]);
    assert OwnNotes(Inner(p)) == OwnNotes(p);
    assert Notes(Inner(p)) == Notes(p);
    assert OwnNotes(MakeNullable(p)) == [];
  }

  lemma DescriptionStays(s: Schema)
    ensures Strict(s).description == s.description
  {
  }

  /**
   The rewritten property keeps the author's text and the notes already there, and says the notes of its schema
   and, when it was optional and may now be null, that null leaves it out.
   */
  lemma DescriptionIsKept(required: seq<string>, p: Property)
    ensures var t := StrictProperty(required, p).schema;
            && Words(t).text == Words(p.schema).text
            && Words(t).notes == Words(p.schema).notes + Notes(p.schema)
                                 + (if p.name !in required && Nullable(t) then [PassNull] else [])
  {
    var q := Prepared(p.schema);
    if NeedsNull(p.schema) {
      NotesOfWrapped(p.schema);
    }
    DescriptionStays(q);
    var added := PropertyNotes(required, p, Strict(q));
    assert Words(p.schema).notes + added
           == Words(p.schema).notes + Notes(p.schema)
              + (if p.name !in required && Nullable(Strict(q)) then [PassNull] else []);
  }

  // ---- The hint to pass null --------------------------------------------------------------------------

  ghost predicate Hinted(notes: seq<Note>) {
    exists i :: 0 <= i < |notes| && notes[i] == PassNull
  }

  lemma {:induction false} NodesDoNotHint(s: Schema)
    ensures !Hinted(Notes(s))
    decreases s, 0
  {
    BranchesDoNotHint(s.anyOf);
    if s.items.Some? {
      ItemsDoNotHint(Notes(s.items.value));
    }
  }

  lemma {:induction false} BranchesDoNotHint(branches: seq<Schema>)
    ensures !Hinted(NotesOfAll(branches))
    decreases branches
  {
    if branches != [] {
      NodesDoNotHint(branches[0]);
      BranchesDoNotHint(branches[1..]);
    }
  }

  lemma {:induction false} ItemsDoNotHint(notes: seq<Note>)
    ensures !Hinted(EachItemOf(notes))
  {
    if notes != [] {
      ItemsDoNotHint(notes[1..]);
    }
  }

  /**
   Whether a property may be null is stated where the rewrite looks for it: by its type or by the type of one of its
   branches, and the remaining keywords do not forbid what the type allows.
   */
  ghost predicate StatesNull(x: Remaining, q: Schema) {
    && (q.anyOf == [] <==> q.ty.Some?)
    && (forall i :: 0 <= i < |q.anyOf| ==> q.anyOf[i].ty.Some?)
    && (Nullable(q) ==> x(q.rest, JNull))
    && (forall i :: 0 <= i < |q.anyOf| && q.anyOf[i].ty == Some(TNull) ==>
                      q.anyOf[i].anyOf == [] && x(q.anyOf[i].rest, JNull))
  }

  lemma NullableMeansNull(x: Remaining, q: Schema)
    requires StatesNull(x, q)
    ensures Accepts(AsWritten, x, Strict(q), JNull) <==> Nullable(Strict(q))
  {
    var t := Strict(q);
    forall i | 0 <= i < |q.anyOf|
      ensures t.anyOf[i].ty == q.anyOf[i].ty
      ensures Accepts(AsWritten, x, t.anyOf[i], JNull) <==> t.anyOf[i].ty == Some(TNull)
    {
      StrictAllAt(q.anyOf, i);
    }
  }

  /**
   What the rewrite adds to a property's description ends with the hint to pass null exactly when the property was
   not required and null is valid for it afterwards.
   */
  lemma NullIsHintedExactlyWhen(x: Remaining, required: seq<string>, p: Property)
    requires Neutral(x) && (NeedsNull(p.schema) || StatesNull(x, p.schema))
    requires !Hinted(Words(p.schema).notes)
    ensures var t := StrictProperty(required, p).schema;
            Hinted(Words(t).notes) <==> p.name !in required && Accepts(AsWritten, x, t, JNull)
    ensures var t := StrictProperty(required, p).schema;
            Hinted(Words(t).notes) ==> Words(t).notes[|Words(t).notes| - 1] == PassNull
  {
    var t := StrictProperty(required, p).schema;
    var q := Prepared(p.schema);
    DescriptionIsKept(required, p);
    NodesDoNotHint(p.schema);
    DescriptionIsSilent(AsWritten, x, Strict(q), PropertyNotes(required, p, Strict(q)), JNull);
    if NeedsNull(p.schema) {
      StrictWrapper(p.schema);
      StrictPropertyMeans(x, required, p, JNull);
      assert t.anyOf[1].ty == Some(TNull);
    } else {
      NullableMeansNull(x, q);
    }
    var front := Words(p.schema).notes + Notes(p.schema);
    assert !Hinted(front);
    assert Words(t).notes == front + (if p.name !in required && Nullable(t) then [PassNull] else []);
    if p.name !in required && Nullable(t) {
      assert Words(t).notes[|front|] == PassNull;
    }
  }

  // ---- Defaults ---------------------------------------------------------------------------------------

  /** The node, or one of its branches, has this default, and it is not null. */
  ghost predicate HasDefault(s: Schema, d: Json)
    decreases s
  {
    (s.default == Some(d) && d != JNull) || exists i :: 0 <= i < |s.anyOf| && HasDefault(s.anyOf[i], d)
  }

  /** A default is told, with its value, exactly when the node or a branch has it. */
  lemma {:induction false} DefaultIsToldExactlyWhen(s: Schema, d: Json)
    ensures Default(d) in Notes(s) <==> HasDefault(s, d)
    decreases s, 0
  {
    BranchDefaults(s.anyOf, d);
    if s.items.Some? {
      ItemsSayEach(Notes(s.items.value), d);
    }
  }

  lemma {:induction false} BranchDefaults(branches: seq<Schema>, d: Json)
    ensures Default(d) in NotesOfAll(branches) <==> exists i :: 0 <= i < |branches| && HasDefault(branches[i], d)
    decreases branches
  {
    if branches != [] {
      DefaultIsToldExactlyWhen(branches[0], d);
      BranchDefaults(branches[1..], d);
      assert forall i :: 1 <= i < |branches| ==> branches[i] == branches[1..][i - 1];
    }
  }

  lemma {:induction false} ItemsSayEach(notes: seq<Note>, d: Json)
    ensures Default(d) !in EachItemOf(notes)
  {
    if notes != [] {
      ItemsSayEach(notes[1..], d);
    }
  }

  // ---- The descriptions say all that was taken out ----------------------------------------------------

  predicate Possible(s: Schema, v: Json) {
    s.ty.Some? ==> HasType(s.ty.value, v)
  }

  /**
   The value respects the notes in the descriptions of a rewritten document: of each declared key it has, at every
   depth, and within `anyOf` as far as a branch's type admits the value.
   */
  ghost predicate Heeds(t: Schema, v: Json)
    decreases t
  {
    && (forall i :: 0 <= i < |t.anyOf| && Possible(t.anyOf[i], v) ==> Heeds(t.anyOf[i], v))
    && (t.items.Some? && v.JArr? ==> forall i :: 0 <= i < |v.elements| ==> Heeds(t.items.value, v.elements[i]))
    && (v.JObj? ==> HeedsProperties(t.properties, v.fields))
  }

  ghost predicate HeedsProperties(ps: Properties, fields: map<string, Json>)
    decreases ps
  {
    ps.Declared? ==> forall i :: 0 <= i < |ps.all| ==> HeedsProperty(ps.all[i], fields)
  }

  ghost predicate HeedsProperty(p: Property, fields: map<string, Json>)
    decreases p
  {
    p.name in fields ==> AllHold(Words(p.schema).notes, fields[p.name]) && Heeds(p.schema, fields[p.name])
  }

  /** A branch whose keywords are about values of its own type only. */
  ghost predicate Typed(s: Schema) {
    && s.anyOf == [] && s.ty.Some?
    && (s.minLength.Some? || s.maxLength.Some? ==> s.ty == Some(TString))
    && (s.items.Some? ==> s.ty == Some(TArray))
  }

  /**
   Documents whose bounds prose can carry: the branches of an `anyOf` are of different types, and no description
   brings notes of its own.
   */
  ghost predicate Tellable(s: Schema)
    decreases s
  {
    && (forall i :: 0 <= i < |s.anyOf| ==> Typed(s.anyOf[i]) && Tellable(s.anyOf[i]))
    && (forall i, j :: 0 <= i < j < |s.anyOf| ==> s.anyOf[i].ty != s.anyOf[j].ty)
    && (s.items.Some? ==> Tellable(s.items.value))
    && (s.properties.Declared? ==> TellableProperties(s.properties))
  }

  ghost predicate TellableProperties(ps: Properties)
    requires ps.Declared?
    decreases ps
  {
    forall i :: 0 <= i < |ps.all| ==> Words(ps.all[i].schema).notes == [] && Tellable(ps.all[i].schema)
  }

  lemma {:induction false} ScalarsHeed(t: Schema, v: Json)
    requires !v.JArr? && !v.JObj?
    ensures Heeds(t, v)
    decreases t
  {
    forall i | 0 <= i < |t.anyOf| ensures Heeds(t.anyOf[i], v) {
      ScalarsHeed(t.anyOf[i], v);
    }
  }

  lemma {:induction false} NotesAreOfTextAndLists(s: Schema, v: Json)
    requires !v.JArr? && !v.JStr?
    ensures AllHold(Notes(s), v)
    decreases s
  {
    forall i | 0 <= i < |s.anyOf| ensures AllHold(Notes(s.anyOf[i]), v) {
      NotesAreOfTextAndLists(s.anyOf[i], v);
    }
    NotesHold(s, v);
  }

  /** A branch of another type neither says anything about the value nor is asked about it. */
  lemma ForeignBranch(s: Schema, own: Schema, v: Json)
    requires Typed(s) && own.ty.Some? && s.ty != own.ty && HasType(own.ty.value, v)
    ensures AllHold(Notes(s), v)
    ensures Possible(Strict(s), v) ==> Heeds(Strict(s), v)
  {
    NotesHold(s, v);
    if Possible(Strict(s), v) {
      ScalarsHeed(Strict(s), v);
    }
  }

  lemma {:induction false} BoundsOnlyRestrict(x: Remaining, s: Schema, v: Json)
    requires Accepts(AsWritten, x, s, v)
    ensures Accepts(WithoutBounds, x, s, v)
    decreases s
  {
    if s.anyOf != [] {
      var i :| 0 <= i < |s.anyOf| && Accepts(AsWritten, x, s.anyOf[i], v);
      BoundsOnlyRestrict(x, s.anyOf[i], v);
    }
    if v.JArr? && s.items.Some? {
      forall i | 0 <= i < |v.elements| ensures Accepts(WithoutBounds, x, s.items.value, v.elements[i]) {
        BoundsOnlyRestrict(x, s.items.value, v.elements[i]);
      }
    }
    if v.JObj? && s.properties.Declared? {
      var ps := s.properties.all;
      forall i | 0 <= i < |ps| ensures PropertyAccepts(WithoutBounds, x, ps[i], v.fields) {
        assert PropertyAccepts(AsWritten, x, ps[i], v.fields);
        if ps[i].name in v.fields {
          BoundsOnlyRestrict(x, ps[i].schema, v.fields[ps[i].name]);
        }
      }
    }
  }

  lemma DescriptionsAreReadApart(t: Schema, notes: seq<Note>, w: Json)
    ensures Heeds(Describe(t, notes), w) <==> Heeds(t, w)
  {
  }

  lemma HintForbidsNothing(notes: seq<Note>, hinted: bool, w: Json)
    ensures AllHold(notes + (if hinted then [PassNull] else []), w) <==> AllHold(notes, w)
  {
    var hint: seq<Note> := if hinted then [PassNull] else [];
    AllHoldOfBoth(notes, hint, w);
    assert forall i :: 0 <= i < |hint| ==> hint[i] == PassNull;
  }

  lemma RewrittenNotesHold(required: seq<string>, p: Property, w: Json)
    requires Words(p.schema).notes == []
    ensures AllHold(Words(StrictProperty(required, p).schema).notes, w) <==> AllHold(Notes(p.schema), w)
  {
    DescriptionIsKept(required, p);
    HintForbidsNothing(Notes(p.schema), p.name !in required && Nullable(StrictProperty(required, p).schema), w);
    assert [] + Notes(p.schema) == Notes(p.schema);
  }

  lemma HeedsAsRewritten(required: seq<string>, p: Property, fields: map<string, Json>)
    requires Words(p.schema).notes == []
    requires p.name in fields && Possible(p.schema, fields[p.name])
    ensures HeedsProperty(StrictProperty(required, p), fields) <==>
            AllHold(Notes(p.schema), fields[p.name]) && Heeds(Strict(p.schema), fields[p.name])
  {
    var w, strict := fields[p.name], Strict(Prepared(p.schema));
    RewrittenNotesHold(required, p, w);
    HeedsWrapped(p.schema, w);
    DescriptionsAreReadApart(strict, PropertyNotes(required, p, strict), w);
  }

  lemma HeedsWrapped(p: Schema, w: Json)
    requires Possible(p, w)
    ensures Heeds(Strict(Prepared(p)), w) <==> Heeds(Strict(p), w)
  {
    if NeedsNull(p) {
      StrictWrapper(p);
      InnerHeeds(p, w);
      PairHeeds(Strict(MakeNullable(p)), w);
      assert Heeds(NULL_SCHEMA, w) && Strict(NULL_SCHEMA) == NULL_SCHEMA;
    }
  }

  lemma InnerHeeds(p: Schema, w: Json)
    ensures Heeds(Strict(Inner(p)), w) <==> Heeds(Strict(p), w)
    ensures Possible(Strict(Inner(p)), w) <==> Possible(p, w)
  {
  }

  lemma PairHeeds(t: Schema, w: Json)
    requires |t.anyOf| == 2 && t.(description := None) == EMPTY.(anyOf := t.anyOf)
    ensures Heeds(t, w) <==>
            && (Possible(t.anyOf[0], w) ==> Heeds(t.anyOf[0], w))
            && (Possible(t.anyOf[1], w) ==> Heeds(t.anyOf[1], w))
  {
  }

  lemma LeafTells(x: Remaining, s: Schema, v: Json)
    requires LeafAccepts(WithoutBounds, x, s, v)
    ensures LeafAccepts(AsWritten, x, s, v) <==> (v.JStr? ==> LengthOk(s, v.s))
  {
  }

  lemma KeysAreUntouched(s: Schema, keys: set<string>)
    ensures KeysOk(AsWritten, s, keys) <==> KeysOk(WithoutBounds, s, keys)
  {
  }

  ghost predicate ItemsAccept(reading: Reading, x: Remaining, s: Schema, v: Json) {
    s.items.Some? && v.JArr? ==> forall i :: 0 <= i < |v.elements| ==> Accepts(reading, x, s.items.value, v.elements[i])
  }

  ghost predicate ItemsHeed(s: Schema, v: Json) {
    s.items.Some? && v.JArr? ==> forall i :: 0 <= i < |v.elements| ==> Heeds(Strict(s.items.value), v.elements[i])
  }

  lemma AcceptsByParts(reading: Reading, x: Remaining, s: Schema, v: Json)
    ensures Accepts(reading, x, s, v) <==>
            && LeafAccepts(reading, x, s, v) && BranchAccepts(reading, x, s.anyOf, v) && ItemsAccept(reading, x, s, v)
            && (v.JObj? ==> KeysOk(reading, s, v.fields.Keys) && PropertiesAccept(reading, x, s.properties, v.fields))
  {
  }

  ghost predicate BranchesPossiblyHeed(s: Schema, v: Json) {
    forall i :: 0 <= i < |s.anyOf| && Possible(Strict(s.anyOf[i]), v) ==> Heeds(Strict(s.anyOf[i]), v)
  }

  lemma HeedsByParts(s: Schema, v: Json)
    ensures Heeds(Strict(s), v) <==>
            && BranchesPossiblyHeed(s, v) && ItemsHeed(s, v)
            && (v.JObj? ==> HeedsProperties(Strict(s).properties, v.fields))
  {
    var t := Strict(s);
    forall i | 0 <= i < |s.anyOf| ensures t.anyOf[i] == Strict(s.anyOf[i]) {
      StrictAllAt(s.anyOf, i);
    }
    if BranchesPossiblyHeed(s, v) {
      forall i | 0 <= i < |t.anyOf| && Possible(t.anyOf[i], v) ensures Heeds(t.anyOf[i], v) {
        assert Possible(Strict(s.anyOf[i]), v);
      }
    }
    if Heeds(t, v) {
      forall i | 0 <= i < |s.anyOf| && Possible(Strict(s.anyOf[i]), v) ensures Heeds(Strict(s.anyOf[i]), v) {
        assert Possible(t.anyOf[i], v);
      }
    }
  }

  /** Among the values valid but for their length, the notes and descriptions single out the valid ones. */
  lemma {:induction false} NotesTellTheBounds(x: Remaining, s: Schema, v: Json)
    requires Tellable(s) && Accepts(WithoutBounds, x, s, v)
    ensures Accepts(AsWritten, x, s, v) <==> AllHold(Notes(s), v) && Heeds(Strict(s), v)
    decreases s, 1
  {
    AcceptsByParts(AsWritten, x, s, v);
    NotesHold(s, v);
    HeedsByParts(s, v);
    LeafTells(x, s, v);
    BranchesTell(x, s, v);
    ItemsTell(x, s, v);
    if v.JObj? {
      KeysAreUntouched(s, v.fields.Keys);
      if s.properties.Declared? {
        PropertiesTell(x, s, v);
      }
    }
  }

  lemma {:induction false} ItemsTell(x: Remaining, s: Schema, v: Json)
    requires Tellable(s) && Accepts(WithoutBounds, x, s, v)
    ensures ItemsAccept(AsWritten, x, s, v) <==> ItemNotesHold(s, v) && ItemsHeed(s, v)
    decreases s, 0
  {
    if s.items.Some? && v.JArr? {
      forall i | 0 <= i < |v.elements|
        ensures Accepts(AsWritten, x, s.items.value, v.elements[i]) <==>
                AllHold(Notes(s.items.value), v.elements[i]) && Heeds(Strict(s.items.value), v.elements[i])
      {
        NotesTellTheBounds(x, s.items.value, v.elements[i]);
      }
    }
  }

  ghost predicate BranchesHeed(s: Schema, v: Json) {
    (forall i :: 0 <= i < |s.anyOf| ==> AllHold(Notes(s.anyOf[i]), v)) && BranchesPossiblyHeed(s, v)
  }

  lemma OthersHeed(s: Schema, k: nat, v: Json)
    requires Tellable(s) && k < |s.anyOf| && HasType(s.anyOf[k].ty.value, v)
    requires AllHold(Notes(s.anyOf[k]), v) && Heeds(Strict(s.anyOf[k]), v)
    ensures BranchesHeed(s, v)
  {
    forall i | 0 <= i < |s.anyOf|
      ensures AllHold(Notes(s.anyOf[i]), v)
      ensures Possible(Strict(s.anyOf[i]), v) ==> Heeds(Strict(s.anyOf[i]), v)
    {
      if i != k {
        ForeignBranch(s.anyOf[i], s.anyOf[k], v);
      }
    }
  }

  lemma TypeAdmits(x: Remaining, s: Schema, v: Json)
    requires Accepts(WithoutBounds, x, s, v)
    ensures Possible(s, v) && Possible(Strict(s), v)
  {
  }

  lemma {:induction false} BranchesTell(x: Remaining, s: Schema, v: Json)
    requires Tellable(s) && Accepts(WithoutBounds, x, s, v)
    ensures BranchAccepts(AsWritten, x, s.anyOf, v) <==> BranchesHeed(s, v)
    decreases s, 0
  {
    if s.anyOf != [] {
      if BranchAccepts(AsWritten, x, s.anyOf, v) {
        var k :| 0 <= k < |s.anyOf| && Accepts(AsWritten, x, s.anyOf[k], v);
        BoundsOnlyRestrict(x, s.anyOf[k], v);
        TypeAdmits(x, s.anyOf[k], v);
        NotesTellTheBounds(x, s.anyOf[k], v);
        OthersHeed(s, k, v);
      } else {
        var j :| 0 <= j < |s.anyOf| && Accepts(WithoutBounds, x, s.anyOf[j], v);
        TypeAdmits(x, s.anyOf[j], v);
        NotesTellTheBounds(x, s.anyOf[j], v);
        assert !Accepts(AsWritten, x, s.anyOf[j], v);
      }
    }
  }

  lemma {:induction false} PropertiesTell(x: Remaining, s: Schema, v: Json)
    requires Tellable(s) && Accepts(WithoutBounds, x, s, v) && v.JObj? && s.properties.Declared?
    ensures PropertiesAccept(AsWritten, x, s.properties, v.fields) <==>
            HeedsProperties(Strict(s).properties, v.fields)
    decreases s, 0
  {
    var ps, t := s.properties.all, Strict(s).properties.all;
    forall i | 0 <= i < |ps|
      ensures PropertyAccepts(AsWritten, x, ps[i], v.fields) <==> HeedsProperty(t[i], v.fields)
    {
      StrictPropertiesAt(s.required, ps, i);
      assert PropertyAccepts(WithoutBounds, x, ps[i], v.fields);
      if ps[i].name in v.fields {
        NotesTellTheBounds(x, ps[i].schema, v.fields[ps[i].name]);
        HeedsAsRewritten(s.required, ps[i], v.fields);
      }
    }
  }

  /**
   Nothing is lost in the rewrite: an object of arguments is valid for the original document exactly when it is valid
   but for the lengths and heeds every description of the rewritten one.
   */
  lemma DescriptionsTellTheBounds(x: Remaining, s: Schema, v: Json)
    requires Tellable(s) && v.JObj?
    ensures Accepts(AsWritten, x, s, v) <==> Accepts(WithoutBounds, x, s, v) && Heeds(Strict(s), v)
  {
    if Accepts(AsWritten, x, s, v) {
      BoundsOnlyRestrict(x, s, v);
    }
    NotesAreOfTextAndLists(s, v);
    if Accepts(WithoutBounds, x, s, v) {
      NotesTellTheBounds(x, s, v);
    }
  }

  /** Two branches of one type, an empty string or a longer one. */
  const TWO_STRINGS := EMPTY.(
    anyOf := [EMPTY.(ty := Some(TString), maxLength := Some(0)), EMPTY.(ty := Some(TString), minLength := Some(1))])

  /** Branches of one type are told as if all of them applied: every string is valid, and none heeds the notes. */
  lemma BranchesOfOneTypeOverstate(x: Remaining, text: string)
    requires Neutral(x)
    ensures Accepts(AsWritten, x, TWO_STRINGS, JStr(text)) && !AllHold(Notes(TWO_STRINGS), JStr(text))
  {
    var v := JStr(text);
    assert Accepts(AsWritten, x, TWO_STRINGS.anyOf[if text == "" then 0 else 1], v);
    NotesHold(TWO_STRINGS, v);
    NotesHold(TWO_STRINGS.anyOf[0], v);
    NotesHold(TWO_STRINGS.anyOf[1], v);
  }
}
