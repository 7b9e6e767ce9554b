/**
 The strict-mode rewrite of a tool's JSON Schema (app/core/tool_schema.py).

 `Strict` and `Notes` say what the in-place rewrite leaves behind and what it appends; `Strictify` is the
 recursive procedure with its loops, proved to produce exactly those. A note is kept as data (which bound,
 which default), not as the English sentence it is rendered to.
 */
module ToolSchema {
  import opened Wrappers

  datatype Json =
    | JNull | JBool(b: bool) | JInt(i: int) | JReal(r: real) | JStr(s: string)
    | JArr(elements: seq<Json>) | JObj(fields: map<string, Json>)

  datatype TypeName = TNull | TBoolean | TInteger | TNumber | TString | TArray | TObject

  datatype Note = AtLeast(n: nat) | AtMost(n: nat) | Default(value: Json) | EachItem(note: Note) | PassNull

  /** The author's words followed by the notes folded into them. */
  datatype Description = Description(text: string, notes: seq<Note>)

  datatype Property = Property(name: string, schema: Schema)

  datatype Properties = Undeclared | Declared(all: seq<Property>)

  /**
   One schema node, keyword by keyword. An absent `anyOf` or `required` is an empty list, which is how the
   source reads it; `rest` holds every keyword the rewrite neither reads nor writes (enum, pattern, ...).
   */
  datatype Schema = Schema(
    ty: Option<TypeName>,
    minLength: Option<nat>,
    maxLength: Option<nat>,
    default: Option<Json>,
    description: Option<Description>,
    anyOf: seq<Schema>,
    items: Option<Schema>,
    properties: Properties,
    required: seq<string>,
    closed: bool,
    rest: map<string, Json>)

  const EMPTY := Schema(None, None, None, None, None, [], None, Undeclared, [], false, map[])
  const NULL_SCHEMA := EMPTY.(ty := Some(TNull))

  // ---- The rewrite ------------------------------------------------------------------------------------

  predicate Nullable(p: Schema) {
    p.ty == Some(TNull) || exists i :: 0 <= i < |p.anyOf| && p.anyOf[i].ty == Some(TNull)
  }

  /** The property's only optionality is a null default. */
  predicate NeedsNull(p: Schema) {
    p.default == Some(JNull) && !Nullable(p)
  }

  function Inner(p: Schema): Schema {
    p.(description := None, default := None)
  }

  function MakeNullable(p: Schema): Schema {
    EMPTY.(
      anyOf := [Inner(p), NULL_SCHEMA],
      description := if p.description == Some(Description("", [])) then None else p.description)
  }

  /** What `_strictify` is applied to for a property. */
  function Prepared(p: Schema): Schema {
    if NeedsNull(p) then MakeNullable(p) else p
  }

  function Names(ps: seq<Property>): (names: seq<string>)
    ensures |names| == |ps| && forall i :: 0 <= i < |ps| ==> names[i] == ps[i].name
  {
    if ps == [] then [] else [ps[0].name] + Names(ps[1..])
  }

  function OwnNotes(s: Schema): seq<Note> {
    (if s.minLength.Some? then [AtLeast(s.minLength.value)] else [])
    + (if s.maxLength.Some? then [AtMost(s.maxLength.value)] else [])
    + (if s.default.Some? && s.default.value != JNull then [Default(s.default.value)] else [])
  }

  function EachItemOf(notes: seq<Note>): (r: seq<Note>)
    ensures |r| == |notes|
  {
    if notes == [] then [] else [EachItem(notes[0])] + EachItemOf(notes[1..])
  }

  function Notes(s: Schema): seq<Note>
    decreases s, 0
  {
    OwnNotes(s) + NotesOfAll(s.anyOf) + (if s.items.Some? then EachItemOf(Notes(s.items.value)) else [])
  }

  function NotesOfAll(ss: seq<Schema>): seq<Note>
    decreases ss
  {
    if ss == [] then [] else Notes(ss[0]) + NotesOfAll(ss[1..])
  }

  /** The notes of a property, `strict` being its rewritten schema. */
  function PropertyNotes(required: seq<string>, p: Property, strict: Schema): seq<Note> {
    Notes(Prepared(p.schema)) + if p.name !in required && Nullable(strict) then [PassNull] else []
  }

  function Describe(s: Schema, notes: seq<Note>): Schema {
    if notes == [] then s
    else
      var d := if s.description.Some? then s.description.value else Description("", []);
      s.(description := Some(Description(d.text, d.notes + notes)))
  }

  /** A default weighs more than the wrapper that replaces it, so wrapping a property does not enlarge it. */
  function Size(s: Schema): (n: nat)
    ensures n >= 1
    decreases s
  {
    (if s.default.Some? then 3 else 1) + SizeOfAll(s.anyOf)
    + (if s.items.Some? then Size(s.items.value) else 0)
    + (if s.properties.Declared? then SizeOfProperties(s.properties.all) else 0)
  }

  function SizeOfAll(ss: seq<Schema>): nat
    decreases ss
  {
    if ss == [] then 0 else Size(ss[0]) + SizeOfAll(ss[1..])
  }

  function SizeOfProperties(ps: seq<Property>): nat
    decreases ps
  {
    if ps == [] then 0 else Size(ps[0].schema) + SizeOfProperties(ps[1..])
  }

  /** The rewrite terminates although it enlarges the property first. */
  lemma PreparedIsNoLarger(p: Schema)
    ensures Size(Prepared(p)) <= Size(p)
    ensures NeedsNull(p) ==> Size(Inner(p)) < Size(p)
  {
    if NeedsNull(p) {
      var pair := [Inner(p), NULL_SCHEMA];
      assert pair[1..] == [NULL_SCHEMA] && pair[1..][1..] == [];
      assert SizeOfAll(pair) == Size(Inner(p)) + (Size(NULL_SCHEMA) + 0);
    }
  }

  function Strict(s: Schema): Schema
    decreases Size(s), 0
  {
    s.(minLength := None, maxLength := None, default := None,
       anyOf := StrictAll(s.anyOf),
       items := if s.items.Some? then Some(Strict(s.items.value)) else None,
       properties :=
         if s.properties.Declared? then Declared(StrictProperties(s.required, s.properties.all)) else Undeclared,
       required := if s.properties.Declared? then Names(s.properties.all) else s.required,
       closed := s.properties.Declared? || s.closed)
  }

  function StrictAll(ss: seq<Schema>): (r: seq<Schema>)
    ensures |r| == |ss|
    decreases SizeOfAll(ss), 1
  {
    if ss == [] then [] else [Strict(ss[0])] + StrictAll(ss[1..])
  }

  function StrictProperty(required: seq<string>, p: Property): Property
    decreases Size(p.schema), 1
  {
    PreparedIsNoLarger(p.schema);
    var strict := Strict(Prepared(p.schema));
    p.(schema := Describe(strict, PropertyNotes(required, p, strict)))
  }

  function StrictProperties(required: seq<string>, ps: seq<Property>): (r: seq<Property>)
    ensures |r| == |ps|
    decreases SizeOfProperties(ps), 2
  {
    if ps == [] then [] else [StrictProperty(required, ps[0])] + StrictProperties(required, ps[1..])
  }

  lemma StrictPropertyShape(required: seq<string>, p: Property)
    ensures StrictProperty(required, p).schema.(description := None) == Strict(Prepared(p.schema)).(description := None)
  {
  }

  /**
   A property gets a null branch around it exactly when it has a null default and states null nowhere; any other
   property, one that may be null already included, keeps its shape.
   */
  lemma WrappedExactlyWhen(required: seq<string>, p: Property)
    ensures var t := StrictProperty(required, p).schema.(description := None);
            if p.schema.default == Some(JNull) && !Nullable(p.schema)
            then t == EMPTY.(anyOf := [Strict(p.schema).(description := None), NULL_SCHEMA]) != Strict(p.schema)
            else t == Strict(p.schema).(description := None)
  {
    StrictPropertyShape(required, p);
    if NeedsNull(p.schema) {
      StrictAllAt([Inner(p.schema), NULL_SCHEMA], 0);
      StrictAllAt([Inner(p.schema), NULL_SCHEMA], 1);
      assert Strict(NULL_SCHEMA) == NULL_SCHEMA;
      if |p.schema.anyOf| == 2 {
        StrictAllAt(p.schema.anyOf, 1);
      }
    }
  }

  lemma {:induction false} StrictAllAt(ss: seq<Schema>, i: nat)
    requires i < |ss|
    ensures StrictAll(ss)[i] == Strict(ss[i]) && Size(ss[i]) <= SizeOfAll(ss)
  {
    if i > 0 {
      StrictAllAt(ss[1..], i - 1);
    }
  }

  lemma {:induction false} StrictPropertiesAt(required: seq<string>, ps: seq<Property>, i: nat)
    requires i < |ps|
    ensures StrictProperties(required, ps)[i] == StrictProperty(required, ps[i])
            && Size(ps[i].schema) <= SizeOfProperties(ps)
  {
    if i > 0 {
      StrictPropertiesAt(required, ps[1..], i - 1);
    }
  }

  // ---- Normal form ------------------------------------------------------------------------------------

  /** What strict mode wants of every node reached through properties, items and anyOf. */
  ghost predicate NormalForm(s: Schema)
    decreases s
  {
    && s.minLength.None? && s.maxLength.None? && s.default.None?
    && (forall i :: 0 <= i < |s.anyOf| ==> NormalForm(s.anyOf[i]))
    && (s.items.Some? ==> NormalForm(s.items.value))
    && (s.properties.Declared? ==>
          && s.closed && s.required == Names(s.properties.all)
          && forall i :: 0 <= i < |s.properties.all| ==> NormalForm(s.properties.all[i].schema))
  }

  lemma {:induction false} StrictIsNormal(s: Schema)
    ensures NormalForm(Strict(s))
    decreases Size(s)
  {
    var t := Strict(s);
    forall i | 0 <= i < |s.anyOf| ensures NormalForm(t.anyOf[i]) {
      StrictAllAt(s.anyOf, i);
      StrictIsNormal(s.anyOf[i]);
    }
    if s.items.Some? {
      StrictIsNormal(s.items.value);
    }
    if s.properties.Declared? {
      var ps := s.properties.all;
      forall i | 0 <= i < |ps| ensures NormalForm(t.properties.all[i].schema) {
        StrictPropertiesAt(s.required, ps, i);
        PreparedIsNoLarger(ps[i].schema);
        StrictIsNormal(Prepared(ps[i].schema));
      }
      assert t.required == Names(t.properties.all) by {
        forall i | 0 <= i < |ps| ensures t.properties.all[i].name == ps[i].name {
          StrictPropertiesAt(s.required, ps, i);
        }
      }
    }
  }

  lemma {:induction false} NormalHasNoNotes(s: Schema)
    requires NormalForm(s)
    ensures Notes(s) == []
    decreases s, 0
  {
    NoNotesOfAll(s.anyOf);
    if s.items.Some? {
      NormalHasNoNotes(s.items.value);
    }
  }

  lemma {:induction false} NoNotesOfAll(ss: seq<Schema>)
    requires forall i :: 0 <= i < |ss| ==> NormalForm(ss[i])
    ensures NotesOfAll(ss) == []
    decreases ss
  {
    if ss != [] {
      NormalHasNoNotes(ss[0]);
      NoNotesOfAll(ss[1..]);
    }
  }

  lemma {:induction false} NormalIsFixed(s: Schema)
    requires NormalForm(s)
    ensures Strict(s) == s
    decreases Size(s)
  {
    var t := Strict(s);
    assert t.anyOf == s.anyOf by {
      forall i | 0 <= i < |s.anyOf| ensures t.anyOf[i] == s.anyOf[i] {
        StrictAllAt(s.anyOf, i);
        NormalIsFixed(s.anyOf[i]);
      }
    }
    if s.items.Some? {
      NormalIsFixed(s.items.value);
    }
    if s.properties.Declared? {
      var ps := s.properties.all;
      assert t.properties.all == ps by {
        forall i | 0 <= i < |ps| ensures t.properties.all[i] == ps[i] {
          StrictPropertiesAt(s.required, ps, i);
          NormalIsFixed(ps[i].schema);
          NormalHasNoNotes(ps[i].schema);
          assert Names(ps)[i] == ps[i].name;
        }
      }
    }
  }

  /** A second pass changes nothing and has nothing left to tell. */
  lemma StrictIsIdempotent(s: Schema)
    ensures Strict(Strict(s)) == Strict(s) && Notes(Strict(s)) == []
  {
    StrictIsNormal(s);
    NormalIsFixed(Strict(s));
    NormalHasNoNotes(Strict(s));
  }

  // ---- The procedure ----------------------------------------------------------------------------------

  /** The keywords that become prose are removed and told. */
  method TakeBounds(schema: Schema, notes: seq<Note>) returns (out: Schema, told: seq<Note>)
    ensures out == schema.(minLength := None, maxLength := None, default := None)
    ensures told == notes + OwnNotes(schema)
  {
    out, told := schema, notes;
    if out.minLength.Some? {
      told, out := told + [AtLeast(out.minLength.value)], out.(minLength := None);
    }
    if out.maxLength.Some? {
      told, out := told + [AtMost(out.maxLength.value)], out.(maxLength := None);
    }
    if out.default.Some? && out.default.value != JNull {
      told := told + [Default(out.default.value)];
    }
    out := out.(default := None);
  }

  method StrictifyBranches(branches: seq<Schema>, notes: seq<Note>) returns (out: seq<Schema>, told: seq<Note>)
    ensures out == StrictAll(branches) && told == notes + NotesOfAll(branches)
    decreases SizeOfAll(branches), 1
  {
    out, told := [], notes;
    for i := 0 to |branches|
      invariant out == StrictAll(branches)[..i]
      invariant told + NotesOfAll(branches[i..]) == notes + NotesOfAll(branches)
    {
      StrictAllAt(branches, i);
      var branch;
      branch, told := Strictify(branches[i], told);
      out := out + [branch];
      assert branches[i..][1..] == branches[i + 1..];
    }
    assert branches[|branches|..] == [];
  }

  method StrictifyProperties(required: seq<string>, ps: seq<Property>) returns (out: seq<Property>)
    ensures out == StrictProperties(required, ps)
    decreases SizeOfProperties(ps), 1
  {
    out := [];
    for i := 0 to |ps|
      invariant out == StrictProperties(required, ps)[..i]
    {
      StrictPropertiesAt(required, ps, i);
      PreparedIsNoLarger(ps[i].schema);
      var strict, notes := Strictify(Prepared(ps[i].schema), []);
      assert notes == Notes(Prepared(ps[i].schema));
      if ps[i].name !in required && Nullable(strict) {
        notes := notes + [PassNull];
      }
      assert notes == PropertyNotes(required, ps[i], strict);
      out := out + [ps[i].(schema := Describe(strict, notes))];
    }
  }

  /** `_strictify`: rewrites the node keyword by keyword, appending to the caller's notes as it goes. */
  method Strictify(schema: Schema, notes: seq<Note>) returns (out: Schema, told: seq<Note>)
    ensures out == Strict(schema) && told == notes + Notes(schema)
    decreases Size(schema), 0
  {
    out, told := TakeBounds(schema, notes);
    var branches;
    branches, told := StrictifyBranches(schema.anyOf, told);
    assert told == notes + (OwnNotes(schema) + NotesOfAll(schema.anyOf));
    out := out.(anyOf := branches);
    if schema.items.Some? {
      var item, itemNotes := Strictify(schema.items.value, []);
      assert itemNotes == Notes(schema.items.value);
      out, told := out.(items := Some(item)), told + EachItemOf(itemNotes);
    }
    if schema.properties.Declared? {
      var ps := StrictifyProperties(schema.required, schema.properties.all);
      out := out.(properties := Declared(ps), required := Names(schema.properties.all), closed := true);
    }
  }

  // ---- What a schema means ----------------------------------------------------------------------------

  /** What the keywords in `rest` (enum, pattern, minItems, ...) say of a value. */
  type Remaining = (map<string, Json>, Json) -> bool

  /** No keywords, no constraint. */
  ghost predicate Neutral(x: Remaining) {
    forall v :: x(map[], v)
  }

  predicate HasType(t: TypeName, v: Json) {
    match t
    case TNull => v.JNull?
    case TBoolean => v.JBool?
    case TInteger => v.JInt? || (v.JReal? && v.r.Floor as real == v.r)
    case TNumber => v.JInt? || v.JReal?
    case TString => v.JStr?
    case TArray => v.JArr?
    case TObject => v.JObj?
  }

  predicate LengthOk(s: Schema, text: string) {
    && (s.minLength.Some? ==> s.minLength.value <= |text|)
    && (s.maxLength.Some? ==> |text| <= s.maxLength.value)
  }

  /**
   Four readings of one schema document. `AsWritten` is JSON Schema validity; `WithoutBounds` ignores the
   length bounds; `FullyKeyed` is validity with, at every object whose properties are declared, every
   declared key present and no other; `AsRewritten` is what the rewrite is meant to accept, told in terms of
   the document before the rewrite: all declared keys and no others, no length bounds, and null wherever a
   null default was the only way to leave a property out.
   */
  datatype Reading = AsWritten | WithoutBounds | FullyKeyed | AsRewritten

  ghost predicate KeysOk(reading: Reading, s: Schema, keys: set<string>) {
    var names := if s.properties.Declared? then Names(s.properties.all) else [];
    && (s.properties.Declared? && (reading.FullyKeyed? || reading.AsRewritten?) ==> keys == set k | k in names)
    && (s.properties.Undeclared? || !reading.AsRewritten? ==>
          && (forall k :: k in s.required ==> k in keys)
          && (s.closed ==> forall k :: k in keys ==> k in names))
  }

  ghost predicate Accepts(reading: Reading, x: Remaining, s: Schema, v: Json)
    decreases s
  {
    && LeafAccepts(reading, x, s, v)
    && BranchAccepts(reading, x, s.anyOf, v)
    && (s.items.Some? && v.JArr? ==>
          forall i :: 0 <= i < |v.elements| ==> Accepts(reading, x, s.items.value, v.elements[i]))
    && (v.JObj? ==> KeysOk(reading, s, v.fields.Keys) && PropertiesAccept(reading, x, s.properties, v.fields))
  }

  ghost predicate LeafAccepts(reading: Reading, x: Remaining, s: Schema, v: Json) {
    && (s.ty.Some? ==> HasType(s.ty.value, v))
    && ((reading.AsWritten? || reading.FullyKeyed?) && v.JStr? ==> LengthOk(s, v.s))
    && x(s.rest, v)
  }

  ghost predicate BranchAccepts(reading: Reading, x: Remaining, branches: seq<Schema>, v: Json)
    decreases branches
  {
    branches != [] ==> exists i :: 0 <= i < |branches| && Accepts(reading, x, branches[i], v)
  }

  ghost predicate PropertiesAccept(reading: Reading, x: Remaining, ps: Properties, fields: map<string, Json>)
    decreases ps
  {
    ps.Declared? ==> forall i :: 0 <= i < |ps.all| ==> PropertyAccepts(reading, x, ps.all[i], fields)
  }

  ghost predicate PropertyAccepts(reading: Reading, x: Remaining, p: Property, fields: map<string, Json>)
    decreases p
  {
    p.name in fields ==>
      || Accepts(reading, x, p.schema, fields[p.name])
      || (reading.AsRewritten? && NeedsNull(p.schema) && fields[p.name].JNull?)
  }

  /** The rewritten document, read as plain JSON Schema, accepts exactly what it is meant to accept. */
  lemma {:induction false} StrictMeans(x: Remaining, s: Schema, v: Json)
    requires Neutral(x)
    ensures Accepts(AsWritten, x, Strict(s), v) <==> Accepts(AsRewritten, x, s, v)
    decreases Size(s), 2
  {
    StrictBranchesMean(x, s.anyOf, v);
    if v.JArr? && s.items.Some? {
      forall i | 0 <= i < |v.elements|
        ensures Accepts(AsWritten, x, Strict(s.items.value), v.elements[i])
                <==> Accepts(AsRewritten, x, s.items.value, v.elements[i])
      {
        StrictMeans(x, s.items.value, v.elements[i]);
      }
    }
    if v.JObj? {
      StrictKeysMean(s, v.fields.Keys);
      if s.properties.Declared? {
        StrictPropertiesMean(x, s.required, s.properties.all, v.fields);
      }
    }
  }

  lemma {:induction false} StrictBranchesMean(x: Remaining, branches: seq<Schema>, v: Json)
    requires Neutral(x)
    ensures BranchAccepts(AsWritten, x, StrictAll(branches), v) <==> BranchAccepts(AsRewritten, x, branches, v)
    decreases SizeOfAll(branches), 3
  {
    var t := StrictAll(branches);
    forall i | 0 <= i < |branches|
      ensures Accepts(AsWritten, x, t[i], v) <==> Accepts(AsRewritten, x, branches[i], v)
    {
      StrictAllAt(branches, i);
      StrictMeans(x, branches[i], v);
    }
  }

  lemma StrictKeysMean(s: Schema, keys: set<string>)
    ensures KeysOk(AsWritten, Strict(s), keys) <==> KeysOk(AsRewritten, s, keys)
  {
    if s.properties.Declared? {
      StrictIsNormal(s);
      assert Names(Strict(s).properties.all) == Names(s.properties.all);
    }
  }

  lemma {:induction false} StrictPropertiesMean(
      x: Remaining, required: seq<string>, ps: seq<Property>, fields: map<string, Json>)
    requires Neutral(x)
    ensures PropertiesAccept(AsWritten, x, Declared(StrictProperties(required, ps)), fields)
            <==> PropertiesAccept(AsRewritten, x, Declared(ps), fields)
    decreases SizeOfProperties(ps), 4
  {
    var t := StrictProperties(required, ps);
    forall i | 0 <= i < |ps|
      ensures PropertyAccepts(AsWritten, x, t[i], fields) <==> PropertyAccepts(AsRewritten, x, ps[i], fields)
    {
      StrictPropertiesAt(required, ps, i);
      if ps[i].name in fields {
        StrictPropertyMeans(x, required, ps[i], fields[ps[i].name]);
      }
    }
  }

  lemma {:induction false} StrictPropertyMeans(x: Remaining, required: seq<string>, p: Property, w: Json)
    requires Neutral(x)
    ensures Accepts(AsWritten, x, StrictProperty(required, p).schema, w) <==>
            Accepts(AsRewritten, x, p.schema, w) || (NeedsNull(p.schema) && w.JNull?)
    decreases Size(p.schema), 3
  {
    var q := Prepared(p.schema);
    DescriptionIsSilent(AsWritten, x, Strict(q), PropertyNotes(required, p, Strict(q)), w);
    PreparedIsNoLarger(p.schema);
    if NeedsNull(p.schema) {
      StrictMeans(x, Inner(p.schema), w);
      WrappedAccepts(x, p.schema, w);
    } else {
      StrictMeans(x, p.schema, w);
    }
  }

  lemma DescriptionIsSilent(reading: Reading, x: Remaining, s: Schema, notes: seq<Note>, v: Json)
    ensures Accepts(reading, x, Describe(s, notes), v) <==> Accepts(reading, x, s, v)
  {
  }

  /** A wrapped property accepts what it did before, or null. */
  lemma WrappedAccepts(x: Remaining, p: Schema, w: Json)
    requires Neutral(x)
    requires Accepts(AsWritten, x, Strict(Inner(p)), w) <==> Accepts(AsRewritten, x, Inner(p), w)
    ensures Accepts(AsWritten, x, Strict(MakeNullable(p)), w) <==> Accepts(AsRewritten, x, p, w) || w.JNull?
  {
    NullSchemaAccepts(x, w);
    StrictWrapper(p);
    PairAccepts(x, Strict(MakeNullable(p)), w);
    InnerAccepts(x, p, w);
  }

  lemma StrictWrapper(p: Schema)
    ensures var t := Strict(MakeNullable(p));
            && t.anyOf == [Strict(Inner(p)), Strict(NULL_SCHEMA)]
            && t.(description := None) == EMPTY.(anyOf := t.anyOf)
  {
    StrictAllAt([Inner(p), NULL_SCHEMA], 0);
    StrictAllAt([Inner(p), NULL_SCHEMA], 1);
  }

  lemma PairAccepts(x: Remaining, t: Schema, w: Json)
    requires Neutral(x) && |t.anyOf| == 2 && t.(description := None) == EMPTY.(anyOf := t.anyOf)
    ensures Accepts(AsWritten, x, t, w) <==>
            Accepts(AsWritten, x, t.anyOf[0], w) || Accepts(AsWritten, x, t.anyOf[1], w)
  {
  }

  lemma InnerAccepts(x: Remaining, p: Schema, w: Json)
    ensures Accepts(AsRewritten, x, Inner(p), w) <==> Accepts(AsRewritten, x, p, w)
  {
  }

  lemma NullSchemaAccepts(x: Remaining, w: Json)
    requires Neutral(x)
    ensures Accepts(AsWritten, x, Strict(NULL_SCHEMA), w) <==> w.JNull?
  {
    assert Strict(NULL_SCHEMA) == NULL_SCHEMA;
  }

  // ---- Meaning is preserved, both ways ----------------------------------------------------------------

  lemma {:induction false} FullyKeyedIsStricter(x: Remaining, s: Schema, v: Json, reading: Reading)
    requires Accepts(FullyKeyed, x, s, v)
    ensures Accepts(reading, x, s, v)
    decreases s
  {
    if s.anyOf != [] {
      var i :| 0 <= i < |s.anyOf| && Accepts(FullyKeyed, x, s.anyOf[i], v);
      FullyKeyedIsStricter(x, s.anyOf[i], v, reading);
    }
    if v.JArr? && s.items.Some? {
      forall i | 0 <= i < |v.elements| ensures Accepts(reading, x, s.items.value, v.elements[i]) {
        FullyKeyedIsStricter(x, s.items.value, v.elements[i], reading);
      }
    }
    if v.JObj? && s.properties.Declared? {
      var ps := s.properties.all;
      forall i | 0 <= i < |ps| ensures PropertyAccepts(reading, x, ps[i], v.fields) {
        assert PropertyAccepts(FullyKeyed, x, ps[i], v.fields);
        if ps[i].name in v.fields {
          FullyKeyedIsStricter(x, ps[i].schema, v.fields[ps[i].name], reading);
        }
      }
    }
  }

  /** A value valid before, with every declared key present and no others, is valid after. */
  lemma RewriteKeepsFullyKeyedValues(x: Remaining, s: Schema, v: Json)
    requires Neutral(x) && Accepts(FullyKeyed, x, s, v)
    ensures Accepts(AsWritten, x, s, v) && Accepts(AsWritten, x, Strict(s), v)
  {
    FullyKeyedIsStricter(x, s, v, AsWritten);
    FullyKeyedIsStricter(x, s, v, AsRewritten);
    StrictMeans(x, s, v);
  }

  /** `w` is `v` with null-valued keys deleted, at any depth. */
  ghost predicate Thinner(v: Json, w: Json)
    decreases v
  {
    match v
    case JArr(es) =>
      w.JArr? && |w.elements| == |es| && forall i :: 0 <= i < |es| ==> Thinner(es[i], w.elements[i])
    case JObj(fields) =>
      && w.JObj? && w.fields.Keys <= fields.Keys
      && (forall k :: k in fields && k !in w.fields ==> fields[k].JNull?)
      && (forall k :: k in w.fields ==> Thinner(fields[k], w.fields[k]))
    case _ => v == w
  }

  /** The remaining keywords do not mind the deletion of null-valued keys, as counting the keys would. */
  ghost predicate Stable(x: Remaining) {
    forall rest, v, w :: x(rest, v) && Thinner(v, w) ==> x(rest, w)
  }

  /** Whether an object is valid for the node depends on no key outside `keep`, and on nothing inside its keys. */
  ghost predicate Lean(s: Schema, keep: seq<string>)
    decreases s
  {
    && s.properties.Undeclared? && s.items.None?
    && (forall r :: r in s.required ==> r in keep)
    && (forall i :: 0 <= i < |s.anyOf| ==> Lean(s.anyOf[i], keep))
  }

  /** Pruning for the node does not delete this key. */
  ghost predicate Keeps(s: Schema, k: string)
    decreases s
  {
    if s.properties.Declared? then k in s.required else forall i :: 0 <= i < |s.anyOf| ==> Keeps(s.anyOf[i], k)
  }

  predicate HasOwnParts(s: Schema) {
    s.properties.Declared? || s.items.Some?
  }

  /**
   Documents for which the way back works: keys are distinct, every required key is declared, a required property
   whose default is null accepts null, and where a node has `anyOf` either it declares keys or items of its own and
   its branches do not, nor require a key it does not, or it declares none and its branches keep the keys it requires.
   */
  ghost predicate Faithful(x: Remaining, s: Schema)
    decreases s
  {
    && (if HasOwnParts(s) then forall i :: 0 <= i < |s.anyOf| ==> Lean(s.anyOf[i], s.required)
        else forall i, r :: 0 <= i < |s.anyOf| && r in s.required ==> Keeps(s.anyOf[i], r))
    && (forall i :: 0 <= i < |s.anyOf| ==> Faithful(x, s.anyOf[i]))
    && (s.items.Some? ==> Faithful(x, s.items.value))
    && (s.properties.Declared? ==> FaithfulProperties(x, s.required, s.properties))
  }

  ghost predicate FaithfulProperties(x: Remaining, required: seq<string>, ps: Properties)
    requires ps.Declared?
    decreases ps
  {
    && (forall i, j :: 0 <= i < j < |ps.all| ==> ps.all[i].name != ps.all[j].name)
    && (forall k :: k in required ==> k in Names(ps.all))
    && (forall i :: 0 <= i < |ps.all| ==> FaithfulProperty(x, required, ps.all[i]))
  }

  ghost predicate FaithfulProperty(x: Remaining, required: seq<string>, p: Property)
    decreases p
  {
    Faithful(x, p.schema) && (NeedsNull(p.schema) && p.name in required ==> Accepts(WithoutBounds, x, p.schema, JNull))
  }

  ghost function Find(ps: seq<Property>, k: string): (i: nat)
    requires k in Names(ps)
    ensures i < |ps| && ps[i].name == k
  {
    var i :| 0 <= i < |ps| && Names(ps)[i] == k;
    i
  }

  ghost function AcceptingBranch(x: Remaining, branches: seq<Schema>, v: Json): (i: nat)
    requires branches != [] && BranchAccepts(AsRewritten, x, branches, v)
    ensures i < |branches| && Accepts(AsRewritten, x, branches[i], v)
  {
    var i :| 0 <= i < |branches| && Accepts(AsRewritten, x, branches[i], v);
    i
  }

  /** The value with its null-valued optional keys deleted, at every depth the document declares. */
  ghost function Prune(x: Remaining, s: Schema, v: Json): Json
    decreases s
  {
    if v.JArr? && s.items.Some? then
      JArr(seq(|v.elements|, i requires 0 <= i < |v.elements| => Prune(x, s.items.value, v.elements[i])))
    else if v.JObj? && s.properties.Declared? then
      JObj(map k | k in v.fields && (!v.fields[k].JNull? || k in s.required) ::
             PruneAt(x, s.properties, k, v.fields[k]))
    else if !HasOwnParts(s) && s.anyOf != [] && BranchAccepts(AsRewritten, x, s.anyOf, v) then
      Prune(x, s.anyOf[AcceptingBranch(x, s.anyOf, v)], v)
    else v
  }

  ghost function PruneAt(x: Remaining, ps: Properties, k: string, w: Json): Json
    decreases ps
  {
    if ps.Declared? && k in Names(ps.all) then Prune(x, ps.all[Find(ps.all, k)].schema, w) else w
  }

  lemma {:induction false} ThinnerThanItself(v: Json)
    ensures Thinner(v, v)
    decreases v
  {
    if v.JArr? {
      forall i | 0 <= i < |v.elements| ensures Thinner(v.elements[i], v.elements[i]) {
        ThinnerThanItself(v.elements[i]);
      }
    } else if v.JObj? {
      forall k | k in v.fields ensures Thinner(v.fields[k], v.fields[k]) {
        ThinnerThanItself(v.fields[k]);
      }
    }
  }

  lemma {:induction false} PruneThins(x: Remaining, s: Schema, v: Json)
    ensures Thinner(v, Prune(x, s, v))
    decreases s
  {
    ThinnerThanItself(v);
    if v.JArr? && s.items.Some? {
      forall i | 0 <= i < |v.elements| ensures Thinner(v.elements[i], Prune(x, s.items.value, v.elements[i])) {
        PruneThins(x, s.items.value, v.elements[i]);
      }
    } else if v.JObj? && s.properties.Declared? {
      forall k | k in v.fields ensures Thinner(v.fields[k], PruneAt(x, s.properties, k, v.fields[k])) {
        PruneAtThins(x, s.properties, k, v.fields[k]);
      }
    } else if !HasOwnParts(s) && s.anyOf != [] && BranchAccepts(AsRewritten, x, s.anyOf, v) {
      PruneThins(x, s.anyOf[AcceptingBranch(x, s.anyOf, v)], v);
    }
  }

  lemma {:induction false} PruneAtThins(x: Remaining, ps: Properties, k: string, w: Json)
    ensures Thinner(w, PruneAt(x, ps, k, w))
    decreases ps
  {
    ThinnerThanItself(w);
    if ps.Declared? && k in Names(ps.all) {
      PruneThins(x, ps.all[Find(ps.all, k)].schema, w);
    }
  }

  lemma {:induction false} PruneKeeps(x: Remaining, s: Schema, v: Json, k: string)
    requires Keeps(s, k) && v.JObj? && k in v.fields
    ensures Prune(x, s, v).JObj? && k in Prune(x, s, v).fields
    decreases s
  {
    if s.properties.Undeclared? && !HasOwnParts(s) && s.anyOf != [] && BranchAccepts(AsRewritten, x, s.anyOf, v) {
      PruneKeeps(x, s.anyOf[AcceptingBranch(x, s.anyOf, v)], v, k);
    }
  }

  lemma ThinnerLeaf(x: Remaining, s: Schema, v: Json, w: Json)
    requires Stable(x) && Thinner(v, w) && LeafAccepts(AsRewritten, x, s, v)
    ensures LeafAccepts(WithoutBounds, x, s, w)
  {
  }

  lemma {:induction false} LeanSurvives(x: Remaining, s: Schema, keep: seq<string>, v: Json, w: Json)
    requires Stable(x) && Lean(s, keep) && Accepts(AsRewritten, x, s, v) && Thinner(v, w)
    requires v.JObj? ==> forall k :: k in keep && k in v.fields ==> k in w.fields
    ensures Accepts(WithoutBounds, x, s, w)
    decreases s
  {
    ThinnerLeaf(x, s, v, w);
    if s.anyOf != [] {
      var i :| 0 <= i < |s.anyOf| && Accepts(AsRewritten, x, s.anyOf[i], v);
      LeanSurvives(x, s.anyOf[i], keep, v, w);
      assert BranchAccepts(WithoutBounds, x, s.anyOf, w);
    }
  }

  lemma {:induction false} PrunedIsValid(x: Remaining, s: Schema, v: Json)
    requires Stable(x) && Faithful(x, s) && Accepts(AsRewritten, x, s, v)
    ensures Accepts(WithoutBounds, x, s, Prune(x, s, v))
    decreases s, 2
  {
    var w := Prune(x, s, v);
    PruneThins(x, s, v);
    ThinnerLeaf(x, s, v, w);
    PrunedBranchIsValid(x, s, v);
    if v.JArr? && s.items.Some? {
      forall i | 0 <= i < |v.elements| ensures Accepts(WithoutBounds, x, s.items.value, w.elements[i]) {
        PrunedIsValid(x, s.items.value, v.elements[i]);
      }
    }
    if v.JObj? {
      PrunedKeysAreValid(x, s, v);
      if s.properties.Declared? {
        forall i | 0 <= i < |s.properties.all|
          ensures PropertyAccepts(WithoutBounds, x, s.properties.all[i], w.fields)
        {
          PrunedPropertyIsValid(x, s, v, i);
        }
      }
    }
  }

  lemma {:induction false} PrunedBranchIsValid(x: Remaining, s: Schema, v: Json)
    requires Stable(x) && Faithful(x, s) && Accepts(AsRewritten, x, s, v)
    ensures BranchAccepts(WithoutBounds, x, s.anyOf, Prune(x, s, v))
    decreases s, 1
  {
    if s.anyOf != [] {
      var i := AcceptingBranch(x, s.anyOf, v);
      if HasOwnParts(s) {
        PruneThins(x, s, v);
        LeanSurvives(x, s.anyOf[i], s.required, v, Prune(x, s, v));
      } else {
        PrunedIsValid(x, s.anyOf[i], v);
      }
    }
  }

  lemma PrunedKeysAreValid(x: Remaining, s: Schema, v: Json)
    requires Faithful(x, s) && Accepts(AsRewritten, x, s, v) && v.JObj?
    ensures Prune(x, s, v).JObj? && KeysOk(WithoutBounds, s, Prune(x, s, v).fields.Keys)
  {
    PruneThins(x, s, v);
    if !HasOwnParts(s) && s.anyOf != [] {
      var i := AcceptingBranch(x, s.anyOf, v);
      forall r | r in s.required ensures r in Prune(x, s, v).fields {
        PruneKeeps(x, s.anyOf[i], v, r);
      }
    }
  }

  lemma {:induction false} PrunedPropertyIsValid(x: Remaining, s: Schema, v: Json, i: nat)
    requires Stable(x) && Faithful(x, s) && Accepts(AsRewritten, x, s, v) && v.JObj?
    requires s.properties.Declared? && i < |s.properties.all|
    ensures Prune(x, s, v).JObj? && PropertyAccepts(WithoutBounds, x, s.properties.all[i], Prune(x, s, v).fields)
    decreases s, 0
  {
    var p, fields := s.properties.all[i], Prune(x, s, v).fields;
    if p.name in fields {
      assert p.name in v.fields && PropertyAccepts(AsRewritten, x, p, v.fields);
      assert Names(s.properties.all)[i] == p.name;
      assert Find(s.properties.all, p.name) == i;
      assert FaithfulProperty(x, s.required, p);
      var value := v.fields[p.name];
      PruneThins(x, p.schema, value);
      if Accepts(AsRewritten, x, p.schema, value) {
        PrunedIsValid(x, p.schema, value);
      }
    }
  }

  /**
   A value valid after the rewrite is valid before it, length bounds aside, once its null-valued optional keys are
   deleted.
   */
  lemma RewriteIsUndoneByPruning(x: Remaining, s: Schema, v: Json)
    requires Neutral(x) && Stable(x) && Faithful(x, s) && Accepts(AsWritten, x, Strict(s), v)
    ensures Thinner(v, Prune(x, s, v)) && Accepts(WithoutBounds, x, s, Prune(x, s, v))
  {
    StrictMeans(x, s, v);
    PruneThins(x, s, v);
    PrunedIsValid(x, s, v);
  }

  // ---- Why each condition is there --------------------------------------------------------------------

  /** With a required key that is not declared, no deletion of keys from any rewritten object is valid before. */
  lemma UndeclaredRequiredKeyNeverReturns(x: Remaining, s: Schema, r: string, v: Json, w: Json)
    requires Neutral(x) && s.properties.Declared? && r in s.required && r !in Names(s.properties.all)
    requires Accepts(AsWritten, x, Strict(s), v) && v.JObj? && w.JObj? && w.fields.Keys <= v.fields.Keys
    ensures !Accepts(WithoutBounds, x, s, w)
  {
    StrictMeans(x, s, v);
    assert KeysOk(AsRewritten, s, v.fields.Keys);
  }

  /** The node cannot do without the key: it requires it, or every branch does. */
  ghost predicate Demands(s: Schema, k: string)
    decreases s
  {
    k in s.required || (s.anyOf != [] && forall i :: 0 <= i < |s.anyOf| ==> Demands(s.anyOf[i], k))
  }

  lemma {:induction false} DemandedKeyIsThere(x: Remaining, s: Schema, k: string, w: Json)
    requires Demands(s, k) && w.JObj? && Accepts(WithoutBounds, x, s, w)
    ensures k in w.fields
    decreases s
  {
    if k in s.required {
      assert KeysOk(WithoutBounds, s, w.fields.Keys);
    } else {
      var i :| 0 <= i < |s.anyOf| && Accepts(WithoutBounds, x, s.anyOf[i], w);
      DemandedKeyIsThere(x, s.anyOf[i], k, w);
    }
  }

  /**
   A property that only a null default made optional, and that the node or every branch beside it requires: it
   accepts null afterwards, and no object with it null or absent was valid before.
   */
  lemma DemandedNullDefaultNeverReturns(x: Remaining, s: Schema, i: nat, w: Json)
    requires Neutral(x) && s.properties.Declared? && i < |s.properties.all| && w.JObj?
    requires var p := s.properties.all[i];
             && NeedsNull(p.schema) && Demands(s, p.name) && !Accepts(WithoutBounds, x, p.schema, JNull)
             && (p.name in w.fields ==> w.fields[p.name].JNull?)
    ensures Accepts(AsWritten, x, StrictProperty(s.required, s.properties.all[i]).schema, JNull)
    ensures !Accepts(WithoutBounds, x, s, w)
  {
    var p := s.properties.all[i];
    StrictPropertyMeans(x, s.required, p, JNull);
    if p.name in w.fields {
      assert !PropertyAccepts(WithoutBounds, x, p, w.fields);
    } else if Accepts(WithoutBounds, x, s, w) {
      DemandedKeyIsThere(x, s, p.name, w);
    }
  }

  const OPTIONAL_TEXT := EMPTY.(ty := Some(TString), default := Some(JNull))

  /** A node that declares `k` as optional text and, in its one branch, requires `k` to be null. */
  const MIXED := EMPTY.(
    properties := Declared([Property("k", OPTIONAL_TEXT)]),
    anyOf := [EMPTY.(properties := Declared([Property("k", NULL_SCHEMA)]), required := ["k"])])

  /** Such a node whose rewritten form does have values: it accepts `{k: null}`, of which nothing was valid before. */
  lemma MixedNodeNeverReturns(x: Remaining, w: Json)
    requires Neutral(x) && Thinner(JObj(map["k" := JNull]), w)
    ensures Accepts(AsWritten, x, Strict(MIXED), JObj(map["k" := JNull]))
    ensures !Accepts(WithoutBounds, x, MIXED, w)
  {
    MixedNodeAcceptsNull(x);
    StrictMeans(x, MIXED, JObj(map["k" := JNull]));
    assert !LeafAccepts(WithoutBounds, x, OPTIONAL_TEXT, JNull);
    assert Demands(MIXED.anyOf[0], "k") && Demands(MIXED, "k");
    DemandedNullDefaultNeverReturns(x, MIXED, 0, w);
  }

  lemma MixedNodeAcceptsNull(x: Remaining)
    requires Neutral(x)
    ensures Accepts(AsRewritten, x, MIXED, JObj(map["k" := JNull]))
  {
    var v, branch := JObj(map["k" := JNull]), MIXED.anyOf[0];
    assert Accepts(AsRewritten, x, NULL_SCHEMA, JNull);
    assert Names(branch.properties.all) == ["k"] && Names(MIXED.properties.all) == ["k"];
    assert PropertiesAccept(AsRewritten, x, branch.properties, v.fields);
    assert PropertiesAccept(AsRewritten, x, MIXED.properties, v.fields);
    assert Accepts(AsRewritten, x, branch, v);
    assert BranchAccepts(AsRewritten, x, MIXED.anyOf, v);
  }

  // ---- Arguments a call left out ----------------------------------------------------------------------

  datatype Field = Field(name: string, required: bool, nullable: bool)

  function Filler(f: Field, omitted: map<string, Json>): Option<Json> {
    if !f.required then None
    else if f.name in omitted then Some(omitted[f.name])
    else if f.nullable then Some(JNull)
    else None
  }

  /** `filled` is `data` plus, for each absent field that has a natural "nothing", that value, and no more. */
  ghost predicate Fills(
      fields: seq<Field>, omitted: map<string, Json>, data: map<string, Json>, filled: map<string, Json>)
  {
    && (forall k :: k in data ==> k in filled && filled[k] == data[k])
    && (forall i :: 0 <= i < |fields| && fields[i].name !in data ==>
          var f := fields[i];
          && (f.name in filled <==> f.required && (f.name in omitted || f.nullable))
          && (f.name in filled ==> filled[f.name] == if f.name in omitted then omitted[f.name] else JNull))
    && (forall k :: k in filled && k !in data ==> HasField(fields, k))
  }

  ghost predicate HasField(fields: seq<Field>, k: string) {
    exists i :: 0 <= i < |fields| && fields[i].name == k
  }

  method FillOmittedArguments(fields: seq<Field>, omitted: map<string, Json>, data: Json) returns (filled: Json)
    requires forall i, j :: 0 <= i < j < |fields| ==> fields[i].name != fields[j].name
    ensures !data.JObj? ==> filled == data
    ensures data.JObj? ==> filled.JObj? && Fills(fields, omitted, data.fields, filled.fields)
  {
    if !data.JObj? {
      return data;
    }
    var out := data.fields;
    for n := 0 to |fields|
      invariant Fills(fields[..n], omitted, data.fields, out)
    {
      var f := fields[n];
      FillsOneMore(fields, n, omitted, data.fields, out);
      if f.name in out || !f.required {
      } else if f.name in omitted {
        out := out[f.name := omitted[f.name]];
      } else if f.nullable {
        out := out[f.name := JNull];
      }
    }
    assert fields[..|fields|] == fields;
    return JObj(out);
  }

  lemma FillsOneMore(
      fields: seq<Field>, n: nat, omitted: map<string, Json>, data: map<string, Json>, out: map<string, Json>)
    requires forall i, j :: 0 <= i < j < |fields| ==> fields[i].name != fields[j].name
    requires n < |fields| && Fills(fields[..n], omitted, data, out)
    ensures var f := fields[n];
            var added := if f.name in out || Filler(f, omitted).None? then out
                         else out[f.name := Filler(f, omitted).value];
            Fills(fields[..n + 1], omitted, data, added)
  {
    var f, more := fields[n], fields[..n + 1];
    var added := if f.name in out || Filler(f, omitted).None? then out else out[f.name := Filler(f, omitted).value];
    assert f.name in out ==> f.name in data;
    assert more[n] == f && more == fields[..n] + [f];
    forall k | k in added && k !in data ensures HasField(more, k) {
      if k in out {
        var i :| 0 <= i < n && fields[..n][i].name == k;
        assert more[i].name == k;
      }
    }
  }

  /** Leaving nullable arguments out of a complete call and filling the rest gives the complete call back. */
  lemma FillingRestoresNulls(
      fields: seq<Field>, omitted: map<string, Json>, call: map<string, Json>, left: set<string>,
      filled: map<string, Json>)
    requires Fills(fields, omitted, call, call)
    requires forall k :: k in left ==> k in call && call[k].JNull? && k !in omitted
    requires forall k :: k in left ==> exists i :: 0 <= i < |fields| && fields[i] == Field(k, true, true)
    requires Fills(fields, omitted, call - left, filled)
    ensures filled == call
  {
    forall k | k in left ensures k in filled && filled[k] == call[k] {
      var i :| 0 <= i < |fields| && fields[i] == Field(k, true, true);
      assert fields[i].name !in call - left;
    }
  }
}
