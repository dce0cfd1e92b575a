/** The generator from JSON Schema to Zod: a Zod type as a tree, what it accepts, and the translation. */
module ZodCompiler {
  import opened JsonSchema
  import opened Wrappers

  datatype Zod =
    | ZString(min: Option<nat>, max: Option<nat>)
    | ZNumber(int_: bool, gt: Option<real>, gte: Option<real>, lt: Option<real>, lte: Option<real>)
    | ZBoolean
    | ZNull
    | ZUnknown
    | ZLiteral(value: Json)
    | ZEnum(names: seq<string>)
    | ZUnion(options: seq<Zod>)
    | ZArray(item: Zod, minItems: Option<nat>, maxItems: Option<nat>)
    | ZRecord(entry: Zod)
    | ZObject(fields: seq<Field>, strict: bool)
    | ZRef(name: string)
    | ZOptional(inner: Zod)
    | ZNullable(inner: Zod)

  datatype Field = Field(name: string, type_: Zod)

  /** A generated `z.object` declaration. */
  datatype Model = Model(fields: seq<Field>, strict: bool)

  type Env = map<string, Model>

  // ----- what a Zod type accepts -----

  /** Parsing `undefined`, which is what an absent object key parses as. */
  predicate TakesUndefined(z: Zod) {
    match z
    case ZOptional(_) => true
    case ZNullable(inner) => TakesUndefined(inner)
    case ZUnknown => true
    case ZUnion(options) => exists i | 0 <= i < |options| :: TakesUndefined(options[i])
    case _ => false
  }

  predicate Primitive(v: Json) { !v.Arr? && !v.Obj? }

  ghost predicate Takes(env: Env, z: Zod, v: Json)
    decreases v, 1, z
  {
    match z
    case ZString(min, max) =>
      v.Str? && (min.Some? ==> Utf16Length(v.s) >= min.value) && (max.Some? ==> Utf16Length(v.s) <= max.value)
    case ZNumber(int_, gt, gte, lt, lte) =>
      && v.Num? && (int_ ==> IsInteger(JavaScript, v.n))
      && (gt.Some? ==> v.n > gt.value) && (gte.Some? ==> v.n >= gte.value)
      && (lt.Some? ==> v.n < lt.value) && (lte.Some? ==> v.n <= lte.value)
    case ZBoolean => v.Bool?
    case ZNull => v.Null?
    case ZUnknown => true
    case ZLiteral(value) => if value.Arr? then Primitive(v) && v in value.items else Primitive(value) && v == value
    case ZEnum(names) => v.Str? && v.s in names
    case ZUnion(options) => exists i | 0 <= i < |options| :: Takes(env, options[i], v)
    case ZArray(item, min, max) =>
      && v.Arr? && (min.Some? ==> |v.items| >= min.value) && (max.Some? ==> |v.items| <= max.value)
      && forall i | 0 <= i < |v.items| :: Takes(env, item, v.items[i])
    case ZRecord(entry) => v.Obj? && forall key | key in v.fields :: Takes(env, entry, v.fields[key])
    case ZObject(fields, strict) => TakesFields(env, fields, strict, v)
    case ZRef(name) => name in env && TakesFields(env, env[name].fields, env[name].strict, v)
    case ZOptional(inner) => Takes(env, inner, v)
    case ZNullable(inner) => v.Null? || Takes(env, inner, v)
  }

  /** Each field takes its key's value, or `undefined` when the key is absent; strict objects refuse other keys. */
  ghost predicate TakesFields(env: Env, fields: seq<Field>, strict: bool, v: Json)
    decreases v, 0
  {
    && v.Obj?
    && (forall f | f in fields ::
          if f.name in v.fields then Takes(env, f.type_, v.fields[f.name]) else TakesUndefined(f.type_))
    && (strict ==> forall key | key in v.fields :: exists f | f in fields :: f.name == key)
  }

  // ----- the translation -----

  predicate MarkerAt(s: string, i: nat) {
    i + 11 <= |s| && s[i..i + 11] == ".optional()"
  }

  predicate HasMarker(s: string) {
    exists i | 0 <= i < |s| :: MarkerAt(s, i)
  }

  predicate JsonMentions(v: Json) {
    match v
    case Str(s) => HasMarker(s)
    case Arr(items) => exists i | 0 <= i < |items| :: JsonMentions(items[i])
    case Obj(fields) => exists key | key in fields :: HasMarker(key) || JsonMentions(fields[key])
    case _ => false
  }

  /** `".optional()" in zod_type`: the text of the type contains the marker somewhere. */
  predicate Mentions(z: Zod) {
    match z
    case ZOptional(_) => true
    case ZNullable(inner) => Mentions(inner)
    case ZUnion(options) => exists i | 0 <= i < |options| :: Mentions(options[i])
    case ZArray(item, _, _) => Mentions(item)
    case ZRecord(entry) => Mentions(entry)
    case ZObject(fields, _) => exists i | 0 <= i < |fields| :: HasMarker(fields[i].name) || Mentions(fields[i].type_)
    case ZLiteral(value) => JsonMentions(value)
    case ZEnum(names) => exists name | name in names :: HasMarker(name)
    case ZRef(name) => HasMarker(name)
    case _ => false
  }

  function NullableOptional(base: Zod): Zod { ZNullable(ZOptional(base)) }

  predicate IsNullEntry(s: Schema) { s.type_ == Name("null") }

  /** The schema is translated by its `type`. */
  predicate ByType(s: Schema) { s.ref.None? && s.const_.None? && s.enum_.None? && s.anyOf.NoAnyOf? }

  function AllStrings(values: seq<Json>): bool {
    forall v | v in values :: v.Str?
  }

  function Literals(values: seq<Json>): (r: seq<Zod>)
    ensures |r| == |values| && forall i | 0 <= i < |r| :: r[i] == ZLiteral(values[i])
  {
    seq(|values|, i requires 0 <= i < |values| => ZLiteral(values[i]))
  }

  function Texts(values: seq<Json>): (r: seq<string>)
    requires AllStrings(values)
    ensures |r| == |values| && forall i | 0 <= i < |r| :: Str(r[i]) == values[i]
  {
    assert forall i | 0 <= i < |values| :: values[i] in values && values[i].Str?;
    seq(|values|, i requires 0 <= i < |values| && values[i].Str? => values[i].s)
  }

  function NumberType(int_: bool, s: Schema): Zod {
    ZNumber(int_, s.exclusiveMinimum, if s.exclusiveMinimum.Some? then None else s.minimum,
            s.exclusiveMaximum, if s.exclusiveMaximum.Some? then None else s.maximum)
  }

  function Choose(types: seq<Zod>): Zod {
    if |types| == 1 then types[0] else ZUnion(types)
  }

  /** `_json_schema_to_zod_type`. */
  function Compile(s: Schema): Zod {
    if s.ref.Some? then ZRef(LastSegment(s.ref.value))
    else if s.const_.Some? then ZLiteral(s.const_.value)
    else if s.enum_.Some? then
      (if AllStrings(s.enum_.value) then ZEnum(Texts(s.enum_.value)) else ZUnion(Literals(s.enum_.value)))
    else if s.anyOf.AnyOf? then
      var base := Choose(CompileNonNull(s.anyOf.alts));
      if exists i | 0 <= i < |s.anyOf.alts| :: IsNullEntry(s.anyOf.alts[i]) then NullableOptional(base) else base
    else if s.type_ == Name("string") then ZString(s.minLength, s.maxLength)
    else if s.type_ == Name("integer") then NumberType(true, s)
    else if s.type_ == Name("number") then NumberType(false, s)
    else if s.type_ == Name("boolean") then ZBoolean
    else if s.type_ == Name("null") then ZNull
    else if s.type_ == Name("array") then
      ZArray(match s.items case NoItems => ZUnknown case Items(item) => Compile(item), s.minItems, s.maxItems)
    else if s.type_ == Name("object") then
      match s.additional
      case Every(schema) => ZRecord(Compile(schema))
      case NoAdditional => ObjectType(s)
      case Flag(allowed) => if allowed then ZRecord(ZUnknown) else ObjectType(s)
    else ZUnknown
  }

  function ObjectType(s: Schema): Zod
    decreases s, 0
  {
    match s.properties
    case NoProperties => ZRecord(ZUnknown)
    case Properties(props) => ZObject(CompileFields(props, s.required), s.additional == Flag(false))
  }

  function CompileNonNull(alts: seq<Schema>): seq<Zod> {
    if alts == [] then []
    else (if IsNullEntry(alts[0]) then [] else [Compile(alts[0])]) + CompileNonNull(alts[1..])
  }

  function FieldType(name: string, compiled: Zod, required: seq<string>): Zod {
    if name !in required && !Mentions(compiled) then ZOptional(compiled) else compiled
  }

  /** `_build_object_fields`. */
  function CompileFields(props: seq<Property>, required: seq<string>): (r: seq<Field>)
    ensures |r| == |props|
  {
    if props == [] then []
    else
      [Field(props[0].name, FieldType(props[0].name, Compile(props[0].schema), required))]
      + CompileFields(props[1..], required)
  }

  /** Messages have their `type` field required even when it has a default. */
  function Forced(s: Schema, isMessage: bool): Schema {
    if isMessage && (exists p | p in Props(s) :: p.name == "type") then s.(required := s.required + ["type"]) else s
  }

  /** `_generate_zod_schema`. */
  function CompileModel(s: Schema, isMessage: bool): Model {
    Model(CompileFields(Props(s), if isMessage then s.required + ["type"] else s.required), s.additional == Flag(false))
  }

  function CompileDefs(defs: Defs, messages: set<string>): Env {
    map name | name in defs :: CompileModel(defs[name], name in messages)
  }

  /** The definitions the generated models answer to. */
  function ForcedDefs(defs: Defs, messages: set<string>): Defs {
    map name | name in defs :: Forced(defs[name], name in messages)
  }

  lemma {:induction false} CompileRef(s: Schema)
    requires s.ref.Some?
    ensures Compile(s) == ZRef(LastSegment(s.ref.value))
  {
    hide LastSegment, CompileFields, CompileNonNull, ObjectType, Mentions;
  }

  lemma {:induction false} FieldsAt(props: seq<Property>, required: seq<string>, i: nat)
    requires i < |props|
    ensures CompileFields(props, required)[i]
            == Field(props[i].name, FieldType(props[i].name, Compile(props[i].schema), required))
  {
    if i > 0 { FieldsAt(props[1..], required, i - 1); }
  }

  lemma {:induction false} NonNullMembers(alts: seq<Schema>)
    ensures forall i | 0 <= i < |alts| && !IsNullEntry(alts[i]) :: Compile(alts[i]) in CompileNonNull(alts)
    ensures forall z | z in CompileNonNull(alts) ::
              exists i | 0 <= i < |alts| :: !IsNullEntry(alts[i]) && z == Compile(alts[i])
  {
    if alts != [] {
      NonNullMembers(alts[1..]);
      forall i | 0 <= i < |alts| && !IsNullEntry(alts[i]) ensures Compile(alts[i]) in CompileNonNull(alts) {
        if i > 0 {
          assert alts[i] == alts[1..][i - 1];
          assert Compile(alts[i]) in CompileNonNull(alts[1..]);
        }
      }
      forall z | z in CompileNonNull(alts)
        ensures exists i | 0 <= i < |alts| :: !IsNullEntry(alts[i]) && z == Compile(alts[i]) {
        if z in CompileNonNull(alts[1..]) {
          var i :| 0 <= i < |alts[1..]| && !IsNullEntry(alts[1..][i]) && z == Compile(alts[1..][i]);
          assert alts[i + 1] == alts[1..][i];
        }
      }
    }
  }

  /** Choosing the only alternative or the union of several accepts the same values. */
  lemma {:induction false} ChooseTakes(env: Env, types: seq<Zod>, v: Json)
    ensures Takes(env, Choose(types), v) <==> exists z | z in types :: Takes(env, z, v)
  {
    if |types| == 1 {
      assert types[0] in types;
    } else if exists z | z in types :: Takes(env, z, v) {
      var z :| z in types && Takes(env, z, v);
      var i :| 0 <= i < |types| && types[i] == z;
    }
  }

  lemma {:induction false} ChooseUndefined(types: seq<Zod>)
    ensures TakesUndefined(Choose(types)) <==> exists z | z in types :: TakesUndefined(z)
  {
    if |types| == 1 {
      assert types[0] in types;
    } else if exists z | z in types :: TakesUndefined(z) {
      var z :| z in types && TakesUndefined(z);
      var i :| 0 <= i < |types| && types[i] == z;
    }
  }
}
