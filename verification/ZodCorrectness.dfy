/** What the generated Zod schemas accept, against the JSON Schemas they come from. */
module ZodCorrectness {
  import opened JsonSchema
  import opened Wrappers
  import opened ZodCompiler

  /** The environment holds the compiled model of every definition. */
  ghost predicate EnvFor(defs: Defs, env: Env) {
    && (forall name :: name in defs <==> name in env)
    && forall name | name in defs ::
         env[name] == Model(CompileFields(Props(defs[name]), defs[name].required), defs[name].additional == Flag(false))
  }

  lemma {:induction false} SameRequired(props: seq<Property>, a: seq<string>, b: seq<string>)
    requires forall p | p in props :: p.name in a <==> p.name in b
    ensures CompileFields(props, a) == CompileFields(props, b)
  {
    if props != [] {
      assert props[0] in props;
      assert forall p | p in props[1..] :: p in props;
      SameRequired(props[1..], a, b);
    }
  }

  /** Compiling definitions with forced message types is compiling the forced definitions. */
  lemma {:induction false} CompiledDefs(defs: Defs, messages: set<string>)
    ensures EnvFor(ForcedDefs(defs, messages), CompileDefs(defs, messages))
  {
    forall name | name in defs
      ensures CompileModel(defs[name], name in messages)
              == Model(CompileFields(Props(defs[name]), Forced(defs[name], name in messages).required),
                       defs[name].additional == Flag(false))
    {
      var required := if name in messages then defs[name].required + ["type"] else defs[name].required;
      SameRequired(Props(defs[name]), required, Forced(defs[name], name in messages).required);
    }
  }

  /** What forcing means: an instance of a forced message is an instance that has its `type` key. */
  lemma {:induction false} ForcedMeansPresent(r: Reading, defs: Defs, s: Schema, v: Json)
    requires exists p | p in Props(s) :: p.name == "type"
    ensures Keywords(r, defs, Forced(s, true), v) <==> Keywords(r, defs, s, v) && (v.Obj? ==> "type" in v.fields)
  {
    var f := Forced(s, true);
    assert Props(f) == Props(s);
    assert forall name :: Declared(f, name) <==> Declared(s, name);
    assert forall name :: name in f.required <==> name in s.required || name == "type";
    hide Forced, Declared, TypeOk, Accepts, LengthOk, BoundsOk, SizeOk;
  }

  // ----- no instance is wrongly refused -----

  /** An absent optional field must be taken: the marker test may only fire on a type that takes `undefined`. */
  ghost predicate FieldOk(p: Property, required: seq<string>) {
    p.name in required || !Mentions(Compile(p.schema)) || TakesUndefined(Compile(p.schema))
  }

  ghost predicate Supported(s: Schema) {
    if s.ref.Some? then true
    else if s.const_.Some? then Primitive(s.const_.value)
    else if s.enum_.Some? then forall v | v in s.enum_.value :: Primitive(v)
    else if s.anyOf.AnyOf? then
      forall i | 0 <= i < |s.anyOf.alts| :: IsNullEntry(s.anyOf.alts[i]) || Supported(s.anyOf.alts[i])
    else if s.type_ == Name("array") then s.items.Items? ==> Supported(s.items.schema)
    else if s.type_ == Name("object") then
      match s.additional
      case Every(schema) => Props(s) == [] && Supported(schema)
      case Flag(true) => true
      case _ => forall p | p in Props(s) :: Supported(p.schema) && FieldOk(p, s.required)
    else true
  }

  ghost predicate SupportedDefs(defs: Defs) {
    && PlainDefs(defs)
    && forall name | name in defs ::
         && defs[name].type_ == Name("object")
         && forall p | p in Props(defs[name]) :: Supported(p.schema) && FieldOk(p, defs[name].required)
  }

  lemma {:induction false} RefNotRefused(defs: Defs, env: Env, s: Schema, v: Json)
    requires s.ref.Some? && EnvFor(defs, env) && LastSegment(s.ref.value) in defs
    requires var d := defs[LastSegment(s.ref.value)];
             TakesFields(env, CompileFields(Props(d), d.required), d.additional == Flag(false), v)
    ensures Takes(env, Compile(s), v)
  {
    hide LastSegment, Compile, CompileFields, TakesFields, Takes;
    CompileRef(s);
    TakesRef(env, LastSegment(s.ref.value), v);
  }

  lemma {:induction false} TakesRef(env: Env, name: string, v: Json)
    ensures Takes(env, ZRef(name), v) <==> name in env && TakesFields(env, env[name].fields, env[name].strict, v)
  {
    hide TakesFields;
  }

  lemma {:induction false} RefAccepted(defs: Defs, s: Schema, v: Json)
    requires s.ref.Some? && Accepts(JavaScript, defs, s, v)
    ensures LastSegment(s.ref.value) in defs && Keywords(JavaScript, defs, defs[LastSegment(s.ref.value)], v)
  {
    hide LastSegment, Keywords;
  }

  lemma {:induction false} ConstNotRefused(defs: Defs, env: Env, s: Schema, v: Json)
    requires s.ref.None? && s.const_.Some? && Primitive(s.const_.value) && Accepts(JavaScript, defs, s, v)
    ensures Takes(env, Compile(s), v)
  {
    hide LastSegment, ObjectType, CompileFields, CompileNonNull, OfType;
  }

  lemma {:induction false} EnumAccepted(defs: Defs, env: Env, s: Schema, v: Json)
    requires s.ref.None? && s.const_.None? && s.enum_.Some? && (forall w | w in s.enum_.value :: Primitive(w))
    requires Accepts(JavaScript, defs, s, v)
    ensures Takes(env, Compile(s), v)
  {
    assert v in s.enum_.value;
    EnumNotRefused(env, s.enum_.value, v);
    hide LastSegment, ObjectType, CompileFields, CompileNonNull, Takes, AllStrings, Texts, Literals, Accepts;
  }

  lemma {:induction false} ArrayNotRefused(defs: Defs, env: Env, s: Schema, v: Json)
    requires ByType(s) && s.type_ == Name("array") && Accepts(JavaScript, defs, s, v)
    requires v.Arr? && s.items.Items? ==> forall i | 0 <= i < |v.items| ::
             Takes(env, Compile(s.items.schema), v.items[i])
    ensures Takes(env, Compile(s), v)
  {
    hide LastSegment, ObjectType, CompileFields, CompileNonNull;
  }

  lemma {:induction false} ItemsAccepted(defs: Defs, s: Schema, v: Json)
    requires v.Arr? && s.items.Items? && Accepts(JavaScript, defs, s, v)
    ensures forall i | 0 <= i < |v.items| :: Accepts(JavaScript, defs, s.items.schema, v.items[i])
  {
    hide LastSegment, OfType;
    assert Keywords(JavaScript, defs, s, v);
  }

  lemma {:induction false} RecordNotRefused(defs: Defs, env: Env, s: Schema, v: Json)
    requires ByType(s) && s.type_ == Name("object") && s.additional.Every? && Accepts(JavaScript, defs, s, v)
    requires v.Obj? ==> forall key | key in v.fields :: Takes(env, Compile(s.additional.schema), v.fields[key])
    ensures Takes(env, Compile(s), v)
  {
    hide LastSegment, ObjectType, CompileFields, CompileNonNull;
  }

  lemma {:induction false} EntriesAccepted(defs: Defs, s: Schema, v: Json)
    requires v.Obj? && s.additional.Every? && Props(s) == [] && Accepts(JavaScript, defs, s, v)
    ensures forall key | key in v.fields :: Accepts(JavaScript, defs, s.additional.schema, v.fields[key])
  {
    hide LastSegment, OfType;
    assert Keywords(JavaScript, defs, s, v);
    forall key | key in v.fields ensures Accepts(JavaScript, defs, s.additional.schema, v.fields[key]) {
      assert !Declared(s, key);
    }
  }

  lemma {:induction false} ObjectNotRefused(defs: Defs, env: Env, s: Schema, v: Json)
    requires ByType(s) && s.type_ == Name("object") && !s.additional.Every? && Accepts(JavaScript, defs, s, v)
    requires s.additional != Flag(true) && s.properties.Properties? ==>
      TakesFields(env, CompileFields(Props(s), s.required), s.additional == Flag(false), v)
    ensures Takes(env, Compile(s), v)
  {
    hide LastSegment, CompileFields, CompileNonNull, TakesFields;
  }

  lemma {:induction false} ScalarNotRefused(defs: Defs, env: Env, s: Schema, v: Json)
    requires ByType(s) && s.type_ != Name("array") && s.type_ != Name("object") && Accepts(JavaScript, defs, s, v)
    ensures Takes(env, Compile(s), v)
  {
    hide LastSegment, ObjectType, CompileFields, CompileNonNull;
  }

  /** Every instance the schema accepts, as a JavaScript runtime reads it, is taken by the generated type. */
  lemma {:induction false} NothingRefused(defs: Defs, env: Env, s: Schema, v: Json)
    requires SupportedDefs(defs) && EnvFor(defs, env) && Supported(s)
    requires Accepts(JavaScript, defs, s, v)
    ensures Takes(env, Compile(s), v)
    decreases v, 1, s
  {
    hide SupportedDefs, EnvFor, Takes, Compile, Accepts, TakesFields, CompileFields, LastSegment, FieldOk;
    if s.ref.Some? {
      var name := LastSegment(s.ref.value);
      RefAccepted(defs, s, v);
      DefinitionSupported(defs, name);
      FieldsNotRefused(defs, env, defs[name], v);
      RefNotRefused(defs, env, s, v);
    } else if s.const_.Some? {
      ConstNotRefused(defs, env, s, v);
    } else if s.enum_.Some? {
      EnumAccepted(defs, env, s, v);
    } else if s.anyOf.AnyOf? {
      AnyOfNotRefused(defs, env, s, v);
    } else if s.type_ == Name("array") {
      if s.items.Items? && v.Arr? {
        ItemsAccepted(defs, s, v);
        forall i | 0 <= i < |v.items| ensures Takes(env, Compile(s.items.schema), v.items[i]) {
          NothingRefused(defs, env, s.items.schema, v.items[i]);
        }
      }
      ArrayNotRefused(defs, env, s, v);
    } else if s.type_ == Name("object") {
      if s.additional.Every? {
        if v.Obj? {
          EntriesAccepted(defs, s, v);
          forall key | key in v.fields ensures Takes(env, Compile(s.additional.schema), v.fields[key]) {
            NothingRefused(defs, env, s.additional.schema, v.fields[key]);
          }
        }
        RecordNotRefused(defs, env, s, v);
      } else {
        if s.additional != Flag(true) {
          KeywordsHold(defs, s, v);
          FieldsNotRefused(defs, env, s, v);
        }
        ObjectNotRefused(defs, env, s, v);
      }
    } else {
      ScalarNotRefused(defs, env, s, v);
    }
  }

  lemma {:induction false} KeywordsHold(defs: Defs, s: Schema, v: Json)
    requires Accepts(JavaScript, defs, s, v)
    ensures Keywords(JavaScript, defs, s, v)
  {
    hide Keywords, LastSegment;
  }

  lemma {:induction false} DefinitionSupported(defs: Defs, name: string)
    requires SupportedDefs(defs) && name in defs
    ensures defs[name].type_ == Name("object")
    ensures forall p | p in Props(defs[name]) :: Supported(p.schema) && FieldOk(p, defs[name].required)
  {
    hide Supported, FieldOk;
  }

  lemma {:induction false} EnumNotRefused(env: Env, values: seq<Json>, v: Json)
    requires v in values && forall w | w in values :: Primitive(w)
    ensures Takes(env, if AllStrings(values) then ZEnum(Texts(values)) else ZUnion(Literals(values)), v)
  {
    var i :| 0 <= i < |values| && values[i] == v;
    if AllStrings(values) {
      assert Texts(values)[i] == v.s;
    } else {
      assert Takes(env, Literals(values)[i], v);
    }
  }

  lemma {:induction false} NullEntryIsNull(r: Reading, defs: Defs, s: Schema, v: Json)
    requires IsNullEntry(s) && Accepts(r, defs, s, v)
    ensures v.Null?
  {
    assert Keywords(r, defs, s, v);
    assert OfType(r, "null", v);
  }

  ghost predicate SomeAlternativeTakes(env: Env, alts: seq<Schema>, v: Json) {
    exists i | 0 <= i < |alts| :: !IsNullEntry(alts[i]) && Takes(env, Compile(alts[i]), v)
  }

  lemma {:induction false} AlternativesTake(env: Env, alts: seq<Schema>, v: Json)
    ensures Takes(env, Choose(CompileNonNull(alts)), v) <==> SomeAlternativeTakes(env, alts, v)
  {
    hide Compile, Takes, Choose;
    ChooseTakes(env, CompileNonNull(alts), v);
    NonNullMembers(alts);
    if exists z | z in CompileNonNull(alts) :: Takes(env, z, v) {
      var z :| z in CompileNonNull(alts) && Takes(env, z, v);
      var i :| 0 <= i < |alts| && !IsNullEntry(alts[i]) && z == Compile(alts[i]);
    }
  }

  /** A compiled `anyOf`: one of its non-null alternatives, or null when it has a null entry. */
  lemma {:induction false} AnyOfTakes(env: Env, s: Schema, v: Json)
    requires s.ref == None && s.const_ == None && s.enum_ == None && s.anyOf.AnyOf?
    ensures var alts := s.anyOf.alts;
            Takes(env, Compile(s), v) <==>
              || (v.Null? && exists i | 0 <= i < |alts| :: IsNullEntry(alts[i]))
              || SomeAlternativeTakes(env, alts, v)
  {
    hide Choose, CompileNonNull, SomeAlternativeTakes;
    AlternativesTake(env, s.anyOf.alts, v);
  }

  lemma {:induction false} AnyOfNotRefused(defs: Defs, env: Env, s: Schema, v: Json)
    requires SupportedDefs(defs) && EnvFor(defs, env)
    requires s.ref == None && s.const_ == None && s.enum_ == None && s.anyOf.AnyOf? && Supported(s)
    requires Accepts(JavaScript, defs, s, v)
    ensures Takes(env, Compile(s), v)
    decreases v, 1, s, 0
  {
    hide Compile;
    var alts := s.anyOf.alts;
    var i :| 0 <= i < |alts| && Accepts(JavaScript, defs, alts[i], v);
    AnyOfTakes(env, s, v);
    if IsNullEntry(alts[i]) {
      NullEntryIsNull(JavaScript, defs, alts[i], v);
    } else {
      NothingRefused(defs, env, alts[i], v);
    }
  }

  lemma {:induction false} FieldsNotRefused(defs: Defs, env: Env, s: Schema, v: Json)
    requires SupportedDefs(defs) && EnvFor(defs, env)
    requires s.type_ == Name("object") && forall p | p in Props(s) :: Supported(p.schema) && FieldOk(p, s.required)
    requires Keywords(JavaScript, defs, s, v)
    ensures TakesFields(env, CompileFields(Props(s), s.required), s.additional == Flag(false), v)
    decreases v, 0
  {
    var props := Props(s);
    var fields := CompileFields(props, s.required);
    forall f | f in fields
      ensures if f.name in v.fields then Takes(env, f.type_, v.fields[f.name]) else TakesUndefined(f.type_)
    {
      var i :| 0 <= i < |fields| && fields[i] == f;
      FieldsAt(props, s.required, i);
      assert props[i] in props;
      if f.name in v.fields { NothingRefused(defs, env, props[i].schema, v.fields[f.name]); }
    }
    if s.additional == Flag(false) {
      forall key | key in v.fields ensures exists f | f in fields :: f.name == key {
        assert Declared(s, key);
        var p :| p in props && p.name == key;
        var i :| 0 <= i < |props| && props[i] == p;
        FieldsAt(props, s.required, i);
        assert fields[i] in fields;
      }
    }
  }
}
