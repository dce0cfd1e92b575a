/** When a generated Zod schema accepts exactly what its JSON Schema does, and where it accepts more. */
module ZodExactness {
  import opened JsonSchema
  import opened Wrappers
  import opened ZodCompiler
  import opened ZodCorrectness

  // ----- the relaxed schema -----

  /** A declared property whose generated type takes `undefined`. */
  predicate Tolerated(props: seq<Property>, name: string) {
    exists i | 0 <= i < |props| :: props[i].name == name && TakesUndefined(Compile(props[i].schema))
  }

  function Kept(required: seq<string>, props: seq<Property>): (r: seq<string>)
    ensures forall name :: name in r <==> name in required && !Tolerated(props, name)
  {
    if required == [] then []
    else (if Tolerated(props, required[0]) then [] else [required[0]]) + Kept(required[1..], props)
  }

  /** The same schema, except that a property whose type takes `undefined` is not required; at every depth. */
  function Relax(s: Schema): Schema {
    s.(anyOf := match s.anyOf { case NoAnyOf => NoAnyOf case AnyOf(alts) => AnyOf(RelaxAll(alts)) },
       items := match s.items { case NoItems => NoItems case Items(item) => Items(Relax(item)) },
       additional := match s.additional { case Every(schema) => Every(Relax(schema)) case other => other },
       properties := match s.properties {
         case NoProperties => NoProperties
         case Properties(props) => Properties(RelaxProps(props))
       },
       required := Kept(s.required, Props(s)))
  }

  function RelaxAll(alts: seq<Schema>): (r: seq<Schema>)
    ensures |r| == |alts|
  {
    if alts == [] then [] else [Relax(alts[0])] + RelaxAll(alts[1..])
  }

  function RelaxProps(props: seq<Property>): (r: seq<Property>)
    ensures |r| == |props|
  {
    if props == [] then [] else [Property(props[0].name, Relax(props[0].schema))] + RelaxProps(props[1..])
  }

  function RelaxDefs(defs: Defs): Defs {
    map name | name in defs :: Relax(defs[name])
  }

  lemma {:induction false} RelaxAllAt(alts: seq<Schema>, i: nat)
    requires i < |alts|
    ensures RelaxAll(alts)[i] == Relax(alts[i])
  {
    if i > 0 { RelaxAllAt(alts[1..], i - 1); }
  }

  lemma {:induction false} RelaxPropsAt(props: seq<Property>, i: nat)
    requires i < |props|
    ensures RelaxProps(props)[i] == Property(props[i].name, Relax(props[i].schema))
  {
    if i > 0 { RelaxPropsAt(props[1..], i - 1); }
  }

  // ----- schemas the generator renders without loss -----

  ghost predicate DistinctNames(props: seq<Property>) {
    forall i, j | 0 <= i < j < |props| :: props[i].name != props[j].name
  }

  /** The properties of an object schema without a schema for additional ones. */
  ghost predicate ExactProps(s: Schema)
    decreases s, 0
  {
    && DistinctNames(Props(s)) && (forall name | name in s.required :: Declared(s, name))
    && forall p | p in Props(s) :: Exact(p.schema) && FieldOk(p, s.required)
  }

  ghost predicate Exact(s: Schema)
    decreases s, 1
  {
    if s.ref.Some? then s == ANYTHING.(ref := s.ref)
    else if s.const_.Some? then
      && s == ANYTHING.(const_ := s.const_, type_ := s.type_)
      && Primitive(s.const_.value) && TypeOk(JavaScript, s.type_, s.const_.value)
    else if s.enum_.Some? then
      && s == ANYTHING.(enum_ := s.enum_, type_ := s.type_)
      && forall v | v in s.enum_.value :: Primitive(v) && TypeOk(JavaScript, s.type_, v)
    else if s.anyOf.AnyOf? then
      && s == ANYTHING.(anyOf := s.anyOf)
      && forall i | 0 <= i < |s.anyOf.alts| ::
           if IsNullEntry(s.anyOf.alts[i]) then s.anyOf.alts[i] == ANYTHING.(type_ := Name("null"))
           else Exact(s.anyOf.alts[i])
    else if s.type_ == Name("integer") || s.type_ == Name("number") then
      && !(s.minimum.Some? && s.exclusiveMinimum.Some?) && !(s.maximum.Some? && s.exclusiveMaximum.Some?)
    else if s.type_ == Name("array") then s.items.Items? ==> Exact(s.items.schema)
    else if s.type_ == Name("object") then
      match s.additional
      case Every(schema) => Props(s) == [] && s.required == [] && Exact(schema)
      case Flag(allowed) =>
        if allowed then Props(s) == [] && s.required == [] else s.properties.Properties? && ExactProps(s)
      case NoAdditional => ExactProps(s)
    else s.type_ == Name("string") || s.type_ == Name("boolean") || s.type_ == Name("null") || s == ANYTHING
  }

  ghost predicate ExactDefs(defs: Defs) {
    forall name | name in defs ::
      && defs[name].type_ == Name("object") && defs[name].ref == None && defs[name].anyOf == NoAnyOf
      && defs[name].const_ == None && defs[name].enum_ == None && !defs[name].additional.Every?
      && ExactProps(defs[name])
  }

  // ----- where `undefined` gets in -----

  /** Only under a nullable `anyOf`, or where the schema says nothing about the type, does a generated type take
      `undefined`. */
  predicate AllowsUndefined(s: Schema) {
    if s.ref.Some? || s.const_.Some? || s.enum_.Some? then false
    else if s.anyOf.AnyOf? then
      exists i | 0 <= i < |s.anyOf.alts| :: IsNullEntry(s.anyOf.alts[i]) || AllowsUndefined(s.anyOf.alts[i])
    else s.type_ !in [Name("string"), Name("integer"), Name("number"), Name("boolean"), Name("null"), Name("array"),
      Name("object")]
  }

  lemma {:induction false} UndefinedAlternatives(alts: seq<Schema>)
    ensures (exists z | z in CompileNonNull(alts) :: TakesUndefined(z))
            <==> exists i | 0 <= i < |alts| :: !IsNullEntry(alts[i]) && TakesUndefined(Compile(alts[i]))
  {
    hide Compile, TakesUndefined;
    NonNullMembers(alts);
    if exists z | z in CompileNonNull(alts) :: TakesUndefined(z) {
      var z :| z in CompileNonNull(alts) && TakesUndefined(z);
      var i :| 0 <= i < |alts| && !IsNullEntry(alts[i]) && z == Compile(alts[i]);
    }
  }

  lemma {:induction false} AnyOfUndefined(s: Schema)
    requires s.ref == None && s.const_ == None && s.enum_ == None && s.anyOf.AnyOf?
    ensures var alts := s.anyOf.alts;
            TakesUndefined(Compile(s)) <==>
              || (exists i | 0 <= i < |alts| :: IsNullEntry(alts[i]))
              || (exists i | 0 <= i < |alts| :: !IsNullEntry(alts[i]) && TakesUndefined(Compile(alts[i])))
  {
    hide Choose, CompileNonNull;
    UndefinedAlternatives(s.anyOf.alts);
    ChooseUndefined(CompileNonNull(s.anyOf.alts));
  }

  lemma {:induction false} NotAnyOfUndefined(s: Schema)
    requires s.ref.Some? || s.const_.Some? || s.enum_.Some? || s.anyOf == NoAnyOf
    ensures TakesUndefined(Compile(s)) <==> AllowsUndefined(s)
  {
    hide CompileFields, CompileNonNull, Choose, LastSegment, Literals, Texts, AllStrings;
    if s.ref == None && s.const_ == None && s.enum_.Some? && !AllStrings(s.enum_.value) {
      assert forall z | z in Literals(s.enum_.value) :: !TakesUndefined(z);
    }
  }

  /** The extra instances a Zod schema takes come from absent values at exactly these positions. */
  lemma {:induction false} UndefinedPositions(s: Schema)
    ensures TakesUndefined(Compile(s)) <==> AllowsUndefined(s)
  {
    if s.ref == None && s.const_ == None && s.enum_ == None && s.anyOf.AnyOf? {
      hide Compile;
      var alts := s.anyOf.alts;
      forall i | 0 <= i < |alts| ensures TakesUndefined(Compile(alts[i])) <==> AllowsUndefined(alts[i]) {
        UndefinedPositions(alts[i]);
      }
      AnyOfUndefined(s);
    } else {
      NotAnyOfUndefined(s);
    }
  }

  // ----- exactness -----

  /** The values of one property are taken exactly when its relaxed schema accepts them. */
  ghost predicate Agrees(defs: Defs, env: Env, s: Schema, v: Json) {
    Takes(env, Compile(s), v) <==> Accepts(JavaScript, RelaxDefs(defs), Relax(s), v)
  }

  ghost predicate PropsAgree(defs: Defs, env: Env, props: seq<Property>, v: Json)
    requires v.Obj?
  {
    forall i | 0 <= i < |props| && props[i].name in v.fields ::
      Agrees(defs, env, props[i].schema, v.fields[props[i].name])
  }

  lemma {:induction false} TakesWrapped(env: Env, name: string, z: Zod, required: seq<string>, v: Json)
    ensures Takes(env, FieldType(name, z, required), v) <==> Takes(env, z, v)
  {
  }

  /** From Zod to the relaxed schema, for objects. */
  lemma {:induction false} FieldsSound(defs: Defs, env: Env, s: Schema, v: Json)
    requires v.Obj? && s.type_ == Name("object") && s.const_ == None && s.enum_ == None && !s.additional.Every?
    requires ExactProps(s) && PropsAgree(defs, env, Props(s), v)
    requires s.additional == Flag(true) ==> Props(s) == []
    requires TakesFields(env, CompileFields(Props(s), s.required), s.additional == Flag(false), v)
    ensures Keywords(JavaScript, RelaxDefs(defs), Relax(s), v)
  {
    var props, fields := Props(s), CompileFields(Props(s), s.required);
    var t := Relax(s);
    assert Props(t) == RelaxProps(props);
    forall name | name in t.required ensures name in v.fields {
      RequiredIsPresent(env, s, v, name);
    }
    forall q | q in Props(t) && q.name in v.fields
      ensures Accepts(JavaScript, RelaxDefs(defs), q.schema, v.fields[q.name]) {
      var i :| 0 <= i < |props| && Props(t)[i] == q;
      RelaxPropsAt(props, i);
      FieldsAt(props, s.required, i);
      assert fields[i] in fields;
      TakesWrapped(env, props[i].name, Compile(props[i].schema), s.required, v.fields[q.name]);
      assert Agrees(defs, env, props[i].schema, v.fields[q.name]);
    }
    if s.additional == Flag(false) {
      forall key | key in v.fields ensures Declared(t, key) {
        var f :| f in fields && f.name == key;
        var i :| 0 <= i < |fields| && fields[i] == f;
        FieldsAt(props, s.required, i);
        RelaxPropsAt(props, i);
        assert Props(t)[i] in Props(t);
      }
    }
  }

  lemma {:induction false} RequiredIsPresent(env: Env, s: Schema, v: Json, name: string)
    requires v.Obj? && name in Kept(s.required, Props(s)) && forall n | n in s.required :: Declared(s, n)
    requires TakesFields(env, CompileFields(Props(s), s.required), s.additional == Flag(false), v)
    ensures name in v.fields
  {
    var props, fields := Props(s), CompileFields(Props(s), s.required);
    assert Declared(s, name);
    var p :| p in props && p.name == name;
    var i :| 0 <= i < |props| && props[i] == p;
    FieldsAt(props, s.required, i);
    assert fields[i] in fields;
    assert TakesUndefined(Compile(props[i].schema)) ==> Tolerated(props, name);
  }

  /** From the relaxed schema to Zod, for objects. */
  lemma {:induction false} FieldsComplete(defs: Defs, env: Env, s: Schema, v: Json)
    requires v.Obj? && !s.additional.Every?
    requires ExactProps(s) && PropsAgree(defs, env, Props(s), v)
    requires Keywords(JavaScript, RelaxDefs(defs), Relax(s), v)
    ensures TakesFields(env, CompileFields(Props(s), s.required), s.additional == Flag(false), v)
  {
    var props, fields := Props(s), CompileFields(Props(s), s.required);
    var t := Relax(s);
    assert Props(t) == RelaxProps(props);
    forall f | f in fields
      ensures if f.name in v.fields then Takes(env, f.type_, v.fields[f.name]) else TakesUndefined(f.type_)
    {
      var i :| 0 <= i < |fields| && fields[i] == f;
      FieldsAt(props, s.required, i);
      RelaxPropsAt(props, i);
      assert props[i] in props && Props(t)[i] in Props(t);
      if f.name in v.fields {
        assert Agrees(defs, env, props[i].schema, v.fields[f.name]);
        TakesWrapped(env, props[i].name, Compile(props[i].schema), s.required, v.fields[f.name]);
      } else {
        AbsentIsTaken(s, i);
        assert f.name !in t.required;
      }
    }
    if s.additional == Flag(false) {
      forall key | key in v.fields ensures exists f | f in fields :: f.name == key {
        assert Declared(t, key);
        var q :| q in Props(t) && q.name == key;
        var i :| 0 <= i < |props| && Props(t)[i] == q;
        RelaxPropsAt(props, i);
        FieldsAt(props, s.required, i);
        assert fields[i] in fields;
      }
    }
  }

  lemma {:induction false} AbsentIsTaken(s: Schema, i: nat)
    requires ExactProps(s) && i < |Props(s)|
    requires Props(s)[i].name !in Kept(s.required, Props(s))
    ensures TakesUndefined(FieldType(Props(s)[i].name, Compile(Props(s)[i].schema), s.required))
  {
    var p := Props(s)[i];
    assert p in Props(s) && FieldOk(p, s.required);
    if p.name in s.required {
      assert Tolerated(Props(s), p.name);
      var j :| 0 <= j < |Props(s)| && Props(s)[j].name == p.name && TakesUndefined(Compile(Props(s)[j].schema));
      assert j == i;
    }
  }

  /** Neither side of the translation sees a keyword in a schema without any. */
  lemma {:induction false} NoKeywords(r: Reading, defs: Defs, s: Schema, v: Json)
    requires s == ANYTHING.(ref := s.ref, anyOf := s.anyOf)
    ensures Keywords(r, defs, s, v)
  {
  }

  lemma {:induction false} ValueSets(r: Reading, defs: Defs, s: Schema, v: Json)
    requires s == ANYTHING.(const_ := s.const_, enum_ := s.enum_, type_ := s.type_)
    ensures Keywords(r, defs, s, v) <==>
              TypeOk(r, s.type_, v) && (s.const_.Some? ==> v == s.const_.value)
                && (s.enum_.Some? ==> v in s.enum_.value)
  {
  }

  lemma {:induction false} RelaxPlain(s: Schema)
    requires s.items == NoItems && s.additional == NoAdditional && s.properties == NoProperties && s.required == []
    ensures s.anyOf == NoAnyOf ==> Relax(s) == s
    ensures s.anyOf.AnyOf? ==> Relax(s) == s.(anyOf := AnyOf(RelaxAll(s.anyOf.alts)))
  {
  }

  lemma {:induction false} EnumTakes(env: Env, values: seq<Json>, v: Json)
    requires forall w | w in values :: Primitive(w)
    ensures Takes(env, if AllStrings(values) then ZEnum(Texts(values)) else ZUnion(Literals(values)), v)
       <==> v in values
  {
    if v in values {
      EnumNotRefused(env, values, v);
    } else if !AllStrings(values) {
      forall i | 0 <= i < |values| ensures !Takes(env, Literals(values)[i], v) { assert values[i] in values; }
    }
  }

  /** Exactness: on schemas rendered without loss the Zod type takes exactly the values the relaxed schema accepts. */
  lemma {:induction false} ExactlyTaken(defs: Defs, env: Env, s: Schema, v: Json)
    requires ExactDefs(defs) && EnvFor(defs, env) && Exact(s)
    ensures Agrees(defs, env, s, v)
    decreases v, 1, s, 1
  {
    if s.ref.Some? {
      RefExact(defs, env, s, v);
    } else if s.const_.Some? {
      RelaxPlain(s);
      ValueSets(JavaScript, RelaxDefs(defs), s, v);
    } else if s.enum_.Some? {
      RelaxPlain(s);
      ValueSets(JavaScript, RelaxDefs(defs), s, v);
      EnumTakes(env, s.enum_.value, v);
    } else if s.anyOf.AnyOf? {
      AnyOfExact(defs, env, s, v);
    } else if s.type_ == Name("array") {
      ArrayExact(defs, env, s, v);
    } else if s.type_ == Name("object") {
      ObjectExact(defs, env, s, v);
    } else {
      ScalarExact(defs, env, s, v);
    }
  }

  lemma {:induction false} ScalarExact(defs: Defs, env: Env, s: Schema, v: Json)
    requires Exact(s) && s.ref == None && s.const_ == None && s.enum_ == None && s.anyOf == NoAnyOf
    requires s.type_ != Name("array") && s.type_ != Name("object")
    ensures Agrees(defs, env, s, v)
  {
    if s == ANYTHING {
      RelaxPlain(s);
      NoKeywords(JavaScript, RelaxDefs(defs), s, v);
    }
  }

  lemma {:induction false} SameNames(defs: Defs, env: Env)
    requires EnvFor(defs, env)
    ensures forall name :: name in defs <==> name in env
  {
  }

  lemma {:induction false} TakesRef(env: Env, s: Schema, v: Json)
    requires s.ref.Some?
    ensures var name := LastSegment(s.ref.value);
            Takes(env, Compile(s), v) <==> name in env && TakesFields(env, env[name].fields, env[name].strict, v)
  {
    hide TakesFields, LastSegment;
  }

  lemma {:induction false} AcceptsRef(r: Reading, defs: Defs, s: Schema, v: Json)
    requires s.ref.Some? && s == ANYTHING.(ref := s.ref)
    ensures var name := LastSegment(s.ref.value);
            Accepts(r, defs, s, v) <==> name in defs && Keywords(r, defs, defs[name], v)
  {
    NoKeywords(r, defs, s, v);
    hide Keywords, LastSegment;
  }

  lemma {:induction false} AcceptsPlain(r: Reading, defs: Defs, s: Schema, v: Json)
    requires s.ref == None && s.anyOf == NoAnyOf
    ensures Accepts(r, defs, s, v) <==> Keywords(r, defs, s, v)
  {
    hide Keywords;
  }

  lemma {:induction false} RefExact(defs: Defs, env: Env, s: Schema, v: Json)
    requires ExactDefs(defs) && EnvFor(defs, env) && s.ref.Some? && s == ANYTHING.(ref := s.ref)
    ensures Agrees(defs, env, s, v)
    decreases v, 1, s, 0
  {
    hide Takes, Accepts, TakesFields, Keywords, Relax, Compile, LastSegment, ExactDefs, EnvFor;
    RelaxPlain(s);
    TakesRef(env, s, v);
    AcceptsRef(JavaScript, RelaxDefs(defs), s, v);
    SameNames(defs, env);
    var name := LastSegment(s.ref.value);
    if name in defs {
      DefExact(defs, env, name, v);
    }
  }

  /** A generated model takes exactly what its relaxed definition accepts. */
  lemma {:induction false} DefExact(defs: Defs, env: Env, name: string, v: Json)
    requires ExactDefs(defs) && EnvFor(defs, env) && name in defs
    ensures TakesFields(env, env[name].fields, env[name].strict, v) <==>
              Keywords(JavaScript, RelaxDefs(defs), RelaxDefs(defs)[name], v)
    decreases v, 0
  {
    if v.Obj? {
      PropsExact(defs, env, defs[name], v);
      if TakesFields(env, env[name].fields, env[name].strict, v) {
        if defs[name].additional == Flag(true) {
          FieldsSoundOpen(defs, env, defs[name], v);
        } else {
          FieldsSound(defs, env, defs[name], v);
        }
      }
      if Keywords(JavaScript, RelaxDefs(defs), RelaxDefs(defs)[name], v) {
        FieldsComplete(defs, env, defs[name], v);
      }
    }
  }

  /** `additionalProperties: true` says no more than leaving it out. */
  lemma {:induction false} FieldsSoundOpen(defs: Defs, env: Env, s: Schema, v: Json)
    requires v.Obj? && s.type_ == Name("object") && s.const_ == None && s.enum_ == None && s.additional == Flag(true)
    requires ExactProps(s) && PropsAgree(defs, env, Props(s), v)
    requires TakesFields(env, CompileFields(Props(s), s.required), false, v)
    ensures Keywords(JavaScript, RelaxDefs(defs), Relax(s), v)
  {
    var open := s.(additional := NoAdditional);
    assert Props(open) == Props(s);
    assert forall n :: Declared(open, n) <==> Declared(s, n);
    FieldsSound(defs, env, open, v);
    assert Props(Relax(open)) == Props(Relax(s));
  }

  lemma {:induction false} PropsExact(defs: Defs, env: Env, s: Schema, v: Json)
    requires ExactDefs(defs) && EnvFor(defs, env) && ExactProps(s) && v.Obj?
    ensures PropsAgree(defs, env, Props(s), v)
    decreases v, 0, 0
  {
    var props := Props(s);
    forall i | 0 <= i < |props| && props[i].name in v.fields
      ensures Agrees(defs, env, props[i].schema, v.fields[props[i].name])
    {
      assert props[i] in props;
      ExactlyTaken(defs, env, props[i].schema, v.fields[props[i].name]);
    }
  }

  lemma {:induction false} ArrayExact(defs: Defs, env: Env, s: Schema, v: Json)
    requires ExactDefs(defs) && EnvFor(defs, env) && Exact(s)
    requires s.ref == None && s.const_ == None && s.enum_ == None && s.anyOf == NoAnyOf && s.type_ == Name("array")
    ensures Agrees(defs, env, s, v)
    decreases v, 1, s, 0
  {
    if v.Arr? && s.items.Items? {
      forall i | 0 <= i < |v.items| ensures Agrees(defs, env, s.items.schema, v.items[i]) {
        ExactlyTaken(defs, env, s.items.schema, v.items[i]);
      }
    }
    ItemsDecide(defs, env, s, v);
  }

  lemma {:induction false} CompiledArray(s: Schema)
    requires ByType(s) && s.type_ == Name("array")
    ensures Compile(s) == ZArray(if s.items.Items? then Compile(s.items.schema) else ZUnknown, s.minItems, s.maxItems)
  {
    hide LastSegment, CompileNonNull, CompileFields, ObjectType;
  }

  lemma {:induction false} ArrayAccepted(defs: Defs, s: Schema, v: Json)
    requires ByType(s) && s.type_ == Name("array")
    ensures Accepts(JavaScript, defs, s, v) <==>
      v.Arr? && SizeOk(s, |v.items|)
      && (s.items.Items? ==> forall i | 0 <= i < |v.items| :: Accepts(JavaScript, defs, s.items.schema, v.items[i]))
  {
    hide LastSegment;
    assert Accepts(JavaScript, defs, s, v) <==> Keywords(JavaScript, defs, s, v);
  }

  lemma {:induction false} RelaxedArray(s: Schema)
    requires ByType(s) && s.type_ == Name("array")
    ensures ByType(Relax(s)) && Relax(s).type_ == Name("array")
    ensures Relax(s).items == if s.items.Items? then Items(Relax(s.items.schema)) else NoItems
    ensures Relax(s).minItems == s.minItems && Relax(s).maxItems == s.maxItems
  {
    hide RelaxAll, RelaxProps, Kept;
  }

  lemma {:induction false} TakesArray(env: Env, item: Zod, s: Schema, v: Json)
    ensures Takes(env, ZArray(item, s.minItems, s.maxItems), v) <==>
      v.Arr? && SizeOk(s, |v.items|) && forall i | 0 <= i < |v.items| :: Takes(env, item, v.items[i])
  {
  }

  lemma {:induction false} ItemsDecide(defs: Defs, env: Env, s: Schema, v: Json)
    requires ByType(s) && s.type_ == Name("array")
    requires v.Arr? && s.items.Items? ==> forall i | 0 <= i < |v.items| :: Agrees(defs, env, s.items.schema, v.items[i])
    ensures Agrees(defs, env, s, v)
  {
    var item := if s.items.Items? then Compile(s.items.schema) else ZUnknown;
    forall x: Json ensures Takes(env, ZUnknown, x) {}
    CompiledArray(s);
    RelaxedArray(s);
    TakesArray(env, item, s, v);
    hide Relax, Compile, Accepts, RelaxDefs, Takes;
    ArrayAccepted(RelaxDefs(defs), Relax(s), v);
    if v.Arr? && s.items.Items? {
      forall i | 0 <= i < |v.items|
        ensures Takes(env, item, v.items[i])
           <==> Accepts(JavaScript, RelaxDefs(defs), Relax(s.items.schema), v.items[i])
      {
        assert Agrees(defs, env, s.items.schema, v.items[i]);
      }
    }
  }

  lemma {:induction false} ObjectExact(defs: Defs, env: Env, s: Schema, v: Json)
    requires ExactDefs(defs) && EnvFor(defs, env) && Exact(s)
    requires s.ref == None && s.const_ == None && s.enum_ == None && s.anyOf == NoAnyOf && s.type_ == Name("object")
    ensures Agrees(defs, env, s, v)
    decreases v, 1, s, 0
  {
    if !v.Obj? {
      NonObject(defs, env, s, v);
    } else {
      hide Takes, Accepts, Keywords, Compile, Relax, RelaxDefs;
      if s.additional.Every? {
        forall key | key in v.fields ensures Agrees(defs, env, s.additional.schema, v.fields[key]) {
          ExactlyTaken(defs, env, s.additional.schema, v.fields[key]);
        }
        RecordExact(defs, env, s, v);
      } else if s.additional == Flag(true) {
        OpenExact(defs, env, s, v);
      } else {
        PropsExact(defs, env, s, v);
        PropertiesExact(defs, env, s, v);
      }
    }
  }

  lemma {:induction false} NonObject(defs: Defs, env: Env, s: Schema, v: Json)
    requires s.ref == None && s.const_ == None && s.enum_ == None && s.anyOf == NoAnyOf && s.type_ == Name("object")
    requires !v.Obj?
    ensures Agrees(defs, env, s, v)
  {
    assert !OfType(JavaScript, "object", v) && Relax(s).type_ == Name("object");
    assert !Keywords(JavaScript, RelaxDefs(defs), Relax(s), v);
    assert Compile(s).ZRecord? || Compile(s).ZObject?;
    hide Compile, CompileFields, Relax;
    assert !Takes(env, Compile(s), v);
  }

  lemma {:induction false} OpenExact(defs: Defs, env: Env, s: Schema, v: Json)
    requires s.ref == None && s.const_ == None && s.enum_ == None && s.anyOf == NoAnyOf && s.type_ == Name("object")
    requires s.additional == Flag(true) && Props(s) == [] && s.required == [] && v.Obj?
    ensures Agrees(defs, env, s, v)
  {
    var t := Relax(s);
    assert Props(t) == [] && t.required == [] && t.additional == Flag(true);
    assert Keywords(JavaScript, RelaxDefs(defs), t, v);
    AcceptsPlain(JavaScript, RelaxDefs(defs), t, v);
    assert Compile(s) == ZRecord(ZUnknown);
    assert forall key | key in v.fields :: Takes(env, ZUnknown, v.fields[key]);
    RecordTakes(env, ZUnknown, v);
    assert Takes(env, Compile(s), v);
    assert Accepts(JavaScript, RelaxDefs(defs), t, v);
  }

  lemma {:induction false} RecordExact(defs: Defs, env: Env, s: Schema, v: Json)
    requires s.ref == None && s.const_ == None && s.enum_ == None && s.anyOf == NoAnyOf && s.type_ == Name("object")
    requires s.additional.Every? && Props(s) == [] && s.required == [] && v.Obj?
    requires forall key | key in v.fields :: Agrees(defs, env, s.additional.schema, v.fields[key])
    ensures Agrees(defs, env, s, v)
  {
    var t := Relax(s);
    assert Props(t) == [] && t.required == [] && t.additional == Every(Relax(s.additional.schema));
    assert t.type_ == s.type_ && t.ref == None && t.anyOf == NoAnyOf && t.const_ == None && t.enum_ == None;
    hide Takes, Accepts, Keywords, Compile, Relax, RelaxDefs;
    TakesRecord(env, s, v);
    AcceptsPlain(JavaScript, RelaxDefs(defs), t, v);
    KeywordsRecord(JavaScript, RelaxDefs(defs), t, v);
  }

  lemma {:induction false} TakesRecord(env: Env, s: Schema, v: Json)
    requires s.ref == None && s.const_ == None && s.enum_ == None && s.anyOf == NoAnyOf && s.type_ == Name("object")
    requires s.additional.Every? && v.Obj?
    ensures Takes(env, Compile(s), v)
       <==> forall key | key in v.fields :: Takes(env, Compile(s.additional.schema), v.fields[key])
  {
    hide Compile, Takes;
    CompilesToRecord(s);
    RecordTakes(env, Compile(s.additional.schema), v);
  }

  lemma {:induction false} CompilesToRecord(s: Schema)
    requires s.ref == None && s.const_ == None && s.enum_ == None && s.anyOf == NoAnyOf && s.type_ == Name("object")
    requires s.additional.Every?
    ensures Compile(s) == ZRecord(Compile(s.additional.schema))
  {
    hide LastSegment, AllStrings, Texts, Literals, Choose, CompileNonNull, NumberType, ObjectType, NullableOptional,
      IsNullEntry;
  }

  lemma {:induction false} RecordTakes(env: Env, entry: Zod, v: Json)
    requires v.Obj?
    ensures Takes(env, ZRecord(entry), v) <==> forall key | key in v.fields :: Takes(env, entry, v.fields[key])
  {
  }

  lemma {:induction false} KeywordsRecord(r: Reading, defs: Defs, s: Schema, v: Json)
    requires s.const_ == None && s.enum_ == None && s.type_ == Name("object")
    requires s.additional.Every? && Props(s) == [] && s.required == [] && v.Obj?
    ensures Keywords(r, defs, s, v)
       <==> forall key | key in v.fields :: Accepts(r, defs, s.additional.schema, v.fields[key])
  {
    hide Accepts;
    assert forall key :: !Declared(s, key);
  }

  lemma {:induction false} TakesObject(env: Env, s: Schema, v: Json)
    requires s.ref == None && s.const_ == None && s.enum_ == None && s.anyOf == NoAnyOf && s.type_ == Name("object")
    requires s.additional == Flag(false) || s.additional == NoAdditional
    ensures s.properties.Properties? ==>
              (Takes(env, Compile(s), v)
              <==> TakesFields(env, CompileFields(Props(s), s.required), s.additional == Flag(false), v))
    ensures s.properties.NoProperties? ==> (Takes(env, Compile(s), v) <==> v.Obj?)
  {
    hide TakesFields, CompileFields;
  }

  lemma {:induction false} PropertiesExact(defs: Defs, env: Env, s: Schema, v: Json)
    requires s.ref == None && s.const_ == None && s.enum_ == None && s.anyOf == NoAnyOf && s.type_ == Name("object")
    requires (s.additional == Flag(false) && s.properties.Properties?) || s.additional == NoAdditional
    requires ExactProps(s) && v.Obj? && PropsAgree(defs, env, Props(s), v)
    ensures Agrees(defs, env, s, v)
  {
    assert Relax(s).ref == None && Relax(s).anyOf == NoAnyOf;
    hide Takes, Accepts, TakesFields, Keywords, Compile, CompileFields, ExactProps, PropsAgree, Relax, RelaxDefs;
    FieldsExact(defs, env, s, v);
    TakesObject(env, s, v);
    AcceptsPlain(JavaScript, RelaxDefs(defs), Relax(s), v);
    if s.properties.NoProperties? {
      NothingDeclared(defs, env, s, v);
    }
  }

  lemma {:induction false} FieldsExact(defs: Defs, env: Env, s: Schema, v: Json)
    requires s.const_ == None && s.enum_ == None && s.type_ == Name("object")
    requires s.additional == Flag(false) || s.additional == NoAdditional
    requires ExactProps(s) && v.Obj? && PropsAgree(defs, env, Props(s), v)
    ensures TakesFields(env, CompileFields(Props(s), s.required), s.additional == Flag(false), v)
            <==> Keywords(JavaScript, RelaxDefs(defs), Relax(s), v)
  {
    hide TakesFields, Keywords, CompileFields, ExactProps, PropsAgree, Relax;
    if TakesFields(env, CompileFields(Props(s), s.required), s.additional == Flag(false), v) {
      FieldsSound(defs, env, s, v);
    }
    if Keywords(JavaScript, RelaxDefs(defs), Relax(s), v) {
      FieldsComplete(defs, env, s, v);
    }
  }

  lemma {:induction false} NothingDeclared(defs: Defs, env: Env, s: Schema, v: Json)
    requires v.Obj? && s.properties.NoProperties? && s.additional == NoAdditional && ExactProps(s)
    ensures TakesFields(env, CompileFields(Props(s), s.required), s.additional == Flag(false), v)
  {
  }

  /** One alternative of an `anyOf` and its relaxed form. */
  ghost predicate AlternativeAgrees(rdefs: Defs, env: Env, alt: Schema, relaxed: Schema, v: Json) {
    Accepts(JavaScript, rdefs, relaxed, v) <==> (if IsNullEntry(alt) then v.Null? else Takes(env, Compile(alt), v))
  }

  lemma {:induction false} AnyOfExact(defs: Defs, env: Env, s: Schema, v: Json)
    requires ExactDefs(defs) && EnvFor(defs, env) && Exact(s)
    requires s.ref == None && s.const_ == None && s.enum_ == None && s.anyOf.AnyOf?
    ensures Agrees(defs, env, s, v)
    decreases v, 1, s, 0
  {
    var alts := s.anyOf.alts;
    assert s == ANYTHING.(anyOf := s.anyOf);
    assert forall i | 0 <= i < |alts| ::
        if IsNullEntry(alts[i]) then alts[i] == ANYTHING.(type_ := Name("null")) else Exact(alts[i]);
    hide Exact, ExactDefs, EnvFor, AlternativeAgrees, RelaxAll, Relax, RelaxDefs, Takes, Accepts, Compile;
    forall i | 0 <= i < |alts| ensures AlternativeAgrees(RelaxDefs(defs), env, alts[i], RelaxAll(alts)[i], v) {
      AlternativeExact(defs, env, s, i, v);
    }
    AlternativesExact(RelaxDefs(defs), env, s, v);
  }

  lemma {:induction false} AlternativeExact(defs: Defs, env: Env, s: Schema, i: nat, v: Json)
    requires ExactDefs(defs) && EnvFor(defs, env) && s.anyOf.AnyOf? && i < |s.anyOf.alts|
    requires var alt := s.anyOf.alts[i];
             if IsNullEntry(alt) then alt == ANYTHING.(type_ := Name("null")) else Exact(alt)
    ensures AlternativeAgrees(RelaxDefs(defs), env, s.anyOf.alts[i], RelaxAll(s.anyOf.alts)[i], v)
    decreases v, 1, s, 0, 0
  {
    var alt := s.anyOf.alts[i];
    hide Compile, Takes, Accepts, RelaxAll, Relax, RelaxDefs, Exact, ExactDefs, EnvFor;
    RelaxAllAt(s.anyOf.alts, i);
    if IsNullEntry(alt) {
      RelaxPlain(alt);
      ValueSets(JavaScript, RelaxDefs(defs), alt, v);
    } else {
      ExactlyTaken(defs, env, alt, v);
    }
  }

  lemma {:induction false} AlternativesExact(rdefs: Defs, env: Env, s: Schema, v: Json)
    requires s.anyOf.AnyOf? && s == ANYTHING.(anyOf := s.anyOf)
    requires var alts := s.anyOf.alts;
             forall i | 0 <= i < |alts| :: AlternativeAgrees(rdefs, env, alts[i], RelaxAll(alts)[i], v)
    ensures Takes(env, Compile(s), v) <==> Accepts(JavaScript, rdefs, Relax(s), v)
  {
    hide Compile, Relax;
    var alts := s.anyOf.alts;
    RelaxPlain(s);
    NoKeywords(JavaScript, rdefs, Relax(s), v);
    AnyOfTakes(env, s, v);
  }
}
