/** The generated protocol as a whole, and the places where it parts from its JSON Schema. */
module ProtocolSchemas {
  import opened JsonSchema
  import opened Wrappers
  import opened ZodCompiler
  import opened ZodCorrectness
  import opened ZodExactness

  /** No valid message is refused: an instance of a definition (with its `type` key, for messages) made of
      characters and integers that JavaScript represents is taken by the generated model. */
  lemma {:induction false} ValidInstancesAreTaken(defs: Defs, messages: set<string>, name: string, v: Json)
    requires name in defs && SupportedDefs(ForcedDefs(defs, messages)) && Portable(v)
    requires Keywords(Standard, ForcedDefs(defs, messages), ForcedDefs(defs, messages)[name], v)
    ensures var model := CompileDefs(defs, messages)[name];
            TakesFields(CompileDefs(defs, messages), model.fields, model.strict, v)
  {
    hide Keywords, TakesFields, Portable, SupportedDefs;
    var forced := ForcedDefs(defs, messages);
    CompiledDefs(defs, messages);
    KeywordsAgree(forced, forced[name], v);
    DefinitionSupported(forced, name);
    FieldsNotRefused(forced, CompileDefs(defs, messages), forced[name], v);
  }

  /** Exactly the relaxed instances: the generated model takes a value if and only if the definition accepts it
      once properties that tolerate absence are no longer required. */
  lemma {:induction false} GeneratedModelsAreExact(defs: Defs, messages: set<string>, name: string, v: Json)
    requires name in defs && ExactDefs(ForcedDefs(defs, messages))
    ensures var env := CompileDefs(defs, messages);
            var forced := ForcedDefs(defs, messages);
            TakesFields(env, env[name].fields, env[name].strict, v)
            <==> Keywords(JavaScript, RelaxDefs(forced), Relax(forced[name]), v)
  {
    hide Keywords, TakesFields, ExactDefs;
    CompiledDefs(defs, messages);
    DefExact(ForcedDefs(defs, messages), CompileDefs(defs, messages), name, v);
  }

  // ----- where the translation loses instances, and exactly when -----

  /** An absent optional property is taken if and only if the marker test did not fire on something nested. */
  lemma {:induction false} AbsentOptionalTakenIff(p: Property, required: seq<string>)
    requires p.name !in required
    ensures TakesUndefined(FieldType(p.name, Compile(p.schema), required))
            <==> (Mentions(Compile(p.schema)) ==> AllowsUndefined(p.schema))
  {
    hide Compile, AllowsUndefined, Mentions;
    UndefinedPositions(p.schema);
  }

  function OfTypeName(name: string): Schema { ANYTHING.(type_ := Name(name)) }

  const NULLABLE_TEXT := ANYTHING.(anyOf := AnyOf([OfTypeName("string"), OfTypeName("null")]))

  const TAGS := Property("tags", OfTypeName("array").(items := Items(NULLABLE_TEXT)))

  const TAGGED := OfTypeName("object").(properties := Properties([TAGS]))

  /** An optional list of nullable strings: the schema accepts the empty object, the generated type refuses it. */
  lemma {:induction false} NestedMarkerRefusesAbsence(env: Env)
    ensures Accepts(Standard, map[], TAGGED, Obj(map[])) && !Takes(env, Compile(TAGGED), Obj(map[]))
  {
    EmptyAccepted();
    TagsType();
    CompiledTagged();
    hide Compile, CompileFields, Accepts;
    FieldsAt([TAGS], [], 0);
    AbsentRefused(env, CompileFields([TAGS], []), 0);
  }

  lemma {:induction false} EmptyAccepted()
    ensures Accepts(Standard, map[], TAGGED, Obj(map[]))
  {
    assert Keywords(Standard, map[], TAGGED, Obj(map[]));
  }

  lemma {:induction false} CompiledTagged()
    ensures Compile(TAGGED) == ZObject(CompileFields([TAGS], []), false)
  {
    hide CompileFields;
  }

  lemma {:induction false} AbsentRefused(env: Env, fields: seq<Field>, i: nat)
    requires i < |fields| && !TakesUndefined(fields[i].type_)
    ensures !Takes(env, ZObject(fields, false), Obj(map[]))
  {
    assert fields[i] in fields;
  }

  lemma {:induction false} TagsType()
    ensures Mentions(Compile(TAGS.schema)) && !TakesUndefined(Compile(TAGS.schema))
  {
    NullableTextType();
    assert Compile(TAGS.schema) == ZArray(Compile(NULLABLE_TEXT), None, None);
  }

  lemma {:induction false} NullableTextType()
    ensures Compile(NULLABLE_TEXT) == ZNullable(ZOptional(ZString(None, None)))
  {
    var alts := NULLABLE_TEXT.anyOf.alts;
    assert IsNullEntry(alts[1]);
    assert alts[1..] == [alts[1]] && alts[1..][1..] == [];
    assert CompileNonNull([alts[1]]) == [];
    assert CompileNonNull(alts) == [ZString(None, None)] + CompileNonNull(alts[1..]) == [ZString(None, None)];
  }

  function Repeat(n: nat): (r: string)
    ensures |r| == n && forall i | 0 <= i < n :: r[i] == '\U{10000}'
  {
    seq(n, _ => '\U{10000}')
  }

  lemma {:induction false} WideLength(n: nat)
    ensures Utf16Length(Repeat(n)) == 2 * n
  {
    if n > 0 {
      WideLength(n - 1);
      assert Repeat(n)[..n - 1] == Repeat(n - 1);
    }
  }

  ghost predicate TextPreserved(env: Env, s: Schema, text: string) {
    Accepts(Standard, map[], s, Str(text)) ==> Takes(env, Compile(s), Str(text))
  }

  /** `maxLength` counts characters, `.max` counts UTF-16 units: every accepted string is taken if and only if
      the schema sets no maximum, or one that leaves nothing but the empty string. */
  lemma {:induction false} TextsPreservedIff(env: Env, s: Schema)
    requires s.ref == None && s.const_ == None && s.enum_ == None && s.anyOf == NoAnyOf && s.type_ == Name("string")
    ensures (forall text :: TextPreserved(env, s, text)) <==>
              s.maxLength == None || s.maxLength.value == 0
                || (s.minLength.Some? && s.minLength.value > s.maxLength.value)
  {
    if s.maxLength == None || s.maxLength.value == 0 || (s.minLength.Some? && s.minLength.value > s.maxLength.value) {
      forall text ensures TextPreserved(env, s, text) {
        Utf16IsLonger(text);
        if Accepts(Standard, map[], s, Str(text)) { assert Keywords(Standard, map[], s, Str(text)); }
        assert Compile(s) == ZString(s.minLength, s.maxLength);
      }
    } else {
      var text := Repeat(s.maxLength.value);
      WideLength(s.maxLength.value);
      assert Accepts(Standard, map[], s, Str(text));
      assert !TextPreserved(env, s, text);
    }
  }

  /** An accepted integer is taken if and only if JavaScript can represent it exactly. */
  lemma {:induction false} IntegerTakenIff(env: Env, s: Schema, n: real)
    requires s.ref == None && s.const_ == None && s.enum_ == None && s.anyOf == NoAnyOf && s.type_ == Name("integer")
    requires Accepts(Standard, map[], s, Num(n))
    ensures Takes(env, Compile(s), Num(n)) <==> -MAX_SAFE <= n <= MAX_SAFE
  {
  }

  /** 2^53 is an integer to the schema and refused by the type. */
  lemma {:induction false} LargeIntegerRefused(env: Env)
    ensures var n := Num(9007199254740992.0);
            Accepts(Standard, map[], OfTypeName("integer"), n) && !Takes(env, Compile(OfTypeName("integer")), n)
  {
    var s, n := OfTypeName("integer"), 9007199254740992.0;
    assert n.Floor as real == n;
    assert Keywords(Standard, map[], s, Num(n));
    IntegerTakenIff(env, s, n);
  }

  /** An object constant is compared by identity and an array constant lists alternatives, so neither is ever taken;
      every other constant is. */
  lemma {:induction false} ConstTakenIff(env: Env, s: Schema)
    requires s.ref == None && s.const_.Some?
    ensures Takes(env, Compile(s), s.const_.value) <==> Primitive(s.const_.value)
  {
  }

  /** The constant [1]: the schema accepts it alone, the generated type takes the number 1 instead. */
  lemma {:induction false} ArrayConstantTakesItsItems(env: Env)
    ensures var s := ANYTHING.(const_ := Some(Arr([Num(1.0)])));
            && Accepts(Standard, map[], s, Arr([Num(1.0)])) && !Takes(env, Compile(s), Arr([Num(1.0)]))
            && !Accepts(Standard, map[], s, Num(1.0)) && Takes(env, Compile(s), Num(1.0))
  {
    var s := ANYTHING.(const_ := Some(Arr([Num(1.0)])));
    ConstTakenIff(env, s);
    assert Keywords(Standard, map[], s, Arr([Num(1.0)]));
    assert !Keywords(Standard, map[], s, Num(1.0));
    assert Num(1.0) in [Num(1.0)];
  }
}
