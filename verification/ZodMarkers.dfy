/** Which schemas put the `.optional()` marker into their generated type: the test that decides whether an optional
    property is marked. */
module ZodMarkers {
  import opened JsonSchema
  import opened ProtocolSchemas
  import opened Wrappers
  import opened ZodCompiler

  /** A text holds the marker when it stands somewhere in it. */
  lemma {:induction false} HasMarkerIff(s: string)
    ensures HasMarker(s) <==> exists a, b :: s == a + ".optional()" + b
  {
    if HasMarker(s) {
      var i :| 0 <= i < |s| && MarkerAt(s, i);
      assert s == s[..i] + s[i..i + 11] + s[i + 11..];
    }
    if a, b :| s == a + ".optional()" + b {
      assert s[|a|..|a| + 11] == ".optional()";
      assert MarkerAt(s, |a|);
    }
  }

  /** The strings of a constant: those in it and the keys of its dicts. */
  ghost predicate Spells(v: Json, s: string) {
    match v
    case Str(t) => t == s
    case Arr(items) => exists i | 0 <= i < |items| :: Spells(items[i], s)
    case Obj(fields) => exists key | key in fields :: key == s || Spells(fields[key], s)
    case _ => false
  }

  lemma {:induction false} JsonMentionsIff(v: Json)
    ensures JsonMentions(v) <==> exists s :: Spells(v, s) && HasMarker(s)
  {
    match v
    case Str(t) =>
      assert Spells(v, t);
    case Arr(items) =>
      forall i | 0 <= i < |items|
        ensures JsonMentions(items[i]) <==> exists s :: Spells(items[i], s) && HasMarker(s)
      {
        JsonMentionsIff(items[i]);
      }
      hide HasMarker;
      if i :| 0 <= i < |items| && JsonMentions(items[i]) {
        var s :| Spells(items[i], s) && HasMarker(s);
        assert Spells(v, s);
      }
    case Obj(fields) =>
      forall key | key in fields
        ensures JsonMentions(fields[key]) <==> exists s :: Spells(fields[key], s) && HasMarker(s)
      {
        JsonMentionsIff(fields[key]);
      }
      hide HasMarker;
      if key :| key in fields && (HasMarker(key) || JsonMentions(fields[key])) {
        if HasMarker(key) {
          assert Spells(v, key);
        } else {
          var s :| Spells(fields[key], s) && HasMarker(s);
          assert Spells(v, s);
        }
      }
    case _ =>
  }

  /** The constant, a name in it or one of its parts spells the marker. */
  ghost predicate Marked(s: Schema)
    decreases s, 0
  {
    if s.ref.Some? then HasMarker(LastSegment(s.ref.value))
    else if s.const_.Some? then JsonMentions(s.const_.value)
    else if s.enum_.Some? then exists v :: v in s.enum_.value && JsonMentions(v)
    else if s.anyOf.AnyOf? then
      || (exists i :: 0 <= i < |s.anyOf.alts| && IsNullEntry(s.anyOf.alts[i]))
      || (exists i :: 0 <= i < |s.anyOf.alts| && !IsNullEntry(s.anyOf.alts[i]) && Marked(s.anyOf.alts[i]))
    else if s.type_ == Name("array") then s.items.Items? && Marked(s.items.schema)
    else if s.type_ == Name("object") then
      || (s.additional.Every? && Marked(s.additional.schema))
      || (!s.additional.Every? && s.additional != Flag(true) && s.properties.Properties?
          && MarkedProps(s.properties.props, s.required))
    else false
  }

  /** A property puts the marker there by its name, by being optional or by its own type. */
  ghost predicate MarkedProps(props: seq<Property>, required: seq<string>)
    decreases props, 1
  {
    exists i :: 0 <= i < |props| && (HasMarker(props[i].name) || props[i].name !in required || Marked(props[i].schema))
  }

  lemma {:induction false} FieldTypeMentions(name: string, compiled: Zod, required: seq<string>)
    ensures Mentions(FieldType(name, compiled, required)) <==> name !in required || Mentions(compiled)
  {
  }

  lemma {:induction false} ChoiceMentions(types: seq<Zod>)
    ensures Mentions(Choose(types)) <==> SomeMentions(types)
  {
  }

  lemma {:induction false} EnumMentions(values: seq<Json>)
    ensures Mentions(if AllStrings(values) then ZEnum(Texts(values)) else ZUnion(Literals(values)))
       <==> exists v :: v in values && JsonMentions(v)
  {
    hide HasMarker;
    if AllStrings(values) {
      var texts := Texts(values);
      if name :| name in texts && HasMarker(name) {
        var i :| 0 <= i < |texts| && texts[i] == name;
        assert values[i] in values && JsonMentions(values[i]);
      }
      if v :| v in values && JsonMentions(v) {
        var i :| 0 <= i < |values| && values[i] == v;
        assert Str(texts[i]) == v && texts[i] in texts;
      }
    } else {
      var types := Literals(values);
      if i :| 0 <= i < |types| && Mentions(types[i]) { assert values[i] in values; }
      if v :| v in values && JsonMentions(v) {
        var i :| 0 <= i < |values| && values[i] == v;
        assert Mentions(types[i]);
      }
    }
  }

  ghost predicate SomeMentions(types: seq<Zod>) {
    exists i :: 0 <= i < |types| && Mentions(types[i])
  }

  ghost predicate SomeMarked(alts: seq<Schema>) {
    exists i :: 0 <= i < |alts| && !IsNullEntry(alts[i]) && Mentions(Compile(alts[i]))
  }

  lemma {:induction false} AlternativesMention(alts: seq<Schema>)
    ensures SomeMentions(CompileNonNull(alts)) <==> SomeMarked(alts)
  {
    NonNullMembers(alts);
    var types := CompileNonNull(alts);
    hide Mentions, Compile, CompileNonNull;
    if SomeMentions(types) {
      var i :| 0 <= i < |types| && Mentions(types[i]);
      assert types[i] in types;
      var k :| 0 <= k < |alts| && !IsNullEntry(alts[k]) && types[i] == Compile(alts[k]);
      assert SomeMarked(alts);
    }
    if SomeMarked(alts) {
      var k :| 0 <= k < |alts| && !IsNullEntry(alts[k]) && Mentions(Compile(alts[k]));
      assert Compile(alts[k]) in types;
      var i :| 0 <= i < |types| && types[i] == Compile(alts[k]);
      assert Mentions(types[i]);
    }
  }

  lemma {:induction false} ObjectMentionsFields(fields: seq<Field>, strict: bool)
    ensures Mentions(ZObject(fields, strict))
       <==> exists i :: 0 <= i < |fields| && (HasMarker(fields[i].name) || Mentions(fields[i].type_))
  {
    hide HasMarker;
  }

  lemma {:induction false} FieldsMention(props: seq<Property>, required: seq<string>, strict: bool)
    requires forall i | 0 <= i < |props| :: Mentions(Compile(props[i].schema)) <==> Marked(props[i].schema)
    ensures Mentions(ZObject(CompileFields(props, required), strict)) <==> MarkedProps(props, required)
  {
    var fields := CompileFields(props, required);
    ObjectMentionsFields(fields, strict);
    hide Mentions, Compile, CompileFields, Marked, FieldType, HasMarker;
    forall i | 0 <= i < |props|
      ensures HasMarker(fields[i].name) || Mentions(fields[i].type_)
         <==> HasMarker(props[i].name) || props[i].name !in required || Marked(props[i].schema)
    {
      FieldsAt(props, required, i);
      FieldTypeMentions(props[i].name, Compile(props[i].schema), required);
    }
  }

  lemma {:induction false} AnyOfMentions(s: Schema)
    requires s.ref.None? && s.const_.None? && s.enum_.None? && s.anyOf.AnyOf?
    ensures Mentions(Compile(s)) <==>
              (exists i :: 0 <= i < |s.anyOf.alts| && IsNullEntry(s.anyOf.alts[i]))
              || SomeMentions(CompileNonNull(s.anyOf.alts))
  {
    var base := Choose(CompileNonNull(s.anyOf.alts));
    var nullable := exists i | 0 <= i < |s.anyOf.alts| :: IsNullEntry(s.anyOf.alts[i]);
    ChoiceMentions(CompileNonNull(s.anyOf.alts));
    NullableMentions(base);
    hide LastSegment, AllStrings, Texts, Literals, Choose, NumberType, ObjectType, HasMarker, JsonMentions;
    hide NullableOptional;
    assert Compile(s) == if nullable then NullableOptional(base) else base;
  }

  lemma {:induction false} NullableMentions(base: Zod)
    ensures Mentions(NullableOptional(base))
  {
  }

  lemma {:induction false} ArrayMentions(s: Schema)
    requires ByType(s) && s.type_ == Name("array")
    ensures Mentions(Compile(s)) <==> s.items.Items? && Mentions(Compile(s.items.schema))
  {
    hide LastSegment, AllStrings, Texts, Literals, Choose, CompileNonNull, NumberType, ObjectType, HasMarker;
  }

  lemma {:induction false} ObjectMentions(s: Schema)
    requires ByType(s) && s.type_ == Name("object")
    ensures s.additional.Every? ==> (Mentions(Compile(s)) <==> Mentions(Compile(s.additional.schema)))
    ensures s.additional == Flag(true) || (!s.additional.Every? && s.properties.NoProperties?) ==> !Mentions(Compile(s))
    ensures !s.additional.Every? && s.additional != Flag(true) && s.properties.Properties? ==>
              Compile(s) == ZObject(CompileFields(s.properties.props, s.required), s.additional == Flag(false))
  {
    hide LastSegment, AllStrings, Texts, Literals, Choose, CompileNonNull, NumberType, CompileFields, HasMarker;
  }

  lemma {:induction false} RefMentions(s: Schema)
    requires s.ref.Some?
    ensures Mentions(Compile(s)) <==> Marked(s)
  {
    hide Compile, HasMarker, Marked, Mentions, LastSegment;
    CompileRef(s);
    MarkedRef(s);
    MentionsRef(LastSegment(s.ref.value));
  }

  lemma {:induction false} MarkedRef(s: Schema)
    requires s.ref.Some?
    ensures Marked(s) <==> HasMarker(LastSegment(s.ref.value))
  {
    hide HasMarker, LastSegment, JsonMentions, IsNullEntry, MarkedProps;
  }

  lemma {:induction false} MentionsRef(name: string)
    ensures Mentions(ZRef(name)) <==> HasMarker(name)
  {
    hide HasMarker, JsonMentions;
  }

  lemma {:induction false} ConstMentions(s: Schema)
    requires s.ref.None? && s.const_.Some?
    ensures Mentions(Compile(s)) <==> Marked(s)
  {
    assert Compile(s) == ZLiteral(s.const_.value);
    hide Compile, JsonMentions, HasMarker, LastSegment;
  }

  lemma {:induction false} EnumerationMentions(s: Schema)
    requires s.ref.None? && s.const_.None? && s.enum_.Some?
    ensures Mentions(Compile(s)) <==> Marked(s)
  {
    var values := s.enum_.value;
    EnumMentions(values);
    assert Compile(s) == if AllStrings(values) then ZEnum(Texts(values)) else ZUnion(Literals(values));
    hide Compile, JsonMentions, HasMarker, LastSegment, AllStrings, Texts, Literals, Mentions;
  }

  lemma {:induction false} ScalarMentions(s: Schema)
    requires ByType(s) && s.type_ != Name("array") && s.type_ != Name("object")
    ensures Mentions(Compile(s)) <==> Marked(s)
  {
    hide LastSegment, AllStrings, Texts, Literals, Choose, CompileNonNull, CompileFields, HasMarker, JsonMentions;
    hide ObjectType;
  }

  lemma {:induction false} OtherMentions(s: Schema)
    requires s.anyOf.NoAnyOf? || s.ref.Some? || s.const_.Some? || s.enum_.Some?
    requires ByType(s) ==> s.type_ != Name("array") && s.type_ != Name("object")
    ensures Mentions(Compile(s)) <==> Marked(s)
  {
    hide Mentions, Compile, Marked;
    if s.ref.Some? {
      RefMentions(s);
    } else if s.const_.Some? {
      ConstMentions(s);
    } else if s.enum_.Some? {
      EnumerationMentions(s);
    } else {
      ScalarMentions(s);
    }
  }

  /** Type by type: the generated type holds the marker exactly when the schema puts it there. A list, a dict and a
      union pass on the marker of what is inside; a null alternative and an optional property add their own. */
  lemma {:induction false} MentionsIff(s: Schema)
    ensures Mentions(Compile(s)) <==> Marked(s)
    decreases s
  {
    hide Mentions, Compile, CompileNonNull, CompileFields;
    if ByType(s) && s.type_ == Name("array") {
      ArrayMentions(s);
      if s.items.Items? { MentionsIff(s.items.schema); }
    } else if ByType(s) && s.type_ == Name("object") {
      ObjectMentions(s);
      if s.additional.Every? {
        MentionsIff(s.additional.schema);
      } else if s.additional != Flag(true) && s.properties.Properties? {
        var props := s.properties.props;
        forall i | 0 <= i < |props| ensures Mentions(Compile(props[i].schema)) <==> Marked(props[i].schema) {
          MentionsIff(props[i].schema);
        }
        FieldsMention(props, s.required, s.additional == Flag(false));
      }
    } else if s.ref.None? && s.const_.None? && s.enum_.None? && s.anyOf.AnyOf? {
      var alts := s.anyOf.alts;
      AnyOfMentions(s);
      forall i | 0 <= i < |alts| ensures Mentions(Compile(alts[i])) <==> Marked(alts[i]) { MentionsIff(alts[i]); }
      AlternativesMention(alts);
      hide SomeMentions, IsNullEntry;
    } else {
      OtherMentions(s);
    }
  }

  const LABELS := Property("labels", OfTypeName("object").(additional := Every(NULLABLE_TEXT)))

  /** An optional dict of nullable strings: the marker inside withholds the one that absence needs. */
  lemma {:induction false} OptionalDictRefusesAbsence()
    ensures Marked(LABELS.schema) && !TakesUndefined(FieldType(LABELS.name, Compile(LABELS.schema), []))
  {
    LabelsMarked();
    MentionsIff(LABELS.schema);
    LabelsRecord();
    hide Marked, Mentions, Compile;
  }

  lemma {:induction false} LabelsMarked()
    ensures Marked(LABELS.schema)
  {
    assert IsNullEntry(NULLABLE_TEXT.anyOf.alts[1]);
    assert Marked(NULLABLE_TEXT);
  }

  lemma {:induction false} LabelsRecord()
    ensures Compile(LABELS.schema).ZRecord?
  {
    hide CompileNonNull;
  }
}
