/** The order in which the generator declares schemas: shared models sorted, then server messages, then
    client messages, each group of messages followed by its union. A `const` must be declared before use. */
module Emission {
  import opened Collections
  import opened JsonSchema
  import opened Ordering
  import opened TopoOrder
  import opened TopoTheorems
  import opened Wrappers
  import opened ZodCompiler

  // ----- references -----

  function OptRef(ref: Option<string>): set<string> {
    if ref.Some? then {LastSegment(ref.value)} else {}
  }

  /** Every name a `$ref` anywhere inside the schema ends in: what `_collect_refs` finds. */
  function SchemaRefs(s: Schema): set<string> {
    OptRef(s.ref)
    + (match s.anyOf case NoAnyOf => {} case AnyOf(alts) => AllRefs(alts))
    + (match s.items case NoItems => {} case Items(item) => SchemaRefs(item))
    + (match s.additional case Every(entry) => SchemaRefs(entry) case _ => {})
    + (match s.properties case NoProperties => {} case Properties(props) => PropRefs(props))
  }

  function AllRefs(schemas: seq<Schema>): set<string> {
    if schemas == [] then {} else SchemaRefs(schemas[0]) + AllRefs(schemas[1..])
  }

  function PropRefs(props: seq<Property>): set<string> {
    if props == [] then {} else SchemaRefs(props[0].schema) + PropRefs(props[1..])
  }

  /** The generated schemas a Zod type mentions. */
  function Uses(z: Zod): set<string> {
    match z
    case ZRef(name) => {name}
    case ZUnion(options) => AllUses(options)
    case ZArray(item, _, _) => Uses(item)
    case ZRecord(entry) => Uses(entry)
    case ZObject(fields, _) => FieldUses(fields)
    case ZOptional(inner) => Uses(inner)
    case ZNullable(inner) => Uses(inner)
    case _ => {}
  }

  function AllUses(types: seq<Zod>): set<string> {
    if types == [] then {} else Uses(types[0]) + AllUses(types[1..])
  }

  function FieldUses(fields: seq<Field>): set<string> {
    if fields == [] then {} else Uses(fields[0].type_) + FieldUses(fields[1..])
  }

  lemma {:induction false} LiteralsUseNothing(values: seq<Json>)
    ensures AllUses(Literals(values)) == {}
  {
    if values != [] {
      LiteralsUseNothing(values[1..]);
      assert Literals(values)[1..] == Literals(values[1..]);
    }
  }

  lemma {:induction false} UsesConcat(a: seq<Zod>, b: seq<Zod>)
    ensures AllUses(a + b) == AllUses(a) + AllUses(b)
  {
    if a == [] {
      assert a + b == b;
    } else {
      UsesConcat(a[1..], b);
      assert (a + b)[1..] == a[1..] + b;
    }
  }

  lemma {:induction false} ChoiceUses(types: seq<Zod>)
    ensures Uses(Choose(types)) == AllUses(types)
  {
    if |types| == 1 { assert AllUses(types[1..]) == {}; }
  }

  lemma {:induction false} RefParts(s: Schema)
    ensures OptRef(s.ref) <= SchemaRefs(s)
    ensures s.anyOf.AnyOf? ==> AllRefs(s.anyOf.alts) <= SchemaRefs(s)
    ensures s.items.Items? ==> SchemaRefs(s.items.schema) <= SchemaRefs(s)
    ensures s.additional.Every? ==> SchemaRefs(s.additional.schema) <= SchemaRefs(s)
    ensures s.properties.Properties? ==> PropRefs(s.properties.props) <= SchemaRefs(s)
  {
  }

  lemma {:induction false} EnumUses(values: seq<Json>)
    ensures Uses(if AllStrings(values) then ZEnum(Texts(values)) else ZUnion(Literals(values))) == {}
  {
    LiteralsUseNothing(values);
  }

  lemma {:induction false} NullableUses(base: Zod, nullable: bool)
    ensures Uses(if nullable then NullableOptional(base) else base) == Uses(base)
  {
  }

  lemma {:induction false} LiteralUses(s: Schema)
    requires s.ref.Some? || s.const_.Some?
    ensures Uses(Compile(s)) <= OptRef(s.ref)
  {
    hide LastSegment, AllStrings, Texts, Literals, Choose, CompileNonNull;
    hide NumberType, IsNullEntry, CompileFields, AllUses, FieldUses, Mentions, ObjectType;
  }

  lemma {:induction false} EnumerationUses(s: Schema)
    requires s.ref.None? && s.const_.None? && s.enum_.Some?
    ensures Uses(Compile(s)) == {}
  {
    EnumUses(s.enum_.value);
    hide LastSegment, AllStrings, Texts, Literals, Choose, CompileNonNull;
    hide NumberType, IsNullEntry, CompileFields, AllUses, FieldUses, Mentions, ObjectType, Uses, NullableOptional;
  }

  lemma {:induction false} AnyOfUses(s: Schema)
    requires s.ref.None? && s.const_.None? && s.enum_.None? && s.anyOf.AnyOf?
    ensures Uses(Compile(s)) == AllUses(CompileNonNull(s.anyOf.alts))
  {
    var base := Choose(CompileNonNull(s.anyOf.alts));
    var nullable := exists i | 0 <= i < |s.anyOf.alts| :: IsNullEntry(s.anyOf.alts[i]);
    ChoiceUses(CompileNonNull(s.anyOf.alts));
    NullableUses(base, nullable);
    hide LastSegment, AllStrings, Texts, Literals, Choose, CompileNonNull;
    hide NumberType, IsNullEntry, CompileFields, AllUses, FieldUses, Mentions, ObjectType, Uses, NullableOptional;
    assert Compile(s) == if nullable then NullableOptional(base) else base;
  }

  lemma {:induction false} ArrayUses(s: Schema)
    requires ByType(s) && s.type_ == Name("array")
    ensures Uses(Compile(s)) == if s.items.Items? then Uses(Compile(s.items.schema)) else {}
  {
    hide LastSegment, AllStrings, Texts, Literals, Choose, CompileNonNull;
    hide NumberType, IsNullEntry, CompileFields, AllUses, FieldUses, Mentions, ObjectType;
  }

  lemma {:induction false} ObjectUses(s: Schema)
    requires ByType(s) && s.type_ == Name("object")
    ensures Uses(Compile(s)) == if s.additional.Every? then Uses(Compile(s.additional.schema))
                                else if s.properties.NoProperties? || s.additional == Flag(true) then {}
                                else FieldUses(CompileFields(s.properties.props, s.required))
  {
    hide LastSegment, AllStrings, Texts, Literals, Choose, CompileNonNull;
    hide NumberType, IsNullEntry, CompileFields, AllUses, FieldUses, Mentions;
  }

  lemma {:induction false} ScalarUses(s: Schema)
    requires ByType(s) && s.type_ != Name("array") && s.type_ != Name("object")
    ensures Uses(Compile(s)) == {}
  {
    hide LastSegment, AllStrings, Texts, Literals, Choose, CompileNonNull;
    hide IsNullEntry, CompileFields, AllUses, FieldUses, Mentions, ObjectType;
  }

  /** The generated type mentions no schema that the sort was not told about. */
  lemma {:induction false} UsesAreRefs(s: Schema)
    ensures Uses(Compile(s)) <= SchemaRefs(s)
    decreases s, 0
  {
    hide Uses, Compile, SchemaRefs, AllRefs, PropRefs, AllUses, FieldUses, CompileNonNull, CompileFields;
    RefParts(s);
    if s.ref.Some? || s.const_.Some? {
      LiteralUses(s);
    } else if s.enum_.Some? {
      EnumerationUses(s);
    } else if s.anyOf.AnyOf? {
      AnyOfUses(s);
      AlternativeUses(s.anyOf.alts);
    } else if s.type_ == Name("array") {
      ArrayUses(s);
      if s.items.Items? { UsesAreRefs(s.items.schema); }
    } else if s.type_ == Name("object") {
      ObjectUses(s);
      if s.additional.Every? { UsesAreRefs(s.additional.schema); }
      if s.properties.Properties? { PropertyUses(s.properties.props, s.required); }
    } else {
      ScalarUses(s);
    }
  }

  lemma {:induction false} AlternativeUses(alts: seq<Schema>)
    ensures AllUses(CompileNonNull(alts)) <= AllRefs(alts)
    decreases alts, 1
  {
    hide SchemaRefs, Compile;
    if alts != [] {
      UsesAreRefs(alts[0]);
      AlternativeUses(alts[1..]);
      var first := if IsNullEntry(alts[0]) then [] else [Compile(alts[0])];
      UsesConcat(first, CompileNonNull(alts[1..]));
      assert first != [] ==> AllUses(first) == Uses(first[0]) + AllUses(first[1..]) && first[1..] == [];
    }
  }

  lemma {:induction false} FieldTypeUses(name: string, compiled: Zod, required: seq<string>)
    ensures Uses(FieldType(name, compiled, required)) == Uses(compiled)
  {
  }

  lemma {:induction false} FirstField(fields: seq<Field>, first: Field, rest: seq<Field>)
    requires fields == [first] + rest
    ensures FieldUses(fields) == Uses(first.type_) + FieldUses(rest)
  {
    assert fields[1..] == rest;
  }

  lemma {:induction false} PropertyUses(props: seq<Property>, required: seq<string>)
    ensures FieldUses(CompileFields(props, required)) <= PropRefs(props)
    decreases props, 1
  {
    assert FieldUses([]) == {};
    hide SchemaRefs, Compile, Uses, FieldUses, FieldType;
    if props != [] {
      UsesAreRefs(props[0].schema);
      PropertyUses(props[1..], required);
      var compiled := Compile(props[0].schema);
      FieldTypeUses(props[0].name, compiled, required);
      FirstField(CompileFields(props, required), Field(props[0].name, FieldType(props[0].name, compiled, required)),
                 CompileFields(props[1..], required));
    }
  }

  // ----- the declarations -----

  /** A generated `const`: a model's object schema, or the discriminated union over some members. */
  datatype Decl = ModelOf(name: string, model: Model) | UnionOf(name: string, members: seq<string>)
  {
    /** The schemas that the declaration mentions. */
    function Uses(): set<string> {
      match this
      case ModelOf(_, model) => FieldUses(model.fields)
      case UnionOf(_, members) => Elements(members)
    }
  }

  /** `_extract_union_members`. */
  function Members(variants: seq<Schema>): seq<string> {
    if variants == [] then []
    else (if variants[0].ref.Some? then [LastSegment(variants[0].ref.value)] else []) + Members(variants[1..])
  }

  function ModelDecl(defs: Defs, name: string, isMessage: bool): Decl
    requires name in defs
  {
    ModelOf(name, CompileModel(defs[name], isMessage))
  }

  function DeclareOne(name: string, defs: Defs, isMessage: bool): seq<Decl> {
    if name in defs then [ModelDecl(defs, name, isMessage)] else []
  }

  function Declare(names: seq<string>, defs: Defs, isMessage: bool): seq<Decl> {
    if names == [] then []
    else DeclareOne(names[0], defs, isMessage) + Declare(names[1..], defs, isMessage)
  }

  function NotIn(names: seq<string>, others: set<string>): (r: seq<string>)
    ensures forall n :: n in r <==> n in names && n !in others
    ensures Distinct(names) ==> Distinct(r)
  {
    if names == [] then []
    else
      assert names == [names[0]] + names[1..];
      (if names[0] in others then [] else [names[0]]) + NotIn(names[1..], others)
  }

  function SharedDeps(shared: set<string>, defs: Defs): Deps
    requires shared <= defs.Keys
  {
    map n | n in shared :: SchemaRefs(defs[n]) * shared
  }

  ghost predicate KeysOf(order: seq<string>, defs: Defs) {
    Distinct(order) && forall n :: n in order <==> n in defs
  }

  ghost function Declarations(order: seq<string>, defs: Defs, server: seq<string>, client: seq<string>): seq<Decl>
    requires KeysOf(order, defs)
  {
    var shared := NotIn(order, Elements(server) + Elements(client));
    var sorted := SortedNames(shared, SharedDeps(Elements(shared), defs));
    Declare(sorted, defs, false)
    + Declare(server, defs, true) + [UnionOf("ServerMessage", server)]
    + Declare(client, defs, true) + [UnionOf("ClientMessage", client)]
  }

  lemma {:induction false} DeclareNothing(defs: Defs, isMessage: bool)
    ensures Declare([], defs, isMessage) == []
  {
  }

  lemma {:induction false} DeclareCons(name: string, rest: seq<string>, defs: Defs, isMessage: bool)
    ensures Declare([name] + rest, defs, isMessage)
              == DeclareOne(name, defs, isMessage) + Declare(rest, defs, isMessage)
  {
    hide ModelDecl;
    assert ([name] + rest)[1..] == rest;
  }

  lemma {:induction false} DeclareConcat(a: seq<string>, b: seq<string>, defs: Defs, isMessage: bool)
    ensures Declare(a + b, defs, isMessage) == Declare(a, defs, isMessage) + Declare(b, defs, isMessage)
  {
    hide Declare, ModelDecl;
    if a == [] {
      assert a + b == b;
      DeclareNothing(defs, isMessage);
    } else {
      DeclareConcat(a[1..], b, defs, isMessage);
      assert a + b == [a[0]] + (a[1..] + b);
      assert a == [a[0]] + a[1..];
      DeclareCons(a[0], a[1..] + b, defs, isMessage);
      DeclareCons(a[0], a[1..], defs, isMessage);
    }
  }

  /** One of the generator's loops over model names. */
  method AppendModels(decls: seq<Decl>, names: seq<string>, defs: Defs, isMessage: bool) returns (r: seq<Decl>)
    ensures r == decls + Declare(names, defs, isMessage)
  {
    r := decls;
    var k := 0;
    while k < |names|
      invariant 0 <= k <= |names|
      invariant r == decls + Declare(names[..k], defs, isMessage)
    {
      if names[k] in defs {
        r := r + [ModelDecl(defs, names[k], isMessage)];
      }
      DeclareConcat(names[..k], [names[k]], defs, isMessage);
      assert names[..k + 1] == names[..k] + [names[k]];
      k := k + 1;
    }
    assert names[..k] == names;
  }

  /** `generate_typescript`, down to what each declaration is called and what it mentions. `order` is the
      order in which the definitions were loaded. */
  method GenerateDeclarations(order: seq<string>, defs: Defs, serverVariants: seq<Schema>, clientVariants: seq<Schema>)
    returns (decls: seq<Decl>)
    requires KeysOf(order, defs)
    ensures decls == Declarations(order, defs, Members(serverVariants), Members(clientVariants))
  {
    hide Declare, SortedNames, Members;
    var server, client := Members(serverVariants), Members(clientVariants);
    var shared := NotIn(order, Elements(server) + Elements(client));
    var sorted := TopoSort(shared, SharedDeps(Elements(shared), defs));
    decls := AppendModels([], sorted, defs, false);
    decls := AppendModels(decls, server, defs, true);
    decls := decls + [UnionOf("ServerMessage", server)];
    decls := AppendModels(decls, client, defs, true);
    decls := decls + [UnionOf("ClientMessage", client)];
  }

  // ----- declared before use -----

  function Names(decls: seq<Decl>): (r: set<string>)
    ensures forall n :: n in r <==> exists i :: 0 <= i < |decls| && decls[i].name == n
  {
    set i | 0 <= i < |decls| :: decls[i].name
  }

  /** A `const` is usable only below its declaration. */
  ghost predicate DeclaredBeforeUse(decls: seq<Decl>) {
    forall i | 0 <= i < |decls| :: decls[i].Uses() <= Names(decls[..i])
  }

  ghost predicate UsableAfter(seen: set<string>, decls: seq<Decl>)
    decreases decls
  {
    decls == [] || (decls[0].Uses() <= seen && UsableAfter(seen + {decls[0].name}, decls[1..]))
  }

  lemma {:induction false} NamesConcat(a: seq<Decl>, b: seq<Decl>)
    ensures Names(a + b) == Names(a) + Names(b)
  {
    forall n | n in Names(b) ensures n in Names(a + b) {
      var i :| 0 <= i < |b| && b[i].name == n;
      assert (a + b)[|a| + i].name == n;
    }
    forall n | n in Names(a) ensures n in Names(a + b) {
      var i :| 0 <= i < |a| && a[i].name == n;
      assert (a + b)[i].name == n;
    }
    forall n | n in Names(a + b) ensures n in Names(a) + Names(b) {
      var i :| 0 <= i < |a + b| && (a + b)[i].name == n;
      if i >= |a| { assert b[i - |a|].name == n; } else { assert a[i].name == n; }
    }
  }

  lemma {:induction false} UsableConcat(seen: set<string>, a: seq<Decl>, b: seq<Decl>)
    ensures UsableAfter(seen, a + b) <==> UsableAfter(seen, a) && UsableAfter(seen + Names(a), b)
    decreases a
  {
    if a == [] {
      assert a + b == b && seen + Names(a) == seen;
    } else {
      UsableConcat(seen + {a[0].name}, a[1..], b);
      NamesConcat([a[0]], a[1..]);
      assert [a[0]] + a[1..] == a && (a + b)[1..] == a[1..] + b;
      assert [a[0]][0].name in Names([a[0]]);
      assert Names([a[0]]) == {a[0].name};
      assert seen + {a[0].name} + Names(a[1..]) == seen + Names(a);
    }
  }

  lemma {:induction false} UsableIff(decls: seq<Decl>)
    ensures DeclaredBeforeUse(decls) <==> UsableAfter({}, decls)
  {
    if decls != [] {
      var k := |decls| - 1;
      var init := decls[..k];
      UsableIff(init);
      UsableConcat({}, init, [decls[k]]);
      assert decls == init + [decls[k]] && {} + Names(init) == Names(init);
      assert forall i | 0 <= i < k :: init[i] == decls[i] && init[..i] == decls[..i];
      assert UsableAfter(Names(init), [decls[k]]) <==> decls[k].Uses() <= Names(init);
    }
  }

  // ----- the shared models -----

  lemma {:induction false} ModelUsesAreRefs(defs: Defs, name: string, isMessage: bool)
    requires name in defs
    ensures ModelDecl(defs, name, isMessage).Uses() <= SchemaRefs(defs[name])
  {
    var s := defs[name];
    RefParts(s);
    assert PropRefs([]) == {};
    hide SchemaRefs, PropRefs;
    PropertyUses(Props(s), if isMessage then s.required + ["type"] else s.required);
  }

  /** Every shared model refers only to shared models. */
  ghost predicate SharedClosed(defs: Defs, shared: set<string>) {
    shared <= defs.Keys && forall n | n in shared :: SchemaRefs(defs[n]) <= shared
  }

  /** Messages refer to shared models only. */
  ghost predicate MessagesClosed(defs: Defs, messages: seq<string>, shared: set<string>) {
    forall n | n in messages :: n in defs && SchemaRefs(defs[n]) <= shared
  }

  lemma {:induction false} SharedUsable(defs: Defs, shared: set<string>, done: set<string>, order: seq<string>)
    requires SharedClosed(defs, shared) && (forall n | n in order :: n in shared)
    requires FirstAfter(SharedDeps(shared, defs), done, order)
    ensures UsableAfter(done, Declare(order, defs, false))
    decreases order
  {
    hide SchemaRefs, FirstAfter;
    if order != [] {
      var deps := SharedDeps(shared, defs);
      FirstAfterTail(deps, done, order);
      assert order[0] in order;
      SharedUsable(defs, shared, done + {order[0]}, order[1..]);
      ModelUsesAreRefs(defs, order[0], false);
      assert SchemaRefs(defs[order[0]]) * shared == SchemaRefs(defs[order[0]]);
    }
  }

  lemma {:induction false} DeclaredNames(names: seq<string>, defs: Defs, isMessage: bool)
    ensures Names(Declare(names, defs, isMessage)) == Elements(names) * defs.Keys
  {
    if names != [] {
      DeclaredNames(names[1..], defs, isMessage);
      var first := if names[0] in defs then [ModelDecl(defs, names[0], isMessage)] else [];
      NamesConcat(first, Declare(names[1..], defs, isMessage));
      assert first != [] ==> first[0].name in Names(first);
      assert Names(first) == {names[0]} * defs.Keys;
      assert names == [names[0]] + names[1..];
    }
  }

  lemma {:induction false} MessagesUsable(defs: Defs, messages: seq<string>, shared: set<string>, seen: set<string>)
    requires MessagesClosed(defs, messages, shared) && shared <= seen
    ensures UsableAfter(seen, Declare(messages, defs, true))
    decreases messages
  {
    hide SchemaRefs;
    if messages != [] {
      assert messages[0] in messages;
      MessagesUsable(defs, messages[1..], shared, seen + {messages[0]});
      ModelUsesAreRefs(defs, messages[0], true);
    }
  }

  ghost function Shared(order: seq<string>, server: seq<string>, client: seq<string>): seq<string> {
    NotIn(order, Elements(server) + Elements(client))
  }

  lemma {:induction false} SharedWellFormed(order: seq<string>, defs: Defs, server: seq<string>, client: seq<string>)
    requires KeysOf(order, defs)
    ensures Elements(Shared(order, server, client)) <= defs.Keys
    ensures WellFormed(Shared(order, server, client), SharedDeps(Elements(Shared(order, server, client)), defs))
  {
    hide SchemaRefs;
  }

  lemma {:induction false} FiveParts(a: seq<Decl>, b: seq<Decl>, u: Decl, c: seq<Decl>, v: Decl)
    ensures Names(a + b + [u] + c + [v]) == Names(a) + Names(b) + {u.name} + Names(c) + {v.name}
    ensures UsableAfter({}, a + b + [u] + c + [v])
            <==> UsableAfter({}, a) && UsableAfter(Names(a), b) && u.Uses() <= Names(a) + Names(b)
                 && UsableAfter(Names(a) + Names(b) + {u.name}, c)
                   && v.Uses() <= Names(a) + Names(b) + {u.name} + Names(c)
  {
    hide UsableAfter, Names;
    var none: set<string> := {};
    NamesConcat(a, b);
    NamesConcat(a + b, [u]);
    NamesConcat(a + b + [u], c);
    NamesConcat(a + b + [u] + c, [v]);
    OneDecl(u, none + Names(a + b));
    OneDecl(v, none + Names(a + b + [u] + c));
    UsableConcat(none, a, b);
    UsableConcat(none, a + b, [u]);
    UsableConcat(none, a + b + [u], c);
    UsableConcat(none, a + b + [u] + c, [v]);
    assert none + Names(a) == Names(a) && none + Names(a + b) == Names(a) + Names(b);
    assert none + Names(a + b + [u]) == Names(a) + Names(b) + {u.name};
    assert none + Names(a + b + [u] + c) == Names(a) + Names(b) + {u.name} + Names(c);
  }

  lemma {:induction false} OneDecl(d: Decl, seen: set<string>)
    ensures Names([d]) == {d.name}
    ensures UsableAfter(seen, [d]) <==> d.Uses() <= seen
  {
    assert [d][0].name in Names([d]);
  }

  lemma {:induction false} SortedElements(order: seq<string>, defs: Defs, server: seq<string>, client: seq<string>)
    requires KeysOf(order, defs)
    ensures var shared := Shared(order, server, client);
            Elements(shared) <= defs.Keys
            && Elements(SortedNames(shared, SharedDeps(Elements(shared), defs))) == Elements(shared)
  {
    hide SchemaRefs, SortedNames, WellFormed;
    SharedWellFormed(order, defs, server, client);
    var shared := Shared(order, server, client);
    SortPermutes(shared, SharedDeps(Elements(shared), defs));
  }

  /** Every definition is declared, and both unions. */
  lemma {:induction false} EverythingDeclared(order: seq<string>, defs: Defs, server: seq<string>, client: seq<string>)
    requires KeysOf(order, defs)
    ensures Names(Declarations(order, defs, server, client)) == defs.Keys + {"ServerMessage", "ClientMessage"}
  {
    hide SortedNames, Declare, Names, SchemaRefs, UsableAfter;
    var shared := Shared(order, server, client);
    SortedElements(order, defs, server, client);
    var sorted := SortedNames(shared, SharedDeps(Elements(shared), defs));
    DeclaredNames(sorted, defs, false);
    DeclaredNames(server, defs, true);
    DeclaredNames(client, defs, true);
    FiveParts(Declare(sorted, defs, false), Declare(server, defs, true), UnionOf("ServerMessage", server),
              Declare(client, defs, true), UnionOf("ClientMessage", client));
  }

  ghost predicate SharedEmitted(order: seq<string>, defs: Defs, server: seq<string>, client: seq<string>)
    requires KeysOf(order, defs)
  {
    var shared := Shared(order, server, client);
    UsableAfter({}, Declare(SortedNames(shared, SharedDeps(Elements(shared), defs)), defs, false))
  }

  /** With messages that refer to shared models only, the shared part decides. */
  lemma {:induction false} SharedPartDecides(order: seq<string>, defs: Defs, server: seq<string>, client: seq<string>)
    requires KeysOf(order, defs)
    requires MessagesClosed(defs, server, Elements(Shared(order, server, client)))
    requires MessagesClosed(defs, client, Elements(Shared(order, server, client)))
    ensures DeclaredBeforeUse(Declarations(order, defs, server, client)) <==> SharedEmitted(order, defs, server, client)
  {
    hide SortedNames, Declare, Names, SchemaRefs, UsableAfter, DeclaredBeforeUse;
    var shared := Shared(order, server, client);
    SortedElements(order, defs, server, client);
    var sorted := SortedNames(shared, SharedDeps(Elements(shared), defs));
    var a, b, c := Declare(sorted, defs, false), Declare(server, defs, true), Declare(client, defs, true);
    DeclaredNames(sorted, defs, false);
    DeclaredNames(server, defs, true);
    DeclaredNames(client, defs, true);
    MessagesUsable(defs, server, Elements(shared), Names(a));
    MessagesUsable(defs, client, Elements(shared), Names(a) + Names(b) + {"ServerMessage"});
    FiveParts(a, b, UnionOf("ServerMessage", server), c, UnionOf("ClientMessage", client));
    UsableIff(Declarations(order, defs, server, client));
  }

  /** Without a knot among the shared models every schema is declared before it is used. */
  lemma {:induction false} EmittedBeforeUse(order: seq<string>, defs: Defs, server: seq<string>, client: seq<string>)
    requires KeysOf(order, defs)
    requires SharedClosed(defs, Elements(Shared(order, server, client)))
    requires MessagesClosed(defs, server, Elements(Shared(order, server, client)))
    requires MessagesClosed(defs, client, Elements(Shared(order, server, client)))
    requires Acyclic(SharedDeps(Elements(Shared(order, server, client)), defs))
    ensures DeclaredBeforeUse(Declarations(order, defs, server, client))
  {
    hide Acyclic, SchemaRefs, Declare, DeclaredBeforeUse, MessagesClosed;
    var shared := Shared(order, server, client);
    var deps := SharedDeps(Elements(shared), defs);
    SharedWellFormed(order, defs, server, client);
    SharedPartDecides(order, defs, server, client);
    SortPermutes(shared, deps);
    AcyclicSort(shared, deps);
    KahnIsFirst(deps, {}, deps.Keys);
    hide SortedNames, WellFormed;
    SharedUsable(defs, Elements(shared), {}, SortedNames(shared, deps));
  }

  /** The generated types mention every reference the sort was told about. */
  ghost predicate AllMentioned(defs: Defs, shared: set<string>)
    requires shared <= defs.Keys
  {
    forall n | n in shared :: SchemaRefs(defs[n]) * shared <= ModelDecl(defs, n, false).Uses()
  }

  lemma {:induction false} UsableStep(seen: set<string>, d: Decl, rest: seq<Decl>)
    ensures UsableAfter(seen, [d] + rest) <==> d.Uses() <= seen && UsableAfter(seen + {d.name}, rest)
  {
    assert ([d] + rest)[1..] == rest;
  }

  lemma {:induction false} NothingFirst(deps: Deps, done: set<string>)
    ensures FirstAfter(deps, done, [])
  {
  }

  lemma {:induction false} DeclaredFirst(order: seq<string>, defs: Defs, isMessage: bool)
    requires order != [] && order[0] in defs
    ensures Declare(order, defs, isMessage)
              == [ModelDecl(defs, order[0], isMessage)] + Declare(order[1..], defs, isMessage)
    ensures ModelDecl(defs, order[0], isMessage).name == order[0]
  {
    hide FieldUses, CompileModel;
  }

  lemma {:induction false} MentionedAt(defs: Defs, shared: set<string>, n: string)
    requires shared <= defs.Keys && AllMentioned(defs, shared) && n in shared
    ensures SchemaRefs(defs[n]) * shared <= ModelDecl(defs, n, false).Uses()
  {
    hide SchemaRefs, ModelDecl;
  }

  lemma {:induction false} UsableMeansFirst(defs: Defs, shared: set<string>, done: set<string>, order: seq<string>)
    requires shared <= defs.Keys && AllMentioned(defs, shared) && forall n | n in order :: n in shared
    requires UsableAfter(done, Declare(order, defs, false))
    ensures FirstAfter(SharedDeps(shared, defs), done, order)
    decreases order
  {
    hide *;
    if order == [] {
      NothingFirst(SharedDeps(shared, defs), done);
    } else {
      var n, rest := order[0], order[1..];
      assert n in order && forall m | m in rest :: m in order;
      var d := ModelDecl(defs, n, false);
      DeclaredFirst(order, defs, false);
      MentionedAt(defs, shared, n);
      UsableStep(done, d, Declare(rest, defs, false));
      UsableMeansFirst(defs, shared, done + {n}, rest);
      DependsOnUsed(defs, shared, n, d.Uses());
      FirstAfterStep(SharedDeps(shared, defs), done, n, rest);
      assert [n] + rest == order;
    }
  }

  lemma {:induction false} DependsOnUsed(defs: Defs, shared: set<string>, n: string, uses: set<string>)
    requires shared <= defs.Keys && n in shared && SchemaRefs(defs[n]) * shared <= uses
    ensures n in SharedDeps(shared, defs) && SharedDeps(shared, defs)[n] <= uses
  {
    hide SchemaRefs;
  }

  /** When the generated types mention all references, the emitted file is in order exactly when the shared
      models have no knot; a knot puts a `const` above one it mentions. */
  lemma {:induction false} EmittedBeforeUseIff(order: seq<string>, defs: Defs, server: seq<string>, client: seq<string>)
    requires KeysOf(order, defs)
    requires SharedClosed(defs, Elements(Shared(order, server, client)))
    requires MessagesClosed(defs, server, Elements(Shared(order, server, client)))
    requires MessagesClosed(defs, client, Elements(Shared(order, server, client)))
    requires AllMentioned(defs, Elements(Shared(order, server, client)))
    ensures DeclaredBeforeUse(Declarations(order, defs, server, client))
            <==> Acyclic(SharedDeps(Elements(Shared(order, server, client)), defs))
  {
    hide Acyclic, SchemaRefs, Declare, DeclaredBeforeUse, MessagesClosed, AllMentioned, UsableAfter, SharedClosed,
      FirstAfter, DependencyFirst;
    var shared := Shared(order, server, client);
    var deps := SharedDeps(Elements(shared), defs);
    SharedWellFormed(order, defs, server, client);
    SharedPartDecides(order, defs, server, client);
    SortPermutes(shared, deps);
    hide SortedNames, WellFormed;
    if Acyclic(deps) {
      EmittedBeforeUse(order, defs, server, client);
    } else if SharedEmitted(order, defs, server, client) {
      UsableMeansFirst(defs, Elements(shared), {}, SortedNames(shared, deps));
      AfterNothing(deps, SortedNames(shared, deps));
      ListedMeansAcyclic(deps, SortedNames(shared, deps));
    }
  }

  const LINK := ANYTHING.(ref := Some("#/$defs/T"))

  const NODE := ANYTHING.(type_ := Name("object"), properties := Properties([Property("next", LINK)]),
    required := ["next"])

  lemma {:induction false} LinkRefers()
    ensures LastSegment("#/$defs/T") == "T"
  {
    var ref := "#/$defs/T";
    assert ref[..8] == "#/$defs/" && ref[8] == 'T';
    assert LastSegment("#/$defs/") == "";
  }

  lemma {:induction false} NodeRefers()
    ensures SchemaRefs(NODE) == {"T"} && ModelDecl(map["T" := NODE], "T", false).Uses() == {"T"}
  {
    LinkRefers();
    hide LastSegment;
    assert SchemaRefs(LINK) == {"T"};
    var props := [Property("next", LINK)];
    assert props[1..] == [];
    assert PropRefs(props) == SchemaRefs(LINK) + PropRefs([]);
    CompileRef(LINK);
    FieldsAt(props, ["next"], 0);
    hide Compile;
    var fields := CompileFields(props, ["next"]);
    assert fields == [Field("next", ZRef("T"))];
    assert fields[1..] == [];
    assert FieldUses(fields) == Uses(ZRef("T")) + FieldUses([]);
  }

  /** A model that refers to itself is declared with a use of its own name. */
  lemma {:induction false} SelfReferenceOutOfOrder()
    ensures KeysOf(["T"], map["T" := NODE])
            && !DeclaredBeforeUse(Declarations(["T"], map["T" := NODE], [], []))
  {
    var defs := map["T" := NODE];
    var shared := Shared(["T"], [], []);
    assert Elements([]) + Elements([]) == {};
    assert shared == ["T"] by { assert NotIn(["T"][1..], {}) == []; }
    assert Elements(shared) == {"T"};
    NodeRefers();
    hide SchemaRefs, ModelDecl, Declarations, DeclaredBeforeUse;
    var deps := SharedDeps(Elements(shared), defs);
    assert deps["T"] == {"T"};
    assert DependsOn(deps, "T", {"T"});
    assert Tangled(deps, {"T"});
    EmittedBeforeUseIff(["T"], defs, [], []);
  }
}
