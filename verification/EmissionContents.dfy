/** What the emitted declarations contain: every definition's model and the members of both unions. */
module EmissionContents {
  import opened Collections
  import opened Emission
  import opened JsonSchema
  import opened TopoOrder
  import opened Wrappers
  import opened ZodCompiler

  // ----- union members -----

  lemma {:induction false} MembersConcat(a: seq<Schema>, b: seq<Schema>)
    ensures Members(a + b) == Members(a) + Members(b)
  {
    if a == [] {
      assert a + b == b;
    } else {
      assert (a + b)[1..] == a[1..] + b;
      MembersConcat(a[1..], b);
    }
  }

  /** A union lists the names that its variants refer to, and nothing else. */
  lemma {:induction false} MembersAre(variants: seq<Schema>, name: string)
    ensures name in Members(variants) <==>
              exists v :: v in variants && v.ref.Some? && name == LastSegment(v.ref.value)
  {
    hide LastSegment;
    if variants != [] {
      MembersAre(variants[1..], name);
      var first := variants[0];
      assert variants == [first] + variants[1..];
      if v :| v in variants && v.ref.Some? && name == LastSegment(v.ref.value) {
        assert v == first || v in variants[1..];
      }
    }
  }

  /** When every variant is a reference, the members are the names in the order of the variants. */
  lemma {:induction false} MembersInOrder(variants: seq<Schema>, k: nat)
    requires (forall v | v in variants :: v.ref.Some?) && k < |variants|
    ensures |Members(variants)| == |variants| && Members(variants)[k] == LastSegment(variants[k].ref.value)
  {
    hide LastSegment;
    assert variants == [variants[0]] + variants[1..];
    if |variants| > 1 { MembersInOrder(variants[1..], if k == 0 then 0 else k - 1); }
  }

  // ----- the names given to the sort -----

  lemma {:induction false} NotInConcat(a: seq<string>, b: seq<string>, others: set<string>)
    ensures NotIn(a + b, others) == NotIn(a, others) + NotIn(b, others)
  {
    if a == [] {
      assert a + b == b;
    } else {
      assert (a + b)[1..] == a[1..] + b;
      NotInConcat(a[1..], b, others);
    }
  }

  /** The schemas directly inside a schema. */
  function Inside(s: Schema): seq<Schema> {
    (match s.anyOf case NoAnyOf => [] case AnyOf(alts) => alts)
    + (match s.items case NoItems => [] case Items(item) => [item])
    + (match s.additional case Every(entry) => [entry] case _ => [])
    + (match s.properties case NoProperties => []
       case Properties(props) => seq(|props|, i requires 0 <= i < |props| => props[i].schema))
  }

  lemma {:induction false} AllRefsAre(schemas: seq<Schema>, name: string)
    ensures name in AllRefs(schemas) <==> exists s :: s in schemas && name in SchemaRefs(s)
  {
    hide SchemaRefs;
    if schemas != [] {
      AllRefsAre(schemas[1..], name);
      assert schemas == [schemas[0]] + schemas[1..];
      if s :| s in schemas && name in SchemaRefs(s) { assert s == schemas[0] || s in schemas[1..]; }
    }
  }

  lemma {:induction false} PropRefsAre(props: seq<Property>, name: string)
    ensures name in PropRefs(props) <==> exists i :: 0 <= i < |props| && name in SchemaRefs(props[i].schema)
  {
    hide SchemaRefs;
    if props != [] {
      PropRefsAre(props[1..], name);
      if i :| 0 <= i < |props| && name in SchemaRefs(props[i].schema) {
        assert i > 0 ==> props[1..][i - 1] == props[i];
      }
      if i :| 0 <= i < |props[1..]| && name in SchemaRefs(props[1..][i].schema) {
        assert props[i + 1] == props[1..][i];
      }
    }
  }

  lemma {:induction false} InsideAre(s: Schema, t: Schema)
    ensures t in Inside(s) <==>
              || (s.anyOf.AnyOf? && t in s.anyOf.alts) || (s.items.Items? && t == s.items.schema)
              || (s.additional.Every? && t == s.additional.schema)
              || (s.properties.Properties? && exists i ::
                0 <= i < |s.properties.props| && s.properties.props[i].schema == t)
  {
    if s.properties.Properties? {
      var props := s.properties.props;
      var schemas := seq(|props|, i requires 0 <= i < |props| => props[i].schema);
      if i :| 0 <= i < |props| && props[i].schema == t { assert schemas[i] == t; }
      if t in schemas {
        var i :| 0 <= i < |schemas| && schemas[i] == t;
        assert props[i].schema == t;
      }
    }
  }

  lemma {:induction false} RefsSplit(s: Schema, name: string)
    ensures name in SchemaRefs(s) <==>
              || (s.ref.Some? && name == LastSegment(s.ref.value))
              || (s.anyOf.AnyOf? && name in AllRefs(s.anyOf.alts))
              || (s.items.Items? && name in SchemaRefs(s.items.schema))
              || (s.additional.Every? && name in SchemaRefs(s.additional.schema))
              || (s.properties.Properties? && name in PropRefs(s.properties.props))
  {
    RefParts(s);
    if name in SchemaRefs(s) { RefsCome(s, name); }
    hide SchemaRefs, LastSegment, AllRefs, PropRefs;
  }

  lemma {:induction false} RefsCome(s: Schema, name: string)
    requires name in SchemaRefs(s)
    ensures || name in OptRef(s.ref) || (s.anyOf.AnyOf? && name in AllRefs(s.anyOf.alts))
            || (s.items.Items? && name in SchemaRefs(s.items.schema))
            || (s.additional.Every? && name in SchemaRefs(s.additional.schema))
            || (s.properties.Properties? && name in PropRefs(s.properties.props))
  {
    hide OptRef, AllRefs, PropRefs;
  }

  /** The references are the schema's own and those of the schemas inside it, and no others. */
  lemma {:induction false} RefsAre(s: Schema, name: string)
    ensures name in SchemaRefs(s) <==>
              || (s.ref.Some? && name == LastSegment(s.ref.value))
              || exists t :: t in Inside(s) && name in SchemaRefs(t)
  {
    hide SchemaRefs, LastSegment, Inside, AllRefs, PropRefs;
    RefsSplit(s, name);
    if s.anyOf.AnyOf? { AllRefsAre(s.anyOf.alts, name); }
    if s.properties.Properties? { PropRefsAre(s.properties.props, name); }
    forall t ensures t in Inside(s) <==>
        || (s.anyOf.AnyOf? && t in s.anyOf.alts) || (s.items.Items? && t == s.items.schema)
        || (s.additional.Every? && t == s.additional.schema)
        || (s.properties.Properties? && exists i :: 0 <= i < |s.properties.props| && s.properties.props[i].schema == t)
    {
      InsideAre(s, t);
    }
  }

  // ----- the declarations -----

  lemma {:induction false} Declared(names: seq<string>, defs: Defs, isMessage: bool, d: Decl)
    ensures d in Declare(names, defs, isMessage) <==>
              d.name in names && d.name in defs && d == ModelOf(d.name, CompileModel(defs[d.name], isMessage))
  {
    hide CompileModel;
    if names != [] {
      Declared(names[1..], defs, isMessage, d);
      assert names == [names[0]] + names[1..];
      assert Declare(names, defs, isMessage)
             == DeclareOne(names[0], defs, isMessage) + Declare(names[1..], defs, isMessage);
      hide Declare;
      assert d in DeclareOne(names[0], defs, isMessage) <==>
               d.name == names[0] && d.name in defs && d == ModelOf(d.name, CompileModel(defs[d.name], isMessage));
    }
  }

  lemma {:induction false} InFiveParts(a: seq<Decl>, b: seq<Decl>, u: Decl, c: seq<Decl>, v: Decl, d: Decl)
    ensures d in a + b + [u] + c + [v] <==> d in a || d in b || d == u || d in c || d == v
  {
  }

  /** A declaration is emitted exactly when it is the model of a definition, compiled as a message if one of the
      unions lists it, or the union of the server's or of the client's members. */
  lemma {:induction false} DeclarationsAre(order: seq<string>, defs: Defs, server: seq<string>, client: seq<string>,
                                           d: Decl)
    requires KeysOf(order, defs)
    ensures d in Declarations(order, defs, server, client) <==>
              match d
              case ModelOf(name, model) =>
                name in defs && model == CompileModel(defs[name], name in server || name in client)
              case UnionOf(name, members) =>
                (name == "ServerMessage" && members == server) || (name == "ClientMessage" && members == client)
  {
    var shared := Shared(order, server, client);
    SortedElements(order, defs, server, client);
    var sorted := SortedNames(shared, SharedDeps(Elements(shared), defs));
    assert d.name in sorted <==> d.name in shared by {
      assert d.name in Elements(sorted) <==> d.name in Elements(shared);
    }
    assert d.name in shared <==> d.name in order && !(d.name in server || d.name in client);
    var u, v := UnionOf("ServerMessage", server), UnionOf("ClientMessage", client);
    hide CompileModel, Declare, SortedNames, SchemaRefs, SharedDeps, Shared;
    var a, b, c := Declare(sorted, defs, false), Declare(server, defs, true), Declare(client, defs, true);
    Declared(sorted, defs, false, d);
    Declared(server, defs, true, d);
    Declared(client, defs, true, d);
    InFiveParts(a, b, u, c, v, d);
  }

  /** The emitted file defines exactly the models that the theorems about generated models speak of. */
  lemma {:induction false} EmittedModels(order: seq<string>, defs: Defs, server: seq<string>, client: seq<string>,
                                         name: string, model: Model)
    requires KeysOf(order, defs)
    ensures ModelOf(name, model) in Declarations(order, defs, server, client) <==>
              name in defs && model == CompileDefs(defs, Elements(server) + Elements(client))[name]
  {
    hide CompileModel, Declarations;
    DeclarationsAre(order, defs, server, client, ModelOf(name, model));
  }

  /** The union for the server's messages lists what the server's variants refer to, the one for the client's what
      the client's do. */
  lemma {:induction false} UnionsList(order: seq<string>, defs: Defs, serverVariants: seq<Schema>,
                                      clientVariants: seq<Schema>, union_: string, members: seq<string>, name: string)
    requires KeysOf(order, defs)
    requires UnionOf(union_, members) in Declarations(order, defs, Members(serverVariants), Members(clientVariants))
    ensures union_ == "ServerMessage" || union_ == "ClientMessage"
    ensures union_ == "ServerMessage" ==>
              (name in members <==> exists v :: v in serverVariants && v.ref.Some? && name == LastSegment(v.ref.value))
    ensures union_ == "ClientMessage" ==>
              (name in members <==> exists v :: v in clientVariants && v.ref.Some? && name == LastSegment(v.ref.value))
  {
    hide Declarations, Members, LastSegment;
    DeclarationsAre(order, defs, Members(serverVariants), Members(clientVariants), UnionOf(union_, members));
    MembersAre(serverVariants, name);
    MembersAre(clientVariants, name);
    assert "ServerMessage"[0] != "ClientMessage"[0];
  }

  function Defined(names: seq<string>, defs: Defs): seq<string> {
    if names == [] then [] else (if names[0] in defs then [names[0]] else []) + Defined(names[1..], defs)
  }

  function NamesOf(decls: seq<Decl>): seq<string> {
    seq(|decls|, i requires 0 <= i < |decls| => decls[i].name)
  }

  lemma {:induction false} DeclaredNamesAre(names: seq<string>, defs: Defs, isMessage: bool)
    ensures NamesOf(Declare(names, defs, isMessage)) == Defined(names, defs)
  {
    hide CompileModel;
    if names != [] {
      DeclaredNamesAre(names[1..], defs, isMessage);
      assert Declare(names, defs, isMessage)
             == DeclareOne(names[0], defs, isMessage) + Declare(names[1..], defs, isMessage);
    }
  }

  lemma {:induction false} AllDefined(names: seq<string>, defs: Defs)
    requires forall n | n in names :: n in defs
    ensures Defined(names, defs) == names
  {
    if names != [] {
      assert names == [names[0]] + names[1..];
      AllDefined(names[1..], defs);
    }
  }

  lemma {:induction false} NamesOfFive(a: seq<Decl>, b: seq<Decl>, u: Decl, c: seq<Decl>, v: Decl)
    ensures NamesOf(a + b + [u] + c + [v]) == NamesOf(a) + NamesOf(b) + [u.name] + NamesOf(c) + [v.name]
  {
  }

  /** The file in order: the shared models, dependencies first, then the server's messages and their union, and last
      the client's messages and theirs. */
  lemma {:induction false} EmittedInOrder(order: seq<string>, defs: Defs, server: seq<string>, client: seq<string>)
    requires KeysOf(order, defs)
    ensures NamesOf(Declarations(order, defs, server, client))
         == SortedNames(Shared(order, server, client), SharedDeps(Elements(Shared(order, server, client)), defs))
            + Defined(server, defs) + ["ServerMessage"] + Defined(client, defs) + ["ClientMessage"]
  {
    var shared := Shared(order, server, client);
    SortedElements(order, defs, server, client);
    var sorted := SortedNames(shared, SharedDeps(Elements(shared), defs));
    forall n | n in sorted ensures n in defs {
      assert n in Elements(sorted) && n in Elements(shared) && n in shared && n in order;
    }
    AllDefined(sorted, defs);
    hide CompileModel, Declare, SortedNames, SchemaRefs, SharedDeps, Shared, NamesOf, Defined;
    DeclaredNamesAre(sorted, defs, false);
    DeclaredNamesAre(server, defs, true);
    DeclaredNamesAre(client, defs, true);
    NamesOfFive(Declare(sorted, defs, false), Declare(server, defs, true), UnionOf("ServerMessage", server),
                Declare(client, defs, true), UnionOf("ClientMessage", client));
  }
}
