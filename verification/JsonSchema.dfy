/** JSON values and the JSON Schema keywords the protocol generator meets, with the meaning
    JSON Schema draft 2020-12 gives them. */
module JsonSchema {
  import opened Wrappers

  datatype Json =
    | Null
    | Bool(b: bool)
    | Num(n: real)
    | Str(s: string)
    | Arr(items: seq<Json>)
    | Obj(fields: map<string, Json>)

  datatype AnyOf = NoAnyOf | AnyOf(alts: seq<Schema>)
  datatype Items = NoItems | Items(schema: Schema)
  datatype Additional = NoAdditional | Flag(allowed: bool) | Every(schema: Schema)
  datatype Properties = NoProperties | Properties(props: seq<Property>)
  datatype Property = Property(name: string, schema: Schema)
  datatype Type = NoType | Name(name: string) | Names(names: seq<string>)

  /** A schema dict: each field is a keyword, present or not. */
  datatype Schema = Schema(
    ref: Option<string>, const_: Option<Json>, enum_: Option<seq<Json>>, anyOf: AnyOf, type_: Type,
    minLength: Option<nat>, maxLength: Option<nat>,
    minimum: Option<real>, maximum: Option<real>, exclusiveMinimum: Option<real>, exclusiveMaximum: Option<real>,
    items: Items, minItems: Option<nat>, maxItems: Option<nat>,
    additional: Additional, properties: Properties, required: seq<string>)

  const ANYTHING := Schema(None, None, None, NoAnyOf, NoType, None, None, None, None, None, None, NoItems, None, None,
                           NoAdditional, NoProperties, [])

  type Defs = map<string, Schema>

  /** The last segment of a `$ref`, as `split("/")[-1]` gives it. */
  function LastSegment(ref: string): (r: string)
    ensures '/' !in r
    ensures |r| <= |ref| && ref[|ref| - |r|..] == r
    ensures |r| < |ref| ==> ref[|ref| - |r| - 1] == '/'
  {
    if ref == "" || ref[|ref| - 1] == '/' then ""
    else LastSegment(ref[..|ref| - 1]) + [ref[|ref| - 1]]
  }

  /** Two readings of a schema: the standard's, and that of a JavaScript runtime, which measures strings
      in UTF-16 units and has no integers beyond 2^53 - 1. */
  datatype Reading = Standard | JavaScript

  function Utf16Length(s: string): nat {
    if s == "" then 0 else Utf16Length(s[..|s| - 1]) + (if s[|s| - 1] as int > 0xFFFF then 2 else 1)
  }

  function LengthOf(r: Reading, s: string): nat {
    if r == Standard then |s| else Utf16Length(s)
  }

  const MAX_SAFE := 9007199254740991.0

  predicate IsInteger(r: Reading, n: real) {
    n.Floor as real == n && (r == JavaScript ==> -MAX_SAFE <= n <= MAX_SAFE)
  }

  predicate OfType(r: Reading, name: string, v: Json) {
    match v
    case Null => name == "null"
    case Bool(_) => name == "boolean"
    case Num(n) => name == "number" || (name == "integer" && IsInteger(r, n))
    case Str(_) => name == "string"
    case Arr(_) => name == "array"
    case Obj(_) => name == "object"
  }

  predicate TypeOk(r: Reading, t: Type, v: Json) {
    match t
    case NoType => true
    case Name(name) => OfType(r, name, v)
    case Names(names) => exists name | name in names :: OfType(r, name, v)
  }

  predicate LengthOk(r: Reading, s: Schema, text: string) {
    && (s.minLength.Some? ==> LengthOf(r, text) >= s.minLength.value)
    && (s.maxLength.Some? ==> LengthOf(r, text) <= s.maxLength.value)
  }

  predicate BoundsOk(s: Schema, n: real) {
    && (s.minimum.Some? ==> n >= s.minimum.value) && (s.maximum.Some? ==> n <= s.maximum.value)
    && (s.exclusiveMinimum.Some? ==> n > s.exclusiveMinimum.value)
    && (s.exclusiveMaximum.Some? ==> n < s.exclusiveMaximum.value)
  }

  predicate SizeOk(s: Schema, n: nat) {
    && (s.minItems.Some? ==> n >= s.minItems.value) && (s.maxItems.Some? ==> n <= s.maxItems.value)
  }

  function Props(s: Schema): seq<Property> {
    match s.properties case NoProperties => [] case Properties(props) => props
  }

  ghost predicate Declared(s: Schema, name: string) {
    exists p | p in Props(s) :: p.name == name
  }

  /** The value satisfies every keyword of the schema. */
  ghost predicate Accepts(r: Reading, defs: Defs, s: Schema, v: Json)
    decreases v, 1, s
  {
    && (s.ref.Some? ==> LastSegment(s.ref.value) in defs && Keywords(r, defs, defs[LastSegment(s.ref.value)], v))
    && (s.anyOf.AnyOf? ==> exists i | 0 <= i < |s.anyOf.alts| :: Accepts(r, defs, s.anyOf.alts[i], v))
    && Keywords(r, defs, s, v)
  }

  /** Every keyword but `$ref` and `anyOf`; a definition uses neither at its top. */
  ghost predicate Keywords(r: Reading, defs: Defs, s: Schema, v: Json)
    decreases v, 0
  {
    && TypeOk(r, s.type_, v)
    && (s.const_.Some? ==> v == s.const_.value)
    && (s.enum_.Some? ==> v in s.enum_.value)
    && match v
       case Str(text) => LengthOk(r, s, text)
       case Num(n) => BoundsOk(s, n)
       case Arr(items) =>
         && SizeOk(s, |items|)
         && (s.items.Items? ==> forall i | 0 <= i < |items| :: Accepts(r, defs, s.items.schema, items[i]))
       case Obj(fields) =>
         && (forall name | name in s.required :: name in fields)
         && (forall p | p in Props(s) && p.name in fields :: Accepts(r, defs, p.schema, fields[p.name]))
         && (forall key | key in fields && !Declared(s, key) ::
               match s.additional
               case NoAdditional => true
               case Flag(allowed) => allowed
               case Every(schema) => Accepts(r, defs, schema, fields[key]))
       case _ => true
  }

  /** Definitions are evaluated in place by `$ref`, so they hold neither `$ref` nor `anyOf` at their top. */
  ghost predicate PlainDefs(defs: Defs) {
    forall name | name in defs :: defs[name].ref == None && defs[name].anyOf == NoAnyOf
  }

  // ----- where the two readings agree -----

  /** Only characters of the Basic Multilingual Plane and only safe integers, at every depth. */
  ghost predicate Portable(v: Json) {
    match v
    case Str(text) => forall i | 0 <= i < |text| :: text[i] as int <= 0xFFFF
    case Num(n) => n.Floor as real == n ==> -MAX_SAFE <= n <= MAX_SAFE
    case Arr(items) => forall i | 0 <= i < |items| :: Portable(items[i])
    case Obj(fields) => forall key | key in fields :: Portable(fields[key])
    case _ => true
  }

  lemma {:induction false} NarrowLength(text: string)
    requires forall i | 0 <= i < |text| :: text[i] as int <= 0xFFFF
    ensures Utf16Length(text) == |text|
  {
    if text != "" { NarrowLength(text[..|text| - 1]); }
  }

  lemma {:induction false} Utf16IsLonger(text: string)
    ensures |text| <= Utf16Length(text) <= 2 * |text|
  {
    if text != "" { Utf16IsLonger(text[..|text| - 1]); }
  }

  /** On portable values a JavaScript runtime reads a schema as the standard does. */
  lemma {:induction false} ReadingsAgree(defs: Defs, s: Schema, v: Json)
    requires Portable(v)
    ensures Accepts(JavaScript, defs, s, v) <==> Accepts(Standard, defs, s, v)
    decreases v, 1, s
  {
    KeywordsAgree(defs, s, v);
    if s.ref.Some? && LastSegment(s.ref.value) in defs {
      KeywordsAgree(defs, defs[LastSegment(s.ref.value)], v);
    }
    if s.anyOf.AnyOf? {
      forall i | 0 <= i < |s.anyOf.alts|
        ensures Accepts(JavaScript, defs, s.anyOf.alts[i], v) <==> Accepts(Standard, defs, s.anyOf.alts[i], v)
      {
        ReadingsAgree(defs, s.anyOf.alts[i], v);
      }
    }
  }

  lemma {:induction false} KeywordsAgree(defs: Defs, s: Schema, v: Json)
    requires Portable(v)
    ensures Keywords(JavaScript, defs, s, v) <==> Keywords(Standard, defs, s, v)
    decreases v, 0
  {
    assert forall name: string :: OfType(JavaScript, name, v) <==> OfType(Standard, name, v);
    match v
    case Str(text) => NarrowLength(text);
    case Arr(items) =>
      if s.items.Items? {
        forall i | 0 <= i < |items|
          ensures Accepts(JavaScript, defs, s.items.schema, items[i])
             <==> Accepts(Standard, defs, s.items.schema, items[i])
        {
          ReadingsAgree(defs, s.items.schema, items[i]);
        }
      }
    case Obj(fields) =>
      forall p | p in Props(s) && p.name in fields
        ensures Accepts(JavaScript, defs, p.schema, fields[p.name])
           <==> Accepts(Standard, defs, p.schema, fields[p.name])
      {
        ReadingsAgree(defs, p.schema, fields[p.name]);
      }
      if s.additional.Every? {
        forall key | key in fields
          ensures Accepts(JavaScript, defs, s.additional.schema, fields[key])
             <==> Accepts(Standard, defs, s.additional.schema, fields[key])
        {
          ReadingsAgree(defs, s.additional.schema, fields[key]);
        }
      }
    case _ =>
  }
}
