/** Removing model scratchpads from saved traces. */
module Redaction {
  import opened JsonSchema
  import opened Wrappers

  const THINKING := "thinking"

  predicate Scratch(key: string) { key == "thinking" || key == "thinkingSignature" }

  /** A dict whose `type` says it is a scratchpad. */
  predicate IsThinking(fields: map<string, Json>) {
    "type" in fields && fields["type"].Str? && THINKING <= fields["type"].s
  }

  /** Asking a `type` that is not a string how it starts raises. */
  predicate TypeReadable(fields: map<string, Json>) {
    "type" in fields ==> fields["type"].Str?
  }

  function Omitted(fields: map<string, Json>): Json
    requires IsThinking(fields)
  {
    Obj(map["type" := fields["type"], "omitted" := Bool(true)])
  }

  /** `redact_thinking`. */
  function Redact(v: Json): Option<Json> {
    match v
    case Arr(items) =>
      var parts := seq(|items|, i requires 0 <= i < |items| => Redact(items[i]));
      if exists i | 0 <= i < |parts| :: parts[i].None? then None
      else Some(Arr(seq(|parts|, i requires 0 <= i < |parts| && parts[i].Some? => parts[i].value)))
    case Obj(fields) =>
      if !TypeReadable(fields) then None
      else if IsThinking(fields) then Some(Omitted(fields))
      else
        var parts := map key | key in fields && !Scratch(key) :: Redact(fields[key]);
        if exists key | key in parts :: parts[key].None? then None
        else Some(Obj(map key | key in parts && parts[key].Some? :: parts[key].value))
    case _ => Some(v)
  }

  /** No scratchpad key at any depth, and scratchpad blocks reduced to their type. */
  ghost predicate NoThinking(v: Json) {
    match v
    case Arr(items) => forall i | 0 <= i < |items| :: NoThinking(items[i])
    case Obj(fields) =>
      if IsThinking(fields) then v == Omitted(fields)
      else forall key | key in fields :: !Scratch(key) && NoThinking(fields[key])
    case _ => true
  }

  /** Every `type` the redactor looks at is a string; it does not look inside scratchpads. */
  ghost predicate Readable(v: Json) {
    match v
    case Arr(items) => forall i | 0 <= i < |items| :: Readable(items[i])
    case Obj(fields) =>
      && TypeReadable(fields)
      && (IsThinking(fields) || forall key | key in fields && !Scratch(key) :: Readable(fields[key]))
    case _ => true
  }

  /** Redaction fails exactly on a `type` that is not a string. */
  lemma {:induction false} RedactsIff(v: Json)
    ensures Redact(v).Some? <==> Readable(v)
  {
    match v
    case Arr(items) =>
      forall i | 0 <= i < |items| ensures Redact(items[i]).Some? <==> Readable(items[i]) { RedactsIff(items[i]); }
      var parts := seq(|items|, i requires 0 <= i < |items| => Redact(items[i]));
      assert forall i | 0 <= i < |items| :: parts[i] == Redact(items[i]);
    case Obj(fields) =>
      forall key | key in fields && !Scratch(key) ensures Redact(fields[key]).Some? <==> Readable(fields[key]) {
        RedactsIff(fields[key]);
      }
      if TypeReadable(fields) && !IsThinking(fields) {
        var parts := map key | key in fields && !Scratch(key) :: Redact(fields[key]);
        assert Redact(v).None? <==> exists key | key in parts :: parts[key].None?;
        if !Readable(v) {
          var key :| key in fields && !Scratch(key) && !Readable(fields[key]);
          assert key in parts && parts[key].None?;
        }
      }
    case _ =>
  }

  /** Nothing of a scratchpad survives. */
  lemma {:induction false} RedactedHasNoThinking(v: Json)
    requires Redact(v).Some?
    ensures NoThinking(Redact(v).value)
  {
    match v
    case Arr(items) =>
      var parts := seq(|items|, i requires 0 <= i < |items| => Redact(items[i]));
      forall i | 0 <= i < |items| ensures parts[i].Some? && NoThinking(parts[i].value) {
        assert parts[i].Some?;
        RedactedHasNoThinking(items[i]);
      }
    case Obj(fields) =>
      if !IsThinking(fields) {
        var parts := map key | key in fields && !Scratch(key) :: Redact(fields[key]);
        forall key | key in parts ensures parts[key].Some? && NoThinking(parts[key].value) {
          RedactedHasNoThinking(fields[key]);
        }
        if "type" in fields {
          assert parts["type"] == Redact(fields["type"]) == Some(fields["type"]);
        }
        assert !IsThinking(Redact(v).value.fields);
      } else {
        assert Omitted(fields).fields["type"] == fields["type"];
        assert IsThinking(Omitted(fields).fields);
      }
    case _ =>
  }

  /** A value is left as it is exactly when it is readable and free of scratchpads. */
  lemma {:induction false} UnchangedIff(v: Json)
    ensures Redact(v) == Some(v) <==> Readable(v) && NoThinking(v)
  {
    RedactsIff(v);
    if Redact(v) == Some(v) { RedactedHasNoThinking(v); }
    if Readable(v) && NoThinking(v) { CleanUnchanged(v); }
  }

  lemma {:induction false} CleanUnchanged(v: Json)
    requires Readable(v) && NoThinking(v)
    ensures Redact(v) == Some(v)
  {
    match v
    case Arr(items) =>
      forall i | 0 <= i < |items| ensures Redact(items[i]) == Some(items[i]) { CleanUnchanged(items[i]); }
      var parts := seq(|items|, i requires 0 <= i < |items| => Redact(items[i]));
      assert forall i | 0 <= i < |parts| :: parts[i] == Some(items[i]);
      assert seq(|parts|, i requires 0 <= i < |parts| && parts[i].Some? => parts[i].value) == items;
    case Obj(fields) =>
      if !IsThinking(fields) {
        forall key | key in fields ensures !Scratch(key) && Redact(fields[key]) == Some(fields[key]) {
          CleanUnchanged(fields[key]);
        }
        var parts := map key | key in fields && !Scratch(key) :: Redact(fields[key]);
        assert forall key | key in parts :: parts[key] == Some(fields[key]);
        assert (map key | key in parts && parts[key].Some? :: parts[key].value) == fields;
      }
    case _ =>
  }

  lemma {:induction false} RedactedIsReadable(v: Json)
    requires Redact(v).Some?
    ensures Readable(Redact(v).value)
  {
    match v
    case Arr(items) =>
      var parts := seq(|items|, i requires 0 <= i < |items| => Redact(items[i]));
      forall i | 0 <= i < |items| ensures parts[i].Some? && Readable(parts[i].value) {
        assert parts[i].Some?;
        RedactedIsReadable(items[i]);
      }
    case Obj(fields) =>
      if !IsThinking(fields) {
        var parts := map key | key in fields && !Scratch(key) :: Redact(fields[key]);
        forall key | key in parts ensures parts[key].Some? && Readable(parts[key].value) {
          RedactedIsReadable(fields[key]);
        }
        if "type" in fields {
          assert parts["type"] == Redact(fields["type"]) == Some(fields["type"]);
        }
      } else {
        assert Omitted(fields).fields["type"] == fields["type"];
      }
    case _ =>
  }

  /** Redacting twice is redacting once. */
  lemma {:induction false} RedactIdempotent(v: Json)
    requires Redact(v).Some?
    ensures Redact(Redact(v).value) == Redact(v)
  {
    RedactedIsReadable(v);
    RedactedHasNoThinking(v);
    UnchangedIff(Redact(v).value);
  }

  /** What redaction leaves: a scratchpad block becomes its type and a note, any other dict loses its two
      scratchpad keys and nothing else, and lists keep their length. */
  lemma {:induction false} RedactedIs(v: Json)
    requires Redact(v).Some?
    ensures match v
            case Arr(items) =>
              && Redact(v).value.Arr? && |Redact(v).value.items| == |items|
              && forall i | 0 <= i < |items| :: Redact(items[i]) == Some(Redact(v).value.items[i])
            case Obj(fields) =>
              if "type" in fields && fields["type"].Str? && "thinking" <= fields["type"].s then
                Redact(v).value == Obj(map["type" := fields["type"], "omitted" := Bool(true)])
              else
                && Redact(v).value.Obj?
                && (forall key :: key in Redact(v).value.fields <==>
                      key in fields && key != "thinking" && key != "thinkingSignature")
                && forall key | key in Redact(v).value.fields ::
                  Redact(fields[key]) == Some(Redact(v).value.fields[key])
            case _ => Redact(v).value == v
  {
  }
}
