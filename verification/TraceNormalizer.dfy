/** Fixing the fields of an emitted trace that differ from run to run, before it is printed. */
module TraceNormalizer {
  import opened CanonicalJson
  import opened CanonicalText
  import opened Wrappers

  type Entries = map<Text, Value>

  function Chars(s: string): (r: Text)
    ensures |r| == |s| && forall i | 0 <= i < |s| :: r[i] == s[i] as int
  {
    seq(|s|, i requires 0 <= i < |s| => s[i] as int)
  }

  lemma {:induction false} SameChars(a: string, b: string)
    ensures Chars(a) == Chars(b) <==> a == b
  {
    if Chars(a) == Chars(b) {
      forall i | 0 <= i < |a| ensures a[i] == b[i] {
        assert a[i] as int == Chars(a)[i] == Chars(b)[i] == b[i] as int;
      }
    }
  }

  const TIMESTAMP := Str(Chars("2024-01-01T00:00:00Z"))
  const MASK := Str(Chars("NORMALIZED"))
  const TRACE_ID := Str(Chars("PARITY_TRACE_ID_NORMALIZED"))

  function FixedTiming(): Value {
    Dict(map[Chars("startedAt") := TIMESTAMP, Chars("endedAt") := Str(Chars("2024-01-01T00:00:01Z")),
             Chars("latencyMs") := Int(1000)])
  }

  function FixedSdk(): Value {
    Dict(map[Chars("name") := Str(Chars("autocontext-sdk")), Chars("version") := Str(Chars("0.0.0"))])
  }

  // ----- one field at a time -----

  /** The value is a dict with a dict under the key. */
  predicate Nested(v: Value, key: Text) {
    v.Dict? && key in v.entries && v.entries[key].Dict?
  }

  function FixSource(v: Value): Value {
    if Nested(v, Chars("sdk")) then Dict(v.entries[Chars("sdk") := FixedSdk()]) else v
  }

  function Mask(entries: Entries, key: Text): Entries {
    if key in entries then entries[key := MASK] else entries
  }

  function FixError(entries: Entries): Entries {
    Mask(Mask(Mask(entries, Chars("stack")), Chars("message")), Chars("type"))
  }

  function FixOutcome(v: Value): Value {
    if Nested(v, Chars("error")) then
      Dict(v.entries[Chars("error") := Dict(FixError(v.entries[Chars("error")].entries))])
    else v
  }

  function FixMessage(v: Value): Value
    requires v.Dict?
  {
    Dict(v.entries[Chars("timestamp") := TIMESTAMP])
  }

  predicate AllDicts(items: seq<Value>) {
    forall i | 0 <= i < |items| :: items[i].Dict?
  }

  function FixMessages(v: Value): Value
    requires v.List? ==> AllDicts(v.items)
  {
    if v.List? then List(seq(|v.items|, i requires 0 <= i < |v.items| && v.items[i].Dict? => FixMessage(v.items[i])))
    else v
  }

  // ----- the whole trace -----

  /** Unpacking a message that is not a dict raises. */
  predicate Accepted(trace: Entries) {
    Chars("messages") in trace && trace[Chars("messages")].List? ==> AllDicts(trace[Chars("messages")].items)
  }

  function FixField(key: Text, v: Value): Value
    requires key == Chars("messages") && v.List? ==> AllDicts(v.items)
  {
    if key == Chars("traceId") then TRACE_ID
    else if key == Chars("timing") then FixedTiming()
    else if key == Chars("source") then FixSource(v)
    else if key == Chars("messages") then FixMessages(v)
    else if key == Chars("outcome") then FixOutcome(v)
    else v
  }

  function Stamped(trace: Entries): Entries {
    trace[Chars("traceId") := TRACE_ID][Chars("timing") := FixedTiming()]
  }

  /** Every field fixed on its own, with the trace id and the timing present. */
  function Normalized(trace: Entries): Option<Entries> {
    if Accepted(trace) then Some(map key | key in Stamped(trace) :: FixField(key, Stamped(trace)[key])) else None
  }

  lemma {:induction false} FieldKeys()
    ensures Chars("traceId") != Chars("timing") && Chars("traceId") != Chars("source")
    ensures Chars("traceId") != Chars("messages") && Chars("traceId") != Chars("outcome")
    ensures Chars("timing") != Chars("source") && Chars("timing") != Chars("messages")
    ensures Chars("timing") != Chars("outcome") && Chars("source") != Chars("messages")
    ensures Chars("source") != Chars("outcome")
    ensures Chars("messages") != Chars("outcome")
  {
    SameChars("traceId", "timing");
    SameChars("traceId", "source");
    SameChars("traceId", "messages");
    SameChars("traceId", "outcome");
    SameChars("timing", "source");
    SameChars("timing", "messages");
    SameChars("timing", "outcome");
    SameChars("source", "messages");
    SameChars("source", "outcome");
    SameChars("messages", "outcome");
  }

  lemma {:induction false} ErrorKeys()
    ensures Chars("stack") != Chars("message") && Chars("stack") != Chars("type") && Chars("message") != Chars("type")
  {
    SameChars("stack", "message");
    SameChars("stack", "type");
    SameChars("message", "type");
  }

  /** `normalize_trace`: a copy whose fields are overwritten one after the other. */
  method NormalizeTrace(trace: Entries) returns (r: Option<Entries>)
    ensures r == Normalized(trace)
  {
    hide FixedSdk, FixedTiming, FixSource, FixOutcome, FixMessages, Chars;
    FieldKeys();
    var t := trace;
    t := t[Chars("traceId") := TRACE_ID];
    t := t[Chars("timing") := FixedTiming()];
    if Chars("source") in t {
      t := t[Chars("source") := FixSource(t[Chars("source")])];
    }
    if Chars("messages") in t {
      var messages := StampMessages(t[Chars("messages")]);
      if messages.None? {
        return None;
      }
      t := t[Chars("messages") := messages.value];
    }
    if Chars("outcome") in t {
      t := t[Chars("outcome") := FixOutcome(t[Chars("outcome")])];
    }
    r := Some(t);
    assert t == Normalized(trace).value;
  }

  method StampMessages(v: Value) returns (r: Option<Value>)
    ensures r == if v.List? && !AllDicts(v.items) then None else Some(FixMessages(v))
  {
    if !v.List? {
      return Some(v);
    }
    var stamped: seq<Value> := [];
    for k := 0 to |v.items|
      invariant AllDicts(v.items[..k])
      invariant stamped == FixMessages(List(v.items[..k])).items
    {
      if !v.items[k].Dict? {
        return None;
      }
      stamped := stamped + [FixMessage(v.items[k])];
      assert v.items[..k + 1] == v.items[..k] + [v.items[k]];
    }
    assert v.items[..|v.items|] == v.items;
    r := Some(List(stamped));
  }

  // ----- what normalizing forgets -----

  ghost predicate SameApartFrom(a: Entries, b: Entries, noise: set<Text>) {
    a - noise == b - noise
  }

  /** Equal, or equal apart from the content of the SDK dict. */
  ghost predicate SameSource(a: Value, b: Value) {
    || a == b
    || (Nested(a, Chars("sdk")) && Nested(b, Chars("sdk")) && SameApartFrom(a.entries, b.entries, {Chars("sdk")}))
  }

  /** Lists of dicts, equal one by one apart from the timestamp. */
  ghost predicate SameMessages(a: Value, b: Value) {
    a == b || (a.List? && b.List? && |a.items| == |b.items|
               && forall i | 0 <= i < |a.items| ::
                    a.items[i].Dict? && b.items[i].Dict?
                      && SameApartFrom(a.items[i].entries, b.items[i].entries, {Chars("timestamp")}))
  }

  /** The same keys, and the same values apart from stack, message and type. */
  ghost predicate SameError(a: Entries, b: Entries) {
    a.Keys == b.Keys && SameApartFrom(a, b, {Chars("stack"), Chars("message"), Chars("type")})
  }

  ghost predicate SameOutcome(a: Value, b: Value) {
    a == b || (Nested(a, Chars("error")) && Nested(b, Chars("error"))
               && SameApartFrom(a.entries, b.entries, {Chars("error")})
               && SameError(a.entries[Chars("error")].entries, b.entries[Chars("error")].entries))
  }

  ghost predicate SameField(key: Text, a: Value, b: Value) {
    if key == Chars("source") then SameSource(a, b)
    else if key == Chars("messages") then SameMessages(a, b)
    else if key == Chars("outcome") then SameOutcome(a, b)
    else a == b
  }

  /** Two traces of the same behaviour: they differ at most in the fields that vary from run to run. */
  ghost predicate SameBehaviour(a: Entries, b: Entries) {
    forall key | key != Chars("traceId") && key != Chars("timing") ::
      (key in a <==> key in b) && (key in a ==> SameField(key, a[key], b[key]))
  }

  lemma {:induction false} OverwrittenIff(a: Entries, b: Entries, key: Text, v: Value)
    ensures a[key := v] == b[key := v] <==> SameApartFrom(a, b, {key})
  {
    var x, y := a[key := v], b[key := v];
    if SameApartFrom(a, b, {key}) {
      forall k | k in x || k in y ensures k in x && k in y && x[k] == y[k] {
        if k != key { assert (k in a <==> k in a - {key}) && (k in b <==> k in b - {key}); }
      }
    }
    if x == y {
      forall k | k in a - {key} || k in b - {key} ensures k in a - {key} && k in b - {key} && a[k] == b[k] {
        assert k in x && k in y && x[k] == y[k];
      }
      assert a - {key} == b - {key};
    }
  }

  lemma {:induction false} SourceIff(a: Value, b: Value)
    ensures FixSource(a) == FixSource(b) <==> SameSource(a, b)
    ensures FixSource(FixSource(a)) == FixSource(a)
  {
    hide FixedSdk, Chars;
    assert FixedSdk().Dict? by { SdkIsDict(); }
    if Nested(a, Chars("sdk")) && Nested(b, Chars("sdk")) {
      OverwrittenIff(a.entries, b.entries, Chars("sdk"), FixedSdk());
    }
  }

  lemma {:induction false} SdkIsDict()
    ensures FixedSdk().Dict?
  {
  }

  lemma {:induction false} MessagesIff(a: Value, b: Value)
    requires a.List? ==> AllDicts(a.items)
    requires b.List? ==> AllDicts(b.items)
    ensures FixMessages(a) == FixMessages(b) <==> SameMessages(a, b)
    ensures FixMessages(FixMessages(a)) == FixMessages(a)
  {
    hide Chars;
    var ts := Chars("timestamp");
    if a.List? && b.List? && |a.items| == |b.items| {
      forall i | 0 <= i < |a.items|
        ensures FixMessage(a.items[i]) == FixMessage(b.items[i])
           <==> SameApartFrom(a.items[i].entries, b.items[i].entries, {ts})
      {
        OverwrittenIff(a.items[i].entries, b.items[i].entries, ts, TIMESTAMP);
      }
      hide SameApartFrom, FixMessage;
      var fa, fb := FixMessages(a).items, FixMessages(b).items;
      if FixMessages(a) == FixMessages(b) {
        forall i | 0 <= i < |a.items| ensures SameApartFrom(a.items[i].entries, b.items[i].entries, {ts}) {
          assert fa[i] == FixMessage(a.items[i]) && fb[i] == FixMessage(b.items[i]);
        }
      }
    }
    assert forall m: Value | m.Dict? :: FixMessage(FixMessage(m)) == FixMessage(m);
  }

  lemma {:induction false} ErrorAt(e: Entries, k: Text)
    ensures k in FixError(e) <==> k in e
    ensures k in e ==> FixError(e)[k] == if k in {Chars("stack"), Chars("message"), Chars("type")} then MASK else e[k]
  {
    ErrorKeys();
    hide Chars;
  }

  lemma {:induction false} ErrorIff(a: Entries, b: Entries)
    ensures FixError(a) == FixError(b) <==> SameError(a, b)
    ensures FixError(FixError(a)) == FixError(a)
  {
    forall k ensures k in FixError(a) <==> k in a { ErrorAt(a, k); }
    forall k ensures k in FixError(b) <==> k in b { ErrorAt(b, k); }
    forall k | k in a ensures FixError(FixError(a))[k] == FixError(a)[k] { ErrorAt(a, k); ErrorAt(FixError(a), k); }
    forall k ensures k in FixError(FixError(a)) <==> k in a { ErrorAt(FixError(a), k); ErrorAt(a, k); }
    var noise := {Chars("stack"), Chars("message"), Chars("type")};
    hide Chars, FixError;
    if SameError(a, b) {
      forall k | k in a ensures FixError(a)[k] == FixError(b)[k] {
        ErrorAt(a, k);
        ErrorAt(b, k);
        if k !in noise { assert k in a - noise && k in b - noise; }
      }
      assert FixError(a) == FixError(b);
    }
    if FixError(a) == FixError(b) {
      forall k ensures k in a <==> k in b { ErrorAt(a, k); ErrorAt(b, k); }
      forall k | k in a - noise ensures a[k] == b[k] { ErrorAt(a, k); ErrorAt(b, k); }
      assert a.Keys == b.Keys && a - noise == b - noise;
    }
  }

  lemma {:induction false} OutcomeIff(a: Value, b: Value)
    ensures FixOutcome(a) == FixOutcome(b) <==> SameOutcome(a, b)
    ensures FixOutcome(FixOutcome(a)) == FixOutcome(a)
  {
    var e := Chars("error");
    hide Chars, FixError, SameError;
    if Nested(a, e) { ErrorIff(a.entries[e].entries, a.entries[e].entries); }
    if Nested(a, e) && Nested(b, e) {
      var ea, eb := a.entries[e].entries, b.entries[e].entries;
      ErrorIff(ea, eb);
      if FixOutcome(a) == FixOutcome(b) {
        assert FixOutcome(a).entries[e] == FixOutcome(b).entries[e];
        OverwrittenIff(a.entries, b.entries, e, Dict(FixError(ea)));
      } else if SameOutcome(a, b) && a != b {
        OverwrittenIff(a.entries, b.entries, e, Dict(FixError(ea)));
      }
    }
  }

  lemma {:induction false} FieldIff(key: Text, a: Value, b: Value)
    requires key == Chars("messages") && a.List? ==> AllDicts(a.items)
    requires key == Chars("messages") && b.List? ==> AllDicts(b.items)
    requires key != Chars("traceId") && key != Chars("timing")
    ensures FixField(key, a) == FixField(key, b) <==> SameField(key, a, b)
  {
    hide Chars, FixSource, FixMessages, FixOutcome, SameSource, SameMessages, SameOutcome;
    FieldKeys();
    if key == Chars("source") { SourceIff(a, b); }
    else if key == Chars("messages") { MessagesIff(a, b); }
    else if key == Chars("outcome") { OutcomeIff(a, b); }
  }

  lemma {:induction false} FieldFixedOnce(key: Text, v: Value)
    requires key == Chars("messages") && v.List? ==> AllDicts(v.items)
    ensures key == Chars("messages") && FixField(key, v).List? ==> AllDicts(FixField(key, v).items)
    ensures FixField(key, FixField(key, v)) == FixField(key, v)
  {
    assert v.List? && AllDicts(v.items) ==> AllDicts(FixMessages(v).items);
    assert !v.List? ==> FixMessages(v) == v;
    hide Chars, FixSource, FixMessages, FixOutcome, SameSource, SameMessages, SameOutcome, FixedTiming, AllDicts;
    FieldKeys();
    if key == Chars("source") { SourceIff(v, v); }
    else if key == Chars("messages") { MessagesIff(v, v); }
    else if key == Chars("outcome") { OutcomeIff(v, v); }
  }

  lemma {:induction false} NormalizedAt(trace: Entries, key: Text)
    requires Accepted(trace)
    ensures var u := Normalized(trace).value;
            && (key in u <==> key in trace || key == Chars("traceId") || key == Chars("timing"))
            && (key == Chars("traceId") ==> u[key] == TRACE_ID)
            && (key == Chars("timing") ==> u[key] == FixedTiming())
            && (key in trace && key != Chars("traceId") && key != Chars("timing") ==>
                  (key == Chars("messages") && trace[key].List? ==> AllDicts(trace[key].items))
                  && u[key] == FixField(key, trace[key]))
  {
    FieldKeys();
    hide Chars, FixSource, FixMessages, FixOutcome, FixedTiming;
  }

  /** Normalizing twice is normalizing once, and the second time never fails. */
  lemma {:induction false} NormalizeIdempotent(trace: Entries)
    requires Accepted(trace)
    ensures Normalized(Normalized(trace).value) == Normalized(trace)
  {
    var u := Normalized(trace).value;
    var m := Chars("messages");
    FieldKeys();
    NormalizedAt(trace, m);
    if m in trace { FieldFixedOnce(m, trace[m]); }
    assert Accepted(u);
    var w := Normalized(u).value;
    hide Normalized, FixField, Chars, FixedTiming, AllDicts;
    forall key ensures (key in w <==> key in u) && (key in u ==> w[key] == u[key]) {
      NormalizedAt(trace, key);
      NormalizedAt(u, key);
      if key in trace && key != Chars("traceId") && key != Chars("timing") { FieldFixedOnce(key, trace[key]); }
    }
    assert w == u;
    NormalizedWhenAccepted(u);
    NormalizedWhenAccepted(trace);
  }

  lemma {:induction false} NormalizedWhenAccepted(trace: Entries)
    ensures Normalized(trace).Some? <==> Accepted(trace)
  {
  }

  /** Two traces normalize alike exactly when they differ only in the fields that vary from run to run. */
  lemma {:induction false} NormalizedSameIff(a: Entries, b: Entries)
    requires Accepted(a) && Accepted(b)
    ensures Normalized(a) == Normalized(b) <==> SameBehaviour(a, b)
  {
    NormalizedWhenAccepted(a);
    NormalizedWhenAccepted(b);
    var u, w := Normalized(a).value, Normalized(b).value;
    hide Normalized, FixField, Chars, FixedTiming, AllDicts, SameField, Accepted;
    if SameBehaviour(a, b) {
      forall key ensures (key in u <==> key in w) && (key in u ==> u[key] == w[key]) {
        NormalizedAt(a, key);
        NormalizedAt(b, key);
        if key in a && key in b && key != Chars("traceId") && key != Chars("timing") { FieldIff(key, a[key], b[key]); }
      }
      assert u == w;
    } else if u == w {
      forall key | key != Chars("traceId") && key != Chars("timing")
        ensures (key in a <==> key in b) && (key in a ==> SameField(key, a[key], b[key]))
      {
        NormalizedAt(a, key);
        NormalizedAt(b, key);
        if key in a { FieldIff(key, a[key], b[key]); }
      }
    }
  }

  // ----- the printed trace -----

  lemma {:induction false} CharsClean(s: string)
    requires forall i | 0 <= i < |s| :: s[i] as int < 0xD800
    ensures NoPairs(Chars(s))
  {
  }

  lemma {:induction false} ConstantsClean()
    ensures Clean(TIMESTAMP) && Clean(MASK) && Clean(TRACE_ID)
    ensures NoPairs(Chars("traceId")) && NoPairs(Chars("timing")) && NoPairs(Chars("sdk"))
              && NoPairs(Chars("timestamp"))
            && NoPairs(Chars("error"))
  {
  }

  lemma {:induction false} TimingClean()
    ensures Clean(FixedTiming())
  {
    ConstantsClean();
    CharsClean("startedAt");
    CharsClean("endedAt");
    CharsClean("2024-01-01T00:00:01Z");
    CharsClean("latencyMs");
    hide Chars, NoPairs;
  }

  lemma {:induction false} SdkClean()
    ensures Clean(FixedSdk())
  {
    CharsClean("name");
    CharsClean("version");
    CharsClean("autocontext-sdk");
    CharsClean("0.0.0");
    hide Chars, NoPairs;
  }

  lemma {:induction false} UpdateClean(entries: Entries, key: Text, v: Value)
    requires Clean(Dict(entries)) && NoPairs(key) && Clean(v)
    ensures Clean(Dict(entries[key := v]))
  {
    hide NoPairs;
  }

  lemma {:induction false} ErrorClean(entries: Entries)
    requires Clean(Dict(entries))
    ensures Clean(Dict(FixError(entries)))
  {
    ConstantsClean();
    forall k | k in FixError(entries) ensures NoPairs(k) && Clean(FixError(entries)[k]) { ErrorAt(entries, k); }
  }

  lemma {:induction false} FieldClean(key: Text, v: Value)
    requires key == Chars("messages") && v.List? ==> AllDicts(v.items)
    requires Clean(v)
    ensures Clean(FixField(key, v))
  {
    ConstantsClean();
    TimingClean();
    SdkClean();
    hide Chars, NoPairs, FixedSdk, FixedTiming, FixError;
    if key == Chars("source") && Nested(v, Chars("sdk")) {
      UpdateClean(v.entries, Chars("sdk"), FixedSdk());
    } else if key == Chars("messages") && v.List? {
      forall i | 0 <= i < |v.items| ensures Clean(FixMessage(v.items[i])) {
        UpdateClean(v.items[i].entries, Chars("timestamp"), TIMESTAMP);
      }
    } else if key == Chars("outcome") && Nested(v, Chars("error")) {
      ErrorClean(v.entries[Chars("error")].entries);
      UpdateClean(v.entries, Chars("error"), Dict(FixError(v.entries[Chars("error")].entries)));
    }
  }

  lemma {:induction false} NormalizedClean(trace: Entries)
    requires Accepted(trace) && Clean(Dict(trace))
    ensures Clean(Dict(Normalized(trace).value))
  {
    ConstantsClean();
    TimingClean();
    var u := Normalized(trace).value;
    hide Chars, NoPairs, FixedTiming, Normalized, FixField;
    forall key | key in u ensures NoPairs(key) && Clean(u[key]) {
      NormalizedAt(trace, key);
      if key in trace {
        assert NoPairs(key) && Clean(trace[key]);
        if key != Chars("traceId") && key != Chars("timing") { FieldClean(key, trace[key]); }
      }
    }
  }

  /** What the drivers compare: two loaded traces print the same canonical text exactly when they show the
      same behaviour. */
  lemma {:induction false} ParityIff(a: Entries, b: Entries)
    requires Accepted(a) && Accepted(b) && Clean(Dict(a)) && Clean(Dict(b))
    ensures Print(Dict(Normalized(a).value)) == Print(Dict(Normalized(b).value)) <==> SameBehaviour(a, b)
  {
    NormalizedWhenAccepted(a);
    NormalizedWhenAccepted(b);
    hide Normalized, SameBehaviour, Accepted, Clean, Print;
    NormalizedClean(a);
    NormalizedClean(b);
    PrintedSameIff(Dict(Normalized(a).value), Dict(Normalized(b).value));
    NormalizedSameIff(a, b);
  }
}
