/** What a normalized trace holds, field by field. */
module TraceContents {
  import opened CanonicalJson
  import opened CanonicalText
  import opened TraceNormalizer
  import opened Wrappers

  function Text_(s: string): Value { Str(Chars(s)) }

  /** The trace id and the timing are fixed, whatever they were and even if there were none; no other field comes
      or goes, and a field that is not named stays as it is. */
  lemma {:induction false} FixedFields(trace: Entries, key: Text)
    requires Normalized(trace).Some?
    ensures Normalized(trace).value.Keys == trace.Keys + {Chars("traceId"), Chars("timing")}
    ensures Normalized(trace).value[Chars("traceId")] == Text_("PARITY_TRACE_ID_NORMALIZED")
    ensures Normalized(trace).value[Chars("timing")]
         == Dict(map[Chars("startedAt") := Text_("2024-01-01T00:00:00Z"),
                     Chars("endedAt") := Text_("2024-01-01T00:00:01Z"),
                     Chars("latencyMs") := Int(1000)])
    ensures key in trace
            && key !in {Chars("traceId"), Chars("timing"), Chars("source"), Chars("messages"), Chars("outcome")} ==>
              Normalized(trace).value[key] == trace[key]
  {
    FieldKeys();
    hide Chars, FixSource, FixMessages, FixOutcome, AllDicts;
  }

  /** Of the source only the name and the version of the SDK are fixed. */
  lemma {:induction false} FixedSource(trace: Entries)
    requires Normalized(trace).Some? && Chars("source") in trace
    ensures var source := trace[Chars("source")];
            Normalized(trace).value[Chars("source")]
            == if source.Dict? && Chars("sdk") in source.entries && source.entries[Chars("sdk")].Dict? then
                 Dict(source.entries[Chars("sdk") := Dict(map[Chars("name") := Text_("autocontext-sdk"),
                                                             Chars("version") := Text_("0.0.0")])])
               else source
  {
    FieldKeys();
    hide Chars, FixMessages, FixOutcome, FixedTiming, AllDicts;
  }

  /** Of a message only the timestamp is fixed, and it is added when missing. */
  lemma {:induction false} FixedMessages(trace: Entries, i: nat)
    requires Normalized(trace).Some? && Chars("messages") in trace
    ensures var messages, fixed := trace[Chars("messages")], Normalized(trace).value[Chars("messages")];
            && (!messages.List? ==> fixed == messages)
            && (messages.List? ==>
                  && fixed.List? && |fixed.items| == |messages.items|
                  && (i < |messages.items| ==>
                        && messages.items[i].Dict?
                        && fixed.items[i] == Dict(messages.items[i].entries[Chars("timestamp") :=
                                                                             Text_("2024-01-01T00:00:00Z")])))
  {
    FieldKeys();
    hide Chars, FixSource, FixOutcome, FixedTiming;
  }

  /** What the error of an outcome becomes: the three fields that vary are masked where they are. */
  ghost predicate MaskedError(before: Entries, after: Entries) {
    && after.Keys == before.Keys
    && forall key | key in before ::
         after[key] == if key == Chars("stack") || key == Chars("message") || key == Chars("type")
                       then Text_("NORMALIZED")
                       else before[key]
  }

  lemma {:induction false} ErrorIsMasked(before: Entries)
    ensures MaskedError(before, FixError(before))
  {
    ErrorKeys();
    hide Chars;
  }

  /** Of the outcome only the error changes. */
  lemma {:induction false} FixedOutcome(trace: Entries)
    requires Normalized(trace).Some? && Chars("outcome") in trace
    ensures var outcome, fixed := trace[Chars("outcome")], Normalized(trace).value[Chars("outcome")];
            if outcome.Dict? && Chars("error") in outcome.entries && outcome.entries[Chars("error")].Dict? then
              && fixed.Dict? && fixed.entries.Keys == outcome.entries.Keys && fixed.entries[Chars("error")].Dict?
              && MaskedError(outcome.entries[Chars("error")].entries, fixed.entries[Chars("error")].entries)
              && forall key | key in outcome.entries && key != Chars("error") ::
                fixed.entries[key] == outcome.entries[key]
            else fixed == outcome
  {
    FieldKeys();
    hide Chars, FixSource, FixMessages, FixedTiming, AllDicts, MaskedError, FixError;
    var outcome := trace[Chars("outcome")];
    if Nested(outcome, Chars("error")) { ErrorIsMasked(outcome.entries[Chars("error")].entries); }
  }

  /** The trace cannot be normalized exactly when it holds a list of messages with something that is not a dict. */
  lemma {:induction false} RaisesIff(trace: Entries)
    ensures Normalized(trace).None? <==>
              Chars("messages") in trace && trace[Chars("messages")].List?
              && exists i :: 0 <= i < |trace[Chars("messages")].items| && !trace[Chars("messages")].items[i].Dict?
  {
    hide Chars;
  }
}
