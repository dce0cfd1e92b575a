/** The call-budgeted provider of the policy reuse benchmark: each call is one row of a ledger. */
module PolicyProvider {
  import opened JsonSchema
  import opened Redaction
  import opened Wrappers

  datatype Status = Started | Completed | Failed
  datatype Phase = Synthesis | Evaluation
  datatype Row = Row(call: nat, phase: Phase, status: Status, totalTokens: real, usageKnown: bool)

  /** What the environment does to one call: whether its files can be written, and what the process returns. */
  datatype Line = Text(text: string) | Event(value: Json)
  datatype Process = Raised | Exited(code: int, lines: seq<Line>)
  datatype Attempt = Attempt(requestSaved: bool, process: Process, traceSaved: bool, ledgerSaved: bool)

  type Dict = map<string, Json>

  // ----- reading the process output; None is a raised exception -----

  function Get(fields: Dict, key: string, default: Json): Json {
    if key in fields then fields[key] else default
  }

  /** A line of the saved trace: an event with its scratchpads removed, or output that is not JSON, as it came. */
  datatype Saved = Redacted(value: Json) | Verbatim(text: string)

  function TraceLine(line: Line): Option<Saved> {
    match line
    case Text(text) => Some(Verbatim(text))
    case Event(value) => if Redact(value).None? then None else Some(Redacted(Redact(value).value))
  }

  function Trace(lines: seq<Line>): Option<seq<Saved>> {
    if lines == [] then Some([])
    else
      var before, last := Trace(lines[..|lines| - 1]), TraceLine(lines[|lines| - 1]);
      if before.None? || last.None? then None else Some(before.value + [last.value])
  }

  /** The assistant message an event ends, if any. */
  function Ended(event: Json): Option<seq<Dict>> {
    if !event.Obj? then None
    else if Get(event.fields, "type", Null) != Str("message_end") then Some([])
    else
      var message := Get(event.fields, "message", Obj(map[]));
      if !message.Obj? then None
      else if Get(message.fields, "role", Null) == Str("assistant") then Some([message.fields]) else Some([])
  }

  /** The assistant messages of the output, in order. */
  function Messages(lines: seq<Line>): Option<seq<Dict>> {
    if lines == [] then Some([])
    else
      var before, line := Messages(lines[..|lines| - 1]), lines[|lines| - 1];
      if line.Text? then before
      else
        var last := Ended(line.value);
        if before.None? || last.None? then None else Some(before.value + last.value)
  }

  function Usages(messages: seq<Dict>): seq<Dict> {
    if messages == [] then []
    else
      var usage := Get(messages[0], "usage", Null);
      (if usage.Obj? then [usage.fields] else []) + Usages(messages[1..])
  }

  function Number(v: Json): Option<real> {
    match v case Num(n) => Some(n) case Bool(b) => Some(if b then 1.0 else 0.0) case _ => None
  }

  function Summed(usages: seq<Dict>, field: string): Option<real> {
    if usages == [] then Some(0.0)
    else
      var first, rest := Number(Get(usages[0], field, Num(0.0))), Summed(usages[1..], field);
      if first.None? || rest.None? then None else Some(first.value + rest.value)
  }

  /** The reported total, or else the sum of the parts. */
  function TotalTokens(usages: seq<Dict>): Option<real> {
    var i, o := Summed(usages, "input"), Summed(usages, "output");
    var r, w := Summed(usages, "cacheRead"), Summed(usages, "cacheWrite");
    var total := Summed(usages, "totalTokens");
    if i.None? || o.None? || r.None? || w.None? || total.None? then None
    else Some(if total.value != 0.0 then total.value else i.value + o.value + r.value + w.value)
  }

  /** The served models can be put in a set and sorted. */
  predicate ModelsSortable(messages: seq<Dict>) {
    || (forall m | m in messages :: Get(m, "model", Str("unknown")).Str?)
    || (forall m | m in messages :: Number(Get(m, "model", Str("unknown"))).Some?)
    || (forall m | m in messages :: Get(m, "model", Str("unknown")).Null?)
  }

  function Texts(blocks: seq<Json>): Option<seq<string>> {
    if blocks == [] then Some([])
    else if !blocks[0].Obj? then None
    else
      var rest := Texts(blocks[1..]);
      if rest.None? then None
      else if Get(blocks[0].fields, "type", Null) != Str("text") then rest
      else
        var text := Get(blocks[0].fields, "text", Null);
        if text.Str? then Some([text.s] + rest.value) else None
  }

  function JoinLines(lines: seq<string>): string {
    if lines == [] then "" else if |lines| == 1 then lines[0] else lines[0] + "\n" + JoinLines(lines[1..])
  }

  predicate IsSpace(c: char) {
    var p := c as int;
    9 <= p <= 13 || 28 <= p <= 32 || p == 0x85 || p == 0xA0 || p == 0x1680 || 0x2000 <= p <= 0x200A
    || p == 0x2028 || p == 0x2029 || p == 0x202F || p == 0x205F || p == 0x3000
  }

  predicate Blank(text: string) { forall i | 0 <= i < |text| :: IsSpace(text[i]) }

  /** The text of the last message, unless it stopped on an error or says nothing. */
  function Reply(message: Dict): Option<string> {
    var stop := Get(message, "stopReason", Null);
    var content := Get(message, "content", Arr([]));
    if stop == Str("error") || stop == Str("aborted") || !content.Arr? then None
    else
      var texts := Texts(content.items);
      if texts.None? || Blank(JoinLines(texts.value)) then None else Some(JoinLines(texts.value))
  }

  /** How a call ends: what its row says and what it returns. */
  datatype Ending = Ending(usageKnown: bool, tokens: real, reply: Option<string>)

  const NOTHING := Ending(false, 0.0, None)

  function Concluded(code: int, messages: seq<Dict>): Ending {
    var usages := Usages(messages);
    var tokens := TotalTokens(usages);
    if tokens.None? then Ending(usages != [], 0.0, None)
    else if !ModelsSortable(messages) || code != 0 || messages == [] then Ending(usages != [], tokens.value, None)
    else Ending(usages != [], tokens.value, Reply(messages[|messages| - 1]))
  }

  function Outcome(a: Attempt): Ending {
    if a.process.Raised? || Trace(a.process.lines).None? || !a.traceSaved then NOTHING
    else
      var messages := Messages(a.process.lines);
      if messages.None? then NOTHING else Concluded(a.process.code, messages.value)
  }

  /** The trace file the call leaves, if it gets that far. */
  function SavedTrace(a: Attempt): Option<seq<Saved>> {
    if a.process.Exited? && a.traceSaved then Trace(a.process.lines) else None
  }

  // ----- the ledger -----

  function Tokens(rows: seq<Row>): real {
    if rows == [] then 0.0 else Tokens(rows[..|rows| - 1]) + rows[|rows| - 1].totalTokens
  }

  function Recorded(calls: seq<Row>, phase: Phase, e: Ending): Row {
    Row(|calls| + 1, phase, if e.reply.Some? then Completed else Failed, e.tokens, e.usageKnown)
  }

  datatype Limits = Limits(maxCalls: nat, tokenStop: real)

  predicate MayCall(calls: seq<Row>, limits: Limits) {
    |calls| < limits.maxCalls && Tokens(calls) < limits.tokenStop
  }

  /** The ledger after one attempted call; a call refused by a budget leaves no row. */
  function After(calls: seq<Row>, limits: Limits, phase: Phase, a: Attempt): seq<Row> {
    if MayCall(calls, limits) && a.requestSaved then calls + [Recorded(calls, phase, Outcome(a))] else calls
  }

  /** What the attempted call returns; None is an exception. */
  function Returned(calls: seq<Row>, limits: Limits, a: Attempt): Option<string> {
    if MayCall(calls, limits) && a.requestSaved && a.ledgerSaved then Outcome(a).reply else None
  }

  /** None of the prior calls completed and no episodes were saved. */
  predicate MayCarry(prior: seq<Row>, episodesExist: bool) {
    !episodesExist && forall i | 0 <= i < |prior| :: prior[i].status != Completed
  }

  class Provider {
    const limits: Limits
    var timeout: real
    var phase: Phase
    var calls: seq<Row>
    var savedLedger: seq<Row>
    var traces: map<nat, seq<Saved>>
    /** The timeout the last attempted call ran under. */
    ghost var timeoutUsed: real

    constructor (limits: Limits, timeout: real)
      ensures this.limits == limits && this.timeout == timeout && phase == Synthesis && calls == [] && savedLedger == []
    {
      this.limits, this.timeout, phase, calls, savedLedger := limits, timeout, Synthesis, [], [];
      timeoutUsed, traces := timeout, map[];
    }

    /** A prior attempt's ledger may be taken over only if none of its calls completed. */
    method Carry(prior: seq<Row>, episodesExist: bool) returns (ok: bool)
      modifies this`calls
      ensures calls == prior
      ensures ok <==> !episodesExist && forall i | 0 <= i < |prior| :: prior[i].status != Completed
    {
      calls := prior;
      ok := MayCarry(prior, episodesExist);
    }

    /** `PiProvider.complete`: the row is appended as started, and closed before the call returns or raises; the
        ledger is written last, and raises itself when that fails. */
    method Complete(a: Attempt) returns (r: Option<string>)
      modifies this`calls, this`savedLedger, this`traces, this`timeoutUsed
      ensures timeoutUsed == timeout
      ensures calls == old(calls) <==>
                |old(calls)| >= limits.maxCalls || Tokens(old(calls)) >= limits.tokenStop || !a.requestSaved
      ensures calls == After(old(calls), limits, phase, a)
      ensures r == Returned(old(calls), limits, a)
      ensures savedLedger == if calls != old(calls) && a.ledgerSaved then calls else old(savedLedger)
      ensures traces == if calls != old(calls) && SavedTrace(a).Some? then old(traces)[|calls| := SavedTrace(a).value]
                        else old(traces)
    {
      timeoutUsed := timeout;
      if |calls| >= limits.maxCalls {
        return None;
      }
      if Tokens(calls) >= limits.tokenStop {
        return None;
      }
      if !a.requestSaved {
        return None;
      }
      ghost var before := calls;
      hide Tokens, Outcome, SavedTrace;
      var index := |calls| + 1;
      calls := calls + [Row(index, phase, Started, 0.0, false)];
      var e, trace := Run(a);
      if trace.Some? {
        traces := traces[index := trace.value];
      }
      var row := calls[index - 1].(usageKnown := e.usageKnown, totalTokens := e.tokens);
      if e.reply.Some? {
        row := row.(status := Completed);
        r := e.reply;
      } else {
        row := row.(status := Failed);
        r := None;
      }
      calls := calls[index - 1 := row];
      assert calls == before + [row];
      if !a.ledgerSaved {
        return None;
      }
      savedLedger := calls;
    }
  }

  /** The body of the `try`: redact and save the trace, collect the messages, count their usage, read the reply. */
  method Run(a: Attempt) returns (e: Ending, trace: Option<seq<Saved>>)
    ensures e == Outcome(a) && trace == SavedTrace(a)
  {
    hide Concluded, Redact, Ended;
    if a.process.Raised? {
      return NOTHING, None;
    }
    var lines := a.process.lines;
    trace := RedactLines(lines);
    if trace.None? || !a.traceSaved {
      return NOTHING, None;
    }
    var messages := CollectMessages(lines);
    e := if messages.None? then NOTHING else Concluded(a.process.code, messages.value);
  }

  lemma {:induction false} TraceFails(lines: seq<Line>, k: nat)
    requires k <= |lines| && Trace(lines[..k]).None?
    ensures Trace(lines).None?
    decreases |lines| - k
  {
    if k < |lines| {
      assert lines[..k + 1][..k] == lines[..k];
      TraceFails(lines, k + 1);
    } else {
      assert lines[..k] == lines;
    }
  }

  lemma {:induction false} MessagesFail(lines: seq<Line>, k: nat)
    requires k <= |lines| && Messages(lines[..k]).None?
    ensures Messages(lines).None?
    decreases |lines| - k
  {
    if k < |lines| {
      assert lines[..k + 1][..k] == lines[..k];
      MessagesFail(lines, k + 1);
    } else {
      assert lines[..k] == lines;
    }
  }

  /** The first loop over the output; the first line that cannot be redacted raises. */
  method RedactLines(lines: seq<Line>) returns (trace: Option<seq<Saved>>)
    ensures trace == Trace(lines)
  {
    hide Redact;
    var saved: seq<Saved> := [];
    for k := 0 to |lines|
      invariant Trace(lines[..k]) == Some(saved)
    {
      assert lines[..k + 1][..k] == lines[..k];
      var line := TraceLine(lines[k]);
      if line.None? {
        TraceFails(lines, k + 1);
        return None;
      }
      saved := saved + [line.value];
    }
    assert lines[..|lines|] == lines;
    trace := Some(saved);
  }

  /** The second loop over the output. */
  method CollectMessages(lines: seq<Line>) returns (messages: Option<seq<Dict>>)
    ensures messages == Messages(lines)
  {
    hide Ended;
    var collected: seq<Dict> := [];
    for k := 0 to |lines|
      invariant Messages(lines[..k]) == Some(collected)
    {
      assert lines[..k + 1][..k] == lines[..k];
      if lines[k].Event? {
        var ended := Ended(lines[k].value);
        if ended.None? {
          MessagesFail(lines, k + 1);
          return None;
        }
        collected := collected + ended.value;
      }
    }
    assert lines[..|lines|] == lines;
    messages := Some(collected);
  }

  // ----- what a saved trace shows -----

  /** Line by line: events are saved without scratchpads, anything else as it came. */
  lemma {:induction false} TraceHidesThinking(lines: seq<Line>)
    requires Trace(lines).Some?
    ensures |Trace(lines).value| == |lines|
    ensures forall i | 0 <= i < |lines| :: match lines[i]
              case Text(text) => Trace(lines).value[i] == Verbatim(text)
              case Event(value) => Trace(lines).value[i].Redacted? && NoThinking(Trace(lines).value[i].value)
                                   && Redact(value) == Some(Trace(lines).value[i].value)
  {
    hide Redact, NoThinking;
    if lines != [] {
      var n := |lines| - 1;
      TraceHidesThinking(lines[..n]);
      if lines[n].Event? { RedactedHasNoThinking(lines[n].value); }
    }
  }

  /** The whole trace is free of scratchpads, whatever the model wrote, exactly when every line of output was JSON. */
  lemma {:induction false} TraceCleanIff(lines: seq<Line>)
    requires Trace(lines).Some?
    ensures (forall i | 0 <= i < |Trace(lines).value| ::
              Trace(lines).value[i].Redacted? && NoThinking(Trace(lines).value[i].value))
            <==> forall i | 0 <= i < |lines| :: lines[i].Event?
  {
    TraceHidesThinking(lines);
  }

  lemma {:induction false} OneTextLine(text: string)
    ensures Trace([Text(text)]) == Some([Verbatim(text)])
  {
    var lines := [Text(text)];
    assert lines[..0] == [] && lines[|lines| - 1] == Text(text);
    assert Trace(lines[..0]) == Some([]);
    assert [] + [Verbatim(text)] == [Verbatim(text)];
  }

  const CUT_OFF := "{\"type\": \"thinking\", \"thinking\": \"first I would"

  /** A scratchpad event cut off in the middle of its line is not JSON, and is saved as it came. */
  lemma {:induction false} CutOffScratchpadIsSaved()
    ensures Trace([Text(CUT_OFF)]) == Some([Verbatim(CUT_OFF)])
  {
    OneTextLine(CUT_OFF);
  }

  // ----- what an ending shows -----

  /** An event that ends an assistant message. */
  ghost predicate EndsAssistant(line: Line, message: Dict) {
    && line.Event? && line.value.Obj? && Get(line.value.fields, "type", Null) == Str("message_end")
    && Get(line.value.fields, "message", Null) == Obj(message) && Get(message, "role", Null) == Str("assistant")
  }

  /** The messages are those that the output ends as the assistant's, and only those. */
  lemma {:induction false} MessagesAreAssistants(lines: seq<Line>, m: Dict)
    requires Messages(lines).Some?
    ensures m in Messages(lines).value <==> exists i :: 0 <= i < |lines| && EndsAssistant(lines[i], m)
  {
    if lines != [] {
      var n := |lines| - 1;
      MessagesAreAssistants(lines[..n], m);
      assert lines[n].Event? ==> (m in Ended(lines[n].value).value <==> EndsAssistant(lines[n], m));
      assert forall i | 0 <= i < n :: lines[..n][i] == lines[i];
      hide Ended, EndsAssistant;
      if exists i :: 0 <= i < |lines| && EndsAssistant(lines[i], m) {
        var i :| 0 <= i < |lines| && EndsAssistant(lines[i], m);
        assert i < n ==> EndsAssistant(lines[..n][i], m);
      }
    }
  }

  /** What is printed later is read later, line by line. */
  lemma {:induction false} MessagesInOrder(a: seq<Line>, b: seq<Line>)
    ensures Messages(a + b) == if Messages(a).None? || Messages(b).None? then None
                               else Some(Messages(a).value + Messages(b).value)
  {
    hide Ended;
    if b == [] {
      assert a + b == a;
      if Messages(a).Some? { assert Messages(a).value + [] == Messages(a).value; }
    } else {
      var n := |b| - 1;
      assert (a + b)[..|a + b| - 1] == a + b[..n] && (a + b)[|a + b| - 1] == b[n];
      MessagesInOrder(a, b[..n]);
      if b[n].Event? && Messages(a).Some? && Messages(b[..n]).Some? && Ended(b[n].value).Some? {
        assert Messages(a).value + Messages(b[..n]).value + Ended(b[n].value).value
            == Messages(a).value + (Messages(b[..n]).value + Ended(b[n].value).value);
      }
    }
  }

  /** A call returns a text exactly when the process exited cleanly, its trace was redacted and saved, and its last
      assistant message, with readable usage, stopped without an error and says something. */
  lemma {:induction false} ReplyIsEarned(a: Attempt, text: string)
    ensures Outcome(a).reply == Some(text) <==>
              && a.process.Exited? && a.process.code == 0 && SavedTrace(a).Some?
              && Messages(a.process.lines).Some? && Messages(a.process.lines).value != []
              && var messages := Messages(a.process.lines).value;
                 var last := messages[|messages| - 1];
                 && TotalTokens(Usages(messages)).Some? && ModelsSortable(messages)
                 && Get(last, "stopReason", Null) != Str("error") && Get(last, "stopReason", Null) != Str("aborted")
                 && Get(last, "content", Arr([])).Arr?
                 && Texts(Get(last, "content", Arr([])).items).Some?
                 && text == JoinLines(Texts(Get(last, "content", Arr([])).items).value)
                 && exists i :: 0 <= i < |text| && !IsSpace(text[i])
  {
    hide Messages, Trace, Texts, JoinLines, Usages, TotalTokens, ModelsSortable, IsSpace;
  }

  /** Usage does not depend on how the call ends: a call that fails counts the tokens a successful one would. */
  lemma {:induction false} FailingCallsCount(a: Attempt, code: int)
    requires a.process.Exited?
    ensures var b := a.(process := Exited(code, a.process.lines));
            Outcome(b).tokens == Outcome(a).tokens && Outcome(b).usageKnown == Outcome(a).usageKnown
    ensures Outcome(a).usageKnown <==>
              && SavedTrace(a).Some? && Messages(a.process.lines).Some?
              && exists m | m in Messages(a.process.lines).value :: Get(m, "usage", Null).Obj?
  {
    hide Messages, Trace, TotalTokens, ModelsSortable, Reply;
    if Messages(a.process.lines).Some? { UsagesKnown(Messages(a.process.lines).value); }
  }

  lemma {:induction false} UsagesKnown(messages: seq<Dict>)
    ensures Usages(messages) != [] <==> exists m | m in messages :: Get(m, "usage", Null).Obj?
  {
    if messages != [] {
      UsagesKnown(messages[1..]);
      assert messages == [messages[0]] + messages[1..];
    }
  }

  // ----- what every sequence of calls keeps -----

  /** Rows written by this provider: within the call budget, started below the token threshold, numbered in
      order, and none left open. The first `base` rows may come from a prior attempt. */
  ghost predicate LedgerOk(base: nat, calls: seq<Row>, limits: Limits) {
    && base <= |calls|
    && forall i | base <= i < |calls| ::
         i < limits.maxCalls && Tokens(calls[..i]) < limits.tokenStop
         && calls[i].call == i + 1 && calls[i].status != Started
  }

  lemma {:induction false} CallKeepsLedger(base: nat, calls: seq<Row>, limits: Limits, phase: Phase, a: Attempt)
    requires LedgerOk(base, calls, limits)
    ensures LedgerOk(base, After(calls, limits, phase, a), limits)
    ensures calls <= After(calls, limits, phase, a)
  {
    hide Tokens, Outcome;
    var after := After(calls, limits, phase, a);
    if after != calls {
      forall i | base <= i < |after|
        ensures i < limits.maxCalls && Tokens(after[..i]) < limits.tokenStop && after[i].call == i + 1
                  && after[i].status != Started
      {
        assert after[..i] == calls[..i];
        if i == |calls| { assert calls[..i] == calls; }
      }
    }
  }

  function AfterAll(calls: seq<Row>, limits: Limits, inputs: seq<(Phase, Attempt)>): seq<Row>
    decreases |inputs|
  {
    if inputs == [] then calls
    else AfterAll(After(calls, limits, inputs[0].0, inputs[0].1), limits, inputs[1..])
  }

  /** Whatever is asked and however it ends, the ledger keeps its budget and closes every row. */
  lemma {:induction false} EveryRunKeepsLedger(prior: seq<Row>, limits: Limits, inputs: seq<(Phase, Attempt)>)
    ensures var calls := AfterAll(prior, limits, inputs);
            && prior <= calls && LedgerOk(|prior|, calls, limits)
            && (|prior| <= limits.maxCalls ==> |calls| <= limits.maxCalls)
  {
    RunKeepsLedger(|prior|, prior, limits, inputs);
    var calls := AfterAll(prior, limits, inputs);
    if |calls| > |prior| { assert calls[|calls| - 1].call == |calls|; }
  }

  lemma {:induction false} RunKeepsLedger(base: nat, calls: seq<Row>, limits: Limits, inputs: seq<(Phase, Attempt)>)
    requires LedgerOk(base, calls, limits)
    ensures calls <= AfterAll(calls, limits, inputs)
    ensures LedgerOk(base, AfterAll(calls, limits, inputs), limits)
    decreases |inputs|
  {
    hide LedgerOk, After;
    if inputs != [] {
      CallKeepsLedger(base, calls, limits, inputs[0].0, inputs[0].1);
      RunKeepsLedger(base, After(calls, limits, inputs[0].0, inputs[0].1), limits, inputs[1..]);
    }
  }

  /** The observed tokens pass the threshold by at most the last call. */
  lemma {:induction false} OvershootIsOneCall(base: nat, calls: seq<Row>, limits: Limits)
    requires LedgerOk(base, calls, limits) && base < |calls|
    ensures Tokens(calls) < limits.tokenStop + calls[|calls| - 1].totalTokens
  {
  }

  /** Once a budget is spent nothing more is ever called. */
  lemma {:induction false} SpentStaysSpent(calls: seq<Row>, limits: Limits, inputs: seq<(Phase, Attempt)>)
    requires |calls| >= limits.maxCalls || Tokens(calls) >= limits.tokenStop
    ensures AfterAll(calls, limits, inputs) == calls
    decreases |inputs|
  {
    hide Outcome, Tokens;
    if inputs != [] { SpentStaysSpent(calls, limits, inputs[1..]); }
  }
}
