/** What a row of the provider's ledger counts, read off the output of the process. */
module PolicyAccounting {
  import opened JsonSchema
  import opened PolicyProvider
  import opened Wrappers

  /** What a message adds to a field of the usage: nothing when it reports none. */
  function Reported(message: Dict, field: string): real {
    if "usage" !in message || !message["usage"].Obj? || field !in message["usage"].fields then 0.0
    else
      match message["usage"].fields[field]
      case Num(n) => n
      case Bool(b) => if b then 1.0 else 0.0
      case _ => 0.0
  }

  function ReportedBy(messages: seq<Dict>, field: string): real {
    if messages == [] then 0.0 else Reported(messages[0], field) + ReportedBy(messages[1..], field)
  }

  /** What the message reports for a field, if anything, is a number. */
  ghost predicate Numeral(message: Dict, field: string) {
    "usage" in message && message["usage"].Obj? && field in message["usage"].fields ==>
      message["usage"].fields[field].Num? || message["usage"].fields[field].Bool?
  }

  /** Every count the message reports is a number. */
  ghost predicate Countable(message: Dict) {
    && Numeral(message, "input") && Numeral(message, "output") && Numeral(message, "cacheRead")
    && Numeral(message, "cacheWrite") && Numeral(message, "totalTokens")
  }

  ghost predicate AllCountable(messages: seq<Dict>) {
    forall m | m in messages :: Countable(m)
  }

  /** A field can be summed exactly when no message reports something else than a number for it. */
  lemma {:induction false} SummedIs(messages: seq<Dict>, field: string)
    ensures Summed(Usages(messages), field).Some? <==> forall m | m in messages :: Numeral(m, field)
    ensures Summed(Usages(messages), field).Some? ==>
              Summed(Usages(messages), field).value == ReportedBy(messages, field)
  {
    if messages != [] {
      SummedIs(messages[1..], field);
      SummedStep(messages, field);
      assert forall m :: m in messages <==> m == messages[0] || m in messages[1..] by {
        assert messages == [messages[0]] + messages[1..];
      }
      hide Usages, Summed, Numeral, Reported;
    }
  }

  lemma {:induction false} SummedStep(messages: seq<Dict>, field: string)
    requires messages != []
    ensures var rest := Summed(Usages(messages[1..]), field);
            && (Summed(Usages(messages), field).Some? <==> Numeral(messages[0], field) && rest.Some?)
            && (Summed(Usages(messages), field).Some? ==>
                  Summed(Usages(messages), field).value == Reported(messages[0], field) + rest.value)
  {
    var first, rest := messages[0], messages[1..];
    if "usage" in first && first["usage"].Obj? {
      var usage := first["usage"].fields;
      assert Usages(messages) == [usage] + Usages(rest);
      assert Usages(messages)[1..] == Usages(rest) && Usages(messages)[0] == usage;
      assert Number(Get(usage, field, Num(0.0))).Some? <==> Numeral(first, field);
    } else {
      assert Usages(messages) == [] + Usages(rest) == Usages(rest);
    }
  }

  /** The tokens of a row are the totals that the assistant messages report or, when those are nothing, the input,
      output and cache counts together; counting fails exactly when one of the five is not a number somewhere. */
  lemma {:induction false} TokensAre(messages: seq<Dict>)
    ensures TotalTokens(Usages(messages)).Some? <==> AllCountable(messages)
    ensures AllCountable(messages) ==>
              TotalTokens(Usages(messages)).value
              == if ReportedBy(messages, "totalTokens") != 0.0 then ReportedBy(messages, "totalTokens")
                 else ReportedBy(messages, "input") + ReportedBy(messages, "output")
                      + ReportedBy(messages, "cacheRead") + ReportedBy(messages, "cacheWrite")
  {
    SummedIs(messages, "input");
    SummedIs(messages, "output");
    SummedIs(messages, "cacheRead");
    SummedIs(messages, "cacheWrite");
    SummedIs(messages, "totalTokens");
    hide Usages, Summed, ReportedBy;
  }

  /** What a call that got as far as reading its output adds to the ledger. */
  lemma {:induction false} RowCounts(calls: seq<Row>, limits: Limits, phase: Phase, a: Attempt, messages: seq<Dict>)
    requires |calls| < limits.maxCalls && Tokens(calls) < limits.tokenStop && a.requestSaved
    requires SavedTrace(a).Some? && Messages(a.process.lines) == Some(messages)
    ensures |After(calls, limits, phase, a)| == |calls| + 1 && After(calls, limits, phase, a)[..|calls|] == calls
    ensures var row := After(calls, limits, phase, a)[|calls|];
            && Tokens(After(calls, limits, phase, a)) == Tokens(calls) + row.totalTokens
            && row.call == |calls| + 1 && row.phase == phase
              && row.status == (if Outcome(a).reply.Some? then Completed else Failed)
            && (row.usageKnown <==> exists m: Dict | m in messages :: "usage" in m && m["usage"].Obj?)
            && row.totalTokens == if !AllCountable(messages) then 0.0
                                  else if ReportedBy(messages, "totalTokens") != 0.0
                                  then ReportedBy(messages, "totalTokens")
                                  else ReportedBy(messages, "input") + ReportedBy(messages, "output")
                                       + ReportedBy(messages, "cacheRead") + ReportedBy(messages, "cacheWrite")
  {
    TokensAre(messages);
    UsagesKnown(messages);
    assert Outcome(a) == Concluded(a.process.code, messages);
    var after := After(calls, limits, phase, a);
    assert Tokens(after) == Tokens(after[..|calls|]) + after[|calls|].totalTokens;
    hide Tokens, Messages, Trace, TotalTokens, ModelsSortable, Usages, Reply, ReportedBy, AllCountable;
    assert forall m: Dict :: Get(m, "usage", Null).Obj? <==> "usage" in m && m["usage"].Obj?;
  }

  /** A call that never got that far counts nothing and failed. */
  lemma {:induction false} EarlyFailureCountsNothing(calls: seq<Row>, limits: Limits, phase: Phase, a: Attempt)
    requires |calls| < limits.maxCalls && Tokens(calls) < limits.tokenStop && a.requestSaved
    requires SavedTrace(a).None? || Messages(a.process.lines).None?
    ensures After(calls, limits, phase, a) == calls + [PolicyProvider.Row(|calls| + 1, phase, Failed, 0.0, false)]
  {
    hide Messages, Trace;
  }

  // ----- the reply -----

  /** The text blocks of a message, in order. */
  lemma {:induction false} TextsAre(blocks: seq<Json>)
    ensures Texts(blocks).Some? <==>
              forall b | b in blocks ::
                b.Obj? && ("type" in b.fields && b.fields["type"] == Str("text")
                  ==> "text" in b.fields && b.fields["text"].Str?)
    ensures Texts(blocks).Some? ==>
              Texts(blocks).value == TextBlocks(blocks)
  {
    if blocks != [] {
      TextsAre(blocks[1..]);
      assert blocks == [blocks[0]] + blocks[1..];
    }
  }

  function TextBlocks(blocks: seq<Json>): seq<string> {
    if blocks == [] then []
    else
      var b := blocks[0];
      (if b.Obj? && "type" in b.fields && b.fields["type"] == Str("text") && "text" in b.fields && b.fields["text"].Str?
       then [b.fields["text"].s] else [])
      + TextBlocks(blocks[1..])
  }

  /** The served models can be sorted when each message names its model by a string or not at all, or each by a number,
      or each by null. */
  lemma {:induction false} ModelsSortableIff(messages: seq<Dict>)
    ensures ModelsSortable(messages) <==>
              || (forall m: Dict | m in messages :: "model" in m ==> m["model"].Str?)
              || (forall m: Dict | m in messages :: "model" in m && (m["model"].Num? || m["model"].Bool?))
              || (forall m: Dict | m in messages :: "model" in m && m["model"].Null?)
  {
    forall m: Dict
      ensures Get(m, "model", Str("unknown")).Str? <==> ("model" in m ==> m["model"].Str?)
      ensures Number(Get(m, "model", Str("unknown"))).Some? <==> "model" in m && (m["model"].Num? || m["model"].Bool?)
      ensures Get(m, "model", Str("unknown")).Null? <==> "model" in m && m["model"].Null?
    {
    }
    hide Get, Number;
  }

  const BLANKS: set<int> :=
    {9, 10, 11, 12, 13, 28, 29, 30, 31, 32, 0x85, 0xA0, 0x1680, 0x2000, 0x2001, 0x2002, 0x2003, 0x2004, 0x2005, 0x2006,
     0x2007, 0x2008, 0x2009, 0x200A, 0x2028, 0x2029, 0x202F, 0x205F, 0x3000}

  /** An answer is blank when nothing but white space is in it. */
  lemma {:induction false} BlankIff(text: string)
    ensures Blank(text) <==> forall i | 0 <= i < |text| :: text[i] as int in BLANKS
  {
    forall c: char ensures IsSpace(c) <==> c as int in BLANKS { SpaceIs(c); }
    hide IsSpace, BLANKS;
  }

  lemma {:induction false} SpaceIs(c: char)
    ensures IsSpace(c) <==> c as int in BLANKS
  {
  }

  /** Lines are joined by line feeds. */
  lemma {:induction false} JoinLinesAdds(lines: seq<string>, x: string)
    ensures JoinLines(lines + [x]) == if lines == [] then x else JoinLines(lines) + "\n" + x
  {
    if lines != [] {
      var rest := lines[1..];
      JoinLinesAdds(rest, x);
      assert (lines + [x])[1..] == rest + [x] && (lines + [x])[0] == lines[0];
      if rest != [] {
        assert lines[0] + "\n" + (JoinLines(rest) + "\n" + x) == lines[0] + "\n" + JoinLines(rest) + "\n" + x;
      }
    }
  }
}
