/** The marked block of a README that is kept in step with the release manifest. */
module ReleaseBlock {
  import opened Wrappers

  const START := "<!-- autocontext-whats-new:start -->"
  const END := "<!-- autocontext-whats-new:end -->"

  predicate At(text: string, p: string, i: nat) {
    i + |p| <= |text| && text[i..i + |p|] == p
  }

  /** The first occurrence of p at or after a position. */
  function Find(text: string, p: string, from: nat): (r: Option<nat>)
    ensures r.Some? ==>
              from <= r.value && At(text, p, r.value) && forall j: nat | from <= j < r.value :: !At(text, p, j)
    ensures r.None? ==> forall j: nat | from <= j :: !At(text, p, j)
    decreases |text| - from
  {
    if from > |text| then None else if At(text, p, from) then Some(from) else Find(text, p, from + 1)
  }

  /** Where the first marked block begins and ends. */
  function FirstBlock(text: string, start: string, end: string): (r: Option<(nat, nat)>)
    ensures r.Some? ==> r.value.0 + |start| + |end| <= r.value.1 <= |text|
  {
    var p := Find(text, start, 0);
    if p.None? then None
    else
      var q := Find(text, end, p.value + |start|);
      if q.None? then None else Some((p.value, q.value + |end|))
  }

  /** A start marker at i with an end marker behind it at j: what the pattern `start.*?end` matches. */
  predicate Matches(text: string, start: string, end: string, i: nat, j: nat) {
    At(text, start, i) && i + |start| <= j && At(text, end, j)
  }

  /** The block is the pattern's leftmost match with the nearest end, and there is none exactly when the
      pattern matches nowhere. */
  lemma {:induction false} FirstBlockIsLeftmost(text: string, start: string, end: string)
    ensures FirstBlock(text, start, end).None? <==> forall i: nat, j: nat :: !Matches(text, start, end, i, j)
    ensures FirstBlock(text, start, end).Some? ==>
              var (p, q) := FirstBlock(text, start, end).value;
              Matches(text, start, end, p, q - |end|)
              && forall i: nat, j: nat | Matches(text, start, end, i, j) :: p < i || (p == i && q - |end| <= j)
  {
    hide At;
    var p := Find(text, start, 0);
    if p.Some? {
      var q := Find(text, end, p.value + |start|);
      if q.Some? { assert Matches(text, start, end, p.value, q.value); }
    }
  }

  /** How a replacement can end; the template syntax that a backslash starts is not modelled. */
  datatype Outcome = Replaced(text: string) | NoMarkers | Template

  /** `_replace_block`. */
  function ReplaceBlock(text: string, start: string, end: string, replacement: string): Outcome {
    var block := FirstBlock(text, start, end);
    if block.None? then NoMarkers
    else if '\\' in replacement then Template
    else Replaced(text[..block.value.0] + replacement + text[block.value.1..])
  }

  /** The replacement is itself one block: its first end marker is at its very end. */
  predicate OneBlock(replacement: string, start: string, end: string) {
    FirstBlock(replacement, start, end) == Some((0, |replacement|))
  }

  lemma {:induction false} AtInside(a: string, b: string, c: string, p: string, i: nat)
    requires |a| <= i && i + |p| <= |a| + |b|
    ensures At(a + b + c, p, i) <==> At(b, p, i - |a|)
  {
    assert (a + b + c)[i..i + |p|] == b[i - |a|..i - |a| + |p|];
  }

  lemma {:induction false} AtPrefix(a: string, b: string, p: string, i: nat)
    requires i + |p| <= |a|
    ensures At(a + b, p, i) <==> At(a, p, i)
  {
    assert (a + b)[i..i + |p|] == a[i..i + |p|];
  }

  lemma {:induction false} FindIs(text: string, p: string, from: nat, i: nat)
    requires from <= i && At(text, p, i) && forall j: nat | from <= j < i :: !At(text, p, j)
    ensures Find(text, p, from) == Some(i)
  {
    hide At;
  }

  /** No start marker appears before the old one once the text around it is unchanged. */
  lemma {:induction false} StartStays(text: string, start: string, p: nat, replacement: string, rest: string)
    requires Find(text, start, 0) == Some(p) && |start| <= |replacement| && replacement[..|start|] == start
    ensures Find(text[..p] + replacement + rest, start, 0) == Some(p)
  {
    var a, b, c := text[..p] + start, text[p + |start|..], replacement[|start|..] + rest;
    assert text[..p + |start|] == a && text == a + b && text[..p] + replacement + rest == a + c;
    assert At(a, start, p);
    hide At, Find;
    forall j: nat | j < p ensures !At(a + c, start, j) {
      assert !At(a + b, start, j);
      AtPrefix(a, b, start, j);
      AtPrefix(a, c, start, j);
    }
    AtPrefix(a, c, start, p);
    FindIs(a + c, start, 0, p);
  }

  lemma {:induction false} EndAfter(a: string, replacement: string, c: string, start: string, end: string, e: nat)
    requires Find(replacement, end, |start|) == Some(e) && e + |end| == |replacement|
    ensures Find(a + replacement + c, end, |a| + |start|) == Some(|a| + e)
  {
    hide At, Find;
    var t := a + replacement + c;
    forall j: nat | |a| + |start| <= j < |a| + e ensures !At(t, end, j) {
      AtInside(a, replacement, c, end, j);
      assert !At(replacement, end, j - |a|);
    }
    AtInside(a, replacement, c, end, |a| + e);
    FindIs(t, end, |a| + |start|, |a| + e);
  }

  lemma {:induction false} OneBlockParts(replacement: string, start: string, end: string)
    requires OneBlock(replacement, start, end)
    ensures |start| + |end| <= |replacement| && replacement[..|start|] == start
    ensures Find(replacement, end, |start|) == Some(|replacement| - |end|)
  {
    assert At(replacement, start, 0);
  }

  /** After a replacement by one block, the first block is the replacement. */
  lemma {:induction false} NewBlock(text: string, start: string, end: string, replacement: string)
    requires FirstBlock(text, start, end).Some? && OneBlock(replacement, start, end)
    ensures var (p, q) := FirstBlock(text, start, end).value;
            FirstBlock(text[..p] + replacement + text[q..], start, end) == Some((p, p + |replacement|))
  {
    hide Find, At, OneBlock;
    var p, q := FirstBlock(text, start, end).value.0, FirstBlock(text, start, end).value.1;
    OneBlockParts(replacement, start, end);
    var t := text[..p] + replacement + text[q..];
    StartStays(text, start, p, replacement, text[q..]);
    EndAfter(text[..p], replacement, text[q..], start, end, |replacement| - |end|);
    BlockIs(t, start, end, p, p + |replacement| - |end|);
  }

  lemma {:induction false} BlockIs(t: string, start: string, end: string, p: nat, j: nat)
    requires Find(t, start, 0) == Some(p) && Find(t, end, p + |start|) == Some(j)
    ensures FirstBlock(t, start, end) == Some((p, j + |end|))
  {
  }

  /** Replacing by one block twice is replacing once, and everything outside the first block is kept. */
  lemma {:induction false} ReplaceIdempotent(text: string, start: string, end: string, replacement: string)
    requires FirstBlock(text, start, end).Some? && OneBlock(replacement, start, end) && '\\' !in replacement
    ensures var (p, q) := FirstBlock(text, start, end).value;
            var once := ReplaceBlock(text, start, end, replacement);
            && once.Replaced? && |once.text| == p + |replacement| + (|text| - q)
            && once.text[..p] == text[..p] && once.text[p + |replacement|..] == text[q..]
            && once.text[p..p + |replacement|] == replacement
            && ReplaceBlock(once.text, start, end, replacement) == once
  {
    var (p, q) := FirstBlock(text, start, end).value;
    NewBlock(text, start, end, replacement);
    hide FirstBlock;
    var t := text[..p] + replacement + text[q..];
    assert t[..p] == text[..p] && t[p + |replacement|..] == text[q..];
  }

  ghost predicate Settles(start: string, end: string, replacement: string) {
    forall text | ReplaceBlock(text, start, end, replacement).Replaced? ::
      ReplaceBlock(ReplaceBlock(text, start, end, replacement).text, start, end, replacement)
        == ReplaceBlock(text, start, end, replacement)
  }

  /** A replacement delimited by the markers settles after one replacement, on every text, exactly when its
      first end marker is its last. */
  lemma {:induction false} SettlesIff(start: string, end: string, replacement: string)
    requires '\\' !in replacement && |start| + |end| <= |replacement|
    requires At(replacement, start, 0) && At(replacement, end, |replacement| - |end|)
    ensures Settles(start, end, replacement) <==> OneBlock(replacement, start, end)
  {
    if OneBlock(replacement, start, end) {
      forall text | ReplaceBlock(text, start, end, replacement).Replaced?
        ensures ReplaceBlock(ReplaceBlock(text, start, end, replacement).text, start, end, replacement)
                  == ReplaceBlock(text, start, end, replacement)
      {
        ReplaceIdempotent(text, start, end, replacement);
      }
    } else {
      BareMarkers(start, end);
      OwnBlock(start, end, replacement);
      GrowsAgain(start, end, replacement);
    }
  }

  lemma {:induction false} BareMarkers(start: string, end: string)
    ensures FirstBlock(start + end, start, end) == Some((0, |start| + |end|))
  {
    assert (start + end)[0..|start|] == start && (start + end)[|start|..|start| + |end|] == end;
    FindIs(start + end, start, 0, 0);
    FindIs(start + end, end, |start|, |start|);
  }

  lemma {:induction false} OwnBlock(start: string, end: string, replacement: string)
    requires |start| + |end| <= |replacement| && At(replacement, start, 0)
             && At(replacement, end, |replacement| - |end|)
    ensures FirstBlock(replacement, start, end).Some? && FirstBlock(replacement, start, end).value.0 == 0
  {
    FindIs(replacement, start, 0, 0);
    hide At;
  }

  lemma {:induction false} GrowsAgain(start: string, end: string, replacement: string)
    requires '\\' !in replacement && !OneBlock(replacement, start, end)
    requires FirstBlock(start + end, start, end) == Some((0, |start| + |end|))
    requires FirstBlock(replacement, start, end).Some? && FirstBlock(replacement, start, end).value.0 == 0
    ensures !Settles(start, end, replacement)
  {
    hide FirstBlock;
    var once := ReplaceBlock(start + end, start, end, replacement);
    assert (start + end)[..0] + replacement + (start + end)[|start| + |end|..] == replacement;
    assert once == Replaced(replacement);
    var q := FirstBlock(replacement, start, end).value.1;
    assert |ReplaceBlock(replacement, start, end, replacement).text| == |replacement| + (|replacement| - q);
  }

  // ----- the rendered block -----

  function JoinItems(items: seq<string>): string {
    if items == [] then "" else if |items| == 1 then "- " + items[0] else "- " + items[0] + "\n" + JoinItems(items[1..])
  }

  /** What stands between the markers. */
  function RenderBody(version: string, items: seq<string>): string {
    "\n## What's New in " + version + "\n\n" + JoinItems(items) + "\n"
  }

  /** `render_readme_whats_new_block`. */
  function RenderBlock(version: string, items: seq<string>): string {
    START + RenderBody(version, items) + END
  }

  /** The rendered block is delimited by the markers, so it settles exactly when no end marker is in its middle. */
  lemma {:induction false} RenderedBlockSettlesIff(version: string, items: seq<string>)
    requires '\\' !in RenderBlock(version, items)
    ensures Settles(START, END, RenderBlock(version, items)) <==> OneBlock(RenderBlock(version, items), START, END)
  {
    var block := RenderBlock(version, items);
    Delimited(START, RenderBody(version, items), END);
    assert |block| - |END| == |START + RenderBody(version, items)|;
    hide *;
    SettlesIff(START, END, block);
  }

  /** An item that quotes the end marker: every further write leaves a longer text. */
  lemma {:induction false} QuotedMarkerGrows(version: string)
    requires '\\' !in RenderBlock(version, [END])
    ensures !Settles(START, END, RenderBlock(version, [END]))
  {
    var head := START + ("\n## What's New in " + version + "\n\n- ");
    var block := RenderBlock(version, [END]);
    assert JoinItems([END]) == "- " + END;
    assert block == head + END + ("\n" + END);
    assert |head| < |block| - |END|;
    assert |START| <= |head|;
    RenderedBlockSettlesIff(version, [END]);
    assert block[|head|..|head| + |END|] == END;
    hide RenderBlock, FirstBlock, Settles, OneBlock;
    EarlyMatch(block, START, END, |head|);
  }

  lemma {:induction false} EarlyMatch(block: string, start: string, end: string, j: nat)
    requires |start| <= j < |block| - |end| && At(block, end, j)
    ensures !OneBlock(block, start, end)
  {
    hide At;
  }

  lemma {:induction false} Delimited(start: string, body: string, end: string)
    ensures At(start + body + end, start, 0) && At(start + body + end, end, |start + body|)
  {
    assert (start + body + end)[0..|start|] == start;
    assert (start + body + end)[|start + body|..] == end;
  }
}
