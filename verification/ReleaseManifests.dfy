/** The surfaces of a release manifest, and the manifests whose writes settle. */
module ReleaseManifests {
  import opened MarkedRewriting
  import opened ReleaseBlock
  import opened ReleaseSurfaces
  import opened VersionNumbers
  import opened VersionRewrites
  import opened VersionRules
  import opened Wrappers

  datatype Manifest = Manifest(python: string, npm: string, pi: string, newsVersion: string, news: seq<string>)

  const UV_TOOL: Prefix := "uv tool install autocontext=="
  const UV_PIP: Prefix := "uv pip install autocontext=="
  const BUN_ADD: Prefix := "bun add -g autoctx@"
  const PI_INSTALL: Prefix := "pi install npm:pi-autocontext@"
  const PYTHON: Prefix := "autocontext=="
  const NPM: Prefix := "autoctx@"
  const PI: Prefix := "pi-autocontext@"

  function RootRules(m: Manifest): seq<Rule> {
    [Rule(UV_TOOL, m.python, true), Rule(UV_PIP, m.python, true), Rule(BUN_ADD, m.npm, true),
     Rule(PI_INSTALL, m.pi, true)]
  }

  /** `_replace_versions`. */
  function PiRules(m: Manifest): seq<Rule> {
    [Rule(PYTHON, m.python, false), Rule(NPM, m.npm, false), Rule(PI, m.pi, false)]
  }

  function JoinLines(lines: seq<string>): string {
    if lines == [] then "\n" else if |lines| == 1 then lines[0] + "\n" else lines[0] + "\n" + JoinLines(lines[1..])
  }

  function RootReadme(m: Manifest): Surface {
    Readme("README.md", RootRules(m), Some(RenderBody(m.newsVersion, m.news)))
  }

  function PythonReadme(m: Manifest): Surface {
    Readme("autocontext/README.md", [Rule(PYTHON, m.python, false)], None)
  }

  function TsReadme(m: Manifest): Surface {
    Readme("ts/README.md", [Rule(NPM, m.npm, false)], None)
  }

  function PiReadme(m: Manifest): Surface {
    Readme("pi/README.md", PiRules(m), None)
  }

  function NewsAsset(m: Manifest): Surface {
    Asset("autocontext/assets/whats_new.txt", JoinLines(m.news))
  }

  /** `planned_release_surface_updates`. */
  function Surfaces(m: Manifest): seq<Surface> {
    [RootReadme(m), PythonReadme(m), TsReadme(m), PiReadme(m), NewsAsset(m)]
  }

  // ----- prefixes that do not hold each other -----

  lemma {:induction false} OccursNeeds(p: string, q: string)
    requires Occurs(p, q)
    ensures |p| <= |q| && forall i | 0 <= i < |p| :: p[i] in q
  {
    var z :| 0 <= z <= |q| && p <= q[z..];
    forall i | 0 <= i < |p| ensures p[i] in q { assert p[i] == q[z + i]; }
  }

  lemma {:induction false} NotHeld(p: string, q: string, c: char)
    requires |q| < |p| || (c in p && c !in q)
    ensures !Occurs(p, q)
  {
    hide Occurs;
    if Occurs(p, q) { OccursNeeds(p, q); }
  }

  // What tells the prefixes apart: the sign before the version, or a letter.

  lemma {:induction false} UvToolLetters()
    ensures |UV_TOOL| == 29 && '=' in UV_TOOL && '@' !in UV_TOOL && 'p' !in UV_TOOL
  {
    assert UV_TOOL[28] == '=';
  }

  lemma {:induction false} UvPipLetters()
    ensures |UV_PIP| == 28 && '=' in UV_PIP && '@' !in UV_PIP && 'p' in UV_PIP
  {
    assert UV_PIP[27] == '=' && UV_PIP[3] == 'p';
  }

  lemma {:induction false} BunAddLetters()
    ensures |BUN_ADD| == 19 && '=' !in BUN_ADD && '@' in BUN_ADD && 'b' in BUN_ADD
  {
    assert BUN_ADD[18] == '@' && BUN_ADD[0] == 'b';
  }

  lemma {:induction false} PiInstallLetters()
    ensures |PI_INSTALL| == 30 && '=' !in PI_INSTALL && '@' in PI_INSTALL && 'b' !in PI_INSTALL
  {
    assert PI_INSTALL[29] == '@';
  }

  lemma {:induction false} RootLetters()
    ensures '=' in UV_TOOL && '=' in UV_PIP && '=' !in BUN_ADD && '=' !in PI_INSTALL
    ensures '@' !in UV_TOOL && '@' !in UV_PIP && '@' in BUN_ADD && '@' in PI_INSTALL
    ensures 'p' !in UV_TOOL && 'p' in UV_PIP && 'b' in BUN_ADD && 'b' !in PI_INSTALL
    ensures |UV_PIP| < |UV_TOOL| && |BUN_ADD| < |PI_INSTALL|
  {
    hide UV_TOOL, UV_PIP, BUN_ADD, PI_INSTALL;
    UvToolLetters();
    UvPipLetters();
    BunAddLetters();
    PiInstallLetters();
  }

  lemma {:induction false} RootPrefixesApart(m: Manifest, i: nat, j: nat)
    requires i < |RootRules(m)| && j < |RootRules(m)| && i != j
    ensures !Occurs(RootRules(m)[i].prefix, RootRules(m)[j].prefix)
  {
    RootLetters();
    hide Occurs, UV_TOOL, UV_PIP, BUN_ADD, PI_INSTALL;
    var p, q := RootRules(m)[i].prefix, RootRules(m)[j].prefix;
    NotHeld(p, q, if i < 2 && j >= 2 then '=' else if i >= 2 && j < 2 then '@' else if i == 1 then 'p' else 'b');
  }

  lemma {:induction false} PiPrefixesApart(m: Manifest, i: nat, j: nat)
    requires i < |PiRules(m)| && j < |PiRules(m)| && i != j
    ensures !Occurs(PiRules(m)[i].prefix, PiRules(m)[j].prefix)
  {
    var p, q := PiRules(m)[i].prefix, PiRules(m)[j].prefix;
    if i == 1 && j == 2 {
      NotBehindPi();
    } else {
      assert PYTHON[11] == '=' && NPM[7] == '@' && PI[14] == '@';
      NotHeld(p, q, if i == 0 then '=' else '@');
    }
  }

  lemma {:induction false} PiSign()
    ensures forall i | 0 <= i < |PI| - 1 :: PI[i] != '@'
    ensures |PI| == 15 && |NPM| == 8 && NPM[7] == '@' && NPM[0] == 'a' && PI[7] == 'c'
  {
  }

  lemma {:induction false} NotBehindPi()
    ensures !Occurs(NPM, PI)
  {
    PiSign();
    hide PI, NPM;
    forall z | 0 <= z <= |PI| ensures !(NPM <= PI[z..]) {
      SignBehind(NPM, PI, z);
    }
  }

  /** The sign is at the end of both, so only the end could match. */
  lemma {:induction false} SignBehind(p: string, q: string, z: nat)
    requires z <= |q| && 0 < |p| < |q| && p[|p| - 1] == '@' && p[0] != q[|q| - |p|]
    requires forall i | 0 <= i < |q| - 1 :: q[i] != '@'
    ensures !(p <= q[z..])
  {
    if z == |q| - |p| {
      assert q[z..][0] == q[z];
    } else if z + |p| <= |q| {
      assert q[z..][|p| - 1] == q[z + |p| - 1];
    }
  }

  // ----- the rules of a manifest -----

  /** Words that end with a sign that no marker has. */
  ghost predicate Signed(p: Prefix) {
    && Wordy(p) && '<' !in p && '>' !in p
    && (p[|p| - 1] == '=' || p[|p| - 1] == '@')
  }

  lemma {:induction false} UvToolSigned()
    ensures Signed(UV_TOOL)
  {
  }

  lemma {:induction false} UvPipSigned()
    ensures Signed(UV_PIP)
  {
  }

  lemma {:induction false} BunAddSigned()
    ensures Signed(BUN_ADD)
  {
  }

  lemma {:induction false} PiInstallSigned()
    ensures Signed(PI_INSTALL)
  {
  }

  lemma {:induction false} ShortSigned()
    ensures Signed(PYTHON) && Signed(NPM) && Signed(PI)
  {
  }

  lemma {:induction false} StartUnsigned()
    ensures '=' !in START && '@' !in START && START != "" && START[0] == '<' && START[|START| - 1] == '>'
  {
  }

  lemma {:induction false} EndUnsigned()
    ensures '=' !in END && '@' !in END && END != "" && END[0] == '<' && END[|END| - 1] == '>'
  {
  }

  lemma {:induction false} PlainHasNoSigns(v: string)
    requires Plain(v)
    ensures '<' !in v && '\\' !in v
  {
    VersionIsNumeric(v);
    hide VersionLength;
  }

  lemma {:induction false} PlainRules(rules: seq<Rule>)
    requires forall r | r in rules :: Signed(r.prefix) && Plain(r.version)
    requires forall i, j | 0 <= i < |rules| && 0 <= j < |rules| && i != j ::
               !Occurs(rules[i].prefix, rules[j].prefix)
    ensures Compatible(rules) && forall r | r in rules :: !IsTemplate(r)
  {
    hide Occurs, Wordy, Apart, Plain;
    forall r | r in rules ensures !IsTemplate(r) { PlainHasNoSigns(r.version); }
    forall i, j | 0 <= i < |rules| && 0 <= j < |rules| && i != j ensures Apart(rules[i].prefix, rules[j]) {
      assert rules[i] in rules && rules[j] in rules;
      PlainApart(rules[i].prefix, rules[j]);
    }
  }

  lemma {:induction false} PlainMarks(rules: seq<Rule>)
    requires forall r | r in rules :: Signed(r.prefix) && Plain(r.version)
    ensures AllMark(START, rules) && AllMark(END, rules)
  {
    hide Wordy, Plain;
    forall r | r in rules ensures '<' !in r.version { PlainHasNoSigns(r.version); }
    StartUnsigned();
    EndUnsigned();
    hide START, END;
  }

  lemma {:induction false} PlainSettledRules(rules: seq<Rule>)
    requires forall r | r in rules :: Signed(r.prefix) && Plain(r.version)
    ensures forall r | r in rules :: Settled(r)
  {
    hide Settled, Plain;
    forall r | r in rules ensures Settled(r) { PlainSettled(r); }
  }

  ghost predicate PlainVersions(m: Manifest) { Plain(m.python) && Plain(m.npm) && Plain(m.pi) }

  lemma {:induction false} RootRulesReady(m: Manifest)
    requires PlainVersions(m)
    ensures forall r | r in RootRules(m) :: Signed(r.prefix) && Plain(r.version)
  {
    UvToolSigned();
    UvPipSigned();
    BunAddSigned();
    PiInstallSigned();
    hide Signed, Plain, UV_TOOL, UV_PIP, BUN_ADD, PI_INSTALL;
  }

  lemma {:induction false} PiRulesReady(m: Manifest)
    requires PlainVersions(m)
    ensures forall r | r in PiRules(m) :: Signed(r.prefix) && Plain(r.version)
  {
    ShortSigned();
    hide Signed, Plain, PYTHON, NPM, PI;
  }

  lemma {:induction false} RootReady(m: Manifest)
    requires PlainVersions(m) && '\\' !in RenderBlock(m.newsVersion, m.news)
    ensures Sound(RootReadme(m))
    ensures Steady(RootReadme(m)) <==> OneBlock(RenderBlock(m.newsVersion, m.news), START, END)
  {
    hide Occurs, Signed, Plain, PlainVersions, Compatible, AllMark, IsTemplate, Settled, OneBlock, RenderBody;
    hide RootRules, START, END;
    RootRulesReady(m);
    forall i, j | 0 <= i < |RootRules(m)| && 0 <= j < |RootRules(m)| && i != j
      ensures !Occurs(RootRules(m)[i].prefix, RootRules(m)[j].prefix)
    {
      RootPrefixesApart(m, i, j);
    }
    PlainRules(RootRules(m));
    PlainMarks(RootRules(m));
    PlainSettledRules(RootRules(m));
  }

  lemma {:induction false} PiReady(m: Manifest)
    requires PlainVersions(m)
    ensures Sound(PiReadme(m)) && Steady(PiReadme(m))
  {
    hide Occurs, Signed, Plain, PlainVersions, Compatible, IsTemplate, Settled, PiRules;
    PiRulesReady(m);
    forall i, j | 0 <= i < |PiRules(m)| && 0 <= j < |PiRules(m)| && i != j
      ensures !Occurs(PiRules(m)[i].prefix, PiRules(m)[j].prefix)
    {
      PiPrefixesApart(m, i, j);
    }
    PlainRules(PiRules(m));
    PlainSettledRules(PiRules(m));
  }

  lemma {:induction false} SingleReady(path: Path, r: Rule)
    requires Signed(r.prefix) && Plain(r.version)
    ensures Sound(Readme(path, [r], None)) && Steady(Readme(path, [r], None))
  {
    hide Occurs, Signed, Plain, Compatible, IsTemplate, Settled;
    PlainRules([r]);
    PlainSettledRules([r]);
  }

  lemma {:induction false} SinglesReady(m: Manifest)
    requires PlainVersions(m)
    ensures Sound(PythonReadme(m)) && Steady(PythonReadme(m)) && Sound(TsReadme(m)) && Steady(TsReadme(m))
  {
    ShortSigned();
    hide Sound, Steady, Signed, Plain, PYTHON, NPM;
    SingleReady("autocontext/README.md", Rule(PYTHON, m.python, false));
    SingleReady("ts/README.md", Rule(NPM, m.npm, false));
  }

  lemma {:induction false} PathsDiffer(m: Manifest)
    ensures DistinctPaths(Surfaces(m))
  {
    hide RootRules, PiRules, RenderBody, JoinLines, PYTHON, NPM;
    assert |RootReadme(m).path| == 9 && |PythonReadme(m).path| == 21 && |NewsAsset(m).path| == 32;
    assert |TsReadme(m).path| == 12 && TsReadme(m).path[0] == 't';
    assert |PiReadme(m).path| == 12 && PiReadme(m).path[0] == 'p';
    hide RootReadme, PythonReadme, TsReadme, PiReadme, NewsAsset;
  }

  lemma {:induction false} InSurfaces(m: Manifest)
    ensures forall s :: s in Surfaces(m) <==>
              s == RootReadme(m) || s == PythonReadme(m) || s == TsReadme(m) || s == PiReadme(m) || s == NewsAsset(m)
  {
    hide RootReadme, PythonReadme, TsReadme, PiReadme, NewsAsset;
    var t := Surfaces(m);
    assert t[0] in t && t[1] in t && t[2] in t && t[3] in t && t[4] in t;
  }

  lemma {:induction false} EachSound(m: Manifest)
    requires Sound(RootReadme(m)) && Sound(PythonReadme(m)) && Sound(TsReadme(m)) && Sound(PiReadme(m))
    requires Sound(NewsAsset(m))
    ensures forall s | s in Surfaces(m) :: Sound(s)
  {
    InSurfaces(m);
    hide Sound, Surfaces, RootReadme, PythonReadme, TsReadme, PiReadme, NewsAsset;
  }

  lemma {:induction false} EachSteady(m: Manifest)
    ensures (forall s | s in Surfaces(m) :: Steady(s)) <==>
            && Steady(RootReadme(m)) && Steady(PythonReadme(m)) && Steady(TsReadme(m)) && Steady(PiReadme(m))
            && Steady(NewsAsset(m))
  {
    InSurfaces(m);
    hide Steady, Surfaces, RootReadme, PythonReadme, TsReadme, PiReadme, NewsAsset;
  }

  lemma {:induction false} SurfacesSound(m: Manifest)
    requires PlainVersions(m) && '\\' !in RenderBlock(m.newsVersion, m.news)
    ensures forall s | s in Surfaces(m) :: Sound(s)
  {
    assert Sound(NewsAsset(m));
    hide Sound, Steady, Surfaces, PlainVersions, OneBlock, RenderBlock, START, END;
    hide RootReadme, PythonReadme, TsReadme, PiReadme, NewsAsset;
    RootReady(m);
    SinglesReady(m);
    PiReady(m);
    EachSound(m);
  }

  lemma {:induction false} SurfacesSteadyIff(m: Manifest)
    requires PlainVersions(m) && '\\' !in RenderBlock(m.newsVersion, m.news)
    ensures (forall s | s in Surfaces(m) :: Steady(s)) <==> OneBlock(RenderBlock(m.newsVersion, m.news), START, END)
  {
    assert Steady(NewsAsset(m));
    hide Sound, Steady, Surfaces, PlainVersions, OneBlock, RenderBlock, START, END;
    hide RootReadme, PythonReadme, TsReadme, PiReadme, NewsAsset;
    RootReady(m);
    SinglesReady(m);
    PiReady(m);
    EachSteady(m);
  }

  /** The versions of ordinary releases: what a write leaves behind is in step on every disk exactly when the news
      does not hold the end marker. */
  lemma {:induction false} ReleaseSettlesIff(m: Manifest)
    requires PlainVersions(m) && '\\' !in RenderBlock(m.newsVersion, m.news)
    ensures WritesSettle(Surfaces(m)) <==> OneBlock(RenderBlock(m.newsVersion, m.news), START, END)
  {
    hide Surfaces, DistinctPaths, Sound, Steady, PlainVersions, OneBlock, RenderBlock, WritesSettle, START, END;
    PathsDiffer(m);
    SurfacesSound(m);
    SurfacesSteadyIff(m);
    WrittenIsInStepIff(Surfaces(m));
  }

  // ----- other versions -----

  /** The versions start with three dotted numbers and are no templates; the one for Pi holds no sign. */
  ghost predicate NumberedVersions(m: Manifest) {
    && VersionLength(m.python).Some? && VersionLength(m.npm).Some? && VersionLength(m.pi).Some?
    && '\\' !in m.python && '\\' !in m.npm && '\\' !in m.pi
    && '=' !in m.pi && '@' !in m.pi
  }

  lemma {:induction false} BareRewrite(rules: seq<Rule>)
    requires forall r | r in rules :: Signed(r.prefix)
    ensures Rewrite(START + END, rules) == START + END
  {
    StartUnsigned();
    EndUnsigned();
    hide Wordy, START, END, Substitute;
    if rules != [] {
      var r := rules[|rules| - 1];
      assert r in rules;
      BareRewrite(rules[..|rules| - 1]);
      MarkerUntouched(START + END, r);
    }
  }

  lemma {:induction false} RootSigned(m: Manifest)
    ensures forall r | r in RootRules(m) :: Signed(r.prefix)
    ensures forall r | r in RootRules(m) :: !IsTemplate(r)
  {
    UvToolSigned();
    UvPipSigned();
    BunAddSigned();
    PiInstallSigned();
    hide Signed, UV_TOOL, UV_PIP, BUN_ADD, PI_INSTALL;
  }

  /** Two bare markers can be brought up to date whatever the versions are. */
  lemma {:induction false} RootBare(m: Manifest)
    requires '\\' !in RenderBlock(m.newsVersion, m.news)
    ensures Expected(RootReadme(m), START + END).Replaced?
  {
    RootSigned(m);
    hide Signed, RootRules, RenderBody, IsTemplate;
    BareRewrite(RootRules(m));
    hide START, END, Rewrite;
    BareMarkers(START, END);
  }

  lemma {:induction false} OthersBare(m: Manifest)
    requires NumberedVersions(m)
    ensures Expected(PythonReadme(m), START + END).Replaced? && Expected(TsReadme(m), START + END).Replaced?
    ensures Expected(PiReadme(m), START + END).Replaced? && Expected(NewsAsset(m), START + END).Replaced?
  {
    hide VersionLength, Rewrite, START, END, JoinLines, PYTHON, NPM, PI;
  }

  lemma {:induction false} AllBare(m: Manifest)
    requires NumberedVersions(m) && '\\' !in RenderBlock(m.newsVersion, m.news)
    ensures forall s | s in Surfaces(m) :: Expected(s, START + END).Replaced?
  {
    hide Expected, NumberedVersions, RenderBlock, Surfaces, START, END;
    hide RootReadme, PythonReadme, TsReadme, PiReadme, NewsAsset;
    InSurfaces(m);
    RootBare(m);
    OthersBare(m);
  }

  lemma {:induction false} SingleUnsettled(path: Path, r: Rule)
    requires Wordy(r.prefix) && VersionLength(r.version).Some? && !Plain(r.version) && '\\' !in r.version
    ensures !SurfaceSettles(Readme(path, [r], None))
  {
    hide Wordy, VersionLength, Plain, Substitute;
    NumberedSettlesIff(r);
    var t :| Substitute(Substitute(t, r), r) != Substitute(t, r);
    OneRule(t, r);
    OneRule(Substitute(t, r), r);
    UnsettledReadme(path, [r], t);
  }

  lemma {:induction false} UnsettledReadme(path: Path, rules: seq<Rule>, t: string)
    requires Rewrite(Rewrite(t, rules), rules) != Rewrite(t, rules) && forall r | r in rules :: !IsTemplate(r)
    ensures !SurfaceSettles(Readme(path, rules, None))
  {
    hide Rewrite;
    assert Expected(Readme(path, rules, None), t).Replaced?;
  }

  lemma {:induction false} OneRule(x: string, r: Rule)
    ensures Rewrite(x, [r]) == Substitute(x, r)
  {
    assert [r][..0] == [] && Rewrite(x, []) == x;
  }

  /** A word with a sign that u does not hold is nowhere in p and u, if p does not hold it. */
  lemma {:induction false} NowhereIn(p: Prefix, u: string, q: Rule)
    requires Wordy(q.prefix) && !Occurs(q.prefix, p) && u != "" && Numeric(u[0])
    requires q.prefix[|q.prefix| - 1] !in u
    ensures Stable(p + u, q)
  {
    EmptyIsStable(q);
    assert p + u + "" == p + u;
    hide UpToDate, Occurs, Stable, Wordy, Numeric;
    forall k | 0 <= k < |p + u| ensures UpToDate((p + u)[k..], q) {
      if k < |p| {
        assert (p + u)[k..] == p[k..] + u;
        WordBefore(q.prefix, p[k..], u);
        HeldNowhere(q.prefix, p, k);
      } else {
        assert (p + u)[k..] == u[k - |p|..];
        LastMissing(q.prefix, u, k - |p|);
      }
      NotThere((p + u)[k..], q);
    }
    StableConcat(p + u, "", q);
  }

  lemma {:induction false} HeldNowhere(q: string, p: string, k: nat)
    requires !Occurs(q, p) && k <= |p|
    ensures !(q <= p[k..])
  {
  }

  lemma {:induction false} LastMissing(q: Prefix, u: string, k: nat)
    requires k <= |u| && q[|q| - 1] !in u
    ensures !(q <= u[k..])
  {
    if |q| <= |u[k..]| { assert u[k..][|q| - 1] == u[k + |q| - 1]; }
  }

  /** Only the last rule finds anything in its own prefix and a version. */
  lemma {:induction false} LastRuleOnly(rules: seq<Rule>, r: Rule, u: string)
    requires r.prefix != "" && u != "" && Numeric(u[0])
    requires forall q | q in rules ::
               Wordy(q.prefix) && !Occurs(q.prefix, r.prefix) && q.prefix[|q.prefix| - 1] !in u
    ensures Rewrite(r.prefix + u, rules + [r]) == Substitute(r.prefix + u, r)
  {
    hide Wordy, Occurs, Numeric, Stable;
    forall q | q in rules ensures Stable(r.prefix + u, q) { NowhereIn(r.prefix, u, q); }
    StableRewrite(r.prefix + u, rules);
    assert (rules + [r])[..|rules|] == rules;
    hide Substitute;
  }

  lemma {:induction false} LastRuleUnsettled(rules: seq<Rule>, r: Rule)
    requires Wordy(r.prefix) && VersionLength(r.version).Some? && !Plain(r.version)
    requires forall q | q in rules ::
               Wordy(q.prefix) && !Occurs(q.prefix, r.prefix) && q.prefix[|q.prefix| - 1] !in r.version
               && q.prefix[|q.prefix| - 1] !in ZERO
    ensures Rewrite(Rewrite(r.prefix + ZERO, rules + [r]), rules + [r]) != Rewrite(r.prefix + ZERO, rules + [r])
  {
    hide Wordy, Plain, Substitute, Occurs, Rewrite, VersionLength;
    LastRuleOnly(rules, r, ZERO);
    OldAlone(r);
    LastRuleOnly(rules, r, r.version);
    GrowsAlone(r);
  }

  lemma {:induction false} OldAlone(r: Rule)
    requires Wordy(r.prefix)
    ensures Substitute(r.prefix + ZERO, r) == r.prefix + r.version
  {
    EmptyIsStable(r);
    hide Wordy, Substitute, Stable;
    OldVersion(r, "");
    assert r.prefix + ZERO + "" == r.prefix + ZERO && r.prefix + r.version + "" == r.prefix + r.version;
  }

  lemma {:induction false} GrowsAlone(r: Rule)
    requires Wordy(r.prefix) && VersionLength(r.version).Some? && !Plain(r.version)
    ensures Substitute(r.prefix + r.version, r) != r.prefix + r.version
  {
    var x := r.prefix + r.version;
    assert x[0..] == x && x[|r.prefix|..] == r.version;
    hide Wordy, Plain, Substitute, VersionLength;
    GrowsInside(r, 0);
  }

  lemma {:induction false} SignNowhere(q: Rule, p: Prefix, u: string)
    requires Signed(q.prefix) && !Occurs(q.prefix, p) && '=' !in u && '@' !in u
    ensures Wordy(q.prefix) && q.prefix[|q.prefix| - 1] !in u && q.prefix[|q.prefix| - 1] !in ZERO
  {
    hide Wordy;
  }

  lemma {:induction false} PiRulesBefore(m: Manifest)
    requires '=' !in m.pi && '@' !in m.pi
    ensures forall q | q in [Rule(PYTHON, m.python, false), Rule(NPM, m.npm, false)] ::
              Wordy(q.prefix) && !Occurs(q.prefix, PI) && q.prefix[|q.prefix| - 1] !in m.pi
              && q.prefix[|q.prefix| - 1] !in ZERO
  {
    PiPrefixesApart(m, 0, 2);
    PiPrefixesApart(m, 1, 2);
    ShortSigned();
    hide Signed, Wordy, Occurs, PYTHON, NPM, PI, ZERO;
    SignNowhere(Rule(PYTHON, m.python, false), PI, m.pi);
    SignNowhere(Rule(NPM, m.npm, false), PI, m.pi);
  }

  lemma {:induction false} PiUnsettled(m: Manifest)
    requires NumberedVersions(m) && !Plain(m.pi)
    ensures !SurfaceSettles(PiReadme(m))
  {
    var before, r := [Rule(PYTHON, m.python, false), Rule(NPM, m.npm, false)], Rule(PI, m.pi, false);
    ShortSigned();
    hide Plain, Rewrite, Occurs, Wordy, VersionLength, SurfaceSettles, PYTHON, NPM, PI, ZERO;
    assert PiRules(m) == before + [r] && forall q | q in PiRules(m) :: !IsTemplate(q);
    hide PiRules;
    PiRulesBefore(m);
    LastRuleUnsettled(before, r);
    UnsettledReadme("pi/README.md", PiRules(m), r.prefix + ZERO);
  }

  /** A manifest whose versions start with three dotted numbers: what a write leaves behind is in step on every
      disk exactly when the versions are no more than that and the block is one block. */
  lemma {:induction false} ManifestSettlesIff(m: Manifest)
    requires NumberedVersions(m) && '\\' !in RenderBlock(m.newsVersion, m.news)
    ensures WritesSettle(Surfaces(m))
       <==> PlainVersions(m) && OneBlock(RenderBlock(m.newsVersion, m.news), START, END)
  {
    hide Surfaces, PlainVersions, NumberedVersions, OneBlock, RenderBlock, WritesSettle, START, END;
    if PlainVersions(m) {
      ReleaseSettlesIff(m);
    } else {
      var s := UnsettledSurface(m);
      PathsDiffer(m);
      AllBare(m);
      var i :| 0 <= i < |Surfaces(m)| && Surfaces(m)[i] == s;
      UnsettledDisk(Surfaces(m), i);
    }
  }

  lemma {:induction false} UnsettledSurface(m: Manifest) returns (s: Surface)
    requires NumberedVersions(m) && !PlainVersions(m)
    ensures s in Surfaces(m) && !SurfaceSettles(s)
  {
    InSurfaces(m);
    ShortSigned();
    hide Plain, VersionLength, Wordy, SurfaceSettles, Surfaces, RootReadme, PiReadme, NewsAsset, PYTHON, NPM;
    if !Plain(m.python) {
      s := PythonReadme(m);
      SingleUnsettled("autocontext/README.md", Rule(PYTHON, m.python, false));
    } else if !Plain(m.npm) {
      s := TsReadme(m);
      SingleUnsettled("ts/README.md", Rule(NPM, m.npm, false));
    } else {
      s := PiReadme(m);
      PiUnsettled(m);
    }
  }

  // ----- a version that grows -----

  /** A version with a tail: every write puts the tail in once more. */
  lemma {:induction false} TailGrows(r: Rule, n: string, tail: string, x: string)
    requires Wordy(r.prefix) && Plain(n) && r.version == n + tail
    requires NoDigitFirst(x) && r.prefix[|r.prefix| - 1] !in x
    ensures Substitute(r.prefix + n + x, r) == r.prefix + n + (tail + x)
  {
    hide Plain, Substitute, Match, Wordy, NoDigitFirst;
    var s := r.prefix + (n + x);
    MatchIs(s, r, n, x);
    MarkerUntouched(x, r);
    MatchedStep(s, r, n, x);
    Regroup(r.prefix, n, x);
    Regroup(r.prefix + n, tail, x);
    Regroup(r.prefix, n, tail);
  }

  /** The first write of such a version is right, and the second is not. */
  lemma {:induction false} TailReturns(r: Rule, was: string, n: string, tail: string)
    requires Wordy(r.prefix) && Plain(was) && Plain(n) && r.version == n + tail
    requires NoDigitFirst(tail) && r.prefix[|r.prefix| - 1] !in tail
    ensures Substitute(r.prefix + was, r) == r.prefix + r.version
    ensures Substitute(r.prefix + r.version, r) == r.prefix + (r.version + tail)
  {
    hide Plain, Substitute, NoDigitFirst, Wordy;
    assert (r.prefix + was)[|r.prefix|..] == was;
    PlainMatch(r.prefix + was, was, r);
    TailGrows(r, n, tail, tail);
    assert r.prefix + r.version == r.prefix + n + tail;
    assert r.prefix + (r.version + tail) == r.prefix + n + (tail + tail);
  }

  const RELEASE := "0.20.0"
  const TAIL := "-rc.1"

  /** The install command of a pre-release: the version after the second write is 0.20.0-rc.1-rc.1. */
  lemma {:induction false} PrereleaseGrows()
    ensures var r := Rule(BUN_ADD, RELEASE + TAIL, true);
            && Substitute(BUN_ADD + "0.19.0", r) == BUN_ADD + (RELEASE + TAIL)
            && Substitute(BUN_ADD + (RELEASE + TAIL), r) == BUN_ADD + (RELEASE + TAIL + TAIL)
  {
    hide *;
    BunAddTail();
    ReleaseNumbers();
    TailReturns(Rule(BUN_ADD, RELEASE + TAIL, true), "0.19.0", RELEASE, TAIL);
  }

  lemma {:induction false} BunAddTail()
    ensures Wordy(BUN_ADD) && NoDigitFirst(TAIL) && BUN_ADD[|BUN_ADD| - 1] !in TAIL
  {
    BunAddSigned();
    assert TAIL[0] == '-' && BUN_ADD[|BUN_ADD| - 1] == '@';
    hide Wordy;
  }

  lemma {:induction false} ReleaseNumbers()
    ensures Plain("0.19.0") && Plain(RELEASE)
  {
    DigitsOnly("0");
    DigitsOnly("19");
    DigitsOnly("20");
    hide AllDigits, Plain;
    assert "0.19.0" == "0" + "." + "19" + "." + "0";
    assert "0.20.0" == "0" + "." + "20" + "." + "0";
    ThreeNumbers("0", "19", "0");
    ThreeNumbers("0", "20", "0");
  }
}
