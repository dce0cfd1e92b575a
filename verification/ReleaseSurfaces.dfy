/** The files that are kept in step with the release manifest: planning, writing and checking them. */
module ReleaseSurfaces {
  import opened MarkedRewriting
  import opened ReleaseBlock
  import opened VersionRewrites
  import opened VersionRules
  import opened Wrappers

  type Path = string

  /** A README has its versions rewritten and then, if news is given, the marked block replaced by the news
      between the markers. An asset holds one fixed text. */
  datatype Surface =
    | Readme(path: Path, rules: seq<Rule>, news: Option<string>)
    | Asset(path: Path, content: string)

  predicate IsTemplate(r: Rule) { !r.literal && '\\' in r.version }

  /** What a surface should hold, given what it holds. */
  function Expected(s: Surface, text: string): Outcome {
    match s
    case Readme(_, rules, news) =>
      if exists r | r in rules :: IsTemplate(r) then Template
      else if news.None? then Replaced(Rewrite(text, rules))
      else Renew(text, rules, START, END, START + news.value + END)
    case Asset(_, content) => Replaced(content)
  }

  /** `sync_root_readme` and its siblings: the loop over the rules, then the block. */
  method Sync(s: Surface, text: string) returns (e: Outcome)
    ensures e == Expected(s, text)
  {
    match s {
      case Readme(_, rules, news) =>
        if exists r | r in rules :: IsTemplate(r) {
          return Template;
        }
        var t := RewriteAll(text, rules);
        if news.None? {
          return Replaced(t);
        }
        e := ReplaceBlock(t, START, END, START + news.value + END);
      case Asset(_, content) => e := Replaced(content);
    }
  }

  ghost predicate OnDisk(surfaces: seq<Surface>, files: map<Path, string>) {
    && (forall i | 0 <= i < |surfaces| :: surfaces[i].path in files)
    && DistinctPaths(surfaces)
  }

  ghost predicate DistinctPaths(surfaces: seq<Surface>) {
    forall i, j | 0 <= i < j < |surfaces| :: surfaces[i].path != surfaces[j].path
  }

  ghost predicate Plannable(surfaces: seq<Surface>, files: map<Path, string>)
    requires OnDisk(surfaces, files)
  {
    forall i | 0 <= i < |surfaces| :: Expected(surfaces[i], files[surfaces[i].path]).Replaced?
  }

  ghost predicate InStep(s: Surface, files: map<Path, string>)
    requires s.path in files
  {
    Expected(s, files[s.path]) == Replaced(files[s.path])
  }

  /** The disk after a write: every surface holds its plan, and no other file has changed. */
  ghost predicate IsWritten(surfaces: seq<Surface>, files: map<Path, string>, after: map<Path, string>)
    requires OnDisk(surfaces, files)
  {
    && after.Keys == files.Keys
    && (forall i | 0 <= i < |surfaces| ::
          Expected(surfaces[i], files[surfaces[i].path]) == Replaced(after[surfaces[i].path]))
    && forall p | p in files && (forall i | 0 <= i < |surfaces| :: surfaces[i].path != p) :: after[p] == files[p]
  }

  /** `planned_release_surface_updates`: all texts are worked out first; one that cannot be stops everything. */
  method Plan(surfaces: seq<Surface>, files: map<Path, string>) returns (planned: Option<seq<string>>)
    requires OnDisk(surfaces, files)
    ensures planned.Some? <==> Plannable(surfaces, files)
    ensures planned.Some? ==> |planned.value| == |surfaces|
    ensures planned.Some? ==> forall i | 0 <= i < |surfaces| ::
              Expected(surfaces[i], files[surfaces[i].path]) == Replaced(planned.value[i])
  {
    hide Expected;
    var texts: seq<string> := [];
    for k := 0 to |surfaces|
      invariant |texts| == k
      invariant forall i | 0 <= i < k :: Expected(surfaces[i], files[surfaces[i].path]) == Replaced(texts[i])
    {
      var e := Sync(surfaces[k], files[surfaces[k].path]);
      if !e.Replaced? {
        return None;
      }
      texts := texts + [e.text];
    }
    planned := Some(texts);
  }

  /** `write_release_surfaces`. */
  method Write(surfaces: seq<Surface>, files: map<Path, string>) returns (ok: bool, after: map<Path, string>)
    requires OnDisk(surfaces, files)
    ensures ok <==> Plannable(surfaces, files)
    ensures if ok then IsWritten(surfaces, files, after) else after == files
  {
    hide Expected;
    var planned := Plan(surfaces, files);
    after := files;
    if planned.None? {
      return false, files;
    }
    for k := 0 to |surfaces|
      invariant after.Keys == files.Keys
      invariant forall i | 0 <= i < k :: after[surfaces[i].path] == planned.value[i]
      invariant forall p | p in files && (forall i | 0 <= i < |surfaces| :: surfaces[i].path != p) ::
                  after[p] == files[p]
    {
      if after[surfaces[k].path] != planned.value[k] {
        after := after[surfaces[k].path := planned.value[k]];
      }
    }
    ok := true;
  }

  /** The surfaces part of `check_release_surfaces`: the surfaces that differ from their plan. */
  method Check(surfaces: seq<Surface>, files: map<Path, string>) returns (ok: bool, stale: seq<Path>)
    requires OnDisk(surfaces, files)
    ensures ok <==> Plannable(surfaces, files)
    ensures ok ==> forall p ::
              p in stale <==> exists i :: 0 <= i < |surfaces| && surfaces[i].path == p && !InStep(surfaces[i], files)
  {
    hide Expected;
    stale := [];
    var planned := Plan(surfaces, files);
    if planned.None? {
      return false, [];
    }
    for k := 0 to |surfaces|
      invariant forall p ::
                  p in stale <==> exists i :: 0 <= i < k && surfaces[i].path == p && !InStep(surfaces[i], files)
    {
      if files[surfaces[k].path] != planned.value[k] {
        assert !InStep(surfaces[k], files);
        stale := stale + [surfaces[k].path];
      } else {
        assert InStep(surfaces[k], files);
      }
    }
    ok := true;
  }

  // ----- when a write leaves nothing to report -----

  /** The rules of a README leave each other alone, its texts are no templates, and nothing in the rules can
      take part in a marker. */
  ghost predicate Sound(s: Surface) {
    s.Readme? ==>
      && Compatible(s.rules)
      && (forall r | r in s.rules :: !IsTemplate(r))
      && (s.news.Some? ==> && AllMark(START, s.rules) && AllMark(END, s.rules)
                           && '\\' !in START + s.news.value + END)
  }

  /** Every rule is settled, and the block is one block. */
  ghost predicate Steady(s: Surface) {
    s.Readme? ==>
      && (forall r | r in s.rules :: Settled(r))
      && (s.news.Some? ==> OneBlock(START + s.news.value + END, START, END))
  }

  ghost predicate SurfaceSettles(s: Surface) {
    forall t | Expected(s, t).Replaced? :: Expected(s, Expected(s, t).text) == Expected(s, t)
  }

  /** A second write changes no text of the surface exactly when its rules are settled and its block is one. */
  lemma {:induction false} SurfaceSettlesIff(s: Surface)
    requires Sound(s)
    ensures SurfaceSettles(s) <==> Steady(s)
  {
    hide Settled, Renew, OneBlock, Compatible, AllMark, Rewrite, IsTemplate;
    if s.Readme? {
      if s.news.None? {
        RewriteSettlesIff(s.rules);
        assert forall t :: Expected(s, t) == Replaced(Rewrite(t, s.rules));
        OnlyRules(s);
      } else {
        RenewalSettlesIff(s.rules, START, END, s.news.value);
        assert forall t :: Expected(s, t) == Renew(t, s.rules, START, END, START + s.news.value + END);
      }
    }
  }

  lemma {:induction false} OnlyRules(s: Surface)
    requires s.Readme? && forall t :: Expected(s, t) == Replaced(Rewrite(t, s.rules))
    ensures SurfaceSettles(s) <==> RewriteSettles(s.rules)
  {
    hide Expected, Rewrite;
    if SurfaceSettles(s) {
      forall t ensures Rewrite(Rewrite(t, s.rules), s.rules) == Rewrite(t, s.rules) {
        assert Expected(s, t).Replaced?;
      }
    }
  }

  /** On every disk that can be planned, what a write leaves behind is in step. */
  ghost predicate WritesSettle(surfaces: seq<Surface>) {
    forall files, after | OnDisk(surfaces, files) && IsWritten(surfaces, files, after) ::
      forall i | 0 <= i < |surfaces| :: InStep(surfaces[i], after)
  }

  /** A write leaves nothing for the check to report, on every disk, exactly when every surface is steady. */
  lemma {:induction false} WrittenIsInStepIff(surfaces: seq<Surface>)
    requires DistinctPaths(surfaces) && forall s | s in surfaces :: Sound(s)
    ensures WritesSettle(surfaces) <==> forall s | s in surfaces :: Steady(s)
  {
    hide Expected, Sound, Steady, SurfaceSettles;
    if i :| 0 <= i < |surfaces| && !Steady(surfaces[i]) {
      SurfaceSettlesIff(surfaces[i]);
      forall s | s in surfaces ensures Expected(s, START + END).Replaced? { BareIsPlannable(s); }
      UnsettledDisk(surfaces, i);
    } else {
      forall files, after | OnDisk(surfaces, files) && IsWritten(surfaces, files, after)
        ensures forall i | 0 <= i < |surfaces| :: InStep(surfaces[i], after)
      {
        forall i | 0 <= i < |surfaces| ensures InStep(surfaces[i], after) {
          SurfaceSettlesIff(surfaces[i]);
          SettledStays(surfaces[i], files[surfaces[i].path]);
        }
      }
    }
  }

  lemma {:induction false} SettledStays(s: Surface, t: string)
    requires SurfaceSettles(s) && Expected(s, t).Replaced?
    ensures Expected(s, Expected(s, t).text) == Expected(s, t)
  {
  }

  lemma {:induction false} BareIsPlannable(s: Surface)
    requires Sound(s)
    ensures Expected(s, START + END).Replaced?
  {
    if s.Readme? && s.news.Some? {
      var none := Parts("", "", "");
      assert none.Text(START, END) == START + END;
      NothingBefore(START);
      NothingBefore(END);
      hide First, Renew, AllMark, Parts.Text;
      RenewParts(none, s.rules, START, END, s.news.value);
    }
  }

  lemma {:induction false} UnsettledDisk(surfaces: seq<Surface>, i: nat)
    requires DistinctPaths(surfaces) && forall s | s in surfaces :: Expected(s, START + END).Replaced?
    requires i < |surfaces| && !SurfaceSettles(surfaces[i])
    ensures !WritesSettle(surfaces)
  {
    hide Expected, Plannable;
    var s := surfaces[i];
    var t :| Expected(s, t).Replaced? && Expected(s, Expected(s, t).text) != Expected(s, t);
    hide SurfaceSettles;
    var files := OneText(surfaces, i, t, START + END);
    BarePlannable(surfaces, files, i);
    var after := WrittenDisk(surfaces, files);
    assert !InStep(s, after);
  }

  /** A disk with one text at a surface and another at all the others. */
  lemma {:induction false} OneText(surfaces: seq<Surface>, i: nat, t: string, other: string)
    returns (files: map<Path, string>)
    requires DistinctPaths(surfaces) && i < |surfaces|
    ensures OnDisk(surfaces, files) && files[surfaces[i].path] == t
    ensures forall j | 0 <= j < |surfaces| && j != i :: files[surfaces[j].path] == other
  {
    var paths := set s | s in surfaces :: s.path;
    files := map p | p in paths :: if p == surfaces[i].path then t else other;
  }

  lemma {:induction false} BarePlannable(surfaces: seq<Surface>, files: map<Path, string>, i: nat)
    requires OnDisk(surfaces, files) && i < |surfaces|
    requires forall s | s in surfaces :: Expected(s, START + END).Replaced?
    requires Expected(surfaces[i], files[surfaces[i].path]).Replaced?
    requires forall j | 0 <= j < |surfaces| && j != i :: files[surfaces[j].path] == START + END
    ensures Plannable(surfaces, files)
  {
    hide Expected;
    forall j | 0 <= j < |surfaces| ensures Expected(surfaces[j], files[surfaces[j].path]).Replaced? {
      assert surfaces[j] in surfaces;
    }
  }

  lemma {:induction false} WrittenDisk(surfaces: seq<Surface>, files: map<Path, string>)
    returns (after: map<Path, string>)
    requires OnDisk(surfaces, files) && Plannable(surfaces, files)
    ensures IsWritten(surfaces, files, after)
  {
    hide Expected;
    after := files;
    for k := 0 to |surfaces|
      invariant after.Keys == files.Keys
      invariant forall i | 0 <= i < k ::
                  Expected(surfaces[i], files[surfaces[i].path]) == Replaced(after[surfaces[i].path])
      invariant forall p | p in files && (forall i | 0 <= i < |surfaces| :: surfaces[i].path != p) ::
                  after[p] == files[p]
    {
      var p := surfaces[k].path;
      after := after[p := Expected(surfaces[k], files[p]).text];
    }
  }
}
