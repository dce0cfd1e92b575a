/** What a write leaves in the files: after each install prefix the version of its own package, and the news. */
module ReleaseContents {
  import opened MarkedRewriting
  import opened Numerals
  import opened ReleaseBlock
  import opened ReleaseManifests
  import opened ReleaseSurfaces
  import opened VersionNumbers
  import opened VersionRewrites
  import opened VersionRules
  import opened Wrappers

  // ----- three dotted numbers, spelled out -----

  ghost predicate Digits(s: string) { s != "" && forall i | 0 <= i < |s| :: IsDigit(s[i]) }

  /** The text begins with three dotted numbers that take n characters, the last one as long as it can be. */
  ghost predicate StartsWithVersion(s: string, n: nat) {
    && n <= |s| && (n < |s| ==> !IsDigit(s[n]))
    && exists x, y, z :: Digits(x) && Digits(y) && Digits(z) && s[..n] == x + "." + y + "." + z
  }

  lemma {:induction false} DigitsAll(s: string)
    ensures Digits(s) <==> AllDigits(s)
  {
    if Digits(s) { DigitsOnly(s); }
  }

  lemma {:induction false} FirstNumber(s: string)
    requires AfterDot(s).Some?
    ensures var k := |s| - |AfterDot(s).value| - 1;
            Digits(s[..k]) && s == s[..k] + "." + AfterDot(s).value
  {
    assert s == s[..DigitCount(s)] + [s[DigitCount(s)]] + s[DigitCount(s) + 1..];
  }

  lemma {:induction false} CountIs(s: string)
    requires DigitCount(s) > 0
    ensures var c := DigitCount(s); c <= |s| && Digits(s[..c]) && (c < |s| ==> !IsDigit(s[c]))
  {
    assert forall i | 0 <= i < DigitCount(s) :: IsDigit(s[i]);
  }

  lemma {:induction false} ThreeParts(s: string, t: string, u: string, c: nat)
    requires |u| < |t| < |s| && c <= |u|
    requires s == s[..|s| - |t| - 1] + "." + t && t == t[..|t| - |u| - 1] + "." + u
    ensures |u| <= |s| && s[..|s| - |u| + c] == s[..|s| - |t| - 1] + "." + t[..|t| - |u| - 1] + "." + u[..c]
    ensures s[|s| - |u| + c..] == u[c..]
  {
    var x, y, z := s[..|s| - |t| - 1], t[..|t| - |u| - 1], u[..c];
    var w := x + "." + y + "." + z;
    assert u == z + u[c..];
    assert s == x + "." + (y + "." + (z + u[c..])) == w + u[c..];
    assert |w| == |s| - |u| + c;
  }

  lemma {:induction false} LengthMeans(s: string)
    requires VersionLength(s).Some?
    ensures StartsWithVersion(s, VersionLength(s).value)
  {
    var t := AfterDot(s).value;
    var u := AfterDot(t).value;
    hide StartsWithVersion;
    PartsMean(s, t, u, DigitCount(u));
  }

  lemma {:induction false} PartsMean(s: string, t: string, u: string, c: nat)
    requires AfterDot(s) == Some(t) && AfterDot(t) == Some(u) && c == DigitCount(u) > 0
    ensures StartsWithVersion(s, |s| - |u| + c)
  {
    hide AfterDot, DigitCount, Digits, StartsWithVersion;
    FirstNumber(s);
    FirstNumber(t);
    CountIs(u);
    ThreeParts(s, t, u, c);
    LastDigit(s, |s| - |u| + c, u, c);
    Spelled(s, |s| - |u| + c, s[..|s| - |t| - 1], t[..|t| - |u| - 1], u[..c]);
  }

  lemma {:induction false} LastDigit(s: string, n: nat, u: string, c: nat)
    requires n <= |s| && c <= |u| && s[n..] == u[c..] && (c < |u| ==> !IsDigit(u[c]))
    ensures n < |s| ==> !IsDigit(s[n])
  {
    if n < |s| { assert s[n] == s[n..][0] == u[c..][0]; }
  }

  lemma {:induction false} Spelled(s: string, n: nat, x: string, y: string, z: string)
    requires n <= |s| && (n < |s| ==> !IsDigit(s[n]))
    requires Digits(x) && Digits(y) && Digits(z) && s[..n] == x + "." + y + "." + z
    ensures StartsWithVersion(s, n)
  {
  }

  /** The length that the pattern takes is the one that three dotted numbers take. */
  lemma {:induction false} LengthIff(s: string, n: nat)
    ensures VersionLength(s) == Some(n) <==> StartsWithVersion(s, n)
  {
    hide VersionLength;
    if VersionLength(s).Some? { LengthMeans(s); }
    if StartsWithVersion(s, n) {
      var x, y, z :| Digits(x) && Digits(y) && Digits(z) && s[..n] == x + "." + y + "." + z;
      DigitsAll(x);
      DigitsAll(y);
      DigitsAll(z);
      ThreeNumbers(x, y, z);
      PlainStays(s[..n], s[n..]);
      assert s == s[..n] + s[n..];
    }
  }

  // ----- what a text shows -----

  ghost predicate Behind(text: string, prefix: string, k: nat) {
    |prefix| <= k <= |text| && text[k - |prefix|..k] == prefix
  }

  /** Wherever the prefix stands before three dotted numbers, those are the version. */
  ghost predicate Shows(text: string, prefix: string, version: string) {
    forall k: nat, n: nat | Behind(text, prefix, k) && StartsWithVersion(text[k..], n) :: text[k..k + n] == version
  }

  lemma {:induction false} StableAt(text: string, r: Rule, i: nat)
    requires Stable(text, r) && i <= |text|
    ensures UpToDate(text[i..], r)
  {
    hide UpToDate;
  }

  lemma {:induction false} StableShows(text: string, r: Rule)
    requires Stable(text, r)
    ensures Shows(text, r.prefix, r.version)
  {
    hide VersionLength, StartsWithVersion, Stable, UpToDate;
    forall k: nat, n: nat | Behind(text, r.prefix, k) && StartsWithVersion(text[k..], n)
      ensures k + n <= |text| && text[k..k + n] == r.version
    {
      var i := k - |r.prefix|;
      StableAt(text, r, i);
      LengthIff(text[k..], n);
      assert text[i..][|r.prefix|..] == text[k..] && text[i..][..|r.prefix|] == text[i..k];
      UpToDateShows(text[i..], r, n);
      assert text[k..][..n] == text[k..k + n];
    }
  }

  lemma {:induction false} UpToDateShows(s: string, r: Rule, n: nat)
    requires UpToDate(s, r)
    ensures r.prefix <= s && VersionLength(s[|r.prefix|..]) == Some(n) ==> s[|r.prefix|..][..n] == r.version
  {
    hide VersionLength;
  }

  lemma {:induction false} StableBefore(a: string, b: string, r: Rule)
    requires Wordy(r.prefix) && Stable(a + b, r) && b != "" && !Numeric(b[0]) && b[0] !in r.prefix
    ensures Stable(a, r)
  {
    hide UpToDate, Wordy, Stable, Numeric;
    forall i | 0 <= i <= |a| ensures UpToDate(a[i..], r) {
      if i == |a| {
        NothingIsUpToDate(a[i..], r);
      } else {
        StableAt(a + b, r, i);
        assert (a + b)[i..] == a[i..] + b;
        UpToDateBefore(a[i..], b, r);
      }
    }
    AllUpToDate(a, r);
  }

  lemma {:induction false} AllUpToDate(a: string, r: Rule)
    requires forall i | 0 <= i <= |a| :: UpToDate(a[i..], r)
    ensures Stable(a, r)
  {
  }

  lemma {:induction false} NothingIsUpToDate(s: string, r: Rule)
    requires s == ""
    ensures UpToDate(s, r)
  {
  }

  lemma {:induction false} UpToDateBefore(a: string, b: string, r: Rule)
    requires Wordy(r.prefix) && UpToDate(a + b, r) && a != "" && b != "" && !Numeric(b[0]) && b[0] !in r.prefix
    ensures UpToDate(a, r)
  {
    MatchAtBorder(a, b, r.prefix);
    hide Match, Wordy, Numeric;
    if Match(a, r.prefix).Some? { SameBehind(a, b, |r.prefix|, |r.version|); }
  }

  lemma {:induction false} SameBehind(a: string, b: string, p: nat, v: nat)
    requires p + v <= |a|
    ensures (a + b)[p..][..v] == a[p..][..v]
  {
  }

  // ----- the news -----

  /** Every item stands on a line of its own, after a dash, in the order of the manifest. */
  lemma {:induction false} JoinItemsAdds(items: seq<string>, x: string)
    ensures JoinItems(items + [x]) == if items == [] then "- " + x else JoinItems(items) + "\n- " + x
  {
    if items != [] {
      var rest := items[1..];
      JoinItemsAdds(rest, x);
      assert (items + [x])[1..] == rest + [x] && (items + [x])[0] == items[0];
      if rest == [] {
        assert JoinItems(items) == "- " + items[0];
        assert "- " + items[0] + "\n" + ("- " + x) == "- " + items[0] + "\n- " + x;
      } else {
        assert "- " + items[0] + "\n" + (JoinItems(rest) + "\n- " + x)
            == "- " + items[0] + "\n" + JoinItems(rest) + "\n- " + x;
      }
    }
  }

  /** The asset is the items, one line each. */
  lemma {:induction false} JoinLinesAdds(lines: seq<string>, x: string)
    ensures JoinLines(lines + [x]) == if lines == [] then x + "\n" else JoinLines(lines) + x + "\n"
  {
    if lines != [] {
      var rest := lines[1..];
      JoinLinesAdds(rest, x);
      assert (lines + [x])[1..] == rest + [x] && (lines + [x])[0] == lines[0];
      if rest == [] {
        assert lines[0] + "\n" + (x + "\n") == lines[0] + "\n" + x + "\n";
      } else {
        assert lines[0] + "\n" + (JoinLines(rest) + x + "\n") == lines[0] + "\n" + JoinLines(rest) + x + "\n";
      }
    }
  }

  // ----- what a write leaves -----

  lemma {:induction false} OnlyRulesShow(path: Path, rules: seq<Rule>, before: string, r: Rule)
    requires Compatible(rules) && (forall q | q in rules :: Settled(q)) && r in rules
    requires Expected(Readme(path, rules, None), before).Replaced?
    ensures Shows(Expected(Readme(path, rules, None), before).text, r.prefix, r.version)
  {
    hide Compatible, Settled, Rewrite, Stable, Shows;
    RewriteIsStable(before, rules);
    StableShows(Rewrite(before, rules), r);
  }

  lemma {:induction false} RenewedShows(p: Parts, rules: seq<Rule>, r: Rule)
    requires r in rules && AllStable(p.Text(START, END), rules) && Compatible(rules) && AllMark(START, rules)
    ensures Shows(p.before, r.prefix, r.version) && Shows(p.after, r.prefix, r.version)
  {
    var rest := START + p.middle + END + p.after;
    var t := p.Text(START, END);
    assert t == p.before + rest && rest[0] == START[0];
    assert Marks(START, r) && Wordy(r.prefix);
    assert t[|t| - |p.after|..] == p.after;
    hide Shows, Stable, Wordy, START, END;
    StableBefore(p.before, rest, r);
    StableSuffix(t, |t| - |p.after|, r);
    StableShows(p.before, r);
    StableShows(p.after, r);
  }

  /** What a renewed README shows: outside the block the versions of the rules, and the block itself. */
  ghost predicate Renewed(text: string, rules: seq<Rule>, block: string) {
    exists before, rest :: text == before + block + rest
                           && forall r | r in rules ::
                             Shows(before, r.prefix, r.version) && Shows(rest, r.prefix, r.version)
  }

  lemma {:induction false} RenewalShows(path: Path, rules: seq<Rule>, news: string, before: string)
    requires Sound(Readme(path, rules, Some(news))) && forall r | r in rules :: Settled(r)
    requires Expected(Readme(path, rules, Some(news)), before).Replaced?
    ensures Renewed(Expected(Readme(path, rules, Some(news)), before).text, rules, START + news + END)
  {
    assert Compatible(rules) && AllMark(START, rules);
    assert '\\' !in START + news + END;
    var t := Rewrite(before, rules);
    assert Expected(Readme(path, rules, Some(news)), before) == Renew(before, rules, START, END, START + news + END);
    assert FirstBlock(t, START, END).Some?;
    hide Compatible, AllMark, Settled, Rewrite, FirstBlock, Shows, Stable, Sound, START, END;
    RewriteIsStable(before, rules);
    var p := PartsOfBlock(t, START, END);
    ReplaceParts(p, START, END, START + news + END);
    forall r | r in rules ensures Shows(p.before, r.prefix, r.version) && Shows(p.after, r.prefix, r.version) {
      RenewedShows(p, rules, r);
    }
    hide Expected, Renew, ReplaceBlock;
  }

  lemma {:induction false} SurfaceAt(surfaces: seq<Surface>, files: map<Path, string>, after: map<Path, string>,
                                     s: Surface)
    requires OnDisk(surfaces, files) && IsWritten(surfaces, files, after) && s in surfaces
    ensures s.path in files && s.path in after && Expected(s, files[s.path]) == Replaced(after[s.path])
  {
    hide Expected;
  }

  lemma {:induction false} ReadmesReady(m: Manifest)
    requires PlainVersions(m) && '\\' !in RenderBlock(m.newsVersion, m.news)
    ensures Sound(RootReadme(m)) && Compatible(PiRules(m))
    ensures forall r | r in RootRules(m) + PiRules(m) :: Settled(r)
  {
    RootRulesReady(m);
    PiRulesReady(m);
    RootReady(m);
    PiReady(m);
    hide Signed, Plain, Settled, Compatible, RootRules, PiRules, RenderBlock;
    PlainSettledRules(RootRules(m));
    PlainSettledRules(PiRules(m));
  }

  /** After a write each README shows, behind each of its install prefixes, the version of the package named there. */
  lemma {:induction false} WrittenVersions(m: Manifest, files: map<Path, string>, after: map<Path, string>)
    requires PlainVersions(m) && OnDisk(Surfaces(m), files) && IsWritten(Surfaces(m), files, after)
    ensures "autocontext/README.md" in after && Shows(after["autocontext/README.md"], "autocontext==", m.python)
    ensures "ts/README.md" in after && Shows(after["ts/README.md"], "autoctx@", m.npm)
    ensures "pi/README.md" in after && Shows(after["pi/README.md"], "autocontext==", m.python)
    ensures Shows(after["pi/README.md"], "autoctx@", m.npm) && Shows(after["pi/README.md"], "pi-autocontext@", m.pi)
  {
    InSurfaces(m);
    PiRulesReady(m);
    PiReady(m);
    SinglesReady(m);
    hide Plain, PlainVersions, Signed, Compatible, Settled, Shows, Surfaces, IsWritten, Expected;
    assert PiRules(m)[0] in PiRules(m) && PiRules(m)[1] in PiRules(m) && PiRules(m)[2] in PiRules(m);
    SurfaceAt(Surfaces(m), files, after, PythonReadme(m));
    SurfaceAt(Surfaces(m), files, after, TsReadme(m));
    SurfaceAt(Surfaces(m), files, after, PiReadme(m));
    var python, npm := Rule("autocontext==", m.python, false), Rule("autoctx@", m.npm, false);
    OnlyRulesShow("autocontext/README.md", [python], files["autocontext/README.md"], python);
    OnlyRulesShow("ts/README.md", [npm], files["ts/README.md"], npm);
    OnlyRulesShow("pi/README.md", PiRules(m), files["pi/README.md"], PiRules(m)[0]);
    OnlyRulesShow("pi/README.md", PiRules(m), files["pi/README.md"], PiRules(m)[1]);
    OnlyRulesShow("pi/README.md", PiRules(m), files["pi/README.md"], PiRules(m)[2]);
  }

  /** Behind each install command of the root README stands the version of the package that it installs. */
  ghost predicate ShowsInstalls(text: string, m: Manifest) {
    && Shows(text, "uv tool install autocontext==", m.python)
    && Shows(text, "uv pip install autocontext==", m.python)
    && Shows(text, "bun add -g autoctx@", m.npm)
    && Shows(text, "pi install npm:pi-autocontext@", m.pi)
  }

  lemma {:induction false} RootShows(m: Manifest, text: string)
    requires forall r | r in RootRules(m) :: Shows(text, r.prefix, r.version)
    ensures ShowsInstalls(text, m)
  {
    hide Shows;
    var rules := RootRules(m);
    assert rules[0] in rules && rules[1] in rules && rules[2] in rules && rules[3] in rules;
  }

  lemma {:induction false} BlockIsNews(version: string, news: seq<string>)
    ensures START + RenderBody(version, news) + END
         == "<!-- autocontext-whats-new:start -->"
            + ("\n## What's New in " + version + "\n\n" + JoinItems(news) + "\n")
            + "<!-- autocontext-whats-new:end -->"
  {
    hide JoinItems;
  }

  lemma {:induction false} RootRenewed(m: Manifest, text: string) returns (before: string, rest: string)
    requires Renewed(text, RootRules(m), START + RenderBody(m.newsVersion, m.news) + END)
    ensures text == before + (START + RenderBody(m.newsVersion, m.news) + END) + rest
    ensures ShowsInstalls(before, m) && ShowsInstalls(rest, m)
  {
    hide Shows, ShowsInstalls, RootRules, RenderBody, START, END;
    before, rest :| text == before + (START + RenderBody(m.newsVersion, m.news) + END) + rest
                    && forall r | r in RootRules(m) ::
                         Shows(before, r.prefix, r.version) && Shows(rest, r.prefix, r.version);
    RootShows(m, before);
    RootShows(m, rest);
  }

  /** After a write the root README holds the news of its version between the markers and shows, before and behind
      them, the right version behind each install command; the asset holds the news as well. */
  lemma {:induction false} WrittenNews(m: Manifest, files: map<Path, string>, after: map<Path, string>)
    returns (before: string, rest: string)
    requires PlainVersions(m) && '\\' !in RenderBlock(m.newsVersion, m.news)
    requires OnDisk(Surfaces(m), files) && IsWritten(Surfaces(m), files, after)
    ensures "README.md" in after
    ensures after["README.md"] == before
            + ("<!-- autocontext-whats-new:start -->"
               + ("\n## What's New in " + m.newsVersion + "\n\n" + JoinItems(m.news) + "\n")
               + "<!-- autocontext-whats-new:end -->")
            + rest
    ensures ShowsInstalls(before, m) && ShowsInstalls(rest, m)
    ensures "autocontext/assets/whats_new.txt" in after
              && after["autocontext/assets/whats_new.txt"] == JoinLines(m.news)
  {
    InSurfaces(m);
    ReadmesReady(m);
    SurfaceAt(Surfaces(m), files, after, RootReadme(m));
    SurfaceAt(Surfaces(m), files, after, NewsAsset(m));
    hide PlainVersions, Settled, Surfaces, IsWritten, RenderBody, Sound, JoinItems, JoinLines, ShowsInstalls, RootRules;
    assert Expected(NewsAsset(m), files[NewsAsset(m).path]) == Replaced(JoinLines(m.news));
    hide Expected, START, END;
    RenewalShows("README.md", RootRules(m), RenderBody(m.newsVersion, m.news), files["README.md"]);
    BlockIsNews(m.newsVersion, m.news);
    hide Renewed;
    before, rest := RootRenewed(m, after["README.md"]);
  }
}
