/** Heading anchors of a Markdown document, and the cache of them that link checking keeps. */
module MarkdownAnchors {
  import opened Collections
  import opened Numerals
  import opened Ordering
  import opened Wrappers

  /** The tokens that matter: an inline token with the slug of its text and the anchors of its HTML. */
  datatype Token = HeadingOpen | Inline(base: string, html: set<string>) | HtmlBlock(anchors: set<string>) | Other

  // ----- slugs -----

  /** The base itself, then base-1, base-2 and so on. */
  function Slug(base: string, suffix: nat): string {
    if suffix == 0 then base else base + "-" + Digits(suffix)
  }

  lemma {:induction false} SlugInjective(base: string, i: nat, j: nat)
    requires Slug(base, i) == Slug(base, j)
    ensures i == j
  {
    if i != 0 && j != 0 {
      var p := base + "-";
      assert Digits(i) == (p + Digits(i))[|p|..] == (p + Digits(j))[|p|..] == Digits(j);
      DigitsInjective(i, j);
    } else {
      assert i != 0 ==> |Slug(base, i)| > |base|;
      assert j != 0 ==> |Slug(base, j)| > |base|;
    }
  }

  function Tried(base: string, n: nat): (r: set<string>)
    ensures forall k: nat | k < n :: Slug(base, k) in r
    ensures forall s | s in r :: exists k: nat :: k < n && s == Slug(base, k)
  {
    if n == 0 then {} else Tried(base, n - 1) + {Slug(base, n - 1)}
  }

  /** n suffixes give n slugs. */
  lemma {:induction false} TriedCount(base: string, n: nat)
    ensures |Tried(base, n)| == n
  {
    if n > 0 {
      TriedCount(base, n - 1);
      if Slug(base, n - 1) in Tried(base, n - 1) {
        var k: nat :| k < n - 1 && Slug(base, n - 1) == Slug(base, k);
        SlugInjective(base, n - 1, k);
      }
    }
  }

  /** Pigeonhole: not all of the first |used| + 1 candidates can be taken. */
  lemma {:induction false} TakenIsBounded(base: string, used: set<string>, n: nat)
    requires Tried(base, n) <= used
    ensures n <= |used|
  {
    TriedCount(base, n);
    SubsetCount(Tried(base, n), used);
  }

  ghost predicate LeastUnused(base: string, used: set<string>, suffix: nat) {
    Slug(base, suffix) !in used && forall k: nat | k < suffix :: Slug(base, k) in used
  }

  /** The inner loop; it ends by the pigeonhole principle. */
  method FreshSlug(base: string, used: set<string>) returns (slug: string, suffix: nat)
    ensures LeastUnused(base, used, suffix) && slug == Slug(base, suffix) && suffix <= |used|
  {
    slug := base;
    suffix := 0;
    hide Digits;
    while slug in used
      invariant slug == Slug(base, suffix) && Tried(base, suffix) <= used
      decreases |used| - suffix
    {
      assert Tried(base, suffix + 1) <= used;
      TakenIsBounded(base, used, suffix + 1);
      suffix := suffix + 1;
      slug := base + "-" + Digits(suffix);
    }
    TakenIsBounded(base, used, suffix);
  }

  lemma {:induction false} LeastUnusedExists(base: string, used: set<string>)
    ensures exists n: nat :: LeastUnused(base, used, n)
  {
    LeastUnusedFrom(base, used, 0);
  }

  lemma {:induction false} LeastUnusedFrom(base: string, used: set<string>, n: nat)
    requires Tried(base, n) <= used
    ensures exists m: nat :: LeastUnused(base, used, m)
    decreases |used| - n
  {
    hide Slug;
    if Slug(base, n) in used {
      assert Tried(base, n + 1) <= used;
      TakenIsBounded(base, used, n + 1);
      LeastUnusedFrom(base, used, n + 1);
    } else {
      assert LeastUnused(base, used, n);
    }
  }

  lemma {:induction false} LeastUnusedUnique(base: string, used: set<string>, m: nat, n: nat)
    requires LeastUnused(base, used, m) && LeastUnused(base, used, n)
    ensures m == n
  {
    hide Slug;
    assert m < n ==> Slug(base, m) in used;
    assert n < m ==> Slug(base, n) in used;
  }

  // ----- the headings of a document -----

  /** The slug of each heading, given the bases in order. */
  ghost function Slugs(bases: seq<string>): (r: seq<string>)
    ensures |r| == |bases|
  {
    if bases == [] then []
    else
      var before := Slugs(bases[..|bases| - 1]);
      var base := bases[|bases| - 1];
      LeastUnusedExists(base, Elements(before));
      var n: nat :| LeastUnused(base, Elements(before), n);
      before + [Slug(base, n)]
  }

  lemma {:induction false} SlugsStep(bases: seq<string>, base: string, n: nat)
    requires LeastUnused(base, Elements(Slugs(bases)), n)
    ensures Slugs(bases + [base]) == Slugs(bases) + [Slug(base, n)]
  {
    var all := bases + [base];
    hide LeastUnused, Slug;
    assert all[..|all| - 1] == bases && all[|all| - 1] == base;
    LeastUnusedExists(base, Elements(Slugs(bases)));
    var m: nat :| LeastUnused(base, Elements(Slugs(bases)), m) && Slugs(all) == Slugs(bases) + [Slug(base, m)];
    LeastUnusedUnique(base, Elements(Slugs(bases)), m, n);
  }

  lemma {:induction false} EarlierSlugs(bases: seq<string>, i: nat)
    requires i <= |bases|
    ensures Slugs(bases[..i]) == Slugs(bases)[..i]
  {
    if i < |bases| {
      var n := |bases| - 1;
      EarlierSlugs(bases[..n], i);
      assert bases[..n][..i] == bases[..i];
      LeastUnusedExists(bases[n], Elements(Slugs(bases[..n])));
      var m: nat :| LeastUnused(bases[n], Elements(Slugs(bases[..n])), m);
      assert bases == bases[..n] + [bases[n]];
      SlugsStep(bases[..n], bases[n], m);
    } else {
      assert bases[..i] == bases && Slugs(bases)[..i] == Slugs(bases);
    }
  }

  lemma {:induction false} SlugAt(bases: seq<string>, i: nat) returns (n: nat)
    requires i < |bases|
    ensures LeastUnused(bases[i], Elements(Slugs(bases)[..i]), n) && Slugs(bases)[i] == Slug(bases[i], n)
  {
    hide Slugs, Slug, LeastUnused;
    EarlierSlugs(bases, i);
    EarlierSlugs(bases, i + 1);
    assert bases[..i + 1] == bases[..i] + [bases[i]];
    LeastUnusedExists(bases[i], Elements(Slugs(bases[..i])));
    n :| LeastUnused(bases[i], Elements(Slugs(bases[..i])), n);
    SlugsStep(bases[..i], bases[i], n);
    assert Slugs(bases)[i] == Slugs(bases)[..i + 1][i];
  }

  lemma {:induction false} SuffixBound(base: string, earlier: seq<string>, n: nat)
    requires LeastUnused(base, Elements(earlier), n)
    ensures n <= |earlier|
  {
    hide Slug;
    assert Tried(base, n) <= Elements(earlier);
    TakenIsBounded(base, Elements(earlier), n);
    ElementsCount(earlier);
  }

  lemma {:induction false} BareIffFree(base: string, used: set<string>, n: nat)
    requires LeastUnused(base, used, n)
    ensures Slug(base, n) == base <==> base !in used
  {
    assert Slug(base, 0) == base;
    hide Slug;
    if Slug(base, n) == base { SlugInjective(base, n, 0); }
  }

  /** Each heading gets its base with the least suffix that no earlier heading's slug has taken, so it gets the
      bare base exactly when that is still free; at most as many suffixes are skipped as there are earlier
      headings. */
  lemma {:induction false} HeadingSlug(bases: seq<string>, i: nat) returns (n: nat)
    requires i < |bases|
    ensures LeastUnused(bases[i], Elements(Slugs(bases)[..i]), n) && Slugs(bases)[i] == Slug(bases[i], n)
    ensures Slugs(bases)[i] == bases[i] <==> bases[i] !in Slugs(bases)[..i]
    ensures n <= i
  {
    hide Slugs, Slug, LeastUnused;
    n := SlugAt(bases, i);
    SuffixBound(bases[i], Slugs(bases)[..i], n);
    BareIffFree(bases[i], Elements(Slugs(bases)[..i]), n);
  }

  lemma {:induction false} ElementsCount(s: seq<string>)
    ensures |Elements(s)| <= |s|
  {
    if s != [] {
      var n := |s| - 1;
      ElementsCount(s[..n]);
      assert s == s[..n] + [s[n]];
      assert Elements(s) == Elements(s[..n]) + {s[n]};
    }
  }

  /** n headings have n different slugs. */
  lemma {:induction false} SlugsAreDistinct(bases: seq<string>)
    ensures Distinct(Slugs(bases))
  {
    if bases != [] {
      var n := |bases| - 1;
      SlugsAreDistinct(bases[..n]);
      LeastUnusedExists(bases[n], Elements(Slugs(bases[..n])));
      var m: nat :| LeastUnused(bases[n], Elements(Slugs(bases[..n])), m);
      assert bases == bases[..n] + [bases[n]];
      SlugsStep(bases[..n], bases[n], m);
      hide Slug;
    }
  }

  lemma {:induction false} NextFree(bases: seq<string>, base: string)
    requires base !in Slugs(bases)
    ensures Slugs(bases + [base]) == Slugs(bases) + [base]
  {
    hide Slugs;
    assert Slug(base, 0) == base;
    assert LeastUnused(base, Elements(Slugs(bases)), 0);
    SlugsStep(bases, base, 0);
  }

  lemma {:induction false} NextTakenOnce(bases: seq<string>, base: string)
    requires base in Slugs(bases) && base + "-1" !in Slugs(bases)
    ensures Slugs(bases + [base]) == Slugs(bases) + [base + "-1"]
  {
    hide Slugs;
    assert Digits(1) == "1";
    assert Slug(base, 0) == base && Slug(base, 1) == base + "-1";
    assert LeastUnused(base, Elements(Slugs(bases)), 1);
    SlugsStep(bases, base, 1);
  }

  lemma {:induction false} RepeatedHeading(b: string)
    ensures Slugs([b, b]) == [b, b + "-1"]
  {
    assert Slugs([]) == [];
    hide Slugs;
    NextFree([], b);
    assert [] + [b] == [b] && [b] + [b] == [b, b];
    assert |b + "-1"| > |b|;
    NextTakenOnce([b], b);
    assert [b] + [b + "-1"] == [b, b + "-1"];
  }

  /** The suffix avoids slugs, not texts: a later heading may find its own text already taken. */
  lemma {:induction false} SuffixedTextCollides(b: string, c: string)
    requires c == b + "-1"
    ensures Slugs([b, b, c]) == [b, c, c + "-1"]
  {
    hide Slugs;
    RepeatedHeading(b);
    assert |c + "-1"| > |c| > |b|;
    assert [b, c][1] == c;
    NextTakenOnce([b, b], c);
    assert [b, b] + [c] == [b, b, c] && [b, c] + [c + "-1"] == [b, c, c + "-1"];
  }

  // ----- the anchors of a document -----

  /** A heading opens here and its inline text follows. */
  predicate HeadingAt(tokens: seq<Token>, k: nat) {
    k + 1 < |tokens| && tokens[k].HeadingOpen? && tokens[k + 1].Inline?
  }

  /** The bases of the headings that open before k. */
  function Bases(tokens: seq<Token>, k: nat): seq<string> {
    if k == 0 then []
    else Bases(tokens, k - 1) + (if HeadingAt(tokens, k - 1) then [tokens[k].base] else [])
  }

  function TokenHtml(t: Token): set<string> {
    match t case HtmlBlock(anchors) => anchors case Inline(_, html) => html case _ => {}
  }

  function HtmlAnchors(tokens: seq<Token>): set<string> {
    if tokens == [] then {} else HtmlAnchors(tokens[..|tokens| - 1]) + TokenHtml(tokens[|tokens| - 1])
  }

  ghost function Anchors(tokens: seq<Token>): set<string> {
    HtmlAnchors(tokens) + Elements(Slugs(Bases(tokens, |tokens|)))
  }

  method ExplicitHtmlAnchors(tokens: seq<Token>) returns (anchors: set<string>)
    ensures anchors == HtmlAnchors(tokens)
  {
    anchors := {};
    for k := 0 to |tokens|
      invariant anchors == HtmlAnchors(tokens[..k])
    {
      assert tokens[..k + 1][..k] == tokens[..k];
      anchors := anchors + TokenHtml(tokens[k]);
    }
    assert tokens[..|tokens|] == tokens;
  }

  lemma {:induction false} ElementsAppend(s: seq<string>, x: string)
    ensures Elements(s + [x]) == Elements(s) + {x}
  {
  }

  /** The slugs of the headings that open before k. */
  ghost function SlugSet(tokens: seq<Token>, k: nat): set<string> {
    Elements(Slugs(Bases(tokens, k)))
  }

  lemma {:induction false} SlugSetStep(tokens: seq<Token>, k: nat, slug: string, suffix: nat)
    requires HeadingAt(tokens, k) ==>
               && LeastUnused(tokens[k + 1].base, SlugSet(tokens, k), suffix)
               && slug == Slug(tokens[k + 1].base, suffix)
    ensures SlugSet(tokens, k + 1) == SlugSet(tokens, k) + (if HeadingAt(tokens, k) then {slug} else {})
  {
    var bases := Bases(tokens, k);
    assert Bases(tokens, k + 1) == bases + (if HeadingAt(tokens, k) then [tokens[k + 1].base] else []);
    hide Bases, LeastUnused, Slug, Slugs;
    if HeadingAt(tokens, k) {
      SlugsStep(bases, tokens[k + 1].base, suffix);
      ElementsAppend(Slugs(bases), slug);
    } else {
      assert bases + [] == bases;
    }
  }

  /** `_document_anchors`. */
  method DocumentAnchors(tokens: seq<Token>) returns (anchors: set<string>)
    ensures anchors == Anchors(tokens)
  {
    anchors := ExplicitHtmlAnchors(tokens);
    var headingSlugs: set<string> := {};
    assert SlugSet(tokens, 0) == {};
    assert Anchors(tokens) == HtmlAnchors(tokens) + SlugSet(tokens, |tokens|);
    hide LeastUnused, Slug, SlugSet, HtmlAnchors, Anchors;
    for k := 0 to |tokens|
      invariant headingSlugs == SlugSet(tokens, k)
      invariant anchors == HtmlAnchors(tokens) + headingSlugs
    {
      if HeadingAt(tokens, k) {
        var slug, suffix := FreshSlug(tokens[k + 1].base, headingSlugs);
        SlugSetStep(tokens, k, slug, suffix);
        headingSlugs := headingSlugs + {slug};
        anchors := anchors + {slug};
      } else {
        SlugSetStep(tokens, k, "", 0);
      }
    }
  }

  // ----- the cache -----

  type Path = string

  /** Where a target leads once it has been stripped, unescaped and resolved. */
  datatype Target = External | Escaping | Missing | Local(path: Path, fragment: string, markdown: bool)

  /** A link; `counted` says that its target is local as written, before stripping and unescaping. */
  datatype Link = Link(counted: bool, target: Target)
  datatype Failure = OutsideRepository | NoSuchPath | NoSuchAnchor

  const USER_CONTENT := "user-content-"

  function WithoutPrefix(fragment: string): string {
    if USER_CONTENT <= fragment then fragment[|USER_CONTENT|..] else fragment
  }

  type Parser = string -> seq<Token>

  /** What a link check answers when the anchors are computed afresh from the file. */
  ghost function Checked(files: map<Path, string>, parse: Parser, target: Target): Option<Failure>
    requires target.Local? ==> target.path in files
  {
    match target
    case External => None
    case Escaping => Some(OutsideRepository)
    case Missing => Some(NoSuchPath)
    case Local(path, fragment, markdown) =>
      if fragment == "" || !markdown || WithoutPrefix(fragment) in Anchors(parse(files[path])) then None
      else Some(NoSuchAnchor)
  }

  class Checker {
    const files: map<Path, string>
    const parse: Parser
    var parsed: map<Path, (string, seq<Token>)>
    var cache: map<Path, set<string>>

    /** Documents were parsed from their files, and the cache holds what recomputing would give. */
    ghost predicate Valid()
      reads this
    {
      && (forall p | p in parsed :: p in files && parsed[p] == (files[p], parse(files[p])))
      && (forall p | p in cache :: p in files && cache[p] == Anchors(parse(files[p])))
    }

    constructor (files: map<Path, string>, parse: Parser, documents: set<Path>)
      requires documents <= files.Keys
      ensures Valid() && this.files == files && this.parse == parse && cache == map[]
    {
      this.files, this.parse := files, parse;
      parsed := map p | p in documents :: (files[p], parse(files[p]));
      cache := map[];
    }

    /** `_validate_link`: the anchors come from the cache when they are there. */
    method ValidateLink(target: Target) returns (failure: Option<Failure>)
      requires Valid() && (target.Local? ==> target.path in files)
      modifies this`cache
      ensures Valid() && failure == Checked(files, parse, target)
      ensures forall p | p in old(cache) :: p in cache && cache[p] == old(cache[p])
    {
      match target
      case External => failure := None;
      case Escaping => failure := Some(OutsideRepository);
      case Missing => failure := Some(NoSuchPath);
      case Local(path, fragment, markdown) =>
        if fragment == "" || !markdown {
          return None;
        }
        var anchors;
        if path in cache {
          anchors := cache[path];
        } else {
          var source, tokens := files[path], [];
          if path in parsed {
            source, tokens := parsed[path].0, parsed[path].1;
          }
          if tokens == [] {
            tokens := parse(source);
          }
          anchors := DocumentAnchors(tokens);
          cache := cache[path := anchors];
        }
        failure := if WithoutPrefix(fragment) in anchors then None else Some(NoSuchAnchor);
    }

    /** The loop over all links: what fails, and how many links count as checked. */
    method CheckAll(links: seq<Link>) returns (failures: seq<Failure>, checked: nat)
      requires Valid() && Readable(files, links)
      modifies this`cache
      ensures Valid() && failures == Failures(files, parse, links)
      ensures checked == CheckedLinks(files, parse, links)
    {
      failures, checked := [], 0;
      for k := 0 to |links|
        invariant Valid() && failures == Failures(files, parse, links[..k])
                  && checked == CheckedLinks(files, parse, links[..k])
      {
        assert links[..k + 1][..k] == links[..k];
        var failure := ValidateLink(links[k].target);
        if failure.None? {
          if links[k].counted {
            checked := checked + 1;
          }
        } else {
          checked := checked + 1;
          failures := failures + [failure.value];
        }
      }
      assert links[..|links|] == links;
    }
  }

  ghost predicate Readable(files: map<Path, string>, links: seq<Link>) {
    forall i | 0 <= i < |links| :: links[i].target.Local? ==> links[i].target.path in files
  }

  ghost function Failures(files: map<Path, string>, parse: Parser, links: seq<Link>): seq<Failure>
    requires Readable(files, links)
  {
    if links == [] then []
    else
      var last := Checked(files, parse, links[|links| - 1].target);
      Failures(files, parse, links[..|links| - 1]) + (if last.Some? then [last.value] else [])
  }

  /** A link counts as checked when it fails or when its target is local as written. */
  ghost function CheckedLinks(files: map<Path, string>, parse: Parser, links: seq<Link>): nat
    requires Readable(files, links)
  {
    if links == [] then 0
    else
      var last := links[|links| - 1];
      CheckedLinks(files, parse, links[..|links| - 1])
      + (if last.counted || Checked(files, parse, last.target).Some? then 1 else 0)
  }

  // ----- what the anchors of a document are -----

  lemma {:induction false} HtmlAnchorsAre(tokens: seq<Token>, anchor: string)
    ensures anchor in HtmlAnchors(tokens) <==>
              exists k :: 0 <= k < |tokens| && match tokens[k]
                          case HtmlBlock(anchors) => anchor in anchors
                          case Inline(_, html) => anchor in html
                          case _ => false
  {
    if tokens != [] {
      var n := |tokens| - 1;
      HtmlAnchorsAre(tokens[..n], anchor);
      assert forall k | 0 <= k < n :: tokens[..n][k] == tokens[k];
    }
  }

  /** The headings are the inline texts that directly follow an opening heading, in their order. */
  lemma {:induction false} BasesAre(tokens: seq<Token>, k: nat)
    requires k < |tokens|
    ensures Bases(tokens, 0) == []
    ensures Bases(tokens, k + 1)
         == Bases(tokens, k) + if k + 1 < |tokens| && tokens[k] == HeadingOpen && tokens[k + 1].Inline?
                               then [tokens[k + 1].base] else []
  {
  }

  /** A fragment may carry the prefix under which the site publishes its anchors; only one is taken off. */
  lemma {:induction false} PrefixIsIgnored(fragment: string)
    ensures WithoutPrefix("user-content-" + fragment) == fragment
    ensures !("user-content-" <= fragment) ==> WithoutPrefix(fragment) == fragment
  {
    assert ("user-content-" + fragment)[|USER_CONTENT|..] == fragment;
  }
}
