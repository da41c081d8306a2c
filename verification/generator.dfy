/** The manifest generator: compiles a service-worker configuration and a
    snapshot of the served file tree into the manifest the worker reads.

    The generator is constructed with the file tree and a base href (`/test`
    in the generator's test). `Process` fills in every default, compiles
    every pattern, matches and digests the asset files, parses every
    duration, and either yields the whole manifest or fails without one. */
module Generator {
  import opened Wrappers
  import Glob
  import Urls
  import Duration
  import Files

  /** Schema version of the manifest. */
  const ConfigVersion: nat := 1
  /** Version given to every data group. */
  const DataGroupVersion: nat := 1
  /** Install and update mode of an asset group that names none. */
  const DefaultMode: string := "prefetch"
  /** Caching strategy of a data group that names none. */
  const DefaultStrategy: string := "performance"
  /** Navigation rules used when the configuration has none: every root
      path, except paths whose last segment has a dot (files by extension),
      and paths with a segment containing `__` or lying beneath one. */
  const DefaultNavigationUrls: seq<string> := ["/**", "!/**/*.*", "!/**/*__*", "!/**/*__*/**"]

  // ---------------------------------------------------------------------
  // Input

  datatype AssetGroupConfig = AssetGroupConfig(
    name: string,
    installMode: Option<string>,
    updateMode: Option<string>,
    files: seq<string>,           // globs over the served tree, `!` to exclude
    versionedFiles: seq<string>,  // same, for files whose names carry a version
    urls: seq<string>)            // URL patterns for resources outside the tree

  datatype DataGroupConfig = DataGroupConfig(
    name: string,
    urls: seq<string>,
    maxSize: int,
    maxAge: string,
    timeout: string,
    strategy: Option<string>)

  /** The configuration; `A` is the application's opaque `appData`. */
  datatype Config<A> = Config(
    appData: Option<A>,
    index: string,
    assetGroups: Option<seq<AssetGroupConfig>>,
    dataGroups: Option<seq<DataGroupConfig>>,
    navigationUrls: Option<seq<string>>)

  // ---------------------------------------------------------------------
  // Output

  datatype AssetGroup = AssetGroup(
    name: string,
    installMode: string,
    updateMode: string,
    urls: seq<string>,      // matched files, under the base
    patterns: seq<string>)  // unanchored regex sources

  datatype DataGroup = DataGroup(
    name: string,
    patterns: seq<string>,
    strategy: string,
    maxSize: int,
    maxAge: nat,     // milliseconds
    timeoutMs: nat,  // milliseconds
    version: nat)

  datatype NavigationUrl = NavigationUrl(positive: bool, regex: string)

  datatype Manifest<A> = Manifest(
    configVersion: nat,
    appData: Option<A>,
    index: string,
    assetGroups: seq<AssetGroup>,
    dataGroups: seq<DataGroup>,
    navigationUrls: seq<NavigationUrl>,
    hashTable: map<string, string>)

  // ---------------------------------------------------------------------
  // Patterns

  /** Unanchored regex sources of a list of URL patterns, in order. */
  function UrlPatterns(base: string, urls: seq<string>): (ps: seq<string>)
    ensures |ps| == |urls|
    ensures forall i :: 0 <= i < |urls| ==> ps[i] == Urls.UrlToRegex(base, urls[i], false)
    decreases |urls|
  {
    if |urls| == 0 then [] else [Urls.UrlToRegex(base, urls[0], false)] + UrlPatterns(base, urls[1..])
  }

  /** True when a navigation rule is an exclusion. */
  predicate Negated(rule: string) {
    |rule| > 0 && rule[0] == '!'
  }

  /** The URL pattern of a navigation rule, without its `!`. */
  function RuleUrl(rule: string): string {
    if Negated(rule) then rule[1..] else rule
  }

  /** One navigation rule: an anchored pattern, negative when written with `!`. */
  function CompileNavigationUrl(base: string, rule: string): (n: NavigationUrl)
    ensures n.positive <==> !Negated(rule)
    ensures |n.regex| >= 2 && n.regex[0] == '^' && n.regex[|n.regex| - 1] == '$'
  {
    NavigationUrl(!Negated(rule), Urls.UrlToRegex(base, RuleUrl(rule), true))
  }

  /** The navigation rules, one entry per rule, in declaration order. */
  function CompileNavigationUrls(base: string, rules: seq<string>): (ns: seq<NavigationUrl>)
    ensures |ns| == |rules|
    ensures forall i :: 0 <= i < |rules| ==> ns[i] == CompileNavigationUrl(base, rules[i])
    decreases |rules|
  {
    if |rules| == 0 then []
    else [CompileNavigationUrl(base, rules[0])] + CompileNavigationUrls(base, rules[1..])
  }

  /** The configured navigation rules, or the defaults when none are given
      (an empty list given explicitly stays empty). */
  function NavigationUrls(base: string, rules: Option<seq<string>>): seq<NavigationUrl> {
    CompileNavigationUrls(base, rules.GetOr(DefaultNavigationUrls))
  }

  /** Reads a compiled navigation rule back: `!` for a negative rule, then the
      resolved glob recovered from the anchored regex. */
  function DecodeNavigationUrl(n: NavigationUrl): string {
    var body := if |n.regex| >= 2 then n.regex[1..|n.regex| - 1] else n.regex;
    (if n.positive then "" else "!") + Glob.Decompile(Glob.Unrender(body))
  }

  /** A compiled navigation rule loses nothing but the resolution: reading
      it back gives the `!` (for a negative rule) and the resolved glob. */
  lemma NavigationRoundTrip(base: string, rule: string)
    requires '\\' !in rule && '\\' !in base
    ensures DecodeNavigationUrl(CompileNavigationUrl(base, rule))
         == (if Negated(rule) then "!" else "") + Urls.ResolveUrl(base, RuleUrl(rule))
  {
    var url := RuleUrl(rule);
    var resolved := Urls.ResolveUrl(base, url);
    assert forall c :: c in url ==> c in rule;
    assert '\\' !in resolved by {
      if resolved != url {
        var head := Urls.DropTrailingSlash(base);
        assert forall c :: c in head ==> c in base;
        assert resolved == head + "/" + url;
      }
    }
    Glob.GlobFromRegex(resolved);
  }

  // ---------------------------------------------------------------------
  // Asset groups

  /** A compiled asset group with the served-tree paths it claimed. */
  datatype AssetResult = AssetResult(group: AssetGroup, files: seq<string>)

  /** Every served-tree path as a URL under the base. */
  function FileUrls(base: string, files: seq<string>): (us: seq<string>)
    ensures |us| == |files|
    ensures forall i :: 0 <= i < |files| ==> us[i] == Urls.ResolveFile(base, files[i])
    decreases |files|
  {
    if |files| == 0 then [] else [Urls.ResolveFile(base, files[0])] + FileUrls(base, files[1..])
  }

  /** The claimed set after claiming `files` as well. */
  function Including(seen: set<string>, files: seq<string>): (r: set<string>)
    ensures forall f :: f in r <==> f in seen || f in files
  {
    seen + set f | f in files
  }

  /** Compiles one asset group. Files already claimed (`seen`) are skipped;
      `files` matches come first, then `versionedFiles` matches not already
      among them, each in listing order. */
  function ProcessAssetGroup(base: string, listing: seq<string>, g: AssetGroupConfig, seen: set<string>)
    : (r: AssetResult)
    ensures forall f :: f in r.files ==> f in listing && f !in seen
    ensures r.group.name == g.name
    ensures r.group.urls == FileUrls(base, r.files)
    ensures r.group.patterns == UrlPatterns(base, g.urls)
    ensures r.group.installMode == g.installMode.GetOr(DefaultMode)
    ensures r.group.updateMode == g.updateMode.GetOr(DefaultMode)
  {
    var plain := Files.SelectFiles(listing, g.files, seen);
    var versioned := Files.SelectFiles(listing, g.versionedFiles, Including(seen, plain));
    var files := plain + versioned;
    AssetResult(
      AssetGroup(
        g.name,
        g.installMode.GetOr(DefaultMode),
        g.updateMode.GetOr(DefaultMode),
        FileUrls(base, files),
        UrlPatterns(base, g.urls)),
      files)
  }

  /** A group claims exactly the listed, unclaimed files that its `files` or
      its `versionedFiles` select. */
  lemma AssetGroupFiles(base: string, listing: seq<string>, g: AssetGroupConfig, seen: set<string>)
    ensures var r := ProcessAssetGroup(base, listing, g, seen);
      forall f :: f in r.files <==>
        f in listing && f !in seen
        && (Files.GlobListMatches(g.files, f) || Files.GlobListMatches(g.versionedFiles, f))
  {
    var plain := Files.SelectFiles(listing, g.files, seen);
    var versioned := Files.SelectFiles(listing, g.versionedFiles, Including(seen, plain));
    assert ProcessAssetGroup(base, listing, g, seen).files == plain + versioned;
  }

  /** A group claims each file once when the listing has no duplicates. */
  lemma AssetGroupDistinct(base: string, listing: seq<string>, g: AssetGroupConfig, seen: set<string>)
    requires Files.Distinct(listing)
    ensures Files.Distinct(ProcessAssetGroup(base, listing, g, seen).files)
  {
    var plain := Files.SelectFiles(listing, g.files, seen);
    var versioned := Files.SelectFiles(listing, g.versionedFiles, Including(seen, plain));
    assert ProcessAssetGroup(base, listing, g, seen).files == plain + versioned;
    Files.DistinctAppend(plain, versioned);
  }

  /** A group's files are its `files` matches followed by its other
      matches, each part in listing order. */
  lemma AssetGroupOrder(base: string, listing: seq<string>, g: AssetGroupConfig, seen: set<string>)
    ensures var r := ProcessAssetGroup(base, listing, g, seen);
      forall i, j :: 0 <= i < j < |r.files| && Files.GlobListMatches(g.files, r.files[j]) ==>
        Files.GlobListMatches(g.files, r.files[i])
    ensures var r := ProcessAssetGroup(base, listing, g, seen);
      exists k :: 0 <= k <= |r.files|
        && Files.SubsequenceOf(r.files[..k], listing) && Files.SubsequenceOf(r.files[k..], listing)
        && (forall i :: 0 <= i < k ==> Files.GlobListMatches(g.files, r.files[i]))
        && (forall i :: k <= i < |r.files| ==> !Files.GlobListMatches(g.files, r.files[i]))
  {
    var plain := Files.SelectFiles(listing, g.files, seen);
    var versioned := Files.SelectFiles(listing, g.versionedFiles, Including(seen, plain));
    var files := plain + versioned;
    assert ProcessAssetGroup(base, listing, g, seen).files == files;
    forall i | |plain| <= i < |files|
      ensures !Files.GlobListMatches(g.files, files[i])
    {
      assert files[i] == versioned[i - |plain|];
      assert files[i] !in plain;
    }
    var k := |plain|;
    assert files[..k] == plain && files[k..] == versioned;
  }

  /** Compiles asset groups in order; a file claimed by an earlier group is
      not claimed again. */
  function ProcessAssetGroups(base: string, listing: seq<string>, gs: seq<AssetGroupConfig>, seen: set<string>)
    : (rs: seq<AssetResult>)
    ensures |rs| == |gs|
    decreases |gs|
  {
    if |gs| == 0 then []
    else
      var first := ProcessAssetGroup(base, listing, gs[0], seen);
      [first] + ProcessAssetGroups(base, listing, gs[1..], Including(seen, first.files))
  }

  /** The first group is compiled against the files claimed so far, the
      rest against those and the first group's. */
  lemma AssetGroupsCons(base: string, listing: seq<string>, gs: seq<AssetGroupConfig>, seen: set<string>)
    requires |gs| > 0
    ensures var first := ProcessAssetGroup(base, listing, gs[0], seen);
      ProcessAssetGroups(base, listing, gs, seen)
      == [first] + ProcessAssetGroups(base, listing, gs[1..], Including(seen, first.files))
  {
  }

  /** Every group lists the URLs of the files it claimed. */
  lemma {:induction false} AssetGroupsUrls(base: string, listing: seq<string>, gs: seq<AssetGroupConfig>,
                                           seen: set<string>)
    ensures forall i :: 0 <= i < |gs| ==>
      ProcessAssetGroups(base, listing, gs, seen)[i].group.urls
      == FileUrls(base, ProcessAssetGroups(base, listing, gs, seen)[i].files)
    decreases |gs|
  {
    if |gs| > 0 {
      var first := ProcessAssetGroup(base, listing, gs[0], seen);
      var seen' := Including(seen, first.files);
      AssetGroupsUrls(base, listing, gs[1..], seen');
      AssetGroupsCons(base, listing, gs, seen);
      var rest := ProcessAssetGroups(base, listing, gs[1..], seen');
      var rs := [first] + rest;
      forall i | 0 <= i < |rs|
        ensures rs[i].group.urls == FileUrls(base, rs[i].files)
      {
        if i > 0 {
          assert rs[i] == rest[i - 1];
        }
      }
    }
  }

  /** Every claimed file is listed and was not claimed before. */
  lemma {:induction false} AssetGroupsClaims(base: string, listing: seq<string>, gs: seq<AssetGroupConfig>,
                                             seen: set<string>)
    ensures forall i, f :: 0 <= i < |gs| && f in ProcessAssetGroups(base, listing, gs, seen)[i].files ==>
      f in listing && f !in seen
    decreases |gs|
  {
    if |gs| > 0 {
      var first := ProcessAssetGroup(base, listing, gs[0], seen);
      var seen' := Including(seen, first.files);
      AssetGroupsClaims(base, listing, gs[1..], seen');
      AssetGroupsCons(base, listing, gs, seen);
      var rest := ProcessAssetGroups(base, listing, gs[1..], seen');
      var rs := [first] + rest;
      forall i, f | 0 <= i < |rs| && f in rs[i].files
        ensures f in listing && f !in seen
      {
        if i > 0 {
          assert rs[i] == rest[i - 1];
        }
      }
    }
  }

  /** No file is claimed by two groups. */
  lemma {:induction false} AssetGroupsDisjoint(base: string, listing: seq<string>, gs: seq<AssetGroupConfig>,
                                               seen: set<string>)
    ensures forall i, j, f :: 0 <= i < j < |gs| && f in ProcessAssetGroups(base, listing, gs, seen)[i].files ==>
      f !in ProcessAssetGroups(base, listing, gs, seen)[j].files
    decreases |gs|
  {
    if |gs| > 0 {
      var first := ProcessAssetGroup(base, listing, gs[0], seen);
      var seen' := Including(seen, first.files);
      AssetGroupsDisjoint(base, listing, gs[1..], seen');
      AssetGroupsClaims(base, listing, gs[1..], seen');
      AssetGroupsCons(base, listing, gs, seen);
      var rest := ProcessAssetGroups(base, listing, gs[1..], seen');
      var rs := [first] + rest;
      assert rs[1..] == rest;
      forall i, j, f | 0 <= i < j < |rs| && f in rs[i].files
        ensures f !in rs[j].files
      {
        assert rs[j] == rs[1..][j - 1];
        if i == 0 {
          assert f in seen';
        } else {
          assert rs[i] == rs[1..][i - 1];
        }
      }
    }
  }

  /** Whether a group's `files` or `versionedFiles` select a path. */
  predicate Selects(g: AssetGroupConfig, f: string) {
    Files.GlobListMatches(g.files, f) || Files.GlobListMatches(g.versionedFiles, f)
  }

  /** Index of the first group that selects `f`; `|gs|` when none does. */
  function FirstGroup(gs: seq<AssetGroupConfig>, f: string): (k: nat)
    ensures k <= |gs|
    decreases |gs|
  {
    if |gs| == 0 then 0
    else if Selects(gs[0], f) then 0
    else 1 + FirstGroup(gs[1..], f)
  }

  /** Group `i` holds `f` exactly when `f` is listed, was not claimed before
      and `i` is the first group that selects it. */
  predicate ClaimedByFirstMatch(base: string, listing: seq<string>, gs: seq<AssetGroupConfig>,
                                seen: set<string>, i: nat, f: string)
    requires i < |gs|
  {
    f in ProcessAssetGroups(base, listing, gs, seen)[i].files <==>
      f in listing && f !in seen && FirstGroup(gs, f) == i
  }

  /** A file goes to the first group that selects it, and only if it is
      listed and was not claimed before. */
  lemma {:induction false} AssetGroupsFirstMatch(base: string, listing: seq<string>,
                                                 gs: seq<AssetGroupConfig>, seen: set<string>)
    ensures forall i: nat, f :: i < |gs| ==> ClaimedByFirstMatch(base, listing, gs, seen, i, f)
    decreases |gs|, 1
  {
    forall i: nat, f | i < |gs|
      ensures ClaimedByFirstMatch(base, listing, gs, seen, i, f)
    {
      FirstClaim(base, listing, gs, seen, i, f);
    }
  }

  /** Group `i` against the answer for the groups after the first. */
  lemma FirstClaim(base: string, listing: seq<string>, gs: seq<AssetGroupConfig>, seen: set<string>,
                   i: nat, f: string)
    requires i < |gs|
    ensures ClaimedByFirstMatch(base, listing, gs, seen, i, f)
    decreases |gs|, 0
  {
    if i == 0 {
      FirstClaimHead(base, listing, gs, seen, f);
    } else {
      var seen' := Including(seen, ProcessAssetGroup(base, listing, gs[0], seen).files);
      AssetGroupsFirstMatch(base, listing, gs[1..], seen');
      FirstClaimTail(base, listing, gs, seen, i, f);
    }
  }

  /** The first group holds exactly the listed, unclaimed files it selects. */
  lemma FirstClaimHead(base: string, listing: seq<string>, gs: seq<AssetGroupConfig>, seen: set<string>,
                       f: string)
    requires 0 < |gs|
    ensures ClaimedByFirstMatch(base, listing, gs, seen, 0, f)
  {
    AssetGroupsCons(base, listing, gs, seen);
    AssetGroupFiles(base, listing, gs[0], seen);
  }

  /** A later group, from the same claim about the groups after the first. */
  lemma FirstClaimTail(base: string, listing: seq<string>, gs: seq<AssetGroupConfig>, seen: set<string>,
                       i: nat, f: string)
    requires 0 < i < |gs|
    requires ClaimedByFirstMatch(base, listing, gs[1..],
                                 Including(seen, ProcessAssetGroup(base, listing, gs[0], seen).files), i - 1, f)
    ensures ClaimedByFirstMatch(base, listing, gs, seen, i, f)
  {
    var first := ProcessAssetGroup(base, listing, gs[0], seen);
    var rest := ProcessAssetGroups(base, listing, gs[1..], Including(seen, first.files));
    AssetGroupsCons(base, listing, gs, seen);
    AssetGroupFiles(base, listing, gs[0], seen);
    assert ([first] + rest)[i] == rest[i - 1];
  }

  /** The first group that selects `f` is the one group that selects it
      while no group before it does. */
  lemma {:induction false} FirstGroupSpec(gs: seq<AssetGroupConfig>, f: string, i: nat)
    requires i < |gs|
    ensures FirstGroup(gs, f) == i <==> Selects(gs[i], f) && forall j :: 0 <= j < i ==> !Selects(gs[j], f)
    decreases i
  {
    if i > 0 {
      FirstGroupSpec(gs[1..], f, i - 1);
      assert gs[i] == gs[1..][i - 1];
      NoneSelectsCons(gs, f, i);
    }
  }

  /** No group before `i` selects `f` exactly when the first does not and
      no group of the rest before `i - 1` does. */
  lemma NoneSelectsCons(gs: seq<AssetGroupConfig>, f: string, i: nat)
    requires 0 < i < |gs|
    ensures (forall j :: 0 <= j < i ==> !Selects(gs[j], f))
        <==> !Selects(gs[0], f) && forall j :: 0 <= j < i - 1 ==> !Selects(gs[1..][j], f)
  {
    assert forall j :: 0 <= j < i - 1 ==> gs[1..][j] == gs[j + 1];
  }

  /** The files of the first `i + 1` groups are the first group's files,
      then those of the next `i`. */
  lemma ClaimedPrefixCons(first: AssetResult, rest: seq<AssetResult>, i: nat)
    requires 0 < i <= |rest| + 1
    ensures ClaimedFiles(([first] + rest)[..i]) == first.files + ClaimedFiles(rest[..i - 1])
  {
    assert ([first] + rest)[..i] == [first] + rest[..i - 1];
    assert ([first] + rest[..i - 1])[1..] == rest[..i - 1];
  }

  lemma IncludingAppend(seen: set<string>, a: seq<string>, b: seq<string>)
    ensures Including(Including(seen, a), b) == Including(seen, a + b)
  {
  }

  /** Each group is compiled against the files the groups before it
      claimed. */
  lemma {:induction false} AssetGroupsEach(base: string, listing: seq<string>,
                                           gs: seq<AssetGroupConfig>, seen: set<string>)
    ensures var rs := ProcessAssetGroups(base, listing, gs, seen);
      forall i :: 0 <= i < |gs| ==>
        rs[i] == ProcessAssetGroup(base, listing, gs[i], Including(seen, ClaimedFiles(rs[..i])))
    decreases |gs|
  {
    if |gs| > 0 {
      var first := ProcessAssetGroup(base, listing, gs[0], seen);
      var seen' := Including(seen, first.files);
      AssetGroupsEach(base, listing, gs[1..], seen');
      AssetGroupsCons(base, listing, gs, seen);
      var rest := ProcessAssetGroups(base, listing, gs[1..], seen');
      var rs := [first] + rest;
      forall i | 0 <= i < |gs|
        ensures rs[i] == ProcessAssetGroup(base, listing, gs[i], Including(seen, ClaimedFiles(rs[..i])))
      {
        if i == 0 {
          assert rs[..0] == [];
          assert Including(seen, ClaimedFiles(rs[..0])) == seen;
        } else {
          assert rs[i] == rest[i - 1] && gs[i] == gs[1..][i - 1];
          ClaimedPrefixCons(first, rest, i);
          IncludingAppend(seen, first.files, ClaimedFiles(rest[..i - 1]));
        }
      }
    }
  }

  /** Each compiled group carries its configuration's name, modes (or the
      default) and URL patterns, and the URLs of the files it claimed. */
  lemma AssetGroupsFields(base: string, listing: seq<string>, gs: seq<AssetGroupConfig>, seen: set<string>)
    ensures var groups := Groups(ProcessAssetGroups(base, listing, gs, seen));
      forall i :: 0 <= i < |gs| ==>
        && groups[i].name == gs[i].name
        && groups[i].installMode == gs[i].installMode.GetOr(DefaultMode)
        && groups[i].updateMode == gs[i].updateMode.GetOr(DefaultMode)
        && groups[i].patterns == UrlPatterns(base, gs[i].urls)
        && groups[i].urls == FileUrls(base, ProcessAssetGroups(base, listing, gs, seen)[i].files)
  {
    AssetGroupsEach(base, listing, gs, seen);
  }

  /** Under a rooted listing, a listed file's URL is among the URLs of some
      listed files exactly when the file is among them. */
  lemma ListedUrl(base: string, listing: seq<string>, files: seq<string>, f: string)
    requires Rooted(listing) && f in listing
    requires forall g :: g in files ==> g in listing
    ensures Urls.ResolveFile(base, f) in FileUrls(base, files) <==> f in files
  {
    var us := FileUrls(base, files);
    forall k | 0 <= k < |files| && files[k] != f
      ensures us[k] != Urls.ResolveFile(base, f)
    {
      ResolveFileDistinct(base, files[k], f);
    }
    if f in files {
      var k :| 0 <= k < |files| && files[k] == f;
      assert us[k] == Urls.ResolveFile(base, f);
    }
  }

  /** Group `i` lists the URL of listed file `f` exactly when `i` is the
      first group that selects `f`. */
  predicate UrlByFirstMatch(base: string, listing: seq<string>, gs: seq<AssetGroupConfig>, i: nat, f: string)
    requires i < |gs|
  {
    Urls.ResolveFile(base, f) in Groups(ProcessAssetGroups(base, listing, gs, {}))[i].urls <==>
      FirstGroup(gs, f) == i
  }

  lemma UrlFirstMatch(base: string, listing: seq<string>, gs: seq<AssetGroupConfig>, i: nat, f: string)
    requires Rooted(listing) && f in listing && i < |gs|
    ensures UrlByFirstMatch(base, listing, gs, i, f)
  {
    var rs := ProcessAssetGroups(base, listing, gs, {});
    AssetGroupsFirstMatch(base, listing, gs, {});
    assert ClaimedByFirstMatch(base, listing, gs, {}, i, f);
    AssetGroupsClaims(base, listing, gs, {});
    AssetGroupsUrls(base, listing, gs, {});
    ListedUrl(base, listing, rs[i].files, f);
  }

  /** Under a rooted listing, each listed file's URL is in the first group
      that selects it and in no other, and every URL a group lists is the
      URL of a listed file; so no URL is in two groups. */
  lemma {:induction false} AssetGroupsUrlClaims(base: string, listing: seq<string>, gs: seq<AssetGroupConfig>)
    requires Rooted(listing)
    ensures forall i: nat, f :: i < |gs| && f in listing ==> UrlByFirstMatch(base, listing, gs, i, f)
    ensures var groups := Groups(ProcessAssetGroups(base, listing, gs, {}));
      forall i, j, u :: 0 <= i < j < |gs| && u in groups[i].urls ==> u !in groups[j].urls
  {
    var rs := ProcessAssetGroups(base, listing, gs, {});
    var groups := Groups(rs);
    forall i: nat, f | i < |gs| && f in listing
      ensures UrlByFirstMatch(base, listing, gs, i, f)
    {
      UrlFirstMatch(base, listing, gs, i, f);
    }
    forall i, j, u | 0 <= i < j < |gs| && u in groups[i].urls
      ensures u !in groups[j].urls
    {
      UrlInOneGroup(base, listing, gs, i, j, u);
    }
  }

  lemma UrlInOneGroup(base: string, listing: seq<string>, gs: seq<AssetGroupConfig>, i: nat, j: nat, u: string)
    requires Rooted(listing) && i < j < |gs|
    requires u in Groups(ProcessAssetGroups(base, listing, gs, {}))[i].urls
    ensures u !in Groups(ProcessAssetGroups(base, listing, gs, {}))[j].urls
  {
    var rs := ProcessAssetGroups(base, listing, gs, {});
    AssetGroupsUrls(base, listing, gs, {});
    AssetGroupsClaims(base, listing, gs, {});
    var us := FileUrls(base, rs[i].files);
    var k :| 0 <= k < |us| && us[k] == u;
    var f := rs[i].files[k];
    UrlFirstMatch(base, listing, gs, i, f);
    UrlFirstMatch(base, listing, gs, j, f);
  }

  /** The compiled groups, as the manifest holds them: each carries its
      configuration's name, modes and patterns; under a rooted listing each
      listed file's URL is in the first group that selects it and no URL
      is in two groups. */
  lemma CompiledGroups(base: string, listing: seq<string>, gs: seq<AssetGroupConfig>, groups: seq<AssetGroup>)
    requires groups == Groups(ProcessAssetGroups(base, listing, gs, {}))
    ensures forall i :: 0 <= i < |gs| ==>
      && groups[i].name == gs[i].name
      && groups[i].installMode == gs[i].installMode.GetOr(DefaultMode)
      && groups[i].updateMode == gs[i].updateMode.GetOr(DefaultMode)
      && groups[i].patterns == UrlPatterns(base, gs[i].urls)
    ensures Rooted(listing) ==>
      && (forall i, f :: 0 <= i < |gs| && f in listing ==>
            (Urls.ResolveFile(base, f) in groups[i].urls <==> FirstGroup(gs, f) == i))
      && (forall i, j, u :: 0 <= i < j < |gs| && u in groups[i].urls ==> u !in groups[j].urls)
  {
    AssetGroupsFields(base, listing, gs, {});
    if Rooted(listing) {
      AssetGroupsUrlClaims(base, listing, gs);
      forall i, f | 0 <= i < |gs| && f in listing
        ensures Urls.ResolveFile(base, f) in groups[i].urls <==> FirstGroup(gs, f) == i
      {
        assert UrlByFirstMatch(base, listing, gs, i, f);
      }
    }
  }

  /** All claimed paths, group by group. */
  function ClaimedFiles(rs: seq<AssetResult>): (fs: seq<string>)
    ensures forall f :: f in fs <==> exists i :: 0 <= i < |rs| && f in rs[i].files
    decreases |rs|
  {
    if |rs| == 0 then []
    else
      var rest := ClaimedFiles(rs[1..]);
      rs[0].files + rest
  }

  function Groups(rs: seq<AssetResult>): (gs: seq<AssetGroup>)
    ensures |gs| == |rs|
    ensures forall i :: 0 <= i < |rs| ==> gs[i] == rs[i].group
    decreases |rs|
  {
    if |rs| == 0 then [] else [rs[0].group] + Groups(rs[1..])
  }

  // ---------------------------------------------------------------------
  // Hash table

  /** Digest of every claimed file, keyed by its URL under the base. A file
      the tree cannot read aborts the whole compilation. */
  function HashTable(fs: Files.FileTree, base: string, hash: string -> string, files: seq<string>)
    : (r: Result<map<string, string>>)
    decreases |files|
  {
    if |files| == 0 then Ok(map[])
    else
      var f := files[|files| - 1];
      var prefix := files[..|files| - 1];
      match HashTable(fs, base, hash, prefix)
      case Err(e) => Err(e)
      case Ok(table) =>
        match Files.Read(fs, f)
        case None => Err(UnreadableFile(f))
        case Some(content) => Ok(table[Urls.ResolveFile(base, f) := hash(content)])
  }

  /** One step of the table: the last claimed file is read and hashed
      after the ones before it. */
  lemma HashTableLast(fs: Files.FileTree, base: string, hash: string -> string, files: seq<string>)
    requires |files| > 0
    ensures var f := files[|files| - 1];
            var p := HashTable(fs, base, hash, files[..|files| - 1]);
            HashTable(fs, base, hash, files)
            == if p.Err? then p
               else if Files.Read(fs, f).None? then Err(UnreadableFile(f))
               else Ok(p.value[Urls.ResolveFile(base, f) := hash(Files.Read(fs, f).value)])
  {
  }

  /** The URL set of a list of files grows by the URL of an appended file. */
  lemma UrlSetSnoc(base: string, prefix: seq<string>, f: string)
    ensures (set g | g in prefix + [f] :: Urls.ResolveFile(base, g))
         == (set g | g in prefix :: Urls.ResolveFile(base, g)) + {Urls.ResolveFile(base, f)}
  {
  }

  /** Storing the digest of an appended file adds its URL to the keys. */
  lemma KeysStep(base: string, prefix: seq<string>, f: string, table: map<string, string>, digest: string)
    requires table.Keys == set g | g in prefix :: Urls.ResolveFile(base, g)
    ensures table[Urls.ResolveFile(base, f) := digest].Keys
         == set g | g in prefix + [f] :: Urls.ResolveFile(base, g)
  {
    UrlSetSnoc(base, prefix, f);
  }

  /** The table is built exactly when every claimed file can be read. */
  lemma {:induction false} HashTableOk(fs: Files.FileTree, base: string, hash: string -> string,
                                       files: seq<string>)
    ensures HashTable(fs, base, hash, files).Ok? <==> forall f :: f in files ==> f in Files.Listing(fs)
    decreases |files|
  {
    if |files| > 0 {
      var f := files[|files| - 1];
      var prefix := files[..|files| - 1];
      assert files == prefix + [f];
      HashTableOk(fs, base, hash, prefix);
      HashTableLast(fs, base, hash, files);
      assert (forall g :: g in files ==> g in Files.Listing(fs))
        <==> (forall g :: g in prefix ==> g in Files.Listing(fs)) && f in Files.Listing(fs);
    }
  }

  /** A built table has the claimed files' URLs as its keys. */
  lemma {:induction false} HashTableKeys(fs: Files.FileTree, base: string, hash: string -> string,
                                         files: seq<string>)
    ensures HashTable(fs, base, hash, files).Ok? ==>
      HashTable(fs, base, hash, files).value.Keys == set f | f in files :: Urls.ResolveFile(base, f)
    decreases |files|
  {
    if |files| > 0 && HashTable(fs, base, hash, files).Ok? {
      var f := files[|files| - 1];
      var prefix := files[..|files| - 1];
      assert files == prefix + [f];
      HashTableKeys(fs, base, hash, prefix);
      HashTableLast(fs, base, hash, files);
      KeysStep(base, prefix, f, HashTable(fs, base, hash, prefix).value, hash(Files.Read(fs, f).value));
    }
  }

  /** A failed table names an unreadable claimed file. */
  lemma {:induction false} HashTableError(fs: Files.FileTree, base: string, hash: string -> string,
                                          files: seq<string>)
    ensures HashTable(fs, base, hash, files).Err? ==>
      HashTable(fs, base, hash, files).error.UnreadableFile? &&
      HashTable(fs, base, hash, files).error.path in files
    decreases |files|
  {
    if |files| > 0 {
      var prefix := files[..|files| - 1];
      assert files == prefix + [files[|files| - 1]];
      HashTableError(fs, base, hash, prefix);
      HashTableLast(fs, base, hash, files);
    }
  }

  /** The table is built exactly when every claimed file can be read; its
      keys are then the claimed files' URLs, and otherwise the error names
      an unreadable claimed file. */
  lemma HashTableShape(fs: Files.FileTree, base: string, hash: string -> string, files: seq<string>)
    ensures HashTable(fs, base, hash, files).Ok? <==> forall f :: f in files ==> f in Files.Listing(fs)
    ensures HashTable(fs, base, hash, files).Ok? ==>
      HashTable(fs, base, hash, files).value.Keys == set f | f in files :: Urls.ResolveFile(base, f)
    ensures HashTable(fs, base, hash, files).Err? ==>
      HashTable(fs, base, hash, files).error.UnreadableFile? &&
      HashTable(fs, base, hash, files).error.path in files
  {
    HashTableOk(fs, base, hash, files);
    HashTableKeys(fs, base, hash, files);
    HashTableError(fs, base, hash, files);
  }

  /** Served-tree paths are rooted (`/index.html`). */
  predicate Rooted(files: seq<string>) {
    forall f :: f in files ==> Urls.StartsWithSlash(f)
  }

  /** The digests of a table hold for the files it was built from. */
  predicate DigestsHold(fs: Files.FileTree, base: string, hash: string -> string,
                        files: seq<string>, table: map<string, string>) {
    forall f :: f in files ==>
      && Files.Read(fs, f).Some?
      && Urls.ResolveFile(base, f) in table
      && table[Urls.ResolveFile(base, f)] == hash(Files.Read(fs, f).value)
  }

  /** After the last file's digest is stored, any one of the files has
      its digest in the table: the last one just stored, an earlier one kept
      because its URL differs. */
  lemma DigestOf(fs: Files.FileTree, base: string, hash: string -> string, prefix: seq<string>,
                 f: string, table: map<string, string>, whole: map<string, string>, g: string)
    requires Files.Read(fs, f).Some? && DigestsHold(fs, base, hash, prefix, table)
    requires whole == table[Urls.ResolveFile(base, f) := hash(Files.Read(fs, f).value)]
    requires Urls.StartsWithSlash(g) && Urls.StartsWithSlash(f)
    requires g in prefix || g == f
    ensures Files.Read(fs, g).Some? && Urls.ResolveFile(base, g) in whole
    ensures whole[Urls.ResolveFile(base, g)] == hash(Files.Read(fs, g).value)
  {
    if g != f {
      ResolveFileDistinct(base, g, f);
    }
  }

  /** Adding the last file's digest keeps the earlier files' digests. */
  lemma DigestsStep(fs: Files.FileTree, base: string, hash: string -> string,
                    files: seq<string>, table: map<string, string>, whole: map<string, string>)
    requires |files| > 0 && Rooted(files) && Files.Read(fs, files[|files| - 1]).Some?
    requires DigestsHold(fs, base, hash, files[..|files| - 1], table)
    requires whole == table[Urls.ResolveFile(base, files[|files| - 1])
                            := hash(Files.Read(fs, files[|files| - 1]).value)]
    ensures DigestsHold(fs, base, hash, files, whole)
  {
    var f := files[|files| - 1];
    var prefix := files[..|files| - 1];
    forall g | g in files
      ensures Files.Read(fs, g).Some? && Urls.ResolveFile(base, g) in whole
      ensures whole[Urls.ResolveFile(base, g)] == hash(Files.Read(fs, g).value)
    {
      var i :| 0 <= i < |files| && files[i] == g;
      if i < |files| - 1 {
        assert prefix[i] == g;
      }
      DigestOf(fs, base, hash, prefix, f, table, whole, g);
    }
  }

  /** The digest stored under a rooted file's URL is the hash of that file's
      content. */
  lemma {:induction false} HashTableDigests(fs: Files.FileTree, base: string, hash: string -> string,
                                            files: seq<string>)
    requires HashTable(fs, base, hash, files).Ok?
    requires Rooted(files)
    ensures DigestsHold(fs, base, hash, files, HashTable(fs, base, hash, files).value)
    decreases |files|
  {
    if |files| > 0 {
      var prefix := files[..|files| - 1];
      DigestsPrefix(fs, base, hash, files);
      HashTableDigests(fs, base, hash, prefix);
      DigestsSnoc(fs, base, hash, files);
    }
  }

  /** A table that is built was built from a table of the files before the
      last one. */
  lemma DigestsPrefix(fs: Files.FileTree, base: string, hash: string -> string, files: seq<string>)
    requires |files| > 0 && HashTable(fs, base, hash, files).Ok? && Rooted(files)
    ensures HashTable(fs, base, hash, files[..|files| - 1]).Ok? && Rooted(files[..|files| - 1])
  {
    HashTableLast(fs, base, hash, files);
  }

  /** The digests of the files before the last one, and the last one's own. */
  lemma DigestsSnoc(fs: Files.FileTree, base: string, hash: string -> string, files: seq<string>)
    requires |files| > 0 && HashTable(fs, base, hash, files).Ok? && Rooted(files)
    requires HashTable(fs, base, hash, files[..|files| - 1]).Ok?
    requires DigestsHold(fs, base, hash, files[..|files| - 1],
                         HashTable(fs, base, hash, files[..|files| - 1]).value)
    ensures DigestsHold(fs, base, hash, files, HashTable(fs, base, hash, files).value)
  {
    HashTableLast(fs, base, hash, files);
    DigestsStep(fs, base, hash, files, HashTable(fs, base, hash, files[..|files| - 1]).value,
                HashTable(fs, base, hash, files).value);
  }

  /** Two different rooted paths have different URLs under the base. */
  lemma ResolveFileDistinct(base: string, g: string, f: string)
    requires Urls.StartsWithSlash(g) && Urls.StartsWithSlash(f) && g != f
    ensures Urls.ResolveFile(base, g) != Urls.ResolveFile(base, f)
  {
    var p := Urls.DropTrailingSlash(base) + "/";
    assert Urls.ResolveFile(base, g) == p + g[1..];
    assert Urls.ResolveFile(base, f) == p + f[1..];
    assert g[1..] == (p + g[1..])[|p|..];
    assert f[1..] == (p + f[1..])[|p|..];
    assert g == [g[0]] + g[1..] && f == [f[0]] + f[1..];
  }

  /** Among rooted paths, the URL under the base identifies the path. */
  lemma ResolveFileInjective(base: string, files: seq<string>, f: string)
    requires Rooted(files) && f in files
    ensures forall g :: g in files && Urls.ResolveFile(base, g) == Urls.ResolveFile(base, f) ==> g == f
  {
    forall g | g in files && g != f
      ensures Urls.ResolveFile(base, g) != Urls.ResolveFile(base, f)
    {
      ResolveFileDistinct(base, g, f);
    }
  }

  // ---------------------------------------------------------------------
  // Data groups

  /** Compiles one data group; its two durations must parse. */
  function ProcessDataGroup(base: string, g: DataGroupConfig): (r: Result<DataGroup>)
    ensures r.Ok? <==> Duration.ParseDuration(g.maxAge).Ok? && Duration.ParseDuration(g.timeout).Ok?
    ensures r.Err? ==> r.error == InvalidDuration(
      if Duration.ParseDuration(g.maxAge).Err? then g.maxAge else g.timeout)
    ensures r.Ok? ==> (
      && r.value.name == g.name
      && r.value.strategy == g.strategy.GetOr(DefaultStrategy)
      && r.value.maxSize == g.maxSize && r.value.version == DataGroupVersion
      && r.value.maxAge == Duration.ParseDuration(g.maxAge).value
      && r.value.timeoutMs == Duration.ParseDuration(g.timeout).value
      && r.value.patterns == UrlPatterns(base, g.urls))
  {
    var maxAge :- Duration.ParseDuration(g.maxAge);
    var timeout :- Duration.ParseDuration(g.timeout);
    Ok(DataGroup(g.name, UrlPatterns(base, g.urls), g.strategy.GetOr(DefaultStrategy),
                 g.maxSize, maxAge, timeout, DataGroupVersion))
  }

  /** Compiles data groups in order; the first bad duration aborts. */
  function ProcessDataGroups(base: string, gs: seq<DataGroupConfig>): (r: Result<seq<DataGroup>>)
    ensures r.Err? ==> r.error.InvalidDuration?
    ensures r.Ok? ==> |r.value| == |gs|
    decreases |gs|
  {
    if |gs| == 0 then Ok([])
    else
      var first :- ProcessDataGroup(base, gs[0]);
      var rest :- ProcessDataGroups(base, gs[1..]);
      Ok([first] + rest)
  }

  /** The first data group and then the rest. */
  lemma DataGroupsCons(base: string, gs: seq<DataGroupConfig>)
    requires |gs| > 0
    ensures var first := ProcessDataGroup(base, gs[0]);
            var rest := ProcessDataGroups(base, gs[1..]);
            ProcessDataGroups(base, gs)
            == if first.Err? then Err(first.error)
               else if rest.Err? then Err(rest.error)
               else Ok([first.value] + rest.value)
  {
  }

  /** The data groups compile exactly when each one does. */
  lemma {:induction false} DataGroupsOk(base: string, gs: seq<DataGroupConfig>)
    ensures ProcessDataGroups(base, gs).Ok? <==> forall i :: 0 <= i < |gs| ==> ProcessDataGroup(base, gs[i]).Ok?
    decreases |gs|
  {
    if |gs| > 0 {
      DataGroupsOk(base, gs[1..]);
      DataGroupsCons(base, gs);
      EachCompilesCons(base, gs);
    }
  }

  /** A failure is the error of the first data group that fails to
      compile: every group before it compiles. */
  lemma {:induction false} DataGroupsFirstError(base: string, gs: seq<DataGroupConfig>)
    ensures ProcessDataGroups(base, gs).Err? ==>
      exists k :: 0 <= k < |gs| && ProcessDataGroup(base, gs[k]).Err?
        && ProcessDataGroups(base, gs).error == ProcessDataGroup(base, gs[k]).error
        && forall j :: 0 <= j < k ==> ProcessDataGroup(base, gs[j]).Ok?
    decreases |gs|
  {
    if |gs| > 0 && ProcessDataGroups(base, gs).Err? {
      DataGroupsCons(base, gs);
      if ProcessDataGroup(base, gs[0]).Ok? {
        DataGroupsFirstError(base, gs[1..]);
        var k :| 0 <= k < |gs[1..]| && ProcessDataGroup(base, gs[1..][k]).Err?
          && ProcessDataGroups(base, gs[1..]).error == ProcessDataGroup(base, gs[1..][k]).error
          && forall j :: 0 <= j < k ==> ProcessDataGroup(base, gs[1..][j]).Ok?;
        FirstErrorLater(base, gs, k);
      }
    }
  }

  /** When the first data group compiles, the first failure of the rest at
      `k` is the first failure of all at `k + 1`. */
  lemma FirstErrorLater(base: string, gs: seq<DataGroupConfig>, k: nat)
    requires 0 < |gs| && ProcessDataGroup(base, gs[0]).Ok?
    requires k < |gs| - 1 && ProcessDataGroup(base, gs[1..][k]).Err?
    requires ProcessDataGroups(base, gs[1..]).Err?
    requires ProcessDataGroups(base, gs[1..]).error == ProcessDataGroup(base, gs[1..][k]).error
    requires forall j :: 0 <= j < k ==> ProcessDataGroup(base, gs[1..][j]).Ok?
    ensures ProcessDataGroup(base, gs[k + 1]).Err?
    ensures ProcessDataGroups(base, gs).Err?
    ensures ProcessDataGroups(base, gs).error == ProcessDataGroup(base, gs[k + 1]).error
    ensures forall j :: 0 <= j < k + 1 ==> ProcessDataGroup(base, gs[j]).Ok?
  {
    DataGroupsCons(base, gs);
    assert gs[k + 1] == gs[1..][k];
    assert forall j :: 1 <= j < k + 1 ==> gs[j] == gs[1..][j - 1];
  }

  /** Every group compiles when the first one does and every later one does. */
  lemma EachCompilesCons(base: string, gs: seq<DataGroupConfig>)
    requires |gs| > 0
    ensures (forall i :: 0 <= i < |gs| ==> ProcessDataGroup(base, gs[i]).Ok?)
        <==> ProcessDataGroup(base, gs[0]).Ok?
             && forall i :: 0 <= i < |gs[1..]| ==> ProcessDataGroup(base, gs[1..][i]).Ok?
  {
    assert forall i :: 1 <= i < |gs| ==> gs[1..][i - 1] == gs[i];
  }

  /** Each compiled data group is that group compiled on its own. */
  lemma {:induction false} DataGroupsValues(base: string, gs: seq<DataGroupConfig>)
    ensures ProcessDataGroups(base, gs).Ok? ==>
      forall i :: 0 <= i < |gs| ==> Ok(ProcessDataGroups(base, gs).value[i]) == ProcessDataGroup(base, gs[i])
    decreases |gs|
  {
    if |gs| > 0 && ProcessDataGroups(base, gs).Ok? {
      DataGroupsValues(base, gs[1..]);
      DataGroupsCons(base, gs);
      var r := ProcessDataGroups(base, gs).value;
      var rest := ProcessDataGroups(base, gs[1..]).value;
      assert r[1..] == rest;
      forall i | 0 <= i < |gs|
        ensures Ok(r[i]) == ProcessDataGroup(base, gs[i])
      {
        if i > 0 {
          assert r[i] == rest[i - 1] && gs[i] == gs[1..][i - 1];
        }
      }
    }
  }

  /** The data groups compile exactly when each one does, and then each
      entry is that group compiled on its own. */
  lemma DataGroupsEach(base: string, gs: seq<DataGroupConfig>)
    ensures ProcessDataGroups(base, gs).Ok? <==> forall i :: 0 <= i < |gs| ==> ProcessDataGroup(base, gs[i]).Ok?
    ensures ProcessDataGroups(base, gs).Ok? ==>
      forall i :: 0 <= i < |gs| ==> Ok(ProcessDataGroups(base, gs).value[i]) == ProcessDataGroup(base, gs[i])
  {
    DataGroupsOk(base, gs);
    DataGroupsValues(base, gs);
  }

  lemma ClaimedAreListed(rs: seq<AssetResult>, listing: seq<string>)
    requires forall i, f :: 0 <= i < |rs| && f in rs[i].files ==> f in listing
    ensures forall f :: f in ClaimedFiles(rs) ==> f in listing
  {
  }

  /** Every URL some asset group lists. */
  function GroupUrls(gs: seq<AssetGroup>): (us: set<string>)
    ensures forall u :: u in us <==> exists i :: 0 <= i < |gs| && u in gs[i].urls
    decreases |gs|
  {
    if |gs| == 0 then {}
    else
      var rest := GroupUrls(gs[1..]);
      assert forall u :: u in rest ==> exists i :: 0 <= i < |gs| && u in gs[i].urls by {
        forall u | u in rest ensures exists i :: 0 <= i < |gs| && u in gs[i].urls {
          var i :| 0 <= i < |gs[1..]| && u in gs[1..][i].urls;
          assert gs[i + 1] == gs[1..][i];
        }
      }
      (set u | u in gs[0].urls) + rest
  }

  /** The URLs of a list of files, as a set. */
  lemma {:induction false} FileUrlsAsSet(base: string, files: seq<string>)
    ensures (set u | u in FileUrls(base, files)) == set f | f in files :: Urls.ResolveFile(base, f)
  {
    var us := FileUrls(base, files);
    forall u | u in us ensures u in set f | f in files :: Urls.ResolveFile(base, f) {
      var k :| 0 <= k < |us| && us[k] == u;
      assert files[k] in files;
    }
    forall f | f in files ensures Urls.ResolveFile(base, f) in us {
      var k :| 0 <= k < |files| && files[k] == f;
      assert us[k] == Urls.ResolveFile(base, f);
    }
  }

  /** The URLs of the claimed files are exactly the URLs the groups list. */
  lemma {:induction false} KeysAreGroupUrls(base: string, rs: seq<AssetResult>)
    requires forall i :: 0 <= i < |rs| ==> rs[i].group.urls == FileUrls(base, rs[i].files)
    ensures (set f | f in ClaimedFiles(rs) :: Urls.ResolveFile(base, f)) == GroupUrls(Groups(rs))
    decreases |rs|
  {
    if |rs| > 0 {
      KeysAreGroupUrls(base, rs[1..]);
      FileUrlsAsSet(base, rs[0].files);
      assert Groups(rs)[1..] == Groups(rs[1..]);
      assert ClaimedFiles(rs) == rs[0].files + ClaimedFiles(rs[1..]);
      var all := set f | f in ClaimedFiles(rs) :: Urls.ResolveFile(base, f);
      var head := set f | f in rs[0].files :: Urls.ResolveFile(base, f);
      var tail := set f | f in ClaimedFiles(rs[1..]) :: Urls.ResolveFile(base, f);
      assert all == head + tail;
    }
  }

  // ---------------------------------------------------------------------
  // The whole manifest

  /** Compiles the asset groups and digests the files they claim. */
  function AssetPass(fs: Files.FileTree, base: string, hash: string -> string, gs: seq<AssetGroupConfig>)
    : Result<(seq<AssetGroup>, map<string, string>)>
  {
    var assets := ProcessAssetGroups(base, Files.Listing(fs), gs, {});
    var table :- HashTable(fs, base, hash, ClaimedFiles(assets));
    Ok((Groups(assets), table))
  }

  /** Every claimed file comes from the listing, so none is unreadable and
      the pass succeeds: one group per configured group, and a table keyed
      by exactly the URLs the groups list. */
  lemma AssetPassOk(fs: Files.FileTree, base: string, hash: string -> string, gs: seq<AssetGroupConfig>)
    ensures AssetPass(fs, base, hash, gs).Ok?
    ensures |AssetPass(fs, base, hash, gs).value.0| == |gs|
    ensures AssetPass(fs, base, hash, gs).value.1.Keys == GroupUrls(AssetPass(fs, base, hash, gs).value.0)
  {
    var listing := Files.Listing(fs);
    var assets := ProcessAssetGroups(base, listing, gs, {});
    AssetGroupsUrls(base, listing, gs, {});
    AssetGroupsClaims(base, listing, gs, {});
    assert forall i, f :: 0 <= i < |assets| && f in assets[i].files ==> f in listing;
    ClaimedAreListed(assets, listing);
    HashTableShape(fs, base, hash, ClaimedFiles(assets));
    KeysAreGroupUrls(base, assets);
  }

  /** Under a rooted listing, the table stores for every listed file it
      keys the hash of that file's content. */
  lemma AssetPassDigests(fs: Files.FileTree, base: string, hash: string -> string, gs: seq<AssetGroupConfig>)
    requires Rooted(Files.Listing(fs))
    ensures AssetPass(fs, base, hash, gs).Ok?
    ensures var table := AssetPass(fs, base, hash, gs).value.1;
      forall f :: f in Files.Listing(fs) && Urls.ResolveFile(base, f) in table ==>
        table[Urls.ResolveFile(base, f)] == hash(Files.Read(fs, f).value)
  {
    AssetPassOk(fs, base, hash, gs);
    var listing := Files.Listing(fs);
    var assets := ProcessAssetGroups(base, listing, gs, {});
    var claimed := ClaimedFiles(assets);
    var table := HashTable(fs, base, hash, claimed).value;
    AssetGroupsClaims(base, listing, gs, {});
    ClaimedAreListed(assets, listing);
    HashTableShape(fs, base, hash, claimed);
    HashTableDigests(fs, base, hash, claimed);
    forall f | f in listing && Urls.ResolveFile(base, f) in table
      ensures table[Urls.ResolveFile(base, f)] == hash(Files.Read(fs, f).value)
    {
      var g :| g in claimed && Urls.ResolveFile(base, g) == Urls.ResolveFile(base, f);
      ResolveFileInjective(base, listing, f);
    }
  }

  /** Compiles the configuration against the file tree `fs` under `base`;
      `hash` is the content digest. Only a bad duration makes it fail. */
  function Process<A>(config: Config<A>, fs: Files.FileTree, base: string, hash: string -> string)
    : (r: Result<Manifest<A>>)
    ensures r.Ok? <==> ProcessDataGroups(base, config.dataGroups.GetOr([])).Ok?
    ensures r.Err? ==> r.error.InvalidDuration?
  {
    AssetPassOk(fs, base, hash, config.assetGroups.GetOr([]));
    var assets := AssetPass(fs, base, hash, config.assetGroups.GetOr([])).value;
    var dataGroups :- ProcessDataGroups(base, config.dataGroups.GetOr([]));
    Ok(Manifest(
      ConfigVersion,
      config.appData,
      Urls.ResolveFile(base, config.index),
      assets.0,
      dataGroups,
      NavigationUrls(base, config.navigationUrls),
      assets.1))
  }

  /** A compiled manifest: schema version 1, the application data passed
      through, the index under the base, one compiled group per configured
      group, the navigation rules (or the defaults), and a table keyed by
      exactly the asset groups' URLs holding each listed file's digest. */
  lemma ProcessManifest<A>(config: Config<A>, fs: Files.FileTree, base: string, hash: string -> string)
    requires Process(config, fs, base, hash).Ok?
    ensures var m := Process(config, fs, base, hash).value;
      && m.configVersion == ConfigVersion
      && m.appData == config.appData
      && m.index == Urls.ResolveFile(base, config.index)
      && |m.assetGroups| == |config.assetGroups.GetOr([])|
      && |m.dataGroups| == |config.dataGroups.GetOr([])|
      && m.dataGroups == ProcessDataGroups(base, config.dataGroups.GetOr([])).value
      && m.navigationUrls == NavigationUrls(base, config.navigationUrls)
      && m.hashTable.Keys == GroupUrls(m.assetGroups)
    ensures var m := Process(config, fs, base, hash).value;
      Rooted(Files.Listing(fs)) ==>
        forall f :: f in Files.Listing(fs) && Urls.ResolveFile(base, f) in m.hashTable ==>
          m.hashTable[Urls.ResolveFile(base, f)] == hash(Files.Read(fs, f).value)
    ensures var m := Process(config, fs, base, hash).value;
      var gs := config.assetGroups.GetOr([]);
      && m.assetGroups == Groups(ProcessAssetGroups(base, Files.Listing(fs), gs, {}))
      && forall i :: 0 <= i < |gs| ==>
        && m.assetGroups[i].name == gs[i].name
        && m.assetGroups[i].installMode == gs[i].installMode.GetOr(DefaultMode)
        && m.assetGroups[i].updateMode == gs[i].updateMode.GetOr(DefaultMode)
        && m.assetGroups[i].patterns == UrlPatterns(base, gs[i].urls)
    ensures var m := Process(config, fs, base, hash).value;
      var gs := config.assetGroups.GetOr([]);
      Rooted(Files.Listing(fs)) ==>
        && (forall i, f :: 0 <= i < |gs| && f in Files.Listing(fs) ==>
              (Urls.ResolveFile(base, f) in m.assetGroups[i].urls <==> FirstGroup(gs, f) == i))
        && (forall i, j, u :: 0 <= i < j < |gs| && u in m.assetGroups[i].urls ==> u !in m.assetGroups[j].urls)
  {
    var gs := config.assetGroups.GetOr([]);
    var listing := Files.Listing(fs);
    AssetPassOk(fs, base, hash, gs);
    if Rooted(listing) {
      AssetPassDigests(fs, base, hash, gs);
    }
    var m := Process(config, fs, base, hash).value;
    assert m.assetGroups == Groups(ProcessAssetGroups(base, listing, gs, {}));
    CompiledGroups(base, listing, gs, m.assetGroups);
  }
}