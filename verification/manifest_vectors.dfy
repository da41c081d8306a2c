/** The generator's test end to end: the durations and the data group of
    `generates a correct config`, the whole manifest it expects, and the
    manifest of `uses default navigationUrls if not provided`.

    The digest is a parameter: the test's SHA-1 values are not reproduced,
    only that each key carries the digest of its file's content. */
module ManifestVectors {
  import opened Wrappers
  import Duration
  import Files
  import Urls
  import Generator
  import ConfigVectors
  import ListingVectors

  // ---------------------------------------------------------------------
  // Durations

  /** `3d` is three days. */
  lemma ThreeDays(s: string)
    requires s == "3d"
    ensures Duration.ParseDuration(s) == Ok(259200000)
  {
    var ds := "3";
    assert s == ds + Duration.Symbol(Duration.Days);
    Duration.ParseDurationComplete(ds, Duration.Days);
    assert Duration.DigitsValue(ds) == 3 by {
      assert ds[..0] == "";
    }
  }

  /** `1m` is one minute. */
  lemma OneMinute(s: string)
    requires s == "1m"
    ensures Duration.ParseDuration(s) == Ok(60000)
  {
    var ds := "1";
    assert s == ds + Duration.Symbol(Duration.Minutes);
    Duration.ParseDurationComplete(ds, Duration.Minutes);
    assert Duration.DigitsValue(ds) == 1 by {
      assert ds[..0] == "";
    }
  }

  // ---------------------------------------------------------------------
  // The data group

  /** The data group of `generates a correct config`: no strategy given. */
  const OtherGroup: Generator.DataGroupConfig :=
    Generator.DataGroupConfig("other", ConfigVectors.DataUrls, 100, "3d", "1m", None)

  /** It compiles with the default strategy, its size, both durations in
      milliseconds, version 1 and its URL patterns. */
  lemma OtherGroupResult(base: string, g: Generator.DataGroupConfig)
    requires base == "/test" && g == OtherGroup
    ensures Generator.ProcessDataGroup(base, g) == Ok(Generator.DataGroup(
      "other", ["\\/api\\/.*", "\\/test\\/relapi\\/.*"], "performance", 100, 259200000, 60000, 1))
  {
    ThreeDays(g.maxAge);
    OneMinute(g.timeout);
    ConfigVectors.DataGroupPatterns(base, g.urls);
  }

  /** A list of one data group compiles to that group. */
  lemma OneDataGroup(base: string, gs: seq<Generator.DataGroupConfig>, d: Generator.DataGroup)
    requires |gs| == 1 && Generator.ProcessDataGroup(base, gs[0]) == Ok(d)
    ensures Generator.ProcessDataGroups(base, gs) == Ok([d])
  {
    Generator.DataGroupsCons(base, gs);
    assert gs[1..] == [];
    assert Generator.ProcessDataGroups(base, gs[1..]) == Ok([]);
    assert [d] + [] == [d];
  }

  // ---------------------------------------------------------------------
  // The asset pass

  /** A list of one asset group compiles to that group alone. */
  lemma OneGroupRun(base: string, listing: seq<string>, gs: seq<Generator.AssetGroupConfig>,
                    r: Generator.AssetResult)
    requires |gs| == 1 && Generator.ProcessAssetGroup(base, listing, gs[0], {}) == r
    ensures Generator.ProcessAssetGroups(base, listing, gs, {}) == [r]
  {
    Generator.AssetGroupsCons(base, listing, gs, {});
    assert gs[1..] == [];
  }

  /** One compiled group: its files are all that is claimed. */
  lemma OneResult(rs: seq<Generator.AssetResult>, r: Generator.AssetResult)
    requires rs == [r]
    ensures Generator.ClaimedFiles(rs) == r.files && Generator.Groups(rs) == [r.group]
  {
    assert rs[1..] == [];
    assert r.files + [] == r.files;
  }

  /** A list of one asset group compiles to that group, claims its files
      and digests them. */
  lemma OneAssetGroup(fs: Files.FileTree, base: string, hash: string -> string,
                      gs: seq<Generator.AssetGroupConfig>, r: Generator.AssetResult,
                      table: map<string, string>)
    requires |gs| == 1
    requires Generator.ProcessAssetGroup(base, Files.Listing(fs), gs[0], {}) == r
    requires Generator.HashTable(fs, base, hash, r.files) == Ok(table)
    ensures Generator.AssetPass(fs, base, hash, gs) == Ok(([r.group], table))
  {
    var listing := Files.Listing(fs);
    OneGroupRun(base, listing, gs, r);
    OneResult(Generator.ProcessAssetGroups(base, listing, gs, {}), r);
  }

  /** The manifest assembled from its compiled parts. */
  lemma Assembled<A>(config: Generator.Config<A>, fs: Files.FileTree, base: string, hash: string -> string,
                     groups: seq<Generator.AssetGroup>, table: map<string, string>,
                     dataGroups: seq<Generator.DataGroup>)
    requires Generator.AssetPass(fs, base, hash, config.assetGroups.GetOr([])) == Ok((groups, table))
    requires Generator.ProcessDataGroups(base, config.dataGroups.GetOr([])) == Ok(dataGroups)
    ensures Generator.Process(config, fs, base, hash) == Ok(Generator.Manifest(
      Generator.ConfigVersion, config.appData, Urls.ResolveFile(base, config.index), groups, dataGroups,
      Generator.NavigationUrls(base, config.navigationUrls), table))
  {
  }

  /** No asset groups: nothing claimed and an empty table. */
  lemma NoAssetGroups(fs: Files.FileTree, base: string, hash: string -> string)
    ensures Generator.AssetPass(fs, base, hash, []) == Ok(([], map[]))
  {
  }

  // ---------------------------------------------------------------------
  // Whole manifests

  /** The asset pass of a single group is that group's compilation and the
      table of the files it claims. */
  lemma OneGroupPass(fs: Files.FileTree, base: string, hash: string -> string,
                     gs: seq<Generator.AssetGroupConfig>)
    requires |gs| == 1
    ensures var r := Generator.ProcessAssetGroup(base, Files.Listing(fs), gs[0], {});
      && Generator.HashTable(fs, base, hash, r.files).Ok?
      && Generator.AssetPass(fs, base, hash, gs)
         == Ok(([r.group], Generator.HashTable(fs, base, hash, r.files).value))
  {
    var r := Generator.ProcessAssetGroup(base, Files.Listing(fs), gs[0], {});
    Generator.HashTableShape(fs, base, hash, r.files);
    OneAssetGroup(fs, base, hash, gs, r, Generator.HashTable(fs, base, hash, r.files).value);
  }

  /** The table of the test's asset pass. */
  lemma TestTable(fs: Files.FileTree, base: string, hash: string -> string)
    requires fs == ListingVectors.Tree && base == "/test"
    ensures Generator.AssetPass(fs, base, hash, [ListingVectors.TestGroup]).Ok?
    ensures Generator.AssetPass(fs, base, hash, [ListingVectors.TestGroup]).value.1 == map[
      "/test/index.html" := hash("This is a test"),
      "/test/foo/test.html" := hash("Another test"),
      "/test/test.txt" := hash("Another test")]
  {
    OneGroupPass(fs, base, hash, [ListingVectors.TestGroup]);
    var r := Generator.ProcessAssetGroup(base, Files.Listing(fs), ListingVectors.TestGroup, {});
    TestClaims(fs, base);
    ListingVectors.TestHashTable(fs, base, hash, r.files);
  }

  /** The groups of the test's asset pass. */
  lemma TestGroups(fs: Files.FileTree, base: string, hash: string -> string)
    requires fs == ListingVectors.Tree && base == "/test"
    ensures Generator.AssetPass(fs, base, hash, [ListingVectors.TestGroup]).Ok?
    ensures Generator.AssetPass(fs, base, hash, [ListingVectors.TestGroup]).value.0 ==
      [Generator.AssetGroup("test", "prefetch", "prefetch",
        ["/test/index.html", "/test/foo/test.html", "/test/test.txt"],
        ["\\/absolute\\/.*", "\\/some\\/url\\?with\\+escaped\\+chars", "\\/test\\/relative\\/[^\\/]*\\.txt"])]
  {
    OneGroupPass(fs, base, hash, [ListingVectors.TestGroup]);
    TestGroupOf(fs, base);
  }

  /** The files the test's group claims. */
  lemma TestClaims(fs: Files.FileTree, base: string)
    requires fs == ListingVectors.Tree
    ensures Generator.ProcessAssetGroup(base, Files.Listing(fs), ListingVectors.TestGroup, {}).files
         == ["/index.html", "/foo/test.html", "/test.txt"]
  {
    var a, b, c, d := "/index.html", "/test.txt", "/foo/test.html", "/ignored/x.html";
    ListingVectors.TreeListing(fs, a, b, c, d);
    ListingVectors.TestGroupFiles(base, Files.Listing(fs), ListingVectors.TestGroup, a, b, c, d);
  }

  /** The compiled group of the test. */
  lemma TestGroupOf(fs: Files.FileTree, base: string)
    requires fs == ListingVectors.Tree && base == "/test"
    ensures Generator.ProcessAssetGroup(base, Files.Listing(fs), ListingVectors.TestGroup, {}).group
         == Generator.AssetGroup("test", "prefetch", "prefetch",
              ["/test/index.html", "/test/foo/test.html", "/test/test.txt"],
              ["\\/absolute\\/.*", "\\/some\\/url\\?with\\+escaped\\+chars", "\\/test\\/relative\\/[^\\/]*\\.txt"])
  {
    ListingVectors.TreeListing(fs, "/index.html", "/test.txt", "/foo/test.html", "/ignored/x.html");
    ListingVectors.TestGroupResult(base, Files.Listing(fs), ListingVectors.TestGroup);
  }

  /** The data group of the test compiles. */
  lemma OtherGroupOk(base: string, g: Generator.DataGroupConfig)
    requires base == "/test" && g == OtherGroup
    ensures Generator.ProcessDataGroup(base, g).Ok?
  {
    OtherGroupResult(base, g);
  }

  /** The configuration of `generates a correct config`. */
  function TestConfig<A>(appData: A): Generator.Config<A> {
    Generator.Config(Some(appData), "/index.html", Some([ListingVectors.TestGroup]),
      Some([OtherGroup]), Some(ConfigVectors.ConfiguredRules))
  }

  /** The manifest of a configuration of one asset group and one data
      group that compiles, in terms of the compiled parts. */
  lemma OneEachManifest<A>(config: Generator.Config<A>, fs: Files.FileTree, base: string,
                           hash: string -> string, ag: Generator.AssetGroupConfig,
                           dg: Generator.DataGroupConfig)
    requires config.assetGroups == Some([ag]) && config.dataGroups == Some([dg])
    requires Generator.ProcessDataGroup(base, dg).Ok?
    ensures Generator.AssetPass(fs, base, hash, [ag]).Ok?
    ensures Generator.Process(config, fs, base, hash) == Ok(Generator.Manifest(
      Generator.ConfigVersion, config.appData, Urls.ResolveFile(base, config.index),
      Generator.AssetPass(fs, base, hash, [ag]).value.0,
      [Generator.ProcessDataGroup(base, dg).value],
      Generator.NavigationUrls(base, config.navigationUrls),
      Generator.AssetPass(fs, base, hash, [ag]).value.1))
  {
    Generator.AssetPassOk(fs, base, hash, [ag]);
    var d := Generator.ProcessDataGroup(base, dg).value;
    OneDataGroup(base, [dg], d);
    var pass := Generator.AssetPass(fs, base, hash, [ag]).value;
    Assembled(config, fs, base, hash, pass.0, pass.1, [d]);
  }

  /** The test's configuration has one group of each kind, and its data
      group compiles. */
  lemma TestManifest<A>(config: Generator.Config<A>, fs: Files.FileTree, base: string,
                        hash: string -> string, appData: A)
    requires config == TestConfig(appData) && base == "/test"
    ensures Generator.AssetPass(fs, base, hash, [ListingVectors.TestGroup]).Ok?
    ensures Generator.ProcessDataGroup(base, OtherGroup).Ok?
    ensures Generator.Process(config, fs, base, hash) == Ok(Generator.Manifest(
      Generator.ConfigVersion, config.appData, Urls.ResolveFile(base, config.index),
      Generator.AssetPass(fs, base, hash, [ListingVectors.TestGroup]).value.0,
      [Generator.ProcessDataGroup(base, OtherGroup).value],
      Generator.NavigationUrls(base, config.navigationUrls),
      Generator.AssetPass(fs, base, hash, [ListingVectors.TestGroup]).value.1))
  {
    OtherGroupOk(base, OtherGroup);
    OneEachManifest(config, fs, base, hash, ListingVectors.TestGroup, OtherGroup);
  }

  /** `generates a correct config`: schema version 1, the application data
      passed through and the index under the base. */
  lemma CorrectConfigHeader<A>(config: Generator.Config<A>, fs: Files.FileTree, base: string,
                               hash: string -> string, appData: A)
    requires config == TestConfig(appData) && fs == ListingVectors.Tree && base == "/test"
    ensures Generator.Process(config, fs, base, hash).Ok?
    ensures var m := Generator.Process(config, fs, base, hash).value;
      m.configVersion == 1 && m.appData == Some(appData) && m.index == "/test/index.html"
  {
    TestManifest(config, fs, base, hash, appData);
    ListingVectors.IndexUrl(base, config.index, "/test/index.html");
  }

  /** The one asset group: default modes, the claimed files under the base
      in the order claimed, and the compiled URL patterns. */
  lemma CorrectConfigAssetGroups<A>(config: Generator.Config<A>, fs: Files.FileTree, base: string,
                                    hash: string -> string, appData: A)
    requires config == TestConfig(appData) && fs == ListingVectors.Tree && base == "/test"
    ensures Generator.Process(config, fs, base, hash).Ok?
    ensures Generator.Process(config, fs, base, hash).value.assetGroups ==
      [Generator.AssetGroup("test", "prefetch", "prefetch",
        ["/test/index.html", "/test/foo/test.html", "/test/test.txt"],
        ["\\/absolute\\/.*", "\\/some\\/url\\?with\\+escaped\\+chars", "\\/test\\/relative\\/[^\\/]*\\.txt"])]
  {
    TestManifest(config, fs, base, hash, appData);
    TestGroups(fs, base, hash);
  }

  /** The one data group. */
  lemma CorrectConfigDataGroups<A>(config: Generator.Config<A>, fs: Files.FileTree, base: string,
                                   hash: string -> string, appData: A)
    requires config == TestConfig(appData) && fs == ListingVectors.Tree && base == "/test"
    ensures Generator.Process(config, fs, base, hash).Ok?
    ensures Generator.Process(config, fs, base, hash).value.dataGroups ==
      [Generator.DataGroup("other", ["\\/api\\/.*", "\\/test\\/relapi\\/.*"], "performance",
        100, 259200000, 60000, 1)]
  {
    TestManifest(config, fs, base, hash, appData);
    OtherGroupResult(base, OtherGroup);
  }

  /** The six configured navigation rules, compiled in order. */
  lemma CorrectConfigNavigation<A>(config: Generator.Config<A>, fs: Files.FileTree, base: string,
                                   hash: string -> string, appData: A)
    requires config == TestConfig(appData) && fs == ListingVectors.Tree && base == "/test"
    ensures Generator.Process(config, fs, base, hash).Ok?
    ensures Generator.Process(config, fs, base, hash).value.navigationUrls ==
      [Generator.NavigationUrl(true, "^\\/included\\/absolute\\/.*$"),
       Generator.NavigationUrl(false, "^\\/excluded\\/absolute\\/.*$"),
       Generator.NavigationUrl(true, "^\\/included\\/some\\/url\\?with\\+escaped\\+chars$"),
       Generator.NavigationUrl(false, "^\\/test\\/excluded\\/relative\\/[^\\/]*\\.txt$"),
       Generator.NavigationUrl(true, "^http:\\/\\/example\\.com\\/included$"),
       Generator.NavigationUrl(false, "^http:\\/\\/example\\.com\\/excluded$")]
  {
    TestManifest(config, fs, base, hash, appData);
    ConfigVectors.ConfiguredNavigationRules(base, config.navigationUrls.value);
  }

  /** The hash table: each claimed file's URL with the digest of its
      content, so the two files reading `Another test` share one. */
  lemma CorrectConfigHashTable<A>(config: Generator.Config<A>, fs: Files.FileTree, base: string,
                                  hash: string -> string, appData: A)
    requires config == TestConfig(appData) && fs == ListingVectors.Tree && base == "/test"
    ensures Generator.Process(config, fs, base, hash).Ok?
    ensures Generator.Process(config, fs, base, hash).value.hashTable == map[
      "/test/index.html" := hash("This is a test"),
      "/test/foo/test.html" := hash("Another test"),
      "/test/test.txt" := hash("Another test")]
  {
    TestManifest(config, fs, base, hash, appData);
    TestTable(fs, base, hash);
  }

  /** `uses default navigationUrls if not provided`: with only an index,
      the manifest has no groups, an empty table and the four default
      navigation rules. */
  lemma DefaultsConfig<A>(config: Generator.Config<A>, fs: Files.FileTree, base: string,
                          hash: string -> string)
    requires config == Generator.Config(None, "/index.html", None, None, None)
    requires fs == [Files.FileEntry("/index.html", "This is a test")] && base == "/test"
    ensures Generator.Process(config, fs, base, hash) == Ok(Generator.Manifest(
      1, None, "/test/index.html", [], [],
      [Generator.NavigationUrl(true, "^\\/.*$"),
       Generator.NavigationUrl(false, "^\\/(?:.+\\/)?[^\\/]*\\.[^\\/]*$"),
       Generator.NavigationUrl(false, "^\\/(?:.+\\/)?[^\\/]*__[^\\/]*$"),
       Generator.NavigationUrl(false, "^\\/(?:.+\\/)?[^\\/]*__[^\\/]*\\/.*$")],
      map[]))
  {
    NoAssetGroups(fs, base, hash);
    Assembled(config, fs, base, hash, [], map[], []);
    ConfigVectors.DefaultNavigationRules(base);
    ListingVectors.IndexUrl(base, config.index, "/test/index.html");
  }
}
