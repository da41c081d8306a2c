/** The expectations of the generator's test about whole configuration
    entries: the patterns of the asset and data groups, the compiled
    navigation rules, and the default rules used when none are given.

    Every concrete URL or rule is a parameter fixed by a precondition, so
    the compiler is never unfolded on a literal; the glob lemmas of
    `GeneratorVectors` supply the regexes. */
module ConfigVectors {
  import opened Wrappers
  import Strings
  import Glob
  import Urls
  import Generator
  import GeneratorVectors

  // ---------------------------------------------------------------------
  // Resolution of the test's URLs against the base `/test`

  /** The test's base has no trailing separator. */
  lemma TestBase(base: string)
    requires base == "/test"
    ensures Urls.DropTrailingSlash(base) == "/test"
  {
    assert base[|base| - 1] == 't';
  }

  /** A URL with neither a scheme nor a leading slash is put under the base. */
  lemma UnderTest(base: string, url: string, resolved: string)
    requires base == "/test"
    requires !Urls.HasScheme(url) && !Urls.StartsWithSlash(url)
    requires resolved == "/test/" + url
    ensures Urls.ResolveUrl(base, url) == resolved
  {
    TestBase(base);
  }

  /** A URL without a colon or a leading slash is relative. */
  lemma Relative(url: string)
    requires |url| > 0 && url[0] != '/' && ':' !in url
    ensures !Urls.HasScheme(url) && !Urls.StartsWithSlash(url)
  {
    Strings.NotContains(url, "://");
  }

  /** A URL with a scheme is kept as it is, whatever the base. */
  lemma KeepsScheme(base: string, url: string, scheme: string, rest: string)
    requires url == scheme + "://" + rest
    ensures Urls.ResolveUrl(base, url) == url
  {
    assert url[|scheme|..|scheme| + 3] == "://";
    Strings.ContainsAt(url, "://", |scheme|);
  }

  /** A rule written with `!` compiles to a negative entry for the rest. */
  lemma Negation(rule: string, url: string)
    requires rule == ['!'] + url
    ensures Generator.Negated(rule) && Generator.RuleUrl(rule) == url
  {
    assert rule[1..] == url;
  }

  /** A positive rule compiles to the anchored regex of its resolved URL. */
  lemma PositiveRule(base: string, rule: string, resolved: string)
    requires !(|rule| > 0 && rule[0] == '!')
    requires Urls.ResolveUrl(base, rule) == resolved
    ensures Generator.CompileNavigationUrl(base, rule)
         == Generator.NavigationUrl(true, Glob.GlobToRegex(resolved, true))
  {
  }

  /** A negative rule compiles to the anchored regex of its resolved URL
      without the `!`. */
  lemma NegativeRule(base: string, rule: string, url: string, resolved: string)
    requires rule == ['!'] + url
    requires Urls.ResolveUrl(base, url) == resolved
    ensures Generator.CompileNavigationUrl(base, rule)
         == Generator.NavigationUrl(false, Glob.GlobToRegex(resolved, true))
  {
    Negation(rule, url);
  }

  /** A rooted URL is its own resolution. */
  lemma Rooted(base: string, url: string)
    requires |url| > 0 && url[0] == '/'
    ensures Urls.ResolveUrl(base, url) == url
  {
  }

  // ---------------------------------------------------------------------
  // Facts about the concrete URLs

  lemma RelativeUrl(url: string)
    requires url == "relative/*.txt"
    ensures |url| > 0 && url[0] != '/' && ':' !in url
    ensures "/test/" + url == "/test/relative/*.txt"
  {
  }

  lemma RelapiUrl(url: string)
    requires url == "relapi/**"
    ensures |url| > 0 && url[0] != '/' && ':' !in url
    ensures "/test/" + url == "/test/relapi/**"
  {
  }

  lemma ExcludedRelativeUrl(url: string)
    requires url == "excluded/relative/*.txt"
    ensures |url| > 0 && url[0] != '/' && ':' !in url
    ensures "/test/" + url == "/test/excluded/relative/*.txt"
  {
  }

  lemma SchemeIncludedUrl(url: string)
    requires url == "http://example.com/included"
    ensures url == "http" + "://" + "example.com/included"
  {
    assert "http" + "://" == "http://";
  }

  lemma SchemeExcludedUrl(url: string)
    requires url == "http://example.com/excluded"
    ensures url == "http" + "://" + "example.com/excluded"
  {
    assert "http" + "://" == "http://";
  }

  lemma ExcludedAbsoluteBang(rule: string, url: string)
    requires rule == "!/excluded/absolute/**" && url == "/excluded/absolute/**"
    ensures rule == ['!'] + url
  {
  }

  lemma ExcludedRelativeBang(rule: string, url: string)
    requires rule == "!excluded/relative/*.txt" && url == "excluded/relative/*.txt"
    ensures rule == ['!'] + url
  {
  }

  lemma SchemeExcludedBang(rule: string, url: string)
    requires rule == "!http://example.com/excluded" && url == "http://example.com/excluded"
    ensures rule == ['!'] + url
  {
  }

  lemma DottedBang(rule: string, url: string)
    requires rule == "!/**/*.*" && url == "/**/*.*"
    ensures rule == ['!'] + url
  {
  }

  lemma DunderBang(rule: string, url: string)
    requires rule == "!/**/*__*" && url == "/**/*__*"
    ensures rule == ['!'] + url
  {
  }

  lemma DunderDirBang(rule: string, url: string)
    requires rule == "!/**/*__*/**" && url == "/**/*__*/**"
    ensures rule == ['!'] + url
  {
  }

  // ---------------------------------------------------------------------
  // Patterns of the asset group and the data group

  /** A rooted asset pattern is compiled as written. */
  lemma AbsolutePattern(base: string, url: string)
    requires url == "/absolute/**"
    ensures Urls.UrlToRegex(base, url, false) == "\\/absolute\\/.*"
  {
    Rooted(base, url);
    GeneratorVectors.AbsoluteGlob(url);
  }

  /** The characters `?` and `+` of a pattern are escaped. */
  lemma SomeUrlPattern(base: string, url: string)
    requires url == "/some/url?with+escaped+chars"
    ensures Urls.UrlToRegex(base, url, false) == "\\/some\\/url\\?with\\+escaped\\+chars"
  {
    Rooted(base, url);
    GeneratorVectors.SomeUrlGlob(url);
  }

  /** A relative asset pattern is put under the base. */
  lemma RelativePattern(base: string, url: string)
    requires base == "/test" && url == "relative/*.txt"
    ensures Urls.UrlToRegex(base, url, false) == "\\/test\\/relative\\/[^\\/]*\\.txt"
  {
    var resolved := "/test/relative/*.txt";
    RelativeUrl(url);
    Relative(url);
    UnderTest(base, url, resolved);
    GeneratorVectors.RelativeGlob(resolved);
  }

  lemma ApiPattern(base: string, url: string)
    requires url == "/api/**"
    ensures Urls.UrlToRegex(base, url, false) == "\\/api\\/.*"
  {
    Rooted(base, url);
    GeneratorVectors.ApiGlob(url);
  }

  lemma RelapiPattern(base: string, url: string)
    requires base == "/test" && url == "relapi/**"
    ensures Urls.UrlToRegex(base, url, false) == "\\/test\\/relapi\\/.*"
  {
    var resolved := "/test/relapi/**";
    RelapiUrl(url);
    Relative(url);
    UnderTest(base, url, resolved);
    GeneratorVectors.RelapiGlob(resolved);
  }

  /** The asset group's URL patterns, as the test writes them. */
  const AssetUrls: seq<string> := ["/absolute/**", "/some/url?with+escaped+chars", "relative/*.txt"]

  /** The data group's URL patterns, as the test writes them. */
  const DataUrls: seq<string> := ["/api/**", "relapi/**"]

  /** A list of patterns compiled entry by entry. */
  lemma Patterns2(base: string, urls: seq<string>, p0: string, p1: string)
    requires |urls| == 2
    requires Urls.UrlToRegex(base, urls[0], false) == p0
    requires Urls.UrlToRegex(base, urls[1], false) == p1
    ensures Generator.UrlPatterns(base, urls) == [p0, p1]
  {
  }

  lemma Patterns3(base: string, urls: seq<string>, p0: string, p1: string, p2: string)
    requires |urls| == 3
    requires Urls.UrlToRegex(base, urls[0], false) == p0
    requires Urls.UrlToRegex(base, urls[1], false) == p1
    requires Urls.UrlToRegex(base, urls[2], false) == p2
    ensures Generator.UrlPatterns(base, urls) == [p0, p1, p2]
  {
  }

  lemma AssetPattern0(base: string, urls: seq<string>)
    requires urls == AssetUrls
    ensures |urls| == 3 && Urls.UrlToRegex(base, urls[0], false) == "\\/absolute\\/.*"
  {
    AbsolutePattern(base, urls[0]);
  }

  lemma AssetPattern1(base: string, urls: seq<string>)
    requires urls == AssetUrls
    ensures Urls.UrlToRegex(base, urls[1], false) == "\\/some\\/url\\?with\\+escaped\\+chars"
  {
    SomeUrlPattern(base, urls[1]);
  }

  lemma AssetPattern2(base: string, urls: seq<string>)
    requires base == "/test" && urls == AssetUrls
    ensures Urls.UrlToRegex(base, urls[2], false) == "\\/test\\/relative\\/[^\\/]*\\.txt"
  {
    RelativePattern(base, urls[2]);
  }

  /** The patterns of the test's asset group, in the order written. */
  lemma AssetGroupPatterns(base: string, urls: seq<string>)
    requires base == "/test" && urls == AssetUrls
    ensures Generator.UrlPatterns(base, urls) == [
      "\\/absolute\\/.*",
      "\\/some\\/url\\?with\\+escaped\\+chars",
      "\\/test\\/relative\\/[^\\/]*\\.txt"]
  {
    AssetPattern0(base, urls);
    AssetPattern1(base, urls);
    AssetPattern2(base, urls);
    Patterns3(base, urls, "\\/absolute\\/.*", "\\/some\\/url\\?with\\+escaped\\+chars",
      "\\/test\\/relative\\/[^\\/]*\\.txt");
  }

  lemma DataPattern0(base: string, urls: seq<string>)
    requires urls == DataUrls
    ensures |urls| == 2 && Urls.UrlToRegex(base, urls[0], false) == "\\/api\\/.*"
  {
    ApiPattern(base, urls[0]);
  }

  lemma DataPattern1(base: string, urls: seq<string>)
    requires base == "/test" && urls == DataUrls
    ensures Urls.UrlToRegex(base, urls[1], false) == "\\/test\\/relapi\\/.*"
  {
    RelapiPattern(base, urls[1]);
  }

  /** The patterns of the test's data group, in the order written. */
  lemma DataGroupPatterns(base: string, urls: seq<string>)
    requires base == "/test" && urls == DataUrls
    ensures Generator.UrlPatterns(base, urls) == ["\\/api\\/.*", "\\/test\\/relapi\\/.*"]
  {
    DataPattern0(base, urls);
    DataPattern1(base, urls);
    Patterns2(base, urls, "\\/api\\/.*", "\\/test\\/relapi\\/.*");
  }

  // ---------------------------------------------------------------------
  // Configured navigation rules

  lemma IncludedAbsoluteRule(base: string, rule: string)
    requires rule == "/included/absolute/**"
    ensures Generator.CompileNavigationUrl(base, rule)
         == Generator.NavigationUrl(true, "^\\/included\\/absolute\\/.*$")
  {
    Rooted(base, rule);
    PositiveRule(base, rule, rule);
    GeneratorVectors.IncludedAbsoluteGlob(rule);
  }

  lemma ExcludedAbsoluteRule(base: string, rule: string)
    requires rule == "!/excluded/absolute/**"
    ensures Generator.CompileNavigationUrl(base, rule)
         == Generator.NavigationUrl(false, "^\\/excluded\\/absolute\\/.*$")
  {
    var url := "/excluded/absolute/**";
    ExcludedAbsoluteBang(rule, url);
    Rooted(base, url);
    NegativeRule(base, rule, url, url);
    GeneratorVectors.ExcludedAbsoluteGlob(url);
  }

  lemma IncludedEscapedRule(base: string, rule: string)
    requires rule == "/included/some/url?with+escaped+chars"
    ensures Generator.CompileNavigationUrl(base, rule)
         == Generator.NavigationUrl(true, "^\\/included\\/some\\/url\\?with\\+escaped\\+chars$")
  {
    Rooted(base, rule);
    PositiveRule(base, rule, rule);
    GeneratorVectors.IncludedEscapedGlob(rule);
  }

  /** A relative exclusion is put under the base. */
  lemma ExcludedRelativeRule(base: string, rule: string)
    requires base == "/test" && rule == "!excluded/relative/*.txt"
    ensures Generator.CompileNavigationUrl(base, rule)
         == Generator.NavigationUrl(false, "^\\/test\\/excluded\\/relative\\/[^\\/]*\\.txt$")
  {
    var url := "excluded/relative/*.txt";
    var resolved := "/test/excluded/relative/*.txt";
    ExcludedRelativeBang(rule, url);
    ExcludedRelativeUrl(url);
    Relative(url);
    UnderTest(base, url, resolved);
    NegativeRule(base, rule, url, resolved);
    GeneratorVectors.ExcludedRelativeGlob(resolved);
  }

  /** A rule with a scheme is not put under the base. */
  lemma SchemeIncludedRule(base: string, rule: string)
    requires rule == "http://example.com/included"
    ensures Generator.CompileNavigationUrl(base, rule)
         == Generator.NavigationUrl(true, "^http:\\/\\/example\\.com\\/included$")
  {
    SchemeIncludedUrl(rule);
    KeepsScheme(base, rule, "http", "example.com/included");
    PositiveRule(base, rule, rule);
    GeneratorVectors.SchemeIncludedGlob(rule);
  }

  lemma SchemeExcludedRule(base: string, rule: string)
    requires rule == "!http://example.com/excluded"
    ensures Generator.CompileNavigationUrl(base, rule)
         == Generator.NavigationUrl(false, "^http:\\/\\/example\\.com\\/excluded$")
  {
    var url := "http://example.com/excluded";
    SchemeExcludedBang(rule, url);
    SchemeExcludedUrl(url);
    KeepsScheme(base, url, "http", "example.com/excluded");
    NegativeRule(base, rule, url, url);
    GeneratorVectors.SchemeExcludedGlob(url);
  }

  /** The navigation rules, as the test writes them. */
  const ConfiguredRules: seq<string> := [
    "/included/absolute/**",
    "!/excluded/absolute/**",
    "/included/some/url?with+escaped+chars",
    "!excluded/relative/*.txt",
    "http://example.com/included",
    "!http://example.com/excluded"]

  /** A sequence of four known entries. */
  lemma Entries4<T>(s: seq<T>, a: T, b: T, c: T, d: T)
    requires |s| == 4 && s[0] == a && s[1] == b && s[2] == c && s[3] == d
    ensures s == [a, b, c, d]
  {
  }

  /** A sequence of six known entries. */
  lemma Entries6<T>(s: seq<T>, a: T, b: T, c: T, d: T, e: T, f: T)
    requires |s| == 6 && s[0] == a && s[1] == b && s[2] == c && s[3] == d && s[4] == e && s[5] == f
    ensures s == [a, b, c, d, e, f]
  {
  }

  /** A list of rules compiled entry by entry. */
  lemma Rules4(base: string, rules: seq<string>, n0: Generator.NavigationUrl, n1: Generator.NavigationUrl,
               n2: Generator.NavigationUrl, n3: Generator.NavigationUrl)
    requires |rules| == 4
    requires Generator.CompileNavigationUrl(base, rules[0]) == n0
    requires Generator.CompileNavigationUrl(base, rules[1]) == n1
    requires Generator.CompileNavigationUrl(base, rules[2]) == n2
    requires Generator.CompileNavigationUrl(base, rules[3]) == n3
    ensures Generator.CompileNavigationUrls(base, rules) == [n0, n1, n2, n3]
  {
    Entries4(Generator.CompileNavigationUrls(base, rules), n0, n1, n2, n3);
  }

  lemma Rules6(base: string, rules: seq<string>, n0: Generator.NavigationUrl, n1: Generator.NavigationUrl,
               n2: Generator.NavigationUrl, n3: Generator.NavigationUrl,
               n4: Generator.NavigationUrl, n5: Generator.NavigationUrl)
    requires |rules| == 6
    requires Generator.CompileNavigationUrl(base, rules[0]) == n0
    requires Generator.CompileNavigationUrl(base, rules[1]) == n1
    requires Generator.CompileNavigationUrl(base, rules[2]) == n2
    requires Generator.CompileNavigationUrl(base, rules[3]) == n3
    requires Generator.CompileNavigationUrl(base, rules[4]) == n4
    requires Generator.CompileNavigationUrl(base, rules[5]) == n5
    ensures Generator.CompileNavigationUrls(base, rules) == [n0, n1, n2, n3, n4, n5]
  {
    Entries6(Generator.CompileNavigationUrls(base, rules), n0, n1, n2, n3, n4, n5);
  }

  lemma ConfiguredRule0(base: string, rules: seq<string>)
    requires rules == ConfiguredRules
    ensures |rules| == 6 && Generator.CompileNavigationUrl(base, rules[0])
         == Generator.NavigationUrl(true, "^\\/included\\/absolute\\/.*$")
  {
    IncludedAbsoluteRule(base, rules[0]);
  }

  lemma ConfiguredRule1(base: string, rules: seq<string>)
    requires rules == ConfiguredRules
    ensures Generator.CompileNavigationUrl(base, rules[1])
         == Generator.NavigationUrl(false, "^\\/excluded\\/absolute\\/.*$")
  {
    ExcludedAbsoluteRule(base, rules[1]);
  }

  lemma ConfiguredRule2(base: string, rules: seq<string>)
    requires rules == ConfiguredRules
    ensures Generator.CompileNavigationUrl(base, rules[2])
         == Generator.NavigationUrl(true, "^\\/included\\/some\\/url\\?with\\+escaped\\+chars$")
  {
    IncludedEscapedRule(base, rules[2]);
  }

  lemma ConfiguredRule3(base: string, rules: seq<string>)
    requires base == "/test" && rules == ConfiguredRules
    ensures Generator.CompileNavigationUrl(base, rules[3])
         == Generator.NavigationUrl(false, "^\\/test\\/excluded\\/relative\\/[^\\/]*\\.txt$")
  {
    ExcludedRelativeRule(base, rules[3]);
  }

  lemma ConfiguredRule4(base: string, rules: seq<string>)
    requires rules == ConfiguredRules
    ensures Generator.CompileNavigationUrl(base, rules[4])
         == Generator.NavigationUrl(true, "^http:\\/\\/example\\.com\\/included$")
  {
    SchemeIncludedRule(base, rules[4]);
  }

  lemma ConfiguredRule5(base: string, rules: seq<string>)
    requires rules == ConfiguredRules
    ensures Generator.CompileNavigationUrl(base, rules[5])
         == Generator.NavigationUrl(false, "^http:\\/\\/example\\.com\\/excluded$")
  {
    SchemeExcludedRule(base, rules[5]);
  }

  /** The test's six navigation rules compile, in order, to the six
      expected entries. */
  lemma ConfiguredNavigationRules(base: string, rules: seq<string>)
    requires base == "/test" && rules == ConfiguredRules
    ensures Generator.NavigationUrls(base, Some(rules)) == [
      Generator.NavigationUrl(true, "^\\/included\\/absolute\\/.*$"),
      Generator.NavigationUrl(false, "^\\/excluded\\/absolute\\/.*$"),
      Generator.NavigationUrl(true, "^\\/included\\/some\\/url\\?with\\+escaped\\+chars$"),
      Generator.NavigationUrl(false, "^\\/test\\/excluded\\/relative\\/[^\\/]*\\.txt$"),
      Generator.NavigationUrl(true, "^http:\\/\\/example\\.com\\/included$"),
      Generator.NavigationUrl(false, "^http:\\/\\/example\\.com\\/excluded$")]
  {
    ConfiguredRule0(base, rules);
    ConfiguredRule1(base, rules);
    ConfiguredRule2(base, rules);
    ConfiguredRule3(base, rules);
    ConfiguredRule4(base, rules);
    ConfiguredRule5(base, rules);
    Rules6(base, rules,
      Generator.NavigationUrl(true, "^\\/included\\/absolute\\/.*$"),
      Generator.NavigationUrl(false, "^\\/excluded\\/absolute\\/.*$"),
      Generator.NavigationUrl(true, "^\\/included\\/some\\/url\\?with\\+escaped\\+chars$"),
      Generator.NavigationUrl(false, "^\\/test\\/excluded\\/relative\\/[^\\/]*\\.txt$"),
      Generator.NavigationUrl(true, "^http:\\/\\/example\\.com\\/included$"),
      Generator.NavigationUrl(false, "^http:\\/\\/example\\.com\\/excluded$"));
  }

  // ---------------------------------------------------------------------
  // Default navigation rules

  lemma DefaultRoot(base: string, rule: string)
    requires rule == "/**"
    ensures Generator.CompileNavigationUrl(base, rule) == Generator.NavigationUrl(true, "^\\/.*$")
  {
    Rooted(base, rule);
    PositiveRule(base, rule, rule);
    GeneratorVectors.RootGlob(rule);
  }

  lemma DefaultDotted(base: string, rule: string)
    requires rule == "!/**/*.*"
    ensures Generator.CompileNavigationUrl(base, rule)
         == Generator.NavigationUrl(false, "^\\/(?:.+\\/)?[^\\/]*\\.[^\\/]*$")
  {
    var url := "/**/*.*";
    DottedBang(rule, url);
    Rooted(base, url);
    NegativeRule(base, rule, url, url);
    GeneratorVectors.DottedGlob(url);
  }

  lemma DefaultDunder(base: string, rule: string)
    requires rule == "!/**/*__*"
    ensures Generator.CompileNavigationUrl(base, rule)
         == Generator.NavigationUrl(false, "^\\/(?:.+\\/)?[^\\/]*__[^\\/]*$")
  {
    var url := "/**/*__*";
    DunderBang(rule, url);
    Rooted(base, url);
    NegativeRule(base, rule, url, url);
    GeneratorVectors.DunderGlob(url);
  }

  lemma DefaultDunderDir(base: string, rule: string)
    requires rule == "!/**/*__*/**"
    ensures Generator.CompileNavigationUrl(base, rule)
         == Generator.NavigationUrl(false, "^\\/(?:.+\\/)?[^\\/]*__[^\\/]*\\/.*$")
  {
    var url := "/**/*__*/**";
    DunderDirBang(rule, url);
    Rooted(base, url);
    NegativeRule(base, rule, url, url);
    GeneratorVectors.DunderDirGlob(url);
  }

  lemma DefaultRule0(base: string, rules: seq<string>)
    requires rules == Generator.DefaultNavigationUrls
    ensures |rules| == 4 && Generator.CompileNavigationUrl(base, rules[0])
         == Generator.NavigationUrl(true, "^\\/.*$")
  {
    DefaultRoot(base, rules[0]);
  }

  lemma DefaultRule1(base: string, rules: seq<string>)
    requires rules == Generator.DefaultNavigationUrls
    ensures Generator.CompileNavigationUrl(base, rules[1])
         == Generator.NavigationUrl(false, "^\\/(?:.+\\/)?[^\\/]*\\.[^\\/]*$")
  {
    DefaultDotted(base, rules[1]);
  }

  lemma DefaultRule2(base: string, rules: seq<string>)
    requires rules == Generator.DefaultNavigationUrls
    ensures Generator.CompileNavigationUrl(base, rules[2])
         == Generator.NavigationUrl(false, "^\\/(?:.+\\/)?[^\\/]*__[^\\/]*$")
  {
    DefaultDunder(base, rules[2]);
  }

  lemma DefaultRule3(base: string, rules: seq<string>)
    requires rules == Generator.DefaultNavigationUrls
    ensures Generator.CompileNavigationUrl(base, rules[3])
         == Generator.NavigationUrl(false, "^\\/(?:.+\\/)?[^\\/]*__[^\\/]*\\/.*$")
  {
    DefaultDunderDir(base, rules[3]);
  }

  /** Without configured rules, whatever the base, the navigation rules are
      the four defaults: every rooted path except file names with a dot and
      paths with a `__` segment or beneath one. */
  lemma DefaultNavigationRules(base: string)
    ensures Generator.NavigationUrls(base, None) == [
      Generator.NavigationUrl(true, "^\\/.*$"),
      Generator.NavigationUrl(false, "^\\/(?:.+\\/)?[^\\/]*\\.[^\\/]*$"),
      Generator.NavigationUrl(false, "^\\/(?:.+\\/)?[^\\/]*__[^\\/]*$"),
      Generator.NavigationUrl(false, "^\\/(?:.+\\/)?[^\\/]*__[^\\/]*\\/.*$")]
  {
    var rules := Generator.DefaultNavigationUrls;
    DefaultRule0(base, rules);
    DefaultRule1(base, rules);
    DefaultRule2(base, rules);
    DefaultRule3(base, rules);
    Rules4(base, rules,
      Generator.NavigationUrl(true, "^\\/.*$"),
      Generator.NavigationUrl(false, "^\\/(?:.+\\/)?[^\\/]*\\.[^\\/]*$"),
      Generator.NavigationUrl(false, "^\\/(?:.+\\/)?[^\\/]*__[^\\/]*$"),
      Generator.NavigationUrl(false, "^\\/(?:.+\\/)?[^\\/]*__[^\\/]*\\/.*$"));
  }
}
