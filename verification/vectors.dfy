/** The expectations of the generator's test, proved of the model: the
    patterns of `generates a correct config` and the defaults of
    `uses default navigationUrls if not provided`.

    A glob vector is proved in three moves: the glob is written as its
    segments glued with separators, each segment's regex text is computed
    once by a piece lemma, and the pieces are glued back into the literal
    regex from left to right. */
module GeneratorVectors {
  import opened Wrappers
  import Strings
  import Glob
  import Urls
  import Segments
  import Generator

  // ---------------------------------------------------------------------
  // Segments that occur in the test's globs

  /** The empty segment before a leading separator. */
  lemma RootPiece(seg: string)
    requires seg == ""
    ensures '/' !in seg && Segments.HeadRegex(seg) == "\\/"
  {
    Segments.PlainRegex(seg);
  }

  /** A `**` segment: directories inside the glob, anything at its end. */
  lemma StarsPiece(seg: string)
    requires seg == "**"
    ensures '/' !in seg
    ensures Segments.HeadRegex(seg) == "(?:.+\\/)?" && Segments.LastRegex(seg) == ".*"
  {
  }

  /** A last segment with a dot: a file name with an extension. */
  lemma DottedPiece(seg: string)
    requires seg == "*.*"
    ensures '/' !in seg && Segments.LastRegex(seg) == "[^\\/]*\\.[^\\/]*"
  {
    assert Glob.SegmentRegex("*.*") == "[^\\/]*\\.[^\\/]*";
  }

  /** A segment holding a double underscore. */
  lemma DunderPiece(seg: string)
    requires seg == "*__*"
    ensures '/' !in seg
    ensures Segments.LastRegex(seg) == "[^\\/]*__[^\\/]*"
    ensures Segments.HeadRegex(seg) == "[^\\/]*__[^\\/]*\\/"
  {
    assert Glob.SegmentRegex("*__*") == "[^\\/]*__[^\\/]*";
    assert "[^\\/]*__[^\\/]*" + "\\/" == "[^\\/]*__[^\\/]*\\/";
  }

  /** A last segment naming text files. */
  lemma TxtPiece(seg: string)
    requires seg == "*.txt"
    ensures '/' !in seg && Segments.LastRegex(seg) == "[^\\/]*\\.txt"
  {
    assert Glob.SegmentRegex("*.txt") == "[^\\/]*\\.txt";
  }

  /** The regex of a word after a character that needs escaping: the
      character gains a backslash. */
  lemma EscapedThen(p: string, c: char, w: string, r: string)
    requires p == [c] + w && Glob.NeedsEscape(c) && Segments.Plain(w)
    requires r == ['\\', c] + w
    ensures Glob.SegmentRegex(p) == r
  {
    Segments.EscapedWord(p, c, w);
  }

  lemma WithPart(p: string)
    requires p == "?with"
    ensures Glob.SegmentRegex(p) == "\\?with"
  {
    assert Segments.Plain("with");
    EscapedThen(p, '?', "with", "\\?with");
  }

  lemma EscapedPart(p: string)
    requires p == "+escaped"
    ensures Glob.SegmentRegex(p) == "\\+escaped"
  {
    assert Segments.Plain("escaped");
    EscapedThen(p, '+', "escaped", "\\+escaped");
  }

  lemma CharsPart(p: string)
    requires p == "+chars"
    ensures Glob.SegmentRegex(p) == "\\+chars"
  {
    assert Segments.Plain("chars");
    EscapedThen(p, '+', "chars", "\\+chars");
  }

  lemma UrlPart(p: string)
    requires p == "url"
    ensures Glob.SegmentRegex(p) == "url"
  {
    assert Segments.Plain("url");
    Segments.PlainRegex(p);
  }

  lemma EscapedParts(seg: string, u: string, w: string, e: string, c: string)
    requires seg == "url?with+escaped+chars"
    requires u == "url" && w == "?with" && e == "+escaped" && c == "+chars"
    ensures seg == u + w + e + c && '/' !in seg
  {
  }

  lemma EscapedText()
    ensures "url" + "\\?with" + "\\+escaped" + "\\+chars" == "url\\?with\\+escaped\\+chars"
  {
  }

  /** The segment of the test that needs escapes: `?` and `+` are written
      with a backslash. */
  lemma EscapedPiece(seg: string)
    requires seg == "url?with+escaped+chars"
    ensures '/' !in seg
    ensures Segments.LastRegex(seg) == "url\\?with\\+escaped\\+chars"
  {
    var u, w, e, c := "url", "?with", "+escaped", "+chars";
    EscapedParts(seg, u, w, e, c);
    UrlPart(u);
    WithPart(w);
    EscapedPart(e);
    CharsPart(c);
    Glob.SegmentRegexAppend(u, w);
    Glob.SegmentRegexAppend(u + w, e);
    Glob.SegmentRegexAppend(u + w + e, c);
    EscapedText();
  }

  lemma HostParts(seg: string, x: string, d: string)
    requires seg == "example.com" && x == "example" && d == ".com"
    ensures seg == x + d && '/' !in seg
  {
  }

  lemma ExamplePart(p: string)
    requires p == "example"
    ensures Glob.SegmentRegex(p) == "example"
  {
    assert Segments.Plain("example");
    Segments.PlainRegex(p);
  }

  lemma ComPart(p: string)
    requires p == ".com"
    ensures Glob.SegmentRegex(p) == "\\.com"
  {
    assert Segments.Plain("com");
    EscapedThen(p, '.', "com", "\\.com");
  }

  lemma HostText()
    ensures "example" + "\\.com" + "\\/" == "example\\.com\\/"
  {
  }

  /** The host of the scheme-qualified rules: its dot is escaped. */
  lemma HostPiece(seg: string)
    requires seg == "example.com"
    ensures '/' !in seg
    ensures Segments.HeadRegex(seg) == "example\\.com\\/"
  {
    var x, d := "example", ".com";
    HostParts(seg, x, d);
    ExamplePart(x);
    ComPart(d);
    Glob.SegmentRegexAppend(x, d);
    HostText();
  }

  // ---------------------------------------------------------------------
  // Plain words

  lemma TestWordPlain(seg: string)
    requires seg == "test"
    ensures Segments.Plain(seg)
  {
  }

  lemma TestWordStep()
    ensures "test" + "\\/" == "test\\/"
  {
  }

  lemma TestWord(seg: string)
    requires seg == "test"
    ensures '/' !in seg
    ensures Segments.HeadRegex(seg) == "test\\/" && Segments.LastRegex(seg) == "test"
  {
    TestWordPlain(seg);
    Segments.PlainRegex(seg);
    TestWordStep();
  }

  lemma SomeWordPlain(seg: string)
    requires seg == "some"
    ensures Segments.Plain(seg)
  {
  }

  lemma SomeWordStep()
    ensures "some" + "\\/" == "some\\/"
  {
  }

  lemma SomeWord(seg: string)
    requires seg == "some"
    ensures '/' !in seg
    ensures Segments.HeadRegex(seg) == "some\\/" && Segments.LastRegex(seg) == "some"
  {
    SomeWordPlain(seg);
    Segments.PlainRegex(seg);
    SomeWordStep();
  }

  lemma ApiWordPlain(seg: string)
    requires seg == "api"
    ensures Segments.Plain(seg)
  {
  }

  lemma ApiWordStep()
    ensures "api" + "\\/" == "api\\/"
  {
  }

  lemma ApiWord(seg: string)
    requires seg == "api"
    ensures '/' !in seg
    ensures Segments.HeadRegex(seg) == "api\\/" && Segments.LastRegex(seg) == "api"
  {
    ApiWordPlain(seg);
    Segments.PlainRegex(seg);
    ApiWordStep();
  }

  lemma RelapiWordPlain(seg: string)
    requires seg == "relapi"
    ensures Segments.Plain(seg)
  {
  }

  lemma RelapiWordStep()
    ensures "relapi" + "\\/" == "relapi\\/"
  {
  }

  lemma RelapiWord(seg: string)
    requires seg == "relapi"
    ensures '/' !in seg
    ensures Segments.HeadRegex(seg) == "relapi\\/" && Segments.LastRegex(seg) == "relapi"
  {
    RelapiWordPlain(seg);
    Segments.PlainRegex(seg);
    RelapiWordStep();
  }

  lemma AbsoluteWordPlain(seg: string)
    requires seg == "absolute"
    ensures Segments.Plain(seg)
  {
  }

  lemma AbsoluteWordStep()
    ensures "absolute" + "\\/" == "absolute\\/"
  {
  }

  lemma AbsoluteWord(seg: string)
    requires seg == "absolute"
    ensures '/' !in seg
    ensures Segments.HeadRegex(seg) == "absolute\\/" && Segments.LastRegex(seg) == "absolute"
  {
    AbsoluteWordPlain(seg);
    Segments.PlainRegex(seg);
    AbsoluteWordStep();
  }

  lemma RelativeWordPlain(seg: string)
    requires seg == "relative"
    ensures Segments.Plain(seg)
  {
  }

  lemma RelativeWordStep()
    ensures "relative" + "\\/" == "relative\\/"
  {
  }

  lemma RelativeWord(seg: string)
    requires seg == "relative"
    ensures '/' !in seg
    ensures Segments.HeadRegex(seg) == "relative\\/" && Segments.LastRegex(seg) == "relative"
  {
    RelativeWordPlain(seg);
    Segments.PlainRegex(seg);
    RelativeWordStep();
  }

  lemma IncludedWordPlain(seg: string)
    requires seg == "included"
    ensures Segments.Plain(seg)
  {
  }

  lemma IncludedWordStep()
    ensures "included" + "\\/" == "included\\/"
  {
  }

  lemma IncludedWord(seg: string)
    requires seg == "included"
    ensures '/' !in seg
    ensures Segments.HeadRegex(seg) == "included\\/" && Segments.LastRegex(seg) == "included"
  {
    IncludedWordPlain(seg);
    Segments.PlainRegex(seg);
    IncludedWordStep();
  }

  lemma ExcludedWordPlain(seg: string)
    requires seg == "excluded"
    ensures Segments.Plain(seg)
  {
  }

  lemma ExcludedWordStep()
    ensures "excluded" + "\\/" == "excluded\\/"
  {
  }

  lemma ExcludedWord(seg: string)
    requires seg == "excluded"
    ensures '/' !in seg
    ensures Segments.HeadRegex(seg) == "excluded\\/" && Segments.LastRegex(seg) == "excluded"
  {
    ExcludedWordPlain(seg);
    Segments.PlainRegex(seg);
    ExcludedWordStep();
  }

  lemma HttpWordPlain(seg: string)
    requires seg == "http:"
    ensures Segments.Plain(seg)
  {
  }

  lemma HttpWordStep()
    ensures "http:" + "\\/" == "http:\\/"
  {
  }

  lemma HttpWord(seg: string)
    requires seg == "http:"
    ensures '/' !in seg
    ensures Segments.HeadRegex(seg) == "http:\\/" && Segments.LastRegex(seg) == "http:"
  {
    HttpWordPlain(seg);
    Segments.PlainRegex(seg);
    HttpWordStep();
  }

  // ---------------------------------------------------------------------
  // Globs of the test

  lemma RootGlobSteps()
    ensures "" + "/" == "/"
         && "/" + "**" == "/**"
  {
  }

  lemma RootRegexSteps()
    ensures "^" + "\\/" == "^\\/"
         && "^\\/" + ".*" == "^\\/.*"
         && "^\\/.*" + "$" == "^\\/.*$"
  {
  }

  /** The default navigation rule that admits every path. */
  lemma RootGlob(g: string)
    requires g == "/**"
    ensures Glob.GlobToRegex(g, true) == "^\\/.*$"
  {
    RootGlobSteps();
    RootPiece("");
    StarsPiece("**");
    Segments.Glob2Left(g, "", "**");
    Segments.Anchored2("\\/", ".*");
    RootRegexSteps();
  }

  lemma DottedGlobPart1()
    ensures "" + "/" == "/"
         && "/" + "**" == "/**"
         && "/**" + "/" == "/**/"
  {
  }

  lemma DottedGlobPart2()
    ensures "/**/" + "*.*" == "/**/*.*"
  {
  }

  lemma DottedRegexPart1()
    ensures "^" + "\\/" == "^\\/"
         && "^\\/" + "(?:.+\\/)?" == "^\\/(?:.+\\/)?"
         && "^\\/(?:.+\\/)?" + "[^\\/]*\\.[^\\/]*" == "^\\/(?:.+\\/)?[^\\/]*\\.[^\\/]*"
  {
  }

  lemma DottedRegexPart2()
    ensures "^\\/(?:.+\\/)?[^\\/]*\\.[^\\/]*" + "$" == "^\\/(?:.+\\/)?[^\\/]*\\.[^\\/]*$"
  {
  }

  /** The default rule excluding paths whose last segment has a dot, without its negation mark. */
  lemma DottedGlob(g: string)
    requires g == "/**/*.*"
    ensures Glob.GlobToRegex(g, true) == "^\\/(?:.+\\/)?[^\\/]*\\.[^\\/]*$"
  {
    DottedGlobPart1();
    DottedGlobPart2();
    RootPiece("");
    StarsPiece("**");
    DottedPiece("*.*");
    Segments.Glob3Left(g, "", "**", "*.*");
    Segments.Anchored3("\\/", "(?:.+\\/)?", "[^\\/]*\\.[^\\/]*");
    DottedRegexPart1();
    DottedRegexPart2();
  }

  lemma DunderGlobPart1()
    ensures "" + "/" == "/"
         && "/" + "**" == "/**"
         && "/**" + "/" == "/**/"
  {
  }

  lemma DunderGlobPart2()
    ensures "/**/" + "*__*" == "/**/*__*"
  {
  }

  lemma DunderRegexPart1()
    ensures "^" + "\\/" == "^\\/"
         && "^\\/" + "(?:.+\\/)?" == "^\\/(?:.+\\/)?"
         && "^\\/(?:.+\\/)?" + "[^\\/]*__[^\\/]*" == "^\\/(?:.+\\/)?[^\\/]*__[^\\/]*"
  {
  }

  lemma DunderRegexPart2()
    ensures "^\\/(?:.+\\/)?[^\\/]*__[^\\/]*" + "$" == "^\\/(?:.+\\/)?[^\\/]*__[^\\/]*$"
  {
  }

  /** The default rule excluding paths whose last segment holds a double underscore, without its negation mark. */
  lemma DunderGlob(g: string)
    requires g == "/**/*__*"
    ensures Glob.GlobToRegex(g, true) == "^\\/(?:.+\\/)?[^\\/]*__[^\\/]*$"
  {
    DunderGlobPart1();
    DunderGlobPart2();
    RootPiece("");
    StarsPiece("**");
    DunderPiece("*__*");
    Segments.Glob3Left(g, "", "**", "*__*");
    Segments.Anchored3("\\/", "(?:.+\\/)?", "[^\\/]*__[^\\/]*");
    DunderRegexPart1();
    DunderRegexPart2();
  }

  lemma DunderDirGlobPart1()
    ensures "" + "/" == "/"
         && "/" + "**" == "/**"
         && "/**" + "/" == "/**/"
  {
  }

  lemma DunderDirGlobPart2()
    ensures "/**/" + "*__*" == "/**/*__*"
         && "/**/*__*" + "/" == "/**/*__*/"
         && "/**/*__*/" + "**" == "/**/*__*/**"
  {
  }

  lemma DunderDirRegexPart1()
    ensures "^" + "\\/" == "^\\/"
         && "^\\/" + "(?:.+\\/)?" == "^\\/(?:.+\\/)?"
  {
  }

  lemma DunderDirRegexPart2()
    ensures "^\\/(?:.+\\/)?" + "[^\\/]*__[^\\/]*\\/" == "^\\/(?:.+\\/)?[^\\/]*__[^\\/]*\\/"
         && "^\\/(?:.+\\/)?[^\\/]*__[^\\/]*\\/" + ".*" == "^\\/(?:.+\\/)?[^\\/]*__[^\\/]*\\/.*"
         && "^\\/(?:.+\\/)?[^\\/]*__[^\\/]*\\/.*" + "$" == "^\\/(?:.+\\/)?[^\\/]*__[^\\/]*\\/.*$"
  {
  }

  /** The default rule excluding paths under a directory whose name holds a double underscore, without its negation mark. */
  lemma DunderDirGlob(g: string)
    requires g == "/**/*__*/**"
    ensures Glob.GlobToRegex(g, true) == "^\\/(?:.+\\/)?[^\\/]*__[^\\/]*\\/.*$"
  {
    DunderDirGlobPart1();
    DunderDirGlobPart2();
    RootPiece("");
    StarsPiece("**");
    DunderPiece("*__*");
    Segments.Glob4Left(g, "", "**", "*__*", "**");
    Segments.Anchored4("\\/", "(?:.+\\/)?", "[^\\/]*__[^\\/]*\\/", ".*");
    DunderDirRegexPart1();
    DunderDirRegexPart2();
  }

  lemma AbsoluteGlobPart1()
    ensures "" + "/" == "/"
         && "/" + "absolute" == "/absolute"
         && "/absolute" + "/" == "/absolute/"
  {
  }

  lemma AbsoluteGlobPart2()
    ensures "/absolute/" + "**" == "/absolute/**"
  {
  }

  lemma AbsoluteRegexSteps()
    ensures "\\/" + "absolute\\/" == "\\/absolute\\/"
         && "\\/absolute\\/" + ".*" == "\\/absolute\\/.*"
  {
  }

  /** The asset pattern for everything under `absolute`. */
  lemma AbsoluteGlob(g: string)
    requires g == "/absolute/**"
    ensures Glob.GlobToRegex(g, false) == "\\/absolute\\/.*"
  {
    AbsoluteGlobPart1();
    AbsoluteGlobPart2();
    RootPiece("");
    AbsoluteWord("absolute");
    StarsPiece("**");
    Segments.Glob3Left(g, "", "absolute", "**");
    AbsoluteRegexSteps();
  }

  lemma SomeUrlGlobPart1()
    ensures "" + "/" == "/"
         && "/" + "some" == "/some"
         && "/some" + "/" == "/some/"
  {
  }

  lemma SomeUrlGlobPart2()
    ensures "/some/" + "url?with+escaped+chars" == "/some/url?with+escaped+chars"
  {
  }

  lemma SomeUrlRegexPart1()
    ensures "\\/" + "some\\/" == "\\/some\\/"
  {
  }

  lemma SomeUrlRegexPart2()
    ensures "\\/some\\/" + "url\\?with\\+escaped\\+chars" == "\\/some\\/url\\?with\\+escaped\\+chars"
  {
  }

  /** The asset pattern whose last segment holds characters that need escaping. */
  lemma SomeUrlGlob(g: string)
    requires g == "/some/url?with+escaped+chars"
    ensures Glob.GlobToRegex(g, false) == "\\/some\\/url\\?with\\+escaped\\+chars"
  {
    SomeUrlGlobPart1();
    SomeUrlGlobPart2();
    RootPiece("");
    SomeWord("some");
    EscapedPiece("url?with+escaped+chars");
    Segments.Glob3Left(g, "", "some", "url?with+escaped+chars");
    SomeUrlRegexPart1();
    SomeUrlRegexPart2();
  }

  lemma RelativeGlobPart1()
    ensures "" + "/" == "/"
         && "/" + "test" == "/test"
         && "/test" + "/" == "/test/"
  {
  }

  lemma RelativeGlobPart2()
    ensures "/test/" + "relative" == "/test/relative"
         && "/test/relative" + "/" == "/test/relative/"
         && "/test/relative/" + "*.txt" == "/test/relative/*.txt"
  {
  }

  lemma RelativeRegexSteps()
    ensures "\\/" + "test\\/" == "\\/test\\/"
         && "\\/test\\/" + "relative\\/" == "\\/test\\/relative\\/"
         && "\\/test\\/relative\\/" + "[^\\/]*\\.txt" == "\\/test\\/relative\\/[^\\/]*\\.txt"
  {
  }

  /** The asset pattern for text files under `relative`, resolved under the base `/test`. */
  lemma RelativeGlob(g: string)
    requires g == "/test/relative/*.txt"
    ensures Glob.GlobToRegex(g, false) == "\\/test\\/relative\\/[^\\/]*\\.txt"
  {
    RelativeGlobPart1();
    RelativeGlobPart2();
    RootPiece("");
    TestWord("test");
    RelativeWord("relative");
    TxtPiece("*.txt");
    Segments.Glob4Left(g, "", "test", "relative", "*.txt");
    RelativeRegexSteps();
  }

  lemma ApiGlobPart1()
    ensures "" + "/" == "/"
         && "/" + "api" == "/api"
         && "/api" + "/" == "/api/"
  {
  }

  lemma ApiGlobPart2()
    ensures "/api/" + "**" == "/api/**"
  {
  }

  lemma ApiRegexSteps()
    ensures "\\/" + "api\\/" == "\\/api\\/"
         && "\\/api\\/" + ".*" == "\\/api\\/.*"
  {
  }

  /** The data pattern for everything under `api`. */
  lemma ApiGlob(g: string)
    requires g == "/api/**"
    ensures Glob.GlobToRegex(g, false) == "\\/api\\/.*"
  {
    ApiGlobPart1();
    ApiGlobPart2();
    RootPiece("");
    ApiWord("api");
    StarsPiece("**");
    Segments.Glob3Left(g, "", "api", "**");
    ApiRegexSteps();
  }

  lemma RelapiGlobPart1()
    ensures "" + "/" == "/"
         && "/" + "test" == "/test"
         && "/test" + "/" == "/test/"
  {
  }

  lemma RelapiGlobPart2()
    ensures "/test/" + "relapi" == "/test/relapi"
         && "/test/relapi" + "/" == "/test/relapi/"
         && "/test/relapi/" + "**" == "/test/relapi/**"
  {
  }

  lemma RelapiRegexSteps()
    ensures "\\/" + "test\\/" == "\\/test\\/"
         && "\\/test\\/" + "relapi\\/" == "\\/test\\/relapi\\/"
         && "\\/test\\/relapi\\/" + ".*" == "\\/test\\/relapi\\/.*"
  {
  }

  /** The data pattern for everything under `relapi`, resolved under the base `/test`. */
  lemma RelapiGlob(g: string)
    requires g == "/test/relapi/**"
    ensures Glob.GlobToRegex(g, false) == "\\/test\\/relapi\\/.*"
  {
    RelapiGlobPart1();
    RelapiGlobPart2();
    RootPiece("");
    TestWord("test");
    RelapiWord("relapi");
    StarsPiece("**");
    Segments.Glob4Left(g, "", "test", "relapi", "**");
    RelapiRegexSteps();
  }

  lemma IncludedAbsoluteGlobPart1()
    ensures "" + "/" == "/"
         && "/" + "included" == "/included"
         && "/included" + "/" == "/included/"
  {
  }

  lemma IncludedAbsoluteGlobPart2()
    ensures "/included/" + "absolute" == "/included/absolute"
         && "/included/absolute" + "/" == "/included/absolute/"
         && "/included/absolute/" + "**" == "/included/absolute/**"
  {
  }

  lemma IncludedAbsoluteRegexPart1()
    ensures "^" + "\\/" == "^\\/"
         && "^\\/" + "included\\/" == "^\\/included\\/"
         && "^\\/included\\/" + "absolute\\/" == "^\\/included\\/absolute\\/"
  {
  }

  lemma IncludedAbsoluteRegexPart2()
    ensures "^\\/included\\/absolute\\/" + ".*" == "^\\/included\\/absolute\\/.*"
         && "^\\/included\\/absolute\\/.*" + "$" == "^\\/included\\/absolute\\/.*$"
  {
  }

  /** The navigation rule admitting everything under `included/absolute`. */
  lemma IncludedAbsoluteGlob(g: string)
    requires g == "/included/absolute/**"
    ensures Glob.GlobToRegex(g, true) == "^\\/included\\/absolute\\/.*$"
  {
    IncludedAbsoluteGlobPart1();
    IncludedAbsoluteGlobPart2();
    RootPiece("");
    IncludedWord("included");
    AbsoluteWord("absolute");
    StarsPiece("**");
    Segments.Glob4Left(g, "", "included", "absolute", "**");
    Segments.Anchored4("\\/", "included\\/", "absolute\\/", ".*");
    IncludedAbsoluteRegexPart1();
    IncludedAbsoluteRegexPart2();
  }

  lemma ExcludedAbsoluteGlobPart1()
    ensures "" + "/" == "/"
         && "/" + "excluded" == "/excluded"
         && "/excluded" + "/" == "/excluded/"
  {
  }

  lemma ExcludedAbsoluteGlobPart2()
    ensures "/excluded/" + "absolute" == "/excluded/absolute"
         && "/excluded/absolute" + "/" == "/excluded/absolute/"
         && "/excluded/absolute/" + "**" == "/excluded/absolute/**"
  {
  }

  lemma ExcludedAbsoluteRegexPart1()
    ensures "^" + "\\/" == "^\\/"
         && "^\\/" + "excluded\\/" == "^\\/excluded\\/"
         && "^\\/excluded\\/" + "absolute\\/" == "^\\/excluded\\/absolute\\/"
  {
  }

  lemma ExcludedAbsoluteRegexPart2()
    ensures "^\\/excluded\\/absolute\\/" + ".*" == "^\\/excluded\\/absolute\\/.*"
         && "^\\/excluded\\/absolute\\/.*" + "$" == "^\\/excluded\\/absolute\\/.*$"
  {
  }

  /** The navigation rule excluding everything under `excluded/absolute`, without its negation mark. */
  lemma ExcludedAbsoluteGlob(g: string)
    requires g == "/excluded/absolute/**"
    ensures Glob.GlobToRegex(g, true) == "^\\/excluded\\/absolute\\/.*$"
  {
    ExcludedAbsoluteGlobPart1();
    ExcludedAbsoluteGlobPart2();
    RootPiece("");
    ExcludedWord("excluded");
    AbsoluteWord("absolute");
    StarsPiece("**");
    Segments.Glob4Left(g, "", "excluded", "absolute", "**");
    Segments.Anchored4("\\/", "excluded\\/", "absolute\\/", ".*");
    ExcludedAbsoluteRegexPart1();
    ExcludedAbsoluteRegexPart2();
  }

  lemma IncludedEscapedGlobPart1()
    ensures "" + "/" == "/"
         && "/" + "included" == "/included"
         && "/included" + "/" == "/included/"
  {
  }

  lemma IncludedEscapedGlobPart2()
    ensures "/included/" + "some" == "/included/some"
         && "/included/some" + "/" == "/included/some/"
  {
  }

  lemma IncludedEscapedGlobPart3()
    ensures "/included/some/" + "url?with+escaped+chars" == "/included/some/url?with+escaped+chars"
  {
  }

  lemma IncludedEscapedRegexPart1()
    ensures "^" + "\\/" == "^\\/"
         && "^\\/" + "included\\/" == "^\\/included\\/"
         && "^\\/included\\/" + "some\\/" == "^\\/included\\/some\\/"
  {
  }

  lemma IncludedEscapedRegexPart2()
    ensures "^\\/included\\/some\\/" + "url\\?with\\+escaped\\+chars" == "^\\/included\\/some\\/url\\?with\\+escaped\\+chars"
  {
  }

  lemma IncludedEscapedRegexPart3()
    ensures "^\\/included\\/some\\/url\\?with\\+escaped\\+chars" + "$" == "^\\/included\\/some\\/url\\?with\\+escaped\\+chars$"
  {
  }

  /** The navigation rule whose last segment holds characters that need escaping. */
  lemma IncludedEscapedGlob(g: string)
    requires g == "/included/some/url?with+escaped+chars"
    ensures Glob.GlobToRegex(g, true) == "^\\/included\\/some\\/url\\?with\\+escaped\\+chars$"
  {
    IncludedEscapedGlobPart1();
    IncludedEscapedGlobPart2();
    IncludedEscapedGlobPart3();
    RootPiece("");
    IncludedWord("included");
    SomeWord("some");
    EscapedPiece("url?with+escaped+chars");
    Segments.Glob4Left(g, "", "included", "some", "url?with+escaped+chars");
    Segments.Anchored4("\\/", "included\\/", "some\\/", "url\\?with\\+escaped\\+chars");
    IncludedEscapedRegexPart1();
    IncludedEscapedRegexPart2();
    IncludedEscapedRegexPart3();
  }

  lemma ExcludedRelativeGlobPart1()
    ensures "" + "/" == "/"
         && "/" + "test" == "/test"
         && "/test" + "/" == "/test/"
  {
  }

  lemma ExcludedRelativeGlobPart2()
    ensures "/test/" + "excluded" == "/test/excluded"
         && "/test/excluded" + "/" == "/test/excluded/"
         && "/test/excluded/" + "relative" == "/test/excluded/relative"
  {
  }

  lemma ExcludedRelativeGlobPart3()
    ensures "/test/excluded/relative" + "/" == "/test/excluded/relative/"
         && "/test/excluded/relative/" + "*.txt" == "/test/excluded/relative/*.txt"
  {
  }

  lemma ExcludedRelativeRegexPart1()
    ensures "^" + "\\/" == "^\\/"
         && "^\\/" + "test\\/" == "^\\/test\\/"
         && "^\\/test\\/" + "excluded\\/" == "^\\/test\\/excluded\\/"
  {
  }

  lemma ExcludedRelativeRegexPart2()
    ensures "^\\/test\\/excluded\\/" + "relative\\/" == "^\\/test\\/excluded\\/relative\\/"
         && "^\\/test\\/excluded\\/relative\\/" + "[^\\/]*\\.txt" == "^\\/test\\/excluded\\/relative\\/[^\\/]*\\.txt"
         && "^\\/test\\/excluded\\/relative\\/[^\\/]*\\.txt" + "$" == "^\\/test\\/excluded\\/relative\\/[^\\/]*\\.txt$"
  {
  }

  /** The navigation rule excluding text files under `excluded/relative`, resolved under the base `/test`, without its negation mark. */
  lemma ExcludedRelativeGlob(g: string)
    requires g == "/test/excluded/relative/*.txt"
    ensures Glob.GlobToRegex(g, true) == "^\\/test\\/excluded\\/relative\\/[^\\/]*\\.txt$"
  {
    ExcludedRelativeGlobPart1();
    ExcludedRelativeGlobPart2();
    ExcludedRelativeGlobPart3();
    RootPiece("");
    TestWord("test");
    ExcludedWord("excluded");
    RelativeWord("relative");
    TxtPiece("*.txt");
    Segments.Glob5Left(g, "", "test", "excluded", "relative", "*.txt");
    Segments.Anchored5("\\/", "test\\/", "excluded\\/", "relative\\/", "[^\\/]*\\.txt");
    ExcludedRelativeRegexPart1();
    ExcludedRelativeRegexPart2();
  }

  lemma SchemeIncludedGlobPart1()
    ensures "http:" + "/" == "http:/"
         && "http:/" + "" == "http:/"
         && "http:/" + "/" == "http://"
  {
  }

  lemma SchemeIncludedGlobPart2()
    ensures "http://" + "example.com" == "http://example.com"
         && "http://example.com" + "/" == "http://example.com/"
         && "http://example.com/" + "included" == "http://example.com/included"
  {
  }

  lemma SchemeIncludedRegexPart1()
    ensures "^" + "http:\\/" == "^http:\\/"
         && "^http:\\/" + "\\/" == "^http:\\/\\/"
         && "^http:\\/\\/" + "example\\.com\\/" == "^http:\\/\\/example\\.com\\/"
  {
  }

  lemma SchemeIncludedRegexPart2()
    ensures "^http:\\/\\/example\\.com\\/" + "included" == "^http:\\/\\/example\\.com\\/included"
         && "^http:\\/\\/example\\.com\\/included" + "$" == "^http:\\/\\/example\\.com\\/included$"
  {
  }

  /** The navigation rule with a scheme and a host, admitting one page. */
  lemma SchemeIncludedGlob(g: string)
    requires g == "http://example.com/included"
    ensures Glob.GlobToRegex(g, true) == "^http:\\/\\/example\\.com\\/included$"
  {
    SchemeIncludedGlobPart1();
    SchemeIncludedGlobPart2();
    HttpWord("http:");
    RootPiece("");
    HostPiece("example.com");
    IncludedWord("included");
    Segments.Glob4Left(g, "http:", "", "example.com", "included");
    Segments.Anchored4("http:\\/", "\\/", "example\\.com\\/", "included");
    SchemeIncludedRegexPart1();
    SchemeIncludedRegexPart2();
  }

  lemma SchemeExcludedGlobPart1()
    ensures "http:" + "/" == "http:/"
         && "http:/" + "" == "http:/"
         && "http:/" + "/" == "http://"
  {
  }

  lemma SchemeExcludedGlobPart2()
    ensures "http://" + "example.com" == "http://example.com"
         && "http://example.com" + "/" == "http://example.com/"
         && "http://example.com/" + "excluded" == "http://example.com/excluded"
  {
  }

  lemma SchemeExcludedRegexPart1()
    ensures "^" + "http:\\/" == "^http:\\/"
         && "^http:\\/" + "\\/" == "^http:\\/\\/"
         && "^http:\\/\\/" + "example\\.com\\/" == "^http:\\/\\/example\\.com\\/"
  {
  }

  lemma SchemeExcludedRegexPart2()
    ensures "^http:\\/\\/example\\.com\\/" + "excluded" == "^http:\\/\\/example\\.com\\/excluded"
         && "^http:\\/\\/example\\.com\\/excluded" + "$" == "^http:\\/\\/example\\.com\\/excluded$"
  {
  }

  /** The navigation rule with a scheme and a host, excluding one page, without its negation mark. */
  lemma SchemeExcludedGlob(g: string)
    requires g == "http://example.com/excluded"
    ensures Glob.GlobToRegex(g, true) == "^http:\\/\\/example\\.com\\/excluded$"
  {
    SchemeExcludedGlobPart1();
    SchemeExcludedGlobPart2();
    HttpWord("http:");
    RootPiece("");
    HostPiece("example.com");
    ExcludedWord("excluded");
    Segments.Glob4Left(g, "http:", "", "example.com", "excluded");
    Segments.Anchored4("http:\\/", "\\/", "example\\.com\\/", "excluded");
    SchemeExcludedRegexPart1();
    SchemeExcludedRegexPart2();
  }
}
