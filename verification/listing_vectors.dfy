/** The expectations of the generator's test about the served tree: which
    files the asset group claims, in which order, under which URLs, and the
    digests the hash table keeps for them.

    The tree of `generates a correct config` holds `/index.html`,
    `/test.txt`, `/foo/test.html` and `/ignored/x.html`. The group's `files`
    select the `.html` files at any depth and then exclude everything under
    `/ignored`; its `versionedFiles` select the `.txt` files at any depth. */
module ListingVectors {
  import opened Wrappers
  import Glob
  import Urls
  import Files
  import Segments
  import Generator
  import ConfigVectors

  // ---------------------------------------------------------------------
  // Token lists of the test's file globs

  /** A segment of a star followed by a star-free extension. */
  lemma StarThen(seg: string, ext: string)
    requires seg == ['*'] + ext && '*' !in ext
    ensures Glob.SegmentTokens(seg) == [Glob.Segment] + Glob.Lits(ext)
  {
    Glob.SegmentTokensAppend(['*'], ext);
    Glob.SegmentTokensShape(ext);
    assert Glob.SegmentTokens(ext) == Glob.Lits(ext);
  }

  /** A word without stars compiles to its own characters. */
  lemma WordTokens(w: string)
    requires '*' !in w
    ensures Glob.SegmentTokens(w) == Glob.Lits(w)
  {
    Glob.SegmentTokensShape(w);
  }

  /** A glob of three segments compiles segment by segment. */
  lemma Compile3(g: string, a: string, b: string, c: string)
    requires '/' !in a && '/' !in b && '/' !in c
    requires g == a + "/" + b + "/" + c
    ensures Glob.Compile(g) == Glob.CompileSegments([a, b, c])
  {
    Segments.Nested3(a, b, c);
    Segments.Segments3(a, b, c);
    Glob.CompileJoin([a, b, c]);
  }

  lemma DeepCut(g: string, a: string, b: string, c: string)
    requires g == "/**/" + c && a == "" && b == "**"
    ensures g == a + "/" + b + "/" + c
  {
    assert a + "/" + b + "/" == "/**/";
  }

  lemma WordCut(g: string, a: string, w: string, c: string)
    requires g == "/" + w + "/**" && a == "" && c == "**"
    ensures g == a + "/" + w + "/" + c
  {
    assert "/**" == "/" + c;
    assert a + "/" == "/";
  }

  /** Three segments with directories in the middle. */
  lemma DirsBetween(a: string, b: string, c: string)
    requires a != "**" && b == "**" && c != "**"
    ensures Glob.CompileSegments([a, b, c])
         == Glob.SegmentTokens(a) + [Glob.Lit('/')] + [Glob.Dirs] + Glob.SegmentTokens(c)
  {
    var segs := [a, b, c];
    assert segs[1..] == [b, c] && [b, c][1..] == [c];
    assert Glob.CompileSegments([b, c]) == [Glob.Dirs] + Glob.CompileSegments([c]);
    assert Glob.CompileSegments(segs) == Glob.SegmentTokens(a) + [Glob.Lit('/')] + Glob.CompileSegments([b, c]);
  }

  /** Three segments ending in anything. */
  lemma AnyLast(a: string, b: string, c: string)
    requires a != "**" && b != "**" && c == "**"
    ensures Glob.CompileSegments([a, b, c])
         == Glob.SegmentTokens(a) + [Glob.Lit('/')] + Glob.SegmentTokens(b) + [Glob.Lit('/')] + [Glob.Any]
  {
    var segs := [a, b, c];
    assert segs[1..] == [b, c] && [b, c][1..] == [c];
    assert Glob.CompileSegments([b, c]) == Glob.SegmentTokens(b) + [Glob.Lit('/')] + Glob.CompileSegments([c]);
    assert Glob.CompileSegments(segs) == Glob.SegmentTokens(a) + [Glob.Lit('/')] + Glob.CompileSegments([b, c]);
  }

  /** `/`, any directories, then a file name of the given extension. */
  lemma DeepExtension(g: string, c: string, ext: string)
    requires g == "/**/" + c && c == ['*'] + ext && '/' !in ext && '*' !in ext
    ensures Glob.Compile(g) == Glob.Lits("/") + [Glob.Dirs] + [Glob.Segment] + Glob.Lits(ext)
  {
    var a, b := "", "**";
    assert |a| == 0;
    assert |c| == 1 + |ext| && (|ext| > 0 ==> c[1] == ext[0] != '*');
    DeepCut(g, a, b, c);
    Compile3(g, a, b, c);
    DirsBetween(a, b, c);
    StarThen(c, ext);
  }

  /** `/`, a word, `/`, then anything. */
  lemma UnderWord(g: string, w: string)
    requires g == "/" + w + "/**" && '/' !in w && '*' !in w && w != "**"
    ensures Glob.Compile(g) == Glob.Lits("/" + w + "/") + [Glob.Any]
  {
    var a, c := "", "**";
    assert |a| == 0;
    WordCut(g, a, w, c);
    Compile3(g, a, w, c);
    AnyLast(a, w, c);
    WordTokens(w);
    Glob.LitsAppend("/", w);
    Glob.LitsAppend("/" + w, "/");
  }

  // ---------------------------------------------------------------------
  // What the compiled globs accept

  /** A path of a root, directories, a name and an extension is accepted by
      the pattern of that root, any directories, any name and extension. */
  lemma DeepMatch(p: string, d: string, n: string, ext: string, path: string)
    requires path == p + d + n + ext
    requires d == "" || (|d| >= 2 && d[|d| - 1] == '/')
    requires '/' !in n
    ensures Glob.Matches(Glob.Lits(p) + [Glob.Dirs] + [Glob.Segment] + Glob.Lits(ext), path)
  {
    Glob.MatchesLits(p, p);
    Glob.DirsAcceptsDirectories(d);
    Glob.SegmentStopsAtSeparator(n);
    Glob.MatchesLits(ext, ext);
    Glob.MatchesConcat(Glob.Lits(p), [Glob.Dirs], p, d);
    Glob.MatchesConcat(Glob.Lits(p) + [Glob.Dirs], [Glob.Segment], p + d, n);
    Glob.MatchesConcat(Glob.Lits(p) + [Glob.Dirs] + [Glob.Segment], Glob.Lits(ext), p + d + n, ext);
  }

  /** A pattern ending in literal text rejects a path whose last character
      differs from the text's. */
  lemma WrongLastChar(ts: seq<Glob.Token>, q: string, path: string)
    requires |q| > 0 && |path| > 0 && path[|path| - 1] != q[|q| - 1]
    ensures !Glob.Matches(ts + Glob.Lits(q), path)
  {
    EndsIfMatches(ts, q, path);
    if |q| <= |path| {
      assert path[|path| - |q|..][|q| - 1] == path[|path| - 1];
    }
  }

  lemma EndsIfMatches(ts: seq<Glob.Token>, q: string, path: string)
    ensures Glob.Matches(ts + Glob.Lits(q), path) ==> |q| <= |path| && path[|path| - |q|..] == q
  {
    if Glob.Matches(ts + Glob.Lits(q), path) {
      Glob.MatchesLitsSuffix(ts, q, path);
    }
  }

  /** A pattern starting with literal text rejects a path that differs from
      the text at some position. */
  lemma WrongChar(p: string, ts: seq<Glob.Token>, path: string, i: nat)
    requires i < |p| && i < |path| && path[i] != p[i]
    ensures !Glob.Matches(Glob.Lits(p) + ts, path)
  {
    Glob.MatchesLitsPrefix(p, ts, path);
  }

  /** A pattern of literal text and then anything accepts every path that
      starts with the text. */
  lemma PrefixMatch(p: string, rest: string, path: string)
    requires path == p + rest
    ensures Glob.Matches(Glob.Lits(p) + [Glob.Any], path)
  {
    Glob.MatchesLitsPrefix(p, [Glob.Any], path);
    assert path[|p|..] == rest;
    Glob.AnyAcceptsAll(rest);
  }

  // ---------------------------------------------------------------------
  // The test's globs

  /** The group's `files`: the `.html` files at any depth, then everything
      under `/ignored` taken out again. */
  const FileGlobs: seq<string> := ["/**/*.html", "!/ignored/**"]

  /** The group's `versionedFiles`: the `.txt` files at any depth. */
  const VersionedGlobs: seq<string> := ["/**/*.txt"]

  lemma HtmlTokens(g: string, ext: string)
    requires g == "/**/*.html" && ext == ".html"
    ensures Glob.Compile(g) == Glob.Lits("/") + [Glob.Dirs] + [Glob.Segment] + Glob.Lits(ext)
  {
    var c := ['*'] + ext;
    assert g == "/**/" + c;
    DeepExtension(g, c, ext);
  }

  lemma TxtTokens(g: string, ext: string)
    requires g == "/**/*.txt" && ext == ".txt"
    ensures Glob.Compile(g) == Glob.Lits("/") + [Glob.Dirs] + [Glob.Segment] + Glob.Lits(ext)
  {
    var c := ['*'] + ext;
    assert g == "/**/" + c;
    DeepExtension(g, c, ext);
  }

  lemma IgnoredTokens(g: string, p: string)
    requires g == "/ignored/**" && p == "/ignored/"
    ensures Glob.Compile(g) == Glob.Lits(p) + [Glob.Any]
  {
    var w := "ignored";
    assert g == "/" + w + "/**";
    assert p == "/" + w + "/";
    UnderWord(g, w);
  }

  /** The parts of the `files` list. */
  lemma FileGlobsParts(globs: seq<string>, inc: string, exc: string)
    requires globs == FileGlobs && inc == "/**/*.html" && exc == "/ignored/**"
    ensures globs == [inc, ['!'] + exc] && inc[0] == '/'
  {
    assert globs[1] == ['!'] + exc;
  }

  lemma VersionedGlobsParts(globs: seq<string>, inc: string)
    requires globs == VersionedGlobs && inc == "/**/*.txt"
    ensures globs == [inc] && inc[0] == '/'
  {
  }

  /** A list of one inclusion selects what that glob matches. */
  lemma OneInclusion(globs: seq<string>, inc: string, path: string)
    requires globs == [inc] && |inc| > 0 && inc[0] != '!'
    ensures Files.GlobListMatches(globs, path) <==> Glob.Matches(Glob.Compile(inc), path)
  {
    var rules := Files.ParseGlobList(globs);
    assert rules[0] == Files.ParseGlobRule(inc) && rules[1..] == [];
    assert Files.Verdict(rules, path, false) == Files.Verdict(rules[1..], path, Files.RuleHits(rules[0], path));
  }

  /** An inclusion followed by an exclusion selects what the first matches
      and the second does not. */
  lemma InclusionThenExclusion(globs: seq<string>, inc: string, exc: string, path: string)
    requires globs == [inc, ['!'] + exc] && |inc| > 0 && inc[0] != '!'
    ensures Files.GlobListMatches(globs, path)
        <==> Glob.Matches(Glob.Compile(inc), path) && !Glob.Matches(Glob.Compile(exc), path)
  {
    var rules := Files.ParseGlobList(globs);
    assert globs[1][1..] == exc;
    var rest := rules[1..];
    assert rules[0] == Files.ParseGlobRule(inc) && rest[0] == Files.ParseGlobRule(globs[1]) && rest[1..] == [];
    var hit := Files.RuleHits(rules[0], path);
    assert Files.Verdict(rules, path, false) == Files.Verdict(rest, path, hit);
    assert Files.Verdict(rest, path, hit) == Files.Verdict(rest[1..], path, hit && !Files.RuleHits(rest[0], path));
  }

  // ---------------------------------------------------------------------
  // The verdict of each glob list on each file of the tree

  /** `files` selects exactly the paths the `.html` pattern accepts and the
      `/ignored` pattern does not. */
  lemma FilesVerdict(path: string, html: string, ign: string)
    requires html == ".html" && ign == "/ignored/"
    ensures Files.GlobListMatches(FileGlobs, path)
        <==> (Glob.Matches(Glob.Lits("/") + [Glob.Dirs] + [Glob.Segment] + Glob.Lits(html), path)
              && !Glob.Matches(Glob.Lits(ign) + [Glob.Any], path))
  {
    var inc, exc := "/**/*.html", "/ignored/**";
    FileGlobsParts(FileGlobs, inc, exc);
    InclusionThenExclusion(FileGlobs, inc, exc, path);
    HtmlTokens(inc, html);
    IgnoredTokens(exc, ign);
  }

  /** `versionedFiles` selects exactly the paths the `.txt` pattern accepts. */
  lemma VersionedVerdict(path: string, txt: string)
    requires txt == ".txt"
    ensures Files.GlobListMatches(VersionedGlobs, path)
        <==> Glob.Matches(Glob.Lits("/") + [Glob.Dirs] + [Glob.Segment] + Glob.Lits(txt), path)
  {
    var inc := "/**/*.txt";
    VersionedGlobsParts(VersionedGlobs, inc);
    OneInclusion(VersionedGlobs, inc, path);
    TxtTokens(inc, txt);
  }

  lemma IndexCut(path: string, html: string, ign: string, txt: string)
    requires path == "/index.html" && html == ".html" && ign == "/ignored/" && txt == ".txt"
    ensures path == "/" + "" + "index" + html && '/' !in "index"
    ensures path[2] != ign[2] && path[|path| - 1] != txt[|txt| - 1]
  {
  }

  lemma TestTxtCut(path: string, html: string, ign: string, txt: string)
    requires path == "/test.txt" && html == ".html" && ign == "/ignored/" && txt == ".txt"
    ensures path == "/" + "" + "test" + txt && '/' !in "test"
    ensures path[|path| - 1] != html[|html| - 1]
  {
  }

  lemma FooTestCut(path: string, html: string, ign: string, txt: string)
    requires path == "/foo/test.html" && html == ".html" && ign == "/ignored/" && txt == ".txt"
    ensures path == "/" + "foo/" + "test" + html && '/' !in "test"
    ensures path[1] != ign[1] && path[|path| - 1] != txt[|txt| - 1]
  {
  }

  lemma IgnoredCut(path: string, html: string, ign: string, txt: string)
    requires path == "/ignored/x.html" && html == ".html" && ign == "/ignored/" && txt == ".txt"
    ensures path == ign + "x.html"
    ensures path[|path| - 1] != txt[|txt| - 1]
  {
  }

  /** `/index.html` is one of the `files` and not one of the `versionedFiles`. */
  lemma IndexSelection(path: string)
    requires path == "/index.html"
    ensures Files.GlobListMatches(FileGlobs, path) && !Files.GlobListMatches(VersionedGlobs, path)
  {
    var html, ign, txt := ".html", "/ignored/", ".txt";
    IndexCut(path, html, ign, txt);
    FilesVerdict(path, html, ign);
    VersionedVerdict(path, txt);
    DeepMatch("/", "", "index", html, path);
    WrongChar(ign, [Glob.Any], path, 2);
    WrongLastChar(Glob.Lits("/") + [Glob.Dirs] + [Glob.Segment], txt, path);
  }

  /** `/test.txt` is one of the `versionedFiles` and not one of the `files`. */
  lemma TestTxtSelection(path: string)
    requires path == "/test.txt"
    ensures !Files.GlobListMatches(FileGlobs, path) && Files.GlobListMatches(VersionedGlobs, path)
  {
    var html, ign, txt := ".html", "/ignored/", ".txt";
    TestTxtCut(path, html, ign, txt);
    FilesVerdict(path, html, ign);
    VersionedVerdict(path, txt);
    WrongLastChar(Glob.Lits("/") + [Glob.Dirs] + [Glob.Segment], html, path);
    DeepMatch("/", "", "test", txt, path);
  }

  /** `/foo/test.html`, one directory down, is one of the `files` and not
      one of the `versionedFiles`. */
  lemma FooTestSelection(path: string)
    requires path == "/foo/test.html"
    ensures Files.GlobListMatches(FileGlobs, path) && !Files.GlobListMatches(VersionedGlobs, path)
  {
    var html, ign, txt := ".html", "/ignored/", ".txt";
    FooTestCut(path, html, ign, txt);
    FilesVerdict(path, html, ign);
    VersionedVerdict(path, txt);
    DeepMatch("/", "foo/", "test", html, path);
    WrongChar(ign, [Glob.Any], path, 1);
    WrongLastChar(Glob.Lits("/") + [Glob.Dirs] + [Glob.Segment], txt, path);
  }

  /** `/ignored/x.html` is excluded from the `files` and is not one of the
      `versionedFiles`. */
  lemma IgnoredSelection(path: string)
    requires path == "/ignored/x.html"
    ensures !Files.GlobListMatches(FileGlobs, path) && !Files.GlobListMatches(VersionedGlobs, path)
  {
    var html, ign, txt := ".html", "/ignored/", ".txt";
    IgnoredCut(path, html, ign, txt);
    FilesVerdict(path, html, ign);
    VersionedVerdict(path, txt);
    PrefixMatch(ign, "x.html", path);
    WrongLastChar(Glob.Lits("/") + [Glob.Dirs] + [Glob.Segment], txt, path);
  }

  // ---------------------------------------------------------------------
  // The asset group's files, in order

  /** The served tree of `generates a correct config`, in listing order. */
  const Tree: Files.FileTree := [
    Files.FileEntry("/index.html", "This is a test"),
    Files.FileEntry("/test.txt", "Another test"),
    Files.FileEntry("/foo/test.html", "Another test"),
    Files.FileEntry("/ignored/x.html", "should be ignored")]

  /** The paths of the tree, in listing order. */
  lemma TreeListing(fs: Files.FileTree, a: string, b: string, c: string, d: string)
    requires fs == Tree
    requires a == "/index.html" && b == "/test.txt" && c == "/foo/test.html" && d == "/ignored/x.html"
    ensures Files.Listing(fs) == [a, b, c, d]
  {
    ConfigVectors.Entries4(Files.Listing(fs), a, b, c, d);
  }

  /** The selection of one listed path: itself when the globs select it and
      it is not claimed yet, nothing otherwise. */
  function Pick(f: string, globs: seq<string>, seen: set<string>): seq<string> {
    if Files.GlobListMatches(globs, f) && f !in seen then [f] else []
  }

  lemma SelectCons(listing: seq<string>, globs: seq<string>, seen: set<string>)
    requires |listing| > 0
    ensures Files.SelectFiles(listing, globs, seen)
         == Pick(listing[0], globs, seen) + Files.SelectFiles(listing[1..], globs, seen)
  {
  }

  lemma Select1(listing: seq<string>, globs: seq<string>, seen: set<string>, d: string)
    requires listing == [d]
    ensures Files.SelectFiles(listing, globs, seen) == Pick(d, globs, seen)
  {
    SelectCons(listing, globs, seen);
    assert listing[1..] == [];
  }

  lemma Select2(listing: seq<string>, globs: seq<string>, seen: set<string>, c: string, d: string)
    requires listing == [c, d]
    ensures Files.SelectFiles(listing, globs, seen) == Pick(c, globs, seen) + Pick(d, globs, seen)
  {
    SelectCons(listing, globs, seen);
    assert listing[1..] == [d];
    Select1([d], globs, seen, d);
  }

  lemma Select3(listing: seq<string>, globs: seq<string>, seen: set<string>, b: string, c: string, d: string)
    requires listing == [b, c, d]
    ensures Files.SelectFiles(listing, globs, seen)
         == Pick(b, globs, seen) + (Pick(c, globs, seen) + Pick(d, globs, seen))
  {
    SelectCons(listing, globs, seen);
    assert listing[1..] == [c, d];
    Select2([c, d], globs, seen, c, d);
  }

  /** Selecting from a listing of four paths is selecting each in turn. */
  lemma Select4(listing: seq<string>, globs: seq<string>, seen: set<string>,
                a: string, b: string, c: string, d: string)
    requires listing == [a, b, c, d]
    ensures Files.SelectFiles(listing, globs, seen)
         == Pick(a, globs, seen) + (Pick(b, globs, seen) + (Pick(c, globs, seen) + Pick(d, globs, seen)))
  {
    SelectCons(listing, globs, seen);
    assert listing[1..] == [b, c, d];
    Select3([b, c, d], globs, seen, b, c, d);
  }

  /** The `files` of the group select `/index.html` and `/foo/test.html`,
      in listing order. */
  lemma PlainFiles(listing: seq<string>, a: string, b: string, c: string, d: string)
    requires listing == [a, b, c, d]
    requires a == "/index.html" && b == "/test.txt" && c == "/foo/test.html" && d == "/ignored/x.html"
    ensures Files.SelectFiles(listing, FileGlobs, {}) == [a, c]
  {
    IndexSelection(a);
    TestTxtSelection(b);
    FooTestSelection(c);
    IgnoredSelection(d);
    PicksTwo(listing, FileGlobs, {}, a, b, c, d);
  }

  /** A selection of the first and third of four paths. */
  lemma PicksTwo(listing: seq<string>, globs: seq<string>, seen: set<string>,
                 a: string, b: string, c: string, d: string)
    requires listing == [a, b, c, d]
    requires Files.GlobListMatches(globs, a) && a !in seen
    requires !Files.GlobListMatches(globs, b)
    requires Files.GlobListMatches(globs, c) && c !in seen
    requires !Files.GlobListMatches(globs, d)
    ensures Files.SelectFiles(listing, globs, seen) == [a, c]
  {
    Select4(listing, globs, seen, a, b, c, d);
    assert Pick(a, globs, seen) == [a] && Pick(b, globs, seen) == [];
    assert Pick(c, globs, seen) == [c] && Pick(d, globs, seen) == [];
  }

  /** A selection of the second of four paths. */
  lemma PicksSecond(listing: seq<string>, globs: seq<string>, seen: set<string>,
                    a: string, b: string, c: string, d: string)
    requires listing == [a, b, c, d]
    requires !Files.GlobListMatches(globs, a)
    requires Files.GlobListMatches(globs, b) && b !in seen
    requires !Files.GlobListMatches(globs, c)
    requires !Files.GlobListMatches(globs, d)
    ensures Files.SelectFiles(listing, globs, seen) == [b]
  {
    Select4(listing, globs, seen, a, b, c, d);
    assert Pick(a, globs, seen) == [] && Pick(b, globs, seen) == [b];
    assert Pick(c, globs, seen) == [] && Pick(d, globs, seen) == [];
  }

  /** The `versionedFiles` of the group, after the `files`, select
      `/test.txt` only. */
  lemma VersionedFiles(listing: seq<string>, a: string, b: string, c: string, d: string)
    requires listing == [a, b, c, d]
    requires a == "/index.html" && b == "/test.txt" && c == "/foo/test.html" && d == "/ignored/x.html"
    ensures Files.SelectFiles(listing, VersionedGlobs, Generator.Including({}, [a, c])) == [b]
  {
    IndexSelection(a);
    TestTxtSelection(b);
    FooTestSelection(c);
    IgnoredSelection(d);
    var seen := Generator.Including({}, [a, c]);
    Unclaimed(seen, a, b, c);
    PicksSecond(listing, VersionedGlobs, seen, a, b, c, d);
  }

  /** `/test.txt` is not among the files the `files` claimed. */
  lemma Unclaimed(seen: set<string>, a: string, b: string, c: string)
    requires seen == Generator.Including({}, [a, c])
    requires a == "/index.html" && b == "/test.txt" && c == "/foo/test.html"
    ensures b !in seen
  {
    assert |b| != |a| && |b| != |c|;
  }

  // ---------------------------------------------------------------------
  // The compiled asset group

  /** The asset group of `generates a correct config`: no modes given. */
  const TestGroup: Generator.AssetGroupConfig :=
    Generator.AssetGroupConfig("test", None, None, FileGlobs, VersionedGlobs, ConfigVectors.AssetUrls)

  /** The group claims `/index.html` and `/foo/test.html` through its
      `files` and then `/test.txt` through its `versionedFiles`. */
  lemma TestGroupFiles(base: string, listing: seq<string>, g: Generator.AssetGroupConfig,
                       a: string, b: string, c: string, d: string)
    requires g == TestGroup && listing == [a, b, c, d]
    requires a == "/index.html" && b == "/test.txt" && c == "/foo/test.html" && d == "/ignored/x.html"
    ensures Generator.ProcessAssetGroup(base, listing, g, {}).files == [a, c, b]
  {
    PlainFiles(listing, a, b, c, d);
    VersionedFiles(listing, a, b, c, d);
  }

  /** A rooted path of the tree is served under the base `/test`. */
  lemma FileUnderTest(base: string, path: string, rest: string)
    requires base == "/test" && path == "/" + rest
    ensures Urls.ResolveFile(base, path) == "/test/" + rest
  {
    ConfigVectors.TestBase(base);
    assert Urls.DropLeadingSlash(path) == rest;
  }

  lemma IndexUrl(base: string, path: string, url: string)
    requires base == "/test" && path == "/index.html" && url == "/test/index.html"
    ensures Urls.ResolveFile(base, path) == url
  {
    var rest := "index.html";
    assert path == "/" + rest && url == "/test/" + rest;
    FileUnderTest(base, path, rest);
  }

  lemma FooTestUrl(base: string, path: string, url: string)
    requires base == "/test" && path == "/foo/test.html" && url == "/test/foo/test.html"
    ensures Urls.ResolveFile(base, path) == url
  {
    var rest := "foo/test.html";
    assert path == "/" + rest && url == "/test/" + rest;
    FileUnderTest(base, path, rest);
  }

  lemma TestTxtUrl(base: string, path: string, url: string)
    requires base == "/test" && path == "/test.txt" && url == "/test/test.txt"
    ensures Urls.ResolveFile(base, path) == url
  {
    var rest := "test.txt";
    assert path == "/" + rest && url == "/test/" + rest;
    FileUnderTest(base, path, rest);
  }

  lemma FileUrls3(base: string, files: seq<string>, u0: string, u1: string, u2: string)
    requires |files| == 3
    requires Urls.ResolveFile(base, files[0]) == u0
    requires Urls.ResolveFile(base, files[1]) == u1
    requires Urls.ResolveFile(base, files[2]) == u2
    ensures Generator.FileUrls(base, files) == [u0, u1, u2]
  {
    var us := Generator.FileUrls(base, files);
    assert us[0] == u0 && us[1] == u1 && us[2] == u2;
  }

  /** The claimed files under the base, in the order claimed. */
  lemma TestGroupUrls(base: string, files: seq<string>)
    requires base == "/test" && files == ["/index.html", "/foo/test.html", "/test.txt"]
    ensures Generator.FileUrls(base, files) == ["/test/index.html", "/test/foo/test.html", "/test/test.txt"]
  {
    var u0, u1, u2 := "/test/index.html", "/test/foo/test.html", "/test/test.txt";
    IndexUrl(base, files[0], u0);
    FooTestUrl(base, files[1], u1);
    TestTxtUrl(base, files[2], u2);
    FileUrls3(base, files, u0, u1, u2);
  }

  /** The compiled asset group of `generates a correct config`: both modes
      default to `prefetch`, the claimed files are listed under the base in
      the order claimed, and the URL patterns are compiled. */
  lemma TestGroupResult(base: string, listing: seq<string>, g: Generator.AssetGroupConfig)
    requires base == "/test" && g == TestGroup
    requires listing == ["/index.html", "/test.txt", "/foo/test.html", "/ignored/x.html"]
    ensures Generator.ProcessAssetGroup(base, listing, g, {}) == Generator.AssetResult(
      Generator.AssetGroup("test", "prefetch", "prefetch",
        ["/test/index.html", "/test/foo/test.html", "/test/test.txt"],
        ["\\/absolute\\/.*", "\\/some\\/url\\?with\\+escaped\\+chars", "\\/test\\/relative\\/[^\\/]*\\.txt"]),
      ["/index.html", "/foo/test.html", "/test.txt"])
  {
    TestGroupFiles(base, listing, g, listing[0], listing[1], listing[2], listing[3]);
    TestGroupUrls(base, Generator.ProcessAssetGroup(base, listing, g, {}).files);
    ConfigVectors.AssetGroupPatterns(base, g.urls);
  }

  // ---------------------------------------------------------------------
  // The hash table

  /** Reading finds the first entry with the path. */
  lemma ReadHere(fs: Files.FileTree, path: string)
    requires |fs| > 0 && fs[0].path == path
    ensures Files.Read(fs, path) == Some(fs[0].content)
  {
  }

  lemma ReadOn(fs: Files.FileTree, path: string)
    requires |fs| > 0 && fs[0].path != path
    ensures Files.Read(fs, path) == Files.Read(fs[1..], path)
  {
  }

  lemma ReadIndex(fs: Files.FileTree, path: string)
    requires fs == Tree && path == "/index.html"
    ensures Files.Read(fs, path) == Some("This is a test")
  {
    ReadHere(fs, path);
  }

  lemma ReadTestTxt(fs: Files.FileTree, path: string)
    requires fs == Tree && path == "/test.txt"
    ensures Files.Read(fs, path) == Some("Another test")
  {
    assert fs[0].path != path;
    ReadOn(fs, path);
    ReadHere(fs[1..], path);
  }

  lemma ReadFooTest(fs: Files.FileTree, path: string)
    requires fs == Tree && path == "/foo/test.html"
    ensures Files.Read(fs, path) == Some("Another test")
  {
    assert fs[0].path != path && fs[1].path != path;
    ReadOn(fs, path);
    ReadOn(fs[1..], path);
    assert fs[1..][1..] == fs[2..];
    ReadHere(fs[2..], path);
  }

  /** The table of three files, built one file at a time. */
  lemma HashTable3(fs: Files.FileTree, base: string, hash: string -> string, files: seq<string>,
                   c0: string, c1: string, c2: string, u0: string, u1: string, u2: string)
    requires |files| == 3
    requires Files.Read(fs, files[0]) == Some(c0) && Urls.ResolveFile(base, files[0]) == u0
    requires Files.Read(fs, files[1]) == Some(c1) && Urls.ResolveFile(base, files[1]) == u1
    requires Files.Read(fs, files[2]) == Some(c2) && Urls.ResolveFile(base, files[2]) == u2
    ensures Generator.HashTable(fs, base, hash, files) == Ok(map[u0 := hash(c0), u1 := hash(c1), u2 := hash(c2)])
  {
    var f0, f1 := files[0], files[1];
    assert [f0][..0] == [] && [f0, f1][..1] == [f0] && files[..2] == [f0, f1];
    HashStep(fs, base, hash, [f0], map[], c0, u0);
    HashStep(fs, base, hash, [f0, f1], map[u0 := hash(c0)], c1, u1);
    HashStep(fs, base, hash, files, map[u0 := hash(c0), u1 := hash(c1)], c2, u2);
  }

  /** One more file: the table so far with the last file's digest added. */
  lemma HashStep(fs: Files.FileTree, base: string, hash: string -> string, files: seq<string>,
                 table: map<string, string>, c: string, u: string)
    requires |files| > 0
    requires Generator.HashTable(fs, base, hash, files[..|files| - 1]) == Ok(table)
    requires Files.Read(fs, files[|files| - 1]) == Some(c)
    requires Urls.ResolveFile(base, files[|files| - 1]) == u
    ensures Generator.HashTable(fs, base, hash, files) == Ok(table[u := hash(c)])
  {
  }

  /** The hash table of `generates a correct config`: the three claimed
      files under the base, each with the digest of its content. */
  lemma TestHashTable(fs: Files.FileTree, base: string, hash: string -> string, files: seq<string>)
    requires fs == Tree && base == "/test"
    requires files == ["/index.html", "/foo/test.html", "/test.txt"]
    ensures Generator.HashTable(fs, base, hash, files) == Ok(map[
      "/test/index.html" := hash("This is a test"),
      "/test/foo/test.html" := hash("Another test"),
      "/test/test.txt" := hash("Another test")])
  {
    var u0, u1, u2 := "/test/index.html", "/test/foo/test.html", "/test/test.txt";
    ReadIndex(fs, files[0]);
    ReadFooTest(fs, files[1]);
    ReadTestTxt(fs, files[2]);
    IndexUrl(base, files[0], u0);
    FooTestUrl(base, files[1], u1);
    TestTxtUrl(base, files[2], u2);
    HashTable3(fs, base, hash, files, "This is a test", "Another test", "Another test", u0, u1, u2);
  }

  /** Equal contents give equal digests: `/test/test.txt` and
      `/test/foo/test.html` share one, and the excluded file has none. */
  lemma TestDigests(fs: Files.FileTree, base: string, hash: string -> string, files: seq<string>,
                    u0: string, u1: string, u2: string, excluded: string)
    requires fs == Tree && base == "/test"
    requires files == ["/index.html", "/foo/test.html", "/test.txt"]
    requires u0 == "/test/index.html" && u1 == "/test/foo/test.html" && u2 == "/test/test.txt"
    requires excluded == "/test/ignored/x.html"
    ensures Generator.HashTable(fs, base, hash, files).Ok?
    ensures var table := Generator.HashTable(fs, base, hash, files).value;
      && table.Keys == {u0, u1, u2}
      && table[u2] == table[u1]
      && excluded !in table
  {
    TestHashTable(fs, base, hash, files);
    assert |excluded| != |u0| && |excluded| != |u1| && |excluded| != |u2|;
    ThreeKeys(Generator.HashTable(fs, base, hash, files).value, u0, u1, u2,
      hash("This is a test"), hash("Another test"), excluded);
  }

  lemma ThreeKeys(table: map<string, string>, u0: string, u1: string, u2: string,
                  h0: string, h1: string, x: string)
    requires table == map[u0 := h0, u1 := h1, u2 := h1]
    requires x != u0 && x != u1 && x != u2
    ensures table.Keys == {u0, u1, u2} && table[u2] == table[u1] == h1 && x !in table
  {
  }
}
