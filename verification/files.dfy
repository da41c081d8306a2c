/** The file matcher: resolves asset-group `files` / `versionedFiles` glob
    lists against an ordered listing of the served file tree.

    A glob list is read left to right. Starting from "not matched", a plain
    glob that matches turns the file on, and a glob written with a leading
    `!` that matches turns it off again; globs that do not match leave the
    verdict alone. Globs are matched, anchored at both ends, against the
    listing's paths, which are rooted at the served directory (`/index.html`). */
module Files {
  import opened Wrappers
  import Glob

  /** One file of the served tree: its path (rooted, `/foo/test.html`) and content. */
  datatype FileEntry = FileEntry(path: string, content: string)

  /** The served tree as the filesystem lists it, in listing order. */
  type FileTree = seq<FileEntry>

  /** The listing of the tree: its paths in listing order. */
  function Listing(fs: FileTree): (paths: seq<string>)
    ensures |paths| == |fs|
    ensures forall i :: 0 <= i < |fs| ==> paths[i] == fs[i].path
    decreases |fs|
  {
    if |fs| == 0 then [] else [fs[0].path] + Listing(fs[1..])
  }

  /** Reads a file: the content of the first entry with that path. */
  function Read(fs: FileTree, path: string): (r: Option<string>)
    ensures r.None? <==> path !in Listing(fs)
    ensures r.Some? ==> exists i :: 0 <= i < |fs| && fs[i] == FileEntry(path, r.value)
    decreases |fs|
  {
    if |fs| == 0 then None
    else if fs[0].path == path then Some(fs[0].content)
    else Read(fs[1..], path)
  }

  /** A compiled entry of a glob list. */
  datatype GlobRule = GlobRule(positive: bool, tokens: seq<Glob.Token>)

  /** Compiles one glob-list entry; a leading `!` marks an exclusion. */
  function ParseGlobRule(glob: string): (r: GlobRule)
    ensures r.positive <==> !(|glob| > 0 && glob[0] == '!')
    ensures r.tokens == Glob.Compile(if r.positive then glob else glob[1..])
  {
    if |glob| > 0 && glob[0] == '!' then GlobRule(false, Glob.Compile(glob[1..]))
    else GlobRule(true, Glob.Compile(glob))
  }

  function ParseGlobList(globs: seq<string>): (rules: seq<GlobRule>)
    ensures |rules| == |globs|
    ensures forall i :: 0 <= i < |globs| ==> rules[i] == ParseGlobRule(globs[i])
    decreases |globs|
  {
    if |globs| == 0 then [] else [ParseGlobRule(globs[0])] + ParseGlobList(globs[1..])
  }

  predicate RuleHits(rule: GlobRule, path: string) {
    Glob.Matches(rule.tokens, path)
  }

  /** The left-to-right verdict of `rules` on `path`, starting from `verdict`. */
  function Verdict(rules: seq<GlobRule>, path: string, verdict: bool): bool
    decreases |rules|
  {
    if |rules| == 0 then verdict
    else
      var hit := RuleHits(rules[0], path);
      Verdict(rules[1..], path, if rules[0].positive then verdict || hit else verdict && !hit)
  }

  /** True when the glob list selects `path`. */
  predicate GlobListMatches(globs: seq<string>, path: string) {
    Verdict(ParseGlobList(globs), path, false)
  }

  // ---------------------------------------------------------------------
  // Two independent readings of the verdict

  /** Some rule hits the path. */
  predicate SomeHit(rules: seq<GlobRule>, path: string) {
    exists i :: 0 <= i < |rules| && RuleHits(rules[i], path)
  }

  /** The last rule that hits the path is an inclusion. */
  predicate LastHitIncludes(rules: seq<GlobRule>, path: string) {
    exists i :: 0 <= i < |rules| && RuleHits(rules[i], path) && rules[i].positive
      && forall j :: i < j < |rules| ==> !RuleHits(rules[j], path)
  }

  /** A rule hits when the first one does or a later one does. */
  lemma SomeHitCons(rules: seq<GlobRule>, path: string)
    requires |rules| > 0
    ensures SomeHit(rules, path) <==> RuleHits(rules[0], path) || SomeHit(rules[1..], path)
  {
    if SomeHit(rules, path) && !RuleHits(rules[0], path) {
      var i :| 0 <= i < |rules| && RuleHits(rules[i], path);
      assert rules[1..][i - 1] == rules[i];
    }
    if SomeHit(rules[1..], path) {
      var i :| 0 <= i < |rules[1..]| && RuleHits(rules[1..][i], path);
      assert rules[i + 1] == rules[1..][i];
    }
  }

  /** The last hit is a later rule's when a later rule hits, and otherwise
      the first rule's, if it hits. */
  lemma LastHitCons(rules: seq<GlobRule>, path: string)
    requires |rules| > 0
    ensures LastHitIncludes(rules, path) <==>
      if SomeHit(rules[1..], path) then LastHitIncludes(rules[1..], path)
      else RuleHits(rules[0], path) && rules[0].positive
  {
    var rest := rules[1..];
    assert forall j :: 0 < j < |rules| ==> rules[j] == rest[j - 1];
    if LastHitIncludes(rules, path) {
      var k :| 0 <= k < |rules| && RuleHits(rules[k], path) && rules[k].positive
        && forall j :: k < j < |rules| ==> !RuleHits(rules[j], path);
      if k > 0 {
        assert rest[k - 1] == rules[k];
        assert LastHitIncludes(rest, path) by {
          assert forall j :: k - 1 < j < |rest| ==> rest[j] == rules[j + 1];
        }
      } else {
        assert !SomeHit(rest, path) by {
          assert forall j :: 0 <= j < |rest| ==> rest[j] == rules[j + 1];
        }
      }
    }
    if SomeHit(rest, path) && LastHitIncludes(rest, path) {
      var k :| 0 <= k < |rest| && RuleHits(rest[k], path) && rest[k].positive
        && forall j :: k < j < |rest| ==> !RuleHits(rest[j], path);
      assert rules[k + 1] == rest[k];
      assert forall j :: k + 1 < j < |rules| ==> rules[j] == rest[j - 1];
    }
    if !SomeHit(rest, path) && RuleHits(rules[0], path) && rules[0].positive {
      assert forall j :: 0 < j < |rules| ==> !RuleHits(rules[j], path);
    }
  }

  /** The verdict is decided by the last glob that hits the path: selected
      when that glob is an inclusion, and the starting verdict when none hits. */
  lemma {:induction false} LastHitDecides(rules: seq<GlobRule>, path: string, verdict: bool)
    ensures Verdict(rules, path, verdict) ==
      if SomeHit(rules, path) then LastHitIncludes(rules, path) else verdict
    decreases |rules|
  {
    if |rules| > 0 {
      var hit := RuleHits(rules[0], path);
      var next := if rules[0].positive then verdict || hit else verdict && !hit;
      LastHitDecides(rules[1..], path, next);
      SomeHitCons(rules, path);
      LastHitCons(rules, path);
    }
  }

  /** Inclusions all come before exclusions (a list of file globs followed by
      `!`-globs, as the generator's test writes them). */
  predicate ExclusionsLast(rules: seq<GlobRule>) {
    forall i, j :: 0 <= i < j < |rules| && !rules[i].positive ==> !rules[j].positive
  }

  /** Some inclusion hits the path. */
  predicate SomeInclusionHits(rules: seq<GlobRule>, path: string) {
    exists i :: 0 <= i < |rules| && rules[i].positive && RuleHits(rules[i], path)
  }

  /** No exclusion hits the path. */
  predicate NoExclusionHits(rules: seq<GlobRule>, path: string) {
    forall i :: 0 <= i < |rules| && !rules[i].positive ==> !RuleHits(rules[i], path)
  }

  /** When exclusions come last, a path is selected exactly when some
      inclusion matches it and no exclusion does. */
  lemma {:induction false} IncludeThenExclude(rules: seq<GlobRule>, path: string, verdict: bool)
    requires ExclusionsLast(rules)
    ensures Verdict(rules, path, verdict) ==
      ((verdict || SomeInclusionHits(rules, path)) && NoExclusionHits(rules, path))
    decreases |rules|
  {
    if |rules| > 0 {
      var hit := RuleHits(rules[0], path);
      var next := if rules[0].positive then verdict || hit else verdict && !hit;
      var rest := rules[1..];
      assert ExclusionsLast(rest) by {
        forall i, j | 0 <= i < j < |rest| && !rest[i].positive
          ensures !rest[j].positive
        {
          assert rest[i] == rules[i + 1] && rest[j] == rules[j + 1];
        }
      }
      IncludeThenExclude(rest, path, next);
      assert forall i :: 0 < i < |rules| ==> rules[i] == rest[i - 1];
      if SomeInclusionHits(rest, path) {
        var i :| 0 <= i < |rest| && rest[i].positive && RuleHits(rest[i], path);
        assert rules[i + 1] == rest[i];
      }
      if !rules[0].positive {
        assert !SomeInclusionHits(rest, path);
        assert !SomeInclusionHits(rules, path);
      }
      if NoExclusionHits(rules, path) {
        forall i | 0 <= i < |rest| && !rest[i].positive
          ensures !RuleHits(rest[i], path)
        {
          assert rules[i + 1] == rest[i];
        }
      }
    }
  }

  // ---------------------------------------------------------------------
  // Selecting files from the listing

  /** `sub` is `full` with some elements left out, order kept. */
  predicate SubsequenceOf<T(==)>(sub: seq<T>, full: seq<T>)
    decreases |full|
  {
    |sub| == 0 ||
    (|full| > 0 && (if sub[0] == full[0] then SubsequenceOf(sub[1..], full[1..])
                    else SubsequenceOf(sub, full[1..])))
  }

  predicate Distinct<T(==)>(s: seq<T>) {
    forall i, j :: 0 <= i < j < |s| ==> s[i] != s[j]
  }

  /** The listed paths the glob list selects that are not yet in `seen`, in
      listing order. */
  function SelectFiles(listing: seq<string>, globs: seq<string>, seen: set<string>)
    : (r: seq<string>)
    ensures forall f :: f in r <==> f in listing && GlobListMatches(globs, f) && f !in seen
    ensures SubsequenceOf(r, listing)
    ensures Distinct(listing) ==> Distinct(r)
    decreases |listing|
  {
    if |listing| == 0 then []
    else
      var rest := SelectFiles(listing[1..], globs, seen);
      var f := listing[0];
      if GlobListMatches(globs, f) && f !in seen then
        assert Distinct(listing) ==> f !in listing[1..];
        [f] + rest
      else rest
  }

  /** Two duplicate-free sequences with nothing in common append to a
      duplicate-free sequence. */
  lemma DistinctAppend<T>(a: seq<T>, b: seq<T>)
    requires Distinct(a) && Distinct(b)
    requires forall x :: x in a ==> x !in b
    ensures Distinct(a + b)
  {
    forall i, j | 0 <= i < j < |a + b|
      ensures (a + b)[i] != (a + b)[j]
    {
      if i < |a| && j >= |a| {
        assert (a + b)[i] in a && (a + b)[j] == b[j - |a|];
      }
    }
  }
}
