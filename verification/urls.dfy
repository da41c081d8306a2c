/** Path and URL resolution against the generator's base href.

    Two resolvers exist and must not be confused. A URL pattern (asset-group
    and data-group `urls`, navigation rules) keeps a leading separator and a
    scheme-qualified URL as they are and puts only relative patterns under
    the base. A file path (matched files, `index`) is always put under the
    base, leading separator or not. */
module Urls {
  import Strings
  import Glob

  function DropTrailingSlash(a: string): string {
    if |a| > 0 && a[|a| - 1] == '/' then a[..|a| - 1] else a
  }

  function DropLeadingSlash(b: string): string {
    if |b| > 0 && b[0] == '/' then b[1..] else b
  }

  predicate StartsWithSlash(s: string) {
    |s| > 0 && s[0] == '/'
  }

  /** Joins two URL parts so that exactly one separator stands between them:
      a trailing separator of `a` and a leading one of `b` collapse to one,
      and one is added when neither has it. */
  function JoinUrls(a: string, b: string): (r: string)
    ensures r == DropTrailingSlash(a) + "/" + DropLeadingSlash(b)
  {
    var aSlash := |a| > 0 && a[|a| - 1] == '/';
    var bSlash := StartsWithSlash(b);
    if aSlash && bSlash then a + b[1..]
    else if !aSlash && !bSlash then a + "/" + b
    else a + b
  }

  /** True when the URL names a scheme (`http://…`). */
  predicate HasScheme(url: string) {
    Strings.Contains(url, "://")
  }

  /** Resolves a URL pattern: scheme-qualified and root-anchored patterns are
      used as they are, relative ones are put under the base. */
  function ResolveUrl(base: string, url: string): (r: string)
    ensures HasScheme(url) || StartsWithSlash(url) ==> r == url
    ensures !HasScheme(url) && !StartsWithSlash(url) ==>
      r == DropTrailingSlash(base) + "/" + url
  {
    if HasScheme(url) || StartsWithSlash(url) then url else JoinUrls(base, url)
  }

  /** Resolves a file path of the served tree: always under the base. */
  function ResolveFile(base: string, path: string): (r: string)
    ensures r == DropTrailingSlash(base) + "/" + DropLeadingSlash(path)
  {
    JoinUrls(base, path)
  }

  /** Regex source of a URL pattern after resolution. */
  function UrlToRegex(base: string, url: string, anchored: bool): string {
    Glob.GlobToRegex(ResolveUrl(base, url), anchored)
  }

  /** Under a root-anchored base, resolving twice is resolving once: a
      resolved pattern is always scheme-qualified or root-anchored. */
  lemma ResolveUrlIdempotent(base: string, url: string)
    requires StartsWithSlash(base)
    ensures HasScheme(ResolveUrl(base, url)) || StartsWithSlash(ResolveUrl(base, url))
    ensures ResolveUrl(base, ResolveUrl(base, url)) == ResolveUrl(base, url)
  {
    if !HasScheme(url) && !StartsWithSlash(url) {
      var r := ResolveUrl(base, url);
      if |base| == 1 {
        assert DropTrailingSlash(base) == "";
      } else {
        assert DropTrailingSlash(base)[0] == '/';
      }
      assert r[0] == '/';
    }
  }

  /** The pattern of a relative URL is the base's pattern, an escaped
      separator, and the URL's own pattern. */
  lemma RelativePatternUnderBase(base: string, url: string)
    requires !HasScheme(url) && !StartsWithSlash(url)
    requires !(|base| > 0 && base[|base| - 1] == '/')
    requires Glob.LastSegment(base) != "**"
    ensures UrlToRegex(base, url, false)
         == Glob.GlobToRegex(base, false) + "\\/" + Glob.GlobToRegex(url, false)
  {
    Glob.RegexAround(base, url);
  }
}
