/** The regex of a glob assembled from the regexes of its segments.

    A concrete glob is written as its segments glued with separators; the
    lemmas here turn it into the regex as a concatenation of per-segment
    texts, so a fact about a particular glob never needs the compiler to be
    unfolded one character at a time. */
module Segments {
  import Strings
  import Glob

  /** Regex text of a segment followed by a separator. */
  function HeadRegex(seg: string): string {
    if seg == "**" then Glob.DirsText else Glob.SegmentRegex(seg) + "\\/"
  }

  /** Regex text of a final segment. */
  function LastRegex(seg: string): string {
    if seg == "**" then Glob.AnyText else Glob.SegmentRegex(seg)
  }

  /** Characters a plain word of a glob may not hold. */
  predicate Plain(seg: string) {
    '*' !in seg && '/' !in seg && '.' !in seg && '?' !in seg && '+' !in seg
  }

  /** A plain word is its own regex, before a separator or at the end. */
  lemma PlainRegex(seg: string)
    requires Plain(seg)
    ensures Glob.SegmentRegex(seg) == seg
    ensures HeadRegex(seg) == seg + "\\/" && LastRegex(seg) == seg
  {
    Glob.PlainSegment(seg);
  }

  /** An escaped character followed by a plain word. */
  lemma EscapedThen(seg: string)
    requires |seg| > 0 && Glob.NeedsEscape(seg[0]) && Plain(seg[1..])
    ensures Glob.SegmentRegex(seg) == ['\\', seg[0]] + seg[1..]
  {
    assert seg == [seg[0]] + seg[1..];
    Glob.SegmentRegexAppend([seg[0]], seg[1..]);
    Glob.EscapedChar(seg[0]);
    Glob.PlainSegment(seg[1..]);
  }

  /** A word led by one character that needs escaping. */
  lemma EscapedWord(p: string, c: char, w: string)
    requires p == [c] + w && Glob.NeedsEscape(c) && Plain(w)
    ensures Glob.SegmentRegex(p) == ['\\', c] + w
  {
    assert p[1..] == w;
    EscapedThen(p);
  }

  // ---------------------------------------------------------------------
  // Globs of two to five segments

  lemma SegmentsOne(a: string)
    ensures Strings.Join([a], '/') == a
    ensures Glob.SegmentsRegex([a]) == LastRegex(a)
  {
  }

  lemma SegmentsCons(a: string, rest: seq<string>)
    requires |rest| >= 1
    ensures Strings.Join([a] + rest, '/') == a + "/" + Strings.Join(rest, '/')
    ensures Glob.SegmentsRegex([a] + rest) == HeadRegex(a) + Glob.SegmentsRegex(rest)
  {
    assert ([a] + rest)[1..] == rest;
  }

  lemma Segments2(a: string, b: string)
    ensures Strings.Join([a, b], '/') == a + "/" + b
    ensures Glob.SegmentsRegex([a, b]) == HeadRegex(a) + LastRegex(b)
  {
    SegmentsCons(a, [b]);
    SegmentsOne(b);
    assert [a] + [b] == [a, b];
  }

  lemma Segments3(a: string, b: string, c: string)
    ensures Strings.Join([a, b, c], '/') == a + "/" + (b + "/" + c)
    ensures Glob.SegmentsRegex([a, b, c]) == HeadRegex(a) + (HeadRegex(b) + LastRegex(c))
  {
    SegmentsCons(a, [b, c]);
    Segments2(b, c);
    assert [a] + [b, c] == [a, b, c];
  }

  lemma Segments4(a: string, b: string, c: string, d: string)
    ensures Strings.Join([a, b, c, d], '/') == a + "/" + (b + "/" + (c + "/" + d))
    ensures Glob.SegmentsRegex([a, b, c, d])
         == HeadRegex(a) + (HeadRegex(b) + (HeadRegex(c) + LastRegex(d)))
  {
    SegmentsCons(a, [b, c, d]);
    Segments3(b, c, d);
    assert [a] + [b, c, d] == [a, b, c, d];
  }

  lemma Segments5(a: string, b: string, c: string, d: string, e: string)
    ensures Strings.Join([a, b, c, d, e], '/') == a + "/" + (b + "/" + (c + "/" + (d + "/" + e)))
    ensures Glob.SegmentsRegex([a, b, c, d, e])
         == HeadRegex(a) + (HeadRegex(b) + (HeadRegex(c) + (HeadRegex(d) + LastRegex(e))))
  {
    SegmentsCons(a, [b, c, d, e]);
    Segments4(b, c, d, e);
    assert [a] + [b, c, d, e] == [a, b, c, d, e];
  }

  // ---------------------------------------------------------------------
  // The same, written from left to right

  /* A concrete glob or regex is best compared with a concatenation that
     grows from the left: each step adds a piece to a text that is itself a
     prefix of the literal. The lemmas below restate the segment-wise
     regex in that shape. */

  lemma Glob2Left(g: string, a: string, b: string)
    requires '/' !in a && '/' !in b
    requires g == a + "/" + b
    ensures Glob.GlobToRegex(g, false) == HeadRegex(a) + LastRegex(b)
  {
    Segments2(a, b);
    Glob.RegexBySegments([a, b]);
  }

  lemma Glob3Left(g: string, a: string, b: string, c: string)
    requires '/' !in a && '/' !in b && '/' !in c
    requires g == a + "/" + b + "/" + c
    ensures Glob.GlobToRegex(g, false) == HeadRegex(a) + HeadRegex(b) + LastRegex(c)
  {
    Nested3(a, b, c);
    Nested3Pieces(HeadRegex(a), HeadRegex(b), LastRegex(c));
    Glob3(g, a, b, c);
  }

  lemma Glob4Left(g: string, a: string, b: string, c: string, d: string)
    requires '/' !in a && '/' !in b && '/' !in c && '/' !in d
    requires g == a + "/" + b + "/" + c + "/" + d
    ensures Glob.GlobToRegex(g, false) == HeadRegex(a) + HeadRegex(b) + HeadRegex(c) + LastRegex(d)
  {
    Nested4(a, b, c, d);
    Nested4Pieces(HeadRegex(a), HeadRegex(b), HeadRegex(c), LastRegex(d));
    Glob4(g, a, b, c, d);
  }

  lemma Glob5Left(g: string, a: string, b: string, c: string, d: string, e: string)
    requires '/' !in a && '/' !in b && '/' !in c && '/' !in d && '/' !in e
    requires g == a + "/" + b + "/" + c + "/" + d + "/" + e
    ensures Glob.GlobToRegex(g, false)
         == HeadRegex(a) + HeadRegex(b) + HeadRegex(c) + HeadRegex(d) + LastRegex(e)
  {
    Nested5(a, b, c, d, e);
    Nested5Pieces(HeadRegex(a), HeadRegex(b), HeadRegex(c), HeadRegex(d), LastRegex(e));
    Glob5(g, a, b, c, d, e);
  }

  lemma Glob3(g: string, a: string, b: string, c: string)
    requires '/' !in a && '/' !in b && '/' !in c
    requires g == a + "/" + (b + "/" + c)
    ensures Glob.GlobToRegex(g, false) == HeadRegex(a) + (HeadRegex(b) + LastRegex(c))
  {
    Segments3(a, b, c);
    Glob.RegexBySegments([a, b, c]);
  }

  lemma Glob4(g: string, a: string, b: string, c: string, d: string)
    requires '/' !in a && '/' !in b && '/' !in c && '/' !in d
    requires g == a + "/" + (b + "/" + (c + "/" + d))
    ensures Glob.GlobToRegex(g, false)
         == HeadRegex(a) + (HeadRegex(b) + (HeadRegex(c) + LastRegex(d)))
  {
    Segments4(a, b, c, d);
    Glob.RegexBySegments([a, b, c, d]);
  }

  lemma Glob5(g: string, a: string, b: string, c: string, d: string, e: string)
    requires '/' !in a && '/' !in b && '/' !in c && '/' !in d && '/' !in e
    requires g == a + "/" + (b + "/" + (c + "/" + (d + "/" + e)))
    ensures Glob.GlobToRegex(g, false)
         == HeadRegex(a) + (HeadRegex(b) + (HeadRegex(c) + (HeadRegex(d) + LastRegex(e))))
  {
    Segments5(a, b, c, d, e);
    Glob.RegexBySegments([a, b, c, d, e]);
  }

  lemma Nested3(a: string, b: string, c: string)
    ensures a + "/" + b + "/" + c == a + "/" + (b + "/" + c)
  {
  }

  lemma Nested3Pieces(a: string, b: string, c: string)
    ensures a + b + c == a + (b + c)
  {
  }

  lemma Nested4(a: string, b: string, c: string, d: string)
    ensures a + "/" + b + "/" + c + "/" + d == a + "/" + (b + "/" + (c + "/" + d))
  {
  }

  lemma Nested4Pieces(a: string, b: string, c: string, d: string)
    ensures a + b + c + d == a + (b + (c + d))
  {
  }

  lemma Nested5(a: string, b: string, c: string, d: string, e: string)
    ensures a + "/" + b + "/" + c + "/" + d + "/" + e
         == a + "/" + (b + "/" + (c + "/" + (d + "/" + e)))
  {
  }

  lemma Nested5Pieces(a: string, b: string, c: string, d: string, e: string)
    ensures a + b + c + d + e == a + (b + (c + (d + e)))
  {
  }

  /** Anchoring a concatenation of pieces, written from left to right. */
  lemma Anchored2(a: string, b: string)
    ensures "^" + (a + b) + "$" == "^" + a + b + "$"
  {
  }

  lemma Anchored3(a: string, b: string, c: string)
    ensures "^" + (a + b + c) + "$" == "^" + a + b + c + "$"
  {
  }

  lemma Anchored4(a: string, b: string, c: string, d: string)
    ensures "^" + (a + b + c + d) + "$" == "^" + a + b + c + d + "$"
  {
  }

  lemma Anchored5(a: string, b: string, c: string, d: string, e: string)
    ensures "^" + (a + b + c + d + e) + "$" == "^" + a + b + c + d + e + "$"
  {
  }
}
