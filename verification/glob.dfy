/** The glob-to-regular-expression compiler.

    A glob is split at '/' into segments. A segment that is exactly `**`
    stands for any number of whole directories: as the last segment it
    becomes `.*`, elsewhere it becomes `(?:.+\/)?` (nothing, or at least one
    character followed by a separator). In any other segment each `*`
    becomes `[^\/]*`, the characters `.`, `?` and `+` are escaped, and
    everything else (`:` included) stands for itself. Segments are joined by
    an escaped separator `\/`.

    The compiler first builds a token list, the structure of the regular
    expression; `Render` prints it as regex source text, `Unrender` reads
    such text back, `Decompile` recovers the glob, and `Matches` gives the
    tokens their meaning as a set of strings. */
module Glob {
  import Strings

  /** One element of a compiled pattern. */
  datatype Token =
    | Lit(c: char)   // the character itself
    | Segment        // `[^\/]*`: any run of characters without a separator
    | Any            // `.*`: any run of characters at all
    | Dirs           // `(?:.+\/)?`: nothing, or one or more characters ending in a separator

  /** Characters that are written with a backslash in regex source. */
  predicate NeedsEscape(c: char) {
    c == '/' || c == '.' || c == '?' || c == '+'
  }

  const SegmentText: string := "[^\\/]*"
  const AnyText: string := ".*"
  const DirsText: string := "(?:.+\\/)?"

  /** Regex source text of a single token. */
  function RenderToken(t: Token): string {
    match t
    case Lit(c) => if NeedsEscape(c) then ['\\', c] else [c]
    case Segment => SegmentText
    case Any => AnyText
    case Dirs => DirsText
  }

  /** Regex source text of a token list: the tokens' texts in order. */
  function Render(ts: seq<Token>): string
    decreases |ts|
  {
    if |ts| == 0 then "" else RenderToken(ts[0]) + Render(ts[1..])
  }

  /** Tokens of one segment that is not `**`. */
  function SegmentTokens(seg: string): seq<Token>
    decreases |seg|
  {
    if |seg| == 0 then []
    else [if seg[0] == '*' then Segment else Lit(seg[0])] + SegmentTokens(seg[1..])
  }

  /** Tokens of a glob already split into its segments. */
  function CompileSegments(segs: seq<string>): seq<Token>
    decreases |segs|
  {
    if |segs| == 0 then []
    else if |segs| == 1 then (if segs[0] == "**" then [Any] else SegmentTokens(segs[0]))
    else
      (if segs[0] == "**" then [Dirs] else SegmentTokens(segs[0]) + [Lit('/')])
      + CompileSegments(segs[1..])
  }

  /** The token list of a glob. */
  function Compile(glob: string): seq<Token> {
    CompileSegments(Strings.Split(glob, '/'))
  }

  /** Regex source for a glob; `anchored` wraps it in `^` and `$`. This one
      function serves asset and data patterns (unanchored) and navigation
      rules (anchored), so the token rules cannot drift between them. */
  function GlobToRegex(glob: string, anchored: bool): (r: string)
    ensures anchored ==> |r| >= 2 && r[0] == '^' && r[|r| - 1] == '$'
    ensures anchored ==> r[1..|r| - 1] == GlobToRegex(glob, false)
    ensures anchored ==> r == "^" + GlobToRegex(glob, false) + "$"
  {
    var body := Render(Compile(glob));
    if anchored then "^" + body + "$" else body
  }

  // ---------------------------------------------------------------------
  // Reading the output back

  /** Glob text a token came from. */
  function DecompileToken(t: Token): string {
    match t
    case Lit(c) => [c]
    case Segment => "*"
    case Any => "**"
    case Dirs => "**/"
  }

  /** Glob text a token list came from. */
  function Decompile(ts: seq<Token>): string
    decreases |ts|
  {
    if |ts| == 0 then "" else DecompileToken(ts[0]) + Decompile(ts[1..])
  }

  /** Parses regex source text made by `Render` back into tokens. */
  function Unrender(r: string): seq<Token>
    decreases |r|
  {
    if |r| == 0 then []
    else if r[0] == '\\' && |r| >= 2 then [Lit(r[1])] + Unrender(r[2..])
    else if SegmentText <= r then [Segment] + Unrender(r[|SegmentText|..])
    else if AnyText <= r then [Any] + Unrender(r[|AnyText|..])
    else if DirsText <= r then [Dirs] + Unrender(r[|DirsText|..])
    else [Lit(r[0])] + Unrender(r[1..])
  }

  /** Token lists the compiler can produce from a glob without backslashes:
      no literal star (stars always become wildcards) and no literal backslash. */
  predicate WellFormed(ts: seq<Token>) {
    forall i :: 0 <= i < |ts| ==> ts[i].Lit? ==> ts[i].c != '*' && ts[i].c != '\\'
  }

  // ---------------------------------------------------------------------
  // Meaning of a token list: the strings the anchored regex accepts

  /** True when the whole of `s` is matched by `ts` (the `^…$` reading). */
  predicate Matches(ts: seq<Token>, s: string)
    decreases |ts|, |s|
  {
    if |ts| == 0 then |s| == 0
    else match ts[0]
      case Lit(c) => |s| > 0 && s[0] == c && Matches(ts[1..], s[1..])
      case Segment => Matches(ts[1..], s) || (|s| > 0 && s[0] != '/' && Matches(ts, s[1..]))
      case Any => Matches(ts[1..], s) || (|s| > 0 && Matches(ts, s[1..]))
      case Dirs =>
        Matches(ts[1..], s) || (|s| > 0 && DirPrefixThen(ts[1..], s[1..]))
  }

  /** `s` is some run of characters, then a separator, then a match of `ts`:
      what remains of `(?:.+\/)` after its first character. */
  predicate DirPrefixThen(ts: seq<Token>, s: string)
    decreases |ts|, |s|
  {
    |s| > 0 && ((s[0] == '/' && Matches(ts, s[1..])) || DirPrefixThen(ts, s[1..]))
  }

  // ---------------------------------------------------------------------
  // Structural lemmas

  lemma {:induction false} RenderAppend(a: seq<Token>, b: seq<Token>)
    ensures Render(a + b) == Render(a) + Render(b)
    decreases |a|
  {
    if |a| > 0 {
      assert (a + b)[1..] == a[1..] + b;
      RenderAppend(a[1..], b);
    } else {
      assert a + b == b;
    }
  }

  lemma {:induction false} DecompileAppend(a: seq<Token>, b: seq<Token>)
    ensures Decompile(a + b) == Decompile(a) + Decompile(b)
    decreases |a|
  {
    if |a| > 0 {
      assert (a + b)[1..] == a[1..] + b;
      DecompileAppend(a[1..], b);
    } else {
      assert a + b == b;
    }
  }

  lemma {:induction false} SegmentTokensAppend(a: string, b: string)
    ensures SegmentTokens(a + b) == SegmentTokens(a) + SegmentTokens(b)
    decreases |a|
  {
    if |a| > 0 {
      assert (a + b)[1..] == a[1..] + b;
      SegmentTokensAppend(a[1..], b);
    } else {
      assert a + b == b;
    }
  }

  /** Every character of a segment yields exactly one token, in order. */
  lemma {:induction false} SegmentTokensShape(seg: string)
    ensures |SegmentTokens(seg)| == |seg|
    ensures forall i :: 0 <= i < |seg| ==>
      SegmentTokens(seg)[i] == (if seg[i] == '*' then Segment else Lit(seg[i]))
    decreases |seg|
  {
    if |seg| > 0 {
      SegmentTokensShape(seg[1..]);
    }
  }

  /** Compiling a glob is compiling its segments. */
  lemma CompileJoin(segs: seq<string>)
    requires |segs| >= 1
    requires forall i :: 0 <= i < |segs| ==> '/' !in segs[i]
    ensures Compile(Strings.Join(segs, '/')) == CompileSegments(segs)
  {
    Strings.SplitJoin(segs, '/');
  }

  /** A glob with no `*` compiles to its own characters, one literal each. */
  lemma {:induction false} CompileLiteral(glob: string)
    requires '*' !in glob
    ensures Compile(glob) == Lits(glob)
  {
    var segs := Strings.Split(glob, '/');
    forall i | 0 <= i < |segs|
      ensures '*' !in segs[i]
    {
      Strings.JoinSplit(glob, '/');
      PartOfJoin(segs, '/', i);
    }
    LiteralSegments(segs);
    Strings.JoinSplit(glob, '/');
  }

  /** One literal token per character. */
  function Lits(s: string): (ts: seq<Token>)
    ensures |ts| == |s|
    ensures forall i :: 0 <= i < |s| ==> ts[i] == Lit(s[i])
    decreases |s|
  {
    if |s| == 0 then [] else [Lit(s[0])] + Lits(s[1..])
  }

  lemma {:induction false} LitsAppend(a: string, b: string)
    ensures Lits(a + b) == Lits(a) + Lits(b)
  {
    assert Lits(a + b) == Lits(a) + Lits(b);
  }

  /** Every character of a piece occurs in the join. */
  lemma {:induction false} PartOfJoin(parts: seq<string>, sep: char, i: nat)
    requires |parts| >= 1 && i < |parts|
    ensures forall c :: c in parts[i] ==> c in Strings.Join(parts, sep)
    decreases i
  {
    if i > 0 {
      PartOfJoin(parts[1..], sep, i - 1);
    }
  }

  lemma {:induction false} LiteralSegments(segs: seq<string>)
    requires |segs| >= 1
    requires forall i :: 0 <= i < |segs| ==> '*' !in segs[i]
    ensures CompileSegments(segs) == Lits(Strings.Join(segs, '/'))
    decreases |segs|
  {
    assert segs[0] != "**" by { assert "**"[0] == '*'; }
    SegmentTokensShape(segs[0]);
    assert SegmentTokens(segs[0]) == Lits(segs[0]);
    if |segs| > 1 {
      LiteralSegments(segs[1..]);
      LitsAppend(segs[0] + "/", Strings.Join(segs[1..], '/'));
      LitsAppend(segs[0], "/");
    }
  }

  // ---------------------------------------------------------------------
  // Round trips

  lemma {:induction false} DecompileSegmentTokens(seg: string)
    ensures Decompile(SegmentTokens(seg)) == seg
    decreases |seg|
  {
    if |seg| > 0 {
      DecompileSegmentTokens(seg[1..]);
      assert seg == [seg[0]] + seg[1..];
    }
  }

  lemma {:induction false} DecompileSegments(segs: seq<string>)
    requires |segs| >= 1
    ensures Decompile(CompileSegments(segs)) == Strings.Join(segs, '/')
    decreases |segs|
  {
    DecompileSegmentTokens(segs[0]);
    if |segs| > 1 {
      DecompileSegments(segs[1..]);
      var head := if segs[0] == "**" then [Dirs] else SegmentTokens(segs[0]) + [Lit('/')];
      DecompileAppend(head, CompileSegments(segs[1..]));
      if segs[0] != "**" {
        DecompileAppend(SegmentTokens(segs[0]), [Lit('/')]);
      }
    }
  }

  /** The glob can always be recovered from its token list. */
  lemma DecompileCompile(glob: string)
    ensures Decompile(Compile(glob)) == glob
  {
    DecompileSegments(Strings.Split(glob, '/'));
    Strings.JoinSplit(glob, '/');
  }

  lemma {:induction false} SegmentTokensWellFormed(seg: string)
    requires '\\' !in seg
    ensures WellFormed(SegmentTokens(seg))
  {
    SegmentTokensShape(seg);
  }

  lemma {:induction false} CompileSegmentsWellFormed(segs: seq<string>)
    requires forall i :: 0 <= i < |segs| ==> '\\' !in segs[i]
    ensures WellFormed(CompileSegments(segs))
    decreases |segs|
  {
    if |segs| > 0 {
      SegmentTokensWellFormed(segs[0]);
      CompileSegmentsWellFormed(segs[1..]);
    }
  }

  /** A glob without backslashes compiles to a well-formed token list. */
  lemma {:induction false} CompileWellFormed(glob: string)
    requires '\\' !in glob
    ensures WellFormed(Compile(glob))
  {
    var segs := Strings.Split(glob, '/');
    forall i | 0 <= i < |segs|
      ensures '\\' !in segs[i]
    {
      Strings.JoinSplit(glob, '/');
      PartOfJoin(segs, '/', i);
    }
    CompileSegmentsWellFormed(segs);
  }

  /** The first character of rendered well-formed tokens is never a star or
      a question mark, and is a backslash only for an escaped literal. */
  lemma {:induction false} RenderHead(ts: seq<Token>)
    requires WellFormed(ts) && |ts| > 0
    ensures |Render(ts)| > 0
    ensures Render(ts)[0] == ']' ==> ts[0] == Lit(']')
    ensures Render(ts)[0] != '*' && Render(ts)[0] != '?'
    ensures Render(ts)[0] == '\\' ==>
      ts[0].Lit? && NeedsEscape(ts[0].c) && |Render(ts)| >= 2 && Render(ts)[1] == ts[0].c
    ensures Render(ts)[0] == '^' ==> ts[0] == Lit('^')
  {
    assert Render(ts) == RenderToken(ts[0]) + Render(ts[1..]);
  }

  /** Rendered well-formed tokens never begin with `^\/]*`, so a literal `[`
      cannot be mistaken for the start of `[^\/]*`. */
  lemma {:induction false} NotSegmentTail(ts: seq<Token>)
    requires WellFormed(ts)
    ensures !("^\\/]*" <= Render(ts))
  {
    if |ts| > 0 && "^\\/]*" <= Render(ts) {
      var r := Render(ts);
      assert r[0] == '^' && r[1] == '\\' && r[2] == '/' && r[3] == ']' && r[4] == '*';
      RenderHead(ts);
      var r1 := Render(ts[1..]);
      assert r == "^" + r1;
      assert WellFormed(ts[1..]);
      RenderHead(ts[1..]);
      assert r1[0] == '\\';
      assert ts[1] == Lit('/');
      var r2 := Render(ts[2..]);
      assert r1 == "\\/" + r2 by { assert ts[1..][1..] == ts[2..]; }
      assert r2[0] == ']';
      assert WellFormed(ts[2..]);
      RenderHead(ts[2..]);
      var r3 := Render(ts[3..]);
      assert r2 == "]" + r3 by { assert ts[2..][1..] == ts[3..]; }
      assert r3[0] == '*';
      assert WellFormed(ts[3..]);
      RenderHead(ts[3..]);
    }
  }

  /** Reading back text that starts with the rendering of one token. */
  lemma UnrenderEscaped(c: char, rest: string)
    ensures Unrender(['\\', c] + rest) == [Lit(c)] + Unrender(rest)
  {
    assert (['\\', c] + rest)[2..] == rest;
  }

  lemma UnrenderSegment(rest: string)
    ensures Unrender(SegmentText + rest) == [Segment] + Unrender(rest)
  {
    assert SegmentText <= SegmentText + rest;
    assert (SegmentText + rest)[|SegmentText|..] == rest;
  }

  lemma UnrenderAny(rest: string)
    ensures Unrender(AnyText + rest) == [Any] + Unrender(rest)
  {
    assert AnyText <= AnyText + rest;
    assert (AnyText + rest)[|AnyText|..] == rest;
  }

  lemma UnrenderDirs(rest: string)
    ensures Unrender(DirsText + rest) == [Dirs] + Unrender(rest)
  {
    assert DirsText <= DirsText + rest;
    assert (DirsText + rest)[|DirsText|..] == rest;
  }

  /** A character that needs no escape reads back as itself unless it
      starts one of the wildcard texts. */
  lemma UnrenderPlain(c: char, rest: string)
    requires c != '\\' && c != '.'
    requires c == '[' ==> !("^\\/]*" <= rest)
    requires c == '(' ==> !("?:.+\\/)?" <= rest)
    ensures Unrender([c] + rest) == [Lit(c)] + Unrender(rest)
  {
    var r := [c] + rest;
    assert r[1..] == rest;
    if c == '[' {
      assert SegmentText[1..] == "^\\/]*";
    }
    if c == '(' {
      assert DirsText[1..] == "?:.+\\/)?";
    }
  }

  /** Reading back a literal that is written as itself. */
  lemma UnrenderPlainLit(ts: seq<Token>)
    requires WellFormed(ts) && |ts| > 0 && ts[0].Lit? && !NeedsEscape(ts[0].c)
    ensures Unrender(Render(ts)) == [ts[0]] + Unrender(Render(ts[1..]))
  {
    var c := ts[0].c;
    var rest := Render(ts[1..]);
    assert Render(ts) == [c] + rest;
    assert WellFormed(ts[1..]);
    if c == '[' {
      NotSegmentTail(ts[1..]);
    }
    if c == '(' && |ts| > 1 {
      RenderHead(ts[1..]);
    }
    UnrenderPlain(c, rest);
  }

  /** Reading back the first token, the rest being read back already. */
  lemma UnrenderStep(ts: seq<Token>)
    requires WellFormed(ts) && |ts| > 0
    ensures Unrender(Render(ts)) == [ts[0]] + Unrender(Render(ts[1..]))
  {
    var rest := Render(ts[1..]);
    assert Render(ts) == RenderToken(ts[0]) + rest;
    match ts[0]
    case Lit(c) =>
      if NeedsEscape(c) {
        UnrenderEscaped(c, rest);
      } else {
        UnrenderPlainLit(ts);
      }
    case Segment => UnrenderSegment(rest);
    case Any => UnrenderAny(rest);
    case Dirs => UnrenderDirs(rest);
  }

  /** Reading rendered text back gives the same tokens. */
  lemma {:induction false} UnrenderRender(ts: seq<Token>)
    requires WellFormed(ts)
    ensures Unrender(Render(ts)) == ts
    decreases |ts|
  {
    if |ts| > 0 {
      assert WellFormed(ts[1..]);
      UnrenderRender(ts[1..]);
      UnrenderStep(ts);
      assert [ts[0]] + ts[1..] == ts;
    }
  }

  /** Different globs without backslashes compile to different regex sources:
      the glob can be read back from its unanchored regex. */
  lemma GlobFromRegex(glob: string)
    requires '\\' !in glob
    ensures Decompile(Unrender(GlobToRegex(glob, false))) == glob
  {
    CompileWellFormed(glob);
    UnrenderRender(Compile(glob));
    DecompileCompile(glob);
  }

  // ---------------------------------------------------------------------
  // What compiled patterns accept

  /** A literal token list accepts exactly its own text. */
  lemma {:induction false} MatchesLits(lit: string, s: string)
    ensures Matches(Lits(lit), s) <==> s == lit
    decreases |lit|
  {
    if |lit| > 0 && |s| > 0 {
      MatchesLits(lit[1..], s[1..]);
      if |s| > 0 && s[0] == lit[0] && s[1..] == lit[1..] {
        assert s == [s[0]] + s[1..] && lit == [lit[0]] + lit[1..];
      }
    }
  }

  /** A glob without stars matches exactly the path it spells. */
  lemma LiteralGlobMatchesItself(glob: string, path: string)
    requires '*' !in glob
    ensures Matches(Compile(glob), path) <==> path == glob
  {
    CompileLiteral(glob);
    MatchesLits(glob, path);
  }

  /** `[^\/]*` accepts exactly the strings without a separator. */
  lemma {:induction false} SegmentStopsAtSeparator(s: string)
    ensures Matches([Segment], s) <==> '/' !in s
    decreases |s|
  {
    assert [Segment][1..] == [];
    if |s| > 0 {
      SegmentStopsAtSeparator(s[1..]);
      assert s == [s[0]] + s[1..];
    }
  }

  /** `.*` accepts every string. */
  lemma {:induction false} AnyAcceptsAll(s: string)
    ensures Matches([Any], s)
    decreases |s|
  {
    assert [Any][1..] == [];
    if |s| > 0 {
      AnyAcceptsAll(s[1..]);
    }
  }

  /** `(?:.+\/)?` accepts the empty string and every string of at least two
      characters that ends in a separator, and nothing else. */
  lemma {:induction false} DirsAcceptsDirectories(s: string)
    ensures Matches([Dirs], s) <==> |s| == 0 || (|s| >= 2 && s[|s| - 1] == '/')
  {
    assert [Dirs][1..] == [];
    if |s| > 0 {
      DirPrefixEnds(s[1..]);
      if |s| > 1 {
        assert s[1..][|s| - 2] == s[|s| - 1];
      }
    }
  }

  /** Helper: `DirPrefixThen([], t)` holds exactly when `t` ends in a separator. */
  lemma {:induction false} DirPrefixEnds(t: string)
    ensures DirPrefixThen([], t) <==> |t| > 0 && t[|t| - 1] == '/'
    decreases |t|
  {
    if |t| > 0 {
      DirPrefixEnds(t[1..]);
      if |t| > 1 {
        assert t[1..][|t| - 2] == t[|t| - 1];
      }
    }
  }

  // ---------------------------------------------------------------------
  // Compiling a concatenation

  /** The last segment of a glob. */
  function LastSegment(glob: string): string {
    var segs := Strings.Split(glob, '/');
    segs[|segs| - 1]
  }

  lemma {:induction false} CompileSegmentsAppend(x: seq<string>, y: seq<string>)
    requires |x| >= 1 && |y| >= 1 && x[|x| - 1] != "**"
    ensures CompileSegments(x + y) == CompileSegments(x) + [Lit('/')] + CompileSegments(y)
    decreases |x|
  {
    assert (x + y)[0] == x[0];
    assert (x + y)[1..] == x[1..] + y;
    if |x| > 1 {
      CompileSegmentsAppend(x[1..], y);
    }
  }

  /** Putting a separator between two globs puts an escaped separator between
      their patterns, unless the first ends in a `**` segment (which would
      then stand for directories rather than everything). */
  lemma CompileAround(a: string, b: string)
    requires LastSegment(a) != "**"
    ensures Compile(a + "/" + b) == Compile(a) + [Lit('/')] + Compile(b)
  {
    Strings.SplitAround(a, b, '/');
    CompileSegmentsAppend(Strings.Split(a, '/'), Strings.Split(b, '/'));
  }

  /** The regex-source form of `CompileAround`. */
  lemma RegexAround(a: string, b: string)
    requires LastSegment(a) != "**"
    ensures GlobToRegex(a + "/" + b, false)
         == GlobToRegex(a, false) + "\\/" + GlobToRegex(b, false)
  {
    CompileAround(a, b);
    RenderAppend(Compile(a) + [Lit('/')], Compile(b));
    RenderAppend(Compile(a), [Lit('/')]);
  }

  // ---------------------------------------------------------------------
  // The regex segment by segment

  /** Regex source of one segment that is not `**`: its characters with the
      escapes and wildcards applied. */
  function SegmentRegex(seg: string): string {
    Render(SegmentTokens(seg))
  }

  lemma SegmentRegexAppend(a: string, b: string)
    ensures SegmentRegex(a + b) == SegmentRegex(a) + SegmentRegex(b)
  {
    SegmentTokensAppend(a, b);
    RenderAppend(SegmentTokens(a), SegmentTokens(b));
  }

  /** A segment without wildcards or escaped characters is its own regex. */
  lemma {:induction false} PlainSegment(seg: string)
    requires '*' !in seg && '/' !in seg && '.' !in seg && '?' !in seg && '+' !in seg
    ensures SegmentRegex(seg) == seg
    decreases |seg|
  {
    if |seg| > 0 {
      assert seg[0] in seg;
      assert forall c :: c in seg[1..] ==> c in seg;
      PlainSegment(seg[1..]);
      assert SegmentTokens(seg) == [Lit(seg[0])] + SegmentTokens(seg[1..]);
      assert Render([Lit(seg[0])] + SegmentTokens(seg[1..]))
          == [seg[0]] + Render(SegmentTokens(seg[1..]));
      assert seg == [seg[0]] + seg[1..];
    }
  }

  /** A one-character segment that needs escaping becomes a backslash pair. */
  lemma EscapedChar(c: char)
    requires NeedsEscape(c)
    ensures SegmentRegex([c]) == ['\\', c]
  {
    assert SegmentTokens([c]) == [Lit(c)];
    assert Render([Lit(c)]) == RenderToken(Lit(c)) + Render([]);
  }

  /** Regex source of a glob given by its segments, segment by segment. */
  function SegmentsRegex(segs: seq<string>): string
    decreases |segs|
  {
    if |segs| == 0 then ""
    else if |segs| == 1 then (if segs[0] == "**" then AnyText else SegmentRegex(segs[0]))
    else (if segs[0] == "**" then DirsText else SegmentRegex(segs[0]) + "\\/") + SegmentsRegex(segs[1..])
  }

  lemma {:induction false} RenderSegments(segs: seq<string>)
    ensures Render(CompileSegments(segs)) == SegmentsRegex(segs)
    decreases |segs|
  {
    if |segs| == 1 {
      if segs[0] == "**" {
        assert Render([Any]) == AnyText;
      }
    } else if |segs| > 1 {
      RenderSegments(segs[1..]);
      if segs[0] == "**" {
        RenderAppend([Dirs], CompileSegments(segs[1..]));
        assert Render([Dirs]) == DirsText;
      } else {
        RenderAppend(SegmentTokens(segs[0]) + [Lit('/')], CompileSegments(segs[1..]));
        RenderAppend(SegmentTokens(segs[0]), [Lit('/')]);
        assert Render([Lit('/')]) == "\\/";
      }
    }
  }

  /** The unanchored regex of a glob is the concatenation of its segments'
      regexes: `.*` for a final `**`, `(?:.+\/)?` for an inner `**`, and
      otherwise the segment's own regex followed by `\/`. */
  lemma RegexBySegments(segs: seq<string>)
    requires |segs| >= 1
    requires forall i :: 0 <= i < |segs| ==> '/' !in segs[i]
    ensures GlobToRegex(Strings.Join(segs, '/'), false) == SegmentsRegex(segs)
  {
    CompileJoin(segs);
    RenderSegments(segs);
  }

  // ---------------------------------------------------------------------
  // Matching concatenations

  /** A match of `a` followed by a match of `b` is a match of `a + b`. */
  lemma {:induction false} MatchesConcat(a: seq<Token>, b: seq<Token>, s1: string, s2: string)
    requires Matches(a, s1) && Matches(b, s2)
    ensures Matches(a + b, s1 + s2)
    decreases |a|, |s1|
  {
    if |a| == 0 {
      assert a + b == b && s1 + s2 == s2;
    } else {
      assert (a + b)[0] == a[0] && (a + b)[1..] == a[1..] + b;
      if |s1| > 0 {
        assert (s1 + s2)[0] == s1[0] && (s1 + s2)[1..] == s1[1..] + s2;
      }
      match a[0]
      case Lit(c) =>
        MatchesConcat(a[1..], b, s1[1..], s2);
      case Segment =>
        if Matches(a[1..], s1) {
          MatchesConcat(a[1..], b, s1, s2);
        } else {
          MatchesConcat(a, b, s1[1..], s2);
        }
      case Any =>
        if Matches(a[1..], s1) {
          MatchesConcat(a[1..], b, s1, s2);
        } else {
          MatchesConcat(a, b, s1[1..], s2);
        }
      case Dirs =>
        if Matches(a[1..], s1) {
          MatchesConcat(a[1..], b, s1, s2);
        } else {
          DirPrefixConcat(a[1..], b, s1[1..], s2);
        }
    }
  }

  lemma {:induction false} DirPrefixConcat(a: seq<Token>, b: seq<Token>, t: string, s2: string)
    requires DirPrefixThen(a, t) && Matches(b, s2)
    ensures DirPrefixThen(a + b, t + s2)
    decreases |a|, |t|
  {
    assert (t + s2)[0] == t[0] && (t + s2)[1..] == t[1..] + s2;
    if t[0] == '/' && Matches(a, t[1..]) {
      MatchesConcat(a, b, t[1..], s2);
    } else {
      DirPrefixConcat(a, b, t[1..], s2);
    }
  }

  /** Whatever a pattern ending in literal text accepts ends in that text. */
  lemma {:induction false} MatchesLitsSuffix(ts: seq<Token>, q: string, s: string)
    requires Matches(ts + Lits(q), s)
    ensures |q| <= |s| && s[|s| - |q|..] == q
    decreases |ts|, |s|
  {
    if |ts| == 0 {
      assert ts + Lits(q) == Lits(q);
      MatchesLits(q, s);
    } else {
      var tq := ts + Lits(q);
      assert tq[0] == ts[0] && tq[1..] == ts[1..] + Lits(q);
      match ts[0]
      case Lit(c) =>
        MatchesLitsSuffix(ts[1..], q, s[1..]);
      case Segment =>
        if Matches(ts[1..] + Lits(q), s) {
          MatchesLitsSuffix(ts[1..], q, s);
        } else {
          MatchesLitsSuffix(ts, q, s[1..]);
        }
      case Any =>
        if Matches(ts[1..] + Lits(q), s) {
          MatchesLitsSuffix(ts[1..], q, s);
        } else {
          MatchesLitsSuffix(ts, q, s[1..]);
        }
      case Dirs =>
        if Matches(ts[1..] + Lits(q), s) {
          MatchesLitsSuffix(ts[1..], q, s);
        } else {
          DirPrefixSuffix(ts[1..], q, s[1..]);
        }
    }
  }

  lemma {:induction false} DirPrefixSuffix(ts: seq<Token>, q: string, t: string)
    requires DirPrefixThen(ts + Lits(q), t)
    ensures |q| <= |t| && t[|t| - |q|..] == q
    decreases |ts|, |t|
  {
    if t[0] == '/' && Matches(ts + Lits(q), t[1..]) {
      MatchesLitsSuffix(ts, q, t[1..]);
    } else {
      DirPrefixSuffix(ts, q, t[1..]);
    }
  }

  /** Whatever a pattern starting with literal text accepts starts with that
      text, and the rest is accepted by the remainder of the pattern. */
  lemma {:induction false} MatchesLitsPrefix(p: string, ts: seq<Token>, s: string)
    ensures Matches(Lits(p) + ts, s) <==> p <= s && Matches(ts, s[|p|..])
    decreases |p|
  {
    if |p| == 0 {
      assert Lits(p) + ts == ts;
    } else {
      var lt := Lits(p) + ts;
      assert lt[0] == Lit(p[0]) && lt[1..] == Lits(p[1..]) + ts;
      if |s| > 0 {
        MatchesLitsPrefix(p[1..], ts, s[1..]);
        if |p| <= |s| {
          assert s[1..][|p| - 1..] == s[|p|..];
        }
        if p <= s {
          assert p[1..] <= s[1..];
        }
        if p[1..] <= s[1..] && s[0] == p[0] {
          assert p == [p[0]] + p[1..];
        }
      }
    }
  }
}
