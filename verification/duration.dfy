/** Human-readable durations such as `3d` or `1m`, parsed into milliseconds.

    A duration is a run of decimal digits followed by exactly one unit
    symbol: `d` (days), `h` (hours), `m` (minutes), `s` (seconds) or `ms`
    (milliseconds). Anything else is an `InvalidDuration` error. */
module Duration {
  import opened Wrappers

  datatype TimeUnit = Days | Hours | Minutes | Seconds | Millis

  /** Milliseconds in one unit. */
  function Factor(u: TimeUnit): nat {
    match u
    case Days => 86400000
    case Hours => 3600000
    case Minutes => 60000
    case Seconds => 1000
    case Millis => 1
  }

  /** The unit's symbol as written in a duration. */
  function Symbol(u: TimeUnit): string {
    match u
    case Days => "d"
    case Hours => "h"
    case Minutes => "m"
    case Seconds => "s"
    case Millis => "ms"
  }

  /** The unit a symbol names, if any; the inverse of `Symbol`. */
  function UnitOf(sym: string): (r: Option<TimeUnit>)
    ensures r.Some? ==> Symbol(r.value) == sym
    ensures forall u :: sym == Symbol(u) ==> r == Some(u)
  {
    if sym == "d" then Some(Days)
    else if sym == "h" then Some(Hours)
    else if sym == "m" then Some(Minutes)
    else if sym == "s" then Some(Seconds)
    else if sym == "ms" then Some(Millis)
    else None
  }

  predicate IsDigit(c: char) {
    '0' <= c <= '9'
  }

  predicate AllDigits(s: string) {
    forall i :: 0 <= i < |s| ==> IsDigit(s[i])
  }

  /** Length of the run of digits at the start of `s`. */
  function LeadingDigits(s: string): (k: nat)
    ensures k <= |s|
    ensures AllDigits(s[..k])
    ensures k == |s| || !IsDigit(s[k])
    decreases |s|
  {
    if |s| == 0 || !IsDigit(s[0]) then 0 else 1 + LeadingDigits(s[1..])
  }

  /** Decimal value of a digit string, most significant digit first. */
  function DigitsValue(ds: string): nat
    requires AllDigits(ds)
    decreases |ds|
  {
    if |ds| == 0 then 0
    else DigitsValue(ds[..|ds| - 1]) * 10 + (ds[|ds| - 1] - '0') as nat
  }

  /** Decimal digits of `n` without leading zeros (`"0"` for zero). */
  function NatToDigits(n: nat): (ds: string)
    ensures |ds| > 0 && AllDigits(ds)
    decreases n
  {
    var d := ['0' + (n % 10) as char];
    if n < 10 then d else NatToDigits(n / 10) + d
  }

  /** Parses a duration into milliseconds. */
  function ParseDuration(s: string): Result<nat> {
    var k := LeadingDigits(s);
    if k == 0 then Err(InvalidDuration(s))
    else match UnitOf(s[k..])
      case None => Err(InvalidDuration(s))
      case Some(u) => Ok(DigitsValue(s[..k]) * Factor(u))
  }

  /** The canonical way to write `n` units. */
  function FormatDuration(n: nat, u: TimeUnit): string {
    NatToDigits(n) + Symbol(u)
  }

  lemma {:induction false} DigitsOfNat(n: nat)
    ensures DigitsValue(NatToDigits(n)) == n
    decreases n
  {
    var d := ['0' + (n % 10) as char];
    if n >= 10 {
      DigitsOfNat(n / 10);
      var ds := NatToDigits(n / 10) + d;
      assert ds[..|ds| - 1] == NatToDigits(n / 10);
    }
  }

  /** Writing a duration and parsing it back gives its length in milliseconds. */
  lemma ParseFormat(n: nat, u: TimeUnit)
    ensures ParseDuration(FormatDuration(n, u)) == Ok(n * Factor(u))
  {
    var ds := NatToDigits(n);
    var s := ds + Symbol(u);
    DigitsOfNat(n);
    SplitAtUnit(ds, u);
  }

  /** The digit run of a digit string followed by a non-digit ends there. */
  lemma {:induction false} LeadingDigitsAppend(ds: string, t: string)
    requires AllDigits(ds)
    requires |t| > 0 && !IsDigit(t[0])
    ensures LeadingDigits(ds + t) == |ds|
    decreases |ds|
  {
    if |ds| > 0 {
      assert (ds + t)[1..] == ds[1..] + t;
      LeadingDigitsAppend(ds[1..], t);
    } else {
      assert ds + t == t;
    }
  }

  /** A digit run followed by a unit symbol splits exactly between them. */
  lemma SplitAtUnit(ds: string, u: TimeUnit)
    requires AllDigits(ds)
    ensures LeadingDigits(ds + Symbol(u)) == |ds|
    ensures (ds + Symbol(u))[..|ds|] == ds && (ds + Symbol(u))[|ds|..] == Symbol(u)
  {
    LeadingDigitsAppend(ds, Symbol(u));
  }

  /** A parsed duration is a non-empty digit run followed by a unit symbol. */
  lemma ParseDurationSound(s: string)
    requires ParseDuration(s).Ok?
    ensures var k := LeadingDigits(s);
      && 0 < k && AllDigits(s[..k]) && UnitOf(s[k..]).Some?
      && s == s[..k] + Symbol(UnitOf(s[k..]).value)
      && ParseDuration(s).value == DigitsValue(s[..k]) * Factor(UnitOf(s[k..]).value)
  {
    var k := LeadingDigits(s);
    assert s == s[..k] + s[k..];
  }

  /** A non-empty digit run followed by a unit symbol parses to that many units. */
  lemma ParseDurationComplete(ds: string, u: TimeUnit)
    requires |ds| > 0 && AllDigits(ds)
    ensures ParseDuration(ds + Symbol(u)) == Ok(DigitsValue(ds) * Factor(u))
  {
    SplitAtUnit(ds, u);
  }

  /** A string parses exactly when it is a non-empty digit run followed by a
      unit symbol, and then its value is that many units. */
  lemma ParseDurationSpec(s: string, v: nat)
    ensures ParseDuration(s) == Ok(v) <==>
      exists ds: string, u: TimeUnit ::
        |ds| > 0 && AllDigits(ds) && s == ds + Symbol(u) && v == DigitsValue(ds) * Factor(u)
  {
    if ParseDuration(s) == Ok(v) {
      ParseDurationSound(s);
      var k := LeadingDigits(s);
      var ds, u := s[..k], UnitOf(s[k..]).value;
      assert |ds| > 0 && AllDigits(ds) && s == ds + Symbol(u) && v == DigitsValue(ds) * Factor(u);
    }
    if exists ds: string, u: TimeUnit ::
        |ds| > 0 && AllDigits(ds) && s == ds + Symbol(u) && v == DigitsValue(ds) * Factor(u) {
      var ds: string, u: TimeUnit :|
        |ds| > 0 && AllDigits(ds) && s == ds + Symbol(u) && v == DigitsValue(ds) * Factor(u);
      ParseDurationComplete(ds, u);
    }
  }
}
