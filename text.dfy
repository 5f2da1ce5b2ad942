/**
 * Text handling the handler does on request paths and message ids:
 * the `startsWith` prefix test, `path.split('/').pop()`, the decimal
 * rendering of an id inside an image URL, and the way the store turns
 * an id segment back into an integer key.
 */
module Text {
  import opened Wrappers

  predicate StartsWith(s: string, prefix: string)
  {
    |prefix| <= |s| && s[..|prefix|] == prefix
  }

  /**
   * The last `/`-separated segment of `path`: what `path.split('/').pop()`
   * returns. It is the longest suffix holding no slash.
   */
  function LastSegment(path: string): (seg: string)
    ensures '/' !in seg
    ensures |seg| <= |path| && seg == path[|path| - |seg|..]
    ensures |seg| == |path| || path[|path| - |seg| - 1] == '/'
  {
    if path == [] then []
    else if path[|path| - 1] == '/' then []
    else LastSegment(path[..|path| - 1]) + [path[|path| - 1]]
  }

  /** A prefix ending in a slash followed by a slash-free segment splits back into that segment. */
  lemma {:induction false} LastSegmentAfterSlash(prefix: string, seg: string)
    requires prefix != [] && prefix[|prefix| - 1] == '/'
    requires '/' !in seg
    ensures LastSegment(prefix + seg) == seg
  {
    var path := prefix + seg;
    assert path[|prefix|..] == seg;
  }

  predicate IsDigit(c: char)
  {
    '0' <= c <= '9'
  }

  predicate AllDigits(s: string)
  {
    forall i :: 0 <= i < |s| ==> IsDigit(s[i])
  }

  function DigitChar(d: nat): (c: char)
    requires d < 10
    ensures IsDigit(c)
  {
    ('0' as int + d) as char
  }

  function DigitValue(c: char): (d: nat)
    requires IsDigit(c)
    ensures d < 10
  {
    (c as int - '0' as int) as nat
  }

  /** The decimal value of a string of digits, most significant first. */
  function DigitsValue(s: string): nat
    requires AllDigits(s)
  {
    if s == [] then 0 else DigitsValue(s[..|s| - 1]) * 10 + DigitValue(s[|s| - 1])
  }

  /** The decimal rendering of an id, as `${msg.id}` writes it into a URL. */
  function IdText(n: nat): (s: string)
    ensures s != [] && AllDigits(s)
    ensures '/' !in s
  {
    if n < 10 then [DigitChar(n)] else IdText(n / 10) + [DigitChar(n % 10)]
  }

  /**
   * The integer key a textual id denotes when the store compares it with the
   * integer `id` column: a non-empty string of decimal digits, and nothing else.
   */
  function ParseId(s: string): (r: Option<nat>)
    ensures r.Some? <==> s != [] && AllDigits(s)
  {
    if s != [] && AllDigits(s) then Some(DigitsValue(s)) else None
  }

  /** Rendering an id and reading it back gives the same id. */
  lemma {:induction false} ParseIdText(n: nat)
    ensures ParseId(IdText(n)) == Some(n)
  {
    var s := IdText(n);
    if n >= 10 {
      ParseIdText(n / 10);
      assert s[..|s| - 1] == IdText(n / 10);
      assert DigitValue(DigitChar(n % 10)) == n % 10;
    } else {
      assert s == [DigitChar(n)] && s[..0] == [];
      assert DigitsValue(s) == DigitValue(DigitChar(n)) == n;
    }
  }

  /** Distinct ids render as distinct texts. */
  lemma IdTextInjective(m: nat, n: nat)
    requires IdText(m) == IdText(n)
    ensures m == n
  {
    ParseIdText(m);
    ParseIdText(n);
  }
}
