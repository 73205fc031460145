/**
 Models of the Python string built-ins the converter relies on:
 - `str.isspace()` on one character and `str.rstrip()` with no argument,
 - the decimal rendering of a non-negative `int` inside an f-string,
 - `"\n".join(lines)`, together with `str.split("\n")` as its inverse.
 */
module StrBuiltins {

  /** The characters for which Python's `str.isspace()` holds; these are
      exactly the characters `str.rstrip()` removes when given no argument. */
  predicate IsSpace(c: char) {
    || ('\t' <= c <= '\r')            // \t \n \v \f \r
    || ('\U{1C}' <= c <= '\U{1F}')    // file, group, record and unit separators
    || c == ' '
    || c == '\U{85}'                  // next line
    || c == '\U{A0}'                  // no-break space
    || c == '\U{1680}'
    || ('\U{2000}' <= c <= '\U{200A}')
    || c == '\U{2028}'                // line separator
    || c == '\U{2029}'                // paragraph separator
    || c == '\U{202F}'
    || c == '\U{205F}'
    || c == '\U{3000}'
  }

  /** `s.rstrip()`: the longest prefix of `s` that does not end in whitespace
      and after which only whitespace follows. */
  function RStrip(s: string): (r: string)
    ensures |r| <= |s| && r == s[..|r|]
    ensures forall j :: |r| <= j < |s| ==> IsSpace(s[j])
    ensures r == [] || !IsSpace(r[|r| - 1])
  {
    if |s| > 0 && IsSpace(s[|s| - 1]) then RStrip(s[..|s| - 1]) else s
  }

  /** The three properties in RStrip's contract determine its result. */
  lemma RStripUnique(s: string, p: string)
    requires |p| <= |s| && p == s[..|p|]
    requires forall j :: |p| <= j < |s| ==> IsSpace(s[j])
    requires p == [] || !IsSpace(p[|p| - 1])
    ensures RStrip(s) == p
  {
    var r := RStrip(s);
    if |p| > 0 {
      assert p[|p| - 1] == s[|p| - 1];
    }
    if |r| > 0 {
      assert r[|r| - 1] == s[|r| - 1];
    }
  }

  /** Stripping twice is stripping once. */
  lemma RStripIdempotent(s: string)
    ensures RStrip(RStrip(s)) == RStrip(s)
  {
  }

  function DigitChar(d: nat): (c: char)
    requires d < 10
    ensures '0' <= c <= '9'
  {
    ('0' as int + d) as char
  }

  function DigitValue(c: char): (d: nat)
    requires '0' <= c <= '9'
    ensures d < 10
  {
    c as int - '0' as int
  }

  /** The text Python's f-string `f"{n}"` gives for a non-negative int `n`:
      decimal digits, most significant first, without leading zeros. */
  function Decimal(n: nat): (r: string)
    ensures |r| > 0
    ensures forall j :: 0 <= j < |r| ==> '0' <= r[j] <= '9'
    ensures (r[0] == '0') == (n == 0)
    ensures n == 0 ==> |r| == 1
  {
    if n < 10 then [DigitChar(n)] else Decimal(n / 10) + [DigitChar(n % 10)]
  }

  /** The value of a string of decimal digits (what `int(s)` gives). */
  function DecimalValue(s: string): nat
    requires forall j :: 0 <= j < |s| ==> '0' <= s[j] <= '9'
  {
    if |s| == 0 then 0 else 10 * DecimalValue(s[..|s| - 1]) + DigitValue(s[|s| - 1])
  }

  /** Reading the rendered digits back gives the number that was rendered. */
  lemma {:induction false} DecimalRoundTrip(n: nat)
    ensures DecimalValue(Decimal(n)) == n
  {
    if n >= 10 {
      var r := Decimal(n);
      assert r[..|r| - 1] == Decimal(n / 10);
      DecimalRoundTrip(n / 10);
    }
  }

  /** `"\n".join(xs)`: the elements of `xs` with one newline between each
      two neighbours and none after the last. */
  function Join(xs: seq<string>): string {
    if |xs| == 0 then ""
    else if |xs| == 1 then xs[0]
    else xs[0] + "\n" + Join(xs[1..])
  }

  /** The index of the first newline in `s`. */
  function FirstNewline(s: string): (i: nat)
    requires '\n' in s
    ensures i < |s| && s[i] == '\n' && '\n' !in s[..i]
  {
    if s[0] == '\n' then 0
    else
      assert s == [s[0]] + s[1..];
      var i := FirstNewline(s[1..]);
      assert s[..i + 1] == [s[0]] + s[1..][..i];
      i + 1
  }

  /** `s.split("\n")`: the pieces of `s` between newlines; never empty. */
  function Split(s: string): (r: seq<string>)
    ensures |r| >= 1
    ensures forall k :: 0 <= k < |r| ==> '\n' !in r[k]
    decreases |s|
  {
    if '\n' !in s then [s]
    else
      var i := FirstNewline(s);
      [s[..i]] + Split(s[i + 1..])
  }

  /** Joining the pieces of a split gives back the string. */
  lemma {:induction false} JoinSplit(s: string)
    ensures Join(Split(s)) == s
    decreases |s|
  {
    if '\n' in s {
      var i := FirstNewline(s);
      var rest := Split(s[i + 1..]);
      assert ([s[..i]] + rest)[1..] == rest;
      JoinSplit(s[i + 1..]);
      assert s == s[..i] + "\n" + s[i + 1..];
    }
  }

  /** Splitting a join of newline-free strings gives back the strings,
      provided there is at least one: the join of `[]` and of `[""]` are
      both the empty string. */
  lemma {:induction false} SplitJoin(xs: seq<string>)
    requires |xs| >= 1
    requires forall k :: 0 <= k < |xs| ==> '\n' !in xs[k]
    ensures Split(Join(xs)) == xs
  {
    if |xs| > 1 {
      var s := Join(xs);
      var tail := Join(xs[1..]);
      assert s == xs[0] + "\n" + tail;
      assert s[|xs[0]|] == '\n';
      var i := FirstNewline(s);
      assert s[..i] == xs[0];
      assert s[i + 1..] == tail;
      SplitJoin(xs[1..]);
      assert [xs[0]] + xs[1..] == xs;
    }
  }

  /** A join of n >= 1 newline-free strings holds exactly n - 1 newlines. */
  lemma {:induction false} JoinNewlineCount(xs: seq<string>)
    requires |xs| >= 1
    requires forall k :: 0 <= k < |xs| ==> '\n' !in xs[k]
    ensures multiset(Join(xs))['\n'] == |xs| - 1
  {
    if |xs| > 1 {
      JoinNewlineCount(xs[1..]);
      assert multiset(xs[0])['\n'] == 0;
      assert multiset(xs[0] + "\n" + Join(xs[1..])) == multiset(xs[0]) + multiset("\n") + multiset(Join(xs[1..]));
    } else {
      assert multiset(xs[0])['\n'] == 0;
    }
  }

  /** Adding an element to a non-empty list adds one separator and the
      element at the end, and nothing after it. */
  lemma {:induction false} JoinAppend(xs: seq<string>, x: string)
    requires |xs| >= 1
    ensures Join(xs + [x]) == Join(xs) + "\n" + x
  {
    if |xs| > 1 {
      assert (xs + [x])[1..] == xs[1..] + [x];
      JoinAppend(xs[1..], x);
    }
  }
}
