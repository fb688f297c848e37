/** Text primitives the bookmark code borrows from Python's `str`:
    `strip()`, ASCII `lower()`, `split(sep, 1)`, `startswith`, and `str(int)`. */
module Text {
  import opened Seqs

  /** Python's `str.isspace()` for one character: the Unicode whitespace set
      (bidirectional class WS, B or S, or general category Zs). */
  predicate IsSpace(c: char) {
    || c == ' '
    || ('\t' <= c <= '\r')
    || ('\U{1C}' <= c <= '\U{1F}')
    || c == '\U{85}' || c == '\U{A0}' || c == '\U{1680}'
    || ('\U{2000}' <= c <= '\U{200A}')
    || c == '\U{2028}' || c == '\U{2029}' || c == '\U{202F}'
    || c == '\U{205F}' || c == '\U{3000}'
  }

  /** A string with no whitespace at either end, i.e. a fixed point of `strip()`. */
  predicate Trimmed(s: string) {
    |s| == 0 || (!IsSpace(s[0]) && !IsSpace(s[|s| - 1]))
  }

  /** Drops leading whitespace: the result is the longest suffix of `s` not starting with a space. */
  function TrimStart(s: string): (r: string)
    ensures |r| <= |s| && r == s[|s| - |r|..]
    ensures |r| > 0 ==> !IsSpace(r[0])
    decreases |s|
  {
    if |s| > 0 && IsSpace(s[0]) then TrimStart(s[1..]) else s
  }

  /** Every character of `s` is whitespace. */
  predicate AllSpace(s: string) {
    forall k :: 0 <= k < |s| ==> IsSpace(s[k])
  }

  /** Number of whitespace characters at the start of `s`. */
  function LeadingSpaces(s: string): (n: nat)
    ensures n <= |s|
  {
    |s| - |TrimStart(s)|
  }

  /** What `TrimStart` drops is all whitespace. */
  lemma {:induction false} TrimStartDropsSpaces(s: string)
    ensures AllSpace(s[..LeadingSpaces(s)])
    decreases |s|
  {
    if |s| > 0 && IsSpace(s[0]) {
      var n := LeadingSpaces(s);
      TrimStartDropsSpaces(s[1..]);
      forall k | 0 <= k < n ensures IsSpace(s[..n][k]) {
        if k > 0 {
          assert s[..n][k] == s[1..][..n - 1][k - 1];
        }
      }
    }
  }

  /** Drops trailing whitespace: the result is the longest prefix of `s` not ending with a space. */
  function TrimEnd(s: string): (r: string)
    ensures |r| <= |s| && r == s[..|r|]
    ensures |r| > 0 ==> !IsSpace(r[|r| - 1])
    decreases |s|
  {
    if |s| > 0 && IsSpace(s[|s| - 1]) then TrimEnd(s[..|s| - 1]) else s
  }

  /** What `TrimEnd` drops is all whitespace. */
  lemma {:induction false} TrimEndDropsSpaces(s: string)
    ensures AllSpace(s[|TrimEnd(s)|..])
    decreases |s|
  {
    if |s| > 0 && IsSpace(s[|s| - 1]) {
      var n := |TrimEnd(s)|;
      TrimEndDropsSpaces(s[..|s| - 1]);
      forall k | 0 <= k < |s| - n ensures IsSpace(s[n..][k]) {
        if k < |s| - 1 - n {
          assert s[n..][k] == s[..|s| - 1][n..][k];
        }
      }
    }
  }

  /** Python's `str.strip()` with no argument: whitespace removed at both ends.
      `StripSpec` states which infix of `s` this is. */
  function Strip(s: string): (r: string)
    ensures Trimmed(r)
    ensures |r| <= |s|
  {
    TrimEnd(TrimStart(s))
  }

  /** The stripped string is the infix of `s` between its leading and its
      trailing whitespace. */
  lemma StripSpec(s: string)
    ensures LeadingSpaces(s) + |Strip(s)| <= |s|
    ensures Strip(s) == s[LeadingSpaces(s)..LeadingSpaces(s) + |Strip(s)|]
    ensures AllSpace(s[..LeadingSpaces(s)])
    ensures AllSpace(s[LeadingSpaces(s) + |Strip(s)|..])
  {
    TrimStartDropsSpaces(s);
    StripInfix(s);
    StripDropsTrailing(s);
  }

  lemma StripInfix(s: string)
    ensures Strip(s) == s[LeadingSpaces(s)..LeadingSpaces(s) + |Strip(s)|]
  {
    var t := TrimStart(s);
    var r := TrimEnd(t);
    TakeOfDrop(s, |s| - |t|, |r|);
  }

  lemma StripDropsTrailing(s: string)
    ensures AllSpace(s[LeadingSpaces(s) + |Strip(s)|..])
  {
    var t := TrimStart(s);
    var r := TrimEnd(t);
    TrimEndDropsSpaces(t);
    DropOfDrop(s, |s| - |t|, |r|);
  }

  /** `strip()` leaves a string that already has no surrounding whitespace unchanged. */
  lemma StripTrimmed(s: string)
    requires Trimmed(s)
    ensures Strip(s) == s
  {
    assert TrimStart(s) == s;
    assert TrimEnd(s) == s;
  }

  /** Stripping twice is stripping once. */
  lemma StripIdempotent(s: string)
    ensures Strip(Strip(s)) == Strip(s)
  {
    StripTrimmed(Strip(s));
  }

  function LowerChar(c: char): char {
    if 'A' <= c <= 'Z' then (c as int - 'A' as int + 'a' as int) as char else c
  }

  /** `str.lower()` restricted to the ASCII letters. */
  function Lower(s: string): (r: string)
    ensures |r| == |s|
    ensures forall i :: 0 <= i < |s| ==> r[i] == LowerChar(s[i])
    ensures forall i :: 0 <= i < |s| ==> !('A' <= r[i] <= 'Z')
  {
    seq(|s|, i requires 0 <= i < |s| => LowerChar(s[i]))
  }

  /** A string with no upper-case ASCII letter is its own lower-case form. */
  lemma LowerOfLower(s: string)
    requires forall i :: 0 <= i < |s| ==> !('A' <= s[i] <= 'Z')
    ensures Lower(s) == s
  {
  }

  /** Lower-casing twice is lower-casing once. */
  lemma LowerIdempotent(s: string)
    ensures Lower(Lower(s)) == Lower(s)
  {
    LowerOfLower(Lower(s));
  }

  /** Index of the first `c` in `s`, or `|s|` when there is none. */
  function IndexOf(s: string, c: char): (i: nat)
    ensures i <= |s|
    ensures i < |s| ==> s[i] == c
    ensures forall k :: 0 <= k < i ==> s[k] != c
    decreases |s|
  {
    if |s| == 0 then 0 else if s[0] == c then 0 else 1 + IndexOf(s[1..], c)
  }

  /** The first `c` of `s` is the one with no `c` before it. */
  lemma {:induction false} IndexOfUnique(s: string, c: char, i: int)
    requires 0 <= i < |s| && s[i] == c
    requires forall k :: 0 <= k < i ==> s[k] != c
    ensures IndexOf(s, c) == i
    decreases i
  {
    if i > 0 {
      assert s[1..][i - 1] == s[i];
      IndexOfUnique(s[1..], c, i - 1);
    }
  }

  /** `s.split(c, 1)` when `c` occurs in `s`: the text before the first `c` and everything after it. */
  function SplitFirst(s: string, c: char): (parts: (string, string))
    requires c in s
    ensures parts.0 + [c] + parts.1 == s
    ensures c !in parts.0
  {
    var i := IndexOf(s, c);
    assert s == s[..i] + [c] + s[i + 1..];
    (s[..i], s[i + 1..])
  }

  /** Splitting at the first `c` recovers the text around it. */
  lemma SplitAt(s: string, c: char, a: string, b: string)
    requires s == a + [c] + b && c !in a
    ensures c in s && SplitFirst(s, c) == (a, b)
  {
    assert s[|a|] == c;
    forall j | 0 <= j < |a| ensures s[j] != c {
      assert s[j] == a[j];
    }
    IndexOfUnique(s, c, |a|);
    assert s[..|a|] == a;
    assert s[|a| + 1..] == b;
  }

  predicate StartsWith(s: string, prefix: string) {
    |prefix| <= |s| && s[..|prefix|] == prefix
  }

  function DigitChar(d: nat): char
    requires d < 10
  {
    ('0' as int + d) as char
  }

  function DigitValue(c: char): int {
    c as int - '0' as int
  }

  predicate IsDigit(c: char) {
    '0' <= c <= '9'
  }

  /** The decimal digits of a natural number, most significant first, with no leading zero. */
  function NatToDecimal(n: nat): (r: string)
    ensures |r| > 0
    ensures forall i :: 0 <= i < |r| ==> IsDigit(r[i])
    ensures |r| > 1 ==> r[0] != '0'
    decreases n
  {
    if n < 10 then [DigitChar(n)] else NatToDecimal(n / 10) + [DigitChar(n % 10)]
  }

  /** Python's `str(n)` for an int: an optional minus sign followed by the digits of `|n|`. */
  function IntToDecimal(n: int): (r: string)
    ensures |r| > 0
    ensures n >= 0 <==> r[0] != '-'
  {
    if n >= 0 then NatToDecimal(n) else "-" + NatToDecimal(-n)
  }

  /** The number a string of decimal digits denotes. */
  function DecimalValue(s: string): int
    decreases |s|
  {
    if |s| == 0 then 0 else DecimalValue(s[..|s| - 1]) * 10 + DigitValue(s[|s| - 1])
  }

  /** Reading back the digits `NatToDecimal` writes gives the number again. */
  lemma {:induction false} NatToDecimalRoundTrip(n: nat)
    ensures DecimalValue(NatToDecimal(n)) == n
    decreases n
  {
    if n >= 10 {
      NatToDecimalRoundTrip(n / 10);
      var s := NatToDecimal(n);
      assert s[..|s| - 1] == NatToDecimal(n / 10);
    }
  }

  /** `str(n)` is injective: two integers with the same decimal text are equal. */
  lemma IntToDecimalInjective(m: int, n: int)
    requires IntToDecimal(m) == IntToDecimal(n)
    ensures m == n
  {
    if m >= 0 {
      NatToDecimalRoundTrip(m);
      NatToDecimalRoundTrip(n);
    } else {
      assert NatToDecimal(-m) == IntToDecimal(m)[1..];
      assert NatToDecimal(-n) == IntToDecimal(n)[1..];
      NatToDecimalRoundTrip(-m);
      NatToDecimalRoundTrip(-n);
    }
  }
}
