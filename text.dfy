/** String helpers shared by the model: prefix and suffix tests, character
    search, decimal rendering of integers and the two whitespace trims used by
    the sources (Java's String.trim and Python's str.strip). */
module Text {

  predicate StartsWith(s: string, prefix: string) {
    |prefix| <= |s| && s[..|prefix|] == prefix
  }

  predicate EndsWith(s: string, suffix: string) {
    |suffix| <= |s| && s[|s| - |suffix|..] == suffix
  }

  predicate IsDigit(c: char) { '0' <= c <= '9' }

  predicate AllDigits(s: string) {
    forall i :: 0 <= i < |s| ==> IsDigit(s[i])
  }

  /** Index of the first `c` at or after `from`, or -1 (Java's indexOf). */
  function IndexOfFrom(s: string, c: char, from: nat): (r: int)
    decreases |s| - from
    ensures r == -1 || (from <= r < |s| && s[r] == c)
    ensures r == -1 ==> forall k :: from <= k < |s| ==> s[k] != c
    ensures r != -1 ==> forall k :: from <= k < r ==> s[k] != c
  {
    if from >= |s| then -1
    else if s[from] == c then from
    else IndexOfFrom(s, c, from + 1)
  }

  function IndexOf(s: string, c: char): (r: int)
    ensures r == -1 <==> c !in s
    ensures r != -1 ==> 0 <= r < |s| && s[r] == c && c !in s[..r]
  {
    IndexOfFrom(s, c, 0)
  }

  /** The first `c` at or after `from` is found by IndexOfFrom. */
  lemma IndexOfFromFirst(s: string, c: char, from: nat, k: nat)
    requires from <= k < |s| && s[k] == c
    requires forall j :: from <= j < k ==> s[j] != c
    ensures IndexOfFrom(s, c, from) == k
  {
  }

  /** A slice of `s` that spells a + b spells a, then b. */
  lemma SliceConcat(s: string, pos: nat, a: string, b: string)
    requires pos + |a| + |b| <= |s| && s[pos..pos + |a| + |b|] == a + b
    ensures s[pos..pos + |a|] == a
    ensures s[pos + |a|..pos + |a| + |b|] == b
  {
    assert s[pos..pos + |a|] == (a + b)[..|a|];
    assert s[pos + |a|..pos + |a| + |b|] == (a + b)[|a|..];
  }

  function DigitChar(d: nat): char
    requires d < 10
  {
    "0123456789"[d]
  }

  /** Decimal rendering of a natural number, as Integer.toString and
      StringBuilder.append(int) produce it for non-negative values. */
  function NatToString(n: nat): (r: string)
    decreases n
  {
    if n < 10 then [DigitChar(n)] else NatToString(n / 10) + [DigitChar(n % 10)]
  }

  /** Decimal rendering of any integer, with a leading '-' when negative
      (Python's "%d" and Java's Integer.toString). */
  function IntToString(i: int): string {
    if i < 0 then "-" + NatToString(-i) else NatToString(i)
  }

  /** Value of a string of decimal digits. */
  function DigitsValue(s: string): nat
    requires AllDigits(s)
  {
    if s == [] then 0 else 10 * DigitsValue(s[..|s| - 1]) + (s[|s| - 1] as int - '0' as int)
  }

  lemma {:induction false} NatToStringDigits(n: nat)
    ensures |NatToString(n)| >= 1
    ensures AllDigits(NatToString(n))
    ensures DigitsValue(NatToString(n)) == n
    ensures n >= 10 ==> NatToString(n)[0] != '0'
    decreases n
  {
    if n >= 10 {
      var q, r := n / 10, n % 10;
      NatToStringDigits(q);
      DigitCharValue(r);
      var p := NatToString(q);
      var s := p + [DigitChar(r)];
      assert NatToString(n) == s;
      assert s[..|s| - 1] == p;
      assert s[0] == p[0];
      assert AllDigits(s) by {
        forall i | 0 <= i < |s| ensures IsDigit(s[i]) {
          if i < |p| {
            assert s[i] == p[i];
          }
        }
      }
      assert DigitsValue(s) == 10 * q + r;
    } else {
      DigitCharValue(n);
      assert NatToString(n) == [DigitChar(n)];
      assert [DigitChar(n)][..0] == [];
    }
  }

  /** The character written for a digit is a digit with that value. */
  lemma DigitCharValue(d: nat)
    requires d < 10
    ensures IsDigit(DigitChar(d)) && DigitChar(d) as int - '0' as int == d
  {
  }

  /** The characters Java's String.trim drops: every char up to ' '. */
  predicate IsJavaSpace(c: char) { c <= ' ' }

  /** Java's String.trim. */
  function JavaTrim(s: string): (r: string)
    ensures |r| <= |s|
    ensures r != [] ==> !IsJavaSpace(r[0]) && !IsJavaSpace(r[|r| - 1])
  {
    JavaTrimEnd(JavaTrimStart(s))
  }

  function JavaTrimStart(s: string): (r: string)
    ensures |r| <= |s| && r == s[|s| - |r|..]
    ensures r != [] ==> !IsJavaSpace(r[0])
  {
    if s != [] && IsJavaSpace(s[0]) then JavaTrimStart(s[1..]) else s
  }

  function JavaTrimEnd(s: string): (r: string)
    ensures |r| <= |s| && r == s[..|r|]
    ensures r != [] ==> !IsJavaSpace(r[|r| - 1])
    ensures r != [] && s != [] && !IsJavaSpace(s[0]) ==> !IsJavaSpace(r[0])
  {
    if s != [] && IsJavaSpace(s[|s| - 1]) then JavaTrimEnd(s[..|s| - 1]) else s
  }

  /** The characters Python's str.strip() and int() remove: those for which
      str.isspace() holds. */
  predicate IsPyWhitespace(c: char) {
    c == ' ' || '\t' <= c <= '\r' || '\U{1c}' <= c <= '\U{1f}'
    || c == '\U{85}' || c == '\U{a0}' || c == '\U{1680}'
    || '\U{2000}' <= c <= '\U{200a}' || c == '\U{2028}' || c == '\U{2029}'
    || c == '\U{202f}' || c == '\U{205f}' || c == '\U{3000}'
  }

  /** Python's str.strip(). */
  function PyStrip(s: string): (r: string)
    ensures |r| <= |s|
    ensures r != [] ==> !IsPyWhitespace(r[0]) && !IsPyWhitespace(r[|r| - 1])
  {
    PyStripEnd(PyStripStart(s))
  }

  function PyStripStart(s: string): (r: string)
    ensures |r| <= |s| && r == s[|s| - |r|..]
    ensures r != [] ==> !IsPyWhitespace(r[0])
  {
    if s != [] && IsPyWhitespace(s[0]) then PyStripStart(s[1..]) else s
  }

  function PyStripEnd(s: string): (r: string)
    ensures |r| <= |s| && r == s[..|r|]
    ensures r != [] ==> !IsPyWhitespace(r[|r| - 1])
    ensures r != [] && s != [] && !IsPyWhitespace(s[0]) ==> !IsPyWhitespace(r[0])
  {
    if s != [] && IsPyWhitespace(s[|s| - 1]) then PyStripEnd(s[..|s| - 1]) else s
  }

  /** Python's str.split(sep) for a one-character separator. */
  function SplitOn(s: string, sep: char): (parts: seq<string>)
    ensures |parts| >= 1
    decreases |s|
  {
    var k := IndexOf(s, sep);
    if k == -1 then [s] else [s[..k]] + SplitOn(s[k + 1..], sep)
  }

  function Concat(parts: seq<string>): string {
    if parts == [] then "" else Concat(parts[..|parts| - 1]) + parts[|parts| - 1]
  }

  const TwoTo32: int := 0x1_0000_0000
  const TwoTo31: int := 0x8000_0000

  /** A Java `int`: the value reduced modulo 2^32 into [-2^31, 2^31). */
  function ToInt32(x: int): (r: int)
    ensures -TwoTo31 <= r < TwoTo31
    ensures (r - x) % TwoTo32 == 0
    ensures -TwoTo31 <= x < TwoTo31 ==> r == x
  {
    (x + TwoTo31) % TwoTo32 - TwoTo31
  }

  /** Wrapping after every step of a multiply-add gives the same `int` as
      wrapping once at the end. */
  lemma ToInt32MulAdd(a: int, d: int)
    ensures ToInt32(10 * ToInt32(a) + d) == ToInt32(10 * a + d)
  {
    var w := ToInt32(a);
    var q := (w - a) / TwoTo32;
    assert w == a + q * TwoTo32;
    assert 10 * w + d + TwoTo31 == (10 * a + d + TwoTo31) + (10 * q) * TwoTo32;
    ModShift(10 * a + d + TwoTo31, 10 * q);
  }

  lemma ModShift(x: int, k: int)
    ensures (x + k * TwoTo32) % TwoTo32 == x % TwoTo32
  {
  }
}
