/**
 * String and sequence operations with the meaning Python gives them, restricted to
 * what the organizer uses: `startswith`/`endswith`, the `in` operator on strings,
 * `str.lower`, `str.strip`, `str.replace` on one character, `str.rfind`,
 * `os.path.splitext` on a base name and `str(n)` for a natural number.
 */
module Text {

  /** `s.startswith(p)`. */
  predicate StartsWith<T(==)>(s: seq<T>, p: seq<T>)
  {
    |p| <= |s| && s[..|p|] == p
  }

  /** `s.endswith(p)`. */
  predicate EndsWith<T(==)>(s: seq<T>, p: seq<T>)
  {
    |p| <= |s| && s[|s| - |p|..] == p
  }

  /** `a in b` on strings: `a` occurs as a contiguous piece of `b` (the empty string occurs everywhere). */
  predicate IsSubstring(a: string, b: string)
  {
    StartsWith(b, a) || (|b| > 0 && IsSubstring(a, b[1..]))
  }

  /** `a` sits in `b` starting at position `i`. */
  predicate OccursAt(a: string, b: string, i: nat)
  {
    i + |a| <= |b| && b[i..i + |a|] == a
  }

  lemma {:induction false} SubstringAt(a: string, b: string, i: nat)
    requires OccursAt(a, b, i)
    ensures IsSubstring(a, b)
  {
    if i > 0 {
      assert b[1..][i - 1..i - 1 + |a|] == b[i..i + |a|];
      SubstringAt(a, b[1..], i - 1);
    } else {
      assert b[..|a|] == a;
    }
  }

  lemma {:induction false} SubstringIndex(a: string, b: string) returns (i: nat)
    requires IsSubstring(a, b)
    ensures OccursAt(a, b, i)
  {
    if StartsWith(b, a) {
      i := 0;
    } else {
      var j := SubstringIndex(a, b[1..]);
      assert b[1..][j..j + |a|] == b[j + 1..j + 1 + |a|];
      i := j + 1;
    }
  }

  /** `a in b` holds exactly when `a` sits at some position of `b`. */
  lemma {:induction false} SubstringMeans(a: string, b: string)
    ensures IsSubstring(a, b) <==> exists i :: OccursAt(a, b, i)
  {
    if IsSubstring(a, b) {
      var i := SubstringIndex(a, b);
    }
    if exists i :: OccursAt(a, b, i) {
      var i :| OccursAt(a, b, i);
      SubstringAt(a, b, i);
    }
  }

  /** `c.lower()` on ASCII: upper-case Latin letters become lower case, everything else is kept. */
  function LowerChar(c: char): char
  {
    if 'A' <= c <= 'Z' then (c as int + 32) as char else c
  }

  predicate IsUpper(c: char)
  {
    'A' <= c <= 'Z'
  }

  /** `s.lower()`, character by character: no upper-case letter is left, and a string without one is unchanged. */
  function Lower(s: string): (r: string)
    ensures |r| == |s|
    ensures forall i :: 0 <= i < |r| ==> !IsUpper(r[i])
    ensures forall i :: 0 <= i < |r| && IsUpper(s[i]) ==> r[i] as int == s[i] as int - 'A' as int + 'a' as int
    ensures forall i :: 0 <= i < |r| && !IsUpper(s[i]) ==> r[i] == s[i]
  {
    seq(|s|, i requires 0 <= i < |s| => LowerChar(s[i]))
  }

  lemma {:induction false} LowerAppend(a: string, b: string)
    ensures Lower(a + b) == Lower(a) + Lower(b)
  {
  }

  /**
   * `s.replace(old, new)` for single characters: every `from` becomes `to`, every other
   * character stays where it was.
   */
  function ReplaceChar(s: string, from: char, to: char): (r: string)
    ensures |r| == |s|
    ensures forall i :: 0 <= i < |r| ==> r[i] == (if s[i] == from then to else s[i])
    ensures from != to ==> from !in r
  {
    seq(|s|, i requires 0 <= i < |s| => if s[i] == from then to else s[i])
  }

  /** `c.isspace()`: the characters Python's `str.strip()` removes when called without arguments. */
  predicate IsSpace(c: char)
  {
    var n := c as int;
    n == 0x20 || 0x09 <= n <= 0x0D || 0x1C <= n <= 0x1F || n == 0x85 || n == 0xA0 ||
    n == 0x1680 || 0x2000 <= n <= 0x200A || n == 0x2028 || n == 0x2029 ||
    n == 0x202F || n == 0x205F || n == 0x3000
  }

  predicate AllSpace(s: string)
  {
    forall i :: 0 <= i < |s| ==> IsSpace(s[i])
  }

  /** The first index at or after `i` that does not hold white space (`|s|` if there is none). */
  function SkipSpaces(s: string, i: nat): (j: nat)
    requires i <= |s|
    ensures i <= j <= |s|
    ensures forall k :: i <= k < j ==> IsSpace(s[k])
    ensures j < |s| ==> !IsSpace(s[j])
    decreases |s| - i
  {
    if i < |s| && IsSpace(s[i]) then SkipSpaces(s, i + 1) else i
  }

  /** The smallest `e`, down to `lo`, such that everything from `e` up to `j` is white space. */
  function SkipSpacesBack(s: string, j: nat, lo: nat): (e: nat)
    requires lo <= j <= |s|
    ensures lo <= e <= j
    ensures forall k :: e <= k < j ==> IsSpace(s[k])
    ensures e > lo ==> !IsSpace(s[e - 1])
    decreases j
  {
    if j > lo && IsSpace(s[j - 1]) then SkipSpacesBack(s, j - 1, lo) else j
  }

  /**
   * `s.strip()`: white space removed from both ends. The result is the piece of `s`
   * between a white-space prefix and a white-space suffix, and it neither starts nor ends
   * with white space.
   */
  function Strip(s: string): (r: string)
    ensures r == [] <==> AllSpace(s)
    ensures r != [] ==> !IsSpace(r[0]) && !IsSpace(r[|r| - 1])
    ensures exists i, e :: 0 <= i <= e <= |s| && r == s[i..e] && AllSpace(s[..i]) && AllSpace(s[e..])
    ensures |r| <= |s|
  {
    var i := SkipSpaces(s, 0);
    var e := SkipSpacesBack(s, |s|, i);
    assert AllSpace(s[..i]) && AllSpace(s[e..]);
    s[i..e]
  }

  /** A string with no white space at either end is its own strip. */
  lemma {:induction false} StripKeeps(s: string)
    requires s != [] && !IsSpace(s[0]) && !IsSpace(s[|s| - 1])
    ensures Strip(s) == s
  {
    assert SkipSpaces(s, 0) == 0;
    assert SkipSpacesBack(s, |s|, 0) == |s|;
  }

  /** Stripping twice is stripping once. */
  lemma {:induction false} StripIdempotent(s: string)
    ensures Strip(Strip(s)) == Strip(s)
  {
    var r := Strip(s);
    if r != [] {
      StripKeeps(r);
    }
  }

  /** `s.rfind(c)`: the index of the last occurrence of `c` in `s`, or -1. */
  function LastIndexOf(s: string, c: char): (r: int)
    ensures -1 <= r < |s|
    ensures r >= 0 ==> s[r] == c
    ensures forall k :: r < k < |s| ==> s[k] != c
  {
    if |s| == 0 then -1
    else if s[|s| - 1] == c then |s| - 1
    else LastIndexOf(s[..|s| - 1], c)
  }

  /**
   * `os.path.splitext(name)` for a base name (one without directory separators): the
   * extension starts at the last dot, unless every character before that dot is a dot
   * itself (so ".bashrc" has no extension), in which case the extension is empty.
   */
  function SplitExt(name: string): (r: (string, string))
    ensures r.0 + r.1 == name
    ensures r.1 != [] ==> r.1[0] == '.' && '.' !in r.1[1..]
    ensures r.1 != [] ==> exists k :: 0 <= k < |r.0| && r.0[k] != '.'
    ensures r.1 == [] ==> forall i, k :: 0 <= k < i < |name| && name[i] == '.' ==> name[k] == '.'
  {
    var d := LastIndexOf(name, '.');
    if d > 0 && exists k :: 0 <= k < d && name[k] != '.' then
      assert name[..d] + name[d..] == name;
      (name[..d], name[d..])
    else
      (name, [])
  }

  predicate IsDigit(c: char)
  {
    '0' <= c <= '9'
  }

  predicate AllDigits(s: string)
  {
    forall i :: 0 <= i < |s| ==> IsDigit(s[i])
  }

  function DigitChar(d: nat): char
    requires d < 10
  {
    ('0' as int + d) as char
  }

  /** `str(n)`: the decimal numeral of `n`, without leading zeros. */
  function NatToDecimal(n: nat): (s: string)
    ensures |s| >= 1 && AllDigits(s)
    ensures |s| > 1 ==> s[0] != '0'
  {
    if n < 10 then [DigitChar(n)] else NatToDecimal(n / 10) + [DigitChar(n % 10)]
  }

  /** The value of a decimal numeral (the inverse of `NatToDecimal`). */
  function DecimalValue(s: string): nat
    requires AllDigits(s)
  {
    if s == [] then 0 else DecimalValue(s[..|s| - 1]) * 10 + (s[|s| - 1] as int - '0' as int)
  }

  lemma {:induction false} DecimalRoundTrip(n: nat)
    ensures DecimalValue(NatToDecimal(n)) == n
  {
    if n >= 10 {
      var s := NatToDecimal(n);
      assert s[..|s| - 1] == NatToDecimal(n / 10);
      DecimalRoundTrip(n / 10);
    }
  }

  lemma {:induction false} DecimalInjective(m: nat, n: nat)
    requires NatToDecimal(m) == NatToDecimal(n)
    ensures m == n
  {
    DecimalRoundTrip(m);
    DecimalRoundTrip(n);
  }
}
