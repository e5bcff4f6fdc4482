/**
 * Strings as the clinic code uses them: substring search (what `LIKE '%q%'`
 * matches, modulo case), Python's `str(int)` and its inverse, and the
 * code-point order SQLite's default collation sorts names by.
 */
module Text {
  import opened Wrappers

  /** `prefix` is an initial segment of `s`. */
  predicate IsPrefix(prefix: string, s: string) {
    |prefix| <= |s| && s[..|prefix|] == prefix
  }

  /** `needle` occurs in `hay` as a contiguous substring. */
  predicate Contains(hay: string, needle: string)
    decreases |hay|
  {
    IsPrefix(needle, hay) || (|hay| > 0 && Contains(hay[1..], needle))
  }

  /** An occurrence at any offset makes `Contains` true. */
  lemma {:induction false} ContainsAt(hay: string, needle: string, i: nat)
    requires i + |needle| <= |hay| && hay[i..i + |needle|] == needle
    ensures Contains(hay, needle)
    decreases i
  {
    if i == 0 {
      assert hay[..|needle|] == needle;
    } else {
      assert hay[1..][i - 1..i - 1 + |needle|] == hay[i..i + |needle|];
      ContainsAt(hay[1..], needle, i - 1);
    }
  }

  // ---------------------------------------------------------------------
  // Decimal rendering of integers

  predicate IsDigit(c: char) {
    '0' <= c <= '9'
  }

  predicate AllDigits(s: string) {
    forall i :: 0 <= i < |s| ==> IsDigit(s[i])
  }

  function DigitChar(d: nat): (c: char)
    requires d < 10
    ensures IsDigit(c) && DigitValue(c) == d
  {
    ('0' as int + d) as char
  }

  function DigitValue(c: char): nat
    requires IsDigit(c)
  {
    c as int - '0' as int
  }

  /** Python's `str(n)` for a non-negative integer: no sign, no leading zero. */
  function NatToString(n: nat): (s: string)
    ensures |s| > 0 && AllDigits(s)
    decreases n
  {
    if n < 10 then [DigitChar(n)] else NatToString(n / 10) + [DigitChar(n % 10)]
  }

  /** Python's `str(i)`: a minus sign before the digits of a negative number. */
  function IntToString(i: int): (s: string)
    ensures |s| > 0
  {
    if i < 0 then "-" + NatToString(-i) else NatToString(i)
  }

  /** The number a string of decimal digits denotes. */
  function DigitsValue(s: string): nat
    requires AllDigits(s)
  {
    if s == [] then 0 else DigitsValue(s[..|s| - 1]) * 10 + DigitValue(s[|s| - 1])
  }

  /** Reads a non-empty run of decimal digits. */
  function ParseNat(s: string): Option<nat> {
    if s != [] && AllDigits(s) then Some(DigitsValue(s)) else None
  }

  /** Reads what `IntToString` writes. */
  function ParseInt(s: string): Option<int> {
    if |s| > 0 && s[0] == '-' then
      match ParseNat(s[1..])
      case Some(n) => Some(0 - n as int)
      case None => None
    else
      match ParseNat(s)
      case Some(n) => Some(n as int)
      case None => None
  }

  lemma {:induction false} NatToStringRoundTrip(n: nat)
    ensures DigitsValue(NatToString(n)) == n
    decreases n
  {
    if n >= 10 {
      var s := NatToString(n);
      assert s[..|s| - 1] == NatToString(n / 10);
      NatToStringRoundTrip(n / 10);
    }
  }

  /** Every integer is read back from its decimal text. */
  lemma IntToStringRoundTrip(i: int)
    ensures ParseInt(IntToString(i)) == Some(i)
  {
    var s := IntToString(i);
    if i < 0 {
      assert s[1..] == NatToString(-i);
      NatToStringRoundTrip(-i);
    } else {
      NatToStringRoundTrip(i);
    }
  }

  /** Distinct numbers have distinct decimal texts. */
  lemma NatToStringInjective(a: nat, b: nat)
    requires NatToString(a) == NatToString(b)
    ensures a == b
  {
    NatToStringRoundTrip(a);
    NatToStringRoundTrip(b);
  }

  // ---------------------------------------------------------------------
  // Code-point order on strings

  /** Lexicographic order by code point: SQLite's BINARY collation on UTF-8 text. */
  predicate StrLe(a: string, b: string)
    decreases |a|
  {
    if a == [] then true
    else if b == [] then false
    else if a[0] != b[0] then a[0] < b[0]
    else StrLe(a[1..], b[1..])
  }

  lemma {:induction false} StrLeTotal(a: string, b: string)
    ensures StrLe(a, b) || StrLe(b, a)
    decreases |a|
  {
    if a != [] && b != [] && a[0] == b[0] {
      StrLeTotal(a[1..], b[1..]);
    }
  }

  lemma {:induction false} StrLeTransitive(a: string, b: string, c: string)
    requires StrLe(a, b) && StrLe(b, c)
    ensures StrLe(a, c)
    decreases |a|
  {
    if a != [] && b != [] && c != [] && a[0] == b[0] && b[0] == c[0] {
      StrLeTransitive(a[1..], b[1..], c[1..]);
    }
  }

  /** A rendered integer holds only digits and a leading minus sign. */
  lemma IntToStringChars(i: int)
    ensures forall j :: 0 <= j < |IntToString(i)| ==> IntToString(i)[j] == '-' || IsDigit(IntToString(i)[j])
  {
    if i < 0 {
      var s := IntToString(i);
      forall j | 0 <= j < |s| ensures s[j] == '-' || IsDigit(s[j]) {
        if j > 0 {
          assert s[j] == NatToString(-i)[j - 1];
        }
      }
    }
  }

  /** Position of the last `c` in `s`, or -1 when there is none. */
  function LastIndexOf(s: string, c: char): (r: int)
    ensures -1 <= r < |s|
    ensures r >= 0 ==> s[r] == c
  {
    if |s| == 0 then -1
    else if s[|s| - 1] == c then |s| - 1
    else LastIndexOf(s[..|s| - 1], c)
  }

  /** In `a + [c] + d` with no `c` in `d`, the last `c` is the one after `a`. */
  lemma {:induction false} LastIndexAfter(a: string, c: char, d: string)
    requires c !in d
    ensures LastIndexOf(a + [c] + d, c) == |a|
    decreases |d|
  {
    var s := a + [c] + d;
    if |d| > 0 {
      assert s[|s| - 1] == d[|d| - 1];
      assert s[..|s| - 1] == a + [c] + d[..|d| - 1];
      LastIndexAfter(a, c, d[..|d| - 1]);
    }
  }

  /**
   * A string `a + [c] + d` in which `d` holds no `c` splits back into its
   * parts: `d` is what follows the last `c`.
   */
  lemma SplitAtLast(a1: string, d1: string, a2: string, d2: string, c: char)
    requires a1 + [c] + d1 == a2 + [c] + d2
    requires c !in d1 && c !in d2
    ensures a1 == a2 && d1 == d2
  {
    var s := a1 + [c] + d1;
    LastIndexAfter(a1, c, d1);
    LastIndexAfter(a2, c, d2);
    assert a1 == s[..|a1|] == a2;
    assert d1 == s[|a1| + 1..] == d2;
  }

  /** Strings that agree on a prefix and a suffix agree on what lies between. */
  lemma CancelAffixes(p: string, x: string, y: string, t: string)
    requires p + x + t == p + y + t
    ensures x == y
  {
    var s := p + x + t;
    assert x == s[|p|..|s| - |t|];
    assert y == (p + y + t)[|p|..|s| - |t|];
  }
}
