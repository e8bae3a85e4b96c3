/**
  The string operations the ranking page uses: `String.prototype.trim`,
  `startsWith`, and the decimal rendering of a clock value inside a
  template literal such as `tier-${n}`.
 */
module Text {

  /**
    The code points `trim` removes: ECMAScript's WhiteSpace (tab, vertical
    tab, form feed, the byte order mark and the space separators) and its
    LineTerminator (line feed, carriage return, line and paragraph separator).
   */
  predicate IsWhitespace(c: char)
  {
    || c == '\t' || c == '\n' || c == '\U{000B}' || c == '\U{000C}' || c == '\r'
    || c == ' ' || c == '\U{00A0}' || c == '\U{1680}'
    || ('\U{2000}' <= c <= '\U{200A}')
    || c == '\U{2028}' || c == '\U{2029}' || c == '\U{202F}' || c == '\U{205F}'
    || c == '\U{3000}' || c == '\U{FEFF}'
  }

  predicate AllWhitespace(s: string)
  {
    forall i :: 0 <= i < |s| ==> IsWhitespace(s[i])
  }

  /** Leading whitespace removed: the longest suffix that does not start with whitespace. */
  function TrimStart(s: string): (r: string)
    ensures |r| <= |s| && r == s[|s| - |r|..]
    ensures AllWhitespace(s[..|s| - |r|])
    ensures r != [] ==> !IsWhitespace(r[0])
  {
    if s != [] && IsWhitespace(s[0]) then
      var r := TrimStart(s[1..]);
      assert s[..|s| - |r|] == [s[0]] + s[1..][..|s[1..]| - |r|];
      r
    else s
  }

  /** Trailing whitespace removed: the longest prefix that does not end with whitespace. */
  function TrimEnd(s: string): (r: string)
    ensures |r| <= |s| && r == s[..|r|]
    ensures AllWhitespace(s[|r|..])
    ensures r != [] ==> !IsWhitespace(r[|r| - 1])
  {
    if s != [] && IsWhitespace(s[|s| - 1]) then
      var r := TrimEnd(s[..|s| - 1]);
      assert s[|r|..] == s[..|s| - 1][|r|..] + [s[|s| - 1]];
      r
    else s
  }

  /** `value.trim()`: whitespace cut off on both sides. */
  function Trim(value: string): (r: string)
    ensures |r| <= |value|
    ensures r != [] ==> !IsWhitespace(r[0]) && !IsWhitespace(r[|r| - 1])
  {
    TrimEnd(TrimStart(value))
  }

  /** The trimmed value is a contiguous part of `value`, with only whitespace cut off on either side. */
  lemma TrimIsSlice(value: string)
    ensures exists i, j :: 0 <= i <= j <= |value| && Trim(value) == value[i..j]
              && AllWhitespace(value[..i]) && AllWhitespace(value[j..])
  {
    var a := TrimStart(value);
    var r := TrimEnd(a);
    var i := |value| - |a|;
    TrimSlices(value, a, r);
    assert 0 <= i <= i + |r| <= |value| && Trim(value) == value[i..i + |r|]
           && AllWhitespace(value[..i]) && AllWhitespace(value[i + |r|..]);
  }

  /**
    A prefix `r` of a suffix `a` of `value` is a slice of `value`; when only
    whitespace precedes `a` and follows `r` inside `a`, only whitespace
    follows `r` inside `value`.
   */
  lemma TrimSlices(value: string, a: string, r: string)
    requires |a| <= |value| && a == value[|value| - |a|..]
    requires |r| <= |a| && r == a[..|r|]
    requires AllWhitespace(a[|r|..])
    ensures var i := |value| - |a|;
            && r == value[i..i + |r|]
            && AllWhitespace(value[i + |r|..])
  {
    var i := |value| - |a|;
    assert value[i + |r|..] == a[|r|..];
  }

  /** Trimming a value that neither starts nor ends with whitespace leaves it as it is. */
  lemma TrimOfTrimmed(s: string)
    requires s != [] ==> !IsWhitespace(s[0]) && !IsWhitespace(s[|s| - 1])
    ensures Trim(s) == s
  {
  }

  /** `trim` is idempotent. */
  lemma TrimIdempotent(value: string)
    ensures Trim(Trim(value)) == Trim(value)
  {
    TrimOfTrimmed(Trim(value));
  }

  /** A value that is whitespace up to `i` and from `i` on is all whitespace. */
  lemma AllWhitespaceAround(value: string, i: nat)
    requires i <= |value| && AllWhitespace(value[..i]) && AllWhitespace(value[i..])
    ensures AllWhitespace(value)
  {
    forall k | 0 <= k < |value| ensures IsWhitespace(value[k]) {
      if k < i {
        assert value[..i][k] == value[k];
      } else {
        assert value[i..][k - i] == value[k];
      }
    }
  }

  /** The trimmed value is empty exactly when the value is all whitespace. */
  lemma TrimEmpty(value: string)
    ensures Trim(value) == [] <==> AllWhitespace(value)
  {
    var r := Trim(value);
    TrimIsSlice(value);
    var i, j :| 0 <= i <= j <= |value| && r == value[i..j]
              && AllWhitespace(value[..i]) && AllWhitespace(value[j..]);
    if r == [] {
      assert i == j;
      AllWhitespaceAround(value, i);
    } else {
      assert value[i] == r[0];
    }
  }

  /** `s.startsWith(prefix)`. */
  predicate StartsWith(s: string, prefix: string)
  {
    |prefix| <= |s| && s[..|prefix|] == prefix
  }

  /** The decimal digit character for `d`. */
  function Digit(d: nat): (c: char)
    requires d < 10
    ensures '0' <= c <= '9'
  {
    (('0' as int) + d) as char
  }

  /** How a non-negative integer prints inside a template literal: decimal, no leading zeros. */
  function NatToString(n: nat): (r: string)
    ensures |r| >= 1
    ensures n < 10 <==> |r| == 1
    ensures forall k :: 0 <= k < |r| ==> '0' <= r[k] <= '9'
  {
    if n < 10 then [Digit(n)] else NatToString(n / 10) + [Digit(n % 10)]
  }

  /** The numeric value of a string of decimal digits, most significant first. */
  function DecimalValue(s: string): (v: nat)
    requires forall k :: 0 <= k < |s| ==> '0' <= s[k] <= '9'
  {
    if s == [] then 0 else 10 * DecimalValue(s[..|s| - 1]) + ((s[|s| - 1] as int) - ('0' as int))
  }

  /** The printed digits are the number's decimal digits: read back, they give `n`, with no leading zero. */
  lemma {:induction false} NatToStringValue(n: nat)
    ensures DecimalValue(NatToString(n)) == n
    ensures n > 0 ==> NatToString(n)[0] != '0'
  {
    var r := NatToString(n);
    if n >= 10 {
      NatToStringValue(n / 10);
      assert r[..|r| - 1] == NatToString(n / 10);
      assert r[0] == NatToString(n / 10)[0];
    }
  }

  /** Different numbers print differently. */
  lemma {:induction false} NatToStringInjective(a: nat, b: nat)
    requires NatToString(a) == NatToString(b)
    ensures a == b
  {
    if a >= 10 && b >= 10 {
      var sa, sb := NatToString(a), NatToString(b);
      assert sa[|sa| - 1] == sb[|sb| - 1];
      assert a % 10 == b % 10;
      assert sa[..|sa| - 1] == NatToString(a / 10);
      assert sb[..|sb| - 1] == NatToString(b / 10);
      NatToStringInjective(a / 10, b / 10);
    }
  }
}
