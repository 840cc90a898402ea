/** Small value-level helpers shared by every part of the model: optional
    values, the decimal rendering that JavaScript template literals use for
    ids such as "G-3" and "W-12", the whitespace set of String.prototype.trim,
    and the first-match search behind Array.prototype.find. */
module Text {

  datatype Option<+T> = None | Some(value: T)

  // ---------------------------------------------------------------------
  // Decimal numbers
  // ---------------------------------------------------------------------

  predicate IsDigit(c: char) {
    '0' <= c <= '9'
  }

  function DigitChar(d: nat): (c: char)
    requires d < 10
    ensures IsDigit(c)
  {
    ('0' as int + d) as char
  }

  /** Decimal rendering of a natural number, without leading zeros. */
  function NatToString(n: nat): (s: string)
    ensures |s| >= 1 && IsDigit(s[0])
    ensures s[0] == '0' ==> n == 0
    decreases n
  {
    if n < 10 then [DigitChar(n)] else NatToString(n / 10) + [DigitChar(n % 10)]
  }

  /** The rendering uses decimal digits only. */
  lemma {:induction false} NatToStringDigits(n: nat)
    ensures forall i :: 0 <= i < |NatToString(n)| ==> IsDigit(NatToString(n)[i])
    decreases n
  {
    if n >= 10 {
      NatToStringDigits(n / 10);
    }
  }

  /** Reads a string of digits back as a number (the inverse of
      NatToString). */
  function DecimalValue(s: string): int
    decreases |s|
  {
    if s == [] then 0 else DecimalValue(s[..|s| - 1]) * 10 + (s[|s| - 1] as int - '0' as int)
  }

  lemma {:induction false} DecimalRoundTrip(n: nat)
    ensures DecimalValue(NatToString(n)) == n
    decreases n
  {
    var s := NatToString(n);
    if n >= 10 {
      DecimalRoundTrip(n / 10);
      assert s[..|s| - 1] == NatToString(n / 10);
    }
  }

  lemma NatToStringInjective(a: nat, b: nat)
    requires NatToString(a) == NatToString(b)
    ensures a == b
  {
    DecimalRoundTrip(a);
    DecimalRoundTrip(b);
  }

  /** Decimal rendering of an integer as `${n}` prints it: a minus sign
      in front of the magnitude for negative numbers. */
  function IntToString(n: int): (s: string)
    ensures |s| >= 1
    ensures s[0] == '-' <==> n < 0
  {
    if n < 0 then "-" + NatToString(-n) else NatToString(n)
  }

  /** Reads the output of IntToString back. */
  function IntValue(s: string): int
  {
    if s != [] && s[0] == '-' then -DecimalValue(s[1..]) else DecimalValue(s)
  }

  lemma IntRoundTrip(n: int)
    ensures IntValue(IntToString(n)) == n
  {
    var s := IntToString(n);
    if n < 0 {
      assert s[1..] == NatToString(-n);
      DecimalRoundTrip(-n);
    } else {
      DecimalRoundTrip(n);
    }
  }

  lemma IntToStringInjective(a: int, b: int)
    requires IntToString(a) == IntToString(b)
    ensures a == b
  {
    IntRoundTrip(a);
    IntRoundTrip(b);
  }

  /** `${prefix}${n}`, the shape of granule ids ("G-") and worker ids ("W-"). */
  function Numbered(prefix: string, n: int): string
  {
    prefix + IntToString(n)
  }

  lemma NumberedInjective(prefix: string, a: int, b: int)
    requires Numbered(prefix, a) == Numbered(prefix, b)
    ensures a == b
  {
    assert Numbered(prefix, a)[|prefix|..] == IntToString(a);
    assert Numbered(prefix, b)[|prefix|..] == IntToString(b);
    IntToStringInjective(a, b);
  }

  // ---------------------------------------------------------------------
  // Whitespace and trimming (String.prototype.trim)
  // ---------------------------------------------------------------------

  /** ECMAScript WhiteSpace and LineTerminator code points. */
  predicate IsWhitespace(c: char) {
    || c == '\t' || c == '\n' || c == '\U{000B}' || c == '\U{000C}' || c == '\r'
    || c == ' ' || c == '\U{00A0}' || c == '\U{1680}'
    || ('\U{2000}' <= c <= '\U{200A}')
    || c == '\U{2028}' || c == '\U{2029}' || c == '\U{202F}' || c == '\U{205F}'
    || c == '\U{3000}' || c == '\U{FEFF}'
  }

  /** Every character of `s` from position `lo` up to `hi` is whitespace. */
  predicate WhitespaceBetween(s: string, lo: nat, hi: nat)
    requires lo <= hi <= |s|
  {
    forall i :: lo <= i < hi ==> IsWhitespace(s[i])
  }

  /** The first position from `i` on that does not hold whitespace. */
  function SkipWhitespace(s: string, i: nat): (k: nat)
    requires i <= |s|
    ensures i <= k <= |s| && WhitespaceBetween(s, i, k)
    ensures k < |s| ==> !IsWhitespace(s[k])
    decreases |s| - i
  {
    if i < |s| && IsWhitespace(s[i]) then SkipWhitespace(s, i + 1) else i
  }

  /** The end of `s[lo..j]` once its trailing whitespace is dropped. */
  function BackOverWhitespace(s: string, lo: nat, j: nat): (k: nat)
    requires lo <= j <= |s|
    ensures lo <= k <= j && WhitespaceBetween(s, k, j)
    ensures k > lo ==> !IsWhitespace(s[k - 1])
    decreases j
  {
    if j > lo && IsWhitespace(s[j - 1]) then BackOverWhitespace(s, lo, j - 1) else j
  }

  /** Where String.prototype.trim cuts: everything before `lo` and from
      `hi` on is whitespace, and a non-empty rest starts and ends with
      something else. */
  function TrimBounds(s: string): (b: (nat, nat))
    ensures b.0 <= b.1 <= |s|
    ensures WhitespaceBetween(s, 0, b.0) && WhitespaceBetween(s, b.1, |s|)
    ensures b.0 < b.1 ==> !IsWhitespace(s[b.0]) && !IsWhitespace(s[b.1 - 1])
  {
    var lo := SkipWhitespace(s, 0);
    (lo, BackOverWhitespace(s, lo, |s|))
  }

  /** String.prototype.trim: the result neither starts nor ends with
      whitespace (what it drops is stated by TrimOffset). */
  function Trim(s: string): (r: string)
    ensures |r| <= |s|
    ensures r == [] || (!IsWhitespace(r[0]) && !IsWhitespace(r[|r| - 1]))
  {
    var b := TrimBounds(s);
    s[b.0..b.1]
  }

  /** Trim keeps one slice of the input and drops only whitespace around
      it: the result is the input's characters from position `i` on. */
  lemma TrimOffset(s: string) returns (i: nat)
    ensures i + |Trim(s)| <= |s|
    ensures forall j :: 0 <= j < |Trim(s)| ==> Trim(s)[j] == s[i + j]
    ensures WhitespaceBetween(s, 0, i) && WhitespaceBetween(s, i + |Trim(s)|, |s|)
  {
    i := TrimBounds(s).0;
  }

  /** Trimming a string that neither starts nor ends with whitespace
      leaves it unchanged. */
  lemma TrimUnchanged(s: string)
    requires s == [] || (!IsWhitespace(s[0]) && !IsWhitespace(s[|s| - 1]))
    ensures Trim(s) == s
  {
    if s != [] {
      assert SkipWhitespace(s, 0) == 0;
      assert BackOverWhitespace(s, 0, |s|) == |s|;
    }
  }

  // ---------------------------------------------------------------------
  // First match (Array.prototype.find / findIndex)
  // ---------------------------------------------------------------------

  /** The index of the first element satisfying p, if any. */
  function FindFirst<T>(s: seq<T>, p: T -> bool): (r: Option<nat>)
    ensures r.Some? ==> r.value < |s| && p(s[r.value])
    ensures r.Some? ==> forall j :: 0 <= j < r.value ==> !p(s[j])
    ensures r.None? <==> forall j :: 0 <= j < |s| ==> !p(s[j])
    decreases |s|
  {
    if s == [] then None
    else if p(s[0]) then Some(0)
    else match FindFirst(s[1..], p)
      case None => None
      case Some(k) => Some(k + 1)
  }
}
