/**
 * The pieces of java.lang.String and java.lang.Integer that the form
 * validator relies on: trim(), equalsIgnoreCase() and parseInt().
 */
module Text {
  import opened Wrappers

  /** String.trim() strips every leading and trailing char whose code is at most U+0020. */
  predicate IsBlankChar(c: char) {
    c <= ' '
  }

  /** A string that trim() turns into the empty string. */
  predicate IsBlank(s: string) {
    forall i :: 0 <= i < |s| ==> IsBlankChar(s[i])
  }

  function TrimStart(s: string): (t: string)
    ensures |t| <= |s| && t == s[|s| - |t|..]
    ensures t == [] || !IsBlankChar(t[0])
    ensures forall i :: 0 <= i < |s| - |t| ==> IsBlankChar(s[i])
  {
    if s != [] && IsBlankChar(s[0]) then TrimStart(s[1..]) else s
  }

  function TrimEnd(s: string): (t: string)
    ensures |t| <= |s| && t == s[..|t|]
    ensures t == [] || !IsBlankChar(t[|t| - 1])
    ensures forall i :: |t| <= i < |s| ==> IsBlankChar(s[i])
  {
    if s != [] && IsBlankChar(s[|s| - 1]) then TrimEnd(s[..|s| - 1]) else s
  }

  /**
   * String.trim(): the longest infix of s that neither starts nor ends with
   * a char at most U+0020. It is empty exactly when s is blank.
   */
  function Trim(s: string): (t: string)
    ensures |t| <= |s|
    ensures t == [] <==> IsBlank(s)
    ensures t != [] ==> !IsBlankChar(t[0]) && !IsBlankChar(t[|t| - 1])
    ensures exists a, b :: 0 <= a <= b <= |s| && t == s[a..b] && IsBlank(s[..a]) && IsBlank(s[b..])
  {
    var u := TrimStart(s);
    var t := TrimEnd(u);
    assert t != [] ==> t[0] == u[0];
    assert t == [] ==> u == [];
    CutBlankEnds(s, u, t);
    t
  }

  /** A blank prefix cut off s, then a blank suffix cut off the rest, leave an infix of s. */
  lemma CutBlankEnds(s: string, u: string, t: string)
    requires |u| <= |s| && u == s[|s| - |u|..] && forall i :: 0 <= i < |s| - |u| ==> IsBlankChar(s[i])
    requires |t| <= |u| && t == u[..|t|] && forall i :: |t| <= i < |u| ==> IsBlankChar(u[i])
    ensures exists a, b :: 0 <= a <= b <= |s| && t == s[a..b] && IsBlank(s[..a]) && IsBlank(s[b..])
  {
    var a := |s| - |u|;
    var b := a + |t|;
    assert s[a..][..b - a] == s[a..b];
    BlankPrefix(s, a);
    BlankSuffix(u, |t|);
    assert u[|t|..] == s[b..];
  }

  lemma BlankPrefix(s: string, n: nat)
    requires n <= |s| && forall i :: 0 <= i < n ==> IsBlankChar(s[i])
    ensures IsBlank(s[..n])
  {
    forall i | 0 <= i < n ensures IsBlankChar(s[..n][i]) {
      assert s[..n][i] == s[i];
    }
  }

  lemma BlankSuffix(s: string, n: nat)
    requires n <= |s| && forall i :: n <= i < |s| ==> IsBlankChar(s[i])
    ensures IsBlank(s[n..])
  {
    forall i | 0 <= i < |s| - n ensures IsBlankChar(s[n..][i]) {
      assert s[n..][i] == s[n + i];
    }
  }

  /** The result of trim() is a fixed point of trim(). */
  lemma TrimIdempotent(s: string)
    ensures Trim(Trim(s)) == Trim(s)
  {
    var t := Trim(s);
    if t != [] {
      assert TrimStart(t) == t;
      assert TrimEnd(t) == t;
    }
  }

  /** ASCII case folding: 'A'..'Z' become 'a'..'z', every other char is kept. */
  function LowerChar(c: char): (d: char)
    ensures 'A' <= c <= 'Z' ==> 'a' <= d <= 'z' && d as int - c as int == 32
    ensures !('A' <= c <= 'Z') ==> d == c
  {
    if 'A' <= c <= 'Z' then (c as int + 32) as char else c
  }

  /** String.equalsIgnoreCase(), restricted to ASCII case folding. */
  predicate EqualsIgnoreCase(a: string, b: string) {
    |a| == |b| && forall i :: 0 <= i < |a| ==> LowerChar(a[i]) == LowerChar(b[i])
  }

  /** Case-insensitive equality is an equivalence relation. */
  lemma EqualsIgnoreCaseEquivalence(a: string, b: string, c: string)
    ensures EqualsIgnoreCase(a, a)
    ensures EqualsIgnoreCase(a, b) ==> EqualsIgnoreCase(b, a)
    ensures EqualsIgnoreCase(a, b) && EqualsIgnoreCase(b, c) ==> EqualsIgnoreCase(a, c)
  {
  }

  /** Two strings that differ in length, or in one folded char, are not equal ignoring case. */
  lemma NotEqualsIgnoreCase(a: string, b: string, k: nat)
    requires |a| != |b| || (k < |a| && k < |b| && LowerChar(a[k]) != LowerChar(b[k]))
    ensures !EqualsIgnoreCase(a, b)
  {
  }

  // ---- Integer.parseInt(String), radix 10 ----

  const IntMin: int := -0x8000_0000
  const IntMax: int := 0x7fff_ffff

  predicate IsDigit(c: char) {
    '0' <= c <= '9'
  }

  predicate AllDigits(s: string) {
    forall i :: 0 <= i < |s| ==> IsDigit(s[i])
  }

  function DigitValue(c: char): (d: nat)
    requires IsDigit(c)
    ensures d < 10
  {
    c as int - '0' as int
  }

  /** The value of a run of decimal digits, most significant first. */
  function DigitsValue(ds: string): nat
    requires AllDigits(ds)
  {
    if ds == [] then 0 else DigitsValue(ds[..|ds| - 1]) * 10 + DigitValue(ds[|ds| - 1])
  }

  /**
   * Integer.parseInt: an optional '+' or '-' followed by at least one digit,
   * whose value fits in a 32-bit int; anything else is a NumberFormatException,
   * modelled as None.
   */
  function ParseInt(s: string): (r: Option<int>)
    ensures r.Some? ==> IntMin <= r.value <= IntMax
    ensures r.Some? ==> s != [] && forall i :: 1 <= i < |s| ==> IsDigit(s[i])
    ensures r.Some? ==> IsDigit(s[0]) || (|s| >= 2 && (s[0] == '+' || s[0] == '-'))
    ensures r.Some? && r.value < 0 ==> s[0] == '-'
  {
    if s == [] then None
    else
      var negative := s[0] == '-';
      var digits := if s[0] == '-' || s[0] == '+' then s[1..] else s;
      if digits == [] || !AllDigits(digits) then None
      else
        var magnitude: int := DigitsValue(digits);
        var v := if negative then -magnitude else magnitude;
        if IntMin <= v <= IntMax then Some(v) else None
  }

  // ---- Integer.toString(int), the inverse of ParseInt ----

  function DigitChar(d: nat): (c: char)
    requires d < 10
    ensures IsDigit(c) && DigitValue(c) == d
  {
    ('0' as int + d) as char
  }

  /** The decimal numeral of n, without sign or leading zeros. */
  function FormatNat(n: nat): (s: string)
    ensures s != [] && AllDigits(s)
    ensures s[0] != '0' || n == 0
  {
    if n < 10 then [DigitChar(n)] else FormatNat(n / 10) + [DigitChar(n % 10)]
  }

  function FormatInt(n: int): string {
    if n < 0 then "-" + FormatNat(-n) else FormatNat(n)
  }

  lemma {:induction false} DigitsValueFormatNat(n: nat)
    ensures DigitsValue(FormatNat(n)) == n
  {
    if n >= 10 {
      DigitsValueFormatNat(n / 10);
      var s := FormatNat(n / 10) + [DigitChar(n % 10)];
      assert s[..|s| - 1] == FormatNat(n / 10);
    }
  }

  /** parseInt(toString(n)) == n for every 32-bit int. */
  lemma ParseFormatRoundTrip(n: int)
    requires IntMin <= n <= IntMax
    ensures ParseInt(FormatInt(n)) == Some(n)
  {
    var s := FormatInt(n);
    if n < 0 {
      DigitsValueFormatNat(-n);
      assert s[0] == '-' && s[1..] == FormatNat(-n);
    } else {
      DigitsValueFormatNat(n);
      assert s == FormatNat(n) && IsDigit(s[0]);
    }
  }

  /** A leading '+' does not change what parseInt reads. */
  lemma ParsePlusSign(n: nat)
    requires n <= IntMax
    ensures ParseInt("+" + FormatNat(n)) == Some(n)
  {
    DigitsValueFormatNat(n);
    assert ("+" + FormatNat(n))[1..] == FormatNat(n);
  }

  /** A numeral beyond the int range, with or without a '-', is not a number for parseInt. */
  lemma ParseOverflow(n: nat)
    ensures n > IntMax ==> ParseInt(FormatNat(n)) == None
    ensures n > -IntMin ==> ParseInt("-" + FormatNat(n)) == None
  {
    DigitsValueFormatNat(n);
    var s := FormatNat(n);
    assert IsDigit(s[0]);
    assert ("-" + s)[0] == '-' && ("-" + s)[1..] == s;
  }
}
