/** The string operations the preludes rely on: number-to-string conversion
    (String(n), template literals), Number() of a digit string, zero padding
    (padStart and d3's pad), JS string comparison and String.prototype.trim. */
module Text {

  predicate IsDigit(c: char) {
    '0' <= c <= '9'
  }

  function DigitChar(d: int): (c: char)
    requires 0 <= d <= 9
    ensures IsDigit(c)
  {
    (48 + d) as char
  }

  function DigitValue(c: char): (d: int)
    requires IsDigit(c)
    ensures 0 <= d <= 9 && DigitChar(d) == c
  {
    c as int - 48
  }

  predicate AllDigits(s: string) {
    forall i | 0 <= i < |s| :: IsDigit(s[i])
  }

  /** String(n) for a natural number: its decimal digits without leading zeros. */
  function DecimalString(n: nat): (s: string)
    ensures |s| >= 1 && AllDigits(s)
    ensures n < 10 <==> |s| == 1
    decreases n
  {
    if n < 10 then [DigitChar(n)] else DecimalString(n / 10) + [DigitChar(n % 10)]
  }

  /** Number(s) for a string of decimal digits. */
  function DecimalValue(s: string): nat
    requires AllDigits(s)
    decreases |s|
  {
    if s == [] then 0 else DecimalValue(s[..|s| - 1]) * 10 + DigitValue(s[|s| - 1])
  }

  /** +s for the digit strings the charts turn back into numbers. Every such
      string is a printed number; the zero for other strings (NaN in JS) only
      makes the function total. */
  function ParseDigits(s: string): nat {
    if AllDigits(s) then DecimalValue(s) else 0
  }

  /** Number(String(n)) == n. */
  lemma {:induction false} DecimalRoundTrip(n: nat)
    ensures DecimalValue(DecimalString(n)) == n
    decreases n
  {
    if n >= 10 {
      DecimalRoundTrip(n / 10);
      var s := DecimalString(n);
      assert s[..|s| - 1] == DecimalString(n / 10);
    }
  }

  /** String(n) is injective: two numbers print alike only if they are equal. */
  lemma DecimalStringInjective(m: nat, n: nat)
    requires DecimalString(m) == DecimalString(n)
    ensures m == n
  {
    DecimalRoundTrip(m);
    DecimalRoundTrip(n);
  }

  /** `${i}` for any integer. */
  function IntString(i: int): (s: string)
    ensures i < 0 ==> |s| >= 2 && s[0] == '-' && s[1..] == DecimalString(-i)
    ensures 0 <= i ==> s == DecimalString(i)
  {
    if i < 0 then "-" + DecimalString(-i) else DecimalString(i)
  }

  function Zeros(k: nat): (s: string)
    ensures |s| == k && forall i | 0 <= i < k :: s[i] == '0'
  {
    seq(k, _ => '0')
  }

  /** String(n).padStart(width, '0'), which is also what d3's formats do with %m, %d, %H, %V and %Y. */
  function PadZero(n: nat, width: nat): (s: string)
    ensures AllDigits(s) && |s| >= width
  {
    var d := DecimalString(n);
    if |d| >= width then d else Zeros(width - |d|) + d
  }

  function Pow10(k: nat): (p: nat)
    ensures p >= 1
  {
    if k == 0 then 1 else 10 * Pow10(k - 1)
  }

  /** A number below 10^w has at most w digits. */
  lemma {:induction false} DecimalStringShort(n: nat, w: nat)
    requires 1 <= w && n < Pow10(w)
    ensures |DecimalString(n)| <= w
    decreases w
  {
    if n >= 10 {
      assert w > 1;
      DecimalStringShort(n / 10, w - 1);
    }
  }

  /** Below 10^w, padding to width w gives exactly w characters. */
  lemma PadZeroLength(n: nat, w: nat)
    requires 1 <= w && n < Pow10(w)
    ensures |PadZero(n, w)| == w
  {
    DecimalStringShort(n, w);
  }

  /** Leading zeros do not change the number a digit string denotes. */
  lemma {:induction false} LeadingZero(d: string)
    requires AllDigits(d)
    ensures AllDigits(['0'] + d) && DecimalValue(['0'] + d) == DecimalValue(d)
    decreases |d|
  {
    var z := ['0'] + d;
    if d == [] {
      assert z[..0] == [];
    } else {
      assert z[..|z| - 1] == ['0'] + d[..|d| - 1];
      LeadingZero(d[..|d| - 1]);
    }
  }

  lemma {:induction false} LeadingZeros(k: nat, d: string)
    requires AllDigits(d)
    ensures AllDigits(Zeros(k) + d) && DecimalValue(Zeros(k) + d) == DecimalValue(d)
    decreases k
  {
    if k > 0 {
      LeadingZeros(k - 1, d);
      assert Zeros(k) == ['0'] + Zeros(k - 1);
      assert Zeros(k) + d == ['0'] + (Zeros(k - 1) + d);
      LeadingZero(Zeros(k - 1) + d);
    } else {
      assert Zeros(k) + d == d;
    }
  }

  /** Number(String(n).padStart(w, '0')) == n. */
  lemma PadZeroRoundTrip(n: nat, w: nat)
    ensures DecimalValue(PadZero(n, w)) == n
  {
    var d := DecimalString(n);
    DecimalRoundTrip(n);
    if |d| < w {
      var z := Zeros(w - |d|) + d;
      assert PadZero(n, w) == z;
      LeadingZeros(w - |d|, d);
      assert DecimalValue(z) == DecimalValue(d);
    } else {
      assert PadZero(n, w) == d;
    }
  }

  /** Padding is injective: different numbers print differently at any width. */
  lemma PadZeroInjective(m: nat, n: nat, w: nat)
    requires PadZero(m, w) == PadZero(n, w)
    ensures m == n
  {
    PadZeroRoundTrip(m, w);
    PadZeroRoundTrip(n, w);
  }

  /** Below 100, two-wide padding gives exactly the tens digit and the units digit. */
  lemma TwoDigits(n: nat)
    requires n < 100
    ensures PadZero(n, 2) == [DigitChar(n / 10), DigitChar(n % 10)]
  {
    if n >= 10 {
      assert DecimalString(n / 10) == [DigitChar(n / 10)];
    }
  }

  /** Number(PadZero(n, 2)) == n below 100: the two-digit text keeps its number. */
  lemma TwoDigitsRoundTrip(n: nat)
    requires n < 100
    ensures DecimalValue(PadZero(n, 2)) == n
  {
    TwoDigits(n);
    var s := PadZero(n, 2);
    assert s[..1] == [DigitChar(n / 10)];
    assert s[..1][..0] == [];
    assert DigitValue(s[0]) == n / 10 && DigitValue(s[1]) == n % 10;
    assert DecimalValue(s[..1]) == n / 10;
  }

  /** Two-wide padding is injective below 100. */
  lemma TwoDigitsInjective(m: nat, n: nat)
    requires m < 100 && n < 100 && PadZero(m, 2) == PadZero(n, 2)
    ensures m == n
  {
    TwoDigitsRoundTrip(m);
    TwoDigitsRoundTrip(n);
  }

  /** A common prefix cancels. */
  lemma PrefixCancel(p: string, a: string, b: string)
    requires p + a == p + b
    ensures a == b
  {
    assert a == (p + a)[|p|..];
    assert b == (p + b)[|p|..];
  }

  /** Joining two strings with a separator character that the first never holds loses nothing:
      the first occurrence of the separator marks the cut. */
  lemma SeparatorSplit(a: string, b: string, a': string, b': string, c: char)
    requires c !in a && c !in a'
    ensures a + [c] + b == a' + [c] + b' <==> a == a' && b == b'
  {
    var s, s' := a + [c] + b, a' + [c] + b';
    if |a| < |a'| {
      assert s[|a|] != s'[|a|];
    } else if |a'| < |a| {
      assert s[|a'|] != s'[|a'|];
    } else if s == s' {
      assert a == s[..|a|] == s'[..|a|] == a';
      assert b == s[|a| + 1..] == s'[|a| + 1..] == b';
    }
  }

  /** JS `a < b` on strings: lexicographic by character, a proper prefix first. */
  predicate StringLess(a: string, b: string): (less: bool)
    ensures less ==> a != b
    ensures |a| < |b| && a == b[..|a|] ==> less
    decreases |a|
  {
    if a == [] then b != []
    else if b == [] then false
    else if a[0] != b[0] then a[0] < b[0]
    else StringLess(a[1..], b[1..])
  }

  lemma {:induction false} StringLessAsymmetric(a: string, b: string)
    ensures StringLess(a, b) ==> !StringLess(b, a)
    decreases |a|
  {
    if a != [] && b != [] && a[0] == b[0] {
      StringLessAsymmetric(a[1..], b[1..]);
    }
  }

  lemma {:induction false} StringLessTransitive(a: string, b: string, c: string)
    ensures StringLess(a, b) && StringLess(b, c) ==> StringLess(a, c)
    decreases |a|
  {
    if a != [] && b != [] && c != [] && a[0] == b[0] && b[0] == c[0] {
      StringLessTransitive(a[1..], b[1..], c[1..]);
    }
  }

  lemma {:induction false} StringLessTotal(a: string, b: string)
    ensures !StringLess(a, b) && !StringLess(b, a) ==> a == b
    decreases |a|
  {
    if a != [] && b != [] && a[0] == b[0] {
      StringLessTotal(a[1..], b[1..]);
      assert a == [a[0]] + a[1..] && b == [b[0]] + b[1..];
    }
  }

  /** String comparison is a strict total order, so a consistent sort comparator. */
  lemma StringLessOrder(a: string, b: string, c: string)
    ensures StringLess(a, b) ==> !StringLess(b, a)
    ensures !StringLess(a, b) && !StringLess(b, c) ==> !StringLess(a, c)
  {
    StringLessAsymmetric(a, b);
    StringLessTotal(a, b);
    StringLessTotal(b, c);
    StringLessAsymmetric(c, a);
    StringLessTransitive(c, b, a);
  }

  /** Strings with a common prefix compare as their rests do. */
  lemma {:induction false} StringLessCommonPrefix(p: string, a: string, b: string)
    ensures StringLess(p + a, p + b) <==> StringLess(a, b)
    decreases |p|
  {
    if p == [] {
      assert p + a == a && p + b == b;
    } else {
      assert (p + a)[0] == (p + b)[0];
      assert (p + a)[1..] == p[1..] + a;
      assert (p + b)[1..] == p[1..] + b;
      StringLessCommonPrefix(p[1..], a, b);
    }
  }

  /** WhiteSpace and LineTerminator code points of ECMAScript, which trim removes. */
  predicate IsJsWhitespace(c: char) {
    || c == '\t' || c == '\n' || c == '\U{B}' || c == '\U{C}' || c == '\r' || c == ' '
    || c == '\U{A0}' || c == '\U{1680}' || ('\U{2000}' <= c <= '\U{200A}')
    || c == '\U{2028}' || c == '\U{2029}' || c == '\U{202F}' || c == '\U{205F}'
    || c == '\U{3000}' || c == '\U{FEFF}'
  }

  function TrimStart(s: string): (r: string)
    ensures r == [] || !IsJsWhitespace(r[0])
    decreases |s|
  {
    if s != [] && IsJsWhitespace(s[0]) then TrimStart(s[1..]) else s
  }

  function TrimEnd(s: string): (r: string)
    ensures r == [] || !IsJsWhitespace(r[|r| - 1])
    decreases |s|
  {
    if s != [] && IsJsWhitespace(s[|s| - 1]) then TrimEnd(s[..|s| - 1]) else s
  }

  /** String.prototype.trim: the result neither starts nor ends with JS
      whitespace, and text with no whitespace at either end is left as it is. */
  function Trim(s: string): (r: string)
    ensures r == [] || (!IsJsWhitespace(r[0]) && !IsJsWhitespace(r[|r| - 1]))
    ensures s == [] || (!IsJsWhitespace(s[0]) && !IsJsWhitespace(s[|s| - 1])) ==> r == s
  {
    TrimEndKeepsStart(TrimStart(s));
    TrimEnd(TrimStart(s))
  }

  lemma {:induction false} TrimStartCut(s: string) returns (i: nat)
    ensures i <= |s| && TrimStart(s) == s[i..]
    ensures forall k | 0 <= k < i :: IsJsWhitespace(s[k])
    decreases |s|
  {
    if s != [] && IsJsWhitespace(s[0]) {
      var i' := TrimStartCut(s[1..]);
      i := i' + 1;
      assert s[1..][i'..] == s[i..];
    } else {
      i := 0;
    }
  }

  lemma {:induction false} TrimEndCut(s: string) returns (j: nat)
    ensures j <= |s| && TrimEnd(s) == s[..j]
    ensures forall k | j <= k < |s| :: IsJsWhitespace(s[k])
    decreases |s|
  {
    if s != [] && IsJsWhitespace(s[|s| - 1]) {
      j := TrimEndCut(s[..|s| - 1]);
      assert s[..|s| - 1][..j] == s[..j];
    } else {
      j := |s|;
    }
  }

  /** trim keeps a contiguous piece of the string, cutting only whitespace on
      each side, and the piece neither starts nor ends with whitespace. */
  lemma TrimCuts(s: string) returns (i: nat, j: nat)
    ensures i <= j <= |s| && Trim(s) == s[i..j]
    ensures forall k | 0 <= k < i :: IsJsWhitespace(s[k])
    ensures forall k | j <= k < |s| :: IsJsWhitespace(s[k])
    ensures Trim(s) == [] || (!IsJsWhitespace(Trim(s)[0]) && !IsJsWhitespace(Trim(s)[|Trim(s)| - 1]))
  {
    i := TrimStartCut(s);
    var j' := TrimEndCut(s[i..]);
    j := i + j';
    assert s[i..][..j'] == s[i..j];
    forall k | j <= k < |s|
      ensures IsJsWhitespace(s[k])
    {
      assert s[k] == s[i..][k - i];
    }
    if Trim(s) != [] {
      assert Trim(s)[0] == TrimStart(s)[0];
    }
  }

  lemma {:induction false} TrimStartOfTrimmed(s: string)
    requires s == [] || !IsJsWhitespace(s[0])
    ensures TrimStart(s) == s
  {
  }

  lemma {:induction false} TrimEndKeepsStart(s: string)
    requires s == [] || !IsJsWhitespace(s[0])
    ensures TrimEnd(s) == [] || !IsJsWhitespace(TrimEnd(s)[0])
    decreases |s|
  {
    if s != [] && IsJsWhitespace(s[|s| - 1]) {
      assert s[..|s| - 1] == [] || s[..|s| - 1][0] == s[0];
      TrimEndKeepsStart(s[..|s| - 1]);
    }
  }

  /** trim is idempotent: an order id trimmed once is already trimmed. */
  lemma TrimIdempotent(s: string)
    ensures Trim(Trim(s)) == Trim(s)
  {
    var t := TrimStart(s);
    TrimEndKeepsStart(t);
    TrimStartOfTrimmed(TrimEnd(t));
  }
}
