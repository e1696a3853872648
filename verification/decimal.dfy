/**
 * Decimal rendering and parsing of integers, as Python's str(n), int(s) and
 * the zero-padded format spec '{n:0w}' do them for non-negative values.
 */
module Decimal {
  import opened Wrappers

  function Pow10(k: nat): (r: nat)
    ensures r >= 1
  {
    if k == 0 then 1 else 10 * Pow10(k - 1)
  }

  function Max(a: nat, b: nat): nat
  {
    if a < b then b else a
  }

  predicate IsDigit(c: char)
  {
    '0' <= c <= '9'
  }

  predicate AllDigits(s: string)
  {
    forall i | 0 <= i < |s| :: IsDigit(s[i])
  }

  lemma AllDigitsConcat(a: string, b: string)
    requires AllDigits(a) && AllDigits(b)
    ensures AllDigits(a + b)
  {
    forall i | 0 <= i < |a + b|
      ensures IsDigit((a + b)[i])
    {
      if i >= |a| {
        assert (a + b)[i] == b[i - |a|];
      }
    }
  }

  function DigitChar(d: nat): (c: char)
    requires d < 10
    ensures IsDigit(c)
  {
    (('0' as int) + d) as char
  }

  function DigitValue(c: char): (d: nat)
    requires IsDigit(c)
    ensures d < 10 && DigitChar(d) == c
  {
    c as int - '0' as int
  }

  /** The w least significant decimal digits of n, most significant first. */
  function Digits(n: nat, w: nat): (s: string)
    ensures |s| == w && AllDigits(s)
  {
    if w == 0 then "" else Digits(n / 10, w - 1) + [DigitChar(n % 10)]
  }

  /** The number of decimal digits of n: the least k with n < 10^k, and at least 1. */
  function NumDigits(n: nat): (k: nat)
    ensures k >= 1 && n < Pow10(k)
    ensures k == 1 || Pow10(k - 1) <= n
  {
    if n < 10 then 1 else 1 + NumDigits(n / 10)
  }

  /** The value of a string of decimal digits. */
  function ParseDigits(s: string): (n: nat)
    requires AllDigits(s)
    ensures n < Pow10(|s|)
  {
    if s == [] then 0 else ParseDigits(s[..|s| - 1]) * 10 + DigitValue(s[|s| - 1])
  }

  /** Python's str(n) for n >= 0. */
  function ToDecimal(n: nat): (s: string)
    ensures |s| == NumDigits(n) && AllDigits(s)
    ensures ParseDigits(s) == n
  {
    DigitsRoundTrip(n, NumDigits(n));
    Digits(n, NumDigits(n))
  }

  /** Python's format(n, '0wd') for n >= 0: n in decimal, zero padded to at least w digits. */
  function Pad(n: nat, w: nat): (s: string)
    ensures |s| == Max(w, NumDigits(n)) && AllDigits(s)
    ensures ParseDigits(s) == n
  {
    PowMonotone(NumDigits(n), Max(w, NumDigits(n)));
    DigitsRoundTrip(n, Max(w, NumDigits(n)));
    Digits(n, Max(w, NumDigits(n)))
  }

  lemma {:induction false} PowMonotone(a: nat, b: nat)
    requires a <= b
    ensures Pow10(a) <= Pow10(b)
  {
    if a < b {
      PowMonotone(a, b - 1);
    }
  }

  /** A number below 10^w renders in exactly w digits when padded to w. */
  lemma PadExactWidth(n: nat, w: nat)
    requires w >= 1 && n < Pow10(w)
    ensures NumDigits(n) <= w && |Pad(n, w)| == w
  {
    if NumDigits(n) > w {
      PowMonotone(w, NumDigits(n) - 1);
    }
  }

  lemma {:induction false} MulAtLeast(a: int, d: int)
    requires a >= 1 && d > 0
    ensures a * d >= d
  {
    if a > 1 {
      MulAtLeast(a - 1, d);
      assert a * d == (a - 1) * d + d;
    }
  }

  /** Uniqueness of the quotient and remainder of a division. */
  lemma DivModUnique(n: int, d: int, q: int, r: int)
    requires d > 0 && 0 <= r < d && n == q * d + r
    ensures n / d == q && n % d == r
  {
    var q', r' := n / d, n % d;
    assert n == q' * d + r';
    if q' > q {
      assert (q' - q) * d == q' * d - q * d;
      MulAtLeast(q' - q, d);
    } else if q' < q {
      assert (q - q') * d == q * d - q' * d;
      MulAtLeast(q - q', d);
    }
  }

  /** Digits(n, w) holds exactly n when n has at most w digits. */
  lemma DigitsRoundTrip(n: nat, w: nat)
    requires n < Pow10(w)
    ensures ParseDigits(Digits(n, w)) == n
  {
    ParseDigitsOfDigits(n, w);
    DivModUnique(n, Pow10(w), 0, n);
  }

  /** Taking a number modulo 10p peels off its last digit and reduces the rest modulo p. */
  lemma ModPeelDigit(n: nat, p: nat)
    requires p >= 1
    ensures n % (10 * p) == (n / 10 % p) * 10 + n % 10
  {
    var q, b, r := n / 10 / p, n / 10 % p, n % 10;
    assert n / 10 == q * p + b;
    assert n == (n / 10) * 10 + r;
    assert n == q * (10 * p) + (b * 10 + r) by {
      assert (q * p + b) * 10 == q * (10 * p) + b * 10;
    }
    DivModUnique(n, 10 * p, q, b * 10 + r);
  }

  lemma {:induction false} ParseDigitsOfDigits(n: nat, w: nat)
    ensures ParseDigits(Digits(n, w)) == n % Pow10(w)
  {
    if w > 0 {
      var s := Digits(n, w);
      assert s[..|s| - 1] == Digits(n / 10, w - 1);
      assert s[|s| - 1] == DigitChar(n % 10);
      ParseDigitsOfDigits(n / 10, w - 1);
      assert ParseDigits(s) == (n / 10 % Pow10(w - 1)) * 10 + n % 10;
      ModPeelDigit(n, Pow10(w - 1));
    }
  }

  lemma {:induction false} DigitsOfParseDigits(s: string)
    requires AllDigits(s)
    ensures Digits(ParseDigits(s), |s|) == s
  {
    if s != [] {
      var init := s[..|s| - 1];
      var n := ParseDigits(s);
      assert n == ParseDigits(init) * 10 + DigitValue(s[|s| - 1]);
      assert n / 10 == ParseDigits(init) && n % 10 == DigitValue(s[|s| - 1]);
      DigitsOfParseDigits(init);
      assert s == init + [s[|s| - 1]];
    }
  }

  /** A digit string is the zero-padded rendering of its own value at its own width. */
  lemma PadOfParseDigits(s: string)
    requires AllDigits(s) && |s| > 0
    ensures Pad(ParseDigits(s), |s|) == s
  {
    var n := ParseDigits(s);
    PadExactWidth(n, |s|);
    assert Max(|s|, NumDigits(n)) == |s|;
    DigitsOfParseDigits(s);
    assert Pad(n, |s|) == Digits(n, |s|);
  }

  /** Python's int(s), restricted to an optional sign followed by ASCII digits. */
  function ParseInt(s: string): (r: Option<int>)
    ensures r.Some? ==> s != []
  {
    if s != [] && AllDigits(s) then Some(ParseDigits(s))
    else if |s| > 1 && (s[0] == '+' || s[0] == '-') && AllDigits(s[1..]) then
      var magnitude: int := ParseDigits(s[1..]);
      Some(if s[0] == '-' then -magnitude else magnitude)
    else None
  }

  /** int(str(n)) == n. */
  lemma ParseIntOfDecimal(n: nat)
    ensures ParseInt(ToDecimal(n)) == Some(n)
  {
  }

  /** int(str(-n)) == -n. */
  lemma ParseIntOfNegative(n: nat)
    requires n > 0
    ensures ParseInt("-" + ToDecimal(n)) == Some(-(n as int))
  {
    var digits := ToDecimal(n);
    var s := "-" + digits;
    assert s[0] == '-' && !IsDigit(s[0]);
    assert s[1..] == digits;
    assert |s| > 1;
    assert ParseDigits(s[1..]) == n;
  }
}
