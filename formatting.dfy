/**
 * How data_generator.py turns an integer row id into text: `'%s' % row_id` in the
 * raster paths and `'{:04d}'.format(row_id)` in the image paths. Each is paired
 * with a parser that reads the id back, which is what makes the file names of
 * distinct ids distinct.
 */
module Formatting {
  import opened Wrappers

  predicate IsDigit(c: char) { '0' <= c <= '9' }

  predicate AllDigits(s: string) { forall i :: 0 <= i < |s| ==> IsDigit(s[i]) }

  function DigitChar(d: nat): (c: char)
    requires d < 10
    ensures IsDigit(c) && DigitValue(c) == d
  {
    "0123456789"[d]
  }

  function DigitValue(c: char): nat
    requires IsDigit(c)
  {
    (c - '0') as nat
  }

  /** The decimal digits of n, most significant first, as Python's str() prints them. */
  function Decimal(n: nat): (s: string)
    ensures |s| >= 1 && AllDigits(s)
    decreases n
  {
    if n < 10 then [DigitChar(n)] else Decimal(n / 10) + [DigitChar(n % 10)]
  }

  /** The value of a string of decimal digits; leading zeros are allowed. */
  function ParseDigits(s: string): nat
    requires AllDigits(s)
  {
    if s == [] then 0 else ParseDigits(s[..|s| - 1]) * 10 + DigitValue(s[|s| - 1])
  }

  /** `'%s' % n` for an integer n. */
  function PercentS(n: int): string
  {
    if n < 0 then "-" + Decimal(-n) else Decimal(n)
  }

  /** k copies of '0'; none when k is not positive. */
  function Zeros(k: int): (s: string)
    ensures |s| == Max(k, 0)
    ensures forall i :: 0 <= i < |s| ==> s[i] == '0'
    decreases k
  {
    if k <= 0 then [] else "0" + Zeros(k - 1)
  }

  /**
   * `'{:04d}'.format(n)`: width 4, filled with '0' between the sign and the
   * digits, never truncated.
   */
  function Format04d(n: int): string
  {
    var sign := if n < 0 then "-" else "";
    var digits := Decimal(if n < 0 then -n else n);
    sign + Zeros(4 - |sign| - |digits|) + digits
  }

  /** Reads back a text that is an optional '-' followed by decimal digits. */
  function ParseInt(s: string): int
    requires s != [] && (if s[0] == '-' then AllDigits(s[1..]) else AllDigits(s))
  {
    if s[0] == '-' then -(ParseDigits(s[1..]) as int) else ParseDigits(s)
  }

  lemma {:induction false} DecimalRoundTrip(n: nat)
    ensures ParseDigits(Decimal(n)) == n
    decreases n
  {
    if n >= 10 {
      DecimalRoundTrip(n / 10);
      var s := Decimal(n);
      assert s[..|s| - 1] == Decimal(n / 10);
    }
  }

  /** Python's str() of a natural number never starts with a superfluous zero. */
  lemma {:induction false} DecimalCanonical(n: nat)
    ensures Decimal(n)[0] == '0' <==> n == 0
    decreases n
  {
    if n >= 10 {
      DecimalCanonical(n / 10);
      assert Decimal(n)[0] == Decimal(n / 10)[0];
    }
  }

  /** Decimal(n) has at most k digits exactly when n < 10^k. */
  lemma {:induction false} DecimalLength(n: nat, k: nat)
    requires k >= 1
    ensures |Decimal(n)| <= k <==> n < Pow10(k)
    decreases n
  {
    if n >= 10 {
      if k == 1 {
        assert Pow10(1) == 10;
        assert |Decimal(n)| >= 2;
      } else {
        DecimalLength(n / 10, k - 1);
        assert Pow10(k) == 10 * Pow10(k - 1);
      }
    } else {
      Pow10AtLeast10(k);
    }
  }

  function Pow10(k: nat): nat
  {
    if k == 0 then 1 else 10 * Pow10(k - 1)
  }

  lemma {:induction false} Pow10AtLeast10(k: nat)
    requires k >= 1
    ensures Pow10(k) >= 10
  {
    if k > 1 {
      Pow10AtLeast10(k - 1);
    }
  }

  lemma {:induction false} LeadingZeros(k: int, s: string)
    requires AllDigits(s)
    ensures AllDigits(Zeros(k) + s)
    ensures ParseDigits(Zeros(k) + s) == ParseDigits(s)
    decreases |s|
  {
    var z := Zeros(k);
    if s == [] {
      assert z + s == z;
      ZerosParse(k);
    } else {
      var t := z + s;
      assert t[..|t| - 1] == z + s[..|s| - 1];
      LeadingZeros(k, s[..|s| - 1]);
    }
  }

  lemma {:induction false} ZerosParse(k: int)
    ensures AllDigits(Zeros(k)) && ParseDigits(Zeros(k)) == 0
    decreases k
  {
    if k > 0 {
      var z := Zeros(k);
      ZerosParse(k - 1);
      assert z[..|z| - 1] == Zeros(k - 1) by {
        assert z == "0" + Zeros(k - 1);
        assert forall i :: 0 <= i < |z| - 1 ==> z[i] == '0';
      }
    }
  }

  /** `'%s' % n` reads back as n, so distinct ids print differently. */
  lemma PercentSRoundTrip(n: int)
    ensures PercentS(n) != [] && AllDigits(if PercentS(n)[0] == '-' then PercentS(n)[1..] else PercentS(n))
    ensures ParseInt(PercentS(n)) == n
  {
    var s := PercentS(n);
    if n < 0 {
      DecimalRoundTrip(-n);
      assert s[1..] == Decimal(-n);
    } else {
      DecimalRoundTrip(n);
      assert s[0] != '-';
    }
  }

  lemma PercentSInjective(a: int, b: int)
    requires PercentS(a) == PercentS(b)
    ensures a == b
  {
    PercentSRoundTrip(a);
    PercentSRoundTrip(b);
  }

  /** `'{:04d}'.format(n)` reads back as n, so distinct ids give distinct names. */
  lemma Format04dRoundTrip(n: int)
    ensures Format04d(n) != [] && AllDigits(if Format04d(n)[0] == '-' then Format04d(n)[1..] else Format04d(n))
    ensures ParseInt(Format04d(n)) == n
  {
    var s := Format04d(n);
    if n < 0 {
      var digits := Decimal(-n);
      var z := Zeros(3 - |digits|);
      assert s == "-" + (z + digits);
      assert s[1..] == z + digits;
      LeadingZeros(3 - |digits|, digits);
      DecimalRoundTrip(-n);
    } else {
      var digits := Decimal(n);
      var z := Zeros(4 - |digits|);
      assert s == z + digits;
      LeadingZeros(4 - |digits|, digits);
      DecimalRoundTrip(n);
      assert s[0] != '-';
    }
  }

  lemma Format04dInjective(a: int, b: int)
    requires Format04d(a) == Format04d(b)
    ensures a == b
  {
    Format04dRoundTrip(a);
    Format04dRoundTrip(b);
  }

  /**
   * For a non-negative id: the digits come last, preceded only by '0's; an id
   * of fewer than 4 digits (below 10000 at all) gives exactly 4 characters, and
   * an id of 4 or more digits (1000 and up) is printed unchanged.
   */
  lemma Format04dPadding(n: int)
    requires n >= 0
    ensures var s := Format04d(n);
      |s| == Max(4, |Decimal(n)|) &&
      s[|s| - |Decimal(n)|..] == Decimal(n) &&
      (forall i :: 0 <= i < |s| - |Decimal(n)| ==> s[i] == '0') &&
      (n < 10000 ==> |s| == 4) &&
      (n >= 1000 ==> s == PercentS(n))
  {
    var s, digits := Format04d(n), Decimal(n);
    assert s == Zeros(4 - |digits|) + digits;
    DecimalLength(n, 3);
    DecimalLength(n, 4);
    assert Pow10(3) == 1000 && Pow10(4) == 10000;
  }

  /** A negative id keeps its sign in front, and the whole text is padded to width 4. */
  lemma Format04dNegative(n: int)
    requires n < 0
    ensures var s := Format04d(n);
      s[0] == '-' && |s| == Max(4, 1 + |Decimal(-n)|) &&
      s[|s| - |Decimal(-n)|..] == Decimal(-n) &&
      (forall i :: 1 <= i < |s| - |Decimal(-n)| ==> s[i] == '0')
  {
    var s, digits := Format04d(n), Decimal(-n);
    assert s == "-" + Zeros(3 - |digits|) + digits;
  }

  /** `'{:04d}'.format(7)` is '0007'. */
  lemma Format04dPadsSeven()
    ensures Format04d(7) == "0007"
  {
    assert Zeros(3) == "000" by {
      assert Zeros(1) == "0";
      assert Zeros(2) == "00";
    }
    assert Decimal(7) == "7";
  }

  /** `'{:04d}'.format(-5)` is '-005': the sign counts towards the width. */
  lemma Format04dPadsMinusFive()
    ensures Format04d(-5) == "-005"
  {
    assert Zeros(2) == "00" by {
      assert Zeros(1) == "0";
    }
    assert Decimal(5) == "5";
  }
}
