/** Decimal numerals: `std::to_string` on one side and the parser's digit-by-digit
    accumulation on the other. */
module Decimal {
  import opened CharClass

  const INT_MAX := 0x7FFF_FFFF

  function DigitValue(c: char): int {
    c as int - '0' as int
  }

  function DigitChar(d: nat): (c: char)
    requires d < 10
    ensures IsDigit(c) && DigitValue(c) == d
  {
    ('0' as int + d) as char
  }

  /** The numeral `std::to_string` prints for a non-negative number. */
  function Numeral(n: nat): (s: string)
    ensures s != "" && DigitText(s)
  {
    if n < 10 then [DigitChar(n)] else Numeral(n / 10) + [DigitChar(n % 10)]
  }

  /** The number reached from `x` by taking in the digits of `s` from left to right. */
  function Accumulate(x: int, s: string): int {
    if s == "" then x else Accumulate(x, s[..|s| - 1]) * 10 + DigitValue(s[|s| - 1])
  }

  function NumeralValue(s: string): int {
    Accumulate(0, s)
  }

  /** A numeral as `Numeral` writes it: some digits, and no zero in front of others. */
  predicate Canonical(s: string) {
    s != "" && DigitText(s) && (|s| > 1 ==> s[0] != '0')
  }

  lemma {:induction false} AccumulateFirst(x: int, s: string)
    requires s != ""
    ensures Accumulate(x, s) == Accumulate(x * 10 + DigitValue(s[0]), s[1..])
  {
    var front := s[..|s| - 1];
    if |s| == 1 {
      assert front == "" && s[1..] == "";
    } else {
      AccumulateFirst(x, front);
      assert s[1..][..|s[1..]| - 1] == front[1..];
    }
  }

  lemma {:induction false} ValueBounds(s: string)
    requires DigitText(s)
    ensures NumeralValue(s) >= 0
    ensures s != "" && s[0] != '0' ==> NumeralValue(s) > 0
  {
    if s != "" {
      var front := s[..|s| - 1];
      ValueBounds(front);
    }
  }

  /** Reading back a printed number gives the number. */
  lemma {:induction false} NumeralRoundTrip(n: nat)
    ensures NumeralValue(Numeral(n)) == n
    ensures Canonical(Numeral(n))
  {
    var s := Numeral(n);
    if n < 10 {
      assert s == [DigitChar(n)] && s[..|s| - 1] == "";
      assert Accumulate(0, s) == Accumulate(0, s[..|s| - 1]) * 10 + DigitValue(s[|s| - 1]);
    } else {
      NumeralRoundTrip(n / 10);
      assert s[..|s| - 1] == Numeral(n / 10);
    }
  }

  /** Printing a read numeral gives the numeral back exactly when it has no leading zero; the
      printed form is never longer. */
  lemma {:induction false} PrintReadNumeral(s: string)
    requires s != "" && DigitText(s)
    ensures NumeralValue(s) >= 0
    ensures Canonical(s) ==> Numeral(NumeralValue(s)) == s
    ensures !Canonical(s) ==> |Numeral(NumeralValue(s))| < |s|
  {
    var front, last := s[..|s| - 1], s[|s| - 1];
    ValueBounds(s);
    if |s| == 1 {
      assert front == "" && s == [last];
      assert NumeralValue(s) == Accumulate(0, front) * 10 + DigitValue(last) == DigitValue(last);
    } else {
      PrintReadNumeral(front);
      ValueBounds(front);
      assert s == front + [last];
      assert NumeralValue(s) == NumeralValue(front) * 10 + DigitValue(last);
      if NumeralValue(s) >= 10 {
        assert NumeralValue(s) / 10 == NumeralValue(front);
        assert DigitChar(NumeralValue(s) % 10) == last;
      } else {
        assert NumeralValue(front) == 0;
        assert s[0] == front[0];
      }
    }
  }

  /** The C++ expression `x * 10 + input - '0'` evaluates left to right; each of its three
      results has to fit in a 32-bit `int` at every digit, or the behaviour is undefined. */
  predicate AccumulationFits(s: string) {
    forall i | 0 <= i < |s| ::
      var x := NumeralValue(s[..i]);
      x * 10 <= INT_MAX && x * 10 + s[i] as int <= INT_MAX && x * 10 + DigitValue(s[i]) <= INT_MAX
  }

  lemma {:induction false} PrefixValueAtMost(s: string, i: nat)
    requires DigitText(s) && i <= |s|
    ensures 0 <= NumeralValue(s[..i]) <= NumeralValue(s)
  {
    if i == |s| {
      assert s[..i] == s;
      ValueBounds(s);
    } else {
      var front := s[..|s| - 1];
      PrefixValueAtMost(front, i);
      assert front[..i] == s[..i];
    }
  }

  /** The machine arithmetic on a version number is defined exactly when the number is at most
      2147483599: the code of the digit is added before the code of '0' is taken away, so the
      last 48 values of the type are out of reach. */
  lemma {:induction false} AccumulationFitsIff(s: string)
    requires s != "" && DigitText(s)
    ensures AccumulationFits(s) <==> NumeralValue(s) + '0' as int <= INT_MAX
  {
    var n := |s| - 1;
    assert NumeralValue(s) == NumeralValue(s[..n]) * 10 + DigitValue(s[n]);
    if NumeralValue(s) + '0' as int <= INT_MAX {
      forall i | 0 <= i < |s|
        ensures var x := NumeralValue(s[..i]);
                x * 10 <= INT_MAX && x * 10 + s[i] as int <= INT_MAX && x * 10 + DigitValue(s[i]) <= INT_MAX
      {
        PrefixValueAtMost(s, i + 1);
        assert s[..i + 1][..i] == s[..i];
      }
    }
  }

  function Power10(n: nat): int {
    if n == 0 then 1 else 10 * Power10(n - 1)
  }

  lemma {:induction false} ValueBelowPower(s: string)
    requires DigitText(s)
    ensures NumeralValue(s) < Power10(|s|)
  {
    if s != "" {
      ValueBelowPower(s[..|s| - 1]);
    }
  }

  lemma {:induction false} Power10Monotone(m: nat, n: nat)
    requires m <= n
    ensures 0 < Power10(m) <= Power10(n)
  {
    if n > 0 {
      if m < n { Power10Monotone(m, n - 1); } else { Power10Monotone(m - 1, n - 1); }
    }
  }

  /** A version number of at most nine digits never overflows. */
  lemma NineDigitsFit(s: string)
    requires s != "" && DigitText(s) && |s| <= 9
    ensures AccumulationFits(s) && 0 <= NumeralValue(s) < 1_000_000_000
  {
    ValueBounds(s);
    ValueBelowPower(s);
    Power10Monotone(|s|, 9);
    assert Power10(9) == 1_000_000_000 by {
      assert Power10(3) == 1000;
      assert Power10(6) == 1_000_000;
    }
    AccumulationFitsIff(s);
  }
}
