/** Decimal text: Python's str(int), f"{n:012d}" and int(text) on plain digits. */
module Decimal {
  import opened Orders

  const SEQ_WIDTH: nat := 12
  const SEQ_LIMIT: nat := 1_000_000_000_000

  function Digit(d: int): char
    requires 0 <= d < 10
  {
    "0123456789"[d]
  }

  predicate IsDigit(c: char) { '0' <= c <= '9' }

  predicate AllDigits(s: string) { forall i :: 0 <= i < |s| ==> IsDigit(s[i]) }

  /** str(n) for a natural number. */
  function Numeral(n: nat): (s: string)
    ensures |s| >= 1 && AllDigits(s)
  {
    if n < 10 then [Digit(n)] else Numeral(n / 10) + [Digit(n % 10)]
  }

  function Zeros(k: nat): (s: string)
    ensures |s| == k && AllDigits(s)
  {
    seq(k, _ => '0')
  }

  /** f"{n:012d}": at least twelve digits, more when the number needs them. */
  function Padded(n: nat): (s: string)
    ensures |s| >= SEQ_WIDTH && AllDigits(s)
  {
    var s := Numeral(n);
    if |s| >= SEQ_WIDTH then s else Zeros(SEQ_WIDTH - |s|) + s
  }

  function DigitValue(c: char): int
    requires IsDigit(c)
  {
    c as int - '0' as int
  }

  /** int(text) for a run of digits. */
  function Value(s: string): (n: nat)
    requires AllDigits(s)
  {
    if s == [] then 0 else 10 * Value(s[..|s| - 1]) + DigitValue(s[|s| - 1])
  }

  function Pow10(k: nat): (p: nat)
    ensures p >= 1
  {
    if k == 0 then 1 else 10 * Pow10(k - 1)
  }

  lemma {:induction false} ValueOfNumeral(n: nat)
    ensures Value(Numeral(n)) == n
  {
    var s := Numeral(n);
    if n >= 10 {
      ValueOfNumeral(n / 10);
      assert s[..|s| - 1] == Numeral(n / 10);
    } else {
      assert s[..0] == [];
      assert Value(s) == 10 * Value(s[..0]) + DigitValue(s[0]);
    }
  }

  lemma {:induction false} NumeralInjective(m: nat, n: nat)
    requires Numeral(m) == Numeral(n)
    ensures m == n
  {
    ValueOfNumeral(m);
    ValueOfNumeral(n);
  }

  lemma {:induction false} ValueIgnoresZeros(k: nat, s: string)
    requires AllDigits(s)
    ensures AllDigits(Zeros(k) + s) && Value(Zeros(k) + s) == Value(s)
  {
    var z := Zeros(k) + s;
    if s != [] {
      assert z[..|z| - 1] == Zeros(k) + s[..|s| - 1];
      ValueIgnoresZeros(k, s[..|s| - 1]);
    } else if k > 0 {
      assert z[..|z| - 1] == Zeros(k - 1) + s;
      ValueIgnoresZeros(k - 1, s);
    }
  }

  lemma {:induction false} ValueOfPadded(n: nat)
    ensures Value(Padded(n)) == n
  {
    var s := Numeral(n);
    ValueOfNumeral(n);
    if |s| < SEQ_WIDTH { ValueIgnoresZeros(SEQ_WIDTH - |s|, s); }
  }

  /** The batch id and the file name are built from this text: it never maps two numbers to one text. */
  lemma {:induction false} PaddedInjective(m: nat, n: nat)
    requires Padded(m) == Padded(n)
    ensures m == n
  {
    ValueOfPadded(m);
    ValueOfPadded(n);
  }

  lemma {:induction false} ValueBound(s: string)
    requires AllDigits(s)
    ensures Value(s) < Pow10(|s|)
  {
    if s != [] { ValueBound(s[..|s| - 1]); }
  }

  lemma {:induction false} NumeralLength(n: nat, k: nat)
    requires k >= 1
    ensures |Numeral(n)| <= k <==> n < Pow10(k)
  {
    if n < 10 {
      assert Pow10(k) == 10 * Pow10(k - 1);
    } else if k == 1 {
      assert Pow10(1) == 10 * Pow10(0);
    } else {
      NumeralLength(n / 10, k - 1);
      assert n / 10 < Pow10(k - 1) <==> n < 10 * Pow10(k - 1);
    }
  }

  lemma Pow10Of12()
    ensures Pow10(SEQ_WIDTH) == SEQ_LIMIT
  {
    assert Pow10(4) == 10_000 by { assert Pow10(2) == 100; }
    assert Pow10(8) == 100_000_000 by { assert Pow10(6) == 1_000_000; }
    assert Pow10(10) == 10_000_000_000;
  }

  /** The padded text is exactly twelve characters wide precisely below 10^12. */
  lemma PaddedWidth(n: nat)
    ensures |Padded(n)| == SEQ_WIDTH <==> n < SEQ_LIMIT
  {
    NumeralLength(n, SEQ_WIDTH);
    Pow10Of12();
  }

  /** int(name[:12]) gives the number back exactly when it is below 10^12. */
  lemma PaddedPrefixRoundTrip(n: nat)
    ensures Value(Padded(n)[..SEQ_WIDTH]) == n <==> n < SEQ_LIMIT
  {
    PaddedWidth(n);
    ValueOfPadded(n);
    ValueBound(Padded(n)[..SEQ_WIDTH]);
    Pow10Of12();
    if n < SEQ_LIMIT { assert Padded(n)[..SEQ_WIDTH] == Padded(n); }
  }

  function Codes(s: string): (r: seq<int>)
    ensures |r| == |s|
  {
    seq(|s|, i requires 0 <= i < |s| => s[i] as int)
  }

  /** On digit texts of one length, text order is number order. */
  lemma {:induction false} DigitsOrder(a: string, b: string)
    requires |a| == |b| && AllDigits(a) && AllDigits(b)
    ensures Less(Codes(a), Codes(b)) <==> Value(a) < Value(b)
    ensures a == b <==> Value(a) == Value(b)
  {
    if a != [] {
      var n := |a| - 1;
      var p, q := a[..n], b[..n];
      DigitsOrder(p, q);
      assert a == p + [a[n]] && b == q + [b[n]];
      assert Codes(a) == Codes(p) + [a[n] as int] && Codes(b) == Codes(q) + [b[n] as int];
      if p == q {
        LessPrefix(Codes(p), [a[n] as int], [b[n] as int]);
      } else {
        assert Codes(p) != Codes(q) by {
          var i :| 0 <= i < n && p[i] != q[i];
          assert Codes(p)[i] != Codes(q)[i];
        }
        LessIgnoresTail(Codes(p), Codes(q), [a[n] as int], [b[n] as int]);
      }
    }
  }
}
