/** Decimal digit strings of naturals: printing, reading and counting digits. */
module DecimalText {
  import opened Powers

  predicate IsDigit(c: char) {
    '0' <= c <= '9'
  }

  predicate AllDigits(s: string) {
    forall i :: 0 <= i < |s| ==> IsDigit(s[i])
  }

  function DigitChar(d: nat): (c: char)
    requires d < 10
    ensures IsDigit(c) && c as int - '0' as int == d
  {
    ('0' as int + d) as char
  }

  function CharDigit(c: char): (d: nat)
    requires IsDigit(c)
    ensures d < 10 && DigitChar(d) == c
  {
    c as int - '0' as int
  }

  /** The number denoted by a digit string; the empty string denotes zero. */
  function ValueOf(s: string): nat
    requires AllDigits(s)
  {
    if |s| == 0 then 0 else 10 * ValueOf(s[..|s| - 1]) + CharDigit(s[|s| - 1])
  }

  /** The digits of `n` without leading zeros; zero is "0". */
  function TextOf(n: nat): (s: string)
    ensures |s| > 0 && AllDigits(s)
  {
    if n < 10 then [DigitChar(n)] else TextOf(n / 10) + [DigitChar(n % 10)]
  }

  /** How many decimal digits `n` needs. */
  function DigitCount(n: nat): (d: nat)
    ensures d > 0
  {
    if n < 10 then 1 else 1 + DigitCount(n / 10)
  }

  lemma {:induction false} TextLength(n: nat)
    ensures |TextOf(n)| == DigitCount(n)
  {
    if n >= 10 {
      TextLength(n / 10);
    }
  }

  lemma {:induction false} DigitCountBounds(n: nat)
    requires n > 0
    ensures Pow10(DigitCount(n) - 1) <= n < Pow10(DigitCount(n))
  {
    if n >= 10 {
      DigitCountBounds(n / 10);
    }
  }

  lemma DigitCountUnique(n: nat, d: nat)
    requires d > 0 && Pow10(d - 1) <= n < Pow10(d)
    ensures DigitCount(n) == d
  {
    DigitCountBounds(n);
    var c := DigitCount(n);
    if c < d {
      Pow10Monotone(c, d - 1);
    } else if d < c {
      Pow10Monotone(d, c - 1);
    }
  }

  lemma {:induction false} ProductStep(x: nat, y: nat, p: nat)
    requires x < y
    ensures x * p + p <= y * p
    decreases y
  {
    assert y * p == (y - 1) * p + p;
    if x + 1 < y {
      ProductStep(x, y - 1, p);
    }
  }

  lemma ProductOrder(x: nat, y: nat, p: nat)
    requires p > 0
    ensures x <= y <==> x * p <= y * p
    ensures x < y <==> x * p + p <= y * p
  {
    if x < y {
      ProductStep(x, y, p);
    } else if y < x {
      ProductStep(y, x, p);
    }
  }

  lemma QuotientBounds(n: nat, p: nat, lo: nat, hi: nat)
    requires p > 0
    ensures lo <= n / p <==> lo * p <= n
    ensures n / p < hi <==> n < hi * p
  {
    var q := n / p;
    assert q * p <= n < q * p + p by {
      assert n == q * p + n % p;
    }
    BetweenMultiples(n, p, q, lo);
    BetweenMultiples(n, p, q, hi);
  }

  lemma BetweenMultiples(n: nat, p: nat, q: nat, x: nat)
    requires p > 0 && q * p <= n < q * p + p
    ensures x <= q <==> x * p <= n
  {
    ProductOrder(x, q, p);
    ProductOrder(q, x, p);
  }

  /** Dropping `k` low digits by division drops exactly `k` from the count. */
  lemma DigitCountShift(n: nat, k: nat)
    requires n >= Pow10(k)
    ensures n / Pow10(k) > 0
    ensures DigitCount(n) == k + DigitCount(n / Pow10(k))
  {
    var q := n / Pow10(k);
    QuotientBounds(n, Pow10(k), 1, q + 1);
    DigitCountBounds(q);
    var d := DigitCount(q);
    Pow10Add(d - 1, k);
    Pow10Add(d, k);
    QuotientBounds(n, Pow10(k), Pow10(d - 1), Pow10(d));
    DigitCountUnique(n, d + k);
  }

  lemma {:induction false} ValueOfText(n: nat)
    ensures ValueOf(TextOf(n)) == n
  {
    if n >= 10 {
      ValueOfText(n / 10);
      var s := TextOf(n);
      assert s[..|s| - 1] == TextOf(n / 10);
    } else {
      assert ValueOf(TextOf(n)[..0]) == 0;
    }
  }

  lemma {:induction false} TextHasNoLeadingZero(n: nat)
    requires n > 0
    ensures TextOf(n)[0] != '0'
  {
    if n >= 10 {
      TextHasNoLeadingZero(n / 10);
      assert TextOf(n)[0] == TextOf(n / 10)[0];
    }
  }

  lemma ShiftProduct(x: nat, p: nat)
    ensures 10 * (x * p) == x * (10 * p)
  {
  }

  lemma {:induction false} ValueOfConcat(a: string, b: string)
    requires AllDigits(a) && AllDigits(b)
    ensures AllDigits(a + b)
    ensures ValueOf(a + b) == ValueOf(a) * Pow10(|b|) + ValueOf(b)
    decreases |b|
  {
    if |b| == 0 {
      assert a + b == a;
    } else {
      var c := b[..|b| - 1];
      ValueOfConcat(a, c);
      assert (a + b)[..|a + b| - 1] == a + c;
      ShiftProduct(ValueOf(a), Pow10(|c|));
    }
  }

  lemma {:induction false} ValueBound(s: string)
    requires AllDigits(s)
    ensures ValueOf(s) < Pow10(|s|)
    ensures |s| > 0 && s[0] != '0' ==> Pow10(|s| - 1) <= ValueOf(s)
  {
    if |s| > 0 {
      ValueBound(s[..|s| - 1]);
      if |s| == 1 {
        assert ValueOf(s[..0]) == 0;
      }
    }
  }

  /** Printing undoes reading on every digit string without a leading zero. */
  lemma {:induction false} TextOfValue(s: string)
    requires AllDigits(s) && |s| > 0
    requires s[0] != '0' || |s| == 1
    ensures TextOf(ValueOf(s)) == s
  {
    var t := s[..|s| - 1];
    if |s| == 1 {
      assert ValueOf(t) == 0;
    } else {
      TextOfValue(t);
      ValueBound(t);
      Pow10Monotone(0, |t| - 1);
      assert s == t + [s[|s| - 1]];
    }
  }

  function Zeros(n: nat): (s: string)
    ensures |s| == n && AllDigits(s)
    ensures forall i :: 0 <= i < n ==> s[i] == '0'
  {
    seq(n, i => '0')
  }

  lemma {:induction false} ValueOfZeros(n: nat)
    ensures ValueOf(Zeros(n)) == 0
  {
    if n > 0 {
      ValueOfZeros(n - 1);
      assert Zeros(n)[..n - 1] == Zeros(n - 1);
    }
  }

  /** The digit string without its leading zeros. */
  function TrimLeadingZeros(s: string): (t: string)
    requires AllDigits(s)
    ensures AllDigits(t) && |t| <= |s|
  {
    if |s| > 0 && s[0] == '0' then TrimLeadingZeros(s[1..]) else s
  }

  lemma {:induction false} TrimKeepsValue(s: string)
    requires AllDigits(s)
    ensures ValueOf(TrimLeadingZeros(s)) == ValueOf(s)
    ensures TrimLeadingZeros(s) != "" ==> TrimLeadingZeros(s)[0] != '0'
    ensures s == Zeros(|s| - |TrimLeadingZeros(s)|) + TrimLeadingZeros(s)
  {
    hide ValueOf;
    if |s| > 0 && s[0] == '0' {
      TrimKeepsValue(s[1..]);
      ValueOfConcat(s[..1], s[1..]);
      assert s == s[..1] + s[1..];
      assert s[..1] == Zeros(1);
      ValueOfZeros(1);
    } else {
      assert Zeros(0) + s == s;
    }
  }
}
