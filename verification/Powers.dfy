/** Powers of ten over the naturals and over the reals. */
module Powers {
  function Pow10(n: nat): (p: nat)
    ensures p > 0
  {
    if n == 0 then 1 else 10 * Pow10(n - 1)
  }

  lemma {:induction false} Pow10Add(a: nat, b: nat)
    ensures Pow10(a + b) == Pow10(a) * Pow10(b)
  {
    if a != 0 {
      Pow10Add(a - 1, b);
    }
  }

  lemma {:induction false} Pow10Increases(a: nat, b: nat)
    requires a < b
    ensures 10 * Pow10(a) <= Pow10(b)
    decreases b
  {
    if a + 1 < b {
      Pow10Increases(a, b - 1);
    }
  }

  lemma Pow10Monotone(a: nat, b: nat)
    requires a <= b
    ensures Pow10(a) <= Pow10(b)
  {
    if a < b {
      Pow10Increases(a, b);
    }
  }

  /** The exact real ten to the power `e`, for every integer `e`. */
  function TenTo(e: int): (r: real)
    ensures r > 0.0
    decreases if e < 0 then -e else e
  {
    if e == 0 then 1.0
    else if e > 0 then 10.0 * TenTo(e - 1)
    else TenTo(e + 1) / 10.0
  }

  lemma TenToStep(e: int)
    ensures TenTo(e + 1) == 10.0 * TenTo(e)
  {
  }

  lemma TenToZero()
    ensures TenTo(0) == 1.0
  {
  }

  lemma PullTen(x: real, y: real)
    ensures x * (10.0 * y) == 10.0 * (x * y)
  {
  }

  lemma {:induction false} TenToAdd(a: int, b: int)
    ensures TenTo(a + b) == TenTo(a) * TenTo(b)
    decreases if b < 0 then -b else b
  {
    hide TenTo;
    TenToZero();
    if b > 0 {
      TenToAdd(a, b - 1);
      TenToStep(a + b - 1);
      TenToStep(b - 1);
      PullTen(TenTo(a), TenTo(b - 1));
    } else if b < 0 {
      TenToAdd(a, b + 1);
      TenToStep(a + b);
      TenToStep(b);
      PullTen(TenTo(a), TenTo(b));
    }
  }

  lemma {:induction false} TenToOfNat(n: nat)
    ensures TenTo(n) == Pow10(n) as real
  {
    if n != 0 {
      TenToOfNat(n - 1);
    }
  }

  lemma {:induction false} TenToMonotone(a: int, b: int)
    requires a <= b
    ensures TenTo(a) <= TenTo(b)
    decreases b - a
  {
    if a < b {
      TenToMonotone(a, b - 1);
      TenToStep(b - 1);
    }
  }

  /** Multiplying both sides of a comparison by the same positive real keeps it. */
  lemma ScaleKeepsOrder(x: real, y: real, z: real)
    requires z > 0.0
    ensures x < y <==> x * z < y * z
    ensures x == y <==> x * z == y * z
  {
    if x < y {
      assert (y - x) * z > 0.0;
    } else if y < x {
      assert (x - y) * z > 0.0;
    }
  }

  /** The exact real `c` times ten to the power `-scale`. */
  function Scaled(c: nat, scale: int): real {
    c as real * TenTo(-scale)
  }

  lemma {:induction false} CastProduct(c: nat, p: nat)
    ensures (c * p) as real == c as real * p as real
  {
    if c != 0 {
      CastProduct(c - 1, p);
      assert c * p == (c - 1) * p + p;
    }
  }

  lemma Regroup(c: nat, p: nat, unit: real)
    ensures c as real * (unit * p as real) == (c * p) as real * unit
  {
    CastProduct(c, p);
  }

  lemma ScaledUp(c: nat, scale: int, k: nat)
    ensures Scaled(c, scale) == Scaled(c * Pow10(k), scale + k)
  {
    hide TenTo, Pow10;
    TenToAdd(-(scale + k), k);
    TenToOfNat(k);
    Regroup(c, Pow10(k), TenTo(-(scale + k)));
  }

  lemma SameScaleOrder(x: nat, y: nat, scale: int)
    ensures x < y <==> Scaled(x, scale) < Scaled(y, scale)
    ensures x == y <==> Scaled(x, scale) == Scaled(y, scale)
  {
    hide TenTo;
    ScaleKeepsOrder(x as real, y as real, TenTo(-scale));
  }

  /** Order of two scaled numbers, by aligning the one of smaller scale. */
  lemma AlignedOrder(x: nat, y: nat, scale: int, k: nat)
    ensures x < y * Pow10(k) <==> Scaled(x, scale + k) < Scaled(y, scale)
    ensures x == y * Pow10(k) <==> Scaled(x, scale + k) == Scaled(y, scale)
  {
    hide Scaled, Pow10;
    ScaledUp(y, scale, k);
    SameScaleOrder(x, y * Pow10(k), scale + k);
  }

  /** The exact number `a` times ten to the power `-scale`, for a signed `a`. */
  function SignedScaled(a: int, scale: int): real {
    if a < 0 then -Scaled(-a, scale) else Scaled(a, scale)
  }

  lemma SignedOrder(a: int, b: int, scale: int)
    ensures a < b <==> SignedScaled(a, scale) < SignedScaled(b, scale)
  {
    SameScaleOrder(if a < 0 then -a else a, if b < 0 then -b else b, scale);
    SameScaleOrder(0, if a < 0 then -a else a, scale);
    SameScaleOrder(0, if b < 0 then -b else b, scale);
    NothingScaled(scale);
    hide Scaled;
  }

  lemma NothingScaled(scale: int)
    ensures Scaled(0, scale) == 0.0
  {
  }

  lemma TimesTen(a: int, scale: int)
    ensures SignedScaled(a, scale) == SignedScaled(10 * a, scale + 1)
  {
    assert Pow10(1) == 10;
    ScaledUp(if a < 0 then -a else a, scale, 1);
    hide Scaled;
  }
}
