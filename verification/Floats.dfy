/** Percentages in floating point: an integer converted to a float, multiplied by a
    constant, and rounded up to an integer again.  A float is kept as an integer at a
    fixed scale; each operation rounds to the nearest number with as many significant
    bits as the format has, and to the even one of two nearest. */
module Floats {
  import opened Arithmetic
  import opened Elections

  /** A format is given by 2 to the power of its significant bits. */
  const F32: nat := 0x100_0000
  const F64: nat := 0x20_0000_0000_0000

  ghost predicate IsFormat(format: nat) {
    format >= 2 && format % 2 == 0
  }

  /** How many low bits of `m` do not fit. */
  function Excess(m: nat, format: nat): nat
    requires format > 0
  {
    if m < format then 0 else 1 + Excess(m / 2, format)
  }

  function RoundTo(m: nat, unit: nat): nat
    requires unit > 0
  {
    var q, r := m / unit, m % unit;
    if 2 * r > unit || (2 * r == unit && q % 2 == 1) then (q + 1) * unit else q * unit
  }

  function Round(m: nat, format: nat): nat
    requires format > 0
  {
    RoundTo(m, Pow2(Excess(m, format)))
  }

  /** `(n as float * constant).ceil() as usize`, for the constant `c / scale`. */
  function CeilOfProduct(n: nat, c: nat, scale: nat, format: nat): nat
    requires format > 0 && scale > 0
  {
    (Round(Round(n, format) * c, format) + scale - 1) / scale
  }

  // ---- Rounding is monotone -----------------------------------------------

  lemma {:induction false} ExcessBounds(m: nat, format: nat)
    requires IsFormat(format)
    ensures var p := Pow2(Excess(m, format)); m < format * p && (m >= format ==> format / 2 * p <= m)
  {
    if m >= format {
      ExcessBounds(m / 2, format);
      var p := Pow2(Excess(m / 2, format));
      assert Pow2(Excess(m, format)) == 2 * p;
      Doubled(format, p);
    }
  }

  lemma Doubled(format: nat, p: nat)
    requires IsFormat(format)
    ensures format * (2 * p) == 2 * (format * p) && format / 2 * (2 * p) == format * p
  {
    var half := format / 2;
    assert format == 2 * half;
  }

  lemma {:induction false} ExcessGrows(a: nat, b: nat, format: nat)
    requires format > 0 && a <= b
    ensures Excess(a, format) <= Excess(b, format)
  {
    if a >= format {
      ExcessGrows(a / 2, b / 2, format);
    }
  }

  lemma {:induction false} PowGrows(a: nat, b: nat)
    requires a < b
    ensures 2 * Pow2(a) <= Pow2(b)
  {
    if a + 1 < b {
      PowGrows(a, b - 1);
    }
  }

  lemma Quotient(m: nat, unit: nat, bound: nat)
    requires unit > 0
    ensures m < bound * unit ==> m / unit < bound
    ensures bound * unit <= m ==> bound <= m / unit
  {
    var q := m / unit;
    assert q * unit <= m < (q + 1) * unit;
    if q >= bound { Scaled(bound, q, unit); } else { Scaled(q + 1, bound, unit); }
  }

  /** A rounded number lies between the multiples of the unit around the number. */
  lemma RoundToBounds(m: nat, unit: nat)
    requires unit > 0
    ensures m / unit * unit <= RoundTo(m, unit) <= (m / unit + 1) * unit
  {
    Scaled(m / unit, m / unit + 1, unit);
  }

  /** Rounding goes to the nearest multiple of the unit, and of two to the even one. */
  lemma RoundToNearest(m: nat, unit: nat) returns (k: nat)
    requires unit > 0
    ensures RoundTo(m, unit) == k * unit
    ensures 2 * m <= 2 * (k * unit) + unit && 2 * (k * unit) <= 2 * m + unit
    ensures 2 * m == 2 * (k * unit) + unit || 2 * (k * unit) == 2 * m + unit ==> k % 2 == 0
  {
    var q, r := m / unit, m % unit;
    assert m == q * unit + r;
    Expand(q, unit);
    k := if 2 * r > unit || (2 * r == unit && q % 2 == 1) then q + 1 else q;
  }

  lemma RoundToGrows(a: nat, b: nat, unit: nat)
    requires unit > 0 && a <= b
    ensures RoundTo(a, unit) <= RoundTo(b, unit)
  {
    if a / unit == b / unit {
      SameMultiple(a, b, unit);
    } else {
      QuotientGrows(a, b, unit);
      RoundToBounds(a, unit);
      RoundToBounds(b, unit);
      Scaled(a / unit + 1, b / unit, unit);
    }
  }

  lemma QuotientGrows(a: nat, b: nat, unit: nat)
    requires unit > 0 && a <= b
    ensures a / unit <= b / unit
  {
    var q := a / unit;
    assert q * unit <= a;
    Quotient(b, unit, q);
  }

  lemma SameMultiple(a: nat, b: nat, unit: nat)
    requires unit > 0 && a <= b && a / unit == b / unit
    ensures RoundTo(a, unit) <= RoundTo(b, unit)
  {
    var q := a / unit;
    Scaled(q, q + 1, unit);
    assert a == q * unit + a % unit && b == q * unit + b % unit;
  }

  lemma RoundGrows(a: nat, b: nat, format: nat)
    requires IsFormat(format) && a <= b
    ensures Round(a, format) <= Round(b, format)
  {
    var e, e' := Excess(a, format), Excess(b, format);
    ExcessGrows(a, b, format);
    if e == e' {
      RoundToGrows(a, b, Pow2(e));
    } else {
      OtherScale(a, b, format);
    }
  }

  lemma OtherScale(a: nat, b: nat, format: nat)
    requires IsFormat(format) && Excess(a, format) < Excess(b, format)
    ensures Round(a, format) <= Round(b, format)
  {
    var p, p' := Pow2(Excess(a, format)), Pow2(Excess(b, format));
    RoundBelow(a, format);
    RoundAbove(b, format);
    PowGrows(Excess(a, format), Excess(b, format));
    Doubled(format, p);
    Larger(format / 2, 2 * p, p');
  }

  lemma RoundBelow(m: nat, format: nat)
    requires IsFormat(format)
    ensures Round(m, format) <= format * Pow2(Excess(m, format))
  {
    ExcessBounds(m, format);
    RoundToBelow(m, Pow2(Excess(m, format)), format);
  }

  lemma RoundToBelow(m: nat, unit: nat, bound: nat)
    requires unit > 0 && m < bound * unit
    ensures RoundTo(m, unit) <= bound * unit
  {
    Quotient(m, unit, bound);
    RoundToBounds(m, unit);
    var q := m / unit;
    Scaled(q + 1, bound, unit);
  }

  lemma RoundAbove(m: nat, format: nat)
    requires IsFormat(format) && m >= format
    ensures format / 2 * Pow2(Excess(m, format)) <= Round(m, format)
  {
    var p := Pow2(Excess(m, format));
    ExcessBounds(m, format);
    Quotient(m, p, format / 2);
    RoundToBounds(m, p);
    Scaled(format / 2, m / p, p);
  }

  // ---- Rounding changes little --------------------------------------------

  lemma RoundToAdds(m: nat, unit: nat)
    requires unit > 0
    ensures RoundTo(m, unit) <= m + unit
  {
    RoundToBounds(m, unit);
    var q := m / unit;
    assert q * unit <= m;
    assert (q + 1) * unit == q * unit + unit;
  }

  /** Rounding adds at most one part in half the format. */
  lemma RoundError(m: nat, format: nat)
    requires IsFormat(format)
    ensures Round(m, format) * (format / 2) <= m * (format / 2 + 1)
  {
    if m < format {
      assert Round(m, format) == m;
      Larger(m, format / 2, format / 2 + 1);
    } else {
      var p := Pow2(Excess(m, format));
      ExcessBounds(m, format);
      RoundToAdds(m, p);
      Scaled(Round(m, format), m + p, format / 2);
      Spread(m, p, format / 2);
    }
  }

  lemma Spread(m: nat, p: nat, half: nat)
    requires half * p <= m
    ensures (m + p) * half <= m * (half + 1)
  {
  }

  // ---- Percentages --------------------------------------------------------

  /** A larger constant never gives a smaller count. */
  lemma CeilGrows(n: nat, c: nat, d: nat, scale: nat, format: nat)
    requires IsFormat(format) && scale > 0 && c <= d
    ensures CeilOfProduct(n, c, scale, format) <= CeilOfProduct(n, d, scale, format)
  {
    var x := Round(n, format);
    Larger(x, c, d);
    RoundGrows(x * c, x * d, format);
    QuotientGrows(Round(x * c, format) + scale - 1, Round(x * d, format) + scale - 1, scale);
  }

  /** A constant that leaves room for two rounding errors. */
  ghost predicate LeavesRoom(c: nat, scale: nat, format: nat) {
    var half := format / 2; (half + 1) * ((half + 1) * c) <= half * half * scale
  }

  /** Such a percentage never counts more than there are. */
  lemma CeilAtMost(n: nat, c: nat, scale: nat, format: nat)
    requires IsFormat(format) && scale > 0 && LeavesRoom(c, scale, format)
    ensures CeilOfProduct(n, c, scale, format) <= n
  {
    var x, half := Round(n, format), format / 2;
    var y := Round(x * c, format);
    RoundError(n, format);
    RoundError(x * c, format);
    Reorder(x, c, half + 1);
    TwoErrors(n, x, y, (half + 1) * c, half, half + 1);
    CeilFromErrors(n, y, half, (half + 1) * ((half + 1) * c), scale);
  }

  lemma CeilFromErrors(n: nat, y: nat, half: nat, d: nat, scale: nat)
    requires half > 0 && scale > 0 && y * (half * half) <= n * d && d <= half * half * scale
    ensures (y + scale - 1) / scale <= n
  {
    var square := half * half;
    Larger(n, d, square * scale);
    Reorder(n, scale, square);
    Cancel(y, n * scale, square);
    CeilBelow(y, n, scale);
  }

  lemma CeilBelow(y: nat, n: nat, scale: nat)
    requires scale > 0 && y <= n * scale
    ensures (y + scale - 1) / scale <= n
  {
    Expand(n, scale);
    Quotient(y + scale - 1, scale, n + 1);
  }

  lemma TwoErrors(n: nat, x: nat, y: nat, c: nat, half: nat, more: nat)
    requires x * half <= n * more && y * half <= x * c
    ensures y * (half * half) <= n * (more * c)
  {
    Scaled(y * half, x * c, half);
    Scaled(x * half, n * more, c);
    Reorder(y, half, half);
    Reorder(x, c, half);
    Reorder(x, half, c);
    Reorder(n, more, c);
    Commutes(c, half);
    Commutes(c, more);
  }

  // ---- Percentages that are exact -----------------------------------------

  lemma {:induction false} ExcessOfMultiple(k: nat, s: nat, format: nat)
    requires format > 0 && k < format
    ensures Excess(k * Pow2(s), format) <= s
  {
    if s > 0 {
      ExcessOfMultiple(k, s - 1, format);
      var m := k * Pow2(s - 1);
      assert k * Pow2(s) == 2 * m;
    }
  }

  lemma {:induction false} PowSplits(e: nat, s: nat)
    requires e <= s
    ensures Pow2(s) == Pow2(s - e) * Pow2(e)
  {
    if e < s {
      PowSplits(e, s - 1);
      Reorder(2, Pow2(s - 1 - e), Pow2(e));
      Commutes(Pow2(s - 1 - e), Pow2(e));
    }
  }

  /** A multiple of a power of two that has few enough bits is not rounded. */
  lemma RoundKeepsMultiple(k: nat, s: nat, format: nat)
    requires format > 0 && k < format
    ensures Round(k * Pow2(s), format) == k * Pow2(s)
  {
    var e := Excess(k * Pow2(s), format);
    ExcessOfMultiple(k, s, format);
    PowSplits(e, s);
    Reorder(k, Pow2(s - e), Pow2(e));
    Commutes(Pow2(s - e), Pow2(e));
    RoundToKeeps(k * Pow2(s - e), Pow2(e));
  }

  lemma RoundToKeeps(q: nat, unit: nat)
    requires unit > 0
    ensures RoundTo(q * unit, unit) == q * unit
  {
    var m := q * unit;
    Quotient(m, unit, q);
    Expand(q, unit);
    Quotient(m, unit, q + 1);
    assert m / unit == q && m % unit == 0;
  }

  /** A rounded number, scaled by a power of two, is not rounded again. */
  lemma RoundAgain(m: nat, s: nat, format: nat)
    requires IsFormat(format)
    ensures Round(Round(m, format) * Pow2(s), format) == Round(m, format) * Pow2(s)
  {
    var k, e := Representable(m, format);
    PowSplits(s, e + s);
    Reorder(k, Pow2(e), Pow2(s));
    Commutes(Pow2(e), Pow2(s));
    RoundKeepsMultiple(k, e + s, format);
  }

  lemma Representable(m: nat, format: nat) returns (k: nat, e: nat)
    requires IsFormat(format)
    ensures k < format && Round(m, format) == k * Pow2(e)
  {
    e := Excess(m, format);
    RoundBelow(m, format);
    k := RoundToMultiple(m, Pow2(e));
    if k >= format {
      Scaled(format, k, Pow2(e));
      Cancel(k, format, Pow2(e));
      Doubled(format, Pow2(e));
      k, e := format / 2, e + 1;
    }
  }

  lemma RoundToMultiple(m: nat, unit: nat) returns (k: nat)
    requires unit > 0
    ensures RoundTo(m, unit) == k * unit
  {
    var q, r := m / unit, m % unit;
    k := if 2 * r > unit || (2 * r == unit && q % 2 == 1) then q + 1 else q;
  }

  lemma RoundedAtMost(x: nat, s: nat, k: nat, format: nat)
    requires IsFormat(format) && k < format && x <= k * Pow2(s)
    ensures Round(x, format) <= k * Pow2(s)
  {
    RoundGrows(x, k * Pow2(s), format);
    RoundKeepsMultiple(k, s, format);
  }

  lemma RoundKeepsSmall(n: nat, format: nat)
    requires n < format
    ensures Round(n, format) == n
  {
  }

  lemma {:induction false} ExcessAtMost(m: nat, e: nat, format: nat)
    requires IsFormat(format) && m < format * Pow2(e)
    ensures Excess(m, format) <= e
  {
    if m >= format {
      assert e > 0;
      Doubled(format, Pow2(e - 1));
      ExcessAtMost(m / 2, e - 1, format);
    }
  }

  lemma ExcessExactly(m: nat, e: nat, format: nat)
    requires IsFormat(format) && format / 2 * Pow2(e) <= m < format * Pow2(e)
    ensures Excess(m, format) == e || (m < format && e == 0)
  {
    var x := Excess(m, format);
    ExcessAtMost(m, e, format);
    ExcessBounds(m, format);
    if x < e {
      PowGrows(x, e);
      Doubled(format, Pow2(x));
      Larger(format / 2, 2 * Pow2(x), Pow2(e));
    }
  }

  /** Rounding takes away at most half a unit. */
  lemma RoundToLoses(m: nat, unit: nat)
    requires unit > 0
    ensures 2 * m <= 2 * RoundTo(m, unit) + unit
  {
    var q, r := m / unit, m % unit;
    assert m == q * unit + r;
    Expand(q, unit);
  }

  lemma RoundLoses(m: nat, e: nat, format: nat)
    requires IsFormat(format) && m < format * Pow2(e)
    ensures 2 * m <= 2 * Round(m, format) + Pow2(e)
  {
    var x := Excess(m, format);
    ExcessAtMost(m, e, format);
    RoundToLoses(m, Pow2(x));
    if x < e {
      PowGrows(x, e);
    }
  }

  /** The rounded product `y` that is counted: it exceeds no `k` that the exact product
      does not exceed, and it loses at most half a unit. */
  lemma RoundedProduct(n: nat, c: nat, s: nat, k: nat, e: nat, format: nat) returns (y: nat)
    requires IsFormat(format) && n < format && k < format && n * c <= k * Pow2(s) && n * c < format * Pow2(e)
    ensures CeilOfProduct(n, c, Pow2(s), format) == (y + Pow2(s) - 1) / Pow2(s)
    ensures y <= k * Pow2(s) && 2 * (n * c) <= 2 * y + Pow2(e)
  {
    y := Round(n * c, format);
    RoundKeepsSmall(n, format);
    RoundedAtMost(n * c, s, k, format);
    RoundLoses(n * c, e, format);
  }

  // The constants: 0.51 and 0.65 as `f32`, 0.3 as `f64`.
  const C51: nat := 8556380
  const C65: nat := 10905190
  const C30: nat := 5404319552844595
  const SCALE32: nat := 0x100_0000
  const SCALE64: nat := 0x40_0000_0000_0000

  lemma Powers()
    ensures Pow2(17) == 0x2_0000 && Pow2(18) == 0x4_0000 && Pow2(19) == 0x8_0000 && Pow2(20) == 0x10_0000
    ensures Pow2(24) == SCALE32 && Pow2(51) == 0x8_0000_0000_0000 && Pow2(54) == SCALE64
  {
    assert Pow2(3) == 8;
    PowSplits(3, 6);
    PowSplits(6, 12);
    PowSplits(12, 24);
    PowSplits(24, 48);
    PowSplits(6, 54);
    PowSplits(3, 51);
    PowSplits(6, 18);
    assert Pow2(18) == 2 * Pow2(17);
  }

  /** The counts are the exact percentages rounded up until, at a power of two, half a
      unit outweighs the distance to the next integer; those are the first failures. */
  lemma Percent51(n: nat)
    requires n <= 257050
    ensures CeilOfProduct(n, C51, SCALE32, F32) == (51 * n + 99) / 100
  {
    Powers();
    if n <= 257003 {
      var y := RoundedProduct(n, C51, 24, (51 * n + 99) / 100, 17, F32);
      Count51(n, y);
    } else {
      var y := RoundedProduct(n, C51, 24, (51 * n + 99) / 100, 18, F32);
      Count51(n, y);
    }
  }

  lemma Count51(n: nat, y: nat)
    requires n <= 257050 && y <= (51 * n + 99) / 100 * SCALE32
    requires 2 * (n * C51) <= 2 * y + (if n <= 257003 then 0x2_0000 else 0x4_0000)
    ensures (y + SCALE32 - 1) / SCALE32 == (51 * n + 99) / 100
  {
  }

  lemma Percent65(n: nat)
    requires n <= 806596
    ensures CeilOfProduct(n, C65, SCALE32, F32) == (65 * n + 99) / 100
  {
    Powers();
    var y := RoundedProduct(n, C65, 24, (65 * n + 99) / 100, 19, F32);
    Count65(n, y);
  }

  lemma Count65(n: nat, y: nat)
    requires n <= 806596 && y <= (65 * n + 99) / 100 * SCALE32 && 2 * (n * C65) <= 2 * y + 0x8_0000
    ensures (y + SCALE32 - 1) / SCALE32 == (65 * n + 99) / 100
  {
    var k := (13 * n + 19) / 20;
    assert k == (65 * n + 99) / 100;
    assert 20 * k <= 13 * n + 19;
    assert 20 * (n * C65) == 13 * n * SCALE32 - 8 * n;
  }

  lemma Percent30(n: nat)
    requires n < 3377699720527877
    ensures CeilOfProduct(n, C30, SCALE64, F64) == (3 * n + 9) / 10
  {
    Powers();
    var y := RoundedProduct(n, C30, 54, (3 * n + 9) / 10, 51, F64);
    Count30(n, y);
  }

  lemma Count30(n: nat, y: nat)
    requires n < 3377699720527877
    requires y <= (3 * n + 9) / 10 * SCALE64 && 2 * (n * C30) <= 2 * y + 0x8_0000_0000_0000
    ensures (y + SCALE64 - 1) / SCALE64 == (3 * n + 9) / 10
  {
  }

  lemma CountsLess(n: nat, c: nat, s: nat, e: nat, format: nat)
    requires IsFormat(format) && e > 0 && n < format && format / 2 * Pow2(e) <= n * c < format * Pow2(e)
    ensures CeilOfProduct(n, c, Pow2(s), format) == (RoundTo(n * c, Pow2(e)) + Pow2(s) - 1) / Pow2(s)
  {
    RoundKeepsSmall(n, format);
    ExcessExactly(n * c, e, format);
  }

  /** The first inputs at which the counts are one less than the percentages rounded up. */
  lemma FirstFailure51()
    ensures CeilOfProduct(257051, C51, SCALE32, F32) == 131096 == (51 * 257051 + 99) / 100 - 1
  {
    Powers();
    CountsLess(257051, C51, 24, 18, F32);
  }

  lemma FirstFailure65()
    ensures CeilOfProduct(806597, C65, SCALE32, F32) == 524288 == (65 * 806597 + 99) / 100 - 1
  {
    Powers();
    CountsLess(806597, C65, 24, 20, F32);
  }

  lemma FirstFailure30()
    ensures CeilOfProduct(3377699720527877, C30, SCALE64, F64) == 1013309916158363
    ensures (3 * 3377699720527877 + 9) / 10 == 1013309916158364
  {
    Powers();
    CountsLess(3377699720527877, C30, 54, 51, F64);
  }
}
