/** Slashing a stake (`slash_calculator` of `claim.rs`), in 64-bit floats. */
module Slashing {
  import opened Arithmetic
  import opened Elections
  import opened Blocks
  import opened StakeLog
  import opened Floats

  const SCALE60: nat := 0x1000_0000_0000_0000

  /** `pct as f64 / 100f64`, times 2^60: the quotient rounded to the format. */
  function Fraction(pct: nat): nat {
    RoundTo(pct * SCALE60, 100 * Pow2(Excess(pct * SCALE60 / 100, F64))) / 100
  }

  /** The product of the stake and the fraction, cast back: truncated and saturated. */
  function SlashAmount(pct: nat, value: u128): u128 {
    var amount := Round(Round(value, F64) * Fraction(pct), F64) / SCALE60;
    if amount < U128 then amount else U128 - 1
  }

  /** `slash_calculator`; the subtraction wraps. */
  function SlashCalculator(pct: nat, value: u128): u128 {
    var slash := SlashAmount(pct, value);
    if slash <= value then value - slash else value - slash + U128
  }

  // ---- Less than everything -----------------------------------------------

  lemma SmallFraction(pct: nat)
    requires pct < 100
    ensures 100 * Fraction(pct) <= 99 * SCALE60 + 25600
  {
    var m := pct * SCALE60 / 100;
    Powers60();
    ExcessAtMost(m, 8, F64);
    var e := Excess(m, F64);
    if e < 8 {
      PowGrows(e, 8);
    }
    RoundToAdds(pct * SCALE60, 100 * Pow2(e));
  }

  lemma Powers60()
    ensures Pow2(8) == 256 && Pow2(60) == SCALE60
  {
    Powers();
    assert Pow2(2) == 4;
    PowSplits(2, 4);
    PowSplits(4, 8);
    PowSplits(6, 60);
    assert Pow2(6) == 4 * Pow2(4);
  }

  lemma RoomForAny(pct: nat)
    requires pct < 100
    ensures LeavesRoom(Fraction(pct), SCALE60, F64)
  {
    SmallFraction(pct);
    RoomFor(Fraction(pct));
  }

  lemma RoomFor(c: nat)
    requires 100 * c <= 99 * SCALE60 + 25600
    ensures LeavesRoom(c, SCALE60, F64)
  {
  }

  lemma SmallSlash(pct: nat, value: u128)
    requires pct < 100
    ensures SlashAmount(pct, value) <= value
  {
    RoomForAny(pct);
    CeilAtMost(value, Fraction(pct), SCALE60, F64);
    var y := Round(Round(value, F64) * Fraction(pct), F64);
    QuotientGrows(y, y + SCALE60 - 1, SCALE60);
  }

  // ---- Everything ---------------------------------------------------------

  lemma WholeFraction()
    ensures Fraction(100) == SCALE60
  {
    Powers60();
    ExcessExactly(SCALE60, 8, F64);
  }

  lemma SlashesAll(value: u128)
    ensures SlashAmount(100, value) == var r := Round(value, F64); if r < U128 then r else U128 - 1
  {
    WholeFraction();
    Powers60();
    RoundAgain(value, 60, F64);
    var r := Round(value, F64);
    assert r * SCALE60 / SCALE60 == r;
  }

  /** For every stake a slash of at most 100 percent never raises it, exactly if it is of
      less than 100 percent, or the stake converted to a float is not above the stake,
      or the conversion saturates at the stake itself. */
  lemma SlashNeverRaises(pct: nat, value: u128)
    requires pct <= 100
    ensures SlashCalculator(pct, value) <= value <==> pct < 100 || Round(value, F64) <= value || value == U128 - 1
  {
    if pct < 100 {
      SmallSlash(pct, value);
    } else {
      SlashesAll(value);
    }
  }

  /** A stake of 2^54 + 3 that is slashed completely becomes the largest stake there is. */
  lemma SlashRaises()
    ensures SlashCalculator(100, 0x40_0000_0000_0003) == U128 - 1
    ensures StepStake(SlashCalculator, 0x40_0000_0000_0003, Slash(100)) == U128 - 1
  {
    assert Pow2(2) == 4;
    ExcessExactly(0x40_0000_0000_0003, 2, F64);
    SlashesAll(0x40_0000_0000_0003);
  }

  // ---- How much is slashed ------------------------------------------------

  lemma FractionIsClose(pct: nat)
    requires pct <= 100
    ensures pct * SCALE60 <= 100 * Fraction(pct) + 12800 && 100 * Fraction(pct) <= pct * SCALE60 + 25600
  {
    var m, e := pct * SCALE60, Excess(pct * SCALE60 / 100, F64);
    Powers60();
    ExcessAtMost(m / 100, 8, F64);
    if e < 8 {
      PowGrows(e, 8);
    }
    RoundToAdds(m, 100 * Pow2(e));
    RoundToLoses(m, 100 * Pow2(e));
    var k := RoundToMultiple(m, 100 * Pow2(e));
    Hundredfold(k, Pow2(e));
  }

  lemma Hundredfold(k: nat, p: nat)
    ensures k * (100 * p) == 100 * (k * p) && k * (100 * p) / 100 == k * p
  {
  }

  lemma RoundAdds(m: nat, e: nat, format: nat)
    requires IsFormat(format) && m < format * Pow2(e)
    ensures Round(m, format) <= m + Pow2(e)
  {
    var x := Excess(m, format);
    ExcessAtMost(m, e, format);
    RoundToAdds(m, Pow2(x));
    if x < e {
      PowGrows(x, e);
    }
  }

  lemma ProductIsClose(c: nat, value: nat, pct: nat)
    requires pct * SCALE60 <= 100 * c + 12800 && 100 * c <= pct * SCALE60 + 25600
    ensures pct * value * SCALE60 <= 100 * (value * c) + 12800 * value
    ensures 100 * (value * c) <= pct * value * SCALE60 + 25600 * value
  {
    Larger(value, pct * SCALE60, 100 * c + 12800);
    Larger(value, 100 * c, pct * SCALE60 + 25600);
  }

  lemma WholePart(y: nat, w: nat)
    requires w * SCALE60 <= 100 * y + SCALE60 / 2 && 100 * y <= w * SCALE60 + SCALE60 / 2
    ensures y / SCALE60 == w / 100 || (w % 100 == 0 && y / SCALE60 + 1 == w / 100)
  {
  }

  /** A slash of a stake below 2^40 takes exactly its percentage, rounded down, or one unit
      less where the percentage is a whole number. */
  lemma SlashesPercentage(pct: nat, value: u128)
    requires pct <= 100 && value < 0x100_0000_0000
    ensures var exact := pct * value / 100;
            || SlashAmount(pct, value) == exact
            || (pct * value % 100 == 0 && SlashAmount(pct, value) + 1 == exact)
  {
    var y := CountsWithin(pct, value);
    Scaled(pct, 100, value);
    AmountIs(pct, value, y);
  }

  lemma CountsWithin(pct: nat, value: nat) returns (y: nat)
    requires pct <= 100 && value < 0x100_0000_0000
    ensures y == Round(value * Fraction(pct), F64)
    ensures var w := pct * value;
            y / SCALE60 == w / 100 || (w % 100 == 0 && y / SCALE60 + 1 == w / 100)
  {
    FractionIsClose(pct);
    var x := CloseProduct(Fraction(pct), pct, value);
    y := RoundedClose(x);
    Within(x, y, pct * value, value);
  }

  lemma CloseProduct(c: nat, pct: nat, value: nat) returns (x: nat)
    requires pct <= 100 && value < 0x100_0000_0000
    requires pct * SCALE60 <= 100 * c + 12800 && 100 * c <= pct * SCALE60 + 25600
    ensures x == value * c && x < F64 * Pow2(48)
    ensures pct * value * SCALE60 <= 100 * x + 12800 * value && 100 * x <= pct * value * SCALE60 + 25600 * value
  {
    x := value * c;
    ProductFits(value, c);
    ProductIsClose(c, value, pct);
  }

  lemma RoundedClose(x: nat) returns (y: nat)
    requires x < F64 * Pow2(48)
    ensures y == Round(x, F64)
    ensures 2 * x <= 2 * y + 0x1_0000_0000_0000 && y <= x + 0x1_0000_0000_0000
  {
    y := Round(x, F64);
    RoundLoses(x, 48, F64);
    RoundAdds(x, 48, F64);
    SmallPower();
  }

  lemma Within(x: nat, y: nat, w: nat, value: nat)
    requires 2 * x <= 2 * y + 0x1_0000_0000_0000 && y <= x + 0x1_0000_0000_0000 && value < 0x100_0000_0000
    requires w * SCALE60 <= 100 * x + 12800 * value && 100 * x <= w * SCALE60 + 25600 * value
    ensures y / SCALE60 == w / 100 || (w % 100 == 0 && y / SCALE60 + 1 == w / 100)
  {
    ErrorsAreSmall(x, y, w, value);
    WholePart(y, w);
  }

  lemma ErrorsAreSmall(x: nat, y: nat, w: nat, value: nat)
    requires 2 * x <= 2 * y + 0x1_0000_0000_0000 && y <= x + 0x1_0000_0000_0000 && value < 0x100_0000_0000
    requires w * SCALE60 <= 100 * x + 12800 * value && 100 * x <= w * SCALE60 + 25600 * value
    ensures w * SCALE60 <= 100 * y + SCALE60 / 2 && 100 * y <= w * SCALE60 + SCALE60 / 2
  {
  }

  lemma AmountIs(pct: nat, value: u128, y: nat)
    requires value < F64 && y == Round(value * Fraction(pct), F64) && y / SCALE60 < U128
    ensures SlashAmount(pct, value) == y / SCALE60
  {
    RoundKeepsSmall(value, F64);
  }

  lemma ProductFits(value: nat, c: nat)
    requires value < 0x100_0000_0000 && c <= SCALE60 + 256
    ensures value * c < F64 * Pow2(48)
  {
    SmallPower();
    Scaled(value, 0x100_0000_0000, c);
  }

  lemma SmallPower()
    ensures Pow2(48) == 0x1_0000_0000_0000
  {
    Powers();
    PowSplits(3, 51);
    assert Pow2(3) == 8;
  }
}
