/**
 The BCD macros of the driver: a register holds a value as a tens digit and a
 units digit in separate bitfields, and these three conversions move between
 that pair and a plain integer. The driver applies them only to unsigned
 values (bitfields and `uint8_t` fields), where C's truncating `/` and `%`
 coincide with Dafny's, so the operands here are natural numbers.
 */
module Bcd {

  /** A decimal digit. */
  predicate IsDigit(d: int) {
    0 <= d <= 9
  }

  /** `bcd2bin(h, l)`: the value of tens digit `h` and units digit `l`. */
  function BcdToBin(h: nat, l: nat): (x: nat)
    ensures IsDigit(h) && IsDigit(l) ==> x <= 99
  {
    h * 10 + l
  }

  /** `bin2bcd_h(x)`: the tens digit of `x`. */
  function BinToBcdHigh(x: nat): (h: nat)
    ensures 10 * h <= x < 10 * h + 10
  {
    x / 10
  }

  /** `bin2bcd_l(x)`: the units digit of `x`. */
  function BinToBcdLow(x: nat): (l: nat)
    ensures IsDigit(l) && l == x - 10 * BinToBcdHigh(x)
  {
    x % 10
  }

  /** Splitting a two-digit value into its BCD digits and joining them again gives it back. */
  lemma BinToBcdRoundTrip(x: nat)
    requires x <= 99
    ensures IsDigit(BinToBcdHigh(x)) && IsDigit(BinToBcdLow(x))
    ensures BcdToBin(BinToBcdHigh(x), BinToBcdLow(x)) == x
  {
  }

  /** Joining two BCD digits and splitting the value again gives the digits back. */
  lemma BcdToBinRoundTrip(h: nat, l: nat)
    requires IsDigit(h) && IsDigit(l)
    ensures BinToBcdHigh(BcdToBin(h, l)) == h && BinToBcdLow(BcdToBin(h, l)) == l
  {
  }
}
