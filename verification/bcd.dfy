/**
 * Packed binary-coded decimal: one decimal digit per nibble, tens in the high
 * nibble. Both conversions work on 8-bit values and truncate like the C
 * `uint8_t` return type.
 */
module Bcd {

  /** Both nibbles hold a decimal digit. */
  predicate IsBcd(b: bv8) {
    b >> 4 <= 9 && b & 0x0F <= 9
  }

  /** Packs a decimal value below 100 as two BCD digits. */
  function DecimalToBcd(val: bv8): (r: bv8)
    ensures val < 100 ==> IsBcd(r) && r >> 4 == val / 10 && r & 0x0F == val % 10
  {
    ((val / 10) << 4) | ((val % 10) & 0x0F)
  }

  /** Reads the two nibbles of a byte as tens and ones; nibbles above 9 are not rejected. */
  function BcdToDecimal(val: bv8): (r: bv8)
    ensures r <= 165
    ensures IsBcd(val) ==> r < 100 && r / 10 == val >> 4 && r % 10 == val & 0x0F
  {
    (val >> 4) * 10 + (val & 0x0F)
  }

  lemma DecimalToBcdRoundTrip(n: bv8)
    requires n < 100
    ensures IsBcd(DecimalToBcd(n))
    ensures BcdToDecimal(DecimalToBcd(n)) == n
  {
  }

  lemma BcdToDecimalRoundTrip(b: bv8)
    requires IsBcd(b)
    ensures DecimalToBcd(BcdToDecimal(b)) == b
  {
  }

  /** Upper bounds of the packed form, which decide which register masks a value survives. */
  lemma DecimalToBcdBounds(n: bv8)
    ensures n < 8 ==> DecimalToBcd(n) == n
    ensures n < 20 ==> DecimalToBcd(n) < 0x20
    ensures n < 40 ==> DecimalToBcd(n) < 0x40
    ensures n < 80 ==> DecimalToBcd(n) < 0x80
  {
  }
}
