/** The alphabet of base64, apart from the arithmetic that finds its letters. */
module Base64Alphabet {
  import opened Base64

  const CAPITALS: string := "ABCDEFGHIJKLMNOPQRSTUVWXYZ"
  const SMALL: string := "abcdefghijklmnopqrstuvwxyz"
  const DIGITS_AND_MORE: string := "0123456789+/"

  lemma CapitalsExact(v: nat)
    requires v < 26
    ensures Letter(v) == CAPITALS[v] as int
  {
  }

  lemma SmallExact(v: nat)
    requires v < 26
    ensures Letter(26 + v) == SMALL[v] as int
  {
  }

  lemma DigitsExact(v: nat)
    requires v < 12
    ensures Letter(52 + v) == DIGITS_AND_MORE[v] as int
  {
  }

  /** The alphabet as table 1 of RFC 4648 has it. */
  lemma AlphabetExact(v: nat)
    requires v < 64
    ensures Letter(v) == (CAPITALS + SMALL + DIGITS_AND_MORE)[v] as int
  {
    if v < 26 { CapitalsExact(v); } else if v < 52 { SmallExact(v - 26); } else { DigitsExact(v - 52); }
  }
}
