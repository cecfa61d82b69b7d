/** The two pure helpers of the application's `util` object: the identifier generator
    `uuid` (with its random draws given as input) and `pluralize`. */
module Util {

  /** One draw of `Math.random() * 16 | 0`: an integer from 0 to 15. */
  type Nibble = x: int | 0 <= x < 16

  /** The number of draws `uuid` makes. */
  const UuidDraws: nat := 32

  /** The length of every identifier `uuid` returns: 32 digits and 4 dashes. */
  const UuidLength: nat := 36

  /** A lower-case hexadecimal digit, as `toString(16)` writes it. */
  predicate IsLowerHex(c: char) {
    '0' <= c <= '9' || 'a' <= c <= 'f'
  }

  /** One of the digits 8, 9, a and b that mark the variant of the identifier. */
  predicate IsVariantDigit(c: char) {
    c == '8' || c == '9' || c == 'a' || c == 'b'
  }

  /** `d.toString(16)` for a single-digit number. */
  function HexDigit(d: Nibble): (c: char)
    ensures IsLowerHex(c)
    ensures d < 10 ==> c as int - '0' as int == d
    ensures 10 <= d ==> c as int - 'a' as int == d - 10
  {
    if d < 10 then ('0' as int + d) as char else ('a' as int + d - 10) as char
  }

  /** Different digits are written differently. */
  lemma HexDigitInjective(a: Nibble, b: Nibble)
    requires HexDigit(a) == HexDigit(b)
    ensures a == b
  {
  }

  /** `random & 3 | 8`: the low two bits of the draw with bit 3 set. */
  function VariantNibble(random: Nibble): (v: Nibble)
    ensures 8 <= v < 12
    ensures v % 4 == random % 4
  {
    ((random as bv4 & 3) | 8) as int
  }

  /** The dash `uuid` writes before the digit of draw `i`. */
  function Separator(i: nat): string {
    if i == 8 || i == 12 || i == 16 || i == 20 then "-" else ""
  }

  /** The value `uuid` writes for draw `i`: always 4 at draw 12 (the version), the
      variant digit at draw 16, the draw itself everywhere else. */
  function DigitValue(i: nat, random: Nibble): Nibble {
    if i == 12 then 4 else if i == 16 then VariantNibble(random) else random
  }

  /** The identifier after the first `n` rounds of the loop in `uuid`. */
  function UuidPrefix(random: seq<Nibble>, n: nat): string
    requires n <= |random|
  {
    if n == 0 then ""
    else UuidPrefix(random, n - 1) + Separator(n - 1) + [HexDigit(DigitValue(n - 1, random[n - 1]))]
  }

  /** The identifier `uuid` builds from the draws `random`. */
  function UuidOf(random: seq<Nibble>): string
    requires |random| == UuidDraws
  {
    UuidPrefix(random, UuidDraws)
  }

  /** How many dashes the first `n` rounds write. */
  function DashesBefore(n: nat): nat {
    (if n > 8 then 1 else 0) + (if n > 12 then 1 else 0) + (if n > 16 then 1 else 0) + (if n > 20 then 1 else 0)
  }

  /** Where the digit of draw `k` stands in the identifier. */
  function DigitPosition(k: nat): nat {
    k + DashesBefore(k + 1)
  }

  /** The layout of the identifier, the form of a version-4 UUID: 8-4-4-4-12 lower-case
      hexadecimal digits separated by dashes, version digit 4, variant digit 8 to b. */
  predicate IsUuidShape(s: string) {
    |s| == UuidLength &&
    forall p :: 0 <= p < |s| ==>
      if p == 8 || p == 13 || p == 18 || p == 23 then s[p] == '-'
      else if p == 14 then s[p] == '4'
      else if p == 19 then IsVariantDigit(s[p])
      else IsLowerHex(s[p])
  }

  /** After `n` rounds the identifier holds `n` digits and the dashes written so far. */
  lemma {:induction false} UuidPrefixLength(random: seq<Nibble>, n: nat)
    requires n <= |random|
    ensures |UuidPrefix(random, n)| == n + DashesBefore(n)
  {
    if n > 0 {
      UuidPrefixLength(random, n - 1);
    }
  }

  /** Later rounds only append: what an earlier round wrote is never changed. */
  lemma {:induction false} UuidPrefixGrows(random: seq<Nibble>, m: nat, n: nat)
    requires m <= n <= |random|
    ensures UuidPrefix(random, m) <= UuidPrefix(random, n)
  {
    if m < n {
      UuidPrefixGrows(random, m, n - 1);
    }
  }

  /** Round `k` writes the dash, if any, and then the digit of draw `k` at its final
      position. */
  lemma UuidDigitAt(random: seq<Nibble>, n: nat, k: nat)
    requires k < n <= |random|
    ensures DigitPosition(k) < |UuidPrefix(random, n)|
    ensures UuidPrefix(random, n)[DigitPosition(k)] == HexDigit(DigitValue(k, random[k]))
    ensures Separator(k) == "-" ==> UuidPrefix(random, n)[DigitPosition(k) - 1] == '-'
  {
    UuidPrefixLength(random, k);
    UuidPrefixGrows(random, k + 1, n);
    var s := UuidPrefix(random, k + 1);
    assert s == UuidPrefix(random, k) + Separator(k) + [HexDigit(DigitValue(k, random[k]))];
    assert |s| == DigitPosition(k) + 1;
  }

  /** The identifier has the layout of a version-4 UUID. */
  lemma UuidShape(random: seq<Nibble>)
    requires |random| == UuidDraws
    ensures IsUuidShape(UuidOf(random))
  {
    var s := UuidOf(random);
    UuidPrefixLength(random, UuidDraws);
    forall p | 0 <= p < |s|
      ensures if p == 8 || p == 13 || p == 18 || p == 23 then s[p] == '-'
              else if p == 14 then s[p] == '4'
              else if p == 19 then IsVariantDigit(s[p])
              else IsLowerHex(s[p])
    {
      if p == 8 || p == 13 || p == 18 || p == 23 {
        var k := if p == 8 then 8 else if p == 13 then 12 else if p == 18 then 16 else 20;
        UuidDigitAt(random, UuidDraws, k);
        assert DigitPosition(k) - 1 == p;
      } else {
        var k := p - (if p > 8 then 1 else 0) - (if p > 13 then 1 else 0) - (if p > 18 then 1 else 0) - (if p > 23 then 1 else 0);
        UuidDigitAt(random, UuidDraws, k);
        assert DigitPosition(k) == p;
      }
    }
  }

  /** Apart from the version and variant draws, every draw shows up as its own digit,
      so two identifiers are equal only if those draws were. */
  lemma UuidKeepsDraws(random: seq<Nibble>, k: nat)
    requires |random| == UuidDraws && k < UuidDraws && k != 12 && k != 16
    ensures |UuidOf(random)| == UuidLength && DigitPosition(k) < UuidLength
    ensures UuidOf(random)[DigitPosition(k)] == HexDigit(random[k])
  {
    UuidPrefixLength(random, UuidDraws);
    UuidDigitAt(random, UuidDraws, k);
  }

  /** `util.uuid`: builds the identifier digit by digit from the 32 draws. */
  method Uuid(random: seq<Nibble>) returns (uuid: string)
    requires |random| == UuidDraws
    ensures uuid == UuidOf(random)
    ensures IsUuidShape(uuid)
  {
    uuid := "";
    for i := 0 to UuidDraws
      invariant uuid == UuidPrefix(random, i)
    {
      if i == 8 || i == 12 || i == 16 || i == 20 {
        uuid := uuid + "-";
      }
      var digit := if i == 12 then 4 else if i == 16 then VariantNibble(random[i]) else random[i];
      uuid := uuid + [HexDigit(digit)];
    }
    UuidShape(random);
  }

  /** `util.pluralize`: the word itself for a count of exactly one, the word with an `s`
      appended for every other count, zero included. */
  function Pluralize(count: int, word: string): (r: string)
    ensures |word| <= |r| && r[..|word|] == word
    ensures |r| == |word| <==> count == 1
    ensures |r| != |word| ==> r[|word|..] == "s"
  {
    if count == 1 then word else word + "s"
  }
}
