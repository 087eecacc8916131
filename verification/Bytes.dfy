/**
  Byte strings and the two textual encodings the service writes by hand:
  decimal numbers (`format!("{v}")`) and lower-case hexadecimal (`hex::encode`);
  hash functions are functions on byte strings.

  A byte is written as the character with that code, so that wire formats read
  as string literals.
 */
module Bytes {
  import opened Wrappers

  type Byte = c: char | c as int < 256 witness 'a'
  type Bytes = seq<Byte>

  const U64_LIMIT: nat := 0x1_0000_0000_0000_0000

  // ----------------------------------------------------------------- hashes

  type Hash = Bytes -> Bytes

  /** Two inputs on which a hash fails to be collision-free. */
  predicate Collision(h: Hash, x: Bytes, y: Bytes) {
    x != y && h(x) == h(y)
  }

  // ---------------------------------------------------------------- decimal

  function Digit(d: nat): Byte
    requires d < 10
  {
    (48 + d) as char
  }

  predicate IsDigit(c: char) {
    '0' <= c <= '9'
  }

  function DigitValue(c: char): nat
    requires IsDigit(c)
  {
    c as int - 48
  }

  predicate AllDigits(s: string) {
    forall i :: 0 <= i < |s| ==> IsDigit(s[i])
  }

  function Decimal(n: nat): Bytes {
    if n < 10 then [Digit(n)] else Decimal(n / 10) + [Digit(n % 10)]
  }

  function DecimalValue(s: string): nat
    requires AllDigits(s)
  {
    if s == [] then 0 else 10 * DecimalValue(s[..|s| - 1]) + DigitValue(s[|s| - 1])
  }

  /** A numeral as it is printed: digits, and no superfluous leading zero. */
  predicate IsNumeral(s: string) {
    s != [] && AllDigits(s) && (s[0] == '0' ==> |s| == 1)
  }

  /** Printing yields a canonical numeral that reads back as the number. */
  lemma {:induction false} DecimalReadsBack(n: nat)
    ensures IsNumeral(Decimal(n))
    ensures Decimal(n)[0] == '0' <==> n == 0
    ensures DecimalValue(Decimal(n)) == n
  {
    if n >= 10 {
      DecimalReadsBack(n / 10);
      assert Decimal(n)[..|Decimal(n)| - 1] == Decimal(n / 10);
    }
  }

  /** A canonical numeral is what its value prints as. */
  lemma {:induction false} NumeralIsPrinted(s: string)
    requires IsNumeral(s)
    ensures s == Decimal(DecimalValue(s))
  {
    var init := s[..|s| - 1];
    if |s| == 1 {
      assert DecimalValue(init) == 0;
    } else {
      NumeralIsPrinted(init);
      DecimalReadsBack(DecimalValue(init));
      assert s == init + [s[|s| - 1]];
    }
  }

  lemma DecimalInjective(m: nat, n: nat)
    requires Decimal(m) == Decimal(n)
    ensures m == n
  {
    DecimalReadsBack(m);
    DecimalReadsBack(n);
  }

  // ------------------------------------------------------------------- hex

  function LowerHexDigit(d: nat): Byte
    requires d < 16
  {
    if d < 10 then Digit(d) else (87 + d) as char
  }

  /** The value of a hexadecimal digit of either case. */
  function HexDigitValue(c: char): Option<nat> {
    if IsDigit(c) then Some(DigitValue(c))
    else if 'a' <= c <= 'f' then Some(c as int - 87)
    else if 'A' <= c <= 'F' then Some(c as int - 55)
    else None
  }

  function HexEncode(s: Bytes): Bytes {
    if s == [] then []
    else [LowerHexDigit(s[0] as int / 16), LowerHexDigit(s[0] as int % 16)] + HexEncode(s[1..])
  }

  function HexByte(hi: nat, lo: nat): Byte
    requires hi < 16 && lo < 16
  {
    (16 * hi + lo) as char
  }

  /** `hex::decode`: either case is accepted, an odd length or a bad digit is refused. */
  function HexDecode(s: string): Option<Bytes> {
    if s == [] then Some([])
    else if |s| == 1 then None
    else match (HexDigitValue(s[0]), HexDigitValue(s[1]), HexDecode(s[2..]))
      case (Some(hi), Some(lo), Some(rest)) => Some([HexByte(hi, lo)] + rest)
      case _ => None
  }

  lemma {:induction false} HexReadsBack(s: Bytes)
    ensures |HexEncode(s)| == 2 * |s|
    ensures HexDecode(HexEncode(s)) == Some(s)
  {
    if s != [] {
      HexReadsBack(s[1..]);
      var hi, lo := s[0] as int / 16, s[0] as int % 16;
      assert HexEncode(s)[2..] == HexEncode(s[1..]);
      assert HexDigitValue(LowerHexDigit(hi)) == Some(hi) && HexDigitValue(LowerHexDigit(lo)) == Some(lo);
      assert [HexByte(hi, lo)] + s[1..] == s;
    }
  }

  lemma HexInjective(s: Bytes, t: Bytes)
    requires HexEncode(s) == HexEncode(t)
    ensures s == t
  {
    HexReadsBack(s);
    HexReadsBack(t);
  }

  lemma {:induction false} HexIsLowerHex(s: Bytes)
    ensures forall c :: c in HexEncode(s) ==> IsDigit(c) || 'a' <= c <= 'f'
  {
    if s != [] {
      HexIsLowerHex(s[1..]);
    }
  }

  // -------------------------------------------------------------- sequences

  function Flatten<T>(parts: seq<seq<T>>): seq<T> {
    if parts == [] then [] else parts[0] + Flatten(parts[1..])
  }
}
