/**
 * The `base62` crate's `encode` and `decode` on `u128`, as positional digit
 * conversion over the standard alphabet 0-9, A-Z, a-z (most significant
 * digit first).
 */
module Base62 {
  import opened Wrappers
  import opened Bytes

  /** The longest rendering of a `u128`: 62^21 <= 2^128 - 1 < 62^22. */
  const MAX_DIGITS: nat := 22

  /** The byte of '_', which the alphabet does not contain. */
  const UNDERSCORE: uint8 := 0x5F

  function Pow62(n: nat): (r: nat)
    ensures r > 0
  {
    if n == 0 then 1 else 62 * Pow62(n - 1)
  }

  lemma {:induction false} Pow62Add(a: nat, b: nat)
    ensures Pow62(a + b) == Pow62(a) * Pow62(b)
  {
    if a > 0 {
      Pow62Add(a - 1, b);
      assert Pow62(a + b) == 62 * Pow62(a - 1 + b);
    }
  }

  lemma U128FitsIn22Digits()
    ensures 0x1_0000_0000_0000_0000_0000_0000_0000_0000 <= Pow62(MAX_DIGITS)
  {
    assert Pow62(11) == 52036560683837093888;
    Pow62Add(11, 11);
  }

  /** The byte that denotes digit d. */
  function DigitByte(d: nat): (c: uint8)
    requires d < 62
  {
    if d < 10 then (0x30 + d) as uint8
    else if d < 36 then (0x41 + d - 10) as uint8
    else (0x61 + d - 36) as uint8
  }

  /** The digit that byte c denotes, if c is in the alphabet. */
  function DigitValue(c: uint8): (r: Option<nat>)
    ensures r.Some? ==> r.value < 62 && DigitByte(r.value) == c
    ensures c == UNDERSCORE ==> r.None?
  {
    if 0x30 <= c <= 0x39 then Some(c as nat - 0x30)
    else if 0x41 <= c <= 0x5A then Some(c as nat - 0x41 + 10)
    else if 0x61 <= c <= 0x7A then Some(c as nat - 0x61 + 36)
    else None
  }

  /** Every byte of s is a base62 digit. */
  ghost predicate InAlphabet(s: seq<uint8>)
  {
    forall j :: 0 <= j < |s| ==> DigitValue(s[j]).Some?
  }

  /** The shortest base62 rendering of n ("0" for zero). */
  function Digits(n: nat): (r: seq<uint8>)
    ensures |r| >= 1 && InAlphabet(r)
  {
    if n < 62 then [DigitByte(n)] else Digits(n / 62) + [DigitByte(n % 62)]
  }

  /** The number s denotes, or None if a byte of s is not a digit. */
  function Value(s: seq<uint8>): (r: Option<nat>)
    ensures r.Some? <==> InAlphabet(s)
    ensures r.Some? ==> r.value < Pow62(|s|)
  {
    if s == [] then Some(0)
    else
      match Value(s[..|s| - 1])
      case None => None
      case Some(v) =>
        match DigitValue(s[|s| - 1])
        case None => None
        case Some(d) => Some(62 * v + d)
  }

  /** `base62::encode(n)`. */
  function Encode(n: u128): (s: seq<uint8>)
    ensures 1 <= |s| <= MAX_DIGITS
    ensures InAlphabet(s) && UNDERSCORE !in s
  {
    U128FitsIn22Digits();
    DigitsLength(n, MAX_DIGITS);
    Digits(n)
  }

  /** `base62::decode(s)`: fails on empty input, on a byte outside the alphabet, and on a value above `u128::MAX`. */
  function Decode(s: seq<uint8>): (r: Option<u128>)
    ensures r.Some? <==> s != [] && InAlphabet(s) && Value(s).value < 0x1_0000_0000_0000_0000_0000_0000_0000_0000
    ensures r.Some? ==> r.value == Value(s).value
  {
    if s == [] then None
    else
      match Value(s)
      case None => None
      case Some(v) => if v < 0x1_0000_0000_0000_0000_0000_0000_0000_0000 then Some(v) else None
  }

  lemma {:induction false} DigitsLength(n: nat, k: nat)
    requires 1 <= k && n < Pow62(k)
    ensures |Digits(n)| <= k
  {
    if n >= 62 {
      DigitsLength(n / 62, k - 1);
    }
  }

  lemma {:induction false} ValueOfDigits(n: nat)
    ensures Value(Digits(n)) == Some(n)
  {
    if n >= 62 {
      ValueOfDigits(n / 62);
      var s := Digits(n);
      assert s[..|s| - 1] == Digits(n / 62);
    }
  }

  /** Decoding what was encoded gives the number back. */
  lemma DecodeEncode(n: u128)
    ensures Decode(Encode(n)) == Some(n)
  {
    ValueOfDigits(n);
  }
}
