/** Hexadecimal digits, and the upper-case text that the key store holds. */
module HexText {
  import opened LittleEndian

  type Nibble = n: nat | n < 16

  predicate IsHexDigit(c: char) {
    '0' <= c <= '9' || 'a' <= c <= 'f' || 'A' <= c <= 'F'
  }

  /** The number that a digit of either case stands for. */
  function DigitValue(c: char): Nibble
    requires IsHexDigit(c)
  {
    if c <= '9' then c as int - '0' as int
    else if c <= 'F' then c as int - 'A' as int + 10
    else c as int - 'a' as int + 10
  }

  function Digit(n: Nibble): char {
    "0123456789ABCDEF"[n]
  }

  lemma DigitStandsFor(n: Nibble)
    ensures IsUpperHex(Digit(n)) && DigitValue(Digit(n)) == n
  {
  }

  predicate IsUpperHex(c: char) {
    '0' <= c <= '9' || 'A' <= c <= 'F'
  }

  predicate UpperHex(text: string, width: nat) {
    |text| == width && forall c <- text :: IsUpperHex(c)
  }

  /** bytes.hex().upper() */
  function HexBytes(bytes: Bytes): (text: string)
    ensures |text| == 2 * |bytes|
    ensures forall c <- text :: IsUpperHex(c)
  {
    if bytes == [] then "" else [Digit(bytes[0] / 16), Digit(bytes[0] % 16)] + HexBytes(bytes[1..])
  }

  /** The 0NX format: width digits, most significant first. */
  function HexNumber(n: nat, width: nat): (text: string)
    ensures |text| == width
    ensures forall c <- text :: IsUpperHex(c)
  {
    if width == 0 then "" else HexNumber(n / 16, width - 1) + [Digit(n % 16)]
  }

  function Reversed(bytes: Bytes): Bytes {
    if bytes == [] then [] else Reversed(bytes[1..]) + [bytes[0]]
  }

  lemma {:induction false} HexBytesAppend(a: Bytes, b: Byte)
    ensures HexBytes(a + [b]) == HexBytes(a) + [Digit(b / 16), Digit(b % 16)]
  {
    if a == [] {
      assert [b][1..] == [];
    } else {
      assert (a + [b])[1..] == a[1..] + [b];
      HexBytesAppend(a[1..], b);
    }
  }

  lemma LowByteDigits(b: Byte, rest: nat)
    ensures var n := b + 256 * rest; n % 16 == b % 16 && n / 16 % 16 == b / 16 && n / 16 / 16 == rest
  {
  }

  lemma LastTwoDigits(b: Byte, rest: nat, width: nat)
    ensures HexNumber(b + 256 * rest, width + 2) == HexNumber(rest, width) + [Digit(b / 16), Digit(b % 16)]
  {
    LowByteDigits(b, rest);
    var n := b + 256 * rest;
    assert HexNumber(n / 16, width + 1) == HexNumber(rest, width) + [Digit(b / 16)];
  }

  /** Reading a name as a little-endian number and printing it reverses its bytes. */
  lemma {:induction false} NumberPrintsReversed(bytes: Bytes)
    ensures HexNumber(Le(bytes), 2 * |bytes|) == HexBytes(Reversed(bytes))
  {
    if bytes != [] {
      var b, rest := bytes[0], Le(bytes[1..]);
      NumberPrintsReversed(bytes[1..]);
      HexBytesAppend(Reversed(bytes[1..]), b);
      LastTwoDigits(b, rest, 2 * |bytes[1..]|);
      assert 2 * |bytes| == 2 * |bytes[1..]| + 2 && Le(bytes) == b + 256 * rest;
      assert Reversed(bytes) == Reversed(bytes[1..]) + [b];
    }
  }

  // ---------- What the texts stand for ----------

  /** The number a text of digits stands for, most significant first. */
  function Reading(text: string): nat
    requires forall k :: 0 <= k < |text| ==> IsHexDigit(text[k])
  {
    if text == "" then 0
    else
      16 * Reading(text[..|text| - 1]) + DigitValue(text[|text| - 1])
  }

  function Pow16(k: nat): (p: nat)
    ensures p > 0
  {
    if k == 0 then 1 else 16 * Pow16(k - 1)
  }

  /** The text of a number that fits its width stands for that number. */
  lemma {:induction false} HexNumberReadsBack(n: nat, width: nat)
    requires n < Pow16(width)
    ensures forall k :: 0 <= k < width ==> IsHexDigit(HexNumber(n, width)[k])
    ensures Reading(HexNumber(n, width)) == n
  {
    if width > 0 {
      HexNumberReadsBack(n / 16, width - 1);
      DigitStandsFor(n % 16);
      assert HexNumber(n, width)[..width - 1] == HexNumber(n / 16, width - 1);
    }
  }

  /** Characters 2i and 2i + 1 are the high and the low half of byte i. */
  lemma {:induction false} HexBytesAt(bytes: Bytes, i: nat)
    requires i < |bytes|
    ensures IsHexDigit(HexBytes(bytes)[2 * i]) && IsHexDigit(HexBytes(bytes)[2 * i + 1])
    ensures 16 * DigitValue(HexBytes(bytes)[2 * i]) + DigitValue(HexBytes(bytes)[2 * i + 1]) == bytes[i]
  {
    if i == 0 {
      DigitStandsFor(bytes[0] / 16);
      DigitStandsFor(bytes[0] % 16);
    } else {
      HexBytesAt(bytes[1..], i - 1);
      assert HexBytes(bytes)[2 * i] == HexBytes(bytes[1..])[2 * (i - 1)];
    }
  }
}
