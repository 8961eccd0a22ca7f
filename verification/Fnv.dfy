/** FNV-1a, 64 bits (draft-eastlake-fnv, section 2), which names the cache file of a source path. */
module Fnv {
  const WORD: nat := 0x1_0000_0000_0000_0000
  const OFFSET_BASIS: nat := 0xcbf2_9ce4_8422_2325
  const PRIME: nat := 0x0000_0100_0000_01b3
  /** The inverse of PRIME modulo WORD. */
  const INVERSE: nat := 0xce96_5057_aff6_957b

  type Hash = h: nat | h < WORD

  /** u64::wrapping_mul */
  function WrappingMul(a: Hash, b: nat): Hash {
    (a * b) % WORD
  }

  function Pow2(k: nat): (p: nat)
    ensures p > 0
  {
    if k == 0 then 1 else 2 * Pow2(k - 1)
  }

  /** Exclusive or of k-bit numbers, lowest bit first. */
  function Xor(a: nat, b: nat, k: nat): (r: nat)
    requires a < Pow2(k) && b < Pow2(k)
    ensures r < Pow2(k)
    decreases k
  {
    if k == 0 then 0
    else (if a % 2 == b % 2 then 0 else 1) + 2 * Xor(a / 2, b / 2, k - 1)
  }

  /** Bit i of a number, the lowest being bit 0. */
  function Bit(n: nat, i: nat): nat {
    if i == 0 then n % 2 else Bit(n / 2, i - 1)
  }

  /** A bit is set exactly where the two numbers differ. */
  lemma {:induction false} XorIsBitwise(a: nat, b: nat, k: nat, i: nat)
    requires a < Pow2(k) && b < Pow2(k) && i < k
    ensures Bit(Xor(a, b, k), i) == 1 <==> Bit(a, i) != Bit(b, i)
    ensures Bit(Xor(a, b, k), i) <= 1
  {
    if i > 0 {
      assert Xor(a, b, k) / 2 == Xor(a / 2, b / 2, k - 1);
      XorIsBitwise(a / 2, b / 2, k - 1, i - 1);
    }
  }

  lemma {:induction false} XorTwice(a: nat, b: nat, k: nat)
    requires a < Pow2(k) && b < Pow2(k)
    ensures Xor(Xor(a, b, k), b, k) == a
    ensures Xor(Xor(a, b, k), a, k) == b
  {
    if k > 0 {
      var r := Xor(a, b, k);
      assert r / 2 == Xor(a / 2, b / 2, k - 1);
      XorTwice(a / 2, b / 2, k - 1);
    }
  }

  type Byte = b: nat | b < 256

  lemma EightBits()
    ensures Pow2(8) == 256
  {
    assert Pow2(4) == 16;
  }

  function Xor8(a: Byte, b: Byte): Byte {
    EightBits();
    Xor(a, b, 8)
  }

  lemma Xor8Twice(a: Byte, b: Byte)
    ensures Xor8(Xor8(a, b), b) == a && Xor8(Xor8(a, b), a) == b
  {
    EightBits();
    XorTwice(a, b, 8);
  }

  lemma Recomposed(high: nat, low: nat)
    requires high < 0x100_0000_0000_0000 && low < 256
    ensures high * 256 + low < WORD
    ensures (high * 256 + low) / 256 == high && (high * 256 + low) % 256 == low
  {
  }

  lemma HighPart(hash: Hash)
    ensures hash / 256 < 0x100_0000_0000_0000
  {
  }

  function Low(hash: Hash): (b: Byte)
    ensures b == hash % 256
  {
    hash % 256
  }

  /** Xor with a byte reaches the lowest eight bits only. */
  function XorByte(hash: Hash, byte: Byte): (r: Hash)
    ensures r / 256 == hash / 256 && r % 256 == Xor8(Low(hash), byte)
  {
    var high, low := hash / 256, Xor8(Low(hash), byte);
    HighPart(hash);
    Recomposed(high, low);
    high * 256 + low
  }

  function Step(hash: Hash, byte: Byte): Hash {
    WrappingMul(XorByte(hash, byte), PRIME)
  }

  /** Undoes one step: the odd prime has an inverse, and xor is its own. */
  function Unstep(hash: Hash, byte: Byte): Hash {
    XorByte(WrappingMul(hash, INVERSE), byte)
  }

  function FoldLeft<S, B>(f: (S, B) -> S, state: S, items: seq<B>): S
    decreases |items|
  {
    if items == [] then state else FoldLeft(f, f(state, items[0]), items[1..])
  }

  /** The state after the bytes, from any state. */
  function Fold(hash: Hash, bytes: seq<Byte>): Hash {
    FoldLeft(Step, hash, bytes)
  }

  function Unfold(hash: Hash, bytes: seq<Byte>): Hash
    decreases |bytes|
  {
    if bytes == [] then hash else Unstep(Unfold(hash, bytes[1..]), bytes[0])
  }

  method Fnv1a64(bytes: seq<Byte>) returns (hash: Hash)
    ensures hash == Fold(OFFSET_BASIS, bytes)
  {
    hash := OFFSET_BASIS;
    var n := 0;
    while n < |bytes|
      invariant n <= |bytes|
      invariant Fold(hash, bytes[n..]) == Fold(OFFSET_BASIS, bytes)
    {
      assert bytes[n..][1..] == bytes[n + 1..];
      hash := Step(hash, bytes[n]);
      n := n + 1;
    }
  }

  lemma RemainderIs(x: Hash, q: int)
    ensures (x + q * WORD) % WORD == x
  {
  }

  /** PRIME * INVERSE == 1 + 0xe09 ... * WORD, so each undoes the other. */
  lemma MulUndone(x: Hash)
    ensures WrappingMul(WrappingMul(x, PRIME), INVERSE) == x
    ensures WrappingMul(WrappingMul(x, INVERSE), PRIME) == x
  {
    var k := PRIME * INVERSE / WORD;
    assert PRIME * INVERSE == 1 + k * WORD;
    var q, p := x * PRIME / WORD, x * INVERSE / WORD;
    assert WrappingMul(x, PRIME) == x * PRIME - q * WORD;
    assert WrappingMul(x, INVERSE) == x * INVERSE - p * WORD;
    assert WrappingMul(x, PRIME) * INVERSE == x + (x * k - q * INVERSE) * WORD;
    assert WrappingMul(x, INVERSE) * PRIME == x + (x * k - p * PRIME) * WORD;
    RemainderIs(x, x * k - q * INVERSE);
    RemainderIs(x, x * k - p * PRIME);
  }

  lemma XorUndone(hash: Hash, byte: Byte)
    ensures XorByte(XorByte(hash, byte), byte) == hash
  {
    var r := XorByte(hash, byte);
    Xor8Twice(Low(hash), byte);
    var back := XorByte(r, byte);
    assert back / 256 == hash / 256 && back % 256 == hash % 256;
  }

  lemma StepUndone(hash: Hash, byte: Byte)
    ensures Unstep(Step(hash, byte), byte) == hash
    ensures Step(Unstep(hash, byte), byte) == hash
  {
    MulUndone(XorByte(hash, byte));
    MulUndone(hash);
    XorUndone(hash, byte);
    XorUndone(WrappingMul(hash, INVERSE), byte);
  }

  /** For each suffix the incoming state and the outgoing one determine each other. */
  lemma {:induction false} FoldIsABijection(hash: Hash, bytes: seq<Byte>)
    ensures Unfold(Fold(hash, bytes), bytes) == hash
    ensures Fold(Unfold(hash, bytes), bytes) == hash
    decreases |bytes|
  {
    if bytes != [] {
      FoldIsABijection(Step(hash, bytes[0]), bytes[1..]);
      StepUndone(hash, bytes[0]);
      FoldIsABijection(hash, bytes[1..]);
      StepUndone(Unfold(hash, bytes[1..]), bytes[0]);
    }
  }

  lemma {:induction false} FoldLeftSplits<S, B>(f: (S, B) -> S, state: S, a: seq<B>, b: seq<B>)
    ensures FoldLeft(f, state, a + b) == FoldLeft(f, FoldLeft(f, state, a), b)
    decreases |a|
  {
    if a == [] {
      assert a + b == b;
    } else {
      FoldLeftSplits(f, f(state, a[0]), a[1..], b);
      assert (a + b)[1..] == a[1..] + b;
    }
  }

  lemma StepSeparatesBytes(hash: Hash, a: Byte, b: Byte)
    requires Step(hash, a) == Step(hash, b)
    ensures a == b
  {
    MulUndone(XorByte(hash, a));
    MulUndone(XorByte(hash, b));
    Xor8Twice(Low(hash), a);
    Xor8Twice(Low(hash), b);
  }

  /** Source paths that differ in one byte never share a cache: their keys differ. */
  lemma OneByteApart(prefix: seq<Byte>, a: Byte, b: Byte, suffix: seq<Byte>)
    requires a != b
    ensures Fold(OFFSET_BASIS, prefix + [a] + suffix) != Fold(OFFSET_BASIS, prefix + [b] + suffix)
  {
    var before := Fold(OFFSET_BASIS, prefix);
    FoldLeftSplits<Hash, Byte>(Step, OFFSET_BASIS, prefix + [a], suffix);
    FoldLeftSplits<Hash, Byte>(Step, OFFSET_BASIS, prefix + [b], suffix);
    FoldLeftSplits<Hash, Byte>(Step, OFFSET_BASIS, prefix, [a]);
    FoldLeftSplits<Hash, Byte>(Step, OFFSET_BASIS, prefix, [b]);
    assert Fold(before, [a]) == Step(before, a) && Fold(before, [b]) == Step(before, b);
    FoldIsABijection(Step(before, a), suffix);
    FoldIsABijection(Step(before, b), suffix);
    if Fold(OFFSET_BASIS, prefix + [a] + suffix) == Fold(OFFSET_BASIS, prefix + [b] + suffix) {
      StepSeparatesBytes(before, a, b);
    }
  }

  lemma LowXor()
    ensures Xor8(0x25, 0x61) == 0x44
  {
    EightBits();
    assert Xor(0x1, 0x3, 4) == 0x2;
    assert Xor(0x12, 0x30, 7) == 0x22;
  }

  /** The published keys of the empty text and of "a" (draft-eastlake-fnv, appendix C). */
  lemma PublishedKeys()
    ensures Fold(OFFSET_BASIS, []) == 0xcbf2_9ce4_8422_2325
    ensures Fold(OFFSET_BASIS, [0x61]) == 0xaf63_dc4c_8601_ec8c
  {
    LowXor();
    var mixed := XorByte(OFFSET_BASIS, 0x61);
    assert mixed == 0xcbf2_9ce4_8422_2344;
    assert Step(OFFSET_BASIS, 0x61) == 0xaf63_dc4c_8601_ec8c;
    assert [0x61][1..] == [];
  }
}
