/** Byte strings and the fixed-width little-endian integers inside them. */
module LittleEndian {
  import opened Wrappers

  type Byte = x: int | 0 <= x < 256

  type Bytes = seq<Byte>

  datatype Error =
    | Truncated
    | BadSignature
    | BadHeader
    | UnsupportedLayout
    | UnreadableSection
    | MissingCopySource
    | BadPayloadSize(row: nat)
    | StoreUnavailable
    | InvalidStoreLine
    | ConflictingKey(name: string)

  const TWO_31: int := 0x8000_0000
  const TWO_32: int := 0x1_0000_0000
  const TWO_64: int := 0x1_0000_0000_0000_0000

  function Take(data: Bytes, offset: nat, size: nat): Result<Bytes, Error> {
    if offset + size > |data| then Err(Truncated) else Ok(data[offset..offset + size])
  }

  lemma SubSlice(data: Bytes, lo: nat, hi: nat, i: nat, j: nat)
    requires lo <= hi <= |data| && i <= j <= hi - lo
    ensures data[lo..hi][i..j] == data[lo + i..lo + j]
  {
    forall k | 0 <= k < j - i
      ensures data[lo..hi][i..j][k] == data[lo + i..lo + j][k]
    {
      assert data[lo..hi][i + k] == data[lo + i + k];
    }
  }

  function Pow256(size: nat): nat {
    if size == 0 then 1 else 256 * Pow256(size - 1)
  }

  function Le(bytes: Bytes): (n: nat)
    ensures n < Pow256(|bytes|)
  {
    if bytes == [] then 0 else bytes[0] + 256 * Le(bytes[1..])
  }

  lemma Regrouped(x: nat, y: nat, z: nat)
    ensures x * (y * z) == x * y * z
  {
  }

  /** The last byte is the most significant one. */
  lemma {:induction false} LeAppend(bytes: Bytes, b: Byte)
    ensures Le(bytes + [b]) == Le(bytes) + Pow256(|bytes|) * b
  {
    if bytes != [] {
      LeAppend(bytes[1..], b);
      assert (bytes + [b])[1..] == bytes[1..] + [b];
      Regrouped(256, Pow256(|bytes| - 1), b);
    } else {
      assert [b][1..] == [];
    }
  }

  function ToLe(n: nat, size: nat): (bytes: Bytes)
    ensures |bytes| == size
  {
    if size == 0 then [] else [n % 256] + ToLe(n / 256, size - 1)
  }

  lemma {:induction false} LeToLe(n: nat, size: nat)
    requires n < Pow256(size)
    ensures Le(ToLe(n, size)) == n
  {
    if size > 0 {
      LeToLe(n / 256, size - 1);
      assert ToLe(n, size)[1..] == ToLe(n / 256, size - 1);
    }
  }

  lemma {:induction false} ToLeLe(bytes: Bytes)
    ensures ToLe(Le(bytes), |bytes|) == bytes
  {
    if bytes != [] {
      ToLeLe(bytes[1..]);
      var rest := Le(bytes[1..]);
      assert (bytes[0] + 256 * rest) % 256 == bytes[0] && (bytes[0] + 256 * rest) / 256 == rest;
    }
  }

  lemma Widths()
    ensures Pow256(4) == TWO_32 && Pow256(8) == TWO_64
  {
    assert Pow256(4) == 256 * (256 * (256 * (256 * Pow256(0))));
    assert Pow256(8) == 256 * (256 * (256 * (256 * Pow256(4))));
  }

  lemma Back2(n: nat)
    requires n < 65536
    ensures Le(ToLe(n, 2)) == n
  {
    assert Pow256(2) == 256 * (256 * Pow256(0));
    LeToLe(n, 2);
  }

  lemma Back4(n: nat)
    requires n < TWO_32
    ensures Le(ToLe(n, 4)) == n
  {
    Widths();
    LeToLe(n, 4);
  }

  lemma Back8(n: nat)
    requires n < TWO_64
    ensures Le(ToLe(n, 8)) == n
  {
    Widths();
    LeToLe(n, 8);
  }

  /** Two's complement: what struct's 'i' reads. */
  function Signed(n: nat): (i: int)
    requires n < TWO_32
    ensures -0x8000_0000 <= i < 0x8000_0000 && (n - i) % 0x1_0000_0000 == 0
  {
    if n < TWO_31 then n else n - TWO_32
  }

  function Unsigned(i: int): nat
    requires -TWO_31 <= i < TWO_31
  {
    if i < 0 then i + TWO_32 else i
  }
}
