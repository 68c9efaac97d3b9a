/** The little-endian reads of `System.Buffers.Binary.BinaryPrimitives` that the
    record decoder uses, the matching writes (used only to state round trips), and
    the `(int)` reinterpretation of a `uint`. */
module BinaryPrimitives {
  import opened Base

  /** `ReadUInt32LittleEndian(bytes[offset..])`. */
  function ReadU32(bytes: seq<Byte>, offset: nat): (n: U32)
    requires offset + 4 <= |bytes|
    ensures n % 0x100 == bytes[offset]
    ensures n / 0x100_0000 == bytes[offset + 3]
  {
    var b0, b1, b2, b3: int := bytes[offset], bytes[offset + 1], bytes[offset + 2], bytes[offset + 3];
    b0 + 0x100 * b1 + 0x1_0000 * b2 + 0x100_0000 * b3
  }

  /** `ReadUInt64LittleEndian(bytes[offset..])`: the low word comes first. */
  function ReadU64(bytes: seq<Byte>, offset: nat): (n: U64)
    requires offset + 8 <= |bytes|
    ensures n % 0x1_0000_0000 == ReadU32(bytes, offset)
    ensures n / 0x1_0000_0000 == ReadU32(bytes, offset + 4)
  {
    ReadU32(bytes, offset) + 0x1_0000_0000 * ReadU32(bytes, offset + 4)
  }

  /** `(int)` applied to a `uint`: two's-complement reinterpretation into 32 bits. */
  function ToInt32(n: U32): (i: int)
    ensures -0x8000_0000 <= i < 0x8000_0000
    ensures i > 0 <==> 0 < n < 0x8000_0000
    ensures i >= 0 ==> i == n
  {
    if n < 0x8000_0000 then n else n - 0x1_0000_0000
  }

  /** The four bytes `WriteUInt32LittleEndian` stores for `n`. */
  function U32Bytes(n: U32): (b: seq<Byte>)
    ensures |b| == 4
  {
    [n % 0x100, (n / 0x100) % 0x100, (n / 0x1_0000) % 0x100, n / 0x100_0000]
  }

  /** The eight bytes `WriteUInt64LittleEndian` stores for `n`. */
  function U64Bytes(n: U64): (b: seq<Byte>)
    ensures |b| == 8
  {
    U32Bytes(n % 0x1_0000_0000) + U32Bytes(n / 0x1_0000_0000)
  }

  lemma ReadU32OfU32Bytes(n: U32, prefix: seq<Byte>, suffix: seq<Byte>)
    ensures ReadU32(prefix + U32Bytes(n) + suffix, |prefix|) == n
  {
    var s := prefix + U32Bytes(n) + suffix;
    var k := |prefix|;
    assert s[k] == n % 0x100 && s[k + 1] == (n / 0x100) % 0x100;
    assert s[k + 2] == (n / 0x1_0000) % 0x100 && s[k + 3] == n / 0x100_0000;
    var a, b, c, d := n % 0x100, (n / 0x100) % 0x100, (n / 0x1_0000) % 0x100, n / 0x100_0000;
    assert n / 0x100 == b + 0x100 * ((n / 0x100) / 0x100);
    assert (n / 0x100) / 0x100 == n / 0x1_0000;
    assert n / 0x1_0000 == c + 0x100 * ((n / 0x1_0000) / 0x100);
    assert (n / 0x1_0000) / 0x100 == d;
  }

  lemma ReadU64OfU64Bytes(n: U64, prefix: seq<Byte>, suffix: seq<Byte>)
    ensures ReadU64(prefix + U64Bytes(n) + suffix, |prefix|) == n
  {
    var lo, hi := n % 0x1_0000_0000, n / 0x1_0000_0000;
    var s := prefix + U64Bytes(n) + suffix;
    assert s == prefix + U32Bytes(lo) + (U32Bytes(hi) + suffix);
    ReadU32OfU32Bytes(lo, prefix, U32Bytes(hi) + suffix);
    assert s == (prefix + U32Bytes(lo)) + U32Bytes(hi) + suffix;
    ReadU32OfU32Bytes(hi, prefix + U32Bytes(lo), suffix);
  }

  /** A 64-bit read is zero exactly when all eight bytes are zero: the source's test
      of the upper half of a file id is a test of eight zero bytes. */
  lemma ReadU64ZeroIff(bytes: seq<Byte>, offset: nat)
    requires offset + 8 <= |bytes|
    ensures ReadU64(bytes, offset) == 0 <==> forall i :: offset <= i < offset + 8 ==> bytes[i] == 0
  {
    if ReadU64(bytes, offset) == 0 {
      assert ReadU32(bytes, offset) == 0 && ReadU32(bytes, offset + 4) == 0;
      forall i | offset <= i < offset + 8 ensures bytes[i] == 0 {
        if i < offset + 4 {
          assert bytes[offset] + 0x100 * bytes[offset + 1] + 0x1_0000 * bytes[offset + 2] + 0x100_0000 * bytes[offset + 3] == 0;
        } else {
          assert bytes[offset + 4] + 0x100 * bytes[offset + 5] + 0x1_0000 * bytes[offset + 6] + 0x100_0000 * bytes[offset + 7] == 0;
        }
      }
    }
  }
}
