/** Option, the stock "value or nothing" wrapper used across the model. */
module Wrappers {
  datatype Option<+T> = None | Some(value: T)
}

/** Fixed-width integers and the big-endian byte helpers of the `bytes` crate
    (`BufMut::put_u8`, `put_slice`, `put_u32` and `Buf::get_u32`). */
module Bytes {

  type byte = x: int | 0 <= x < 0x100
  type u32 = x: int | 0 <= x < 0x1_0000_0000
  type u64 = x: int | 0 <= x < 0x1_0000_0000_0000_0000

  const U32_MODULUS: int := 0x1_0000_0000

  /** The cast `x as u32` of a u64: keep the low 32 bits. */
  function TruncateToU32(x: u64): (r: u32)
    ensures x < U32_MODULUS ==> r == x
    ensures exists k: nat :: x == k * U32_MODULUS + r
  {
    var k: nat := x / U32_MODULUS;
    assert x == k * U32_MODULUS + x % U32_MODULUS;
    x % U32_MODULUS
  }

  /** The four bytes `put_u32` appends: most significant byte first. */
  function BigEndian32(x: u32): (b: seq<byte>)
    ensures |b| == 4
  {
    [x / 0x100_0000, (x / 0x1_0000) % 0x100, (x / 0x100) % 0x100, x % 0x100]
  }

  /** The value `get_u32` reads from the front of a buffer: its first four
      bytes taken as a big-endian number. */
  function ReadBigEndian32(b: seq<byte>): u32
    requires |b| >= 4
  {
    (b[0] as int) * 0x100_0000 + (b[1] as int) * 0x1_0000 + (b[2] as int) * 0x100 + b[3]
  }

  /** Reading back what `put_u32` wrote gives the original number. */
  lemma ReadOfBigEndian32(x: u32)
    ensures ReadBigEndian32(BigEndian32(x)) == x
  {
    var q0, r0 := x / 0x100, x % 0x100;
    var q1, r1 := q0 / 0x100, q0 % 0x100;
    var q2, r2 := q1 / 0x100, q1 % 0x100;
    assert x == q0 * 0x100 + r0;
    assert q0 == q1 * 0x100 + r1;
    assert q1 == q2 * 0x100 + r2;
    assert x / 0x1_0000 == q1;
    assert x / 0x100_0000 == q2;
  }

  /** Writing back what `get_u32` read reproduces the four bytes. */
  lemma BigEndianOfRead32(b: seq<byte>)
    requires |b| == 4
    ensures BigEndian32(ReadBigEndian32(b)) == b
  {
    var x := ReadBigEndian32(b);
    assert x / 0x100 == (b[0] as int) * 0x1_0000 + (b[1] as int) * 0x100 + b[2];
    assert x % 0x100 == b[3];
    assert x / 0x1_0000 == (b[0] as int) * 0x100 + b[1];
    assert x / 0x100_0000 == b[0];
  }

  /** Distinct numbers are written as distinct byte groups. */
  lemma BigEndian32Injective(x: u32, y: u32)
    ensures BigEndian32(x) == BigEndian32(y) <==> x == y
  {
    if BigEndian32(x) == BigEndian32(y) {
      ReadOfBigEndian32(x);
      ReadOfBigEndian32(y);
    }
  }

  /** A growable byte buffer (`bytes::BytesMut`): writes append at the end. */
  class ByteBuffer {
    var bytes: seq<byte>

    /** `BytesMut::with_capacity`: the capacity is only an allocation hint. */
    constructor WithCapacity(capacity: nat)
      ensures bytes == []
    {
      bytes := [];
    }

    method PutU8(b: byte)
      modifies this
      ensures bytes == old(bytes) + [b]
    {
      bytes := bytes + [b];
    }

    method PutSlice(s: seq<byte>)
      modifies this
      ensures bytes == old(bytes) + s
    {
      bytes := bytes + s;
    }

    method PutU32(x: u32)
      modifies this
      ensures bytes == old(bytes) + BigEndian32(x)
    {
      bytes := bytes + BigEndian32(x);
    }
  }
}
