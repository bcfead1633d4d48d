/** The unencrypted 32-byte time-sync packet a device expects as its first
    reply (`create_timesync_packet`). */
module Timesync {
  import opened Bytes

  const TIMESYNC_PACKET_LEN: nat := 32

  /** Bytes 0-1: the flag pair that marks a time-sync packet. */
  const TIMESYNC_FLAGS: seq<byte> := [0x21, 0x31]

  /** Bytes 2-3: the size field, 0x0020 = 32. */
  const TIMESYNC_SIZE: seq<byte> := [0x00, 0x20]

  /** Byte offset of the 4-byte timestamp. */
  const TIMESTAMP_OFFSET: nat := 12

  /** `n` bytes of 0xFF filler. */
  function Filler(n: nat): (s: seq<byte>)
    ensures |s| == n
    ensures forall i :: 0 <= i < n ==> s[i] == 0xFF
  {
    seq(n, _ => 0xFF)
  }

  /** The packet built at `epochSecs` seconds since the Unix epoch: flags,
      size, 8 filler bytes, the seconds cut to 32 bits (so it wraps in 2106,
      and already in 2038 for readers that take it as signed), 16 filler bytes. */
  function TimesyncPacket(epochSecs: u64): (p: seq<byte>)
    ensures |p| == TIMESYNC_PACKET_LEN
  {
    TIMESYNC_FLAGS + TIMESYNC_SIZE + Filler(8) + BigEndian32(TruncateToU32(epochSecs)) + Filler(16)
  }

  /** `create_timesync_packet`, with the clock reading passed in. */
  method CreateTimesyncPacket(epochSecs: u64) returns (packet: ByteBuffer)
    ensures fresh(packet)
    ensures packet.bytes == TimesyncPacket(epochSecs)
  {
    packet := new ByteBuffer.WithCapacity(TIMESYNC_PACKET_LEN);
    packet.PutU8(0x21);
    packet.PutU8(0x31);
    packet.PutU8(0x00);
    packet.PutU8(0x20);
    packet.PutSlice(Filler(8));
    var epoch := TruncateToU32(epochSecs);
    packet.PutU32(epoch);
    packet.PutSlice(Filler(16));
  }

  /** The byte layout: 32 bytes, the fixed prefix 0x21 0x31 0x00 0x20, 0xFF
      in bytes 4-11 and 16-31, and the big-endian 32-bit timestamp in 12-15. */
  lemma TimesyncPacketLayout(epochSecs: u64)
    ensures var p := TimesyncPacket(epochSecs);
      |p| == TIMESYNC_PACKET_LEN &&
      p[0] == 0x21 && p[1] == 0x31 && p[2] == 0x00 && p[3] == 0x20 &&
      (forall i :: 4 <= i < 12 ==> p[i] == 0xFF) &&
      p[12..16] == BigEndian32(TruncateToU32(epochSecs)) &&
      (forall i :: 16 <= i < 32 ==> p[i] == 0xFF)
  {
    var p := TimesyncPacket(epochSecs);
    var t := BigEndian32(TruncateToU32(epochSecs));
    assert p == TIMESYNC_FLAGS + TIMESYNC_SIZE + Filler(8) + t + Filler(16);
    assert p[12..16] == t;
  }

  /** The timestamp field reads back as the epoch seconds modulo 2^32. */
  lemma TimesyncTimestampReadsBack(epochSecs: u64)
    ensures ReadBigEndian32(TimesyncPacket(epochSecs)[TIMESTAMP_OFFSET..]) == epochSecs % U32_MODULUS
  {
    TimesyncPacketLayout(epochSecs);
    var p := TimesyncPacket(epochSecs);
    assert p[TIMESTAMP_OFFSET..][..4] == p[12..16];
    ReadOfBigEndian32(TruncateToU32(epochSecs));
  }

  /** Two packets agree everywhere outside bytes 12-15, and are equal exactly
      when the two clock readings agree modulo 2^32. */
  lemma TimesyncPacketsDifferOnlyInTimestamp(t1: u64, t2: u64)
    ensures var p1, p2 := TimesyncPacket(t1), TimesyncPacket(t2);
      |p1| == |p2| &&
      (forall i :: 0 <= i < |p1| && !(12 <= i < 16) ==> p1[i] == p2[i]) &&
      (p1 == p2 <==> t1 % U32_MODULUS == t2 % U32_MODULUS)
  {
    TimesyncPacketLayout(t1);
    TimesyncPacketLayout(t2);
    var p1, p2 := TimesyncPacket(t1), TimesyncPacket(t2);
    BigEndian32Injective(TruncateToU32(t1), TruncateToU32(t2));
    if p1 == p2 {
      assert p1[12..16] == p2[12..16];
    }
  }
}
