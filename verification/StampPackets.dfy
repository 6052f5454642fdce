/**
 The packets that the LDA sends, byte by byte: how they are told apart, and the time stamps.
 */
module StampPackets {
  import opened AsicPacket
  import opened LdaStream
  import opened LdaTimestamps
  import opened ScReading

  /** What fits a packet: type and cycle in 8 bits, number in 16, time in 48. */
  predicate Sendable(p: TsPacket) {
    0 <= p.kind < 256 && 0 <= p.cycle < 256 && 0 <= p.rawTrigId < 65536 && 0 <= p.time < 281474976710656
  }

  /** The packet for a type, cycle, number and time; `other` are the bytes that carry none of them. */
  function StampBytes(p: TsPacket, other: seq<Byte>): (b: seq<Byte>)
    requires Sendable(p) && |other| == 7
    ensures |b| == 26
  {
    [205, 205, 16, 0,
     p.cycle, other[0], other[1], other[2], other[3], 8,
     69, 77, 73, 84,
     p.kind, other[4],
     p.rawTrigId % 256, p.rawTrigId / 256,
     p.time % 256, (p.time / 256) % 256, (p.time / 65536) % 256,
     (p.time / 16777216) % 256, (p.time / 4294967296) % 256, p.time / 1099511627776,
     other[5], other[6]]
  }

  lemma TimeBytes(t: int)
    requires 0 <= t < 281474976710656
    ensures t == t % 256 + 256 * ((t / 256) % 256) + 65536 * ((t / 65536) % 256 + 256 * ((t / 16777216) % 256))
                 + 4294967296 * ((t / 4294967296) % 256 + 256 * (t / 1099511627776))
  {
    var a := t / 256;
    var b := a / 256;
    var c := b / 256;
    var d := c / 256;
    assert t / 65536 == b && t / 16777216 == c && t / 4294967296 == d && t / 1099511627776 == d / 256;
  }

  /** It is recognised as a whole time stamp packet, and read back exactly. */
  lemma StampReadBack(p: TsPacket, other: seq<Byte>)
    requires Sendable(p) && |other| == 7
    ensures var b := StampBytes(p, other);
      Whole(b) && FrameOf(b) == [TimestampFrame(b)] && TsPacketOf(b) == p
  {
    var b := StampBytes(p, other);
    assert b[10..14] == [69, 77, 73, 84];
    TimeBytes(p.time);
    assert Le16(b, 16) == p.rawTrigId;
    assert Le16(b, 18) == p.time % 256 + 256 * ((p.time / 256) % 256);
    assert Le16(b, 20) == (p.time / 65536) % 256 + 256 * ((p.time / 16777216) % 256);
    assert Le16(b, 22) == (p.time / 4294967296) % 256 + 256 * (p.time / 1099511627776);
  }

  lemma StampHeader(b: seq<Byte>)
    requires Whole(b) && FrameOf(b) == [TimestampFrame(b)]
    ensures |b| == 26 && b[0] == 205 && b[1] == 205 && b[2] == 16 && b[3] == 0 && b[9] == 8
    ensures b[10] == 69 && b[11] == 77 && b[12] == 73 && b[13] == 84
  {
    var magic := b[10..14];
    assert magic == TS_MAGIC;
    assert b[10] == magic[0] && b[11] == magic[1] && b[12] == magic[2] && b[13] == magic[3];
  }

  /** Every packet that is taken as a time stamp is one of these. */
  lemma StampsOnly(b: seq<Byte>)
    requires Whole(b) && FrameOf(b) == [TimestampFrame(b)]
    ensures |b| == 26 && Sendable(TsPacketOf(b))
    ensures b == StampBytes(TsPacketOf(b), [b[5], b[6], b[7], b[8], b[15], b[24], b[25]])
  {
    StampHeader(b);
    BytesOfTime(b[18], b[19], b[20], b[21], b[22], b[23]);
  }

  /** A complete packet is taken as ASIC data, as a time stamp, or passed over, by its status byte and the
      four bytes after the header: bit 6 of the status marks readout data. */
  lemma KindsExactly(b: seq<Byte>)
    requires |b| >= 14 && b[0] == 205 && b[1] == 205 && |b| == 10 + (b[2] as int) + 256 * (b[3] as int)
    ensures Whole(b) && FrameOf(b) == [AsicFrame(b)] <==> (b[9] / 64) % 2 == 1 && b[10..14] == [65, 67, 72, 65]
    ensures Whole(b) && FrameOf(b) == [TimestampFrame(b)] <==> |b| == 26 && b[9] == 8 && b[10..14] == [69, 77, 73, 84]
    ensures Whole(b) && FrameOf(b) == []
       <==> (b[9] / 64) % 2 == 0 && !(b[9] == 160 && b[10..14] == [65, 67, 122, 0]) && !(b[9] == 8 && b[10..14] == [69, 77, 73, 84])
  {
  }

  lemma BytesOfTime(a: Byte, b: Byte, c: Byte, d: Byte, e: Byte, f: Byte)
    ensures var t: int := (a as int) + 256 * (b as int) + 65536 * ((c as int) + 256 * (d as int))
                          + 4294967296 * ((e as int) + 256 * (f as int));
      && 0 <= t < 281474976710656
      && t % 256 == a && (t / 256) % 256 == b && (t / 65536) % 256 == c
      && (t / 16777216) % 256 == d && (t / 4294967296) % 256 == e && t / 1099511627776 == f
  {
    var t: int := (a as int) + 256 * (b as int) + 65536 * ((c as int) + 256 * (d as int))
             + 4294967296 * ((e as int) + 256 * (f as int));
    var x := e as int + 256 * (f as int);
    var y := d as int + 256 * x;
    var z := c as int + 256 * y;
    var w := b as int + 256 * z;
    assert t == a as int + 256 * w;
    assert t / 256 == w && w / 256 == z && z / 256 == y && y / 256 == x;
    assert t / 65536 == z && t / 16777216 == y && t / 4294967296 == x && t / 1099511627776 == f;
  }
}
