/**
 Framing of the byte stream: the packet search of `ScReader::Read`, for streams without the
 LabView sections (LED, slow control, HV adjustment).
 */
module LdaStream {
  import opened Sequences
  import opened AsicPacket

  /** A packet cut out of the stream, header included. */
  datatype Frame =
    | AsicFrame(bytes: seq<Byte>)
    | TimestampFrame(bytes: seq<Byte>)
    | TemperatureFrame(bytes: seq<Byte>)

  /** What the front of the buffer asks for. `Foreign` is a section this model does not contain,
      or a timestamp or temperature packet whose length is not 16. */
  datatype Outcome = NeedMore | Foreign | Drop(n: nat) | Take(frame: Frame)

  predicate StartsWith(buf: seq<Byte>, at: nat, magic: seq<Byte>) {
    at + |magic| <= |buf| && buf[at..at + |magic|] == magic
  }

  predicate LabViewMagic(a: Byte, b: Byte) {
    (a == 0xDA && b == 0xC1) || (a == 0xAC && b == 0xDC) || (a == 0xBA && b == 0xD1)
  }

  const TEMP_MAGIC: seq<Byte> := [0x41, 0x43, 0x7A, 0x00]
  const TS_MAGIC: seq<Byte> := [0x45, 0x4D, 0x49, 0x54]
  const CONFIG_MAGIC: seq<Byte> := [0x02, 0x83, 0x00, 0x80]

  /** The decision on a complete packet `p`. */
  function Classify(p: seq<Byte>, length: nat): (o: Outcome)
    requires |p| == HEADER_SIZE + length && length >= 4
    ensures o.Take? ==> o.frame.bytes == p
    ensures o.Drop? ==> o.n == 1 || o.n == |p|
    ensures !o.NeedMore?
  {
    var status := p[9];
    if status == 0xA0 && StartsWith(p, 10, TEMP_MAGIC) then
      if length == 16 then Take(TemperatureFrame(p)) else Foreign
    else if status == 0x08 && StartsWith(p, 10, TS_MAGIC) then
      if length == 16 then Take(TimestampFrame(p)) else Foreign
    else if length == 8 && status == 0x10 && StartsWith(p, 10, CONFIG_MAGIC) then Drop(|p|)
    else if (status / 0x40) % 2 == 0 then Drop(|p|)  // not readout data, includes END-OF-READOUT
    else if StartsWith(p, 10, ASIC_MAGIC) then Take(AsicFrame(p))
    else Drop(1)
  }

  /** One look at the buffer. A packet with fewer than four payload bytes would be classified by
      bytes of the next one; the model leaves it to `Foreign`. */
  function Next(buf: seq<Byte>): (o: Outcome)
    ensures o.Take? ==> 0 < |o.frame.bytes| <= |buf| && o.frame.bytes == buf[..|o.frame.bytes|]
    ensures o.Drop? ==> 0 < o.n <= |buf|
  {
    if |buf| < 8 then NeedMore
    else if LabViewMagic(buf[0], buf[1]) then Foreign
    else if !(buf[0] == 0xCD && buf[1] == 0xCD) then Drop(1)
    else if |buf| < 14 then NeedMore
    else
      var length := Le16(buf, 2);
      if |buf| < HEADER_SIZE + length then NeedMore
      else if length < 4 then Foreign
      else Classify(buf[..HEADER_SIZE + length], length)
  }

  /** Frames found, bytes left over, and whether the search met something foreign. */
  datatype Scanned = Scanned(frames: seq<Frame>, rest: seq<Byte>, foreign: bool)

  function Scan(buf: seq<Byte>): Scanned
    decreases |buf|
  {
    match Next(buf)
    case NeedMore => Scanned([], buf, false)
    case Foreign => Scanned([], buf, true)
    case Drop(n) => Scan(buf[n..])
    case Take(f) =>
      var s := Scan(buf[|f.bytes|..]);
      s.(frames := [f] + s.frames)
  }

  // ---------- Chunking ----------

  lemma Le16Prefix(a: seq<Byte>, b: seq<Byte>)
    requires |a| >= 4
    ensures Le16(a + b, 2) == Le16(a, 2)
  {
  }

  /** A decision once taken does not depend on the bytes that follow. */
  lemma NextStable(a: seq<Byte>, b: seq<Byte>)
    requires !Next(a).NeedMore?
    ensures Next(a + b) == Next(a)
  {
    if |a| >= 14 {
      Le16Prefix(a, b);
      var n := HEADER_SIZE + Le16(a, 2);
      if n <= |a| {
        assert (a + b)[..n] == a[..n];
      }
    }
  }

  /** Scanning in two portions is scanning at once. */
  lemma {:induction false} ScanSplit(a: seq<Byte>, b: seq<Byte>)
    ensures var s := Scan(a); var whole := Scan(a + b);
      if s.foreign then whole == Scanned(s.frames, s.rest + b, true)
      else var t := Scan(s.rest + b); whole == Scanned(s.frames + t.frames, t.rest, t.foreign)
    decreases |a|
  {
    match Next(a)
    case NeedMore =>
      var t := Scan(a + b);
      assert [] + t.frames == t.frames;
    case Foreign =>
      NextStable(a, b);
    case Drop(n) =>
      NextStable(a, b);
      assert (a + b)[n..] == a[n..] + b;
      ScanSplit(a[n..], b);
    case Take(f) =>
      NextStable(a, b);
      var n := |f.bytes|;
      assert (a + b)[n..] == a[n..] + b;
      ScanSplit(a[n..], b);
      Regroup([f], Scan(a[n..]).frames, Scan(Scan(a[n..]).rest + b).frames);
  }

  /** The bytes arrive in chunks; each scan continues with what the last one left over. */
  function ScanChunks(rest: seq<Byte>, chunks: seq<seq<Byte>>): (frames: seq<seq<Frame>>)
    ensures |frames| == |chunks|
    decreases |chunks|
  {
    if chunks == [] then []
    else
      var s := Scan(rest + chunks[0]);
      [s.frames] + ScanChunks(s.rest, chunks[1..])
  }

  /** However the stream is cut, the same frames come out in the same order, up to the first section
      of another kind if there is one. */
  lemma {:induction false} ChunkingIrrelevant(rest: seq<Byte>, chunks: seq<seq<Byte>>)
    requires Scan(rest).frames == [] && Scan(rest).rest == rest
    ensures Concat(ScanChunks(rest, chunks)) == Scan(rest + Concat(chunks)).frames
    decreases |chunks|
  {
    if chunks == [] {
      assert rest + Concat(chunks) == rest;
    } else {
      var more := Concat(chunks[1..]);
      assert rest + Concat(chunks) == (rest + chunks[0]) + more;
      ScanSplit(rest + chunks[0], more);
      var s := Scan(rest + chunks[0]);
      LeftoverNeedsMore(rest + chunks[0]);
      ChunkingIrrelevant(s.rest, chunks[1..]);
      assert ScanChunks(rest, chunks)[1..] == ScanChunks(s.rest, chunks[1..]);
      if s.foreign {
        ScanSplit(s.rest, more);
        assert s.frames + [] == s.frames;
      }
    }
  }

  /** A search that goes on from what was left over finds nothing more in it. */
  lemma {:induction false} LeftoverNeedsMore(buf: seq<Byte>)
    ensures Scan(Scan(buf).rest) == Scanned([], Scan(buf).rest, Scan(buf).foreign)
    decreases |buf|
  {
    match Next(buf)
    case NeedMore =>
    case Foreign =>
    case Drop(n) => LeftoverNeedsMore(buf[n..]);
    case Take(f) => LeftoverNeedsMore(buf[|f.bytes|..]);
  }

  // ---------- Well-formed packets ----------

  /** A complete packet that the search recognises as a whole. */
  predicate Whole(p: seq<Byte>) {
    && |p| >= 14 && p[0] == 0xCD && p[1] == 0xCD && |p| == HEADER_SIZE + Le16(p, 2)
    && (Classify(p, Le16(p, 2)).Take? || Classify(p, Le16(p, 2)) == Drop(|p|))
  }

  function FrameOf(p: seq<Byte>): seq<Frame>
    requires Whole(p)
  {
    match Classify(p, Le16(p, 2))
    case Take(f) => [f]
    case _ => []
  }

  predicate AllWhole(packets: seq<seq<Byte>>) {
    forall i :: 0 <= i < |packets| ==> Whole(packets[i])
  }

  function FramesOf(packets: seq<seq<Byte>>): seq<Frame>
    requires AllWhole(packets)
  {
    if packets == [] then [] else FrameOf(packets[0]) + FramesOf(packets[1..])
  }

  /** A stream of whole packets is cut at the packet boundaries and leaves nothing over. */
  lemma {:induction false} ScanPackets(packets: seq<seq<Byte>>)
    requires AllWhole(packets)
    ensures Scan(Concat(packets)) == Scanned(FramesOf(packets), [], false)
    decreases |packets|
  {
    if packets != [] {
      var p, more := packets[0], Concat(packets[1..]);
      assert Whole(p);
      var buf := p + more;
      Le16Prefix(p, more);
      assert buf[..|p|] == p && buf[|p|..] == more;
      ScanPackets(packets[1..]);
      if Classify(p, Le16(p, 2)) == Drop(|p|) {
        assert [] + FramesOf(packets[1..]) == FramesOf(packets[1..]);
      }
    }
  }

  /** Packets as the front ends send them are whole. */
  lemma PacketWhole(src: Source, cells: seq<Cell>, ids: seq<bv16>)
    requires ValidCells(cells) && |cells| == |ids| && PayloadLength(|cells|) < 0x1_0000
    ensures var p := Packet(src, cells, ids);
            Whole(p) && FrameOf(p) == [AsicFrame(p)] && p[4] == src.cycle
  {
    var head, n := Head(src, |cells|), |cells|;
    var sent := SentWords(ids);
    var p := Packet(src, cells, ids);
    EncodeLayout(head, cells, sent, Tail(src));
    PrefixOf(p, head, n, src);
  }

  lemma PrefixOf(p: seq<Byte>, head: seq<Byte>, n: nat, src: Source)
    requires GoodHead(head, src.cycle, src.dif, n) && |head| <= |p| && p[..|head|] == head
    requires |p| == HEADER_SIZE + PayloadLength(n) && PayloadLength(n) < 0x1_0000
    ensures Whole(p) && FrameOf(p) == [AsicFrame(p)] && p[4] == src.cycle
  {
    assert forall i :: 0 <= i < 18 ==> p[i] == p[..|head|][i];
    assert Le16(p, 2) == PayloadLength(n);
    assert p[10..14] == head[10..14];
    assert p[10] == 0x41 && p[11] == 0x43 && p[12] == 0x48 && p[13] == 0x41 by {
      assert p[10..14][0] == p[10] && p[10..14][1] == p[11] && p[10..14][2] == p[12] && p[10..14][3] == p[13];
    }
    assert StartsWith(p, 10, ASIC_MAGIC);
    assert !StartsWith(p, 10, TEMP_MAGIC) && !StartsWith(p, 10, TS_MAGIC) && !StartsWith(p, 10, CONFIG_MAGIC);
  }
}
