/**
 What the frames of a run bring to the readout cycles, read by read and over the uncut stream.
 */
module ReadArrivals {
  import opened Sequences
  import opened OrderedMap
  import opened GrayCode
  import opened AsicPacket
  import opened LdaStream
  import opened LdaTimestamps
  import opened EventBuilding
  import opened ScReading
  import opened RocReading
  import opened ValidatedVisits
  import opened ValidatedRuns

  /** What the assignment of frames to cycles depends on. */
  datatype Clock = Clock(cycle: int, ts: TsState)

  function FullCrossing(recode: Recoding, pkt: seq<Byte>): Option<int> {
    if ProperLength(pkt) && CellCount(pkt) >= 16 then
      Some(recode(SentAt(pkt, CellCount(pkt), CellCount(pkt) - 16)))
    else None
  }

  function Tick(cfg: ReaderConfig, clock: Clock, f: Frame): Clock
    requires GoodFrame(f)
  {
    match f
    case AsicFrame(b) => clock.(cycle := NextCycle(clock.cycle, b[4], cfg.maxRocJump))
    case TimestampFrame(b) => clock.(ts := Bare(Step(cfg.ts, clock.ts, TsPacketOf(b))))
    case TemperatureFrame(_) => clock
  }

  function Brings(cfg: ReaderConfig, recode: Recoding, clock: Clock, f: Frame): seq<Arr>
    requires GoodFrame(f)
  {
    match f
    case AsicFrame(b) =>
      var c := NextCycle(clock.cycle, b[4], cfg.maxRocJump);
      [Blocks(c, BlocksOf(cfg, recode, c, b), FullCrossing(recode, b))]
    case TimestampFrame(b) =>
      var p := TsPacketOf(b);
      if IsTimed(p.kind) then [TimeInfo(CycleOf(clock.ts, p), EffectOf(cfg.ts, clock.ts, p))] else []
    case TemperatureFrame(_) => []
  }

  function ArrivalsOf(cfg: ReaderConfig, recode: Recoding, clock: Clock, fs: seq<Frame>): seq<Arr>
    requires GoodFrames(fs)
    decreases |fs|
  {
    if fs == [] then [] else Brings(cfg, recode, clock, fs[0]) + ArrivalsOf(cfg, recode, Tick(cfg, clock, fs[0]), fs[1..])
  }

  function TickAll(cfg: ReaderConfig, clock: Clock, fs: seq<Frame>): Clock
    requires GoodFrames(fs)
    decreases |fs|
  {
    if fs == [] then clock else TickAll(cfg, Tick(cfg, clock, fs[0]), fs[1..])
  }

  lemma {:induction false} ArrivalsSplit(cfg: ReaderConfig, recode: Recoding, clock: Clock, a: seq<Frame>, b: seq<Frame>)
    requires GoodFrames(a) && GoodFrames(b)
    ensures GoodFrames(a + b)
    ensures ArrivalsOf(cfg, recode, clock, a + b)
         == ArrivalsOf(cfg, recode, clock, a) + ArrivalsOf(cfg, recode, TickAll(cfg, clock, a), b)
    ensures TickAll(cfg, clock, a + b) == TickAll(cfg, TickAll(cfg, clock, a), b)
    decreases |a|
  {
    if a == [] {
      assert a + b == b;
      assert [] + ArrivalsOf(cfg, recode, clock, b) == ArrivalsOf(cfg, recode, clock, b);
    } else {
      assert (a + b)[1..] == a[1..] + b;
      var next := Tick(cfg, clock, a[0]);
      ArrivalsSplit(cfg, recode, next, a[1..], b);
      Regroup(Brings(cfg, recode, clock, a[0]), ArrivalsOf(cfg, recode, next, a[1..]),
              ArrivalsOf(cfg, recode, TickAll(cfg, next, a[1..]), b));
    }
  }

  function BufOf(st: ScState): Buf {
    Buf(st.asic, st.ts.data, st.minLast)
  }

  function ClockOf(st: ScState): Clock {
    Clock(st.cycleNo, Bare(st.ts))
  }

  lemma ApplyFilesOne(cfg: ReaderConfig, recode: Recoding, st: ScState, f: Frame)
    requires GoodFrame(f)
    ensures var r := Apply(cfg, recode, st, f);
      && BufOf(r) == FileAll(BufOf(st), Brings(cfg, recode, ClockOf(st), f))
      && ClockOf(r) == Tick(cfg, ClockOf(st), f) && r.events == st.events && r.last == st.last
  {
    var arrs := Brings(cfg, recode, ClockOf(st), f);
    if arrs != [] {
      assert arrs == [arrs[0]];
      OneFiled(BufOf(st), arrs[0]);
    }
    match f
    case AsicFrame(b) =>
    case TimestampFrame(b) =>
      StepData(cfg.ts, st.ts, TsPacketOf(b));
      StepBare(cfg.ts, st.ts, TsPacketOf(b), Bare(st.ts));
    case TemperatureFrame(_) =>
  }

  /** Applying frames files what they bring. */
  lemma {:induction false} ApplyFilesAll(cfg: ReaderConfig, recode: Recoding, st: ScState, fs: seq<Frame>)
    requires GoodFrames(fs)
    ensures var r := ApplyAll(cfg, recode, st, fs);
      && BufOf(r) == FileAll(BufOf(st), ArrivalsOf(cfg, recode, ClockOf(st), fs))
      && ClockOf(r) == TickAll(cfg, ClockOf(st), fs) && r.events == st.events && r.last == st.last
    decreases |fs|
  {
    if fs != [] {
      var st1 := Apply(cfg, recode, st, fs[0]);
      ApplyFilesOne(cfg, recode, st, fs[0]);
      ApplyFilesAll(cfg, recode, st1, fs[1..]);
      FileAllConcat(BufOf(st), Brings(cfg, recode, ClockOf(st), fs[0]), ArrivalsOf(cfg, recode, ClockOf(st1), fs[1..]));
    }
  }

  /** What each read brings. */
  function ReadBatches(cfg: ReaderConfig, recode: Recoding, clock: Clock, rest: seq<Byte>, chunks: seq<seq<Byte>>): seq<seq<Arr>>
    decreases |chunks|
  {
    if chunks == [] then []
    else
      var s := Scan(rest + chunks[0]);
      ScannedGood(rest + chunks[0]);
      [ArrivalsOf(cfg, recode, clock, s.frames)] + ReadBatches(cfg, recode, TickAll(cfg, clock, s.frames), s.rest, chunks[1..])
  }

  /** However the bytes are cut, the reads together bring what the uncut stream brings. */
  lemma {:induction false} ReadBatchesConcat(
      cfg: ReaderConfig, recode: Recoding, clock: Clock, rest: seq<Byte>, chunks: seq<seq<Byte>>)
    requires Scan(rest) == Scanned([], rest, false) && !Scan(rest + Concat(chunks)).foreign
    ensures GoodFrames(Scan(rest + Concat(chunks)).frames)
    ensures Concat(ReadBatches(cfg, recode, clock, rest, chunks))
         == ArrivalsOf(cfg, recode, clock, Scan(rest + Concat(chunks)).frames)
    decreases |chunks|
  {
    ScannedGood(rest + Concat(chunks));
    if chunks == [] {
      assert rest + Concat(chunks) == rest;
    } else {
      var buf, more := rest + chunks[0], Concat(chunks[1..]);
      assert rest + Concat(chunks) == buf + more;
      var s := Scan(buf);
      ScannedGood(buf);
      ScanSplit(buf, more);
      LeftoverNeedsMore(buf);
      ReadBatchesConcat(cfg, recode, TickAll(cfg, clock, s.frames), s.rest, chunks[1..]);
      ArrivalsSplit(cfg, recode, clock, s.frames, Scan(s.rest + more).frames);
      var bs := ReadBatches(cfg, recode, clock, rest, chunks);
      assert bs[1..] == ReadBatches(cfg, recode, TickAll(cfg, clock, s.frames), s.rest, chunks[1..]);
    }
  }
}
