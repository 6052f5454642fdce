/**
 The statistics and the trigger numbers over a whole run of reads, in every building mode: they are
 those of the time stamp packets in the stream.
 */
module TimesReading {
  import opened Sequences
  import opened GrayCode
  import opened AsicPacket
  import opened LdaStream
  import opened LdaTimestamps
  import opened EventBuilding
  import opened ScReading
  import opened StampPackets
  import opened RocReading

  /** The time stamp packets among the frames. */
  function StampsIn(fs: seq<Frame>): seq<TsPacket>
    requires GoodFrames(fs)
  {
    if fs == [] then []
    else
      assert GoodFrame(fs[0]);
      (if fs[0].TimestampFrame? then [TsPacketOf(fs[0].bytes)] else []) + StampsIn(fs[1..])
  }

  lemma {:induction false} StampsConcat(a: seq<Frame>, b: seq<Frame>)
    requires GoodFrames(a) && GoodFrames(b)
    ensures GoodFrames(a + b) && StampsIn(a + b) == StampsIn(a) + StampsIn(b)
  {
    if a == [] {
      assert a + b == b;
    } else {
      assert (a + b)[1..] == a[1..] + b;
      StampsConcat(a[1..], b);
    }
  }

  lemma {:induction false} StampsValid(fs: seq<Frame>)
    requires GoodFrames(fs)
    ensures LdaTimestamps.AllValid(StampsIn(fs))
  {
    if fs != [] {
      StampsValid(fs[1..]);
    }
  }

  lemma {:induction false} ApplyTimes(cfg: ReaderConfig, recode: Recoding, st: ScState, fs: seq<Frame>)
    requires GoodFrames(fs)
    ensures ApplyAll(cfg, recode, st, fs).ts == Run(cfg.ts, st.ts, StampsIn(fs))
    decreases |fs|
  {
    if fs != [] {
      assert GoodFrame(fs[0]);
      ApplyTimes(cfg, recode, Apply(cfg, recode, st, fs[0]), fs[1..]);
      var rest := StampsIn(fs[1..]);
      if fs[0].TimestampFrame? {
        assert ([TsPacketOf(fs[0].bytes)] + rest)[1..] == rest;
      } else {
        assert [] + rest == rest;
      }
    }
  }

  lemma {:induction false} RunBare(cfg: TsConfig, st: TsState, st': TsState, ps: seq<TsPacket>)
    requires Bare(st) == Bare(st')
    ensures Bare(Run(cfg, st, ps)) == Bare(Run(cfg, st', ps))
    decreases |ps|
  {
    if ps != [] {
      StepBare(cfg, st, ps[0], st');
      RunBare(cfg, Step(cfg, st, ps[0]), Step(cfg, st', ps[0]), ps[1..]);
    }
  }

  lemma {:induction false} RunConcat(cfg: TsConfig, st: TsState, a: seq<TsPacket>, b: seq<TsPacket>)
    ensures Run(cfg, st, a + b) == Run(cfg, Run(cfg, st, a), b)
    decreases |a|
  {
    if a == [] {
      assert a + b == b;
    } else {
      assert (a + b)[1..] == a[1..] + b;
      RunConcat(cfg, Step(cfg, st, a[0]), a[1..], b);
    }
  }

  /** A read, whatever it builds. */
  lemma ReadTimes(cfg: ReaderConfig, recode: Recoding, st: ScState, buf: seq<Byte>)
    requires cfg.Valid() && st.Valid()
    ensures GoodFrames(Scan(buf).frames)
    ensures Bare(ReadOnce(cfg, recode, st, buf).ts) == Bare(Run(cfg.ts, st.ts, StampsIn(Scan(buf).frames)))
  {
    ScannedGood(buf);
    ApplyAllValid(cfg, recode, st, Scan(buf).frames);
    ApplyTimes(cfg, recode, st, Scan(buf).frames);
  }

  lemma {:induction false} ReadsTimes(cfg: ReaderConfig, recode: Recoding, st: ScState, rest: seq<Byte>, chunks: seq<seq<Byte>>)
    requires cfg.Valid() && st.Valid()
    ensures GoodFrames(Concat(ScanChunks(rest, chunks)))
    ensures Bare(ReadRun(cfg, recode, st, rest, chunks).ts) == Bare(Run(cfg.ts, st.ts, StampsIn(Concat(ScanChunks(rest, chunks)))))
    decreases |chunks|
  {
    if chunks != [] {
      var buf := rest + chunks[0];
      var s, next := Scan(buf), ReadOnce(cfg, recode, st, buf);
      ReadTimes(cfg, recode, st, buf);
      ReadValid(cfg, recode, st, buf);
      ReadsTimes(cfg, recode, next, s.rest, chunks[1..]);
      var more := Concat(ScanChunks(s.rest, chunks[1..]));
      assert ScanChunks(rest, chunks)[1..] == ScanChunks(s.rest, chunks[1..]);
      StampsConcat(s.frames, more);
      RunConcat(cfg.ts, st.ts, StampsIn(s.frames), StampsIn(more));
      RunBare(cfg.ts, next.ts, Run(cfg.ts, st.ts, StampsIn(s.frames)), StampsIn(more));
    }
  }

  /** Statistics, trigger number and acquisition state after a whole run of reads are those of the time
      stamp packets in the uncut stream, in every building mode. */
  lemma TimesOfReads(cfg: ReaderConfig, recode: Recoding, chunks: seq<seq<Byte>>)
    requires cfg.Valid()
    ensures GoodFrames(Scan(Concat(chunks)).frames)
    ensures Bare(ReadRun(cfg, recode, Start(cfg), [], chunks).ts)
         == Bare(Run(cfg.ts, Initial(cfg.ts), StampsIn(Scan(Concat(chunks)).frames)))
  {
    assert Scan([]) == Scanned([], [], false);
    assert [] + Concat(chunks) == Concat(chunks);
    ScannedGood(Concat(chunks));
    ChunkingIrrelevant([], chunks);
    ReadsTimes(cfg, recode, Start(cfg), [], chunks);
  }

  /** The times and triggers add up, and the trigger number counts what was accepted and lost. */
  ghost predicate Balanced(cfg: TsConfig, ps: seq<TsPacket>, st: TsState) {
    var acc := AcceptedIds(cfg, Initial(cfg), ps);
    && (Fit(Edges(cfg, Initial(cfg), ps, 0)) ==> Accounted(st.stats, st.insideAcq))
    && (acc != [] ==>
          st.trigId == (acc[0] - 1 + |acc| + st.stats.lost) % U32_SIZE && st.trigId % U16_SIZE == acc[|acc| - 1])
  }

  lemma StampsBalanced(cfg: TsConfig, ps: seq<TsPacket>)
    requires LdaTimestamps.AllValid(ps)
    ensures Balanced(cfg, ps, Run(cfg, Initial(cfg), ps))
  {
    TriggerIdExtension(cfg, ps);
    if Fit(Edges(cfg, Initial(cfg), ps, 0)) {
      AccountedExactly(cfg, ps);
      assert ps[..|ps|] == ps;
    }
  }

  lemma BareBalanced(cfg: TsConfig, ps: seq<TsPacket>, st: TsState, st': TsState)
    requires Balanced(cfg, ps, st) && Bare(st) == Bare(st')
    ensures Balanced(cfg, ps, st')
  {
    assert st' == st.(data := st'.data);
  }

  /** So the times and triggers of a run of reads add up if those of the effective starts and stops in
      the stream fit, and the trigger number is the first raw number minus one plus everything accepted
      and everything lost. */
  lemma ReadsAccounted(cfg: ReaderConfig, recode: Recoding, chunks: seq<seq<Byte>>)
    requires cfg.Valid()
    ensures GoodFrames(Scan(Concat(chunks)).frames)
    ensures Balanced(cfg.ts, StampsIn(Scan(Concat(chunks)).frames), ReadRun(cfg, recode, Start(cfg), [], chunks).ts)
  {
    ScannedGood(Concat(chunks));
    var ps := StampsIn(Scan(Concat(chunks)).frames);
    StampsValid(Scan(Concat(chunks)).frames);
    TimesOfReads(cfg, recode, chunks);
    StampsBalanced(cfg.ts, ps);
    BareBalanced(cfg.ts, ps, Run(cfg.ts, Initial(cfg.ts), ps), ReadRun(cfg, recode, Start(cfg), [], chunks).ts);
  }

  // ---------- From the packets sent ----------

  /** The time stamps sent. */
  function SentStamps(sents: seq<Sent>): seq<TsPacket> {
    if sents == [] then [] else (if sents[0].StampSent? then [sents[0].stamp] else []) + SentStamps(sents[1..])
  }

  lemma StampsOfOne(cfg: ReaderConfig, s: Sent)
    requires ValidSent(cfg, s)
    ensures Whole(PacketOf(cfg, s)) && GoodFrames(FrameOf(PacketOf(cfg, s)))
    ensures StampsIn(FrameOf(PacketOf(cfg, s))) == if s.StampSent? then [s.stamp] else []
  {
    var fs := (match s
      case AsicSent(_, src, cells, ids) =>
        PacketWhole(src, cells, ids);
        FrameOf(PacketOf(cfg, s))
      case StampSent(p, other) =>
        StampReadBack(p, other);
        FrameOf(PacketOf(cfg, s))
      case OtherSent(p) =>
        OtherFrame(p);
        FrameOf(PacketOf(cfg, s)));
    if fs != [] {
      assert fs[1..] == [] && StampsIn([]) == [];
      assert s.OtherSent? ==> fs[0] in FrameOf(s.bytes);
    }
  }

  /** The frames of the packets hold the time stamps sent, each with its type, cycle, number and time. */
  lemma {:induction false} FramesStamp(cfg: ReaderConfig, sents: seq<Sent>)
    requires RocReading.AllValid(cfg, sents) && AllWhole(Packets(cfg, sents))
    ensures GoodFrames(FramesOf(Packets(cfg, sents)))
    ensures StampsIn(FramesOf(Packets(cfg, sents))) == SentStamps(sents)
    decreases |sents|
  {
    if sents != [] {
      var ps := Packets(cfg, sents);
      assert ps[1..] == Packets(cfg, sents[1..]) && ps[0] == PacketOf(cfg, sents[0]) && ValidSent(cfg, sents[0]);
      StampsOfOne(cfg, sents[0]);
      FramesStamp(cfg, sents[1..]);
      StampsConcat(FrameOf(ps[0]), FramesOf(ps[1..]));
    }
  }

  /** Reading the packets sent, however their bytes are cut, leaves statistics, trigger number and
      acquisition state as the time stamps sent make them. */
  lemma TimesOfSent(cfg: ReaderConfig, recode: Recoding, sents: seq<Sent>, chunks: seq<seq<Byte>>)
    requires cfg.Valid() && RocReading.AllValid(cfg, sents) && Concat(chunks) == Bytes(cfg, sents)
    ensures Bare(ReadRun(cfg, recode, Start(cfg), [], chunks).ts) == Bare(Run(cfg.ts, Initial(cfg.ts), SentStamps(sents)))
    ensures Balanced(cfg.ts, SentStamps(sents), ReadRun(cfg, recode, Start(cfg), [], chunks).ts)
  {
    SentWhole(cfg, sents);
    ScanPackets(Packets(cfg, sents));
    FramesStamp(cfg, sents);
    TimesOfReads(cfg, recode, chunks);
    ReadsAccounted(cfg, recode, chunks);
  }
}
