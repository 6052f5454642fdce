/**
 End to end in ROC mode: from the bytes that the front ends send, cut in any way into reads, to
 the events.
 */
module RocReading {
  import opened Sequences
  import opened OrderedMap
  import opened GrayCode
  import opened AsicPacket
  import opened LdaStream
  import opened LdaTimestamps
  import opened EventBuilding
  import opened ScReading
  import opened StampPackets
  import ValidatedBuilding
  import BxidBuilding
  import Counters

  // ---------- Runs of reads ----------

  lemma {:induction false} RocKeepsPaired(cfg: BuildConfig, asic: seq<Item>, ts: seq<Entry<TimeData>>, last: int, keep: nat)
    requires AllPaired(ts) && Ordered(ts)
    ensures AllPaired(BuildRoc(cfg, asic, ts, last, keep).ts) && Ordered(BuildRoc(cfg, asic, ts, last, keep).ts)
    decreases |asic|
  {
    if |asic| > keep {
      ErasePaired(ts, asic[0].key);
      EraseMeaning(ts, asic[0].key);
      RocKeepsPaired(cfg, asic[1..], TsAfter(cfg, asic[0].key, ts), LastAfter(cfg, last, asic[0].key), keep);
    }
  }

  lemma {:induction false} TrigKeepsPaired(cfg: BuildConfig, asic: seq<Item>, ts: seq<Entry<TimeData>>, last: int, keep: nat)
    requires AllPaired(ts) && Ordered(ts) && Ordered(asic)
    ensures var b := BuildTrig(cfg, asic, ts, last, keep); AllPaired(b.ts) && Ordered(b.ts) && Ordered(b.asic)
    decreases |asic|
  {
    if |asic| > keep {
      var roc := asic[0].key;
      if !Has(ts, roc) {
        TrigKeepsPaired(cfg, asic[1..], ts, last, keep);
      } else {
        GetPaired(ts, roc);
        ErasePaired(ts, roc);
        EraseMeaning(ts, roc);
        var head := TriggerEvents(cfg, roc, Get(ts, roc, NO_TIME_DATA), asic[0].value, 0, last);
        TrigKeepsPaired(cfg, asic[1..], Erase(ts, roc), head.last, keep);
      }
    }
  }

  lemma {:induction false} ValidatedKeepsPaired(cfg: BuildConfig, asic: seq<Item>, ts: seq<Entry<TimeData>>,
                                                minLast: seq<Entry<int>>, last: int, keep: nat)
    requires cfg.bxidWidth != 0 && AllPaired(ts) && Ordered(ts) && Ordered(asic)
    ensures var b := ValidatedBuilding.Build(cfg, asic, ts, minLast, last, keep);
            AllPaired(b.ts) && Ordered(b.ts) && Ordered(b.asic)
    decreases |asic| + |ts|
  {
    if |asic| <= keep {
    } else if ts == [] || asic[0].key < ts[0].key {
      ValidatedKeepsPaired(cfg, asic[1..], ts, minLast, last, keep);
    } else {
      var roc := ts[0].key;
      var same := asic[0].key == roc;
      var os := ValidatedBuilding.CycleOutcomes(cfg, if same then asic[0].value else [], ts[0].value,
                                                ValidatedBuilding.FullOf(minLast, roc));
      var v := ValidatedBuilding.EventsFor(cfg, roc, os, last);
      var left := if same then [Entry(roc, [])] + asic[1..] else asic;
      assert Ordered(left);
      ValidatedKeepsPaired(cfg, left, ts[1..], minLast, v.last, keep);
    }
  }

  lemma {:induction false} AllKeepsPaired(cfg: BuildConfig, asic: seq<Item>, ts: seq<Entry<TimeData>>,
                                          minLast: seq<Entry<int>>, last: int, keep: nat)
    requires AllPaired(ts) && Ordered(ts)
    ensures var b := BxidBuilding.BuildAll(cfg, asic, ts, minLast, last, keep); AllPaired(b.ts) && Ordered(b.ts)
    decreases |asic|
  {
    if |asic| > keep {
      ErasePaired(ts, asic[0].key);
      EraseMeaning(ts, asic[0].key);
      var es := BxidBuilding.CycleEventsAll(cfg, asic[0], ts, minLast);
      AllKeepsPaired(cfg, asic[1..], Erase(ts, asic[0].key), minLast, last + |es|, keep);
    }
  }

  lemma OrderedSuffix<T>(m: seq<Entry<T>>, n: nat)
    requires Ordered(m) && n <= |m|
    ensures Ordered(m[n..])
  {
    assert m[..n] + m[n..] == m;
    OrderedParts(m[..n], m[n..]);
  }

  lemma BuildValid(cfg: ReaderConfig, st: ScState, dumpAll: bool)
    requires cfg.Valid() && st.Valid()
    ensures Build(cfg, st, dumpAll).Valid()
  {
    var keep := Keep(cfg.build, dumpAll);
    match cfg.mode
    case RocMode =>
      RocKeepsPaired(cfg.build, st.asic, st.ts.data, st.last, keep);
      BuildRocMeaning(cfg.build, st.asic, st.ts.data, st.last, keep);
      OrderedSuffix(st.asic, Excess(st.asic, keep));
    case TrigidMode => TrigKeepsPaired(cfg.build, st.asic, st.ts.data, st.last, keep);
    case ValidatedMode => ValidatedKeepsPaired(cfg.build, st.asic, st.ts.data, st.minLast, st.last, keep);
    case BxidMode =>
      AllKeepsPaired(cfg.build, st.asic, st.ts.data, st.minLast, st.last, keep);
      BxidBuilding.AllPass(cfg.build, st.asic, st.ts.data, st.minLast, st.last, keep);
      OrderedSuffix(st.asic, Excess(st.asic, keep));
  }

  lemma ReadValid(cfg: ReaderConfig, recode: Recoding, st: ScState, buf: seq<Byte>)
    requires cfg.Valid() && st.Valid()
    ensures ReadOnce(cfg, recode, st, buf).Valid()
  {
    ScannedGood(buf);
    ApplyAllValid(cfg, recode, st, Scan(buf).frames);
    BuildValid(cfg, ApplyAll(cfg, recode, st, Scan(buf).frames), false);
  }

  /** The bytes arrive in chunks, each followed by a `Read`; at the end everything is dumped. */
  function ReadRun(cfg: ReaderConfig, recode: Recoding, st: ScState, rest: seq<Byte>, chunks: seq<seq<Byte>>): ScState
    requires cfg.Valid() && st.Valid()
    decreases |chunks|
  {
    if chunks == [] then Build(cfg, st, true)
    else
      var buf := rest + chunks[0];
      ReadValid(cfg, recode, st, buf);
      ReadRun(cfg, recode, ReadOnce(cfg, recode, st, buf), Scan(buf).rest, chunks[1..])
  }

  // ---------- Items ----------

  /** Cycle and blocks that each ASIC frame contributes. */
  function ItemsOf(cfg: ReaderConfig, recode: Recoding, cycle: int, fs: seq<Frame>): seq<Item>
    requires GoodFrames(fs)
    decreases |fs|
  {
    if fs == [] then []
    else match fs[0]
      case AsicFrame(b) =>
        var c := NextCycle(cycle, b[4], cfg.maxRocJump);
        [Entry(c, BlocksOf(cfg, recode, c, b))] + ItemsOf(cfg, recode, c, fs[1..])
      case _ => ItemsOf(cfg, recode, cycle, fs[1..])
  }

  function CycleAfter(cfg: ReaderConfig, cycle: int, fs: seq<Frame>): int
    requires GoodFrames(fs)
    decreases |fs|
  {
    if fs == [] then cycle
    else match fs[0]
      case AsicFrame(b) => CycleAfter(cfg, NextCycle(cycle, b[4], cfg.maxRocJump), fs[1..])
      case _ => CycleAfter(cfg, cycle, fs[1..])
  }

  /** Applying frames files their items and touches neither the events nor their numbering. */
  lemma {:induction false} ApplyFiles(cfg: ReaderConfig, recode: Recoding, st: ScState, fs: seq<Frame>)
    requires GoodFrames(fs)
    ensures var r := ApplyAll(cfg, recode, st, fs);
      && r.asic == AppendAll(st.asic, ItemsOf(cfg, recode, st.cycleNo, fs))
      && r.cycleNo == CycleAfter(cfg, st.cycleNo, fs)
      && r.events == st.events && r.last == st.last
    decreases |fs|
  {
    if fs != [] {
      var st1 := Apply(cfg, recode, st, fs[0]);
      ApplyFiles(cfg, recode, st1, fs[1..]);
      match fs[0]
      case AsicFrame(b) =>
        var c := NextCycle(st.cycleNo, b[4], cfg.maxRocJump);
        var x := Entry(c, BlocksOf(cfg, recode, c, b));
        assert ([x] + ItemsOf(cfg, recode, c, fs[1..]))[1..] == ItemsOf(cfg, recode, c, fs[1..]);
      case TimestampFrame(_) =>
      case TemperatureFrame(_) =>
    }
  }

  lemma {:induction false} ItemsSplit(cfg: ReaderConfig, recode: Recoding, cycle: int, a: seq<Frame>, b: seq<Frame>)
    requires GoodFrames(a) && GoodFrames(b)
    ensures GoodFrames(a + b)
    ensures ItemsOf(cfg, recode, cycle, a + b)
         == ItemsOf(cfg, recode, cycle, a) + ItemsOf(cfg, recode, CycleAfter(cfg, cycle, a), b)
    ensures CycleAfter(cfg, cycle, a + b) == CycleAfter(cfg, CycleAfter(cfg, cycle, a), b)
    decreases |a|
  {
    if a == [] {
      assert a + b == b;
    } else {
      assert (a + b)[1..] == a[1..] + b;
      match a[0]
      case AsicFrame(p) => ItemsSplit(cfg, recode, NextCycle(cycle, p[4], cfg.maxRocJump), a[1..], b);
      case TimestampFrame(_) => ItemsSplit(cfg, recode, cycle, a[1..], b);
      case TemperatureFrame(_) => ItemsSplit(cfg, recode, cycle, a[1..], b);
    }
  }

  /** The items of each read. */
  function Batches(cfg: ReaderConfig, recode: Recoding, cycle: int, rest: seq<Byte>, chunks: seq<seq<Byte>>): seq<seq<Item>>
    decreases |chunks|
  {
    if chunks == [] then []
    else
      var s := Scan(rest + chunks[0]);
      ScannedGood(rest + chunks[0]);
      [ItemsOf(cfg, recode, cycle, s.frames)]
      + Batches(cfg, recode, CycleAfter(cfg, cycle, s.frames), s.rest, chunks[1..])
  }

  /** However the bytes are cut, the reads together find the items of the uncut stream. */
  lemma {:induction false} BatchesConcat(cfg: ReaderConfig, recode: Recoding, cycle: int, rest: seq<Byte>, chunks: seq<seq<Byte>>)
    requires Scan(rest) == Scanned([], rest, false)
    requires !Scan(rest + Concat(chunks)).foreign
    ensures GoodFrames(Scan(rest + Concat(chunks)).frames)
    ensures Concat(Batches(cfg, recode, cycle, rest, chunks))
         == ItemsOf(cfg, recode, cycle, Scan(rest + Concat(chunks)).frames)
    decreases |chunks|
  {
    ScannedGood(rest + Concat(chunks));
    if chunks == [] {
      assert rest + Concat(chunks) == rest;
    } else {
      var buf, more := rest + chunks[0], Concat(chunks[1..]);
      assert rest + Concat(chunks) == buf + more;
      var s := Scan(buf);
      ScannedGood(buf);
      ScanSplit(buf, more);
      LeftoverNeedsMore(buf);
      BatchesConcat(cfg, recode, CycleAfter(cfg, cycle, s.frames), s.rest, chunks[1..]);
      ItemsSplit(cfg, recode, cycle, s.frames, Scan(s.rest + more).frames);
      var bs := Batches(cfg, recode, cycle, rest, chunks);
      assert bs[1..] == Batches(cfg, recode, CycleAfter(cfg, cycle, s.frames), s.rest, chunks[1..]);
    }
  }

  // ---------- From reads to the reordering stream ----------

  lemma ReadCycles(cfg: ReaderConfig, recode: Recoding, st: ScState, buf: seq<Byte>)
    requires cfg.Valid() && cfg.mode.RocMode? && st.Valid() && !Scan(buf).foreign
    ensures GoodFrames(Scan(buf).frames)
    ensures var r := ReadOnce(cfg, recode, st, buf);
      var full := AppendAll(st.asic, ItemsOf(cfg, recode, st.cycleNo, Scan(buf).frames));
      var n := Excess(full, cfg.build.keepBuffered);
      && Cycles(r.events) == Cycles(st.events) + full[..n] && r.asic == full[n..]
      && r.cycleNo == CycleAfter(cfg, st.cycleNo, Scan(buf).frames)
  {
    var fs := Scan(buf).frames;
    ScannedGood(buf);
    ApplyAllValid(cfg, recode, st, fs);
    ApplyFiles(cfg, recode, st, fs);
    var st1 := ApplyAll(cfg, recode, st, fs);
    BuildRocMeaning(cfg.build, st1.asic, st1.ts.data, st1.last, cfg.build.keepBuffered);
    CyclesConcat(st1.events, BuildRoc(cfg.build, st1.asic, st1.ts.data, st1.last, cfg.build.keepBuffered).events);
  }

  lemma {:induction false} RunIsStream(cfg: ReaderConfig, recode: Recoding, st: ScState, rest: seq<Byte>, chunks: seq<seq<Byte>>)
    requires cfg.Valid() && cfg.mode.RocMode? && st.Valid()
    requires Scan(rest) == Scanned([], rest, false) && !Scan(rest + Concat(chunks)).foreign
    ensures Cycles(ReadRun(cfg, recode, st, rest, chunks).events)
         == Stream(Cycles(st.events), st.asic, Batches(cfg, recode, st.cycleNo, rest, chunks), cfg.build.keepBuffered)
    decreases |chunks|
  {
    if chunks == [] {
      BuildRocMeaning(cfg.build, st.asic, st.ts.data, st.last, 0);
      CyclesConcat(st.events, BuildRoc(cfg.build, st.asic, st.ts.data, st.last, 0).events);
      assert st.asic[..|st.asic|] == st.asic;
    } else {
      var buf, more := rest + chunks[0], Concat(chunks[1..]);
      assert rest + Concat(chunks) == buf + more;
      ScanSplit(buf, more);
      LeftoverNeedsMore(buf);
      ReadValid(cfg, recode, st, buf);
      ReadCycles(cfg, recode, st, buf);
      var st1 := ReadOnce(cfg, recode, st, buf);
      RunIsStream(cfg, recode, st1, Scan(buf).rest, chunks[1..]);
      var bs := Batches(cfg, recode, st.cycleNo, rest, chunks);
      assert bs[1..] == Batches(cfg, recode, st1.cycleNo, Scan(buf).rest, chunks[1..]);
    }
  }

  // ---------- What the front ends sent ----------

  /** A packet on its way to the reader: ASIC data of a true readout cycle, a time stamp, or another
      packet. */
  datatype Sent =
    | AsicSent(roc: int, src: Source, cells: seq<Cell>, ids: seq<bv16>)
    | StampSent(stamp: TsPacket, other: seq<Byte>)
    | OtherSent(bytes: seq<Byte>)

  ghost predicate ValidSent(cfg: ReaderConfig, s: Sent) {
    match s
    case AsicSent(roc, src, cells, ids) =>
      && ValidCells(cells) && Identified(cells, ids) && PayloadLength(|cells|) < 0x1_0000
      && src.cycle == roc % 256 && DropsAreSuffix(cfg.chip, cells)
    case StampSent(p, other) => Sendable(p) && |other| == 7
    case OtherSent(p) => Whole(p) && forall f :: f in FrameOf(p) ==> f.TemperatureFrame?
  }

  ghost predicate AllValid(cfg: ReaderConfig, sents: seq<Sent>) {
    forall i :: 0 <= i < |sents| ==> ValidSent(cfg, sents[i])
  }

  ghost function PacketOf(cfg: ReaderConfig, s: Sent): seq<Byte>
    requires ValidSent(cfg, s)
  {
    match s
    case AsicSent(_, src, cells, ids) => Packet(src, cells, ids)
    case StampSent(p, other) => StampBytes(p, other)
    case OtherSent(p) => p
  }

  ghost function Bytes(cfg: ReaderConfig, sents: seq<Sent>): seq<Byte>
    requires AllValid(cfg, sents)
  {
    if sents == [] then [] else PacketOf(cfg, sents[0]) + Bytes(cfg, sents[1..])
  }

  /** The true cycles, and what each packet recorded. */
  ghost function Recorded(cfg: ReaderConfig, sents: seq<Sent>): seq<Item> {
    if sents == [] then []
    else match sents[0]
      case AsicSent(roc, src, cells, _) =>
        [Entry(roc, Expected(cfg.chip, roc, ChipNumber(cfg.chip, src.chip, src.dif), cells, 0))] + Recorded(cfg, sents[1..])
      case _ => Recorded(cfg, sents[1..])
  }

  /** Every true step of the readout cycle is one the reader recovers. */
  ghost predicate StepsRecovered(cfg: ReaderConfig, cycle: int, sents: seq<Sent>)
    decreases |sents|
  {
    sents == [] ||
    match sents[0]
    case AsicSent(roc, _, _, _) => StepRecovered(roc - cycle, cfg.maxRocJump) && StepsRecovered(cfg, roc, sents[1..])
    case _ => StepsRecovered(cfg, cycle, sents[1..])
  }

  ghost function Packets(cfg: ReaderConfig, sents: seq<Sent>): (r: seq<seq<Byte>>)
    requires AllValid(cfg, sents)
    ensures |r| == |sents|
  {
    if sents == [] then [] else [PacketOf(cfg, sents[0])] + Packets(cfg, sents[1..])
  }

  lemma {:induction false} SentWhole(cfg: ReaderConfig, sents: seq<Sent>)
    requires AllValid(cfg, sents)
    ensures AllWhole(Packets(cfg, sents)) && Concat(Packets(cfg, sents)) == Bytes(cfg, sents)
  {
    if sents != [] {
      var ps := Packets(cfg, sents);
      SentWhole(cfg, sents[1..]);
      assert ps[1..] == Packets(cfg, sents[1..]);
      assert ValidSent(cfg, sents[0]);
      match sents[0]
      case AsicSent(_, src, cells, ids) => PacketWhole(src, cells, ids);
      case StampSent(p, other) => StampReadBack(p, other);
      case OtherSent(_) =>
    }
  }

  lemma CountOfFramed(pkt: seq<Byte>, n: nat)
    requires Framed(pkt, n)
    ensures ProperLength(pkt) && CellCount(pkt) == n
  {
    Counters.DivModUnique(146 * n, n, 0, 146);
  }

  lemma SentBlocks(cfg: ReaderConfig, s: Sent, p: seq<Byte>)
    requires s.AsicSent? && ValidSent(cfg, s) && p == PacketOf(cfg, s)
    ensures BlocksOf(cfg, BxidOf, s.roc, p)
         == Expected(cfg.chip, s.roc, ChipNumber(cfg.chip, s.src.chip, s.src.dif), s.cells, 0)
  {
    RoundTrip(cfg.chip, s.roc, s.src, s.cells, s.ids);
    CountOfFramed(p, |s.cells|);
    assert BlocksOf(cfg, BxidOf, s.roc, p) == Decode(cfg.chip, s.roc, p, |s.cells|);
  }

  /** Recovered steps and undisturbed packets: the frames carry exactly what was recorded. */
  lemma {:induction false} FramesCarryRecorded(cfg: ReaderConfig, cycle: int, sents: seq<Sent>)
    requires cfg.Valid() && AllValid(cfg, sents) && StepsRecovered(cfg, cycle, sents)
    requires AllWhole(Packets(cfg, sents))
    ensures GoodFrames(FramesOf(Packets(cfg, sents)))
    ensures ItemsOf(cfg, BxidOf, cycle, FramesOf(Packets(cfg, sents))) == Recorded(cfg, sents)
    decreases |sents|
  {
    if sents != [] {
      var ps := Packets(cfg, sents);
      var s := sents[0];
      assert ps[1..] == Packets(cfg, sents[1..]) && ps[0] == PacketOf(cfg, s);
      assert ValidSent(cfg, s);
      var rest := FramesOf(ps[1..]);
      var fs := FrameOf(ps[0]) + rest;
      match s
      case AsicSent(roc, src, cells, ids) =>
        PacketWhole(src, cells, ids);
        CycleRecovered(cycle, roc, cfg.maxRocJump);
        SentBlocks(cfg, s, ps[0]);
        FramesCarryRecorded(cfg, roc, sents[1..]);
        assert fs[1..] == rest;
      case StampSent(p, other) =>
        StampReadBack(p, other);
        FramesCarryRecorded(cfg, cycle, sents[1..]);
        assert fs[1..] == rest;
      case OtherSent(p) =>
        FramesCarryRecorded(cfg, cycle, sents[1..]);
        OtherFrame(p);
        if FrameOf(p) == [] {
          assert fs == rest;
        } else {
          assert fs[0] in FrameOf(p) && fs[1..] == rest;
        }
    }
  }

  lemma OtherFrame(p: seq<Byte>)
    requires Whole(p)
    ensures |FrameOf(p)| <= 1 && GoodFrames(FrameOf(p))
  {
  }

  /** The reads together find exactly what was recorded. */
  lemma ReadsFindRecorded(cfg: ReaderConfig, sents: seq<Sent>, chunks: seq<seq<Byte>>)
    requires cfg.Valid() && AllValid(cfg, sents) && Concat(chunks) == Bytes(cfg, sents)
    requires StepsRecovered(cfg, -1, sents)
    ensures Scan([]) == Scanned([], [], false) && !Scan([] + Concat(chunks)).foreign
    ensures Concat(Batches(cfg, BxidOf, -1, [], chunks)) == Recorded(cfg, sents)
  {
    SentWhole(cfg, sents);
    ScanPackets(Packets(cfg, sents));
    assert [] + Concat(chunks) == Concat(chunks);
    assert Scan([]) == Scanned([], [], false);
    BatchesConcat(cfg, BxidOf, -1, [], chunks);
    FramesCarryRecorded(cfg, -1, sents);
  }

  /** End to end. Front-end packets with recoverable cycle steps, and none of them late, give the
      same ROC events however the bytes are cut into reads: the packets grouped by their true
      readout cycle, cycles in increasing order, blocks in the order sent. */
  lemma EndToEnd(cfg: ReaderConfig, sents: seq<Sent>, chunks: seq<seq<Byte>>)
    requires cfg.Valid() && cfg.mode.RocMode?
    requires AllValid(cfg, sents) && Concat(chunks) == Bytes(cfg, sents)
    requires StepsRecovered(cfg, -1, sents)
    requires OnTime([], Recorded(cfg, sents), cfg.build.keepBuffered)
    ensures Cycles(ReadRun(cfg, BxidOf, Start(cfg), [], chunks).events) == Group(Recorded(cfg, sents))
  {
    ReadsFindRecorded(cfg, sents, chunks);
    RunIsStream(cfg, BxidOf, Start(cfg), [], chunks);
    ReorderingExact(Recorded(cfg, sents), cfg.build.keepBuffered);
    assert Cycles(Start(cfg).events) == [];
  }

  // ---------- Numbers along a run ----------

  /** The numbers handed out so far are those of the gap filling over the cycles built so far. */
  ghost predicate NumberedRight(events: seq<Event>, last: int) {
    var ids := Keys(Cycles(events));
    Numbers(events) == FillAll(-1, ids) && last == AdvanceAll(-1, ids)
  }

  lemma KeysConcat<T>(a: seq<Entry<T>>, b: seq<Entry<T>>)
    ensures Keys(a + b) == Keys(a) + Keys(b)
  {
  }

  lemma NumbersGoOn(events: seq<Event>, last: int, more: seq<Event>, now: seq<int>)
    requires NumberedRight(events, last) && Keys(Cycles(more)) == now && Numbers(more) == FillAll(last, now)
    ensures NumberedRight(events + more, AdvanceAll(last, now))
  {
    CyclesConcat(events, more);
    NumbersConcat(events, more);
    KeysConcat(Cycles(events), Cycles(more));
    FillConcat(-1, Keys(Cycles(events)), now);
  }

  lemma BuildKeepsNumbers(cfg: ReaderConfig, st: ScState, dumpAll: bool)
    requires cfg.Valid() && cfg.mode.RocMode? && cfg.build.insertDummies && AllPaired(st.ts.data)
    requires NumberedRight(st.events, st.last)
    ensures NumberedRight(Build(cfg, st, dumpAll).events, Build(cfg, st, dumpAll).last)
  {
    var keep := Keep(cfg.build, dumpAll);
    BuildRocMeaning(cfg.build, st.asic, st.ts.data, st.last, keep);
    BuildRocNumbers(cfg.build, st.asic, st.ts.data, st.last, keep);
    NumbersGoOn(st.events, st.last, BuildRoc(cfg.build, st.asic, st.ts.data, st.last, keep).events,
                Keys(st.asic[..Excess(st.asic, keep)]));
  }

  lemma {:induction false} RunKeepsNumbers(cfg: ReaderConfig, recode: Recoding, st: ScState, rest: seq<Byte>, chunks: seq<seq<Byte>>)
    requires cfg.Valid() && cfg.mode.RocMode? && cfg.build.insertDummies && st.Valid() && NumberedRight(st.events, st.last)
    ensures var r := ReadRun(cfg, recode, st, rest, chunks); NumberedRight(r.events, r.last)
    decreases |chunks|
  {
    if chunks == [] {
      BuildKeepsNumbers(cfg, st, true);
    } else {
      var buf := rest + chunks[0];
      ScannedGood(buf);
      ApplyAllValid(cfg, recode, st, Scan(buf).frames);
      ApplyFiles(cfg, recode, st, Scan(buf).frames);
      var st1 := ApplyAll(cfg, recode, st, Scan(buf).frames);
      BuildKeepsNumbers(cfg, st1, false);
      ReadValid(cfg, recode, st, buf);
      RunKeepsNumbers(cfg, recode, ReadOnce(cfg, recode, st, buf), Scan(buf).rest, chunks[1..]);
    }
  }

  /** Gap filling over a whole run in ROC mode: with dummies the numbers are 0, 1, 2, ... without
      gap or repetition if and only if the built cycles strictly increase from at least 0; the
      real events stand exactly at those cycles. */
  lemma RocGapFilling(cfg: ReaderConfig, recode: Recoding, chunks: seq<seq<Byte>>)
    requires cfg.Valid() && cfg.mode.RocMode? && cfg.build.insertDummies
    ensures var es := ReadRun(cfg, recode, Start(cfg), [], chunks).events; var ids := Keys(Cycles(es));
      && (Contiguous(Numbers(es), 0) <==> Rising(ids, 0))
      && Reals(Numbers(es)) == ids
  {
    assert Keys(Cycles(Start(cfg).events)) == [];
    RunKeepsNumbers(cfg, recode, Start(cfg), [], chunks);
    var ids := Keys(Cycles(ReadRun(cfg, recode, Start(cfg), [], chunks).events));
    FillContiguous(-1, ids);
    FillReals(-1, ids);
  }

  predicate FromZero(items: seq<Item>) {
    forall i :: 0 <= i < |items| ==> items[i].key >= 0
  }

  /** The cycles of a grouping rise from at least 0 if and only if none is negative. */
  lemma GroupRising(items: seq<Item>)
    ensures Rising(Keys(Group(items)), 0) <==> FromZero(items)
  {
    var g := Group(items);
    var ids := Keys(g);
    GroupMeaning(items);
    if FromZero(items) {
      forall i | 0 <= i < |ids| ensures ids[i] >= 0 {
        assert ids[i] == g[i].key && Has(g, g[i].key);
        var j :| 0 <= j < |items| && items[j].key == g[i].key;
      }
    }
    if Rising(ids, 0) {
      forall j | 0 <= j < |items| ensures items[j].key >= 0 {
        assert Has(items, items[j].key);
        var i :| 0 <= i < |g| && g[i].key == items[j].key;
        assert ids[i] == g[i].key && (i > 0 ==> ids[0] < ids[i]);
      }
    }
  }

  /** End to end with dummies: for packets with recoverable cycle steps, none of them late, the numbers
      are 0, 1, 2, ... without gap or repetition if and only if no true cycle is negative, however the
      bytes are cut into reads; the real events stand exactly at the cycles sent. */
  lemma EndToEndNumbers(cfg: ReaderConfig, sents: seq<Sent>, chunks: seq<seq<Byte>>)
    requires cfg.Valid() && cfg.mode.RocMode? && cfg.build.insertDummies
    requires AllValid(cfg, sents) && Concat(chunks) == Bytes(cfg, sents)
    requires StepsRecovered(cfg, -1, sents)
    requires OnTime([], Recorded(cfg, sents), cfg.build.keepBuffered)
    ensures var ns := Numbers(ReadRun(cfg, BxidOf, Start(cfg), [], chunks).events);
      && (Contiguous(ns, 0) <==> FromZero(Recorded(cfg, sents)))
      && Reals(ns) == Keys(Group(Recorded(cfg, sents)))
  {
    EndToEnd(cfg, sents, chunks);
    RocGapFilling(cfg, BxidOf, chunks);
    GroupRising(Recorded(cfg, sents));
  }
}
