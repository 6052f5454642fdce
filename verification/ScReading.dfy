/**
 The state of the AHCAL reader, what a frame does to it, and the end-to-end result of ROC-mode
 reading.
 */
module ScReading {
  import opened OrderedMap
  import opened GrayCode
  import opened AsicPacket
  import opened LdaStream
  import opened CppDivision
  import opened LdaTimestamps
  import opened EventBuilding
  import ValidatedBuilding
  import BxidBuilding
  import Counters

  datatype Mode = RocMode | TrigidMode | ValidatedMode | BxidMode

  datatype ReaderConfig = ReaderConfig(mode: Mode, maxRocJump: nat, chip: ChipConfig, ts: TsConfig, build: BuildConfig) {
    predicate Valid() {
      mode.ValidatedMode? ==> build.bxidWidth != 0 && !build.insertDummies
    }
  }

  datatype ScState = ScState(
    cycleNo: int, asic: seq<Item>, minLast: seq<Entry<int>>, ts: TsState, last: int, events: seq<Event>)
  {
    ghost predicate Valid() {
      Ordered(asic) && Ordered(ts.data) && AllPaired(ts.data)
    }
  }

  /** `OnStart`. */
  function Start(cfg: ReaderConfig): ScState {
    ScState(-1, [], [], Initial(cfg.ts),
            if cfg.mode.RocMode? || cfg.mode.BxidMode? then -1 else cfg.build.generateFrom - 1, [])
  }

  // ---------- Readout cycle of a packet ----------

  function ToInt8(x: int): int {
    (x + 0x80) % 0x100 - 0x80
  }

  /** The full cycle for an 8-bit one; a step that looks too large forward keeps the old cycle.
      The step is narrowed to 8 bits before it is compared. */
  function NextCycle(cycleNo: int, short: Byte, maxJump: nat): int {
    var c := Counters.Reconstruct(cycleNo, short, 256, maxJump);
    if ToInt8(c - cycleNo) > maxJump then cycleNo else c
  }

  predicate StepRecovered(d: int, maxJump: nat) {
    -(maxJump as int) <= d < 256 - maxJump && !(maxJump < d <= 127)
  }

  /** A true step is recovered exactly when it lies in the window of 256 cycles and not between
      the allowed jump and 127; so forward jumps from 128 on pass unnoticed. */
  lemma CycleRecovered(cycleNo: int, next: int, maxJump: nat)
    ensures NextCycle(cycleNo, next % 256, maxJump) == next <==> StepRecovered(next - cycleNo, maxJump)
  {
    Counters.OneStep(cycleNo, next, 256, maxJump);
  }

  // ---------- One frame ----------

  /** Number of memory cells, when the payload length is one a front end can produce. */
  predicate ProperLength(pkt: seq<Byte>) {
    |pkt| >= HEADER_SIZE + 12 && (|pkt| - HEADER_SIZE - 12) % 146 == 0
  }

  function CellCount(pkt: seq<Byte>): (n: nat)
    requires ProperLength(pkt)
    ensures Framed(pkt, n)
  {
    (|pkt| - HEADER_SIZE - 12) / 146
  }

  function BlocksOf(cfg: ReaderConfig, recode: Recoding, cycle: int, pkt: seq<Byte>): seq<Block> {
    if ProperLength(pkt) then CellsFrom(cfg.chip, recode, cycle, pkt, CellCount(pkt), 0, 0) else []
  }

  /** The lowest crossing of a sixteenth memory cell in the cycle; a stored 0 counts as unset. */
  function NoteFull(minLast: seq<Entry<int>>, recode: Recoding, cycle: int, pkt: seq<Byte>): seq<Entry<int>> {
    if ProperLength(pkt) && CellCount(pkt) >= 16 then
      var bxid := recode(SentAt(pkt, CellCount(pkt), CellCount(pkt) - 16));
      LowerFull(minLast, cycle, bxid)
    else minLast
  }

  function LowerFull(minLast: seq<Entry<int>>, cycle: int, bxid: int): seq<Entry<int>> {
    var before := Get(minLast, cycle, 0);
    Put(minLast, cycle, if before != 0 && before <= bxid then before else bxid)
  }

  /** The time stamp packet in a 26-byte frame. */
  function TsPacketOf(pkt: seq<Byte>): (p: TsPacket)
    requires |pkt| == 26
    ensures p.Valid()
  {
    TsPacket(pkt[14], pkt[4], Le16(pkt, 16),
             Le16(pkt, 18) + 0x1_0000 * Le16(pkt, 20) + 0x1_0000_0000 * Le16(pkt, 22))
  }

  /** Frames as the search delivers them. */
  predicate GoodFrame(f: Frame) {
    match f
    case AsicFrame(b) => |b| >= 14
    case TimestampFrame(b) => |b| == 26
    case TemperatureFrame(b) => |b| == 26
  }

  function Apply(cfg: ReaderConfig, recode: Recoding, st: ScState, f: Frame): ScState
    requires GoodFrame(f)
  {
    match f
    case AsicFrame(b) =>
      var c := NextCycle(st.cycleNo, b[4], cfg.maxRocJump);
      st.(cycleNo := c, asic := Append(st.asic, c, BlocksOf(cfg, recode, c, b)),
          minLast := NoteFull(st.minLast, recode, c, b))
    case TimestampFrame(b) => st.(ts := Step(cfg.ts, st.ts, TsPacketOf(b)))
    case TemperatureFrame(_) => st
  }

  predicate GoodFrames(fs: seq<Frame>) {
    forall i :: 0 <= i < |fs| ==> GoodFrame(fs[i])
  }

  function ApplyAll(cfg: ReaderConfig, recode: Recoding, st: ScState, fs: seq<Frame>): ScState
    requires GoodFrames(fs)
    decreases |fs|
  {
    if fs == [] then st else ApplyAll(cfg, recode, Apply(cfg, recode, st, fs[0]), fs[1..])
  }

  lemma {:induction false} ScannedGood(buf: seq<Byte>)
    ensures GoodFrames(Scan(buf).frames)
    decreases |buf|
  {
    match Next(buf)
    case NeedMore =>
    case Foreign =>
    case Drop(n) => ScannedGood(buf[n..]);
    case Take(f) =>
      ScannedGood(buf[|f.bytes|..]);
      var n := HEADER_SIZE + Le16(buf, 2);
      assert |buf[..n]| == n;
  }

  lemma StepPaired(cfg: TsConfig, st: TsState, p: TsPacket)
    requires Ordered(st.data) && AllPaired(st.data)
    ensures Ordered(Step(cfg, st, p).data) && AllPaired(Step(cfg, st, p).data)
  {
    var cycle := Counters.Reconstruct(st.cycleNoTS, p.cycle, 256, 127);
    var here := Get(st.data, cycle, NO_TIME_DATA);
    GetPaired(st.data, cycle);
    PutPaired(st.data, cycle, here);
    var data1 := Put(st.data, cycle, here);
    GetPaired(data1, cycle);
    if IsTimed(p.kind) {
      PutPaired(data1, cycle, here.(start := p.time));
      PutPaired(data1, cycle, here.(stop := p.time));
      var t := Get(data1, cycle, NO_TIME_DATA);
      var id := (TriggerBase(st, p) + TriggerStep(TriggerBase(st, p), p.rawTrigId)) % U32_SIZE;
      PutPaired(data1, cycle, t.(ids := t.ids + [ToInt32(id)], times := t.times + [p.time]));
    }
  }

  lemma {:induction false} PutPaired(data: seq<Entry<TimeData>>, k: int, t: TimeData)
    requires AllPaired(data) && |t.ids| == |t.times|
    ensures AllPaired(Put(data, k, t))
    ensures Ordered(data) ==> Ordered(Put(data, k, t))
  {
    PutMeaning(data, k, t);
    if data != [] && k > data[0].key {
      PutPaired(data[1..], k, t);
    }
  }

  lemma ApplyValid(cfg: ReaderConfig, recode: Recoding, st: ScState, f: Frame)
    requires st.Valid() && GoodFrame(f)
    ensures Apply(cfg, recode, st, f).Valid()
  {
    match f
    case AsicFrame(b) =>
      var c := NextCycle(st.cycleNo, b[4], cfg.maxRocJump);
      PutMeaning(st.asic, c, Get(st.asic, c, []) + BlocksOf(cfg, recode, c, b));
    case TimestampFrame(b) => StepPaired(cfg.ts, st.ts, TsPacketOf(b));
    case TemperatureFrame(_) =>
  }

  lemma {:induction false} ApplyAllValid(cfg: ReaderConfig, recode: Recoding, st: ScState, fs: seq<Frame>)
    requires st.Valid() && GoodFrames(fs)
    ensures ApplyAll(cfg, recode, st, fs).Valid()
    decreases |fs|
  {
    if fs != [] {
      ApplyValid(cfg, recode, st, fs[0]);
      ApplyAllValid(cfg, recode, Apply(cfg, recode, st, fs[0]), fs[1..]);
    }
  }

  // ---------- Building and reading ----------

  /** `buildEvents`. */
  function Build(cfg: ReaderConfig, st: ScState, dumpAll: bool): ScState
    requires cfg.Valid() && AllPaired(st.ts.data)
  {
    var keep := Keep(cfg.build, dumpAll);
    var b := match cfg.mode
      case RocMode => BuildRoc(cfg.build, st.asic, st.ts.data, st.last, keep)
      case TrigidMode => BuildTrig(cfg.build, st.asic, st.ts.data, st.last, keep)
      case ValidatedMode => ValidatedBuilding.Build(cfg.build, st.asic, st.ts.data, st.minLast, st.last, keep)
      case BxidMode => BxidBuilding.BuildAll(cfg.build, st.asic, st.ts.data, st.minLast, st.last, keep);
    st.(asic := b.asic, ts := st.ts.(data := b.ts), last := b.last, events := st.events + b.events)
  }

  /** `Read`: everything complete is applied, then events are built. */
  function ReadOnce(cfg: ReaderConfig, recode: Recoding, st: ScState, buf: seq<Byte>): ScState
    requires cfg.Valid() && st.Valid()
  {
    ScannedGood(buf);
    ApplyAllValid(cfg, recode, st, Scan(buf).frames);
    var st1 := ApplyAll(cfg, recode, st, Scan(buf).frames);
    if Scan(buf).foreign then st1 else Build(cfg, st1, false)
  }
}
