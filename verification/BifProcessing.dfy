/**
 The BIF word stream: `ProcessQueuedBifData` and the event builders of
 `caliceahcalbif_Producer.cc`.
 */
module BifProcessing {
  import opened CppDivision

  const TWO_16: int := 0x1_0000
  const TWO_32: int := 0x1_0000_0000
  const TWO_48: int := 0x1_0000_0000_0000
  const TWO_60: int := 0x1000_0000_0000_0000
  const TWO_64: int := 0x1_0000_0000_0000_0000

  type Word = w: int | 0 <= w < 0x1_0000_0000_0000_0000
  type Pos = x: int | x > 0 witness 1

  const INTERNAL := 0
  const EXTERNAL := 1
  const SHUTTER_OFF := 2
  const SHUTTER_ON := 3

  function KindOf(w: Word): (k: int) ensures 0 <= k < 16 { w / TWO_60 }

  /** Input mask of a trigger, or cycle counter of a shutter word. */
  function InputsOf(w: Word): (i: int) ensures 0 <= i < 0x1000 { (w / TWO_48) % 0x1000 }

  /** 48-bit time in 25 ns steps. */
  function TimeOf(w: Word): (t: int) ensures 0 <= t < TWO_48 { w % TWO_48 }

  function TriggerNumberOf(w: Word): (n: int) ensures 0 <= n < TWO_32 { w % TWO_32 }

  /** Fine time of an input: five bits of its byte, shifted by 24. */
  function FineOf(w: Word, input: nat): (f: int)
    requires input < 4
    ensures 0 <= f < 32
  {
    var byte_ :=
      if input == 0 then w / 0x100_0000_0000_0000
      else if input == 1 then w / 0x1_0000_0000_0000
      else if input == 2 then w / 0x100_0000_0000
      else w / 0x1_0000_0000;
    (byte_ + 0x18) % 32
  }

  function InputSet(inputs: int, input: nat): bool
    requires input < 4
  {
    (inputs / (if input == 0 then 0x100 else if input == 1 then 0x200 else if input == 2 then 0x400 else 0x800)) % 2 == 1
  }

  /** Shutter words and edge or spill words stand alone; all others need a second word. */
  predicate IsSingle(w: Word) {
    2 <= KindOf(w) <= 7
  }

  // ---------- Records ----------

  /** Four words of cycle data: type, number, low and high half of the time. */
  datatype Rec = Rec(kind: int, count: int, low: int, high: int) {
    function Time(): int {
      low + high * TWO_32
    }
  }

  const REC_START: int := 0x0300_0000
  const REC_STOP: int := 0x0200_0000
  const REC_TRIGGER: int := 0x0100_0000

  function Class(kind: int): int {
    kind / 0x0100_0000
  }

  function Flat(r: Rec): (s: seq<int>)
    ensures |s| == 4
  {
    [r.kind, r.count, r.low, r.high]
  }

  /** `trigger_push_back`. */
  function MakeRec(kind: int, count: int, time: int): Rec {
    Rec(kind, count % TWO_32, time % TWO_32, (time / TWO_32) % TWO_32)
  }

  /** The records of cycle data, in groups of four words. */
  function Split(data: seq<int>): (rs: seq<Rec>)
    ensures |rs| == |data| / 4
  {
    if |data| < 4 then [] else [Rec(data[0], data[1], data[2], data[3])] + Split(data[4..])
  }

  // ---------- State ----------

  datatype Mode = RocMode | TriggerMode | BxidMode

  datatype BifConfig = BifConfig(mode: Mode, countRocFrom: int, ignorePeriod: int,
                                 firstBxidOffset: int, bxidLength: Pos, writeRaw: bool)

  datatype BifEvent =
    | CycleEvent(roc: int, start: int, stop: int, data: seq<int>)
    | TriggerEvent(roc: int, number: int, time: int, bxid: int, data: seq<int>)
    | BxidEvent(roc: int, number: int, time: int, bxid: int, data: seq<int>)

  /** Readout cycle: its number, whether it is open, and the first hardware counter of the run. */
  datatype Cyc = Cyc(number: int, started: bool, first: int)

  /** Times of the last shutter words. */
  datatype Acq = Acq(start: int, stop: int)

  /** Trigger numbers and the time of the last accepted external trigger. */
  datatype Trig = Trig(id: int, firstPending: bool, firstNumber: int, lastTime: int, inCycle: int)

  datatype BifStats = BifStats(runStart: int, runStop: int, onTime: int, triggers: int)

  datatype BifState = BifState(cyc: Cyc, acq: Acq, trig: Trig, stats: BifStats, cycleData: seq<int>, events: seq<BifEvent>)

  /** A new run on a new producer. */
  const INITIAL := BifState(Cyc(-1, false, -1), Acq(0, 0), Trig(TWO_32 - 1, true, 0, 0, 0), BifStats(0, 0, 0, 0), [], [])

  // ---------- Event builders ----------

  /** What the builders need of the producer besides the records. */
  datatype Readout = Readout(roc: int, start: int, firstNumber: int, offset: int, length: Pos) {

    /** Bunch crossing of a trigger, narrowed to an `int`. */
    function Bxid(t: Rec): int {
      ToInt32(TruncDiv(t.Time() - 32 * start - offset, length))
    }

    /** Trigger number counted from the first one of the run. */
    function Number(t: Rec): int {
      (t.count - firstNumber) % TWO_32
    }
  }

  function Here(cfg: BifConfig, st: BifState): Readout {
    Readout(st.cyc.number + cfg.countRocFrom, st.acq.start, st.trig.firstNumber, cfg.firstBxidOffset, cfg.bxidLength)
  }

  /** The last record of a class, as words; none if there is none. */
  function LastOf(rs: seq<Rec>, class_: int): seq<int> {
    if rs == [] then []
    else if Class(rs[|rs| - 1].kind) == class_ then Flat(rs[|rs| - 1])
    else LastOf(rs[..|rs| - 1], class_)
  }

  function IfTrigger(r: Rec): seq<Rec> {
    if Class(r.kind) == 1 then [r] else []
  }

  function TriggersOf(rs: seq<Rec>): seq<Rec> {
    if rs == [] then [] else IfTrigger(rs[0]) + TriggersOf(rs[1..])
  }

  function TriggerEventOf(r: Readout, t: Rec, start: seq<int>, stop: seq<int>): BifEvent {
    TriggerEvent(r.roc, r.Number(t), t.Time(), r.Bxid(t), start + Flat(t) + stop)
  }

  /** `buildEudaqEventsTriggers`: one event per trigger, between copies of start and stop. */
  function TriggerEvents(r: Readout, ts: seq<Rec>, start: seq<int>, stop: seq<int>): (es: seq<BifEvent>)
    ensures |es| == |ts|
  {
    if ts == [] then [] else [TriggerEventOf(r, ts[0], start, stop)] + TriggerEvents(r, ts[1..], start, stop)
  }

  /** The event being collected in BXID mode. */
  datatype Open = Open(bxid: int, number: int, time: int, data: seq<int>)

  datatype MaybeOpen = Nothing | Collecting(open: Open)

  function CloseBxid(r: Readout, o: Open, stop: seq<int>): BifEvent {
    BxidEvent(r.roc, o.number, o.time, o.bxid, o.data + stop)
  }

  /** One trigger in BXID mode; the payload repeats triggers the way the producer does. */
  function Collect(r: Readout, m: MaybeOpen, t: Rec, start: seq<int>): Open
  {
    match m
    case Nothing => Open(r.Bxid(t), r.Number(t), t.Time(), Flat(t) + start + Flat(t))
    case Collecting(o) =>
      if r.Bxid(t) == o.bxid then o.(data := o.data + Flat(t) + start + Flat(t))
      else Open(r.Bxid(t), r.Number(t), t.Time(), start + Flat(t))
  }

  /** The event that a trigger of another crossing sends out. */
  function Closed(r: Readout, m: MaybeOpen, t: Rec, stop: seq<int>): seq<BifEvent> {
    if m.Collecting? && r.Bxid(t) != m.open.bxid then [CloseBxid(r, m.open, stop)] else []
  }

  /** `buildEudaqEventsBxid`: one event per run of triggers with the same crossing. */
  function BxidEvents(r: Readout, m: MaybeOpen, ts: seq<Rec>, start: seq<int>, stop: seq<int>): seq<BifEvent>
    decreases |ts|
  {
    if ts == [] then
      match m
      case Nothing => []
      case Collecting(o) => [CloseBxid(r, o, stop)]
    else Closed(r, m, ts[0], stop) + BxidEvents(r, Collecting(Collect(r, m, ts[0], start)), ts[1..], start, stop)
  }

  function NewEvents(cfg: BifConfig, st: BifState): seq<BifEvent>
  {
    var rs := Split(st.cycleData);
    var r := Here(cfg, st);
    match cfg.mode
    case RocMode => [CycleEvent(r.roc, 32 * st.acq.start, 32 * st.acq.stop, st.cycleData)]
    case TriggerMode => TriggerEvents(r, TriggersOf(rs), LastOf(rs, 3), LastOf(rs, 2))
    case BxidMode => BxidEvents(r, Nothing, TriggersOf(rs), LastOf(rs, 3), LastOf(rs, 2))
  }

  /** `buildEudaqEvents`. */
  function Build(cfg: BifConfig, st: BifState): BifState
  {
    st.(events := st.events + NewEvents(cfg, st), cycleData := [])
  }

  // ---------- Readout cycle numbers ----------

  /** Distance of an arriving counter from the next expected cycle, modulo 4096. */
  function Ahead(c: Cyc, counter: int): (d: int)
    ensures 0 <= d < 0x1000
  {
    (counter - c.first - (c.number + 1)) % 0x1000
  }

  /** A start without a stop builds the open cycle unless the counter jumped too far or is the
      one of the open cycle again. */
  predicate BuildsUnstopped(c: Cyc, counter: int) {
    c.started && Ahead(c, counter) <= 500
  }

  function BeforeStart(c: Cyc, counter: int): Cyc {
    if c.started && Ahead(c, counter) == 0xFFF then c.(number := c.number - 1) else c
  }

  function Opened(c: Cyc, counter: int): Cyc {
    if c.number == -1 then Cyc(0, true, counter) else c.(number := c.number + 1, started := true)
  }

  /** Cycles still missing before the one that arrived. */
  function Missing(c: Cyc, counter: int): (n: nat)
    ensures n < 0x1000
  {
    (counter - c.first - c.number) % 0x1000
  }

  function CycAfterOn(c: Cyc, counter: int): Cyc {
    var o := Opened(BeforeStart(c, counter), counter);
    o.(number := o.number + Missing(o, counter))
  }

  // ---------- Shutter words ----------

  function Push(st: BifState, r: Rec): BifState {
    st.(cycleData := st.cycleData + Flat(r))
  }

  /** Cycles missing in the data: built empty or incomplete, one after the other. */
  function FillGap(cfg: BifConfig, st: BifState, missing: nat): BifState
    decreases missing
  {
    if missing == 0 then st
    else
      var b := Build(cfg, st);
      FillGap(cfg, b.(cyc := b.cyc.(number := b.cyc.number + 1)), missing - 1)
  }

  /** The state once the arriving cycle is open, before missing cycles are filled in. */
  function Open1(st: BifState, time: int, counter: int): BifState {
    var c := BeforeStart(st.cyc, counter);
    st.(cyc := Opened(c, counter), acq := st.acq.(start := time),
        trig := st.trig.(inCycle := 0, firstPending := c.number == -1 || st.trig.firstPending),
        stats := if c.number == -1 then st.stats.(runStart := time) else st.stats)
  }

  function ShutterOn(cfg: BifConfig, st: BifState, time: int, counter: int): BifState {
    var st0 := if BuildsUnstopped(st.cyc, counter) then Build(cfg, st) else st;
    var st1 := Open1(st0, time, counter);
    var st2 := FillGap(cfg, st1, Missing(st1.cyc, counter));
    Push(st2, MakeRec(REC_START, st2.cyc.number, 32 * time))
  }

  /** The closed cycle, before its data is built. */
  function ShutterClosed(st: BifState, time: int): BifState {
    var on := if time < st.acq.start then st.acq.start - time else time - st.acq.start;
    st.(cyc := st.cyc.(started := false), acq := st.acq.(stop := time),
        stats := st.stats.(triggers := (st.stats.triggers + st.trig.inCycle) % TWO_32, runStop := time,
                           onTime := (st.stats.onTime + on) % TWO_64))
  }

  function ShutterOff(cfg: BifConfig, st: BifState, time: int): BifState {
    Build(cfg, Push(ShutterClosed(st, time), MakeRec(REC_STOP, st.cyc.number, 32 * time)))
  }

  function Single(cfg: BifConfig, st: BifState, w: Word): BifState {
    if KindOf(w) == SHUTTER_ON then ShutterOn(cfg, st, TimeOf(w), InputsOf(w))
    else if KindOf(w) == SHUTTER_OFF then ShutterOff(cfg, st, TimeOf(w))
    else st
  }

  // ---------- Trigger words ----------

  function NoteNumber(t: Trig, n: int): Trig {
    if n != (t.id + 1) % TWO_32 && t.firstPending then t.(id := n, firstPending := false, firstNumber := n)
    else t.(id := n)
  }

  function FullTime(w1: Word, w2: Word, input: nat): int
    requires input < 4
  {
    32 * TimeOf(w1) + FineOf(w2, input)
  }

  /** The record of one input of an external trigger. */
  function InputRec(w1: Word, w2: Word, input: nat): Rec
    requires input < 4
  {
    MakeRec(REC_TRIGGER + input * TWO_16, TriggerNumberOf(w2), FullTime(w1, w2, input))
  }

  /** Records of an external trigger, from the given input downwards. */
  function InputRecs(w1: Word, w2: Word, input: nat): seq<Rec>
    requires input <= 4
    decreases w1, input
  {
    if input == 0 then []
    else
      (if InputSet(InputsOf(w1), input - 1) then [InputRec(w1, w2, input - 1)] else [])
      + InputRecs(w1, w2, input - 1)
  }

  predicate OutsideIgnorePeriod(cfg: BifConfig, t: Trig, w1: Word) {
    (32 * TimeOf(w1) - t.lastTime) % TWO_64 > cfg.ignorePeriod % TWO_64
  }

  predicate TakesTrigger(cfg: BifConfig, t: Trig, w1: Word) {
    KindOf(w1) == INTERNAL || (KindOf(w1) == EXTERNAL && OutsideIgnorePeriod(cfg, t, w1))
  }

  /** The records a trigger adds. An internal trigger's time is cut to 32 bits. */
  function NewRecs(cfg: BifConfig, t: Trig, w1: Word, w2: Word): seq<Rec> {
    if !TakesTrigger(cfg, t, w1) then []
    else if KindOf(w1) == INTERNAL then
      [MakeRec(REC_TRIGGER, TriggerNumberOf(w2), FullTime(w1, w2, 0) % TWO_32)]
    else InputRecs(w1, w2, 4)
  }

  function FlatAll(rs: seq<Rec>): (s: seq<int>)
    ensures |s| == 4 * |rs|
  {
    if rs == [] then [] else Flat(rs[0]) + FlatAll(rs[1..])
  }

  function TrigAfter(cfg: BifConfig, t: Trig, w1: Word, w2: Word): Trig {
    var n := NoteNumber(t, TriggerNumberOf(w2));
    if !TakesTrigger(cfg, t, w1) then n
    else n.(inCycle := t.inCycle + 1, lastTime := if KindOf(w1) == EXTERNAL then 32 * TimeOf(w1) else t.lastTime)
  }

  function Double(cfg: BifConfig, st: BifState, w1: Word, w2: Word): BifState {
    st.(trig := TrigAfter(cfg, st.trig, w1, w2), cycleData := st.cycleData + FlatAll(NewRecs(cfg, st.trig, w1, w2)))
  }

  // ---------- The word loop ----------

  datatype Packet = One(w: Word) | Two(w1: Word, w2: Word)

  /** The words cut into packets; a first word without its second is left over. */
  datatype Cut = Cut(packets: seq<Packet>, left: seq<Word>)

  function CutWords(ws: seq<Word>): Cut
    decreases |ws|
  {
    if ws == [] then Cut([], [])
    else if IsSingle(ws[0]) then
      var c := CutWords(ws[1..]);
      c.(packets := [One(ws[0])] + c.packets)
    else if |ws| == 1 then Cut([], ws)
    else
      var c := CutWords(ws[2..]);
      c.(packets := [Two(ws[0], ws[1])] + c.packets)
  }

  function Apply(cfg: BifConfig, st: BifState, p: Packet): BifState {
    match p
    case One(w) => Single(cfg, st, w)
    case Two(w1, w2) => Double(cfg, st, w1, w2)
  }

  function Run(cfg: BifConfig, st: BifState, ps: seq<Packet>): BifState
    decreases |ps|
  {
    if ps == [] then st else Run(cfg, Apply(cfg, st, ps[0]), ps[1..])
  }

  // ---------- One call ----------

  /** The producer between two calls: state, words put back, raw file, and whether the word put
      back is already in the raw file. */
  datatype Producer = Producer(st: BifState, left: seq<Word>, raw: seq<Word>, word1Written: bool)

  const FRESH := Producer(INITIAL, [], [], false)

  /** The raw file receives all words, except a first one that it already has. */
  function RawAfter(write: bool, raw: seq<Word>, written: bool, ws: seq<Word>): seq<Word> {
    if !write then raw
    else if written && ws != [] then raw + ws[1..]
    else raw + ws
  }

  function ProcessWords(cfg: BifConfig, p: Producer, ws: seq<Word>): Producer {
    var c := CutWords(ws);
    Producer(Run(cfg, p.st, c.packets), c.left, RawAfter(cfg.writeRaw, p.raw, p.word1Written, ws),
             if ws == [] then p.word1Written else c.left != [])
  }

  /** `ProcessQueuedBifData` with new words behind those put back. */
  function Process(cfg: BifConfig, p: Producer, words: seq<Word>): Producer {
    ProcessWords(cfg, p, p.left + words)
  }
}
