/**
 What the words of the BIF mean, and what the events built from them tell: times, numbers, readout cycles
 and bunch crossings.
 */
module BifMeaning {
  import opened Sequences
  import opened CppDivision
  import opened BifProcessing
  import opened BifRecords
  import opened BifGroups

  // ---------- Words ----------

  /** A first word: four bits of type, twelve of inputs or counter, 48 of time. */
  function FirstWord(kind: int, middle: int, time: int): (w: int)
    requires 0 <= kind < 16 && 0 <= middle < 4096 && 0 <= time < 281474976710656
    ensures 0 <= w < 18446744073709551616
  {
    kind * 1152921504606846976 + middle * 281474976710656 + time
  }

  lemma FirstRead(kind: int, middle: int, time: int)
    requires 0 <= kind < 16 && 0 <= middle < 4096 && 0 <= time < 281474976710656
    ensures var w := FirstWord(kind, middle, time);
      KindOf(w) == kind && InputsOf(w) == middle && TimeOf(w) == time
  {
    var w := FirstWord(kind, middle, time);
    assert w / 281474976710656 == kind * 4096 + middle;
  }

  /** Every word is one. */
  lemma FirstOnly(w: Word)
    ensures w == FirstWord(KindOf(w), InputsOf(w), TimeOf(w))
  {
    var q := w / 281474976710656;
    assert w == 281474976710656 * q + w % 281474976710656;
    assert w / 1152921504606846976 == q / 4096;
  }

  type Byte = b: int | 0 <= b < 256

  /** A second word: four bytes of fine times, that of input 0 first, and 32 bits of trigger number. */
  function SecondWord(f: seq<Byte>, number: int): (w: int)
    requires |f| == 4 && 0 <= number < 4294967296
    ensures 0 <= w < 18446744073709551616
  {
    (f[0] as int) * 72057594037927936 + (f[1] as int) * 281474976710656 + (f[2] as int) * 1099511627776
    + (f[3] as int) * 4294967296 + number
  }

  /** Fine time of a byte, which is 8 ahead of it. */
  function Fine(b: Byte): (f: int)
    ensures 0 <= f < 32
  {
    ((b as int) + 24) % 32
  }

  lemma SecondParts(a: int, b: int, c: int, d: int, n: int)
    requires 0 <= a < 256 && 0 <= b < 256 && 0 <= c < 256 && 0 <= d < 256 && 0 <= n < 4294967296
    ensures var w := a * 72057594037927936 + b * 281474976710656 + c * 1099511627776 + d * 4294967296 + n;
      && w % 4294967296 == n && w / 4294967296 == a * 16777216 + b * 65536 + c * 256 + d
      && w / 1099511627776 == a * 65536 + b * 256 + c && w / 281474976710656 == a * 256 + b && w / 72057594037927936 == a
  {
    var w := a * 72057594037927936 + b * 281474976710656 + c * 1099511627776 + d * 4294967296 + n;
    var x := a * 16777216 + b * 65536 + c * 256 + d;
    assert w == 4294967296 * x + n;
    assert w / 4294967296 == x;
  }

  lemma LowByte(x: int, y: int)
    ensures (256 * x + y + 24) % 32 == (y + 24) % 32
  {
  }

  /** Number and fine times come back, each input's from its own byte. */
  lemma SecondRead(f: seq<Byte>, number: int)
    requires |f| == 4 && 0 <= number < 4294967296
    ensures var w := SecondWord(f, number);
      && TriggerNumberOf(w) == number && FineOf(w, 0) == Fine(f[0]) && FineOf(w, 1) == Fine(f[1])
      && FineOf(w, 2) == Fine(f[2]) && FineOf(w, 3) == Fine(f[3])
  {
    var a, b, c, d := f[0] as int, f[1] as int, f[2] as int, f[3] as int;
    SecondParts(a, b, c, d, number);
    LowByte(a, b);
    LowByte(a * 256 + b, c);
    LowByte(a * 65536 + b * 256 + c, d);
  }

  /** Bits 8 to 11 of the inputs stand for inputs 0 to 3. */
  function InputBits(low: Byte, set_: seq<bool>): (inputs: int)
    requires |set_| == 4
    ensures 0 <= inputs < 4096
  {
    (low as int) + (if set_[0] then 256 else 0) + (if set_[1] then 512 else 0)
    + (if set_[2] then 1024 else 0) + (if set_[3] then 2048 else 0)
  }

  lemma InputsRead(low: Byte, set_: seq<bool>)
    requires |set_| == 4
    ensures forall i | 0 <= i < 4 :: InputSet(InputBits(low, set_), i) == set_[i]
  {
    var inputs := InputBits(low, set_);
    var c := if set_[3] then 1 else 0;
    var b := 2 * c + if set_[2] then 1 else 0;
    var a := 2 * b + if set_[1] then 1 else 0;
    var h := 2 * a + if set_[0] then 1 else 0;
    assert inputs == 256 * h + low as int;
    assert inputs / 256 == h && inputs / 512 == a && inputs / 1024 == b && inputs / 2048 == c;
  }

  // ---------- Triggers ----------

  /** The record of one input, if it is set. */
  function RecordFor(set_: bool, input: nat, number: int, time: int): seq<Rec> {
    if set_ then [Rec(16777216 + 65536 * input, number, time % 4294967296, time / 4294967296)] else []
  }

  /** The records of an external trigger, highest input first, each with the full time of its input. */
  function RecordsFor(set_: seq<bool>, f: seq<Byte>, number: int, time: int): seq<Rec>
    requires |set_| == |f| == 4
  {
    RecordFor(set_[3], 3, number, 32 * time + Fine(f[3])) + RecordFor(set_[2], 2, number, 32 * time + Fine(f[2]))
    + RecordFor(set_[1], 1, number, 32 * time + Fine(f[1])) + RecordFor(set_[0], 0, number, 32 * time + Fine(f[0]))
  }

  function InputPart(w1: Word, w2: Word, input: nat): seq<Rec>
    requires input < 4
  {
    if InputSet(InputsOf(w1), input) then [InputRec(w1, w2, input)] else []
  }

  lemma InputPartIs(w1: Word, w2: Word, input: nat, set_: bool, number: int, time: int, fine: int)
    requires input < 4 && TimeOf(w1) == time && TriggerNumberOf(w2) == number && FineOf(w2, input) == fine
    requires InputSet(InputsOf(w1), input) == set_
    ensures InputPart(w1, w2, input) == RecordFor(set_, input, number, 32 * time + fine)
  {
    assert 0 <= (32 * time + fine) / 4294967296 < 4294967296;
  }

  lemma InputParts(w1: Word, w2: Word)
    ensures InputRecs(w1, w2, 4)
         == InputPart(w1, w2, 3) + InputPart(w1, w2, 2) + InputPart(w1, w2, 1) + InputPart(w1, w2, 0)
  {
    var a, b, c, d := InputPart(w1, w2, 3), InputPart(w1, w2, 2), InputPart(w1, w2, 1), InputPart(w1, w2, 0);
    assert InputRecs(w1, w2, 1) == d + [];
    assert InputRecs(w1, w2, 2) == c + (d + []);
    assert InputRecs(w1, w2, 3) == b + (c + (d + []));
    assert a + (b + (c + (d + []))) == a + b + c + d;
  }

  /** An external trigger adds a record for each input that is set, with the full time of that input,
      unless it comes within the ignore period after the last one. */
  lemma ExternalRecords(cfg: BifConfig, t: Trig, low: Byte, set_: seq<bool>, f: seq<Byte>, number: int, time: int)
    requires |set_| == |f| == 4 && 0 <= number < 4294967296 && 0 <= time < 281474976710656
    ensures var since := (32 * time - t.lastTime) % 18446744073709551616;
      NewRecs(cfg, t, FirstWord(1, InputBits(low, set_), time), SecondWord(f, number))
      == if since > cfg.ignorePeriod % 18446744073709551616 then RecordsFor(set_, f, number, time) else []
  {
    var w1, w2 := FirstWord(1, InputBits(low, set_), time), SecondWord(f, number);
    FirstRead(1, InputBits(low, set_), time);
    InputsRead(low, set_);
    SecondRead(f, number);
    InputParts(w1, w2);
    InputPartIs(w1, w2, 3, set_[3], number, time, Fine(f[3]));
    InputPartIs(w1, w2, 2, set_[2], number, time, Fine(f[2]));
    InputPartIs(w1, w2, 1, set_[1], number, time, Fine(f[1]));
    InputPartIs(w1, w2, 0, set_[0], number, time, Fine(f[0]));
    TakenExternal(cfg, t, w1, w2);
  }

  lemma TakenExternal(cfg: BifConfig, t: Trig, w1: Word, w2: Word)
    requires KindOf(w1) == EXTERNAL
    ensures NewRecs(cfg, t, w1, w2)
         == if (32 * TimeOf(w1) - t.lastTime) % 18446744073709551616 > cfg.ignorePeriod % 18446744073709551616
            then InputRecs(w1, w2, 4) else []
  {
  }

  /** An internal trigger adds one record, with 32 bits of its time. */
  lemma InternalRecord(cfg: BifConfig, t: Trig, middle: int, f: seq<Byte>, number: int, time: int)
    requires |f| == 4 && 0 <= middle < 4096 && 0 <= number < 4294967296 && 0 <= time < 281474976710656
    ensures NewRecs(cfg, t, FirstWord(0, middle, time), SecondWord(f, number))
         == [Rec(16777216, number, (32 * time + Fine(f[0])) % 4294967296, 0)]
  {
    FirstRead(0, middle, time);
    SecondRead(f, number);
    ShortTime(number, 32 * time + Fine(f[0]));
  }

  lemma ShortTime(number: int, time: int)
    requires 0 <= number < 4294967296 && time >= 0
    ensures MakeRec(REC_TRIGGER, number, time % TWO_32) == Rec(16777216, number, time % 4294967296, 0)
  {
  }

  // ---------- Crossings ----------

  /** `x` is the crossing of a time `d` behind the begin of crossing 0, narrowed to an `int`. */
  ghost predicate CrossingOf(x: int, d: int, length: int) {
    exists q {:trigger InCrossing(d, q, length)} ::
      InCrossing(d, q, length) && (x - q) % 4294967296 == 0 && -2147483648 <= x < 2147483648
  }

  /** The crossing is that of the time if and only if it fits an `int`. */
  lemma BifBxidExact(r: Readout, t: Rec, b: int)
    requires InCrossing(t.low + 4294967296 * t.high - 32 * r.start - r.offset, b, r.length)
    ensures r.Bxid(t) == b <==> -2147483648 <= b < 2147483648
    ensures (r.Bxid(t) - b) % 4294967296 == 0
  {
    TruncDivIs(t.low + 4294967296 * t.high - 32 * r.start - r.offset, r.length, b);
    NarrowExact(b);
  }

  lemma BxidTold(r: Readout, t: Rec)
    ensures CrossingOf(r.Bxid(t), t.low + 4294967296 * t.high - 32 * r.start - r.offset, r.length)
  {
    var d := t.low + 4294967296 * t.high - 32 * r.start - r.offset;
    var q := TruncDiv(d, r.length);
    TruncDivIs(d, r.length, q);
    NarrowExact(q);
    assert InCrossing(d, q, r.length);
  }

  // ---------- Records of a cycle ----------

  /** The records whose type has `class_` in its highest byte. */
  function OfClass(rs: seq<Rec>, class_: int): seq<Rec> {
    if rs == [] then [] else (if rs[0].kind / 16777216 == class_ then [rs[0]] else []) + OfClass(rs[1..], class_)
  }

  function WordsOf(r: Rec): seq<int> {
    [r.kind, r.count, r.low, r.high]
  }

  /** Words of the last of some records. */
  function LastWords(rs: seq<Rec>): seq<int> {
    if rs == [] then [] else WordsOf(rs[|rs| - 1])
  }

  /** The records of whole cycle data: four words each. */
  function RecordsIn(data: seq<int>): (rs: seq<Rec>)
    ensures |rs| == |data| / 4
    ensures forall i :: 0 <= i < |rs| ==> rs[i] == Rec(data[4 * i], data[4 * i + 1], data[4 * i + 2], data[4 * i + 3])
  {
    seq(|data| / 4, i requires 0 <= i < |data| / 4 => Rec(data[4 * i], data[4 * i + 1], data[4 * i + 2], data[4 * i + 3]))
  }

  lemma RecordsFront(data: seq<int>)
    requires |data| >= 4
    ensures RecordsIn(data) == [Rec(data[0], data[1], data[2], data[3])] + RecordsIn(data[4..])
  {
    var more := data[4..];
    forall i | 0 < i < |RecordsIn(data)| ensures RecordsIn(data)[i] == RecordsIn(more)[i - 1] {
      assert data[4 * i] == more[4 * (i - 1)];
    }
  }

  lemma {:induction false} SplitIsRecords(data: seq<int>)
    ensures Split(data) == RecordsIn(data)
    decreases |data|
  {
    if |data| >= 4 {
      SplitIsRecords(data[4..]);
      RecordsFront(data);
    }
  }

  lemma {:induction false} TriggersAreClass(rs: seq<Rec>)
    ensures TriggersOf(rs) == OfClass(rs, 1)
  {
    if rs != [] {
      TriggersAreClass(rs[1..]);
    }
  }

  lemma {:induction false} ClassAdd(rs: seq<Rec>, r: Rec, class_: int)
    ensures OfClass(rs + [r], class_) == OfClass(rs, class_) + if r.kind / 16777216 == class_ then [r] else []
  {
    if rs == [] {
      assert [r][1..] == [] && [] + [r] == [r];
    } else {
      assert (rs + [r])[1..] == rs[1..] + [r];
      ClassAdd(rs[1..], r, class_);
      Regroup(if rs[0].kind / 16777216 == class_ then [rs[0]] else [], OfClass(rs[1..], class_),
              if r.kind / 16777216 == class_ then [r] else []);
    }
  }

  lemma {:induction false} LastIsClass(rs: seq<Rec>, class_: int)
    ensures LastOf(rs, class_) == LastWords(OfClass(rs, class_))
  {
    if rs != [] {
      var front, r := rs[..|rs| - 1], rs[|rs| - 1];
      assert rs == front + [r];
      LastIsClass(front, class_);
      ClassAdd(front, r, class_);
    }
  }

  // ---------- What the events tell ----------

  /** Readout cycle, trigger number counted from the first one, time and crossing of a trigger. */
  ghost predicate TellsOf(cfg: BifConfig, b: BifState, t: Rec, roc: int, number: int, time: int, bxid: int) {
    && roc == b.cyc.number + cfg.countRocFrom
    && number == (t.count - b.trig.firstNumber) % 4294967296
    && time == t.low + 4294967296 * t.high
    && CrossingOf(bxid, time - 32 * b.acq.start - cfg.firstBxidOffset, cfg.bxidLength)
  }

  /** TRIGGERS mode: one event for each trigger record, with the record between the last start and the last
      stop record. */
  ghost predicate TriggersTold(cfg: BifConfig, b: BifState, es: seq<BifEvent>) {
    var rs := RecordsIn(b.cycleData);
    var ts, start, stop := OfClass(rs, 1), LastWords(OfClass(rs, 3)), LastWords(OfClass(rs, 2));
    && |es| == |ts|
    && forall i :: 0 <= i < |es| ==>
         && es[i].TriggerEvent? && es[i].data == start + WordsOf(ts[i]) + stop
         && TellsOf(cfg, b, ts[i], es[i].roc, es[i].number, es[i].time, es[i].bxid)
  }

  /** BXID mode: one event for each group of triggers between which the crossing does not change. It tells
      of the first trigger of the group, and holds all of them. */
  ghost predicate GroupsTold(cfg: BifConfig, b: BifState, gs: seq<seq<Rec>>, es: seq<BifEvent>) {
    var rs := RecordsIn(b.cycleData);
    && Concat(gs) == OfClass(rs, 1) && |es| == |gs|
    && forall i :: 0 <= i < |es| ==> GroupTold(cfg, b, gs, es, i, LastWords(OfClass(rs, 3)), LastWords(OfClass(rs, 2)))
  }

  /** Time of a trigger behind the begin of crossing 0. */
  function CrossingTime(cfg: BifConfig, b: BifState, t: Rec): int {
    t.low + 4294967296 * t.high - 32 * b.acq.start - cfg.firstBxidOffset
  }

  /** What the events of a build tell, in each mode. */
  ghost predicate EventsTold(cfg: BifConfig, b: BifState, es: seq<BifEvent>) {
    match cfg.mode
    case RocMode => es == [CycleEvent(b.cyc.number + cfg.countRocFrom, 32 * b.acq.start, 32 * b.acq.stop, b.cycleData)]
    case TriggerMode => TriggersTold(cfg, b, es)
    case BxidMode => exists gs :: GroupsTold(cfg, b, gs, es)
  }

  lemma TriggerTells(cfg: BifConfig, b: BifState, t: Rec, start: seq<int>, stop: seq<int>)
    ensures var e := TriggerEventOf(Here(cfg, b), t, start, stop);
      e.data == start + WordsOf(t) + stop && TellsOf(cfg, b, t, e.roc, e.number, e.time, e.bxid)
  {
    BxidTold(Here(cfg, b), t);
  }

  lemma TriggerBuildTells(cfg: BifConfig, b: BifState)
    requires cfg.mode.TriggerMode?
    ensures TriggersTold(cfg, b, NewEvents(cfg, b))
  {
    var rs, r := Split(b.cycleData), Here(cfg, b);
    SplitIsRecords(b.cycleData);
    TriggersAreClass(rs);
    LastIsClass(rs, 3);
    LastIsClass(rs, 2);
    var ts, start, stop := TriggersOf(rs), LastOf(rs, 3), LastOf(rs, 2);
    var es := TriggerEvents(r, ts, start, stop);
    assert NewEvents(cfg, b) == es;
    forall i | 0 <= i < |es|
      ensures es[i].TriggerEvent? && es[i].data == start + WordsOf(ts[i]) + stop
      ensures TellsOf(cfg, b, ts[i], es[i].roc, es[i].number, es[i].time, es[i].bxid)
    {
      TriggerEventsTell(r, ts, start, stop, i);
      TriggerTells(cfg, b, ts[i], start, stop);
    }
  }

  /** The event of a group. */
  lemma GroupTells(cfg: BifConfig, b: BifState, first: bool, g: seq<Rec>, start: seq<int>, stop: seq<int>)
    requires OneCrossing(Here(cfg, b), g)
    ensures var e := GroupEvent(Here(cfg, b), first, g, start, stop);
      && TellsOf(cfg, b, g[0], e.roc, e.number, e.time, e.bxid)
      && forall k :: 0 <= k < |g| ==> CrossingOf(e.bxid, CrossingTime(cfg, b, g[k]), cfg.bxidLength)
  {
    var r := Here(cfg, b);
    forall k | 0 <= k < |g| ensures CrossingOf(r.Bxid(g[0]), CrossingTime(cfg, b, g[k]), cfg.bxidLength) {
      BxidTold(r, g[k]);
    }
    BxidTold(r, g[0]);
  }

  /** The event of a group, and its neighbour. */
  ghost predicate GroupTold(cfg: BifConfig, b: BifState, gs: seq<seq<Rec>>, es: seq<BifEvent>, i: nat, start: seq<int>, stop: seq<int>)
    requires i < |gs| == |es|
  {
    && gs[i] != [] && es[i].BxidEvent? && es[i].data == Payload(i == 0, gs[i], start, stop)
    && TellsOf(cfg, b, gs[i][0], es[i].roc, es[i].number, es[i].time, es[i].bxid)
    && (forall k :: 0 <= k < |gs[i]| ==> CrossingOf(es[i].bxid, CrossingTime(cfg, b, gs[i][k]), cfg.bxidLength))
    && (i > 0 ==> es[i - 1].BxidEvent? && es[i].bxid != es[i - 1].bxid)
  }

  lemma GroupsTell(cfg: BifConfig, b: BifState, gs: seq<seq<Rec>>, start: seq<int>, stop: seq<int>, i: nat)
    requires AllOneCrossing(Here(cfg, b), gs) && Changes(Here(cfg, b), gs) && i < |gs|
    ensures GroupTold(cfg, b, gs, GroupEvents(Here(cfg, b), true, gs, start, stop), i, start, stop)
  {
    var r := Here(cfg, b);
    assert OneCrossing(r, gs[i]);
    GroupTells(cfg, b, i == 0, gs[i], start, stop);
    if i > 0 {
      assert r.Bxid(gs[i - 1][0]) != r.Bxid(gs[i][0]);
    }
  }

  lemma BxidBuildTells(cfg: BifConfig, b: BifState)
    requires cfg.mode.BxidMode?
    ensures GroupsTold(cfg, b, GroupsOf(Here(cfg, b), OfClass(RecordsIn(b.cycleData), 1)), NewEvents(cfg, b))
  {
    var rs, r := Split(b.cycleData), Here(cfg, b);
    SplitIsRecords(b.cycleData);
    TriggersAreClass(rs);
    LastIsClass(rs, 3);
    LastIsClass(rs, 2);
    var ts, start, stop := TriggersOf(rs), LastOf(rs, 3), LastOf(rs, 2);
    var gs := GroupsOf(r, ts);
    GroupsMeaning(r, ts);
    BxidEventsAre(r, ts, start, stop);
    assert NewEvents(cfg, b) == GroupEvents(r, true, gs, start, stop);
    forall i | 0 <= i < |gs| ensures GroupTold(cfg, b, gs, NewEvents(cfg, b), i, start, stop) {
      GroupsTell(cfg, b, gs, start, stop, i);
    }
  }

  lemma BuildTells(cfg: BifConfig, b: BifState)
    ensures EventsTold(cfg, b, NewEvents(cfg, b))
  {
    match cfg.mode
    case RocMode =>
    case TriggerMode => TriggerBuildTells(cfg, b);
    case BxidMode => BxidBuildTells(cfg, b);
  }

  /** The events of builds, one build after the other. */
  ghost predicate AllTold(cfg: BifConfig, bs: seq<BifState>, es: seq<BifEvent>)
    decreases |bs|
  {
    if bs == [] then es == []
    else exists n: nat :: n <= |es| && EventsTold(cfg, bs[0], es[..n]) && AllTold(cfg, bs[1..], es[n..])
  }

  lemma {:induction false} BuildsTell(cfg: BifConfig, bs: seq<BifState>)
    ensures AllTold(cfg, bs, EventsFrom(cfg, bs))
    decreases |bs|
  {
    if bs != [] {
      var now, more := NewEvents(cfg, bs[0]), EventsFrom(cfg, bs[1..]);
      BuildTells(cfg, bs[0]);
      BuildsTell(cfg, bs[1..]);
      assert (now + more)[..|now|] == now && (now + more)[|now|..] == more;
    }
  }

  /** Over any run, in every mode: the new events are those of the builds, in order, and those of each
      build tell what its cycle, its records and its times say. */
  lemma RunTells(cfg: BifConfig, st: BifState, ps: seq<Packet>)
    requires WholeRecords(st)
    ensures var r := Run(cfg, st, ps);
      && st.events <= r.events && AllTold(cfg, RunBuilds(cfg, st, ps), r.events[|st.events|..])
  {
    var bs := RunBuilds(cfg, st, ps);
    RunRecords(cfg, st, ps);
    BuildsTell(cfg, bs);
    assert (st.events + EventsFrom(cfg, bs))[|st.events|..] == EventsFrom(cfg, bs);
  }

  // ---------- The times of a cycle ----------

  /** Time of the last word of a type, or `before`. */
  function LastTime(ps: seq<Packet>, kind: int, before: int): int
  {
    if ps == [] then before
    else
      var p := ps[|ps| - 1];
      if p.One? && p.w / 1152921504606846976 == kind then p.w % 281474976710656 else LastTime(ps[..|ps| - 1], kind, before)
  }

  lemma {:induction false} GapTimes(cfg: BifConfig, st: BifState, missing: nat)
    ensures FillGap(cfg, st, missing).acq == st.acq && FillGap(cfg, st, missing).stats == st.stats
    ensures forall b :: b in GapBuilds(cfg, st, missing) ==> b.acq == st.acq
    decreases missing
  {
    if missing > 0 {
      var b := Build(cfg, st);
      GapTimes(cfg, b.(cyc := b.cyc.(number := b.cyc.number + 1)), missing - 1);
    }
  }

  /** Start and stop of the last cycle are the times of the last shutter words of type 3 and 2. */
  lemma {:induction false} TimesKept(cfg: BifConfig, st: BifState, ps: seq<Packet>)
    ensures Run(cfg, st, ps).acq == Acq(LastTime(ps, 3, st.acq.start), LastTime(ps, 2, st.acq.stop))
    decreases |ps|
  {
    if ps != [] {
      var front, p := ps[..|ps| - 1], ps[|ps| - 1];
      assert ps == front + [p];
      RunSnoc(cfg, st, front, p);
      TimesKept(cfg, st, front);
      PacketTimes(cfg, Run(cfg, st, front), p);
    }
  }

  lemma {:induction false} RunSnoc(cfg: BifConfig, st: BifState, front: seq<Packet>, p: Packet)
    ensures Run(cfg, st, front + [p]) == Apply(cfg, Run(cfg, st, front), p)
    decreases |front|
  {
    if front == [] {
      assert [] + [p] == [p] && [p][1..] == [];
    } else {
      assert (front + [p])[1..] == front[1..] + [p];
      RunSnoc(cfg, Apply(cfg, st, front[0]), front[1..], p);
    }
  }

  /** A packet's own time is that of the cycle it opens or closes; the cycles missing in front of an opened
      one are built with its start. */
  lemma PacketTimes(cfg: BifConfig, s: BifState, p: Packet)
    ensures var on, off := LastTime([p], 3, s.acq.start), LastTime([p], 2, s.acq.stop);
      && Apply(cfg, s, p).acq == Acq(on, off)
      && forall b :: b in PacketBuilds(cfg, s, p) ==> b.acq == Acq(on, off) || (b == s && s.cyc.started)
  {
    assert [p][..0] == [];
    if p.One? {
      var time, counter := TimeOf(p.w), InputsOf(p.w);
      if KindOf(p.w) == SHUTTER_ON {
        var st0 := if BuildsUnstopped(s.cyc, counter) then Build(cfg, s) else s;
        var st1 := Open1(st0, time, counter);
        GapTimes(cfg, st1, Missing(st1.cyc, counter));
      }
    }
  }

  // ---------- Shutter records ----------

  /** A record with two halves of a time in 25 ns steps, which are 32 fine steps. */
  function ShutterWords(kind: int, number: int, time: int): seq<int> {
    [kind, number % 4294967296, (32 * time) % 4294967296, (32 * time) / 4294967296]
  }

  lemma {:induction false} GapData(cfg: BifConfig, st: BifState, missing: nat)
    ensures FillGap(cfg, st, missing).cycleData == if missing == 0 then st.cycleData else []
    decreases missing
  {
    if missing > 0 {
      var b := Build(cfg, st);
      GapData(cfg, b.(cyc := b.cyc.(number := b.cyc.number + 1)), missing - 1);
    }
  }

  lemma ShutterRecord(kind: int, number: int, time: int)
    requires 0 <= time < 281474976710656
    ensures Flat(MakeRec(kind, number, 32 * time)) == ShutterWords(kind, number, time)
  {
    assert 0 <= (32 * time) / 4294967296 < 4294967296;
  }

  /** A shutter-on word adds the record of its cycle to what is left of the open one. */
  lemma OnRecord(cfg: BifConfig, s: BifState, counter: int, time: int)
    requires 0 <= counter < 4096 && 0 <= time < 281474976710656
    ensures var p := One(FirstWord(3, counter, time)); var r := Apply(cfg, s, p);
      r.cycleData == (if PacketBuilds(cfg, s, p) == [] then s.cycleData else []) + ShutterWords(50331648, r.cyc.number, time)
  {
    FirstRead(3, counter, time);
    OnData(cfg, s, time, counter);
    ShutterRecord(50331648, ShutterOn(cfg, s, time, counter).cyc.number, time);
  }

  lemma OnData(cfg: BifConfig, s: BifState, time: int, counter: int)
    ensures var r := ShutterOn(cfg, s, time, counter);
      r.cycleData == (if OnBuilds(cfg, s, time, counter) == [] then s.cycleData else [])
                     + Flat(MakeRec(REC_START, r.cyc.number, 32 * time))
  {
    var st0 := if BuildsUnstopped(s.cyc, counter) then Build(cfg, s) else s;
    var st1 := Open1(st0, time, counter);
    GapData(cfg, st1, Missing(st1.cyc, counter));
  }

  /** A shutter-off word adds the record of the open cycle, from which the events are built. */
  lemma OffRecord(cfg: BifConfig, s: BifState, counter: int, time: int)
    requires 0 <= counter < 4096 && 0 <= time < 281474976710656
    ensures var p := One(FirstWord(2, counter, time)); var bs := PacketBuilds(cfg, s, p);
      && |bs| == 1 && bs[0].cycleData == s.cycleData + ShutterWords(33554432, s.cyc.number, time)
      && bs[0].cyc.number == s.cyc.number && Apply(cfg, s, p).cycleData == []
  {
    FirstRead(2, counter, time);
    ShutterRecord(33554432, s.cyc.number, time);
  }

  // ---------- Statistics ----------

  predicate IsOff(p: Packet) {
    p.One? && p.w / 1152921504606846976 == 2
  }

  predicate IsOn(p: Packet) {
    p.One? && p.w / 1152921504606846976 == 3
  }

  /** Sum of the lengths between a shutter-off word and the last shutter-on word before it, in whichever
      order their times are. */
  function OnSum(ps: seq<Packet>, start: int): nat {
    if ps == [] then 0
    else
      var front, p := ps[..|ps| - 1], ps[|ps| - 1];
      OnSum(front, start) + OffLength(p, LastTime(front, 3, start))
  }

  lemma ModAdd(base: int, sum: int, before: int, len: int, now: int)
    requires before == (base + sum) % 18446744073709551616 && now == (before + len) % 18446744073709551616
    ensures now == (base + (sum + len)) % 18446744073709551616
  {
  }

  /** The length that a shutter-off word ends. */
  function OffLength(p: Packet, start: int): nat {
    if IsOff(p) then Abs(p.w % 281474976710656 - start) else 0
  }

  /** The run's on-time is the sum of these lengths, and its end the time of the last shutter-off word. */
  predicate StatsKept(st: BifState, ps: seq<Packet>, s: BifStats) {
    && s.onTime == (st.stats.onTime + OnSum(ps, st.acq.start)) % 18446744073709551616
    && s.runStop == LastTime(ps, 2, st.stats.runStop)
  }

  lemma HistoryAdd(front: seq<Packet>, p: Packet, start: int, kind: int, before: int)
    ensures OnSum(front + [p], start) == OnSum(front, start) + OffLength(p, LastTime(front, 3, start))
    ensures LastTime(front + [p], kind, before)
         == if p.One? && p.w / 1152921504606846976 == kind then p.w % 281474976710656 else LastTime(front, kind, before)
  {
    assert (front + [p])[..|front|] == front;
  }

  lemma StatsStep(st: BifState, front: seq<Packet>, p: Packet, s: BifStats, r: BifStats)
    requires StatsKept(st, front, s)
    requires r.onTime == (s.onTime + OffLength(p, LastTime(front, 3, st.acq.start))) % 18446744073709551616
    requires r.runStop == if IsOff(p) then p.w % 281474976710656 else s.runStop
    ensures StatsKept(st, front + [p], r)
  {
    var len, sum := OffLength(p, LastTime(front, 3, st.acq.start)), OnSum(front, st.acq.start);
    HistoryAdd(front, p, st.acq.start, 2, st.stats.runStop);
    assert OnSum(front + [p], st.acq.start) == sum + len;
    ModAdd(st.stats.onTime, sum, s.onTime, len, r.onTime);
  }

  lemma {:induction false} OnTimeKept(cfg: BifConfig, st: BifState, ps: seq<Packet>)
    requires 0 <= st.stats.onTime < 18446744073709551616
    ensures StatsKept(st, ps, Run(cfg, st, ps).stats)
    decreases |ps|
  {
    if ps != [] {
      var front, p := ps[..|ps| - 1], ps[|ps| - 1];
      assert ps == front + [p];
      var s := Run(cfg, st, front);
      RunSnoc(cfg, st, front, p);
      OnTimeKept(cfg, st, front);
      TimesKept(cfg, st, front);
      OnTimeStep(cfg, st, front, p, s);
    }
  }

  lemma OnTimeStep(cfg: BifConfig, st: BifState, front: seq<Packet>, p: Packet, s: BifState)
    requires 0 <= s.stats.onTime < 18446744073709551616
    requires StatsKept(st, front, s.stats) && s.acq.start == LastTime(front, 3, st.acq.start)
    ensures StatsKept(st, front + [p], Apply(cfg, s, p).stats)
  {
    PacketStats(cfg, s, p, Apply(cfg, s, p).stats);
    StatsStep(st, front, p, s.stats, Apply(cfg, s, p).stats);
  }

  lemma PacketStats(cfg: BifConfig, s: BifState, p: Packet, r: BifStats)
    requires 0 <= s.stats.onTime < 18446744073709551616 && r == Apply(cfg, s, p).stats
    ensures
      && r.onTime == (s.stats.onTime + OffLength(p, s.acq.start)) % 18446744073709551616
      && r.runStop == if IsOff(p) then p.w % 281474976710656 else s.stats.runStop
  {
    if p.One? && KindOf(p.w) == SHUTTER_ON {
      var time, counter := TimeOf(p.w), InputsOf(p.w);
      var st0 := if BuildsUnstopped(s.cyc, counter) then Build(cfg, s) else s;
      var st1 := Open1(st0, time, counter);
      GapTimes(cfg, st1, Missing(st1.cyc, counter));
    }
  }

  // ---------- Trigger numbers ----------

  /** The first number that does not continue the sequence behind `last`, or `before`. */
  function FirstJump(last: int, ns: seq<int>, before: int): int
    decreases |ns|
  {
    if ns == [] then before
    else if ns[0] != (last + 1) % 4294967296 then ns[0]
    else FirstJump(ns[0], ns[1..], before)
  }

  function NumbersOf(ps: seq<Packet>): seq<int> {
    if ps == [] then [] else (if ps[0].Two? then [ps[0].w2 % 4294967296] else []) + NumbersOf(ps[1..])
  }

  predicate NoOn(ps: seq<Packet>) {
    forall i :: 0 <= i < |ps| ==> !IsOn(ps[i])
  }

  lemma PacketNumber(cfg: BifConfig, s: BifState, p: Packet)
    requires !IsOn(p)
    ensures var t, r := s.trig, Apply(cfg, s, p).trig;
      && r.id == (if p.Two? then p.w2 % 4294967296 else t.id)
      && (if p.Two? && t.firstPending && p.w2 % 4294967296 != (t.id + 1) % 4294967296
          then !r.firstPending && r.firstNumber == p.w2 % 4294967296
          else r.firstPending == t.firstPending && r.firstNumber == t.firstNumber)
  {
  }

  /** From a shutter-on word to the next: while no first trigger is known, it is the first one whose number
      does not continue the sequence; so a first number of 0 in a new run is not noticed. */
  lemma {:induction false} FirstNumberIs(cfg: BifConfig, st: BifState, ps: seq<Packet>)
    requires NoOn(ps)
    ensures Run(cfg, st, ps).trig.firstNumber
         == if st.trig.firstPending then FirstJump(st.trig.id, NumbersOf(ps), st.trig.firstNumber) else st.trig.firstNumber
    decreases |ps|
  {
    if ps != [] {
      var s := Apply(cfg, st, ps[0]);
      PacketNumber(cfg, st, ps[0]);
      FirstNumberIs(cfg, s, ps[1..]);
      var more := NumbersOf(ps[1..]);
      if ps[0].Two? {
        assert ([ps[0].w2 % 4294967296] + more)[1..] == more;
      } else {
        assert [] + more == more;
      }
    }
  }
}
