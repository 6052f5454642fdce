/**
 `ScReader` as the object it is: packets update its fields in place, building passes consume its
 buffers. Every method is proved to do to the fields what the functions of `ScReading` say.
 */
module ScReaderObject {
  import opened Sequences
  import opened OrderedMap
  import opened GrayCode
  import opened AsicPacket
  import opened LdaStream
  import opened CppDivision
  import opened LdaTimestamps
  import opened EventBuilding
  import opened ScReading
  import opened ValidatedBuilding
  import opened ValidatedSteps
  import BxidBuilding
  import Counters

  class ScReader {
    const cfg: ReaderConfig
    const recode: Recoding  // `grayRecode` on words read as numbers
    var buf: seq<Byte>
    var cycleNo: int
    var cycleNoTS: int
    var insideAcq: bool
    var trigId: int
    var trigIdKnown: bool
    var stats: Stats
    var asicData: seq<Item>
    var timestampData: seq<Entry<TimeData>>
    var minLastBxid: seq<Entry<int>>
    var lastBuilt: int
    var eventQueue: seq<Event>

    ghost function TimeState(): TsState
      reads this
    {
      TsState(cycleNoTS, insideAcq, trigId, trigIdKnown, stats, timestampData)
    }

    ghost function State(): ScState
      reads this
    {
      ScState(cycleNo, asicData, minLastBxid, TimeState(), lastBuilt, eventQueue)
    }

    /** `OnStart`. */
    constructor (cfg: ReaderConfig)
      ensures this.cfg == cfg && recode == BxidOf && State() == Start(cfg) && buf == []
    {
      this.cfg := cfg;
      recode := BxidOf;
      buf := [];
      cycleNo, cycleNoTS := -1, -1;
      insideAcq := false;
      trigId := (cfg.ts.trigidStartsFrom - 1) % U32_SIZE;
      trigIdKnown := false;
      stats := NO_STATS;
      asicData, timestampData, minLastBxid := [], [], [];
      lastBuilt := if cfg.mode.RocMode? || cfg.mode.BxidMode? then -1 else cfg.build.generateFrom - 1;
      eventQueue := [];
    }

    // ---------- ASIC data ----------

    /** 36 words collected in the order sent, then copied out backwards. */
    static method ReadChannels(pkt: seq<Byte>, at: nat) returns (words: seq<U16>)
      requires at + 2 * CHANNELS <= |pkt|
      ensures words == Channels(pkt, at)
    {
      var sent: seq<U16> := [];
      for np := 0 to CHANNELS
        invariant |sent| == np
        invariant forall i :: 0 <= i < np ==> sent[i] == Le16(pkt, at + 2 * i)
      {
        sent := sent + [Le16(pkt, at + 2 * np)];
      }
      words := [];
      for n := 0 to CHANNELS
        invariant |words| == n
        invariant forall i :: 0 <= i < n ==> words[i] == Le16(pkt, at + 2 * (CHANNELS - i - 1))
      {
        words := words + [sent[CHANNELS - n - 1]];
      }
    }

    /** The full readout cycle for the 8 bits in the header. */
    method UpdateCycleNo(short: Byte)
      modifies `cycleNo
      ensures cycleNo == NextCycle(old(cycleNo), short, cfg.maxRocJump)
    {
      var oldCycleNo := cycleNo;
      assert Counters.Pow2(8) == 256 by {
        assert Counters.Pow2(4) == 16;
      }
      cycleNo := Counters.UpdateCntModulo(cycleNo, short, 8, cfg.maxRocJump);
      var cycleDifference := ToInt8(cycleNo - oldCycleNo);
      if cycleDifference > cfg.maxRocJump {
        cycleNo := oldCycleNo;
      }
    }

    /** A sixteenth memory cell was filled in crossing `bxid`. */
    method NoteStop(bxid: U16)
      modifies `minLastBxid
      ensures minLastBxid == LowerFull(old(minLastBxid), cycleNo, bxid)
    {
      var lowest := Get(minLastBxid, cycleNo, 0);
      if lowest != 0 {
        if lowest > bxid {
          lowest := bxid;
        }
      } else {
        lowest := bxid;
      }
      minLastBxid := Put(minLastBxid, cycleNo, lowest);
    }

    /** The block of one accepted memory cell. */
    method ReadBlock(pkt: seq<Byte>, n: nat, memCell: nat, slot: nat, bxid: U16) returns (b: Block)
      requires Framed(pkt, n) && memCell < n && slot <= n - 1 - memCell
      ensures b == BlockAt(cfg.chip, cycleNo, bxid, pkt, n, n - 1 - memCell, slot)
    {
      var at := HEADER_SIZE + 8 + 144 * slot;
      var tdc := ReadChannels(pkt, at);
      var adc := ReadChannels(pkt, at + 2 * CHANNELS);
      b := Block(cycleNo, bxid, memCell, ChipOf(cfg.chip, pkt, n), tdc, adc);
    }

    /** One memory cell: its block, if accepted, and the next channel group to read. */
    method ReadCell(pkt: seq<Byte>, n: nat, memCell: nat, slot: nat)
      returns (found: seq<Block>, next: nat)
      requires Framed(pkt, n) && memCell < n && slot <= n - 1 - memCell
      modifies `minLastBxid
      ensures slot <= next <= n - memCell
      ensures found + CellsFrom(cfg.chip, recode, cycleNo, pkt, n, n - memCell, next)
        == CellsFrom(cfg.chip, recode, cycleNo, pkt, n, n - 1 - memCell, slot)
      ensures memCell == 15 ==>
        minLastBxid == LowerFull(old(minLastBxid), cycleNo, recode(SentAt(pkt, n, n - 16)))
      ensures memCell != 15 ==> minLastBxid == old(minLastBxid)
    {
      var bxid := recode(SentAt(pkt, n, n - 1 - memCell));
      if memCell == 15 {
        NoteStop(bxid);
      }
      if bxid < cfg.chip.minimumBxid {
        return [], slot;
      }
      var b := ReadBlock(pkt, n, memCell, slot, bxid);
      return [b], slot + 1;
    }

    /** The memory cells of a packet of proper length. */
    method ReadCells(pkt: seq<Byte>, n: nat) returns (blocks: seq<Block>)
      requires Framed(pkt, n)
      modifies `minLastBxid
      ensures blocks == CellsFrom(cfg.chip, recode, cycleNo, pkt, n, 0, 0)
      ensures n >= 16 ==>
        minLastBxid == LowerFull(old(minLastBxid), cycleNo, recode(SentAt(pkt, n, n - 16)))
      ensures n < 16 ==> minLastBxid == old(minLastBxid)
    {
      var memCell, slot := n, 0;
      blocks := [];
      ghost var all := CellsFrom(cfg.chip, recode, cycleNo, pkt, n, 0, 0);
      ghost var full := if n >= 16 then LowerFull(minLastBxid, cycleNo, recode(SentAt(pkt, n, n - 16))) else minLastBxid;
      while memCell > 0
        invariant 0 <= memCell <= n && slot <= n - memCell
        invariant blocks + CellsFrom(cfg.chip, recode, cycleNo, pkt, n, n - memCell, slot) == all
        invariant minLastBxid == if memCell <= 15 then full else old(minLastBxid)
      {
        memCell := memCell - 1;
        var found, next := ReadCell(pkt, n, memCell, slot);
        Regroup(blocks, found, CellsFrom(cfg.chip, recode, cycleNo, pkt, n, n - memCell, next));
        blocks := blocks + found;
        slot := next;
      }
    }

    /** `readAHCALData` on one packet. */
    method ReadAHCALData(pkt: seq<Byte>)
      requires GoodFrame(AsicFrame(pkt))
      modifies `cycleNo, `asicData, `minLastBxid
      ensures State() == Apply(cfg, recode, old(State()), AsicFrame(pkt))
    {
      UpdateCycleNo(pkt[4]);
      var blocks := [];
      if ProperLength(pkt) {
        blocks := ReadCells(pkt, CellCount(pkt));
      }
      asicData := Append(asicData, cycleNo, blocks);
    }

    // ---------- Timestamps ----------

    method StartAcquisition(time: int)
      modifies `stats, `insideAcq
      ensures insideAcq
      ensures stats == if old(insideAcq) then old(stats) else StartStats(old(stats), time)
    {
      if !insideAcq {
        stats := stats.(last := time);
        if stats.first == 0 {
          stats := stats.(first := time);
        }
        stats := stats.(prevStart := time);
        if stats.prevStop != 0 {
          var offtime := (time - stats.prevStop) % U64_SIZE;
          stats := stats.(offTime := (stats.offTime + offtime) % U64_SIZE, processings := stats.processings + [offtime]);
        }
        stats := stats.(cycleTriggers := 0);
      }
      insideAcq := true;
    }

    method StopAcquisition(time: int)
      modifies `stats, `insideAcq
      ensures !insideAcq
      ensures stats == if old(insideAcq) then StopStats(old(stats), time) else old(stats)
    {
      if insideAcq {
        stats := stats.(last := time, prevStop := time);
        if stats.prevStart != 0 {
          var ontime := (time - stats.prevStart) % U64_SIZE;
          stats := stats.(onTime := (stats.onTime + ontime) % U64_SIZE, acquisitions := stats.acquisitions + [ontime]);
          stats := stats.(histogram := Put(stats.histogram, stats.cycleTriggers, Get(stats.histogram, stats.cycleTriggers, 0) + 1));
          stats := stats.(cycles := stats.cycles + 1);
        }
      }
      insideAcq := false;
    }

    /** A trigger of readout cycle `cycle`. */
    method TriggerIncrement(cycle: int, p: TsPacket)
      modifies `stats, `trigId, `trigIdKnown, `timestampData
      ensures TimeState() == Trigger(cfg.ts, old(TimeState()), cycle, p)
    {
      if !trigIdKnown {
        trigIdKnown := true;
        trigId := (p.rawTrigId - 1) % U32_SIZE;
      }
      var difference := ToInt16(p.rawTrigId - trigId % U16_SIZE);
      if difference != 1 {
        if difference > 1 && difference < cfg.ts.maxTrigidSkip {
          trigId := (trigId + difference) % U32_SIZE;
          stats := stats.(lost := stats.lost + (difference - 1));
        }
        if difference < 1 || difference >= cfg.ts.maxTrigidSkip {
          return;
        }
      } else {
        trigId := (trigId + 1) % U32_SIZE;
      }
      if insideAcq {
        stats := stats.(inside := stats.inside + 1);
        stats := stats.(cycleTriggers := stats.cycleTriggers + 1);
      }
      var t := Get(timestampData, cycle, NO_TIME_DATA);
      t := t.(ids := t.ids + [ToInt32(trigId)]);
      t := t.(times := t.times + [p.time]);
      timestampData := Put(timestampData, cycle, t);
    }

    /** A start, stop or trigger packet. */
    method TimedPacket(ldaCycle: int, p: TsPacket)
      requires IsTimed(p.kind)
      modifies `stats, `insideAcq, `cycleNoTS, `trigId, `trigIdKnown, `timestampData
      ensures TimeState() == Timed(cfg.ts, old(TimeState()), ldaCycle, p)
    {
      var cycleDifference := ldaCycle - cycleNoTS;
      if !(cycleDifference > cfg.ts.maxRocJump || cycleDifference < -cfg.ts.maxRocJump) {
        cycleNoTS := ldaCycle;
      }
      var here := Get(timestampData, ldaCycle, NO_TIME_DATA);
      timestampData := Put(timestampData, ldaCycle, here);
      if p.kind == START_ACQ {
        StartAcquisition(p.time);
        timestampData := Put(timestampData, ldaCycle, here.(start := p.time));
        return;
      }
      if p.kind == STOP_ACQ {
        StopAcquisition(p.time);
        timestampData := Put(timestampData, ldaCycle, here.(stop := p.time));
        return;
      }
      TriggerIncrement(ldaCycle, p);
    }

    /** `readLDATimestamp` on one packet. */
    method ReadLDATimestamp(pkt: seq<Byte>)
      requires GoodFrame(TimestampFrame(pkt))
      modifies `stats, `insideAcq, `cycleNoTS, `trigId, `trigIdKnown, `timestampData
      ensures State() == Apply(cfg, recode, old(State()), TimestampFrame(pkt))
    {
      var p := TsPacketOf(pkt);
      assert Counters.Pow2(8) == 256 by {
        assert Counters.Pow2(4) == 16;
      }
      var ldaCycle := Counters.UpdateCntModulo(cycleNoTS, p.cycle, 8, 127);
      if !insideAcq && p.kind == TRIGID_INC {
        stats := stats.(outside := stats.outside + 1);
      }
      if p.kind == START_ACQ || p.kind == STOP_ACQ || p.kind == TRIGID_INC {
        TimedPacket(ldaCycle, p);
      }
    }

    // ---------- Event building ----------

    /** Dummy events for the numbers in front of `n`, when they are configured. */
    method InsertDummiesBefore(n: int)
      modifies `lastBuilt, `eventQueue
      ensures eventQueue == old(eventQueue) + FillBefore(cfg.build, old(lastBuilt), n)
      ensures lastBuilt == LastAfter(cfg.build, old(lastBuilt), n)
    {
      if !cfg.build.insertDummies {
        return;
      }
      lastBuilt := lastBuilt + 1;
      ghost var first := lastBuilt;
      while lastBuilt < n
        invariant first <= lastBuilt && (lastBuilt <= n || lastBuilt == first)
        invariant eventQueue + Dummies(lastBuilt, n) == old(eventQueue) + Dummies(first, n)
        decreases n - lastBuilt
      {
        Regroup(eventQueue, [DummyEvent(lastBuilt)], Dummies(lastBuilt + 1, n));
        eventQueue := eventQueue + [DummyEvent(lastBuilt)];
        lastBuilt := lastBuilt + 1;
      }
    }

    /** What is left of a building pass, given what it has already put into the queue. */
    twostate predicate PassGoesOn(b: Built, all: Built)
      reads this
    {
      eventQueue + b.events == old(eventQueue) + all.events && b == all.(events := b.events)
    }

    /** `buildROCEvents`. */
    method BuildROCEvents(dumpAll: bool)
      modifies `lastBuilt, `eventQueue, `asicData, `timestampData
      ensures var b := BuildRoc(cfg.build, old(asicData), old(timestampData), old(lastBuilt), Keep(cfg.build, dumpAll));
        eventQueue == old(eventQueue) + b.events && Built(b.events, asicData, timestampData, lastBuilt) == b
    {
      var keptEventCount := Keep(cfg.build, dumpAll);
      ghost var all := BuildRoc(cfg.build, asicData, timestampData, lastBuilt, keptEventCount);
      while |asicData| > keptEventCount
        invariant PassGoesOn(BuildRoc(cfg.build, asicData, timestampData, lastBuilt, keptEventCount), all)
      {
        ghost var queue, last0, ts0 := eventQueue, lastBuilt, timestampData;
        var roc := asicData[0].key;
        InsertDummiesBefore(roc);
        var times: Option<TimeData> := None;
        var data := asicData[0].value;
        if Has(timestampData, roc) && !cfg.build.ignoreTimestamps {
          times := Some(Get(timestampData, roc, NO_TIME_DATA));
          timestampData := Erase(timestampData, roc);
        }
        eventQueue := eventQueue + [RocEvent(roc, data, times)];
        asicData := asicData[1..];
        ghost var rest := BuildRoc(cfg.build, asicData, timestampData, lastBuilt, keptEventCount);
        JoinQueue(queue, FillBefore(cfg.build, last0, roc), RocEvent(roc, data, times), rest.events);
      }
    }

    static lemma JoinQueue(queue: seq<Event>, fill: seq<Event>, e: Event, rest: seq<Event>)
      ensures queue + (fill + [e] + rest) == (queue + fill + [e]) + rest
    {
    }

    /** The in-acquisition triggers of one readout cycle. */
    method BuildTriggers(roc: int, t: TimeData, data: seq<Block>)
      requires |t.ids| == |t.times|
      modifies `lastBuilt, `eventQueue
      ensures var r := TriggerEvents(cfg.build, roc, t, data, 0, old(lastBuilt));
        eventQueue == old(eventQueue) + r.events && lastBuilt == r.last
    {
      ghost var all := TriggerEvents(cfg.build, roc, t, data, 0, lastBuilt);
      var i := 0;
      while i < |t.times|
        invariant 0 <= i <= |t.ids|
        invariant var r := TriggerEvents(cfg.build, roc, t, data, i, lastBuilt);
          eventQueue + r.events == old(eventQueue) + all.events && r.last == all.last
      {
        i := i + 1;
        if t.times[i - 1] < t.start {
          continue;
        }
        if t.times[i - 1] > t.stop {
          continue;
        }
        if (t.stop - t.start) % U64_SIZE > 1000 * MILLISECOND_TICS {
          continue;
        }
        ghost var queue, last0 := eventQueue, lastBuilt;
        var n := t.ids[i - 1] + cfg.build.trigidOffset;
        InsertDummiesBefore(n);
        eventQueue := eventQueue + [TriggerEvent(n, roc, t.times[i - 1], data)];
        JoinQueue(queue, FillBefore(cfg.build, last0, n), TriggerEvent(n, roc, t.times[i - 1], data),
                  TriggerEvents(cfg.build, roc, t, data, i, lastBuilt).events);
      }
    }

    /** `buildTRIGIDEvents`. */
    method BuildTRIGIDEvents(dumpAll: bool)
      requires AllPaired(timestampData)
      modifies `lastBuilt, `eventQueue, `asicData, `timestampData
      ensures var b := BuildTrig(cfg.build, old(asicData), old(timestampData), old(lastBuilt), Keep(cfg.build, dumpAll));
        eventQueue == old(eventQueue) + b.events && Built(b.events, asicData, timestampData, lastBuilt) == b
    {
      var keptEventCount := Keep(cfg.build, dumpAll);
      ghost var all := BuildTrig(cfg.build, asicData, timestampData, lastBuilt, keptEventCount);
      while |asicData| > keptEventCount
        invariant AllPaired(timestampData)
        invariant PassGoesOn(BuildTrig(cfg.build, asicData, timestampData, lastBuilt, keptEventCount), all)
      {
        var roc := asicData[0].key;
        if Has(timestampData, roc) {
          ghost var queue, last0 := eventQueue, lastBuilt;
          var t := Get(timestampData, roc, NO_TIME_DATA);
          GetPaired(timestampData, roc);
          ErasePaired(timestampData, roc);
          BuildTriggers(roc, t, asicData[0].value);
          timestampData := Erase(timestampData, roc);
          Regroup(queue, TriggerEvents(cfg.build, roc, t, asicData[0].value, 0, last0).events,
                    BuildTrig(cfg.build, asicData[1..], timestampData, lastBuilt, keptEventCount).events);
        }
        asicData := asicData[1..];
      }
    }

    // ---------- Validated building ----------

    /** ASIC blocks into the table by bunch crossing. */
    static method TableOf(data: seq<Block>) returns (bxids: seq<Item>)
      ensures bxids == Group(ByCrossing(data))
    {
      bxids := [];
      var i := 0;
      while i < |data|
        invariant 0 <= i <= |data|
        invariant AppendAll(bxids, ByCrossing(data[i..])) == Group(ByCrossing(data))
      {
        assert ByCrossing(data[i..])[1..] == ByCrossing(data[i + 1..]) by {
          assert data[i..][1..] == data[i + 1..];
        }
        bxids := Append(bxids, data[i].bxid, [data[i]]);
        i := i + 1;
      }
    }

    /** Triggers into the multimap by calculated crossing. */
    method TriggerTable(t: TimeData) returns (triggers: seq<Trig>)
      requires cfg.build.bxidWidth != 0 && |t.ids| == |t.times|
      ensures triggers == InsertAll([], Arrived(cfg.build, t, 0))
    {
      triggers := [];
      if t.start == 0 {
        return;
      }
      var i := 0;
      while i < |t.times|
        invariant 0 <= i <= |t.ids|
        invariant InsertAll(triggers, Arrived(cfg.build, t, i)) == InsertAll([], Arrived(cfg.build, t, 0))
      {
        var b := TriggerBxid(cfg.build, t.start, t.times[i]);
        i := i + 1;
        if b > MAX_TRIGGER_BXID {
          assert [] + Arrived(cfg.build, t, i) == Arrived(cfg.build, t, i);
          continue;
        }
        assert ([Trig(b, t.ids[i - 1], t.times[i - 1])] + Arrived(cfg.build, t, i))[1..] == Arrived(cfg.build, t, i);
        triggers := Insert(triggers, Trig(b, t.ids[i - 1], t.times[i - 1]));
      }
    }

    /** The events still to come for outcomes `os` complete the queue to that of `all`. */
    twostate predicate MatchingGoesOn(roc: int, os: seq<Fate>, all: Validated)
      reads this
    {
      var v := EventsFor(cfg.build, roc, os, lastBuilt);
      eventQueue + v.events == old(eventQueue) + all.events && v.last == all.last
    }

    /** Moves the data iterator to the first crossing not before `b`. */
    static method KickOut(bxids: seq<Item>, from: nat, b: int, full: Option<int>, ghost ts: seq<Trig>) returns (it: nat)
      requires from <= |bxids| && Ordered(bxids) && ByBxid(ts) && ts != [] && ts[0].bxid == b
      ensures from <= it <= |bxids| && (it < |bxids| ==> bxids[it].key >= b)
      ensures Matches(bxids[it..], full, ts) == Matches(bxids[from..], full, ts)
    {
      it := from;
      while it < |bxids| && bxids[it].key < b
        invariant from <= it <= |bxids|
        invariant Matches(bxids[it..], full, ts) == Matches(bxids[from..], full, ts)
      {
        SkipGroup(bxids, it, full, ts);
        it := it + 1;
      }
    }

    /** How many triggers from `i` on share the crossing of the `i`-th. */
    static method CountIntraBxid(ts: seq<Trig>, i: nat) returns (n: nat)
      requires i < |ts|
      ensures 1 <= n <= |ts| - i && n == RunLength(ts[i..])
    {
      n := 1;
      while i + n < |ts| && ts[i + n].bxid == ts[i].bxid
        invariant 1 <= n <= |ts| - i
        invariant forall k :: i <= k < i + n ==> ts[k].bxid == ts[i].bxid
      {
        n := n + 1;
      }
      assert forall k :: 0 <= k < n ==> ts[i..][k] == ts[i + k];
      RunLengthIs(ts[i..], n);
    }

    /** The data event for the crossing of the `i`-th trigger. */
    method JoinTriggers(roc: int, bxids: seq<Item>, ts: seq<Trig>, full: Option<int>, at: nat, i: nat)
      returns (it: nat, next: nat)
      requires Ordered(bxids) && ByBxid(ts) && at < |bxids| && i < |ts|
      requires bxids[at].key == ts[i].bxid && Complete(full, ts[i].bxid)
      modifies `eventQueue
      ensures it <= |bxids| && i < next <= |ts|
      ensures var v := EventsFor(cfg.build, roc, Matches(bxids[it..], full, ts[next..]), lastBuilt);
        var v0 := EventsFor(cfg.build, roc, Matches(bxids[at..], full, ts[i..]), lastBuilt);
        eventQueue + v.events == old(eventQueue) + v0.events && v.last == v0.last
    {
      it := at;
      var n := CountIntraBxid(ts, i);
      next := i + n;
      var e := BxidEvent(ts[i].id + cfg.build.trigidOffset, roc, ts[i].bxid, ts[i..next], bxids[at].value);
      if n <= 1 {
        it := it + 1;
      }
      JoinedPass(cfg.build, roc, bxids, at, it, ts, i, n, full, lastBuilt, eventQueue);
      eventQueue := eventQueue + [e];
    }

    /** One pass of the trigger loop: the data iterator and the number of triggers dealt with. */
    method MatchOne(roc: int, bxids: seq<Item>, ts: seq<Trig>, full: Option<int>, from: nat, i: nat)
      returns (it: nat, next: nat)
      requires Ordered(bxids) && ByBxid(ts) && from <= |bxids| && i < |ts|
      modifies `lastBuilt, `eventQueue
      ensures it <= |bxids| && i < next <= |ts|
      ensures var v := EventsFor(cfg.build, roc, Matches(bxids[it..], full, ts[next..]), lastBuilt);
        var v0 := EventsFor(cfg.build, roc, Matches(bxids[from..], full, ts[i..]), old(lastBuilt));
        eventQueue + v.events == old(eventQueue) + v0.events && v.last == v0.last
    {
      var trigger := ts[i];
      var b := trigger.bxid;
      SortedFrom(ts, i);
      it := KickOut(bxids, from, b, full, ts[i..]);
      if it == |bxids| || bxids[it].key > b {
        // no matching data: the particle did not reach the detector
        EmptyPass(cfg.build, roc, bxids, it, ts, i, full, lastBuilt, eventQueue);
        lastBuilt := lastBuilt + 1;
        eventQueue := eventQueue + [EmptyEvent(trigger.id, roc, trigger)];
        return it, i + 1;
      }
      if full.Some? && bxids[it].key > full.value {
        // possibly incomplete crossing: skipped
        NextSkipped(cfg.build, roc, bxids, it, ts, i, full, lastBuilt);
        return it + 1, i + 1;
      }
      it, next := JoinTriggers(roc, bxids, ts, full, it, i);
    }

    /** The trigger loop of one readout cycle. */
    method MatchTriggers(roc: int, bxids: seq<Item>, ts: seq<Trig>, full: Option<int>)
      requires Ordered(bxids) && ByBxid(ts)
      modifies `lastBuilt, `eventQueue
      ensures var v := EventsFor(cfg.build, roc, Matches(bxids, full, ts), old(lastBuilt));
        eventQueue == old(eventQueue) + v.events && lastBuilt == v.last
    {
      ghost var all := EventsFor(cfg.build, roc, Matches(bxids, full, ts), lastBuilt);
      var it: nat, i: nat := 0, 0;
      assert bxids[0..] == bxids && ts[0..] == ts;
      while i < |ts|
        invariant 0 <= i <= |ts| && it <= |bxids|
        invariant MatchingGoesOn(roc, Matches(bxids[it..], full, ts[i..]), all)
      {
        it, i := MatchOne(roc, bxids, ts, full, it, i);
      }
    }

    /** `buildValidatedBXIDEvents`. */
    method BuildValidatedBXIDEvents(dumpAll: bool)
      requires cfg.build.bxidWidth != 0 && AllPaired(timestampData) && Ordered(asicData)
      modifies `lastBuilt, `eventQueue, `asicData, `timestampData
      ensures var b := ValidatedBuilding.Build(cfg.build, old(asicData), old(timestampData), minLastBxid,
                                               old(lastBuilt), Keep(cfg.build, dumpAll));
        eventQueue == old(eventQueue) + b.events && Built(b.events, asicData, timestampData, lastBuilt) == b
    {
      var keptEventCount := Keep(cfg.build, dumpAll);
      ghost var all := ValidatedBuilding.Build(cfg.build, asicData, timestampData, minLastBxid, lastBuilt, keptEventCount);
      while |asicData| > keptEventCount
        invariant AllPaired(timestampData)
        invariant PassGoesOn(ValidatedBuilding.Build(cfg.build, asicData, timestampData, minLastBxid, lastBuilt, keptEventCount), all)
        decreases |asicData| + |timestampData|
      {
        if timestampData == [] || asicData[0].key < timestampData[0].key {
          asicData := asicData[1..];  // nothing to be matched from this readout cycle
          continue;
        }
        ghost var queue, last0 := eventQueue, lastBuilt;
        var processedROC := timestampData[0].key;
        var data: seq<Block> := [];
        if asicData[0].key == processedROC {
          data := asicData[0].value;
          asicData := [Entry(processedROC, [])] + asicData[1..];
        }
        var t := timestampData[0].value;
        var bxids := TableOf(data);
        GroupMeaning(ByCrossing(data));
        var triggers := TriggerTable(t);
        InsertAllMeaning([], Arrived(cfg.build, t, 0));
        var full := FullOf(minLastBxid, processedROC);
        MatchTriggers(processedROC, bxids, triggers, full);
        timestampData := timestampData[1..];
        Regroup(queue, EventsFor(cfg.build, processedROC, CycleOutcomes(cfg.build, data, t, full), last0).events,
                  ValidatedBuilding.Build(cfg.build, asicData, timestampData, minLastBxid, lastBuilt, keptEventCount).events);
      }
    }

    // ---------- Building of all crossings ----------

    /** The blocks of complete crossings. */
    static method CompleteBlocks(data: seq<Block>, full: Option<int>) returns (kept: seq<Block>)
      ensures kept == BxidBuilding.Kept(data, full)
    {
      kept := [];
      for i := 0 to |data|
        invariant kept + BxidBuilding.Kept(data[i..], full) == BxidBuilding.Kept(data, full)
      {
        ghost var more := BxidBuilding.Kept(data[i + 1..], full);
        assert data[i..][1..] == data[i + 1..];
        if full.Some? && data[i].bxid > full.value {
          assert BxidBuilding.Kept(data[i..], full) == [] + more == more;
          continue;
        }
        assert kept + ([data[i]] + more) == (kept + [data[i]]) + more;
        kept := kept + [data[i]];
      }
    }

    /** One event for each crossing of the table. */
    method SendCrossings(roc: int, start: int, bxids: seq<Item>)
      modifies `lastBuilt, `eventQueue
      ensures eventQueue == old(eventQueue) + BxidBuilding.CrossingEvents(cfg.build, roc, start, bxids)
      ensures lastBuilt == old(lastBuilt) + |bxids|
    {
      ghost var all := BxidBuilding.CrossingEvents(cfg.build, roc, start, bxids);
      for i := 0 to |bxids|
        invariant eventQueue + BxidBuilding.CrossingEvents(cfg.build, roc, start, bxids[i..]) == old(eventQueue) + all
        invariant lastBuilt == old(lastBuilt) + i
      {
        var bxid := bxids[i].key;
        lastBuilt := lastBuilt + 1;
        var window: Option<Span> := None;
        if start != 0 && !cfg.build.ignoreTimestamps {
          window := Some(Span((start + cfg.build.bxid0Offset + bxid * cfg.build.bxidWidth - 1) % BxidBuilding.TWO_64,
                              (start + cfg.build.bxid0Offset + (bxid + 1) * cfg.build.bxidWidth + 1) % BxidBuilding.TWO_64));
        }
        var e := CrossingEvent(roc, bxid, window, bxids[i].value);
        assert bxids[i..][1..] == bxids[i + 1..];
        Regroup(eventQueue, [e], BxidBuilding.CrossingEvents(cfg.build, roc, start, bxids[i + 1..]));
        eventQueue := eventQueue + [e];
      }
    }

    /** `buildBXIDEvents`. */
    method BuildBXIDEvents(dumpAll: bool)
      modifies `lastBuilt, `eventQueue, `asicData, `timestampData
      ensures var b := BxidBuilding.BuildAll(cfg.build, old(asicData), old(timestampData), minLastBxid,
                                             old(lastBuilt), Keep(cfg.build, dumpAll));
        eventQueue == old(eventQueue) + b.events && Built(b.events, asicData, timestampData, lastBuilt) == b
    {
      var keptEventCount := Keep(cfg.build, dumpAll);
      ghost var all := BxidBuilding.BuildAll(cfg.build, asicData, timestampData, minLastBxid, lastBuilt, keptEventCount);
      while |asicData| > keptEventCount
        invariant PassGoesOn(BxidBuilding.BuildAll(cfg.build, asicData, timestampData, minLastBxid, lastBuilt, keptEventCount), all)
      {
        ghost var queue, e, ts0 := eventQueue, asicData[0], timestampData;
        var roc := asicData[0].key;
        var kept := CompleteBlocks(asicData[0].value, FullOf(minLastBxid, roc));
        var bxids := TableOf(kept);
        var start := 0;
        if Has(timestampData, roc) {
          start := Get(timestampData, roc, NO_TIME_DATA).start;
        } else {
          GetMissing(timestampData, roc, NO_TIME_DATA);
        }
        SendCrossings(roc, start, bxids);
        timestampData := Erase(timestampData, roc);
        asicData := asicData[1..];
        Regroup(queue, BxidBuilding.CycleEventsAll(cfg.build, e, ts0, minLastBxid),
                  BxidBuilding.BuildAll(cfg.build, asicData, timestampData, minLastBxid, lastBuilt, keptEventCount).events);
      }
    }

    // ---------- Reading ----------

    /** `buildEvents`. */
    method BuildEvents(dumpAll: bool)
      requires cfg.Valid() && State().Valid()
      modifies `lastBuilt, `eventQueue, `asicData, `timestampData
      ensures State() == ScReading.Build(cfg, old(State()), dumpAll)
    {
      match cfg.mode
      case RocMode => BuildROCEvents(dumpAll);
      case TrigidMode => BuildTRIGIDEvents(dumpAll);
      case ValidatedMode => BuildValidatedBXIDEvents(dumpAll);
      case BxidMode => BuildBXIDEvents(dumpAll);
    }

    /** One complete frame. */
    method ReadFrame(f: Frame)
      requires GoodFrame(f)
      modifies this
      ensures State() == Apply(cfg, recode, old(State()), f)
      ensures buf == old(buf)
    {
      match f
      case AsicFrame(pkt) => ReadAHCALData(pkt);
      case TimestampFrame(pkt) => ReadLDATimestamp(pkt);
      case TemperatureFrame(_) =>
    }

    /** `Read` after `chunk` was put into the buffer. `foreign` tells that a section outside this
        model is in front of the buffer; then nothing is built. */
    method Read(chunk: seq<Byte>) returns (foreign: bool)
      requires cfg.Valid() && State().Valid()
      modifies this
      ensures var s := Scan(old(buf) + chunk); foreign == s.foreign && buf == s.rest
      ensures State() == ReadOnce(cfg, recode, old(State()), old(buf) + chunk)
    {
      buf := buf + chunk;
      foreign := false;
      ghost var whole, st0 := buf, State();
      ScannedGood(buf);
      while true
        invariant GoodFrames(Scan(buf).frames) && GoodFrames(Scan(whole).frames)
        invariant Scan(buf).rest == Scan(whole).rest && Scan(buf).foreign == Scan(whole).foreign
        invariant ApplyAll(cfg, recode, State(), Scan(buf).frames) == ApplyAll(cfg, recode, st0, Scan(whole).frames)
        decreases |buf|
      {
        ScannedGood(buf);
        match Next(buf)
        case NeedMore =>
          break;
        case Foreign =>
          foreign := true;
          break;
        case Drop(n) =>
          buf := buf[n..];
        case Take(f) =>
          assert GoodFrame(Scan(buf).frames[0]);
          ghost var more := Scan(buf[|f.bytes|..]).frames;
          assert ([f] + more)[1..] == more;
          ReadFrame(f);
          buf := buf[|f.bytes|..];
      }
      if !foreign {
        ApplyAllValid(cfg, recode, st0, Scan(whole).frames);
        BuildEvents(false);
      }
    }
  }
}
