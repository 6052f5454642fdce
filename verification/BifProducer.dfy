/**
 The BIF producer as an object: the word loop with its carry-over, the event builders and the
 sending of events, each proved to do what `BifProcessing` and `BifSending` say.
 */
module BifProducerObject {
  import opened BifProcessing
  import opened BifSending
  import Records = BifRecords

  // ---------- Cherry-picking records ----------

  lemma {:induction false} SplitAt(data: seq<int>, k: nat)
    requires 4 * k + 4 <= |data|
    ensures Split(data)[k] == Rec(data[4 * k], data[4 * k + 1], data[4 * k + 2], data[4 * k + 3])
    decreases k
  {
    if k > 0 {
      SplitAt(data[4..], k - 1);
    }
  }

  lemma TriggersStep(rs: seq<Rec>, k: nat)
    requires k < |rs|
    ensures TriggersOf(rs[..k + 1]) == TriggersOf(rs[..k]) + IfTrigger(rs[k])
  {
    assert rs[..k + 1] == rs[..k] + [rs[k]];
    Records.TriggersConcat(rs[..k], [rs[k]]);
    assert TriggersOf([rs[k]]) == IfTrigger(rs[k]) + [];
  }

  lemma LastStep(rs: seq<Rec>, k: nat, class_: int)
    requires k < |rs|
    ensures LastOf(rs[..k + 1], class_) == if Class(rs[k].kind) == class_ then Flat(rs[k]) else LastOf(rs[..k], class_)
  {
    assert rs[..k + 1][..k] == rs[..k];
  }

  lemma PickStep(rs: seq<Rec>, k: nat)
    requires k < |rs|
    ensures TriggersOf(rs[..k + 1]) == (if Class(rs[k].kind) == 1 then TriggersOf(rs[..k]) + [rs[k]] else TriggersOf(rs[..k]))
    ensures LastOf(rs[..k + 1], 3) == if Class(rs[k].kind) == 3 then Flat(rs[k]) else LastOf(rs[..k], 3)
    ensures LastOf(rs[..k + 1], 2) == if Class(rs[k].kind) == 2 then Flat(rs[k]) else LastOf(rs[..k], 2)
  {
    TriggersStep(rs, k);
    LastStep(rs, k, 3);
    LastStep(rs, k, 2);
  }

  /** The trigger records of the cycle data, and its last start and stop record. */
  method PickRecords(data: seq<int>) returns (triggers: seq<Rec>, start: seq<int>, stop: seq<int>)
    ensures triggers == TriggersOf(Split(data))
    ensures start == LastOf(Split(data), 3) && stop == LastOf(Split(data), 2)
  {
    triggers, start, stop := [], [], [];
    ghost var rs := Split(data);
    ghost var k := 0;
    var i := 0;
    while i < |data| - 3
      invariant i == 4 * k && 0 <= k <= |rs|
      invariant triggers == TriggersOf(rs[..k])
      invariant start == LastOf(rs[..k], 3) && stop == LastOf(rs[..k], 2)
      decreases |data| - i
    {
      SplitAt(data, k);
      PickStep(rs, k);
      var r := RecordAt(data, i);
      if Class(data[i]) == 3 {
        start := data[i..i + 4];
      } else if Class(data[i]) == 2 {
        stop := data[i..i + 4];
      } else if Class(data[i]) == 1 {
        triggers := triggers + [r];
      }
      i, k := i + 4, k + 1;
    }
    assert rs[..k] == rs;
  }

  function RecordAt(data: seq<int>, i: nat): (r: Rec)
    requires i + 4 <= |data|
    ensures Flat(r) == data[i..i + 4]
  {
    Rec(data[i], data[i + 1], data[i + 2], data[i + 3])
  }

  /** One event per trigger. */
  method MakeTriggerEvents(r: Readout, triggers: seq<Rec>, start: seq<int>, stop: seq<int>) returns (es: seq<BifEvent>)
    ensures es == TriggerEvents(r, triggers, start, stop)
  {
    es := [];
    for i := 0 to |triggers|
      invariant es + TriggerEvents(r, triggers[i..], start, stop) == TriggerEvents(r, triggers, start, stop)
    {
      var t := triggers[i];
      var data := start + Flat(t) + stop;
      var e := TriggerEvent(r.roc, r.Number(t), t.Time(), r.Bxid(t), data);
      NextEvent(es, r, triggers[i..], start, stop);
      assert triggers[i..][1..] == triggers[i + 1..];
      es := es + [e];
    }
  }

  lemma NextEvent(es: seq<BifEvent>, r: Readout, ts: seq<Rec>, start: seq<int>, stop: seq<int>)
    requires ts != []
    ensures es + TriggerEvents(r, ts, start, stop)
         == es + [TriggerEventOf(r, ts[0], start, stop)] + TriggerEvents(r, ts[1..], start, stop)
  {
  }

  /** One event per run of triggers with the same crossing. */
  method MakeBxidEvents(r: Readout, triggers: seq<Rec>, start: seq<int>, stop: seq<int>) returns (es: seq<BifEvent>)
    ensures es == BxidEvents(r, Nothing, triggers, start, stop)
  {
    es := [];
    var collecting := false;
    var lastBxid, firstNumber, firstTime, data := 0, 0, 0, [];
    for i := 0 to |triggers|
      invariant !collecting ==> data == []
      invariant es + BxidEvents(r, Opened1(collecting, lastBxid, firstNumber, firstTime, data), triggers[i..], start, stop)
             == BxidEvents(r, Nothing, triggers, start, stop)
    {
      var t := triggers[i];
      ghost var m := Opened1(collecting, lastBxid, firstNumber, firstTime, data);
      var bxid := r.Bxid(t);
      NextBxid(es, r, m, triggers[i..], start, stop);
      assert [] + Flat(t) == Flat(t) && [] + start == start;
      assert triggers[i..][1..] == triggers[i + 1..];
      if collecting {
        if bxid == lastBxid {
          data := data + Flat(t);
        } else {
          es := es + [BxidEvent(r.roc, firstNumber, firstTime, lastBxid, data + stop)];
          firstNumber, firstTime, data := r.Number(t), t.Time(), [];
        }
      } else {
        firstNumber, firstTime, data := r.Number(t), t.Time(), data + Flat(t);
      }
      collecting, lastBxid := true, bxid;
      data := data + start;
      data := data + Flat(t);
    }
    if collecting {
      es := es + [BxidEvent(r.roc, firstNumber, firstTime, lastBxid, data + stop)];
    }
  }

  function Opened1(collecting: bool, bxid: int, number: int, time: int, data: seq<int>): MaybeOpen {
    if collecting then Collecting(Open(bxid, number, time, data)) else Nothing
  }

  lemma NextBxid(es: seq<BifEvent>, r: Readout, m: MaybeOpen, ts: seq<Rec>, start: seq<int>, stop: seq<int>)
    requires ts != []
    ensures es + BxidEvents(r, m, ts, start, stop)
         == (if Closed(r, m, ts[0], stop) == [] then es else es + Closed(r, m, ts[0], stop))
            + BxidEvents(r, Collecting(Collect(r, m, ts[0], start)), ts[1..], start, stop)
  {
  }

  // ---------- The object ----------

  class BifProducer {
    const cfg: BifConfig

    var readoutCycle: int
    var rocStarted: bool
    var firstShutterCycle: int
    var acqStart: int
    var acqStop: int
    var triggerId: int
    var firstTrigger: bool
    var firstTriggerNumber: int
    var lastTriggerTime: int
    var triggersInCycle: int
    var stats: BifStats
    var cycleData: seq<int>
    var deqEvent: seq<BifEvent>

    /** Words fetched and not yet processed. */
    var eventData: seq<Word>
    var rawFile: seq<Word>
    var word1WrittenPreviously: bool
    var sentEvents: seq<Sent>
    var boreSent: bool

    ghost function State(): BifState
      reads this
    {
      BifState(Cyc(readoutCycle, rocStarted, firstShutterCycle), Acq(acqStart, acqStop),
               Trig(triggerId, firstTrigger, firstTriggerNumber, lastTriggerTime, triggersInCycle),
               stats, cycleData, deqEvent)
    }

    /** The producer between two fetches: what waits in `eventData` was put back. */
    ghost function Whole(): Producer
      reads this
    {
      Producer(State(), eventData, rawFile, word1WrittenPreviously)
    }

    ghost function AsSender(): Sender
      reads this
    {
      Sender(deqEvent, sentEvents, boreSent)
    }

    constructor (cfg: BifConfig)
      ensures this.cfg == cfg && Whole() == FRESH && AsSender() == Sender([], [], false)
    {
      this.cfg := cfg;
      readoutCycle, rocStarted, firstShutterCycle := -1, false, -1;
      acqStart, acqStop := 0, 0;
      triggerId, firstTrigger, firstTriggerNumber, lastTriggerTime, triggersInCycle := TWO_32 - 1, true, 0, 0, 0;
      stats := BifStats(0, 0, 0, 0);
      cycleData, deqEvent, eventData, rawFile := [], [], [], [];
      word1WrittenPreviously, sentEvents, boreSent := false, [], false;
    }

    method TriggerPushBack(kind: int, count: int, time: int)
      modifies this`cycleData
      ensures State() == Push(old(State()), MakeRec(kind, count, time))
    {
      cycleData := cycleData + [kind];
      cycleData := cycleData + [count % TWO_32];
      cycleData := cycleData + [time % TWO_32];
      cycleData := cycleData + [(time / TWO_32) % TWO_32];
      assert cycleData == old(cycleData) + Flat(MakeRec(kind, count, time));
    }

    method BuildEudaqEvents()
      modifies this`cycleData, this`deqEvent
      ensures State() == Build(cfg, old(State()))
    {
      var es := [];
      var r := Readout(readoutCycle + cfg.countRocFrom, acqStart, firstTriggerNumber, cfg.firstBxidOffset, cfg.bxidLength);
      match cfg.mode {
        case RocMode =>
          es := [CycleEvent(r.roc, 32 * acqStart, 32 * acqStop, cycleData)];
        case TriggerMode =>
          var triggers, start, stop := PickRecords(cycleData);
          es := MakeTriggerEvents(r, triggers, start, stop);
        case BxidMode =>
          var triggers, start, stop := PickRecords(cycleData);
          es := MakeBxidEvents(r, triggers, start, stop);
      }
      assert es == NewEvents(cfg, State());
      deqEvent := deqEvent + es;
      cycleData := [];
    }

    /** Builds the cycles missing in the data, and counts them. */
    method BuildMissing(missing: nat)
      modifies this`cycleData, this`deqEvent, this`readoutCycle
      ensures State() == FillGap(cfg, old(State()), missing)
    {
      var difference := missing;
      while difference > 0
        invariant 0 <= difference
        invariant FillGap(cfg, State(), difference) == FillGap(cfg, old(State()), missing)
      {
        BuildEudaqEvents();
        readoutCycle := readoutCycle + 1;
        difference := difference - 1;
      }
    }

    /** A start of a cycle while one is open. */
    method UnstoppedCycle(inputs: int)
      requires 0 <= inputs < 0x1000
      modifies this`cycleData, this`deqEvent, this`readoutCycle
      ensures State() == var was := old(State());
                         var st := if BuildsUnstopped(was.cyc, inputs) then Build(cfg, was) else was;
                         st.(cyc := BeforeStart(st.cyc, inputs))
    {
      if rocStarted {
        var arrived := (inputs - firstShutterCycle) % 0x1000;
        var expected := (readoutCycle + 1) % 0x1000;
        var difference := (arrived - expected) % 0x1000;
        SameDistance(inputs - firstShutterCycle, readoutCycle + 1);
        assert difference == Ahead(State().cyc, inputs);
        if difference == 0 {
          BuildEudaqEvents();
        } else if 1 <= difference <= 500 {
          BuildEudaqEvents();
        } else if difference == 0xFFF {
          readoutCycle := readoutCycle - 1;
        }
      }
    }

    /** The arriving cycle becomes the open one. */
    method OpenCycle(timestamp: int, inputs: int)
      modifies this`readoutCycle, this`rocStarted, this`firstShutterCycle, this`acqStart, this`triggersInCycle,
               this`firstTrigger, this`stats
      ensures var was := old(State()); State() == Open2(was, was.cyc, timestamp, inputs)
    {
      rocStarted := true;
      triggersInCycle := 0;
      acqStart := timestamp;
      if readoutCycle == -1 {
        firstTrigger := true;
        firstShutterCycle := inputs;
        stats := stats.(runStart := acqStart);
        readoutCycle := 0;
      } else {
        readoutCycle := readoutCycle + 1;
      }
    }

    /** Cycles between the expected one and the one that arrived. */
    method FillMissing(inputs: int)
      modifies this`cycleData, this`deqEvent, this`readoutCycle
      ensures var was := old(State()); State() == FillGap(cfg, was, Missing(was.cyc, inputs))
    {
      var arrived := (inputs - firstShutterCycle) % 0x1000;
      var expected := readoutCycle % 0x1000;
      SameDistance(inputs - firstShutterCycle, readoutCycle);
      assert (arrived - expected) % 0x1000 == Missing(State().cyc, inputs);
      if arrived != expected {
        BuildMissing((arrived - expected) % 0x1000);
      } else {
        assert Missing(State().cyc, inputs) == 0;
      }
    }

    method ShutterOnWord(timestamp: int, inputs: int)
      requires 0 <= inputs < 0x1000
      modifies this`cycleData, this`deqEvent, this`readoutCycle, this`rocStarted, this`firstShutterCycle, this`acqStart,
               this`triggersInCycle, this`firstTrigger, this`stats
      ensures State() == ShutterOn(cfg, old(State()), timestamp, inputs)
    {
      ghost var was := State();
      UnstoppedCycle(inputs);
      OpenCycle(timestamp, inputs);
      FillMissing(inputs);
      ShutterOnParts(cfg, was, timestamp, inputs);
      TriggerPushBack(REC_START, readoutCycle, 32 * acqStart);
    }

    method ShutterOffWord(timestamp: int)
      modifies this`cycleData, this`deqEvent, this`rocStarted, this`acqStop, this`stats
      ensures State() == ShutterOff(cfg, old(State()), timestamp)
    {
      rocStarted := false;
      stats := stats.(triggers := (stats.triggers + triggersInCycle) % TWO_32, runStop := timestamp);
      acqStop := timestamp;
      if timestamp < acqStart {
        stats := stats.(onTime := (stats.onTime + (acqStart - timestamp)) % TWO_64);
      } else {
        stats := stats.(onTime := (stats.onTime + (timestamp - acqStart)) % TWO_64);
      }
      assert State() == ShutterClosed(old(State()), timestamp);
      TriggerPushBack(REC_STOP, readoutCycle, 32 * timestamp);
      BuildEudaqEvents();
    }

    /** The trigger number of a packet. */
    method CountTrigger(number: int)
      modifies this`triggerId, this`firstTrigger, this`firstTriggerNumber
      ensures var was := old(State()); State() == was.(trig := NoteNumber(was.trig, number))
    {
      triggerId := (triggerId + 1) % TWO_32;
      if number != triggerId {
        triggerId := number;
        if firstTrigger {
          firstTrigger := false;
          firstTriggerNumber := number;
        }
      }
    }

    /** The records of a trigger packet. */
    method RecordTrigger(word1: Word, word2: Word)
      modifies this`cycleData, this`triggersInCycle, this`lastTriggerTime
      ensures cycleData == old(cycleData) + FlatAll(NewRecs(cfg, old(State()).trig, word1, word2))
      ensures var t := old(State()).trig;
              State().trig == if !TakesTrigger(cfg, t, word1) then t
                              else t.(inCycle := t.inCycle + 1, lastTime := if KindOf(word1) == EXTERNAL then 32 * TimeOf(word1) else t.lastTime)
    {
      if KindOf(word1) == INTERNAL {
        triggersInCycle := triggersInCycle + 1;
        var time := 32 * TimeOf(word1) + FineOf(word2, 0);
        var r := MakeRec(REC_TRIGGER, TriggerNumberOf(word2), time % TWO_32);
        ghost var data := State().cycleData;
        TriggerPushBack(REC_TRIGGER, TriggerNumberOf(word2), time % TWO_32);
        FlatOne(r);
        assert State().cycleData == data + Flat(r);
      } else if KindOf(word1) == EXTERNAL && (32 * TimeOf(word1) - lastTriggerTime) % TWO_64 > cfg.ignorePeriod % TWO_64 {
        triggersInCycle := triggersInCycle + 1;
        lastTriggerTime := 32 * TimeOf(word1);
        PushInputs(word1, word2);
      }
    }

    /** Second word of a trigger packet. */
    method TriggerWords(word1: Word, word2: Word)
      modifies this
      ensures State() == Double(cfg, old(State()), word1, word2)
      ensures OthersKept(old(eventData), old(rawFile), old(word1WrittenPreviously), old(sentEvents), old(boreSent))
    {
      ghost var was := State();
      CountTrigger(TriggerNumberOf(word2));
      SameTake(cfg, was.trig, TriggerNumberOf(word2), word1, word2);
      RecordTrigger(word1, word2);
      assert State().trig == TrigAfter(cfg, was.trig, word1, word2);
    }

    /** A record for each input of an external trigger, the highest first. */
    method PushInputs(word1: Word, word2: Word)
      modifies this`cycleData
      ensures cycleData == old(cycleData) + FlatAll(InputRecs(word1, word2, 4))
    {
      var input := 3;
      while input >= 0
        invariant -1 <= input <= 3
        invariant cycleData + FlatAll(InputRecs(word1, word2, input + 1)) == old(cycleData) + FlatAll(InputRecs(word1, word2, 4))
      {
        InputsFront(cycleData, word1, word2, input);
        if InputSet(InputsOf(word1), input) {
          TriggerPushBack(REC_TRIGGER + input * TWO_16, TriggerNumberOf(word2), 32 * TimeOf(word1) + FineOf(word2, input));
          assert State().cycleData == cycleData;
        }
        input := input - 1;
      }
    }

    ghost predicate OthersKept(data: seq<Word>, raw: seq<Word>, written: bool, sent: seq<Sent>, bore: bool)
      reads this
    {
      eventData == data && rawFile == raw && word1WrittenPreviously == written && sentEvents == sent && boreSent == bore
    }

    method WriteRaw(word: Word)
      modifies this`rawFile
      ensures rawFile == old(rawFile) + (if cfg.writeRaw then [word] else [])
    {
      if cfg.writeRaw {
        rawFile := rawFile + [word];
      }
    }

    /** A word that stands alone. */
    method SingleWord(word1: Word)
      requires IsSingle(word1)
      modifies this
      ensures State() == Single(cfg, old(State()), word1)
      ensures OthersKept(old(eventData), old(rawFile), old(word1WrittenPreviously), old(sentEvents), old(boreSent))
    {
      if KindOf(word1) == SHUTTER_ON {
        ShutterOnWord(TimeOf(word1), InputsOf(word1));
      } else if KindOf(word1) == SHUTTER_OFF {
        ShutterOffWord(TimeOf(word1));
      }
    }

    /** The packet that begins at a word; it is incomplete if the words end behind a first word. */
    method NextPacket(ws: seq<Word>, i: nat) returns (j: nat, complete: bool)
      requires i < |ws|
      modifies this
      ensures State() == AfterPacket(cfg, old(State()), ws, i)
      ensures j == PacketEnd(ws, i) && complete == Completes(ws, i)
      ensures rawFile == old(rawFile) + (if !cfg.writeRaw then [] else if old(word1WrittenPreviously) then ws[i + 1..j] else ws[i..j])
      ensures OthersKept(old(eventData), rawFile, false, old(sentEvents), old(boreSent))
    {
      var word1 := ws[i];
      ghost var st, raw, written := State(), rawFile, word1WrittenPreviously;
      if IsSingle(word1) {
        SingleWord(word1);
      }
      if !word1WrittenPreviously {
        WriteRaw(word1);
      }
      word1WrittenPreviously := false;
      if IsSingle(word1) {
        return i + 1, true;
      }
      if i + 1 == |ws| {
        return i + 1, false;
      }
      var word2 := ws[i + 1];
      TriggerWords(word1, word2);
      WriteRaw(word2);
      assert ws[i..i + 2] == [word1] + [word2] && ws[i + 1..i + 2] == [word2];
      return i + 2, true;
    }

    /** `ProcessQueuedBifData`: all words in the queue; a first word without its second is put back. */
    method ProcessQueuedBifData()
      modifies this
      ensures Whole() == ProcessWords(cfg, old(Whole()), old(eventData))
      ensures sentEvents == old(sentEvents) && boreSent == old(boreSent)
    {
      var ws := eventData;
      ghost var p := Whole();
      var i, complete := 0, true;
      while i < |ws|
        invariant 0 <= i <= |ws| && (complete || (i == |ws| && ws != []))
        invariant sentEvents == old(sentEvents) && boreSent == old(boreSent) && eventData == ws
        invariant Resumes(cfg, State(), if complete then ws[i..] else [ws[|ws| - 1]], p.st, ws)
        invariant !complete ==> !IsSingle(ws[|ws| - 1])
        invariant rawFile == RawAfter(cfg.writeRaw, p.raw, p.word1Written, ws[..i])
        invariant word1WrittenPreviously == (i == 0 && p.word1Written)
      {
        ghost var st, k := State(), i;
        i, complete := NextPacket(ws, i);
        PacketStep(cfg, st, ws, k, p.st);
        RawStep(cfg.writeRaw, p.raw, p.word1Written, ws, k, i);
      }
      assert ws[..i] == ws && ws[|ws|..] == [];
      ghost var left := if complete then [] else [ws[|ws| - 1]];
      FinishWords(cfg, State(), left, p.st, ws);
      eventData := [];
      if !complete {
        eventData := [ws[|ws| - 1]];
        word1WrittenPreviously := true;
      }
      assert eventData == left;
    }

    /** `sendallevents`. */
    method SendAllEvents(minimum: nat)
      modifies this`deqEvent, this`sentEvents, this`boreSent
      ensures AsSender() == SendAll(old(AsSender()), minimum)
    {
      while |deqEvent| > minimum
        invariant SendAll(AsSender(), minimum) == SendAll(old(AsSender()), minimum)
        decreases |deqEvent|
      {
        var bore, eore := false, false;
        if !boreSent {
          bore := true;
          boreSent := true;
        }
        if minimum == 0 && |deqEvent| == 1 {
          eore := true;
        }
        sentEvents := sentEvents + [Sent(deqEvent[0], bore, eore)];
        deqEvent := deqEvent[1..];
      }
    }

    /** A pass of the run loop with newly fetched words. */
    method ReadOut(words: seq<Word>)
      modifies this
      ensures Live(Whole(), sentEvents, boreSent) == Pass(cfg, old(Live(Whole(), sentEvents, boreSent)), words)
    {
      ghost var l := Live(Whole(), sentEvents, boreSent);
      eventData := eventData + words;
      ProcessQueuedBifData();
      assert Whole() == Process(cfg, l.p, words);
      SendAllEvents(1);
    }
  }

  // ---------- Steps of the word loop ----------

  lemma SameDistance(a: int, b: int)
    ensures (a % 0x1000 - b % 0x1000) % 0x1000 == (a - b) % 0x1000
  {
    var d := (a % 0x1000 - b % 0x1000) % 0x1000;
    assert exists k :: a - b - d == 0x1000 * k by {
      var k := a / 0x1000 - b / 0x1000 + (a % 0x1000 - b % 0x1000) / 0x1000;
      assert a - b - d == 0x1000 * k;
    }
  }

  /** `Open1` on a state whose cycle number is already corrected. */
  ghost function Open2(st: BifState, c: Cyc, time: int, counter: int): BifState {
    st.(cyc := Opened(c, counter), acq := st.acq.(start := time),
        trig := st.trig.(inCycle := 0, firstPending := c.number == -1 || st.trig.firstPending),
        stats := if c.number == -1 then st.stats.(runStart := time) else st.stats)
  }

  lemma {:induction false} FillGapKeepsStart(cfg: BifConfig, st: BifState, missing: nat)
    ensures FillGap(cfg, st, missing).acq == st.acq
    decreases missing
  {
    if missing > 0 {
      var b := Build(cfg, st);
      FillGapKeepsStart(cfg, b.(cyc := b.cyc.(number := b.cyc.number + 1)), missing - 1);
    }
  }

  lemma ShutterOnParts(cfg: BifConfig, was: BifState, time: int, counter: int)
    ensures var st := if BuildsUnstopped(was.cyc, counter) then Build(cfg, was) else was;
            var c := BeforeStart(st.cyc, counter);
            var st1 := Open2(st.(cyc := c), c, time, counter);
            var st2 := FillGap(cfg, st1, Missing(st1.cyc, counter));
            st2.acq.start == time && ShutterOn(cfg, was, time, counter) == Push(st2, MakeRec(REC_START, st2.cyc.number, 32 * time))
  {
    var st := if BuildsUnstopped(was.cyc, counter) then Build(cfg, was) else was;
    var st1 := Open1(st, time, counter);
    FillGapKeepsStart(cfg, st1, Missing(st1.cyc, counter));
  }

  /** The trigger number does not decide whether a trigger is taken. */
  lemma SameTake(cfg: BifConfig, t: Trig, number: int, w1: Word, w2: Word)
    ensures var n := NoteNumber(t, number);
      && TakesTrigger(cfg, n, w1) == TakesTrigger(cfg, t, w1) && NewRecs(cfg, n, w1, w2) == NewRecs(cfg, t, w1, w2)
      && n.inCycle == t.inCycle && n.lastTime == t.lastTime
  {
  }

  lemma FlatOne(r: Rec)
    ensures FlatAll([r]) == Flat(r)
  {
    assert [r][1..] == [];
  }

  lemma InputsFront(data: seq<int>, w1: Word, w2: Word, input: nat)
    requires input < 4
    ensures data + FlatAll(InputRecs(w1, w2, input + 1))
         == (if InputSet(InputsOf(w1), input) then data + Flat(InputRec(w1, w2, input)) else data) + FlatAll(InputRecs(w1, w2, input))
  {
    var rest := InputRecs(w1, w2, input);
    if InputSet(InputsOf(w1), input) {
      var x := InputRec(w1, w2, input);
      assert ([x] + rest)[1..] == rest;
      assert data + (Flat(x) + FlatAll(rest)) == (data + Flat(x)) + FlatAll(rest);
    } else {
      assert [] + rest == rest;
    }
  }

  /** Going on from a state with the rest of the words ends where processing all of them ends. */
  ghost predicate Resumes(cfg: BifConfig, st: BifState, rest: seq<Word>, st0: BifState, ws: seq<Word>) {
    var c, all := CutWords(rest), CutWords(ws);
    Run(cfg, st, c.packets) == Run(cfg, st0, all.packets) && c.left == all.left
  }

  /** The state behind the packet that begins at a word. */
  ghost function AfterPacket(cfg: BifConfig, st: BifState, ws: seq<Word>, i: nat): BifState
    requires i < |ws|
  {
    if IsSingle(ws[i]) then Single(cfg, st, ws[i])
    else if i + 1 == |ws| then st
    else Double(cfg, st, ws[i], ws[i + 1])
  }

  ghost predicate Completes(ws: seq<Word>, i: nat)
    requires i < |ws|
  {
    IsSingle(ws[i]) || i + 1 < |ws|
  }

  ghost function PacketEnd(ws: seq<Word>, i: nat): (j: nat)
    requires i < |ws|
    ensures i < j <= |ws|
  {
    if !IsSingle(ws[i]) && i + 1 < |ws| then i + 2 else i + 1
  }

  lemma PacketStep(cfg: BifConfig, st: BifState, ws: seq<Word>, i: nat, st0: BifState)
    requires i < |ws|
    ensures Resumes(cfg, st, ws[i..], st0, ws)
        ==> Resumes(cfg, AfterPacket(cfg, st, ws, i), if Completes(ws, i) then ws[PacketEnd(ws, i)..] else [ws[|ws| - 1]], st0, ws)
  {
    var j := PacketEnd(ws, i);
    var c := CutWords(ws[j..]);
    if IsSingle(ws[i]) {
      assert ws[i..][1..] == ws[j..];
      RunFront(cfg, st, One(ws[i]), c.packets);
    } else if i + 1 < |ws| {
      assert ws[i..][2..] == ws[j..];
      RunFront(cfg, st, Two(ws[i], ws[i + 1]), c.packets);
    } else {
      assert ws[i..] == [ws[|ws| - 1]];
    }
  }

  lemma RunFront(cfg: BifConfig, st: BifState, p: Packet, ps: seq<Packet>)
    ensures Run(cfg, st, [p] + ps) == Run(cfg, Apply(cfg, st, p), ps)
  {
    assert ([p] + ps)[1..] == ps;
  }

  lemma FinishWords(cfg: BifConfig, st: BifState, left: seq<Word>, st0: BifState, ws: seq<Word>)
    requires left == [] || (|left| == 1 && !IsSingle(left[0]))
    ensures Resumes(cfg, st, left, st0, ws) ==> st == Run(cfg, st0, CutWords(ws).packets) && CutWords(ws).left == left
  {
  }

  lemma RawStep(write: bool, raw: seq<Word>, written: bool, ws: seq<Word>, i: nat, j: nat)
    requires i < j <= |ws|
    ensures RawAfter(write, raw, written, ws[..j])
         == RawAfter(write, raw, written, ws[..i])
            + (if !write then [] else if i == 0 && written then ws[i + 1..j] else ws[i..j])
  {
    assert ws[..j] == ws[..i] + ws[i..j];
    if i > 0 {
      assert ws[..j][1..] == ws[..i][1..] + ws[i..j];
    } else {
      assert ws[..j][1..] == ws[1..j];
    }
  }
}
