/**
 The record stream of the BIF producer: cycle data is always a sequence of whole records, no
 trigger is lost or repeated on its way into the events, and times are recovered exactly.
 */
module BifRecords {
  import opened Sequences
  import opened BifProcessing

  // ---------- Records and words ----------

  lemma {:induction false} SplitConcat(a: seq<int>, b: seq<int>)
    requires |a| % 4 == 0
    ensures Split(a + b) == Split(a) + Split(b)
    decreases |a|
  {
    if a == [] {
      assert a + b == b;
    } else {
      assert (a + b)[4..] == a[4..] + b;
      SplitConcat(a[4..], b);
    }
  }

  lemma SplitOne(r: Rec)
    ensures Split(Flat(r)) == [r]
  {
    assert Flat(r)[4..] == [];
  }

  /** Reading records back. */
  lemma {:induction false} SplitFlat(rs: seq<Rec>)
    ensures Split(FlatAll(rs)) == rs
  {
    if rs != [] {
      SplitConcat(Flat(rs[0]), FlatAll(rs[1..]));
      SplitOne(rs[0]);
      SplitFlat(rs[1..]);
    }
  }

  /** Writing read records back: whole cycle data is nothing but its records. */
  lemma {:induction false} FlatSplit(a: seq<int>)
    requires |a| % 4 == 0
    ensures FlatAll(Split(a)) == a
    decreases |a|
  {
    if a != [] {
      FlatSplit(a[4..]);
      assert Split(a)[1..] == Split(a[4..]);
      assert Flat(Split(a)[0]) == a[..4];
    }
  }

  lemma {:induction false} TriggersConcat(a: seq<Rec>, b: seq<Rec>)
    ensures TriggersOf(a + b) == TriggersOf(a) + TriggersOf(b)
  {
    if a == [] {
      assert a + b == b;
    } else {
      assert (a + b)[1..] == a[1..] + b;
      TriggersConcat(a[1..], b);
      Regroup(IfTrigger(a[0]), TriggersOf(a[1..]), TriggersOf(b));
    }
  }

  predicate IsTrigger(r: Rec) {
    Class(r.kind) == 1
  }

  predicate AllTriggers(rs: seq<Rec>) {
    forall i :: 0 <= i < |rs| ==> IsTrigger(rs[i])
  }

  lemma {:induction false} TriggersAre(rs: seq<Rec>)
    ensures AllTriggers(TriggersOf(rs))
    ensures AllTriggers(rs) ==> TriggersOf(rs) == rs
  {
    if rs != [] {
      TriggersAre(rs[1..]);
      assert AllTriggers(rs) ==> AllTriggers(rs[1..]);
    }
  }

  // ---------- Trigger records carried by data and events ----------

  /** Trigger records in words of data. */
  function Carried(data: seq<int>): seq<Rec> {
    TriggersOf(Split(data))
  }

  function CarriedAll(es: seq<BifEvent>): seq<Rec> {
    if es == [] then [] else Carried(es[0].data) + CarriedAll(es[1..])
  }

  lemma CarriedConcat(a: seq<int>, b: seq<int>)
    requires |a| % 4 == 0
    ensures Carried(a + b) == Carried(a) + Carried(b)
  {
    SplitConcat(a, b);
    TriggersConcat(Split(a), Split(b));
  }

  lemma {:induction false} CarriedAllConcat(a: seq<BifEvent>, b: seq<BifEvent>)
    ensures CarriedAll(a + b) == CarriedAll(a) + CarriedAll(b)
  {
    if a == [] {
      assert a + b == b;
    } else {
      assert (a + b)[1..] == a[1..] + b;
      CarriedAllConcat(a[1..], b);
    }
  }

  lemma CarriedOne(e: BifEvent)
    ensures CarriedAll([e]) == Carried(e.data)
  {
    assert CarriedAll([e]) == Carried(e.data) + CarriedAll([]);
  }

  lemma CarriedRec(r: Rec)
    ensures Carried(Flat(r)) == if IsTrigger(r) then [r] else []
  {
    SplitOne(r);
    TriggersConcat([r], []);
    assert [r][1..] == [];
  }

  /** Copies of start and stop records carry no trigger. */
  predicate Plain(data: seq<int>) {
    |data| % 4 == 0 && Carried(data) == []
  }

  lemma {:induction false} LastIsPlain(rs: seq<Rec>, class_: int)
    requires class_ != 1
    ensures Plain(LastOf(rs, class_))
  {
    if rs != [] {
      if Class(rs[|rs| - 1].kind) == class_ {
        CarriedRec(rs[|rs| - 1]);
      } else {
        LastIsPlain(rs[..|rs| - 1], class_);
      }
    }
  }

  // ---------- The builders ----------

  lemma CarriedByTrigger(r: Readout, t: Rec, start: seq<int>, stop: seq<int>)
    requires IsTrigger(t) && Plain(start) && Plain(stop)
    ensures Carried(TriggerEventOf(r, t, start, stop).data) == [t]
  {
    CarriedConcat(start, Flat(t));
    CarriedConcat(start + Flat(t), stop);
    CarriedRec(t);
  }

  /** TRIGGERS mode: one event per trigger record, in order, which carries exactly that record. */
  lemma {:induction false} TriggerEventsCarry(r: Readout, ts: seq<Rec>, start: seq<int>, stop: seq<int>)
    requires AllTriggers(ts) && Plain(start) && Plain(stop)
    ensures CarriedAll(TriggerEvents(r, ts, start, stop)) == ts
  {
    if ts != [] {
      var e := TriggerEventOf(r, ts[0], start, stop);
      var rest := TriggerEvents(r, ts[1..], start, stop);
      CarriedByTrigger(r, ts[0], start, stop);
      TriggerEventsCarry(r, ts[1..], start, stop);
      CarriedAllConcat([e], rest);
      CarriedOne(e);
    }
  }

  /** Event i belongs to trigger i: time, number and crossing are its own. */
  lemma {:induction false} TriggerEventsTell(r: Readout, ts: seq<Rec>, start: seq<int>, stop: seq<int>, i: nat)
    requires i < |ts|
    ensures TriggerEvents(r, ts, start, stop)[i] == TriggerEventOf(r, ts[i], start, stop)
  {
    if i > 0 {
      TriggerEventsTell(r, ts[1..], start, stop, i - 1);
    }
  }

  lemma BuildCarries(cfg: BifConfig, st: BifState)
    requires !cfg.mode.BxidMode?
    ensures CarriedAll(NewEvents(cfg, st)) == Carried(st.cycleData)
  {
    var rs := Split(st.cycleData);
    if cfg.mode.TriggerMode? {
      TriggersAre(rs);
      LastIsPlain(rs, 3);
      LastIsPlain(rs, 2);
      TriggerEventsCarry(Here(cfg, st), TriggersOf(rs), LastOf(rs, 3), LastOf(rs, 2));
    } else {
      CarriedOne(NewEvents(cfg, st)[0]);
    }
  }

  // ---------- The builds of a run ----------

  predicate WholeRecords(st: BifState) {
    |st.cycleData| % 4 == 0
  }

  /** The states that missing cycles are built from. */
  function GapBuilds(cfg: BifConfig, st: BifState, missing: nat): seq<BifState>
    decreases missing
  {
    if missing == 0 then []
    else
      var b := Build(cfg, st);
      [st] + GapBuilds(cfg, b.(cyc := b.cyc.(number := b.cyc.number + 1)), missing - 1)
  }

  /** The states that events are built from at a shutter-on word. */
  function OnBuilds(cfg: BifConfig, st: BifState, time: int, counter: int): seq<BifState> {
    var first := BuildsUnstopped(st.cyc, counter);
    var st1 := Open1(if first then Build(cfg, st) else st, time, counter);
    (if first then [st] else []) + GapBuilds(cfg, st1, Missing(st1.cyc, counter))
  }

  function OffBuild(st: BifState, time: int): BifState {
    Push(ShutterClosed(st, time), MakeRec(REC_STOP, st.cyc.number, 32 * time))
  }

  function PacketBuilds(cfg: BifConfig, st: BifState, p: Packet): seq<BifState> {
    if p.One? && KindOf(p.w) == SHUTTER_ON then OnBuilds(cfg, st, TimeOf(p.w), InputsOf(p.w))
    else if p.One? && KindOf(p.w) == SHUTTER_OFF then [OffBuild(st, TimeOf(p.w))]
    else []
  }

  /** The states that a run builds events from, in order. */
  function RunBuilds(cfg: BifConfig, st: BifState, ps: seq<Packet>): seq<BifState>
    decreases |ps|
  {
    if ps == [] then [] else PacketBuilds(cfg, st, ps[0]) + RunBuilds(cfg, Apply(cfg, st, ps[0]), ps[1..])
  }

  function EventsFrom(cfg: BifConfig, bs: seq<BifState>): seq<BifEvent> {
    if bs == [] then [] else NewEvents(cfg, bs[0]) + EventsFrom(cfg, bs[1..])
  }

  lemma {:induction false} EventsFromConcat(cfg: BifConfig, a: seq<BifState>, b: seq<BifState>)
    ensures EventsFrom(cfg, a + b) == EventsFrom(cfg, a) + EventsFrom(cfg, b)
  {
    if a == [] {
      assert a + b == b;
    } else {
      assert (a + b)[1..] == a[1..] + b;
      EventsFromConcat(cfg, a[1..], b);
    }
  }

  /** Trigger records of the states built from. */
  function BuiltTriggers(bs: seq<BifState>): seq<Rec> {
    if bs == [] then [] else Carried(bs[0].cycleData) + BuiltTriggers(bs[1..])
  }

  lemma {:induction false} BuiltTriggersConcat(a: seq<BifState>, b: seq<BifState>)
    ensures BuiltTriggers(a + b) == BuiltTriggers(a) + BuiltTriggers(b)
  {
    if a == [] {
      assert a + b == b;
    } else {
      assert (a + b)[1..] == a[1..] + b;
      BuiltTriggersConcat(a[1..], b);
    }
  }

  lemma BuiltOne(cfg: BifConfig, b: BifState)
    ensures BuiltTriggers([b]) == Carried(b.cycleData) && EventsFrom(cfg, [b]) == NewEvents(cfg, b)
  {
    assert [b][1..] == [];
  }

  /** The events that came up are those of the builds. */
  predicate BuiltEvents(cfg: BifConfig, st: BifState, builds: seq<BifState>, r: BifState) {
    r.events == st.events + EventsFrom(cfg, builds)
  }

  predicate AllWhole(bs: seq<BifState>) {
    forall i :: 0 <= i < |bs| ==> WholeRecords(bs[i])
  }

  /** Trigger records of the open cycle and those added are built from or still open. */
  predicate BuiltRecords(st: BifState, builds: seq<BifState>, added: seq<Rec>, r: BifState) {
    && WholeRecords(r) && AllWhole(builds)
    && BuiltTriggers(builds) + Carried(r.cycleData) == Carried(st.cycleData) + added
  }

  /** What a step from one state to another builds and adds. */
  predicate Built(cfg: BifConfig, st: BifState, builds: seq<BifState>, added: seq<Rec>, r: BifState) {
    BuiltEvents(cfg, st, builds, r) && (WholeRecords(st) ==> BuiltRecords(st, builds, added, r))
  }

  lemma BuiltEventsTwice(cfg: BifConfig, st: BifState, a: seq<BifState>, mid: BifState, b: seq<BifState>, r: BifState)
    requires BuiltEvents(cfg, st, a, mid) && BuiltEvents(cfg, mid, b, r)
    ensures BuiltEvents(cfg, st, a + b, r)
  {
    EventsFromConcat(cfg, a, b);
    Regroup(st.events, EventsFrom(cfg, a), EventsFrom(cfg, b));
  }

  lemma BuiltRecordsTwice(st: BifState, a: seq<BifState>, x: seq<Rec>, mid: BifState, b: seq<BifState>, y: seq<Rec>, r: BifState)
    requires BuiltRecords(st, a, x, mid) && BuiltRecords(mid, b, y, r)
    ensures BuiltRecords(st, a + b, x + y, r)
  {
    BuiltTriggersConcat(a, b);
    Balance(BuiltTriggers(a), BuiltTriggers(b), Carried(r.cycleData), Carried(mid.cycleData), Carried(st.cycleData), x, y);
  }

  lemma Balance(a: seq<Rec>, b: seq<Rec>, r: seq<Rec>, mid: seq<Rec>, st: seq<Rec>, x: seq<Rec>, y: seq<Rec>)
    requires a + mid == st + x && b + r == mid + y
    ensures (a + b) + r == st + (x + y)
  {
    assert (a + b) + r == a + (b + r) == a + (mid + y) == (a + mid) + y == (st + x) + y;
  }

  lemma BuiltTwice(cfg: BifConfig, st: BifState, a: seq<BifState>, x: seq<Rec>, mid: BifState, b: seq<BifState>, y: seq<Rec>, r: BifState)
    requires Built(cfg, st, a, x, mid) && Built(cfg, mid, b, y, r)
    ensures Built(cfg, st, a + b, x + y, r)
  {
    BuiltEventsTwice(cfg, st, a, mid, b, r);
    if WholeRecords(st) {
      BuiltRecordsTwice(st, a, x, mid, b, y, r);
    }
  }

  lemma BuiltThen(cfg: BifConfig, st: BifState, a: seq<BifState>, x: seq<Rec>, mid: BifState, r: BifState)
    requires Built(cfg, st, a, x, mid) && Built(cfg, mid, [], [], r)
    ensures Built(cfg, st, a, x, r)
  {
    BuiltTwice(cfg, st, a, x, mid, [], [], r);
    assert a + [] == a && x + [] == x;
  }

  lemma BuiltAfter(cfg: BifConfig, st: BifState, mid: BifState, b: seq<BifState>, y: seq<Rec>, r: BifState)
    requires Built(cfg, st, [], [], mid) && Built(cfg, mid, b, y, r)
    ensures Built(cfg, st, b, y, r)
  {
    BuiltTwice(cfg, st, [], [], mid, b, y, r);
    assert [] + b == b && [] + y == y;
  }

  /** Two steps that add no trigger. */
  lemma BuiltBoth(cfg: BifConfig, st: BifState, a: seq<BifState>, mid: BifState, b: seq<BifState>, r: BifState)
    requires Built(cfg, st, a, [], mid) && Built(cfg, mid, b, [], r)
    ensures Built(cfg, st, a + b, [], r)
  {
    var none: seq<Rec> := [];
    BuiltTwice(cfg, st, a, none, mid, b, none, r);
    assert none + none == none;
  }

  /** Nothing is built, and nothing happens to the records. */
  lemma BuiltNothing(cfg: BifConfig, st: BifState, r: BifState)
    requires r.events == st.events && r.cycleData == st.cycleData
    ensures Built(cfg, st, [], [], r)
  {
    assert st.events + EventsFrom(cfg, []) == st.events;
    assert BuiltTriggers([]) + Carried(r.cycleData) == Carried(st.cycleData) == Carried(st.cycleData) + [];
  }

  lemma BuildBuilds(cfg: BifConfig, st: BifState)
    ensures Built(cfg, st, [st], [], Build(cfg, st))
  {
    BuiltOne(cfg, st);
    assert Carried(st.cycleData) + Carried([]) == Carried(st.cycleData) == Carried(st.cycleData) + [];
  }

  /** A start or stop record carries no trigger. */
  lemma PushBuilds(cfg: BifConfig, st: BifState, r: Rec)
    requires !IsTrigger(r)
    ensures Built(cfg, st, [], [], Push(st, r))
  {
    assert st.events + EventsFrom(cfg, []) == st.events;
    if WholeRecords(st) {
      CarriedConcat(st.cycleData, Flat(r));
      CarriedRec(r);
      assert BuiltTriggers([]) + (Carried(st.cycleData) + []) == Carried(st.cycleData) + [];
    }
  }

  lemma {:induction false} FillGapBuilds(cfg: BifConfig, st: BifState, missing: nat)
    ensures Built(cfg, st, GapBuilds(cfg, st, missing), [], FillGap(cfg, st, missing))
    decreases missing
  {
    if missing == 0 {
      BuiltNothing(cfg, st, st);
    } else {
      var b := Build(cfg, st);
      var next := b.(cyc := b.cyc.(number := b.cyc.number + 1));
      BuildBuilds(cfg, st);
      BuiltNothing(cfg, b, next);
      BuiltThen(cfg, st, [st], [], b, next);
      FillGapBuilds(cfg, next, missing - 1);
      BuiltBoth(cfg, st, [st], next, GapBuilds(cfg, next, missing - 1), FillGap(cfg, next, missing - 1));
    }
  }

  lemma OnBuilt(cfg: BifConfig, st: BifState, time: int, counter: int)
    ensures Built(cfg, st, OnBuilds(cfg, st, time, counter), [], ShutterOn(cfg, st, time, counter))
  {
    var first := BuildsUnstopped(st.cyc, counter);
    var st0, bs0 := if first then Build(cfg, st) else st, if first then [st] else [];
    if first {
      BuildBuilds(cfg, st);
    } else {
      BuiltNothing(cfg, st, st);
    }
    var st1 := Open1(st0, time, counter);
    BuiltNothing(cfg, st0, st1);
    BuiltThen(cfg, st, bs0, [], st0, st1);
    var n := Missing(st1.cyc, counter);
    FillGapBuilds(cfg, st1, n);
    var st2, gap := FillGap(cfg, st1, n), GapBuilds(cfg, st1, n);
    BuiltBoth(cfg, st, bs0, st1, gap, st2);
    var rec := MakeRec(REC_START, st2.cyc.number, 32 * time);
    PushBuilds(cfg, st2, rec);
    BuiltThen(cfg, st, bs0 + gap, [], st2, Push(st2, rec));
  }

  lemma OffBuilt(cfg: BifConfig, st: BifState, time: int)
    ensures Built(cfg, st, [OffBuild(st, time)], [], ShutterOff(cfg, st, time))
  {
    var closed, b := ShutterClosed(st, time), OffBuild(st, time);
    BuiltNothing(cfg, st, closed);
    PushBuilds(cfg, closed, MakeRec(REC_STOP, st.cyc.number, 32 * time));
    BuiltAfter(cfg, st, closed, [], [], b);
    BuildBuilds(cfg, b);
    BuiltAfter(cfg, st, b, [b], [], Build(cfg, b));
  }

  /** Records of a trigger packet, all of them trigger records. */
  lemma {:induction false} InputRecsAre(w1: Word, w2: Word, input: nat)
    requires input <= 4
    ensures AllTriggers(InputRecs(w1, w2, input))
    decreases w1, input
  {
    if input > 0 {
      InputRecsAre(w1, w2, input - 1);
    }
  }

  lemma NewRecsAre(cfg: BifConfig, t: Trig, w1: Word, w2: Word)
    ensures AllTriggers(NewRecs(cfg, t, w1, w2))
  {
    InputRecsAre(w1, w2, 4);
  }

  /** Records a packet adds. */
  function Added(cfg: BifConfig, st: BifState, p: Packet): seq<Rec> {
    match p
    case One(_) => []
    case Two(w1, w2) => NewRecs(cfg, st.trig, w1, w2)
  }

  lemma DoubleBuilt(cfg: BifConfig, st: BifState, w1: Word, w2: Word)
    ensures Built(cfg, st, [], NewRecs(cfg, st.trig, w1, w2), Double(cfg, st, w1, w2))
  {
    var rs := NewRecs(cfg, st.trig, w1, w2);
    NewRecsAre(cfg, st.trig, w1, w2);
    AddingBuilt(cfg, st, Double(cfg, st, w1, w2), rs);
  }

  lemma AddingBuilt(cfg: BifConfig, st: BifState, r: BifState, rs: seq<Rec>)
    requires AllTriggers(rs) && r.events == st.events && r.cycleData == st.cycleData + FlatAll(rs)
    ensures Built(cfg, st, [], rs, r)
  {
    assert st.events + EventsFrom(cfg, []) == st.events;
    if WholeRecords(st) {
      TriggersAre(rs);
      SplitFlat(rs);
      CarriedConcat(st.cycleData, FlatAll(rs));
      assert BuiltTriggers([]) + Carried(r.cycleData) == Carried(r.cycleData);
    }
  }

  lemma ApplyBuilt(cfg: BifConfig, st: BifState, p: Packet)
    ensures Built(cfg, st, PacketBuilds(cfg, st, p), Added(cfg, st, p), Apply(cfg, st, p))
  {
    match p
    case One(w) =>
      if KindOf(w) == SHUTTER_ON {
        OnBuilt(cfg, st, TimeOf(w), InputsOf(w));
      } else if KindOf(w) == SHUTTER_OFF {
        OffBuilt(cfg, st, TimeOf(w));
      } else {
        BuiltNothing(cfg, st, st);
      }
    case Two(w1, w2) =>
      DoubleBuilt(cfg, st, w1, w2);
  }

  /** Records of all packets of a run. */
  function AllAdded(cfg: BifConfig, st: BifState, ps: seq<Packet>): seq<Rec>
    decreases |ps|
  {
    if ps == [] then [] else Added(cfg, st, ps[0]) + AllAdded(cfg, Apply(cfg, st, ps[0]), ps[1..])
  }

  lemma {:induction false} RunBuilt(cfg: BifConfig, st: BifState, ps: seq<Packet>)
    ensures Built(cfg, st, RunBuilds(cfg, st, ps), AllAdded(cfg, st, ps), Run(cfg, st, ps))
    decreases |ps|
  {
    if ps == [] {
      BuiltNothing(cfg, st, st);
    } else {
      var next := Apply(cfg, st, ps[0]);
      ApplyBuilt(cfg, st, ps[0]);
      RunBuilt(cfg, next, ps[1..]);
      BuiltTwice(cfg, st, PacketBuilds(cfg, st, ps[0]), Added(cfg, st, ps[0]), next,
                 RunBuilds(cfg, next, ps[1..]), AllAdded(cfg, next, ps[1..]), Run(cfg, next, ps[1..]));
    }
  }

  // ---------- Over a run, in all modes ----------

  /** Over any run, in every mode: the events are those of the builds, in order; cycle data is whole
      records, now and at every build; and the builds with the open cycle have exactly the trigger
      records that were accepted, each once and in their order. */
  lemma RunRecords(cfg: BifConfig, st: BifState, ps: seq<Packet>)
    requires WholeRecords(st)
    ensures var r, bs := Run(cfg, st, ps), RunBuilds(cfg, st, ps);
      && r.events == st.events + EventsFrom(cfg, bs)
      && WholeRecords(r) && AllWhole(bs)
      && BuiltTriggers(bs) + Carried(r.cycleData) == Carried(st.cycleData) + AllAdded(cfg, st, ps)
  {
    RunBuilt(cfg, st, ps);
  }

  lemma {:induction false} BuildsCarry(cfg: BifConfig, bs: seq<BifState>)
    requires !cfg.mode.BxidMode?
    ensures CarriedAll(EventsFrom(cfg, bs)) == BuiltTriggers(bs)
  {
    if bs != [] {
      BuildCarries(cfg, bs[0]);
      BuildsCarry(cfg, bs[1..]);
      CarriedAllConcat(NewEvents(cfg, bs[0]), EventsFrom(cfg, bs[1..]));
    }
  }

  /** Trigger records of the events and of the open cycle, in order. */
  function Account(st: BifState): seq<Rec> {
    CarriedAll(st.events) + Carried(st.cycleData)
  }

  /** In ROC and TRIGGERS mode: the events and the open cycle carry exactly the trigger records that were
      accepted, each once and in their order. */
  lemma TriggersConserved(cfg: BifConfig, st: BifState, ps: seq<Packet>)
    requires !cfg.mode.BxidMode? && WholeRecords(st)
    ensures WholeRecords(Run(cfg, st, ps))
    ensures Account(Run(cfg, st, ps)) == Account(st) + AllAdded(cfg, st, ps)
  {
    var bs, r := RunBuilds(cfg, st, ps), Run(cfg, st, ps);
    RunRecords(cfg, st, ps);
    BuildsCarry(cfg, bs);
    CarriedAllConcat(st.events, EventsFrom(cfg, bs));
    Regroup(CarriedAll(st.events), BuiltTriggers(bs), Carried(r.cycleData));
    Regroup(CarriedAll(st.events), Carried(st.cycleData), AllAdded(cfg, st, ps));
  }

  function EventTimes(es: seq<BifEvent>): seq<int> {
    if es == [] then [] else (if es[0].TriggerEvent? then [es[0].time] else []) + EventTimes(es[1..])
  }

  function RecTimes(rs: seq<Rec>): (r: seq<int>)
    ensures |r| == |rs|
  {
    if rs == [] then [] else [rs[0].Time()] + RecTimes(rs[1..])
  }

  lemma {:induction false} EventTimesConcat(a: seq<BifEvent>, b: seq<BifEvent>)
    ensures EventTimes(a + b) == EventTimes(a) + EventTimes(b)
  {
    if a == [] {
      assert a + b == b;
    } else {
      assert (a + b)[1..] == a[1..] + b;
      EventTimesConcat(a[1..], b);
      Regroup(if a[0].TriggerEvent? then [a[0].time] else [], EventTimes(a[1..]), EventTimes(b));
    }
  }

  lemma {:induction false} RecTimesConcat(a: seq<Rec>, b: seq<Rec>)
    ensures RecTimes(a + b) == RecTimes(a) + RecTimes(b)
  {
    if a == [] {
      assert a + b == b;
    } else {
      assert (a + b)[1..] == a[1..] + b;
      RecTimesConcat(a[1..], b);
    }
  }

  lemma {:induction false} TriggerEventTimes(r: Readout, ts: seq<Rec>, start: seq<int>, stop: seq<int>)
    ensures EventTimes(TriggerEvents(r, ts, start, stop)) == RecTimes(ts)
  {
    if ts != [] {
      TriggerEventTimes(r, ts[1..], start, stop);
      var e, rest := TriggerEventOf(r, ts[0], start, stop), TriggerEvents(r, ts[1..], start, stop);
      assert ([e] + rest)[1..] == rest;
    }
  }

  lemma {:induction false} BuildTimes(cfg: BifConfig, bs: seq<BifState>)
    requires cfg.mode.TriggerMode?
    ensures EventTimes(EventsFrom(cfg, bs)) == RecTimes(BuiltTriggers(bs))
  {
    if bs != [] {
      var rs := Split(bs[0].cycleData);
      TriggerEventTimes(Here(cfg, bs[0]), TriggersOf(rs), LastOf(rs, 3), LastOf(rs, 2));
      BuildTimes(cfg, bs[1..]);
      EventTimesConcat(NewEvents(cfg, bs[0]), EventsFrom(cfg, bs[1..]));
      RecTimesConcat(Carried(bs[0].cycleData), BuiltTriggers(bs[1..]));
    }
  }

  /** In TRIGGERS mode: the times of the events, then those of the open cycle's triggers, are the times of
      the accepted trigger records, each once and in their order. */
  lemma TriggerTimes(cfg: BifConfig, st: BifState, ps: seq<Packet>)
    requires cfg.mode.TriggerMode? && WholeRecords(st)
    ensures var r := Run(cfg, st, ps);
      EventTimes(r.events) + RecTimes(Carried(r.cycleData))
      == EventTimes(st.events) + RecTimes(Carried(st.cycleData) + AllAdded(cfg, st, ps))
  {
    var bs, r := RunBuilds(cfg, st, ps), Run(cfg, st, ps);
    RunRecords(cfg, st, ps);
    BuildTimes(cfg, bs);
    JoinTimes(st.events, EventsFrom(cfg, bs), BuiltTriggers(bs), Carried(r.cycleData));
  }

  lemma JoinTimes(es: seq<BifEvent>, more: seq<BifEvent>, built: seq<Rec>, left: seq<Rec>)
    requires EventTimes(more) == RecTimes(built)
    ensures EventTimes(es + more) + RecTimes(left) == EventTimes(es) + RecTimes(built + left)
  {
    EventTimesConcat(es, more);
    RecTimesConcat(built, left);
    var a, b, c := EventTimes(es), RecTimes(built), RecTimes(left);
    assert (a + b) + c == a + (b + c);
  }

  // ---------- Times ----------

  /** The two halves of a time give it back exactly when it fits 64 bits. */
  lemma TimeKept(kind: int, count: int, time: int)
    ensures MakeRec(kind, count, time).Time() == time <==> 0 <= time < TWO_64
  {
    var h := time / TWO_32;
    if 0 <= time < TWO_64 {
      assert 0 <= h < TWO_32;
      assert h % TWO_32 == h;
    }
  }

  /** An internal trigger keeps its time exactly when the time fits 32 bits. */
  lemma InternalTime(cfg: BifConfig, t: Trig, w1: Word, w2: Word)
    requires KindOf(w1) == INTERNAL
    ensures var rs := NewRecs(cfg, t, w1, w2);
      && |rs| == 1 && rs[0].count == TriggerNumberOf(w2)
      && (rs[0].Time() == FullTime(w1, w2, 0) <==> FullTime(w1, w2, 0) < TWO_32)
  {
    TimeKept(REC_TRIGGER, TriggerNumberOf(w2), FullTime(w1, w2, 0) % TWO_32);
  }

  predicate ComesFrom(r: Rec, w1: Word, w2: Word, input: nat)
    requires input < 4
  {
    r.kind == REC_TRIGGER + input * TWO_16 && r.count == TriggerNumberOf(w2) && r.Time() == FullTime(w1, w2, input)
  }

  /** The input of a trigger record. */
  function InputOf(r: Rec): int {
    (r.kind - REC_TRIGGER) / TWO_16
  }

  /** Each record comes from an input that is set, and tells its number and full time. */
  predicate EachFrom(rs: seq<Rec>, w1: Word, w2: Word, n: nat)
    requires n <= 4
  {
    forall r :: r in rs ==> 0 <= InputOf(r) < n && InputSet(InputsOf(w1), InputOf(r)) && ComesFrom(r, w1, w2, InputOf(r))
  }

  /** Each input that is set has its record. */
  predicate EachIn(rs: seq<Rec>, w1: Word, w2: Word, n: nat)
    requires n <= 4
  {
    forall input: nat | input < n && InputSet(InputsOf(w1), input) :: InputRec(w1, w2, input) in rs
  }

  predicate Descending(rs: seq<Rec>) {
    forall j, k :: 0 <= j < k < |rs| ==> InputOf(rs[j]) > InputOf(rs[k])
  }

  /** One record for each of the inputs below n, the highest first. */
  predicate OnePerInput(rs: seq<Rec>, w1: Word, w2: Word, n: nat)
    requires n <= 4
  {
    EachFrom(rs, w1, w2, n) && EachIn(rs, w1, w2, n) && Descending(rs)
  }

  lemma InputRecTells(w1: Word, w2: Word, input: nat)
    requires input < 4
    ensures var r := InputRec(w1, w2, input); InputOf(r) == input && ComesFrom(r, w1, w2, input)
  {
    TimeKept(REC_TRIGGER + input * TWO_16, TriggerNumberOf(w2), FullTime(w1, w2, input));
  }

  lemma InputStep(w1: Word, w2: Word, n: nat, rest: seq<Rec>, rs: seq<Rec>)
    requires n < 4
    requires rs == (if InputSet(InputsOf(w1), n) then [InputRec(w1, w2, n)] else []) + rest
    ensures OnePerInput(rest, w1, w2, n) ==> OnePerInput(rs, w1, w2, n + 1)
  {
    InputRecTells(w1, w2, n);
    if !OnePerInput(rest, w1, w2, n) {
    } else if InputSet(InputsOf(w1), n) {
      assert rs[0] == InputRec(w1, w2, n) && rs[1..] == rest;
      forall r | r in rest ensures r in rs {
      }
      forall k | 1 <= k < |rs| ensures InputOf(rs[0]) > InputOf(rs[k]) {
        assert rs[k] == rest[k - 1];
      }
    } else {
      assert rs == rest;
    }
  }

  lemma {:induction false} InputRecsComplete(w1: Word, w2: Word, n: nat)
    requires n <= 4
    ensures OnePerInput(InputRecs(w1, w2, n), w1, w2, n)
    decreases n
  {
    if n > 0 {
      InputRecsComplete(w1, w2, n - 1);
      InputStep(w1, w2, n - 1, InputRecs(w1, w2, n - 1), InputRecs(w1, w2, n));
    }
  }

  /** An external trigger outside the ignore period leaves one record for each of its inputs, the
      highest first, which gives input, number and the full time back; inside, it leaves none. */
  lemma ExternalTime(cfg: BifConfig, t: Trig, w1: Word, w2: Word)
    requires KindOf(w1) == EXTERNAL
    ensures var rs := NewRecs(cfg, t, w1, w2);
      if OutsideIgnorePeriod(cfg, t, w1) then OnePerInput(rs, w1, w2, 4) else rs == []
  {
    InputRecsComplete(w1, w2, 4);
  }

  // ---------- BXID mode ----------

  /** Whether trigger i begins a new run of equal crossings. */
  predicate Heads(r: Readout, ts: seq<Rec>, i: nat)
    requires i < |ts|
  {
    i == 0 || r.Bxid(ts[i]) != r.Bxid(ts[i - 1])
  }

  /** First triggers of the runs of equal crossings. */
  function HeadsOf(r: Readout, ts: seq<Rec>): seq<Rec> {
    if ts == [] then []
    else HeadsOf(r, ts[..|ts| - 1]) + (if Heads(r, ts, |ts| - 1) then [ts[|ts| - 1]] else [])
  }

  /** An event belongs to the run that a trigger begins. */
  predicate Begun(r: Readout, e: BifEvent, t: Rec) {
    e.BxidEvent? && e.roc == r.roc && e.bxid == r.Bxid(t) && e.time == t.Time() && e.number == r.Number(t)
  }

  predicate OpenBy(r: Readout, o: Open, t: Rec) {
    o.bxid == r.Bxid(t) && o.time == t.Time() && o.number == r.Number(t)
  }

  /** The triggers after one of crossing `last` that begin a run. */
  function LaterHeads(r: Readout, last: int, ts: seq<Rec>): seq<Rec>
    decreases |ts|
  {
    if ts == [] then []
    else (if r.Bxid(ts[0]) != last then [ts[0]] else []) + LaterHeads(r, r.Bxid(ts[0]), ts[1..])
  }

  predicate AllBegun(r: Readout, es: seq<BifEvent>, heads: seq<Rec>) {
    |es| == |heads| && forall i :: 0 <= i < |es| ==> Begun(r, es[i], heads[i])
  }

  lemma {:induction false} GroupsFrom(r: Readout, o: Open, h: Rec, ts: seq<Rec>, start: seq<int>, stop: seq<int>)
    requires OpenBy(r, o, h)
    ensures AllBegun(r, BxidEvents(r, Collecting(o), ts, start, stop), [h] + LaterHeads(r, o.bxid, ts))
    decreases |ts|
  {
    if ts != [] {
      var o' := Collect(r, Collecting(o), ts[0], start);
      if r.Bxid(ts[0]) == o.bxid {
        GroupsFrom(r, o', h, ts[1..], start, stop);
        Nil(LaterHeads(r, o.bxid, ts[1..]), BxidEvents(r, Collecting(o'), ts[1..], start, stop));
      } else {
        GroupsFrom(r, o', ts[0], ts[1..], start, stop);
      }
    }
  }

  lemma Nil<T, U>(a: seq<T>, b: seq<U>)
    ensures [] + a == a && [] + b == b
  {
  }

  lemma {:induction false} HeadsSplit(r: Readout, a: seq<Rec>, t: Rec, ts: seq<Rec>)
    ensures HeadsOf(r, a + [t] + ts) == HeadsOf(r, a + [t]) + LaterHeads(r, r.Bxid(t), ts)
    decreases |ts|
  {
    if ts == [] {
      assert a + [t] + ts == a + [t];
    } else {
      var b := a + [t];
      assert b + ts == b + [ts[0]] + ts[1..];
      HeadsSplit(r, b, ts[0], ts[1..]);
      assert (b + [ts[0]])[..|b|] == b;
    }
  }

  /** BXID mode: one event for each run of triggers with equal crossings, in order, which tells the
      crossing of the run and the time and number of its first trigger. */
  lemma BxidGrouping(r: Readout, ts: seq<Rec>, start: seq<int>, stop: seq<int>)
    ensures AllBegun(r, BxidEvents(r, Nothing, ts, start, stop), HeadsOf(r, ts))
  {
    if ts != [] {
      var o := Collect(r, Nothing, ts[0], start);
      GroupsFrom(r, o, ts[0], ts[1..], start, stop);
      assert [] + [ts[0]] + ts[1..] == ts;
      HeadsSplit(r, [], ts[0], ts[1..]);
      assert ([] + [ts[0]])[..0] == [];
      Nil([ts[0]], BxidEvents(r, Collecting(o), ts[1..], start, stop));
    }
  }

  /** How often BXID events repeat the triggers: twice, except for the first one of each later run. */
  function Repeated(r: Readout, last: int, ts: seq<Rec>): seq<Rec>
    decreases |ts|
  {
    if ts == [] then []
    else (if r.Bxid(ts[0]) == last then [ts[0], ts[0]] else [ts[0]]) + Repeated(r, r.Bxid(ts[0]), ts[1..])
  }

  /** One more trigger of the crossing being collected. */
  lemma SameCarries(r: Readout, o: Open, o': Open, t: Rec, rest: seq<BifEvent>, more: seq<Rec>, start: seq<int>)
    requires IsTrigger(t) && Plain(start) && |o.data| % 4 == 0 && o'.data == o.data + Flat(t) + start + Flat(t)
    requires CarriedAll(rest) == Carried(o'.data) + more
    ensures CarriedAll([] + rest) == Carried(o.data) + ([t, t] + more) && |o'.data| % 4 == 0
  {
    Nil(more, rest);
    AddTwice(o.data, t, start);
    Regroup(Carried(o.data), [t, t], more);
  }

  /** A trigger of another crossing. */
  lemma OtherCarries(r: Readout, o: Open, o': Open, t: Rec, rest: seq<BifEvent>, more: seq<Rec>, start: seq<int>, stop: seq<int>)
    requires IsTrigger(t) && Plain(start) && Plain(stop) && |o.data| % 4 == 0 && o'.data == start + Flat(t)
    requires CarriedAll(rest) == Carried(o'.data) + more
    ensures CarriedAll([CloseBxid(r, o, stop)] + rest) == Carried(o.data) + ([t] + more) && |o'.data| % 4 == 0
  {
    Sent(CloseBxid(r, o, stop), o.data, stop, rest);
    CarriedRec(t);
    CarriedConcat(start, Flat(t));
    assert Carried(o'.data) == [t];
  }

  lemma {:induction false} BxidCarries(r: Readout, o: Open, ts: seq<Rec>, start: seq<int>, stop: seq<int>)
    requires AllTriggers(ts) && Plain(start) && Plain(stop) && |o.data| % 4 == 0
    ensures CarriedAll(BxidEvents(r, Collecting(o), ts, start, stop)) == Carried(o.data) + Repeated(r, o.bxid, ts)
    decreases |ts|
  {
    if ts == [] {
      CarriedConcat(o.data, stop);
      CarriedOne(CloseBxid(r, o, stop));
    } else {
      var t := ts[0];
      var o' := Collect(r, Collecting(o), t, start);
      var rest := BxidEvents(r, Collecting(o'), ts[1..], start, stop);
      var more := Repeated(r, o'.bxid, ts[1..]);
      assert o'.bxid == r.Bxid(t) && |o'.data| % 4 == 0;
      BxidCarries(r, o', ts[1..], start, stop);
      if o'.bxid == o.bxid {
        SameCarries(r, o, o', t, rest, more, start);
      } else {
        OtherCarries(r, o, o', t, rest, more, start, stop);
      }
    }
  }

  lemma Sent(e: BifEvent, data: seq<int>, stop: seq<int>, rest: seq<BifEvent>)
    requires e.data == data + stop && |data| % 4 == 0 && Plain(stop)
    ensures CarriedAll([e] + rest) == Carried(data) + CarriedAll(rest)
  {
    CarriedConcat(data, stop);
    CarriedOne(e);
    CarriedAllConcat([e], rest);
  }

  lemma AddTwice(data: seq<int>, t: Rec, start: seq<int>)
    requires |data| % 4 == 0 && IsTrigger(t) && Plain(start)
    ensures Carried(data + Flat(t) + start + Flat(t)) == Carried(data) + [t, t]
  {
    CarriedRec(t);
    CarriedConcat(data, Flat(t));
    CarriedConcat(data + Flat(t), start);
    CarriedConcat(data + Flat(t) + start, Flat(t));
    assert ((Carried(data) + [t]) + []) + [t] == Carried(data) + [t, t];
  }

  /** BXID mode: each trigger lands in the events, in order, but twice unless it begins a later run. */
  lemma BxidPayload(r: Readout, ts: seq<Rec>, start: seq<int>, stop: seq<int>)
    requires ts != [] && AllTriggers(ts) && Plain(start) && Plain(stop)
    ensures CarriedAll(BxidEvents(r, Nothing, ts, start, stop)) == [ts[0], ts[0]] + Repeated(r, r.Bxid(ts[0]), ts[1..])
  {
    var t := ts[0];
    var o := Collect(r, Nothing, t, start);
    CarriedRec(t);
    CarriedConcat(Flat(t), start);
    CarriedConcat(Flat(t) + start, Flat(t));
    assert ([t] + []) + [t] == [t, t];
    BxidCarries(r, o, ts[1..], start, stop);
    Nil(ts, BxidEvents(r, Collecting(o), ts[1..], start, stop));
  }

  /** How often the events of one build repeat its triggers. */
  function RepeatedOnce(r: Readout, ts: seq<Rec>): seq<Rec> {
    if ts == [] then [] else [ts[0], ts[0]] + Repeated(r, r.Bxid(ts[0]), ts[1..])
  }

  function RepeatedAll(cfg: BifConfig, bs: seq<BifState>): seq<Rec> {
    if bs == [] then []
    else RepeatedOnce(Here(cfg, bs[0]), Carried(bs[0].cycleData)) + RepeatedAll(cfg, bs[1..])
  }

  lemma BxidBuildCarries(cfg: BifConfig, b: BifState)
    requires cfg.mode.BxidMode?
    ensures CarriedAll(NewEvents(cfg, b)) == RepeatedOnce(Here(cfg, b), Carried(b.cycleData))
    ensures AllBegun(Here(cfg, b), NewEvents(cfg, b), HeadsOf(Here(cfg, b), Carried(b.cycleData)))
  {
    var rs := Split(b.cycleData);
    var start, stop := LastOf(rs, 3), LastOf(rs, 2);
    TriggersAre(rs);
    LastIsPlain(rs, 3);
    LastIsPlain(rs, 2);
    BxidGrouping(Here(cfg, b), TriggersOf(rs), start, stop);
    if TriggersOf(rs) != [] {
      BxidPayload(Here(cfg, b), TriggersOf(rs), start, stop);
    }
  }

  lemma {:induction false} BxidBuildsCarry(cfg: BifConfig, bs: seq<BifState>)
    requires cfg.mode.BxidMode?
    ensures CarriedAll(EventsFrom(cfg, bs)) == RepeatedAll(cfg, bs)
  {
    if bs != [] {
      BxidBuildCarries(cfg, bs[0]);
      BxidBuildsCarry(cfg, bs[1..]);
      CarriedAllConcat(NewEvents(cfg, bs[0]), EventsFrom(cfg, bs[1..]));
    }
  }

  /** Over any run in BXID mode: the builds have the accepted triggers, each once and in order; the events
      carry these, repeated build by build; and each build gives one event for each run of triggers with
      the same crossing. */
  lemma BxidRun(cfg: BifConfig, st: BifState, ps: seq<Packet>)
    requires cfg.mode.BxidMode? && WholeRecords(st)
    ensures var r, bs := Run(cfg, st, ps), RunBuilds(cfg, st, ps);
      && BuiltTriggers(bs) + Carried(r.cycleData) == Carried(st.cycleData) + AllAdded(cfg, st, ps)
      && CarriedAll(r.events) == CarriedAll(st.events) + RepeatedAll(cfg, bs)
      && r.events == st.events + EventsFrom(cfg, bs)
      && (forall b :: b in bs ==> AllBegun(Here(cfg, b), NewEvents(cfg, b), HeadsOf(Here(cfg, b), Carried(b.cycleData))))
  {
    var bs := RunBuilds(cfg, st, ps);
    RunRecords(cfg, st, ps);
    BxidBuildsCarry(cfg, bs);
    CarriedAllConcat(st.events, EventsFrom(cfg, bs));
    forall b | b in bs ensures AllBegun(Here(cfg, b), NewEvents(cfg, b), HeadsOf(Here(cfg, b), Carried(b.cycleData))) {
      BxidBuildCarries(cfg, b);
    }
  }
}
