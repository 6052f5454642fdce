/**
 The start/stop/trigger packets of the LDA: `ScReader::readLDATimestamp`, its run statistics
 and the extension of the 16-bit trigger number.
 */
module LdaTimestamps {
  import opened OrderedMap
  import opened CppDivision
  import Counters

  const START_ACQ := 0x01
  const STOP_ACQ := 0x02
  const TRIGID_INC := 0x10

  const U64_SIZE: int := 0x1_0000_0000_0000_0000
  const U32_SIZE: int := 0x1_0000_0000
  const U16_SIZE: int := 0x1_0000

  /** Conversion to `int16_t`. */
  function ToInt16(x: int): (r: int)
    ensures -0x8000 <= r < 0x8000
  {
    (x + 0x8000) % U16_SIZE - 0x8000
  }

  datatype TsConfig = TsConfig(maxRocJump: int, maxTrigidSkip: int, trigidStartsFrom: int)

  /** A timestamp packet: type, 8-bit readout cycle, 16-bit trigger number, 48-bit time. */
  datatype TsPacket = TsPacket(kind: int, cycle: int, rawTrigId: int, time: int) {
    predicate Valid() {
      0 <= cycle < 0x100 && 0 <= rawTrigId < U16_SIZE && 0 <= time < U64_SIZE
    }
  }

  /** Times and triggers of one readout cycle; 0 stands for a time not received. */
  datatype TimeData = TimeData(start: int, stop: int, ids: seq<int>, times: seq<int>)

  const NO_TIME_DATA := TimeData(0, 0, [], [])

  datatype Stats = Stats(
    first: int, last: int, prevStart: int, prevStop: int,
    onTime: int, offTime: int, cycles: int,
    cycleTriggers: int, inside: int, outside: int, lost: int,
    acquisitions: seq<int>, processings: seq<int>,
    histogram: seq<Entry<int>>)

  const NO_STATS := Stats(0, 0, 0, 0, 0, 0, 0, 0, 0, 0, 0, [], [], [])

  datatype TsState = TsState(
    cycleNoTS: int, insideAcq: bool, trigId: int, trigIdKnown: bool,
    stats: Stats, data: seq<Entry<TimeData>>)

  /** `OnStart`. */
  function Initial(cfg: TsConfig): TsState {
    TsState(-1, false, (cfg.trigidStartsFrom - 1) % U32_SIZE, false, NO_STATS, [])
  }

  // ---------- One packet ----------

  function StartStats(s: Stats, time: int): Stats {
    var s1 := s.(last := time, first := if s.first == 0 then time else s.first, prevStart := time, cycleTriggers := 0);
    if s.prevStop == 0 then s1 else
    var len := (time - s.prevStop) % U64_SIZE;
    s1.(offTime := (s.offTime + len) % U64_SIZE, processings := s.processings + [len])
  }

  function StopStats(s: Stats, time: int): Stats {
    var s1 := s.(last := time, prevStop := time);
    if s.prevStart == 0 then s1 else
    var len := (time - s.prevStart) % U64_SIZE;
    s1.(onTime := (s.onTime + len) % U64_SIZE, acquisitions := s.acquisitions + [len],
        histogram := Put(s.histogram, s.cycleTriggers, Get(s.histogram, s.cycleTriggers, 0) + 1),
        cycles := s.cycles + 1)
  }

  /** Signed distance from the last trigger number to the received one, in 16 bits. */
  function TriggerStep(trigId: int, raw: int): int {
    ToInt16(raw - trigId % U16_SIZE)
  }

  predicate StepAccepted(cfg: TsConfig, d: int) {
    d == 1 || 1 < d < cfg.maxTrigidSkip
  }

  function Trigger(cfg: TsConfig, st: TsState, cycle: int, p: TsPacket): TsState {
    var base := if st.trigIdKnown then st.trigId else (p.rawTrigId - 1) % U32_SIZE;
    var d := TriggerStep(base, p.rawTrigId);
    if StepAccepted(cfg, d) then
      var id := (base + d) % U32_SIZE;
      var t := Get(st.data, cycle, NO_TIME_DATA);
      var hit := if st.insideAcq then 1 else 0;
      st.(trigId := id, trigIdKnown := true,
          stats := st.stats.(lost := st.stats.lost + d - 1, inside := st.stats.inside + hit,
                             cycleTriggers := st.stats.cycleTriggers + hit),
          data := Put(st.data, cycle, t.(ids := t.ids + [ToInt32(id)], times := t.times + [p.time])))
    else st.(trigId := base, trigIdKnown := true)
  }

  predicate IsTimed(kind: int) {
    kind == START_ACQ || kind == STOP_ACQ || kind == TRIGID_INC
  }

  /** A start, stop or trigger packet of readout cycle `cycle`. */
  function Timed(cfg: TsConfig, st: TsState, cycle: int, p: TsPacket): TsState {
    var jump := cycle - st.cycleNoTS;
    var here := Get(st.data, cycle, NO_TIME_DATA);
    var st2 := st.(cycleNoTS := if -cfg.maxRocJump <= jump <= cfg.maxRocJump then cycle else st.cycleNoTS,
                   data := Put(st.data, cycle, here));
    if p.kind == START_ACQ then
      st2.(stats := if st.insideAcq then st.stats else StartStats(st.stats, p.time), insideAcq := true,
           data := Put(st2.data, cycle, here.(start := p.time)))
    else if p.kind == STOP_ACQ then
      st2.(stats := if st.insideAcq then StopStats(st.stats, p.time) else st.stats, insideAcq := false,
           data := Put(st2.data, cycle, here.(stop := p.time)))
    else Trigger(cfg, st2, cycle, p)
  }

  /** The effect of one timestamp packet. */
  function Step(cfg: TsConfig, st: TsState, p: TsPacket): TsState {
    var st1 := if p.kind == TRIGID_INC && !st.insideAcq
               then st.(stats := st.stats.(outside := st.stats.outside + 1)) else st;
    if IsTimed(p.kind) then Timed(cfg, st1, Counters.Reconstruct(st.cycleNoTS, p.cycle, 256, 127), p) else st1
  }

  function Run(cfg: TsConfig, st: TsState, ps: seq<TsPacket>): TsState
    decreases |ps|
  {
    if ps == [] then st else Run(cfg, Step(cfg, st, ps[0]), ps[1..])
  }

  // ---------- What a packet does to the readout cycles ----------

  /** What a packet adds to the time data of its cycle. */
  datatype Effect = SetStart(time: int) | SetStop(time: int) | AddTrigger(id: int, time: int) | Touch

  function ApplyEffect(t: TimeData, e: Effect): TimeData {
    match e
    case SetStart(time) => t.(start := time)
    case SetStop(time) => t.(stop := time)
    case AddTrigger(id, time) => t.(ids := t.ids + [id], times := t.times + [time])
    case Touch => t
  }

  function CycleOf(st: TsState, p: TsPacket): int {
    Counters.Reconstruct(st.cycleNoTS, p.cycle, 256, 127)
  }

  function EffectOf(cfg: TsConfig, st: TsState, p: TsPacket): Effect {
    if p.kind == START_ACQ then SetStart(p.time)
    else if p.kind == STOP_ACQ then SetStop(p.time)
    else if Accepts(cfg, st, p) then
      AddTrigger(ToInt32((TriggerBase(st, p) + TriggerStep(TriggerBase(st, p), p.rawTrigId)) % U32_SIZE), p.time)
    else Touch
  }

  /** The state without the time data, which no packet looks at beyond its own cycle. */
  function Bare(st: TsState): TsState {
    st.(data := [])
  }

  lemma StepData(cfg: TsConfig, st: TsState, p: TsPacket)
    ensures Step(cfg, st, p).data
         == if IsTimed(p.kind)
            then Put(st.data, CycleOf(st, p), ApplyEffect(Get(st.data, CycleOf(st, p), NO_TIME_DATA), EffectOf(cfg, st, p)))
            else st.data
  {
    var c := CycleOf(st, p);
    var here := Get(st.data, c, NO_TIME_DATA);
    GetPut(st.data, c, here, c, NO_TIME_DATA);
    PutPut(st.data, c, here, ApplyEffect(here, EffectOf(cfg, st, p)));
  }

  lemma StepBare(cfg: TsConfig, st: TsState, p: TsPacket, st': TsState)
    requires Bare(st) == Bare(st')
    ensures Bare(Step(cfg, st, p)) == Bare(Step(cfg, st', p))
    ensures CycleOf(st, p) == CycleOf(st', p) && EffectOf(cfg, st, p) == EffectOf(cfg, st', p)
  {
    assert st' == st.(data := st'.data);
  }

  // ---------- Time and trigger accounting ----------

  function Sum(s: seq<int>): int {
    if s == [] then 0 else s[0] + Sum(s[1..])
  }

  lemma {:induction false} SumAppend(s: seq<int>, x: int)
    ensures Sum(s + [x]) == Sum(s) + x
  {
    if s == [] {
      assert s + [x] == [x];
    } else {
      assert (s + [x])[1..] == s[1..] + [x];
      SumAppend(s[1..], x);
    }
  }

  /** Number of cycles in the histogram. */
  function Total(h: seq<Entry<int>>): int {
    if h == [] then 0 else h[0].value + Total(h[1..])
  }

  /** Number of triggers in the cycles of the histogram. */
  function Weighted(h: seq<Entry<int>>): int {
    if h == [] then 0 else h[0].key * h[0].value + Weighted(h[1..])
  }

  lemma ConsSums(e: Entry<int>, rest: seq<Entry<int>>)
    ensures Total([e] + rest) == e.value + Total(rest)
    ensures Weighted([e] + rest) == e.key * e.value + Weighted(rest)
  {
    assert ([e] + rest)[1..] == rest;
  }

  lemma OneMore(k: int, v: int)
    ensures k * (v + 1) == k * v + k
  {
  }

  lemma PutInFront(h: seq<Entry<int>>, k: int)
    requires h != [] && Ordered(h) && k <= h[0].key
    ensures var v := Get(h, k, 0); var r := Put(h, k, v + 1);
            Total(r) == Total(h) + 1 && Weighted(r) == Weighted(h) + k
  {
    if k < h[0].key {
      HasTail(h);
      GetMissing(h, k, 0);
      ConsSums(Entry(k, 1), h);
    } else {
      OneMore(k, h[0].value);
      ConsSums(Entry(k, h[0].value + 1), h[1..]);
    }
  }

  lemma {:induction false} CountOne(h: seq<Entry<int>>, k: int)
    requires Ordered(h)
    ensures var v := Get(h, k, 0); var r := Put(h, k, v + 1);
            Total(r) == Total(h) + 1 && Weighted(r) == Weighted(h) + k
    decreases |h|
  {
    if h == [] {
      ConsSums(Entry(k, 1), []);
    } else if k <= h[0].key {
      PutInFront(h, k);
    } else {
      var tail := h[1..];
      var v := Get(tail, k, 0);
      assert Get(h, k, 0) == v;
      CountOne(tail, k);
      ConsSums(h[0], Put(tail, k, v + 1));
      assert Put(h, k, v + 1) == [h[0]] + Put(tail, k, v + 1);
      assert Weighted(h) == h[0].key * h[0].value + Weighted(tail);
    }
  }

  /** The run statistics add up. */
  ghost predicate Accounted(s: Stats, insideAcq: bool) {
    && s.onTime == Sum(s.acquisitions) % U64_SIZE
    && s.offTime == Sum(s.processings) % U64_SIZE
    && (s.onTime + s.offTime) % U64_SIZE == (s.last - s.first) % U64_SIZE
    && Total(s.histogram) == s.cycles == |s.acquisitions|
    && Weighted(s.histogram) + (if insideAcq then s.cycleTriggers else 0) == s.inside
  }

  lemma ModSum(a: int, b: int)
    ensures (a % U64_SIZE + b) % U64_SIZE == (a + b) % U64_SIZE
  {
  }

  lemma ModChain(on: int, off: int, last: int, first: int, time: int)
    requires (on + off) % U64_SIZE == (last - first) % U64_SIZE
    ensures (on + off + (time - last) % U64_SIZE) % U64_SIZE == (time - first) % U64_SIZE
  {
  }

  // ---------- When the statistics add up ----------

  /** A packet that begins or ends an acquisition. */
  predicate IsEdge(insideAcq: bool, p: TsPacket) {
    (p.kind == START_ACQ && !insideAcq) || (p.kind == STOP_ACQ && insideAcq)
  }

  /** An effective start or stop, and how many triggers were accepted since the one before. */
  datatype Edge = Edge(time: int, triggers: nat)

  /** The effective starts and stops along a run: start, stop, start, ... */
  function Edges(cfg: TsConfig, st: TsState, ps: seq<TsPacket>, triggers: nat): seq<Edge>
    decreases |ps|
  {
    if ps == [] then []
    else
      var next := Step(cfg, st, ps[0]);
      if IsEdge(st.insideAcq, ps[0]) then [Edge(ps[0].time, triggers)] + Edges(cfg, next, ps[1..], 0)
      else Edges(cfg, next, ps[1..], triggers + (if Accepts(cfg, st, ps[0]) then 1 else 0))
  }

  predicate AllZero(es: seq<Edge>) {
    forall i :: 0 <= i < |es| ==> es[i].time == 0
  }

  /** A time other than 0 follows one other than 0, or it is that of the first start that is not 0,
      with nothing but zeros before it. */
  predicate TimesFit(es: seq<Edge>) {
    forall i :: 1 <= i < |es| && es[i].time != 0 ==> es[i - 1].time != 0 || (i % 2 == 0 && AllZero(es[..i]))
  }

  /** No acquisition that started at time 0 and ended saw a trigger. */
  predicate TriggersFit(es: seq<Edge>) {
    forall i :: 1 <= i < |es| && i % 2 == 1 && es[i - 1].time == 0 ==> es[i].triggers == 0
  }

  predicate Fit(es: seq<Edge>) {
    TimesFit(es) && TriggersFit(es)
  }

  /** What one more edge needs. */
  predicate FitsNext(es: seq<Edge>, e: Edge) {
    es != [] && es[|es| - 1].time == 0 ==>
      (e.time != 0 ==> |es| % 2 == 0 && AllZero(es)) && (|es| % 2 == 1 ==> e.triggers == 0)
  }

  lemma FitAdd(es: seq<Edge>, e: Edge)
    ensures Fit(es + [e]) <==> Fit(es) && FitsNext(es, e)
  {
    var all, n := es + [e], |es|;
    assert all[..n] == es;
    forall i | 0 <= i < n ensures all[i] == es[i] && all[..i] == es[..i] {
    }
    if Fit(all) {
      forall i | 1 <= i < n && es[i].time != 0 ensures es[i - 1].time != 0 || (i % 2 == 0 && AllZero(es[..i])) {
        assert all[i] == es[i] && all[i - 1] == es[i - 1];
      }
      forall i | 1 <= i < n && i % 2 == 1 && es[i - 1].time == 0 ensures es[i].triggers == 0 {
        assert all[i] == es[i] && all[i - 1] == es[i - 1];
      }
      assert n >= 1 ==> all[n] == e && all[n - 1] == es[n - 1];
    }
  }

  lemma {:induction false} FitPrefix(a: seq<Edge>, b: seq<Edge>)
    requires Fit(a + b)
    ensures Fit(a)
    decreases |b|
  {
    if b == [] {
      assert a + b == a;
    } else {
      assert a + b == (a + b[..|b| - 1]) + [b[|b| - 1]];
      FitAdd(a + b[..|b| - 1], b[|b| - 1]);
      FitPrefix(a, b[..|b| - 1]);
    }
  }

  /** What the statistics remember of the edges so far. */
  ghost predicate Remembers(s: Stats, insideAcq: bool, es: seq<Edge>, triggers: nat) {
    && insideAcq == (|es| % 2 == 1)
    && s.last == (if es == [] then 0 else es[|es| - 1].time)
    && (if insideAcq then s.prevStart == s.last && s.cycleTriggers == triggers else s.prevStop == s.last)
    && (s.first == 0 <==> AllZero(es))
    && 0 <= s.first < U64_SIZE && 0 <= s.last < U64_SIZE
    && Ordered(s.histogram)
  }

  lemma AllZeroAdd(es: seq<Edge>, e: Edge)
    ensures AllZero(es + [e]) <==> AllZero(es) && e.time == 0
  {
    var all := es + [e];
    assert all[|es|] == e;
    if AllZero(all) {
      forall i | 0 <= i < |es| ensures es[i].time == 0 {
        assert all[i] == es[i];
      }
    }
  }

  lemma OffBalance(on: int, off: int, first: int, time: int)
    requires (on + off) % U64_SIZE == (0 - first) % U64_SIZE && 0 <= time < U64_SIZE
    ensures (on + off) % U64_SIZE == (time - first) % U64_SIZE <==> time == 0
  {
    if (time - first) % U64_SIZE == (0 - first) % U64_SIZE {
      var k := (time - first) / U64_SIZE - (0 - first) / U64_SIZE;
      assert time == k * U64_SIZE;
    }
  }

  /** Adding a length to one total keeps the balance. */
  lemma BalanceStep(one: int, other: int, last: int, first: int, time: int)
    requires (one + other) % U64_SIZE == (last - first) % U64_SIZE
    ensures ((one + (time - last) % U64_SIZE) % U64_SIZE + other) % U64_SIZE == (time - first) % U64_SIZE
  {
    ModChain(one, other, last, first, time);
    ModSum(one + (time - last) % U64_SIZE, other);
  }

  lemma SumStep(total: int, s: seq<int>, len: int)
    requires total == Sum(s) % U64_SIZE
    ensures (total + len) % U64_SIZE == Sum(s + [len]) % U64_SIZE
  {
    SumAppend(s, len);
    ModSum(Sum(s), len);
  }

  /** A start after a stop at a time that counts. */
  lemma StartBalanced(s: Stats, time: int)
    requires Accounted(s, false) && s.prevStop == s.last != 0 && s.first != 0
    ensures Accounted(StartStats(s, time), true)
  {
    SumStep(s.offTime, s.processings, (time - s.last) % U64_SIZE);
    BalanceStep(s.offTime, s.onTime, s.last, s.first, time);
  }

  lemma StartAccounted(s: Stats, es: seq<Edge>, e: Edge)
    requires Remembers(s, false, es, 0) && Accounted(s, false) && 0 <= e.time < U64_SIZE
    ensures Accounted(StartStats(s, e.time), true) <==> FitsNext(es, e)
    ensures FitsNext(es, e) ==> Remembers(StartStats(s, e.time), true, es + [e], 0)
  {
    AllZeroAdd(es, e);
    if s.prevStop != 0 {
      assert es[|es| - 1].time != 0;
      StartBalanced(s, e.time);
    } else {
      OffBalance(s.onTime, s.offTime, s.first, e.time);
    }
  }

  /** The histogram with one more cycle. */
  lemma HistogramStep(h: seq<Entry<int>>, triggers: int)
    requires Ordered(h)
    ensures var r := Put(h, triggers, Get(h, triggers, 0) + 1);
      Ordered(r) && Total(r) == Total(h) + 1 && Weighted(r) == Weighted(h) + triggers
  {
    CountOne(h, triggers);
    PutMeaning(h, triggers, Get(h, triggers, 0) + 1);
  }

  /** A stop after a start at a time that counts. */
  lemma StopBalanced(s: Stats, time: int)
    requires Accounted(s, true) && s.prevStart == s.last != 0 && Ordered(s.histogram)
    ensures Accounted(StopStats(s, time), false) && Ordered(StopStats(s, time).histogram)
  {
    SumStep(s.onTime, s.acquisitions, (time - s.last) % U64_SIZE);
    BalanceStep(s.onTime, s.offTime, s.last, s.first, time);
    HistogramStep(s.histogram, s.cycleTriggers);
  }

  lemma StopAccounted(s: Stats, es: seq<Edge>, e: Edge)
    requires Remembers(s, true, es, e.triggers) && Accounted(s, true) && 0 <= e.time < U64_SIZE
    ensures Accounted(StopStats(s, e.time), false) <==> FitsNext(es, e)
    ensures FitsNext(es, e) ==> Remembers(StopStats(s, e.time), false, es + [e], 0)
  {
    AllZeroAdd(es, e);
    if s.prevStart != 0 {
      StopBalanced(s, e.time);
    } else {
      OffBalance(s.onTime, s.offTime, s.first, e.time);
    }
  }

  /** Other packets change nothing that the accounting looks at but the triggers of the open cycle. */
  lemma OtherAccounted(cfg: TsConfig, st: TsState, p: TsPacket, es: seq<Edge>, triggers: nat)
    requires !IsEdge(st.insideAcq, p) && Accounted(st.stats, st.insideAcq) && Remembers(st.stats, st.insideAcq, es, triggers)
    ensures var r := Step(cfg, st, p);
      && Accounted(r.stats, r.insideAcq)
      && Remembers(r.stats, r.insideAcq, es, triggers + (if Accepts(cfg, st, p) then 1 else 0))
  {
    var r := Step(cfg, st, p);
    if p.kind != START_ACQ && p.kind != STOP_ACQ {
      var hit := r.stats.inside - st.stats.inside;
      assert r.insideAcq == st.insideAcq && hit == (if st.insideAcq && Accepts(cfg, st, p) then 1 else 0);
      assert r.stats == st.stats.(outside := r.stats.outside, lost := r.stats.lost,
                                  inside := st.stats.inside + hit, cycleTriggers := st.stats.cycleTriggers + hit);
    }
  }

  lemma EdgeAccounted(cfg: TsConfig, st: TsState, p: TsPacket, es: seq<Edge>, triggers: nat)
    requires p.Valid() && IsEdge(st.insideAcq, p)
    requires Accounted(st.stats, st.insideAcq) && Remembers(st.stats, st.insideAcq, es, triggers)
    ensures var r := Step(cfg, st, p); var e := Edge(p.time, triggers);
      && (Accounted(r.stats, r.insideAcq) <==> FitsNext(es, e))
      && (FitsNext(es, e) ==> Remembers(r.stats, r.insideAcq, es + [e], 0))
  {
    if p.kind == START_ACQ {
      StartAccounted(st.stats, es, Edge(p.time, triggers));
    } else {
      StopAccounted(st.stats, es, Edge(p.time, triggers));
    }
  }

  /** The statistics add up now and after every further packet. */
  ghost predicate AlwaysAccounted(cfg: TsConfig, st: TsState, ps: seq<TsPacket>)
    decreases |ps|
  {
    Accounted(st.stats, st.insideAcq) && (ps == [] || AlwaysAccounted(cfg, Step(cfg, st, ps[0]), ps[1..]))
  }

  ghost predicate AllValid(ps: seq<TsPacket>) {
    forall i :: 0 <= i < |ps| ==> ps[i].Valid()
  }

  /** The statistics add up, and remember fitting edges. */
  ghost predicate InBalance(st: TsState, es: seq<Edge>, triggers: nat) {
    Accounted(st.stats, st.insideAcq) && Remembers(st.stats, st.insideAcq, es, triggers) && Fit(es)
  }

  lemma EdgeStep(cfg: TsConfig, st: TsState, p: TsPacket, es: seq<Edge>, triggers: nat, more: seq<Edge>)
    requires p.Valid() && IsEdge(st.insideAcq, p) && InBalance(st, es, triggers)
    ensures var r := Step(cfg, st, p); var e := Edge(p.time, triggers);
      && (Accounted(r.stats, r.insideAcq) ==> InBalance(r, es + [e], 0))
      && (Fit(es + ([e] + more)) ==> Accounted(r.stats, r.insideAcq))
  {
    var e := Edge(p.time, triggers);
    EdgeAccounted(cfg, st, p, es, triggers);
    FitAdd(es, e);
    assert es + ([e] + more) == (es + [e]) + more;
    if Fit((es + [e]) + more) {
      FitPrefix(es + [e], more);
    }
  }

  lemma OtherStep(cfg: TsConfig, st: TsState, p: TsPacket, es: seq<Edge>, triggers: nat)
    requires !IsEdge(st.insideAcq, p) && InBalance(st, es, triggers)
    ensures InBalance(Step(cfg, st, p), es, triggers + (if Accepts(cfg, st, p) then 1 else 0))
  {
    OtherAccounted(cfg, st, p, es, triggers);
  }

  /** From a balanced state on, the statistics add up if and only if the edges to come fit. */
  ghost predicate ExactFrom(cfg: TsConfig, st: TsState, ps: seq<TsPacket>, es: seq<Edge>, triggers: nat) {
    InBalance(st, es, triggers) ==> (AlwaysAccounted(cfg, st, ps) <==> Fit(es + Edges(cfg, st, ps, triggers)))
  }

  lemma EdgeExact(cfg: TsConfig, st: TsState, ps: seq<TsPacket>, es: seq<Edge>, triggers: nat, next: TsState)
    requires ps != [] && ps[0].Valid() && IsEdge(st.insideAcq, ps[0]) && next == Step(cfg, st, ps[0])
    requires ExactFrom(cfg, next, ps[1..], es + [Edge(ps[0].time, triggers)], 0)
    ensures ExactFrom(cfg, st, ps, es, triggers)
  {
    if InBalance(st, es, triggers) {
      var e, more := Edge(ps[0].time, triggers), Edges(cfg, next, ps[1..], 0);
      EdgeStep(cfg, st, ps[0], es, triggers, more);
      assert es + ([e] + more) == (es + [e]) + more;
    }
  }

  lemma OtherExact(cfg: TsConfig, st: TsState, ps: seq<TsPacket>, es: seq<Edge>, triggers: nat, next: TsState)
    requires ps != [] && !IsEdge(st.insideAcq, ps[0]) && next == Step(cfg, st, ps[0])
    requires ExactFrom(cfg, next, ps[1..], es, triggers + (if Accepts(cfg, st, ps[0]) then 1 else 0))
    ensures ExactFrom(cfg, st, ps, es, triggers)
  {
    if InBalance(st, es, triggers) {
      OtherStep(cfg, st, ps[0], es, triggers);
    }
  }

  lemma {:induction false} AccountedFrom(cfg: TsConfig, st: TsState, ps: seq<TsPacket>, es: seq<Edge>, triggers: nat)
    requires AllValid(ps)
    ensures ExactFrom(cfg, st, ps, es, triggers)
    decreases |ps|
  {
    if ps == [] {
      assert es + [] == es;
    } else {
      var p, next := ps[0], Step(cfg, st, ps[0]);
      if IsEdge(st.insideAcq, p) {
        AccountedFrom(cfg, next, ps[1..], es + [Edge(p.time, triggers)], 0);
        EdgeExact(cfg, st, ps, es, triggers, next);
      } else {
        AccountedFrom(cfg, next, ps[1..], es, triggers + (if Accepts(cfg, st, p) then 1 else 0));
        OtherExact(cfg, st, ps, es, triggers, next);
      }
    }
  }

  lemma {:induction false} AlwaysIsPrefixes(cfg: TsConfig, st: TsState, ps: seq<TsPacket>)
    ensures AlwaysAccounted(cfg, st, ps)
        <==> forall n | 0 <= n <= |ps| :: var r := Run(cfg, st, ps[..n]); Accounted(r.stats, r.insideAcq)
    decreases |ps|
  {
    assert Run(cfg, st, ps[..0]) == st;
    if ps != [] {
      var next := Step(cfg, st, ps[0]);
      AlwaysIsPrefixes(cfg, next, ps[1..]);
      forall n | 1 <= n <= |ps| ensures Run(cfg, st, ps[..n]) == Run(cfg, next, ps[1..][..n - 1]) {
        assert ps[..n][1..] == ps[1..][..n - 1];
      }
      if forall n | 0 <= n <= |ps| :: var r := Run(cfg, st, ps[..n]); Accounted(r.stats, r.insideAcq) {
        forall n | 0 <= n <= |ps[1..]| ensures var r := Run(cfg, next, ps[1..][..n]); Accounted(r.stats, r.insideAcq) {
          assert Run(cfg, st, ps[..n + 1]) == Run(cfg, next, ps[1..][..n]);
        }
      }
    }
  }

  /** The statistics add up after every packet of a run, in whatever order starts, stops and triggers
      come, if and only if the times and triggers of the effective starts and stops fit. */
  lemma AccountedExactly(cfg: TsConfig, ps: seq<TsPacket>)
    requires AllValid(ps)
    ensures (forall n | 0 <= n <= |ps| :: var r := Run(cfg, Initial(cfg), ps[..n]); Accounted(r.stats, r.insideAcq))
        <==> var es := Edges(cfg, Initial(cfg), ps, 0); TimesFit(es) && TriggersFit(es)
  {
    NoEdgesYet(NO_STATS);
    AccountedRun(cfg, Initial(cfg), ps);
  }

  lemma NoEdgesYet(s: Stats)
    requires s == NO_STATS
    ensures Accounted(s, false) && Remembers(s, false, [], 0)
  {
  }

  lemma AccountedRun(cfg: TsConfig, st: TsState, ps: seq<TsPacket>)
    requires AllValid(ps) && Accounted(st.stats, st.insideAcq) && Remembers(st.stats, st.insideAcq, [], 0)
    ensures (forall n | 0 <= n <= |ps| :: var r := Run(cfg, st, ps[..n]); Accounted(r.stats, r.insideAcq))
        <==> Fit(Edges(cfg, st, ps, 0))
  {
    AlwaysIsPrefixes(cfg, st, ps);
    AccountedFrom(cfg, st, ps, [], 0);
    assert [] + Edges(cfg, st, ps, 0) == Edges(cfg, st, ps, 0);
  }

  /** So they do if no effective start or stop has time 0; all other times do not matter. */
  lemma ReachableAccounted(cfg: TsConfig, ps: seq<TsPacket>)
    requires AllValid(ps) && forall e :: e in Edges(cfg, Initial(cfg), ps, 0) ==> e.time != 0
    ensures var st := Run(cfg, Initial(cfg), ps); Accounted(st.stats, st.insideAcq)
  {
    var es := Edges(cfg, Initial(cfg), ps, 0);
    assert forall i :: 0 <= i < |es| ==> es[i] in es;
    AccountedExactly(cfg, ps);
    assert ps[..|ps|] == ps;
  }

  /** An instance of the other side: a start at time 0, then a stop at another time. */
  lemma ZeroTimeUnbalanced(cfg: TsConfig)
    ensures var ps := [TsPacket(START_ACQ, 0, 0, 0), TsPacket(STOP_ACQ, 0, 0, 5)];
      exists n | 0 <= n <= |ps| :: var r := Run(cfg, Initial(cfg), ps[..n]); !Accounted(r.stats, r.insideAcq)
  {
    var p, q := TsPacket(START_ACQ, 0, 0, 0), TsPacket(STOP_ACQ, 0, 0, 5);
    var s0 := Initial(cfg);
    var s1 := Step(cfg, s0, p);
    assert [p, q][1..] == [q] && [q][1..] == [];
    assert Edges(cfg, s1, [q], 0) == [Edge(5, 0)] + Edges(cfg, Step(cfg, s1, q), [], 0);
    var es := Edges(cfg, s0, [p, q], 0);
    assert es == [Edge(0, 0), Edge(5, 0)];
    AccountedExactly(cfg, [p, q]);
    assert es[1].time != 0 && es[0].time == 0;
  }

  // ---------- Extension of the trigger number ----------

  /** The base the distance of a trigger packet is measured from. */
  function TriggerBase(st: TsState, p: TsPacket): int {
    if st.trigIdKnown then st.trigId else (p.rawTrigId - 1) % U32_SIZE
  }

  predicate Accepts(cfg: TsConfig, st: TsState, p: TsPacket) {
    p.kind == TRIGID_INC && StepAccepted(cfg, TriggerStep(TriggerBase(st, p), p.rawTrigId))
  }

  /** The raw trigger numbers accepted along a run. */
  function AcceptedIds(cfg: TsConfig, st: TsState, ps: seq<TsPacket>): seq<int>
    decreases |ps|
  {
    if ps == [] then []
    else (if Accepts(cfg, st, ps[0]) then [ps[0].rawTrigId] else []) + AcceptedIds(cfg, Step(cfg, st, ps[0]), ps[1..])
  }

  /** The unbounded trigger number reached after `n` accepted triggers, the first being `first`. */
  function FullId(first: int, n: int, lost: int): int {
    first - 1 + n + lost
  }

  predicate Increasing(s: seq<int>) {
    forall i, j :: 0 <= i < j < |s| ==> s[i] < s[j]
  }

  /** One readout cycle's lists: as many times as numbers, numbers growing up to `bound`. */
  predicate ListsUpTo(t: TimeData, bound: int) {
    |t.ids| == |t.times| && Increasing(t.ids) && forall i :: 0 <= i < |t.ids| ==> t.ids[i] <= bound
  }

  ghost predicate AllListsUpTo(data: seq<Entry<TimeData>>, bound: int) {
    forall i :: 0 <= i < |data| ==> ListsUpTo(data[i].value, bound)
  }

  /** After accepting `acc`: the extended number, its low half and the lists of all cycles. */
  ghost predicate TrigInv(st: TsState, acc: seq<int>) {
    && (acc == [] ==> !st.trigIdKnown && st.stats.lost == 0)
    && (acc != [] ==>
         && st.trigIdKnown && st.stats.lost >= 0
         && st.trigId == FullId(acc[0], |acc|, st.stats.lost) % U32_SIZE
         && st.trigId % U16_SIZE == acc[|acc| - 1])
  }

  ghost predicate ListInv(st: TsState, acc: seq<int>) {
    && Ordered(st.data)
    && AllListsUpTo(st.data, if acc == [] then -1 else FullId(acc[0], |acc|, st.stats.lost))
  }

  lemma TriggerStepMeaning(base: int, raw: int)
    requires 0 <= base < U32_SIZE && 0 <= raw < U16_SIZE
    ensures (base + TriggerStep(base, raw)) % U16_SIZE == raw
    ensures ((base + TriggerStep(base, raw)) % U32_SIZE) % U16_SIZE == raw
  {
  }

  /** The first trigger packet is always accepted, with distance one. */
  lemma FirstAccepted(raw: int)
    requires 0 <= raw < U16_SIZE
    ensures TriggerStep((raw - 1) % U32_SIZE, raw) == 1
    ensures ((raw - 1) % U32_SIZE + 1) % U32_SIZE == raw
  {
  }

  lemma IdAdvances(full: int, d: int)
    ensures (full % U32_SIZE + d) % U32_SIZE == (full + d) % U32_SIZE
  {
  }

  /** What a packet does to the trigger number. */
  lemma TrigFields(cfg: TsConfig, st: TsState, p: TsPacket)
    ensures var r, base := Step(cfg, st, p), TriggerBase(st, p); var d := TriggerStep(base, p.rawTrigId);
      if p.kind != TRIGID_INC then
        r.trigId == st.trigId && r.trigIdKnown == st.trigIdKnown && r.stats.lost == st.stats.lost
      else if Accepts(cfg, st, p) then
        r.trigIdKnown && r.trigId == (base + d) % U32_SIZE && r.stats.lost == st.stats.lost + d - 1 && d >= 1
      else r.trigIdKnown && r.trigId == base && r.stats.lost == st.stats.lost
  {
  }

  /** An accepted number continues the extended one. */
  lemma TrigNext(st: TsState, p: TsPacket, acc: seq<int>)
    requires TrigInv(st, acc) && p.Valid()
    ensures var base := TriggerBase(st, p); var d := TriggerStep(base, p.rawTrigId); var now := acc + [p.rawTrigId];
      && (base + d) % U32_SIZE == FullId(now[0], |now|, st.stats.lost + d - 1) % U32_SIZE
      && ((base + d) % U32_SIZE) % U16_SIZE == p.rawTrigId
      && (acc == [] ==> d == 1)
  {
    var base := TriggerBase(st, p);
    TriggerStepMeaning(base, p.rawTrigId);
    if acc == [] {
      FirstAccepted(p.rawTrigId);
      assert acc + [p.rawTrigId] == [p.rawTrigId];
    } else {
      IdAdvances(FullId(acc[0], |acc|, st.stats.lost), TriggerStep(base, p.rawTrigId));
    }
  }

  lemma TrigStep(cfg: TsConfig, st: TsState, p: TsPacket, acc: seq<int>)
    requires TrigInv(st, acc) && p.Valid()
    requires forall i :: 0 <= i < |acc| ==> 0 <= acc[i] < U16_SIZE
    ensures TrigInv(Step(cfg, st, p), acc + if Accepts(cfg, st, p) then [p.rawTrigId] else [])
    ensures !Accepts(cfg, st, p) ==> Step(cfg, st, p).stats.lost == st.stats.lost
    ensures !Accepts(cfg, st, p) ==> Step(cfg, st, p).trigId == if p.kind == TRIGID_INC then TriggerBase(st, p) else st.trigId
  {
    TrigFields(cfg, st, p);
    if p.kind == TRIGID_INC {
      TrigNext(st, p, acc);
    }
    assert acc + [] == acc;
  }

  /** Over any run: the 32-bit number is the first raw number plus everything accepted and
      everything lost since, and its low half is the last accepted raw number. */
  lemma {:induction false} RunTriggerIds(cfg: TsConfig, st: TsState, ps: seq<TsPacket>, acc: seq<int>)
    requires AllValid(ps)
    ensures Numbered(st, acc) ==> Numbered(Run(cfg, st, ps), acc + AcceptedIds(cfg, st, ps))
    decreases |ps|
  {
    if ps == [] {
      assert acc + [] == acc;
    } else {
      var st', here := Step(cfg, st, ps[0]), AcceptedId(cfg, st, ps[0]);
      assert (acc + here) + AcceptedIds(cfg, st', ps[1..]) == acc + AcceptedIds(cfg, st, ps);
      NumberedStep(cfg, st, ps[0], acc);
      RunTriggerIds(cfg, st', ps[1..], acc + here);
    }
  }

  /** The extended number is right after the raw numbers accepted so far. */
  ghost predicate Numbered(st: TsState, acc: seq<int>) {
    TrigInv(st, acc) && forall i :: 0 <= i < |acc| ==> 0 <= acc[i] < U16_SIZE
  }

  function AcceptedId(cfg: TsConfig, st: TsState, p: TsPacket): seq<int> {
    if Accepts(cfg, st, p) then [p.rawTrigId] else []
  }

  lemma NumberedStep(cfg: TsConfig, st: TsState, p: TsPacket, acc: seq<int>)
    requires p.Valid()
    ensures Numbered(st, acc) ==> Numbered(Step(cfg, st, p), acc + AcceptedId(cfg, st, p))
  {
    if Numbered(st, acc) {
      TrigStep(cfg, st, p, acc);
    }
  }

  /** A packet that is not an accepted trigger changes neither the number nor the lost count. */
  lemma RejectedKeeps(cfg: TsConfig, st: TsState, p: TsPacket)
    requires p.Valid() && !Accepts(cfg, st, p)
    ensures Step(cfg, st, p).trigId == st.trigId && Step(cfg, st, p).stats.lost == st.stats.lost
  {
    if p.kind == TRIGID_INC {
      FirstAccepted(p.rawTrigId);
    }
  }

  /** A packet that is rejected next changes neither the number nor the lost count. */
  ghost predicate IgnoresRejected(cfg: TsConfig, st: TsState) {
    forall p: TsPacket | p.Valid() && !Accepts(cfg, st, p) ::
      Step(cfg, st, p).trigId == st.trigId && Step(cfg, st, p).stats.lost == st.stats.lost
  }

  lemma RejectedIgnored(cfg: TsConfig, st: TsState)
    ensures IgnoresRejected(cfg, st)
  {
    forall p: TsPacket | p.Valid() && !Accepts(cfg, st, p)
      ensures Step(cfg, st, p).trigId == st.trigId && Step(cfg, st, p).stats.lost == st.stats.lost
    {
      RejectedKeeps(cfg, st, p);
    }
  }

  /** After any run the 32-bit number is the first raw number minus one plus everything accepted and
      everything lost, its low half is the last accepted raw number, and a packet rejected next changes
      neither the number nor the lost count. */
  lemma TriggerIdExtension(cfg: TsConfig, ps: seq<TsPacket>)
    requires forall i :: 0 <= i < |ps| ==> ps[i].Valid()
    ensures var acc := AcceptedIds(cfg, Initial(cfg), ps); var st := Run(cfg, Initial(cfg), ps);
      acc != [] ==>
        && st.trigId == (acc[0] - 1 + |acc| + st.stats.lost) % U32_SIZE
        && st.trigId % U16_SIZE == acc[|acc| - 1]
    ensures IgnoresRejected(cfg, Run(cfg, Initial(cfg), ps))
  {
    RejectedIgnored(cfg, Run(cfg, Initial(cfg), ps));
    RunTriggerIds(cfg, Initial(cfg), ps, []);
    assert [] + AcceptedIds(cfg, Initial(cfg), ps) == AcceptedIds(cfg, Initial(cfg), ps);
  }

  // ---------- The lists of the readout cycles ----------

  lemma PutList(data: seq<Entry<TimeData>>, k: int, t: TimeData, bound: int)
    requires AllListsUpTo(data, bound) && ListsUpTo(t, bound)
    ensures AllListsUpTo(Put(data, k, t), bound)
  {
    if data != [] && k > data[0].key {
      PutList(data[1..], k, t, bound);
    }
  }

  lemma GetList(data: seq<Entry<TimeData>>, k: int, bound: int)
    requires AllListsUpTo(data, bound)
    ensures ListsUpTo(Get(data, k, NO_TIME_DATA), bound)
  {
    if data != [] && data[0].key != k {
      GetList(data[1..], k, bound);
    }
  }

  lemma RaiseBound(data: seq<Entry<TimeData>>, b: int, b': int)
    requires AllListsUpTo(data, b) && b <= b'
    ensures AllListsUpTo(data, b')
  {
    forall i | 0 <= i < |data| ensures ListsUpTo(data[i].value, b') {
      assert ListsUpTo(data[i].value, b);
    }
  }

  lemma SmallId(full: int)
    requires 0 <= full < 0x8000_0000
    ensures ToInt32(full % U32_SIZE) == full
  {
  }

  /** One packet keeps the lists, as long as the extended number fits a 32-bit `int`. */
  lemma ListStep(cfg: TsConfig, st: TsState, p: TsPacket, acc: seq<int>)
    requires TrigInv(st, acc) && ListInv(st, acc) && p.Valid()
    requires forall i :: 0 <= i < |acc| ==> 0 <= acc[i] < U16_SIZE
    requires var acc' := acc + if Accepts(cfg, st, p) then [p.rawTrigId] else [];
             acc' != [] ==> FullId(acc'[0], |acc'|, Step(cfg, st, p).stats.lost) < 0x8000_0000
    ensures ListInv(Step(cfg, st, p), acc + if Accepts(cfg, st, p) then [p.rawTrigId] else [])
  {
    var r := Step(cfg, st, p);
    var bound := if acc == [] then -1 else FullId(acc[0], |acc|, st.stats.lost);
    var cycle := Counters.Reconstruct(st.cycleNoTS, p.cycle, 256, 127);
    var here := Get(st.data, cycle, NO_TIME_DATA);
    GetList(st.data, cycle, bound);
    PutMeaning(st.data, cycle, here);
    PutList(st.data, cycle, here, bound);
    var data1 := Put(st.data, cycle, here);
    GetPut(st.data, cycle, here, cycle, NO_TIME_DATA);
    assert acc + [] == acc;
    if p.kind == START_ACQ {
      PutMeaning(data1, cycle, here.(start := p.time));
      PutList(data1, cycle, here.(start := p.time), bound);
    } else if p.kind == STOP_ACQ {
      PutMeaning(data1, cycle, here.(stop := p.time));
      PutList(data1, cycle, here.(stop := p.time), bound);
    } else if Accepts(cfg, st, p) {
      var acc' := acc + [p.rawTrigId];
      var full := FullId(acc'[0], |acc'|, r.stats.lost);
      TrigStep(cfg, st, p, acc);
      FirstAccepted(p.rawTrigId);
      assert bound < full && 0 <= full;
      SmallId(full);
      var next := here.(ids := here.ids + [full], times := here.times + [p.time]);
      assert ListsUpTo(next, full);
      RaiseBound(data1, bound, full);
      PutMeaning(data1, cycle, next);
      PutList(data1, cycle, next, full);
      assert r.data == Put(data1, cycle, next);
    }
  }

  /** The extended number never shrinks while packets come in. */
  lemma {:induction false} FullIdGrows(cfg: TsConfig, st: TsState, ps: seq<TsPacket>)
    ensures Run(cfg, st, ps).stats.lost >= st.stats.lost
    decreases |ps|
  {
    if ps != [] {
      FullIdGrows(cfg, Step(cfg, st, ps[0]), ps[1..]);
    }
  }

  /** Numbers and lists so far are right. */
  ghost predicate Listed(st: TsState, acc: seq<int>) {
    Numbered(st, acc) && ListInv(st, acc)
  }

  /** The extended number fits a 32-bit `int`. */
  predicate Fits(acc: seq<int>, lost: int) {
    acc != [] ==> FullId(acc[0], |acc|, lost) < 0x8000_0000
  }

  lemma ListedStep(cfg: TsConfig, st: TsState, p: TsPacket, acc: seq<int>)
    requires p.Valid()
    ensures var r := Step(cfg, st, p); var acc' := acc + AcceptedId(cfg, st, p);
      Listed(st, acc) && Fits(acc', r.stats.lost) ==> Listed(r, acc')
  {
    if Listed(st, acc) && Fits(acc + AcceptedId(cfg, st, p), Step(cfg, st, p).stats.lost) {
      TrigStep(cfg, st, p, acc);
      ListStep(cfg, st, p, acc);
    }
  }

  lemma {:induction false} RunLists(cfg: TsConfig, st: TsState, ps: seq<TsPacket>, acc: seq<int>)
    requires AllValid(ps)
    ensures var r := Run(cfg, st, ps); var all := acc + AcceptedIds(cfg, st, ps);
      Listed(st, acc) && Fits(all, r.stats.lost) ==> Listed(r, all)
    decreases |ps|
  {
    if ps == [] {
      assert acc + [] == acc;
    } else {
      var st', here := Step(cfg, st, ps[0]), AcceptedId(cfg, st, ps[0]);
      var more := AcceptedIds(cfg, st', ps[1..]);
      assert (acc + here) + more == acc + AcceptedIds(cfg, st, ps);
      FullIdGrows(cfg, st', ps[1..]);
      FitsEarlier(acc + here, more, st'.stats.lost, Run(cfg, st, ps).stats.lost);
      ListedStep(cfg, st, ps[0], acc);
      RunLists(cfg, st', ps[1..], acc + here);
    }
  }

  lemma FitsEarlier(a: seq<int>, b: seq<int>, lost: int, later: int)
    requires lost <= later
    ensures Fits(a + b, later) ==> Fits(a, lost)
  {
  }

  /** In every readout cycle there are as many trigger times as trigger numbers and the numbers
      strictly increase, as long as the extended number has not passed 2^31. */
  lemma TriggerListsConsistent(cfg: TsConfig, ps: seq<TsPacket>)
    requires forall i :: 0 <= i < |ps| ==> ps[i].Valid()
    requires var acc := AcceptedIds(cfg, Initial(cfg), ps);
             acc != [] ==> acc[0] - 1 + |acc| + Run(cfg, Initial(cfg), ps).stats.lost < 0x8000_0000
    ensures forall i :: 0 <= i < |Run(cfg, Initial(cfg), ps).data| ==>
              var t := Run(cfg, Initial(cfg), ps).data[i].value; |t.ids| == |t.times| && Increasing(t.ids)
  {
    var st0, acc := Initial(cfg), AcceptedIds(cfg, Initial(cfg), ps);
    assert [] + acc == acc;
    NothingListed(st0);
    RunLists(cfg, st0, ps, []);
    ListsMeaning(Run(cfg, st0, ps), acc);
  }

  lemma NothingListed(st: TsState)
    requires !st.trigIdKnown && st.stats.lost == 0 && st.data == []
    ensures Listed(st, [])
  {
  }

  lemma ListsMeaning(st: TsState, acc: seq<int>)
    requires Listed(st, acc)
    ensures forall i :: 0 <= i < |st.data| ==> var t := st.data[i].value; |t.ids| == |t.times| && Increasing(t.ids)
  {
    forall i | 0 <= i < |st.data| ensures var t := st.data[i].value; |t.ids| == |t.times| && Increasing(t.ids) {
      assert ListsUpTo(st.data[i].value, if acc == [] then -1 else FullId(acc[0], |acc|, st.stats.lost));
    }
  }
}
