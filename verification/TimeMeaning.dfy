/**
 What the time stamp packets leave for each readout cycle: start, stop and triggers, and which triggers
 are accepted.
 */
module TimeMeaning {
  import opened Sequences
  import opened CppDivision
  import opened OrderedMap
  import opened LdaTimestamps
  import Counters

  // ---------- Cycles ----------

  /** A packet with its true readout cycle, of which it carries 8 bits. */
  datatype Stamped = Stamped(roc: int, p: TsPacket)

  predicate Counts(kind: int) {
    kind == 1 || kind == 2 || kind == 16
  }

  /** The cycle that the next packet is measured from: it follows the packets, but not over too large a
      jump. */
  function CycleBehind(cfg: TsConfig, c: int, s: Stamped): int {
    if Counts(s.p.kind) && s.roc - c <= cfg.maxRocJump && c - s.roc <= cfg.maxRocJump then s.roc else c
  }

  /** Each cycle lies from 127 below to 128 above the one it is measured from. */
  predicate TrueCycles(cfg: TsConfig, c: int, ss: seq<Stamped>)
    decreases |ss|
  {
    ss == []
    || (var s := ss[0];
        && (Counts(s.p.kind) ==> s.p.cycle == s.roc % 256 && -127 <= s.roc - c <= 128)
        && TrueCycles(cfg, CycleBehind(cfg, c, s), ss[1..]))
  }

  function PacketsIn(ss: seq<Stamped>): seq<TsPacket> {
    if ss == [] then [] else [ss[0].p] + PacketsIn(ss[1..])
  }

  /** Such a packet is filed under its true cycle. */
  lemma CycleFound(cfg: TsConfig, st: TsState, s: Stamped)
    requires Counts(s.p.kind) && s.p.cycle == s.roc % 256 && -127 <= s.roc - st.cycleNoTS <= 128
    ensures CycleOf(st, s.p) == s.roc && Step(cfg, st, s.p).cycleNoTS == CycleBehind(cfg, st.cycleNoTS, s)
  {
    Counters.OneStep(st.cycleNoTS, s.roc, 256, 127);
  }

  // ---------- Accepted triggers ----------

  /** `d` is the distance from the last trigger number to a raw one, in 16 bits. */
  predicate Distance(last: int, raw: int, d: int) {
    -32768 <= d < 32768 && (raw - last - d) % 65536 == 0
  }

  lemma DistanceIs(last: int, raw: int, d: int)
    requires Distance(last, raw, d)
    ensures TriggerStep(last, raw) == d
  {
    var k := (raw - last - d) / 65536;
    var q := last / 65536;
    assert raw - last % 65536 == d + 65536 * (k + q);
  }

  /** The number that a trigger is measured from: the last one, or the one before the first raw number. */
  function LastNumber(st: TsState, raw: int): int {
    if st.trigIdKnown then st.trigId else (raw - 1) % 4294967296
  }

  /** A trigger is accepted if and only if its number is the next one, or ahead by less than the allowed
      skip. */
  lemma AcceptsExactly(cfg: TsConfig, st: TsState, p: TsPacket, d: int)
    requires Distance(LastNumber(st, p.rawTrigId), p.rawTrigId, d)
    ensures Accepts(cfg, st, p) <==> p.kind == 16 && (d == 1 || (1 < d && d < cfg.maxTrigidSkip))
  {
    DistanceIs(LastNumber(st, p.rawTrigId), p.rawTrigId, d);
  }

  // ---------- What a cycle has ----------

  /** Time of the last packet of a kind for a cycle, or `before`. */
  function LastStamp(ss: seq<Stamped>, roc: int, kind: int, before: int): int
    decreases |ss|
  {
    if ss == [] then before
    else LastStamp(ss[1..], roc, kind, if ss[0].roc == roc && ss[0].p.kind == kind then ss[0].p.time else before)
  }

  /** Numbers of the accepted triggers of a cycle: the extended number, as an `int`. */
  function NumbersFor(cfg: TsConfig, st: TsState, ss: seq<Stamped>, roc: int): seq<int>
    decreases |ss|
  {
    if ss == [] then []
    else
      var next := Step(cfg, st, ss[0].p);
      (if ss[0].roc == roc && Accepts(cfg, st, ss[0].p) then [ToInt32(next.trigId)] else []) + NumbersFor(cfg, next, ss[1..], roc)
  }

  function TimesFor(cfg: TsConfig, st: TsState, ss: seq<Stamped>, roc: int): seq<int>
    decreases |ss|
  {
    if ss == [] then []
    else
      (if ss[0].roc == roc && Accepts(cfg, st, ss[0].p) then [ss[0].p.time] else [])
      + TimesFor(cfg, Step(cfg, st, ss[0].p), ss[1..], roc)
  }

  /** What one packet does to a cycle. */
  lemma PacketTells(cfg: TsConfig, st: TsState, s: Stamped, roc: int)
    requires Counts(s.p.kind) ==> s.p.cycle == s.roc % 256 && -127 <= s.roc - st.cycleNoTS <= 128
    ensures var t, r := Get(st.data, roc, NO_TIME_DATA), Get(Step(cfg, st, s.p).data, roc, NO_TIME_DATA);
      var here := s.roc == roc; var taken := here && Accepts(cfg, st, s.p);
      && r.start == (if here && s.p.kind == 1 then s.p.time else t.start)
      && r.stop == (if here && s.p.kind == 2 then s.p.time else t.stop)
      && r.ids == t.ids + (if taken then [ToInt32(Step(cfg, st, s.p).trigId)] else [])
      && r.times == t.times + (if taken then [s.p.time] else [])
  {
    StepData(cfg, st, s.p);
    var t := Get(st.data, roc, NO_TIME_DATA);
    assert t.ids + [] == t.ids && t.times + [] == t.times;
    if Counts(s.p.kind) {
      CycleFound(cfg, st, s);
      var here := Get(st.data, s.roc, NO_TIME_DATA);
      GetPut(st.data, s.roc, ApplyEffect(here, EffectOf(cfg, st, s.p)), roc, NO_TIME_DATA);
    }
  }

  /** The time data of a cycle. */
  ghost predicate CycleHas(t: TimeData, start: int, stop: int, ids: seq<int>, times: seq<int>) {
    t.start == start && t.stop == stop && t.ids == ids && t.times == times
  }

  /** Over a run of packets whose cycles are recovered: each cycle has the times of its last start and stop
      packets, and the numbers and times of its accepted triggers, in order. */
  lemma {:induction false} RunHas(cfg: TsConfig, st: TsState, ss: seq<Stamped>, roc: int)
    requires TrueCycles(cfg, st.cycleNoTS, ss)
    ensures var t := Get(st.data, roc, NO_TIME_DATA);
      CycleHas(Get(Run(cfg, st, PacketsIn(ss)).data, roc, NO_TIME_DATA),
               LastStamp(ss, roc, 1, t.start), LastStamp(ss, roc, 2, t.stop),
               t.ids + NumbersFor(cfg, st, ss, roc), t.times + TimesFor(cfg, st, ss, roc))
    decreases |ss|
  {
    var t := Get(st.data, roc, NO_TIME_DATA);
    if ss == [] {
      assert t.ids + [] == t.ids && t.times + [] == t.times;
    } else {
      var s, next := ss[0], Step(cfg, st, ss[0].p);
      assert PacketsIn(ss)[1..] == PacketsIn(ss[1..]);
      PacketTells(cfg, st, s, roc);
      if Counts(s.p.kind) {
        CycleFound(cfg, st, s);
      }
      RunHas(cfg, next, ss[1..], roc);
      var taken := s.roc == roc && Accepts(cfg, st, s.p);
      Regroup(t.ids, if taken then [ToInt32(next.trigId)] else [], NumbersFor(cfg, next, ss[1..], roc));
      Regroup(t.times, if taken then [s.p.time] else [], TimesFor(cfg, next, ss[1..], roc));
    }
  }

  // ---------- Inside and outside ----------

  /** Whether the last start or stop packet is a start. */
  function IsInside(ps: seq<TsPacket>, before: bool): bool {
    if ps == [] then before
    else
      var p := ps[|ps| - 1];
      if p.kind == 1 then true else if p.kind == 2 then false else IsInside(ps[..|ps| - 1], before)
  }

  /** Trigger packets between acquisitions. */
  function OutsideTriggers(ps: seq<TsPacket>, before: bool): nat {
    if ps == [] then 0
    else
      var front, p := ps[..|ps| - 1], ps[|ps| - 1];
      OutsideTriggers(front, before) + (if p.kind == 16 && !IsInside(front, before) then 1 else 0)
  }

  lemma {:induction false} RunSnoc(cfg: TsConfig, st: TsState, front: seq<TsPacket>, p: TsPacket)
    ensures Run(cfg, st, front + [p]) == Step(cfg, Run(cfg, st, front), p)
    decreases |front|
  {
    if front == [] {
      assert [] + [p] == [p] && [p][1..] == [];
    } else {
      assert (front + [p])[1..] == front[1..] + [p];
      RunSnoc(cfg, Step(cfg, st, front[0]), front[1..], p);
    }
  }

  /** After any run: inside an acquisition or not, and how many triggers came outside, accepted or not. */
  lemma {:induction false} OutsideCounted(cfg: TsConfig, st: TsState, ps: seq<TsPacket>)
    ensures var r := Run(cfg, st, ps);
      r.insideAcq == IsInside(ps, st.insideAcq) && r.stats.outside == st.stats.outside + OutsideTriggers(ps, st.insideAcq)
  {
    if ps != [] {
      var front, p := ps[..|ps| - 1], ps[|ps| - 1];
      assert ps == front + [p];
      OutsideCounted(cfg, st, front);
      RunSnoc(cfg, st, front, p);
      OneCounted(cfg, Run(cfg, st, front), p);
    }
  }

  lemma OneCounted(cfg: TsConfig, s: TsState, p: TsPacket)
    ensures var r := Step(cfg, s, p);
      && r.insideAcq == (if p.kind == 1 then true else if p.kind == 2 then false else s.insideAcq)
      && r.stats.outside == s.stats.outside + if p.kind == 16 && !s.insideAcq then 1 else 0
  {
  }
}
