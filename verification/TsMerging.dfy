/**
 The timestamp merge of `CaliceTsDataCollector.cc`: BIF and AHCAL events are put together when
 their times overlap. This module is the merge on values and what it guarantees.
 */
module TsMerging {

  const TWO_32: int := 0x1_0000_0000
  const TWO_64: int := 0x1_0000_0000_0000_0000

  type Time = t: int | 0 <= t < 0x1_0000_0000_0000_0000

  type Number = n: int | 0 <= n < 0x1_0000_0000

  datatype TsEvent = TsEvent(id: int, fake: bool, hasTime: bool, beg: Time, end: Time, bore: bool, firstStart: Time,
                             run: int, trigger: Number, number: Number)

  /** How a stream's times are read: as they are, or 32 times as fine and shifted, in 64 bits. */
  datatype Clock = Plain | Shifted(offset: int) {
    function Read(t: Time): Time {
      match this
      case Plain => t
      case Shifted(offset) => ((32 * t) % TWO_64 - offset) % TWO_64
    }

    function Beg(e: TsEvent): Time {
      Read(e.beg)
    }

    function End(e: TsEvent): Time {
      Read(e.end)
    }
  }

  /** Clock of the AHCAL events, from the start times in the first events. */
  function ClockOf(bif: TsEvent, cal: TsEvent): Clock {
    Shifted(((32 * cal.firstStart) % TWO_64 - bif.firstStart - 120) % TWO_64)
  }

  /** The clock mapping is exact if and only if the mapped time fits 64 bits. */
  lemma ClockExact(bif: TsEvent, cal: TsEvent, t: Time)
    ensures var exact := 32 * (t - cal.firstStart) + bif.firstStart + 120;
            ClockOf(bif, cal).Read(t) == exact <==> 0 <= exact < TWO_64
  {
    var exact := 32 * (t - cal.firstStart) + bif.firstStart + 120;
    var o := ClockOf(bif, cal).offset;
    var r := ClockOf(bif, cal).Read(t);
    var k := (32 * cal.firstStart) / TWO_64 + ((32 * cal.firstStart) % TWO_64 - bif.firstStart - 120) / TWO_64;
    assert o == 32 * cal.firstStart - bif.firstStart - 120 - k * TWO_64;
    var l := (32 * t) / TWO_64 + ((32 * t) % TWO_64 - o) / TWO_64;
    assert r == 32 * t - o - l * TWO_64;
    Multiple(r, exact, k - l);
  }

  lemma Multiple(r: int, x: int, k: int)
    requires 0 <= r < TWO_64 && r == x + k * TWO_64
    ensures r == x <==> 0 <= x < TWO_64
  {
  }

  // ---------- The merge ----------

  /** One stream: its clock, waiting events, the event taken last and the end of that event. */
  datatype Side = Side(clock: Clock, queue: seq<TsEvent>, last: seq<TsEvent>, end: Time)

  /** A written event: what it holds of each stream, whether that was new, and its window. */
  datatype Group = Group(number: int, bif: seq<TsEvent>, cal: seq<TsEvent>, newBif: bool, newCal: bool, beg: Time, end: Time)

  datatype Merge = Merge(bif: Side, cal: Side, out: seq<Group>)

  function Min(a: int, b: int): (m: int)
    ensures m == a || m == b
    ensures m <= a && m <= b
  {
    if a < b then a else b
  }

  predicate Ready(m: Merge) {
    m.bif.queue != [] && m.cal.queue != []
  }

  function WindowBeg(m: Merge): Time
    requires Ready(m)
  {
    Min(m.bif.clock.Beg(m.bif.queue[0]), m.cal.clock.Beg(m.cal.queue[0]))
  }

  function WindowEnd(m: Merge): Time
    requires Ready(m)
  {
    Min(m.bif.clock.End(m.bif.queue[0]), m.cal.clock.End(m.cal.queue[0]))
  }

  /** Whether a stream's front event belongs to a window that ends at `end`. */
  predicate Takes(s: Side, end: Time)
    requires s.queue != []
  {
    s.clock.Beg(s.queue[0]) < end
  }

  function Attached(s: Side, beg: Time, end: Time): seq<TsEvent>
    requires s.queue != []
  {
    if Takes(s, end) then [s.queue[0]] else if s.end > beg then s.last else []
  }

  function Advance(s: Side, end: Time): Side
    requires s.queue != []
  {
    if Takes(s, end) then Side(s.clock, s.queue[1..], [s.queue[0]], s.clock.End(s.queue[0])) else s
  }

  function NewGroup(m: Merge): Group
    requires Ready(m)
  {
    var beg, end := WindowBeg(m), WindowEnd(m);
    Group(|m.out| % TWO_32, Attached(m.bif, beg, end), Attached(m.cal, beg, end), Takes(m.bif, end), Takes(m.cal, end), beg, end)
  }

  function Step(m: Merge): Merge
    requires Ready(m)
  {
    Merge(Advance(m.bif, WindowEnd(m)), Advance(m.cal, WindowEnd(m)), m.out + [NewGroup(m)])
  }

  /** Whether a step takes an event from a queue. */
  predicate Consumes(m: Merge)
    requires Ready(m)
  {
    Takes(m.bif, WindowEnd(m)) || Takes(m.cal, WindowEnd(m))
  }

  /** The merge, up to an empty queue or to a step that takes nothing. */
  function Merged(m: Merge): Merge
    decreases |m.bif.queue| + |m.cal.queue|
  {
    if !Ready(m) || !Consumes(m) then m else Merged(Step(m))
  }

  /** A step takes an event exactly when the window is not empty. */
  lemma ConsumesExactly(m: Merge)
    requires Ready(m)
    ensures Consumes(m) <==> WindowBeg(m) < WindowEnd(m)
  {
  }

  /** A step that takes nothing is repeated forever: nothing it looks at has changed. */
  lemma StuckForever(m: Merge)
    requires Ready(m) && !Consumes(m)
    ensures Step(m).bif == m.bif && Step(m).cal == m.cal && !Consumes(Step(m))
  {
  }

  // ---------- Arrival order ----------

  predicate Timed(c: Clock, q: seq<TsEvent>) {
    forall e :: e in q ==> c.Beg(e) < c.End(e)
  }

  predicate AllTimed(m: Merge) {
    Timed(m.bif.clock, m.bif.queue) && Timed(m.cal.clock, m.cal.queue)
  }

  /** Events with a begin before their end always let the merge go on until a queue is empty. */
  lemma {:induction false} NeverStuck(m: Merge)
    requires AllTimed(m)
    ensures !Ready(Merged(m))
    decreases |m.bif.queue| + |m.cal.queue|
  {
    if Ready(m) {
      ConsumesExactly(m);
      NeverStuck(Step(m));
    }
  }

  function Add(m: Merge, bifs: seq<TsEvent>, cals: seq<TsEvent>): Merge {
    Merge(m.bif.(queue := m.bif.queue + bifs), m.cal.(queue := m.cal.queue + cals), m.out)
  }

  lemma AdvanceAdd(s: Side, es: seq<TsEvent>, end: Time)
    requires s.queue != []
    ensures var t := s.(queue := s.queue + es);
      Advance(t, end) == Advance(s, end).(queue := Advance(s, end).queue + es) && Takes(t, end) == Takes(s, end)
  {
    assert (s.queue + es)[1..] == s.queue[1..] + es;
  }

  lemma StepAdd(m: Merge, bifs: seq<TsEvent>, cals: seq<TsEvent>)
    requires Ready(m)
    ensures Ready(Add(m, bifs, cals)) && Step(Add(m, bifs, cals)) == Add(Step(m), bifs, cals)
    ensures Consumes(Add(m, bifs, cals)) == Consumes(m)
  {
    AdvanceAdd(m.bif, bifs, WindowEnd(m));
    AdvanceAdd(m.cal, cals, WindowEnd(m));
  }

  /** Merging what is there first, and the rest with what arrives later, is merging all at once. */
  lemma {:induction false} MergeLater(m: Merge, bifs: seq<TsEvent>, cals: seq<TsEvent>)
    requires AllTimed(m)
    ensures Merged(Add(Merged(m), bifs, cals)) == Merged(Add(m, bifs, cals))
    decreases |m.bif.queue| + |m.cal.queue|
  {
    if Ready(m) {
      ConsumesExactly(m);
      StepAdd(m, bifs, cals);
      MergeLater(Step(m), bifs, cals);
    }
  }

  // ---------- Receiving ----------

  datatype Source = Bif | Cal

  datatype Arrival = Arrival(source: Source, event: TsEvent)

  /** The collector: the merge, and whether the first events have set the clock. */
  datatype Collector = Collector(merge: Merge, started: bool)

  const EMPTY := Side(Plain, [], [], 0)

  const START := Collector(Merge(EMPTY, EMPTY, []), false)

  function Put(m: Merge, a: Arrival): Merge {
    if a.source.Bif? then Add(m, [a.event], []) else Add(m, [], [a.event])
  }

  /** An event is queued; when both streams have one the clock is set, if it is not yet and the
      first AHCAL event begins the run, and the merge goes on. */
  function Receive(c: Collector, a: Arrival): Collector {
    var m := Put(c.merge, a);
    if a.event.fake || !a.event.hasTime then c
    else if !Ready(m) then c.(merge := m)
    else if c.started then c.(merge := Merged(m))
    else if !m.cal.queue[0].bore then c.(merge := m)
    else Collector(Merged(m.(cal := m.cal.(clock := ClockOf(m.bif.queue[0], m.cal.queue[0])))), true)
  }

  function ReceiveAll(c: Collector, arrivals: seq<Arrival>): Collector
    decreases |arrivals|
  {
    if arrivals == [] then c
    else Receive(ReceiveAll(c, arrivals[..|arrivals| - 1]), arrivals[|arrivals| - 1])
  }

  /** The accepted events of one producer, in order. */
  function Stream(arrivals: seq<Arrival>, source: Source): seq<TsEvent>
  {
    if arrivals == [] then []
    else
      var a := arrivals[|arrivals| - 1];
      Stream(arrivals[..|arrivals| - 1], source)
      + (if a.source == source && !a.event.fake && a.event.hasTime then [a.event] else [])
  }

  function Begin(clock: Clock, bifs: seq<TsEvent>, cals: seq<TsEvent>): Merge {
    Merge(Side(Plain, bifs, [], 0), Side(clock, cals, [], 0), [])
  }

  /** What the two streams as a whole lead to. */
  function AtOnce(bifs: seq<TsEvent>, cals: seq<TsEvent>): Collector {
    if bifs == [] || cals == [] || !cals[0].bore then Collector(Begin(Plain, bifs, cals), false)
    else Collector(Merged(Begin(ClockOf(bifs[0], cals[0]), bifs, cals)), true)
  }

  /** Every event ends after it begins, on the clock that the first events set. */
  predicate WellTimed(bifs: seq<TsEvent>, cals: seq<TsEvent>) {
    && Timed(Plain, bifs)
    && (bifs != [] && cals != [] ==> Timed(ClockOf(bifs[0], cals[0]), cals))
  }

  lemma ReceiveAtOnce(bifs: seq<TsEvent>, cals: seq<TsEvent>, a: Arrival)
    requires WellTimed(bifs, cals) && !a.event.fake && a.event.hasTime
    ensures var bs := if a.source.Bif? then bifs + [a.event] else bifs;
            var cs := if a.source.Cal? then cals + [a.event] else cals;
            Receive(AtOnce(bifs, cals), a) == AtOnce(bs, cs)
  {
    var bs := if a.source.Bif? then bifs + [a.event] else bifs;
    var cs := if a.source.Cal? then cals + [a.event] else cals;
    assert bifs + [] == bifs && cals + [] == cals;
    if AtOnce(bifs, cals).started {
      var m := Begin(ClockOf(bifs[0], cals[0]), bifs, cals);
      var bnew, cnew := if a.source.Bif? then [a.event] else [], if a.source.Cal? then [a.event] else [];
      assert bs == bifs + bnew && cs == cals + cnew;
      MergeLater(m, bnew, cnew);
      assert Add(m, bnew, cnew) == Begin(ClockOf(bs[0], cs[0]), bs, cs);
      NotReady(Add(Merged(m), bnew, cnew));
    }
  }

  lemma NotReady(m: Merge)
    ensures !Ready(m) ==> Merged(m) == m
  {
  }

  /** Arrival order does not matter: state and written events are a function of the two streams. */
  lemma {:induction false} ArrivalOrderIrrelevant(arrivals: seq<Arrival>)
    requires WellTimed(Stream(arrivals, Bif), Stream(arrivals, Cal))
    ensures ReceiveAll(START, arrivals) == AtOnce(Stream(arrivals, Bif), Stream(arrivals, Cal))
    decreases |arrivals|
  {
    if arrivals != [] {
      var before, a := arrivals[..|arrivals| - 1], arrivals[|arrivals| - 1];
      var bs, cs := Stream(before, Bif), Stream(before, Cal);
      PrefixTimed(bs, cs, Stream(arrivals, Bif), Stream(arrivals, Cal));
      ArrivalOrderIrrelevant(before);
      assert bs + [] == bs && cs + [] == cs;
      if !a.event.fake && a.event.hasTime {
        ReceiveAtOnce(bs, cs, a);
      }
    }
  }

  lemma PrefixTimed(bs: seq<TsEvent>, cs: seq<TsEvent>, bs': seq<TsEvent>, cs': seq<TsEvent>)
    requires bs <= bs' && cs <= cs' && WellTimed(bs', cs')
    ensures WellTimed(bs, cs)
  {
    if bs != [] && cs != [] {
      assert bs[0] == bs'[0] && cs[0] == cs'[0];
    }
  }

  // ---------- Every event is written ----------

  function NewBifs(out: seq<Group>): seq<TsEvent> {
    if out == [] then []
    else NewBifs(out[..|out| - 1]) + (if out[|out| - 1].newBif then out[|out| - 1].bif else [])
  }

  function NewCals(out: seq<Group>): seq<TsEvent> {
    if out == [] then []
    else NewCals(out[..|out| - 1]) + (if out[|out| - 1].newCal then out[|out| - 1].cal else [])
  }

  lemma StepConserves(m: Merge)
    requires Ready(m)
    ensures NewBifs(Step(m).out) + Step(m).bif.queue == NewBifs(m.out) + m.bif.queue
    ensures NewCals(Step(m).out) + Step(m).cal.queue == NewCals(m.out) + m.cal.queue
  {
    var out, g := m.out, NewGroup(m);
    assert (out + [g])[..|out|] == out;
    TakenThenLeft(NewBifs(out), m.bif, WindowBeg(m), WindowEnd(m));
    TakenThenLeft(NewCals(out), m.cal, WindowBeg(m), WindowEnd(m));
  }

  lemma TakenThenLeft(done: seq<TsEvent>, s: Side, beg: Time, end: Time)
    requires s.queue != []
    ensures done + (if Takes(s, end) then Attached(s, beg, end) else []) + Advance(s, end).queue == done + s.queue
  {
  }

  /** Whatever the times are: events written as new, then those waiting, are the received ones in
      order. So an event that left its queue is in a written event, and new in only one. */
  lemma {:induction false} Conserved(m: Merge)
    ensures NewBifs(Merged(m).out) + Merged(m).bif.queue == NewBifs(m.out) + m.bif.queue
    ensures NewCals(Merged(m).out) + Merged(m).cal.queue == NewCals(m.out) + m.cal.queue
    decreases |m.bif.queue| + |m.cal.queue|
  {
    if Ready(m) && Consumes(m) {
      StepConserves(m);
      Conserved(Step(m));
    }
  }

  // ---------- Soundness ----------

  predicate Overlap(a: Time, b: Time, c: Time, d: Time) {
    a < d && c < b
  }

  /** What a written event promises: each event in it overlaps the window, and a BIF and an AHCAL
      event in it overlap each other. */
  predicate Sound(g: Group, bif: Clock, cal: Clock) {
    && g.beg < g.end && (g.newBif || g.newCal)
    && |g.bif| <= 1 && |g.cal| <= 1
    && (forall e :: e in g.bif ==> Overlap(bif.Beg(e), bif.End(e), g.beg, g.end))
    && (forall e :: e in g.cal ==> Overlap(cal.Beg(e), cal.End(e), g.beg, g.end))
    && (forall b, c :: b in g.bif && c in g.cal ==> Overlap(bif.Beg(b), bif.End(b), cal.Beg(c), cal.End(c)))
  }

  /** Begins and ends do not fall, and each event ends after it begins. */
  predicate Rising(c: Clock, q: seq<TsEvent>) {
    && (forall i :: 0 <= i < |q| ==> c.Beg(q[i]) < c.End(q[i]))
    && (forall i, j :: 0 <= i < j < |q| ==> c.Beg(q[i]) <= c.Beg(q[j]) && c.End(q[i]) <= c.End(q[j]))
  }

  /** The event taken last, if any, began before any event of the other stream still waiting ends. */
  predicate Linked(s: Side, other: Side) {
    && |s.last| <= 1
    && (s.last == [] ==> s.end == 0)
    && (s.last != [] ==> s.end == s.clock.End(s.last[0]) && s.clock.Beg(s.last[0]) < s.end)
    && (forall i :: 0 <= i < |other.queue| && s.last != [] ==> s.clock.Beg(s.last[0]) < other.clock.End(other.queue[i]))
  }

  /** No waiting event begins or ends before the window written last. */
  predicate Behind(out: seq<Group>, s: Side) {
    forall i :: 0 <= i < |s.queue| && out != [] ==>
      out[|out| - 1].beg <= s.clock.Beg(s.queue[i]) && out[|out| - 1].end <= s.clock.End(s.queue[i])
  }

  predicate MonotoneWindows(out: seq<Group>) {
    forall i, j :: 0 <= i < j < |out| ==> out[i].beg <= out[j].beg && out[i].end <= out[j].end
  }

  predicate AllSound(out: seq<Group>, bif: Clock, cal: Clock) {
    forall i :: 0 <= i < |out| ==> Sound(out[i], bif, cal) && out[i].number == i % TWO_32
  }

  predicate Inv(m: Merge) {
    && Rising(m.bif.clock, m.bif.queue) && Rising(m.cal.clock, m.cal.queue)
    && Linked(m.bif, m.cal) && Linked(m.cal, m.bif)
    && Behind(m.out, m.bif) && Behind(m.out, m.cal)
    && MonotoneWindows(m.out) && AllSound(m.out, m.bif.clock, m.cal.clock)
  }

  /** The front of one stream and the window, seen from that stream. */
  lemma AttachedOverlaps(s: Side, other: Side, beg: Time, end: Time)
    requires s.queue != [] && other.queue != []
    requires Rising(s.clock, s.queue) && Rising(other.clock, other.queue) && Linked(s, other)
    requires beg == Min(s.clock.Beg(s.queue[0]), other.clock.Beg(other.queue[0]))
    requires end == Min(s.clock.End(s.queue[0]), other.clock.End(other.queue[0]))
    ensures |Attached(s, beg, end)| <= 1
    ensures forall e :: e in Attached(s, beg, end) ==>
              Overlap(s.clock.Beg(e), s.clock.End(e), beg, end) && s.clock.Beg(e) < other.clock.End(other.queue[0])
    ensures !Takes(s, end) ==> beg == other.clock.Beg(other.queue[0]) && end == other.clock.End(other.queue[0])
  {
  }

  lemma NewGroupSound(m: Merge)
    requires Inv(m) && Ready(m)
    ensures Sound(NewGroup(m), m.bif.clock, m.cal.clock)
  {
    var beg, end := WindowBeg(m), WindowEnd(m);
    AttachedOverlaps(m.bif, m.cal, beg, end);
    AttachedOverlaps(m.cal, m.bif, beg, end);
    ConsumesExactly(m);
  }

  lemma AdvanceKeeps(s: Side, other: Side, end: Time)
    requires s.queue != [] && other.queue != []
    requires Rising(s.clock, s.queue) && Rising(other.clock, other.queue) && Linked(s, other)
    requires end <= other.clock.End(other.queue[0])
    ensures Rising(s.clock, Advance(s, end).queue) && Linked(Advance(s, end), Advance(other, end))
  {
    var t, o := Advance(s, end), Advance(other, end);
    forall i | 0 <= i < |o.queue| ensures end <= o.clock.End(o.queue[i]) {
      assert o.queue[i] == other.queue[if Takes(other, end) then i + 1 else i];
    }
  }

  lemma BehindStep(s: Side, g: Group, out: seq<Group>)
    requires s.queue != [] && Rising(s.clock, s.queue)
    requires g.beg <= s.clock.Beg(s.queue[0]) && g.end <= s.clock.End(s.queue[0])
    ensures Behind(out + [g], Advance(s, g.end))
  {
  }

  lemma WindowsStep(m: Merge)
    requires Inv(m) && Ready(m)
    ensures MonotoneWindows(m.out + [NewGroup(m)])
  {
    var g := NewGroup(m);
    if m.out != [] {
      assert m.out[|m.out| - 1].beg <= g.beg && m.out[|m.out| - 1].end <= g.end;
    }
  }

  lemma StepKeeps(m: Merge)
    requires Inv(m) && Ready(m)
    ensures Inv(Step(m))
  {
    var end := WindowEnd(m);
    NewGroupSound(m);
    WindowsStep(m);
    AdvanceKeeps(m.bif, m.cal, end);
    AdvanceKeeps(m.cal, m.bif, end);
    BehindStep(m.bif, NewGroup(m), m.out);
    BehindStep(m.cal, NewGroup(m), m.out);
  }

  lemma {:induction false} MergedKeeps(m: Merge)
    requires Inv(m)
    ensures Inv(Merged(m))
    decreases |m.bif.queue| + |m.cal.queue|
  {
    if Ready(m) && Consumes(m) {
      StepKeeps(m);
      MergedKeeps(Step(m));
    }
  }

  lemma {:induction false} ClocksKept(m: Merge)
    ensures Merged(m).bif.clock == m.bif.clock && Merged(m).cal.clock == m.cal.clock
    decreases |m.bif.queue| + |m.cal.queue|
  {
    if Ready(m) && Consumes(m) {
      ClocksKept(Step(m));
    }
  }

  lemma RisingIsTimed(c: Clock, q: seq<TsEvent>)
    requires Rising(c, q)
    ensures Timed(c, q)
  {
    forall e | e in q ensures c.Beg(e) < c.End(e) {
      var i :| 0 <= i < |q| && q[i] == e;
    }
  }

  lemma MergedSound(clock: Clock, bs: seq<TsEvent>, cs: seq<TsEvent>)
    requires Rising(Plain, bs) && Rising(clock, cs)
    ensures var m := Merged(Begin(clock, bs, cs));
      && !Ready(m)
      && AllSound(m.out, Plain, clock) && MonotoneWindows(m.out)
      && NewBifs(m.out) + m.bif.queue == bs && NewCals(m.out) + m.cal.queue == cs
  {
    var m0 := Begin(clock, bs, cs);
    RisingIsTimed(Plain, bs);
    RisingIsTimed(clock, cs);
    NeverStuck(m0);
    MergedKeeps(m0);
    ClocksKept(m0);
    Conserved(m0);
    assert [] + bs == bs && [] + cs == cs;
  }

  /** A run, whatever the order of arrival: the merge leaves a queue empty; written events are
      numbered from 0 and have non-empty, monotone windows; all they hold overlaps in time, also
      where an event was attached again; and nothing received is lost. */
  lemma RunSound(arrivals: seq<Arrival>)
    requires var bs, cs := Stream(arrivals, Bif), Stream(arrivals, Cal);
      bs != [] && cs != [] && cs[0].bore && Rising(Plain, bs) && Rising(ClockOf(bs[0], cs[0]), cs)
    ensures var bs, cs := Stream(arrivals, Bif), Stream(arrivals, Cal);
      var m := ReceiveAll(START, arrivals).merge;
      && !Ready(m)
      && AllSound(m.out, Plain, ClockOf(bs[0], cs[0])) && MonotoneWindows(m.out)
      && NewBifs(m.out) + m.bif.queue == bs && NewCals(m.out) + m.cal.queue == cs
  {
    var bs, cs := Stream(arrivals, Bif), Stream(arrivals, Cal);
    RisingIsTimed(Plain, bs);
    RisingIsTimed(ClockOf(bs[0], cs[0]), cs);
    ArrivalOrderIrrelevant(arrivals);
    MergedSound(ClockOf(bs[0], cs[0]), bs, cs);
  }
}
