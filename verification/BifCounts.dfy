/**
 Counting in the BIF producer: which cycle an arriving counter stands for and what is built for it, and
 which triggers are taken and counted.
 */
module BifCounts {
  import opened Sequences
  import opened BifProcessing
  import opened BifProperties
  import opened BifRecords
  import opened BifMeaning

  // ---------- Cycles ----------

  /** The hardware counts cycles from the first one, with 12 bits. */
  predicate CountsAs(c: Cyc, counter: int, n: int) {
    counter == (c.first + n) % 4096 && c.number <= n < c.number + 4096
  }

  /** Cycles are counted from a 12-bit counter. */
  predicate Counted(c: Cyc) {
    CycInv(c) && (c.number >= 0 ==> 0 <= c.first < 4096)
  }

  /** So at every moment of any run. */
  lemma {:induction false} RunCounted(cfg: BifConfig, st: BifState, ps: seq<Packet>)
    requires Counted(st.cyc)
    ensures Counted(Run(cfg, st, ps).cyc)
    decreases |ps|
  {
    if ps != [] {
      ApplyCyc(cfg, st, ps[0]);
      RunCounted(cfg, Apply(cfg, st, ps[0]), ps[1..]);
    }
  }

  /** The first cycle of a run has number 0, whatever its counter. */
  lemma FirstArrival(c: Cyc, counter: int)
    requires CycInv(c) && c.number == -1 && 0 <= counter < 4096
    ensures CycAfterOn(c, counter) == Cyc(0, true, counter) && !BuildsUnstopped(c, counter)
  {
  }

  /** Subtracting from a counter is subtracting from what it counts. */
  lemma CounterMinus(a: int, b: int, d: nat)
    requires 0 <= d < 4096 && (a - b - d) % 4096 == 0
    ensures (a % 4096 - b) % 4096 == d
  {
    assert a == 4096 * (a / 4096) + a % 4096;
    assert a % 4096 - b == d + 4096 * ((a - b - d) / 4096 - a / 4096);
  }

  lemma AheadIs(c: Cyc, counter: int, n: int)
    requires CountsAs(c, counter, n)
    ensures Ahead(c, counter) == if n == c.number then 4095 else n - c.number - 1
  {
    CounterMinus(c.first + n, c.first + c.number + 1, if n == c.number then 4095 else n - c.number - 1);
  }

  lemma MissingIs(first: int, number: int, counter: int, n: int)
    requires counter == (first + n) % 4096 && number <= n < number + 4096
    ensures Missing(Cyc(number, true, first), counter) == n - number
  {
    CounterMinus(first + n, first + number, n - number);
  }

  lemma MissingWhole(first: int, number: int, counter: int)
    requires counter == (first + number - 1) % 4096
    ensures Missing(Cyc(number, true, first), counter) == 4095
  {
    CounterMinus(first + number - 1, first + number, 4095);
  }

  /** The open cycle before the missing ones are built, and how many those are. */
  lemma OpenedIs(c: Cyc, counter: int, n: int)
    requires Counted(c) && c.number >= 0 && CountsAs(c, counter, n)
    ensures var o := Opened(BeforeStart(c, counter), counter); var again := n == c.number;
      && o == Cyc(if c.started && again then n else c.number + 1, true, c.first)
      && Missing(o, counter) == if again then (if c.started then 0 else 4095) else n - c.number - 1
  {
    AheadIs(c, counter, n);
    if n == c.number {
      MissingIs(c.first, n, counter, n);
      MissingWhole(c.first, c.number + 1, counter);
    } else {
      MissingIs(c.first, c.number + 1, counter, n);
    }
  }

  /** Later ones have the number that the counter stands for, the one at hand counting as a repetition if it
      is still open, and as 4096 cycles on if it is closed. An open cycle is built when the one that
      arrives is a later one, by at most 501. */
  lemma Arrival(c: Cyc, counter: int, n: int)
    requires Counted(c) && c.number >= 0 && CountsAs(c, counter, n)
    ensures CycAfterOn(c, counter) == Cyc(if !c.started && n == c.number then n + 4096 else n, true, c.first)
    ensures BuildsUnstopped(c, counter) <==> c.started && 1 <= n - c.number <= 501
  {
    AheadIs(c, counter, n);
    OpenedIs(c, counter, n);
  }

  lemma {:induction false} GapCount(cfg: BifConfig, st: BifState, missing: nat)
    ensures |GapBuilds(cfg, st, missing)| == missing
    decreases missing
  {
    if missing > 0 {
      var b := Build(cfg, st);
      GapCount(cfg, b.(cyc := b.cyc.(number := b.cyc.number + 1)), missing - 1);
    }
  }

  /** How often a shutter-on word builds: for the open cycle, and for each missing one. */
  lemma ArrivalBuilds(cfg: BifConfig, st: BifState, counter: int, time: int, n: int)
    requires Counted(st.cyc) && st.cyc.number >= 0 && CountsAs(st.cyc, counter, n)
    requires 0 <= counter < 4096 && 0 <= time < 281474976710656
    ensures var bs, from := PacketBuilds(cfg, st, One(FirstWord(3, counter, time))), st.cyc.number;
      |bs| == if st.cyc.started then (if n == from then 0 else if n - from <= 501 then n - from else n - from - 1)
              else (if n == from then 4095 else n - from - 1)
  {
    FirstRead(3, counter, time);
    Arrival(st.cyc, counter, n);
    OpenedIs(st.cyc, counter, n);
    var st0 := if BuildsUnstopped(st.cyc, counter) then Build(cfg, st) else st;
    var st1 := Open1(st0, time, counter);
    GapCount(cfg, st1, Missing(st1.cyc, counter));
  }

  // ---------- Triggers ----------

  predicate IsInternal(p: Packet) {
    p.Two? && p.w1 / 1152921504606846976 == 0
  }

  predicate IsExternal(p: Packet) {
    p.Two? && p.w1 / 1152921504606846976 == 1
  }

  /** The time of an external trigger in fine steps. */
  function FineTime(p: Packet): int
    requires p.Two?
  {
    32 * (p.w1 % 281474976710656)
  }

  /** An external trigger is taken when more than the ignore period has passed, on 64 bits. */
  predicate LateEnough(ignore: int, p: Packet, last: int) {
    IsExternal(p) && (FineTime(p) - last) % 18446744073709551616 > ignore % 18446744073709551616
  }

  /** Time of the last external trigger taken. */
  function LastTaken(ignore: int, ps: seq<Packet>, before: int): int {
    if ps == [] then before
    else
      var front, p := ps[..|ps| - 1], ps[|ps| - 1];
      var last := LastTaken(ignore, front, before);
      if LateEnough(ignore, p, last) then FineTime(p) else last
  }

  /** Triggers taken since the last shutter-on word. */
  function TakenSince(ignore: int, ps: seq<Packet>, last: int, before: nat): nat {
    if ps == [] then before
    else
      var front, p := ps[..|ps| - 1], ps[|ps| - 1];
      if IsOn(p) then 0
      else TakenSince(ignore, front, last, before)
           + if IsInternal(p) || LateEnough(ignore, p, LastTaken(ignore, front, last)) then 1 else 0
  }

  /** Sum of these counts over the shutter-off words. */
  function TakenClosed(ignore: int, ps: seq<Packet>, last: int, before: nat): nat {
    if ps == [] then 0
    else
      var front, p := ps[..|ps| - 1], ps[|ps| - 1];
      TakenClosed(ignore, front, last, before) + if IsOff(p) then TakenSince(ignore, front, last, before) else 0
  }

  predicate CountsKept(cfg: BifConfig, st: BifState, ps: seq<Packet>, r: BifState)
    requires st.trig.inCycle >= 0
  {
    && r.trig.lastTime == LastTaken(cfg.ignorePeriod, ps, st.trig.lastTime)
    && r.trig.inCycle == TakenSince(cfg.ignorePeriod, ps, st.trig.lastTime, st.trig.inCycle)
    && r.stats.triggers
       == (st.stats.triggers + TakenClosed(cfg.ignorePeriod, ps, st.trig.lastTime, st.trig.inCycle)) % 4294967296
  }

  /** Neither the missing cycles nor the open one change the counts. */
  lemma OnKept(cfg: BifConfig, s: BifState, time: int, counter: int)
    ensures var r, o := ShutterOn(cfg, s, time, counter), Open1(s, time, counter); r.trig == o.trig && r.stats == o.stats
  {
    var st0 := if BuildsUnstopped(s.cyc, counter) then Build(cfg, s) else s;
    var st1 := Open1(st0, time, counter);
    GapTrig(cfg, st1, Missing(st1.cyc, counter));
    GapTimes(cfg, st1, Missing(st1.cyc, counter));
  }

  /** What one packet does to the counts. */
  lemma PacketCounts(cfg: BifConfig, s: BifState, p: Packet)
    requires 0 <= s.stats.triggers < 4294967296
    ensures var r := Apply(cfg, s, p); var late := LateEnough(cfg.ignorePeriod, p, s.trig.lastTime);
      && r.trig.lastTime == (if late then FineTime(p) else s.trig.lastTime)
      && r.trig.inCycle == (if IsOn(p) then 0 else s.trig.inCycle + if IsInternal(p) || late then 1 else 0)
      && r.stats.triggers == (s.stats.triggers + if IsOff(p) then s.trig.inCycle else 0) % 4294967296
  {
    if p.One? && KindOf(p.w) == SHUTTER_ON {
      OnKept(cfg, s, TimeOf(p.w), InputsOf(p.w));
    }
  }

  lemma {:induction false} GapTrig(cfg: BifConfig, st: BifState, missing: nat)
    ensures FillGap(cfg, st, missing).trig == st.trig
    decreases missing
  {
    if missing > 0 {
      var b := Build(cfg, st);
      GapTrig(cfg, b.(cyc := b.cyc.(number := b.cyc.number + 1)), missing - 1);
    }
  }

  lemma AddMod(base: int, sum: int, here: int)
    ensures ((base + sum) % 4294967296 + here) % 4294967296 == (base + (sum + here)) % 4294967296
  {
  }

  /** Over any run: the time of the last external trigger taken, the triggers of the open cycle, and those of
      the closed cycles. */
  lemma {:induction false} TriggersCounted(cfg: BifConfig, st: BifState, ps: seq<Packet>)
    requires st.trig.inCycle >= 0 && 0 <= st.stats.triggers < 4294967296
    ensures CountsKept(cfg, st, ps, Run(cfg, st, ps))
    decreases |ps|
  {
    if ps != [] {
      var front, p := ps[..|ps| - 1], ps[|ps| - 1];
      assert ps == front + [p];
      var s := Run(cfg, st, front);
      RunSnoc(cfg, st, front, p);
      TriggersCounted(cfg, st, front);
      PacketCounts(cfg, s, p);
      AddMod(st.stats.triggers, TakenClosed(cfg.ignorePeriod, front, st.trig.lastTime, st.trig.inCycle),
             if IsOff(p) then s.trig.inCycle else 0);
    }
  }

  /** A shutter-on word opens the first cycle, also when it repeats that of the open first cycle. */
  predicate OpensFirst(c: Cyc, counter: int) {
    c.number == -1 || (c.started && c.number == 0 && counter == c.first)
  }

  lemma FirstOpened(c: Cyc, counter: int)
    requires Counted(c) && 0 <= counter < 4096
    ensures BeforeStart(c, counter).number == -1 <==> OpensFirst(c, counter)
  {
    if c.number == 0 && counter == c.first {
      AheadIs(c, counter, 0);
    }
  }

  /** Then the first trigger number of the run is asked for, and its time is the start of the run. */
  lemma OnFirst(cfg: BifConfig, s: BifState, counter: int, time: int)
    requires 0 <= counter < 4096 && 0 <= time < 281474976710656 && Counted(s.cyc)
    ensures var r := Apply(cfg, s, One(FirstWord(3, counter, time))); var first := OpensFirst(s.cyc, counter);
      && r.trig == s.trig.(inCycle := 0, firstPending := first || s.trig.firstPending)
      && r.stats == if first then s.stats.(runStart := time) else s.stats
  {
    FirstRead(3, counter, time);
    OnKept(cfg, s, time, counter);
    FirstOpened(s.cyc, counter);
  }
}
