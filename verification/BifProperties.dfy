/**
 What a run of the BIF producer guarantees: independence of how the words are portioned, the raw
 file as a replay of the run, the numbering of the readout cycles and the record stream.
 */
module BifProperties {
  import opened Sequences
  import opened BifProcessing

  // ---------- Chunking, raw file and replay ----------

  /** Cutting in two portions, what was left over first, is cutting at once. */
  lemma {:induction false} CutSplit(a: seq<Word>, b: seq<Word>)
    ensures var c := CutWords(a); var d := CutWords(c.left + b);
            CutWords(a + b) == Cut(c.packets + d.packets, d.left)
    decreases |a|
  {
    if a == [] {
      assert a + b == b && [] + b == b;
      assert [] + CutWords(b).packets == CutWords(b).packets;
    } else if IsSingle(a[0]) {
      assert (a + b)[1..] == a[1..] + b;
      CutSplit(a[1..], b);
      var c := CutWords(a[1..]);
      assert [One(a[0])] + (c.packets + CutWords(c.left + b).packets) == ([One(a[0])] + c.packets) + CutWords(c.left + b).packets;
    } else if |a| == 1 {
      assert [] + CutWords(a + b).packets == CutWords(a + b).packets;
    } else {
      assert (a + b)[2..] == a[2..] + b;
      CutSplit(a[2..], b);
      var c := CutWords(a[2..]);
      var p := [Two(a[0], a[1])];
      assert p + (c.packets + CutWords(c.left + b).packets) == (p + c.packets) + CutWords(c.left + b).packets;
    }
  }

  /** At most one word waits for its second half, and it is the last word processed. */
  lemma {:induction false} AtMostOneLeft(ws: seq<Word>)
    ensures var left := CutWords(ws).left;
      |left| <= 1 && (left != [] ==> ws != [] && left[0] == ws[|ws| - 1] && !IsSingle(left[0]))
    decreases |ws|
  {
    if ws != [] && IsSingle(ws[0]) {
      AtMostOneLeft(ws[1..]);
    } else if |ws| > 1 {
      AtMostOneLeft(ws[2..]);
    }
  }

  lemma {:induction false} RunConcat(cfg: BifConfig, st: BifState, a: seq<Packet>, b: seq<Packet>)
    ensures Run(cfg, st, a + b) == Run(cfg, Run(cfg, st, a), b)
    decreases |a|
  {
    if a == [] {
      assert a + b == b;
    } else {
      assert (a + b)[1..] == a[1..] + b;
      RunConcat(cfg, Apply(cfg, st, a[0]), a[1..], b);
    }
  }

  /** The word put back, if any, is the last one in the raw file. */
  predicate RawInv(p: Producer) {
    |p.left| <= 1 && p.word1Written == (p.left != [])
  }

  lemma RunOfCuts(cfg: BifConfig, st: BifState, a: seq<Word>, b: seq<Word>)
    ensures var c := CutWords(a); var d := CutWords(c.left + b); var all := CutWords(a + b);
            Run(cfg, Run(cfg, st, c.packets), d.packets) == Run(cfg, st, all.packets) && d.left == all.left
  {
    CutSplit(a, b);
    RunConcat(cfg, st, CutWords(a).packets, CutWords(CutWords(a).left + b).packets);
  }

  lemma ProcessKeeps(cfg: BifConfig, p: Producer, a: seq<Word>)
    requires RawInv(p)
    ensures RawInv(Process(cfg, p, a))
  {
    AtMostOneLeft(p.left + a);
  }

  lemma WordsTwice(cfg: BifConfig, p: Producer, wa: seq<Word>, b: seq<Word>)
    requires wa == [] ==> !p.word1Written
    ensures var q := ProcessWords(cfg, p, wa); ProcessWords(cfg, q, q.left + b) == ProcessWords(cfg, p, wa + b)
  {
    AtMostOneLeft(wa);
    RunOfCuts(cfg, p.st, wa, b);
    RawTwice(cfg.writeRaw, p.raw, p.word1Written, wa, CutWords(wa).left, b);
  }

  /** Two calls are as good as one with all the words. */
  lemma ProcessTwice(cfg: BifConfig, p: Producer, a: seq<Word>, b: seq<Word>)
    requires RawInv(p)
    ensures Process(cfg, Process(cfg, p, a), b) == Process(cfg, p, a + b)
  {
    assert p.left + (a + b) == (p.left + a) + b;
    WordsTwice(cfg, p, p.left + a, b);
  }

  lemma RawTwice(write: bool, raw: seq<Word>, written: bool, wa: seq<Word>, left: seq<Word>, b: seq<Word>)
    requires |left| <= 1 && (left != [] ==> wa != []) && (wa == [] ==> !written)
    ensures RawAfter(write, RawAfter(write, raw, written, wa), left != [], left + b) == RawAfter(write, raw, written, wa + b)
  {
    if left == [] {
      assert left + b == b;
    } else {
      assert (left + b)[1..] == b;
    }
    if written {
      assert (wa + b)[1..] == wa[1..] + b;
      assert raw + (wa[1..] + b) == (raw + wa[1..]) + b;
    } else {
      assert raw + (wa + b) == (raw + wa) + b;
    }
  }

  function ProcessAll(cfg: BifConfig, p: Producer, parts: seq<seq<Word>>): Producer
    decreases |parts|
  {
    if parts == [] then p else ProcessAll(cfg, Process(cfg, p, parts[0]), parts[1..])
  }

  lemma {:induction false} PortionsIrrelevant(cfg: BifConfig, p: Producer, parts: seq<seq<Word>>)
    requires RawInv(p) && parts != []
    ensures ProcessAll(cfg, p, parts) == Process(cfg, p, Concat(parts))
    decreases |parts|
  {
    if |parts| == 1 {
      assert Concat(parts) == parts[0] + [] == parts[0];
    } else {
      ProcessTwice(cfg, p, parts[0], Concat(parts[1..]));
      ProcessKeeps(cfg, p, parts[0]);
      PortionsIrrelevant(cfg, Process(cfg, p, parts[0]), parts[1..]);
    }
  }

  /** A run: however the words are portioned, state, events and left-over are those of processing
      them at once; the raw file holds exactly the words, each once; so processing the raw file
      gives the same run again. */
  lemma RunReplays(cfg: BifConfig, parts: seq<seq<Word>>)
    requires cfg.writeRaw
    ensures var p := ProcessAll(cfg, FRESH, parts);
      && p == Process(cfg, FRESH, Concat(parts))
      && p.raw == Concat(parts)
      && Process(cfg, FRESH, p.raw) == p
  {
    if parts != [] {
      PortionsIrrelevant(cfg, FRESH, parts);
    }
    assert [] + Concat(parts) == Concat(parts);
  }

  // ---------- Readout cycle numbers ----------

  /** An open cycle has a number. */
  predicate CycInv(c: Cyc) {
    c.number >= -1 && (c.started ==> c.number >= 0)
  }

  /** After a shutter-on word the cycle number agrees with the hardware counter, counted from the
      first one, modulo 4096; and it has not fallen. */
  lemma OnSynchronised(c: Cyc, counter: int)
    requires CycInv(c) && 0 <= counter < 0x1000
    ensures var r := CycAfterOn(c, counter);
      && CycInv(r) && r.started && r.number >= c.number
      && (counter - r.first) % 0x1000 == r.number % 0x1000
  {
  }

  /** What a packet does to the readout cycle. */
  function CycAfter(c: Cyc, p: Packet): Cyc {
    match p
    case One(w) =>
      if KindOf(w) == SHUTTER_ON then CycAfterOn(c, InputsOf(w))
      else if KindOf(w) == SHUTTER_OFF then c.(started := false)
      else c
    case Two(_, _) => c
  }

  lemma {:induction false} FillGapCyc(cfg: BifConfig, st: BifState, missing: nat)
    ensures FillGap(cfg, st, missing).cyc == st.cyc.(number := st.cyc.number + missing)
    decreases missing
  {
    if missing > 0 {
      var b := Build(cfg, st);
      FillGapCyc(cfg, b.(cyc := b.cyc.(number := b.cyc.number + 1)), missing - 1);
    }
  }

  lemma ApplyCyc(cfg: BifConfig, st: BifState, p: Packet)
    ensures Apply(cfg, st, p).cyc == CycAfter(st.cyc, p)
  {
    if p.One? && KindOf(p.w) == SHUTTER_ON {
      var counter := InputsOf(p.w);
      var st0 := if BuildsUnstopped(st.cyc, counter) then Build(cfg, st) else st;
      var st1 := Open1(st0, TimeOf(p.w), counter);
      FillGapCyc(cfg, st1, Missing(st1.cyc, counter));
    }
  }

  /** Cycle number after a shutter-on word, with the counter that arrived. */
  datatype Sync = Sync(counter: int, first: int, cycle: int)

  function SyncOf(c: Cyc, p: Packet): seq<Sync> {
    var d := CycAfter(c, p);
    if p.One? && KindOf(p.w) == SHUTTER_ON then [Sync(InputsOf(p.w), d.first, d.number)] else []
  }

  function Syncs(c: Cyc, ps: seq<Packet>): seq<Sync>
    decreases |ps|
  {
    if ps == [] then [] else SyncOf(c, ps[0]) + Syncs(CycAfter(c, ps[0]), ps[1..])
  }

  predicate InStep(s: seq<Sync>, from: int) {
    && (forall i :: 0 <= i < |s| ==> s[i].cycle >= from && (s[i].counter - s[i].first) % 0x1000 == s[i].cycle % 0x1000)
    && (forall i, j :: 0 <= i < j < |s| ==> s[i].cycle <= s[j].cycle)
  }

  /** Over any run: every shutter-on finds the cycle number in step with the hardware counter, and
      the numbers never fall from one shutter-on to the next. */
  lemma {:induction false} RunInStep(c: Cyc, ps: seq<Packet>)
    requires CycInv(c)
    ensures InStep(Syncs(c, ps), c.number)
    decreases |ps|
  {
    if ps != [] {
      StepInvariant(c, ps[0]);
      RunInStep(CycAfter(c, ps[0]), ps[1..]);
      StepInStep(c, ps[0], Syncs(CycAfter(c, ps[0]), ps[1..]));
    }
  }

  lemma StepInvariant(c: Cyc, p: Packet)
    requires CycInv(c)
    ensures CycInv(CycAfter(c, p))
  {
    if p.One? {
      OnSynchronised(c, InputsOf(p.w));
    }
  }

  lemma StepInStep(c: Cyc, p: Packet, rest: seq<Sync>)
    requires CycInv(c)
    ensures InStep(rest, CycAfter(c, p).number) ==> InStep(SyncOf(c, p) + rest, c.number)
  {
    if p.One? && KindOf(p.w) == SHUTTER_ON {
      OnSynchronised(c, InputsOf(p.w));
      var d := CycAfter(c, p);
      InStepFront(Sync(InputsOf(p.w), d.first, d.number), rest, c.number);
    } else {
      assert [] + rest == rest;
    }
  }

  lemma InStepFront(x: Sync, rest: seq<Sync>, from: int)
    requires x.cycle >= from && (x.counter - x.first) % 0x1000 == x.cycle % 0x1000
    ensures InStep(rest, x.cycle) ==> InStep([x] + rest, from)
  {
  }

  lemma {:induction false} RunCyc(cfg: BifConfig, st: BifState, ps: seq<Packet>)
    ensures Run(cfg, st, ps).cyc == CycRun(st.cyc, ps)
    decreases |ps|
  {
    if ps != [] {
      ApplyCyc(cfg, st, ps[0]);
      RunCyc(cfg, Apply(cfg, st, ps[0]), ps[1..]);
    }
  }

  function CycRun(c: Cyc, ps: seq<Packet>): Cyc
    decreases |ps|
  {
    if ps == [] then c else CycRun(CycAfter(c, ps[0]), ps[1..])
  }

  // ---------- Numbering of the events in ROC mode ----------

  /** `from`, ..., `to - 1`. */
  function Range(from: int, to: int): (r: seq<int>)
    decreases if from < to then to - from else 0
  {
    if from >= to then [] else [from] + Range(from + 1, to)
  }

  /** Cycle numbers of the events a packet builds in ROC mode. */
  function Built(c: Cyc, p: Packet): seq<int> {
    if p.One? && KindOf(p.w) == SHUTTER_ON then
      var o := Opened(BeforeStart(c, InputsOf(p.w)), InputsOf(p.w));
      (if BuildsUnstopped(c, InputsOf(p.w)) then [c.number] else [])
      + Range(o.number, o.number + Missing(o, InputsOf(p.w)))
    else if p.One? && KindOf(p.w) == SHUTTER_OFF then [c.number]
    else []
  }

  function AllBuilt(c: Cyc, ps: seq<Packet>): seq<int>
    decreases |ps|
  {
    if ps == [] then [] else Built(c, ps[0]) + AllBuilt(CycAfter(c, ps[0]), ps[1..])
  }

  function Tags(es: seq<BifEvent>): (r: seq<int>)
    ensures |r| == |es|
  {
    if es == [] then [] else [es[0].roc] + Tags(es[1..])
  }

  lemma {:induction false} TagsConcat(a: seq<BifEvent>, b: seq<BifEvent>)
    ensures Tags(a + b) == Tags(a) + Tags(b)
  {
    if a == [] {
      assert a + b == b;
    } else {
      assert (a + b)[1..] == a[1..] + b;
      TagsConcat(a[1..], b);
    }
  }

  function Shift(s: seq<int>, d: int): (r: seq<int>)
    ensures |r| == |s| && forall i :: 0 <= i < |s| ==> r[i] == s[i] + d
  {
    seq(|s|, i requires 0 <= i < |s| => s[i] + d)
  }

  lemma BuildTag(cfg: BifConfig, st: BifState)
    requires cfg.mode.RocMode?
    ensures Tags(Build(cfg, st).events) == Tags(st.events) + [st.cyc.number + cfg.countRocFrom]
    ensures Build(cfg, st).cyc == st.cyc
  {
    var e := NewEvents(cfg, st);
    TagsConcat(st.events, e);
    assert e[1..] == [] && Tags(e) == [st.cyc.number + cfg.countRocFrom];
  }

  lemma {:induction false} FillGapTags(cfg: BifConfig, st: BifState, missing: nat)
    requires cfg.mode.RocMode?
    ensures Tags(FillGap(cfg, st, missing).events)
         == Tags(st.events) + Shift(Range(st.cyc.number, st.cyc.number + missing), cfg.countRocFrom)
    decreases missing
  {
    if missing == 0 {
      assert Tags(st.events) + Shift(Range(st.cyc.number, st.cyc.number), cfg.countRocFrom) == Tags(st.events);
    } else {
      var b := Build(cfg, st);
      var n := st.cyc.number;
      BuildTag(cfg, st);
      FillGapTags(cfg, b.(cyc := b.cyc.(number := n + 1)), missing - 1);
      assert Shift([n], cfg.countRocFrom) == [n + cfg.countRocFrom];
      ShiftJoin(Tags(st.events), [n], Range(n + 1, n + missing), cfg.countRocFrom);
    }
  }

  lemma ShiftJoin(base: seq<int>, a: seq<int>, b: seq<int>, d: int)
    ensures (base + Shift(a, d)) + Shift(b, d) == base + Shift(a + b, d)
  {
    assert Shift(a + b, d) == Shift(a, d) + Shift(b, d);
  }

  /** In ROC mode a packet builds one event per cycle number of `Built`, in that order. */
  lemma OnTags(cfg: BifConfig, st: BifState, time: int, counter: int)
    requires cfg.mode.RocMode?
    ensures var o := Opened(BeforeStart(st.cyc, counter), counter);
      var built := (if BuildsUnstopped(st.cyc, counter) then [st.cyc.number] else []) + Range(o.number, o.number + Missing(o, counter));
      Tags(ShutterOn(cfg, st, time, counter).events) == Tags(st.events) + Shift(built, cfg.countRocFrom)
  {
    var d := cfg.countRocFrom;
    var st0 := if BuildsUnstopped(st.cyc, counter) then Build(cfg, st) else st;
    var st1 := Open1(st0, time, counter);
    var first := if BuildsUnstopped(st.cyc, counter) then [st.cyc.number] else [];
    var gap := Range(st1.cyc.number, st1.cyc.number + Missing(st1.cyc, counter));
    BuildTag(cfg, st);
    assert Tags(st0.events) == Tags(st.events) + Shift(first, d);
    FillGapTags(cfg, st1, Missing(st1.cyc, counter));
    ShiftJoin(Tags(st.events), first, gap, d);
  }

  lemma ApplyTags(cfg: BifConfig, st: BifState, p: Packet)
    requires cfg.mode.RocMode?
    ensures Tags(Apply(cfg, st, p).events) == Tags(st.events) + Shift(Built(st.cyc, p), cfg.countRocFrom)
  {
    if p.One? && KindOf(p.w) == SHUTTER_ON {
      OnTags(cfg, st, TimeOf(p.w), InputsOf(p.w));
    } else if p.One? && KindOf(p.w) == SHUTTER_OFF {
      OffTags(cfg, st, TimeOf(p.w));
    } else {
      assert Tags(st.events) + Shift([], cfg.countRocFrom) == Tags(st.events);
    }
  }

  lemma OffTags(cfg: BifConfig, st: BifState, time: int)
    requires cfg.mode.RocMode?
    ensures Tags(ShutterOff(cfg, st, time).events) == Tags(st.events) + Shift([st.cyc.number], cfg.countRocFrom)
  {
    var e := ShutterOff(cfg, st, time).events;
    assert e == st.events + [e[|st.events|]];
    TagsConcat(st.events, [e[|st.events|]]);
    assert [e[|st.events|]][1..] == [];
  }

  lemma {:induction false} RunTags(cfg: BifConfig, st: BifState, ps: seq<Packet>)
    requires cfg.mode.RocMode?
    ensures Tags(Run(cfg, st, ps).events) == Tags(st.events) + Shift(AllBuilt(st.cyc, ps), cfg.countRocFrom)
    decreases |ps|
  {
    if ps == [] {
      assert Tags(st.events) + Shift([], cfg.countRocFrom) == Tags(st.events);
    } else {
      var st' := Apply(cfg, st, ps[0]);
      ApplyTags(cfg, st, ps[0]);
      ApplyCyc(cfg, st, ps[0]);
      RunTags(cfg, st', ps[1..]);
      var a, b := Built(st.cyc, ps[0]), AllBuilt(st'.cyc, ps[1..]);
      ShiftJoin(Tags(st.events), a, b, cfg.countRocFrom);
    }
  }

  // ---------- When the numbering is gapless ----------

  /** Number of the next event that keeps the numbering gapless. */
  function Next(c: Cyc): int {
    if c.started then c.number else c.number + 1
  }

  /** Neither a stop without a start, nor a start of an open cycle 501 to 4094 cycles ahead. */
  predicate Clean(c: Cyc, p: Packet) {
    && (p.One? && KindOf(p.w) == SHUTTER_OFF ==> c.started)
    && (p.One? && KindOf(p.w) == SHUTTER_ON && c.started ==>
          Ahead(c, InputsOf(p.w)) <= 500 || Ahead(c, InputsOf(p.w)) == 0xFFF)
  }

  predicate AllClean(c: Cyc, ps: seq<Packet>)
    decreases |ps|
  {
    ps == [] || (Clean(c, ps[0]) && AllClean(CycAfter(c, ps[0]), ps[1..]))
  }

  predicate CountsFrom(s: seq<int>, n: int) {
    forall i :: 0 <= i < |s| ==> s[i] == n + i
  }

  lemma {:induction false} RangeCounts(from: int, to: int)
    ensures |Range(from, to)| == (if from < to then to - from else 0) && CountsFrom(Range(from, to), from)
    decreases if from < to then to - from else 0
  {
    if from < to {
      RangeCounts(from + 1, to);
    }
  }

  /** A clean packet builds exactly the next numbers; any other builds a wrong one first. */
  lemma CleanCounts(c: Cyc, p: Packet)
    requires CycInv(c)
    ensures CycInv(CycAfter(c, p))
    ensures Clean(c, p) ==> CountsFrom(Built(c, p), Next(c)) && Next(CycAfter(c, p)) == Next(c) + |Built(c, p)|
    ensures !Clean(c, p) ==> Built(c, p) != [] && Built(c, p)[0] != Next(c)
  {
    if p.One? && KindOf(p.w) == SHUTTER_ON {
      var counter := InputsOf(p.w);
      var o := Opened(BeforeStart(c, counter), counter);
      RangeCounts(o.number, o.number + Missing(o, counter));
      OnSynchronised(c, counter);
    }
  }

  lemma {:induction false} GaplessExactly(c: Cyc, ps: seq<Packet>)
    requires CycInv(c)
    ensures CountsFrom(AllBuilt(c, ps), Next(c)) <==> AllClean(c, ps)
    decreases |ps|
  {
    if ps != [] {
      var a, d := Built(c, ps[0]), CycAfter(c, ps[0]);
      var b := AllBuilt(d, ps[1..]);
      CleanCounts(c, ps[0]);
      GaplessExactly(d, ps[1..]);
      if Clean(c, ps[0]) {
        if CountsFrom(a + b, Next(c)) {
          forall i | 0 <= i < |b| ensures b[i] == Next(d) + i {
            assert (a + b)[|a| + i] == b[i];
          }
        }
      } else {
        assert (a + b)[0] == a[0];
      }
    }
  }

  /** ROC mode: the ROC tags of a run are CountRocFrom, +1, +2, ... each exactly once, if and only
      if no stop comes without a start and no open cycle is followed by a start 501 to 4094 cycles
      ahead. */
  lemma RocTagsGapless(cfg: BifConfig, words: seq<Word>)
    requires cfg.mode.RocMode?
    ensures var ps := CutWords(words).packets;
      CountsFrom(Tags(Process(cfg, FRESH, words).st.events), cfg.countRocFrom) <==> AllClean(INITIAL.cyc, ps)
  {
    var ps := CutWords(words).packets;
    assert [] + words == words;
    RunTags(cfg, INITIAL, ps);
    GaplessExactly(INITIAL.cyc, ps);
    var built := AllBuilt(INITIAL.cyc, ps);
    assert Tags(INITIAL.events) + Shift(built, cfg.countRocFrom) == Shift(built, cfg.countRocFrom);
    ShiftCounts(built, 0, cfg.countRocFrom);
  }

  lemma ShiftCounts(s: seq<int>, n: int, d: int)
    ensures CountsFrom(Shift(s, d), n + d) <==> CountsFrom(s, n)
  {
    var t := Shift(s, d);
    if CountsFrom(t, n + d) {
      forall i | 0 <= i < |s| ensures s[i] == n + i {
        assert t[i] == s[i] + d;
      }
    }
  }
}
