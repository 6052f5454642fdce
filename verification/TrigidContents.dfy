/**
 What the events of the TRIGGERID mode hold: for a pass, for a run of reads, and for the packets sent.
 */
module TrigidContents {
  import opened Sequences
  import opened OrderedMap
  import opened GrayCode
  import opened AsicPacket
  import opened LdaStream
  import opened LdaTimestamps
  import opened EventBuilding
  import opened ScReading
  import opened RocReading
  import opened ValidatedVisits
  import opened ValidatedRuns
  import opened ReadArrivals
  import opened LeftCycles
  import opened SentData

  // ---------- One cycle ----------

  /** The `k`-th trigger lies between start and stop of the acquisition, which lasts at most one second
      of 40 MHz ticks. */
  predicate Inside(t: TimeData, k: nat)
    requires k < |t.times|
  {
    t.start <= t.times[k] && t.times[k] <= t.stop && (t.stop - t.start) % 0x1_0000_0000_0000_0000 <= 40000000
  }

  /** Positions of the triggers inside, from the `k`-th on. */
  function InsideFrom(t: TimeData, k: nat): (ks: seq<nat>)
    requires k <= |t.times|
    ensures forall i :: 0 <= i < |ks| ==> k <= ks[i] < |t.times| && Inside(t, ks[i])
    ensures forall i, j :: 0 <= i < j < |ks| ==> ks[i] < ks[j]
    ensures forall p :: k <= p < |t.times| && Inside(t, p) ==> p in ks
    decreases |t.times| - k
  {
    if k == |t.times| then []
    else
      var rest := InsideFrom(t, k + 1);
      if Inside(t, k) then [k] + rest else rest
  }

  /** The event for the trigger at a position: its number, time and cycle, with all blocks of the cycle. */
  function EventAt(cfg: BuildConfig, roc: int, t: TimeData, data: seq<Block>, k: nat): Event
    requires k < |t.ids| == |t.times|
  {
    TriggerEvent(t.ids[k] + cfg.trigidOffset, roc, t.times[k], data)
  }

  function EventsAt(cfg: BuildConfig, roc: int, t: TimeData, data: seq<Block>, ks: seq<nat>): (es: seq<Event>)
    requires |t.ids| == |t.times| && forall i :: 0 <= i < |ks| ==> ks[i] < |t.ids|
    ensures |es| == |ks| && forall i :: 0 <= i < |ks| ==> es[i] == EventAt(cfg, roc, t, data, ks[i])
  {
    if ks == [] then [] else [EventAt(cfg, roc, t, data, ks[0])] + EventsAt(cfg, roc, t, data, ks[1..])
  }

  /** The events of a cycle: one for each trigger inside, in order. */
  function CycleEvents(cfg: BuildConfig, roc: int, t: TimeData, data: seq<Block>): seq<Event>
    requires |t.ids| == |t.times|
  {
    EventsAt(cfg, roc, t, data, InsideFrom(t, 0))
  }

  lemma InsideIs(t: TimeData, k: nat)
    requires k < |t.times|
    ensures InAcquisition(t, t.times[k]) <==> Inside(t, k)
  {
  }

  lemma EventsFront(cfg: BuildConfig, roc: int, t: TimeData, data: seq<Block>, k: nat, ks: seq<nat>)
    requires k < |t.ids| == |t.times| && forall i :: 0 <= i < |ks| ==> ks[i] < |t.ids|
    ensures forall i :: 0 <= i < |[k] + ks| ==> ([k] + ks)[i] < |t.ids|
    ensures EventsAt(cfg, roc, t, data, [k] + ks) == [EventAt(cfg, roc, t, data, k)] + EventsAt(cfg, roc, t, data, ks)
  {
    assert ([k] + ks)[1..] == ks;
  }

  /** The events from a position on. */
  ghost predicate ToldFrom(cfg: BuildConfig, roc: int, t: TimeData, data: seq<Block>, i: nat, es: seq<Event>)
    requires i <= |t.ids| == |t.times|
  {
    RealEvents(es) == EventsAt(cfg, roc, t, data, InsideFrom(t, i))
  }

  lemma ToldOne(cfg: BuildConfig, roc: int, t: TimeData, data: seq<Block>, i: nat, last: int, n: int, more: seq<Event>)
    requires i < |t.ids| == |t.times| && Inside(t, i) && ToldFrom(cfg, roc, t, data, i + 1, more)
    ensures ToldFrom(cfg, roc, t, data, i, FillBefore(cfg, last, n) + [EventAt(cfg, roc, t, data, i)] + more)
  {
    FilledOne(cfg, last, n, EventAt(cfg, roc, t, data, i), more);
    EventsFront(cfg, roc, t, data, i, InsideFrom(t, i + 1));
  }

  lemma TriggerStep(cfg: BuildConfig, roc: int, t: TimeData, data: seq<Block>, i: nat, last: int)
    requires i < |t.ids| == |t.times|
    ensures TriggerEvents(cfg, roc, t, data, i, last).events
         == if Inside(t, i)
            then FillBefore(cfg, last, t.ids[i] + cfg.trigidOffset) + [EventAt(cfg, roc, t, data, i)]
                 + TriggerEvents(cfg, roc, t, data, i + 1, LastAfter(cfg, last, t.ids[i] + cfg.trigidOffset)).events
            else TriggerEvents(cfg, roc, t, data, i + 1, last).events
  {
    InsideIs(t, i);
  }

  lemma {:induction false} CycleContents(cfg: BuildConfig, roc: int, t: TimeData, data: seq<Block>, i: nat, last: int, es: seq<Event>)
    requires |t.ids| == |t.times| && i <= |t.ids| && es == TriggerEvents(cfg, roc, t, data, i, last).events
    ensures ToldFrom(cfg, roc, t, data, i, es)
    decreases |t.ids| - i
  {
    if i < |t.ids| {
      TriggerStep(cfg, roc, t, data, i, last);
      var n := t.ids[i] + cfg.trigidOffset;
      var next := if Inside(t, i) then LastAfter(cfg, last, n) else last;
      var more := TriggerEvents(cfg, roc, t, data, i + 1, next).events;
      CycleContents(cfg, roc, t, data, i + 1, next, more);
      if Inside(t, i) {
        ToldOne(cfg, roc, t, data, i, last, n, more);
      }
    }
  }

  // ---------- One pass ----------

  /** The events of cycles with their blocks: those without time data have none. */
  function PassEvents(cfg: BuildConfig, cycles: seq<Item>, ts: seq<Entry<TimeData>>): seq<Event>
    requires AllPaired(ts)
  {
    if cycles == [] then []
    else
      GetPaired(ts, cycles[0].key);
      (if Has(ts, cycles[0].key)
       then CycleEvents(cfg, cycles[0].key, Get(ts, cycles[0].key, NO_TIME_DATA), cycles[0].value) else [])
      + PassEvents(cfg, cycles[1..], ts)
  }

  lemma {:induction false} PassConcat(cfg: BuildConfig, a: seq<Item>, b: seq<Item>, ts: seq<Entry<TimeData>>)
    requires AllPaired(ts)
    ensures PassEvents(cfg, a + b, ts) == PassEvents(cfg, a, ts) + PassEvents(cfg, b, ts)
  {
    if a == [] {
      assert a + b == b;
    } else {
      assert (a + b)[1..] == a[1..] + b;
      PassConcat(cfg, a[1..], b, ts);
      GetPaired(ts, a[0].key);
      Regroup(if Has(ts, a[0].key)
              then CycleEvents(cfg, a[0].key, Get(ts, a[0].key, NO_TIME_DATA), a[0].value) else [],
              PassEvents(cfg, a[1..], ts), PassEvents(cfg, b, ts));
    }
  }

  lemma {:induction false} PassSame(cfg: BuildConfig, cycles: seq<Item>, ts: seq<Entry<TimeData>>, ts': seq<Entry<TimeData>>)
    requires AllPaired(ts) && AllPaired(ts') && forall i :: 0 <= i < |cycles| ==> SameAt(ts, ts', cycles[i].key)
    ensures PassEvents(cfg, cycles, ts) == PassEvents(cfg, cycles, ts')
  {
    if cycles != [] {
      PassSame(cfg, cycles[1..], ts, ts');
    }
  }

  /** The real events of a pass are, in order, those of the cycles it takes, and it leaves the data of
      all other cycles. */
  lemma {:induction false} PassContents(cfg: BuildConfig, asic: seq<Item>, ts: seq<Entry<TimeData>>, last: int, keep: nat)
    requires Ordered(asic) && AllPaired(ts)
    ensures var b := BuildTrig(cfg, asic, ts, last, keep); var n := Excess(asic, keep);
      && RealEvents(b.events) == PassEvents(cfg, asic[..n], ts) && b.asic == asic[n..]
      && LeavesTimes(ts, b.ts, asic[..n])
    decreases |asic|
  {
    var n := Excess(asic, keep);
    if |asic| <= keep {
      assert asic[..n] == [] && asic[n..] == asic;
    } else {
      var e, rest := asic[0], asic[1..];
      var taken := rest[..n - 1];
      HasTail(asic);
      assert asic[..n] == [e] + taken && asic[..n][1..] == taken && rest[n - 1..] == asic[n..];
      TakenOther(asic, n);
      GetPaired(ts, e.key);
      ErasePaired(ts, e.key);
      if !Has(ts, e.key) {
        PassContents(cfg, rest, ts, last, keep);
        LeavesMore(ts, ts, BuildTrig(cfg, rest, ts, last, keep).ts, e, taken);
      } else {
        var left := Erase(ts, e.key);
        var head := TriggerEvents(cfg, e.key, Get(ts, e.key, NO_TIME_DATA), e.value, 0, last);
        CycleContents(cfg, e.key, Get(ts, e.key, NO_TIME_DATA), e.value, 0, last, head.events);
        PassContents(cfg, rest, left, head.last, keep);
        RealConcat(head.events, BuildTrig(cfg, rest, left, head.last, keep).events);
        ErasedSame(ts, e.key, taken);
        PassSame(cfg, taken, left, ts);
        ErasedElsewhere(ts, e.key);
        LeavesMore(ts, left, BuildTrig(cfg, rest, left, head.last, keep).ts, e, taken);
      }
    }
  }

  // ---------- Runs ----------

  /** The events so far are those of the cycles that have left, with all that arrived for them. */
  ghost predicate Sofar(cfg: ReaderConfig, st: ScState, out: seq<Item>, whole: Buf) {
    st.Valid() && Remains(BufOf(st), out, whole) && RealEvents(st.events) == PassEvents(cfg.build, out, whole.ts)
  }

  lemma BuildSofar(cfg: ReaderConfig, st: ScState, out: seq<Item>, whole: Buf, dumpAll: bool)
    requires cfg.Valid() && cfg.mode.TrigidMode? && Sofar(cfg, st, out, whole)
    ensures var n := Excess(st.asic, Keep(cfg.build, dumpAll));
      Sofar(cfg, ScReading.Build(cfg, st, dumpAll), out + st.asic[..n], whole)
    ensures ClockOf(ScReading.Build(cfg, st, dumpAll)) == ClockOf(st)
  {
    var keep := Keep(cfg.build, dumpAll);
    var n := Excess(st.asic, keep);
    var b := BuildTrig(cfg.build, st.asic, st.ts.data, st.last, keep);
    PassContents(cfg.build, st.asic, st.ts.data, st.last, keep);
    BuildValid(cfg, st, dumpAll);
    RemainsTaken(BufOf(st), out, whole, n, b.ts);
    RealConcat(st.events, b.events);
    PassConcat(cfg.build, out, st.asic[..n], whole.ts);
    PassSame(cfg.build, st.asic[..n], st.ts.data, whole.ts);
  }

  lemma ReadSofar(cfg: ReaderConfig, recode: Recoding, st: ScState, out: seq<Item>, whole: Buf, seen: seq<Arr>, buf: seq<Byte>)
    requires cfg.Valid() && cfg.mode.TrigidMode? && Sofar(cfg, st, out, whole) && !Scan(buf).foreign
    requires GoodFrames(Scan(buf).frames) && LeftBehind(seen, out, whole, cfg.build.keepBuffered)
    requires Close(seen + ArrivalsOf(cfg, recode, ClockOf(st), Scan(buf).frames), cfg.build.keepBuffered)
    ensures var r := ReadOnce(cfg, recode, st, buf); var arrs := ArrivalsOf(cfg, recode, ClockOf(st), Scan(buf).frames);
      && ClockOf(r) == TickAll(cfg, ClockOf(st), Scan(buf).frames)
      && exists o :: Sofar(cfg, r, o, FileAll(whole, arrs)) && LeftBehind(seen + arrs, o, FileAll(whole, arrs), cfg.build.keepBuffered)
  {
    var fs, keep := Scan(buf).frames, cfg.build.keepBuffered;
    var arrs := ArrivalsOf(cfg, recode, ClockOf(st), fs);
    ApplyAllValid(cfg, recode, st, fs);
    ApplyFilesAll(cfg, recode, st, fs);
    LeftAbove(seen, arrs, out, whole, keep);
    RemainsAll(BufOf(st), out, whole, arrs);
    forall i | 0 <= i < |out| ensures SameAt(FileAll(whole, arrs).ts, whole.ts, out[i].key) {
      assert Has(out, out[i].key);
    }
    PassSame(cfg.build, out, FileAll(whole, arrs).ts, whole.ts);
    var st1 := ApplyAll(cfg, recode, st, fs);
    BuildSofar(cfg, st1, out, FileAll(whole, arrs), false);
    LeftBehindMore(seen, arrs, out, whole, keep);
    PassLeavesBehind(seen + arrs, out, st1.asic, FileAll(whole, arrs), keep);
    assert Sofar(cfg, ReadOnce(cfg, recode, st, buf), out + st1.asic[..Excess(st1.asic, keep)], FileAll(whole, arrs));
  }

  lemma {:induction false} RunSofar(
      cfg: ReaderConfig, recode: Recoding, st: ScState, out: seq<Item>, whole: Buf, seen: seq<Arr>,
      rest: seq<Byte>, chunks: seq<seq<Byte>>)
    requires cfg.Valid() && cfg.mode.TrigidMode? && Sofar(cfg, st, out, whole)
    requires LeftBehind(seen, out, whole, cfg.build.keepBuffered)
    requires Scan(rest) == Scanned([], rest, false) && !Scan(rest + Concat(chunks)).foreign
    requires Close(seen + Concat(ReadBatches(cfg, recode, ClockOf(st), rest, chunks)), cfg.build.keepBuffered)
    ensures var end := FileAll(whole, Concat(ReadBatches(cfg, recode, ClockOf(st), rest, chunks)));
      && AllPaired(end.ts)
      && RealEvents(ReadRun(cfg, recode, st, rest, chunks).events) == PassEvents(cfg.build, end.asic, end.ts)
    decreases |chunks|
  {
    if chunks == [] {
      BuildSofar(cfg, st, out, whole, true);
      assert st.asic[..|st.asic|] == st.asic;
    } else {
      var buf, more := rest + chunks[0], Concat(chunks[1..]);
      assert rest + Concat(chunks) == buf + more;
      ScanSplit(buf, more);
      LeftoverNeedsMore(buf);
      ScannedGood(buf);
      ReadValid(cfg, recode, st, buf);
      var fs := Scan(buf).frames;
      var arrs := ArrivalsOf(cfg, recode, ClockOf(st), fs);
      var later := Concat(ReadBatches(cfg, recode, TickAll(cfg, ClockOf(st), fs), Scan(buf).rest, chunks[1..]));
      var bs := ReadBatches(cfg, recode, ClockOf(st), rest, chunks);
      assert bs[0] == arrs && Concat(bs[1..]) == later;
      Regroup(seen, arrs, later);
      ClosePrefix(seen + arrs, later, cfg.build.keepBuffered);
      ReadSofar(cfg, recode, st, out, whole, seen, buf);
      var r := ReadOnce(cfg, recode, st, buf);
      var o :| Sofar(cfg, r, o, FileAll(whole, arrs)) && LeftBehind(seen + arrs, o, FileAll(whole, arrs), cfg.build.keepBuffered);
      RunSofar(cfg, recode, r, o, FileAll(whole, arrs), seen + arrs, Scan(buf).rest, chunks[1..]);
      FileAllConcat(whole, arrs, later);
    }
  }

  lemma StartSofar(cfg: ReaderConfig)
    ensures Sofar(cfg, Start(cfg), [], NO_DATA) && LeftBehind([], [], NO_DATA, cfg.build.keepBuffered)
  {
    assert NO_DATA.asic == [] + [];
  }

  /** A run of reads in which no packet is too far behind, however the bytes are cut: the real events
      are, in order of cycles and of triggers, those of all cycles with data, each for all the data and
      times of its cycle in the uncut stream. */
  lemma TrigidReads(cfg: ReaderConfig, recode: Recoding, chunks: seq<seq<Byte>>)
    requires cfg.Valid() && cfg.mode.TrigidMode? && !Scan(Concat(chunks)).foreign
    requires GoodFrames(Scan(Concat(chunks)).frames)
    requires Close(ArrivalsOf(cfg, recode, ClockOf(Start(cfg)), Scan(Concat(chunks)).frames), cfg.build.keepBuffered)
    ensures var whole := WholeOf(cfg, recode, Concat(chunks));
      && AllPaired(whole.ts)
      && RealEvents(ReadRun(cfg, recode, Start(cfg), [], chunks).events) == PassEvents(cfg.build, whole.asic, whole.ts)
  {
    assert Scan([]) == Scanned([], [], false);
    assert [] + Concat(chunks) == Concat(chunks);
    var arrs := ArrivalsOf(cfg, recode, ClockOf(Start(cfg)), Scan(Concat(chunks)).frames);
    ReadBatchesConcat(cfg, recode, ClockOf(Start(cfg)), [], chunks);
    ApplyFilesAll(cfg, recode, Start(cfg), Scan(Concat(chunks)).frames);
    StartSofar(cfg);
    assert [] + arrs == arrs;
    RunSofar(cfg, recode, Start(cfg), [], NO_DATA, [], [], chunks);
  }

  /** From the packets sent: each trigger inside the acquisition of a true cycle with data has, in order,
      its event with its number and time and everything recorded for the cycle, and nothing else has. */
  lemma EndToEndTrigid(cfg: ReaderConfig, sents: seq<Sent>, chunks: seq<seq<Byte>>)
    requires cfg.Valid() && cfg.mode.TrigidMode?
    requires RocReading.AllValid(cfg, sents) && Concat(chunks) == Bytes(cfg, sents)
    requires StepsRecovered(cfg, -1, sents) && Close(SentArrivals(cfg, sents), cfg.build.keepBuffered)
    ensures var sent := SentWholly(cfg, sents);
      && AllPaired(sent.ts)
      && RealEvents(ReadRun(cfg, BxidOf, Start(cfg), [], chunks).events)
         == PassEvents(cfg.build, Group(Recorded(cfg, sents)), sent.ts)
  {
    WholeIsSent(cfg, sents);
    ScannedGood(Bytes(cfg, sents));
    TrigidReads(cfg, BxidOf, chunks);
  }
}
