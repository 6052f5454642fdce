/**
 What the events of the ROC mode hold, with their times: for a pass, for a run of reads, and for the
 packets sent.
 */
module RocContents {
  import opened Sequences
  import opened OrderedMap
  import opened GrayCode
  import opened AsicPacket
  import opened LdaStream
  import opened LdaTimestamps
  import opened EventBuilding
  import opened ScReading
  import opened RocReading
  import opened ValidatedVisits
  import opened ValidatedRuns
  import opened ReadArrivals
  import opened LeftCycles
  import opened SentData

  /** The event of a cycle: all its blocks, and its time data if there are any and they are asked for. */
  predicate EventFor(cfg: BuildConfig, cycle: Item, ts: seq<Entry<TimeData>>, e: Event) {
    && e.RocEvent? && e.roc == cycle.key && e.blocks == cycle.value
    && (e.times.None? <==> cfg.ignoreTimestamps || !Has(ts, cycle.key))
    && (e.times.Some? ==> e.times.value == Get(ts, cycle.key, NO_TIME_DATA))
  }

  /** One event for each of the cycles, in order. */
  predicate EventsFor(cfg: BuildConfig, cycles: seq<Item>, ts: seq<Entry<TimeData>>, es: seq<Event>) {
    |es| == |cycles| && forall i :: 0 <= i < |es| ==> EventFor(cfg, cycles[i], ts, es[i])
  }

  lemma EventsForFront(cfg: BuildConfig, e: Item, cycles: seq<Item>, ts: seq<Entry<TimeData>>, es: seq<Event>)
    requires EventsFor(cfg, cycles, ts, es)
    ensures EventsFor(cfg, [e] + cycles, ts, [RocEventFor(cfg, e, ts)] + es)
  {
  }

  lemma EventsForSame(cfg: BuildConfig, cycles: seq<Item>, ts: seq<Entry<TimeData>>, ts': seq<Entry<TimeData>>, es: seq<Event>)
    requires EventsFor(cfg, cycles, ts, es)
    requires cfg.ignoreTimestamps || forall i :: 0 <= i < |cycles| ==> SameAt(ts, ts', cycles[i].key)
    ensures EventsFor(cfg, cycles, ts', es)
  {
    forall i | 0 <= i < |es| ensures EventFor(cfg, cycles[i], ts', es[i]) {
      assert EventFor(cfg, cycles[i], ts, es[i]);
    }
  }

  lemma EventsForBoth(cfg: BuildConfig, a: seq<Item>, b: seq<Item>, ts: seq<Entry<TimeData>>, x: seq<Event>, y: seq<Event>)
    requires EventsFor(cfg, a, ts, x) && EventsFor(cfg, b, ts, y)
    ensures EventsFor(cfg, a + b, ts, x + y)
  {
  }

  /** The time data that a pass leaves: all of them if they are ignored. */
  ghost predicate Leaves(cfg: BuildConfig, ts: seq<Entry<TimeData>>, left: seq<Entry<TimeData>>, taken: seq<Item>) {
    if cfg.ignoreTimestamps then left == ts else LeavesTimes(ts, left, taken)
  }

  /** A pass turns the cycles it takes into one event each, with their time data. */
  lemma {:induction false} PassContents(cfg: BuildConfig, asic: seq<Item>, ts: seq<Entry<TimeData>>, last: int, keep: nat)
    requires Ordered(asic)
    ensures var b := BuildRoc(cfg, asic, ts, last, keep); var n := Excess(asic, keep);
      EventsFor(cfg, asic[..n], ts, RealEvents(b.events)) && b.asic == asic[n..] && Leaves(cfg, ts, b.ts, asic[..n])
    decreases |asic|
  {
    var n := Excess(asic, keep);
    if |asic| <= keep {
      assert asic[..n] == [] && asic[n..] == asic;
    } else {
      var e, rest := asic[0], asic[1..];
      var taken, left, next := rest[..n - 1], TsAfter(cfg, e.key, ts), LastAfter(cfg, last, e.key);
      var b := BuildRoc(cfg, rest, left, next, keep);
      HasTail(asic);
      assert asic[..n] == [e] + taken && rest[n - 1..] == asic[n..];
      TakenOther(asic, n);
      PassContents(cfg, rest, left, next, keep);
      LeftSame(cfg, ts, e.key, taken);
      EventsForSame(cfg, taken, left, ts, RealEvents(b.events));
      FilledOne(cfg, last, e.key, RocEventFor(cfg, e, ts), b.events);
      EventsForFront(cfg, e, taken, ts, RealEvents(b.events));
      if !cfg.ignoreTimestamps {
        LeavesMore(ts, left, b.ts, e, taken);
      }
    }
  }

  lemma LeftSame(cfg: BuildConfig, ts: seq<Entry<TimeData>>, roc: int, cycles: seq<Item>)
    requires NoneAt(cycles, roc)
    ensures var left := TsAfter(cfg, roc, ts);
      if cfg.ignoreTimestamps then left == ts
      else
        && !Has(left, roc) && (forall k :: k != roc ==> SameAt(left, ts, k))
        && forall i :: 0 <= i < |cycles| ==> SameAt(left, ts, cycles[i].key)
  {
    ErasedElsewhere(ts, roc);
    EraseMeaning(ts, roc);
    ErasedSame(ts, roc, cycles);
  }

  // ---------- Runs ----------

  /** The events so far are those of the cycles that have left, with all that arrived for them. */
  ghost predicate Sofar(cfg: ReaderConfig, st: ScState, out: seq<Item>, whole: Buf) {
    st.Valid() && Remains(BufOf(st), out, whole) && EventsFor(cfg.build, out, whole.ts, RealEvents(st.events))
  }

  lemma BuildSofar(cfg: ReaderConfig, st: ScState, out: seq<Item>, whole: Buf, dumpAll: bool)
    requires cfg.Valid() && cfg.mode.RocMode? && !cfg.build.ignoreTimestamps && Sofar(cfg, st, out, whole)
    ensures var n := Excess(st.asic, Keep(cfg.build, dumpAll));
      Sofar(cfg, ScReading.Build(cfg, st, dumpAll), out + st.asic[..n], whole)
    ensures ClockOf(ScReading.Build(cfg, st, dumpAll)) == ClockOf(st)
  {
    var keep := Keep(cfg.build, dumpAll);
    var n := Excess(st.asic, keep);
    var b := BuildRoc(cfg.build, st.asic, st.ts.data, st.last, keep);
    PassContents(cfg.build, st.asic, st.ts.data, st.last, keep);
    BuildValid(cfg, st, dumpAll);
    RemainsTaken(BufOf(st), out, whole, n, b.ts);
    RealConcat(st.events, b.events);
    EventsForSame(cfg.build, st.asic[..n], st.ts.data, whole.ts, RealEvents(b.events));
    EventsForBoth(cfg.build, out, st.asic[..n], whole.ts, RealEvents(st.events), RealEvents(b.events));
  }

  lemma ReadSofar(cfg: ReaderConfig, recode: Recoding, st: ScState, out: seq<Item>, whole: Buf, seen: seq<Arr>, buf: seq<Byte>)
    requires cfg.Valid() && cfg.mode.RocMode? && !cfg.build.ignoreTimestamps && Sofar(cfg, st, out, whole) && !Scan(buf).foreign
    requires GoodFrames(Scan(buf).frames) && LeftBehind(seen, out, whole, cfg.build.keepBuffered)
    requires Close(seen + ArrivalsOf(cfg, recode, ClockOf(st), Scan(buf).frames), cfg.build.keepBuffered)
    ensures var r := ReadOnce(cfg, recode, st, buf); var arrs := ArrivalsOf(cfg, recode, ClockOf(st), Scan(buf).frames);
      && ClockOf(r) == TickAll(cfg, ClockOf(st), Scan(buf).frames)
      && exists o :: Sofar(cfg, r, o, FileAll(whole, arrs)) && LeftBehind(seen + arrs, o, FileAll(whole, arrs), cfg.build.keepBuffered)
  {
    var fs, keep := Scan(buf).frames, cfg.build.keepBuffered;
    var arrs := ArrivalsOf(cfg, recode, ClockOf(st), fs);
    ApplyAllValid(cfg, recode, st, fs);
    ApplyFilesAll(cfg, recode, st, fs);
    LeftAbove(seen, arrs, out, whole, keep);
    RemainsAll(BufOf(st), out, whole, arrs);
    forall i | 0 <= i < |out| ensures SameAt(whole.ts, FileAll(whole, arrs).ts, out[i].key) {
      assert Has(out, out[i].key);
      assert SameAt(FileAll(whole, arrs).ts, whole.ts, out[i].key);
    }
    EventsForSame(cfg.build, out, whole.ts, FileAll(whole, arrs).ts, RealEvents(st.events));
    var st1 := ApplyAll(cfg, recode, st, fs);
    BuildSofar(cfg, st1, out, FileAll(whole, arrs), false);
    LeftBehindMore(seen, arrs, out, whole, keep);
    PassLeavesBehind(seen + arrs, out, st1.asic, FileAll(whole, arrs), keep);
    assert Sofar(cfg, ReadOnce(cfg, recode, st, buf), out + st1.asic[..Excess(st1.asic, keep)], FileAll(whole, arrs));
  }

  lemma {:induction false} RunSofar(
      cfg: ReaderConfig, recode: Recoding, st: ScState, out: seq<Item>, whole: Buf, seen: seq<Arr>,
      rest: seq<Byte>, chunks: seq<seq<Byte>>)
    requires cfg.Valid() && cfg.mode.RocMode? && !cfg.build.ignoreTimestamps && Sofar(cfg, st, out, whole)
    requires LeftBehind(seen, out, whole, cfg.build.keepBuffered)
    requires Scan(rest) == Scanned([], rest, false) && !Scan(rest + Concat(chunks)).foreign
    requires Close(seen + Concat(ReadBatches(cfg, recode, ClockOf(st), rest, chunks)), cfg.build.keepBuffered)
    ensures var end := FileAll(whole, Concat(ReadBatches(cfg, recode, ClockOf(st), rest, chunks)));
      EventsFor(cfg.build, end.asic, end.ts, RealEvents(ReadRun(cfg, recode, st, rest, chunks).events))
    decreases |chunks|
  {
    if chunks == [] {
      BuildSofar(cfg, st, out, whole, true);
      assert st.asic[..|st.asic|] == st.asic;
    } else {
      var buf, more := rest + chunks[0], Concat(chunks[1..]);
      assert rest + Concat(chunks) == buf + more;
      ScanSplit(buf, more);
      LeftoverNeedsMore(buf);
      ScannedGood(buf);
      ReadValid(cfg, recode, st, buf);
      var fs := Scan(buf).frames;
      var arrs := ArrivalsOf(cfg, recode, ClockOf(st), fs);
      var later := Concat(ReadBatches(cfg, recode, TickAll(cfg, ClockOf(st), fs), Scan(buf).rest, chunks[1..]));
      var bs := ReadBatches(cfg, recode, ClockOf(st), rest, chunks);
      assert bs[0] == arrs && Concat(bs[1..]) == later;
      Regroup(seen, arrs, later);
      ClosePrefix(seen + arrs, later, cfg.build.keepBuffered);
      ReadSofar(cfg, recode, st, out, whole, seen, buf);
      var r := ReadOnce(cfg, recode, st, buf);
      var o :| Sofar(cfg, r, o, FileAll(whole, arrs)) && LeftBehind(seen + arrs, o, FileAll(whole, arrs), cfg.build.keepBuffered);
      RunSofar(cfg, recode, r, o, FileAll(whole, arrs), seen + arrs, Scan(buf).rest, chunks[1..]);
      FileAllConcat(whole, arrs, later);
    }
  }

  lemma StartSofar(cfg: ReaderConfig)
    ensures Sofar(cfg, Start(cfg), [], NO_DATA) && LeftBehind([], [], NO_DATA, cfg.build.keepBuffered)
  {
    assert NO_DATA.asic == [] + [];
  }

  /** A run of reads in which no packet is too far behind: the real events are those of the cycles of the
      uncut stream, in order, each with all its blocks and its time data. */
  lemma RocReads(cfg: ReaderConfig, recode: Recoding, chunks: seq<seq<Byte>>)
    requires cfg.Valid() && cfg.mode.RocMode? && !cfg.build.ignoreTimestamps && !Scan(Concat(chunks)).foreign
    requires GoodFrames(Scan(Concat(chunks)).frames)
    requires Close(ArrivalsOf(cfg, recode, ClockOf(Start(cfg)), Scan(Concat(chunks)).frames), cfg.build.keepBuffered)
    ensures var whole := WholeOf(cfg, recode, Concat(chunks));
      EventsFor(cfg.build, whole.asic, whole.ts, RealEvents(ReadRun(cfg, recode, Start(cfg), [], chunks).events))
  {
    assert Scan([]) == Scanned([], [], false);
    assert [] + Concat(chunks) == Concat(chunks);
    var arrs := ArrivalsOf(cfg, recode, ClockOf(Start(cfg)), Scan(Concat(chunks)).frames);
    ReadBatchesConcat(cfg, recode, ClockOf(Start(cfg)), [], chunks);
    ApplyFilesAll(cfg, recode, Start(cfg), Scan(Concat(chunks)).frames);
    StartSofar(cfg);
    assert [] + arrs == arrs;
    RunSofar(cfg, recode, Start(cfg), [], NO_DATA, [], [], chunks);
  }

  /** From the packets sent: each true cycle has its event, in order, with everything recorded for it and
      the times sent for it. */
  lemma EndToEndTimes(cfg: ReaderConfig, sents: seq<Sent>, chunks: seq<seq<Byte>>)
    requires cfg.Valid() && cfg.mode.RocMode? && !cfg.build.ignoreTimestamps
    requires RocReading.AllValid(cfg, sents) && Concat(chunks) == Bytes(cfg, sents)
    requires StepsRecovered(cfg, -1, sents) && Close(SentArrivals(cfg, sents), cfg.build.keepBuffered)
    ensures EventsFor(cfg.build, Group(Recorded(cfg, sents)), SentWholly(cfg, sents).ts,
                      RealEvents(ReadRun(cfg, BxidOf, Start(cfg), [], chunks).events))
  {
    WholeIsSent(cfg, sents);
    ScannedGood(Bytes(cfg, sents));
    RocReads(cfg, BxidOf, chunks);
  }
}
