/**
 The time windows of the events of the BUILD_BXID_ALL mode: for a pass, for a run of reads, and for the
 packets sent.
 */
module BxidWindows {
  import opened Sequences
  import opened OrderedMap
  import opened GrayCode
  import opened AsicPacket
  import opened LdaStream
  import opened LdaTimestamps
  import opened EventBuilding
  import opened ScReading
  import opened RocReading
  import opened ValidatedVisits
  import opened ValidatedRuns
  import opened ReadArrivals
  import opened LeftCycles
  import opened SentData
  import ValidatedBuilding
  import opened BxidBuilding

  // ---------- One window ----------

  /** Time `t` lies in the `b`-th bunch crossing after the start of an acquisition. */
  predicate TimeIn(cfg: BuildConfig, start: int, b: int, t: int) {
    b * cfg.bxidWidth <= t - start - cfg.bxid0Offset && t - start - cfg.bxid0Offset < (b + 1) * cfg.bxidWidth
  }

  /** The window holds the times of the crossing, and one tick on either side, as far as 64 bits go. There
      is none without a start, or if times are ignored. */
  ghost predicate WindowRight(cfg: BuildConfig, start: int, b: int, w: Option<Span>) {
    && (w.None? <==> start == 0 || cfg.ignoreTimestamps)
    && (w.Some? && 1 <= start + cfg.bxid0Offset + b * cfg.bxidWidth
        && start + cfg.bxid0Offset + (b + 1) * cfg.bxidWidth < 0xFFFF_FFFF_FFFF_FFFF ==>
          && (forall t :: w.value.begin < t < w.value.end - 1 <==> TimeIn(cfg, start, b, t))
          && w.value.begin == start + cfg.bxid0Offset + b * cfg.bxidWidth - 1
          && w.value.end == start + cfg.bxid0Offset + (b + 1) * cfg.bxidWidth + 1)
  }

  lemma WindowIs(cfg: BuildConfig, start: int, b: int)
    requires cfg.bxidWidth > 0
    ensures WindowRight(cfg, start, b, Window(cfg, start, b))
  {
    var begin, end := start + cfg.bxid0Offset + b * cfg.bxidWidth - 1, start + cfg.bxid0Offset + (b + 1) * cfg.bxidWidth + 1;
    assert (b + 1) * cfg.bxidWidth == b * cfg.bxidWidth + cfg.bxidWidth;
    if 0 <= begin && end < TWO_64 {
      assert begin % TWO_64 == begin && end % TWO_64 == end;
    }
  }

  // ---------- One pass ----------

  /** The event's window is right for the start of its cycle. */
  ghost predicate EventWindow(cfg: BuildConfig, ts: seq<Entry<TimeData>>, e: Event) {
    e.CrossingEvent? && WindowRight(cfg, Get(ts, e.roc, NO_TIME_DATA).start, e.bxid, e.window)
  }

  ghost predicate AllWindows(cfg: BuildConfig, cycles: seq<Item>, ts: seq<Entry<TimeData>>, es: seq<Event>) {
    forall e :: e in es ==> EventWindow(cfg, ts, e) && Has(cycles, e.roc)
  }

  lemma {:induction false} CrossingWindows(cfg: BuildConfig, roc: int, start: int, groups: seq<Item>)
    requires cfg.bxidWidth > 0
    ensures forall e :: e in CrossingEvents(cfg, roc, start, groups) ==>
      e.CrossingEvent? && e.roc == roc && WindowRight(cfg, start, e.bxid, e.window)
  {
    if groups != [] {
      CrossingWindows(cfg, roc, start, groups[1..]);
      WindowIs(cfg, start, groups[0].key);
    }
  }

  lemma WindowsSame(cfg: BuildConfig, cycles: seq<Item>, ts: seq<Entry<TimeData>>, ts': seq<Entry<TimeData>>, es: seq<Event>)
    requires AllWindows(cfg, cycles, ts, es) && forall k :: Has(cycles, k) ==> SameAt(ts, ts', k)
    ensures AllWindows(cfg, cycles, ts', es)
  {
    forall e | e in es ensures EventWindow(cfg, ts', e) && Has(cycles, e.roc) {
      assert EventWindow(cfg, ts, e) && Has(cycles, e.roc);
      assert SameAt(ts, ts', e.roc);
    }
  }

  lemma WindowsBoth(cfg: BuildConfig, a: seq<Item>, b: seq<Item>, ts: seq<Entry<TimeData>>, x: seq<Event>, y: seq<Event>)
    requires AllWindows(cfg, a, ts, x) && AllWindows(cfg, b, ts, y)
    ensures AllWindows(cfg, a + b, ts, x + y)
  {
    forall e | e in x + y ensures EventWindow(cfg, ts, e) && Has(a + b, e.roc) {
      HasEither(a, b, e.roc);
      assert e in x || e in y;
    }
  }

  lemma OneCycle(cfg: BuildConfig, e: Item, ts: seq<Entry<TimeData>>, minLast: seq<Entry<int>>)
    requires cfg.bxidWidth > 0
    ensures AllWindows(cfg, [e], ts, CycleEventsAll(cfg, e, ts, minLast))
  {
    CrossingWindows(cfg, e.key, StartOf(ts, e.key), Table(e.value, ValidatedBuilding.FullOf(minLast, e.key)));
    assert [e][0].key == e.key;
  }

  /** A cycle in front of those that a pass takes next. */
  lemma WindowsFront(cfg: BuildConfig, asic: seq<Item>, n: nat, ts: seq<Entry<TimeData>>, minLast: seq<Entry<int>>, es: seq<Event>)
    requires Ordered(asic) && 0 < n <= |asic| && cfg.bxidWidth > 0
    requires AllWindows(cfg, asic[1..][..n - 1], Erase(ts, asic[0].key), es)
    ensures AllWindows(cfg, asic[..n], ts, CycleEventsAll(cfg, asic[0], ts, minLast) + es)
  {
    var e, taken := asic[0], asic[1..][..n - 1];
    assert asic[..n] == [e] + taken;
    TakenOther(asic, n);
    ErasedElsewhere(ts, e.key);
    WindowsSame(cfg, taken, Erase(ts, e.key), ts, es);
    OneCycle(cfg, e, ts, minLast);
    WindowsBoth(cfg, [e], taken, ts, CycleEventsAll(cfg, e, ts, minLast), es);
  }

  /** The events of a pass have the windows of their crossings. */
  lemma {:induction false} PassWindows(cfg: BuildConfig, asic: seq<Item>, ts: seq<Entry<TimeData>>, minLast: seq<Entry<int>>,
                                       last: int, keep: nat)
    requires Ordered(asic) && cfg.bxidWidth > 0
    ensures AllWindows(cfg, asic[..Excess(asic, keep)], ts, BuildAll(cfg, asic, ts, minLast, last, keep).events)
    decreases |asic|
  {
    if |asic| > keep {
      var es := CycleEventsAll(cfg, asic[0], ts, minLast);
      BxidBuilding.OrderedSuffix(asic);
      PassWindows(cfg, asic[1..], Erase(ts, asic[0].key), minLast, last + |es|, keep);
      WindowsFront(cfg, asic, Excess(asic, keep), ts, minLast,
                   BuildAll(cfg, asic[1..], Erase(ts, asic[0].key), minLast, last + |es|, keep).events);
    }
  }

  lemma LeavesFront(asic: seq<Item>, n: nat, ts: seq<Entry<TimeData>>, left: seq<Entry<TimeData>>)
    requires Ordered(asic) && 0 < n <= |asic| && LeavesTimes(Erase(ts, asic[0].key), left, asic[1..][..n - 1])
    ensures LeavesTimes(ts, left, asic[..n])
  {
    assert asic[..n] == [asic[0]] + asic[1..][..n - 1];
    TakenOther(asic, n);
    ErasedElsewhere(ts, asic[0].key);
    LeavesMore(ts, Erase(ts, asic[0].key), left, asic[0], asic[1..][..n - 1]);
  }

  /** And it leaves the time data of all other cycles. */
  lemma {:induction false} PassTimes(cfg: BuildConfig, asic: seq<Item>, ts: seq<Entry<TimeData>>, minLast: seq<Entry<int>>,
                                     last: int, keep: nat)
    requires Ordered(asic)
    ensures LeavesTimes(ts, BuildAll(cfg, asic, ts, minLast, last, keep).ts, asic[..Excess(asic, keep)])
    decreases |asic|
  {
    if |asic| > keep {
      var es := CycleEventsAll(cfg, asic[0], ts, minLast);
      BxidBuilding.OrderedSuffix(asic);
      PassTimes(cfg, asic[1..], Erase(ts, asic[0].key), minLast, last + |es|, keep);
      LeavesFront(asic, Excess(asic, keep), ts, BuildAll(cfg, asic[1..], Erase(ts, asic[0].key), minLast, last + |es|, keep).ts);
    }
  }

  // ---------- Runs ----------

  /** The events so far have the windows of their crossings, for all times that arrived. */
  ghost predicate Sofar(cfg: ReaderConfig, st: ScState, out: seq<Item>, whole: Buf) {
    st.Valid() && Remains(BufOf(st), out, whole) && AllWindows(cfg.build, out, whole.ts, st.events)
  }

  lemma BuildSofar(cfg: ReaderConfig, st: ScState, out: seq<Item>, whole: Buf, dumpAll: bool)
    requires cfg.Valid() && cfg.mode.BxidMode? && cfg.build.bxidWidth > 0 && Sofar(cfg, st, out, whole)
    ensures var n := Excess(st.asic, Keep(cfg.build, dumpAll));
      Sofar(cfg, ScReading.Build(cfg, st, dumpAll), out + st.asic[..n], whole)
    ensures ClockOf(ScReading.Build(cfg, st, dumpAll)) == ClockOf(st)
  {
    var keep := Keep(cfg.build, dumpAll);
    var n := Excess(st.asic, keep);
    var b := BuildAll(cfg.build, st.asic, st.ts.data, st.minLast, st.last, keep);
    PassWindows(cfg.build, st.asic, st.ts.data, st.minLast, st.last, keep);
    PassTimes(cfg.build, st.asic, st.ts.data, st.minLast, st.last, keep);
    AllPass(cfg.build, st.asic, st.ts.data, st.minLast, st.last, keep);
    BuildValid(cfg, st, dumpAll);
    RemainsTaken(BufOf(st), out, whole, n, b.ts);
    var now := st.asic[..n];
    forall k | Has(now, k) ensures SameAt(st.ts.data, whole.ts, k) {
      var i :| 0 <= i < |now| && now[i].key == k;
    }
    WindowsSame(cfg.build, now, st.ts.data, whole.ts, b.events);
    WindowsBoth(cfg.build, out, now, whole.ts, st.events, b.events);
  }

  lemma ReadSofar(cfg: ReaderConfig, recode: Recoding, st: ScState, out: seq<Item>, whole: Buf, seen: seq<Arr>, buf: seq<Byte>)
    requires cfg.Valid() && cfg.mode.BxidMode? && cfg.build.bxidWidth > 0 && Sofar(cfg, st, out, whole) && !Scan(buf).foreign
    requires GoodFrames(Scan(buf).frames) && LeftBehind(seen, out, whole, cfg.build.keepBuffered)
    requires Close(seen + ArrivalsOf(cfg, recode, ClockOf(st), Scan(buf).frames), cfg.build.keepBuffered)
    ensures var r := ReadOnce(cfg, recode, st, buf); var arrs := ArrivalsOf(cfg, recode, ClockOf(st), Scan(buf).frames);
      && ClockOf(r) == TickAll(cfg, ClockOf(st), Scan(buf).frames)
      && exists o :: Sofar(cfg, r, o, FileAll(whole, arrs)) && LeftBehind(seen + arrs, o, FileAll(whole, arrs), cfg.build.keepBuffered)
  {
    var fs, keep := Scan(buf).frames, cfg.build.keepBuffered;
    var arrs := ArrivalsOf(cfg, recode, ClockOf(st), fs);
    ApplyAllValid(cfg, recode, st, fs);
    ApplyFilesAll(cfg, recode, st, fs);
    LeftAbove(seen, arrs, out, whole, keep);
    RemainsAll(BufOf(st), out, whole, arrs);
    forall k | Has(out, k) ensures SameAt(whole.ts, FileAll(whole, arrs).ts, k) {
      assert SameAt(FileAll(whole, arrs).ts, whole.ts, k);
    }
    WindowsSame(cfg.build, out, whole.ts, FileAll(whole, arrs).ts, st.events);
    var st1 := ApplyAll(cfg, recode, st, fs);
    BuildSofar(cfg, st1, out, FileAll(whole, arrs), false);
    LeftBehindMore(seen, arrs, out, whole, keep);
    PassLeavesBehind(seen + arrs, out, st1.asic, FileAll(whole, arrs), keep);
    assert Sofar(cfg, ReadOnce(cfg, recode, st, buf), out + st1.asic[..Excess(st1.asic, keep)], FileAll(whole, arrs));
  }

  lemma {:induction false} RunSofar(
      cfg: ReaderConfig, recode: Recoding, st: ScState, out: seq<Item>, whole: Buf, seen: seq<Arr>,
      rest: seq<Byte>, chunks: seq<seq<Byte>>)
    requires cfg.Valid() && cfg.mode.BxidMode? && cfg.build.bxidWidth > 0 && Sofar(cfg, st, out, whole)
    requires LeftBehind(seen, out, whole, cfg.build.keepBuffered)
    requires Scan(rest) == Scanned([], rest, false) && !Scan(rest + Concat(chunks)).foreign
    requires Close(seen + Concat(ReadBatches(cfg, recode, ClockOf(st), rest, chunks)), cfg.build.keepBuffered)
    ensures var end := FileAll(whole, Concat(ReadBatches(cfg, recode, ClockOf(st), rest, chunks)));
      AllWindows(cfg.build, end.asic, end.ts, ReadRun(cfg, recode, st, rest, chunks).events)
    decreases |chunks|
  {
    if chunks == [] {
      BuildSofar(cfg, st, out, whole, true);
      assert st.asic[..|st.asic|] == st.asic;
    } else {
      var buf, more := rest + chunks[0], Concat(chunks[1..]);
      assert rest + Concat(chunks) == buf + more;
      ScanSplit(buf, more);
      LeftoverNeedsMore(buf);
      ScannedGood(buf);
      ReadValid(cfg, recode, st, buf);
      var fs := Scan(buf).frames;
      var arrs := ArrivalsOf(cfg, recode, ClockOf(st), fs);
      var later := Concat(ReadBatches(cfg, recode, TickAll(cfg, ClockOf(st), fs), Scan(buf).rest, chunks[1..]));
      var bs := ReadBatches(cfg, recode, ClockOf(st), rest, chunks);
      assert bs[0] == arrs && Concat(bs[1..]) == later;
      Regroup(seen, arrs, later);
      ClosePrefix(seen + arrs, later, cfg.build.keepBuffered);
      ReadSofar(cfg, recode, st, out, whole, seen, buf);
      var r := ReadOnce(cfg, recode, st, buf);
      var o :| Sofar(cfg, r, o, FileAll(whole, arrs)) && LeftBehind(seen + arrs, o, FileAll(whole, arrs), cfg.build.keepBuffered);
      RunSofar(cfg, recode, r, o, FileAll(whole, arrs), seen + arrs, Scan(buf).rest, chunks[1..]);
      FileAllConcat(whole, arrs, later);
    }
  }

  lemma StartSofar(cfg: ReaderConfig)
    ensures Sofar(cfg, Start(cfg), [], NO_DATA) && LeftBehind([], [], NO_DATA, cfg.build.keepBuffered)
  {
    assert NO_DATA.asic == [] + [];
  }

  /** From the packets sent, none too far behind, however they are cut: each event has the window of its
      crossing, from the start sent for its true cycle. */
  lemma EndToEndWindows(cfg: ReaderConfig, sents: seq<Sent>, chunks: seq<seq<Byte>>)
    requires cfg.Valid() && cfg.mode.BxidMode? && cfg.build.bxidWidth > 0
    requires RocReading.AllValid(cfg, sents) && Concat(chunks) == Bytes(cfg, sents)
    requires StepsRecovered(cfg, -1, sents) && Close(SentArrivals(cfg, sents), cfg.build.keepBuffered)
    ensures AllWindows(cfg.build, Group(Recorded(cfg, sents)), SentWholly(cfg, sents).ts,
                       ReadRun(cfg, BxidOf, Start(cfg), [], chunks).events)
  {
    var bytes := Bytes(cfg, sents);
    WholeIsSent(cfg, sents);
    ScannedGood(bytes);
    assert Scan([]) == Scanned([], [], false);
    assert [] + Concat(chunks) == bytes;
    ReadBatchesConcat(cfg, BxidOf, ClockOf(Start(cfg)), [], chunks);
    ApplyFilesAll(cfg, BxidOf, Start(cfg), Scan(bytes).frames);
    StartSofar(cfg);
    assert [] + SentArrivals(cfg, sents) == SentArrivals(cfg, sents);
    RunSofar(cfg, BxidOf, Start(cfg), [], NO_DATA, [], [], chunks);
  }
}
