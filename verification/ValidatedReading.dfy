/**
 End to end in validated mode: from bytes, cut in any way into reads, to the events in which triggers
 and data are matched.
 */
module ValidatedReading {
  import opened Sequences
  import opened OrderedMap
  import opened GrayCode
  import opened AsicPacket
  import opened LdaStream
  import opened LdaTimestamps
  import opened EventBuilding
  import opened ValidatedBuilding
  import opened ScReading
  import opened RocReading
  import opened ReadArrivals
  import opened SentData
  import opened FullCells
  import opened TimesReading
  import opened ValidatedVisits
  import opened ValidatedRuns
  import opened ValidatedEvents
  import opened ValidatedContents

  // ---------- Reads are visits ----------

  /** The state after the visits of a log. */
  ghost predicate Follows(cfg: ReaderConfig, st: ScState, log: Log, first: int)
    requires cfg.Valid() && cfg.mode.ValidatedMode?
  {
    && st.Valid() && Paired(log.done) && BufOf(st) == log.buf
    && EventsOf(cfg.build, log.done, first) == Validated(st.events, st.last)
  }

  lemma BuildFollows(cfg: ReaderConfig, st: ScState, log: Log, first: int, dumpAll: bool)
    requires cfg.Valid() && cfg.mode.ValidatedMode? && Follows(cfg, st, log, first)
    ensures Follows(cfg, ScReading.Build(cfg, st, dumpAll), Handle(log, Keep(cfg.build, dumpAll)), first)
    ensures ClockOf(ScReading.Build(cfg, st, dumpAll)) == ClockOf(st)
  {
    var keep := Keep(cfg.build, dumpAll);
    var t := TakenOf(st.asic, st.ts.data, keep);
    BuildValid(cfg, st, dumpAll);
    TakePaired(log, keep);
    BuildIsTaken(cfg.build, st.asic, st.ts.data, st.minLast, st.last, keep);
    EventsOfConcat(cfg.build, log.done, WithFull(t.visits, st.minLast), first);
  }

  lemma ReadFollows(cfg: ReaderConfig, recode: Recoding, st: ScState, log: Log, first: int, buf: seq<Byte>)
    requires cfg.Valid() && cfg.mode.ValidatedMode? && Follows(cfg, st, log, first) && !Scan(buf).foreign
    ensures GoodFrames(Scan(buf).frames)
    ensures var r := ReadOnce(cfg, recode, st, buf); var fs := Scan(buf).frames;
      && Follows(cfg, r, Handle(AfterBatch(log, ArrivalsOf(cfg, recode, ClockOf(st), fs)), cfg.build.keepBuffered), first)
      && ClockOf(r) == TickAll(cfg, ClockOf(st), fs)
  {
    var fs := Scan(buf).frames;
    ScannedGood(buf);
    ApplyAllValid(cfg, recode, st, fs);
    ApplyFilesAll(cfg, recode, st, fs);
    var st1 := ApplyAll(cfg, recode, st, fs);
    BuildFollows(cfg, st1, AfterBatch(log, ArrivalsOf(cfg, recode, ClockOf(st), fs)), first, false);
  }

  lemma {:induction false} ReadsFollow(
      cfg: ReaderConfig, recode: Recoding, st: ScState, log: Log, first: int, rest: seq<Byte>, chunks: seq<seq<Byte>>)
    requires cfg.Valid() && cfg.mode.ValidatedMode? && Follows(cfg, st, log, first)
    requires Scan(rest) == Scanned([], rest, false) && !Scan(rest + Concat(chunks)).foreign
    ensures Follows(cfg, ReadRun(cfg, recode, st, rest, chunks),
                    RunVisits(log, ReadBatches(cfg, recode, ClockOf(st), rest, chunks), cfg.build.keepBuffered), first)
    decreases |chunks|
  {
    if chunks == [] {
      BuildFollows(cfg, st, log, first, true);
    } else {
      var buf, more := rest + chunks[0], Concat(chunks[1..]);
      assert rest + Concat(chunks) == buf + more;
      ScanSplit(buf, more);
      LeftoverNeedsMore(buf);
      ReadValid(cfg, recode, st, buf);
      ReadFollows(cfg, recode, st, log, first, buf);
      var st1 := ReadOnce(cfg, recode, st, buf);
      var batch := ArrivalsOf(cfg, recode, ClockOf(st), Scan(buf).frames);
      ReadsFollow(cfg, recode, st1, Handle(AfterBatch(log, batch), cfg.build.keepBuffered), first, Scan(buf).rest, chunks[1..]);
      var bs := ReadBatches(cfg, recode, ClockOf(st), rest, chunks);
      assert bs[1..] == ReadBatches(cfg, recode, ClockOf(st1), Scan(buf).rest, chunks[1..]);
    }
  }

  // ---------- Whole runs ----------

  /** What the reads of a run bring, read by read. */
  function BatchesOf(cfg: ReaderConfig, recode: Recoding, chunks: seq<seq<Byte>>): seq<seq<Arr>> {
    ReadBatches(cfg, recode, ClockOf(Start(cfg)), [], chunks)
  }

  /** The visits of a run. */
  function LogOf(cfg: ReaderConfig, recode: Recoding, chunks: seq<seq<Byte>>): Log {
    RunVisits(NOTHING_YET, BatchesOf(cfg, recode, chunks), cfg.build.keepBuffered)
  }

  ghost predicate ValidatedRun(cfg: ReaderConfig, chunks: seq<seq<Byte>>) {
    cfg.Valid() && cfg.mode.ValidatedMode? && !Scan(Concat(chunks)).foreign
  }

  lemma StartFollows(cfg: ReaderConfig)
    requires cfg.Valid() && cfg.mode.ValidatedMode?
    ensures Follows(cfg, Start(cfg), NOTHING_YET, cfg.build.generateFrom - 1)
  {
  }

  /** The events of a run of reads are those of its visits, and the reads bring what is in the stream. */
  lemma RunOfReads(cfg: ReaderConfig, recode: Recoding, chunks: seq<seq<Byte>>)
    requires ValidatedRun(cfg, chunks)
    ensures var done := LogOf(cfg, recode, chunks).done;
      && Paired(done)
      && ReadRun(cfg, recode, Start(cfg), [], chunks).events == EventsOf(cfg.build, done, cfg.build.generateFrom - 1).events
    ensures FileAll(NO_DATA, Concat(BatchesOf(cfg, recode, chunks))) == WholeOf(cfg, recode, Concat(chunks))
  {
    assert Scan([]) == Scanned([], [], false);
    assert [] + Concat(chunks) == Concat(chunks);
    StartFollows(cfg);
    ReadsFollow(cfg, recode, Start(cfg), NOTHING_YET, cfg.build.generateFrom - 1, [], chunks);
    ReadBatchesConcat(cfg, recode, ClockOf(Start(cfg)), [], chunks);
    ScannedGood(Concat(chunks));
    ApplyFilesAll(cfg, recode, Start(cfg), Scan(Concat(chunks)).frames);
  }

  /** The visits of a run of reads, with the cycles left without data, are the cycles of the uncut
      stream, each once with all its data and times, if and only if no packet that brings something
      comes for a cycle at or below a visited one. */
  lemma VisitsOfReads(cfg: ReaderConfig, recode: Recoding, chunks: seq<seq<Byte>>)
    requires ValidatedRun(cfg, chunks)
    ensures var r := LogOf(cfg, recode, chunks);
      var inTime := NoneLate(NOTHING_YET, BatchesOf(cfg, recode, chunks), cfg.build.keepBuffered, false);
      && r.buf.asic == []
      && (AllVisits(r) == Due(WholeOf(cfg, recode, Concat(chunks))) <==> inTime)
      && (Rises(AllVisits(r)) <==> inTime)
  {
    RunOfReads(cfg, recode, chunks);
    VisitsExact(BatchesOf(cfg, recode, chunks), cfg.build.keepBuffered);
  }

  /** Late or not, every trigger that the table of a visited cycle accepts is in exactly one event, or skipped;
      a visit skips one trigger for every crossing that has triggers and data that may be incomplete. */
  lemma TriggersOfReads(cfg: ReaderConfig, recode: Recoding, chunks: seq<seq<Byte>>)
    requires ValidatedRun(cfg, chunks)
    ensures Paired(LogOf(cfg, recode, chunks).done)
    ensures var done := LogOf(cfg, recode, chunks).done; var es := ReadRun(cfg, recode, Start(cfg), [], chunks).events;
      && multiset(Told(es)) + multiset(SkippedOf(cfg.build, done)) == multiset(ArrivedOf(cfg.build, done))
      && forall roc, b :: CountAt(SkippedOf(cfg.build, done), roc, b) == CostlyVisits(cfg.build, done, roc, b)
  {
    RunOfReads(cfg, recode, chunks);
    TriggersToldExactly(cfg.build, BatchesOf(cfg, recode, chunks), cfg.build.keepBuffered, cfg.build.generateFrom - 1);
  }

  /** Every event of `es` is right for the buffered data. The data events are those of these data handled
      at once, no two share cycle and crossing, and every crossing with triggers and complete data has
      one, with all of these triggers. */
  ghost predicate DataRight(cfg: BuildConfig, es: seq<Event>, whole: Buf)
    requires cfg.bxidWidth != 0 && AllPaired(whole.ts)
  {
    && (forall e :: e in es ==> RightForCycle(cfg, whole, e))
    && DataOf(es) == WholeData(cfg, whole) && DataInOrder(es)
    && forall roc, b | Matchable(cfg, whole, roc, b) ::
         HasDataEvent(es, roc, b, TriggersAt(TriggersAtCycle(cfg, whole.ts, roc), b))
  }

  /** With no packet late, the data events of a run of reads are right for the uncut stream. */
  lemma DataOfReads(cfg: ReaderConfig, recode: Recoding, chunks: seq<seq<Byte>>)
    requires ValidatedRun(cfg, chunks)
    requires NoneLate(NOTHING_YET, BatchesOf(cfg, recode, chunks), cfg.build.keepBuffered, true)
    ensures AllPaired(WholeOf(cfg, recode, Concat(chunks)).ts)
    ensures DataRight(cfg.build, ReadRun(cfg, recode, Start(cfg), [], chunks).events, WholeOf(cfg, recode, Concat(chunks)))
  {
    var batches, keep, first := BatchesOf(cfg, recode, chunks), cfg.build.keepBuffered, cfg.build.generateFrom - 1;
    var es, whole := ReadRun(cfg, recode, Start(cfg), [], chunks).events, WholeOf(cfg, recode, Concat(chunks));
    RunOfReads(cfg, recode, chunks);
    DataExactly(cfg.build, batches, keep, first);
    EventsExactly(cfg.build, batches, keep, first);
    forall roc, b | Matchable(cfg.build, whole, roc, b)
      ensures HasDataEvent(es, roc, b, TriggersAt(TriggersAtCycle(cfg.build, whole.ts, roc), b))
    {
      MatchableHasEvent(cfg.build, batches, keep, first, roc, b);
    }
  }

  // ---------- From the packets sent ----------

  /** Packets that stay close arrive in time, however they are cut. */
  lemma SentInTime(cfg: ReaderConfig, sents: seq<Sent>, chunks: seq<seq<Byte>>)
    requires cfg.Valid() && RocReading.AllValid(cfg, sents) && Concat(chunks) == Bytes(cfg, sents)
    requires !Scan(Bytes(cfg, sents)).foreign && Close(SentArrivals(cfg, sents), cfg.build.keepBuffered)
    ensures NoneLate(NOTHING_YET, BatchesOf(cfg, BxidOf, chunks), cfg.build.keepBuffered, true)
  {
    assert [] + Concat(chunks) == Concat(chunks);
    assert Scan([]) == Scanned([], [], false);
    ReadBatchesConcat(cfg, BxidOf, ClockOf(Start(cfg)), [], chunks);
    DistanceSuffices(BatchesOf(cfg, BxidOf, chunks), cfg.build.keepBuffered);
  }

  /** The triggers that the time stamps sent give a cycle. */
  ghost function TriggersSent(cfg: ReaderConfig, sents: seq<Sent>, roc: int): seq<Trig>
    requires cfg.build.bxidWidth != 0 && AllPaired(Run(cfg.ts, Initial(cfg.ts), SentStamps(sents)).data)
  {
    TriggersAtCycle(cfg.build, Run(cfg.ts, Initial(cfg.ts), SentStamps(sents)).data, roc)
  }

  /** The least crossing of the sixteenth cells sent for a cycle. */
  ghost function LimitSent(sents: seq<Sent>, roc: int): Option<int> {
    LimitOf(CrossingsAt(MarksSent(sents), roc))
  }

  /** The events are right for what was sent: each of them for the blocks, triggers and limit of its
      cycle; no two data events share cycle and crossing; and every crossing with triggers, and with
      data within the limit, has a data event. */
  ghost predicate SentRight(cfg: ReaderConfig, es: seq<Event>, sents: seq<Sent>)
    requires cfg.build.bxidWidth != 0 && AllPaired(Run(cfg.ts, Initial(cfg.ts), SentStamps(sents)).data)
  {
    && (forall e :: e in es ==> SentRightFor(cfg, e, sents))
    && DataInOrder(es)
    && (forall roc, b |
          OfCrossing(Filed(Recorded(cfg, sents), roc), b) != [] && Within(LimitSent(sents, roc), b)
          && AtCrossing(TriggersSent(cfg, sents, roc), b) != [] :: HasData(es, roc, b))
  }

  ghost predicate SentRightFor(cfg: ReaderConfig, e: Event, sents: seq<Sent>)
    requires cfg.build.bxidWidth != 0 && AllPaired(Run(cfg.ts, Initial(cfg.ts), SentStamps(sents)).data)
  {
    (e.BxidEvent? || e.EmptyEvent?)
    && EventRight(cfg.build, Filed(Recorded(cfg, sents), e.roc), TriggersSent(cfg, sents, e.roc), LimitSent(sents, e.roc), e.roc, e)
  }

  predicate HasData(es: seq<Event>, roc: int, b: int) {
    exists i :: 0 <= i < |es| && es[i].BxidEvent? && es[i].roc == roc && es[i].bxid == b
  }

  lemma {:induction false} AtCount(ts: seq<Trig>, b: int)
    ensures |AtCrossing(ts, b)| == TriggersAt(ts, b)
  {
    if ts != [] {
      AtCount(ts[1..], b);
    }
  }

  /** What the buffers say of a cycle, in terms of the packets sent. */
  lemma SentCycle(cfg: ReaderConfig, sents: seq<Sent>, roc: int)
    requires RocReading.AllValid(cfg, sents)
    ensures Get(SentWholly(cfg, sents).asic, roc, []) == Filed(Recorded(cfg, sents), roc)
    ensures FullOf(SentWholly(cfg, sents).full, roc) == LimitSent(sents, roc)
  {
    AppendAllMeaning<Block>([], Recorded(cfg, sents), roc);
    assert [] + Filed(Recorded(cfg, sents), roc) == Filed(Recorded(cfg, sents), roc);
    LimitOfNotes(MarksSent(sents), roc);
  }

  lemma SentIsRight(cfg: ReaderConfig, es: seq<Event>, sents: seq<Sent>)
    requires cfg.build.bxidWidth != 0 && RocReading.AllValid(cfg, sents) && AllPaired(SentWholly(cfg, sents).ts)
    requires DataRight(cfg.build, es, SentWholly(cfg, sents))
    ensures SentRight(cfg, es, sents)
  {
    var whole := SentWholly(cfg, sents);
    forall e | e in es ensures SentRightFor(cfg, e, sents) {
      assert RightForCycle(cfg.build, whole, e);
      SentCycle(cfg, sents, e.roc);
    }
    forall roc, b |
      OfCrossing(Filed(Recorded(cfg, sents), roc), b) != [] && Within(LimitSent(sents, roc), b)
      && AtCrossing(TriggersSent(cfg, sents, roc), b) != []
      ensures HasData(es, roc, b)
    {
      SentCycle(cfg, sents, roc);
      AtCount(TriggersSent(cfg, sents, roc), b);
      assert Matchable(cfg.build, whole, roc, b);
      var i :| 0 <= i < |es| && DataEventOf(es[i], roc, b, TriggersAt(TriggersAtCycle(cfg.build, whole.ts, roc), b));
    }
  }

  /** End to end. Front-end packets with recoverable cycle steps, and no packet more than the buffered
      number of cycles behind: however the bytes are cut into reads, the events are right for what was
      sent under the true cycles, and the data events are the same for every cut. */
  lemma EndToEndValidated(cfg: ReaderConfig, sents: seq<Sent>, chunks: seq<seq<Byte>>)
    requires cfg.Valid() && cfg.mode.ValidatedMode?
    requires RocReading.AllValid(cfg, sents) && Concat(chunks) == Bytes(cfg, sents)
    requires StepsRecovered(cfg, -1, sents) && Close(SentArrivals(cfg, sents), cfg.build.keepBuffered)
    ensures AllPaired(SentWholly(cfg, sents).ts)
    ensures SentRight(cfg, ReadRun(cfg, BxidOf, Start(cfg), [], chunks).events, sents)
    ensures DataOf(ReadRun(cfg, BxidOf, Start(cfg), [], chunks).events) == WholeData(cfg.build, SentWholly(cfg, sents))
  {
    WholeIsSent(cfg, sents);
    SentInTime(cfg, sents, chunks);
    DataOfReads(cfg, BxidOf, chunks);
    SentIsRight(cfg, ReadRun(cfg, BxidOf, Start(cfg), [], chunks).events, sents);
  }
}
