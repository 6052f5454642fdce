/**
 End to end in the BUILD_BXID_ALL mode: from bytes, cut in any way into reads, to the events of the
 bunch crossings.
 */
module BxidReading {
  import opened Sequences
  import opened OrderedMap
  import opened GrayCode
  import opened AsicPacket
  import opened LdaStream
  import opened LdaTimestamps
  import opened EventBuilding
  import opened ScReading
  import opened RocReading
  import opened FullCells
  import ValidatedBuilding
  import opened BxidBuilding

  /** Items in time belong to cycles above all that have left. */
  lemma {:induction false} InTimeAbove(seen: seq<Item>, out: seq<Item>, buffer: seq<Item>, batch: seq<Item>, keep: nat, k: int)
    requires Group(seen) == out + buffer && |out| <= Excess(Group(seen), keep)
    requires OnTime(seen, batch, keep) && Has(out, k)
    ensures !Has(batch, k)
    decreases |batch|
  {
    if batch != [] {
      var x, g := batch[0], Group(seen);
      GroupMeaning(seen);
      OrderedParts(out, buffer);
      assert out[|out| - 1].key == g[|out| - 1].key <= g[|g| - keep - 1].key;
      BelowLast(out, x.key);
      assert [x][1..] == [] && OnTime(seen, [x], keep);
      FileBatch(seen, out, buffer, [x], keep);
      InTimeAbove(seen + [x], out, AppendAll(buffer, [x]), batch[1..], keep, k);
      HasTail(batch);
    }
  }

  // ---------- What has been written ----------

  /** Events that hold data, in the order of cycles and crossings. */
  predicate InTagOrder(es: seq<Event>) {
    && (forall i :: 0 <= i < |es| ==> es[i].CrossingEvent? && es[i].blocks != [])
    && (forall i, j :: 0 <= i < j < |es| ==> Before(es[i], es[j]))
  }

  /** The events hold exactly what is due of the cycles that have left. */
  ghost predicate HoldDue(es: seq<Event>, out: seq<Item>, minLast: seq<Entry<int>>) {
    forall roc, bxid :: Contents(es, roc, bxid) == Due(out, minLast, roc, bxid)
  }

  lemma {:induction false} ContentsOfOne(es: seq<Event>, i: nat)
    requires i < |es| && es[i].CrossingEvent? && es[i].blocks != []
    ensures Contents(es, es[i].roc, es[i].bxid) != []
    decreases i
  {
    if i > 0 {
      assert es[1..][i - 1] == es[i];
      ContentsOfOne(es[1..], i - 1);
    }
  }

  /** Nothing is due of other cycles. */
  lemma NothingDue(out: seq<Item>, minLast: seq<Entry<int>>, roc: int, bxid: int)
    requires !Has(out, roc)
    ensures Due(out, minLast, roc, bxid) == []
  {
    GetMissing(out, roc, []);
  }

  lemma EventsFrom(es: seq<Event>, out: seq<Item>, minLast: seq<Entry<int>>)
    requires InTagOrder(es) && HoldDue(es, out, minLast)
    ensures forall i :: 0 <= i < |es| ==> Has(out, es[i].roc)
  {
    forall i | 0 <= i < |es| ensures Has(out, es[i].roc) {
      ContentsOfOne(es, i);
      if !Has(out, es[i].roc) {
        NothingDue(out, minLast, es[i].roc, es[i].bxid);
      }
    }
  }

  lemma {:induction false} GetParts(a: seq<Item>, b: seq<Item>, k: int)
    ensures Get(a + b, k, []) == if Has(a, k) then Get(a, k, []) else Get(b, k, [])
    decreases |a|
  {
    if a == [] {
      assert a + b == b;
    } else {
      assert (a + b)[1..] == a[1..] + b;
      HasTail(a);
      GetParts(a[1..], b, k);
    }
  }

  lemma DueParts(a: seq<Item>, b: seq<Item>, minLast: seq<Entry<int>>, roc: int, bxid: int)
    requires Ordered(a + b)
    ensures Due(a + b, minLast, roc, bxid) == Due(a, minLast, roc, bxid) + Due(b, minLast, roc, bxid)
  {
    GetParts(a, b, roc);
    OrderedParts(a, b);
    if Has(a, roc) {
      NothingDue(b, minLast, roc, bxid);
    } else {
      NothingDue(a, minLast, roc, bxid);
    }
  }

  /** Events of a pass behind those written before. */
  lemma WriteMore(es: seq<Event>, more: seq<Event>, out: seq<Item>, now: seq<Item>, minLast: seq<Entry<int>>)
    requires InTagOrder(es) && HoldDue(es, out, minLast) && InTagOrder(more) && HoldDue(more, now, minLast)
    requires Ordered(out + now)
    ensures InTagOrder(es + more) && HoldDue(es + more, out + now, minLast)
  {
    EventsFrom(es, out, minLast);
    EventsFrom(more, now, minLast);
    OrderedParts(out, now);
    OrderJoined(es, more);
    forall roc, bxid ensures Contents(es + more, roc, bxid) == Due(out + now, minLast, roc, bxid) {
      ContentsConcat(es, more, roc, bxid);
      DueParts(out, now, minLast, roc, bxid);
    }
  }

  lemma OrderJoined(a: seq<Event>, b: seq<Event>)
    requires InTagOrder(a) && InTagOrder(b)
    requires forall i, j :: 0 <= i < |a| && 0 <= j < |b| ==> a[i].roc < b[j].roc
    ensures InTagOrder(a + b)
  {
  }

  // ---------- Runs ----------

  /** What was seen is grouped into what has left and what waits, and what left is in the events. */
  ghost predicate Kept(st: ScState, seen: seq<Item>, out: seq<Item>, keep: nat) {
    && st.Valid() && Group(seen) == out + st.asic && |out| <= Excess(Group(seen), keep)
    && InTagOrder(st.events) && HoldDue(st.events, out, st.minLast)
  }

  lemma BuildKeeps(cfg: ReaderConfig, st: ScState, seen: seq<Item>, out: seq<Item>, keep: nat, dumpAll: bool)
    requires cfg.Valid() && cfg.mode.BxidMode? && Kept(st, seen, out, keep)
    ensures var r := Build(cfg, st, dumpAll); var n := Excess(st.asic, Keep(cfg.build, dumpAll));
      && InTagOrder(r.events) && HoldDue(r.events, out + st.asic[..n], r.minLast) && r.minLast == st.minLast
      && r.asic == st.asic[n..]
  {
    var k := Keep(cfg.build, dumpAll);
    var n := Excess(st.asic, k);
    AllPass(cfg.build, st.asic, st.ts.data, st.minLast, st.last, k);
    GroupMeaning(seen);
    assert out + st.asic == (out + st.asic[..n]) + st.asic[n..];
    OrderedParts(out + st.asic[..n], st.asic[n..]);
    WriteMore(st.events, BuildAll(cfg.build, st.asic, st.ts.data, st.minLast, st.last, k).events, out, st.asic[..n], st.minLast);
  }

  lemma ReadKeeps(cfg: ReaderConfig, recode: Recoding, st: ScState, seen: seq<Item>, out: seq<Item>, buf: seq<Byte>)
    requires cfg.Valid() && cfg.mode.BxidMode? && Kept(st, seen, out, cfg.build.keepBuffered) && !Scan(buf).foreign
    requires GoodFrames(Scan(buf).frames)
    requires OnTime(seen, ItemsOf(cfg, recode, st.cycleNo, Scan(buf).frames), cfg.build.keepBuffered)
    ensures var r := ReadOnce(cfg, recode, st, buf); var fs := Scan(buf).frames; var keep := cfg.build.keepBuffered;
      var items := ItemsOf(cfg, recode, st.cycleNo, fs); var full := AppendAll(st.asic, items);
      && Kept(r, seen + items, out + full[..Excess(full, keep)], keep)
      && r.cycleNo == CycleAfter(cfg, st.cycleNo, fs) && r.minLast == NoteAll(st.minLast, MarksIn(cfg, recode, st.cycleNo, fs))
  {
    var fs, keep := Scan(buf).frames, cfg.build.keepBuffered;
    var items := ItemsOf(cfg, recode, st.cycleNo, fs);
    ApplyAllValid(cfg, recode, st, fs);
    ApplyFiles(cfg, recode, st, fs);
    ApplyNotes(cfg, recode, st, fs);
    FileBatch(seen, out, st.asic, items, keep);
    var st1 := ApplyAll(cfg, recode, st, fs);
    forall k | Has(out, k) ensures Full(st1.minLast, k) == Full(st.minLast, k) {
      InTimeAbove(seen, out, st.asic, items, keep, k);
      NoMarks(cfg, recode, st.cycleNo, fs, k);
      NotesOther(st.minLast, MarksIn(cfg, recode, st.cycleNo, fs), k);
    }
    DueStays(st.events, out, st.minLast, st1.minLast);
    BuildKeeps(cfg, st1, seen + items, out, keep, false);
    BuildValid(cfg, st1, false);
    var n := Excess(st1.asic, keep);
    assert out + st1.asic == (out + st1.asic[..n]) + st1.asic[n..];
  }

  lemma DueStays(es: seq<Event>, out: seq<Item>, before: seq<Entry<int>>, now: seq<Entry<int>>)
    requires HoldDue(es, out, before) && forall k :: Has(out, k) ==> Full(now, k) == Full(before, k)
    ensures HoldDue(es, out, now)
  {
    forall roc, bxid ensures Contents(es, roc, bxid) == Due(out, now, roc, bxid) {
      if !Has(out, roc) {
        NothingDue(out, before, roc, bxid);
        NothingDue(out, now, roc, bxid);
      }
    }
  }

  /** What is seen and noted after all frames, in two parts. */
  lemma PartsOfRun(cfg: ReaderConfig, recode: Recoding, st: ScState, seen: seq<Item>, fs: seq<Frame>, gs: seq<Frame>, keep: nat)
    requires GoodFrames(fs) && GoodFrames(gs)
    ensures GoodFrames(fs + gs)
    ensures var items := ItemsOf(cfg, recode, st.cycleNo, fs); var c := CycleAfter(cfg, st.cycleNo, fs);
      var later := ItemsOf(cfg, recode, c, gs); var all := ItemsOf(cfg, recode, st.cycleNo, fs + gs);
      && (OnTime(seen, all, keep) ==> OnTime(seen, items, keep) && OnTime(seen + items, later, keep))
      && seen + all == (seen + items) + later
      && NoteAll(st.minLast, MarksIn(cfg, recode, st.cycleNo, fs + gs))
         == NoteAll(NoteAll(st.minLast, MarksIn(cfg, recode, st.cycleNo, fs)), MarksIn(cfg, recode, c, gs))
  {
    ItemsSplit(cfg, recode, st.cycleNo, fs, gs);
    MarksSplit(cfg, recode, st.cycleNo, fs, gs);
    NoteAllConcat(st.minLast, MarksIn(cfg, recode, st.cycleNo, fs), MarksIn(cfg, recode, CycleAfter(cfg, st.cycleNo, fs), gs));
    var items, later := ItemsOf(cfg, recode, st.cycleNo, fs), ItemsOf(cfg, recode, CycleAfter(cfg, st.cycleNo, fs), gs);
    OnTimeSplit(seen, items, later, keep);
    assert (seen + items) + later == seen + (items + later);
  }

  /** What a whole run gives. */
  ghost predicate Gives(cfg: ReaderConfig, recode: Recoding, st: ScState, seen: seq<Item>, fs: seq<Frame>, es: seq<Event>)
    requires GoodFrames(fs)
  {
    InTagOrder(es)
    && HoldDue(es, Group(seen + ItemsOf(cfg, recode, st.cycleNo, fs)), NoteAll(st.minLast, MarksIn(cfg, recode, st.cycleNo, fs)))
  }

  lemma DumpGives(cfg: ReaderConfig, recode: Recoding, st: ScState, seen: seq<Item>, out: seq<Item>)
    requires cfg.Valid() && cfg.mode.BxidMode? && Kept(st, seen, out, cfg.build.keepBuffered)
    ensures Gives(cfg, recode, st, seen, [], Build(cfg, st, true).events)
  {
    assert seen + [] == seen && st.asic[..|st.asic|] == st.asic;
    BuildKeeps(cfg, st, seen, out, cfg.build.keepBuffered, true);
  }

  lemma {:induction false} RunKeeps(
      cfg: ReaderConfig, recode: Recoding, st: ScState, seen: seq<Item>, out: seq<Item>, rest: seq<Byte>, chunks: seq<seq<Byte>>)
    requires cfg.Valid() && cfg.mode.BxidMode? && Kept(st, seen, out, cfg.build.keepBuffered)
    requires Scan(rest) == Scanned([], rest, false) && !Scan(rest + Concat(chunks)).foreign
    requires GoodFrames(Scan(rest + Concat(chunks)).frames)
    requires OnTime(seen, ItemsOf(cfg, recode, st.cycleNo, Scan(rest + Concat(chunks)).frames), cfg.build.keepBuffered)
    ensures Gives(cfg, recode, st, seen, Scan(rest + Concat(chunks)).frames, ReadRun(cfg, recode, st, rest, chunks).events)
    decreases |chunks|
  {
    if chunks == [] {
      assert rest + Concat(chunks) == rest;
      DumpGives(cfg, recode, st, seen, out);
    } else {
      var buf, more := rest + chunks[0], Concat(chunks[1..]);
      assert rest + Concat(chunks) == buf + more;
      ScanSplit(buf, more);
      LeftoverNeedsMore(buf);
      ScannedGood(buf);
      var s := Scan(buf);
      ScannedGood(s.rest + more);
      PartsOfRun(cfg, recode, st, seen, s.frames, Scan(s.rest + more).frames, cfg.build.keepBuffered);
      ReadValid(cfg, recode, st, buf);
      ReadKeeps(cfg, recode, st, seen, out, buf);
      var items := ItemsOf(cfg, recode, st.cycleNo, s.frames);
      var full := AppendAll(st.asic, items);
      RunKeeps(cfg, recode, ReadOnce(cfg, recode, st, buf), seen + items, out + full[..Excess(full, cfg.build.keepBuffered)],
               s.rest, chunks[1..]);
    }
  }

  /** The events hold, for each cycle and crossing, exactly the blocks filed for the cycle with that
      crossing, unless the crossing lies behind the limit of the marks of the cycle. */
  ghost predicate HoldFiled(es: seq<Event>, items: seq<Item>, ms: seq<Mark>) {
    forall roc, bxid ::
      var limit := LimitOf(CrossingsAt(ms, roc));
      Contents(es, roc, bxid)
      == if limit.Some? && bxid > limit.value then [] else ValidatedBuilding.OfCrossing(Filed(items, roc), bxid)
  }

  lemma DueIsFiled(es: seq<Event>, items: seq<Item>, ms: seq<Mark>)
    requires HoldDue(es, Group(items), NoteAll([], ms))
    ensures HoldFiled(es, items, ms)
  {
    forall roc, bxid
      ensures var limit := LimitOf(CrossingsAt(ms, roc));
        Contents(es, roc, bxid)
        == if limit.Some? && bxid > limit.value then [] else ValidatedBuilding.OfCrossing(Filed(items, roc), bxid)
    {
      assert Contents(es, roc, bxid) == Due(Group(items), NoteAll([], ms), roc, bxid);
      LimitOfNotes(ms, roc);
      AppendAllMeaning<Block>([], items, roc);
      assert [] + Filed(items, roc) == Filed(items, roc);
    }
  }

  lemma StartKept(cfg: ReaderConfig)
    ensures Kept(Start(cfg), [], [], cfg.build.keepBuffered)
  {
    assert Group<Block>([]) == [] + [];
  }

  /** A run of reads in which no packet is late, however the bytes are cut: the events come in the order
      of cycles and crossings, no two for the same, and hold the blocks of all cycles, each crossing's
      in arrival order, but those behind the least crossing of a sixteenth cell of the cycle. */
  lemma AllRun(cfg: ReaderConfig, recode: Recoding, chunks: seq<seq<Byte>>)
    requires cfg.Valid() && cfg.mode.BxidMode? && !Scan(Concat(chunks)).foreign
    requires GoodFrames(Scan(Concat(chunks)).frames)
    requires OnTime([], ItemsOf(cfg, recode, -1, Scan(Concat(chunks)).frames), cfg.build.keepBuffered)
    ensures var es := ReadRun(cfg, recode, Start(cfg), [], chunks).events; var fs := Scan(Concat(chunks)).frames;
      InTagOrder(es) && HoldFiled(es, ItemsOf(cfg, recode, -1, fs), MarksIn(cfg, recode, -1, fs))
  {
    assert [] + Concat(chunks) == Concat(chunks);
    var fs := Scan(Concat(chunks)).frames;
    var items := ItemsOf(cfg, recode, -1, fs);
    assert [] + items == items;
    StartKept(cfg);
    RunKeeps(cfg, recode, Start(cfg), [], [], [], chunks);
    DueIsFiled(ReadRun(cfg, recode, Start(cfg), [], chunks).events, items, MarksIn(cfg, recode, -1, fs));
  }

  /** From the packets sent: the events hold what was recorded under the true cycles, but what lies
      behind the least crossing of the sixteenth cells sent for the cycle. */
  lemma EndToEndAll(cfg: ReaderConfig, sents: seq<Sent>, chunks: seq<seq<Byte>>)
    requires cfg.Valid() && cfg.mode.BxidMode?
    requires RocReading.AllValid(cfg, sents) && Concat(chunks) == Bytes(cfg, sents)
    requires StepsRecovered(cfg, -1, sents) && OnTime([], Recorded(cfg, sents), cfg.build.keepBuffered)
    ensures var es := ReadRun(cfg, BxidOf, Start(cfg), [], chunks).events;
      InTagOrder(es) && HoldFiled(es, Recorded(cfg, sents), MarksSent(sents))
  {
    SentWhole(cfg, sents);
    ScanPackets(Packets(cfg, sents));
    ScannedGood(Bytes(cfg, sents));
    FramesCarryRecorded(cfg, -1, sents);
    FramesMark(cfg, -1, sents);
    AllRun(cfg, BxidOf, chunks);
  }
}
