/**
 The data events of validated building over a whole run: each holds all data of its cycle and
 crossing, and they do not depend on how the arrivals are cut into reads.
 */
module ValidatedContents {
  import opened Sequences
  import opened OrderedMap
  import opened AsicPacket
  import opened LdaTimestamps
  import opened EventBuilding
  import opened ValidatedBuilding
  import opened ScReading
  import opened ValidatedVisits
  import opened ValidatedRuns
  import opened ValidatedEvents

  // ---------- What a visit holds ----------

  function TimesOf(ts: seq<Entry<TimeData>>, roc: int): Option<TimeData> {
    if Has(ts, roc) then Some(Get(ts, roc, NO_TIME_DATA)) else None
  }

  /** The visit holds all that the tables have for its cycle. */
  predicate HoldsAll(v: Visit, asic: seq<Item>, ts: seq<Entry<TimeData>>) {
    v.blocks == Get(asic, v.roc, []) && v.time == TimesOf(ts, v.roc)
  }

  predicate AllHold(vs: seq<Visit>, asic: seq<Item>, ts: seq<Entry<TimeData>>) {
    forall i :: 0 <= i < |vs| ==> HoldsAll(vs[i], asic, ts)
  }

  lemma WiderData(vs: seq<Visit>, asic: seq<Item>, ts: seq<Entry<TimeData>>)
    requires asic != [] && AllHold(vs, asic[1..], ts) && Above(vs, asic[0].key)
    ensures AllHold(vs, asic, ts)
  {
  }

  lemma WiderTimes(vs: seq<Visit>, asic: seq<Item>, ts: seq<Entry<TimeData>>)
    requires ts != [] && AllHold(vs, asic, ts[1..]) && Above(vs, ts[0].key)
    ensures AllHold(vs, asic, ts)
  {
    HasTail(ts);
    forall i | 0 <= i < |vs| ensures HoldsAll(vs[i], asic, ts) {
      assert HoldsAll(vs[i], asic, ts[1..]);
    }
  }

  lemma HoldConcat(a: seq<Visit>, b: seq<Visit>, asic: seq<Item>, ts: seq<Entry<TimeData>>)
    requires AllHold(a, asic, ts) && AllHold(b, asic, ts)
    ensures AllHold(a + b, asic, ts)
  {
  }

  lemma FrontMissing<T>(m: seq<Entry<T>>, k: int, default: T)
    requires Ordered(m) && (m != [] ==> k < m[0].key)
    ensures !Has(m, k) && Get(m, k, default) == default
  {
    NotBelow(m, k);
    GetMissing(m, k, default);
  }

  lemma FrontPresent<T>(m: seq<Entry<T>>, default: T)
    requires m != []
    ensures Has(m, m[0].key) && Get(m, m[0].key, default) == m[0].value
  {
  }

  /** Visits due hold all that the tables have for their cycles. */
  lemma {:induction false} JoinHolds(asic: seq<Item>, ts: seq<Entry<TimeData>>)
    requires Ordered(asic) && Ordered(ts)
    ensures AllHold(Join(asic, ts), asic, ts)
    decreases |asic| + |ts|
  {
    if asic == [] && ts == [] {
    } else if ts == [] || (asic != [] && asic[0].key < ts[0].key) {
      TailSorted(asic);
      var vs := Join(asic[1..], ts);
      JoinHolds(asic[1..], ts);
      JoinRises(asic[1..], ts, asic[0].key);
      WiderData(vs, asic, ts);
      FrontMissing(ts, asic[0].key, NO_TIME_DATA);
      HoldConcat(Thrown(asic[0]), vs, asic, ts);
    } else if asic != [] && asic[0].key == ts[0].key {
      TailSorted(asic);
      TailSorted(ts);
      var vs := Join(asic[1..], ts[1..]);
      JoinHolds(asic[1..], ts[1..]);
      JoinRises(asic[1..], ts[1..], ts[0].key);
      WiderData(vs, asic, ts[1..]);
      WiderTimes(vs, asic, ts);
      FrontPresent(ts, NO_TIME_DATA);
      HoldConcat([Visit(ts[0].key, asic[0].value, Some(ts[0].value))], vs, asic, ts);
    } else {
      TailSorted(ts);
      var vs := Join(asic, ts[1..]);
      JoinHolds(asic, ts[1..]);
      JoinRises(asic, ts[1..], ts[0].key);
      WiderTimes(vs, asic, ts);
      FrontPresent(ts, NO_TIME_DATA);
      FrontMissing(asic, ts[0].key, []);
      HoldConcat([Visit(ts[0].key, [], Some(ts[0].value))], vs, asic, ts);
    }
  }

  lemma HasFront(v: Visit, vs: seq<Visit>, roc: int)
    ensures HasVisit([v] + vs, roc) <==> v.roc == roc || HasVisit(vs, roc)
  {
    var all := [v] + vs;
    assert all[0] == v;
    if HasVisit(vs, roc) {
      var i :| 0 <= i < |vs| && vs[i].roc == roc;
      assert all[i + 1] == vs[i];
    }
    if HasVisit(all, roc) && v.roc != roc {
      var i :| 0 <= i < |all| && all[i].roc == roc;
      assert vs[i - 1] == all[i];
    }
  }

  /** Every cycle with times is due for a visit. */
  lemma {:induction false} TimesAreDue(asic: seq<Item>, ts: seq<Entry<TimeData>>, roc: int)
    requires Has(ts, roc)
    ensures HasVisit(Join(asic, ts), roc)
    decreases |asic| + |ts|
  {
    HasTail(ts);
    if asic != [] && asic[0].key < ts[0].key {
      TimesAreDue(asic[1..], ts, roc);
      var vs := Join(asic[1..], ts);
      if asic[0].value == [] {
        assert [] + vs == vs;
      } else {
        HasFront(Visit(asic[0].key, asic[0].value, None), vs, roc);
      }
    } else {
      var same := asic != [] && asic[0].key == ts[0].key;
      var more := if same then asic[1..] else asic;
      if roc != ts[0].key {
        TimesAreDue(more, ts[1..], roc);
      }
      HasFront(Visit(ts[0].key, if same then asic[0].value else [], Some(ts[0].value)), Join(more, ts[1..]), roc);
    }
  }

  // ---------- Data of rising visits ----------

  lemma CycleData(cfg: BuildConfig, d: Done, last: int, table: seq<Item>)
    requires cfg.bxidWidth != 0 && Paired([d]) && d.visit.blocks == Get(table, d.visit.roc, [])
    ensures var es := EventsFor(cfg, d.visit.roc, OutcomesOf(cfg, d), last).events;
      && DataComplete(es, table) && DataInOrder(es)
      && forall i :: 0 <= i < |es| && es[i].BxidEvent? ==> es[i].roc == d.visit.roc
  {
    var roc, data, os := d.visit.roc, d.visit.blocks, OutcomesOf(cfg, d);
    match d.visit.time
    case None =>
    case Some(t) =>
      assert [d][0] == d;
      CycleMatching(cfg, data, t, d.full);
      var b := DataBxids(os);
      var first := if b == [] then 0 else b[0];
      EventsForCycle(cfg, roc, os, last, data, first);
      CycleEventsMeaning(EventsFor(cfg, roc, os, last).events, roc, data, first, table);
  }

  predicate BlocksAs(vs: seq<Visit>, table: seq<Item>) {
    forall i :: 0 <= i < |vs| ==> vs[i].blocks == Get(table, vs[i].roc, [])
  }

  lemma VisitsTail(done: seq<Done>, table: seq<Item>, low: int)
    requires done != [] && Paired(done)
    requires Rises(Visits(done)) && Above(Visits(done), low) && BlocksAs(Visits(done), table)
    ensures var d, more := done[0], done[1..];
      && Paired([d]) && Paired(more) && d.visit.blocks == Get(table, d.visit.roc, []) && d.visit.roc > low
      && Rises(Visits(more)) && Above(Visits(more), d.visit.roc) && BlocksAs(Visits(more), table)
  {
    var vs, more := Visits(done), Visits(done[1..]);
    assert vs[0] == done[0].visit && vs[1..] == more;
    forall i | 0 <= i < |more| ensures more[i].roc > vs[0].roc && more[i].blocks == Get(table, more[i].roc, []) {
      assert more[i] == vs[i + 1];
    }
    forall i, j | 0 <= i < j < |more| ensures more[i].roc < more[j].roc {
      assert more[i] == vs[i + 1] && more[j] == vs[j + 1];
    }
  }

  /** Rising visits that hold the blocks of a table: the data events hold exactly the blocks of the
      table for their cycle and crossing, and come in the order of cycles and crossings. */
  lemma {:induction false} RunData(cfg: BuildConfig, done: seq<Done>, last: int, table: seq<Item>, low: int)
    requires cfg.bxidWidth != 0 && Paired(done)
    requires Rises(Visits(done)) && Above(Visits(done), low) && BlocksAs(Visits(done), table)
    ensures var es := EventsOf(cfg, done, last).events;
      DataComplete(es, table) && DataInOrder(es) && CyclesAtLeast(es, low + 1)
    decreases |done|
  {
    if done != [] {
      var d := done[0];
      VisitsTail(done, table, low);
      var v := EventsFor(cfg, d.visit.roc, OutcomesOf(cfg, d), last);
      CycleData(cfg, d, last, table);
      RunData(cfg, done[1..], v.last, table, d.visit.roc);
      JoinPasses(v.events, EventsOf(cfg, done[1..], v.last).events, table, d.visit.roc);
    }
  }

  lemma RunDataInOrder(cfg: BuildConfig, done: seq<Done>, last: int, table: seq<Item>)
    requires cfg.bxidWidth != 0 && Paired(done) && Rises(Visits(done)) && BlocksAs(Visits(done), table)
    ensures var es := EventsOf(cfg, done, last).events; DataComplete(es, table) && DataInOrder(es)
  {
    var vs := Visits(done);
    var low := if vs == [] then 0 else vs[0].roc - 1;
    RunData(cfg, done, last, table, low);
  }

  /** Part of what is due. */
  lemma FrontOfDue(buf: Buf, vs: seq<Visit>)
    requires Sorted(buf) && vs <= Due(buf)
    ensures Rises(vs) && BlocksAs(vs, buf.asic)
  {
    JoinRising(buf);
    JoinHolds(buf.asic, buf.ts);
    forall i | 0 <= i < |vs| ensures vs[i].blocks == Get(buf.asic, vs[i].roc, []) {
      assert vs[i] == Due(buf)[i] && HoldsAll(Due(buf)[i], buf.asic, buf.ts);
    }
    forall i, j | 0 <= i < j < |vs| ensures vs[i].roc < vs[j].roc {
      assert vs[i] == Due(buf)[i] && vs[j] == Due(buf)[j];
    }
  }

  /** What one pass of validated building gives for the buffers it starts from: every data event holds
      exactly the buffered blocks of its cycle and crossing, and no two share both. */
  lemma ValidatedPass(cfg: BuildConfig, asic: seq<Item>, ts: seq<Entry<TimeData>>, minLast: seq<Entry<int>>, last: int, keep: nat)
    requires cfg.bxidWidth != 0 && AllPaired(ts) && Ordered(ts) && Ordered(asic)
    ensures var es := ValidatedBuilding.Build(cfg, asic, ts, minLast, last, keep).events;
      DataComplete(es, asic) && DataInOrder(es)
  {
    var vs := TakenOf(asic, ts, keep).visits;
    BuildIsTaken(cfg, asic, ts, minLast, last, keep);
    TakenJoin(asic, ts, keep);
    FrontOfDue(Buf(asic, ts, minLast), vs);
    VisitsWithFull(vs, minLast);
    RunDataInOrder(cfg, WithFull(vs, minLast), last, asic);
  }

  // ---------- Data events, whatever the cut ----------

  function DataOf(es: seq<Event>): seq<Event> {
    if es == [] then [] else (if es[0].BxidEvent? then [es[0]] else []) + DataOf(es[1..])
  }

  lemma DataOfFront(e: Event, es: seq<Event>)
    ensures DataOf([e] + es) == (if e.BxidEvent? then [e] else []) + DataOf(es)
  {
    assert ([e] + es)[1..] == es;
  }

  lemma {:induction false} DataOfConcat(a: seq<Event>, b: seq<Event>)
    ensures DataOf(a + b) == DataOf(a) + DataOf(b)
    decreases |a|
  {
    if a == [] {
      assert a + b == b;
    } else {
      var e, more := a[0], a[1..];
      assert a == [e] + more;
      Regroup([e], more, b);
      DataOfFront(e, more);
      DataOfFront(e, more + b);
      DataOfConcat(more, b);
      Regroup(if e.BxidEvent? then [e] else [], DataOf(more), DataOf(b));
    }
  }

  /** The data events of one cycle. */
  function JoinedEvents(cfg: BuildConfig, roc: int, os: seq<Fate>): seq<Event> {
    if os == [] then []
    else (if os[0].Joined? then EventOf(cfg, roc, os[0]) else []) + JoinedEvents(cfg, roc, os[1..])
  }

  lemma {:induction false} DataOfCycle(cfg: BuildConfig, roc: int, os: seq<Fate>, last: int)
    ensures DataOf(EventsFor(cfg, roc, os, last).events) == JoinedEvents(cfg, roc, os)
    decreases |os|
  {
    if os != [] {
      var o, more := os[0], os[1..];
      assert [o] + more == os;
      var next := if o.Empty? then last + 1 else last;
      DataOfCycle(cfg, roc, more, next);
      EventsForStep(cfg, roc, o, more, last);
      DataOfConcat(EventOf(cfg, roc, o), EventsFor(cfg, roc, more, next).events);
      DataOfOne(cfg, roc, o);
    }
  }

  lemma DataOfOne(cfg: BuildConfig, roc: int, o: Fate)
    ensures DataOf(EventOf(cfg, roc, o)) == if o.Joined? then EventOf(cfg, roc, o) else []
  {
    var es := EventOf(cfg, roc, o);
    assert DataOf([]) == [];
    if es != [] {
      assert es[1..] == [] && [es[0]] + [] == es;
    }
  }

  /** The data events of visits. */
  function DataEvents(cfg: BuildConfig, done: seq<Done>): seq<Event>
    requires cfg.bxidWidth != 0 && Paired(done)
  {
    if done == [] then []
    else
      assert Paired([done[0]]);
      JoinedEvents(cfg, done[0].visit.roc, OutcomesOf(cfg, done[0])) + DataEvents(cfg, done[1..])
  }

  lemma {:induction false} DataOfRun(cfg: BuildConfig, done: seq<Done>, last: int)
    requires cfg.bxidWidth != 0 && Paired(done)
    ensures DataOf(EventsOf(cfg, done, last).events) == DataEvents(cfg, done)
    decreases |done|
  {
    if done != [] {
      var d := done[0];
      assert Paired([d]);
      var v := EventsFor(cfg, d.visit.roc, OutcomesOf(cfg, d), last);
      DataOfCycle(cfg, d.visit.roc, OutcomesOf(cfg, d), last);
      DataOfRun(cfg, done[1..], v.last);
      DataOfConcat(v.events, EventsOf(cfg, done[1..], v.last).events);
    }
  }

  lemma {:induction false} DataEventsConcat(cfg: BuildConfig, a: seq<Done>, b: seq<Done>)
    requires cfg.bxidWidth != 0 && Paired(a) && Paired(b)
    ensures Paired(a + b) && DataEvents(cfg, a + b) == DataEvents(cfg, a) + DataEvents(cfg, b)
    decreases |a|
  {
    if a == [] {
      assert a + b == b;
    } else {
      assert (a + b)[1..] == a[1..] + b;
      DataEventsConcat(cfg, a[1..], b);
    }
  }

  predicate NoBlocks(vs: seq<Visit>) {
    forall i :: 0 <= i < |vs| ==> vs[i].blocks == []
  }

  lemma {:induction false} NothingJoined(cfg: BuildConfig, roc: int, os: seq<Fate>)
    requires JoinedFrom(os, [])
    ensures JoinedEvents(cfg, roc, os) == []
  {
    if os != [] {
      assert !os[0].Joined?;
      NothingJoined(cfg, roc, os[1..]);
    }
  }

  lemma NoDataAt(cfg: BuildConfig, d: Done)
    requires cfg.bxidWidth != 0 && Paired([d]) && d.visit.blocks == []
    ensures JoinedEvents(cfg, d.visit.roc, OutcomesOf(cfg, d)) == []
  {
    match d.visit.time
    case None =>
    case Some(t) =>
      assert [d][0] == d;
      CycleMatching(cfg, [], t, d.full);
      NothingJoined(cfg, d.visit.roc, OutcomesOf(cfg, d));
  }

  predicate AllEmpty(done: seq<Done>) {
    forall i :: 0 <= i < |done| ==> done[i].visit.blocks == []
  }

  lemma {:induction false} EmptyVisits(vs: seq<Visit>, full: seq<Entry<int>>)
    requires NoBlocks(vs)
    ensures AllEmpty(WithFull(vs, full))
    decreases |vs|
  {
    if vs != [] {
      EmptyVisits(vs[1..], full);
    }
  }

  lemma {:induction false} NoDataEvents(cfg: BuildConfig, done: seq<Done>)
    requires cfg.bxidWidth != 0 && Paired(done) && AllEmpty(done)
    ensures DataEvents(cfg, done) == []
    decreases |done|
  {
    if done != [] {
      assert Paired([done[0]]);
      NoDataAt(cfg, done[0]);
      NoDataEvents(cfg, done[1..]);
    }
  }

  // ---------- Full crossings ----------

  lemma {:induction false} WithFullConcat(a: seq<Visit>, b: seq<Visit>, full: seq<Entry<int>>)
    ensures WithFull(a + b, full) == WithFull(a, full) + WithFull(b, full)
  {
    if a == [] {
      assert a + b == b;
    } else {
      assert (a + b)[1..] == a[1..] + b;
      WithFullConcat(a[1..], b, full);
    }
  }

  /** A full crossing noted for a later cycle changes nothing for the visited ones. */
  lemma {:induction false} FullLater(vs: seq<Visit>, full: seq<Entry<int>>, roc: int, bxid: int)
    requires !Behind(vs, roc)
    ensures WithFull(vs, LowerFull(full, roc, bxid)) == WithFull(vs, full)
  {
    if vs != [] {
      var before := Get(full, roc, 0);
      var now := if before != 0 && before <= bxid then before else bxid;
      assert vs[0].roc < roc;
      GetPut(full, roc, now, vs[0].roc, 0);
      PutMeaning(full, roc, now);
      forall i | 0 <= i < |vs[1..]| ensures roc > vs[1..][i].roc {
        assert vs[1..][i] == vs[i + 1];
      }
      FullLater(vs[1..], full, roc, bxid);
    }
  }

  lemma {:induction false} FullsKept(vs: seq<Visit>, buf: Buf, arrs: seq<Arr>)
    requires InTime(vs, arrs, true)
    ensures WithFull(vs, FileAll(buf, arrs).full) == WithFull(vs, buf.full)
    decreases |arrs|
  {
    if arrs != [] {
      var a := arrs[0];
      assert !Late(vs, a, true);
      if a.Blocks? && a.full.Some? {
        FullLater(vs, buf.full, a.roc, a.full.value);
      }
      FullsKept(vs, File(buf, a), arrs[1..]);
    }
  }

  lemma {:induction false} FullAlone(buf: Buf, buf': Buf, arrs: seq<Arr>)
    requires buf.full == buf'.full
    ensures FileAll(buf, arrs).full == FileAll(buf', arrs).full
    decreases |arrs|
  {
    if arrs != [] {
      FullAlone(File(buf, arrs[0]), File(buf', arrs[0]), arrs[1..]);
    }
  }

  /** With all arrivals in time, every visit sees the full crossings as they are at the end. */
  lemma {:induction false} RunFull(log: Log, whole: Buf, batches: seq<seq<Arr>>, keep: nat)
    requires log.done == WithFull(Visits(log.done), log.buf.full) && log.buf.full == whole.full
    requires NoneLate(log, batches, keep, true)
    ensures var r := RunVisits(log, batches, keep);
      r.done == WithFull(Visits(r.done), FileAll(whole, Concat(batches)).full)
    decreases |batches|
  {
    if batches == [] {
      TakeFull(log, 0);
    } else {
      var next := AfterBatch(log, batches[0]);
      FullsKept(Visits(log.done), log.buf, batches[0]);
      FullAlone(log.buf, whole, batches[0]);
      TakeFull(next, keep);
      RunFull(Handle(next, keep), FileAll(whole, batches[0]), batches[1..], keep);
      FileAllConcat(whole, batches[0], Concat(batches[1..]));
    }
  }

  lemma TakeFull(log: Log, keep: nat)
    requires log.done == WithFull(Visits(log.done), log.buf.full)
    ensures var r := Handle(log, keep); r.done == WithFull(Visits(r.done), r.buf.full) && r.buf.full == log.buf.full
  {
    var t := TakenOf(log.buf.asic, log.buf.ts, keep);
    VisitsConcat(log.done, WithFull(t.visits, log.buf.full));
    VisitsWithFull(t.visits, log.buf.full);
    WithFullConcat(Visits(log.done), t.visits, log.buf.full);
  }

  // ---------- The whole run ----------

  /** A data event for the crossing, with `n` of its triggers. */
  predicate HasDataEvent(es: seq<Event>, roc: int, b: int, n: nat) {
    exists i :: 0 <= i < |es| && DataEventOf(es[i], roc, b, n)
  }

  predicate DataEventOf(e: Event, roc: int, b: int, n: nat) {
    e.BxidEvent? && e.roc == roc && e.bxid == b && TriggersAt(e.triggers, b) == n
  }

  lemma InConcat(a: seq<Event>, b: seq<Event>, roc: int, x: int, n: nat)
    requires HasDataEvent(a, roc, x, n) || HasDataEvent(b, roc, x, n)
    ensures HasDataEvent(a + b, roc, x, n)
  {
    if HasDataEvent(a, roc, x, n) {
      var i :| 0 <= i < |a| && DataEventOf(a[i], roc, x, n);
      assert (a + b)[i] == a[i];
    } else {
      var i :| 0 <= i < |b| && DataEventOf(b[i], roc, x, n);
      assert (a + b)[|a| + i] == b[i];
    }
  }

  lemma {:induction false} JoinedHasEvent(cfg: BuildConfig, roc: int, os: seq<Fate>, last: int, b: int, n: nat)
    requires JoinsAt(os, b, n)
    ensures HasDataEvent(EventsFor(cfg, roc, os, last).events, roc, b, n)
    decreases |os|
  {
    var o, more := os[0], os[1..];
    assert [o] + more == os;
    var next := if o.Empty? then last + 1 else last;
    EventsForStep(cfg, roc, o, more, last);
    var i :| 0 <= i < |os| && JoinOf(os[i], b, n);
    if i == 0 {
      assert DataEventOf(EventOf(cfg, roc, o)[0], roc, b, n);
    } else {
      assert more[i - 1] == os[i];
      JoinedHasEvent(cfg, roc, more, next, b, n);
    }
    InConcat(EventOf(cfg, roc, o), EventsFor(cfg, roc, more, next).events, roc, b, n);
  }

  /** A visit whose crossing has complete data and triggers gives a data event with all of them. */
  lemma {:induction false} VisitHasEvent(cfg: BuildConfig, done: seq<Done>, last: int, i: nat, b: int)
    requires cfg.bxidWidth != 0 && Paired(done) && i < |done| && Paired([done[i]])
    requires Joinable(done[i].visit.blocks, ArrivedAt(cfg, done[i]), done[i].full, b)
    ensures HasDataEvent(EventsOf(cfg, done, last).events, done[i].visit.roc, b, TriggersAt(ArrivedAt(cfg, done[i]), b))
    decreases i
  {
    var d, roc, n := done[0], done[i].visit.roc, TriggersAt(ArrivedAt(cfg, done[i]), b);
    assert Paired([d]);
    var v := EventsFor(cfg, d.visit.roc, OutcomesOf(cfg, d), last);
    if i == 0 {
      assert [d][0] == d;
      CycleMatching(cfg, d.visit.blocks, d.visit.time.value, d.full);
      JoinedHasEvent(cfg, roc, OutcomesOf(cfg, d), last, b, n);
    } else {
      assert done[1..][i - 1] == done[i];
      VisitHasEvent(cfg, done[1..], v.last, i - 1, b);
    }
    InConcat(v.events, EventsOf(cfg, done[1..], v.last).events, roc, b, n);
  }

  lemma {:induction false} OnRequest(log: Log, batches: seq<seq<Arr>>, keep: nat)
    requires NoneLate(log, batches, keep, true)
    ensures NoneLate(log, batches, keep, false)
    decreases |batches|
  {
    if batches != [] {
      OnRequest(Handle(AfterBatch(log, batches[0]), keep), batches[1..], keep);
      forall i | 0 <= i < |batches[0]| ensures !Late(Visits(log.done), batches[0][i], false) {
        assert !Late(Visits(log.done), batches[0][i], true);
      }
    }
  }

  lemma {:induction false} TimesOnly(ts: seq<Entry<TimeData>>)
    ensures NoBlocks(Join([], ts))
    decreases |ts|
  {
    if ts != [] {
      TimesOnly(ts[1..]);
    }
  }

  /** The visits made, and those left without data, are those of everything that arrived; every visit
      saw the full crossings as they are at the end. */
  ghost predicate Finished(r: Log, whole: Buf) {
    && Sorted(whole) && AllPaired(whole.ts) && Paired(r.done)
    && Visits(r.done) + Due(r.buf) == Due(whole) && NoBlocks(Due(r.buf))
    && r.done == WithFull(Visits(r.done), whole.full)
  }

  /** All that has happened so far is complete. */
  ghost predicate Underway(log: Log, whole: Buf) {
    && Sorted(log.buf) && Sorted(whole) && AllPaired(log.buf.ts) && AllPaired(whole.ts) && Paired(log.done)
    && AllVisits(log) == Due(whole) && log.buf.full == whole.full && log.done == WithFull(Visits(log.done), whole.full)
  }

  lemma RunCompletes(log: Log, whole: Buf, batches: seq<seq<Arr>>, keep: nat)
    requires Underway(log, whole) && NoneLate(log, batches, keep, true)
    ensures Finished(RunVisits(log, batches, keep), FileAll(whole, Concat(batches)))
  {
    var r, arrs := RunVisits(log, batches, keep), Concat(batches);
    OnRequest(log, batches, keep);
    InTimeRun(log, whole, batches, keep);
    RunEmpties(log, batches, keep);
    TimesOnly(r.buf.ts);
    FileAllSorted(whole, arrs);
    FiledPaired(whole, arrs);
    RunPaired(log, batches, keep);
    RunFull(log, whole, batches, keep);
  }

  lemma NothingUnderway()
    ensures Underway(NOTHING_YET, NO_DATA)
  {
    assert Visits([]) + Due(NO_DATA) == Due(NO_DATA);
  }

  /** The triggers that the time data have for a cycle. */
  function TriggersAtCycle(cfg: BuildConfig, ts: seq<Entry<TimeData>>, roc: int): seq<Trig>
    requires cfg.bxidWidth != 0 && AllPaired(ts)
  {
    GetPaired(ts, roc);
    Arrived(cfg, Get(ts, roc, NO_TIME_DATA), 0)
  }

  /** The data events for everything that arrived, handled at once. */
  function WholeData(cfg: BuildConfig, whole: Buf): seq<Event>
    requires cfg.bxidWidth != 0 && AllPaired(whole.ts)
  {
    JoinPaired(whole.asic, whole.ts);
    WithFullPaired(Due(whole), whole.full);
    DataEvents(cfg, WithFull(Due(whole), whole.full))
  }

  lemma LeftHasNoData(cfg: BuildConfig, made: seq<Visit>, left: seq<Visit>, whole: Buf)
    requires cfg.bxidWidth != 0 && AllPaired(whole.ts) && made + left == Due(whole) && NoBlocks(left)
    ensures Paired(WithFull(made, whole.full)) && DataEvents(cfg, WithFull(made, whole.full)) == WholeData(cfg, whole)
  {
    JoinPaired(whole.asic, whole.ts);
    assert PairedVisits(made) && PairedVisits(left) by {
      forall i | 0 <= i < |made| && made[i].time.Some? ensures |made[i].time.value.ids| == |made[i].time.value.times| {
        assert made[i] == Due(whole)[i];
      }
      forall i | 0 <= i < |left| && left[i].time.Some? ensures |left[i].time.value.ids| == |left[i].time.value.times| {
        assert left[i] == Due(whole)[|made| + i];
      }
    }
    WithFullPaired(made, whole.full);
    WithFullConcat(made, left, whole.full);
    WithFullPaired(left, whole.full);
    EmptyVisits(left, whole.full);
    NoDataEvents(cfg, WithFull(left, whole.full));
    DataEventsConcat(cfg, WithFull(made, whole.full), WithFull(left, whole.full));
    assert DataEvents(cfg, WithFull(made, whole.full)) + [] == DataEvents(cfg, WithFull(made, whole.full));
  }

  lemma DataOfComplete(cfg: BuildConfig, r: Log, whole: Buf, last: int)
    requires cfg.bxidWidth != 0 && Finished(r, whole)
    ensures var es := EventsOf(cfg, r.done, last).events;
      DataOf(es) == WholeData(cfg, whole) && DataComplete(es, whole.asic) && DataInOrder(es)
  {
    DataOfRun(cfg, r.done, last);
    LeftHasNoData(cfg, Visits(r.done), Due(r.buf), whole);
    FrontOfDue(whole, Visits(r.done));
    RunDataInOrder(cfg, r.done, last, whole.asic);
  }

  /** With all arrivals in time, the data events are those of everything that arrived, handled at
      once. Each holds exactly the blocks that arrived for its cycle and crossing, and no two share
      both. */
  lemma DataExactly(cfg: BuildConfig, batches: seq<seq<Arr>>, keep: nat, last: int)
    requires cfg.bxidWidth != 0 && NoneLate(NOTHING_YET, batches, keep, true)
    ensures var done := RunVisits(NOTHING_YET, batches, keep).done; var whole := FileAll(NO_DATA, Concat(batches));
      && Paired(done) && AllPaired(whole.ts)
      && DataOf(EventsOf(cfg, done, last).events) == WholeData(cfg, whole)
      && DataComplete(EventsOf(cfg, done, last).events, whole.asic) && DataInOrder(EventsOf(cfg, done, last).events)
  {
    NothingUnderway();
    RunCompletes(NOTHING_YET, NO_DATA, batches, keep);
    DataOfComplete(cfg, RunVisits(NOTHING_YET, batches, keep), FileAll(NO_DATA, Concat(batches)), last);
  }

  /** The event is right for everything that arrived for its cycle. */
  ghost predicate RightForCycle(cfg: BuildConfig, whole: Buf, e: Event)
    requires cfg.bxidWidth != 0 && AllPaired(whole.ts)
  {
    (e.BxidEvent? || e.EmptyEvent?)
    && EventRight(cfg, Get(whole.asic, e.roc, []), TriggersAtCycle(cfg, whole.ts, e.roc), FullOf(whole.full, e.roc), e.roc, e)
  }

  lemma VisitIsWhole(cfg: BuildConfig, d: Done, whole: Buf, e: Event)
    requires cfg.bxidWidth != 0 && AllPaired(whole.ts) && Paired([d]) && RightForVisit(cfg, d, e)
    requires HoldsAll(d.visit, whole.asic, whole.ts) && d.full == FullOf(whole.full, d.visit.roc)
    ensures RightForCycle(cfg, whole, e)
  {
    var roc := d.visit.roc;
    if d.visit.time.None? {
      GetMissing(whole.ts, roc, NO_TIME_DATA);
    }
    assert ArrivedAt(cfg, d) == TriggersAtCycle(cfg, whole.ts, roc);
  }

  lemma AllRightOf(cfg: BuildConfig, r: Log, whole: Buf, last: int)
    requires cfg.bxidWidth != 0 && Finished(r, whole)
    ensures forall e :: e in EventsOf(cfg, r.done, last).events ==> RightForCycle(cfg, whole, e)
  {
    EventsRight(cfg, r.done, last);
    JoinHolds(whole.asic, whole.ts);
    forall e | e in EventsOf(cfg, r.done, last).events ensures RightForCycle(cfg, whole, e) {
      var i :| 0 <= i < |r.done| && Paired([r.done[i]]) && RightForVisit(cfg, r.done[i], e);
      MadeWith(r.done, whole.full, i);
      assert Due(whole)[i] == Visits(r.done)[i];
      assert HoldsAll(Due(whole)[i], whole.asic, whole.ts);
      VisitIsWhole(cfg, r.done[i], whole, e);
    }
  }

  /** With all arrivals in time, every event is right for everything that arrived for its cycle. */
  lemma EventsExactly(cfg: BuildConfig, batches: seq<seq<Arr>>, keep: nat, last: int)
    requires cfg.bxidWidth != 0 && NoneLate(NOTHING_YET, batches, keep, true)
    ensures var done := RunVisits(NOTHING_YET, batches, keep).done; var whole := FileAll(NO_DATA, Concat(batches));
      && Paired(done) && AllPaired(whole.ts)
      && forall e :: e in EventsOf(cfg, done, last).events ==> RightForCycle(cfg, whole, e)
  {
    NothingUnderway();
    RunCompletes(NOTHING_YET, NO_DATA, batches, keep);
    AllRightOf(cfg, RunVisits(NOTHING_YET, batches, keep), FileAll(NO_DATA, Concat(batches)), last);
  }

  /** Crossing `b` of cycle `roc` has triggers and complete data. */
  predicate Matchable(cfg: BuildConfig, whole: Buf, roc: int, b: int)
    requires cfg.bxidWidth != 0 && AllPaired(whole.ts)
  {
    Joinable(Get(whole.asic, roc, []), TriggersAtCycle(cfg, whole.ts, roc), FullOf(whole.full, roc), b)
  }

  lemma EventOfComplete(cfg: BuildConfig, r: Log, whole: Buf, last: int, roc: int, b: int)
    requires cfg.bxidWidth != 0 && Finished(r, whole) && Matchable(cfg, whole, roc, b)
    ensures HasDataEvent(EventsOf(cfg, r.done, last).events, roc, b, TriggersAt(TriggersAtCycle(cfg, whole.ts, roc), b))
  {
    if !Has(whole.ts, roc) {
      GetMissing(whole.ts, roc, NO_TIME_DATA);
    }
    TimesAreDue(whole.asic, whole.ts, roc);
    JoinHolds(whole.asic, whole.ts);
    var i :| 0 <= i < |Due(whole)| && Due(whole)[i].roc == roc;
    var v := Due(whole)[i];
    assert HoldsAll(v, whole.asic, whole.ts);
    DueMade(Visits(r.done), Due(r.buf), i);
    MadeWith(r.done, whole.full, i);
    var d := r.done[i];
    assert d == Done(v, FullOf(whole.full, roc)) && [d][0] == d && Paired([d]);
    VisitHasEvent(cfg, r.done, last, i, b);
  }

  /** And every crossing with triggers whose data are complete has its data event, with all of these
      triggers. */
  lemma MatchableHasEvent(cfg: BuildConfig, batches: seq<seq<Arr>>, keep: nat, last: int, roc: int, b: int)
    requires cfg.bxidWidth != 0 && NoneLate(NOTHING_YET, batches, keep, true)
    ensures var done := RunVisits(NOTHING_YET, batches, keep).done; var whole := FileAll(NO_DATA, Concat(batches));
      && Paired(done) && AllPaired(whole.ts)
      && (Matchable(cfg, whole, roc, b) ==>
            HasDataEvent(EventsOf(cfg, done, last).events, roc, b, TriggersAt(TriggersAtCycle(cfg, whole.ts, roc), b)))
  {
    var whole := FileAll(NO_DATA, Concat(batches));
    NothingUnderway();
    RunCompletes(NOTHING_YET, NO_DATA, batches, keep);
    if Matchable(cfg, whole, roc, b) {
      EventOfComplete(cfg, RunVisits(NOTHING_YET, batches, keep), whole, last, roc, b);
    }
  }

  lemma DueMade(made: seq<Visit>, left: seq<Visit>, i: nat)
    requires NoBlocks(left) && i < |made + left| && (made + left)[i].blocks != []
    ensures i < |made| && made[i] == (made + left)[i]
  {
    forall j | |made| <= j < |made + left| ensures (made + left)[j].blocks == [] {
      assert (made + left)[j] == left[j - |made|];
    }
  }

  lemma {:induction false} MadeWith(done: seq<Done>, full: seq<Entry<int>>, i: nat)
    requires done == WithFull(Visits(done), full) && i < |done|
    ensures done[i] == Done(Visits(done)[i], FullOf(full, Visits(done)[i].roc))
  {
    WithFullAt(Visits(done), full, i);
  }

  lemma {:induction false} WithFullAt(vs: seq<Visit>, full: seq<Entry<int>>, i: nat)
    requires i < |vs|
    ensures WithFull(vs, full)[i] == Done(vs[i], FullOf(full, vs[i].roc))
    decreases i
  {
    if i > 0 {
      WithFullAt(vs[1..], full, i - 1);
    }
  }
}
