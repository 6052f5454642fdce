/**
 What the events of validated building hold, over all visits of a run: their data, and every trigger.
 */
module ValidatedEvents {
  import opened Sequences
  import opened OrderedMap
  import opened AsicPacket
  import opened LdaTimestamps
  import opened EventBuilding
  import opened ValidatedBuilding
  import opened ScReading
  import opened ValidatedVisits
  import opened ValidatedRuns

  predicate Paired(done: seq<Done>) {
    forall i :: 0 <= i < |done| && done[i].visit.time.Some? ==>
      |done[i].visit.time.value.ids| == |done[i].visit.time.value.times|
  }

  // ---------- Events of visits ----------

  /** What becomes of the triggers of a visited cycle; a cycle without times has none. */
  function OutcomesOf(cfg: BuildConfig, d: Done): seq<Fate>
    requires cfg.bxidWidth != 0 && Paired([d])
  {
    match d.visit.time
    case None => []
    case Some(t) =>
      assert [d][0] == d;
      CycleOutcomes(cfg, d.visit.blocks, t, d.full)
  }

  function ArrivedAt(cfg: BuildConfig, d: Done): seq<Trig>
    requires cfg.bxidWidth != 0 && Paired([d])
  {
    match d.visit.time
    case None => []
    case Some(t) =>
      assert [d][0] == d;
      Arrived(cfg, t, 0)
  }

  function EventsOf(cfg: BuildConfig, done: seq<Done>, last: int): Validated
    requires cfg.bxidWidth != 0 && Paired(done)
  {
    if done == [] then Validated([], last)
    else
      assert Paired([done[0]]);
      var v := EventsFor(cfg, done[0].visit.roc, OutcomesOf(cfg, done[0]), last);
      var r := EventsOf(cfg, done[1..], v.last);
      r.(events := v.events + r.events)
  }

  lemma {:induction false} EventsOfConcat(cfg: BuildConfig, a: seq<Done>, b: seq<Done>, last: int)
    requires cfg.bxidWidth != 0 && Paired(a) && Paired(b)
    ensures Paired(a + b)
    ensures var v := EventsOf(cfg, a, last); var w := EventsOf(cfg, b, v.last);
      EventsOf(cfg, a + b, last) == Validated(v.events + w.events, w.last)
    decreases |a|
  {
    if a == [] {
      assert a + b == b;
      assert [] + EventsOf(cfg, b, last).events == EventsOf(cfg, b, last).events;
    } else {
      assert (a + b)[1..] == a[1..] + b;
      var v := EventsFor(cfg, a[0].visit.roc, OutcomesOf(cfg, a[0]), last);
      EventsOfConcat(cfg, a[1..], b, v.last);
      var r := EventsOf(cfg, a[1..], v.last);
      Regroup(v.events, r.events, EventsOf(cfg, b, r.last).events);
    }
  }

  lemma {:induction false} WithFullPaired(vs: seq<Visit>, full: seq<Entry<int>>)
    requires PairedVisits(vs)
    ensures Paired(WithFull(vs, full))
  {
    if vs != [] {
      WithFullPaired(vs[1..], full);
      var r := WithFull(vs, full);
      assert r[1..] == WithFull(vs[1..], full);
      forall i | 0 <= i < |r| && r[i].visit.time.Some? ensures |r[i].visit.time.value.ids| == |r[i].visit.time.value.times| {
        assert i > 0 ==> r[i] == r[1..][i - 1];
      }
    }
  }

  predicate PairedVisits(vs: seq<Visit>) {
    forall i :: 0 <= i < |vs| && vs[i].time.Some? ==> |vs[i].time.value.ids| == |vs[i].time.value.times|
  }

  lemma {:induction false} JoinPaired(asic: seq<Item>, ts: seq<Entry<TimeData>>)
    requires AllPaired(ts)
    ensures PairedVisits(Join(asic, ts))
    decreases |asic| + |ts|
  {
    if asic == [] && ts == [] {
    } else if ts == [] || (asic != [] && asic[0].key < ts[0].key) {
      JoinPaired(asic[1..], ts);
    } else if asic != [] && asic[0].key == ts[0].key {
      JoinPaired(asic[1..], ts[1..]);
    } else {
      JoinPaired(asic, ts[1..]);
    }
  }

  lemma {:induction false} TakenPaired(asic: seq<Item>, ts: seq<Entry<TimeData>>, keep: nat)
    requires AllPaired(ts)
    ensures var t := TakenOf(asic, ts, keep); PairedVisits(t.visits) && AllPaired(t.ts)
    decreases |asic| + |ts|
  {
    if |asic| > keep {
      if ts == [] || asic[0].key < ts[0].key {
        TakenPaired(asic[1..], ts, keep);
      } else {
        TakenPaired(if asic[0].key == ts[0].key then [Entry(ts[0].key, [])] + asic[1..] else asic, ts[1..], keep);
      }
    }
  }

  /** A building pass gives the events of its visits. */
  lemma {:induction false} BuildIsTaken(cfg: BuildConfig, asic: seq<Item>, ts: seq<Entry<TimeData>>, full: seq<Entry<int>>,
                                        last: int, keep: nat)
    requires cfg.bxidWidth != 0 && AllPaired(ts)
    ensures Paired(WithFull(TakenOf(asic, ts, keep).visits, full))
    ensures var t := TakenOf(asic, ts, keep); var v := EventsOf(cfg, WithFull(t.visits, full), last);
      ValidatedBuilding.Build(cfg, asic, ts, full, last, keep) == Built(v.events, t.asic, t.ts, v.last)
    decreases |asic| + |ts|
  {
    var t := TakenOf(asic, ts, keep);
    TakenPaired(asic, ts, keep);
    WithFullPaired(t.visits, full);
    if |asic| > keep {
      if ts == [] || asic[0].key < ts[0].key {
        BuildIsTaken(cfg, asic[1..], ts, full, last, keep);
        ThrownEvents(cfg, asic[0], TakenOf(asic[1..], ts, keep).visits, full, last);
      } else {
        var same := asic[0].key == ts[0].key;
        var left := if same then [Entry(ts[0].key, [])] + asic[1..] else asic;
        var d := Done(Visit(ts[0].key, if same then asic[0].value else [], Some(ts[0].value)), FullOf(full, ts[0].key));
        assert Paired([d]);
        var v := EventsFor(cfg, ts[0].key, OutcomesOf(cfg, d), last);
        BuildIsTaken(cfg, left, ts[1..], full, v.last, keep);
        var more := TakenOf(left, ts[1..], keep).visits;
        assert t.visits[1..] == more;
        assert WithFull(t.visits, full)[1..] == WithFull(more, full);
      }
    }
  }

  lemma ThrownEvents(cfg: BuildConfig, e: Item, vs: seq<Visit>, full: seq<Entry<int>>, last: int)
    requires cfg.bxidWidth != 0 && Paired(WithFull(vs, full)) && Paired(WithFull(Thrown(e) + vs, full))
    ensures EventsOf(cfg, WithFull(Thrown(e) + vs, full), last) == EventsOf(cfg, WithFull(vs, full), last)
  {
    if e.value == [] {
      assert Thrown(e) + vs == vs;
    } else {
      var all := Thrown(e) + vs;
      assert all[1..] == vs && WithFull(all, full)[1..] == WithFull(vs, full);
      assert [] + EventsOf(cfg, WithFull(vs, full), last).events == EventsOf(cfg, WithFull(vs, full), last).events;
    }
  }

  lemma EffectPaired(buf: Buf, a: Arr)
    requires AllPaired(buf.ts)
    ensures AllPaired(File(buf, a).ts)
  {
    match a
    case Blocks(_, _, _) =>
    case TimeInfo(roc, e) =>
      GetPaired(buf.ts, roc);
      PutPaired(buf.ts, roc, ApplyEffect(Get(buf.ts, roc, NO_TIME_DATA), e));
  }

  lemma {:induction false} FiledPaired(buf: Buf, arrs: seq<Arr>)
    requires AllPaired(buf.ts)
    ensures AllPaired(FileAll(buf, arrs).ts)
    decreases |arrs|
  {
    if arrs != [] {
      EffectPaired(buf, arrs[0]);
      FiledPaired(File(buf, arrs[0]), arrs[1..]);
    }
  }

  lemma PairedConcat(a: seq<Done>, b: seq<Done>)
    requires Paired(a) && Paired(b)
    ensures Paired(a + b)
  {
  }

  lemma TakePaired(log: Log, keep: nat)
    requires Paired(log.done) && AllPaired(log.buf.ts)
    ensures var r := Handle(log, keep); Paired(r.done) && AllPaired(r.buf.ts)
  {
    var t := TakenOf(log.buf.asic, log.buf.ts, keep);
    TakenPaired(log.buf.asic, log.buf.ts, keep);
    WithFullPaired(t.visits, log.buf.full);
    PairedConcat(log.done, WithFull(t.visits, log.buf.full));
  }

  lemma {:induction false} RunPaired(log: Log, batches: seq<seq<Arr>>, keep: nat)
    requires Paired(log.done) && AllPaired(log.buf.ts)
    ensures Paired(RunVisits(log, batches, keep).done)
    decreases |batches|
  {
    if batches == [] {
      TakePaired(log, 0);
    } else {
      FiledPaired(log.buf, batches[0]);
      TakePaired(AfterBatch(log, batches[0]), keep);
      RunPaired(Handle(AfterBatch(log, batches[0]), keep), batches[1..], keep);
    }
  }

  // ---------- Every trigger is told of once ----------

  /** A trigger with its readout cycle. */
  datatype CycleTrig = CycleTrig(roc: int, trig: Trig)

  function Tag(roc: int, ts: seq<Trig>): (r: seq<CycleTrig>)
    ensures |r| == |ts|
  {
    if ts == [] then [] else [CycleTrig(roc, ts[0])] + Tag(roc, ts[1..])
  }

  lemma {:induction false} TagConcat(roc: int, a: seq<Trig>, b: seq<Trig>)
    ensures Tag(roc, a + b) == Tag(roc, a) + Tag(roc, b)
  {
    if a == [] {
      assert a + b == b;
    } else {
      assert (a + b)[1..] == a[1..] + b;
      TagConcat(roc, a[1..], b);
    }
  }

  lemma TagOneOut(roc: int, front: seq<Trig>, x: Trig, rest: seq<Trig>)
    ensures multiset(Tag(roc, front + ([x] + rest))) == multiset(Tag(roc, front + rest)) + multiset{CycleTrig(roc, x)}
  {
    TagConcat(roc, front, [x] + rest);
    TagConcat(roc, front, rest);
    assert ([x] + rest)[1..] == rest;
  }

  lemma {:induction false} TagMultiset(roc: int, a: seq<Trig>, b: seq<Trig>)
    requires multiset(a) == multiset(b)
    ensures multiset(Tag(roc, a)) == multiset(Tag(roc, b))
    decreases |a|, 0
  {
    if a == [] {
      assert |multiset(b)| == 0;
    } else {
      assert a[0] in multiset(b);
      var i :| 0 <= i < |b| && b[i] == a[0];
      assert a == [a[0]] + a[1..] && b == b[..i] + ([a[0]] + b[i + 1..]);
      TagWithout(roc, a[0], a[1..], b[..i], b[i + 1..]);
    }
  }

  lemma {:induction false} TagWithout(roc: int, x: Trig, a: seq<Trig>, front: seq<Trig>, rest: seq<Trig>)
    requires multiset([x] + a) == multiset(front + ([x] + rest))
    ensures multiset(Tag(roc, [x] + a)) == multiset(Tag(roc, front + ([x] + rest)))
    decreases |a|, 1
  {
    assert multiset(a) == multiset([x] + a) - multiset{x};
    assert multiset(front + rest) == multiset(front + ([x] + rest)) - multiset{x};
    TagMultiset(roc, a, front + rest);
    TagOneOut(roc, front, x, rest);
    TagOneOut(roc, [], x, a);
    assert [] + ([x] + a) == [x] + a && [] + a == a;
  }

  /** The triggers that an event tells of. */
  function TriggersIn(e: Event): seq<CycleTrig> {
    match e
    case BxidEvent(_, roc, _, ts, _) => Tag(roc, ts)
    case EmptyEvent(_, roc, t) => [CycleTrig(roc, t)]
    case _ => []
  }

  function Told(es: seq<Event>): seq<CycleTrig> {
    if es == [] then [] else TriggersIn(es[0]) + Told(es[1..])
  }

  lemma {:induction false} ToldConcat(a: seq<Event>, b: seq<Event>)
    ensures Told(a + b) == Told(a) + Told(b)
  {
    if a == [] {
      assert a + b == b;
    } else {
      assert (a + b)[1..] == a[1..] + b;
      ToldConcat(a[1..], b);
    }
  }

  function SkippedIn(os: seq<Fate>): seq<Trig> {
    if os == [] then [] else (if os[0].Skipped? then [os[0].trigger] else []) + SkippedIn(os[1..])
  }

  lemma {:induction false} SkippedCount(os: seq<Fate>, b: int)
    ensures TriggersAt(SkippedIn(os), b) == SkippedAt(os, b)
  {
    if os != [] {
      SkippedCount(os[1..], b);
      var r := SkippedIn(os[1..]);
      if os[0].Skipped? {
        assert ([os[0].trigger] + r)[1..] == r;
      } else {
        assert [] + r == r;
      }
    }
  }

  lemma TagFront(roc: int, o: Fate, os: seq<Fate>)
    ensures Tag(roc, AllTriggers([o] + os)) == Tag(roc, TriggersOf(o)) + Tag(roc, AllTriggers(os))
    ensures Tag(roc, SkippedIn([o] + os)) == Tag(roc, if o.Skipped? then [o.trigger] else []) + Tag(roc, SkippedIn(os))
  {
    assert ([o] + os)[1..] == os;
    TagConcat(roc, TriggersOf(o), AllTriggers(os));
    TagConcat(roc, if o.Skipped? then [o.trigger] else [], SkippedIn(os));
  }

  /** The event of an outcome, if it has one. */
  function EventOf(cfg: BuildConfig, roc: int, o: Fate): seq<Event> {
    match o
    case Skipped(_) => []
    case Empty(t) => [EmptyEvent(t.id, roc, t)]
    case Joined(ts, blocks) =>
      if ts == [] then [] else [BxidEvent(ts[0].id + cfg.trigidOffset, roc, ts[0].bxid, ts, blocks)]
  }

  lemma EventsForStep(cfg: BuildConfig, roc: int, o: Fate, os: seq<Fate>, last: int)
    ensures EventsFor(cfg, roc, [o] + os, last).events
         == EventOf(cfg, roc, o) + EventsFor(cfg, roc, os, if o.Empty? then last + 1 else last).events
  {
    assert ([o] + os)[1..] == os;
  }

  lemma FateTold(cfg: BuildConfig, roc: int, o: Fate)
    ensures multiset(Told(EventOf(cfg, roc, o))) + multiset(Tag(roc, if o.Skipped? then [o.trigger] else []))
         == multiset(Tag(roc, TriggersOf(o)))
  {
    var es := EventOf(cfg, roc, o);
    assert Told([]) == [] && Tag(roc, []) == [];
    if es != [] {
      assert es[1..] == [] && TriggersIn(es[0]) + [] == TriggersIn(es[0]);
      if o.Empty? {
        assert Tag(roc, [o.trigger]) == [CycleTrig(roc, o.trigger)];
      }
    }
  }

  /** The events of one cycle tell of all triggers but the skipped ones. */
  ghost predicate TellsAll(roc: int, os: seq<Fate>, es: seq<Event>) {
    multiset(Told(es)) + multiset(Tag(roc, SkippedIn(os))) == multiset(Tag(roc, AllTriggers(os)))
  }

  lemma TellsMore(cfg: BuildConfig, roc: int, o: Fate, os: seq<Fate>, es: seq<Event>)
    requires TellsAll(roc, os, es)
    ensures TellsAll(roc, [o] + os, EventOf(cfg, roc, o) + es)
  {
    TagFront(roc, o, os);
    FateTold(cfg, roc, o);
    ToldConcat(EventOf(cfg, roc, o), es);
  }

  lemma {:induction false} CycleTold(cfg: BuildConfig, roc: int, os: seq<Fate>, last: int)
    ensures TellsAll(roc, os, EventsFor(cfg, roc, os, last).events)
    decreases |os|
  {
    if os != [] {
      var o, more := os[0], os[1..];
      assert [o] + more == os;
      var next := if o.Empty? then last + 1 else last;
      CycleTold(cfg, roc, more, next);
      EventsForStep(cfg, roc, o, more, last);
      TellsMore(cfg, roc, o, more, EventsFor(cfg, roc, more, next).events);
    }
  }

  /** Triggers of the visited cycles that no event tells of. */
  function SkippedOf(cfg: BuildConfig, done: seq<Done>): seq<CycleTrig>
    requires cfg.bxidWidth != 0 && Paired(done)
  {
    if done == [] then []
    else
      assert Paired([done[0]]);
      Tag(done[0].visit.roc, SkippedIn(OutcomesOf(cfg, done[0]))) + SkippedOf(cfg, done[1..])
  }

  /** Triggers of the visited cycles that their tables accept: cycles with a start time, crossings up
      to 65535. */
  function ArrivedOf(cfg: BuildConfig, done: seq<Done>): seq<CycleTrig>
    requires cfg.bxidWidth != 0 && Paired(done)
  {
    if done == [] then []
    else
      assert Paired([done[0]]);
      Tag(done[0].visit.roc, ArrivedAt(cfg, done[0])) + ArrivedOf(cfg, done[1..])
  }

  lemma OutcomesAccount(cfg: BuildConfig, d: Done)
    requires cfg.bxidWidth != 0 && Paired([d])
    ensures multiset(AllTriggers(OutcomesOf(cfg, d))) == multiset(ArrivedAt(cfg, d))
    ensures forall b :: SkippedAt(OutcomesOf(cfg, d), b) == if Costly(d.visit.blocks, ArrivedAt(cfg, d), d.full, b) then 1 else 0
  {
    match d.visit.time
    case None =>
    case Some(t) =>
      assert [d][0] == d;
      CycleMatching(cfg, d.visit.blocks, t, d.full);
  }

  /** The events of a run and the skipped triggers together are the triggers of the visited cycles,
      each once. */
  lemma {:induction false} RunTold(cfg: BuildConfig, done: seq<Done>, last: int)
    requires cfg.bxidWidth != 0 && Paired(done)
    ensures multiset(Told(EventsOf(cfg, done, last).events)) + multiset(SkippedOf(cfg, done)) == multiset(ArrivedOf(cfg, done))
    decreases |done|
  {
    if done != [] {
      var d := done[0];
      assert Paired([d]);
      var roc, os := d.visit.roc, OutcomesOf(cfg, d);
      var v := EventsFor(cfg, roc, os, last);
      OutcomesAccount(cfg, d);
      TagMultiset(roc, AllTriggers(os), ArrivedAt(cfg, d));
      CycleTold(cfg, roc, os, last);
      RunTold(cfg, done[1..], v.last);
      ToldConcat(v.events, EventsOf(cfg, done[1..], v.last).events);
    }
  }

  /** Triggers of crossing `b` of cycle `roc`. */
  function CountAt(xs: seq<CycleTrig>, roc: int, b: int): nat {
    if xs == [] then 0 else (if xs[0].roc == roc && xs[0].trig.bxid == b then 1 else 0) + CountAt(xs[1..], roc, b)
  }

  lemma {:induction false} CountConcat(x: seq<CycleTrig>, y: seq<CycleTrig>, roc: int, b: int)
    ensures CountAt(x + y, roc, b) == CountAt(x, roc, b) + CountAt(y, roc, b)
  {
    if x == [] {
      assert x + y == y;
    } else {
      assert (x + y)[1..] == x[1..] + y;
      CountConcat(x[1..], y, roc, b);
    }
  }

  lemma {:induction false} CountTag(roc': int, ts: seq<Trig>, roc: int, b: int)
    ensures CountAt(Tag(roc', ts), roc, b) == if roc' == roc then TriggersAt(ts, b) else 0
  {
    if ts != [] {
      CountTag(roc', ts[1..], roc, b);
      assert Tag(roc', ts)[1..] == Tag(roc', ts[1..]);
    }
  }

  /** Visits of the cycle at which the crossing has a trigger, and data that may be incomplete. */
  function CostlyVisits(cfg: BuildConfig, done: seq<Done>, roc: int, b: int): nat
    requires cfg.bxidWidth != 0 && Paired(done)
  {
    if done == [] then 0
    else
      var d := done[0];
      assert Paired([d]);
      (if d.visit.roc == roc && Costly(d.visit.blocks, ArrivedAt(cfg, d), d.full, b) then 1 else 0)
      + CostlyVisits(cfg, done[1..], roc, b)
  }

  lemma {:induction false} SkippedExactly(cfg: BuildConfig, done: seq<Done>, roc: int, b: int)
    requires cfg.bxidWidth != 0 && Paired(done)
    ensures CountAt(SkippedOf(cfg, done), roc, b) == CostlyVisits(cfg, done, roc, b)
    decreases |done|
  {
    if done != [] {
      var d := done[0];
      assert Paired([d]);
      var skipped := SkippedIn(OutcomesOf(cfg, d));
      OutcomesAccount(cfg, d);
      SkippedCount(OutcomesOf(cfg, d), b);
      CountTag(d.visit.roc, skipped, roc, b);
      CountConcat(Tag(d.visit.roc, skipped), SkippedOf(cfg, done[1..]), roc, b);
      SkippedExactly(cfg, done[1..], roc, b);
    }
  }

  /** Over a whole run every trigger that the table of a visited cycle accepts is in one event, or
      skipped; a visit skips one trigger for every crossing that has a trigger and data that may be
      incomplete, and no other. */
  lemma TriggersToldExactly(cfg: BuildConfig, batches: seq<seq<Arr>>, keep: nat, last: int)
    requires cfg.bxidWidth != 0
    ensures Paired(RunVisits(NOTHING_YET, batches, keep).done)
    ensures var done := RunVisits(NOTHING_YET, batches, keep).done;
      && multiset(Told(EventsOf(cfg, done, last).events)) + multiset(SkippedOf(cfg, done)) == multiset(ArrivedOf(cfg, done))
      && forall roc, b :: CountAt(SkippedOf(cfg, done), roc, b) == CostlyVisits(cfg, done, roc, b)
  {
    RunPaired(NOTHING_YET, batches, keep);
    var done := RunVisits(NOTHING_YET, batches, keep).done;
    RunTold(cfg, done, last);
    forall roc, b ensures CountAt(SkippedOf(cfg, done), roc, b) == CostlyVisits(cfg, done, roc, b) {
      SkippedExactly(cfg, done, roc, b);
    }
  }

  // ---------- Every event is right ----------

  predicate Within(limit: Option<int>, bxid: int) {
    limit.Some? ==> bxid <= limit.value
  }

  /** What an outcome says of its crossing, in terms of the cycle's blocks, its triggers as they arrived,
      and the limit behind which data may be incomplete. */
  ghost predicate FateRight(o: Fate, data: seq<Block>, arrived: seq<Trig>, limit: Option<int>) {
    match o
    case Joined(ts, blocks) =>
      && ts != [] && ts == AtCrossing(arrived, ts[0].bxid)
      && blocks == OfCrossing(data, ts[0].bxid) != [] && Within(limit, ts[0].bxid)
    case Empty(t) => t in arrived && (OfCrossing(data, t.bxid) == [] || !Within(limit, t.bxid))
    case Skipped(t) => t in arrived && OfCrossing(data, t.bxid) != [] && !Within(limit, t.bxid)
  }

  /** A data event has all triggers of its crossing as they arrived, the number of the first of them, and
      all blocks of its crossing, which is within the limit. An empty event has the number of its
      trigger, and no data, or data beyond the limit. */
  ghost predicate EventRight(cfg: BuildConfig, data: seq<Block>, arrived: seq<Trig>, limit: Option<int>, roc: int, e: Event) {
    match e
    case BxidEvent(n, r, b, ts, blocks) =>
      && r == roc && ts == AtCrossing(arrived, b) && ts != [] && n == ts[0].id + cfg.trigidOffset
      && blocks == OfCrossing(data, b) != [] && Within(limit, b)
    case EmptyEvent(n, r, t) =>
      r == roc && n == t.id && t in arrived && (OfCrossing(data, t.bxid) == [] || !Within(limit, t.bxid))
    case _ => false
  }

  lemma {:induction false} AtCrossingOf(ts: seq<Trig>, b: int)
    ensures forall t :: t in AtCrossing(ts, b) ==> t.bxid == b && t in ts
  {
    if ts != [] {
      AtCrossingOf(ts[1..], b);
      assert ts == [ts[0]] + ts[1..];
    }
  }

  lemma FatesRight(cfg: BuildConfig, data: seq<Block>, t: TimeData, full: Option<int>)
    requires cfg.bxidWidth != 0 && |t.ids| == |t.times|
    ensures var os := CycleOutcomes(cfg, data, t, full);
      forall i :: 0 <= i < |os| ==> FateRight(os[i], data, Arrived(cfg, t, 0), full)
  {
    var groups, arrived := Group(ByCrossing(data)), Arrived(cfg, t, 0);
    var ts := InsertAll([], arrived);
    var os := Matches(groups, full, ts);
    InsertAllMeaning([], arrived);
    TriggersAccounted(groups, full, ts);
    MatchesSound(groups, full, ts);
    MatchesWhole(groups, full, ts);
    forall i | 0 <= i < |os| ensures FateRight(os[i], data, arrived, full) {
      OutcomeTriggers(os, i);
      OneFateRight(os[i], data, full, ts, arrived);
    }
  }

  lemma {:induction false} OutcomeTriggers(os: seq<Fate>, i: nat)
    requires i < |os|
    ensures forall t :: t in TriggersOf(os[i]) ==> t in AllTriggers(os)
  {
    if i > 0 {
      OutcomeTriggers(os[1..], i - 1);
    }
  }

  lemma OneFateRight(o: Fate, data: seq<Block>, full: Option<int>, ts: seq<Trig>, arrived: seq<Trig>)
    requires Sound(Group(ByCrossing(data)), full, o) && JoinsWhole(o, ts) && ts == InsertAll([], arrived)
    requires multiset(ts) == multiset(arrived) && forall t :: t in TriggersOf(o) ==> t in ts
    ensures FateRight(o, data, arrived, full)
  {
    var b := match o
      case Joined(run, _) => run[0].bxid
      case Empty(t) => t.bxid
      case Skipped(t) => t.bxid;
    TableAt(data, b);
    AtInsertAll([], arrived, b);
    assert [] + AtCrossing(arrived, b) == AtCrossing(arrived, b);
    forall t | t in ts ensures t in arrived {
      assert t in multiset(ts);
    }
    if o.Joined? {
      AtCrossingOf(ts, b);
    } else if o.Empty? {
      assert o.trigger in TriggersOf(o);
    } else {
      assert o.trigger in TriggersOf(o);
    }
  }

  lemma EventOfRight(cfg: BuildConfig, data: seq<Block>, arrived: seq<Trig>, limit: Option<int>, roc: int, o: Fate)
    requires FateRight(o, data, arrived, limit)
    ensures forall i :: 0 <= i < |EventOf(cfg, roc, o)| ==> EventRight(cfg, data, arrived, limit, roc, EventOf(cfg, roc, o)[i])
  {
  }

  lemma {:induction false} CycleRight(
      cfg: BuildConfig, data: seq<Block>, arrived: seq<Trig>, limit: Option<int>, roc: int, os: seq<Fate>, last: int)
    requires forall i :: 0 <= i < |os| ==> FateRight(os[i], data, arrived, limit)
    ensures var es := EventsFor(cfg, roc, os, last).events;
      forall i :: 0 <= i < |es| ==> EventRight(cfg, data, arrived, limit, roc, es[i])
    decreases |os|
  {
    if os != [] {
      var o, more := os[0], os[1..];
      assert [o] + more == os;
      var next := if o.Empty? then last + 1 else last;
      EventsForStep(cfg, roc, o, more, last);
      EventOfRight(cfg, data, arrived, limit, roc, o);
      CycleRight(cfg, data, arrived, limit, roc, more, next);
      var head, rest := EventOf(cfg, roc, o), EventsFor(cfg, roc, more, next).events;
      forall i | 0 <= i < |head + rest| ensures EventRight(cfg, data, arrived, limit, roc, (head + rest)[i]) {
        if i >= |head| {
          assert (head + rest)[i] == rest[i - |head|];
        }
      }
    }
  }

  /** The event is right for a visit. */
  ghost predicate RightForVisit(cfg: BuildConfig, d: Done, e: Event)
    requires cfg.bxidWidth != 0 && Paired([d])
  {
    EventRight(cfg, d.visit.blocks, ArrivedAt(cfg, d), d.full, d.visit.roc, e)
  }

  /** The event is right for one of the visits. */
  ghost predicate RightForOne(cfg: BuildConfig, done: seq<Done>, e: Event)
    requires cfg.bxidWidth != 0
  {
    exists i :: 0 <= i < |done| && Paired([done[i]]) && RightForVisit(cfg, done[i], e)
  }

  /** In any run, late packets or not, every event is right for a visit. */
  lemma {:induction false} EventsRight(cfg: BuildConfig, done: seq<Done>, last: int)
    requires cfg.bxidWidth != 0 && Paired(done)
    ensures forall e :: e in EventsOf(cfg, done, last).events ==> RightForOne(cfg, done, e)
    decreases |done|
  {
    if done != [] {
      var d := done[0];
      assert Paired([d]);
      VisitRight(cfg, d, last);
      var v := EventsFor(cfg, d.visit.roc, OutcomesOf(cfg, d), last);
      EventsRight(cfg, done[1..], v.last);
      var rest := EventsOf(cfg, done[1..], v.last).events;
      forall e | e in v.events + rest ensures RightForOne(cfg, done, e) {
        if e in v.events {
          assert RightForVisit(cfg, done[0], e);
        } else {
          var i :| 0 <= i < |done[1..]| && Paired([done[1..][i]]) && RightForVisit(cfg, done[1..][i], e);
          assert done[i + 1] == done[1..][i];
        }
      }
    }
  }

  lemma VisitRight(cfg: BuildConfig, d: Done, last: int)
    requires cfg.bxidWidth != 0 && Paired([d])
    ensures forall e :: e in EventsFor(cfg, d.visit.roc, OutcomesOf(cfg, d), last).events ==> RightForVisit(cfg, d, e)
  {
    assert [d][0] == d;
    if d.visit.time.Some? {
      FatesRight(cfg, d.visit.blocks, d.visit.time.value, d.full);
    }
    CycleRight(cfg, d.visit.blocks, ArrivedAt(cfg, d), d.full, d.visit.roc, OutcomesOf(cfg, d), last);
  }

  // ---------- The event counter ----------

  function EmptyEvents(es: seq<Event>): nat {
    if es == [] then 0 else (if es[0].EmptyEvent? then 1 else 0) + EmptyEvents(es[1..])
  }

  lemma {:induction false} EmptyConcat(a: seq<Event>, b: seq<Event>)
    ensures EmptyEvents(a + b) == EmptyEvents(a) + EmptyEvents(b)
  {
    if a == [] {
      assert a + b == b;
    } else {
      assert (a + b)[1..] == a[1..] + b;
      EmptyConcat(a[1..], b);
    }
  }

  lemma {:induction false} CycleCounts(cfg: BuildConfig, roc: int, os: seq<Fate>, last: int)
    ensures var v := EventsFor(cfg, roc, os, last); v.last == last + EmptyEvents(v.events)
    decreases |os|
  {
    if os != [] {
      var o, more := os[0], os[1..];
      assert [o] + more == os;
      var next := if o.Empty? then last + 1 else last;
      EventsForStep(cfg, roc, o, more, last);
      CycleCounts(cfg, roc, more, next);
      EmptyConcat(EventOf(cfg, roc, o), EventsFor(cfg, roc, more, next).events);
      assert EventOf(cfg, roc, o) != [] ==> EventOf(cfg, roc, o)[1..] == [];
    }
  }

  /** The counter of built events counts the empty ones only. */
  lemma {:induction false} RunCounts(cfg: BuildConfig, done: seq<Done>, last: int)
    requires cfg.bxidWidth != 0 && Paired(done)
    ensures var v := EventsOf(cfg, done, last); v.last == last + EmptyEvents(v.events)
    decreases |done|
  {
    if done != [] {
      assert Paired([done[0]]);
      var v := EventsFor(cfg, done[0].visit.roc, OutcomesOf(cfg, done[0]), last);
      CycleCounts(cfg, done[0].visit.roc, OutcomesOf(cfg, done[0]), last);
      RunCounts(cfg, done[1..], v.last);
      EmptyConcat(v.events, EventsOf(cfg, done[1..], v.last).events);
    }
  }

  // ---------- Which triggers arrived ----------

  /** The `k`-th trigger of a cycle, if the table accepts it. */
  predicate AcceptedAt(cfg: BuildConfig, t: TimeData, k: nat)
    requires cfg.bxidWidth != 0 && k < |t.ids| == |t.times|
  {
    t.start != 0 && TriggerBxid(cfg, t.start, t.times[k]) <= 65535
  }

  /** Positions of the accepted triggers, from the `k`-th on. */
  function AcceptedFrom(cfg: BuildConfig, t: TimeData, k: nat): (ks: seq<nat>)
    requires cfg.bxidWidth != 0 && k <= |t.ids| == |t.times|
    ensures forall i :: 0 <= i < |ks| ==> k <= ks[i] < |t.ids| && AcceptedAt(cfg, t, ks[i])
    ensures forall i, j :: 0 <= i < j < |ks| ==> ks[i] < ks[j]
    ensures forall p :: k <= p < |t.ids| && AcceptedAt(cfg, t, p) ==> p in ks
    decreases |t.ids| - k
  {
    if k == |t.ids| then []
    else
      var rest := AcceptedFrom(cfg, t, k + 1);
      if AcceptedAt(cfg, t, k) then [k] + rest else rest
  }

  function TrigAt(cfg: BuildConfig, t: TimeData, k: nat): Trig
    requires cfg.bxidWidth != 0 && k < |t.ids| == |t.times|
  {
    Trig(TriggerBxid(cfg, t.start, t.times[k]), t.ids[k], t.times[k])
  }

  predicate TriggersAre(cfg: BuildConfig, t: TimeData, ks: seq<nat>, ts: seq<Trig>)
    requires cfg.bxidWidth != 0 && |t.ids| == |t.times|
  {
    |ts| == |ks| && forall i :: 0 <= i < |ks| ==> ks[i] < |t.ids| && ts[i] == TrigAt(cfg, t, ks[i])
  }

  lemma TriggersAreMore(cfg: BuildConfig, t: TimeData, k: nat, ks: seq<nat>, ts: seq<Trig>)
    requires cfg.bxidWidth != 0 && k < |t.ids| == |t.times| && TriggersAre(cfg, t, ks, ts)
    ensures TriggersAre(cfg, t, [k] + ks, [TrigAt(cfg, t, k)] + ts)
  {
  }

  lemma {:induction false} NoneAccepted(cfg: BuildConfig, t: TimeData, k: nat)
    requires cfg.bxidWidth != 0 && k <= |t.ids| == |t.times| && t.start == 0
    ensures AcceptedFrom(cfg, t, k) == []
    decreases |t.ids| - k
  {
    if k < |t.ids| {
      NoneAccepted(cfg, t, k + 1);
    }
  }

  /** The triggers that arrived for a cycle are those at the accepted positions, in order, each with its
      crossing, number and time. */
  lemma {:induction false} ArrivedAccepted(cfg: BuildConfig, t: TimeData, k: nat)
    requires cfg.bxidWidth != 0 && k <= |t.ids| == |t.times|
    ensures TriggersAre(cfg, t, AcceptedFrom(cfg, t, k), Arrived(cfg, t, k))
    decreases |t.ids| - k
  {
    if t.start == 0 {
      NoneAccepted(cfg, t, k);
    } else if k < |t.ids| {
      ArrivedAccepted(cfg, t, k + 1);
      if AcceptedAt(cfg, t, k) {
        TriggersAreMore(cfg, t, k, AcceptedFrom(cfg, t, k + 1), Arrived(cfg, t, k + 1));
      } else {
        assert [] + Arrived(cfg, t, k + 1) == Arrived(cfg, t, k + 1);
      }
    }
  }
}
