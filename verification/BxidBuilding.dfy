/**
 Event building of `ScReader` in the BUILD_BXID_ALL mode: one event for each bunch crossing with
 data, up to the first full memory cell 16 of the cycle.
 */
module BxidBuilding {
  import opened OrderedMap
  import opened AsicPacket
  import opened LdaTimestamps
  import opened EventBuilding
  import opened ValidatedBuilding

  const TWO_64: int := 0x1_0000_0000_0000_0000

  /** Blocks of crossings that are complete. */
  function Kept(data: seq<Block>, full: Option<int>): seq<Block> {
    if data == [] then []
    else (if Complete(full, data[0].bxid) then [data[0]] else []) + Kept(data[1..], full)
  }

  /** Times of a crossing, if the start of the acquisition is known. */
  function Window(cfg: BuildConfig, start: int, bxid: int): Option<Span> {
    if start == 0 || cfg.ignoreTimestamps then None
    else Some(Span((start + cfg.bxid0Offset + bxid * cfg.bxidWidth - 1) % TWO_64,
                   (start + cfg.bxid0Offset + (bxid + 1) * cfg.bxidWidth + 1) % TWO_64))
  }

  function CrossingEvents(cfg: BuildConfig, roc: int, start: int, groups: seq<Item>): (es: seq<Event>)
    ensures |es| == |groups|
  {
    if groups == [] then []
    else [CrossingEvent(roc, groups[0].key, Window(cfg, start, groups[0].key), groups[0].value)]
         + CrossingEvents(cfg, roc, start, groups[1..])
  }

  /** The table of one cycle by crossing. */
  function Table(data: seq<Block>, full: Option<int>): seq<Item> {
    Group(ByCrossing(Kept(data, full)))
  }

  function StartOf(ts: seq<Entry<TimeData>>, roc: int): int {
    Get(ts, roc, NO_TIME_DATA).start
  }

  function CycleEventsAll(cfg: BuildConfig, e: Item, ts: seq<Entry<TimeData>>, minLast: seq<Entry<int>>): seq<Event> {
    CrossingEvents(cfg, e.key, StartOf(ts, e.key), Table(e.value, FullOf(minLast, e.key)))
  }

  /** `buildBXIDEvents`. */
  function BuildAll(cfg: BuildConfig, asic: seq<Item>, ts: seq<Entry<TimeData>>, minLast: seq<Entry<int>>,
                    last: int, keep: nat): Built
    decreases |asic|
  {
    if |asic| <= keep then Built([], asic, ts, last)
    else
      var es := CycleEventsAll(cfg, asic[0], ts, minLast);
      var rest := BuildAll(cfg, asic[1..], Erase(ts, asic[0].key), minLast, last + |es|, keep);
      rest.(events := es + rest.events)
  }

  // ---------- What a pass builds ----------

  /** Blocks of all events with the given tags. */
  function Contents(es: seq<Event>, roc: int, bxid: int): seq<Block> {
    if es == [] then []
    else (if es[0].CrossingEvent? && es[0].roc == roc && es[0].bxid == bxid then es[0].blocks else []) + Contents(es[1..], roc, bxid)
  }

  lemma {:induction false} ContentsConcat(a: seq<Event>, b: seq<Event>, roc: int, bxid: int)
    ensures Contents(a + b, roc, bxid) == Contents(a, roc, bxid) + Contents(b, roc, bxid)
  {
    if a == [] {
      assert a + b == b;
    } else {
      assert (a + b)[1..] == a[1..] + b;
      ContentsConcat(a[1..], b, roc, bxid);
    }
  }

  /** All events hold data, and their tags strictly increase from a cycle and crossing on. */
  predicate TagsRise(es: seq<Event>, roc: int) {
    && (forall i :: 0 <= i < |es| ==> es[i].CrossingEvent? && es[i].blocks != [] && es[i].roc >= roc)
    && (forall i, j :: 0 <= i < j < |es| ==> Before(es[i], es[j]))
  }

  predicate Before(a: Event, b: Event) {
    && a.CrossingEvent? && b.CrossingEvent?
    && (a.roc < b.roc || (a.roc == b.roc && a.bxid < b.bxid))
  }

  lemma {:induction false} KeptOfCrossing(data: seq<Block>, full: Option<int>, bxid: int)
    ensures OfCrossing(Kept(data, full), bxid) == if Complete(full, bxid) then OfCrossing(data, bxid) else []
  {
    if data != [] {
      KeptOfCrossing(data[1..], full, bxid);
      var more := Kept(data[1..], full);
      if Complete(full, data[0].bxid) {
        assert ([data[0]] + more)[1..] == more;
      } else {
        assert [] + more == more;
      }
    }
  }

  /** The table has each complete crossing with data once, with its blocks in arrival order. */
  lemma TableMeaning(data: seq<Block>, full: Option<int>, bxid: int)
    ensures Ordered(Table(data, full))
    ensures Get(Table(data, full), bxid, []) == if Complete(full, bxid) then OfCrossing(data, bxid) else []
  {
    var items := ByCrossing(Kept(data, full));
    AppendAllMeaning<Block>([], items, bxid);
    CrossingTable(Kept(data, full), bxid);
    KeptOfCrossing(data, full, bxid);
    assert [] + Filed(items, bxid) == Filed(items, bxid);
  }

  lemma {:induction false} EventsContents(cfg: BuildConfig, roc: int, start: int, groups: seq<Item>, r: int, b: int)
    requires Ordered(groups)
    ensures Contents(CrossingEvents(cfg, roc, start, groups), r, b) == if r == roc then Get(groups, b, []) else []
  {
    if groups != [] {
      OrderedSuffix(groups);
      EventsContents(cfg, roc, start, groups[1..], r, b);
      if groups[0].key == b {
        assert !Has(groups[1..], b);
        GetMissing(groups[1..], b, []);
      }
    }
  }

  lemma OrderedSuffix<T>(m: seq<Entry<T>>)
    requires Ordered(m) && m != []
    ensures Ordered(m[1..]) && !Has(m[1..], m[0].key)
  {
    assert [m[0]] + m[1..] == m;
    OrderedParts([m[0]], m[1..]);
  }

  lemma {:induction false} EventsRise(cfg: BuildConfig, roc: int, start: int, groups: seq<Item>)
    requires Ordered(groups) && forall i :: 0 <= i < |groups| ==> groups[i].value != []
    ensures var es := CrossingEvents(cfg, roc, start, groups);
      && TagsRise(es, roc)
      && (forall i :: 0 <= i < |es| ==> es[i].roc == roc && es[i].bxid == groups[i].key)
  {
    if groups != [] {
      OrderedSuffix(groups);
      EventsRise(cfg, roc, start, groups[1..]);
    }
  }

  lemma TableHasData(data: seq<Block>, full: Option<int>)
    ensures Ordered(Table(data, full)) && forall i :: 0 <= i < |Table(data, full)| ==> Table(data, full)[i].value != []
  {
    var items := ByCrossing(Kept(data, full));
    GroupMeaning(items);
    var g := Table(data, full);
    forall i | 0 <= i < |g| ensures g[i].value != [] {
      CrossingTable(Kept(data, full), g[i].key);
      assert Has(g, g[i].key);
    }
  }

  lemma RiseConcat(a: seq<Event>, b: seq<Event>, roc: int)
    requires TagsRise(a, roc) && (forall i :: 0 <= i < |a| ==> a[i].roc == roc) && TagsRise(b, roc + 1)
    ensures TagsRise(a + b, roc)
  {
  }

  /** What should be in the events of a cycle and crossing. */
  function Due(asic: seq<Item>, minLast: seq<Entry<int>>, roc: int, bxid: int): seq<Block> {
    if Complete(FullOf(minLast, roc), bxid) then OfCrossing(Get(asic, roc, []), bxid) else []
  }

  lemma CycleContents(cfg: BuildConfig, e: Item, ts: seq<Entry<TimeData>>, minLast: seq<Entry<int>>, roc: int, bxid: int)
    ensures Contents(CycleEventsAll(cfg, e, ts, minLast), roc, bxid) == if roc == e.key then Due([e], minLast, roc, bxid) else []
  {
    TableMeaning(e.value, FullOf(minLast, e.key), bxid);
    EventsContents(cfg, e.key, StartOf(ts, e.key), Table(e.value, FullOf(minLast, e.key)), roc, bxid);
  }

  lemma DueFront(asic: seq<Item>, n: nat, minLast: seq<Entry<int>>, roc: int, bxid: int)
    requires Ordered(asic) && 0 < n <= |asic|
    ensures Due(asic[..n], minLast, roc, bxid)
         == (if roc == asic[0].key then Due([asic[0]], minLast, roc, bxid) else []) + Due(asic[1..][..n - 1], minLast, roc, bxid)
  {
    OrderedSuffix(asic);
    assert asic[..n][1..] == asic[1..][..n - 1];
    if roc == asic[0].key {
      HasPrefix(asic[1..], n - 1, roc);
      GetMissing(asic[1..][..n - 1], roc, []);
    }
  }

  /** Events of the first cycle, and those of the next ones. */
  lemma ContentsStep(es: seq<Event>, more: seq<Event>, asic: seq<Item>, n: nat, minLast: seq<Entry<int>>, roc: int, bxid: int)
    requires Ordered(asic) && 0 < n <= |asic|
    requires Contents(es, roc, bxid) == if roc == asic[0].key then Due([asic[0]], minLast, roc, bxid) else []
    requires Contents(more, roc, bxid) == Due(asic[1..][..n - 1], minLast, roc, bxid)
    ensures Contents(es + more, roc, bxid) == Due(asic[..n], minLast, roc, bxid)
  {
    ContentsConcat(es, more, roc, bxid);
    DueFront(asic, n, minLast, roc, bxid);
  }

  lemma {:induction false} PassLeaves(cfg: BuildConfig, asic: seq<Item>, ts: seq<Entry<TimeData>>, minLast: seq<Entry<int>>,
                                      last: int, keep: nat)
    ensures var b := BuildAll(cfg, asic, ts, minLast, last, keep);
      b.asic == asic[Excess(asic, keep)..] && b.last == last + |b.events|
    decreases |asic|
  {
    if |asic| > keep {
      PassLeaves(cfg, asic[1..], Erase(ts, asic[0].key), minLast, last + |CycleEventsAll(cfg, asic[0], ts, minLast)|, keep);
    }
  }

  lemma FirstCycle(cfg: BuildConfig, asic: seq<Item>, ts: seq<Entry<TimeData>>, minLast: seq<Entry<int>>, last: int, keep: nat)
    requires |asic| > keep
    ensures var es := CycleEventsAll(cfg, asic[0], ts, minLast);
      BuildAll(cfg, asic, ts, minLast, last, keep).events
      == es + BuildAll(cfg, asic[1..], Erase(ts, asic[0].key), minLast, last + |es|, keep).events
  {
  }

  /** The events hold what is due of the cycles that leave. */
  ghost predicate PassHolds(es: seq<Event>, asic: seq<Item>, n: nat, minLast: seq<Entry<int>>, roc: int, bxid: int)
    requires n <= |asic|
  {
    Contents(es, roc, bxid) == Due(asic[..n], minLast, roc, bxid)
  }

  lemma {:induction false} PassContents(cfg: BuildConfig, asic: seq<Item>, ts: seq<Entry<TimeData>>, minLast: seq<Entry<int>>,
                                        last: int, keep: nat, roc: int, bxid: int)
    ensures Ordered(asic) ==>
      PassHolds(BuildAll(cfg, asic, ts, minLast, last, keep).events, asic, Excess(asic, keep), minLast, roc, bxid)
    decreases |asic|
  {
    if Ordered(asic) && |asic| > keep {
      var e, rest := asic[0], asic[1..];
      var es := CycleEventsAll(cfg, e, ts, minLast);
      OrderedSuffix(asic);
      PassContents(cfg, rest, Erase(ts, e.key), minLast, last + |es|, keep, roc, bxid);
      CycleContents(cfg, e, ts, minLast, roc, bxid);
      FirstCycle(cfg, asic, ts, minLast, last, keep);
      ContentsStep(es, BuildAll(cfg, rest, Erase(ts, e.key), minLast, last + |es|, keep).events,
                   asic, Excess(asic, keep), minLast, roc, bxid);
    }
  }

  lemma HasPrefix<T>(m: seq<Entry<T>>, n: nat, k: int)
    requires n <= |m| && !Has(m, k)
    ensures !Has(m[..n], k)
  {
  }

  lemma {:induction false} PassRises(cfg: BuildConfig, asic: seq<Item>, ts: seq<Entry<TimeData>>, minLast: seq<Entry<int>>,
                                     last: int, keep: nat, low: int)
    requires Ordered(asic) && (asic != [] ==> low <= asic[0].key)
    ensures TagsRise(BuildAll(cfg, asic, ts, minLast, last, keep).events, low)
    decreases |asic|
  {
    if |asic| > keep {
      var e, full := asic[0], FullOf(minLast, asic[0].key);
      var es := CycleEventsAll(cfg, e, ts, minLast);
      OrderedSuffix(asic);
      assert |asic| > 1 ==> e.key < asic[1].key;
      PassRises(cfg, asic[1..], Erase(ts, e.key), minLast, last + |es|, keep, e.key + 1);
      TableHasData(e.value, full);
      EventsRise(cfg, e.key, StartOf(ts, e.key), Table(e.value, full));
      RiseConcat(es, BuildAll(cfg, asic[1..], Erase(ts, e.key), minLast, last + |es|, keep).events, e.key);
    }
  }

  /** A pass takes the lowest cycles but `keep`. Its events come in the order of cycles and crossings,
      one for each; together they hold exactly the blocks of the complete crossings of these cycles,
      each crossing's blocks in arrival order; blocks behind the first full memory cell are dropped. */
  lemma AllPass(cfg: BuildConfig, asic: seq<Item>, ts: seq<Entry<TimeData>>, minLast: seq<Entry<int>>, last: int, keep: nat)
    requires Ordered(asic)
    ensures var b := BuildAll(cfg, asic, ts, minLast, last, keep); var n := Excess(asic, keep);
      && b.asic == asic[n..] && b.last == last + |b.events|
      && (asic != [] ==> TagsRise(b.events, asic[0].key))
      && (forall roc, bxid :: Contents(b.events, roc, bxid) == Due(asic[..n], minLast, roc, bxid))
  {
    PassLeaves(cfg, asic, ts, minLast, last, keep);
    if asic != [] {
      PassRises(cfg, asic, ts, minLast, last, keep, asic[0].key);
    }
    forall roc, bxid
      ensures Contents(BuildAll(cfg, asic, ts, minLast, last, keep).events, roc, bxid)
           == Due(asic[..Excess(asic, keep)], minLast, roc, bxid)
    {
      PassContents(cfg, asic, ts, minLast, last, keep, roc, bxid);
    }
  }
}
