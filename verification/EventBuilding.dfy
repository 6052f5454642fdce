/**
 Event building of `ScReader` in the ROC and TRIGGERID modes: what leaves the buffers, with
 which numbers, and the bounded reordering of readout cycles.
 */
module EventBuilding {
  import opened Sequences
  import opened OrderedMap
  import opened AsicPacket
  import opened LdaTimestamps

  const MILLISECOND_TICS := 40000

  datatype BuildConfig = BuildConfig(
    insertDummies: bool, keepBuffered: nat, ignoreTimestamps: bool,
    trigidOffset: int, generateFrom: int, bxid0Offset: int, bxidWidth: int)

  datatype Option<+T> = None | Some(value: T)

  /** Events as they enter the event queue. */
  datatype Event =
    | DummyEvent(number: int)
    | RocEvent(roc: int, blocks: seq<Block>, times: Option<TimeData>)
    | TriggerEvent(number: int, roc: int, time: int, blocks: seq<Block>)
    | BxidEvent(number: int, roc: int, bxid: int, triggers: seq<Trig>, blocks: seq<Block>)
    | EmptyEvent(number: int, roc: int, trigger: Trig)
    | CrossingEvent(roc: int, bxid: int, window: Option<Span>, blocks: seq<Block>)

  datatype Span = Span(begin: int, end: int)

  /** A trigger with the bunch crossing calculated from its time. */
  datatype Trig = Trig(bxid: int, id: int, time: int)

  // ---------- Gap filling ----------

  /** Dummy events numbered `from`, ..., `to - 1`. */
  function Dummies(from: int, to: int): (r: seq<Event>)
    decreases if from < to then to - from else 0
  {
    if from >= to then [] else [DummyEvent(from)] + Dummies(from + 1, to)
  }

  /** Last number after the filling loop in front of number `n`: the loop always advances once. */
  function Advance(last: int, n: int): int {
    if last + 1 < n then n else last + 1
  }

  /** A number handed out, and whether to a real event. */
  datatype Numbered = Numbered(number: int, actual: bool)

  function NumberOf(e: Event): Numbered {
    match e
    case DummyEvent(n) => Numbered(n, false)
    case RocEvent(roc, _, _) => Numbered(roc, true)
    case TriggerEvent(n, _, _, _) => Numbered(n, true)
    case BxidEvent(n, _, _, _, _) => Numbered(n, true)
    case EmptyEvent(n, _, _) => Numbered(n, true)
    case CrossingEvent(_, _, _, _) => Numbered(0, true)  // carries no number
  }

  function Numbers(es: seq<Event>): (r: seq<Numbered>)
    ensures |r| == |es|
  {
    if es == [] then [] else [NumberOf(es[0])] + Numbers(es[1..])
  }

  lemma {:induction false} NumbersConcat(a: seq<Event>, b: seq<Event>)
    ensures Numbers(a + b) == Numbers(a) + Numbers(b)
  {
    if a == [] {
      assert a + b == b;
    } else {
      assert (a + b)[1..] == a[1..] + b;
      NumbersConcat(a[1..], b);
    }
  }

  function Gap(from: int, to: int): (r: seq<Numbered>)
    decreases if from < to then to - from else 0
  {
    if from >= to then [] else [Numbered(from, false)] + Gap(from + 1, to)
  }

  lemma {:induction false} NumbersDummies(from: int, to: int)
    ensures Numbers(Dummies(from, to)) == Gap(from, to)
    decreases if from < to then to - from else 0
  {
    if from < to {
      NumbersDummies(from + 1, to);
      assert Dummies(from, to)[1..] == Dummies(from + 1, to);
    }
  }

  /** Numbers handed out while the real numbers `ids` are processed with dummies switched on. */
  function FillAll(last: int, ids: seq<int>): seq<Numbered>
    decreases |ids|
  {
    if ids == [] then []
    else Gap(last + 1, ids[0]) + [Numbered(ids[0], true)] + FillAll(Advance(last, ids[0]), ids[1..])
  }

  /** The numbers run without gap or repetition from `start`. */
  predicate Contiguous(ns: seq<Numbered>, start: int) {
    forall i :: 0 <= i < |ns| ==> ns[i].number == start + i
  }

  /** The real numbers strictly increase from at least `start`. */
  predicate Rising(ids: seq<int>, start: int) {
    (ids != [] ==> start <= ids[0]) && forall i, j :: 0 <= i < j < |ids| ==> ids[i] < ids[j]
  }

  lemma {:induction false} GapShape(from: int, to: int)
    ensures var g := Gap(from, to);
      && |g| == (if from < to then to - from else 0)
      && forall i :: 0 <= i < |g| ==> g[i] == Numbered(from + i, false)
    decreases if from < to then to - from else 0
  {
    if from < to {
      GapShape(from + 1, to);
    }
  }

  lemma RisingTail(ids: seq<int>, start: int)
    requires ids != []
    ensures Rising(ids, start) <==> start <= ids[0] && Rising(ids[1..], ids[0] + 1)
  {
    if start <= ids[0] && Rising(ids[1..], ids[0] + 1) {
      forall i, j | 0 <= i < j < |ids| ensures ids[i] < ids[j] {
        assert ids[j] == ids[1..][j - 1] && ids[1..][0] <= ids[1..][j - 1];
        if i > 0 { assert ids[i] == ids[1..][i - 1]; }
      }
    }
  }

  lemma ContiguousParts(a: seq<Numbered>, b: seq<Numbered>, start: int)
    ensures Contiguous(a + b, start) <==> Contiguous(a, start) && Contiguous(b, start + |a|)
  {
    if Contiguous(a + b, start) {
      forall i | 0 <= i < |a| ensures a[i].number == start + i { assert (a + b)[i] == a[i]; }
      forall i | 0 <= i < |b| ensures b[i].number == start + |a| + i { assert (a + b)[|a| + i] == b[i]; }
    }
  }

  /** With dummies the handed-out numbers are one contiguous sequence after `last` if and only if
      the real numbers strictly increase from beyond `last`. */
  lemma {:induction false} FillContiguous(last: int, ids: seq<int>)
    ensures Contiguous(FillAll(last, ids), last + 1) <==> Rising(ids, last + 1)
    decreases |ids|
  {
    if ids != [] {
      var gap, actual := Gap(last + 1, ids[0]), [Numbered(ids[0], true)];
      var rest := FillAll(Advance(last, ids[0]), ids[1..]);
      GapShape(last + 1, ids[0]);
      ContiguousParts(gap + actual, rest, last + 1);
      ContiguousParts(gap, actual, last + 1);
      assert actual[0].number == ids[0];
      RisingTail(ids, last + 1);
      if last + 1 <= ids[0] {
        assert Advance(last, ids[0]) == ids[0];
        FillContiguous(ids[0], ids[1..]);
      } else {
        assert !Contiguous(actual, last + 1 + |gap|);
      }
    }
  }

  function Reals(ns: seq<Numbered>): seq<int> {
    if ns == [] then [] else (if ns[0].actual then [ns[0].number] else []) + Reals(ns[1..])
  }

  lemma {:induction false} RealsConcat(a: seq<Numbered>, b: seq<Numbered>)
    ensures Reals(a + b) == Reals(a) + Reals(b)
  {
    if a == [] {
      assert a + b == b;
    } else {
      assert (a + b)[1..] == a[1..] + b;
      RealsConcat(a[1..], b);
    }
  }

  lemma {:induction false} RealsGap(from: int, to: int)
    ensures Reals(Gap(from, to)) == []
    decreases if from < to then to - from else 0
  {
    if from < to {
      RealsGap(from + 1, to);
      assert Gap(from, to)[1..] == Gap(from + 1, to);
    }
  }

  /** The real numbers among them are exactly those processed, in order. */
  lemma {:induction false} FillReals(last: int, ids: seq<int>)
    ensures Reals(FillAll(last, ids)) == ids
    decreases |ids|
  {
    if ids != [] {
      var gap, actual := Gap(last + 1, ids[0]), [Numbered(ids[0], true)];
      var rest := FillAll(Advance(last, ids[0]), ids[1..]);
      RealsConcat(gap + actual, rest);
      RealsConcat(gap, actual);
      RealsGap(last + 1, ids[0]);
      FillReals(Advance(last, ids[0]), ids[1..]);
      assert actual[1..] == [] && Reals(actual) == [ids[0]];
      assert [ids[0]] + ids[1..] == ids;
    }
  }

  function AdvanceAll(last: int, ids: seq<int>): int
    decreases |ids|
  {
    if ids == [] then last else AdvanceAll(Advance(last, ids[0]), ids[1..])
  }

  /** Numbering goes on across separate building passes. */
  lemma {:induction false} FillConcat(last: int, a: seq<int>, b: seq<int>)
    ensures FillAll(last, a + b) == FillAll(last, a) + FillAll(AdvanceAll(last, a), b)
    ensures AdvanceAll(last, a + b) == AdvanceAll(AdvanceAll(last, a), b)
    decreases |a|
  {
    if a == [] {
      assert a + b == b;
    } else {
      assert (a + b)[1..] == a[1..] + b;
      FillConcat(Advance(last, a[0]), a[1..], b);
    }
  }

  // ---------- ROC mode ----------

  /** Result of a building pass. */
  datatype Built = Built(events: seq<Event>, asic: seq<Entry<seq<Block>>>, ts: seq<Entry<TimeData>>, last: int)

  function Keep(cfg: BuildConfig, dumpAll: bool): nat {
    if dumpAll then 0 else cfg.keepBuffered
  }

  function FillBefore(cfg: BuildConfig, last: int, n: int): seq<Event> {
    if cfg.insertDummies then Dummies(last + 1, n) else []
  }

  function LastAfter(cfg: BuildConfig, last: int, n: int): int {
    if cfg.insertDummies then Advance(last, n) else last
  }

  function RocEventFor(cfg: BuildConfig, e: Entry<seq<Block>>, ts: seq<Entry<TimeData>>): Event {
    RocEvent(e.key, e.value,
             if Has(ts, e.key) && !cfg.ignoreTimestamps then Some(Get(ts, e.key, NO_TIME_DATA)) else None)
  }

  function TsAfter(cfg: BuildConfig, roc: int, ts: seq<Entry<TimeData>>): seq<Entry<TimeData>> {
    if Has(ts, roc) && !cfg.ignoreTimestamps then Erase(ts, roc) else ts
  }

  /** `buildROCEvents`: the lowest cycles leave until `keep` are left. */
  function BuildRoc(cfg: BuildConfig, asic: seq<Entry<seq<Block>>>, ts: seq<Entry<TimeData>>, last: int, keep: nat): Built
    decreases |asic|
  {
    if |asic| <= keep then Built([], asic, ts, last)
    else
      var roc := asic[0].key;
      var rest := BuildRoc(cfg, asic[1..], TsAfter(cfg, roc, ts), LastAfter(cfg, last, roc), keep);
      rest.(events := FillBefore(cfg, last, roc) + [RocEventFor(cfg, asic[0], ts)] + rest.events)
  }

  /** Readout cycles and blocks of the real ROC events. */
  function Cycles(es: seq<Event>): seq<Entry<seq<Block>>> {
    if es == [] then []
    else (if es[0].RocEvent? then [Entry(es[0].roc, es[0].blocks)] else []) + Cycles(es[1..])
  }

  lemma {:induction false} CyclesConcat(a: seq<Event>, b: seq<Event>)
    ensures Cycles(a + b) == Cycles(a) + Cycles(b)
  {
    if a == [] {
      assert a + b == b;
    } else {
      assert (a + b)[1..] == a[1..] + b;
      CyclesConcat(a[1..], b);
    }
  }

  lemma {:induction false} CyclesDummies(from: int, to: int)
    ensures Cycles(Dummies(from, to)) == []
    decreases if from < to then to - from else 0
  {
    if from < to {
      CyclesDummies(from + 1, to);
      assert Dummies(from, to)[1..] == Dummies(from + 1, to);
    }
  }

  function Keys<T>(m: seq<Entry<T>>): (r: seq<int>)
    ensures |r| == |m| && forall i :: 0 <= i < |m| ==> r[i] == m[i].key
  {
    seq(|m|, i requires 0 <= i < |m| => m[i].key)
  }

  function Excess<T>(m: seq<T>, keep: nat): (n: nat)
    ensures n <= |m|
  {
    if |m| > keep then |m| - keep else 0
  }

  lemma CyclesOfPass(cfg: BuildConfig, e: Entry<seq<Block>>, ts: seq<Entry<TimeData>>, last: int, more: seq<Event>)
    ensures Cycles(FillBefore(cfg, last, e.key) + [RocEventFor(cfg, e, ts)] + more) == [e] + Cycles(more)
  {
    var fill, one := FillBefore(cfg, last, e.key), [RocEventFor(cfg, e, ts)];
    CyclesConcat(fill + one, more);
    CyclesConcat(fill, one);
    CyclesDummies(last + 1, e.key);
    assert one[1..] == [] && Cycles(one) == [e];
    assert [] + [e] == [e];
  }

  lemma NumbersOfPass(cfg: BuildConfig, e: Entry<seq<Block>>, ts: seq<Entry<TimeData>>, last: int, more: seq<Event>)
    requires cfg.insertDummies
    ensures Numbers(FillBefore(cfg, last, e.key) + [RocEventFor(cfg, e, ts)] + more)
         == Gap(last + 1, e.key) + [Numbered(e.key, true)] + Numbers(more)
  {
    var fill, one := FillBefore(cfg, last, e.key), [RocEventFor(cfg, e, ts)];
    NumbersConcat(fill + one, more);
    NumbersConcat(fill, one);
    NumbersDummies(last + 1, e.key);
    assert one[1..] == [] && Numbers(one) == [Numbered(e.key, true)];
  }

  /** One pass takes the front of the buffer away and turns it, in order, into events. */
  lemma {:induction false} BuildRocMeaning(cfg: BuildConfig, asic: seq<Entry<seq<Block>>>, ts: seq<Entry<TimeData>>,
                                           last: int, keep: nat)
    ensures var b := BuildRoc(cfg, asic, ts, last, keep); var n := Excess(asic, keep);
      && b.asic == asic[n..]
      && Cycles(b.events) == asic[..n]
    decreases |asic|
  {
    if |asic| > keep {
      var ts', last' := TsAfter(cfg, asic[0].key, ts), LastAfter(cfg, last, asic[0].key);
      var rest := BuildRoc(cfg, asic[1..], ts', last', keep);
      BuildRocMeaning(cfg, asic[1..], ts', last', keep);
      CyclesOfPass(cfg, asic[0], ts, last, rest.events);
      var n := Excess(asic, keep);
      assert asic[1..][n - 1..] == asic[n..];
      assert [asic[0]] + asic[1..][..n - 1] == asic[..n];
    }
  }

  /** With dummies its numbers are those of the gap filling. */
  lemma {:induction false} BuildRocNumbers(cfg: BuildConfig, asic: seq<Entry<seq<Block>>>, ts: seq<Entry<TimeData>>,
                                           last: int, keep: nat)
    requires cfg.insertDummies
    ensures var b := BuildRoc(cfg, asic, ts, last, keep); var ids := Keys(asic[..Excess(asic, keep)]);
      && Numbers(b.events) == FillAll(last, ids)
      && b.last == AdvanceAll(last, ids)
    decreases |asic|
  {
    var n := Excess(asic, keep);
    var ids := Keys(asic[..n]);
    if |asic| > keep {
      var ts', last' := TsAfter(cfg, asic[0].key, ts), LastAfter(cfg, last, asic[0].key);
      var rest := BuildRoc(cfg, asic[1..], ts', last', keep);
      BuildRocNumbers(cfg, asic[1..], ts', last', keep);
      NumbersOfPass(cfg, asic[0], ts, last, rest.events);
      assert ids[1..] == Keys(asic[1..][..n - 1]);
    } else {
      assert ids == [];
    }
  }

  // ---------- TRIGGERID mode ----------

  predicate AllPaired(ts: seq<Entry<TimeData>>) {
    forall i :: 0 <= i < |ts| ==> |ts[i].value.ids| == |ts[i].value.times|
  }

  /** The trigger lies inside the acquisition, and the acquisition is not longer than 1 s. */
  predicate InAcquisition(t: TimeData, time: int) {
    t.start <= time <= t.stop && (t.stop - t.start) % U64_SIZE <= 1000 * MILLISECOND_TICS
  }

  /** Numbers of the in-acquisition triggers of a readout cycle, from the `i`-th on. */
  function TriggerNumbers(cfg: BuildConfig, t: TimeData, i: nat): seq<int>
    requires |t.ids| == |t.times| && i <= |t.ids|
    decreases |t.ids| - i
  {
    if i == |t.ids| then []
    else (if InAcquisition(t, t.times[i]) then [t.ids[i] + cfg.trigidOffset] else []) + TriggerNumbers(cfg, t, i + 1)
  }

  datatype Tagged = Tagged(events: seq<Event>, last: int)

  /** One event per in-acquisition trigger, each with all blocks of the cycle. */
  function TriggerEvents(cfg: BuildConfig, roc: int, t: TimeData, data: seq<Block>, i: nat, last: int): Tagged
    requires |t.ids| == |t.times| && i <= |t.ids|
    decreases |t.ids| - i
  {
    if i == |t.ids| then Tagged([], last)
    else if !InAcquisition(t, t.times[i]) then TriggerEvents(cfg, roc, t, data, i + 1, last)
    else
      var n := t.ids[i] + cfg.trigidOffset;
      var rest := TriggerEvents(cfg, roc, t, data, i + 1, LastAfter(cfg, last, n));
      rest.(events := FillBefore(cfg, last, n) + [TriggerEvent(n, roc, t.times[i], data)] + rest.events)
  }

  /** `buildTRIGIDEvents`. */
  function BuildTrig(cfg: BuildConfig, asic: seq<Entry<seq<Block>>>, ts: seq<Entry<TimeData>>, last: int, keep: nat): Built
    requires AllPaired(ts)
    decreases |asic|
  {
    if |asic| <= keep then Built([], asic, ts, last)
    else
      var roc := asic[0].key;
      if !Has(ts, roc) then BuildTrig(cfg, asic[1..], ts, last, keep)
      else
        GetPaired(ts, roc);
        ErasePaired(ts, roc);
        var head := TriggerEvents(cfg, roc, Get(ts, roc, NO_TIME_DATA), asic[0].value, 0, last);
        var rest := BuildTrig(cfg, asic[1..], Erase(ts, roc), head.last, keep);
        rest.(events := head.events + rest.events)
  }

  lemma GetPaired(ts: seq<Entry<TimeData>>, k: int)
    requires AllPaired(ts)
    ensures |Get(ts, k, NO_TIME_DATA).ids| == |Get(ts, k, NO_TIME_DATA).times|
  {
    if ts != [] && ts[0].key != k {
      GetPaired(ts[1..], k);
    }
  }

  lemma {:induction false} ErasePaired(ts: seq<Entry<TimeData>>, k: int)
    requires AllPaired(ts)
    ensures AllPaired(Erase(ts, k))
  {
    if ts != [] {
      ErasePaired(ts[1..], k);
    }
  }

  /** Numbers of all in-acquisition triggers of the cycles a pass processes, in order. */
  function PassNumbers(cfg: BuildConfig, asic: seq<Entry<seq<Block>>>, ts: seq<Entry<TimeData>>, keep: nat): seq<int>
    requires AllPaired(ts)
    decreases |asic|
  {
    if |asic| <= keep then []
    else
      var roc := asic[0].key;
      if !Has(ts, roc) then PassNumbers(cfg, asic[1..], ts, keep)
      else
        GetPaired(ts, roc);
        ErasePaired(ts, roc);
        TriggerNumbers(cfg, Get(ts, roc, NO_TIME_DATA), 0) + PassNumbers(cfg, asic[1..], Erase(ts, roc), keep)
  }

  lemma {:induction false} TriggerEventNumbers(cfg: BuildConfig, roc: int, t: TimeData, data: seq<Block>, i: nat, last: int)
    requires cfg.insertDummies && |t.ids| == |t.times| && i <= |t.ids|
    ensures var r := TriggerEvents(cfg, roc, t, data, i, last); var ids := TriggerNumbers(cfg, t, i);
            Numbers(r.events) == FillAll(last, ids) && r.last == AdvanceAll(last, ids)
    decreases |t.ids| - i
  {
    if i < |t.ids| {
      if InAcquisition(t, t.times[i]) {
        var n := t.ids[i] + cfg.trigidOffset;
        var one := [TriggerEvent(n, roc, t.times[i], data)];
        var rest := TriggerEvents(cfg, roc, t, data, i + 1, Advance(last, n));
        TriggerEventNumbers(cfg, roc, t, data, i + 1, Advance(last, n));
        NumbersConcat(Dummies(last + 1, n) + one, rest.events);
        NumbersConcat(Dummies(last + 1, n), one);
        NumbersDummies(last + 1, n);
        assert one[1..] == [] && Numbers(one) == [Numbered(n, true)];
        assert ([n] + TriggerNumbers(cfg, t, i + 1))[1..] == TriggerNumbers(cfg, t, i + 1);
      } else {
        TriggerEventNumbers(cfg, roc, t, data, i + 1, last);
        assert [] + TriggerNumbers(cfg, t, i + 1) == TriggerNumbers(cfg, t, i + 1);
      }
    }
  }

  /** With dummies the numbers of a TRIGGERID pass are those of the gap filling over the
      in-acquisition triggers. */
  lemma {:induction false} BuildTrigNumbers(cfg: BuildConfig, asic: seq<Entry<seq<Block>>>, ts: seq<Entry<TimeData>>,
                                            last: int, keep: nat)
    requires AllPaired(ts) && cfg.insertDummies
    ensures var b := BuildTrig(cfg, asic, ts, last, keep); var ids := PassNumbers(cfg, asic, ts, keep);
            Numbers(b.events) == FillAll(last, ids) && b.last == AdvanceAll(last, ids)
    decreases |asic|
  {
    if |asic| > keep {
      var roc := asic[0].key;
      if !Has(ts, roc) {
        BuildTrigNumbers(cfg, asic[1..], ts, last, keep);
      } else {
        GetPaired(ts, roc);
        ErasePaired(ts, roc);
        var t := Get(ts, roc, NO_TIME_DATA);
        var head := TriggerEvents(cfg, roc, t, asic[0].value, 0, last);
        TriggerEventNumbers(cfg, roc, t, asic[0].value, 0, last);
        BuildTrigNumbers(cfg, asic[1..], Erase(ts, roc), head.last, keep);
        NumbersConcat(head.events, BuildTrig(cfg, asic[1..], Erase(ts, roc), head.last, keep).events);
        FillConcat(last, TriggerNumbers(cfg, t, 0), PassNumbers(cfg, asic[1..], Erase(ts, roc), keep));
      }
    }
  }

  /** TRIGGERID mode: the numbers of a pass are contiguous after the last built number if and
      only if the in-acquisition trigger numbers strictly increase from beyond it, and the real
      events are exactly those triggers. */
  lemma TrigidGapFilling(cfg: BuildConfig, asic: seq<Entry<seq<Block>>>, ts: seq<Entry<TimeData>>, last: int, keep: nat)
    requires AllPaired(ts) && cfg.insertDummies
    ensures var ns := Numbers(BuildTrig(cfg, asic, ts, last, keep).events); var ids := PassNumbers(cfg, asic, ts, keep);
      && (Contiguous(ns, last + 1) <==> Rising(ids, last + 1))
      && Reals(ns) == ids
  {
    BuildTrigNumbers(cfg, asic, ts, last, keep);
    FillContiguous(last, PassNumbers(cfg, asic, ts, keep));
    FillReals(last, PassNumbers(cfg, asic, ts, keep));
  }

  // ---------- Bounded reordering ----------

  type Item = Entry<seq<Block>>

  /** Batches arrive, each followed by a pass that keeps `keep` cycles; at the end everything is
      dumped. The result lists the cycles in the order in which they leave. */
  function Stream(out: seq<Item>, buffer: seq<Item>, batches: seq<seq<Item>>, keep: nat): seq<Item>
    decreases |batches|
  {
    if batches == [] then out + buffer
    else
      var full := AppendAll(buffer, batches[0]);
      var n := Excess(full, keep);
      Stream(out + full[..n], full[n..], batches[1..], keep)
  }

  /** Every item belongs to a cycle above all but the `keep` highest cycles seen before it. */
  ghost predicate OnTime(seen: seq<Item>, items: seq<Item>, keep: nat)
    decreases |items|
  {
    items == [] ||
    (var g := Group(seen);
     && (|g| > keep ==> items[0].key > g[|g| - keep - 1].key)
     && OnTime(seen + [items[0]], items[1..], keep))
  }

  lemma GroupAppend(seen: seq<Item>, x: Item)
    ensures Group(seen + [x]) == Append(Group(seen), x.key, x.value)
  {
    AppendAllConcat<Block>([], seen, [x]);
    assert [x][1..] == [];
  }

  /** All of `out` leaves room: its keys are below `k`. */
  lemma BelowLast(out: seq<Item>, k: int)
    requires Ordered(out) && (out != [] ==> out[|out| - 1].key < k)
    ensures Below(out, k)
  {
  }

  /** Emitted cycles plus buffered cycles stay the grouping of all items while a batch is filed;
      what has left is at most what a pass after every item would have let go. */
  lemma {:induction false} FileBatch(seen: seq<Item>, out: seq<Item>, buffer: seq<Item>, batch: seq<Item>, keep: nat)
    requires Group(seen) == out + buffer && |out| <= Excess(Group(seen), keep)
    requires OnTime(seen, batch, keep)
    ensures Group(seen + batch) == out + AppendAll(buffer, batch)
    ensures |out| <= Excess(Group(seen + batch), keep)
    decreases |batch|
  {
    if batch == [] {
      assert seen + batch == seen;
    } else {
      var x := batch[0];
      var g := Group(seen);
      GroupMeaning(seen);
      OrderedParts(out, buffer);
      if out != [] {
        assert out[|out| - 1].key == g[|out| - 1].key <= g[|g| - keep - 1].key;
      }
      BelowLast(out, x.key);
      BehindFront(out, buffer, x.key, Get(buffer, x.key, []) + x.value, []);
      GroupAppend(seen, x);
      var buffer' := Append(buffer, x.key, x.value);
      assert Group(seen + [x]) == out + buffer';
      PutGrows(buffer, x.key, Get(buffer, x.key, []) + x.value);
      FileBatch(seen + [x], out, buffer', batch[1..], keep);
      assert (seen + [x]) + batch[1..] == seen + batch;
    }
  }

  lemma {:induction false} PutGrows<T>(m: seq<Entry<T>>, k: int, v: T)
    ensures |m| <= |Put(m, k, v)| <= |m| + 1
  {
    if m != [] && k > m[0].key {
      PutGrows(m[1..], k, v);
    }
  }

  lemma {:induction false} OnTimeSplit(seen: seq<Item>, a: seq<Item>, b: seq<Item>, keep: nat)
    ensures OnTime(seen, a + b, keep) <==> OnTime(seen, a, keep) && OnTime(seen + a, b, keep)
    decreases |a|
  {
    if a == [] {
      assert a + b == b && seen + a == seen;
    } else {
      assert (a + b)[1..] == a[1..] + b;
      OnTimeSplit(seen + [a[0]], a[1..], b, keep);
      assert (seen + [a[0]]) + a[1..] == seen + a;
    }
  }

  lemma {:induction false} StreamGroups(seen: seq<Item>, out: seq<Item>, buffer: seq<Item>, batches: seq<seq<Item>>, keep: nat)
    requires Group(seen) == out + buffer && |out| <= Excess(Group(seen), keep)
    requires OnTime(seen, Concat(batches), keep)
    ensures Stream(out, buffer, batches, keep) == Group(seen + Concat(batches))
    decreases |batches|
  {
    if batches == [] {
      assert seen + Concat(batches) == seen;
    } else {
      var batch, more := batches[0], Concat(batches[1..]);
      OnTimeSplit(seen, batch, more, keep);
      FileBatch(seen, out, buffer, batch, keep);
      var full := AppendAll(buffer, batch);
      var n := Excess(full, keep);
      assert (out + full[..n]) + full[n..] == out + full;
      StreamGroups(seen + batch, out + full[..n], full[n..], batches[1..], keep);
      assert (seen + batch) + more == seen + Concat(batches);
    }
  }

  /** Items one by one. */
  function Singles(items: seq<Item>): seq<seq<Item>> {
    if items == [] then [] else [[items[0]]] + Singles(items[1..])
  }

  lemma {:induction false} SinglesConcat(items: seq<Item>)
    ensures Concat(Singles(items)) == items
  {
    if items != [] {
      SinglesConcat(items[1..]);
      assert Singles(items)[1..] == Singles(items[1..]);
    }
  }

  /** Keys that have left, or still wait, show up in the final result in that order. */
  lemma {:induction false} StreamKeeps(out: seq<Item>, buffer: seq<Item>, batches: seq<seq<Item>>, keep: nat, k: int)
    requires Has(buffer, k)
    ensures out <= Stream(out, buffer, batches, keep)
    ensures Has(Stream(out, buffer, batches, keep)[|out|..], k)
    decreases |batches|
  {
    if batches == [] {
      assert (out + buffer)[|out|..] == buffer;
    } else {
      var full := AppendAll(buffer, batches[0]);
      var n := Excess(full, keep);
      KeysStay(buffer, batches[0], k);
      var i :| 0 <= i < |full| && full[i].key == k;
      var out' := out + full[..n];
      var final := Stream(out', full[n..], batches[1..], keep);
      if i < n {
        StreamPrefix(out', full[n..], batches[1..], keep);
        assert final[|out|..][i] == final[|out| + i] == out'[|out| + i] == full[i];
      } else {
        assert full[n..][i - n].key == k;
        StreamKeeps(out', full[n..], batches[1..], keep, k);
        var j :| 0 <= j < |final[|out'|..]| && final[|out'|..][j].key == k;
        assert final[|out|..][n + j] == final[|out'|..][j];
      }
    }
  }

  lemma {:induction false} StreamPrefix(out: seq<Item>, buffer: seq<Item>, batches: seq<seq<Item>>, keep: nat)
    ensures out <= Stream(out, buffer, batches, keep)
    decreases |batches|
  {
    if batches != [] {
      var full := AppendAll(buffer, batches[0]);
      var n := Excess(full, keep);
      StreamPrefix(out + full[..n], full[n..], batches[1..], keep);
    }
  }

  lemma {:induction false} KeysStay(m: seq<Item>, items: seq<Item>, k: int)
    requires Has(m, k)
    ensures Has(AppendAll(m, items), k)
    decreases |items|
  {
    if items != [] {
      PutMeaning(m, items[0].key, Get(m, items[0].key, []) + items[0].value);
      KeysStay(Append(m, items[0].key, items[0].value), items[1..], k);
    }
  }

  lemma StreamSingle(out: seq<Item>, buffer: seq<Item>, items: seq<Item>, keep: nat)
    requires items != []
    ensures var full := Append(buffer, items[0].key, items[0].value); var n := Excess(full, keep);
      Stream(out, buffer, Singles(items), keep) == Stream(out + full[..n], full[n..], Singles(items[1..]), keep)
  {
    var x := items[0];
    assert [x][1..] == [];
    assert AppendAll(buffer, [x]) == Append(buffer, x.key, x.value);
    assert Singles(items)[1..] == Singles(items[1..]);
  }

  /** An item in time keeps the split of the grouping into what left and what waits. */
  lemma InTimeItem(seen: seq<Item>, out: seq<Item>, buffer: seq<Item>, x: Item, keep: nat)
    requires Group(seen) == out + buffer && |out| == Excess(Group(seen), keep)
    requires OnTime(seen, [x], keep)
    ensures var full := Append(buffer, x.key, x.value); var n := Excess(full, keep);
      && Group(seen + [x]) == (out + full[..n]) + full[n..]
      && |out + full[..n]| == Excess(Group(seen + [x]), keep)
  {
    var full := Append(buffer, x.key, x.value);
    var n := Excess(full, keep);
    FileBatch(seen, out, buffer, [x], keep);
    assert [x][1..] == [];
    assert AppendAll(buffer, [x]) == full;
    assert (out + full[..n]) + full[n..] == out + full;
  }

  /** A late item, filed after every pass, leaves behind a cycle it should have preceded. */
  lemma {:induction false} LateItemMisplaced(seen: seq<Item>, out: seq<Item>, buffer: seq<Item>, items: seq<Item>, keep: nat)
    requires Group(seen) == out + buffer && |out| == Excess(Group(seen), keep)
    requires !OnTime(seen, items, keep)
    ensures !Ordered(Stream(out, buffer, Singles(items), keep))
    decreases |items|
  {
    var x, g := items[0], Group(seen);
    var full := Append(buffer, x.key, x.value);
    var n := Excess(full, keep);
    StreamSingle(out, buffer, items, keep);
    if |g| > keep && x.key <= g[|g| - keep - 1].key {
      assert out[|out| - 1] == g[|g| - keep - 1];
      PutMeaning(buffer, x.key, Get(buffer, x.key, []) + x.value);
      Misplaced(out, full, Singles(items[1..]), keep, x.key);
    } else {
      assert [x][1..] == [];
      assert OnTime(seen, [x], keep) && !OnTime(seen + [x], items[1..], keep);
      InTimeItem(seen, out, buffer, x, keep);
      LateItemMisplaced(seen + [x], out + full[..n], full[n..], items[1..], keep);
    }
  }

  lemma Misplaced(out: seq<Item>, full: seq<Item>, batches: seq<seq<Item>>, keep: nat, k: int)
    requires out != [] && k <= out[|out| - 1].key && Has(full, k)
    ensures var n := Excess(full, keep); !Ordered(Stream(out + full[..n], full[n..], batches, keep))
  {
    var n := Excess(full, keep);
    var out' := out + full[..n];
    var final := Stream(out', full[n..], batches, keep);
    StreamPrefix(out', full[n..], batches, keep);
    var i :| 0 <= i < |full| && full[i].key == k;
    assert final[|out| - 1] == out'[|out| - 1] == out[|out| - 1];
    if i < n {
      assert final[|out| + i] == out'[|out| + i] == full[i];
    } else {
      assert full[n..][i - n].key == k;
      StreamKeeps(out', full[n..], batches, keep, k);
      var j :| 0 <= j < |final[|out'|..]| && final[|out'|..][j].key == k;
      assert final[|out'| + j] == final[|out'|..][j];
    }
  }

  /** However the items are cut into batches, every cycle leaves once, complete and in increasing
      order, if and only if no item comes late. */
  lemma ReorderingExact(items: seq<Item>, keep: nat)
    ensures OnTime([], items, keep) <==>
      forall batches | Concat(batches) == items :: Stream([], [], batches, keep) == Group(items)
  {
    assert [] + items == items;
    assert Group<Block>([]) == [] + [];
    if OnTime([], items, keep) {
      forall batches | Concat(batches) == items ensures Stream([], [], batches, keep) == Group(items) {
        StreamGroups([], [], [], batches, keep);
      }
    } else {
      SinglesConcat(items);
      LateItemMisplaced([], [], [], items, keep);
      GroupMeaning(items);
    }
  }

  /** No item at or below the highest cycle seen minus `keep`. */
  predicate WithinBound(items: seq<Item>, keep: nat) {
    forall i, j :: 0 <= j < i < |items| ==> items[i].key > items[j].key - keep
  }

  /** The simple bound on the distance to the highest cycle suffices. */
  lemma {:induction false} BoundSuffices(seen: seq<Item>, items: seq<Item>, keep: nat)
    requires WithinBound(seen + items, keep)
    ensures OnTime(seen, items, keep)
    decreases |items|
  {
    if items != [] {
      var g, x, all := Group(seen), items[0], seen + items;
      GroupMeaning(seen);
      if |g| > keep {
        SpreadKeys(g, |g| - keep - 1, |g| - 1);
        var top := g[|g| - 1].key;
        assert Has(g, top);
        var j :| 0 <= j < |seen| && seen[j].key == top;
        assert all[|seen|] == x && all[j] == seen[j];
      }
      assert (seen + [x]) + items[1..] == all;
      BoundSuffices(seen + [x], items[1..], keep);
    }
  }

  lemma {:induction false} SpreadKeys<T>(m: seq<Entry<T>>, i: nat, j: nat)
    requires Ordered(m) && i <= j < |m|
    ensures m[i].key + (j - i) <= m[j].key
    decreases j - i
  {
    if i < j {
      SpreadKeys(m, i + 1, j);
    }
  }
}
