/**
 Cycles that leave the buffers one after the other: what waits, what has left, and when no packet comes
 for a cycle that has left.
 */
module LeftCycles {
  import opened Sequences
  import opened OrderedMap
  import opened AsicPacket
  import opened LdaTimestamps
  import opened EventBuilding
  import opened ScReading
  import opened RocReading
  import opened ValidatedVisits
  import opened ValidatedRuns

  // ---------- Real events ----------

  /** Events that are no dummies. */
  function RealEvents(es: seq<Event>): seq<Event> {
    if es == [] then [] else (if es[0].DummyEvent? then [] else [es[0]]) + RealEvents(es[1..])
  }

  lemma {:induction false} RealConcat(a: seq<Event>, b: seq<Event>)
    ensures RealEvents(a + b) == RealEvents(a) + RealEvents(b)
  {
    if a == [] {
      assert a + b == b;
    } else {
      assert (a + b)[1..] == a[1..] + b;
      RealConcat(a[1..], b);
      Regroup(if a[0].DummyEvent? then [] else [a[0]], RealEvents(a[1..]), RealEvents(b));
    }
  }

  lemma {:induction false} RealDummies(from: int, to: int)
    ensures RealEvents(Dummies(from, to)) == []
    decreases if from < to then to - from else 0
  {
    if from < to {
      RealDummies(from + 1, to);
      assert Dummies(from, to)[1..] == Dummies(from + 1, to);
    }
  }

  lemma FilledOne(cfg: BuildConfig, last: int, n: int, e: Event, more: seq<Event>)
    requires !e.DummyEvent?
    ensures RealEvents(FillBefore(cfg, last, n) + [e] + more) == [e] + RealEvents(more)
  {
    var fill := FillBefore(cfg, last, n);
    RealConcat(fill + [e], more);
    RealConcat(fill, [e]);
    RealDummies(last + 1, n);
    assert [e][1..] == [] && RealEvents([]) == [];
    assert RealEvents([e]) == [e] && [] + [e] == [e];
  }

  // ---------- Time data left by a pass ----------

  /** Two tables say the same of a cycle. */
  predicate SameAt(ts: seq<Entry<TimeData>>, ts': seq<Entry<TimeData>>, k: int) {
    (Has(ts, k) <==> Has(ts', k)) && Get(ts, k, NO_TIME_DATA) == Get(ts', k, NO_TIME_DATA)
  }

  lemma ErasedSame(ts: seq<Entry<TimeData>>, roc: int, cycles: seq<Item>)
    requires NoneAt(cycles, roc)
    ensures forall i :: 0 <= i < |cycles| ==> SameAt(Erase(ts, roc), ts, cycles[i].key)
  {
    EraseMeaning(ts, roc);
    forall i | 0 <= i < |cycles| ensures SameAt(Erase(ts, roc), ts, cycles[i].key) {
      GetErase(ts, roc, cycles[i].key, NO_TIME_DATA);
    }
  }

  /** The time data that a pass leaves: those of all cycles but the ones it took. */
  ghost predicate LeavesTimes(ts: seq<Entry<TimeData>>, left: seq<Entry<TimeData>>, taken: seq<Item>) {
    forall k :: if Has(taken, k) then !Has(left, k) else SameAt(left, ts, k)
  }

  lemma LeavesMore(ts: seq<Entry<TimeData>>, mid: seq<Entry<TimeData>>, left: seq<Entry<TimeData>>, e: Item, more: seq<Item>)
    requires LeavesTimes(mid, left, more) && !Has(mid, e.key) && !Has(more, e.key)
    requires forall k :: k != e.key ==> SameAt(mid, ts, k)
    ensures LeavesTimes(ts, left, [e] + more)
  {
    HasTail([e] + more);
    assert ([e] + more)[1..] == more;
    forall k ensures if Has([e] + more, k) then !Has(left, k) else SameAt(left, ts, k) {
      assert if Has(more, k) then !Has(left, k) else SameAt(left, mid, k);
      if k != e.key {
        assert SameAt(mid, ts, k);
      }
    }
  }

  lemma ErasedElsewhere(ts: seq<Entry<TimeData>>, roc: int)
    ensures !Has(Erase(ts, roc), roc) && forall k :: k != roc ==> SameAt(Erase(ts, roc), ts, k)
  {
    EraseMeaning(ts, roc);
    forall k | k != roc ensures SameAt(Erase(ts, roc), ts, k) {
      GetErase(ts, roc, k, NO_TIME_DATA);
    }
  }

  predicate NoneAt(cycles: seq<Item>, roc: int) {
    forall i :: 0 <= i < |cycles| ==> cycles[i].key != roc
  }

  lemma TakenOther(asic: seq<Item>, n: nat)
    requires Ordered(asic) && 0 < n <= |asic|
    ensures NoneAt(asic[1..][..n - 1], asic[0].key) && !Has(asic[1..][..n - 1], asic[0].key)
  {
    var taken := asic[1..][..n - 1];
    forall i | 0 <= i < |taken| ensures taken[i].key != asic[0].key {
      assert taken[i] == asic[i + 1];
    }
  }

  // ---------- What remains ----------

  /** What waits is what arrived, but the cycles that have left. */
  ghost predicate Remains(buf: Buf, out: seq<Item>, whole: Buf) {
    && Sorted(whole) && AllPaired(whole.ts) && AllPaired(buf.ts)
    && whole.asic == out + buf.asic && LeavesTimes(whole.ts, buf.ts, out)
  }

  lemma {:induction false} BelowAll(out: seq<Item>, k: int)
    requires forall x :: Has(out, x) ==> x < k
    ensures Below(out, k)
  {
    forall i | 0 <= i < |out| ensures out[i].key < k {
      assert Has(out, out[i].key);
    }
  }

  /** An arrival for a cycle above those that have left. */
  lemma RemainsFiled(buf: Buf, out: seq<Item>, whole: Buf, a: Arr)
    requires Remains(buf, out, whole) && forall x :: Has(out, x) ==> x < a.roc
    ensures Remains(File(buf, a), out, File(whole, a))
    ensures forall k :: Has(out, k) ==> SameAt(File(whole, a).ts, whole.ts, k)
  {
    FileSorted(whole, a);
    FiledStaysPaired(buf, a);
    FiledStaysPaired(whole, a);
    match a
    case Blocks(roc, blocks, _) =>
      BelowAll(out, roc);
      BehindFront(out, buf.asic, roc, Get(buf.asic, roc, []) + blocks, []);
    case TimeInfo(roc, e) => TimesFiled(buf.ts, out, whole.ts, roc, e);
  }

  lemma TimesFiled(ts: seq<Entry<TimeData>>, out: seq<Item>, whole: seq<Entry<TimeData>>, roc: int, e: Effect)
    requires LeavesTimes(whole, ts, out) && !Has(out, roc)
    ensures LeavesTimes(PutEffect(whole, roc, e), PutEffect(ts, roc, e), out)
    ensures forall k :: Has(out, k) ==> SameAt(PutEffect(whole, roc, e), whole, k)
  {
    assert SameAt(ts, whole, roc);
    var t := ApplyEffect(Get(whole, roc, NO_TIME_DATA), e);
    PutMeaning(whole, roc, t);
    PutMeaning(ts, roc, t);
    forall k ensures if Has(out, k) then !Has(Put(ts, roc, t), k) else SameAt(Put(ts, roc, t), Put(whole, roc, t), k) {
      GetPut(whole, roc, t, k, NO_TIME_DATA);
      GetPut(ts, roc, t, k, NO_TIME_DATA);
      assert if Has(out, k) then !Has(ts, k) else SameAt(ts, whole, k);
    }
    forall k | Has(out, k) ensures SameAt(PutEffect(whole, roc, e), whole, k) {
      GetPut(whole, roc, t, k, NO_TIME_DATA);
    }
  }

  lemma FiledStaysPaired(buf: Buf, a: Arr)
    requires AllPaired(buf.ts)
    ensures AllPaired(File(buf, a).ts)
  {
    match a
    case Blocks(_, _, _) =>
    case TimeInfo(roc, e) =>
      GetPaired(buf.ts, roc);
      PutPaired(buf.ts, roc, ApplyEffect(Get(buf.ts, roc, NO_TIME_DATA), e));
  }

  lemma {:induction false} RemainsAll(buf: Buf, out: seq<Item>, whole: Buf, arrs: seq<Arr>)
    requires Remains(buf, out, whole)
    requires forall i, x :: 0 <= i < |arrs| && Has(out, x) ==> x < arrs[i].roc
    ensures Remains(FileAll(buf, arrs), out, FileAll(whole, arrs))
    ensures forall k :: Has(out, k) ==> SameAt(FileAll(whole, arrs).ts, whole.ts, k)
    decreases |arrs|
  {
    if arrs != [] {
      RemainsFiled(buf, out, whole, arrs[0]);
      RemainsAll(File(buf, arrs[0]), out, File(whole, arrs[0]), arrs[1..]);
    }
  }

  /** A pass takes the front of what remains. */
  lemma RemainsTaken(buf: Buf, out: seq<Item>, whole: Buf, n: nat, left: seq<Entry<TimeData>>)
    requires Remains(buf, out, whole) && n <= |buf.asic| && AllPaired(left) && LeavesTimes(buf.ts, left, buf.asic[..n])
    ensures Remains(buf.(asic := buf.asic[n..], ts := left), out + buf.asic[..n], whole)
    ensures forall i :: 0 <= i < n ==> SameAt(buf.ts, whole.ts, buf.asic[..n][i].key)
  {
    var now := buf.asic[..n];
    assert buf.asic == now + buf.asic[n..];
    Regroup(out, now, buf.asic[n..]);
    OrderedParts(out, buf.asic);
    forall i | 0 <= i < |now| ensures SameAt(buf.ts, whole.ts, now[i].key) {
      assert now[i] == buf.asic[i];
      assert !Has(out, now[i].key);
    }
    LeavesTwice(whole.ts, buf.ts, left, out, now);
  }

  lemma LeavesTwice(ts: seq<Entry<TimeData>>, mid: seq<Entry<TimeData>>, left: seq<Entry<TimeData>>, a: seq<Item>, b: seq<Item>)
    requires LeavesTimes(ts, mid, a) && LeavesTimes(mid, left, b)
    ensures LeavesTimes(ts, left, a + b)
  {
    forall k ensures if Has(a + b, k) then !Has(left, k) else SameAt(left, ts, k) {
      HasEither(a, b, k);
      assert if Has(a, k) then !Has(mid, k) else SameAt(mid, ts, k);
      assert if Has(b, k) then !Has(left, k) else SameAt(left, mid, k);
    }
  }

  lemma HasEither<T>(a: seq<Entry<T>>, b: seq<Entry<T>>, k: int)
    ensures Has(a + b, k) <==> Has(a, k) || Has(b, k)
  {
    if Has(a, k) {
      var i :| 0 <= i < |a| && a[i].key == k;
      assert (a + b)[i] == a[i];
    }
    if Has(b, k) {
      var i :| 0 <= i < |b| && b[i].key == k;
      assert (a + b)[|a| + i] == b[i];
    }
    if Has(a + b, k) && !Has(a, k) {
      var i :| 0 <= i < |a + b| && (a + b)[i].key == k;
      assert b[i - |a|] == (a + b)[i];
    }
  }

  /** Cycles that have left are `keep` behind an ASIC packet. */
  ghost predicate LeftBehind(seen: seq<Arr>, out: seq<Item>, whole: Buf, keep: nat) {
    KeysSeen(whole.asic, seen) && forall k :: Has(out, k) ==> Outrun(seen, k + keep)
  }

  lemma LeftAbove(seen: seq<Arr>, arrs: seq<Arr>, out: seq<Item>, whole: Buf, keep: nat)
    requires LeftBehind(seen, out, whole, keep) && Close(seen + arrs, keep)
    ensures forall i, x :: 0 <= i < |arrs| && Has(out, x) ==> x < arrs[i].roc
  {
    var all := seen + arrs;
    forall i, x | 0 <= i < |arrs| && Has(out, x) ensures x < arrs[i].roc {
      assert Outrun(seen, x + keep);
      var j :| 0 <= j < |seen| && seen[j].Blocks? && seen[j].roc >= x + keep;
      assert all[j] == seen[j] && all[|seen| + i] == arrs[i];
    }
  }

  lemma LeftBehindMore(seen: seq<Arr>, arrs: seq<Arr>, out: seq<Item>, whole: Buf, keep: nat)
    requires LeftBehind(seen, out, whole, keep)
    ensures LeftBehind(seen + arrs, out, FileAll(whole, arrs), keep)
  {
    FiledSeen(whole, seen, arrs);
    forall k | Has(out, k) ensures Outrun(seen + arrs, k + keep) {
      assert Outrun(seen, k + keep);
      var j :| 0 <= j < |seen| && seen[j].Blocks? && seen[j].roc >= k + keep;
      assert (seen + arrs)[j] == seen[j];
    }
  }

  /** A pass keeps `keep` cycles, so those it takes are that far behind the last one. */
  lemma PassLeavesBehind(seen: seq<Arr>, out: seq<Item>, asic: seq<Item>, whole: Buf, keep: nat)
    requires LeftBehind(seen, out, whole, keep) && Ordered(asic) && whole.asic == out + asic
    ensures LeftBehind(seen, out + asic[..Excess(asic, keep)], whole, keep)
  {
    var n := Excess(asic, keep);
    forall k | Has(out + asic[..n], k) ensures Outrun(seen, k + keep) {
      HasEither(out, asic[..n], k);
      if Has(out, k) {
        assert Outrun(seen, k + keep);
      } else {
        var i :| 0 <= i < n && asic[..n][i].key == k;
        var top := asic[|asic| - 1].key;
        SpreadKeys(asic, i, |asic| - 1);
        assert whole.asic[|out| + |asic| - 1].key == top && Has(whole.asic, top);
        assert SeenCycle(seen, top);
        var j :| 0 <= j < |seen| && seen[j].Blocks? && seen[j].roc == top;
      }
    }
  }
}
