/**
 Validated building over a whole run: data and times of the readout cycles arrive in any order, and
 building passes visit the cycles. When every visit is complete, and what the events then hold.
 */
module ValidatedRuns {
  import opened Sequences
  import opened OrderedMap
  import opened AsicPacket
  import opened LdaTimestamps
  import opened EventBuilding
  import opened ValidatedBuilding
  import opened ScReading
  import opened ValidatedVisits

  // ---------- The run ----------

  /** A visit, with the lowest full crossing noted for the cycle at that moment. */
  datatype Done = Done(visit: Visit, full: Option<int>)

  datatype Log = Log(done: seq<Done>, buf: Buf)

  const NOTHING_YET := Log([], NO_DATA)

  function WithFull(vs: seq<Visit>, full: seq<Entry<int>>): (r: seq<Done>)
    ensures |r| == |vs|
  {
    if vs == [] then [] else [Done(vs[0], FullOf(full, vs[0].roc))] + WithFull(vs[1..], full)
  }

  function Visits(done: seq<Done>): (r: seq<Visit>)
    ensures |r| == |done|
  {
    if done == [] then [] else [done[0].visit] + Visits(done[1..])
  }

  /** A building pass. */
  function Handle(log: Log, keep: nat): Log {
    var t := TakenOf(log.buf.asic, log.buf.ts, keep);
    Log(log.done + WithFull(t.visits, log.buf.full), log.buf.(asic := t.asic, ts := t.ts))
  }

  function AfterBatch(log: Log, arrs: seq<Arr>): Log {
    log.(buf := FileAll(log.buf, arrs))
  }

  /** Batches arrive, each followed by a pass that keeps `keep` cycles; at the end all are dumped. */
  function RunVisits(log: Log, batches: seq<seq<Arr>>, keep: nat): Log
    decreases |batches|
  {
    if batches == [] then Handle(log, 0) else RunVisits(Handle(AfterBatch(log, batches[0]), keep), batches[1..], keep)
  }

  function Due(buf: Buf): seq<Visit> {
    Join(buf.asic, buf.ts)
  }

  /** Visits made, and visits due. */
  function AllVisits(log: Log): seq<Visit> {
    Visits(log.done) + Due(log.buf)
  }

  /** An arrival for a cycle at or below a visited one. Packets that bring nothing count only on
      request. */
  predicate Late(vs: seq<Visit>, a: Arr, every: bool) {
    (every || Matters(a)) && exists i :: 0 <= i < |vs| && a.roc <= vs[i].roc
  }

  predicate InTime(vs: seq<Visit>, arrs: seq<Arr>, every: bool) {
    forall i :: 0 <= i < |arrs| ==> !Late(vs, arrs[i], every)
  }

  /** No arrival of the run is late. */
  predicate NoneLate(log: Log, batches: seq<seq<Arr>>, keep: nat, every: bool)
    decreases |batches|
  {
    batches == [] ||
    (InTime(Visits(log.done), batches[0], every)
     && NoneLate(Handle(AfterBatch(log, batches[0]), keep), batches[1..], keep, every))
  }

  lemma {:induction false} VisitsConcat(a: seq<Done>, b: seq<Done>)
    ensures Visits(a + b) == Visits(a) + Visits(b)
  {
    if a == [] {
      assert a + b == b;
    } else {
      assert (a + b)[1..] == a[1..] + b;
      VisitsConcat(a[1..], b);
    }
  }

  lemma {:induction false} VisitsWithFull(vs: seq<Visit>, full: seq<Entry<int>>)
    ensures Visits(WithFull(vs, full)) == vs
  {
    if vs != [] {
      VisitsWithFull(vs[1..], full);
    }
  }

  /** A pass moves visits from those due to those made. */
  lemma TakeKeeps(log: Log, keep: nat)
    requires Sorted(log.buf)
    ensures Sorted(Handle(log, keep).buf) && AllVisits(Handle(log, keep)) == AllVisits(log)
  {
    var t := TakenOf(log.buf.asic, log.buf.ts, keep);
    TakenJoin(log.buf.asic, log.buf.ts, keep);
    VisitsConcat(log.done, WithFull(t.visits, log.buf.full));
    VisitsWithFull(t.visits, log.buf.full);
    Regroup(Visits(log.done), t.visits, Join(t.asic, t.ts));
  }

  // ---------- In time: every cycle is visited once, complete ----------

  /** An arrival in time finds its place among all visits. */
  lemma InTimeAbsorbed(log: Log, a: Arr)
    requires Sorted(log.buf) && !Late(Visits(log.done), a, false)
    ensures AllVisits(AfterBatch(log, [a])) == if Matters(a) then Absorb(AllVisits(log), a) else AllVisits(log)
  {
    OneFiled(log.buf, a);
    FileAbsorbs(log.buf, a);
    if Matters(a) {
      AbsorbBehind(Visits(log.done), Due(log.buf), a);
    }
  }

  lemma OneFiled(buf: Buf, a: Arr)
    ensures FileAll(buf, [a]) == File(buf, a)
  {
    assert [a][1..] == [];
  }

  /** Batches in time: the visits are those of everything seen. */
  lemma {:induction false} InTimeBatch(log: Log, whole: Buf, arrs: seq<Arr>)
    requires Sorted(log.buf) && Sorted(whole) && AllVisits(log) == Due(whole) && InTime(Visits(log.done), arrs, false)
    ensures AllVisits(AfterBatch(log, arrs)) == Due(FileAll(whole, arrs))
    decreases |arrs|
  {
    if arrs != [] {
      var a := arrs[0];
      InTimeAbsorbed(log, a);
      OneFiled(log.buf, a);
      FileAbsorbs(whole, a);
      FileSorted(log.buf, a);
      FileSorted(whole, a);
      InTimeBatch(AfterBatch(log, [a]), File(whole, a), arrs[1..]);
    }
  }

  lemma {:induction false} InTimeRun(log: Log, whole: Buf, batches: seq<seq<Arr>>, keep: nat)
    requires Sorted(log.buf) && Sorted(whole) && AllVisits(log) == Due(whole) && NoneLate(log, batches, keep, false)
    ensures AllVisits(RunVisits(log, batches, keep)) == Due(FileAll(whole, Concat(batches)))
    decreases |batches|
  {
    if batches == [] {
      TakeKeeps(log, 0);
    } else {
      var next := AfterBatch(log, batches[0]);
      InTimeBatch(log, whole, batches[0]);
      FileAllSorted(log.buf, batches[0]);
      FileAllSorted(whole, batches[0]);
      TakeKeeps(next, keep);
      InTimeRun(Handle(next, keep), FileAll(whole, batches[0]), batches[1..], keep);
      FileAllConcat(whole, batches[0], Concat(batches[1..]));
    }
  }

  // ---------- Late: the visits no longer rise ----------

  predicate Behind(vs: seq<Visit>, roc: int) {
    exists i :: 0 <= i < |vs| && roc <= vs[i].roc
  }

  lemma RisesParts(vs: seq<Visit>, ws: seq<Visit>)
    requires Rises(vs) && Rises(ws)
    requires forall j :: 0 <= j < |ws| ==> !Behind(vs, ws[j].roc)
    ensures Rises(vs + ws)
  {
    var all := vs + ws;
    forall i, j | 0 <= i < j < |all| ensures all[i].roc < all[j].roc {
      if j >= |vs| {
        assert all[j] == ws[j - |vs|];
        if i >= |vs| {
          assert all[i] == ws[i - |vs|];
        } else {
          assert all[i] == vs[i] && !Behind(vs, ws[j - |vs|].roc);
        }
      }
    }
  }

  lemma NotRising(vs: seq<Visit>, ws: seq<Visit>, roc: int)
    requires !Rises(vs) || (Behind(vs, roc) && HasVisit(ws, roc))
    ensures !Rises(vs + ws)
  {
    var all := vs + ws;
    if !Rises(vs) {
      var i, j :| 0 <= i < j < |vs| && vs[i].roc >= vs[j].roc;
      assert all[i] == vs[i] && all[j] == vs[j];
    } else {
      var i :| 0 <= i < |vs| && roc <= vs[i].roc;
      var j :| 0 <= j < |ws| && ws[j].roc == roc;
      assert all[i] == vs[i] && all[|vs| + j] == ws[j];
    }
  }

  /** Once out of order, a run stays so. */
  lemma {:induction false} FiledBad(log: Log, a: Arr)
    requires Sorted(log.buf) && (!Rises(AllVisits(log)) || Late(Visits(log.done), a, false))
    ensures !Rises(AllVisits(AfterBatch(log, [a])))
  {
    var vs, ws := Visits(log.done), Due(log.buf);
    OneFiled(log.buf, a);
    FileAbsorbs(log.buf, a);
    JoinRising(log.buf);
    AbsorbKeeps(ws, a);
    if !Rises(vs) || Late(vs, a, false) {
      NotRising(vs, Due(File(log.buf, a)), a.roc);
    } else {
      if forall j :: 0 <= j < |ws| ==> !Behind(vs, ws[j].roc) {
        RisesParts(vs, ws);
      }
      var j :| 0 <= j < |ws| && Behind(vs, ws[j].roc);
      assert HasVisit(ws, ws[j].roc);
      NotRising(vs, Due(File(log.buf, a)), ws[j].roc);
    }
  }

  lemma {:induction false} BatchBad(log: Log, arrs: seq<Arr>)
    requires Sorted(log.buf) && (!Rises(AllVisits(log)) || !InTime(Visits(log.done), arrs, false))
    ensures !Rises(AllVisits(AfterBatch(log, arrs)))
    decreases |arrs|
  {
    if arrs != [] {
      var a := arrs[0];
      OneFiled(log.buf, a);
      FileSorted(log.buf, a);
      if !Rises(AllVisits(log)) || Late(Visits(log.done), a, false) {
        FiledBad(log, a);
      } else {
        var i :| 0 <= i < |arrs| && Late(Visits(log.done), arrs[i], false);
        assert arrs[i] == arrs[1..][i - 1];
      }
      BatchBad(AfterBatch(log, [a]), arrs[1..]);
    }
  }

  lemma {:induction false} RunBad(log: Log, batches: seq<seq<Arr>>, keep: nat)
    requires Sorted(log.buf) && (!Rises(AllVisits(log)) || !NoneLate(log, batches, keep, false))
    ensures !Rises(AllVisits(RunVisits(log, batches, keep)))
    decreases |batches|
  {
    if batches == [] {
      TakeKeeps(log, 0);
    } else {
      var next := AfterBatch(log, batches[0]);
      FileAllSorted(log.buf, batches[0]);
      TakeKeeps(next, keep);
      if !Rises(AllVisits(log)) || !InTime(Visits(log.done), batches[0], false) {
        BatchBad(log, batches[0]);
      }
      RunBad(Handle(next, keep), batches[1..], keep);
    }
  }

  /** The dump at the end leaves no data. */
  lemma {:induction false} DumpEmpties(asic: seq<Item>, ts: seq<Entry<TimeData>>)
    ensures TakenOf(asic, ts, 0).asic == []
    decreases |asic| + |ts|
  {
    if asic != [] {
      if ts == [] || asic[0].key < ts[0].key {
        DumpEmpties(asic[1..], ts);
      } else {
        DumpEmpties(if asic[0].key == ts[0].key then [Entry(ts[0].key, [])] + asic[1..] else asic, ts[1..]);
      }
    }
  }

  lemma {:induction false} RunEmpties(log: Log, batches: seq<seq<Arr>>, keep: nat)
    ensures RunVisits(log, batches, keep).buf.asic == []
    decreases |batches|
  {
    if batches == [] {
      DumpEmpties(log.buf.asic, log.buf.ts);
    } else {
      RunEmpties(Handle(AfterBatch(log, batches[0]), keep), batches[1..], keep);
    }
  }

  /** The visits of a run, with the cycles left at its end, are the cycles of everything that
      arrived, each once, complete and in order, if and only if no arrival that brings something
      comes for a cycle at or below a visited one. Otherwise the visits are not even in order. What
      is left are cycles without data. */
  lemma VisitsExact(batches: seq<seq<Arr>>, keep: nat)
    ensures var r := RunVisits(NOTHING_YET, batches, keep); var inTime := NoneLate(NOTHING_YET, batches, keep, false);
      && r.buf.asic == []
      && (AllVisits(r) == Due(FileAll(NO_DATA, Concat(batches))) <==> inTime)
      && (Rises(AllVisits(r)) <==> inTime)
  {
    var whole := FileAll(NO_DATA, Concat(batches));
    RunEmpties(NOTHING_YET, batches, keep);
    FileAllSorted(NO_DATA, Concat(batches));
    JoinRising(whole);
    assert Visits(NOTHING_YET.done) + Due(NO_DATA) == Due(NO_DATA);
    if NoneLate(NOTHING_YET, batches, keep, false) {
      InTimeRun(NOTHING_YET, NO_DATA, batches, keep);
    } else {
      RunBad(NOTHING_YET, batches, keep);
    }
  }

  // ---------- A bound on the distance ----------

  /** No arrival at or below the highest cycle with an ASIC packet so far, minus `keep`. */
  predicate Close(arrs: seq<Arr>, keep: nat) {
    forall i, j :: 0 <= j < i < |arrs| && arrs[j].Blocks? ==> arrs[i].roc > arrs[j].roc - keep
  }

  predicate SeenCycle(seen: seq<Arr>, roc: int) {
    exists j :: 0 <= j < |seen| && seen[j].Blocks? && seen[j].roc == roc
  }

  ghost predicate KeysSeen(asic: seq<Item>, seen: seq<Arr>) {
    forall k :: Has(asic, k) ==> SeenCycle(seen, k)
  }

  /** Visits stay `keep` cycles behind an ASIC packet. */
  predicate Outrun(seen: seq<Arr>, roc: int) {
    exists j :: 0 <= j < |seen| && seen[j].Blocks? && seen[j].roc >= roc
  }

  predicate AllOutrun(seen: seq<Arr>, vs: seq<Visit>, keep: nat) {
    forall i :: 0 <= i < |vs| ==> Outrun(seen, vs[i].roc + keep)
  }

  predicate UpTo(vs: seq<Visit>, top: int) {
    forall i :: 0 <= i < |vs| ==> vs[i].roc <= top
  }

  lemma UpToConcat(a: seq<Visit>, b: seq<Visit>, top: int)
    requires UpTo(a, top) && UpTo(b, top)
    ensures UpTo(a + b, top)
  {
  }

  lemma {:induction false} TakenUpTo(asic: seq<Item>, ts: seq<Entry<TimeData>>, keep: nat, top: int)
    requires Ordered(asic) && Ordered(ts) && (asic != [] ==> asic[|asic| - 1].key <= top)
    ensures UpTo(TakenOf(asic, ts, keep).visits, top - keep)
    decreases |asic| + |ts|
  {
    if |asic| > keep {
      SpreadKeys(asic, 0, |asic| - 1);
      if ts == [] || asic[0].key < ts[0].key {
        TakenUpTo(asic[1..], ts, keep, top);
        UpToConcat(Thrown(asic[0]), TakenOf(asic[1..], ts, keep).visits, top - keep);
      } else {
        var same := asic[0].key == ts[0].key;
        var left := if same then [Entry(ts[0].key, [])] + asic[1..] else asic;
        if same {
          EmptiedSorted(asic);
        }
        TakenUpTo(left, ts[1..], keep, top);
        UpToConcat([Visit(ts[0].key, if same then asic[0].value else [], Some(ts[0].value))],
                   TakenOf(left, ts[1..], keep).visits, top - keep);
      }
    }
  }

  lemma {:induction false} TakenKeys(asic: seq<Item>, ts: seq<Entry<TimeData>>, keep: nat)
    ensures forall k :: Has(TakenOf(asic, ts, keep).asic, k) ==> Has(asic, k)
    decreases |asic| + |ts|
  {
    if |asic| > keep {
      HasTail(asic);
      if ts == [] || asic[0].key < ts[0].key {
        TakenKeys(asic[1..], ts, keep);
      } else {
        var left := if asic[0].key == ts[0].key then [Entry(ts[0].key, [])] + asic[1..] else asic;
        HasTail(left);
        assert left[1..] == asic[1..];
        TakenKeys(left, ts[1..], keep);
      }
    }
  }

  lemma {:induction false} FiledSeen(buf: Buf, seen: seq<Arr>, arrs: seq<Arr>)
    requires KeysSeen(buf.asic, seen)
    ensures KeysSeen(FileAll(buf, arrs).asic, seen + arrs)
    decreases |arrs|
  {
    if arrs == [] {
      assert seen + arrs == seen;
    } else {
      var a := arrs[0];
      var now := seen + [a];
      forall k | Has(File(buf, a).asic, k) ensures SeenCycle(now, k) {
        if a.Blocks? {
          AppendMeaning(buf.asic, a.roc, a.blocks, k);
        }
        if Has(buf.asic, k) {
          var j :| 0 <= j < |seen| && seen[j].Blocks? && seen[j].roc == k;
          assert now[j] == seen[j];
        } else {
          assert now[|seen|] == a;
        }
      }
      FiledSeen(File(buf, a), now, arrs[1..]);
      assert now + arrs[1..] == seen + arrs;
    }
  }

  lemma StillOutrun(seen: seq<Arr>, arrs: seq<Arr>, vs: seq<Visit>, keep: nat)
    requires AllOutrun(seen, vs, keep)
    ensures AllOutrun(seen + arrs, vs, keep)
  {
    forall i | 0 <= i < |vs| ensures Outrun(seen + arrs, vs[i].roc + keep) {
      var j :| 0 <= j < |seen| && seen[j].Blocks? && seen[j].roc >= vs[i].roc + keep;
      assert (seen + arrs)[j] == seen[j];
    }
  }

  lemma TakenOutrun(log: Log, keep: nat, seen: seq<Arr>)
    requires Sorted(log.buf) && KeysSeen(log.buf.asic, seen) && AllOutrun(seen, Visits(log.done), keep)
    ensures var r := Handle(log, keep); KeysSeen(r.buf.asic, seen) && AllOutrun(seen, Visits(r.done), keep)
  {
    var asic, t := log.buf.asic, TakenOf(log.buf.asic, log.buf.ts, keep);
    VisitsConcat(log.done, WithFull(t.visits, log.buf.full));
    VisitsWithFull(t.visits, log.buf.full);
    TakenKeys(asic, log.buf.ts, keep);
    if asic != [] {
      var top := asic[|asic| - 1].key;
      TakenUpTo(asic, log.buf.ts, keep, top);
      assert Has(asic, top);
      var j :| 0 <= j < |seen| && seen[j].Blocks? && seen[j].roc == top;
      forall i | 0 <= i < |t.visits| ensures Outrun(seen, t.visits[i].roc + keep) {
        assert seen[j].roc >= t.visits[i].roc + keep;
      }
    }
  }

  lemma CloseInTime(seen: seq<Arr>, arrs: seq<Arr>, vs: seq<Visit>, keep: nat)
    requires Close(seen + arrs, keep) && AllOutrun(seen, vs, keep)
    ensures InTime(vs, arrs, true)
  {
    var all := seen + arrs;
    forall i | 0 <= i < |arrs| ensures !Late(vs, arrs[i], true) {
      forall n | 0 <= n < |vs| ensures arrs[i].roc > vs[n].roc {
        assert Outrun(seen, vs[n].roc + keep);
        var j :| 0 <= j < |seen| && seen[j].Blocks? && seen[j].roc >= vs[n].roc + keep;
        assert all[j] == seen[j] && all[|seen| + i] == arrs[i];
      }
    }
  }

  lemma {:induction false} CloseRun(seen: seq<Arr>, log: Log, batches: seq<seq<Arr>>, keep: nat)
    requires Sorted(log.buf) && KeysSeen(log.buf.asic, seen) && AllOutrun(seen, Visits(log.done), keep)
    requires Close(seen + Concat(batches), keep)
    ensures NoneLate(log, batches, keep, true)
    decreases |batches|
  {
    if batches != [] {
      var now, more := seen + batches[0], Concat(batches[1..]);
      Regroup(seen, batches[0], more);
      ClosePrefix(now, more, keep);
      CloseInTime(seen, batches[0], Visits(log.done), keep);
      var next := AfterBatch(log, batches[0]);
      FileAllSorted(log.buf, batches[0]);
      FiledSeen(log.buf, seen, batches[0]);
      StillOutrun(seen, batches[0], Visits(log.done), keep);
      TakenOutrun(next, keep, now);
      TakeKeeps(next, keep);
      CloseRun(now, Handle(next, keep), batches[1..], keep);
    }
  }

  lemma ClosePrefix(a: seq<Arr>, b: seq<Arr>, keep: nat)
    requires Close(a + b, keep)
    ensures Close(a, keep)
  {
    forall i, j | 0 <= j < i < |a| && a[j].Blocks? ensures a[i].roc > a[j].roc - keep {
      assert (a + b)[i] == a[i] && (a + b)[j] == a[j];
    }
  }

  /** The bound on the distance suffices, however the arrivals are cut into batches. */
  lemma DistanceSuffices(batches: seq<seq<Arr>>, keep: nat)
    requires Close(Concat(batches), keep)
    ensures NoneLate(NOTHING_YET, batches, keep, true)
  {
    assert [] + Concat(batches) == Concat(batches);
    CloseRun([], NOTHING_YET, batches, keep);
  }
}
