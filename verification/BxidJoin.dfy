/**
 The merge of `CaliceAhcalBifBxidDataCollector.cc` with a fixed set of active detectors: what is
 written does not depend on the order of arrival, and for ordered streams it is their join.
 */
module BxidJoin {
  import opened Sequences
  import opened BxidMerging

  // ---------- The table events aside ----------

  function Strip(ms: seq<Sync>): (r: seq<Sync>)
    ensures |r| == |ms|
  {
    if ms == [] then [] else Strip(ms[..|ms| - 1]) + [ms[|ms| - 1].(table := [])]
  }

  /** The collector as if it knew no table. */
  function NoTable(c: Coll): Coll {
    Coll(c.queues, [], Strip(c.written), Strip(c.dropped), c.discarded)
  }

  lemma StripAdd(ms: seq<Sync>, m: Sync)
    ensures Strip(ms + [m]) == Strip(ms) + [m.(table := [])]
  {
    assert (ms + [m])[..|ms|] == ms;
  }

  lemma JoinNoTable(s: Setup, c: Coll)
    ensures NoTable(JoinFronts(s, c)) == JoinFronts(s, NoTable(c))
  {
    var m := Merged(c, MinKey(c.queues));
    StripAdd(c.written, m);
    StripAdd(c.dropped, m);
  }

  lemma PassNoTable(s: Setup, c: Coll)
    requires !Decide(s.active, c.queues, 0).Halt?
    ensures NoTable(Pass(s, c)) == Pass(s, NoTable(c))
  {
    JoinNoTable(s, c);
  }

  lemma {:induction false} BuildNoTable(s: Setup, c: Coll)
    requires SomeActive(s.active)
    ensures NoTable(Build(s, c)) == Build(s, NoTable(c))
    decreases Total(c.queues)
  {
    if !Decide(s.active, c.queues, 0).Halt? {
      PassTakes(s, c);
      PassNoTable(s, c);
      BuildNoTable(s, Pass(s, c));
    }
  }

  // ---------- Arrival order ----------

  function Add(c: Coll, d: nat, e: Ev): Coll
    requires d < 4
  {
    c.(queues := c.queues[d := c.queues[d] + [e]])
  }

  lemma {:induction false} DecideAdd(active: Flags, q: Queues, d: nat, e: Ev, i: nat)
    requires d < 4 && i <= |q| && active[d]
    requires !Decide(active, q, i).Halt?
    ensures Decide(active, q[d := q[d] + [e]], i) == Decide(active, q, i)
    decreases |q| - i
  {
    if i < |q| && (q[i] == [] || !Bad(i, q[i][0])) {
      DecideAdd(active, q, d, e, i + 1);
    }
  }

  lemma RestAdd(s: seq<Ev>, e: Ev, k: Key)
    requires s != []
    ensures Rest(s + [e], k) == Rest(s, k) + [e] && Part(s + [e], k) == Part(s, k) && At(s + [e], k) == At(s, k)
  {
    assert (s + [e])[1..] == s[1..] + [e];
  }

  /** What counts of a queue are whether it is empty, and its front. */
  lemma MinKeyAdd(q: Queues, d: nat, e: Ev)
    requires d < 4 && q[d] != []
    ensures MinKey(q[d := q[d] + [e]]) == MinKey(q)
  {
    var q' := q[d := q[d] + [e]];
    assert forall i :: 0 <= i < 4 ==> RocOf(q'[i]) == RocOf(q[i]) && BxidOf(q'[i]) == BxidOf(q[i]);
  }

  lemma PopKeyAdd(q: Queues, d: nat, e: Ev, k: Key)
    requires d < 4 && q[d] != []
    ensures PopKey(q[d := q[d] + [e]], k) == PopKey(q, k)[d := PopKey(q, k)[d] + [e]]
    ensures forall i :: 0 <= i < 4 ==>
      Part(q[d := q[d] + [e]][i], k) == Part(q[i], k) && At(q[d := q[d] + [e]][i], k) == At(q[i], k)
  {
    RestAdd(q[d], e, k);
  }

  lemma JoinAdd(s: Setup, c: Coll, d: nat, e: Ev)
    requires d < 4 && c.queues[d] != []
    ensures JoinFronts(s, Add(c, d, e)) == Add(JoinFronts(s, c), d, e)
  {
    var k := MinKey(c.queues);
    MinKeyAdd(c.queues, d, e);
    PopKeyAdd(c.queues, d, e, k);
    assert Merged(Add(c, d, e), k) == Merged(c, k);
  }

  lemma PassAdd(s: Setup, c: Coll, d: nat, e: Ev)
    requires d < 4 && s.active[d] && !Decide(s.active, c.queues, 0).Halt?
    ensures Decide(s.active, Add(c, d, e).queues, 0) == Decide(s.active, c.queues, 0)
    ensures Pass(s, Add(c, d, e)) == Add(Pass(s, c), d, e)
  {
    DecideAdd(s.active, c.queues, d, e, 0);
    var r := Decide(s.active, c.queues, 0);
    if r.Discard? {
      var q := c.queues;
      if r.d == d {
        assert (q[d] + [e])[1..] == q[d][1..] + [e];
      }
      assert q[d := q[d] + [e]][r.d := q[d := q[d] + [e]][r.d][1..]] == q[r.d := q[r.d][1..]][d := q[r.d := q[r.d][1..]][d] + [e]];
    } else {
      JoinMeans(s.active, c.queues, 0);
      JoinAdd(s, c, d, e);
    }
  }

  /** Merging first and adding an event later is adding it first. */
  lemma {:induction false} BuildAdd(s: Setup, c: Coll, d: nat, e: Ev)
    requires d < 4 && s.active[d]
    ensures Build(s, Add(Build(s, c), d, e)) == Build(s, Add(c, d, e))
    decreases Total(c.queues)
  {
    if !Decide(s.active, c.queues, 0).Halt? {
      PassTakes(s, c);
      PassAdd(s, c, d, e);
      BuildAdd(s, Pass(s, c), d, e);
    }
  }

  lemma {:induction false} BuildTwice(s: Setup, c: Coll)
    requires SomeActive(s.active)
    ensures Build(s, Build(s, c)) == Build(s, c)
    decreases Total(c.queues)
  {
    if !Decide(s.active, c.queues, 0).Halt? {
      PassTakes(s, c);
      BuildTwice(s, Pass(s, c));
    }
  }

  /** While an active detector's queue is empty, only badly tagged events can be taken. */
  lemma {:induction false} WaitingWritesNothing(s: Setup, c: Coll)
    requires SomeActive(s.active) && Waits(s.active, c.queues)
    ensures Build(s, c).written == c.written && Build(s, c).dropped == c.dropped
    decreases Total(c.queues)
  {
    var r := Decide(s.active, c.queues, 0);
    if !r.Halt? {
      PassTakes(s, c);
      JoinMeans(s.active, c.queues, 0);
      assert r.Discard?;
      var d :| 0 <= d < 4 && s.active[d] && c.queues[d] == [];
      assert Pass(s, c).queues[d] == [];
      WaitingWritesNothing(s, Pass(s, c));
    }
  }

  datatype Arrival = Arrival(source: nat, e: Ev)

  function ReceiveAll(s: Setup, arrivals: seq<Arrival>): Result {
    if arrivals == [] then Returns(EMPTY)
    else
      var before := ReceiveAll(s, arrivals[..|arrivals| - 1]);
      if before.NeverReturns? then before
      else Receive(s, before.c, arrivals[|arrivals| - 1].source, arrivals[|arrivals| - 1].e)
  }

  predicate Accepted(a: Arrival) {
    !a.e.fake && a.source < 4
  }

  /** The accepted events of each detector, in order. */
  function Streams(arrivals: seq<Arrival>): Queues {
    if arrivals == [] then [[], [], [], []]
    else
      var q, a := Streams(arrivals[..|arrivals| - 1]), arrivals[|arrivals| - 1];
      if Accepted(a) then q[a.source := q[a.source] + [a.e]] else q
  }

  function Begin(q: Queues): Coll {
    Coll(q, [], [], [], [])
  }

  predicate Settled(s: Setup, c: Coll, q: Queues)
    requires SomeActive(s.active)
  {
    Waits(s.active, c.queues) && NoTable(Build(s, c)) == Build(s, Begin(q))
  }

  lemma EnqueueNoTable(c: Coll, source: nat, e: Ev)
    requires source <= TABLE
    ensures NoTable(Enqueue(c, source, e)) == if source < 4 then Add(NoTable(c), source, e) else NoTable(c)
  {
  }

  lemma SettleOn(s: Setup, c: Coll, q: Queues, a: Arrival)
    requires SomeActive(s.active) && Settled(s, c, q) && (Accepted(a) ==> s.active[a.source])
    ensures var r := Receive(s, c, a.source, a.e);
      r.Returns? && Settled(s, r.c, if Accepted(a) then q[a.source := q[a.source] + [a.e]] else q)
  {
    if !a.e.fake && a.source <= TABLE {
      var c' := Enqueue(c, a.source, a.e);
      BuildWaits(s, c');
      BuildTwice(s, c');
      BuildNoTable(s, c');
      BuildNoTable(s, c);
      EnqueueNoTable(c, a.source, a.e);
      if a.source < 4 {
        BuildAdd(s, NoTable(c), a.source, a.e);
        BuildAdd(s, Begin(q), a.source, a.e);
      }
    }
  }

  lemma {:induction false} RunSettles(s: Setup, arrivals: seq<Arrival>)
    requires SomeActive(s.active) && FromActive(s, arrivals)
    ensures var r := ReceiveAll(s, arrivals); r.Returns? && Settled(s, r.c, Streams(arrivals))
  {
    if arrivals == [] {
      assert Strip([]) == [];
      var d :| 0 <= d < 4 && s.active[d];
      assert EMPTY.queues[d] == [];
    } else {
      RunSettles(s, arrivals[..|arrivals| - 1]);
      SettleOn(s, ReceiveAll(s, arrivals[..|arrivals| - 1]).c, Streams(arrivals[..|arrivals| - 1]), arrivals[|arrivals| - 1]);
    }
  }

  /** Events come from active detectors only. */
  predicate FromActive(s: Setup, arrivals: seq<Arrival>) {
    forall i :: 0 <= i < |arrivals| && Accepted(arrivals[i]) ==> s.active[arrivals[i].source]
  }

  /** Whichever detectors are active, if any, and whatever the tags and the order of arrival: the
      detector events written, and those thrown away, are a function of the streams. */
  lemma ArrivalOrderIrrelevant(s: Setup, arrivals: seq<Arrival>)
    requires SomeActive(s.active) && FromActive(s, arrivals)
    ensures var r := ReceiveAll(s, arrivals);
      && r.Returns?
      && Strip(r.c.written) == Build(s, Begin(Streams(arrivals))).written
      && Strip(r.c.dropped) == Build(s, Begin(Streams(arrivals))).dropped
  {
    RunSettles(s, arrivals);
    WaitingWritesNothing(s, ReceiveAll(s, arrivals).c);
  }

  // ---------- The join ----------

  /** Detector events of one merged event. */
  datatype Row = Row(bif: seq<Ev>, hodoscope1: seq<Ev>, hodoscope2: seq<Ev>, ahcal: seq<Ev>)

  function RowOf(m: Sync): Row {
    Row(m.bif, m.hodoscope1, m.hodoscope2, m.ahcal)
  }

  function RowsOf(ms: seq<Sync>): (r: seq<Row>)
    ensures |r| == |ms|
  {
    if ms == [] then [] else RowsOf(ms[..|ms| - 1]) + [RowOf(ms[|ms| - 1])]
  }

  lemma RowsOfAdd(ms: seq<Sync>, m: Sync)
    ensures RowsOf(ms + [m]) == RowsOf(ms) + [RowOf(m)]
  {
    assert (ms + [m])[..|ms|] == ms;
  }

  lemma {:induction false} RowsOfStrip(ms: seq<Sync>)
    ensures RowsOf(Strip(ms)) == RowsOf(ms)
  {
    if ms != [] {
      RowsOfStrip(ms[..|ms| - 1]);
      RowsOfAdd(Strip(ms[..|ms| - 1]), ms[|ms| - 1].(table := []));
    }
  }

  /** The event of a stream that has a key. */
  function Find(s: seq<Ev>, k: Key): (r: seq<Ev>)
    ensures |r| <= 1
  {
    if s == [] then [] else if KeyOf(s[0]) == k then [s[0]] else Find(s[1..], k)
  }

  /** Every active detector's stream has got as far as a key. */
  predicate Reached(active: Flags, q: Queues, k: Key) {
    forall d :: 0 <= d < 4 && active[d] ==> q[d] != [] && !Less(KeyOf(q[d][|q[d]| - 1]), k)
  }

  predicate Matched(s: Setup, q: Queues, k: Key) {
    && (s.mandatory[BIF] && s.active[BIF] ==> Find(q[BIF], k) != [])
    && (s.mandatory[HODOSCOPE1] && s.active[HODOSCOPE1] ==> Find(q[HODOSCOPE1], k) != [])
    && (s.mandatory[HODOSCOPE2] && s.active[HODOSCOPE2] ==> Find(q[HODOSCOPE2], k) != [])
  }

  /** The join: for each AHCAL event as far as all active streams have got, if all active, mandatory
      streams have its key, the events with that key. */
  function JoinOf(s: Setup, q: Queues, ahcal: seq<Ev>): seq<Row>
    decreases |ahcal|
  {
    if ahcal == [] then []
    else
      var k := KeyOf(ahcal[0]);
      (if Reached(s.active, q, k) && Matched(s, q, k)
       then [Row(Find(q[BIF], k), Find(q[HODOSCOPE1], k), Find(q[HODOSCOPE2], k), [ahcal[0]])] else [])
      + JoinOf(s, q, ahcal[1..])
  }

  /** A well-tagged stream with strictly increasing keys. */
  predicate Ordered(d: nat, s: seq<Ev>) {
    && (forall i :: 0 <= i < |s| ==> !Bad(d, s[i]))
    && (forall i, j :: 0 <= i < j < |s| ==> Less(KeyOf(s[i]), KeyOf(s[j])))
  }

  predicate AllOrdered(q: Queues) {
    Ordered(0, q[0]) && Ordered(1, q[1]) && Ordered(2, q[2]) && Ordered(3, q[3])
  }

  lemma {:induction false} FindAbove(s: seq<Ev>, k: Key)
    requires forall i :: 0 <= i < |s| ==> Less(k, KeyOf(s[i]))
    ensures Find(s, k) == []
  {
    if s != [] {
      FindAbove(s[1..], k);
    }
  }

  lemma FindLeast(d: nat, s: seq<Ev>, k: Key)
    requires Ordered(d, s) && (s != [] ==> !Less(KeyOf(s[0]), k))
    ensures Find(s, k) == Part(s, k)
  {
    if s != [] && KeyOf(s[0]) != k {
      FindAbove(s, k);
    }
  }

  lemma FindLater(s: seq<Ev>, k: Key, later: Key)
    requires Less(k, later)
    ensures Find(Rest(s, k), later) == Find(s, later)
  {
  }

  lemma ReachedLater(active: Flags, q: Queues, k: Key, later: Key)
    requires Less(k, later)
    ensures Reached(active, PopKey(q, k), later) == Reached(active, q, later)
  {
    forall d | 0 <= d < 4
      ensures var s, t := q[d], Rest(q[d], k);
        (s != [] && !Less(KeyOf(s[|s| - 1]), later)) == (t != [] && !Less(KeyOf(t[|t| - 1]), later))
    {
      var s, t := q[d], Rest(q[d], k);
      if t != [] {
        assert t[|t| - 1] == s[|s| - 1];
      }
    }
    assert forall d :: 0 <= d < 4 ==> PopKey(q, k)[d] == Rest(q[d], k);
  }

  /** Taking the least key leaves the join of all later keys as it is. */
  lemma {:induction false} JoinLater(s: Setup, q: Queues, k: Key, ahcal: seq<Ev>)
    requires forall i :: 0 <= i < |ahcal| ==> Less(k, KeyOf(ahcal[i]))
    ensures JoinOf(s, PopKey(q, k), ahcal) == JoinOf(s, q, ahcal)
    decreases |ahcal|
  {
    if ahcal != [] {
      var later := KeyOf(ahcal[0]);
      ReachedLater(s.active, q, k, later);
      FindLater(q[BIF], k, later);
      FindLater(q[HODOSCOPE1], k, later);
      FindLater(q[HODOSCOPE2], k, later);
      JoinLater(s, q, k, ahcal[1..]);
    }
  }

  /** Front events with a key. */
  function RowAt(q: Queues, k: Key): Row {
    Row(Part(q[BIF], k), Part(q[HODOSCOPE1], k), Part(q[HODOSCOPE2], k), Part(q[AHCAL], k))
  }

  function IfComplete(s: Setup, q: Queues, k: Key): seq<Row> {
    if Complete(s, q, k) then [RowAt(q, k)] else []
  }

  /** No front is below the key, and every active detector has one. */
  predicate AtLeast(active: Flags, q: Queues, k: Key) {
    && (forall d :: 0 <= d < 4 && active[d] ==> q[d] != [])
    && (forall d :: 0 <= d < 4 && q[d] != [] ==> !Less(KeyOf(q[d][0]), k))
  }

  lemma FindFronts(active: Flags, q: Queues, k: Key)
    requires AllOrdered(q) && AtLeast(active, q, k)
    ensures Find(q[BIF], k) == Part(q[BIF], k)
    ensures Find(q[HODOSCOPE1], k) == Part(q[HODOSCOPE1], k)
    ensures Find(q[HODOSCOPE2], k) == Part(q[HODOSCOPE2], k)
  {
    FindLeast(BIF, q[BIF], k);
    FindLeast(HODOSCOPE1, q[HODOSCOPE1], k);
    FindLeast(HODOSCOPE2, q[HODOSCOPE2], k);
  }

  lemma FrontAlone(s: seq<Ev>, k: Key)
    requires Ordered(AHCAL, s) && s != [] && !Less(KeyOf(s[0]), k)
    ensures forall i :: 0 <= i < |Rest(s, k)| ==> Less(k, KeyOf(Rest(s, k)[i]))
  {
  }

  /** The AHCAL is active and mandatory. */
  predicate AhcalJoins(s: Setup) {
    s.active[AHCAL] && s.mandatory[AHCAL]
  }

  /** The fronts are what the join says about the least key. */
  lemma JoinFront(s: Setup, q: Queues, k: Key)
    requires AhcalJoins(s) && AllOrdered(q) && AtLeast(s.active, q, k)
    ensures JoinOf(s, q, q[AHCAL]) == IfComplete(s, q, k) + JoinOf(s, PopKey(q, k), PopKey(q, k)[AHCAL])
  {
    FrontAlone(q[AHCAL], k);
    JoinLater(s, q, k, Rest(q[AHCAL], k));
    JoinHead(s, q, k);
  }

  lemma JoinHead(s: Setup, q: Queues, k: Key)
    requires AhcalJoins(s) && AllOrdered(q) && AtLeast(s.active, q, k)
    ensures JoinOf(s, q, q[AHCAL]) == IfComplete(s, q, k) + JoinOf(s, q, Rest(q[AHCAL], k))
  {
    FindFronts(s.active, q, k);
    if At(q[AHCAL], k) {
      ReachedLeast(s.active, q, k);
      assert Complete(s, q, k) <==> Matched(s, q, k);
    } else {
      assert !Complete(s, q, k);
    }
  }

  lemma ReachedLeast(active: Flags, q: Queues, k: Key)
    requires AllOrdered(q) && AtLeast(active, q, k)
    ensures Reached(active, q, k)
  {
    forall d | 0 <= d < 4 && active[d] ensures !Less(KeyOf(q[d][|q[d]| - 1]), k) {
      if |q[d]| > 1 {
        assert Less(KeyOf(q[d][0]), KeyOf(q[d][|q[d]| - 1]));
      }
    }
  }

  lemma PopOrdered(q: Queues, k: Key)
    requires AllOrdered(q)
    ensures AllOrdered(PopKey(q, k))
  {
  }

  lemma {:induction false} EmptyReachesNothing(s: Setup, q: Queues, ahcal: seq<Ev>)
    requires Waits(s.active, q)
    ensures JoinOf(s, q, ahcal) == []
    decreases |ahcal|
  {
    if ahcal != [] {
      EmptyReachesNothing(s, q, ahcal[1..]);
    }
  }

  lemma OrderedNeverDiscards(s: Setup, q: Queues)
    requires AllOrdered(q)
    ensures !Decide(s.active, q, 0).Discard?
  {
  }

  lemma JoinRow(s: Setup, c: Coll)
    ensures RowsOf(JoinFronts(s, c).written) == RowsOf(c.written) + IfComplete(s, c.queues, MinKey(c.queues))
  {
    RowsOfAdd(c.written, Merged(c, MinKey(c.queues)));
  }

  lemma LeastFront(s: Setup, q: Queues)
    requires AllOrdered(q) && !Decide(s.active, q, 0).Halt?
    ensures Decide(s.active, q, 0).Join? && AtLeast(s.active, q, MinKey(q))
  {
    OrderedNeverDiscards(s, q);
    JoinMeans(s.active, q, 0);
    MinKeyMeaning(q);
  }

  lemma PassOrdered(s: Setup, c: Coll)
    requires AllOrdered(c.queues) && !Decide(s.active, c.queues, 0).Halt?
    ensures Decide(s.active, c.queues, 0).Join? && AllOrdered(Pass(s, c).queues)
  {
    LeastFront(s, c.queues);
    PopOrdered(c.queues, MinKey(c.queues));
  }

  lemma PassJoins(s: Setup, c: Coll)
    requires AhcalJoins(s) && AllOrdered(c.queues) && Decide(s.active, c.queues, 0).Join?
    ensures RowsOf(Pass(s, c).written) + JoinOf(s, Pass(s, c).queues, Pass(s, c).queues[AHCAL])
         == RowsOf(c.written) + JoinOf(s, c.queues, c.queues[AHCAL])
  {
    var k := MinKey(c.queues);
    LeastFront(s, c.queues);
    JoinFront(s, c.queues, k);
    JoinRow(s, c);
    Regroup(RowsOf(c.written), IfComplete(s, c.queues, k), JoinOf(s, PopKey(c.queues, k), PopKey(c.queues, k)[AHCAL]));
  }

  lemma {:induction false} BuildJoins(s: Setup, c: Coll)
    requires AhcalJoins(s) && AllOrdered(c.queues)
    ensures RowsOf(Build(s, c).written) == RowsOf(c.written) + JoinOf(s, c.queues, c.queues[AHCAL])
    decreases Total(c.queues)
  {
    if Decide(s.active, c.queues, 0).Halt? {
      HaltMeans(s.active, c.queues, 0);
      EmptyReachesNothing(s, c.queues, c.queues[AHCAL]);
    } else {
      PassTakes(s, c);
      PassOrdered(s, c);
      PassJoins(s, c);
      BuildJoins(s, Pass(s, c));
    }
  }

  lemma JoinsFromBegin(s: Setup, q: Queues)
    requires AhcalJoins(s) && AllOrdered(q)
    ensures RowsOf(Build(s, Begin(q)).written) == JoinOf(s, q, q[AHCAL])
  {
    BuildJoins(s, Begin(q));
    assert RowsOf([]) + JoinOf(s, q, q[AHCAL]) == JoinOf(s, q, q[AHCAL]);
  }

  /** AHCAL and any of the other detectors active, streams well tagged and strictly increasing, any
      order of arrival: the written events are the join of the active streams. */
  lemma WrittenIsJoin(s: Setup, arrivals: seq<Arrival>)
    requires AhcalJoins(s) && FromActive(s, arrivals) && AllOrdered(Streams(arrivals))
    ensures var r := ReceiveAll(s, arrivals);
      r.Returns? && RowsOf(r.c.written) == JoinOf(s, Streams(arrivals), Streams(arrivals)[AHCAL])
  {
    ArrivalOrderIrrelevant(s, arrivals);
    RowsOfStrip(ReceiveAll(s, arrivals).c.written);
    JoinsFromBegin(s, Streams(arrivals));
  }

  predicate RowsRise(rows: seq<Row>, from: Key) {
    && (forall i :: 0 <= i < |rows| ==> |rows[i].ahcal| == 1 && !Less(KeyOf(rows[i].ahcal[0]), from))
    && (forall i, j :: 0 <= i < j < |rows| ==> Less(KeyOf(rows[i].ahcal[0]), KeyOf(rows[j].ahcal[0])))
  }

  /** The keys of the join strictly increase. */
  lemma {:induction false} JoinRises(s: Setup, q: Queues, ahcal: seq<Ev>, from: Key)
    requires Ordered(AHCAL, ahcal) && (ahcal != [] ==> !Less(KeyOf(ahcal[0]), from))
    ensures RowsRise(JoinOf(s, q, ahcal), from)
    decreases |ahcal|
  {
    if ahcal != [] {
      var rest := JoinOf(s, q, ahcal[1..]);
      if |ahcal| > 1 {
        JoinRises(s, q, ahcal[1..], KeyOf(ahcal[1]));
        assert Less(KeyOf(ahcal[0]), KeyOf(ahcal[1]));
        assert RowsRise(rest, KeyOf(ahcal[1]));
      } else {
        assert rest == [];
      }
    }
  }
}
