/**
 What `CaliceAhcalBifBxidDataCollector.cc` writes and throws away, in terms of the tags of the
 events alone.
 */
module BxidMeaning {
  import opened BxidMerging
  import opened BxidJoin

  // ---------- Tags ----------

  /** An event without a tag reads the largest `int`. */
  predicate HasTags(e: Ev) {
    e.roc != 2147483647 && e.bxid != 2147483647
  }

  /** What the merge takes: of the BIF only crossings from -100 on. */
  predicate Taken(d: nat, e: Ev) {
    HasTags(e) && (d == 1 ==> e.bxid >= -100)
  }

  predicate AllTaken(d: nat, part: seq<Ev>) {
    forall e :: e in part ==> Taken(d, e)
  }

  predicate TakenOnly(m: Sync) {
    AllTaken(0, m.ahcal) && AllTaken(1, m.bif) && AllTaken(2, m.hodoscope1) && AllTaken(3, m.hodoscope2)
  }

  /** Merged events hold none that ought to be discarded, and only such are discarded. */
  predicate Sorted(c: Coll) {
    && (forall m :: m in c.written ==> TakenOnly(m))
    && (forall m :: m in c.dropped ==> TakenOnly(m))
    && (forall e :: e in c.discarded ==> !HasTags(e) || e.bxid < -100)
  }

  lemma JoinSorts(s: Setup, c: Coll)
    requires Decide(s.active, c.queues, 0).Join? && Sorted(c)
    ensures Sorted(JoinFronts(s, c))
  {
    JoinMeans(s.active, c.queues, 0);
    var m := Merged(c, MinKey(c.queues));
    assert TakenOnly(m);
    SortedAdd(c.written, m);
    SortedAdd(c.dropped, m);
  }

  lemma SortedAdd(ms: seq<Sync>, m: Sync)
    requires TakenOnly(m) && forall x :: x in ms ==> TakenOnly(x)
    ensures forall x :: x in ms + [m] ==> TakenOnly(x)
  {
  }

  lemma {:induction false} BuildSorts(s: Setup, c: Coll)
    requires SomeActive(s.active) && Sorted(c)
    ensures Sorted(Build(s, c))
    decreases Total(c.queues)
  {
    var r := Decide(s.active, c.queues, 0);
    if !r.Halt? {
      PassTakes(s, c);
      if r.Join? {
        JoinSorts(s, c);
      }
      BuildSorts(s, Pass(s, c));
    }
  }

  /** Any run: nothing untagged and no BIF event before crossing -100 gets into a merged event, and
      nothing else is discarded. */
  lemma {:induction false} RunSorts(setup: Setup, actions: seq<Action>)
    ensures var r := ActAll(World(setup, Returns(EMPTY)), actions).result; r.Returns? ==> Sorted(r.c)
  {
    if actions != [] {
      var before, a := actions[..|actions| - 1], actions[|actions| - 1];
      RunSorts(setup, before);
      var w := ActAll(World(setup, Returns(EMPTY)), before);
      if w.result.Returns? && a.Arrive? && a.source <= TABLE && SomeActive(w.setup.active) {
        BuildSorts(w.setup, Enqueue(w.result.c, a.source, a.e));
      }
    }
  }

  // ---------- Producers that come and go ----------

  /** Whether the last that happened to a detector's connection was that it connected. */
  function Connected(setup: Setup, actions: seq<Action>, d: nat): bool
    requires d < 4
  {
    if actions == [] then setup.active[d]
    else
      match actions[|actions| - 1]
      case Connect(x) => x == d || Connected(setup, actions[..|actions| - 1], d)
      case Disconnect(x) => x != d && Connected(setup, actions[..|actions| - 1], d)
      case Arrive(_, _) => Connected(setup, actions[..|actions| - 1], d)
  }

  /** Any run: a detector is waited for exactly while it is connected; which ones are mandatory never
      changes. */
  lemma {:induction false} RunFlags(setup: Setup, actions: seq<Action>, d: nat)
    requires d < 4
    ensures var w := ActAll(World(setup, Returns(EMPTY)), actions);
      w.result.Returns? ==> w.setup.mandatory == setup.mandatory && w.setup.active[d] == Connected(setup, actions, d)
  {
    if actions != [] {
      RunFlags(setup, actions[..|actions| - 1], d);
    }
  }

  // ---------- The join ----------

  /** In time order: the cycle decides, then the crossing. */
  predicate Before(a: Ev, b: Ev) {
    if a.roc == b.roc then a.bxid < b.bxid else a.roc < b.roc
  }

  predicate Rising(d: nat, s: seq<Ev>) {
    && AllTaken(d, s)
    && forall i, j :: 0 <= i < j < |s| ==> Before(s[i], s[j])
  }

  predicate AllRising(q: Queues) {
    forall d :: 0 <= d < 4 ==> Rising(d, q[d])
  }

  predicate Meets(a: Ev, b: Ev) {
    a.roc == b.roc && a.bxid == b.bxid
  }

  predicate MetBy(s: seq<Ev>, a: Ev) {
    exists j :: 0 <= j < |s| && Meets(s[j], a)
  }

  /** A detector has sent an event that is not before `a`. */
  predicate Past(s: seq<Ev>, a: Ev) {
    exists j :: 0 <= j < |s| && !Before(s[j], a)
  }

  /** Every active detector has got to `a`, and the active, mandatory ones meet it. */
  predicate Due(s: Setup, q: Queues, a: Ev) {
    forall d :: 0 <= d < 4 && s.active[d] ==> Past(q[d], a) && (s.mandatory[d] ==> MetBy(q[d], a))
  }

  /** Exactly the events of a stream that meet `a`, of which there is at most one. */
  ghost predicate Holds(part: seq<Ev>, s: seq<Ev>, a: Ev) {
    |part| <= 1 && forall e :: e in part <==> e in s && Meets(e, a)
  }

  ghost predicate RowRight(q: Queues, r: Row) {
    && |r.ahcal| == 1 && r.ahcal[0] in q[0]
    && Holds(r.bif, q[1], r.ahcal[0]) && Holds(r.hodoscope1, q[2], r.ahcal[0]) && Holds(r.hodoscope2, q[3], r.ahcal[0])
  }

  lemma {:induction false} FindHolds(d: nat, s: seq<Ev>, a: Ev)
    requires Rising(d, s)
    ensures Holds(Find(s, KeyOf(a)), s, a) && (Find(s, KeyOf(a)) != [] <==> MetBy(s, a))
  {
    if s != [] {
      assert s == [s[0]] + s[1..];
      assert Rising(d, s[1..]);
      FindHolds(d, s[1..], a);
      var f := Find(s, KeyOf(a));
      forall e ensures e in f <==> e in s && Meets(e, a) {
        if Meets(s[0], a) && e in s && Meets(e, a) {
          var j :| 0 <= j < |s| && s[j] == e;
          assert j == 0 || Before(s[0], s[j]);
        }
      }
      if MetBy(s[1..], a) {
        var j :| 0 <= j < |s[1..]| && Meets(s[1..][j], a);
        assert Meets(s[j + 1], a);
      }
      if MetBy(s, a) && !Meets(s[0], a) {
        var j :| 0 <= j < |s| && Meets(s[j], a);
        assert Meets(s[1..][j - 1], a);
      }
      if Meets(s[0], a) {
        assert MetBy(s, a);
      }
    }
  }

  /** In a rising stream the last event tells how far it has got. */
  lemma PastLast(d: nat, s: seq<Ev>, a: Ev)
    requires Rising(d, s)
    ensures Past(s, a) <==> s != [] && !Less(KeyOf(s[|s| - 1]), KeyOf(a))
  {
    if Past(s, a) {
      var j :| 0 <= j < |s| && !Before(s[j], a);
      assert j == |s| - 1 || Before(s[j], s[|s| - 1]);
    }
    if s != [] && !Less(KeyOf(s[|s| - 1]), KeyOf(a)) {
      assert !Before(s[|s| - 1], a);
    }
  }

  lemma DueIs(s: Setup, q: Queues, a: Ev)
    requires AllRising(q) && a in q[0]
    ensures Due(s, q, a) <==> Reached(s.active, q, KeyOf(a)) && Matched(s, q, KeyOf(a))
  {
    forall d | 0 <= d < 4
      ensures Past(q[d], a) <==> q[d] != [] && !Less(KeyOf(q[d][|q[d]| - 1]), KeyOf(a))
      ensures Find(q[d], KeyOf(a)) != [] <==> MetBy(q[d], a)
    {
      assert Rising(d, q[d]);
      PastLast(d, q[d], a);
      FindHolds(d, q[d], a);
    }
    var j :| 0 <= j < |q[0]| && q[0][j] == a;
    assert Meets(q[0][j], a);
  }

  lemma FoundRight(q: Queues, a: Ev)
    requires AllRising(q) && a in q[0]
    ensures RowRight(q, Row(Find(q[BIF], KeyOf(a)), Find(q[HODOSCOPE1], KeyOf(a)), Find(q[HODOSCOPE2], KeyOf(a)), [a]))
  {
    assert Rising(1, q[1]) && Rising(2, q[2]) && Rising(3, q[3]);
    FindHolds(1, q[1], a);
    FindHolds(2, q[2], a);
    FindHolds(3, q[3], a);
  }

  /** Rows are for the events due, each with all that meet it, and in time order. */
  ghost predicate RowsRight(s: Setup, q: Queues, ahcal: seq<Ev>, rows: seq<Row>) {
    && (forall r :: r in rows ==> RowRight(q, r) && r.ahcal[0] in ahcal)
    && (forall a :: a in ahcal ==> ((exists r :: r in rows && r.ahcal == [a]) <==> Due(s, q, a)))
    && (forall i, j :: 0 <= i < j < |rows| ==> Before(rows[i].ahcal[0], rows[j].ahcal[0]))
  }

  lemma {:induction false} JoinRight(s: Setup, q: Queues, ahcal: seq<Ev>)
    requires AllRising(q) && Rising(0, ahcal) && forall a :: a in ahcal ==> a in q[0]
    ensures RowsRight(s, q, ahcal, JoinOf(s, q, ahcal))
    decreases |ahcal|
  {
    if ahcal != [] {
      var a, rest := ahcal[0], ahcal[1..];
      assert ahcal == [a] + rest;
      assert Rising(0, rest);
      JoinRight(s, q, rest);
      DueIs(s, q, a);
      FoundRight(q, a);
      var rows := JoinOf(s, q, rest);
      if Due(s, q, a) {
        RowsAdd(s, q, ahcal, rows, Row(Find(q[BIF], KeyOf(a)), Find(q[HODOSCOPE1], KeyOf(a)), Find(q[HODOSCOPE2], KeyOf(a)), [a]));
      } else {
        RowsSkip(s, q, ahcal, rows);
        assert JoinOf(s, q, ahcal) == rows;
      }
    }
  }

  lemma RowsAddFor(s: Setup, q: Queues, ahcal: seq<Ev>, rows: seq<Row>, r: Row, a: Ev)
    requires ahcal != [] && r.ahcal == [ahcal[0]] && Due(s, q, ahcal[0]) && a in ahcal
    requires a in ahcal[1..] ==> ((exists r :: r in rows && r.ahcal == [a]) <==> Due(s, q, a))
    ensures (exists x :: x in [r] + rows && x.ahcal == [a]) <==> Due(s, q, a)
  {
    if a == ahcal[0] {
      assert r in [r] + rows && r.ahcal == [a];
    } else {
      assert ahcal == [ahcal[0]] + ahcal[1..];
      if exists x :: x in rows && x.ahcal == [a] {
        var x :| x in rows && x.ahcal == [a];
        assert x in [r] + rows;
      }
      if exists x :: x in [r] + rows && x.ahcal == [a] {
        var x :| x in [r] + rows && x.ahcal == [a];
        assert x in rows;
      }
    }
  }

  lemma RowsAddOrder(s: Setup, q: Queues, ahcal: seq<Ev>, rows: seq<Row>, r: Row, i: nat, j: nat)
    requires ahcal != [] && Rising(0, ahcal) && r.ahcal == [ahcal[0]]
    requires RowsRight(s, q, ahcal[1..], rows) && i < j <= |rows|
    ensures |([r] + rows)[i].ahcal| == 1 && |([r] + rows)[j].ahcal| == 1
    ensures Before(([r] + rows)[i].ahcal[0], ([r] + rows)[j].ahcal[0])
  {
    var rest, later := ahcal[1..], rows[j - 1];
    assert later in rows && RowRight(q, later) && later.ahcal[0] in rest;
    if i == 0 {
      var x :| 0 <= x < |rest| && rest[x] == later.ahcal[0];
      assert Before(ahcal[0], ahcal[x + 1]);
    } else {
      assert rows[i - 1] in rows && RowRight(q, rows[i - 1]);
    }
  }

  lemma RowsAdd(s: Setup, q: Queues, ahcal: seq<Ev>, rows: seq<Row>, r: Row)
    requires ahcal != [] && Rising(0, ahcal) && RowRight(q, r) && r.ahcal == [ahcal[0]] && Due(s, q, ahcal[0])
    requires RowsRight(s, q, ahcal[1..], rows)
    ensures RowsRight(s, q, ahcal, [r] + rows)
  {
    var all, rest := [r] + rows, ahcal[1..];
    assert forall i :: 0 <= i < |rest| ==> rest[i] == ahcal[i + 1];
    assert r in all && forall x :: x in rows ==> x in all;
    forall a | a in ahcal ensures (exists r :: r in all && r.ahcal == [a]) <==> Due(s, q, a) {
      RowsAddFor(s, q, ahcal, rows, r, a);
    }
    forall i, j | 0 <= i < j < |all| ensures Before(all[i].ahcal[0], all[j].ahcal[0]) {
      RowsAddOrder(s, q, ahcal, rows, r, i, j);
    }
  }

  lemma RowsSkip(s: Setup, q: Queues, ahcal: seq<Ev>, rows: seq<Row>)
    requires ahcal != [] && Rising(0, ahcal) && !Due(s, q, ahcal[0])
    requires RowsRight(s, q, ahcal[1..], rows)
    ensures RowsRight(s, q, ahcal, rows)
  {
    var rest := ahcal[1..];
    assert ahcal == [ahcal[0]] + rest;
    forall a | a in ahcal ensures (exists r :: r in rows && r.ahcal == [a]) <==> Due(s, q, a) {
      if a !in rest {
        assert a == ahcal[0];
        forall r | r in rows ensures r.ahcal != [a] {
          assert r.ahcal[0] in rest;
        }
      }
    }
  }

  lemma RisingIsOrdered(d: nat, s: seq<Ev>)
    requires Rising(d, s)
    ensures Ordered(d, s)
  {
    forall i | 0 <= i < |s| ensures !Bad(d, s[i]) {
      assert s[i] in s;
    }
  }

  /** With streams in time order, an AHCAL event is written if and only if every active detector has
      sent an event of its cycle and crossing or later, and every active, mandatory detector one of
      exactly that cycle and crossing; with it go the events of the other detectors with that cycle
      and crossing, and nothing else. What is written is in time order. */
  lemma WrittenExactly(s: Setup, arrivals: seq<Arrival>)
    requires AhcalJoins(s) && FromActive(s, arrivals) && AllRising(Streams(arrivals))
    ensures var r := ReceiveAll(s, arrivals); var q := Streams(arrivals);
      r.Returns? && RowsRight(s, q, q[0], RowsOf(r.c.written))
  {
    var q := Streams(arrivals);
    assert Rising(0, q[0]) && Rising(1, q[1]) && Rising(2, q[2]) && Rising(3, q[3]);
    RisingIsOrdered(0, q[0]);
    RisingIsOrdered(1, q[1]);
    RisingIsOrdered(2, q[2]);
    RisingIsOrdered(3, q[3]);
    WrittenIsJoin(s, arrivals);
    JoinRight(s, q, q[0]);
  }
}
