/**
 What `AhcalHodoscopeDataCollector.cc` writes, in terms of the tags of the events alone.
 */
module HodoscopeMeaning {
  import opened HodoscopeJoin

  /** AHCAL events with both tags, and with a crossing other than 0. */
  predicate Tagged(a: Ev) {
    a.roc != -1 && a.bxid != -1 && a.bxid != 0
  }

  /** In time order: the cycle decides, then the crossing. */
  predicate Before(a: Ev, b: Ev) {
    if a.roc == b.roc then a.bxid < b.bxid else a.roc < b.roc
  }

  predicate Rising(s: seq<Ev>) {
    forall i, j :: 0 <= i < j < |s| ==> Before(s[i], s[j])
  }

  predicate TaggedRising(s: seq<Ev>) {
    forall i, j :: 0 <= i < j < |s| && Tagged(s[i]) && Tagged(s[j]) ==> Before(s[i], s[j])
  }

  predicate AllRising(hs: seq<seq<Ev>>) {
    forall i :: 0 <= i < |hs| ==> Rising(hs[i])
  }

  predicate Meets(a: Ev, b: Ev) {
    a.roc == b.roc && a.bxid == b.bxid
  }

  /** The hodoscope has sent an event that is not before `a`. */
  predicate Past(h: seq<Ev>, a: Ev) {
    exists j :: 0 <= j < |h| && !Before(h[j], a)
  }

  predicate AllPast(hs: seq<seq<Ev>>, a: Ev) {
    forall i :: 0 <= i < |hs| ==> Past(hs[i], a)
  }

  /** `e` is an event of some hodoscope that meets `a`. */
  predicate MetBy(hs: seq<seq<Ev>>, a: Ev, e: Ev) {
    exists i :: 0 <= i < |hs| && e in hs[i] && Meets(e, a)
  }

  // ---------- The definitions of the join in these terms ----------

  lemma {:induction false} GotIsPast(h: seq<Ev>, a: Ev)
    ensures Got(h, KeyOf(a)) <==> Past(h, a)
  {
    if h != [] {
      GotIsPast(h[1..], a);
      if Past(h[1..], a) {
        var j :| 0 <= j < |h[1..]| && !Before(h[1..][j], a);
        assert h[j + 1] == h[1..][j];
      }
      if Past(h, a) && Before(h[0], a) {
        var j :| 0 <= j < |h| && !Before(h[j], a);
        assert h[1..][j - 1] == h[j];
      }
    }
  }

  lemma {:induction false} ReachedIsAllPast(hs: seq<seq<Ev>>, a: Ev)
    ensures Reached(hs, KeyOf(a)) <==> AllPast(hs, a)
  {
    if hs != [] {
      GotIsPast(hs[0], a);
      ReachedIsAllPast(hs[1..], a);
      assert AllPast(hs, a) ==> AllPast(hs[1..], a) by {
        assert forall i :: 0 <= i < |hs[1..]| ==> hs[1..][i] == hs[i + 1];
      }
      if Past(hs[0], a) && AllPast(hs[1..], a) {
        forall i | 0 <= i < |hs| ensures Past(hs[i], a) {
          if i > 0 {
            assert hs[i] == hs[1..][i - 1];
          }
        }
      }
    }
  }

  lemma {:induction false} FindMeets(h: seq<Ev>, a: Ev, e: Ev)
    requires Rising(h)
    ensures e in Find(h, KeyOf(a)) <==> e in h && Meets(e, a)
  {
    if h != [] {
      assert Rising(h[1..]);
      if Meets(h[0], a) {
        if e in h && Meets(e, a) {
          var j :| 0 <= j < |h| && h[j] == e;
          assert j == 0 || Before(h[0], h[j]);
        }
      } else {
        FindMeets(h[1..], a, e);
        assert h == [h[0]] + h[1..];
      }
    }
  }

  lemma {:induction false} MatchesMeet(hs: seq<seq<Ev>>, a: Ev, e: Ev)
    requires AllRising(hs)
    ensures e in Matches(hs, KeyOf(a)) <==> MetBy(hs, a, e)
  {
    if hs != [] {
      assert Rising(hs[0]);
      assert forall i :: 0 <= i < |hs[1..]| ==> hs[1..][i] == hs[i + 1];
      FindMeets(hs[0], a, e);
      MatchesMeet(hs[1..], a, e);
      if MetBy(hs[1..], a, e) {
        var i :| 0 <= i < |hs[1..]| && e in hs[1..][i] && Meets(e, a);
        assert e in hs[i + 1];
      }
      if MetBy(hs, a, e) && !(e in hs[0] && Meets(e, a)) {
        var i :| 0 <= i < |hs| && e in hs[i] && Meets(e, a);
        assert e in hs[1..][i - 1];
      }
    }
  }

  // ---------- What is written ----------

  /** Some hodoscope meets `a` and every hodoscope has got there. */
  ghost predicate Due(hs: seq<seq<Ev>>, a: Ev) {
    Tagged(a) && AllPast(hs, a) && exists e :: MetBy(hs, a, e)
  }

  /** A written event holds exactly the hodoscope events that meet its AHCAL event. */
  ghost predicate HoldsAll(hs: seq<seq<Ev>>, m: Sync) {
    forall e :: e in m.hodoscopes <==> MetBy(hs, m.ahcal, e)
  }

  /** Rows are for the events due, with all that meet them, and in the order of the AHCAL events. */
  ghost predicate RowsRight(ahcal: seq<Ev>, hs: seq<seq<Ev>>, rows: seq<Sync>) {
    && (forall a :: (exists m :: m in rows && m.ahcal == a) <==> a in ahcal && Due(hs, a))
    && (forall m :: m in rows ==> HoldsAll(hs, m))
    && (forall i, j :: 0 <= i < j < |rows| ==> Before(rows[i].ahcal, rows[j].ahcal))
  }

  lemma RowDue(a: Ev, hs: seq<seq<Ev>>)
    requires AllRising(hs) && Tagged(a)
    ensures HoldsAll(hs, Sync(a, Matches(hs, KeyOf(a))))
    ensures Reached(hs, KeyOf(a)) <==> AllPast(hs, a)
    ensures Due(hs, a) <==> Reached(hs, KeyOf(a)) && Matches(hs, KeyOf(a)) != []
  {
    var ms := Matches(hs, KeyOf(a));
    ReachedIsAllPast(hs, a);
    forall e ensures e in ms <==> MetBy(hs, a, e) {
      MatchesMeet(hs, a, e);
    }
    if ms != [] {
      assert MetBy(hs, a, ms[0]);
    }
  }

  /** What has not got as far as `a` has not got as far as a later event. */
  lemma NotPastLater(hs: seq<seq<Ev>>, a: Ev, later: Ev)
    requires Before(a, later) && !AllPast(hs, a)
    ensures !AllPast(hs, later)
  {
    var i :| 0 <= i < |hs| && !Past(hs[i], a);
    forall j | 0 <= j < |hs[i]| ensures Before(hs[i][j], later) {
      assert Before(hs[i][j], a);
    }
    assert !Past(hs[i], later);
  }

  lemma TaggedTail(ahcal: seq<Ev>)
    requires ahcal != [] && TaggedRising(ahcal)
    ensures TaggedRising(ahcal[1..])
    ensures forall x :: Tagged(ahcal[0]) && x in ahcal[1..] && Tagged(x) ==> Before(ahcal[0], x)
  {
    var t := ahcal[1..];
    assert forall i :: 0 <= i < |t| ==> t[i] == ahcal[i + 1];
  }

  lemma RowsAdd(ahcal: seq<Ev>, hs: seq<seq<Ev>>, rows: seq<Sync>)
    requires ahcal != [] && TaggedRising(ahcal) && AllRising(hs) && Due(hs, ahcal[0])
    requires RowsRight(ahcal[1..], hs, rows)
    ensures RowsRight(ahcal, hs, [Sync(ahcal[0], Matches(hs, KeyOf(ahcal[0])))] + rows)
  {
    var a := ahcal[0];
    var m := Sync(a, Matches(hs, KeyOf(a)));
    var all := [m] + rows;
    TaggedTail(ahcal);
    RowDue(a, hs);
    forall x ensures (exists m :: m in all && m.ahcal == x) <==> x in ahcal && Due(hs, x) {
      assert x in ahcal <==> x == a || x in ahcal[1..];
      assert m in all;
      assert forall r :: r in rows ==> r in all;
      assert (exists m :: m in rows && m.ahcal == x) <==> x in ahcal[1..] && Due(hs, x);
    }
    forall i, j | 0 <= i < j < |all| ensures Before(all[i].ahcal, all[j].ahcal) {
      assert all[j] == rows[j - 1];
      if i == 0 {
        assert rows[j - 1] in rows && rows[j - 1].ahcal in ahcal[1..];
      } else {
        assert all[i] == rows[i - 1];
      }
    }
  }

  lemma RowsSkip(ahcal: seq<Ev>, hs: seq<seq<Ev>>, rows: seq<Sync>)
    requires ahcal != [] && !Due(hs, ahcal[0]) && RowsRight(ahcal[1..], hs, rows)
    ensures RowsRight(ahcal, hs, rows)
  {
    forall x ensures (exists m :: m in rows && m.ahcal == x) <==> x in ahcal && Due(hs, x) {
      assert x in ahcal <==> x == ahcal[0] || x in ahcal[1..];
      assert (exists m :: m in rows && m.ahcal == x) <==> x in ahcal[1..] && Due(hs, x);
    }
  }

  lemma {:induction false} SemiJoinRight(ahcal: seq<Ev>, hs: seq<seq<Ev>>)
    requires TaggedRising(ahcal) && AllRising(hs)
    ensures RowsRight(ahcal, hs, SemiJoin(ahcal, hs))
    decreases |ahcal|
  {
    if ahcal != [] {
      var a := ahcal[0];
      TaggedTail(ahcal);
      SemiJoinRight(ahcal[1..], hs);
      if !Tagged(a) {
        RowsSkip(ahcal, hs, SemiJoin(ahcal[1..], hs));
      } else {
        RowDue(a, hs);
        if !AllPast(hs, a) {
          forall x | x in ahcal ensures !Due(hs, x) {
            if x in ahcal[1..] && Tagged(x) {
              NotPastLater(hs, a, x);
            }
          }
          assert SemiJoin(ahcal, hs) == [];
        } else if Matches(hs, KeyOf(a)) == [] {
          RowsSkip(ahcal, hs, SemiJoin(ahcal[1..], hs));
          assert SemiJoin(ahcal, hs) == SemiJoin(ahcal[1..], hs);
        } else {
          RowsAdd(ahcal, hs, SemiJoin(ahcal[1..], hs));
        }
      }
    }
  }

  lemma RisingIsOrdered(ahcal: seq<Ev>, hs: seq<seq<Ev>>)
    requires TaggedRising(ahcal) && AllRising(hs)
    ensures Ordered(ahcal) && AllSorted(hs)
  {
    forall i | 0 <= i < |hs| ensures Sorted(hs[i]) {
      assert Rising(hs[i]);
    }
  }

  /** An AHCAL event is written if and only if it has both tags and a crossing other than 0, every
      hodoscope has sent an event of that cycle and crossing or later, and some hodoscope one of
      exactly that cycle and crossing; with it go all those, and nothing else. What is written is in
      time order. */
  lemma WrittenExactly(n: nat, arrivals: seq<Arrival>)
    requires n >= 2 && TaggedRising(AhcalStream(arrivals)) && AllRising(HodoStreams(n, arrivals))
    ensures RowsRight(AhcalStream(arrivals), HodoStreams(n, arrivals), ReceiveAll(Start(n), arrivals).written)
  {
    RisingIsOrdered(AhcalStream(arrivals), HodoStreams(n, arrivals));
    WrittenIsSemiJoin(n, arrivals);
    SemiJoinRight(AhcalStream(arrivals), HodoStreams(n, arrivals));
  }

  // ---------- The unmatched events ----------

  function CountTagged(s: seq<Ev>): nat {
    if s == [] then 0 else (if Tagged(s[0]) then 1 else 0) + CountTagged(s[1..])
  }

  lemma {:induction false} CountAdd(s: seq<Ev>, e: Ev)
    ensures CountTagged(s + [e]) == CountTagged(s) + if Tagged(e) then 1 else 0
  {
    if s == [] {
      assert s + [e] == [e];
    } else {
      assert (s + [e])[1..] == s[1..] + [e];
      CountAdd(s[1..], e);
    }
  }

  /** Tagged AHCAL events are written, counted as unmatched, or still queued. */
  function Tally(c: Coll): nat {
    |c.written| + c.unmatched + CountTagged(c.ahcal)
  }

  lemma {:induction false} BuildTally(c: Coll)
    ensures Tally(Build(c)) == Tally(c)
    decreases Size(c)
  {
    if Pass(c).Again? {
      PassPops(c);
      BuildTally(Pass(c).c);
    }
  }

  lemma ReceiveTally(c: Coll, a: Arrival)
    ensures Tally(Receive(c, a)) == Tally(c) + if a.source.Ahcal? && Tagged(a.e) then 1 else 0
  {
    if Known(c, a.source) {
      if a.source.Ahcal? {
        CountAdd(c.ahcal, a.e);
      }
      BuildTally(Enqueue(c, a));
    }
  }

  /** Whatever arrives in whatever order: each tagged AHCAL event is in exactly one of the written
      events, counted as unmatched, or queued. */
  lemma {:induction false} Accounted(c: Coll, arrivals: seq<Arrival>)
    ensures Tally(ReceiveAll(c, arrivals)) == Tally(c) + CountTagged(AhcalStream(arrivals))
    decreases |arrivals|
  {
    if arrivals != [] {
      var rest := AhcalStream(arrivals[1..]);
      assert ([arrivals[0].e] + rest)[1..] == rest && [] + rest == rest;
      ReceiveTally(c, arrivals[0]);
      Accounted(Receive(c, arrivals[0]), arrivals[1..]);
    }
  }
}
