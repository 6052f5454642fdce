/**
 Which overlapping events the timestamp merge puts together: the merge walks through a lattice of
 positions, and what it misses is decided by neighbouring events of the two streams.
 */
module TsOverlaps {
  import opened TsMerging

  datatype Iv = Iv(beg: int, end: int)

  predicate Meet(a: Iv, b: Iv) {
    a.beg < b.end && b.beg < a.end
  }

  predicate Up(s: seq<Iv>) {
    && (forall i :: 0 <= i < |s| ==> s[i].beg < s[i].end)
    && (forall i, j :: 0 <= i < j < |s| ==> s[i].beg <= s[j].beg && s[i].end <= s[j].end)
  }

  // ---------- The walk ----------

  /** How many events of each stream were taken. */
  datatype Point = Point(b: nat, c: nat)

  predicate Open(bs: seq<Iv>, cs: seq<Iv>, p: Point) {
    p.b < |bs| && p.c < |cs|
  }

  function Next(bs: seq<Iv>, cs: seq<Iv>, p: Point): Point
    requires Open(bs, cs, p)
  {
    var end := Min(bs[p.b].end, cs[p.c].end);
    Point(if bs[p.b].beg < end then p.b + 1 else p.b, if cs[p.c].beg < end then p.c + 1 else p.c)
  }

  lemma Progress(bs: seq<Iv>, cs: seq<Iv>, p: Point)
    requires Up(bs) && Up(cs) && Open(bs, cs, p)
    ensures var n := Next(bs, cs, p);
      && n.b + n.c > p.b + p.c && p.b <= n.b <= p.b + 1 && p.c <= n.c <= p.c + 1
      && (Meet(bs[p.b], cs[p.c]) ==> n == Point(p.b + 1, p.c + 1))
  {
  }

  /** The positions behind a position. */
  function Walk(bs: seq<Iv>, cs: seq<Iv>, p: Point): seq<Point>
    requires Up(bs) && Up(cs) && p.b <= |bs| && p.c <= |cs|
    decreases |bs| + |cs| - p.b - p.c
  {
    if !Open(bs, cs, p) then []
    else
      Progress(bs, cs, p);
      [Next(bs, cs, p)] + Walk(bs, cs, Next(bs, cs, p))
  }

  /** Where the walk ends. */
  function Stop(bs: seq<Iv>, cs: seq<Iv>, p: Point): Point
    requires Up(bs) && Up(cs) && p.b <= |bs| && p.c <= |cs|
    decreases |bs| + |cs| - p.b - p.c
  {
    if !Open(bs, cs, p) then p
    else
      Progress(bs, cs, p);
      Stop(bs, cs, Next(bs, cs, p))
  }

  lemma {:induction false} WalkAbove(bs: seq<Iv>, cs: seq<Iv>, p: Point)
    requires Up(bs) && Up(cs) && p.b <= |bs| && p.c <= |cs|
    ensures forall q :: q in Walk(bs, cs, p) ==> q.b >= p.b && q.c >= p.c && q.b + q.c > p.b + p.c
    ensures var s := Stop(bs, cs, p); p.b <= s.b <= |bs| && p.c <= s.c <= |cs|
    decreases |bs| + |cs| - p.b - p.c
  {
    if Open(bs, cs, p) {
      Progress(bs, cs, p);
      WalkAbove(bs, cs, Next(bs, cs, p));
    }
  }

  function Swap(p: Point): Point {
    Point(p.c, p.b)
  }

  /** The streams may change places. */
  lemma {:induction false} WalkSwap(bs: seq<Iv>, cs: seq<Iv>, p: Point)
    requires Up(bs) && Up(cs) && p.b <= |bs| && p.c <= |cs|
    ensures forall q :: Swap(q) in Walk(cs, bs, Swap(p)) ==> q in Walk(bs, cs, p)
    ensures Stop(cs, bs, Swap(p)) == Swap(Stop(bs, cs, p))
    decreases |bs| + |cs| - p.b - p.c
  {
    if Open(bs, cs, p) {
      var n := Next(bs, cs, p);
      Progress(bs, cs, p);
      assert Next(cs, bs, Swap(p)) == Swap(n);
      WalkSwap(bs, cs, n);
      forall q | Swap(q) in Walk(cs, bs, Swap(p)) ensures q in Walk(bs, cs, p) {
        if Swap(q) == Swap(n) {
          assert q == n;
        }
      }
    }
  }

  // ---------- What the walk misses ----------

  /** Two neighbours of each stream: both pairs meet, and across one meets the other's partner. */
  predicate Tangled(bs: seq<Iv>, cs: seq<Iv>, i: nat, j: nat)
    requires i + 1 < |bs| && j + 1 < |cs|
  {
    && Meet(bs[i], cs[j]) && Meet(bs[i + 1], cs[j + 1])
    && (Meet(bs[i], cs[j + 1]) || Meet(bs[i + 1], cs[j]))
  }

  ghost predicate SomeTangled(bs: seq<Iv>, cs: seq<Iv>, s: Point)
    requires s.b <= |bs| && s.c <= |cs|
  {
    exists i: nat, j: nat | i + 1 < s.b && j + 1 < s.c :: Tangled(bs, cs, i, j)
  }

  /** Event j was taken early, together with one before event i: then neighbours are tangled. */
  lemma {:induction false} MissedBehind(bs: seq<Iv>, cs: seq<Iv>, p: Point, i: nat, j: nat)
    requires Up(bs) && Up(cs) && p.c == j + 1 <= |cs| && 1 <= p.b <= i < |bs|
    requires Meet(bs[p.b - 1], cs[j]) && Meet(bs[i], cs[j])
    requires i < Stop(bs, cs, p).b && Point(i + 1, j + 1) !in Walk(bs, cs, p)
    ensures var s := Stop(bs, cs, p); s.b <= |bs| && s.c <= |cs| && SomeTangled(bs, cs, s)
    decreases i - p.b
  {
    WalkAbove(bs, cs, p);
    assert Open(bs, cs, p);
    var n := Next(bs, cs, p);
    Progress(bs, cs, p);
    WalkAbove(bs, cs, n);
    assert Meet(bs[p.b], cs[j]);
    if n.c == j + 1 {
      assert n == Point(p.b + 1, j + 1);
      assert n in Walk(bs, cs, p);
      MissedBehind(bs, cs, n, i, j);
    } else {
      assert Meet(bs[p.b], cs[j + 1]);
      assert Tangled(bs, cs, p.b - 1, j);
    }
  }

  lemma TangledSwap(bs: seq<Iv>, cs: seq<Iv>, s: Point)
    requires s.b <= |bs| && s.c <= |cs| && SomeTangled(cs, bs, Swap(s))
    ensures SomeTangled(bs, cs, s)
  {
    var j: nat, i: nat :| j + 1 < s.c && i + 1 < s.b && Tangled(cs, bs, j, i);
    assert Tangled(bs, cs, i, j);
  }

  /** A missed pair of events that meet: then neighbours are tangled. */
  lemma {:induction false} MissedMeansTangled(bs: seq<Iv>, cs: seq<Iv>, p: Point, i: nat, j: nat)
    requires Up(bs) && Up(cs) && p.b <= i < |bs| && p.c <= j < |cs| && Meet(bs[i], cs[j])
    requires i < Stop(bs, cs, p).b && j < Stop(bs, cs, p).c && Point(i + 1, j + 1) !in Walk(bs, cs, p)
    ensures var s := Stop(bs, cs, p); s.b <= |bs| && s.c <= |cs| && SomeTangled(bs, cs, s)
    decreases |bs| + |cs| - p.b - p.c
  {
    WalkAbove(bs, cs, p);
    var n := Next(bs, cs, p);
    Progress(bs, cs, p);
    assert n in Walk(bs, cs, p);
    if n.b <= i && n.c <= j {
      MissedMeansTangled(bs, cs, n, i, j);
    } else if n.b <= i {
      assert Meet(bs[p.b], cs[j]);
      MissedBehind(bs, cs, n, i, j);
    } else {
      assert n.c <= j;
      assert Meet(cs[p.c], bs[i]) && Meet(cs[j], bs[i]);
      WalkSwap(bs, cs, n);
      assert Swap(Point(i + 1, j + 1)) == Point(j + 1, i + 1);
      MissedBehind(cs, bs, Swap(n), j, i);
      TangledSwap(bs, cs, Stop(bs, cs, n));
    }
  }

  /** Where the walk passes a pair in front of another pair that meets, it takes both of those at once. */
  lemma {:induction false} PassesBoth(bs: seq<Iv>, cs: seq<Iv>, p: Point, i: nat, j: nat)
    requires Up(bs) && Up(cs) && p.b <= |bs| && p.c <= |cs| && i + 1 < |bs| && j + 1 < |cs|
    requires Meet(bs[i + 1], cs[j + 1]) && Point(i + 1, j + 1) in Walk(bs, cs, p)
    ensures Point(i + 1, j + 2) !in Walk(bs, cs, p) && Point(i + 2, j + 1) !in Walk(bs, cs, p)
    decreases |bs| + |cs| - p.b - p.c
  {
    var n := Next(bs, cs, p);
    Progress(bs, cs, p);
    WalkAbove(bs, cs, n);
    if n == Point(i + 1, j + 1) {
      var m := Next(bs, cs, n);
      Progress(bs, cs, n);
      WalkAbove(bs, cs, m);
      assert Walk(bs, cs, p) == [n] + ([m] + Walk(bs, cs, m));
    } else {
      PassesBoth(bs, cs, n, i, j);
    }
  }

  const ORIGIN := Point(0, 0)

  ghost predicate AllVisited(bs: seq<Iv>, cs: seq<Iv>)
    requires Up(bs) && Up(cs)
  {
    var s := Stop(bs, cs, ORIGIN);
    forall i: nat, j: nat | i < s.b && j < s.c && i < |bs| && j < |cs| && Meet(bs[i], cs[j]) ::
      Point(i + 1, j + 1) in Walk(bs, cs, ORIGIN)
  }

  /** The walk visits every pair that meets if and only if no neighbours are tangled. */
  lemma VisitedExactly(bs: seq<Iv>, cs: seq<Iv>)
    requires Up(bs) && Up(cs)
    ensures var s := Stop(bs, cs, ORIGIN); s.b <= |bs| && s.c <= |cs| && (AllVisited(bs, cs) <==> !SomeTangled(bs, cs, s))
  {
    WalkAbove(bs, cs, ORIGIN);
    var s := Stop(bs, cs, ORIGIN);
    if SomeTangled(bs, cs, s) {
      var i: nat, j: nat :| i + 1 < s.b && j + 1 < s.c && Tangled(bs, cs, i, j);
      if Point(i + 1, j + 1) in Walk(bs, cs, ORIGIN) {
        PassesBoth(bs, cs, ORIGIN, i, j);
        if Meet(bs[i], cs[j + 1]) {
          assert Point(i + 1, (j + 1) + 1) == Point(i + 1, j + 2);
        } else {
          assert Point((i + 1) + 1, j + 1) == Point(i + 2, j + 1);
        }
      }
    } else {
      forall i: nat, j: nat | i < s.b && j < s.c && i < |bs| && j < |cs| && Meet(bs[i], cs[j])
        ensures Point(i + 1, j + 1) in Walk(bs, cs, ORIGIN)
      {
        if Point(i + 1, j + 1) !in Walk(bs, cs, ORIGIN) {
          MissedMeansTangled(bs, cs, ORIGIN, i, j);
        }
      }
    }
  }

  // ---------- The merge walks ----------

  function Ivs(clock: Clock, q: seq<TsEvent>): (r: seq<Iv>)
    ensures |r| == |q|
  {
    if q == [] then [] else [Iv(clock.Beg(q[0]), clock.End(q[0]))] + Ivs(clock, q[1..])
  }

  lemma {:induction false} IvsAt(clock: Clock, q: seq<TsEvent>, i: nat)
    requires i < |q|
    ensures Ivs(clock, q)[i] == Iv(clock.Beg(q[i]), clock.End(q[i]))
  {
    if i > 0 {
      IvsAt(clock, q[1..], i - 1);
    }
  }

  lemma RisingUp(clock: Clock, q: seq<TsEvent>)
    requires Rising(clock, q)
    ensures Up(Ivs(clock, q))
  {
    forall i | 0 <= i < |q| ensures Ivs(clock, q)[i] == Iv(clock.Beg(q[i]), clock.End(q[i])) {
      IvsAt(clock, q, i);
    }
  }

  /** How many events of each stream were taken up to each written event. */
  function Counts(out: seq<Group>): (r: seq<Point>)
    ensures |r| == |out|
  {
    if out == [] then [] else Counts(out[..|out| - 1]) + [Point(|NewBifs(out)|, |NewCals(out)|)]
  }

  lemma CountsAdd(out: seq<Group>, g: Group)
    ensures Counts(out + [g]) == Counts(out) + [Point(|NewBifs(out + [g])|, |NewCals(out + [g])|)]
  {
    assert (out + [g])[..|out|] == out;
  }

  /** One stream of the merge, `n` events of which were taken. */
  predicate SideAt(s: Side, q: seq<TsEvent>, n: nat) {
    && n <= |q| && s.queue == q[n..]
    && s.last == (if n == 0 then [] else [q[n - 1]])
    && s.end == (if n == 0 then 0 else s.clock.End(q[n - 1]))
  }

  /** The written event at a position holds the events taken last, if these meet. */
  predicate HoldsAt(g: Group, p: Point, bif: Clock, cal: Clock, bs: seq<TsEvent>, cs: seq<TsEvent>) {
    if 0 < p.b <= |bs| && 0 < p.c <= |cs|
       && Overlap(bif.Beg(bs[p.b - 1]), bif.End(bs[p.b - 1]), cal.Beg(cs[p.c - 1]), cal.End(cs[p.c - 1]))
    then g.bif == [bs[p.b - 1]] && g.cal == [cs[p.c - 1]]
    else true
  }

  ghost predicate AllHold(out: seq<Group>, bif: Clock, cal: Clock, bs: seq<TsEvent>, cs: seq<TsEvent>) {
    forall k :: 0 <= k < |out| ==> HoldsAt(out[k], Counts(out)[k], bif, cal, bs, cs)
  }

  ghost predicate MergeAt(m: Merge, bs: seq<TsEvent>, cs: seq<TsEvent>, p: Point) {
    && SideAt(m.bif, bs, p.b) && SideAt(m.cal, cs, p.c)
    && |NewBifs(m.out)| == p.b && |NewCals(m.out)| == p.c
    && AllHold(m.out, m.bif.clock, m.cal.clock, bs, cs)
  }

  lemma AdvanceAt(s: Side, q: seq<TsEvent>, n: nat, end: Time)
    requires SideAt(s, q, n) && n < |q|
    ensures SideAt(Advance(s, end), q, if Takes(s, end) then n + 1 else n)
  {
    assert q[n..][1..] == q[n + 1..];
  }

  lemma NextAgrees(m: Merge, bs: seq<TsEvent>, cs: seq<TsEvent>, p: Point)
    requires SideAt(m.bif, bs, p.b) && SideAt(m.cal, cs, p.c) && p.b < |bs| && p.c < |cs|
    ensures var n := Next(Ivs(m.bif.clock, bs), Ivs(m.cal.clock, cs), p);
      && Ready(m)
      && n.b == (if Takes(m.bif, WindowEnd(m)) then p.b + 1 else p.b)
      && n.c == (if Takes(m.cal, WindowEnd(m)) then p.c + 1 else p.c)
  {
    IvsAt(m.bif.clock, bs, p.b);
    IvsAt(m.cal.clock, cs, p.c);
  }

  lemma NewGroupHolds(m: Merge, bs: seq<TsEvent>, cs: seq<TsEvent>, p: Point)
    requires SideAt(m.bif, bs, p.b) && SideAt(m.cal, cs, p.c) && p.b < |bs| && p.c < |cs|
    requires Rising(m.bif.clock, bs) && Rising(m.cal.clock, cs)
    ensures HoldsAt(NewGroup(m), Next(Ivs(m.bif.clock, bs), Ivs(m.cal.clock, cs), p), m.bif.clock, m.cal.clock, bs, cs)
  {
    NextAgrees(m, bs, cs, p);
  }

  lemma NewCounted(m: Merge)
    requires Ready(m)
    ensures |NewBifs(Step(m).out)| == |NewBifs(m.out)| + (if Takes(m.bif, WindowEnd(m)) then 1 else 0)
    ensures |NewCals(Step(m).out)| == |NewCals(m.out)| + (if Takes(m.cal, WindowEnd(m)) then 1 else 0)
  {
    assert (m.out + [NewGroup(m)])[..|m.out|] == m.out;
  }

  lemma HoldAdd(out: seq<Group>, g: Group, bif: Clock, cal: Clock, bs: seq<TsEvent>, cs: seq<TsEvent>, p: Point)
    requires AllHold(out, bif, cal, bs, cs) && HoldsAt(g, p, bif, cal, bs, cs) && Counts(out + [g]) == Counts(out) + [p]
    ensures AllHold(out + [g], bif, cal, bs, cs)
  {
    forall k | 0 <= k < |out + [g]| ensures HoldsAt((out + [g])[k], Counts(out + [g])[k], bif, cal, bs, cs) {
      if k < |out| {
        assert HoldsAt(out[k], Counts(out)[k], bif, cal, bs, cs);
      }
    }
  }

  /** The point behind a point of the merge. */
  function NextOf(m: Merge, bs: seq<TsEvent>, cs: seq<TsEvent>, p: Point): Point
    requires p.b < |bs| && p.c < |cs|
  {
    Next(Ivs(m.bif.clock, bs), Ivs(m.cal.clock, cs), p)
  }

  lemma StepCounts(m: Merge, bs: seq<TsEvent>, cs: seq<TsEvent>, p: Point)
    requires SideAt(m.bif, bs, p.b) && SideAt(m.cal, cs, p.c) && p.b < |bs| && p.c < |cs|
    requires |NewBifs(m.out)| == p.b && |NewCals(m.out)| == p.c
    ensures var n := NextOf(m, bs, cs, p);
      && Ready(m) && |NewBifs(Step(m).out)| == n.b && |NewCals(Step(m).out)| == n.c
      && Counts(Step(m).out) == Counts(m.out) + [n]
  {
    NextAgrees(m, bs, cs, p);
    NewCounted(m);
    CountsAdd(m.out, NewGroup(m));
  }

  lemma StepSides(m: Merge, bs: seq<TsEvent>, cs: seq<TsEvent>, p: Point)
    requires SideAt(m.bif, bs, p.b) && SideAt(m.cal, cs, p.c) && p.b < |bs| && p.c < |cs|
    ensures var n := NextOf(m, bs, cs, p); Ready(m) && SideAt(Step(m).bif, bs, n.b) && SideAt(Step(m).cal, cs, n.c)
  {
    NextAgrees(m, bs, cs, p);
    AdvanceAt(m.bif, bs, p.b, WindowEnd(m));
    AdvanceAt(m.cal, cs, p.c, WindowEnd(m));
  }

  lemma StepAt(m: Merge, bs: seq<TsEvent>, cs: seq<TsEvent>, p: Point)
    requires p.b < |bs| && p.c < |cs| && Rising(m.bif.clock, bs) && Rising(m.cal.clock, cs)
    ensures MergeAt(m, bs, cs, p) ==>
      Ready(m) && MergeAt(Step(m), bs, cs, NextOf(m, bs, cs, p)) && Counts(Step(m).out) == Counts(m.out) + [NextOf(m, bs, cs, p)]
  {
    if MergeAt(m, bs, cs, p) {
      StepCounts(m, bs, cs, p);
      StepSides(m, bs, cs, p);
      NewGroupHolds(m, bs, cs, p);
      HoldAdd(m.out, NewGroup(m), m.bif.clock, m.cal.clock, bs, cs, NextOf(m, bs, cs, p));
    }
  }

  /** The merge ends where the walk ends, and has passed the points of the walk. */
  ghost predicate Walked(x: seq<Iv>, y: seq<Iv>, counts: seq<Point>, r: Merge, bs: seq<TsEvent>, cs: seq<TsEvent>, p: Point)
    requires Up(x) && Up(y) && p.b <= |x| && p.c <= |y|
  {
    MergeAt(r, bs, cs, Stop(x, y, p)) && Counts(r.out) == counts + Walk(x, y, p)
  }

  lemma WalkedOn(x: seq<Iv>, y: seq<Iv>, counts: seq<Point>, r: Merge, bs: seq<TsEvent>, cs: seq<TsEvent>, p: Point)
    requires Up(x) && Up(y) && Open(x, y, p)
    ensures var n := Next(x, y, p);
      && n.b <= |x| && n.c <= |y|
      && (Walked(x, y, counts + [n], r, bs, cs, n) ==> Walked(x, y, counts, r, bs, cs, p))
  {
    var n := Next(x, y, p);
    Progress(x, y, p);
    assert (counts + [n]) + Walk(x, y, n) == counts + ([n] + Walk(x, y, n));
  }

  lemma {:induction false} MergedWalks(m: Merge, bs: seq<TsEvent>, cs: seq<TsEvent>, p: Point)
    requires Rising(m.bif.clock, bs) && Rising(m.cal.clock, cs) && p.b <= |bs| && p.c <= |cs|
    ensures Up(Ivs(m.bif.clock, bs)) && Up(Ivs(m.cal.clock, cs))
    ensures MergeAt(m, bs, cs, p) ==> Walked(Ivs(m.bif.clock, bs), Ivs(m.cal.clock, cs), Counts(m.out), Merged(m), bs, cs, p)
    decreases |m.bif.queue| + |m.cal.queue|
  {
    RisingUp(m.bif.clock, bs);
    RisingUp(m.cal.clock, cs);
    if !MergeAt(m, bs, cs, p) {
    } else if p.b < |bs| && p.c < |cs| {
      StepAt(m, bs, cs, p);
      Goes(m, bs, cs, p);
      WalkedOn(Ivs(m.bif.clock, bs), Ivs(m.cal.clock, cs), Counts(m.out), Merged(m), bs, cs, p);
      MergedWalks(Step(m), bs, cs, NextOf(m, bs, cs, p));
    } else {
      assert Counts(m.out) + [] == Counts(m.out);
    }
  }

  lemma Goes(m: Merge, bs: seq<TsEvent>, cs: seq<TsEvent>, p: Point)
    requires SideAt(m.bif, bs, p.b) && SideAt(m.cal, cs, p.c) && p.b < |bs| && p.c < |cs|
    requires Up(Ivs(m.bif.clock, bs)) && Up(Ivs(m.cal.clock, cs))
    ensures Ready(m) && Consumes(m)
  {
    NextAgrees(m, bs, cs, p);
    Progress(Ivs(m.bif.clock, bs), Ivs(m.cal.clock, cs), p);
  }

  // ---------- The result ----------

  predicate Overlapping(cal: Clock, b: TsEvent, c: TsEvent) {
    Overlap(b.beg, b.end, cal.Beg(c), cal.End(c))
  }

  /** Event i of the one stream and event j of the other are in one written event. */
  ghost predicate Together(out: seq<Group>, bs: seq<TsEvent>, cs: seq<TsEvent>, i: nat, j: nat)
    requires i < |bs| && j < |cs|
  {
    exists k :: 0 <= k < |out| && Counts(out)[k] == Point(i + 1, j + 1) && out[k].bif == [bs[i]] && out[k].cal == [cs[j]]
  }

  /** Every pair of events taken that overlap is in one written event. */
  ghost predicate AllTogether(cal: Clock, out: seq<Group>, bs: seq<TsEvent>, cs: seq<TsEvent>) {
    forall i: nat, j: nat | i < |bs| && j < |cs| && i < |NewBifs(out)| && j < |NewCals(out)| && Overlapping(cal, bs[i], cs[j]) ::
      Together(out, bs, cs, i, j)
  }

  /** Two neighbours of each stream: the first two overlap, the second two overlap, and one of the first
      overlaps the other one of the second. */
  predicate Cross(cal: Clock, bs: seq<TsEvent>, cs: seq<TsEvent>, i: nat, j: nat)
    requires i + 1 < |bs| && j + 1 < |cs|
  {
    && Overlapping(cal, bs[i], cs[j]) && Overlapping(cal, bs[i + 1], cs[j + 1])
    && (Overlapping(cal, bs[i], cs[j + 1]) || Overlapping(cal, bs[i + 1], cs[j]))
  }

  ghost predicate SomeCross(cal: Clock, bs: seq<TsEvent>, cs: seq<TsEvent>) {
    exists i: nat, j: nat | i + 1 < |bs| && j + 1 < |cs| :: Cross(cal, bs, cs, i, j)
  }

  lemma MeetIsOverlap(cal: Clock, bs: seq<TsEvent>, cs: seq<TsEvent>, i: nat, j: nat)
    requires i < |bs| && j < |cs|
    ensures Meet(Ivs(Plain, bs)[i], Ivs(cal, cs)[j]) <==> Overlapping(cal, bs[i], cs[j])
  {
    IvsAt(Plain, bs, i);
    IvsAt(cal, cs, j);
  }

  lemma TangledIsCross(cal: Clock, bs: seq<TsEvent>, cs: seq<TsEvent>, i: nat, j: nat)
    requires i + 1 < |bs| && j + 1 < |cs|
    ensures Tangled(Ivs(Plain, bs), Ivs(cal, cs), i, j) <==> Cross(cal, bs, cs, i, j)
  {
    MeetIsOverlap(cal, bs, cs, i, j);
    MeetIsOverlap(cal, bs, cs, i + 1, j + 1);
    MeetIsOverlap(cal, bs, cs, i, j + 1);
    MeetIsOverlap(cal, bs, cs, i + 1, j);
  }

  lemma SomeTangledIsCross(cal: Clock, bs: seq<TsEvent>, cs: seq<TsEvent>, s: Point)
    requires s.b <= |bs| && s.c <= |cs|
    ensures SomeTangled(Ivs(Plain, bs), Ivs(cal, cs), s) <==> SomeCross(cal, bs[..s.b], cs[..s.c])
  {
    var x, y := Ivs(Plain, bs), Ivs(cal, cs);
    if SomeTangled(x, y, s) {
      var i: nat, j: nat :| i + 1 < s.b && j + 1 < s.c && Tangled(x, y, i, j);
      TangledIsCross(cal, bs, cs, i, j);
      assert Cross(cal, bs[..s.b], cs[..s.c], i, j);
    }
    if SomeCross(cal, bs[..s.b], cs[..s.c]) {
      var i: nat, j: nat :| i + 1 < s.b && j + 1 < s.c && Cross(cal, bs[..s.b], cs[..s.c], i, j);
      TangledIsCross(cal, bs, cs, i, j);
    }
  }

  lemma HoldsBoth(g: Group, cal: Clock, bs: seq<TsEvent>, cs: seq<TsEvent>, i: nat, j: nat)
    requires i < |bs| && j < |cs| && Overlapping(cal, bs[i], cs[j]) && HoldsAt(g, Point(i + 1, j + 1), Plain, cal, bs, cs)
    ensures g.bif == [bs[i]] && g.cal == [cs[j]]
  {
  }

  lemma VisitedIsTogether(cal: Clock, out: seq<Group>, bs: seq<TsEvent>, cs: seq<TsEvent>, i: nat, j: nat)
    requires i < |bs| && j < |cs| && Overlapping(cal, bs[i], cs[j]) && AllHold(out, Plain, cal, bs, cs)
    ensures Together(out, bs, cs, i, j) <==> Point(i + 1, j + 1) in Counts(out)
  {
    var p := Point(i + 1, j + 1);
    if p in Counts(out) {
      var k :| 0 <= k < |out| && Counts(out)[k] == p;
      assert HoldsAt(out[k], p, Plain, cal, bs, cs);
      HoldsBoth(out[k], cal, bs, cs, i, j);
    }
  }

  lemma VisitedAreTogether(cal: Clock, out: seq<Group>, bs: seq<TsEvent>, cs: seq<TsEvent>)
    requires Up(Ivs(Plain, bs)) && Up(Ivs(cal, cs)) && AllHold(out, Plain, cal, bs, cs)
    requires var x, y := Ivs(Plain, bs), Ivs(cal, cs);
      Counts(out) == Walk(x, y, ORIGIN) && Stop(x, y, ORIGIN) == Point(|NewBifs(out)|, |NewCals(out)|)
    ensures AllTogether(cal, out, bs, cs) <==> AllVisited(Ivs(Plain, bs), Ivs(cal, cs))
  {
    var b, c := |NewBifs(out)|, |NewCals(out)|;
    var x, y := Ivs(Plain, bs), Ivs(cal, cs);
    forall i: nat, j: nat | i < |bs| && j < |cs|
      ensures Meet(x[i], y[j]) <==> Overlapping(cal, bs[i], cs[j])
      ensures Overlapping(cal, bs[i], cs[j]) ==> (Together(out, bs, cs, i, j) <==> Point(i + 1, j + 1) in Walk(x, y, ORIGIN))
    {
      MeetIsOverlap(cal, bs, cs, i, j);
      if Overlapping(cal, bs[i], cs[j]) {
        VisitedIsTogether(cal, out, bs, cs, i, j);
      }
    }
  }

  lemma FromOrigin(cal: Clock, bs: seq<TsEvent>, cs: seq<TsEvent>)
    requires Rising(Plain, bs) && Rising(cal, cs)
    ensures var m := Begin(cal, bs, cs); var x, y := Ivs(Plain, bs), Ivs(cal, cs);
      && Up(x) && Up(y) && MergeAt(Merged(m), bs, cs, Stop(x, y, ORIGIN)) && Counts(Merged(m).out) == Walk(x, y, ORIGIN)
      && Merged(m).bif.clock == Plain && Merged(m).cal.clock == cal
  {
    var m := Begin(cal, bs, cs);
    assert bs[0..] == bs && cs[0..] == cs;
    MergedWalks(m, bs, cs, ORIGIN);
    ClocksKept(m);
    assert Counts([]) + Walk(Ivs(Plain, bs), Ivs(cal, cs), ORIGIN) == Walk(Ivs(Plain, bs), Ivs(cal, cs), ORIGIN);
  }

  /** Streams with rising times: every pair of events taken that overlap is in one written event if and
      only if no neighbours cross. */
  lemma OverlapsMeet(cal: Clock, bs: seq<TsEvent>, cs: seq<TsEvent>)
    requires Rising(Plain, bs) && Rising(cal, cs)
    ensures var out := Merged(Begin(cal, bs, cs)).out; var b, c := |NewBifs(out)|, |NewCals(out)|;
      && b <= |bs| && c <= |cs|
      && (AllTogether(cal, out, bs, cs) <==> !SomeCross(cal, bs[..b], cs[..c]))
  {
    FromOrigin(cal, bs, cs);
    ExactlyAt(cal, bs, cs, Merged(Begin(cal, bs, cs)).out);
  }

  lemma ExactlyAt(cal: Clock, bs: seq<TsEvent>, cs: seq<TsEvent>, out: seq<Group>)
    requires Up(Ivs(Plain, bs)) && Up(Ivs(cal, cs)) && AllHold(out, Plain, cal, bs, cs)
    requires var x, y := Ivs(Plain, bs), Ivs(cal, cs);
      Counts(out) == Walk(x, y, ORIGIN) && Stop(x, y, ORIGIN) == Point(|NewBifs(out)|, |NewCals(out)|)
    ensures var b, c := |NewBifs(out)|, |NewCals(out)|;
      && b <= |bs| && c <= |cs|
      && (AllTogether(cal, out, bs, cs) <==> !SomeCross(cal, bs[..b], cs[..c]))
  {
    var x, y := Ivs(Plain, bs), Ivs(cal, cs);
    VisitedExactly(x, y);
    VisitedAreTogether(cal, out, bs, cs);
    SomeTangledIsCross(cal, bs, cs, Stop(x, y, ORIGIN));
  }

  /** The same for a run, whatever the order of arrival. */
  lemma RunComplete(arrivals: seq<Arrival>)
    requires var bs, cs := Stream(arrivals, Bif), Stream(arrivals, Cal);
      bs != [] && cs != [] && cs[0].bore && Rising(Plain, bs) && Rising(ClockOf(bs[0], cs[0]), cs)
    ensures var bs, cs := Stream(arrivals, Bif), Stream(arrivals, Cal);
      var clock := ClockOf(bs[0], cs[0]);
      var out := ReceiveAll(START, arrivals).merge.out; var b, c := |NewBifs(out)|, |NewCals(out)|;
      && b <= |bs| && c <= |cs|
      && (AllTogether(clock, out, bs, cs) <==> !SomeCross(clock, bs[..b], cs[..c]))
  {
    var bs, cs := Stream(arrivals, Bif), Stream(arrivals, Cal);
    RisingIsTimed(Plain, bs);
    RisingIsTimed(ClockOf(bs[0], cs[0]), cs);
    ArrivalOrderIrrelevant(arrivals);
    OverlapsMeet(ClockOf(bs[0], cs[0]), bs, cs);
  }

  // ---------- An instance ----------

  function Lasting(id: int, beg: Time, end: Time): TsEvent {
    TsEvent(id, false, true, beg, end, beg == 0, 0, 0, 0, 0)
  }

  /** Crossing neighbours: b1 and c2 overlap too, and no written event holds both. */
  lemma OverlapMissed(bs: seq<TsEvent>, cs: seq<TsEvent>)
    requires bs == [Lasting(1, 0, 10), Lasting(2, 10, 20)] && cs == [Lasting(3, 0, 2), Lasting(4, 5, 15)]
    ensures Rising(Plain, bs) && Rising(Plain, cs) && Cross(Plain, bs, cs, 0, 0)
    ensures !AllTogether(Plain, Merged(Begin(Plain, bs, cs)).out, bs, cs)
  {
    CrossMisses(bs, cs);
  }

  lemma CrossMisses(bs: seq<TsEvent>, cs: seq<TsEvent>)
    requires |bs| == |cs| == 2 && Rising(Plain, bs) && Rising(Plain, cs) && Cross(Plain, bs, cs, 0, 0)
    ensures !AllTogether(Plain, Merged(Begin(Plain, bs, cs)).out, bs, cs)
  {
    var x, y := Ivs(Plain, bs), Ivs(Plain, cs);
    FromOrigin(Plain, bs, cs);
    MeetIsOverlap(Plain, bs, cs, 0, 0);
    MeetIsOverlap(Plain, bs, cs, 1, 1);
    Diagonal(x, y);
    OverlapsMeet(Plain, bs, cs);
    assert bs[..2] == bs && cs[..2] == cs;
  }

  /** Two pairs that meet, one after the other, are both taken. */
  lemma Diagonal(x: seq<Iv>, y: seq<Iv>)
    requires |x| == |y| == 2 && Up(x) && Up(y) && Meet(x[0], y[0]) && Meet(x[1], y[1])
    ensures Stop(x, y, ORIGIN) == Point(2, 2)
  {
    Progress(x, y, ORIGIN);
    Progress(x, y, Point(1, 1));
    assert Stop(x, y, ORIGIN) == Stop(x, y, Point(1, 1)) == Stop(x, y, Point(2, 2)) == Point(2, 2);
  }
}
