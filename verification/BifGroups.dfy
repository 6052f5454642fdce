/**
 The events of the BIF producer in BXID mode, group by group of triggers with the same crossing.
 */
module BifGroups {
  import opened Sequences
  import opened BifProcessing

  /** How many triggers at the front have a crossing. */
  function Front(r: Readout, ts: seq<Rec>, bxid: int): (n: nat)
    ensures n <= |ts| && (forall i :: 0 <= i < n ==> r.Bxid(ts[i]) == bxid) && (n < |ts| ==> r.Bxid(ts[n]) != bxid)
  {
    if ts == [] || r.Bxid(ts[0]) != bxid then 0
    else
      var n := Front(r, ts[1..], bxid);
      assert forall i :: 1 <= i < n + 1 ==> ts[i] == ts[1..][i - 1];
      1 + n
  }

  /** The triggers cut where the crossing changes. */
  function GroupsOf(r: Readout, ts: seq<Rec>): (gs: seq<seq<Rec>>)
    decreases |ts|
  {
    if ts == [] then []
    else
      var n := Front(r, ts, r.Bxid(ts[0]));
      [ts[..n]] + GroupsOf(r, ts[n..])
  }

  /** A group: triggers of one crossing. */
  predicate OneCrossing(r: Readout, g: seq<Rec>) {
    g != [] && forall i :: 0 <= i < |g| ==> r.Bxid(g[i]) == r.Bxid(g[0])
  }

  predicate AllOneCrossing(r: Readout, gs: seq<seq<Rec>>) {
    forall i :: 0 <= i < |gs| ==> OneCrossing(r, gs[i])
  }

  /** Neighbouring groups have different crossings. */
  predicate Changes(r: Readout, gs: seq<seq<Rec>>)
    requires AllOneCrossing(r, gs)
  {
    forall i :: 0 < i < |gs| ==> r.Bxid(gs[i - 1][0]) != r.Bxid(gs[i][0])
  }

  lemma GroupInFront(r: Readout, g: seq<Rec>, rest: seq<seq<Rec>>)
    requires OneCrossing(r, g) && AllOneCrossing(r, rest) && Changes(r, rest)
    requires rest != [] ==> r.Bxid(rest[0][0]) != r.Bxid(g[0])
    ensures AllOneCrossing(r, [g] + rest) && Changes(r, [g] + rest)
  {
    var gs := [g] + rest;
    forall i | 0 <= i < |gs| ensures OneCrossing(r, gs[i]) {
      assert i > 0 ==> gs[i] == rest[i - 1];
    }
    forall i | 0 < i < |gs| ensures r.Bxid(gs[i - 1][0]) != r.Bxid(gs[i][0]) {
      assert gs[i] == rest[i - 1];
      if i > 1 {
        assert gs[i - 1] == rest[i - 2];
      }
    }
  }

  /** The groups are the triggers in order, cut exactly where the crossing changes. */
  lemma {:induction false} GroupsMeaning(r: Readout, ts: seq<Rec>)
    ensures var gs := GroupsOf(r, ts);
      && Concat(gs) == ts && AllOneCrossing(r, gs) && Changes(r, gs) && (ts != [] ==> gs != [] && gs[0][0] == ts[0])
    decreases |ts|
  {
    if ts != [] {
      var n := Front(r, ts, r.Bxid(ts[0]));
      var rest := GroupsOf(r, ts[n..]);
      var gs := [ts[..n]] + rest;
      GroupsMeaning(r, ts[n..]);
      assert gs[1..] == rest && ts[..n] + ts[n..] == ts;
      GroupInFront(r, ts[..n], rest);
    }
  }

  /** Words of the triggers in between: each one, the start, and the trigger again. */
  function Between(ts: seq<Rec>, start: seq<int>): seq<int> {
    if ts == [] then [] else Flat(ts[0]) + start + Flat(ts[0]) + Between(ts[1..], start)
  }

  /** What an event holds of its group: the first group has its first trigger in front of the start, too. */
  function Payload(first: bool, g: seq<Rec>, start: seq<int>, stop: seq<int>): seq<int>
    requires g != []
  {
    (if first then Flat(g[0]) else []) + start + Flat(g[0]) + Between(g[1..], start) + stop
  }

  function GroupEvent(r: Readout, first: bool, g: seq<Rec>, start: seq<int>, stop: seq<int>): BifEvent
    requires g != []
  {
    BxidEvent(r.roc, r.Number(g[0]), g[0].Time(), r.Bxid(g[0]), Payload(first, g, start, stop))
  }

  function GroupEvents(r: Readout, first: bool, gs: seq<seq<Rec>>, start: seq<int>, stop: seq<int>): (es: seq<BifEvent>)
    requires AllOneCrossing(r, gs)
    ensures |es| == |gs| && forall i :: 0 <= i < |es| ==> es[i] == GroupEvent(r, first && i == 0, gs[i], start, stop)
  {
    if gs == [] then []
    else
      assert OneCrossing(r, gs[0]);
      var rest := GroupEvents(r, false, gs[1..], start, stop);
      assert AllOneCrossing(r, gs[1..]);
      [GroupEvent(r, first, gs[0], start, stop)] + rest
  }

  /** What is still to come once an event is being collected. */
  predicate ToCome(r: Readout, o: Open, ts: seq<Rec>, start: seq<int>, stop: seq<int>, es: seq<BifEvent>) {
    var n := Front(r, ts, o.bxid);
    && AllOneCrossing(r, GroupsOf(r, ts[n..]))
    && es == [BxidEvent(r.roc, o.number, o.time, o.bxid, o.data + Between(ts[..n], start) + stop)]
             + GroupEvents(r, false, GroupsOf(r, ts[n..]), start, stop)
  }

  lemma SameToCome(r: Readout, o: Open, t: Rec, more: seq<Rec>, start: seq<int>, stop: seq<int>, es: seq<BifEvent>)
    requires r.Bxid(t) == o.bxid && ToCome(r, Collect(r, Collecting(o), t, start), more, start, stop, es)
    ensures ToCome(r, o, [t] + more, start, stop, [] + es)
  {
    var ts := [t] + more;
    var n := Front(r, more, o.bxid);
    assert ts[1..] == more;
    assert Front(r, ts, o.bxid) == n + 1;
    SameGroup(r, o, t, more, start, stop, n + 1);
    assert [] + es == es;
  }

  lemma OtherToCome(r: Readout, o: Open, t: Rec, more: seq<Rec>, start: seq<int>, stop: seq<int>, es: seq<BifEvent>)
    requires r.Bxid(t) != o.bxid && ToCome(r, Collect(r, Collecting(o), t, start), more, start, stop, es)
    ensures ToCome(r, o, [t] + more, start, stop, [CloseBxid(r, o, stop)] + es)
  {
    var ts := [t] + more;
    var k := Front(r, more, r.Bxid(t));
    assert ts[0..] == ts && ts[..0] == [] && o.data + [] == o.data;
    GroupsMeaning(r, ts);
    NewGroup(r, t, more, start, stop, k);
    var gs := GroupsOf(r, ts);
    assert gs == [ts[..k + 1]] + GroupsOf(r, more[k..]);
    assert gs[1..] == GroupsOf(r, more[k..]);
    assert GroupEvents(r, false, gs, start, stop)
        == [GroupEvent(r, false, ts[..k + 1], start, stop)] + GroupEvents(r, false, GroupsOf(r, more[k..]), start, stop);
  }

  lemma {:induction false} CollectingGroups(r: Readout, o: Open, ts: seq<Rec>, start: seq<int>, stop: seq<int>)
    ensures ToCome(r, o, ts, start, stop, BxidEvents(r, Collecting(o), ts, start, stop))
    decreases |ts|
  {
    if ts == [] {
      assert o.data + [] == o.data;
      assert [CloseBxid(r, o, stop)] + [] == [CloseBxid(r, o, stop)];
    } else {
      var t, more := ts[0], ts[1..];
      var o' := Collect(r, Collecting(o), t, start);
      CollectingGroups(r, o', more, start, stop);
      assert ts == [t] + more;
      if r.Bxid(t) == o.bxid {
        SameToCome(r, o, t, more, start, stop, BxidEvents(r, Collecting(o'), more, start, stop));
      } else {
        OtherToCome(r, o, t, more, start, stop, BxidEvents(r, Collecting(o'), more, start, stop));
      }
    }
  }

  lemma SameGroup(r: Readout, o: Open, t: Rec, more: seq<Rec>, start: seq<int>, stop: seq<int>, n: nat)
    requires 0 < n <= |more| + 1
    ensures ([t] + more)[..n] == [t] + more[..n - 1] && ([t] + more)[n..] == more[n - 1..]
    ensures o.data + Flat(t) + start + Flat(t) + Between(more[..n - 1], start) == o.data + Between(([t] + more)[..n], start)
  {
    var front := ([t] + more)[..n];
    assert front == [t] + more[..n - 1] && front[1..] == more[..n - 1];
    var b := Between(more[..n - 1], start);
    assert o.data + Flat(t) + start + Flat(t) + b == o.data + (Flat(t) + start + Flat(t) + b);
  }

  lemma NewGroup(r: Readout, t: Rec, more: seq<Rec>, start: seq<int>, stop: seq<int>, k: nat)
    requires k == Front(r, more, r.Bxid(t))
    ensures var ts := [t] + more;
      && Front(r, ts, r.Bxid(ts[0])) == k + 1 && ts[..k + 1] == [t] + more[..k] && ts[k + 1..] == more[k..]
      && Payload(false, ts[..k + 1], start, stop) == start + Flat(t) + Between(more[..k], start) + stop
  {
    var ts := [t] + more;
    assert ts[1..] == more && ts[..k + 1] == [t] + more[..k] && ts[..k + 1][1..] == more[..k];
    assert [] + start == start;
  }

  /** The events of a build: one for each group, with the crossing of the group, number and time of its
      first trigger, and all of its triggers between start and stop. */
  lemma BxidEventsAre(r: Readout, ts: seq<Rec>, start: seq<int>, stop: seq<int>)
    ensures AllOneCrossing(r, GroupsOf(r, ts))
    ensures BxidEvents(r, Nothing, ts, start, stop) == GroupEvents(r, true, GroupsOf(r, ts), start, stop)
  {
    GroupsMeaning(r, ts);
    if ts != [] {
      var t, more := ts[0], ts[1..];
      var k := Front(r, more, r.Bxid(t));
      var o := Collect(r, Nothing, t, start);
      CollectingGroups(r, o, more, start, stop);
      NewGroup(r, t, more, start, stop, k);
      assert ts == [t] + more;
      assert Closed(r, Nothing, t, stop) == [];
      var g := ts[..k + 1];
      assert g[1..] == more[..k];
      assert o.data + Between(more[..k], start) + stop == Payload(true, g, start, stop);
      assert [] + BxidEvents(r, Collecting(o), more, start, stop) == BxidEvents(r, Collecting(o), more, start, stop);
    }
  }
}
