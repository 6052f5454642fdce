/**
 The merge of `AhcalHodoscopeDataCollector.cc`: AHCAL events are written together with the events of
 all hodoscopes that agree in readout cycle and bunch crossing, if there is any. One AHCAL producer;
 the hodoscopes stand in the order of their connections.
 */
module HodoscopeJoin {

  /** An event; a tag it does not have reads -1. */
  datatype Ev = Ev(id: int, roc: int, bxid: int)

  datatype Key = Key(roc: int, bxid: int)

  function KeyOf(e: Ev): Key {
    Key(e.roc, e.bxid)
  }

  predicate Less(a: Key, b: Key) {
    a.roc < b.roc || (a.roc == b.roc && a.bxid < b.bxid)
  }

  /** AHCAL events that cannot be matched. */
  predicate Bad(e: Ev) {
    e.roc == -1 || e.bxid == -1 || e.bxid == 0
  }

  datatype Sync = Sync(ahcal: Ev, hodoscopes: seq<Ev>)

  datatype Coll = Coll(ahcal: seq<Ev>, hodos: seq<seq<Ev>>, written: seq<Sync>, unmatched: nat)

  // ---------- One pass of the loop ----------

  /** What looking at the hodoscopes does and finds: a queue was empty, an event was behind the AHCAL
      event and popped, an event matched. */
  datatype Look = Look(hodos: seq<seq<Ev>>, stop: bool, behind: bool, match_: bool)

  predicate IsBehind(h: seq<Ev>, k: Key) {
    h != [] && Less(KeyOf(h[0]), k)
  }

  predicate IsAt(h: seq<Ev>, k: Key) {
    h != [] && KeyOf(h[0]) == k
  }

  /** The queues in order, up to an empty one. */
  function LookAt(hs: seq<seq<Ev>>, k: Key): (r: Look)
    ensures |r.hodos| == |hs|
  {
    if hs == [] then Look([], false, false, false)
    else if hs[0] == [] then Look(hs, true, false, false)
    else
      var r := LookAt(hs[1..], k);
      Look([if IsBehind(hs[0], k) then hs[0][1..] else hs[0]] + r.hodos, r.stop,
           IsBehind(hs[0], k) || r.behind, IsAt(hs[0], k) || r.match_)
  }

  /** Front events that match. */
  function Fronts(hs: seq<seq<Ev>>, k: Key): seq<Ev> {
    if hs == [] then [] else (if IsAt(hs[0], k) then [hs[0][0]] else []) + Fronts(hs[1..], k)
  }

  function PopFronts(hs: seq<seq<Ev>>, k: Key): (r: seq<seq<Ev>>)
    ensures |r| == |hs|
  {
    if hs == [] then [] else [if IsAt(hs[0], k) then hs[0][1..] else hs[0]] + PopFronts(hs[1..], k)
  }

  /** How a pass ends: the loop is left or goes on. */
  datatype Passed = Left(c: Coll) | Again(c: Coll)

  function Pass(c: Coll): Passed {
    if c.ahcal == [] then Left(c)
    else if Bad(c.ahcal[0]) then Again(c.(ahcal := c.ahcal[1..]))
    else
      var k := KeyOf(c.ahcal[0]);
      var look := LookAt(c.hodos, k);
      var c' := c.(hodos := look.hodos);
      if look.stop then Left(c')
      else if look.behind then Again(c')
      else if !look.match_ then Again(c'.(ahcal := c.ahcal[1..], unmatched := c.unmatched + 1))
      else Again(Coll(c.ahcal[1..], PopFronts(look.hodos, k), c.written + [Sync(c.ahcal[0], Fronts(look.hodos, k))], c.unmatched))
  }

  function Total(hs: seq<seq<Ev>>): nat {
    if hs == [] then 0 else |hs[0]| + Total(hs[1..])
  }

  function Size(c: Coll): nat {
    |c.ahcal| + Total(c.hodos)
  }

  lemma {:induction false} LookSize(hs: seq<seq<Ev>>, k: Key)
    ensures Total(LookAt(hs, k).hodos) <= Total(hs)
    ensures LookAt(hs, k).behind ==> Total(LookAt(hs, k).hodos) < Total(hs)
  {
    if hs != [] && hs[0] != [] {
      LookSize(hs[1..], k);
      assert LookAt(hs, k).hodos[1..] == LookAt(hs[1..], k).hodos;
    }
  }

  lemma {:induction false} PopSize(hs: seq<seq<Ev>>, k: Key)
    ensures Total(PopFronts(hs, k)) <= Total(hs)
  {
    if hs != [] {
      PopSize(hs[1..], k);
      assert PopFronts(hs, k)[1..] == PopFronts(hs[1..], k);
    }
  }

  /** Every pass that does not leave the loop pops an event. */
  lemma PassPops(c: Coll)
    ensures Pass(c).Again? ==> Size(Pass(c).c) < Size(c)
  {
    if c.ahcal != [] && !Bad(c.ahcal[0]) {
      var k := KeyOf(c.ahcal[0]);
      LookSize(c.hodos, k);
      PopSize(LookAt(c.hodos, k).hodos, k);
    }
  }

  /** `BuildEvent`. */
  function Build(c: Coll): Coll
    decreases Size(c)
  {
    var p := Pass(c);
    if p.Left? then p.c
    else
      PassPops(c);
      Build(p.c)
  }

  // ---------- Receiving ----------

  /** Where an event comes from. */
  datatype Source = Ahcal | Hodoscope(i: nat)

  datatype Arrival = Arrival(source: Source, e: Ev)

  predicate Known(c: Coll, s: Source) {
    s.Hodoscope? ==> s.i < |c.hodos|
  }

  function Enqueue(c: Coll, a: Arrival): Coll
    requires Known(c, a.source)
  {
    match a.source
    case Ahcal => c.(ahcal := c.ahcal + [a.e])
    case Hodoscope(i) => c.(hodos := c.hodos[i := c.hodos[i] + [a.e]])
  }

  /** `DoReceive`; an event of an unknown producer is refused. */
  function Receive(c: Coll, a: Arrival): Coll {
    if !Known(c, a.source) then c
    else if |c.hodos| < 2 then Enqueue(c, a)
    else Build(Enqueue(c, a))
  }

  function ReceiveAll(c: Coll, arrivals: seq<Arrival>): Coll
    decreases |arrivals|
  {
    if arrivals == [] then c else ReceiveAll(Receive(c, arrivals[0]), arrivals[1..])
  }

  // ---------- The semi-join ----------

  /** Whether a hodoscope has got as far as a key. */
  predicate Got(h: seq<Ev>, k: Key) {
    h != [] && (!Less(KeyOf(h[0]), k) || Got(h[1..], k))
  }

  predicate Reached(hs: seq<seq<Ev>>, k: Key) {
    hs == [] || (Got(hs[0], k) && Reached(hs[1..], k))
  }

  /** A hodoscope's event with a key. */
  function Find(h: seq<Ev>, k: Key): seq<Ev> {
    if h == [] then [] else if KeyOf(h[0]) == k then [h[0]] else Find(h[1..], k)
  }

  /** The events of all hodoscopes with a key. */
  function Matches(hs: seq<seq<Ev>>, k: Key): seq<Ev> {
    if hs == [] then [] else Find(hs[0], k) + Matches(hs[1..], k)
  }

  function RowFor(a: Ev, ms: seq<Ev>): seq<Sync> {
    if ms == [] then [] else [Sync(a, ms)]
  }

  /** The semi-join: each tagged AHCAL event that some hodoscope matches, with all events that match
      it, as far as all hodoscopes have got. */
  function SemiJoin(ahcal: seq<Ev>, hs: seq<seq<Ev>>): seq<Sync>
    decreases |ahcal|
  {
    if ahcal == [] then []
    else if Bad(ahcal[0]) then SemiJoin(ahcal[1..], hs)
    else
      var k := KeyOf(ahcal[0]);
      if !Reached(hs, k) then []
      else RowFor(ahcal[0], Matches(hs, k)) + SemiJoin(ahcal[1..], hs)
  }

  /** The keys of the tagged events strictly increase. */
  predicate Ordered(s: seq<Ev>) {
    forall i, j :: 0 <= i < j < |s| && !Bad(s[i]) && !Bad(s[j]) ==> Less(KeyOf(s[i]), KeyOf(s[j]))
  }

  /** The keys of all events strictly increase. */
  predicate Sorted(s: seq<Ev>) {
    forall i, j :: 0 <= i < j < |s| ==> Less(KeyOf(s[i]), KeyOf(s[j]))
  }

  predicate AllSorted(hs: seq<seq<Ev>>) {
    forall i :: 0 <= i < |hs| ==> Sorted(hs[i])
  }

  // ---------- Queues and what is still to come ----------

  /** Queues continued by the events to come. */
  function Ext(hs: seq<seq<Ev>>, more: seq<seq<Ev>>): (r: seq<seq<Ev>>)
    requires |hs| == |more|
    ensures |r| == |hs|
  {
    if hs == [] then [] else [hs[0] + more[0]] + Ext(hs[1..], more[1..])
  }

  /** Popping events below a key changes nothing for keys from there on. */
  lemma DropBehind(h: seq<Ev>, x: seq<Ev>, k: Key, later: Key)
    requires IsBehind(h, k) && !Less(later, k)
    ensures Find(h[1..] + x, later) == Find(h + x, later) && Got(h[1..] + x, later) == Got(h + x, later)
  {
    assert (h + x)[1..] == h[1..] + x;
  }

  lemma DropAt(h: seq<Ev>, x: seq<Ev>, k: Key, later: Key)
    requires IsAt(h, k) && Less(k, later)
    ensures Find(h[1..] + x, later) == Find(h + x, later) && Got(h[1..] + x, later) == Got(h + x, later)
  {
    assert (h + x)[1..] == h[1..] + x;
  }

  lemma {:induction false} LookLater(hs: seq<seq<Ev>>, more: seq<seq<Ev>>, k: Key, later: Key)
    requires |hs| == |more| && !Less(later, k)
    ensures Matches(Ext(LookAt(hs, k).hodos, more), later) == Matches(Ext(hs, more), later)
    ensures Reached(Ext(LookAt(hs, k).hodos, more), later) == Reached(Ext(hs, more), later)
  {
    if hs != [] && hs[0] != [] {
      var r := LookAt(hs, k).hodos;
      assert r[1..] == LookAt(hs[1..], k).hodos;
      LookLater(hs[1..], more[1..], k, later);
      if IsBehind(hs[0], k) {
        DropBehind(hs[0], more[0], k, later);
      }
      ExtFront(hs, more);
      ExtFront(r, more);
    }
  }

  lemma ExtFront(hs: seq<seq<Ev>>, more: seq<seq<Ev>>)
    requires |hs| == |more| && hs != []
    ensures Ext(hs, more)[0] == hs[0] + more[0] && Ext(hs, more)[1..] == Ext(hs[1..], more[1..])
  {
  }

  lemma {:induction false} PopLater(hs: seq<seq<Ev>>, more: seq<seq<Ev>>, k: Key, later: Key)
    requires |hs| == |more| && Less(k, later)
    ensures Matches(Ext(PopFronts(hs, k), more), later) == Matches(Ext(hs, more), later)
    ensures Reached(Ext(PopFronts(hs, k), more), later) == Reached(Ext(hs, more), later)
  {
    if hs != [] {
      var r := PopFronts(hs, k);
      assert r[1..] == PopFronts(hs[1..], k);
      PopLater(hs[1..], more[1..], k, later);
      if IsAt(hs[0], k) {
        DropAt(hs[0], more[0], k, later);
      }
      ExtFront(hs, more);
      ExtFront(r, more);
    }
  }

  /** All tagged AHCAL events have at least a key. */
  predicate From(ahcal: seq<Ev>, k: Key) {
    forall i :: 0 <= i < |ahcal| && !Bad(ahcal[i]) ==> !Less(KeyOf(ahcal[i]), k)
  }

  predicate After(ahcal: seq<Ev>, k: Key) {
    forall i :: 0 <= i < |ahcal| && !Bad(ahcal[i]) ==> Less(k, KeyOf(ahcal[i]))
  }

  lemma {:induction false} LookKeepsJoin(ahcal: seq<Ev>, hs: seq<seq<Ev>>, more: seq<seq<Ev>>, k: Key)
    requires |hs| == |more| && From(ahcal, k)
    ensures SemiJoin(ahcal, Ext(LookAt(hs, k).hodos, more)) == SemiJoin(ahcal, Ext(hs, more))
    decreases |ahcal|
  {
    if ahcal != [] {
      LookKeepsJoin(ahcal[1..], hs, more, k);
      if !Bad(ahcal[0]) {
        LookLater(hs, more, k, KeyOf(ahcal[0]));
      }
    }
  }

  lemma {:induction false} PopKeepsJoin(ahcal: seq<Ev>, hs: seq<seq<Ev>>, more: seq<seq<Ev>>, k: Key)
    requires |hs| == |more| && After(ahcal, k)
    ensures SemiJoin(ahcal, Ext(PopFronts(hs, k), more)) == SemiJoin(ahcal, Ext(hs, more))
    decreases |ahcal|
  {
    if ahcal != [] {
      PopKeepsJoin(ahcal[1..], hs, more, k);
      if !Bad(ahcal[0]) {
        PopLater(hs, more, k, KeyOf(ahcal[0]));
      }
    }
  }

  // ---------- What the fronts decide ----------

  lemma {:induction false} FindAbove(h: seq<Ev>, k: Key)
    requires forall i :: 0 <= i < |h| ==> Less(k, KeyOf(h[i]))
    ensures Find(h, k) == []
  {
    if h != [] {
      FindAbove(h[1..], k);
    }
  }

  lemma FindFront(h: seq<Ev>, x: seq<Ev>, k: Key)
    requires h != [] && !IsBehind(h, k) && Sorted(h + x)
    ensures Got(h + x, k) && Find(h + x, k) == if IsAt(h, k) then [h[0]] else []
  {
    assert (h + x)[0] == h[0];
    if !IsAt(h, k) {
      FindAbove(h + x, k);
    }
  }

  /** When no queue is empty and no event is behind, the fronts tell all matches. */
  lemma {:induction false} FrontsDecide(hs: seq<seq<Ev>>, more: seq<seq<Ev>>, k: Key)
    requires |hs| == |more| && AllSorted(Ext(hs, more)) && !LookAt(hs, k).stop && !LookAt(hs, k).behind
    ensures LookAt(hs, k).hodos == hs
    ensures Reached(Ext(hs, more), k) && Matches(Ext(hs, more), k) == Fronts(hs, k)
    ensures LookAt(hs, k).match_ <==> Fronts(hs, k) != []
  {
    if hs != [] {
      ExtFront(hs, more);
      var e := Ext(hs, more);
      assert Sorted(e[0]);
      assert forall i :: 0 <= i < |e[1..]| ==> e[1..][i] == e[i + 1];
      FrontsDecide(hs[1..], more[1..], k);
      FindFront(hs[0], more[0], k);
    }
  }

  /** An empty queue with nothing to come has not reached any key. */
  lemma {:induction false} StopNotReached(hs: seq<seq<Ev>>, k: Key)
    requires LookAt(hs, k).stop
    ensures !Reached(LookAt(hs, k).hodos, k)
  {
    if hs[0] != [] {
      StopNotReached(hs[1..], k);
      assert LookAt(hs, k).hodos[1..] == LookAt(hs[1..], k).hodos;
    }
  }

  // ---------- The run ----------

  /** What is written, and what the queues continued by the events to come will add. */
  function Promise(c: Coll, ahcal: seq<Ev>, more: seq<seq<Ev>>): seq<Sync>
    requires |c.hodos| == |more|
  {
    c.written + SemiJoin(c.ahcal + ahcal, Ext(c.hodos, more))
  }

  predicate Fine(c: Coll, ahcal: seq<Ev>, more: seq<seq<Ev>>) {
    |c.hodos| == |more| && Ordered(c.ahcal + ahcal) && AllSorted(Ext(c.hodos, more))
  }

  lemma {:induction false} LookSorted(hs: seq<seq<Ev>>, more: seq<seq<Ev>>, k: Key)
    requires |hs| == |more| && AllSorted(Ext(hs, more))
    ensures AllSorted(Ext(LookAt(hs, k).hodos, more))
  {
    if hs != [] && hs[0] != [] {
      var r := LookAt(hs, k).hodos;
      ExtFront(hs, more);
      ExtFront(r, more);
      assert r[1..] == LookAt(hs[1..], k).hodos;
      SortedRest(Ext(hs, more));
      LookSorted(hs[1..], more[1..], k);
      assert (hs[0] + more[0])[1..] == hs[0][1..] + more[0];
      SortedTail(hs[0] + more[0]);
      SortedFront(Ext(r, more));
    }
  }

  lemma {:induction false} PopSorted(hs: seq<seq<Ev>>, more: seq<seq<Ev>>, k: Key)
    requires |hs| == |more| && AllSorted(Ext(hs, more))
    ensures AllSorted(Ext(PopFronts(hs, k), more))
  {
    if hs != [] {
      var r := PopFronts(hs, k);
      ExtFront(hs, more);
      ExtFront(r, more);
      assert r[1..] == PopFronts(hs[1..], k);
      SortedRest(Ext(hs, more));
      PopSorted(hs[1..], more[1..], k);
      if hs[0] != [] {
        assert (hs[0] + more[0])[1..] == hs[0][1..] + more[0];
        SortedTail(hs[0] + more[0]);
      }
      SortedFront(Ext(r, more));
    }
  }

  lemma SortedRest(hs: seq<seq<Ev>>)
    requires hs != [] && AllSorted(hs)
    ensures Sorted(hs[0]) && AllSorted(hs[1..])
  {
  }

  lemma SortedFront(hs: seq<seq<Ev>>)
    requires hs != [] && Sorted(hs[0]) && AllSorted(hs[1..])
    ensures AllSorted(hs)
  {
    forall i | 0 <= i < |hs| ensures Sorted(hs[i]) {
      if i > 0 {
        assert hs[i] == hs[1..][i - 1];
      }
    }
  }

  lemma SortedTail(s: seq<Ev>)
    requires Sorted(s) && s != []
    ensures Sorted(s[1..])
  {
  }

  lemma OrderedFront(c: Coll, ahcal: seq<Ev>)
    requires c.ahcal != [] && Ordered(c.ahcal + ahcal)
    ensures (c.ahcal + ahcal)[0] == c.ahcal[0] && (c.ahcal + ahcal)[1..] == c.ahcal[1..] + ahcal
    ensures Ordered(c.ahcal[1..] + ahcal)
    ensures !Bad(c.ahcal[0]) ==> From(c.ahcal + ahcal, KeyOf(c.ahcal[0])) && After(c.ahcal[1..] + ahcal, KeyOf(c.ahcal[0]))
  {
    var s := c.ahcal + ahcal;
    assert s[1..] == c.ahcal[1..] + ahcal;
    forall i | 0 < i < |s| && !Bad(s[0]) && !Bad(s[i]) ensures Less(KeyOf(s[0]), KeyOf(s[i])) {
    }
  }

  /** A pass keeps the promise, whatever is still to come. */
  lemma PassKeeps(c: Coll, ahcal: seq<Ev>, more: seq<seq<Ev>>)
    requires Fine(c, ahcal, more)
    ensures Fine(Pass(c).c, ahcal, more) && Promise(Pass(c).c, ahcal, more) == Promise(c, ahcal, more)
  {
    if c.ahcal != [] {
      OrderedFront(c, ahcal);
      if !Bad(c.ahcal[0]) {
        var k := KeyOf(c.ahcal[0]);
        LookSorted(c.hodos, more, k);
        LookKeepsJoin(c.ahcal + ahcal, c.hodos, more, k);
        var look := LookAt(c.hodos, k);
        if !look.stop && !look.behind {
          DecidedKeeps(c, ahcal, more);
        }
      }
    }
  }

  lemma DecidedKeeps(c: Coll, ahcal: seq<Ev>, more: seq<seq<Ev>>)
    requires Fine(c, ahcal, more) && c.ahcal != [] && !Bad(c.ahcal[0])
    requires var look := LookAt(c.hodos, KeyOf(c.ahcal[0])); !look.stop && !look.behind
    ensures Fine(Pass(c).c, ahcal, more) && Promise(Pass(c).c, ahcal, more) == Promise(c, ahcal, more)
  {
    var k := KeyOf(c.ahcal[0]);
    var rest := c.ahcal[1..] + ahcal;
    OrderedFront(c, ahcal);
    FrontsDecide(c.hodos, more, k);
    PopSorted(c.hodos, more, k);
    PopKeepsJoin(rest, c.hodos, more, k);
    var row := RowFor(c.ahcal[0], Fronts(c.hodos, k));
    assert SemiJoin(c.ahcal + ahcal, Ext(c.hodos, more)) == row + SemiJoin(rest, Ext(c.hodos, more));
    assert (c.written + row) + SemiJoin(rest, Ext(c.hodos, more)) == c.written + (row + SemiJoin(rest, Ext(c.hodos, more)));
    if row == [] {
      assert c.written + row == c.written;
    }
  }

  lemma {:induction false} BuildKeeps(c: Coll, ahcal: seq<Ev>, more: seq<seq<Ev>>)
    requires Fine(c, ahcal, more)
    ensures Fine(Build(c), ahcal, more) && Promise(Build(c), ahcal, more) == Promise(c, ahcal, more)
    decreases Size(c)
  {
    PassKeeps(c, ahcal, more);
    if Pass(c).Again? {
      PassPops(c);
      BuildKeeps(Pass(c).c, ahcal, more);
    }
  }

  function Nothing(n: nat): (r: seq<seq<Ev>>)
    ensures |r| == n
  {
    if n == 0 then [] else [[]] + Nothing(n - 1)
  }

  lemma {:induction false} ExtNothing(hs: seq<seq<Ev>>)
    ensures Ext(hs, Nothing(|hs|)) == hs
  {
    if hs != [] {
      ExtNothing(hs[1..]);
      assert Nothing(|hs|)[1..] == Nothing(|hs| - 1);
      assert hs[0] + [] == hs[0];
    }
  }

  /** When the loop is left, the queues alone give nothing more. */
  lemma {:induction false} BuildExhausts(c: Coll)
    ensures SemiJoin(Build(c).ahcal, Build(c).hodos) == []
    decreases Size(c)
  {
    var p := Pass(c);
    if p.Again? {
      PassPops(c);
      BuildExhausts(p.c);
    } else if c.ahcal != [] {
      StopNotReached(c.hodos, KeyOf(c.ahcal[0]));
    }
  }

  /** Events of one producer among the arrivals, in order. */
  function AhcalStream(arrivals: seq<Arrival>): seq<Ev> {
    if arrivals == [] then []
    else (if arrivals[0].source.Ahcal? then [arrivals[0].e] else []) + AhcalStream(arrivals[1..])
  }

  function HodoStreams(n: nat, arrivals: seq<Arrival>): (r: seq<seq<Ev>>)
    ensures |r| == n
    decreases |arrivals|
  {
    if arrivals == [] then Nothing(n)
    else
      var a, r := arrivals[0], HodoStreams(n, arrivals[1..]);
      if a.source.Hodoscope? && a.source.i < n then r[a.source.i := [a.e] + r[a.source.i]] else r
  }

  lemma {:induction false} ExtAdd(hs: seq<seq<Ev>>, more: seq<seq<Ev>>, i: nat, e: Ev)
    requires |hs| == |more| && i < |hs|
    ensures Ext(hs[i := hs[i] + [e]], more) == Ext(hs, more[i := [e] + more[i]])
  {
    assert (hs[i] + [e]) + more[i] == hs[i] + ([e] + more[i]);
    if i > 0 {
      ExtAdd(hs[1..], more[1..], i - 1, e);
      assert hs[i := hs[i] + [e]][1..] == hs[1..][i - 1 := hs[i] + [e]];
      assert more[i := [e] + more[i]][1..] == more[1..][i - 1 := [e] + more[i]];
    }
  }

  lemma EnqueueKeeps(c: Coll, a: Arrival, rest: seq<Arrival>)
    requires Known(c, a.source)
    ensures var n := |c.hodos|;
      && Enqueue(c, a).ahcal + AhcalStream(rest) == c.ahcal + AhcalStream([a] + rest)
      && Ext(Enqueue(c, a).hodos, HodoStreams(n, rest)) == Ext(c.hodos, HodoStreams(n, [a] + rest))
  {
    assert ([a] + rest)[1..] == rest;
    if a.source.Hodoscope? {
      ExtAdd(c.hodos, HodoStreams(|c.hodos|, rest), a.source.i, a.e);
    }
  }

  lemma {:induction false} RunKeeps(c: Coll, arrivals: seq<Arrival>)
    requires |c.hodos| >= 2 && Fine(c, AhcalStream(arrivals), HodoStreams(|c.hodos|, arrivals))
    requires SemiJoin(c.ahcal, c.hodos) == []
    ensures ReceiveAll(c, arrivals).written == Promise(c, AhcalStream(arrivals), HodoStreams(|c.hodos|, arrivals))
    decreases |arrivals|
  {
    if arrivals == [] {
      ExtNothing(c.hodos);
      assert c.ahcal + [] == c.ahcal && c.written + [] == c.written;
    } else {
      var a, rest, n := arrivals[0], arrivals[1..], |c.hodos|;
      assert [a] + rest == arrivals;
      if Known(c, a.source) {
        EnqueueKeeps(c, a, rest);
        BuildKeeps(Enqueue(c, a), AhcalStream(rest), HodoStreams(n, rest));
        BuildExhausts(Enqueue(c, a));
        RunKeeps(Build(Enqueue(c, a)), rest);
      } else {
        assert [] + AhcalStream(rest) == AhcalStream(rest);
        RunKeeps(c, rest);
      }
    }
  }

  function Start(n: nat): Coll {
    Coll([], Nothing(n), [], 0)
  }

  lemma {:induction false} ExtFromNothing(more: seq<seq<Ev>>)
    ensures Ext(Nothing(|more|), more) == more
  {
    if more != [] {
      ExtFromNothing(more[1..]);
      assert Nothing(|more|)[1..] == Nothing(|more| - 1);
      assert [] + more[0] == more[0];
    }
  }

  /** With at least two hodoscopes and strictly increasing keys in every stream, the written events
      are the semi-join of the streams: whatever the order of arrival. */
  lemma WrittenIsSemiJoin(n: nat, arrivals: seq<Arrival>)
    requires n >= 2 && Ordered(AhcalStream(arrivals)) && AllSorted(HodoStreams(n, arrivals))
    ensures ReceiveAll(Start(n), arrivals).written == SemiJoin(AhcalStream(arrivals), HodoStreams(n, arrivals))
  {
    ExtFromNothing(HodoStreams(n, arrivals));
    assert [] + AhcalStream(arrivals) == AhcalStream(arrivals);
    RunKeeps(Start(n), arrivals);
  }
}
