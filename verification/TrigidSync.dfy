/**
 The merge of `TrigidSyncDataCollector.cc`: an outer join by trigger number over producers that
 come and go, with at most one event written per event received.
 */
module TrigidSync {

  const MAX_TRIGGER: int := 0xFFFF_FFFF

  type Trigger = t: int | 0 <= t <= 0xFFFF_FFFF

  datatype Ev = Ev(id: int, hasTrigger: bool, trigger: Trigger)

  /** A merged event: its trigger number, and the event of each producer in it. */
  datatype Sync = Sync(trigger: Trigger, subs: map<int, Ev>)

  /** Queues by connection, and the connections that were closed. */
  datatype Coll = Coll(queues: map<int, seq<Ev>>, inactive: set<int>, written: seq<Sync>)

  const EMPTY := Coll(map[], {}, [])

  // ---------- Writing one event ----------

  predicate Full(q: map<int, seq<Ev>>) {
    forall i :: i in q ==> q[i] != []
  }

  /** The lowest trigger number among the fronts of some queues, as a search finds it that begins
      with the highest one. */
  predicate IsLeast(q: map<int, seq<Ev>>, keys: set<int>, t: Trigger)
    requires keys <= q.Keys && forall i :: i in keys ==> q[i] != []
  {
    && (forall i :: i in keys ==> t <= q[i][0].trigger)
    && (if keys == {} then t == MAX_TRIGGER else exists i :: i in keys && q[i][0].trigger == t)
  }

  lemma EmptyIfNone(keys: set<int>)
    requires forall i :: i !in keys
    ensures keys == {}
  {
    assert forall i :: i in keys <==> i in {};
  }

  lemma HasOne(keys: set<int>)
    requires keys != {}
    ensures exists i :: i in keys
  {
    if forall i :: i !in keys {
      EmptyIfNone(keys);
    }
  }

  lemma {:induction false} LeastExists(q: map<int, seq<Ev>>, keys: set<int>)
    requires keys <= q.Keys && forall i :: i in keys ==> q[i] != []
    ensures exists t :: IsLeast(q, keys, t)
    decreases keys
  {
    if i :| i in keys {
      LeastExists(q, keys - {i});
      var t :| IsLeast(q, keys - {i}, t);
      var u := if q[i][0].trigger < t || keys == {i} then q[i][0].trigger else t;
      if keys != {i} {
        assert keys == (keys - {i}) + {i};
        var j :| j in keys - {i} && q[j][0].trigger == t;
        assert j in keys;
      }
      assert IsLeast(q, keys, u);
    } else {
      EmptyIfNone(keys);
      assert IsLeast(q, keys, MAX_TRIGGER);
    }
  }

  ghost function Least(q: map<int, seq<Ev>>, keys: set<int>): (t: Trigger)
    requires keys <= q.Keys && forall i :: i in keys ==> q[i] != []
    ensures IsLeast(q, keys, t)
  {
    LeastExists(q, keys);
    var t :| IsLeast(q, keys, t);
    t
  }

  lemma LeastUnique(q: map<int, seq<Ev>>, keys: set<int>, t: Trigger)
    requires keys <= q.Keys && (forall i :: i in keys ==> q[i] != []) && IsLeast(q, keys, t)
    ensures t == Least(q, keys)
  {
  }

  predicate At(s: seq<Ev>, t: Trigger) {
    s != [] && s[0].trigger == t
  }

  function Rest(s: seq<Ev>, t: Trigger): seq<Ev> {
    if At(s, t) then s[1..] else s
  }

  function Fronts(q: map<int, seq<Ev>>, t: Trigger): map<int, Ev> {
    map i | i in q && At(q[i], t) :: q[i][0]
  }

  function PopFronts(q: map<int, seq<Ev>>, t: Trigger): map<int, seq<Ev>> {
    map i | i in q :: Rest(q[i], t)
  }

  /** All fronts with the lowest trigger number leave in one event. */
  ghost function WriteOne(c: Coll): Coll
    requires Full(c.queues)
  {
    var t := Least(c.queues, c.queues.Keys);
    c.(queues := PopFronts(c.queues, t), written := c.written + [Sync(t, Fronts(c.queues, t))])
  }

  /** Closed connections whose queue is empty. */
  function Dead(c: Coll): set<int> {
    set i | i in c.inactive && i in c.queues && c.queues[i] == []
  }

  function Forget(c: Coll): Coll {
    c.(queues := c.queues - Dead(c), inactive := c.inactive - Dead(c))
  }

  // ---------- What can happen ----------

  function QueueOf(c: Coll, i: int): seq<Ev> {
    if i in c.queues then c.queues[i] else []
  }

  function Enqueue(c: Coll, i: int, e: Ev): Coll {
    c.(queues := c.queues[i := QueueOf(c, i) + [e]])
  }

  /** `DoReceive`; an event without trigger number is an exception. */
  ghost function Receive(c: Coll, i: int, e: Ev): Coll {
    var c' := Enqueue(c, i, e);
    if !e.hasTrigger then c
    else if !Full(c'.queues) then c'
    else Forget(WriteOne(c'))
  }

  function Connect(c: Coll, i: int): Coll {
    c.(queues := c.queues[i := []], inactive := c.inactive - {i})
  }

  function Disconnect(c: Coll, i: int): Coll {
    var c' := c.(inactive := c.inactive + {i});
    if |c'.inactive| == |c'.queues.Keys| then c'.(queues := map[], inactive := {}) else c'
  }

  function Reset(c: Coll): Coll {
    c.(queues := map[], inactive := {})
  }

  datatype Action = Opens(i: int) | Closes(i: int) | Resets | Arrives(i: int, e: Ev)

  ghost function Act(c: Coll, a: Action): Coll {
    match a
    case Opens(i) => Connect(c, i)
    case Closes(i) => Disconnect(c, i)
    case Resets => Reset(c)
    case Arrives(i, e) => Receive(c, i, e)
  }

  ghost function ActAll(c: Coll, actions: seq<Action>): Coll {
    if actions == [] then c else Act(ActAll(c, actions[..|actions| - 1]), actions[|actions| - 1])
  }

  /** Accepted events of a connection, in order. */
  function Received(actions: seq<Action>, i: int): seq<Ev> {
    if actions == [] then []
    else
      var a := actions[|actions| - 1];
      Received(actions[..|actions| - 1], i) + (if a.Arrives? && a.i == i && a.e.hasTrigger then [a.e] else [])
  }

  /** Events of a connection that were written, in order. */
  function Sent(written: seq<Sync>, i: int): seq<Ev> {
    if written == [] then []
    else
      var s := written[|written| - 1];
      Sent(written[..|written| - 1], i) + (if i in s.subs then [s.subs[i]] else [])
  }

  // ---------- Safety of any run ----------

  /** The first sequence is the second one with some elements left out. */
  predicate Subsequence(a: seq<Ev>, b: seq<Ev>) {
    a == []
    || (b != [] && (Subsequence(a, b[..|b| - 1])
                    || (a[|a| - 1] == b[|b| - 1] && Subsequence(a[..|a| - 1], b[..|b| - 1]))))
  }

  lemma SubsequenceBoth(a: seq<Ev>, b: seq<Ev>, e: Ev)
    requires Subsequence(a, b)
    ensures Subsequence(a + [e], b + [e])
  {
    assert (a + [e])[..|a|] == a && (b + [e])[..|b|] == b;
  }

  lemma {:induction false} SubsequenceLess(a: seq<Ev>, q: seq<Ev>, b: seq<Ev>)
    requires Subsequence(a + q, b)
    ensures Subsequence(a, b)
    decreases |b|
  {
    if a != [] {
      var b' := b[..|b| - 1];
      if q == [] {
        assert a + q == a;
      } else if Subsequence(a + q, b') {
        SubsequenceLess(a, q, b');
      } else {
        assert (a + q)[..|a + q| - 1] == a + q[..|q| - 1];
        SubsequenceLess(a, q[..|q| - 1], b');
      }
    }
  }

  lemma SentAdd(written: seq<Sync>, s: Sync, i: int)
    ensures Sent(written + [s], i) == Sent(written, i) + (if i in s.subs then [s.subs[i]] else [])
  {
    assert (written + [s])[..|written|] == written;
  }

  /** What a producer has sent and still waits, in order. */
  function Known(c: Coll, i: int): seq<Ev> {
    Sent(c.written, i) + QueueOf(c, i)
  }

  lemma WriteKeeps(c: Coll, i: int)
    requires Full(c.queues)
    ensures Known(WriteOne(c), i) == Known(c, i)
  {
    var t := Least(c.queues, c.queues.Keys);
    SentAdd(c.written, Sync(t, Fronts(c.queues, t)), i);
    if i in c.queues {
      FrontThenRest(Sent(c.written, i), c.queues[i], t);
    } else {
      assert Sent(c.written, i) + [] == Sent(c.written, i);
    }
  }

  lemma FrontThenRest(sent: seq<Ev>, s: seq<Ev>, t: Trigger)
    ensures sent + (if At(s, t) then [s[0]] else []) + Rest(s, t) == sent + s
  {
  }

  lemma ForgetKeeps(c: Coll, i: int)
    ensures Known(Forget(c), i) == Known(c, i)
  {
  }

  lemma EnqueueKeeps(c: Coll, j: int, e: Ev, i: int)
    ensures Known(Enqueue(c, j, e), i) == Known(c, i) + (if i == j then [e] else [])
  {
  }

  lemma ReceiveKeeps(c: Coll, j: int, e: Ev, i: int)
    ensures Known(Receive(c, j, e), i) == Known(c, i) + (if i == j && e.hasTrigger then [e] else [])
  {
    EnqueueKeeps(c, j, e, i);
    var c' := Enqueue(c, j, e);
    if e.hasTrigger && Full(c'.queues) {
      WriteKeeps(c', i);
      ForgetKeeps(WriteOne(c'), i);
    }
  }

  /** In any run, with producers that come and go and resets: what was written from a producer, and
      then what it has waiting, are received events of it, each at most once and in order. */
  lemma {:induction false} RunSubsequence(actions: seq<Action>, i: int)
    ensures Subsequence(Known(ActAll(EMPTY, actions), i), Received(actions, i))
  {
    if actions != [] {
      var before, a := actions[..|actions| - 1], actions[|actions| - 1];
      var c := ActAll(EMPTY, before);
      RunSubsequence(before, i);
      if a.Arrives? && a.e.hasTrigger {
        ReceiveKeeps(c, a.i, a.e, i);
        if a.i == i {
          SubsequenceBoth(Known(c, i), Received(before, i), a.e);
        } else {
          assert Known(c, i) + [] == Known(c, i) && Received(before, i) + [] == Received(before, i);
        }
      } else {
        SubsequenceLess(Sent(c.written, i), QueueOf(c, i), Received(before, i));
        assert Sent(c.written, i) + [] == Sent(c.written, i);
        assert Received(before, i) + [] == Received(before, i);
      }
    }
  }

  /** A written event is not empty, and all its events have its trigger number. */
  predicate Agrees(s: Sync) {
    s.subs != map[] && forall i :: i in s.subs ==> s.subs[i].trigger == s.trigger
  }

  predicate AllAgree(written: seq<Sync>) {
    forall k :: 0 <= k < |written| ==> Agrees(written[k])
  }

  /** So in any run. */
  lemma {:induction false} RunAgrees(c0: Coll, actions: seq<Action>)
    requires AllAgree(c0.written)
    ensures AllAgree(ActAll(c0, actions).written)
  {
    if actions != [] {
      RunAgrees(c0, actions[..|actions| - 1]);
      var c, a := ActAll(c0, actions[..|actions| - 1]), actions[|actions| - 1];
      if a.Arrives? && Full(Enqueue(c, a.i, a.e).queues) {
        assert a.i in Enqueue(c, a.i, a.e).queues.Keys;
        WriteAgrees(Enqueue(c, a.i, a.e));
      }
    }
  }

  lemma WriteAgrees(c: Coll)
    requires Full(c.queues) && c.queues.Keys != {}
    ensures Agrees(WriteOne(c).written[|c.written|])
  {
    var q := c.queues;
    var t := Least(q, q.Keys);
    var i :| i in q.Keys && q[i][0].trigger == t;
    assert i in Fronts(q, t);
  }

  /** An empty queue stops everything: whatever the other producers send, nothing is written. So does
      the one of a producer that closed its connection. */
  lemma {:induction false} EmptyQueueStalls(c: Coll, i: int, actions: seq<Action>)
    requires i in c.queues && c.queues[i] == []
    requires forall k :: 0 <= k < |actions| ==> actions[k].Arrives? && actions[k].i != i
    ensures var r := ActAll(c, actions); r.written == c.written && i in r.queues && r.queues[i] == []
  {
    if actions != [] {
      var before, a := actions[..|actions| - 1], actions[|actions| - 1];
      EmptyQueueStalls(c, i, before);
      assert Enqueue(ActAll(c, before), a.i, a.e).queues[i] == [];
    }
  }

  /** Whether a queue has an event at the start, or gets one. */
  ghost predicate Fed(c: Coll, i: int, actions: seq<Action>) {
    QueueOf(c, i) != [] || exists k :: 0 <= k < |actions| && actions[k].Arrives? && actions[k].i == i
  }

  predicate OnlyEvents(actions: seq<Action>) {
    forall k :: 0 <= k < |actions| ==> actions[k].Arrives? && actions[k].e.hasTrigger
  }

  lemma FedLater(c: Coll, i: int, before: seq<Action>, a: Action)
    requires a.Arrives?
    ensures Fed(c, i, before + [a]) <==> Fed(c, i, before) || a.i == i
  {
    var all := before + [a];
    assert all[|before|] == a;
    if Fed(c, i, before) && QueueOf(c, i) == [] {
      var k :| 0 <= k < |before| && before[k].Arrives? && before[k].i == i;
      assert all[k] == before[k];
    }
  }

  /** As long as nothing is written, the queues that have an event are those that were fed, and some
      queue has none. */
  lemma {:induction false} UnwrittenMeans(c: Coll, actions: seq<Action>)
    requires OnlyEvents(actions)
    ensures var r := ActAll(c, actions);
      && c.written <= r.written
      && (r.written == c.written ==>
            && (forall i :: QueueOf(r, i) != [] <==> Fed(c, i, actions))
            && (forall i :: i in r.queues && i !in c.queues ==> QueueOf(r, i) != [])
            && (actions != [] ==> !Full(r.queues)))
  {
    if actions != [] {
      var before, a := actions[..|actions| - 1], actions[|actions| - 1];
      assert actions == before + [a];
      UnwrittenMeans(c, before);
      var r := ActAll(c, actions);
      if r.written == c.written {
        forall i ensures QueueOf(r, i) != [] <==> Fed(c, i, actions) {
          FedLater(c, i, before, a);
        }
      }
    }
  }

  /** Events alone write nothing if and only if some queue is never fed: without an event at the start
      and without an arrival. */
  lemma StallsExactly(c: Coll, actions: seq<Action>)
    requires actions != [] && OnlyEvents(actions)
    ensures ActAll(c, actions).written == c.written <==> exists i :: i in c.queues && !Fed(c, i, actions)
  {
    UnwrittenMeans(c, actions);
    var r := ActAll(c, actions);
    if r.written == c.written {
      var i :| i in r.queues && r.queues[i] == [];
      assert QueueOf(r, i) == [];
      assert i in c.queues && !Fed(c, i, actions);
    }
    if i :| i in c.queues && !Fed(c, i, actions) {
      EmptyQueueStalls(c, i, actions);
    }
  }

  // ---------- A fixed set of producers ----------

  /** All actions are events of the given producers. */
  predicate OnlyArrivals(actions: seq<Action>, producers: set<int>) {
    forall k :: 0 <= k < |actions| ==> actions[k].Arrives? && actions[k].i in producers && actions[k].e.hasTrigger
  }

  function Opened(producers: set<int>): Coll {
    Coll(map i | i in producers :: [], {}, [])
  }

  /** The whole streams, queued. */
  function Streams(actions: seq<Action>, producers: set<int>): Coll {
    Coll(map i | i in producers :: Received(actions, i), {}, [])
  }

  /** Some steps of the outer join, while every queue has an event. */
  ghost function Steps(c: Coll, n: nat): Coll
    decreases n
  {
    if n == 0 then c
    else
      var d := Steps(c, n - 1);
      if Full(d.queues) then WriteOne(d) else d
  }

  /** All steps wrote an event. */
  predicate AllWrote(c: Coll, d: Coll, n: nat) {
    |d.written| == |c.written| + n
  }

  lemma LeastSame(q: map<int, seq<Ev>>, q': map<int, seq<Ev>>, keys: set<int>)
    requires keys <= q.Keys && keys <= q'.Keys && (forall i :: i in keys ==> q[i] != [] && q'[i] != [])
    requires forall i :: i in keys ==> q'[i][0] == q[i][0]
    ensures Least(q, keys) == Least(q', keys)
  {
  }

  lemma WriteEnqueue(c: Coll, i: int, e: Ev)
    requires Full(c.queues) && i in c.queues
    ensures Full(Enqueue(c, i, e).queues) && WriteOne(Enqueue(c, i, e)) == Enqueue(WriteOne(c), i, e)
  {
    var q, q' := c.queues, Enqueue(c, i, e).queues;
    assert q'.Keys == q.Keys;
    LeastSame(q, q', q.Keys);
    var t := Least(q, q.Keys);
    assert (q[i] + [e])[1..] == q[i][1..] + [e];
    assert Fronts(q', t) == Fronts(q, t);
    assert PopFronts(q', t) == PopFronts(q, t)[i := PopFronts(q, t)[i] + [e]];
  }

  lemma {:induction false} StepsKeep(c: Coll, n: nat)
    ensures Steps(c, n).queues.Keys == c.queues.Keys && Steps(c, n).inactive == c.inactive
    ensures |c.written| <= |Steps(c, n).written| <= |c.written| + n
  {
    if n > 0 {
      StepsKeep(c, n - 1);
    }
  }

  /** Steps that could be done before an event arrived are the same after it. */
  lemma {:induction false} StepsEnqueue(c: Coll, i: int, e: Ev, n: nat)
    requires i in c.queues && AllWrote(c, Steps(c, n), n)
    ensures Steps(Enqueue(c, i, e), n) == Enqueue(Steps(c, n), i, e)
    ensures AllWrote(c, Steps(Enqueue(c, i, e), n), n)
  {
    if n > 0 {
      StepsKeep(c, n - 1);
      StepsEnqueue(c, i, e, n - 1);
      WriteEnqueue(Steps(c, n - 1), i, e);
    }
  }

  lemma StreamsAdd(actions: seq<Action>, producers: set<int>)
    requires actions != [] && OnlyArrivals(actions, producers)
    ensures var a := actions[|actions| - 1];
      Streams(actions, producers) == Enqueue(Streams(actions[..|actions| - 1], producers), a.i, a.e)
  {
    var before, a := actions[..|actions| - 1], actions[|actions| - 1];
    forall i | i in producers && i != a.i ensures Received(actions, i) == Received(before, i) {
      assert Received(before, i) + [] == Received(before, i);
    }
  }

  /** Whatever the order of arrival: the state is that of the outer join of the whole streams, after
      as many steps as events were written. */
  lemma {:induction false} RunIsSteps(actions: seq<Action>, producers: set<int>)
    requires OnlyArrivals(actions, producers)
    ensures var c := ActAll(Opened(producers), actions);
      c == Steps(Streams(actions, producers), |c.written|)
  {
    if actions == [] {
      assert Streams(actions, producers) == Opened(producers);
    } else {
      var before, a := actions[..|actions| - 1], actions[|actions| - 1];
      var c, s := ActAll(Opened(producers), before), Streams(before, producers);
      var n := |c.written|;
      RunIsSteps(before, producers);
      StreamsAdd(actions, producers);
      StepsKeep(s, n);
      StepsEnqueue(s, a.i, a.e, n);
      NothingForgotten(c, a.i, a.e);
    }
  }

  lemma NothingForgotten(c: Coll, i: int, e: Ev)
    requires c.inactive == {} && e.hasTrigger
    ensures Receive(c, i, e) == var d := Enqueue(c, i, e); if Full(d.queues) then WriteOne(d) else d
  {
    var d := Enqueue(c, i, e);
    if Full(d.queues) {
      var w := WriteOne(d);
      assert Dead(w) == {};
      assert w.queues - {} == w.queues && w.inactive - {} == w.inactive;
    }
  }

  lemma {:induction false} StepsPrefix(c: Coll, m: nat, n: nat)
    requires m <= n
    ensures Steps(c, m).written <= Steps(c, n).written
    decreases n
  {
    if m < n {
      StepsPrefix(c, m, n - 1);
    }
  }

  /** Two runs over the same streams write the same events; one may only be behind the other. */
  lemma OrderOnlyDelays(a: seq<Action>, b: seq<Action>, producers: set<int>)
    requires OnlyArrivals(a, producers) && OnlyArrivals(b, producers)
    requires Streams(a, producers) == Streams(b, producers)
    ensures var x, y := ActAll(Opened(producers), a).written, ActAll(Opened(producers), b).written; x <= y || y <= x
  {
    RunIsSteps(a, producers);
    RunIsSteps(b, producers);
    var m, n := |ActAll(Opened(producers), a).written|, |ActAll(Opened(producers), b).written|;
    if m <= n {
      StepsPrefix(Streams(a, producers), m, n);
    } else {
      StepsPrefix(Streams(a, producers), n, m);
    }
  }

  /** Trigger numbers of a stream strictly increase. */
  predicate Rises(s: seq<Ev>) {
    forall i, j :: 0 <= i < j < |s| ==> s[i].trigger < s[j].trigger
  }

  predicate AllRise(q: map<int, seq<Ev>>) {
    forall i :: i in q ==> Rises(q[i])
  }

  predicate WrittenRises(written: seq<Sync>) {
    forall k, l :: 0 <= k < l < |written| ==> written[k].trigger < written[l].trigger
  }

  /** All waiting events come after what was written. */
  predicate Ahead(c: Coll) {
    forall i, k :: i in c.queues && 0 <= k < |c.queues[i]| && c.written != [] ==>
      c.written[|c.written| - 1].trigger < c.queues[i][k].trigger
  }

  lemma RestRises(s: seq<Ev>, t: Trigger)
    requires Rises(s) && s != [] && t <= s[0].trigger
    ensures Rises(Rest(s, t)) && forall k :: 0 <= k < |Rest(s, t)| ==> t < Rest(s, t)[k].trigger
  {
  }

  lemma WriteRises(c: Coll)
    requires Full(c.queues) && c.queues != map[] && AllRise(c.queues) && Ahead(c) && WrittenRises(c.written)
    ensures var d := WriteOne(c); AllRise(d.queues) && Ahead(d) && WrittenRises(d.written)
  {
    var q := c.queues;
    var t := Least(q, q.Keys);
    forall i | i in q ensures Rises(Rest(q[i], t)) && forall k :: 0 <= k < |Rest(q[i], t)| ==> t < Rest(q[i], t)[k].trigger {
      RestRises(q[i], t);
    }
    assert q.Keys != {};
    var i :| i in q.Keys && q[i][0].trigger == t;
    assert c.written != [] ==> c.written[|c.written| - 1].trigger < q[i][0].trigger;
  }

  lemma {:induction false} StepsRise(c: Coll, n: nat)
    requires c.queues != map[] && AllRise(c.queues) && c.written == []
    ensures var d := Steps(c, n); AllRise(d.queues) && Ahead(d) && WrittenRises(d.written)
    decreases n
  {
    if n > 0 {
      StepsRise(c, n - 1);
      StepsKeep(c, n - 1);
      var d := Steps(c, n - 1);
      if Full(d.queues) {
        assert d.queues.Keys != {};
        WriteRises(d);
      }
    }
  }

  lemma {:induction false} StepsConserve(c: Coll, n: nat, i: int)
    ensures Known(Steps(c, n), i) == Known(c, i)
    decreases n
  {
    if n > 0 {
      StepsConserve(c, n - 1, i);
      if Full(Steps(c, n - 1).queues) {
        WriteKeeps(Steps(c, n - 1), i);
      }
    }
  }

  /** A fixed, non-empty set of producers with strictly increasing trigger numbers: written numbers
      strictly increase, so events with equal numbers are never in different written events; and
      what was written from a producer, then what it has waiting, is exactly what it sent. */
  lemma OuterJoinSafe(actions: seq<Action>, producers: set<int>)
    requires OnlyArrivals(actions, producers) && producers != {}
    requires forall i :: i in producers ==> Rises(Received(actions, i))
    ensures var c := ActAll(Opened(producers), actions);
      && WrittenRises(c.written) && AllAgree(c.written)
      && forall i :: i in producers ==> Sent(c.written, i) + QueueOf(c, i) == Received(actions, i)
  {
    var c, s := ActAll(Opened(producers), actions), Streams(actions, producers);
    RunIsSteps(actions, producers);
    RunAgrees(Opened(producers), actions);
    assert s.queues.Keys == producers;
    StepsRise(s, |c.written|);
    forall i | i in producers ensures Sent(c.written, i) + QueueOf(c, i) == Received(actions, i) {
      StepsConserve(s, |c.written|, i);
      assert Sent([], i) + Received(actions, i) == Received(actions, i);
    }
  }

  /** Equal trigger numbers meet: two producers' written events with one number are in one event. */
  lemma SameTriggerSameEvent(written: seq<Sync>, k: nat, l: nat, i: int, j: int)
    requires WrittenRises(written) && AllAgree(written) && k < |written| && l < |written|
    requires i in written[k].subs && j in written[l].subs && written[k].subs[i].trigger == written[l].subs[j].trigger
    ensures k == l
  {
    assert Agrees(written[k]) && Agrees(written[l]);
  }
}
