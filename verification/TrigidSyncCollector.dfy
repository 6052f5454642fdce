/**
 The trigger number collector as an object: a map of queues and a set of closed connections, proved
 to do what `TrigidSync` says.
 */
module TrigidSyncCollectorObject {
  import opened TrigidSync

  class TrigidSyncCollector {
    var connEvque: map<int, seq<Ev>>
    var connInactive: set<int>
    var written: seq<Sync>

    ghost function State(): Coll
      reads this
    {
      Coll(connEvque, connInactive, written)
    }

    constructor ()
      ensures State() == EMPTY
    {
      connEvque, connInactive, written := map[], {}, [];
    }

    method DoConnect(idx: int)
      modifies this
      ensures State() == Connect(old(State()), idx)
    {
      connEvque := connEvque[idx := []];
      connInactive := connInactive - {idx};
    }

    method DoDisconnect(idx: int)
      modifies this
      ensures State() == Disconnect(old(State()), idx)
    {
      connInactive := connInactive + {idx};
      if |connInactive| == |connEvque.Keys| {
        connInactive := {};
        connEvque := map[];
      }
    }

    method DoReset()
      modifies this
      ensures State() == Reset(old(State()))
    {
      connEvque := map[];
      connInactive := {};
    }

    /** The lowest trigger number among the front events, unless a queue is empty. */
    method LowestTrigger() returns (full: bool, trigger: Trigger)
      ensures full == Full(connEvque)
      ensures full ==> trigger == Least(connEvque, connEvque.Keys)
    {
      trigger := MAX_TRIGGER;
      var left := connEvque.Keys;
      ghost var seen: set<int> := {};
      while left != {}
        invariant left + seen == connEvque.Keys && left !! seen
        invariant forall i :: i in seen ==> connEvque[i] != []
        invariant IsLeast(connEvque, seen, trigger)
        decreases |left|
      {
        HasOne(left);
        var i :| i in left;
        if connEvque[i] == [] {
          return false, trigger;
        }
        LeastStep(connEvque, seen, i, trigger);
        if connEvque[i][0].trigger < trigger {
          trigger := connEvque[i][0].trigger;
        }
        left, seen := left - {i}, seen + {i};
      }
      full := true;
      LeastUnique(connEvque, connEvque.Keys, trigger);
    }

    /** Pops the front events with a trigger number. */
    method PopTrigger(trigger: Trigger) returns (subs: map<int, Ev>)
      modifies this`connEvque
      ensures subs == Fronts(old(connEvque), trigger)
      ensures connEvque == PopFronts(old(connEvque), trigger)
    {
      ghost var q := connEvque;
      subs := map[];
      var left := connEvque.Keys;
      while left != {}
        invariant left <= q.Keys
        invariant forall i :: i in connEvque <==> i in q
        invariant forall i :: i in q ==> connEvque[i] == if i in left then q[i] else Rest(q[i], trigger)
        invariant forall i :: i in subs <==> i in q && i !in left && At(q[i], trigger)
        invariant forall i :: i in subs ==> subs[i] == q[i][0]
        decreases |left|
      {
        HasOne(left);
        var i :| i in left;
        var que := connEvque[i];
        if que != [] && que[0].trigger == trigger {
          subs := subs[i := que[0]];
          connEvque := connEvque[i := que[1..]];
        }
        left := left - {i};
      }
      AllTaken(q, trigger, connEvque, subs);
    }

    /** Forgets closed connections with nothing left. */
    method ForgetClosed()
      modifies this`connEvque, this`connInactive
      ensures State() == Forget(old(State()))
    {
      if connInactive != {} {
        var closedEmpty := set i | i in connInactive && i in connEvque && connEvque[i] == [];
        connEvque := connEvque - closedEmpty;
        connInactive := connInactive - closedEmpty;
      } else {
        assert Dead(State()) == {};
        assert connEvque - {} == connEvque && connInactive - {} == connInactive;
      }
    }

    /** `DoReceive`; false for an event without trigger number, an exception in the source. */
    method DoReceive(idx: int, ev: Ev) returns (ok: bool)
      modifies this
      ensures ok == ev.hasTrigger
      ensures State() == Receive(old(State()), idx, ev)
    {
      if !ev.hasTrigger {
        return false;
      }
      var que := if idx in connEvque then connEvque[idx] else [];
      connEvque := connEvque[idx := que + [ev]];
      var full, trigger := LowestTrigger();
      if !full {
        return true;
      }
      var subs := PopTrigger(trigger);
      ForgetClosed();
      written := written + [Sync(trigger, subs)];
      return true;
    }
  }

  lemma SameMap<T>(a: map<int, T>, b: map<int, T>)
    requires forall i :: i in a <==> i in b
    requires forall i :: i in a ==> a[i] == b[i]
    ensures a == b
  {
    assert forall i :: i in a.Keys <==> i in b.Keys;
    forall i | i in a ensures a[i] == b[i] {
    }
  }

  lemma AllTaken(q: map<int, seq<Ev>>, t: Trigger, rest: map<int, seq<Ev>>, subs: map<int, Ev>)
    requires forall i :: i in rest <==> i in q
    requires forall i :: i in q ==> rest[i] == Rest(q[i], t)
    requires forall i :: i in subs <==> i in q && At(q[i], t)
    requires forall i :: i in subs ==> i in q && q[i] != [] && subs[i] == q[i][0]
    ensures rest == PopFronts(q, t) && subs == Fronts(q, t)
  {
    SameMap(rest, PopFronts(q, t));
    SameMap(subs, Fronts(q, t));
  }

  lemma LeastStep(q: map<int, seq<Ev>>, seen: set<int>, i: int, t: Trigger)
    requires seen <= q.Keys && i in q && q[i] != [] && i !in seen && (forall j :: j in seen ==> q[j] != [])
    requires IsLeast(q, seen, t)
    ensures IsLeast(q, seen + {i}, if q[i][0].trigger < t then q[i][0].trigger else t)
  {
    var u := if q[i][0].trigger < t then q[i][0].trigger else t;
    if seen == {} || q[i][0].trigger < t {
      assert i in seen + {i} && q[i][0].trigger == u;
    } else {
      var j :| j in seen && q[j][0].trigger == t;
      assert j in seen + {i};
    }
  }
}
