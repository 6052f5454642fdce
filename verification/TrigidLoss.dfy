/**
 When the trigger number merge loses events: over any run with producers that connect and disconnect, and
 with resets.
 */
module TrigidLoss {
  import opened TrigidSync

  // ---------- One action ----------

  /** Whether an action throws away what waits from a producer: a reset, its own connecting again, or a
      disconnection that leaves as many closed connections as there are queues. */
  predicate Loses(c: Coll, a: Action, i: int) {
    match a
    case Opens(j) => i == j
    case Closes(j) => |c.inactive + {j}| == |c.queues.Keys|
    case Resets => true
    case Arrives(_, _) => false
  }

  /** What an action accepts from a producer. */
  function Brings(a: Action, i: int): seq<Ev> {
    if a.Arrives? && a.i == i && a.e.hasTrigger then [a.e] else []
  }

  /** What a producer's events written and waiting become with an action. */
  lemma ActKnown(c: Coll, a: Action, i: int)
    ensures Known(Act(c, a), i) == (if Loses(c, a, i) then Sent(c.written, i) else Known(c, i)) + Brings(a, i)
    ensures !a.Arrives? ==> Act(c, a).written == c.written
  {
    assert Sent(c.written, i) + [] == Sent(c.written, i) && Known(c, i) + [] == Known(c, i);
    if a.Arrives? {
      ReceiveKeeps(c, a.i, a.e, i);
    }
  }

  /** Over any run, with every action: nothing is lost but what waits at an action that loses it. */
  lemma RunLoses(actions: seq<Action>, i: int, k: nat)
    requires k < |actions|
    ensures var c, d := ActAll(EMPTY, actions[..k]), ActAll(EMPTY, actions[..k + 1]);
      Known(d, i) == (if Loses(c, actions[k], i) then Sent(c.written, i) else Known(c, i)) + Brings(actions[k], i)
  {
    var longer := actions[..k + 1];
    assert longer[..|longer| - 1] == actions[..k] && longer[|longer| - 1] == actions[k];
    ActKnown(ActAll(EMPTY, actions[..k]), actions[k], i);
  }

  /** No action of a run finds anything waiting that it loses. */
  ghost predicate LosesNothing(actions: seq<Action>, i: int) {
    forall k :: 0 <= k < |actions| && Loses(ActAll(EMPTY, actions[..k]), actions[k], i)
      ==> QueueOf(ActAll(EMPTY, actions[..k]), i) == []
  }

  lemma LosesNothingAdd(actions: seq<Action>, i: int)
    requires actions != []
    ensures var front, a := actions[..|actions| - 1], actions[|actions| - 1]; var c := ActAll(EMPTY, front);
      LosesNothing(actions, i) <==> LosesNothing(front, i) && (Loses(c, a, i) ==> QueueOf(c, i) == [])
  {
    var front := actions[..|actions| - 1];
    forall k | 0 <= k < |front| ensures actions[..k] == front[..k] && actions[k] == front[k] {
    }
    if LosesNothing(front, i) && (Loses(ActAll(EMPTY, front), actions[|actions| - 1], i) ==> QueueOf(ActAll(EMPTY, front), i) == []) {
      forall k | 0 <= k < |actions| && Loses(ActAll(EMPTY, actions[..k]), actions[k], i)
        ensures QueueOf(ActAll(EMPTY, actions[..k]), i) == []
      {
        assert k < |front| ==> actions[..k] == front[..k] && actions[k] == front[k];
      }
    }
    if LosesNothing(actions, i) {
      forall k | 0 <= k < |front| && Loses(ActAll(EMPTY, front[..k]), front[k], i)
        ensures QueueOf(ActAll(EMPTY, front[..k]), i) == []
      {
        assert actions[..k] == front[..k] && actions[k] == front[k];
      }
    }
  }

  /** Everything accepted from a producer is written or waits, in order, if and only if no action of the
      run loses anything of it. */
  lemma {:induction false} LossExactly(actions: seq<Action>, i: int)
    ensures |Known(ActAll(EMPTY, actions), i)| <= |Received(actions, i)|
    ensures Known(ActAll(EMPTY, actions), i) == Received(actions, i) <==> LosesNothing(actions, i)
    ensures !LosesNothing(actions, i) ==> |Known(ActAll(EMPTY, actions), i)| < |Received(actions, i)|
  {
    if actions != [] {
      var front, a := actions[..|actions| - 1], actions[|actions| - 1];
      var c := ActAll(EMPTY, front);
      LossExactly(front, i);
      LosesNothingAdd(actions, i);
      ActKnown(c, a, i);
      if Loses(c, a, i) && QueueOf(c, i) == [] {
        assert Sent(c.written, i) + [] == Sent(c.written, i);
      }
    } else {
      assert LosesNothing(actions, i);
    }
  }

  // ---------- Queues and closed connections ----------

  /** Whether every queue has an event once one has arrived. */
  predicate AllWaiting(c: Coll, j: int) {
    forall k :: k in c.queues && k != j ==> c.queues[k] != []
  }

  /** Which queues there are, and which connections are closed, after an action: a queue is forgotten when
      its connection is closed and the event written was its last one. */
  lemma ActQueues(c: Coll, a: Action, k: int)
    ensures var d := Act(c, a);
      match a
      case Opens(j) => (k in d.queues <==> k in c.queues || k == j) && (k in d.inactive <==> k in c.inactive && k != j)
      case Closes(j) =>
        if |c.inactive + {j}| == |c.queues.Keys| then k !in d.queues && k !in d.inactive
        else (k in d.queues <==> k in c.queues) && (k in d.inactive <==> k in c.inactive || k == j)
      case Resets => k !in d.queues && k !in d.inactive
      case Arrives(j, e) =>
        if !e.hasTrigger then (k in d.queues <==> k in c.queues) && (k in d.inactive <==> k in c.inactive)
        else if !AllWaiting(c, j) then
          (k in d.queues <==> k in c.queues || k == j) && (k in d.inactive <==> k in c.inactive)
        else
          var forgotten := k in c.inactive && (k in c.queues || k == j) && QueueOf(d, k) == [];
          && (k in d.queues <==> (k in c.queues || k == j) && !forgotten)
          && (k in d.inactive <==> k in c.inactive && !forgotten)
  {
    if a.Arrives? && a.e.hasTrigger {
      var q := Enqueue(c, a.i, a.e);
      if AllWaiting(c, a.i) {
        forall i | i in q.queues ensures q.queues[i] != [] {
          assert i != a.i ==> i in c.queues && q.queues[i] == c.queues[i];
        }
        assert Full(q.queues);
      }
      if Full(q.queues) {
        forall i | i in c.queues && i != a.i ensures c.queues[i] != [] {
          assert i in q.queues && q.queues[i] == c.queues[i];
        }
      }
    }
  }
}
