/**
 The BXID collector as an object: five queues popped in place, proved to do what `BxidMerging` says.
 */
module BxidCollectorObject {
  import opened BxidMerging

  class BxidCollector {
    var queAhcal: seq<Ev>
    var queBif: seq<Ev>
    var queHodoscope1: seq<Ev>
    var queHodoscope2: seq<Ev>
    var queDesytable: seq<Ev>
    var activeAhcal: bool
    var activeBif: bool
    var activeHodoscope1: bool
    var activeHodoscope2: bool
    var mandatoryAhcal: bool
    var mandatoryBif: bool
    var mandatoryHodoscope1: bool
    var mandatoryHodoscope2: bool
    var thrownIncomplete: int
    var evN: int
    var written: seq<Sync>

    /** What was thrown away or discarded is not kept, only counted. */
    ghost var dropped: seq<Sync>
    ghost var discarded: seq<Ev>

    ghost function Queued(): Queues
      reads this`queAhcal, this`queBif, this`queHodoscope1, this`queHodoscope2
    {
      Each(queAhcal, queBif, queHodoscope1, queHodoscope2)
    }

    ghost function State(): Coll
      reads this
    {
      Coll(Queued(), queDesytable, written, dropped, discarded)
    }

    ghost function SetupNow(): Setup
      reads this`activeAhcal, this`activeBif, this`activeHodoscope1, this`activeHodoscope2
      reads this`mandatoryAhcal, this`mandatoryBif, this`mandatoryHodoscope1, this`mandatoryHodoscope2
    {
      Setup(FlagsOf(activeAhcal, activeBif, activeHodoscope1, activeHodoscope2),
            FlagsOf(mandatoryAhcal, mandatoryBif, mandatoryHodoscope1, mandatoryHodoscope2))
    }

    /** The counters count. */
    ghost predicate Valid()
      reads this
    {
      thrownIncomplete == |dropped| && evN == |written| % TWO_32
    }

    constructor (bifIsMandatory: bool)
      ensures Valid() && State() == EMPTY
      ensures SetupNow() == Setup(FlagsOf(false, false, false, false), FlagsOf(true, bifIsMandatory, true, true))
    {
      queAhcal, queBif, queHodoscope1, queHodoscope2, queDesytable := [], [], [], [], [];
      activeAhcal, activeBif, activeHodoscope1, activeHodoscope2 := false, false, false, false;
      mandatoryAhcal, mandatoryBif, mandatoryHodoscope1, mandatoryHodoscope2 := true, bifIsMandatory, true, true;
      thrownIncomplete, evN := 0, 0;
      written, dropped, discarded := [], [], [];
    }

    /** `DoConnect` and `DoDisconnect`. */
    method SetActive(source: nat, connected: bool)
      requires Valid()
      modifies this`activeAhcal, this`activeBif, this`activeHodoscope1, this`activeHodoscope2
      ensures Valid() && State() == old(State())
      ensures SetupNow().mandatory == old(SetupNow()).mandatory
      ensures var active := old(SetupNow()).active;
              SetupNow().active == if source < 4 then active[source := connected] else active
    {
      if source < 4 {
        ReplaceFlag(activeAhcal, activeBif, activeHodoscope1, activeHodoscope2, source, connected);
      }
      if source == AHCAL {
        activeAhcal := connected;
      }
      if source == BIF {
        activeBif := connected;
      }
      if source == HODOSCOPE1 {
        activeHodoscope1 := connected;
      }
      if source == HODOSCOPE2 {
        activeHodoscope2 := connected;
      }
    }

    /** The first part of a pass: may end the loop or discard an event, and else finds the tags. */
    method Inspect() returns (decision: Decision)
      requires Valid()
      ensures decision == Decide(SetupNow().active, Queued(), 0)
    {
      DecideIs(SetupNow().active, Queued());
      if queAhcal == [] {
        if activeAhcal {
          return Halt;
        }
      } else if queAhcal[0].roc == INVALID || queAhcal[0].bxid == INVALID {
        return Discard(AHCAL);
      }
      if queBif == [] {
        if activeBif {
          return Halt;
        }
      } else if queBif[0].roc == INVALID || queBif[0].bxid == INVALID || queBif[0].bxid < -100 {
        return Discard(BIF);
      }
      if queHodoscope1 == [] {
        if activeHodoscope1 {
          return Halt;
        }
      } else if queHodoscope1[0].roc == INVALID || queHodoscope1[0].bxid == INVALID {
        return Discard(HODOSCOPE1);
      }
      if queHodoscope2 == [] {
        if activeHodoscope2 {
          return Halt;
        }
      } else if queHodoscope2[0].roc == INVALID || queHodoscope2[0].bxid == INVALID {
        return Discard(HODOSCOPE2);
      }
      return Join;
    }

    method DiscardOne(d: nat)
      requires Valid() && d < 4 && Queued()[d] != []
      modifies this`queAhcal, this`queBif, this`queHodoscope1, this`queHodoscope2, this`discarded
      ensures Valid() && State() == DiscardFront(old(State()), d)
    {
      discarded := discarded + [Queued()[d][0]];
      ReplaceQueue(queAhcal, queBif, queHodoscope1, queHodoscope2, d, Queued()[d][1..]);
      if d == AHCAL {
        queAhcal := queAhcal[1..];
      } else if d == BIF {
        queBif := queBif[1..];
      } else if d == HODOSCOPE1 {
        queHodoscope1 := queHodoscope1[1..];
      } else {
        queHodoscope2 := queHodoscope2[1..];
      }
    }

    /** The lowest readout cycle among the front events, and its lowest crossing. */
    method LeastKey() returns (roc: Tag, bxid: Tag)
      ensures Key(roc, bxid) == MinKey(Queued())
    {
      var rocAhcal, bxidAhcal := RocOf(queAhcal), BxidOf(queAhcal);
      var rocBif, bxidBif := RocOf(queBif), BxidOf(queBif);
      var rocHodoscope1, bxidHodoscope1 := RocOf(queHodoscope1), BxidOf(queHodoscope1);
      var rocHodoscope2, bxidHodoscope2 := RocOf(queHodoscope2), BxidOf(queHodoscope2);
      roc := INVALID;
      if rocAhcal < roc {
        roc := rocAhcal;
      }
      if rocBif < roc {
        roc := rocBif;
      }
      if rocHodoscope1 < roc {
        roc := rocHodoscope1;
      }
      if rocHodoscope2 < roc {
        roc := rocHodoscope2;
      }
      bxid := INVALID;
      if rocAhcal == roc && bxidAhcal < bxid {
        bxid := bxidAhcal;
      }
      if rocBif == roc && bxidBif < bxid {
        bxid := bxidBif;
      }
      if rocHodoscope1 == roc && bxidHodoscope1 < bxid {
        bxid := bxidHodoscope1;
      }
      if rocHodoscope2 == roc && bxidHodoscope2 < bxid {
        bxid := bxidHodoscope2;
      }
    }

    /** Takes the front event of a queue if it has a key. */
    static method TakeFront(que: seq<Ev>, roc: Tag, bxid: Tag) returns (part: seq<Ev>, rest: seq<Ev>)
      ensures part == Part(que, Key(roc, bxid)) && rest == Rest(que, Key(roc, bxid))
    {
      part, rest := [], que;
      if RocOf(que) == roc && BxidOf(que) == bxid {
        if que != [] {
          part := [que[0]];
          rest := que[1..];
        }
      }
    }

    /** Takes the front events with a key, and a table event if there is one. */
    method TakeFronts(roc: Tag, bxid: Tag) returns (sync: Sync)
      modifies this`queAhcal, this`queBif, this`queHodoscope1, this`queHodoscope2, this`queDesytable
      ensures var k := Key(roc, bxid);
              && sync == Sync(evN, Part(old(queBif), k), Part(old(queHodoscope1), k), Part(old(queHodoscope2), k),
                              Front(old(queDesytable)), Part(old(queAhcal), k))
              && queAhcal == Rest(old(queAhcal), k) && queBif == Rest(old(queBif), k)
              && queHodoscope1 == Rest(old(queHodoscope1), k) && queHodoscope2 == Rest(old(queHodoscope2), k)
              && queDesytable == BxidMerging.Behind(old(queDesytable))
    {
      var bif, hodoscope1, hodoscope2, table, ahcal := [], [], [], [], [];
      bif, queBif := TakeFront(queBif, roc, bxid);
      hodoscope1, queHodoscope1 := TakeFront(queHodoscope1, roc, bxid);
      hodoscope2, queHodoscope2 := TakeFront(queHodoscope2, roc, bxid);
      if queDesytable != [] {
        table := [queDesytable[0]];
        queDesytable := queDesytable[1..];
      }
      ahcal, queAhcal := TakeFront(queAhcal, roc, bxid);
      sync := Sync(evN, bif, hodoscope1, hodoscope2, table, ahcal);
    }

    /** Whether no active, mandatory part is missing. */
    method HasAll(sync: Sync, ghost setup: Setup, ghost q: Queues, ghost k: Key) returns (complete: bool)
      requires setup == SetupNow() && HoldsFronts(sync, q, k)
      ensures complete == Complete(setup, q, k)
    {
      CompleteIs(setup, q, k, sync);
      if mandatoryAhcal && sync.ahcal == [] && activeAhcal {
        return false;
      }
      if mandatoryBif && sync.bif == [] && activeBif {
        return false;
      }
      if mandatoryHodoscope1 && sync.hodoscope1 == [] && activeHodoscope1 {
        return false;
      }
      if mandatoryHodoscope2 && sync.hodoscope2 == [] && activeHodoscope2 {
        return false;
      }
      return true;
    }

    /** Writes a merged event, or throws it away if it is incomplete. */
    method Finish(sync: Sync, complete: bool)
      requires Valid() && sync.number == evN
      modifies this`thrownIncomplete, this`evN, this`written, this`dropped
      ensures Valid() && State() == Keep(old(State()), sync, complete)
    {
      thrownIncomplete := thrownIncomplete + 1;
      if !complete {
        dropped := dropped + [sync];
        return;
      }
      thrownIncomplete := thrownIncomplete - 1;
      evN := (evN + 1) % TWO_32;
      written := written + [sync];
    }

    method TakeLeast() returns (sync: Sync, ghost k: Key)
      modifies this`queAhcal, this`queBif, this`queHodoscope1, this`queHodoscope2, this`queDesytable
      ensures k == MinKey(old(Queued()))
      ensures && Queued() == PopKey(old(Queued()), k) && queDesytable == BxidMerging.Behind(old(queDesytable))
              && sync == Sync(evN, Part(old(queBif), k), Part(old(queHodoscope1), k), Part(old(queHodoscope2), k),
                              Front(old(queDesytable)), Part(old(queAhcal), k))
    {
      var roc, bxid := LeastKey();
      sync := TakeFronts(roc, bxid);
      k := Key(roc, bxid);
    }

    method JoinOne(ghost setup: Setup, ghost q: Queues) returns (ghost k: Key, complete: bool)
      requires Valid() && setup == SetupNow() && q == Queued()
      modifies this`queAhcal, this`queBif, this`queHodoscope1, this`queHodoscope2, this`queDesytable,
               this`thrownIncomplete, this`evN, this`written, this`dropped
      ensures Valid() && k == MinKey(old(Queued())) && complete == Complete(setup, q, k)
      ensures var c := old(State());
              State() == Keep(c.(queues := PopKey(c.queues, k), table := BxidMerging.Behind(c.table)), Merged(c, k), complete)
    {
      ghost var c := State();
      var sync;
      sync, k := TakeLeast();
      assert sync == Merged(c, k);
      complete := HasAll(sync, setup, q, k);
      Finish(sync, complete);
    }

    /** One pass that does not end the loop. */
    method PassOnce(decision: Decision, ghost setup: Setup)
      requires Valid() && setup == SetupNow() && decision == Decide(setup.active, Queued(), 0) && !decision.Halt?
      modifies this`queAhcal, this`queBif, this`queHodoscope1, this`queHodoscope2, this`queDesytable,
               this`thrownIncomplete, this`evN, this`written, this`dropped, this`discarded
      ensures Valid() && State() == Pass(setup, old(State()))
    {
      ghost var c := State();
      if decision.Discard? {
        DiscardOne(decision.d);
      } else {
        ghost var k;
        var complete;
        k, complete := JoinOne(setup, Queued());
        JoinPass(setup, c, k, complete);
      }
    }

    /** `BuildEvent_bxid`. */
    method BuildEvents()
      requires Valid() && SomeActive(SetupNow().active)
      modifies this`queAhcal, this`queBif, this`queHodoscope1, this`queHodoscope2, this`queDesytable,
               this`thrownIncomplete, this`evN, this`written, this`dropped, this`discarded
      ensures Valid() && State() == Build(SetupNow(), old(State()))
    {
      ghost var setup, c := SetupNow(), State();
      while true
        invariant Valid() && setup == SetupNow()
        invariant Build(setup, State()) == Build(setup, c)
        decreases Total(Queued())
      {
        var decision := Inspect();
        if decision.Halt? {
          return;
        }
        PassTakes(setup, State());
        PassOnce(decision, setup);
      }
    }

    /** `DoReceive`. It does not return if no detector is active. */
    method DoReceive(source: nat, e: Ev) returns (returned: bool)
      requires Valid()
      modifies this`queAhcal, this`queBif, this`queHodoscope1, this`queHodoscope2, this`queDesytable,
               this`thrownIncomplete, this`evN, this`written, this`dropped, this`discarded
      ensures Valid()
      ensures var r := Receive(SetupNow(), old(State()), source, e);
              returned == r.Returns? && (returned ==> State() == r.c)
    {
      if e.fake {
        return true;
      }
      var known := Store(source, e);
      if !known {
        return true;
      }
      WaitsIs(SetupNow().active, Queued());
      if (queAhcal == [] && activeAhcal) || (queBif == [] && activeBif)
        || (queHodoscope1 == [] && activeHodoscope1) || (queHodoscope2 == [] && activeHodoscope2) {
        return true;
      }
      if !activeAhcal && !activeBif && !activeHodoscope1 && !activeHodoscope2 {
        return false;
      }
      BuildEvents();
      return true;
    }

    /** Queues an event of a known producer. */
    method Store(source: nat, e: Ev) returns (known: bool)
      modifies this`queAhcal, this`queBif, this`queHodoscope1, this`queHodoscope2, this`queDesytable
      ensures known == (source <= TABLE)
      ensures State() == if known then Enqueue(old(State()), source, e) else old(State())
    {
      known := true;
      if source < 4 {
        ReplaceQueue(queAhcal, queBif, queHodoscope1, queHodoscope2, source, Queued()[source] + [e]);
      }
      if source == AHCAL {
        queAhcal := queAhcal + [e];
      } else if source == BIF {
        queBif := queBif + [e];
      } else if source == HODOSCOPE1 {
        queHodoscope1 := queHodoscope1 + [e];
      } else if source == HODOSCOPE2 {
        queHodoscope2 := queHodoscope2 + [e];
      } else if source == TABLE {
        queDesytable := queDesytable + [e];
      } else {
        known := false;
      }
    }
  }

  /** One queue's part of the decision; no value means that the next queue decides. */
  function DecideOne(active: bool, d: nat, s: seq<Ev>): Decision {
    if s == [] then (if active then Halt else Join) else if Bad(d, s[0]) then Discard(d) else Join
  }

  lemma DecideStep(active: Flags, q: Queues, d: nat)
    requires d < 4
    ensures Decide(active, q, d) == var one := DecideOne(active[d], d, q[d]); if one.Join? then Decide(active, q, d + 1) else one
  {
  }

  lemma DecideIs(active: Flags, q: Queues)
    ensures Decide(active, q, 0) ==
            var a, b := DecideOne(active[0], 0, q[0]), DecideOne(active[1], 1, q[1]);
            var c, d := DecideOne(active[2], 2, q[2]), DecideOne(active[3], 3, q[3]);
            if !a.Join? then a else if !b.Join? then b else if !c.Join? then c else d
  {
    DecideStep(active, q, 0);
    DecideStep(active, q, 1);
    DecideStep(active, q, 2);
    DecideStep(active, q, 3);
  }

  lemma ReplaceFlag(a: bool, b: bool, c: bool, d: bool, i: nat, v: bool)
    requires i < 4
    ensures FlagsOf(a, b, c, d)[i := v]
         == FlagsOf(if i == 0 then v else a, if i == 1 then v else b, if i == 2 then v else c, if i == 3 then v else d)
  {
  }

  lemma ReplaceQueue(a: seq<Ev>, b: seq<Ev>, c: seq<Ev>, d: seq<Ev>, i: nat, s: seq<Ev>)
    requires i < 4
    ensures Each(a, b, c, d)[i := s]
         == Each(if i == 0 then s else a, if i == 1 then s else b, if i == 2 then s else c, if i == 3 then s else d)
  {
  }

  lemma JoinPass(s: Setup, c: Coll, k: Key, complete: bool)
    requires Decide(s.active, c.queues, 0).Join? && k == MinKey(c.queues) && complete == Complete(s, c.queues, k)
    ensures Pass(s, c) == Keep(c.(queues := PopKey(c.queues, k), table := BxidMerging.Behind(c.table)), Merged(c, k), complete)
  {
  }

  predicate HoldsFronts(m: Sync, q: Queues, k: Key) {
    m.ahcal == Part(q[AHCAL], k) && m.bif == Part(q[BIF], k)
    && m.hodoscope1 == Part(q[HODOSCOPE1], k) && m.hodoscope2 == Part(q[HODOSCOPE2], k)
  }

  lemma CompleteIs(s: Setup, q: Queues, k: Key, m: Sync)
    requires HoldsFronts(m, q, k)
    ensures Complete(s, q, k) == !(
        || (s.mandatory[AHCAL] && m.ahcal == [] && s.active[AHCAL])
        || (s.mandatory[BIF] && m.bif == [] && s.active[BIF])
        || (s.mandatory[HODOSCOPE1] && m.hodoscope1 == [] && s.active[HODOSCOPE1])
        || (s.mandatory[HODOSCOPE2] && m.hodoscope2 == [] && s.active[HODOSCOPE2])
      )
  {
  }

  lemma WaitsIs(active: Flags, q: Queues)
    ensures Waits(active, q)
        <==> (q[0] == [] && active[0]) || (q[1] == [] && active[1]) || (q[2] == [] && active[2]) || (q[3] == [] && active[3])
  {
  }
}
