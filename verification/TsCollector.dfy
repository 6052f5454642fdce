/**
 The timestamp collector as an object: queues popped in place, proved to do what `TsMerging` says.
 */
module TsCollectorObject {
  import opened TsMerging

  /** How a receive ends. The loop of the source never ends once a step takes nothing. */
  datatype Outcome = Done | FirstIsNotBore | LoopsForever

  class TsCollector {
    var queCal: seq<TsEvent>
    var queBif: seq<TsEvent>
    var lastCal: seq<TsEvent>
    var lastBif: seq<TsEvent>
    var endLastCal: Time
    var endLastBif: Time
    var offsetDone: bool
    var offset: int
    var written: seq<Group>

    function State(): Collector
      reads this
    {
      Collector(Merge(Side(Plain, queBif, lastBif, endLastBif),
                      Side(if offsetDone then Shifted(offset) else Plain, queCal, lastCal, endLastCal),
                      written), offsetDone)
    }

    constructor ()
      ensures State() == START
    {
      queCal, queBif, lastCal, lastBif := [], [], [], [];
      endLastCal, endLastBif := 0, 0;
      offsetDone, offset := false, 0;
      written := [];
    }

    /** One pass of the loop. */
    method SyncOne()
      requires offsetDone && Ready(State().merge)
      modifies this`queCal, this`queBif, this`lastCal, this`lastBif, this`endLastCal, this`endLastBif, this`written
      ensures State() == Collector(Step(old(State()).merge), true)
    {
      ghost var m := State().merge;
      var bif, cal := queBif[0], queCal[0];
      var begBif, endBif := bif.beg, bif.end;
      var begCal, endCal := Shifted(offset).Read(cal.beg), Shifted(offset).Read(cal.end);
      var beg := if begBif < begCal then begBif else begCal;
      var end := if endBif < endCal then endBif else endCal;
      var bifs, cals := [], [];
      if begBif < end {
        bifs := [bif];
        lastBif, endLastBif := [bif], endBif;
        queBif := queBif[1..];
      } else if endLastBif > beg {
        bifs := lastBif;
      }
      if begCal < end {
        cals := [cal];
        lastCal, endLastCal := [cal], endCal;
        queCal := queCal[1..];
      } else if endLastCal > beg {
        cals := lastCal;
      }
      var g := Group(|written| % TWO_32, bifs, cals, begBif < end, begCal < end, beg, end);
      assert g == NewGroup(m);
      written := written + [g];
    }

    method SyncAll() returns (outcome: Outcome)
      requires offsetDone
      modifies this`queCal, this`queBif, this`lastCal, this`lastBif, this`endLastCal, this`endLastBif, this`written
      ensures State() == Collector(Merged(old(State()).merge), true)
      ensures outcome == if Ready(State().merge) then LoopsForever else Done
    {
      while queCal != [] && queBif != []
        invariant Merged(State().merge) == Merged(old(State()).merge)
        decreases |queCal| + |queBif|
      {
        if !Consumes(State().merge) {
          return LoopsForever;
        }
        SyncOne();
      }
      return Done;
    }

    /** `DoReceive`. */
    method DoReceive(source: Source, event: TsEvent) returns (outcome: Outcome)
      modifies this
      ensures State() == Receive(old(State()), Arrival(source, event))
      ensures outcome == LoopsForever <==> (Accepted(event) && State().started && Ready(State().merge))
      ensures outcome == FirstIsNotBore <==> (Accepted(event) && !State().started && Ready(State().merge))
    {
      if event.fake {
        outcome := Done;
      } else if !event.hasTime {
        outcome := Done;
      } else {
        outcome := Queue(source, event);
      }
    }

    method Queue(source: Source, event: TsEvent) returns (outcome: Outcome)
      requires Accepted(event)
      modifies this
      ensures State() == Receive(old(State()), Arrival(source, event))
      ensures outcome == LoopsForever <==> (State().started && Ready(State().merge))
      ensures outcome == FirstIsNotBore <==> (!State().started && Ready(State().merge))
    {
      ghost var c := State();
      assert queBif + [] == queBif && queCal + [] == queCal;
      match source {
        case Cal => queCal := queCal + [event];
        case Bif => queBif := queBif + [event];
      }
      assert State() == c.(merge := Put(c.merge, Arrival(source, event)));
      if queCal == [] || queBif == [] {
        return Done;
      }
      if !offsetDone {
        if !queCal[0].bore {
          return FirstIsNotBore;
        }
        offset := ((32 * queCal[0].firstStart) % TWO_64 - queBif[0].firstStart - 120) % TWO_64;
        offsetDone := true;
      }
      outcome := SyncAll();
    }
  }

  predicate Accepted(event: TsEvent) {
    !event.fake && event.hasTime
  }
}
