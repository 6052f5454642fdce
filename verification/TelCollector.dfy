/**
 The telescope collector as an object: three queues popped in place, proved to do what `TelMerging`
 says.
 */
module TelCollectorObject {
  import opened TsMerging
  import opened TelMerging

  /** How a receive ends. */
  datatype Outcome = Done | FirstIsNotBore | LoopsForever

  class TelescopeCollector {
    const cfg: TelConfig

    var queCal: seq<TsEvent>
    var queBif: seq<TsEvent>
    var queTel: seq<TsEvent>
    var lastCal: seq<TsEvent>
    var lastBif: seq<TsEvent>
    var lastTel: seq<TsEvent>
    var endLastCal: Time
    var endLastBif: Time
    var offsetDone: bool
    var offset: int
    var evN: int
    var written: seq<Out>

    /** All steps of the merge of BIF and AHCAL, also those whose event was dropped. */
    ghost var steps: seq<Group>

    ghost function BifSide(): Side
      reads this`queBif, this`lastBif, this`endLastBif
    {
      Side(Plain, queBif, lastBif, endLastBif)
    }

    ghost function CalSide(): Side
      reads this`queCal, this`lastCal, this`endLastCal, this`offsetDone, this`offset
    {
      Side(if offsetDone then Shifted(offset) else Plain, queCal, lastCal, endLastCal)
    }

    ghost function State(): Tel
      reads this
    {
      Tel(Merge(BifSide(), CalSide(), steps), queTel, lastTel, evN, written)
    }

    constructor (cfg: TelConfig)
      ensures this.cfg == cfg && TelCollector(State(), offsetDone) == TEL_START
    {
      this.cfg := cfg;
      queCal, queBif, queTel, lastCal, lastBif, lastTel := [], [], [], [], [], [];
      endLastCal, endLastBif, offsetDone, offset, evN := 0, 0, false, 0, 0;
      written, steps := [], [];
    }

    /** The BIF event of a window: the front one, or the last one again. */
    method TakeBif(beg: Time, end: Time) returns (part: seq<TsEvent>, isNew: bool)
      requires queBif != []
      modifies this`queBif, this`lastBif, this`endLastBif
      ensures isNew == Takes(old(BifSide()), end) && part == Attached(old(BifSide()), beg, end)
      ensures BifSide() == Advance(old(BifSide()), end)
    {
      var front := queBif[0];
      part, isNew := [], front.beg < end;
      if isNew {
        part := [front];
        lastBif, endLastBif := [front], front.end;
        queBif := queBif[1..];
      } else if endLastBif > beg {
        part := lastBif;
      }
    }

    /** The AHCAL event of a window. */
    method TakeCal(beg: Time, end: Time) returns (part: seq<TsEvent>, isNew: bool)
      requires offsetDone && queCal != []
      modifies this`queCal, this`lastCal, this`endLastCal
      ensures isNew == Takes(old(CalSide()), end) && part == Attached(old(CalSide()), beg, end)
      ensures CalSide() == Advance(old(CalSide()), end)
    {
      var front := queCal[0];
      part, isNew := [], Shifted(offset).Read(front.beg) < end;
      if isNew {
        part := [front];
        lastCal, endLastCal := [front], Shifted(offset).Read(front.end);
        queCal := queCal[1..];
      } else if endLastCal > beg {
        part := lastCal;
      }
    }

    /** The merge of the front events; the trigger number, if it has one. */
    method MergeFronts() returns (g: Joint, hasTrigger: bool, trigger: Number)
      requires offsetDone && Ready(State().merge)
      modifies this`queCal, this`queBif, this`lastCal, this`lastBif, this`endLastCal, this`endLastBif, this`steps
      ensures var was := old(State());
              g == NewJoint(was.merge) && State() == was.(merge := Step(was.merge))
      ensures hasTrigger == HasTrigger(g) && (hasTrigger ==> trigger == TriggerOf(g))
    {
      ghost var bif, cal := BifSide(), CalSide();
      var beg, end := Window();
      hasTrigger, trigger := false, 0;
      var bifs, newBif := TakeBif(beg, end);
      if !newBif && bifs != [] {
        hasTrigger, trigger := true, bifs[0].trigger;
      }
      var cals, newCal := TakeCal(beg, end);
      if cals != [] {
        hasTrigger, trigger := true, cals[0].trigger;
      }
      g := Joint(bifs, cals, newBif, newCal, beg, end);
      assert g == NewJoint(Merge(bif, cal, steps));
      steps := steps + [NewGroup(Merge(bif, cal, steps))];
    }

    /** The common window of the front events. */
    method Window() returns (beg: Time, end: Time)
      requires offsetDone && Ready(State().merge)
      ensures beg == WindowBeg(State().merge) && end == WindowEnd(State().merge)
    {
      var begBif, endBif := queBif[0].beg, queBif[0].end;
      var begCal, endCal := Shifted(offset).Read(queCal[0].beg), Shifted(offset).Read(queCal[0].end);
      beg := if begBif < begCal then begBif else begCal;
      end := if endBif < endCal then endBif else endCal;
    }

    /** Telescope events below a trigger number leave alone. */
    method SendBelow(trigger: Number)
      modifies this`queTel, this`lastTel, this`evN, this`written
      ensures State() == Skip(old(State()), trigger)
    {
      while queTel != [] && queTel[0].number < trigger
        invariant Skip(State(), trigger) == Skip(old(State()), trigger)
        decreases |queTel|
      {
        written := written + [TelOnly(evN, queTel[0])];
        lastTel := [queTel[0]];
        queTel := queTel[1..];
        evN := (evN + 1) % TWO_32;
      }
    }

    /** Writes a merged event with the telescope event of its number. */
    method SendSynced(g: Joint, trigger: Number)
      modifies this`queTel, this`lastTel, this`evN, this`written
      ensures State() == TelMerging.Finish(old(State()), g, trigger)
    {
      var tel, newTel := [], false;
      if queTel != [] && queTel[0].number == trigger {
        tel, newTel := [queTel[0]], true;
        lastTel := [queTel[0]];
        queTel := queTel[1..];
      } else if lastTel != [] && lastTel[0].number == trigger {
        tel := lastTel;
      }
      written := written + [Synced(evN, trigger, g, tel, newTel)];
      evN := (evN + 1) % TWO_32;
    }

    /** One pass of the loop. */
    method SyncOne()
      requires offsetDone && Ready(State().merge)
      modifies this`queCal, this`queBif, this`lastCal, this`lastBif, this`endLastCal, this`endLastBif, this`steps,
               this`queTel, this`lastTel, this`evN, this`written
      ensures State() == TelStep(old(State()))
    {
      var g, hasTrigger, trigger := MergeFronts();
      if !hasTrigger {
        return;
      }
      SendBelow(trigger);
      SendSynced(g, trigger);
    }

    /** Whether the next pass takes no event from any queue. */
    method TakesNothing() returns (stuck: bool)
      requires offsetDone && Goes(State())
      ensures stuck == !Progresses(State())
    {
      var beg, end := Window();
      if queBif[0].beg < end || Shifted(offset).Read(queCal[0].beg) < end {
        return false;
      }
      if endLastCal > beg && lastCal != [] {
        return queTel[0].number > lastCal[0].trigger;
      }
      if endLastBif > beg && lastBif != [] {
        return queTel[0].number > lastBif[0].trigger;
      }
      return true;
    }

    /** The loop; when a pass takes no event, all further passes are the same. */
    method SyncAll() returns (outcome: Outcome)
      requires offsetDone
      modifies this`queCal, this`queBif, this`lastCal, this`lastBif, this`endLastCal, this`endLastBif, this`steps,
               this`queTel, this`lastTel, this`evN, this`written
      ensures State() == TelMerged(old(State()))
      ensures outcome == if Goes(State()) then LoopsForever else Done
    {
      ghost var t := State();
      while queCal != [] && queBif != [] && queTel != [] && queTel[|queTel| - 1].number >= queCal[0].trigger
        invariant TelMerged(State()) == TelMerged(t)
        decreases Left(State())
      {
        var stuck := TakesNothing();
        if stuck {
          return LoopsForever;
        }
        Progress(State());
        SyncOne();
      }
      return Done;
    }

    /** Queues an event, shifted; a queue that is too long is emptied instead. */
    method Queue(a: TelArrival) returns (queued: bool)
      requires Accepted(cfg, a)
      modifies this`queCal, this`queBif, this`queTel
      ensures queued == !Overflows(old(State()), a.producer)
      ensures var t := old(State());
              State() == WithQueue(t, a.producer, if queued then QueueOf(t, a.producer) + [Shift(cfg, a)] else [])
    {
      queued := true;
      var ev := a.event;
      if a.producer.FromCal? {
        if |queCal| >= 100000 {
          queCal := [];
          return false;
        }
        if cfg.shift > 0 {
          ev := ev.(trigger := (ev.trigger + cfg.shift) % TWO_32);
        }
        queCal := queCal + [ev];
      } else if a.producer.FromBif? {
        if |queBif| >= 10000 {
          queBif := [];
          return false;
        }
        queBif := queBif + [ev];
      } else {
        if |queTel| >= 10000 {
          queTel := [];
          return false;
        }
        if cfg.shift < 0 {
          ev := ev.(number := (ev.number - cfg.shift) % TWO_32);
        }
        queTel := queTel + [ev];
      }
    }

    /** What follows the queueing of an event. */
    method Go() returns (outcome: Outcome)
      modifies this
      ensures TelCollector(State(), offsetDone) == Proceed(TelCollector(old(State()), old(offsetDone)))
      ensures outcome == LoopsForever <==> AllQueued(old(State())) && offsetDone && Goes(State())
      ensures outcome == FirstIsNotBore <==> AllQueued(old(State())) && !offsetDone
    {
      if queCal == [] || queBif == [] || queTel == [] {
        return Done;
      }
      if !offsetDone {
        if !queCal[0].bore || !queBif[0].bore || !queTel[0].bore {
          return FirstIsNotBore;
        }
        ghost var t := State();
        offset := ((32 * queCal[0].firstStart) % TWO_64 - queBif[0].firstStart - 120) % TWO_64;
        offsetDone := true;
        assert State() == SetClock(t);
      }
      outcome := SyncAll();
    }

    /** `DoReceive`. */
    method DoReceive(a: TelArrival) returns (outcome: Outcome)
      modifies this
      ensures TelCollector(State(), offsetDone) == TelReceive(cfg, TelCollector(old(State()), old(offsetDone)), a)
      ensures outcome == LoopsForever <==> Accepted(cfg, a) && offsetDone && Goes(State())
      ensures outcome == FirstIsNotBore <==> Accepted(cfg, a) && !offsetDone && AllQueued(State())
    {
      outcome := Done;
      if a.event.fake {
        return;
      }
      if a.event.run != cfg.run {
        return;
      }
      if a.producer.FromOther? {
        return;
      }
      var queued := Queue(a);
      if queued {
        outcome := Go();
      }
    }
  }
}
