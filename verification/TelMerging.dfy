/**
 The merge of `CaliceTelDataCollector.cc`: the timestamp merge of BIF and AHCAL events, joined with
 telescope events by trigger number.
 */
module TelMerging {
  import opened TsMerging

  /** The BIF and AHCAL events of a step, whether they are new, and their window. */
  datatype Joint = Joint(bif: seq<TsEvent>, cal: seq<TsEvent>, newBif: bool, newCal: bool, beg: Time, end: Time)

  function JointOf(g: Group): Joint {
    Joint(g.bif, g.cal, g.newBif, g.newCal, g.beg, g.end)
  }

  /** The events of the next step. */
  function NewJoint(m: Merge): Joint
    requires Ready(m)
  {
    JointOf(NewGroup(m))
  }

  /** A written event: a merged BIF and AHCAL event with its telescope event, if any, or a telescope
      event alone, whose number goes into its trigger number. */
  datatype Out =
    | Synced(number: int, trigger: Number, joint: Joint, tel: seq<TsEvent>, newTel: bool)
    | TelOnly(counter: int, event: TsEvent)

  /** The merge of BIF and AHCAL with all its steps, written or not, and the telescope's side. */
  datatype Tel = Tel(merge: Merge, queue: seq<TsEvent>, last: seq<TsEvent>, n: int, out: seq<Out>)

  // ---------- One step ----------

  /** Only an AHCAL event or a BIF event attached again give a trigger number. */
  predicate HasTrigger(g: Joint) {
    g.cal != [] || (g.bif != [] && !g.newBif)
  }

  function TriggerOf(g: Joint): Number {
    if g.cal != [] then g.cal[0].trigger else if g.bif != [] then g.bif[0].trigger else 0
  }

  /** Telescope events below a trigger number leave alone. */
  function Skip(t: Tel, trigger: Number): Tel
    decreases |t.queue|
  {
    if t.queue == [] || t.queue[0].number >= trigger then t else Skip(SkipOne(t), trigger)
  }

  /** A telescope event leaves alone. */
  function SkipOne(t: Tel): Tel
    requires t.queue != []
  {
    Tel(t.merge, t.queue[1..], [t.queue[0]], (t.n + 1) % TWO_32, t.out + [TelOnly(t.n, t.queue[0])])
  }

  predicate IsNext(t: Tel, trigger: Number) {
    t.queue != [] && t.queue[0].number == trigger
  }

  /** A merged event with the telescope event of its trigger number: the next or the last one. */
  function Finish(t: Tel, g: Joint, trigger: Number): Tel {
    var n := (t.n + 1) % TWO_32;
    if IsNext(t, trigger) then
      Tel(t.merge, t.queue[1..], [t.queue[0]], n, t.out + [Synced(t.n, trigger, g, [t.queue[0]], true)])
    else Tel(t.merge, t.queue, t.last, n, t.out + [Synced(t.n, trigger, g, Again(t.last, trigger), false)])
  }

  function Again(last: seq<TsEvent>, trigger: Number): seq<TsEvent> {
    if last != [] && last[0].number == trigger then last else []
  }

  /** A step; without a trigger number its event is dropped. */
  function TelStep(t: Tel): Tel
    requires Ready(t.merge)
  {
    var g := NewJoint(t.merge);
    var t' := t.(merge := Step(t.merge));
    if HasTrigger(g) then Finish(Skip(t', TriggerOf(g)), g, TriggerOf(g)) else t'
  }

  /** The telescope has got as far as the next AHCAL event. */
  predicate Goes(t: Tel) {
    Ready(t.merge) && t.queue != [] && t.queue[|t.queue| - 1].number >= t.merge.cal.queue[0].trigger
  }

  function Size(t: Tel): nat {
    |t.merge.bif.queue| + |t.merge.cal.queue|
  }

  lemma {:induction false} SkipMerge(t: Tel, trigger: Number)
    ensures Skip(t, trigger).merge == t.merge
    decreases |t.queue|
  {
    if t.queue != [] && t.queue[0].number < trigger {
      SkipMerge(SkipOne(t), trigger);
    }
  }

  /** BIF and AHCAL are merged as without a telescope. */
  lemma TelStepMerge(t: Tel)
    requires Ready(t.merge)
    ensures TelStep(t).merge == Step(t.merge)
  {
    SkipMerge(t.(merge := Step(t.merge)), TriggerOf(NewJoint(t.merge)));
  }

  lemma {:induction false} SkipShrinks(t: Tel, trigger: Number)
    ensures |Skip(t, trigger).queue| <= |t.queue|
    ensures t.queue != [] && t.queue[0].number < trigger ==> |Skip(t, trigger).queue| < |t.queue|
    decreases |t.queue|
  {
    if t.queue != [] && t.queue[0].number < trigger {
      SkipShrinks(SkipOne(t), trigger);
    }
  }

  /** Whether a step takes an event from any of the three queues: without a new BIF or AHCAL event it
      still sends telescope events up to its trigger number. */
  predicate Progresses(t: Tel)
    requires Ready(t.merge)
  {
    var g := NewJoint(t.merge);
    Consumes(t.merge) || (HasTrigger(g) && t.queue != [] && t.queue[0].number <= TriggerOf(g))
  }

  function Left(t: Tel): nat {
    Size(t) + |t.queue|
  }

  lemma Progress(t: Tel)
    requires Ready(t.merge) && Progresses(t)
    ensures Left(TelStep(t)) < Left(t)
  {
    TelStepMerge(t);
    SkipShrinks(t.(merge := Step(t.merge)), TriggerOf(NewJoint(t.merge)));
  }

  /** A step that takes no event at all is repeated forever: nothing it looks at has changed. */
  lemma RepeatsForever(t: Tel)
    requires Goes(t) && !Progresses(t)
    ensures var r := TelStep(t);
      && r.merge.bif == t.merge.bif && r.merge.cal == t.merge.cal && r.queue == t.queue && r.last == t.last
      && Goes(r) && !Progresses(r)
  {
  }

  /** The loop, up to a step that takes no event at all. */
  function TelMerged(t: Tel): Tel
    decreases Left(t)
  {
    if !Goes(t) || !Progresses(t) then t
    else
      Progress(t);
      TelMerged(TelStep(t))
  }

  // ---------- When the loop ends ----------

  predicate SomeAbove(queue: seq<TsEvent>, trigger: Number) {
    exists i :: 0 <= i < |queue| && queue[i].number > trigger
  }

  lemma AboveTail(queue: seq<TsEvent>, trigger: Number)
    requires queue != [] && queue[0].number <= trigger
    ensures SomeAbove(queue[1..], trigger) <==> SomeAbove(queue, trigger)
  {
    if SomeAbove(queue, trigger) {
      var i :| 0 <= i < |queue| && queue[i].number > trigger;
      assert queue[1..][i - 1] == queue[i];
    }
    if SomeAbove(queue[1..], trigger) {
      var i :| 0 <= i < |queue[1..]| && queue[1..][i].number > trigger;
      assert queue[i + 1] == queue[1..][i];
    }
  }

  /** What is left of the telescope's queue has the same last event, and the same events above. */
  predicate LeftOf(rest: seq<TsEvent>, queue: seq<TsEvent>, trigger: Number) {
    && (SomeAbove(rest, trigger) <==> SomeAbove(queue, trigger))
    && (rest != [] ==> queue != [] && rest[|rest| - 1] == queue[|queue| - 1])
  }

  lemma {:induction false} SkipLeaves(t: Tel, trigger: Number)
    ensures LeftOf(Skip(t, trigger).queue, t.queue, trigger)
    decreases |t.queue|
  {
    if t.queue != [] && t.queue[0].number < trigger {
      AboveTail(t.queue, trigger);
      SkipLeaves(SkipOne(t), trigger);
    }
  }

  /** A step without a new BIF or AHCAL event. */
  lemma FrozenStep(t: Tel)
    requires Ready(t.merge) && !Consumes(t.merge) && HasTrigger(NewJoint(t.merge))
    ensures var r := TelStep(t);
      && r.merge.bif == t.merge.bif && r.merge.cal == t.merge.cal && NewJoint(r.merge) == NewJoint(t.merge)
      && !Consumes(r.merge) && LeftOf(r.queue, t.queue, TriggerOf(NewJoint(t.merge)))
  {
    var trigger := TriggerOf(NewJoint(t.merge));
    var s := Skip(t.(merge := Step(t.merge)), trigger);
    TelStepMerge(t);
    SkipLeaves(t.(merge := Step(t.merge)), trigger);
    if IsNext(s, trigger) {
      AboveTail(s.queue, trigger);
    }
  }

  /** At a step without a new BIF or AHCAL event the loop never ends if and only if the step has no
      trigger number, or some waiting telescope event is above it. */
  lemma {:induction false} LoopsExactly(t: Tel)
    requires Goes(t) && !Consumes(t.merge)
    ensures var g := NewJoint(t.merge);
      Goes(TelMerged(t)) <==> !HasTrigger(g) || SomeAbove(t.queue, TriggerOf(g))
    decreases |t.queue|
  {
    var g := NewJoint(t.merge);
    if Progresses(t) {
      FrozenStep(t);
      Progress(t);
      var r := TelStep(t);
      if r.queue == [] {
        assert !SomeAbove(r.queue, TriggerOf(g));
      } else {
        LoopsExactly(r);
      }
    } else if HasTrigger(g) {
      assert t.queue[0].number > TriggerOf(g);
    }
  }

  /** With rising telescope numbers the last one decides. */
  lemma LoopsForRising(t: Tel)
    requires Goes(t) && !Consumes(t.merge) && NumbersRise(t.queue)
    ensures var g := NewJoint(t.merge);
      Goes(TelMerged(t)) <==> (HasTrigger(g) ==> TriggerOf(g) < t.queue[|t.queue| - 1].number)
  {
    LoopsExactly(t);
    var trigger := TriggerOf(NewJoint(t.merge));
    if SomeAbove(t.queue, trigger) {
      var i :| 0 <= i < |t.queue| && t.queue[i].number > trigger;
      assert i < |t.queue| - 1 ==> t.queue[i].number < t.queue[|t.queue| - 1].number;
    }
  }

  /** Events that begin before they end always let the loop end. */
  lemma {:induction false} TimedEnds(t: Tel)
    requires AllTimed(t.merge)
    ensures !Goes(TelMerged(t))
    decreases Left(t)
  {
    if Goes(t) {
      ConsumesExactly(t.merge);
      Progress(t);
      TelStepMerge(t);
      TimedEnds(TelStep(t));
    }
  }

  // ---------- Receiving ----------

  datatype Producer = FromCal | FromBif | FromTel | FromOther

  /** Number of the run, and shift of trigger numbers. */
  datatype TelConfig = TelConfig(run: int, shift: int)

  datatype TelCollector = TelCollector(tel: Tel, started: bool)

  datatype TelArrival = TelArrival(producer: Producer, event: TsEvent)

  /** The event as queued. */
  function Shift(cfg: TelConfig, a: TelArrival): TsEvent {
    if a.producer.FromCal? && cfg.shift > 0 then a.event.(trigger := (a.event.trigger + cfg.shift) % TWO_32)
    else if a.producer.FromTel? && cfg.shift < 0 then a.event.(number := (a.event.number - cfg.shift) % TWO_32)
    else a.event
  }

  predicate Accepted(cfg: TelConfig, a: TelArrival) {
    !a.event.fake && a.event.run == cfg.run && !a.producer.FromOther?
  }

  function QueueOf(t: Tel, p: Producer): seq<TsEvent> {
    match p
    case FromCal => t.merge.cal.queue
    case FromBif => t.merge.bif.queue
    case _ => t.queue
  }

  function WithQueue(t: Tel, p: Producer, q: seq<TsEvent>): Tel {
    match p
    case FromCal => t.(merge := t.merge.(cal := t.merge.cal.(queue := q)))
    case FromBif => t.(merge := t.merge.(bif := t.merge.bif.(queue := q)))
    case _ => t.(queue := q)
  }

  /** A queue that has grown this long is emptied. */
  function Limit(p: Producer): nat {
    if p.FromCal? then 100000 else 10000
  }

  predicate Overflows(t: Tel, p: Producer) {
    |QueueOf(t, p)| >= Limit(p)
  }

  predicate AllQueued(t: Tel) {
    Ready(t.merge) && t.queue != []
  }

  predicate AllBore(t: Tel)
    requires AllQueued(t)
  {
    t.merge.cal.queue[0].bore && t.merge.bif.queue[0].bore && t.queue[0].bore
  }

  function SetClock(t: Tel): Tel
    requires AllQueued(t)
  {
    t.(merge := t.merge.(cal := t.merge.cal.(clock := ClockOf(t.merge.bif.queue[0], t.merge.cal.queue[0]))))
  }

  /** A collector with an event queued. */
  function Queued(c: TelCollector, p: Producer, e: TsEvent): TelCollector {
    c.(tel := WithQueue(c.tel, p, QueueOf(c.tel, p) + [e]))
  }

  /** `DoReceive`. */
  function TelReceive(cfg: TelConfig, c: TelCollector, a: TelArrival): TelCollector {
    if !Accepted(cfg, a) then c
    else if Overflows(c.tel, a.producer) then c.(tel := WithQueue(c.tel, a.producer, []))
    else Proceed(Queued(c, a.producer, Shift(cfg, a)))
  }

  /** What follows the queueing of an event. */
  function Proceed(c: TelCollector): TelCollector {
    if !AllQueued(c.tel) then c
    else if c.started then c.(tel := TelMerged(c.tel))
    else if !AllBore(c.tel) then c
    else TelCollector(TelMerged(SetClock(c.tel)), true)
  }

  const TEL_START := TelCollector(Tel(Merge(EMPTY, EMPTY, []), [], [], 0, []), false)

  function TelReceiveAll(cfg: TelConfig, c: TelCollector, arrivals: seq<TelArrival>): TelCollector {
    if arrivals == [] then c
    else TelReceive(cfg, TelReceiveAll(cfg, c, arrivals[..|arrivals| - 1]), arrivals[|arrivals| - 1])
  }

  // ---------- What is written ----------

  /** Telescope events written, in order, each where it is new. */
  function TelsOf(out: seq<Out>): seq<TsEvent> {
    if out == [] then []
    else TelsOf(out[..|out| - 1]) + TelOf(out[|out| - 1])
  }

  function TelOf(o: Out): seq<TsEvent> {
    match o
    case Synced(_, _, _, tel, newTel) => if newTel then tel else []
    case TelOnly(_, e) => [e]
  }

  function JointsOf(out: seq<Out>): seq<Joint> {
    if out == [] then []
    else JointsOf(out[..|out| - 1]) + (if out[|out| - 1].Synced? then [out[|out| - 1].joint] else [])
  }

  function WithTrigger(gs: seq<Group>): seq<Joint> {
    if gs == [] then []
    else WithTrigger(gs[..|gs| - 1]) + (if HasTrigger(JointOf(gs[|gs| - 1])) then [JointOf(gs[|gs| - 1])] else [])
  }

  lemma OutAdd(out: seq<Out>, o: Out)
    ensures TelsOf(out + [o]) == TelsOf(out) + TelOf(o)
    ensures JointsOf(out + [o]) == JointsOf(out) + (if o.Synced? then [o.joint] else [])
  {
    assert (out + [o])[..|out|] == out;
  }

  lemma WithTriggerAdd(gs: seq<Group>, g: Group)
    ensures WithTrigger(gs + [g]) == WithTrigger(gs) + (if HasTrigger(JointOf(g)) then [JointOf(g)] else [])
  {
    assert (gs + [g])[..|gs|] == gs;
  }

  /** The telescope event with a number. */
  function FindNumber(s: seq<TsEvent>, number: Number): seq<TsEvent> {
    if s == [] then [] else if s[|s| - 1].number == number then [s[|s| - 1]] else FindNumber(s[..|s| - 1], number)
  }

  predicate NumbersRise(s: seq<TsEvent>) {
    forall i, j :: 0 <= i < j < |s| ==> s[i].number < s[j].number
  }

  predicate TriggersRise(s: seq<TsEvent>) {
    forall i, j :: 0 <= i < j < |s| ==> s[i].trigger <= s[j].trigger
  }

  lemma {:induction false} FindAt(s: seq<TsEvent>, k: nat)
    requires NumbersRise(s) && k < |s|
    ensures FindNumber(s, s[k].number) == [s[k]]
  {
    if k < |s| - 1 {
      assert s[k].number < s[|s| - 1].number;
      FindAt(s[..|s| - 1], k);
    }
  }

  lemma {:induction false} FindNone(s: seq<TsEvent>, number: Number)
    requires forall i :: 0 <= i < |s| ==> s[i].number != number
    ensures FindNumber(s, number) == []
  {
    if s != [] {
      FindNone(s[..|s| - 1], number);
    }
  }

  // ---------- The invariant ----------

  /** How far the telescope's stream is used: the queue is what is left of it, and the last event is
      the one before. */
  predicate Follows(queue: seq<TsEvent>, last: seq<TsEvent>, tels: seq<TsEvent>) {
    && |queue| <= |tels| && queue == tels[|tels| - |queue|..]
    && last == if |queue| == |tels| then [] else [tels[|tels| - |queue| - 1]]
  }

  /** The last telescope event taken is not above a trigger number. */
  predicate NotAbove(last: seq<TsEvent>, trigger: Number) {
    last != [] ==> last[0].number <= trigger
  }

  /** A merged event has only the telescope event of its number; with an AHCAL event it has this one
      if there is one. */
  predicate Matched(o: Out, tels: seq<TsEvent>) {
    o.Synced? ==>
      && HasTrigger(o.joint) && o.trigger == TriggerOf(o.joint)
      && (o.tel == [] || o.tel == FindNumber(tels, o.trigger))
      && (o.joint.cal != [] ==> o.tel == FindNumber(tels, o.trigger) && tels != [] && o.trigger <= tels[|tels| - 1].number)
  }

  predicate AllMatched(out: seq<Out>, tels: seq<TsEvent>) {
    out == [] || (AllMatched(out[..|out| - 1], tels) && Matched(out[|out| - 1], tels))
  }

  lemma MatchedAdd(out: seq<Out>, o: Out, tels: seq<TsEvent>)
    ensures AllMatched(out + [o], tels) <==> AllMatched(out, tels) && Matched(o, tels)
  {
    assert (out + [o])[..|out|] == out;
  }

  /** The AHCAL event taken last has no higher number than those waiting, and the telescope is not
      beyond it. */
  predicate InOrder(t: Tel) {
    var s := t.merge.cal;
    && TriggersRise(s.queue)
    && (s.last == [] ==> t.last == [] && s.end == 0)
    && (s.last != [] ==> NotAbove(t.last, s.last[0].trigger))
    && (s.last != [] && s.queue != [] ==> s.last[0].trigger <= s.queue[0].trigger)
  }

  /** The telescope's part of the invariant. */
  predicate TelPart(queue: seq<TsEvent>, last: seq<TsEvent>, out: seq<Out>, tels: seq<TsEvent>) {
    NumbersRise(tels) && Follows(queue, last, tels) && AllMatched(out, tels) && TelsOf(out) + queue == tels
  }

  /** No BIF or AHCAL event will be taken any more, and the last AHCAL event is not attached again. */
  predicate Frozen(m: Merge) {
    Ready(m) && !Consumes(m) && NewJoint(m).cal == []
  }

  predicate TelInv(t: Tel, tels: seq<TsEvent>) {
    && TelPart(t.queue, t.last, t.out, tels) && (InOrder(t) || Frozen(t.merge))
    && JointsOf(t.out) == WithTrigger(t.merge.out)
  }

  lemma FollowsNext(queue: seq<TsEvent>, last: seq<TsEvent>, tels: seq<TsEvent>)
    requires Follows(queue, last, tels) && queue != []
    ensures Follows(queue[1..], [queue[0]], tels)
  {
  }

  lemma TakeTel(out: seq<Out>, o: Out, queue: seq<TsEvent>)
    requires queue != [] && TelOf(o) == [queue[0]]
    ensures TelsOf(out + [o]) + queue[1..] == TelsOf(out) + queue
  {
    OutAdd(out, o);
    assert [queue[0]] + queue[1..] == queue;
  }

  /** An event is written that takes the next telescope event. */
  lemma WriteNext(queue: seq<TsEvent>, last: seq<TsEvent>, out: seq<Out>, tels: seq<TsEvent>, o: Out)
    requires TelPart(queue, last, out, tels) && queue != [] && TelOf(o) == [queue[0]] && Matched(o, tels)
    ensures TelPart(queue[1..], [queue[0]], out + [o], tels)
  {
    TakeTel(out, o, queue);
    FollowsNext(queue, last, tels);
    MatchedAdd(out, o, tels);
  }

  /** An event is written that takes none. */
  lemma WriteOther(queue: seq<TsEvent>, last: seq<TsEvent>, out: seq<Out>, tels: seq<TsEvent>, o: Out)
    requires TelPart(queue, last, out, tels) && TelOf(o) == [] && Matched(o, tels)
    ensures TelPart(queue, last, out + [o], tels)
  {
    OutAdd(out, o);
    MatchedAdd(out, o, tels);
    assert TelsOf(out) + [] == TelsOf(out);
  }

  /** The telescope's part, in front of a merged event. */
  predicate Skipping(t: Tel, tels: seq<TsEvent>) {
    TelPart(t.queue, t.last, t.out, tels)
  }

  lemma {:induction false} SkipKeeps(t: Tel, tels: seq<TsEvent>, trigger: Number)
    ensures Skipping(t, tels) ==> Skipping(Skip(t, trigger), tels)
    ensures NotAbove(t.last, trigger) ==> NotAbove(Skip(t, trigger).last, trigger)
    ensures Skip(t, trigger).queue != [] ==> Skip(t, trigger).queue[0].number >= trigger
    ensures JointsOf(Skip(t, trigger).out) == JointsOf(t.out)
    decreases |t.queue|
  {
    if t.queue != [] && t.queue[0].number < trigger {
      SkipOneKeeps(t, tels);
      SkipKeeps(SkipOne(t), tels, trigger);
    }
  }

  lemma SkipOneKeeps(t: Tel, tels: seq<TsEvent>)
    requires t.queue != []
    ensures Skipping(t, tels) ==> Skipping(SkipOne(t), tels)
    ensures JointsOf(SkipOne(t).out) == JointsOf(t.out)
  {
    var o := TelOnly(t.n, t.queue[0]);
    OutAdd(t.out, o);
    assert JointsOf(t.out) + [] == JointsOf(t.out);
    if Skipping(t, tels) {
      WriteNext(t.queue, t.last, t.out, tels, o);
    }
  }

  /** What the next and the last event tell about a number. */
  lemma FindHere(queue: seq<TsEvent>, last: seq<TsEvent>, tels: seq<TsEvent>, trigger: Number)
    requires NumbersRise(tels) && Follows(queue, last, tels) && NotAbove(last, trigger)
    requires queue != [] ==> queue[0].number >= trigger
    ensures FindNumber(tels, trigger)
         == if queue != [] && queue[0].number == trigger then [queue[0]]
            else Again(last, trigger)
  {
    var k := |tels| - |queue|;
    if queue != [] && queue[0].number == trigger {
      FindAt(tels, k);
    } else if last != [] && last[0].number == trigger {
      FindAt(tels, k - 1);
    } else {
      forall i | 0 <= i < |tels| ensures tels[i].number != trigger {
        if i < k - 1 {
          assert tels[i].number < tels[k - 1].number;
        } else if i > k {
          assert tels[k].number < tels[i].number;
        }
      }
      FindNone(tels, trigger);
    }
  }

  /** The next and the last event are those of their numbers in the stream. */
  lemma FindOwn(queue: seq<TsEvent>, last: seq<TsEvent>, tels: seq<TsEvent>)
    requires NumbersRise(tels) && Follows(queue, last, tels)
    ensures queue != [] ==> FindNumber(tels, queue[0].number) == [queue[0]]
    ensures last != [] ==> FindNumber(tels, last[0].number) == last
  {
    var k := |tels| - |queue|;
    if queue != [] {
      FindAt(tels, k);
    }
    if last != [] {
      FindAt(tels, k - 1);
    }
  }

  /** What makes an event with an AHCAL event sure of its telescope event. */
  predicate Sure(t: Tel, tels: seq<TsEvent>, g: Joint, trigger: Number) {
    g.cal != [] ==> NotAbove(t.last, trigger) && tels != [] && trigger <= tels[|tels| - 1].number
  }

  lemma FinishKeeps(t: Tel, tels: seq<TsEvent>, g: Joint, trigger: Number)
    requires Skipping(t, tels) && HasTrigger(g) && trigger == TriggerOf(g)
    requires t.queue != [] ==> t.queue[0].number >= trigger
    requires Sure(t, tels, g, trigger)
    ensures var r := Finish(t, g, trigger);
      && TelPart(r.queue, r.last, r.out, tels) && (g.cal != [] ==> NotAbove(r.last, trigger))
      && JointsOf(r.out) == JointsOf(t.out) + [g]
  {
    FindOwn(t.queue, t.last, tels);
    if g.cal != [] {
      FindHere(t.queue, t.last, tels, trigger);
    }
    if IsNext(t, trigger) {
      var o := Synced(t.n, trigger, g, [t.queue[0]], true);
      assert Matched(o, tels);
      WriteNext(t.queue, t.last, t.out, tels, o);
      OutAdd(t.out, o);
    } else {
      var o := Synced(t.n, trigger, g, Again(t.last, trigger), false);
      assert Matched(o, tels);
      WriteOther(t.queue, t.last, t.out, tels, o);
      OutAdd(t.out, o);
    }
  }

  /** A step with a trigger number attaches an AHCAL event, the front one or, again, the last one, if
      and only if its window is not empty or the last AHCAL event ends behind the begin of the window.
      Otherwise it attaches the last BIF event alone. */
  lemma TriggerFromCal(m: Merge)
    requires Ready(m) && HasTrigger(NewJoint(m))
    ensures NewJoint(m).cal != [] <==>
      WindowBeg(m) < WindowEnd(m) || (m.cal.last != [] && m.cal.end > WindowBeg(m))
    ensures NewJoint(m).cal == if Takes(m.cal, WindowEnd(m)) then [m.cal.queue[0]]
                               else if m.cal.end > WindowBeg(m) then m.cal.last else []
    ensures NewJoint(m).cal == [] ==> NewJoint(m).bif == m.bif.last && !NewJoint(m).newBif
  {
  }

  /** A step that takes an event has no trigger number if and only if it takes a BIF event and attaches
      nothing else: that event is lost. */
  lemma LostAlone(m: Merge)
    requires Ready(m) && Consumes(m)
    ensures !HasTrigger(NewJoint(m)) <==> (NewJoint(m).bif == [m.bif.queue[0]] && NewJoint(m).newBif && NewJoint(m).cal == [])
  {
  }

  /** The AHCAL event that a step attaches is, behind the step, the last one taken. */
  lemma CalAttached(m: Merge)
    requires Ready(m) && NewJoint(m).cal != []
    ensures Step(m).cal.last == NewJoint(m).cal
    ensures m.cal.last != [] && !Takes(m.cal, WindowEnd(m)) ==> NewJoint(m).cal == m.cal.last
  {
  }

  /** With an AHCAL event: its number is not above that of the next AHCAL event, nor below that of the
      last telescope event. */
  lemma CalBetween(t: Tel, g: Joint)
    requires InOrder(t) && Ready(t.merge) && g == NewJoint(t.merge) && g.cal != []
    ensures NotAbove(t.last, TriggerOf(g)) && TriggerOf(g) <= t.merge.cal.queue[0].trigger
  {
    CalAttached(t.merge);
  }

  lemma LastWaiting(queue: seq<TsEvent>, last: seq<TsEvent>, tels: seq<TsEvent>)
    requires Follows(queue, last, tels) && queue != []
    ensures tels != [] && queue[|queue| - 1] == tels[|tels| - 1]
  {
  }

  lemma SureStep(t: Tel, tels: seq<TsEvent>)
    requires TelInv(t, tels) && Goes(t)
    ensures Sure(t, tels, NewJoint(t.merge), TriggerOf(NewJoint(t.merge)))
  {
    LastWaiting(t.queue, t.last, tels);
    if NewJoint(t.merge).cal != [] {
      CalBetween(t, NewJoint(t.merge));
    }
  }

  /** Behind the step the order is kept, or no event will be taken any more. */
  lemma OrderKept(t: Tel)
    requires (InOrder(t) || Frozen(t.merge)) && Goes(t)
    ensures var g := NewJoint(t.merge); var r := TelStep(t);
      (g.cal != [] ==> NotAbove(r.last, TriggerOf(g))) && (!HasTrigger(g) ==> r.last == t.last) ==> InOrder(r) || Frozen(r.merge)
  {
    TelStepMerge(t);
    var g := NewJoint(t.merge);
    if g.cal != [] {
      CalAttached(t.merge);
    } else if Consumes(t.merge) {
      assert Step(t.merge).cal == t.merge.cal && !HasTrigger(g);
    }
  }

  /** What a step with a trigger number writes. */
  lemma StepWrites(t: Tel, tels: seq<TsEvent>, g: Joint, trigger: Number)
    requires TelPart(t.queue, t.last, t.out, tels) && Sure(t, tels, g, trigger) && HasTrigger(g) && trigger == TriggerOf(g)
    ensures var r := Finish(Skip(t, trigger), g, trigger);
      && TelPart(r.queue, r.last, r.out, tels) && (g.cal != [] ==> NotAbove(r.last, trigger))
      && JointsOf(r.out) == JointsOf(t.out) + [g]
  {
    SkipKeeps(t, tels, trigger);
    FinishKeeps(Skip(t, trigger), tels, g, trigger);
  }

  lemma TelStepKeeps(t: Tel, tels: seq<TsEvent>)
    requires TelInv(t, tels) && Goes(t)
    ensures TelInv(TelStep(t), tels)
  {
    var g := NewJoint(t.merge);
    WithTriggerAdd(t.merge.out, NewGroup(t.merge));
    TelStepMerge(t);
    if HasTrigger(g) {
      SureStep(t, tels);
      StepWrites(t.(merge := Step(t.merge)), tels, g, TriggerOf(g));
    } else {
      assert WithTrigger(t.merge.out) + [] == WithTrigger(t.merge.out);
    }
    OrderKept(t);
  }

  lemma {:induction false} TelMergedKeeps(t: Tel, tels: seq<TsEvent>)
    requires TelInv(t, tels)
    ensures TelInv(TelMerged(t), tels)
    decreases Left(t)
  {
    if Goes(t) && Progresses(t) {
      Progress(t);
      TelStepKeeps(t, tels);
      TelMergedKeeps(TelStep(t), tels);
    }
  }

  // ---------- The run ----------

  /** Accepted events of a producer as queued, in order. */
  function TelStream(cfg: TelConfig, arrivals: seq<TelArrival>, p: Producer): seq<TsEvent> {
    if arrivals == [] then []
    else
      var a := arrivals[|arrivals| - 1];
      TelStream(cfg, arrivals[..|arrivals| - 1], p) + (if Accepted(cfg, a) && a.producer == p then [Shift(cfg, a)] else [])
  }

  /** No queue was emptied for its length. */
  predicate NeverOverflows(cfg: TelConfig, arrivals: seq<TelArrival>) {
    arrivals == []
    || (NeverOverflows(cfg, arrivals[..|arrivals| - 1])
        && (Accepted(cfg, arrivals[|arrivals| - 1]) ==>
              !Overflows(TelReceiveAll(cfg, TEL_START, arrivals[..|arrivals| - 1]).tel, arrivals[|arrivals| - 1].producer)))
  }

  /** Steps and waiting events make up the streams of BIF and AHCAL. */
  predicate Conserves(m: Merge, bifs: seq<TsEvent>, cals: seq<TsEvent>) {
    NewBifs(m.out) + m.bif.queue == bifs && NewCals(m.out) + m.cal.queue == cals
  }

  lemma {:induction false} TelMergedConserves(t: Tel, bifs: seq<TsEvent>, cals: seq<TsEvent>)
    requires Conserves(t.merge, bifs, cals)
    ensures Conserves(TelMerged(t).merge, bifs, cals)
    decreases Left(t)
  {
    if Goes(t) && Progresses(t) {
      Progress(t);
      TelStepMerge(t);
      StepConserves(t.merge);
      TelMergedConserves(TelStep(t), bifs, cals);
    }
  }

  lemma ProceedKeeps(c: TelCollector, tels: seq<TsEvent>, bifs: seq<TsEvent>, cals: seq<TsEvent>)
    requires TelInv(c.tel, tels) && Conserves(c.tel.merge, bifs, cals) && (c.started || InOrder(c.tel))
    ensures TelInv(Proceed(c).tel, tels) && Conserves(Proceed(c).tel.merge, bifs, cals)
    ensures Proceed(c).started || InOrder(Proceed(c).tel)
  {
    if AllQueued(c.tel) {
      if c.started {
        TelMergedKeeps(c.tel, tels);
        TelMergedConserves(c.tel, bifs, cals);
      } else if AllBore(c.tel) {
        TelMergedKeeps(SetClock(c.tel), tels);
        TelMergedConserves(SetClock(c.tel), bifs, cals);
      }
    }
  }

  lemma FindLonger(tels: seq<TsEvent>, e: TsEvent, number: Number)
    requires NumbersRise(tels + [e])
    requires (tels != [] && number <= tels[|tels| - 1].number) || FindNumber(tels, number) != []
    ensures FindNumber(tels + [e], number) == FindNumber(tels, number)
  {
    var s := tels + [e];
    if FindNumber(tels, number) != [] {
      Found(tels, number);
    }
    assert s[|tels| - 1].number < s[|tels|].number;
    assert s[..|tels|] == tels;
  }

  /** A number that is found is not above the last one. */
  lemma {:induction false} Found(s: seq<TsEvent>, number: Number)
    requires FindNumber(s, number) != []
    ensures s != [] && (NumbersRise(s) ==> number <= s[|s| - 1].number)
  {
    if s[|s| - 1].number != number {
      Found(s[..|s| - 1], number);
      if NumbersRise(s) {
        assert s[|s| - 2].number < s[|s| - 1].number;
      }
    }
  }

  lemma {:induction false} StaysMatched(out: seq<Out>, tels: seq<TsEvent>, e: TsEvent)
    requires AllMatched(out, tels) && NumbersRise(tels + [e])
    ensures AllMatched(out, tels + [e])
  {
    if out != [] {
      StaysMatched(out[..|out| - 1], tels, e);
      OneStaysMatched(out[|out| - 1], tels, e);
    }
  }

  lemma OneStaysMatched(o: Out, tels: seq<TsEvent>, e: TsEvent)
    requires Matched(o, tels) && NumbersRise(tels + [e])
    ensures Matched(o, tels + [e])
  {
    if o.Synced? && (o.tel != [] || o.joint.cal != []) {
      FindLonger(tels, e, o.trigger);
      if tels != [] {
        assert (tels + [e])[|tels| - 1].number < (tels + [e])[|tels|].number;
      }
    }
  }

  lemma FollowsArrival(queue: seq<TsEvent>, last: seq<TsEvent>, tels: seq<TsEvent>, e: TsEvent)
    requires Follows(queue, last, tels)
    ensures Follows(queue + [e], last, tels + [e])
  {
  }

  /** A telescope event that arrives later changes no match. */
  lemma TelArrives(t: Tel, tels: seq<TsEvent>, e: TsEvent)
    requires TelInv(t, tels) && NumbersRise(tels + [e])
    ensures TelInv(t.(queue := t.queue + [e]), tels + [e])
  {
    StaysMatched(t.out, tels, e);
    FollowsArrival(t.queue, t.last, tels, e);
    assert TelsOf(t.out) + (t.queue + [e]) == (TelsOf(t.out) + t.queue) + [e];
  }

  lemma CalInOrder(t: Tel, cals: seq<TsEvent>, e: TsEvent)
    requires InOrder(t) && NewCals(t.merge.out) + t.merge.cal.queue == cals && TriggersRise(cals + [e]) && LastTaken(t.merge)
    ensures InOrder(WithQueue(t, FromCal, t.merge.cal.queue + [e]))
  {
    var q, done := t.merge.cal.queue, NewCals(t.merge.out);
    assert cals + [e] == done + (q + [e]);
    forall i, j | 0 <= i < j < |q + [e]| ensures (q + [e])[i].trigger <= (q + [e])[j].trigger {
      assert (cals + [e])[|done| + i] == (q + [e])[i] && (cals + [e])[|done| + j] == (q + [e])[j];
    }
    if t.merge.cal.last != [] {
      assert (cals + [e])[|done| - 1] == done[|done| - 1];
      assert (cals + [e])[|done|] == (q + [e])[0];
    }
  }

  lemma CalArrives(t: Tel, tels: seq<TsEvent>, cals: seq<TsEvent>, e: TsEvent)
    requires TelInv(t, tels) && NewCals(t.merge.out) + t.merge.cal.queue == cals && TriggersRise(cals + [e])
    requires LastTaken(t.merge)
    ensures var r := WithQueue(t, FromCal, t.merge.cal.queue + [e]); TelInv(r, tels) && (InOrder(t) ==> InOrder(r))
  {
    if InOrder(t) {
      CalInOrder(t, cals, e);
    }
  }

  /** The AHCAL event taken last is the last one of those that were new in a step. */
  predicate LastTaken(m: Merge) {
    m.cal.last == if NewCals(m.out) == [] then [] else [NewCals(m.out)[|NewCals(m.out)| - 1]]
  }

  lemma StepLastTaken(m: Merge)
    requires Ready(m) && LastTaken(m)
    ensures LastTaken(Step(m))
  {
    assert (m.out + [NewGroup(m)])[..|m.out|] == m.out;
  }

  lemma {:induction false} TelMergedLastTaken(t: Tel)
    requires LastTaken(t.merge)
    ensures LastTaken(TelMerged(t).merge)
    decreases Left(t)
  {
    if Goes(t) && Progresses(t) {
      Progress(t);
      TelStepMerge(t);
      StepLastTaken(t.merge);
      TelMergedLastTaken(TelStep(t));
    }
  }

  lemma ProceedLastTaken(c: TelCollector)
    requires LastTaken(c.tel.merge)
    ensures LastTaken(Proceed(c).tel.merge)
  {
    if AllQueued(c.tel) {
      TelMergedLastTaken(c.tel);
      TelMergedLastTaken(SetClock(c.tel));
    }
  }

  /** What a run establishes. */
  predicate TelRun(c: TelCollector, tels: seq<TsEvent>, bifs: seq<TsEvent>, cals: seq<TsEvent>) {
    && TelInv(c.tel, tels) && Conserves(c.tel.merge, bifs, cals) && LastTaken(c.tel.merge)
    && (c.started || InOrder(c.tel))
  }

  lemma CalQueued(c: TelCollector, e: TsEvent, tels: seq<TsEvent>, bifs: seq<TsEvent>, cals: seq<TsEvent>)
    requires TelRun(c, tels, bifs, cals) && TriggersRise(cals + [e])
    ensures TelRun(Queued(c, FromCal, e), tels, bifs, cals + [e])
  {
    var m := c.tel.merge;
    CalArrives(c.tel, tels, cals, e);
    assert NewCals(m.out) + (m.cal.queue + [e]) == (NewCals(m.out) + m.cal.queue) + [e];
  }

  lemma BifQueued(c: TelCollector, e: TsEvent, tels: seq<TsEvent>, bifs: seq<TsEvent>, cals: seq<TsEvent>)
    requires TelRun(c, tels, bifs, cals)
    ensures TelRun(Queued(c, FromBif, e), tels, bifs + [e], cals)
  {
    var m := c.tel.merge;
    assert NewBifs(m.out) + (m.bif.queue + [e]) == (NewBifs(m.out) + m.bif.queue) + [e];
  }

  lemma ArrivalKeeps(cfg: TelConfig, c: TelCollector, a: TelArrival, tels: seq<TsEvent>, bifs: seq<TsEvent>, cals: seq<TsEvent>)
    requires TelRun(c, tels, bifs, cals) && Accepted(cfg, a)
    requires NumbersRise(Grown(cfg, a, FromTel, tels)) && TriggersRise(Grown(cfg, a, FromCal, cals))
    ensures TelRun(Queued(c, a.producer, Shift(cfg, a)),
                   Grown(cfg, a, FromTel, tels), Grown(cfg, a, FromBif, bifs), Grown(cfg, a, FromCal, cals))
  {
    var e := Shift(cfg, a);
    match a.producer {
      case FromCal => CalQueued(c, e, tels, bifs, cals);
      case FromBif => BifQueued(c, e, tels, bifs, cals);
      case _ => TelArrives(c.tel, tels, e);
    }
  }

  /** A stream with the event that arrived, if it is its own. */
  function Grown(cfg: TelConfig, a: TelArrival, p: Producer, s: seq<TsEvent>): seq<TsEvent> {
    if a.producer == p then s + [Shift(cfg, a)] else s
  }

  lemma {:induction false} TelescopeRun(cfg: TelConfig, arrivals: seq<TelArrival>)
    requires NeverOverflows(cfg, arrivals)
    requires NumbersRise(TelStream(cfg, arrivals, FromTel)) && TriggersRise(TelStream(cfg, arrivals, FromCal))
    ensures TelRun(TelReceiveAll(cfg, TEL_START, arrivals), TelStream(cfg, arrivals, FromTel),
                   TelStream(cfg, arrivals, FromBif), TelStream(cfg, arrivals, FromCal))
  {
    if arrivals != [] {
      var before, a := arrivals[..|arrivals| - 1], arrivals[|arrivals| - 1];
      var tels, bifs := TelStream(cfg, before, FromTel), TelStream(cfg, before, FromBif);
      var cals := TelStream(cfg, before, FromCal);
      StreamPrefix(cfg, arrivals, FromTel);
      StreamPrefix(cfg, arrivals, FromBif);
      StreamPrefix(cfg, arrivals, FromCal);
      TelescopeRun(cfg, before);
      var c := TelReceiveAll(cfg, TEL_START, before);
      if Accepted(cfg, a) {
        ArrivalKeeps(cfg, c, a, tels, bifs, cals);
        var c' := Queued(c, a.producer, Shift(cfg, a));
        ProceedKeeps(c', Grown(cfg, a, FromTel, tels), Grown(cfg, a, FromBif, bifs), Grown(cfg, a, FromCal, cals));
        ProceedLastTaken(c');
      }
    }
  }

  lemma {:induction false} MatchedAt(out: seq<Out>, tels: seq<TsEvent>, i: nat)
    requires AllMatched(out, tels) && i < |out|
    ensures Matched(out[i], tels)
  {
    if i < |out| - 1 {
      MatchedAt(out[..|out| - 1], tels, i);
    }
  }

  /** Runs without overflow, telescope numbers strictly increasing and AHCAL trigger numbers not
      falling. Each written event has a trigger number and no telescope event but that of its number;
      with an AHCAL event it has this one if the telescope ever sends it. Each telescope event that left
      is written as new once, in order. Each step of the BIF and AHCAL merge that has a trigger number
      is written. Nothing else is lost. */
  lemma TelescopeMatched(cfg: TelConfig, arrivals: seq<TelArrival>)
    requires NeverOverflows(cfg, arrivals)
    requires NumbersRise(TelStream(cfg, arrivals, FromTel)) && TriggersRise(TelStream(cfg, arrivals, FromCal))
    ensures var t, tels := TelReceiveAll(cfg, TEL_START, arrivals).tel, TelStream(cfg, arrivals, FromTel);
      && (forall i :: 0 <= i < |t.out| ==> WellMatched(t.out[i], tels))
      && TelsOf(t.out) + t.queue == tels
      && JointsOf(t.out) == WithTrigger(t.merge.out)
      && NewBifs(t.merge.out) + t.merge.bif.queue == TelStream(cfg, arrivals, FromBif)
      && NewCals(t.merge.out) + t.merge.cal.queue == TelStream(cfg, arrivals, FromCal)
  {
    var t, tels := TelReceiveAll(cfg, TEL_START, arrivals).tel, TelStream(cfg, arrivals, FromTel);
    TelescopeRun(cfg, arrivals);
    AllWellMatched(t.out, tels);
  }

  predicate WellMatched(o: Out, tels: seq<TsEvent>) {
    o.Synced? ==>
      && HasTrigger(o.joint) && o.trigger == TriggerOf(o.joint)
      && (o.tel == [] || o.tel == FindNumber(tels, o.trigger))
      && (o.joint.cal != [] ==> o.tel == FindNumber(tels, o.trigger))
  }

  lemma AllWellMatched(out: seq<Out>, tels: seq<TsEvent>)
    requires AllMatched(out, tels)
    ensures forall i :: 0 <= i < |out| ==> WellMatched(out[i], tels)
  {
    forall i | 0 <= i < |out| ensures WellMatched(out[i], tels) {
      MatchedAt(out, tels, i);
    }
  }

  // ---------- When no queue overflows ----------

  lemma TelStepShrinks(t: Tel, p: Producer)
    requires Ready(t.merge)
    ensures |QueueOf(TelStep(t), p)| <= |QueueOf(t, p)|
  {
    TelStepMerge(t);
    SkipShrinks(t.(merge := Step(t.merge)), TriggerOf(NewJoint(t.merge)));
  }

  lemma {:induction false} TelMergedShrinks(t: Tel, p: Producer)
    ensures |QueueOf(TelMerged(t), p)| <= |QueueOf(t, p)|
    decreases Left(t)
  {
    if Goes(t) && Progresses(t) {
      Progress(t);
      TelStepShrinks(t, p);
      TelMergedShrinks(TelStep(t), p);
    }
  }

  lemma ProceedShrinks(c: TelCollector, p: Producer)
    ensures |QueueOf(Proceed(c).tel, p)| <= |QueueOf(c.tel, p)|
  {
    if AllQueued(c.tel) {
      TelMergedShrinks(c.tel, p);
      TelMergedShrinks(SetClock(c.tel), p);
    }
  }

  /** A queue is never longer than the producer's stream so far. */
  lemma {:induction false} QueueBound(cfg: TelConfig, arrivals: seq<TelArrival>, p: Producer)
    requires !p.FromOther?
    ensures |QueueOf(TelReceiveAll(cfg, TEL_START, arrivals).tel, p)| <= |TelStream(cfg, arrivals, p)|
  {
    if arrivals != [] {
      var before, a := arrivals[..|arrivals| - 1], arrivals[|arrivals| - 1];
      var c := TelReceiveAll(cfg, TEL_START, before);
      StreamPrefix(cfg, arrivals, p);
      QueueBound(cfg, before, p);
      if Accepted(cfg, a) && !Overflows(c.tel, a.producer) {
        ProceedShrinks(Queued(c, a.producer, Shift(cfg, a)), p);
      }
    }
  }

  /** No queue overflows if no producer sends more events of the run than its queue can hold: 100000
      for the AHCAL, 10000 for the others. */
  lemma {:induction false} FewNeverOverflow(cfg: TelConfig, arrivals: seq<TelArrival>)
    requires |TelStream(cfg, arrivals, FromCal)| <= Limit(FromCal)
    requires |TelStream(cfg, arrivals, FromBif)| <= Limit(FromBif) && |TelStream(cfg, arrivals, FromTel)| <= Limit(FromTel)
    ensures NeverOverflows(cfg, arrivals)
  {
    if arrivals != [] {
      var before, a := arrivals[..|arrivals| - 1], arrivals[|arrivals| - 1];
      StreamPrefix(cfg, arrivals, FromCal);
      StreamPrefix(cfg, arrivals, FromBif);
      StreamPrefix(cfg, arrivals, FromTel);
      FewNeverOverflow(cfg, before);
      if Accepted(cfg, a) {
        QueueBound(cfg, before, a.producer);
      }
    }
  }

  lemma StreamPrefix(cfg: TelConfig, arrivals: seq<TelArrival>, p: Producer)
    requires arrivals != []
    ensures var a, s := arrivals[|arrivals| - 1], TelStream(cfg, arrivals[..|arrivals| - 1], p);
      && s <= TelStream(cfg, arrivals, p)
      && TelStream(cfg, arrivals, p) == if Accepted(cfg, a) then Grown(cfg, a, p, s) else s
  {
    var s := TelStream(cfg, arrivals[..|arrivals| - 1], p);
    assert s + [] == s;
  }

  // ---------- The merge of BIF and AHCAL in a run ----------

  /** Some steps of the merge of BIF and AHCAL alone. */
  function TsSteps(m: Merge, n: nat): Merge
    decreases n
  {
    if n == 0 then m
    else
      var d := TsSteps(m, n - 1);
      if Ready(d) then Step(d) else d
  }

  lemma {:induction false} TsStepsOut(m: Merge, n: nat)
    ensures |TsSteps(m, n).out| <= |m.out| + n
    decreases n
  {
    if n > 0 {
      TsStepsOut(m, n - 1);
    }
  }

  lemma {:induction false} TsStepsAdd(m: Merge, n: nat, bifs: seq<TsEvent>, cals: seq<TsEvent>)
    requires |TsSteps(m, n).out| == |m.out| + n
    ensures TsSteps(Add(m, bifs, cals), n) == Add(TsSteps(m, n), bifs, cals)
    decreases n
  {
    if n > 0 {
      TsStepsOut(m, n - 1);
      TsStepsAdd(m, n - 1, bifs, cals);
      StepAdd(TsSteps(m, n - 1), bifs, cals);
    }
  }

  /** The merge as so many steps over whole streams, on the clock of their first events. */
  predicate IsSteps(c: TelCollector, bifs: seq<TsEvent>, cals: seq<TsEvent>) {
    if c.started then
      bifs != [] && cals != []
      && c.tel.merge == TsSteps(Begin(ClockOf(bifs[0], cals[0]), bifs, cals), |c.tel.merge.out|)
    else c.tel.merge == Begin(Plain, bifs, cals)
  }

  lemma {:induction false} TelMergedSteps(t: Tel, m0: Merge)
    requires m0.out == [] && t.merge == TsSteps(m0, |t.merge.out|)
    ensures TelMerged(t).merge == TsSteps(m0, |TelMerged(t).merge.out|)
    decreases Left(t)
  {
    if Goes(t) && Progresses(t) {
      Progress(t);
      TelStepMerge(t);
      TelMergedSteps(TelStep(t), m0);
    }
  }

  lemma ProceedSteps(c: TelCollector, bifs: seq<TsEvent>, cals: seq<TsEvent>)
    requires IsSteps(c, bifs, cals)
    ensures IsSteps(Proceed(c), bifs, cals)
  {
    if AllQueued(c.tel) {
      if c.started {
        TelMergedSteps(c.tel, Begin(ClockOf(bifs[0], cals[0]), bifs, cals));
      } else if AllBore(c.tel) {
        TelMergedSteps(SetClock(c.tel), Begin(ClockOf(bifs[0], cals[0]), bifs, cals));
      }
    }
  }

  lemma ArrivalSteps(cfg: TelConfig, c: TelCollector, a: TelArrival, bifs: seq<TsEvent>, cals: seq<TsEvent>)
    requires IsSteps(c, bifs, cals) && Accepted(cfg, a)
    ensures IsSteps(Queued(c, a.producer, Shift(cfg, a)),
                    Grown(cfg, a, FromBif, bifs), Grown(cfg, a, FromCal, cals))
  {
    var bnew := if a.producer.FromBif? then [Shift(cfg, a)] else [];
    var cnew := if a.producer.FromCal? then [Shift(cfg, a)] else [];
    var m := c.tel.merge;
    var m' := Queued(c, a.producer, Shift(cfg, a)).tel.merge;
    assert m.bif.queue + [] == m.bif.queue && m.cal.queue + [] == m.cal.queue && bifs + [] == bifs && cals + [] == cals;
    assert m' == Add(m, bnew, cnew);
    if c.started {
      TsStepsAdd(Begin(ClockOf(bifs[0], cals[0]), bifs, cals), |m.out|, bnew, cnew);
    }
  }

  lemma {:induction false} RunSteps(cfg: TelConfig, arrivals: seq<TelArrival>)
    requires NeverOverflows(cfg, arrivals)
    ensures IsSteps(TelReceiveAll(cfg, TEL_START, arrivals), TelStream(cfg, arrivals, FromBif), TelStream(cfg, arrivals, FromCal))
  {
    if arrivals != [] {
      var before, a := arrivals[..|arrivals| - 1], arrivals[|arrivals| - 1];
      var bifs, cals := TelStream(cfg, before, FromBif), TelStream(cfg, before, FromCal);
      StreamPrefix(cfg, arrivals, FromBif);
      StreamPrefix(cfg, arrivals, FromCal);
      RunSteps(cfg, before);
      var c := TelReceiveAll(cfg, TEL_START, before);
      if Accepted(cfg, a) {
        ArrivalSteps(cfg, c, a, bifs, cals);
        ProceedSteps(Queued(c, a.producer, Shift(cfg, a)),
                     Grown(cfg, a, FromBif, bifs), Grown(cfg, a, FromCal, cals));
      }
    }
  }

  lemma {:induction false} TsStepsKeep(m: Merge, n: nat)
    requires Inv(m)
    ensures Inv(TsSteps(m, n)) && TsSteps(m, n).bif.clock == m.bif.clock && TsSteps(m, n).cal.clock == m.cal.clock
    decreases n
  {
    if n > 0 {
      TsStepsKeep(m, n - 1);
      if Ready(TsSteps(m, n - 1)) {
        StepKeeps(TsSteps(m, n - 1));
      }
    }
  }

  /** Whatever the order of arrival and whatever the telescope sends, the merge is a number of steps of
      the merge of the whole BIF and AHCAL streams; with rising times everything merged overlaps in
      time, in monotone windows. */
  lemma TelescopeSound(cfg: TelConfig, arrivals: seq<TelArrival>)
    requires NeverOverflows(cfg, arrivals)
    requires var bs, cs := TelStream(cfg, arrivals, FromBif), TelStream(cfg, arrivals, FromCal);
      bs != [] && cs != [] && Rising(Plain, bs) && Rising(ClockOf(bs[0], cs[0]), cs)
    ensures var bs, cs := TelStream(cfg, arrivals, FromBif), TelStream(cfg, arrivals, FromCal);
      var c := TelReceiveAll(cfg, TEL_START, arrivals);
      var m0 := Begin(ClockOf(bs[0], cs[0]), bs, cs);
      c.started ==>
        && c.tel.merge == TsSteps(m0, |c.tel.merge.out|)
        && AllSound(c.tel.merge.out, Plain, ClockOf(bs[0], cs[0])) && MonotoneWindows(c.tel.merge.out)
  {
    var bs, cs := TelStream(cfg, arrivals, FromBif), TelStream(cfg, arrivals, FromCal);
    RunSteps(cfg, arrivals);
    TsStepsKeep(Begin(ClockOf(bs[0], cs[0]), bs, cs), |TelReceiveAll(cfg, TEL_START, arrivals).tel.merge.out|);
  }

  // ---------- Events that begin before they end ----------

  /** Every step took an event. */
  predicate AllTaking(gs: seq<Group>) {
    forall i :: 0 <= i < |gs| ==> (gs[i].newBif || gs[i].newCal) && (gs[i].newCal ==> gs[i].cal != [])
  }

  lemma {:induction false} TsStepsTake(m: Merge, n: nat)
    requires AllTimed(m) && AllTaking(m.out)
    ensures AllTimed(TsSteps(m, n)) && AllTaking(TsSteps(m, n).out)
    decreases n
  {
    if n > 0 {
      TsStepsTake(m, n - 1);
      var d := TsSteps(m, n - 1);
      if Ready(d) {
        ConsumesExactly(d);
      }
    }
  }

  lemma {:induction false} TriggersHaveCal(gs: seq<Group>)
    requires AllTaking(gs)
    ensures forall j :: j in WithTrigger(gs) ==> j.cal != []
  {
    if gs != [] {
      TriggersHaveCal(gs[..|gs| - 1]);
      assert gs[|gs| - 1].newBif || gs[|gs| - 1].newCal;
    }
  }

  lemma {:induction false} JointAt(out: seq<Out>, i: nat)
    requires i < |out| && out[i].Synced?
    ensures out[i].joint in JointsOf(out)
  {
    if i < |out| - 1 {
      JointAt(out[..|out| - 1], i);
    }
  }

  /** If all BIF and AHCAL events begin before they end, every written event has an AHCAL event, and so
      the telescope event of its number if the telescope ever sends it. */
  lemma TimedMatched(cfg: TelConfig, arrivals: seq<TelArrival>)
    requires NeverOverflows(cfg, arrivals)
    requires NumbersRise(TelStream(cfg, arrivals, FromTel)) && TriggersRise(TelStream(cfg, arrivals, FromCal))
    requires var bs, cs := TelStream(cfg, arrivals, FromBif), TelStream(cfg, arrivals, FromCal);
      Timed(Plain, bs) && (bs != [] && cs != [] ==> Timed(ClockOf(bs[0], cs[0]), cs))
    ensures var t, tels := TelReceiveAll(cfg, TEL_START, arrivals).tel, TelStream(cfg, arrivals, FromTel);
      forall i :: 0 <= i < |t.out| && t.out[i].Synced? ==>
        t.out[i].joint.cal != [] && t.out[i].tel == FindNumber(tels, t.out[i].trigger)
  {
    var bs, cs := TelStream(cfg, arrivals, FromBif), TelStream(cfg, arrivals, FromCal);
    var c := TelReceiveAll(cfg, TEL_START, arrivals);
    TelescopeMatched(cfg, arrivals);
    RunSteps(cfg, arrivals);
    if c.started {
      TsStepsTake(Begin(ClockOf(bs[0], cs[0]), bs, cs), |c.tel.merge.out|);
    }
    TriggersHaveCal(c.tel.merge.out);
    forall i | 0 <= i < |c.tel.out| && c.tel.out[i].Synced? ensures c.tel.out[i].joint.cal != [] {
      JointAt(c.tel.out, i);
    }
  }

  // ---------- A BIF event alone ----------

  /** A step that takes no BIF or AHCAL event, and attaches only the last BIF event again. */
  predicate Lone(m: Merge) {
    Ready(m) && !Consumes(m) && NewJoint(m).cal == [] && NewJoint(m).bif != []
  }

  predicate AllBelow(queue: seq<TsEvent>, trigger: Number) {
    forall i :: 0 <= i < |queue| ==> queue[i].number < trigger
  }

  lemma {:induction false} SkipAll(t: Tel, trigger: Number)
    requires t.queue != [] && AllBelow(t.queue, trigger)
    ensures var r := Skip(t, trigger); r.queue == [] && r.last == [t.queue[|t.queue| - 1]]
    decreases |t.queue|
  {
    if |t.queue| > 1 {
      SkipAll(SkipOne(t), trigger);
    }
  }

  /** Such an event is written before the telescope has sent its number, and once more, then with the
      telescope event, when it does: so the first time it has not the telescope event of its number. */
  lemma LoneBifUnmatched(t: Tel, tels: seq<TsEvent>, late: TsEvent)
    requires Goes(t) && Lone(t.merge)
    requires var trigger := TriggerOf(NewJoint(t.merge)); AllBelow(t.queue, trigger) && late.number == trigger
    ensures var g := NewJoint(t.merge); var trigger := TriggerOf(g); var r := TelMerged(t);
      && r.queue == [] && r.out != [] && r.out[|r.out| - 1].Synced?
      && r.out[|r.out| - 1].trigger == trigger && r.out[|r.out| - 1].joint == g && r.out[|r.out| - 1].tel == []
      && FindNumber(tels + [late], trigger) == [late]
      && TelMerged(r.(queue := [late])).out == r.out + [Synced(r.n, trigger, g, [late], true)]
  {
    var g := NewJoint(t.merge);
    var trigger := TriggerOf(g);
    FrozenStep(t);
    Progress(t);
    var t' := t.(merge := Step(t.merge));
    SkipAll(t', trigger);
    var r := TelStep(t);
    assert r.queue == [] && r.out[|r.out| - 1] == Synced(Skip(t', trigger).n, trigger, g, [], false);
    assert TelMerged(r) == r;
    LateIsWritten(r, late);
  }

  lemma LateIsWritten(r: Tel, late: TsEvent)
    requires r.queue == [] && Lone(r.merge) && late.number == TriggerOf(NewJoint(r.merge)) >= r.merge.cal.queue[0].trigger
    ensures var g := NewJoint(r.merge);
      TelMerged(r.(queue := [late])).out == r.out + [Synced(r.n, TriggerOf(g), g, [late], true)]
  {
    var s := r.(queue := [late]);
    FrozenStep(s);
    assert TelStep(s).queue == [];
    assert TelMerged(TelStep(s)) == TelStep(s);
  }

  /** Behind a BIF event with number 5 that was taken alone, an AHCAL event without times and with
      number 1 leads there as soon as the next BIF event has come. */
  lemma LoneBifHere(b: TsEvent, next: TsEvent, c: TsEvent)
    requires b == TsEvent(0, false, true, 0, 1000, true, 0, 0, 5, 0) && c == TsEvent(0, false, true, 0, 0, true, 0, 0, 1, 0)
    requires next.beg == 1000 && next.end == 2000
    ensures var m := Merged(Begin(ClockOf(b, c), [b], [c]));
      var n := m.(bif := m.bif.(queue := [next]));
      Lone(n) && TriggerOf(NewJoint(n)) == 5
  {
    var clock := ClockOf(b, c);
    var m := Begin(clock, [b], [c]);
    assert clock.Read(0) == 120;
    assert Step(m).bif.queue == [];
    assert Merged(Step(m)) == Step(m);
  }
}
