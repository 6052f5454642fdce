/**
 Numbers in the telescope merge: those of the written events, the shift between trigger and event numbers,
 the limits of the queues, and when the merge starts.
 */
module TelNumbers {
  import opened TsMerging
  import opened TelMerging

  // ---------- Numbers of the written events ----------

  function NumberOf(o: Out): int {
    match o
    case Synced(n, _, _, _, _) => n
    case TelOnly(n, _) => n
  }

  /** The written events are numbered from 0 in 32 bits, and so is the next one. */
  predicate Numbered(t: Tel) {
    t.n == |t.out| % 4294967296 && forall i :: 0 <= i < |t.out| ==> NumberOf(t.out[i]) == i % 4294967296
  }

  lemma {:induction false} SkipNumbered(t: Tel, trigger: Number)
    requires Numbered(t)
    ensures Numbered(Skip(t, trigger))
    decreases |t.queue|
  {
    if t.queue != [] && t.queue[0].number < trigger {
      SkipNumbered(SkipOne(t), trigger);
    }
  }

  lemma FinishNumbered(t: Tel, g: Joint, trigger: Number)
    requires Numbered(t)
    ensures Numbered(Finish(t, g, trigger))
  {
  }

  lemma StepNumbered(t: Tel)
    requires Ready(t.merge) && Numbered(t)
    ensures Numbered(TelStep(t))
  {
    var g, next := NewJoint(t.merge), t.(merge := Step(t.merge));
    SkipNumbered(next, TriggerOf(g));
    FinishNumbered(Skip(next, TriggerOf(g)), g, TriggerOf(g));
  }

  lemma {:induction false} MergedNumbered(t: Tel)
    requires Numbered(t)
    ensures Numbered(TelMerged(t))
    decreases Left(t)
  {
    if Goes(t) && Progresses(t) {
      Progress(t);
      StepNumbered(t);
      MergedNumbered(TelStep(t));
    }
  }

  /** So over any run, with overflows or without. */
  lemma {:induction false} RunNumbered(cfg: TelConfig, arrivals: seq<TelArrival>)
    ensures Numbered(TelReceiveAll(cfg, TEL_START, arrivals).tel)
  {
    if arrivals != [] {
      var before, a := arrivals[..|arrivals| - 1], arrivals[|arrivals| - 1];
      var c := TelReceiveAll(cfg, TEL_START, before);
      RunNumbered(cfg, before);
      if Accepted(cfg, a) && !Overflows(c.tel, a.producer) {
        var d := Queued(c, a.producer, Shift(cfg, a));
        MergedNumbered(d.tel);
        if AllQueued(d.tel) {
          MergedNumbered(SetClock(d.tel));
        }
      }
    }
  }

  // ---------- Shifted numbers ----------

  /** An AHCAL trigger number and a telescope event number match once shifted if and only if the telescope's
      is ahead by the configured shift, in 32 bits. */
  lemma ShiftedMatch(cfg: TelConfig, cal: TelArrival, tel: TelArrival)
    requires cal.producer.FromCal? && tel.producer.FromTel?
    ensures Shift(cfg, cal).trigger == Shift(cfg, tel).number
        <==> (cal.event.trigger + cfg.shift - tel.event.number) % 4294967296 == 0
  {
    var a, b := cal.event.trigger, tel.event.number;
    if cfg.shift == 0 {
    } else if cfg.shift > 0 {
      SameResidue(a + cfg.shift, b);
    } else {
      SameResidue(b - cfg.shift, a);
    }
  }

  lemma SameResidue(x: int, n: Number)
    ensures x % 4294967296 == n <==> (x - n) % 4294967296 == 0
    ensures (x - n) % 4294967296 == 0 <==> (n - x) % 4294967296 == 0
  {
    var q := x / 4294967296;
    if (x - n) % 4294967296 == 0 {
      var k := (x - n) / 4294967296;
      assert x == 4294967296 * k + n;
    }
    if (n - x) % 4294967296 == 0 {
      var k := (n - x) / 4294967296;
      assert x - n == 4294967296 * -k;
    }
    if x % 4294967296 == n {
      assert x - n == 4294967296 * q && n - x == 4294967296 * -q;
    }
  }

  /** Nothing else of an event changes. */
  lemma ShiftKeeps(cfg: TelConfig, a: TelArrival)
    ensures var e := Shift(cfg, a);
      && e == a.event.(trigger := e.trigger, number := e.number)
      && (!a.producer.FromCal? ==> e.trigger == a.event.trigger) && (!a.producer.FromTel? ==> e.number == a.event.number)
  {
  }

  /** Events of the run that a producer sent. */
  function SentBy(run: int, arrivals: seq<TelArrival>, p: Producer): seq<TelArrival> {
    if arrivals == [] then []
    else
      var a := arrivals[|arrivals| - 1];
      SentBy(run, arrivals[..|arrivals| - 1], p) + (if a.producer == p && !a.event.fake && a.event.run == run then [a] else [])
  }

  function ShiftAll(cfg: TelConfig, arrivals: seq<TelArrival>): (es: seq<TsEvent>)
    ensures |es| == |arrivals| && forall i :: 0 <= i < |es| ==> es[i] == Shift(cfg, arrivals[i])
  {
    seq(|arrivals|, i requires 0 <= i < |arrivals| => Shift(cfg, arrivals[i]))
  }

  /** The stream of a producer is what it sent in the run, shifted. */
  lemma {:induction false} StreamIsSent(cfg: TelConfig, arrivals: seq<TelArrival>, p: Producer)
    requires !p.FromOther?
    ensures TelStream(cfg, arrivals, p) == ShiftAll(cfg, SentBy(cfg.run, arrivals, p))
  {
    if arrivals != [] {
      StreamIsSent(cfg, arrivals[..|arrivals| - 1], p);
    }
  }

  // ---------- Limits and start ----------

  /** A queue of 100000 AHCAL events, or of 10000 others, is emptied when another event comes, which is not
      queued either; nothing else changes. */
  lemma OverflowEmpties(cfg: TelConfig, c: TelCollector, a: TelArrival)
    requires Accepted(cfg, a)
    requires |QueueOf(c.tel, a.producer)| >= if a.producer.FromCal? then 100000 else 10000
    ensures var r := TelReceive(cfg, c, a);
      && QueueOf(r.tel, a.producer) == [] && r.started == c.started && r.tel.out == c.tel.out && r.tel.last == c.tel.last
      && (forall p: Producer :: !p.FromOther? && p != a.producer ==> QueueOf(r.tel, p) == QueueOf(c.tel, p))
  {
  }

  /** Below the limit it is queued. */
  lemma BelowLimitQueued(cfg: TelConfig, c: TelCollector, a: TelArrival)
    requires Accepted(cfg, a)
    requires |QueueOf(c.tel, a.producer)| < if a.producer.FromCal? then 100000 else 10000
    ensures TelReceive(cfg, c, a) == Proceed(Queued(c, a.producer, Shift(cfg, a)))
  {
  }

  /** Before the start nothing is taken from the queues. */
  predicate NotYet(c: TelCollector, tels: seq<TsEvent>, bifs: seq<TsEvent>, cals: seq<TsEvent>) {
    !c.started ==> c.tel.queue == tels && c.tel.merge.bif.queue == bifs && c.tel.merge.cal.queue == cals && c.tel.out == []
  }

  /** All three streams have begun, each with an event that marks the begin of the run. */
  predicate AllBegun(tels: seq<TsEvent>, bifs: seq<TsEvent>, cals: seq<TsEvent>) {
    tels != [] && bifs != [] && cals != [] && tels[0].bore && bifs[0].bore && cals[0].bore
  }

  lemma StartStep(cfg: TelConfig, c: TelCollector, a: TelArrival, tels: seq<TsEvent>, bifs: seq<TsEvent>, cals: seq<TsEvent>)
    requires Accepted(cfg, a) && !Overflows(c.tel, a.producer)
    requires NotYet(c, tels, bifs, cals) && (c.started <==> AllBegun(tels, bifs, cals))
    ensures var r := TelReceive(cfg, c, a);
      var t, b, s := Grown(cfg, a, FromTel, tels), Grown(cfg, a, FromBif, bifs), Grown(cfg, a, FromCal, cals);
      NotYet(r, t, b, s) && (r.started <==> AllBegun(t, b, s))
  {
  }

  /** The merge starts with the first arrival with which all three streams have begun so, and not before:
      then the clock is set, from the first BIF and AHCAL events. */
  lemma {:induction false} StartsExactly(cfg: TelConfig, arrivals: seq<TelArrival>)
    requires NeverOverflows(cfg, arrivals)
    ensures var c := TelReceiveAll(cfg, TEL_START, arrivals);
      var tels, bifs, cals := TelStream(cfg, arrivals, FromTel), TelStream(cfg, arrivals, FromBif), TelStream(cfg, arrivals, FromCal);
      NotYet(c, tels, bifs, cals) && (c.started <==> AllBegun(tels, bifs, cals))
  {
    if arrivals != [] {
      var before, a := arrivals[..|arrivals| - 1], arrivals[|arrivals| - 1];
      StartsExactly(cfg, before);
      StreamPrefix(cfg, arrivals, FromTel);
      StreamPrefix(cfg, arrivals, FromBif);
      StreamPrefix(cfg, arrivals, FromCal);
      if Accepted(cfg, a) {
        StartStep(cfg, TelReceiveAll(cfg, TEL_START, before), a, TelStream(cfg, before, FromTel), TelStream(cfg, before, FromBif),
                  TelStream(cfg, before, FromCal));
      }
    }
  }
}
