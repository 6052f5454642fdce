/**
 Sending of the BIF events, and the run as a whole: what leaves the producer while words come in
 by portions.
 */
module BifSending {
  import opened Sequences
  import opened BifProcessing
  import opened BifProperties

  /** An event as sent, with the marks for the begin and the end of the run. */
  datatype Sent = Sent(event: BifEvent, bore: bool, eore: bool)

  datatype Sender = Sender(queue: seq<BifEvent>, sent: seq<Sent>, boreSent: bool)

  /** `sendallevents` down to a minimum size of the queue. */
  function SendAll(s: Sender, minimum: nat): Sender
    decreases |s.queue|
  {
    if |s.queue| <= minimum then s
    else SendAll(Sender(s.queue[1..], s.sent + [Sent(s.queue[0], !s.boreSent, minimum == 0 && |s.queue| == 1)], true), minimum)
  }

  function Events(sent: seq<Sent>): (es: seq<BifEvent>)
    ensures |es| == |sent|
  {
    if sent == [] then [] else [sent[0].event] + Events(sent[1..])
  }

  lemma {:induction false} EventsConcat(a: seq<Sent>, b: seq<Sent>)
    ensures Events(a + b) == Events(a) + Events(b)
  {
    if a == [] {
      assert a + b == b;
    } else {
      assert (a + b)[1..] == a[1..] + b;
      EventsConcat(a[1..], b);
    }
  }

  /** The first event sent is the only one that begins the run; none has ended it. */
  predicate Running(s: Sender) {
    && (s.boreSent <==> s.sent != [])
    && (forall i :: 0 <= i < |s.sent| ==> (s.sent[i].bore <==> i == 0) && !s.sent[i].eore)
  }

  /** As `Running`, and the last event sent is the only one that ends the run. */
  predicate Ended(s: Sender) {
    && s.queue == []
    && (s.boreSent <==> s.sent != [])
    && (forall i :: 0 <= i < |s.sent| ==> (s.sent[i].bore <==> i == 0) && (s.sent[i].eore <==> i == |s.sent| - 1))
  }

  /** All events of the run so far: sent or waiting. */
  function Stream(s: Sender): seq<BifEvent> {
    Events(s.sent) + s.queue
  }

  lemma SendOne(s: Sender, x: Sent)
    requires s.queue != [] && x.event == s.queue[0]
    ensures Stream(Sender(s.queue[1..], s.sent + [x], true)) == Stream(s)
  {
    EventsConcat(s.sent, [x]);
    assert [x][1..] == [];
    assert [s.queue[0]] + s.queue[1..] == s.queue;
    assert Events(s.sent) + [s.queue[0]] + s.queue[1..] == Events(s.sent) + ([s.queue[0]] + s.queue[1..]);
  }

  /** While the run goes on, one event stays back, and nothing is lost, repeated or reordered. */
  lemma {:induction false} SendKeepsOne(s: Sender)
    requires Running(s)
    ensures var r := SendAll(s, 1);
      && Running(r) && Stream(r) == Stream(s)
      && |r.queue| == if s.queue == [] then 0 else 1
    decreases |s.queue|
  {
    if |s.queue| > 1 {
      SendOne(s, Sent(s.queue[0], !s.boreSent, false));
      SendKeepsOne(Sender(s.queue[1..], s.sent + [Sent(s.queue[0], !s.boreSent, false)], true));
    }
  }

  /** At the end all events leave. The end is marked if there is still one: if any was built. */
  lemma {:induction false} SendRest(s: Sender)
    requires Running(s) && (s.queue == [] ==> s.sent == [])
    ensures var r := SendAll(s, 0); Ended(r) && Events(r.sent) == Stream(s)
    decreases |s.queue|
  {
    if s.queue == [] {
      assert Events(s.sent) + s.queue == Events(s.sent);
    } else {
      var x := Sent(s.queue[0], !s.boreSent, |s.queue| == 1);
      var next := Sender(s.queue[1..], s.sent + [x], true);
      SendOne(s, x);
      if |s.queue| == 1 {
        assert SendAll(next, 0) == next;
        assert Events(next.sent) + next.queue == Events(next.sent);
      } else {
        SendRest(next);
      }
    }
  }

  // ---------- Building does not look at the queue ----------

  /** Events waiting in front of the queue. */
  function Behind(x: seq<BifEvent>, st: BifState): BifState {
    st.(events := x + st.events)
  }

  lemma BuildBehind(cfg: BifConfig, x: seq<BifEvent>, st: BifState)
    ensures Build(cfg, Behind(x, st)) == Behind(x, Build(cfg, st))
  {
    assert (x + st.events) + NewEvents(cfg, st) == x + (st.events + NewEvents(cfg, st));
    assert NewEvents(cfg, Behind(x, st)) == NewEvents(cfg, st);
  }

  lemma {:induction false} FillGapBehind(cfg: BifConfig, x: seq<BifEvent>, st: BifState, missing: nat)
    ensures FillGap(cfg, Behind(x, st), missing) == Behind(x, FillGap(cfg, st, missing))
    decreases missing
  {
    if missing > 0 {
      BuildBehind(cfg, x, st);
      var b := Build(cfg, st);
      FillGapBehind(cfg, x, b.(cyc := b.cyc.(number := b.cyc.number + 1)), missing - 1);
    }
  }

  lemma OnBehind(cfg: BifConfig, x: seq<BifEvent>, st: BifState, time: int, counter: int)
    ensures ShutterOn(cfg, Behind(x, st), time, counter) == Behind(x, ShutterOn(cfg, st, time, counter))
  {
    BuildBehind(cfg, x, st);
    var st0 := if BuildsUnstopped(st.cyc, counter) then Build(cfg, st) else st;
    var st1 := Open1(st0, time, counter);
    FillGapBehind(cfg, x, st1, Missing(st1.cyc, counter));
  }

  lemma OffBehind(cfg: BifConfig, x: seq<BifEvent>, st: BifState, time: int)
    ensures ShutterOff(cfg, Behind(x, st), time) == Behind(x, ShutterOff(cfg, st, time))
  {
    BuildBehind(cfg, x, Push(ShutterClosed(st, time), MakeRec(REC_STOP, st.cyc.number, 32 * time)));
  }

  lemma ApplyBehind(cfg: BifConfig, x: seq<BifEvent>, st: BifState, p: Packet)
    ensures Apply(cfg, Behind(x, st), p) == Behind(x, Apply(cfg, st, p))
  {
    if p.One? {
      OnBehind(cfg, x, st, TimeOf(p.w), InputsOf(p.w));
      OffBehind(cfg, x, st, TimeOf(p.w));
    }
  }

  lemma {:induction false} RunBehind(cfg: BifConfig, x: seq<BifEvent>, st: BifState, ps: seq<Packet>)
    ensures Run(cfg, Behind(x, st), ps) == Behind(x, Run(cfg, st, ps))
    decreases |ps|
  {
    if ps != [] {
      ApplyBehind(cfg, x, st, ps[0]);
      RunBehind(cfg, x, Apply(cfg, st, ps[0]), ps[1..]);
    }
  }

  // ---------- The run loop ----------

  /** The producer, with what it has sent; its queue is that of the state. */
  datatype Live = Live(p: Producer, sent: seq<Sent>, boreSent: bool)

  function SenderOf(l: Live): Sender {
    Sender(l.p.st.events, l.sent, l.boreSent)
  }

  function WithSender(p: Producer, s: Sender): Live {
    Live(p.(st := p.st.(events := s.queue)), s.sent, s.boreSent)
  }

  /** One pass of the run loop: process the new words, then send all events but one. */
  function Pass(cfg: BifConfig, l: Live, words: seq<Word>): Live {
    var p := Process(cfg, l.p, words);
    WithSender(p, SendAll(Sender(p.st.events, l.sent, l.boreSent), 1))
  }

  function Passes(cfg: BifConfig, l: Live, parts: seq<seq<Word>>): Live
    decreases |parts|
  {
    if parts == [] then l else Passes(cfg, Pass(cfg, l, parts[0]), parts[1..])
  }

  /** The run loop until it leaves. */
  function LiveRun(cfg: BifConfig, parts: seq<seq<Word>>): Live {
    var l := Passes(cfg, Live(FRESH, [], false), parts);
    WithSender(l.p, SendAll(SenderOf(l), 0))
  }

  /** A producer whose events never left is the live one, with the sent events in front. */
  predicate Follows(l: Live, p: Producer) {
    && Running(SenderOf(l))
    && (l.p.st.events == [] ==> l.sent == [])
    && p == l.p.(st := Behind(Events(l.sent), l.p.st))
  }

  lemma ProcessBehind(cfg: BifConfig, x: seq<BifEvent>, p: Producer, words: seq<Word>)
    ensures Process(cfg, p.(st := Behind(x, p.st)), words) == var r := Process(cfg, p, words); r.(st := Behind(x, r.st))
  {
    RunBehind(cfg, x, p.st, CutWords(p.left + words).packets);
  }

  lemma SendFollows(p: Producer, sent: seq<Sent>, boreSent: bool)
    requires var s := Sender(p.st.events, sent, boreSent); Running(s) && (s.queue == [] ==> s.sent == [])
    ensures Follows(WithSender(p, SendAll(Sender(p.st.events, sent, boreSent), 1)), p.(st := Behind(Events(sent), p.st)))
  {
    var s := Sender(p.st.events, sent, boreSent);
    SendKeepsOne(s);
    var r := SendAll(s, 1);
    if r.queue == [] {
      assert SendAll(s, 1) == s;
    }
    assert Events(r.sent) + r.queue == Events(sent) + p.st.events;
  }

  lemma PassFollows(cfg: BifConfig, l: Live, p: Producer, words: seq<Word>)
    requires Follows(l, p)
    ensures Follows(Pass(cfg, l, words), Process(cfg, p, words))
  {
    var r := Process(cfg, l.p, words);
    ProcessBehind(cfg, Events(l.sent), l.p, words);
    EventsGrow(cfg, l.p.st, CutWords(l.p.left + words).packets);
    SendFollows(r, l.sent, l.boreSent);
  }

  /** Processing only adds to the queue. */
  lemma EventsGrow(cfg: BifConfig, st: BifState, ps: seq<Packet>)
    ensures st.events != [] ==> Run(cfg, st, ps).events != []
  {
    var bare := st.(events := []);
    assert st.events + [] == st.events;
    assert Behind(st.events, bare) == st;
    RunBehind(cfg, st.events, bare, ps);
  }

  lemma {:induction false} PassesFollow(cfg: BifConfig, l: Live, p: Producer, parts: seq<seq<Word>>)
    requires Follows(l, p)
    ensures Follows(Passes(cfg, l, parts), ProcessAll(cfg, p, parts))
    decreases |parts|
  {
    if parts != [] {
      PassFollows(cfg, l, p, parts[0]);
      PassesFollow(cfg, Pass(cfg, l, parts[0]), Process(cfg, p, parts[0]), parts[1..]);
    }
  }

  /** A whole run. However its words are portioned, the events that leave are those built from the
      words at once, in build order, each once; the begin of the run is marked on the first of them
      only, and its end on the last only. */
  lemma WholeRun(cfg: BifConfig, parts: seq<seq<Word>>)
    ensures var l := LiveRun(cfg, parts);
      && Ended(SenderOf(l))
      && Events(l.sent) == Process(cfg, FRESH, Concat(parts)).st.events
  {
    var l0 := Live(FRESH, [], false);
    assert [] + FRESH.st.events == FRESH.st.events;
    PassesFollow(cfg, l0, FRESH, parts);
    if parts == [] {
      assert [] + Concat(parts) == [];
    } else {
      PortionsIrrelevant(cfg, FRESH, parts);
    }
    SendRest(SenderOf(Passes(cfg, l0, parts)));
  }
}
