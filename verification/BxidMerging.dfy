/**
 The merge of `CaliceAhcalBifBxidDataCollector.cc`: events of four detectors are put together when
 they agree in readout cycle and bunch crossing. This module is the merge on values and what it
 guarantees for any input.
 */
module BxidMerging {

  const TWO_32: int := 0x1_0000_0000

  /** Tag value of an event without the tag. */
  const INVALID: int := 0x7FFF_FFFF

  type Tag = t: int | -0x8000_0000 <= t <= 0x7FFF_FFFF

  datatype Ev = Ev(id: int, fake: bool, roc: Tag, bxid: Tag)

  datatype Key = Key(roc: Tag, bxid: Tag)

  function KeyOf(e: Ev): Key {
    Key(e.roc, e.bxid)
  }

  predicate Less(a: Key, b: Key) {
    a.roc < b.roc || (a.roc == b.roc && a.bxid < b.bxid)
  }

  const AHCAL: nat := 0
  const BIF: nat := 1
  const HODOSCOPE1: nat := 2
  const HODOSCOPE2: nat := 3
  const TABLE: nat := 4

  /** One queue for each detector. */
  type Queues = q: seq<seq<Ev>> | |q| == 4 witness [[], [], [], []]

  type Flags = f: seq<bool> | |f| == 4 witness [false, false, false, false]

  function Each(ahcal: seq<Ev>, bif: seq<Ev>, hodoscope1: seq<Ev>, hodoscope2: seq<Ev>): Queues {
    [ahcal, bif, hodoscope1, hodoscope2]
  }

  function FlagsOf(ahcal: bool, bif: bool, hodoscope1: bool, hodoscope2: bool): Flags {
    [ahcal, bif, hodoscope1, hodoscope2]
  }

  datatype Setup = Setup(active: Flags, mandatory: Flags)

  /** A merged event; its sub-events are added in the order of the fields. */
  datatype Sync = Sync(number: int, bif: seq<Ev>, hodoscope1: seq<Ev>, hodoscope2: seq<Ev>, table: seq<Ev>, ahcal: seq<Ev>)

  /** The collector, with all that left it: written, thrown away as incomplete, and discarded for
      its tags. */
  datatype Coll = Coll(queues: Queues, table: seq<Ev>, written: seq<Sync>, dropped: seq<Sync>, discarded: seq<Ev>)

  const EMPTY := Coll([[], [], [], []], [], [], [], [])

  // ---------- One pass of the loop ----------

  /** Events without tags, and BIF events long before the first crossing. */
  predicate Bad(d: nat, e: Ev) {
    e.roc == INVALID || e.bxid == INVALID || (d == BIF && e.bxid < -100)
  }

  datatype Decision = Halt | Discard(d: nat) | Join

  /** The queues are looked at one after the other. */
  function Decide(active: Flags, q: Queues, d: nat): (r: Decision)
    requires d <= |q|
    ensures r.Discard? ==> r.d < 4 && q[r.d] != [] && Bad(r.d, q[r.d][0])
    decreases |q| - d
  {
    if d == |q| then Join
    else if q[d] == [] then (if active[d] then Halt else Decide(active, q, d + 1))
    else if Bad(d, q[d][0]) then Discard(d)
    else Decide(active, q, d + 1)
  }

  function RocOf(s: seq<Ev>): Tag {
    if s == [] then INVALID else s[0].roc
  }

  function BxidOf(s: seq<Ev>): Tag {
    if s == [] then INVALID else s[0].bxid
  }

  function Least(a: Tag, b: Tag): (m: Tag)
    ensures m <= a && m <= b && (m == a || m == b)
  {
    if b < a then b else a
  }

  function MinRoc(q: Queues): Tag {
    Least(Least(Least(RocOf(q[0]), RocOf(q[1])), RocOf(q[2])), RocOf(q[3]))
  }

  function BxidAt(s: seq<Ev>, roc: Tag): Tag {
    if RocOf(s) == roc then BxidOf(s) else INVALID
  }

  function MinBxid(q: Queues, roc: Tag): Tag {
    Least(Least(Least(BxidAt(q[0], roc), BxidAt(q[1], roc)), BxidAt(q[2], roc)), BxidAt(q[3], roc))
  }

  function MinKey(q: Queues): Key {
    Key(MinRoc(q), MinBxid(q, MinRoc(q)))
  }

  /** Whether the front event has a key. */
  predicate At(s: seq<Ev>, k: Key) {
    s != [] && KeyOf(s[0]) == k
  }

  function Part(s: seq<Ev>, k: Key): seq<Ev> {
    if At(s, k) then [s[0]] else []
  }

  function Rest(s: seq<Ev>, k: Key): seq<Ev> {
    if At(s, k) then s[1..] else s
  }

  function Front(s: seq<Ev>): seq<Ev> {
    if s == [] then [] else [s[0]]
  }

  function Behind(s: seq<Ev>): seq<Ev> {
    if s == [] then [] else s[1..]
  }

  function PopKey(q: Queues, k: Key): Queues {
    Each(Rest(q[0], k), Rest(q[1], k), Rest(q[2], k), Rest(q[3], k))
  }

  function Merged(c: Coll, k: Key): Sync {
    Sync(|c.written| % TWO_32, Part(c.queues[BIF], k), Part(c.queues[HODOSCOPE1], k), Part(c.queues[HODOSCOPE2], k),
         Front(c.table), Part(c.queues[AHCAL], k))
  }

  /** No active, mandatory detector is missing. */
  predicate Complete(s: Setup, q: Queues, k: Key) {
    forall d :: 0 <= d < 4 && s.mandatory[d] && s.active[d] ==> At(q[d], k)
  }

  function JoinFronts(s: Setup, c: Coll): Coll {
    JoinAt(s, c, MinKey(c.queues))
  }

  /** Merges the front events with a key. */
  function JoinAt(s: Setup, c: Coll, k: Key): Coll {
    Keep(c.(queues := PopKey(c.queues, k), table := Behind(c.table)), Merged(c, k), Complete(s, c.queues, k))
  }

  /** Writes a merged event if it is complete, else throws it away. */
  function Keep(c: Coll, m: Sync, complete: bool): Coll {
    if complete then c.(written := c.written + [m]) else c.(dropped := c.dropped + [m])
  }

  function DiscardFront(c: Coll, d: nat): Coll
    requires d < 4 && c.queues[d] != []
  {
    c.(queues := c.queues[d := c.queues[d][1..]], discarded := c.discarded + [c.queues[d][0]])
  }

  function Pass(s: Setup, c: Coll): Coll
    requires !Decide(s.active, c.queues, 0).Halt?
  {
    var r := Decide(s.active, c.queues, 0);
    if r.Discard? then DiscardFront(c, r.d) else JoinFronts(s, c)
  }

  // ---------- Termination ----------

  function Total(q: Queues): nat {
    |q[0]| + |q[1]| + |q[2]| + |q[3]|
  }

  predicate SomeActive(active: Flags) {
    active[0] || active[1] || active[2] || active[3]
  }

  /** At a join every front event is well tagged and every active detector has one. */
  lemma {:induction false} JoinMeans(active: Flags, q: Queues, d: nat)
    requires d <= |q|
    ensures Decide(active, q, d).Join? <==> forall i :: d <= i < |q| ==> if q[i] == [] then !active[i] else !Bad(i, q[i][0])
    decreases |q| - d
  {
    if d < |q| {
      JoinMeans(active, q, d + 1);
    }
  }

  predicate FrontsGood(q: Queues) {
    forall d :: 0 <= d < 4 && q[d] != [] ==> q[d][0].roc != INVALID && q[d][0].bxid != INVALID
  }

  /** The key joined is the least one among the front events. */
  lemma MinKeyMeaning(q: Queues)
    requires FrontsGood(q)
    ensures forall d :: 0 <= d < 4 && q[d] != [] ==> !Less(KeyOf(q[d][0]), MinKey(q))
    ensures Total(q) > 0 ==> exists d :: 0 <= d < 4 && At(q[d], MinKey(q))
  {
    var r := MinRoc(q);
    var b := MinBxid(q, r);
    if Total(q) > 0 {
      assert q[0] != [] || q[1] != [] || q[2] != [] || q[3] != [];
      assert r < INVALID;
      assert b < INVALID;
      var d :| 0 <= d < 4 && BxidAt(q[d], r) == b;
      assert At(q[d], MinKey(q));
    }
  }

  lemma PopKeyTotal(q: Queues, k: Key)
    ensures Total(PopKey(q, k)) <= Total(q)
    ensures (exists d :: 0 <= d < 4 && At(q[d], k)) ==> Total(PopKey(q, k)) < Total(q)
  {
  }

  /** Every pass takes an event from a queue if some detector is active. */
  lemma PassTakes(s: Setup, c: Coll)
    requires SomeActive(s.active) && !Decide(s.active, c.queues, 0).Halt?
    ensures Total(Pass(s, c).queues) < Total(c.queues)
  {
    if Decide(s.active, c.queues, 0).Join? {
      JoinMeans(s.active, c.queues, 0);
      assert FrontsGood(c.queues);
      MinKeyMeaning(c.queues);
      PopKeyTotal(c.queues, MinKey(c.queues));
    }
  }

  /** The loop. */
  function Build(s: Setup, c: Coll): Coll
    requires SomeActive(s.active)
    decreases Total(c.queues)
  {
    if Decide(s.active, c.queues, 0).Halt? then c
    else
      PassTakes(s, c);
      Build(s, Pass(s, c))
  }

  /** Without an active detector no pass ends the loop, whatever the state; it never returns. */
  lemma {:induction false} NeverHalts(active: Flags, q: Queues, d: nat)
    requires d <= |q| && !SomeActive(active)
    ensures !Decide(active, q, d).Halt?
    decreases |q| - d
  {
    if d < |q| {
      assert !active[d];
      NeverHalts(active, q, d + 1);
    }
  }

  // ---------- Receiving ----------

  datatype Result = Returns(c: Coll) | NeverReturns

  function Enqueue(c: Coll, source: nat, e: Ev): Coll
    requires source <= TABLE
  {
    if source == TABLE then c.(table := c.table + [e]) else c.(queues := c.queues[source := c.queues[source] + [e]])
  }

  /** Some active detector has nothing queued. */
  predicate Waits(active: Flags, q: Queues) {
    exists d :: 0 <= d < 4 && active[d] && q[d] == []
  }

  function Receive(s: Setup, c: Coll, source: nat, e: Ev): Result {
    if e.fake || source > TABLE then Returns(c)
    else
      var c' := Enqueue(c, source, e);
      if Waits(s.active, c'.queues) then Returns(c')
      else if !SomeActive(s.active) then NeverReturns
      else Returns(Build(s, c'))
  }

  /** What can happen to the collector. */
  datatype Action = Connect(d: nat) | Disconnect(d: nat) | Arrive(source: nat, e: Ev)

  datatype World = World(setup: Setup, result: Result)

  function Act(w: World, a: Action): World {
    if w.result.NeverReturns? then w
    else
      match a
      case Connect(d) => if d < 4 then w.(setup := w.setup.(active := w.setup.active[d := true])) else w
      case Disconnect(d) => if d < 4 then w.(setup := w.setup.(active := w.setup.active[d := false])) else w
      case Arrive(source, e) => w.(result := Receive(w.setup, w.result.c, source, e))
  }

  function ActAll(w: World, actions: seq<Action>): World {
    if actions == [] then w else Act(ActAll(w, actions[..|actions| - 1]), actions[|actions| - 1])
  }

  // ---------- Conservation ----------

  function Copies(s: seq<Ev>, e: Ev): nat {
    multiset(s)[e]
  }

  function InSync(m: Sync, e: Ev): nat {
    Copies(m.bif, e) + Copies(m.hodoscope1, e) + Copies(m.hodoscope2, e) + Copies(m.table, e) + Copies(m.ahcal, e)
  }

  function InSyncs(ms: seq<Sync>, e: Ev): nat {
    if ms == [] then 0 else InSyncs(ms[..|ms| - 1], e) + InSync(ms[|ms| - 1], e)
  }

  function InQueues(q: Queues, e: Ev): nat {
    Copies(q[0], e) + Copies(q[1], e) + Copies(q[2], e) + Copies(q[3], e)
  }

  /** Copies of an event that the collector knows of, wherever they are. */
  function Account(c: Coll, e: Ev): nat {
    InQueues(c.queues, e) + Copies(c.table, e) + InSyncs(c.written, e) + InSyncs(c.dropped, e) + Copies(c.discarded, e)
  }

  lemma CopiesConcat(a: seq<Ev>, b: seq<Ev>, e: Ev)
    ensures Copies(a + b, e) == Copies(a, e) + Copies(b, e)
  {
  }

  lemma PartRest(s: seq<Ev>, k: Key, e: Ev)
    ensures Copies(Part(s, k), e) + Copies(Rest(s, k), e) == Copies(s, e)
  {
    if At(s, k) {
      assert s == [s[0]] + s[1..];
      CopiesConcat([s[0]], s[1..], e);
    }
  }

  lemma FrontBehind(s: seq<Ev>, e: Ev)
    ensures Copies(Front(s), e) + Copies(Behind(s), e) == Copies(s, e)
  {
    if s != [] {
      assert s == [s[0]] + s[1..];
      CopiesConcat([s[0]], s[1..], e);
    }
  }

  lemma InSyncsAdd(ms: seq<Sync>, m: Sync, e: Ev)
    ensures InSyncs(ms + [m], e) == InSyncs(ms, e) + InSync(m, e)
  {
    assert (ms + [m])[..|ms|] == ms;
  }

  lemma MergedKeeps(c: Coll, k: Key, e: Ev)
    ensures InSync(Merged(c, k), e) + InQueues(PopKey(c.queues, k), e) + Copies(Behind(c.table), e)
         == InQueues(c.queues, e) + Copies(c.table, e)
  {
    PartRest(c.queues[0], k, e);
    PartRest(c.queues[1], k, e);
    PartRest(c.queues[2], k, e);
    PartRest(c.queues[3], k, e);
    FrontBehind(c.table, e);
  }

  lemma JoinKeeps(s: Setup, c: Coll, e: Ev)
    ensures Account(JoinFronts(s, c), e) == Account(c, e)
  {
    var k := MinKey(c.queues);
    MergedKeeps(c, k, e);
    InSyncsAdd(c.written, Merged(c, k), e);
    InSyncsAdd(c.dropped, Merged(c, k), e);
  }

  lemma DiscardKeeps(c: Coll, d: nat, e: Ev)
    requires d < 4 && c.queues[d] != []
    ensures Account(DiscardFront(c, d), e) == Account(c, e)
  {
    var s := c.queues[d];
    FrontBehind(s, e);
    CopiesConcat(c.discarded, [s[0]], e);
  }

  /** Numbers count the written events; the keys inside one merged event agree. */
  ghost predicate Sound(c: Coll) {
    && (forall i :: 0 <= i < |c.written| ==> c.written[i].number == i % TWO_32)
    && (forall m :: m in c.written ==> OneKey(m))
    && (forall m :: m in c.dropped ==> OneKey(m))
  }

  /** At most one event of each source, all detectors' events with the same key. */
  ghost predicate OneKey(m: Sync) {
    && |m.bif| <= 1 && |m.hodoscope1| <= 1 && |m.hodoscope2| <= 1 && |m.table| <= 1 && |m.ahcal| <= 1
    && exists k :: OfKey(m, k)
  }

  predicate OfKey(m: Sync, k: Key) {
    forall e :: e in m.bif + m.hodoscope1 + m.hodoscope2 + m.ahcal ==> KeyOf(e) == k
  }

  lemma MergedOneKey(c: Coll, k: Key)
    ensures OneKey(Merged(c, k))
  {
    assert OfKey(Merged(c, k), k);
  }

  lemma JoinSound(s: Setup, c: Coll)
    requires Sound(c)
    ensures Sound(JoinFronts(s, c))
  {
    var m := Merged(c, MinKey(c.queues));
    MergedOneKey(c, MinKey(c.queues));
    assert m.number == |c.written| % TWO_32;
    SoundAdd(c.written, m);
    SoundAdd(c.dropped, m);
  }

  lemma SoundAdd(ms: seq<Sync>, m: Sync)
    requires OneKey(m) && forall x :: x in ms ==> OneKey(x)
    ensures forall x :: x in ms + [m] ==> OneKey(x)
  {
  }

  lemma {:induction false} BuildKeeps(s: Setup, c: Coll, e: Ev)
    requires SomeActive(s.active)
    ensures Account(Build(s, c), e) == Account(c, e)
    decreases Total(c.queues)
  {
    var r := Decide(s.active, c.queues, 0);
    if !r.Halt? {
      PassTakes(s, c);
      if r.Discard? {
        DiscardKeeps(c, r.d, e);
      } else {
        JoinKeeps(s, c, e);
      }
      BuildKeeps(s, Pass(s, c), e);
    }
  }

  lemma {:induction false} BuildSound(s: Setup, c: Coll)
    requires SomeActive(s.active) && Sound(c)
    ensures Sound(Build(s, c))
    decreases Total(c.queues)
  {
    var r := Decide(s.active, c.queues, 0);
    if !r.Halt? {
      PassTakes(s, c);
      JoinSound(s, c);
      BuildSound(s, Pass(s, c));
    }
  }

  /** The loop ends with an active detector's queue empty. */
  lemma {:induction false} BuildWaits(s: Setup, c: Coll)
    requires SomeActive(s.active)
    ensures Waits(s.active, Build(s, c).queues)
    decreases Total(c.queues)
  {
    if Decide(s.active, c.queues, 0).Halt? {
      HaltMeans(s.active, c.queues, 0);
    } else {
      PassTakes(s, c);
      BuildWaits(s, Pass(s, c));
    }
  }

  lemma {:induction false} HaltMeans(active: Flags, q: Queues, d: nat)
    requires d <= |q| && Decide(active, q, d).Halt?
    ensures Waits(active, q)
    decreases |q| - d
  {
    if q[d] != [] || !active[d] {
      HaltMeans(active, q, d + 1);
    }
  }

  /** Copies of an event among those accepted in a run. */
  function Received(actions: seq<Action>, e: Ev): nat {
    if actions == [] then 0
    else Received(actions[..|actions| - 1], e) + (if Brings(actions[|actions| - 1], e) then 1 else 0)
  }

  predicate Brings(a: Action, e: Ev) {
    a.Arrive? && a.e == e && !e.fake && a.source <= TABLE
  }

  lemma EnqueueAccount(c: Coll, source: nat, x: Ev, e: Ev)
    requires source <= TABLE
    ensures Account(Enqueue(c, source, x), e) == Account(c, e) + (if x == e then 1 else 0)
  {
    if source == TABLE {
      CopiesConcat(c.table, [x], e);
    } else {
      CopiesConcat(c.queues[source], [x], e);
    }
  }

  lemma ReceiveAccount(s: Setup, c: Coll, source: nat, x: Ev, e: Ev)
    ensures var r := Receive(s, c, source, x);
      r.Returns? ==> Account(r.c, e) == Account(c, e) + (if Brings(Arrive(source, x), e) then 1 else 0)
  {
    if !x.fake && source <= TABLE {
      EnqueueAccount(c, source, x, e);
      if SomeActive(s.active) {
        BuildKeeps(s, Enqueue(c, source, x), e);
      }
    }
  }

  lemma ReceiveSound(s: Setup, c: Coll, source: nat, x: Ev)
    requires Sound(c)
    ensures var r := Receive(s, c, source, x); r.Returns? ==> Sound(r.c)
  {
    if !x.fake && source <= TABLE && SomeActive(s.active) {
      BuildSound(s, Enqueue(c, source, x));
    }
  }

  lemma {:induction false} RunSound(setup: Setup, actions: seq<Action>)
    ensures var r := ActAll(World(setup, Returns(EMPTY)), actions).result; r.Returns? ==> Sound(r.c)
  {
    if actions != [] {
      var before, a := actions[..|actions| - 1], actions[|actions| - 1];
      RunSound(setup, before);
      var w := ActAll(World(setup, Returns(EMPTY)), before);
      if w.result.Returns? && a.Arrive? {
        ReceiveSound(w.setup, w.result.c, a.source, a.e);
      }
    }
  }

  lemma {:induction false} RunAccounts(setup: Setup, actions: seq<Action>, e: Ev)
    ensures var r := ActAll(World(setup, Returns(EMPTY)), actions).result;
      r.Returns? ==> Account(r.c, e) == Received(actions, e)
  {
    if actions != [] {
      var before, a := actions[..|actions| - 1], actions[|actions| - 1];
      RunAccounts(setup, before, e);
      var w := ActAll(World(setup, Returns(EMPTY)), before);
      if w.result.Returns? && a.Arrive? {
        ReceiveAccount(w.setup, w.result.c, a.source, a.e, e);
      }
    }
  }

  /** Any run, with producers that come and go and with any tags in any order: every accepted event
      is in exactly one place: queued, in one written event, in one thrown away, or discarded; the
      numbers written are 0, 1, 2, ...; each merged event has one key. */
  lemma RunConserves(setup: Setup, actions: seq<Action>)
    ensures var r := ActAll(World(setup, Returns(EMPTY)), actions).result;
      r.Returns? ==> Sound(r.c) && forall e :: Account(r.c, e) == Received(actions, e)
  {
    RunSound(setup, actions);
    forall e ensures var r := ActAll(World(setup, Returns(EMPTY)), actions).result;
      r.Returns? ==> Account(r.c, e) == Received(actions, e)
    {
      RunAccounts(setup, actions, e);
    }
  }
}
