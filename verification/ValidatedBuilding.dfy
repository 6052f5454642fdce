/**
 Event building of `ScReader` in the BUILD_BXID_VALIDATED mode, without dummies and with
 MinimumEventHits = 0: every trigger is matched with the ASIC data of its bunch crossing.
 */
module ValidatedBuilding {
  import opened Sequences
  import opened OrderedMap
  import opened AsicPacket
  import opened LdaTimestamps
  import opened EventBuilding
  import opened CppDivision

  const MAX_TRIGGER_BXID := 65535

  /** Bunch crossing of a trigger, from its time after the start of the acquisition; the quotient is
      narrowed to an `int`. */
  function TriggerBxid(cfg: BuildConfig, start: int, time: int): int
    requires cfg.bxidWidth != 0
  {
    ToInt32(TruncDiv(time - start - cfg.bxid0Offset, cfg.bxidWidth))
  }

  /** The crossing is that of the trigger's time if and only if it fits 31 bits; a trigger further off
      gets another one, maybe one in range. */
  lemma TriggerBxidExact(cfg: BuildConfig, start: int, time: int, b: int)
    requires cfg.bxidWidth > 0 && InCrossing(time - start - cfg.bxid0Offset, b, cfg.bxidWidth)
    ensures TriggerBxid(cfg, start, time) == b <==> -0x8000_0000 <= b < 0x8000_0000
    ensures (TriggerBxid(cfg, start, time) - b) % U32_SIZE == 0
  {
    TruncDivIs(time - start - cfg.bxid0Offset, cfg.bxidWidth, b);
  }

  // ---------- The tables of one readout cycle ----------

  predicate ByBxid(ts: seq<Trig>) {
    forall i, j :: 0 <= i < j < |ts| ==> ts[i].bxid <= ts[j].bxid
  }

  /** `multimap.insert`: behind all triggers of the same crossing. */
  function Insert(ts: seq<Trig>, t: Trig): seq<Trig> {
    if ts == [] || t.bxid < ts[0].bxid then [t] + ts else [ts[0]] + Insert(ts[1..], t)
  }

  lemma {:induction false} InsertSorted(ts: seq<Trig>, t: Trig)
    requires ByBxid(ts)
    ensures var r := Insert(ts, t); ByBxid(r) && r != [] && (r[0] == t || (ts != [] && r[0] == ts[0]))
  {
    if ts != [] && t.bxid >= ts[0].bxid {
      InsertSorted(ts[1..], t);
      FrontSorted(ts[0], Insert(ts[1..], t));
    }
  }

  lemma FrontSorted(t: Trig, r: seq<Trig>)
    requires ByBxid(r) && r != [] && t.bxid <= r[0].bxid
    ensures ByBxid([t] + r)
  {
  }

  lemma {:induction false} InsertContents(ts: seq<Trig>, t: Trig)
    ensures multiset(Insert(ts, t)) == multiset(ts) + multiset{t}
  {
    if ts != [] && t.bxid >= ts[0].bxid {
      InsertContents(ts[1..], t);
      assert ts == [ts[0]] + ts[1..];
    }
  }

  lemma InsertMeaning(ts: seq<Trig>, t: Trig)
    requires ByBxid(ts)
    ensures ByBxid(Insert(ts, t))
    ensures multiset(Insert(ts, t)) == multiset(ts) + multiset{t}
  {
    InsertSorted(ts, t);
    InsertContents(ts, t);
  }

  /** Triggers of a cycle in arrival order; those with a crossing above 65535 are ignored, and
      without a start time there are none. */
  function Arrived(cfg: BuildConfig, t: TimeData, i: nat): seq<Trig>
    requires cfg.bxidWidth != 0 && |t.ids| == |t.times| && i <= |t.ids|
    decreases |t.ids| - i
  {
    if i == |t.ids| || t.start == 0 then []
    else
      var b := TriggerBxid(cfg, t.start, t.times[i]);
      (if b > MAX_TRIGGER_BXID then [] else [Trig(b, t.ids[i], t.times[i])]) + Arrived(cfg, t, i + 1)
  }

  function InsertAll(sorted: seq<Trig>, ts: seq<Trig>): seq<Trig>
    decreases |ts|
  {
    if ts == [] then sorted else InsertAll(Insert(sorted, ts[0]), ts[1..])
  }

  lemma {:induction false} InsertAllMeaning(sorted: seq<Trig>, ts: seq<Trig>)
    requires ByBxid(sorted)
    ensures ByBxid(InsertAll(sorted, ts))
    ensures multiset(InsertAll(sorted, ts)) == multiset(sorted) + multiset(ts)
    decreases |ts|
  {
    if ts != [] {
      InsertMeaning(sorted, ts[0]);
      InsertAllMeaning(Insert(sorted, ts[0]), ts[1..]);
      assert ts == [ts[0]] + ts[1..];
    }
  }

  /** ASIC blocks as items filed by bunch crossing. */
  function ByCrossing(data: seq<Block>): (r: seq<Item>)
    ensures |r| == |data|
  {
    if data == [] then [] else [Entry(data[0].bxid, [data[0]])] + ByCrossing(data[1..])
  }

  /** Blocks of one crossing, in arrival order. */
  function OfCrossing(data: seq<Block>, bxid: int): seq<Block> {
    if data == [] then []
    else (if data[0].bxid == bxid then [data[0]] else []) + OfCrossing(data[1..], bxid)
  }

  lemma {:induction false} CrossingTable(data: seq<Block>, bxid: int)
    ensures Filed(ByCrossing(data), bxid) == OfCrossing(data, bxid)
    ensures Has(ByCrossing(data), bxid) <==> OfCrossing(data, bxid) != []
  {
    if data != [] {
      CrossingTable(data[1..], bxid);
      HasTail(ByCrossing(data));
      assert ByCrossing(data)[1..] == ByCrossing(data[1..]);
    }
  }

  // ---------- Matching ----------

  /** What becomes of the triggers. */
  datatype Fate =
    | Joined(triggers: seq<Trig>, blocks: seq<Block>)
    | Empty(trigger: Trig)
    | Skipped(trigger: Trig)

  /** Crossings up to the one in which the first memory cell 16 was filled are complete. */
  predicate Complete(full: Option<int>, bxid: int) {
    full.Some? ==> bxid <= full.value
  }

  /** Number of triggers at the front with the crossing of the first. */
  function RunLength(ts: seq<Trig>): (n: nat)
    requires ts != []
    ensures 1 <= n <= |ts|
    ensures forall i :: 0 <= i < n ==> ts[i].bxid == ts[0].bxid
    ensures n < |ts| ==> ts[n].bxid != ts[0].bxid
  {
    if |ts| > 1 && ts[1].bxid == ts[0].bxid then
      var n := RunLength(ts[1..]);
      assert forall i :: 1 <= i < n + 1 ==> ts[i] == ts[1..][i - 1];
      1 + n
    else 1
  }

  /** The matching, looked up trigger run by trigger run: all triggers of a complete crossing
      with data share one data event; an incomplete crossing costs its first trigger; every other
      trigger gives an empty event. */
  function Matches(groups: seq<Item>, full: Option<int>, ts: seq<Trig>): seq<Fate>
    decreases |ts|
  {
    if ts == [] then []
    else
      var b := ts[0].bxid;
      if !Has(groups, b) then [Empty(ts[0])] + Matches(groups, full, ts[1..])
      else if Complete(full, b) then
        var n := RunLength(ts);
        [Joined(ts[..n], Get(groups, b, []))] + Matches(groups, full, ts[n..])
      else [Skipped(ts[0])] + Matches(Erase(groups, b), full, ts[1..])
  }

  /** Groups in front of all remaining triggers do not matter. */
  lemma {:induction false} DropFront(front: seq<Item>, groups: seq<Item>, full: Option<int>, ts: seq<Trig>)
    requires Ordered(front + groups) && ByBxid(ts)
    requires ts != [] ==> Below(front, ts[0].bxid)
    ensures Matches(front + groups, full, ts) == Matches(groups, full, ts)
    decreases |ts|
  {
    if ts != [] {
      var b := ts[0].bxid;
      HasBehind(front, groups, b);
      BehindFront(front, groups, b, [], []);
      assert ByBxid(ts[1..]);
      if !Has(groups, b) {
        DropFront(front, groups, full, ts[1..]);
      } else if Complete(full, b) {
        var n := RunLength(ts);
        assert n < |ts| ==> ts[n..][0] == ts[n];
        assert ByBxid(ts[n..]);
        DropFront(front, groups, full, ts[n..]);
      } else {
        EraseBehind(front, groups, b);
        EraseMeaning(front + groups, b);
        DropFront(front, Erase(groups, b), full, ts[1..]);
      }
    }
  }

  lemma HasBehind<T>(front: seq<Entry<T>>, m: seq<Entry<T>>, k: int)
    requires Below(front, k)
    ensures Has(front + m, k) <==> Has(m, k)
  {
    if Has(front + m, k) {
      var i :| 0 <= i < |front + m| && (front + m)[i].key == k;
      assert m[i - |front|].key == k;
    }
    if Has(m, k) {
      var i :| 0 <= i < |m| && m[i].key == k;
      assert (front + m)[|front| + i].key == k;
    }
  }

  lemma {:induction false} EraseBehind<T>(front: seq<Entry<T>>, m: seq<Entry<T>>, k: int)
    requires Below(front, k)
    ensures Erase(front + m, k) == front + Erase(m, k)
  {
    if front == [] {
      assert front + m == m && front + Erase(m, k) == Erase(m, k);
    } else {
      assert (front + m)[1..] == front[1..] + m;
      EraseBehind(front[1..], m, k);
      assert [front[0]] + (front[1..] + Erase(m, k)) == front + Erase(m, k);
    }
  }

  // ---------- What the matching guarantees ----------

  function TriggersOf(o: Fate): seq<Trig> {
    match o
    case Joined(ts, _) => ts
    case Empty(t) => [t]
    case Skipped(t) => [t]
  }

  function AllTriggers(os: seq<Fate>): seq<Trig> {
    if os == [] then [] else TriggersOf(os[0]) + AllTriggers(os[1..])
  }

  lemma FrontFate(o: Fate, os: seq<Fate>)
    ensures AllTriggers([o] + os) == TriggersOf(o) + AllTriggers(os)
  {
    assert ([o] + os)[1..] == os;
  }

  /** What becomes of the first trigger, and of those that share its fate. */
  function FirstFate(groups: seq<Item>, full: Option<int>, ts: seq<Trig>): Fate
    requires ts != []
  {
    var b := ts[0].bxid;
    if !Has(groups, b) then Empty(ts[0])
    else if Complete(full, b) then Joined(ts[..RunLength(ts)], Get(groups, b, []))
    else Skipped(ts[0])
  }

  lemma MatchesStep(groups: seq<Item>, full: Option<int>, ts: seq<Trig>)
    requires ts != []
    ensures var o := FirstFate(groups, full, ts); var n := |TriggersOf(o)|;
      && 0 < n <= |ts| && TriggersOf(o) == ts[..n]
      && Matches(groups, full, ts) == [o] + Matches(if o.Skipped? then Erase(groups, ts[0].bxid) else groups, full, ts[n..])
  {
  }

  /** Every trigger is accounted for exactly once, in order. */
  lemma {:induction false} TriggersAccounted(groups: seq<Item>, full: Option<int>, ts: seq<Trig>)
    ensures AllTriggers(Matches(groups, full, ts)) == ts
    decreases |ts|, 1
  {
    if ts != [] {
      MatchesStep(groups, full, ts);
      var o := FirstFate(groups, full, ts);
      AccountedBehind(groups, full, ts, o, if o.Skipped? then Erase(groups, ts[0].bxid) else groups, |TriggersOf(o)|);
    }
  }

  lemma {:induction false} AccountedBehind(groups: seq<Item>, full: Option<int>, ts: seq<Trig>, o: Fate, later: seq<Item>, n: nat)
    requires 0 < n <= |ts| && TriggersOf(o) == ts[..n] && Matches(groups, full, ts) == [o] + Matches(later, full, ts[n..])
    ensures AllTriggers(Matches(groups, full, ts)) == ts
    decreases |ts|, 0
  {
    TriggersAccounted(later, full, ts[n..]);
    FrontFate(o, Matches(later, full, ts[n..]));
    assert ts[..n] + ts[n..] == ts;
  }

  /** A data event holds all triggers of one complete crossing and all data filed under it; a
      skipped trigger belongs to an incomplete crossing with data. */
  ghost predicate Sound(groups: seq<Item>, full: Option<int>, o: Fate) {
    match o
    case Joined(ts, blocks) =>
      ts != [] && (forall i :: 0 <= i < |ts| ==> ts[i].bxid == ts[0].bxid)
      && Has(groups, ts[0].bxid) && Complete(full, ts[0].bxid) && blocks == Get(groups, ts[0].bxid, [])
    case Empty(t) => !Has(groups, t.bxid) || !Complete(full, t.bxid)
    case Skipped(t) => Has(groups, t.bxid) && !Complete(full, t.bxid)
  }

  lemma ErasedSound(groups: seq<Item>, full: Option<int>, b: int, o: Fate)
    requires !Complete(full, b) && Sound(Erase(groups, b), full, o)
    ensures Sound(groups, full, o)
  {
    EraseMeaning(groups, b);
    match o
    case Joined(ts, _) => GetErase(groups, b, ts[0].bxid, []);
    case Empty(t) =>
    case Skipped(t) =>
  }

  lemma {:induction false} MatchesSound(groups: seq<Item>, full: Option<int>, ts: seq<Trig>)
    ensures forall i :: 0 <= i < |Matches(groups, full, ts)| ==> Sound(groups, full, Matches(groups, full, ts)[i])
    decreases |ts|
  {
    if ts != [] {
      var b := ts[0].bxid;
      var os := Matches(groups, full, ts);
      if !Has(groups, b) {
        MatchesSound(groups, full, ts[1..]);
        assert os[1..] == Matches(groups, full, ts[1..]);
      } else if Complete(full, b) {
        var n := RunLength(ts);
        MatchesSound(groups, full, ts[n..]);
        assert os[1..] == Matches(groups, full, ts[n..]);
      } else {
        var rest := Matches(Erase(groups, b), full, ts[1..]);
        MatchesSound(Erase(groups, b), full, ts[1..]);
        assert os[1..] == rest;
        forall i | 0 <= i < |rest| ensures Sound(groups, full, rest[i]) {
          ErasedSound(groups, full, b, rest[i]);
        }
      }
      forall i | 0 <= i < |os| ensures Sound(groups, full, os[i]) {
        assert i > 0 ==> os[i] == os[1..][i - 1];
      }
    }
  }

  /** Crossings of the data events. */
  function DataBxids(os: seq<Fate>): seq<int> {
    if os == [] then []
    else (if os[0].Joined? && os[0].triggers != [] then [os[0].triggers[0].bxid] else []) + DataBxids(os[1..])
  }

  predicate StrictlyFrom(s: seq<int>, low: int) {
    (forall i :: 0 <= i < |s| ==> s[i] >= low) && forall i, j :: 0 <= i < j < |s| ==> s[i] < s[j]
  }

  lemma RiseFront(b: int, rest: seq<int>, low: int)
    requires low <= b && StrictlyFrom(rest, b + 1)
    ensures StrictlyFrom([b] + rest, low)
  {
  }

  lemma SortedFrom(ts: seq<Trig>, n: nat)
    requires ByBxid(ts) && n <= |ts|
    ensures ByBxid(ts[n..]) && (n < |ts| ==> ts[0].bxid <= ts[n..][0].bxid == ts[n].bxid)
  {
  }

  lemma FrontBxids(o: Fate, rest: seq<Fate>)
    ensures DataBxids([o] + rest) == (if o.Joined? && o.triggers != [] then [o.triggers[0].bxid] else []) + DataBxids(rest)
  {
    assert ([o] + rest)[1..] == rest;
  }

  /** No crossing has two data events, so no block lands in two events. */
  lemma {:induction false} DataBxidsRise(groups: seq<Item>, full: Option<int>, ts: seq<Trig>, low: int)
    requires ByBxid(ts) && (ts != [] ==> low <= ts[0].bxid)
    ensures StrictlyFrom(DataBxids(Matches(groups, full, ts)), low)
    decreases |ts|, 1
  {
    if ts != [] {
      MatchesStep(groups, full, ts);
      var o := FirstFate(groups, full, ts);
      var n := |TriggersOf(o)|;
      SortedFrom(ts, n);
      RiseBehind(o, if o.Skipped? then Erase(groups, ts[0].bxid) else groups, full, ts[n..], ts[0].bxid, low, |ts|);
    }
  }

  lemma {:induction false} RiseBehind(o: Fate, groups: seq<Item>, full: Option<int>, ts: seq<Trig>, b: int, low: int, n: nat)
    requires |ts| < n && ByBxid(ts) && low <= b && (ts != [] ==> b <= ts[0].bxid && (o.Joined? ==> b < ts[0].bxid))
    requires o.Joined? ==> o.triggers != [] && o.triggers[0].bxid == b
    ensures StrictlyFrom(DataBxids([o] + Matches(groups, full, ts)), low)
    decreases n, 0
  {
    var rest := Matches(groups, full, ts);
    FrontBxids(o, rest);
    if o.Joined? {
      DataBxidsRise(groups, full, ts, b + 1);
      RiseFront(b, DataBxids(rest), low);
    } else {
      DataBxidsRise(groups, full, ts, low);
      assert [] + DataBxids(rest) == DataBxids(rest);
    }
  }

  /** How many triggers of crossing `b` were skipped. */
  function SkippedAt(os: seq<Fate>, b: int): nat {
    if os == [] then 0
    else (if os[0].Skipped? && os[0].trigger.bxid == b then 1 else 0) + SkippedAt(os[1..], b)
  }

  function TriggersAt(ts: seq<Trig>, b: int): nat {
    if ts == [] then 0 else (if ts[0].bxid == b then 1 else 0) + TriggersAt(ts[1..], b)
  }

  lemma {:induction false} TriggersAtInsert(ts: seq<Trig>, t: Trig, b: int)
    ensures TriggersAt(Insert(ts, t), b) == TriggersAt(ts, b) + if t.bxid == b then 1 else 0
  {
    if ts == [] || t.bxid < ts[0].bxid {
      assert ([t] + ts)[1..] == ts;
    } else {
      TriggersAtInsert(ts[1..], t, b);
      assert Insert(ts, t)[1..] == Insert(ts[1..], t);
    }
  }

  lemma {:induction false} TriggersAtSorted(sorted: seq<Trig>, ts: seq<Trig>, b: int)
    ensures TriggersAt(InsertAll(sorted, ts), b) == TriggersAt(sorted, b) + TriggersAt(ts, b)
    decreases |ts|
  {
    if ts != [] {
      TriggersAtInsert(sorted, ts[0], b);
      TriggersAtSorted(Insert(sorted, ts[0]), ts[1..], b);
    }
  }

  lemma {:induction false} TriggersAtRun(ts: seq<Trig>, n: nat, b: int)
    requires n <= |ts| && forall i :: 0 <= i < n ==> ts[i].bxid != b
    ensures TriggersAt(ts, b) == TriggersAt(ts[n..], b)
    decreases n
  {
    if n == 0 {
      assert ts[0..] == ts;
    } else {
      TriggersAtRun(ts[1..], n - 1, b);
      assert ts[1..][n - 1..] == ts[n..];
    }
  }

  /** An incomplete crossing with data loses exactly one trigger, if it has any; no other
      crossing loses a trigger. */
  lemma {:induction false} OneSkippedPerCrossing(groups: seq<Item>, full: Option<int>, ts: seq<Trig>, b: int)
    ensures SkippedAt(Matches(groups, full, ts), b)
         == if Has(groups, b) && !Complete(full, b) && TriggersAt(ts, b) > 0 then 1 else 0
    decreases |ts|
  {
    if ts != [] {
      var c := ts[0].bxid;
      var os := Matches(groups, full, ts);
      if !Has(groups, c) {
        OneSkippedPerCrossing(groups, full, ts[1..], b);
        assert os[1..] == Matches(groups, full, ts[1..]);
      } else if Complete(full, c) {
        var n := RunLength(ts);
        OneSkippedPerCrossing(groups, full, ts[n..], b);
        assert os[1..] == Matches(groups, full, ts[n..]);
        if b != c {
          TriggersAtRun(ts, n, b);
        }
      } else {
        OneSkippedPerCrossing(Erase(groups, c), full, ts[1..], b);
        EraseMeaning(groups, c);
        assert os[1..] == Matches(Erase(groups, c), full, ts[1..]);
      }
    }
  }

  /** Some data event holds `n` triggers of crossing `b`. */
  predicate JoinsAt(os: seq<Fate>, b: int, n: nat) {
    exists i :: 0 <= i < |os| && JoinOf(os[i], b, n)
  }

  predicate JoinOf(o: Fate, b: int, n: nat) {
    o.Joined? && o.triggers != [] && o.triggers[0].bxid == b && TriggersAt(o.triggers, b) == n
  }

  lemma {:induction false} NoneOf(ts: seq<Trig>, b: int)
    requires forall i :: 0 <= i < |ts| ==> ts[i].bxid != b
    ensures TriggersAt(ts, b) == 0
  {
    if ts != [] {
      NoneOf(ts[1..], b);
    }
  }

  lemma {:induction false} TriggersAtConcat(x: seq<Trig>, y: seq<Trig>, b: int)
    ensures TriggersAt(x + y, b) == TriggersAt(x, b) + TriggersAt(y, b)
  {
    if x == [] {
      assert x + y == y;
    } else {
      assert (x + y)[1..] == x[1..] + y;
      TriggersAtConcat(x[1..], y, b);
    }
  }

  /** What precedes the larger crossings of a sorted sequence holds all triggers of a smaller one. */
  lemma {:induction false} WholeRunTaken(run: seq<Trig>, rest: seq<Trig>, b: int)
    requires ByBxid(rest) && (rest != [] ==> b < rest[0].bxid)
    ensures TriggersAt(run, b) == TriggersAt(run + rest, b)
  {
    TriggersAtConcat(run, rest, b);
    NoneOf(rest, b);
  }

  /** A complete crossing with data and triggers has its data event, with all of its triggers. */
  lemma {:induction false} CompleteJoins(groups: seq<Item>, full: Option<int>, ts: seq<Trig>, b: int)
    requires ByBxid(ts) && Has(groups, b) && Complete(full, b) && TriggersAt(ts, b) > 0
    ensures JoinsAt(Matches(groups, full, ts), b, TriggersAt(ts, b))
    decreases |ts|
  {
    var o := FirstFate(groups, full, ts);
    var n := |TriggersOf(o)|;
    MatchesStep(groups, full, ts);
    var os := Matches(groups, full, ts);
    assert ByBxid(ts[n..]);
    if ts[0].bxid == b {
      SortedFrom(ts, n);
      assert ts[..n] + ts[n..] == ts;
      WholeRunTaken(ts[..n], ts[n..], b);
      assert JoinOf(os[0], b, TriggersAt(ts, b));
    } else {
      var later := if o.Skipped? then Erase(groups, ts[0].bxid) else groups;
      EraseMeaning(groups, ts[0].bxid);
      assert forall i :: 0 <= i < n ==> ts[i].bxid != b;
      TriggersAtRun(ts, n, b);
      CompleteJoins(later, full, ts[n..], b);
      var i :| 0 <= i < |os[1..]| && JoinOf(os[1..][i], b, TriggersAt(ts, b));
      assert os[i + 1] == os[1..][i];
    }
  }

  // ---------- Which triggers, with which data ----------

  /** Triggers of one crossing, in order. */
  function AtCrossing(ts: seq<Trig>, b: int): seq<Trig> {
    if ts == [] then [] else (if ts[0].bxid == b then [ts[0]] else []) + AtCrossing(ts[1..], b)
  }

  lemma {:induction false} AtNone(ts: seq<Trig>, b: int)
    requires forall i :: 0 <= i < |ts| ==> ts[i].bxid != b
    ensures AtCrossing(ts, b) == []
  {
    if ts != [] {
      AtNone(ts[1..], b);
    }
  }

  lemma {:induction false} AtAll(ts: seq<Trig>, b: int)
    requires forall i :: 0 <= i < |ts| ==> ts[i].bxid == b
    ensures AtCrossing(ts, b) == ts
  {
    if ts != [] {
      AtAll(ts[1..], b);
    }
  }

  lemma {:induction false} AtConcat(x: seq<Trig>, y: seq<Trig>, b: int)
    ensures AtCrossing(x + y, b) == AtCrossing(x, b) + AtCrossing(y, b)
  {
    if x == [] {
      assert x + y == y;
    } else {
      assert (x + y)[1..] == x[1..] + y;
      AtConcat(x[1..], y, b);
      Regroup(if x[0].bxid == b then [x[0]] else [], AtCrossing(x[1..], b), AtCrossing(y, b));
    }
  }

  lemma AtFront(t: Trig, ts: seq<Trig>, b: int)
    ensures AtCrossing([t] + ts, b) == (if t.bxid == b then [t] else []) + AtCrossing(ts, b)
  {
    assert ([t] + ts)[1..] == ts;
  }

  /** The table keeps the order of arrival within a crossing. */
  lemma {:induction false} AtInsert(ts: seq<Trig>, t: Trig, b: int)
    requires ByBxid(ts)
    ensures AtCrossing(Insert(ts, t), b) == AtCrossing(ts, b) + if t.bxid == b then [t] else []
  {
    var one := if t.bxid == b then [t] else [];
    if ts == [] || t.bxid < ts[0].bxid {
      AtFront(t, ts, b);
      if t.bxid == b {
        AtNone(ts, b);
      } else {
        assert [] + AtCrossing(ts, b) == AtCrossing(ts, b) + [];
      }
    } else {
      AtInsert(ts[1..], t, b);
      AtFront(ts[0], Insert(ts[1..], t), b);
      Regroup(if ts[0].bxid == b then [ts[0]] else [], AtCrossing(ts[1..], b), one);
    }
  }

  lemma {:induction false} AtInsertAll(sorted: seq<Trig>, ts: seq<Trig>, b: int)
    requires ByBxid(sorted)
    ensures AtCrossing(InsertAll(sorted, ts), b) == AtCrossing(sorted, b) + AtCrossing(ts, b)
    decreases |ts|
  {
    if ts == [] {
      assert AtCrossing(sorted, b) + [] == AtCrossing(sorted, b);
    } else {
      AtInsert(sorted, ts[0], b);
      InsertMeaning(sorted, ts[0]);
      AtInsertAll(Insert(sorted, ts[0]), ts[1..], b);
      Regroup(AtCrossing(sorted, b), if ts[0].bxid == b then [ts[0]] else [], AtCrossing(ts[1..], b));
    }
  }

  /** A joined outcome has all triggers of its crossing. */
  predicate JoinsWhole(o: Fate, ts: seq<Trig>) {
    o.Joined? ==> o.triggers != [] && o.triggers == AtCrossing(ts, o.triggers[0].bxid)
  }

  lemma FirstJoinsWhole(run: seq<Trig>, rest: seq<Trig>, b: int)
    requires (forall i :: 0 <= i < |run| ==> run[i].bxid == b) && ByBxid(rest) && (rest != [] ==> b < rest[0].bxid)
    ensures AtCrossing(run + rest, b) == run
  {
    AtConcat(run, rest, b);
    AtAll(run, b);
    AtNone(rest, b);
    assert run + [] == run;
  }

  lemma {:induction false} MatchesWhole(groups: seq<Item>, full: Option<int>, ts: seq<Trig>)
    requires ByBxid(ts)
    ensures forall i :: 0 <= i < |Matches(groups, full, ts)| ==> JoinsWhole(Matches(groups, full, ts)[i], ts)
    decreases |ts|
  {
    if ts != [] {
      MatchesStep(groups, full, ts);
      var o := FirstFate(groups, full, ts);
      var n, b := |TriggersOf(o)|, ts[0].bxid;
      var later := if o.Skipped? then Erase(groups, b) else groups;
      var rest := Matches(later, full, ts[n..]);
      SortedFrom(ts, n);
      MatchesWhole(later, full, ts[n..]);
      MatchesSound(later, full, ts[n..]);
      EraseMeaning(groups, b);
      assert ts[..n] + ts[n..] == ts;
      if o.Joined? {
        FirstJoinsWhole(ts[..n], ts[n..], b);
      }
      forall i | 0 <= i < |rest| ensures JoinsWhole(rest[i], ts) {
        LaterJoinsWhole(later, full, rest[i], ts[..n], ts[n..], b, o.Joined?);
      }
      assert Matches(groups, full, ts) == [o] + rest;
    }
  }

  /** What a later outcome joins is of another crossing. */
  lemma LaterJoinsWhole(later: seq<Item>, full: Option<int>, o: Fate, run: seq<Trig>, rest: seq<Trig>, b: int, joined: bool)
    requires JoinsWhole(o, rest) && Sound(later, full, o)
    requires forall i :: 0 <= i < |run| ==> run[i].bxid == b
    requires if joined then ByBxid(rest) && (rest != [] ==> b < rest[0].bxid) else !Has(later, b)
    ensures JoinsWhole(o, run + rest)
  {
    if o.Joined? {
      var c := o.triggers[0].bxid;
      AtConcat(run, rest, c);
      if c == b {
        if joined {
          AtNone(rest, b);
        }
        assert false;
      }
      AtNone(run, c);
      assert [] + AtCrossing(rest, c) == AtCrossing(rest, c);
    }
  }

  // ---------- The events ----------

  datatype Validated = Validated(events: seq<Event>, last: int)

  /** Data events take the number of their first trigger; empty events advance the counter. */
  function EventsFor(cfg: BuildConfig, roc: int, os: seq<Fate>, last: int): Validated
    decreases |os|
  {
    if os == [] then Validated([], last)
    else match os[0]
      case Skipped(_) => EventsFor(cfg, roc, os[1..], last)
      case Empty(t) =>
        var r := EventsFor(cfg, roc, os[1..], last + 1);
        r.(events := [EmptyEvent(t.id, roc, t)] + r.events)
      case Joined(ts, blocks) =>
        var r := EventsFor(cfg, roc, os[1..], last);
        if ts == [] then r
        else r.(events := [BxidEvent(ts[0].id + cfg.trigidOffset, roc, ts[0].bxid, ts, blocks)] + r.events)
  }

  /** The outcomes for the triggers of one cycle. */
  function CycleOutcomes(cfg: BuildConfig, data: seq<Block>, t: TimeData, full: Option<int>): seq<Fate>
    requires cfg.bxidWidth != 0 && |t.ids| == |t.times|
  {
    Matches(Group(ByCrossing(data)), full, InsertAll([], Arrived(cfg, t, 0)))
  }

  /** The crossing has data that may be incomplete, and a trigger. */
  predicate Costly(data: seq<Block>, ts: seq<Trig>, full: Option<int>, b: int) {
    OfCrossing(data, b) != [] && !Complete(full, b) && TriggersAt(ts, b) > 0
  }

  /** The crossing has complete data and a trigger. */
  predicate Joinable(data: seq<Block>, ts: seq<Trig>, full: Option<int>, b: int) {
    OfCrossing(data, b) != [] && Complete(full, b) && TriggersAt(ts, b) > 0
  }

  /** One readout cycle: the triggers that arrived are accounted for once each; data events hold
      exactly the cycle's blocks of their crossing, and their crossings strictly increase; an
      incomplete crossing with data loses exactly one trigger, a complete one with data and
      triggers has a data event with all of its triggers. */
  lemma CycleMatching(cfg: BuildConfig, data: seq<Block>, t: TimeData, full: Option<int>)
    requires cfg.bxidWidth != 0 && |t.ids| == |t.times|
    ensures var os := CycleOutcomes(cfg, data, t, full); var ts := Arrived(cfg, t, 0);
      && multiset(AllTriggers(os)) == multiset(ts)
      && JoinedFrom(os, data)
      && (forall i, j :: 0 <= i < j < |DataBxids(os)| ==> DataBxids(os)[i] < DataBxids(os)[j])
      && (forall b :: SkippedAt(os, b) == if Costly(data, ts, full, b) then 1 else 0)
      && (forall b :: Joinable(data, ts, full, b) ==> JoinsAt(os, b, TriggersAt(ts, b)))
  {
    var groups, arrived := Group(ByCrossing(data)), Arrived(cfg, t, 0);
    var ts := InsertAll([], arrived);
    InsertAllMeaning([], arrived);
    TriggersAccounted(groups, full, ts);
    DataBxidsRise(groups, full, ts, if ts == [] then 0 else ts[0].bxid);
    JoinedFromTable(data, full, ts);
    forall b {
      CrossingFate(data, full, arrived, b);
    }
  }

  lemma JoinedFromTable(data: seq<Block>, full: Option<int>, ts: seq<Trig>)
    ensures JoinedFrom(Matches(Group(ByCrossing(data)), full, ts), data)
  {
    var groups := Group(ByCrossing(data));
    var os := Matches(groups, full, ts);
    MatchesSound(groups, full, ts);
    forall i | 0 <= i < |os| && os[i].Joined?
      ensures os[i].triggers != [] && os[i].blocks == OfCrossing(data, os[i].triggers[0].bxid) != []
    {
      assert Sound(groups, full, os[i]);
      TableAt(data, os[i].triggers[0].bxid);
    }
  }

  lemma CrossingFate(data: seq<Block>, full: Option<int>, arrived: seq<Trig>, b: int)
    ensures var os := Matches(Group(ByCrossing(data)), full, InsertAll([], arrived));
      && SkippedAt(os, b) == (if Costly(data, arrived, full, b) then 1 else 0)
      && (Joinable(data, arrived, full, b) ==> JoinsAt(os, b, TriggersAt(arrived, b)))
  {
    var groups, ts := Group(ByCrossing(data)), InsertAll([], arrived);
    TableAt(data, b);
    InsertAllMeaning([], arrived);
    TriggersAtSorted([], arrived, b);
    OneSkippedPerCrossing(groups, full, ts, b);
    if Joinable(data, arrived, full, b) {
      CompleteJoins(groups, full, ts, b);
    }
  }

  lemma TableAt(data: seq<Block>, b: int)
    ensures var groups := Group(ByCrossing(data));
      Get(groups, b, []) == OfCrossing(data, b) && (Has(groups, b) <==> OfCrossing(data, b) != [])
  {
    AppendAllMeaning<Block>([], ByCrossing(data), b);
    CrossingTable(data, b);
    assert [] + Filed(ByCrossing(data), b) == Filed(ByCrossing(data), b);
  }

  /** The data events of a cycle hold exactly its blocks of their crossing. */
  ghost predicate JoinedFrom(os: seq<Fate>, data: seq<Block>) {
    forall i :: 0 <= i < |os| && os[i].Joined? ==>
      os[i].triggers != [] && os[i].blocks == OfCrossing(data, os[i].triggers[0].bxid) != []
  }

  // ---------- A building pass ----------

  function FullOf(minLast: seq<Entry<int>>, roc: int): Option<int> {
    if Has(minLast, roc) then Some(Get(minLast, roc, 0)) else None
  }

  /** `buildValidatedBXIDEvents`: cycles without time data are thrown away; otherwise the first
      cycle with time data is processed, with the ASIC data of the same cycle if there are any. */
  function Build(cfg: BuildConfig, asic: seq<Item>, ts: seq<Entry<TimeData>>, minLast: seq<Entry<int>>,
                 last: int, keep: nat): Built
    requires cfg.bxidWidth != 0 && AllPaired(ts)
    decreases |asic| + |ts|
  {
    if |asic| <= keep then Built([], asic, ts, last)
    else if ts == [] || asic[0].key < ts[0].key then Build(cfg, asic[1..], ts, minLast, last, keep)
    else
      var roc := ts[0].key;
      var same := asic[0].key == roc;
      var v := EventsFor(cfg, roc, CycleOutcomes(cfg, if same then asic[0].value else [], ts[0].value, FullOf(minLast, roc)), last);
      // the blocks were moved into the table; the emptied entry is dropped by the next round
      var left := if same then [Entry(roc, [])] + asic[1..] else asic;
      var rest := Build(cfg, left, ts[1..], minLast, v.last, keep);
      rest.(events := v.events + rest.events)
  }

  /** Data events of one cycle: the cycle's blocks of their crossing, crossings rising from
      `low` on. */
  predicate CycleEvents(es: seq<Event>, roc: int, data: seq<Block>, low: int) {
    es == [] ||
    match es[0]
    case BxidEvent(_, r, b, _, blocks) =>
      r == roc && b >= low && blocks == OfCrossing(data, b) != [] && CycleEvents(es[1..], roc, data, b + 1)
    case EmptyEvent(_, r, _) => r == roc && CycleEvents(es[1..], roc, data, low)
    case _ => false
  }

  lemma StrictTail(head: seq<int>, tail: seq<int>, low: int)
    requires StrictlyFrom(head + tail, low)
    ensures StrictlyFrom(tail, low)
    ensures head != [] ==> low <= head[0] && StrictlyFrom(tail, head[0] + 1)
  {
    var all := head + tail;
    forall i | 0 <= i < |tail| ensures tail[i] >= low && (head != [] ==> tail[i] >= head[0] + 1) {
      assert tail[i] == all[|head| + i];
      assert head != [] ==> all[0] == head[0];
    }
    forall i, j | 0 <= i < j < |tail| ensures tail[i] < tail[j] {
      assert tail[i] == all[|head| + i] && tail[j] == all[|head| + j];
    }
    assert head != [] ==> all[0] == head[0];
  }

  lemma RisingTailBxids(os: seq<Fate>, low: int)
    requires os != [] && StrictlyFrom(DataBxids(os), low)
    ensures StrictlyFrom(DataBxids(os[1..]), low)
    ensures os[0].Joined? && os[0].triggers != [] ==>
      low <= os[0].triggers[0].bxid && StrictlyFrom(DataBxids(os[1..]), os[0].triggers[0].bxid + 1)
  {
    var head := if os[0].Joined? && os[0].triggers != [] then [os[0].triggers[0].bxid] else [];
    assert DataBxids(os) == head + DataBxids(os[1..]);
    StrictTail(head, DataBxids(os[1..]), low);
  }

  lemma {:induction false} EventsForCycle(cfg: BuildConfig, roc: int, os: seq<Fate>, last: int, data: seq<Block>, low: int)
    requires JoinedFrom(os, data) && StrictlyFrom(DataBxids(os), low)
    ensures CycleEvents(EventsFor(cfg, roc, os, last).events, roc, data, low)
    decreases |os|
  {
    if os != [] {
      RisingTailBxids(os, low);
      assert JoinedFrom(os[1..], data);
      match os[0]
      case Skipped(_) => EventsForCycle(cfg, roc, os[1..], last, data, low);
      case Empty(t) =>
        EventsForCycle(cfg, roc, os[1..], last + 1, data, low);
        var r := EventsFor(cfg, roc, os[1..], last + 1).events;
        assert ([EmptyEvent(t.id, roc, t)] + r)[1..] == r;
      case Joined(ts, blocks) =>
        EventsForCycle(cfg, roc, os[1..], last, data, ts[0].bxid + 1);
        var r := EventsFor(cfg, roc, os[1..], last).events;
        assert ([BxidEvent(ts[0].id + cfg.trigidOffset, roc, ts[0].bxid, ts, blocks)] + r)[1..] == r;
    }
  }

  /** Every data event of the list holds exactly the blocks that `asic` has for its cycle and
      crossing. */
  predicate DataComplete(es: seq<Event>, asic: seq<Item>) {
    forall i :: 0 <= i < |es| && es[i].BxidEvent? ==>
      es[i].blocks == OfCrossing(Get(asic, es[i].roc, []), es[i].bxid) != []
  }

  predicate Precedes(a: Event, b: Event) {
    a.BxidEvent? && b.BxidEvent? ==> a.roc < b.roc || (a.roc == b.roc && a.bxid < b.bxid)
  }

  /** Data events come in the order of cycles and, inside a cycle, of crossings. */
  predicate DataInOrder(es: seq<Event>) {
    forall i, j :: 0 <= i < j < |es| ==> Precedes(es[i], es[j])
  }

  predicate CyclesAtLeast(es: seq<Event>, low: int) {
    forall i :: 0 <= i < |es| && es[i].BxidEvent? ==> es[i].roc >= low
  }

  lemma {:induction false} CycleEventsMeaning(es: seq<Event>, roc: int, data: seq<Block>, low: int, asic: seq<Item>)
    requires CycleEvents(es, roc, data, low) && data == Get(asic, roc, [])
    ensures DataComplete(es, asic) && DataInOrder(es)
    ensures forall i :: 0 <= i < |es| && es[i].BxidEvent? ==> es[i].roc == roc && es[i].bxid >= low
    decreases |es|
  {
    if es != [] {
      CycleEventsMeaning(es[1..], roc, data, if es[0].BxidEvent? then es[0].bxid + 1 else low, asic);
      forall i | 0 <= i < |es| && es[i].BxidEvent?
        ensures es[i].blocks == OfCrossing(Get(asic, es[i].roc, []), es[i].bxid) != []
        ensures es[i].roc == roc && es[i].bxid >= low
      {
        assert i > 0 ==> es[i] == es[1..][i - 1];
      }
      forall i, j | 0 <= i < j < |es| ensures Precedes(es[i], es[j]) {
        assert es[j] == es[1..][j - 1];
        assert i > 0 ==> es[i] == es[1..][i - 1];
      }
    }
  }

  lemma JoinPasses(a: seq<Event>, b: seq<Event>, asic: seq<Item>, roc: int)
    requires DataComplete(a, asic) && DataComplete(b, asic) && DataInOrder(a) && DataInOrder(b)
    requires forall i :: 0 <= i < |a| && a[i].BxidEvent? ==> a[i].roc == roc
    requires CyclesAtLeast(b, roc + 1)
    ensures DataComplete(a + b, asic) && DataInOrder(a + b) && CyclesAtLeast(a + b, roc)
  {
    var c := a + b;
    forall i, j | 0 <= i < j < |c| ensures Precedes(c[i], c[j]) {
      if j < |a| {
        assert c[i] == a[i] && c[j] == a[j];
      } else {
        assert c[j] == b[j - |a|];
        assert i >= |a| ==> c[i] == b[i - |a|];
      }
    }
  }
}
