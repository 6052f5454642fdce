/**
 Validated building: what arrives for the readout cycles, and the visits that building passes make to
 them. Filing an arrival is absorbing it in the list of all visits that are due.
 */
module ValidatedVisits {
  import opened Sequences
  import opened OrderedMap
  import opened AsicPacket
  import opened LdaTimestamps
  import opened EventBuilding
  import opened ValidatedBuilding
  import opened ScReading

  // ---------- What arrives ----------

  /** Blocks of an ASIC packet, with the crossing of its sixteenth memory cell if that is filled; or
      what a timestamp packet adds to its cycle. */
  datatype Arr = Blocks(roc: int, blocks: seq<Block>, full: Option<int>) | TimeInfo(roc: int, effect: Effect)

  /** What waits: blocks and times by cycle, and the lowest full crossings noted for the cycles. */
  datatype Buf = Buf(asic: seq<Item>, ts: seq<Entry<TimeData>>, full: seq<Entry<int>>)

  const NO_DATA := Buf([], [], [])

  function File(buf: Buf, a: Arr): Buf {
    match a
    case Blocks(roc, blocks, full) =>
      buf.(asic := Append(buf.asic, roc, blocks), full := if full.Some? then LowerFull(buf.full, roc, full.value) else buf.full)
    case TimeInfo(roc, e) => buf.(ts := PutEffect(buf.ts, roc, e))
  }

  /** The times of a cycle after an effect. */
  function PutEffect(m: seq<Entry<TimeData>>, k: int, e: Effect): seq<Entry<TimeData>> {
    Put(m, k, ApplyEffect(Get(m, k, NO_TIME_DATA), e))
  }

  function FileAll(buf: Buf, arrs: seq<Arr>): Buf
    decreases |arrs|
  {
    if arrs == [] then buf else FileAll(File(buf, arrs[0]), arrs[1..])
  }

  ghost predicate Sorted(buf: Buf) {
    Ordered(buf.asic) && Ordered(buf.ts)
  }

  lemma FileSorted(buf: Buf, a: Arr)
    requires Sorted(buf)
    ensures Sorted(File(buf, a))
  {
    match a
    case Blocks(roc, blocks, _) => PutMeaning(buf.asic, roc, Get(buf.asic, roc, []) + blocks);
    case TimeInfo(roc, e) => PutMeaning(buf.ts, roc, ApplyEffect(Get(buf.ts, roc, NO_TIME_DATA), e));
  }

  lemma {:induction false} FileAllSorted(buf: Buf, arrs: seq<Arr>)
    requires Sorted(buf)
    ensures Sorted(FileAll(buf, arrs))
    decreases |arrs|
  {
    if arrs != [] {
      FileSorted(buf, arrs[0]);
      FileAllSorted(File(buf, arrs[0]), arrs[1..]);
    }
  }

  lemma {:induction false} FileAllConcat(buf: Buf, a: seq<Arr>, b: seq<Arr>)
    ensures FileAll(buf, a + b) == FileAll(FileAll(buf, a), b)
    decreases |a|
  {
    if a == [] {
      assert a + b == b;
    } else {
      assert (a + b)[1..] == a[1..] + b;
      FileAllConcat(File(buf, a[0]), a[1..], b);
    }
  }

  // ---------- Visits ----------

  /** A cycle handled by a building pass: with its blocks and, unless these are thrown away, its times. */
  datatype Visit = Visit(roc: int, blocks: seq<Block>, time: Option<TimeData>)

  function Thrown(e: Item): seq<Visit> {
    if e.value == [] then [] else [Visit(e.key, e.value, None)]
  }

  /** All cycles of two tables: those with times, and those that have only blocks. */
  function Join(asic: seq<Item>, ts: seq<Entry<TimeData>>): seq<Visit>
    decreases |asic| + |ts|
  {
    if asic == [] && ts == [] then []
    else if ts == [] || (asic != [] && asic[0].key < ts[0].key) then Thrown(asic[0]) + Join(asic[1..], ts)
    else if asic != [] && asic[0].key == ts[0].key then
      [Visit(ts[0].key, asic[0].value, Some(ts[0].value))] + Join(asic[1..], ts[1..])
    else [Visit(ts[0].key, [], Some(ts[0].value))] + Join(asic, ts[1..])
  }

  /** What a pass takes. */
  datatype Taken = Taken(visits: seq<Visit>, asic: seq<Item>, ts: seq<Entry<TimeData>>)

  /** The visits of a pass that keeps `keep` cycles, in the steps of `ValidatedBuilding.Build`. */
  function TakenOf(asic: seq<Item>, ts: seq<Entry<TimeData>>, keep: nat): Taken
    decreases |asic| + |ts|
  {
    if |asic| <= keep then Taken([], asic, ts)
    else if ts == [] || asic[0].key < ts[0].key then
      var r := TakenOf(asic[1..], ts, keep);
      r.(visits := Thrown(asic[0]) + r.visits)
    else
      var roc := ts[0].key;
      var same := asic[0].key == roc;
      var r := TakenOf(if same then [Entry(roc, [])] + asic[1..] else asic, ts[1..], keep);
      r.(visits := [Visit(roc, if same then asic[0].value else [], Some(ts[0].value))] + r.visits)
  }

  lemma TailSorted<T>(m: seq<Entry<T>>)
    requires Ordered(m) && m != []
    ensures Ordered(m[1..]) && (m[1..] != [] ==> m[0].key < m[1..][0].key)
  {
  }

  /** The emptied entry of a visited cycle is nothing more to visit. */
  lemma {:induction false} JoinEmptied(roc: int, asic: seq<Item>, ts: seq<Entry<TimeData>>)
    requires Ordered(ts) && (ts != [] ==> roc < ts[0].key)
    ensures Join([Entry(roc, [])] + asic, ts) == Join(asic, ts)
  {
    assert ([Entry(roc, [])] + asic)[1..] == asic;
    assert [] + Join(asic, ts) == Join(asic, ts);
  }

  lemma EmptiedSorted(asic: seq<Item>)
    requires Ordered(asic) && asic != []
    ensures Ordered([Entry(asic[0].key, [])] + asic[1..])
  {
    var m := [Entry(asic[0].key, [])] + asic[1..];
    forall i, j | 0 <= i < j < |m| ensures m[i].key < m[j].key {
      assert m[j] == asic[j] && m[i].key == asic[i].key;
    }
  }

  /** A pass takes the front of the join away. */
  lemma {:induction false} TakenJoin(asic: seq<Item>, ts: seq<Entry<TimeData>>, keep: nat)
    requires Ordered(asic) && Ordered(ts)
    ensures var r := TakenOf(asic, ts, keep);
      Ordered(r.asic) && Ordered(r.ts) && r.visits + Join(r.asic, r.ts) == Join(asic, ts)
    decreases |asic| + |ts|
  {
    if |asic| <= keep {
      assert [] + Join(asic, ts) == Join(asic, ts);
    } else if ts == [] || asic[0].key < ts[0].key {
      TailSorted(asic);
      TakenJoin(asic[1..], ts, keep);
      var r := TakenOf(asic[1..], ts, keep);
      Regroup(Thrown(asic[0]), r.visits, Join(r.asic, r.ts));
    } else {
      var roc := ts[0].key;
      var same := asic[0].key == roc;
      var left := if same then [Entry(roc, [])] + asic[1..] else asic;
      TailSorted(ts);
      if same {
        EmptiedSorted(asic);
        JoinEmptied(roc, asic[1..], ts[1..]);
      }
      TakenJoin(left, ts[1..], keep);
      var r := TakenOf(left, ts[1..], keep);
      Regroup([Visit(roc, if same then asic[0].value else [], Some(ts[0].value))], r.visits, Join(r.asic, r.ts));
    }
  }

  // ---------- Order of the visits ----------

  predicate Rises(vs: seq<Visit>) {
    forall i, j :: 0 <= i < j < |vs| ==> vs[i].roc < vs[j].roc
  }

  predicate Above(vs: seq<Visit>, roc: int) {
    forall i :: 0 <= i < |vs| ==> vs[i].roc > roc
  }

  /** At most one visit in front, of a cycle below all others. */
  lemma RisesFront(front: seq<Visit>, vs: seq<Visit>, key: int, low: int)
    requires Rises(vs) && Above(vs, key) && key > low && |front| <= 1 && (front != [] ==> front[0].roc == key)
    ensures Rises(front + vs) && Above(front + vs, low)
  {
    if front == [] {
      assert front + vs == vs;
    }
  }

  lemma {:induction false} JoinRises(asic: seq<Item>, ts: seq<Entry<TimeData>>, low: int)
    requires Ordered(asic) && Ordered(ts)
    requires (asic != [] ==> asic[0].key > low) && (ts != [] ==> ts[0].key > low)
    ensures Rises(Join(asic, ts)) && Above(Join(asic, ts), low)
    decreases |asic| + |ts|
  {
    if asic == [] && ts == [] {
    } else if ts == [] || (asic != [] && asic[0].key < ts[0].key) {
      TailSorted(asic);
      JoinRises(asic[1..], ts, asic[0].key);
      RisesFront(Thrown(asic[0]), Join(asic[1..], ts), asic[0].key, low);
    } else if asic != [] && asic[0].key == ts[0].key {
      TailSorted(asic);
      TailSorted(ts);
      JoinRises(asic[1..], ts[1..], ts[0].key);
      RisesFront([Visit(ts[0].key, asic[0].value, Some(ts[0].value))], Join(asic[1..], ts[1..]), ts[0].key, low);
    } else {
      TailSorted(ts);
      JoinRises(asic, ts[1..], ts[0].key);
      RisesFront([Visit(ts[0].key, [], Some(ts[0].value))], Join(asic, ts[1..]), ts[0].key, low);
    }
  }

  function Lowest(asic: seq<Item>, ts: seq<Entry<TimeData>>): int {
    var a := if asic == [] then 0 else asic[0].key;
    var t := if ts == [] then a else ts[0].key;
    if asic == [] || t < a then t else a
  }

  lemma JoinRising(buf: Buf)
    requires Sorted(buf)
    ensures Rises(Join(buf.asic, buf.ts))
  {
    JoinRises(buf.asic, buf.ts, Lowest(buf.asic, buf.ts) - 1);
  }

  // ---------- Filing, seen in the join ----------

  /** Empty packets bring nothing. */
  predicate Matters(a: Arr) {
    a.Blocks? ==> a.blocks != []
  }

  function FirstVisit(a: Arr): Visit {
    match a
    case Blocks(roc, blocks, _) => Visit(roc, blocks, None)
    case TimeInfo(roc, e) => Visit(roc, [], Some(ApplyEffect(NO_TIME_DATA, e)))
  }

  function Extended(v: Visit, a: Arr): Visit {
    match a
    case Blocks(_, blocks, _) => v.(blocks := v.blocks + blocks)
    case TimeInfo(_, e) => v.(time := Some(ApplyEffect(if v.time.Some? then v.time.value else NO_TIME_DATA, e)))
  }

  /** An arrival joins its cycle, or is a new one at its place. */
  function Absorb(vs: seq<Visit>, a: Arr): seq<Visit> {
    if vs == [] || a.roc < vs[0].roc then [FirstVisit(a)] + vs
    else if a.roc == vs[0].roc then [Extended(vs[0], a)] + vs[1..]
    else [vs[0]] + Absorb(vs[1..], a)
  }

  lemma {:induction false} AbsorbBehind(front: seq<Visit>, vs: seq<Visit>, a: Arr)
    requires forall i :: 0 <= i < |front| ==> front[i].roc < a.roc
    ensures Absorb(front + vs, a) == front + Absorb(vs, a)
  {
    if front == [] {
      assert front + vs == vs && front + Absorb(vs, a) == Absorb(vs, a);
    } else {
      assert (front + vs)[1..] == front[1..] + vs;
      AbsorbBehind(front[1..], vs, a);
      assert [front[0]] + (front[1..] + Absorb(vs, a)) == front + Absorb(vs, a);
    }
  }

  /** The cycles stay, and the arrival's own is among them. */
  lemma {:induction false} AbsorbKeeps(vs: seq<Visit>, a: Arr)
    ensures HasVisit(Absorb(vs, a), a.roc)
    ensures forall roc :: HasVisit(vs, roc) ==> HasVisit(Absorb(vs, a), roc)
  {
    var r := Absorb(vs, a);
    if vs == [] || a.roc < vs[0].roc {
      assert r[0].roc == a.roc && r[1..] == vs;
      forall roc | HasVisit(vs, roc) ensures HasVisit(r, roc) {
        var i :| 0 <= i < |vs| && vs[i].roc == roc;
        assert r[i + 1] == vs[i];
      }
    } else if a.roc == vs[0].roc {
      assert r[0].roc == a.roc;
      forall roc | HasVisit(vs, roc) ensures HasVisit(r, roc) {
        var i :| 0 <= i < |vs| && vs[i].roc == roc;
        assert r[i].roc == vs[i].roc;
      }
    } else {
      AbsorbKeeps(vs[1..], a);
      var rest := Absorb(vs[1..], a);
      forall roc | HasVisit(rest, roc) || vs[0].roc == roc ensures HasVisit(r, roc) {
        if vs[0].roc == roc {
          assert r[0].roc == roc;
        } else {
          var i :| 0 <= i < |rest| && rest[i].roc == roc;
          assert r[i + 1] == rest[i];
        }
      }
      forall roc | HasVisit(vs, roc) ensures HasVisit(r, roc) {
        var i :| 0 <= i < |vs| && vs[i].roc == roc;
        assert i > 0 ==> vs[1..][i - 1] == vs[i];
      }
    }
  }

  predicate HasVisit(vs: seq<Visit>, roc: int) {
    exists i :: 0 <= i < |vs| && vs[i].roc == roc
  }

  lemma AppendFront(m: seq<Item>, k: int, b: seq<Block>)
    requires Ordered(m)
    ensures Append(m, k, b)
         == if m == [] || k < m[0].key then [Entry(k, b)] + m
            else if k == m[0].key then [Entry(k, m[0].value + b)] + m[1..]
            else [m[0]] + Append(m[1..], k, b)
  {
    if m == [] || k < m[0].key {
      NotBelow(m, k);
      GetMissing(m, k, []);
      assert [] + b == b;
    }
  }

  lemma NotBelow<T>(m: seq<Entry<T>>, k: int)
    requires Ordered(m) && (m != [] ==> k < m[0].key)
    ensures !Has(m, k)
  {
  }

  lemma PutEffectFront(m: seq<Entry<TimeData>>, k: int, e: Effect)
    requires Ordered(m)
    ensures PutEffect(m, k, e)
         == if m == [] || k < m[0].key then [Entry(k, ApplyEffect(NO_TIME_DATA, e))] + m
            else if k == m[0].key then [Entry(k, ApplyEffect(m[0].value, e))] + m[1..]
            else [m[0]] + PutEffect(m[1..], k, e)
  {
    if m == [] || k < m[0].key {
      NotBelow(m, k);
      GetMissing(m, k, NO_TIME_DATA);
    }
  }

  /** Filing blocks is absorbing them. */
  lemma {:induction false} JoinBlocks(asic: seq<Item>, ts: seq<Entry<TimeData>>, k: int, b: seq<Block>)
    requires Ordered(asic) && Ordered(ts) && b != []
    ensures Join(Append(asic, k, b), ts) == Absorb(Join(asic, ts), Blocks(k, b, None))
    decreases |asic| + |ts|, 0
  {
    AppendFront(asic, k, b);
    if ts != [] && (asic == [] || ts[0].key < asic[0].key) && ts[0].key < k {
      // the first cycle is one with times only
      TailSorted(ts);
      JoinBlocks(asic, ts[1..], k, b);
      AbsorbBehind([Visit(ts[0].key, [], Some(ts[0].value))], Join(asic, ts[1..]), Blocks(k, b, None));
    } else if asic == [] || k < asic[0].key {
      BlocksFirst(asic, ts, k, b);
    } else {
      TailSorted(asic);
      assert [asic[0]] + asic[1..] == asic;
      if k == asic[0].key {
        BlocksSame(asic[0], asic[1..], ts, b);
      } else {
        BlocksBehind(asic[0], asic[1..], ts, k, b);
      }
    }
  }

  /** A cycle that no block was filed under yet. */
  lemma {:induction false} BlocksFirst(asic: seq<Item>, ts: seq<Entry<TimeData>>, k: int, b: seq<Block>)
    requires Ordered(asic) && Ordered(ts) && b != [] && (asic != [] ==> k < asic[0].key) && (ts != [] ==> k <= ts[0].key)
    ensures Join([Entry(k, b)] + asic, ts) == Absorb(Join(asic, ts), Blocks(k, b, None))
  {
    var m := [Entry(k, b)] + asic;
    assert m[1..] == asic;
    if ts != [] && k == ts[0].key {
      assert Join(asic, ts) == [Visit(k, [], Some(ts[0].value))] + Join(asic, ts[1..]);
      assert [] + b == b;
    } else {
      JoinRises(asic, ts, k);
    }
  }

  /** The join, one cycle at a time. */
  lemma {:induction false} JoinBlocksFirst(e: Item, asic: seq<Item>, ts: seq<Entry<TimeData>>)
    requires ts != [] ==> e.key < ts[0].key
    ensures Join([e] + asic, ts) == Thrown(e) + Join(asic, ts)
  {
    assert ([e] + asic)[1..] == asic;
  }

  lemma {:induction false} JoinSameCycle(e: Item, asic: seq<Item>, ts: seq<Entry<TimeData>>)
    requires ts != [] && e.key == ts[0].key
    ensures Join([e] + asic, ts) == [Visit(e.key, e.value, Some(ts[0].value))] + Join(asic, ts[1..])
  {
    assert ([e] + asic)[1..] == asic;
  }

  lemma {:induction false} AbsorbThrown(e: Item, vs: seq<Visit>, b: seq<Block>)
    requires Above(vs, e.key)
    ensures Absorb(Thrown(e) + vs, Blocks(e.key, b, None)) == [Visit(e.key, e.value + b, None)] + vs
  {
    if e.value == [] {
      assert [] + vs == vs && e.value + b == b;
    } else {
      assert ([Visit(e.key, e.value, None)] + vs)[1..] == vs;
    }
  }

  /** The first cycle of the table. */
  lemma {:induction false} BlocksSame(e: Item, asic: seq<Item>, ts: seq<Entry<TimeData>>, b: seq<Block>)
    requires Ordered(asic) && Ordered(ts) && b != [] && (asic != [] ==> e.key < asic[0].key) && (ts != [] ==> e.key <= ts[0].key)
    ensures Join([Entry(e.key, e.value + b)] + asic, ts) == Absorb(Join([e] + asic, ts), Blocks(e.key, b, None))
  {
    var f := Entry(e.key, e.value + b);
    if ts != [] && e.key == ts[0].key {
      JoinSameCycle(e, asic, ts);
      JoinSameCycle(f, asic, ts);
      var vs := Join(asic, ts[1..]);
      assert ([Visit(e.key, e.value, Some(ts[0].value))] + vs)[1..] == vs;
    } else {
      JoinBlocksFirst(e, asic, ts);
      JoinBlocksFirst(f, asic, ts);
      JoinRises(asic, ts, e.key);
      AbsorbThrown(e, Join(asic, ts), b);
    }
  }

  /** A cycle behind the first one of the table. */
  lemma {:induction false} BlocksBehind(e: Item, asic: seq<Item>, ts: seq<Entry<TimeData>>, k: int, b: seq<Block>)
    requires Ordered(asic) && Ordered(ts) && b != [] && k > e.key && (ts != [] ==> e.key <= ts[0].key)
    ensures Join([e] + Append(asic, k, b), ts) == Absorb(Join([e] + asic, ts), Blocks(k, b, None))
    decreases |asic| + |ts|, 1
  {
    var rest, a := Append(asic, k, b), Blocks(k, b, None);
    if ts != [] && e.key == ts[0].key {
      JoinSameCycle(e, asic, ts);
      JoinSameCycle(e, rest, ts);
      TailSorted(ts);
      JoinBlocks(asic, ts[1..], k, b);
      AbsorbBehind([Visit(e.key, e.value, Some(ts[0].value))], Join(asic, ts[1..]), a);
    } else {
      JoinBlocksFirst(e, asic, ts);
      JoinBlocksFirst(e, rest, ts);
      JoinBlocks(asic, ts, k, b);
      AbsorbBehind(Thrown(e), Join(asic, ts), a);
    }
  }

  lemma {:induction false} JoinTimesFirst(asic: seq<Item>, t: Entry<TimeData>, ts: seq<Entry<TimeData>>)
    requires asic != [] ==> t.key < asic[0].key
    ensures Join(asic, [t] + ts) == [Visit(t.key, [], Some(t.value))] + Join(asic, ts)
  {
    assert ([t] + ts)[1..] == ts;
  }

  lemma {:induction false} JoinCycleOf(asic: seq<Item>, t: Entry<TimeData>, ts: seq<Entry<TimeData>>)
    requires asic != [] && t.key == asic[0].key
    ensures Join(asic, [t] + ts) == [Visit(t.key, asic[0].value, Some(t.value))] + Join(asic[1..], ts)
  {
    assert ([t] + ts)[1..] == ts;
  }

  lemma {:induction false} AbsorbEffect(e: Item, vs: seq<Visit>, effect: Effect)
    requires Above(vs, e.key)
    ensures Absorb(Thrown(e) + vs, TimeInfo(e.key, effect)) == [Visit(e.key, e.value, Some(ApplyEffect(NO_TIME_DATA, effect)))] + vs
  {
    if e.value == [] {
      assert [] + vs == vs;
    } else {
      assert ([Visit(e.key, e.value, None)] + vs)[1..] == vs;
    }
  }

  /** Filing an effect is absorbing it. */
  lemma {:induction false} JoinEffect(asic: seq<Item>, ts: seq<Entry<TimeData>>, k: int, e: Effect)
    requires Ordered(asic) && Ordered(ts)
    ensures Join(asic, PutEffect(ts, k, e)) == Absorb(Join(asic, ts), TimeInfo(k, e))
    decreases |asic| + |ts|, 0
  {
    PutEffectFront(ts, k, e);
    if asic != [] && (ts == [] || asic[0].key < ts[0].key) && asic[0].key < k {
      // the first cycle is one with blocks only
      TailSorted(asic);
      JoinEffect(asic[1..], ts, k, e);
      assert [asic[0]] + asic[1..] == asic;
      JoinBlocksFirst(asic[0], asic[1..], ts);
      JoinBlocksFirst(asic[0], asic[1..], PutEffect(ts, k, e));
      AbsorbBehind(Thrown(asic[0]), Join(asic[1..], ts), TimeInfo(k, e));
    } else if ts == [] || k < ts[0].key {
      EffectFirst(asic, ts, k, e);
    } else {
      TailSorted(ts);
      assert [ts[0]] + ts[1..] == ts;
      if k == ts[0].key {
        EffectSame(asic, ts[0], ts[1..], e);
      } else {
        EffectBehind(asic, ts[0], ts[1..], k, e);
      }
    }
  }

  lemma {:induction false} EffectFirst(asic: seq<Item>, ts: seq<Entry<TimeData>>, k: int, e: Effect)
    requires Ordered(asic) && Ordered(ts) && (ts != [] ==> k < ts[0].key) && (asic != [] ==> k <= asic[0].key)
    ensures Join(asic, [Entry(k, ApplyEffect(NO_TIME_DATA, e))] + ts) == Absorb(Join(asic, ts), TimeInfo(k, e))
  {
    var t := Entry(k, ApplyEffect(NO_TIME_DATA, e));
    if asic != [] && asic[0].key == k {
      TailSorted(asic);
      JoinCycleOf(asic, t, ts);
      assert [asic[0]] + asic[1..] == asic;
      JoinBlocksFirst(asic[0], asic[1..], ts);
      JoinRises(asic[1..], ts, k);
      AbsorbEffect(asic[0], Join(asic[1..], ts), e);
    } else {
      JoinTimesFirst(asic, t, ts);
      JoinRises(asic, ts, k);
    }
  }

  lemma {:induction false} EffectSame(asic: seq<Item>, t: Entry<TimeData>, ts: seq<Entry<TimeData>>, e: Effect)
    requires asic != [] ==> t.key <= asic[0].key
    ensures Join(asic, [Entry(t.key, ApplyEffect(t.value, e))] + ts) == Absorb(Join(asic, [t] + ts), TimeInfo(t.key, e))
  {
    var u := Entry(t.key, ApplyEffect(t.value, e));
    if asic != [] && t.key == asic[0].key {
      JoinCycleOf(asic, t, ts);
      JoinCycleOf(asic, u, ts);
    } else {
      JoinTimesFirst(asic, t, ts);
      JoinTimesFirst(asic, u, ts);
    }
  }

  lemma {:induction false} EffectBehind(asic: seq<Item>, t: Entry<TimeData>, ts: seq<Entry<TimeData>>, k: int, e: Effect)
    requires Ordered(asic) && Ordered(ts) && k > t.key && (asic != [] ==> t.key <= asic[0].key)
    ensures Join(asic, [t] + PutEffect(ts, k, e)) == Absorb(Join(asic, [t] + ts), TimeInfo(k, e))
    decreases |asic| + |ts|, 1
  {
    var rest := PutEffect(ts, k, e);
    if asic != [] && asic[0].key == t.key {
      TailSorted(asic);
      JoinCycleOf(asic, t, ts);
      JoinCycleOf(asic, t, rest);
      JoinEffect(asic[1..], ts, k, e);
      AbsorbBehind([Visit(t.key, asic[0].value, Some(t.value))], Join(asic[1..], ts), TimeInfo(k, e));
    } else {
      JoinTimesFirst(asic, t, ts);
      JoinTimesFirst(asic, t, rest);
      JoinEffect(asic, ts, k, e);
      AbsorbBehind([Visit(t.key, [], Some(t.value))], Join(asic, ts), TimeInfo(k, e));
    }
  }

  lemma {:induction false} AppendNothing(m: seq<Item>, ts: seq<Entry<TimeData>>, k: int)
    requires Ordered(m) && Ordered(ts)
    ensures Join(Append(m, k, []), ts) == Join(m, ts)
    decreases |m| + |ts|
  {
    AppendFront(m, k, []);
    if m == [] || k < m[0].key {
      NothingFirst(m, ts, k);
    } else if k == m[0].key {
      assert m[0].value + [] == m[0].value;
      assert [Entry(k, m[0].value)] + m[1..] == m;
    } else {
      TailSorted(m);
      var rest := Append(m[1..], k, []);
      assert ([m[0]] + rest)[1..] == rest;
      if ts != [] {
        TailSorted(ts);
      }
      if ts == [] || m[0].key < ts[0].key {
        AppendNothing(m[1..], ts, k);
      } else if m[0].key == ts[0].key {
        AppendNothing(m[1..], ts[1..], k);
      } else {
        AppendNothing(m, ts[1..], k);
      }
    }
  }

  lemma {:induction false} NothingFirst(m: seq<Item>, ts: seq<Entry<TimeData>>, k: int)
    requires Ordered(m) && Ordered(ts) && (m != [] ==> k < m[0].key)
    ensures Join([Entry(k, [])] + m, ts) == Join(m, ts)
    decreases |ts|
  {
    var n := [Entry(k, [])] + m;
    assert n[1..] == m;
    if ts == [] || k < ts[0].key {
      assert [] + Join(m, ts) == Join(m, ts);
    } else {
      TailSorted(ts);
      if k != ts[0].key {
        NothingFirst(m, ts[1..], k);
      }
    }
  }

  lemma {:induction false} FullAside(vs: seq<Visit>, k: int, b: seq<Block>, full: Option<int>)
    ensures Absorb(vs, Blocks(k, b, full)) == Absorb(vs, Blocks(k, b, None))
  {
    if vs != [] && k > vs[0].roc {
      FullAside(vs[1..], k, b, full);
    }
  }

  lemma FileAbsorbs(buf: Buf, a: Arr)
    requires Sorted(buf)
    ensures var r := File(buf, a);
      Join(r.asic, r.ts) == if Matters(a) then Absorb(Join(buf.asic, buf.ts), a) else Join(buf.asic, buf.ts)
  {
    match a
    case Blocks(roc, blocks, full) =>
      if blocks == [] {
        AppendNothing(buf.asic, buf.ts, roc);
      } else {
        JoinBlocks(buf.asic, buf.ts, roc, blocks);
        FullAside(Join(buf.asic, buf.ts), roc, blocks, full);
      }
    case TimeInfo(roc, e) => JoinEffect(buf.asic, buf.ts, roc, e);
  }
}
