/**
 The crossings in which sixteenth memory cells were filled, over the frames of a run and over the
 packets sent: behind the least of them the data of a cycle may be incomplete.
 */
module FullCells {
  import opened Sequences
  import opened OrderedMap
  import opened GrayCode
  import opened AsicPacket
  import opened LdaStream
  import opened EventBuilding
  import opened ScReading
  import opened StampPackets
  import opened RocReading
  import ValidatedBuilding

  /** A cycle with the crossing of a sixteenth cell. */
  type Mark = Entry<nat>

  function Full(minLast: seq<Entry<int>>, roc: int): Option<int> {
    ValidatedBuilding.FullOf(minLast, roc)
  }

  // ---------- The limit is a minimum ----------

  /** The numbers behind the last 0. */
  function SinceZero(xs: seq<nat>): seq<nat> {
    if xs == [] || xs[|xs| - 1] == 0 then [] else SinceZero(xs[..|xs| - 1]) + [xs[|xs| - 1]]
  }

  function Least(xs: seq<nat>): (m: nat)
    requires xs != []
    ensures m in xs && forall x :: x in xs ==> m <= x
  {
    assert forall x :: x in xs ==> x == xs[0] || x in xs[1..];
    if |xs| == 1 then xs[0]
    else
      var m := Least(xs[1..]);
      if xs[0] < m then xs[0] else m
  }

  /** None if there is no number, 0 if the last one is 0, else the least one behind the last 0. */
  function LimitOf(xs: seq<nat>): Option<int> {
    if xs == [] then None else if SinceZero(xs) == [] then Some(0) else Some(Least(SinceZero(xs)))
  }

  lemma SinceZeroAdd(xs: seq<nat>, x: nat)
    ensures SinceZero(xs + [x]) == if x == 0 then [] else SinceZero(xs) + [x]
  {
    assert (xs + [x])[..|xs|] == xs;
  }

  lemma {:induction false} NonZero(xs: seq<nat>)
    ensures forall x :: x in SinceZero(xs) ==> x != 0
  {
    if xs != [] {
      NonZero(xs[..|xs| - 1]);
    }
  }

  lemma LeastIs(xs: seq<nat>, m: nat)
    requires m in xs && forall x :: x in xs ==> m <= x
    ensures xs != [] && Least(xs) == m
  {
  }

  /** One more crossing. */
  lemma LimitAdd(xs: seq<nat>, x: nat)
    ensures LimitOf(xs + [x])
         == if xs != [] && LimitOf(xs).value != 0 && LimitOf(xs).value <= x then LimitOf(xs) else Some(x)
  {
    var tail := SinceZero(xs);
    SinceZeroAdd(xs, x);
    NonZero(xs);
    if x != 0 {
      if tail == [] {
        LeastIs([] + [x], x);
      } else {
        LeastIs(tail + [x], if Least(tail) <= x then Least(tail) else x);
      }
    }
  }

  /** A crossing noted for a cycle, seen from any cycle. */
  lemma LowerIsLimit(minLast: seq<Entry<int>>, c: int, x: nat, roc: int, xs: seq<nat>)
    requires Full(minLast, roc) == LimitOf(xs)
    ensures Full(LowerFull(minLast, c, x), roc) == LimitOf(if c == roc then xs + [x] else xs)
  {
    var before := Get(minLast, c, 0);
    var now := if before != 0 && before <= x then before else x;
    PutMeaning(minLast, c, now);
    GetPut(minLast, c, now, roc, 0);
    if c == roc {
      LimitAdd(xs, x);
      if !Has(minLast, roc) {
        GetMissing(minLast, roc, 0);
      }
    }
  }

  // ---------- Notes ----------

  /** All marks noted, one after the other. */
  function NoteAll(minLast: seq<Entry<int>>, ms: seq<Mark>): seq<Entry<int>>
    decreases |ms|
  {
    if ms == [] then minLast else NoteAll(LowerFull(minLast, ms[0].key, ms[0].value), ms[1..])
  }

  /** Crossings marked for a cycle, in order. */
  function CrossingsAt(ms: seq<Mark>, roc: int): seq<nat> {
    if ms == [] then [] else (if ms[0].key == roc then [ms[0].value] else []) + CrossingsAt(ms[1..], roc)
  }

  lemma {:induction false} NoteAllConcat(minLast: seq<Entry<int>>, a: seq<Mark>, b: seq<Mark>)
    ensures NoteAll(minLast, a + b) == NoteAll(NoteAll(minLast, a), b)
    decreases |a|
  {
    if a == [] {
      assert a + b == b;
    } else {
      assert (a + b)[1..] == a[1..] + b;
      NoteAllConcat(LowerFull(minLast, a[0].key, a[0].value), a[1..], b);
    }
  }

  lemma {:induction false} NotesAreLimits(minLast: seq<Entry<int>>, ms: seq<Mark>, roc: int, xs: seq<nat>)
    requires Full(minLast, roc) == LimitOf(xs)
    ensures Full(NoteAll(minLast, ms), roc) == LimitOf(xs + CrossingsAt(ms, roc))
    decreases |ms|
  {
    if ms == [] {
      assert xs + [] == xs;
    } else {
      var here := if ms[0].key == roc then [ms[0].value] else [];
      assert here == [] ==> xs + here == xs;
      LowerIsLimit(minLast, ms[0].key, ms[0].value, roc, xs);
      NotesAreLimits(LowerFull(minLast, ms[0].key, ms[0].value), ms[1..], roc, xs + here);
      Regroup(xs, here, CrossingsAt(ms[1..], roc));
    }
  }

  /** The limit of a cycle: none if no sixteenth cell was marked for it, else the least crossing of
      these cells since the last 0. */
  lemma LimitOfNotes(ms: seq<Mark>, roc: int)
    ensures Full(NoteAll([], ms), roc) == LimitOf(CrossingsAt(ms, roc))
  {
    NotesAreLimits([], ms, roc, []);
    assert [] + CrossingsAt(ms, roc) == CrossingsAt(ms, roc);
  }

  /** Marks of other cycles change nothing for a cycle. */
  lemma {:induction false} NotesOther(minLast: seq<Entry<int>>, ms: seq<Mark>, roc: int)
    requires CrossingsAt(ms, roc) == []
    ensures Full(NoteAll(minLast, ms), roc) == Full(minLast, roc)
    decreases |ms|
  {
    if ms != [] {
      var before := Get(minLast, ms[0].key, 0);
      var now := if before != 0 && before <= ms[0].value then before else ms[0].value;
      PutMeaning(minLast, ms[0].key, now);
      GetPut(minLast, ms[0].key, now, roc, 0);
      NotesOther(LowerFull(minLast, ms[0].key, ms[0].value), ms[1..], roc);
    }
  }

  // ---------- Of frames ----------

  /** The mark that a packet of at least 16 memory cells leaves. */
  function MarkOf(recode: Recoding, cycle: int, pkt: seq<Byte>): seq<Mark> {
    if ProperLength(pkt) && CellCount(pkt) >= 16 then
      [Entry(cycle, recode(SentAt(pkt, CellCount(pkt), CellCount(pkt) - 16)) as nat)]
    else []
  }

  function MarksIn(cfg: ReaderConfig, recode: Recoding, cycle: int, fs: seq<Frame>): seq<Mark>
    requires GoodFrames(fs)
    decreases |fs|
  {
    if fs == [] then []
    else match fs[0]
      case AsicFrame(b) =>
        var c := NextCycle(cycle, b[4], cfg.maxRocJump);
        MarkOf(recode, c, b) + MarksIn(cfg, recode, c, fs[1..])
      case _ => MarksIn(cfg, recode, cycle, fs[1..])
  }

  lemma NoteOne(minLast: seq<Entry<int>>, recode: Recoding, c: int, pkt: seq<Byte>)
    ensures NoteFull(minLast, recode, c, pkt) == NoteAll(minLast, MarkOf(recode, c, pkt))
  {
    var ms := MarkOf(recode, c, pkt);
    if ms != [] {
      assert ms[1..] == [];
      assert NoteAll(minLast, ms) == LowerFull(minLast, ms[0].key, ms[0].value);
    }
  }

  /** Applying frames notes their marks. */
  lemma {:induction false} ApplyNotes(cfg: ReaderConfig, recode: Recoding, st: ScState, fs: seq<Frame>)
    requires GoodFrames(fs)
    ensures ApplyAll(cfg, recode, st, fs).minLast == NoteAll(st.minLast, MarksIn(cfg, recode, st.cycleNo, fs))
    decreases |fs|
  {
    if fs != [] {
      ApplyNotes(cfg, recode, Apply(cfg, recode, st, fs[0]), fs[1..]);
      match fs[0]
      case AsicFrame(b) =>
        var c := NextCycle(st.cycleNo, b[4], cfg.maxRocJump);
        NoteOne(st.minLast, recode, c, b);
        NoteAllConcat(st.minLast, MarkOf(recode, c, b), MarksIn(cfg, recode, c, fs[1..]));
      case TimestampFrame(_) =>
      case TemperatureFrame(_) =>
    }
  }

  lemma {:induction false} MarksSplit(cfg: ReaderConfig, recode: Recoding, cycle: int, a: seq<Frame>, b: seq<Frame>)
    requires GoodFrames(a) && GoodFrames(b)
    ensures GoodFrames(a + b)
    ensures MarksIn(cfg, recode, cycle, a + b)
         == MarksIn(cfg, recode, cycle, a) + MarksIn(cfg, recode, CycleAfter(cfg, cycle, a), b)
    decreases |a|
  {
    if a == [] {
      assert a + b == b;
    } else {
      assert (a + b)[1..] == a[1..] + b;
      match a[0]
      case AsicFrame(p) =>
        var c := NextCycle(cycle, p[4], cfg.maxRocJump);
        MarksSplit(cfg, recode, c, a[1..], b);
        Regroup(MarkOf(recode, c, p), MarksIn(cfg, recode, c, a[1..]), MarksIn(cfg, recode, CycleAfter(cfg, c, a[1..]), b));
      case TimestampFrame(_) => MarksSplit(cfg, recode, cycle, a[1..], b);
      case TemperatureFrame(_) => MarksSplit(cfg, recode, cycle, a[1..], b);
    }
  }

  lemma {:induction false} CrossingsConcat(a: seq<Mark>, b: seq<Mark>, roc: int)
    ensures CrossingsAt(a + b, roc) == CrossingsAt(a, roc) + CrossingsAt(b, roc)
  {
    if a == [] {
      assert a + b == b;
    } else {
      assert (a + b)[1..] == a[1..] + b;
      CrossingsConcat(a[1..], b, roc);
      Regroup(if a[0].key == roc then [a[0].value] else [], CrossingsAt(a[1..], roc), CrossingsAt(b, roc));
    }
  }

  /** Frames of other cycles mark nothing for a cycle. */
  lemma {:induction false} NoMarks(cfg: ReaderConfig, recode: Recoding, cycle: int, fs: seq<Frame>, k: int)
    requires GoodFrames(fs) && !Has(ItemsOf(cfg, recode, cycle, fs), k)
    ensures CrossingsAt(MarksIn(cfg, recode, cycle, fs), k) == []
    decreases |fs|
  {
    if fs != [] {
      match fs[0]
      case AsicFrame(b) =>
        var c := NextCycle(cycle, b[4], cfg.maxRocJump);
        var x := Entry(c, BlocksOf(cfg, recode, c, b));
        HasTail(ItemsOf(cfg, recode, cycle, fs));
        assert ([x] + ItemsOf(cfg, recode, c, fs[1..]))[1..] == ItemsOf(cfg, recode, c, fs[1..]);
        NoMarks(cfg, recode, c, fs[1..], k);
        CrossingsConcat(MarkOf(recode, c, b), MarksIn(cfg, recode, c, fs[1..]), k);
      case TimestampFrame(_) => NoMarks(cfg, recode, cycle, fs[1..], k);
      case TemperatureFrame(_) => NoMarks(cfg, recode, cycle, fs[1..], k);
    }
  }

  // ---------- Of the packets sent ----------

  /** The crossings of the sixteenth cells sent, with their true cycles: cells are sent last one first. */
  ghost function MarksSent(sents: seq<Sent>): seq<Mark> {
    if sents == [] then []
    else match sents[0]
      case AsicSent(roc, _, cells, _) =>
        (if |cells| >= 16 then [Entry(roc, cells[|cells| - 16].bxid as nat)] else []) + MarksSent(sents[1..])
      case _ => MarksSent(sents[1..])
  }

  lemma MarkOfSent(cfg: ReaderConfig, s: Sent, p: seq<Byte>)
    requires s.AsicSent? && ValidSent(cfg, s) && p == PacketOf(cfg, s)
    ensures MarkOf(BxidOf, s.roc, p) == if |s.cells| >= 16 then [Entry(s.roc, s.cells[|s.cells| - 16].bxid as nat)] else []
  {
    PacketCarries(cfg.chip, s.src, s.cells, s.ids);
    CountOfFramed(p, |s.cells|);
    if |s.cells| >= 16 {
      assert BxidOf(SentAt(p, |s.cells|, |s.cells| - 16)) == s.cells[|s.cells| - 16].bxid;
    }
  }

  /** The frames mark what the packets carried. */
  lemma {:induction false} FramesMark(cfg: ReaderConfig, cycle: int, sents: seq<Sent>)
    requires cfg.Valid() && AllValid(cfg, sents) && StepsRecovered(cfg, cycle, sents)
    requires AllWhole(Packets(cfg, sents))
    ensures GoodFrames(FramesOf(Packets(cfg, sents)))
    ensures MarksIn(cfg, BxidOf, cycle, FramesOf(Packets(cfg, sents))) == MarksSent(sents)
    decreases |sents|
  {
    if sents != [] {
      var ps := Packets(cfg, sents);
      var s := sents[0];
      assert ps[1..] == Packets(cfg, sents[1..]) && ps[0] == PacketOf(cfg, s);
      assert ValidSent(cfg, s);
      var rest := FramesOf(ps[1..]);
      var fs := FrameOf(ps[0]) + rest;
      match s
      case AsicSent(roc, src, cells, ids) =>
        PacketWhole(src, cells, ids);
        CycleRecovered(cycle, roc, cfg.maxRocJump);
        MarkOfSent(cfg, s, ps[0]);
        FramesMark(cfg, roc, sents[1..]);
        assert fs[1..] == rest;
      case StampSent(p, other) =>
        StampReadBack(p, other);
        FramesMark(cfg, cycle, sents[1..]);
        assert fs[1..] == rest;
      case OtherSent(p) =>
        FramesMark(cfg, cycle, sents[1..]);
        OtherFrame(p);
        if FrameOf(p) == [] {
          assert fs == rest;
        } else {
          assert fs[0] in FrameOf(p) && fs[1..] == rest;
        }
    }
  }
}
