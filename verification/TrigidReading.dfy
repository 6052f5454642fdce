/**
 Reading in TRIGGERID mode: the numbers handed out over a whole run.
 */
module TrigidReading {
  import opened Sequences
  import opened OrderedMap
  import opened GrayCode
  import opened AsicPacket
  import opened LdaStream
  import opened LdaTimestamps
  import opened EventBuilding
  import opened ScReading
  import opened RocReading

  /** In-acquisition trigger numbers of the cycles that the passes of a run process, in order. */
  function ProcessedNumbers(cfg: ReaderConfig, recode: Recoding, st: ScState, rest: seq<Byte>, chunks: seq<seq<Byte>>): seq<int>
    requires cfg.Valid() && st.Valid()
    decreases |chunks|
  {
    if chunks == [] then NumbersAt(cfg, st, true)
    else
      var buf := rest + chunks[0];
      ReadValid(cfg, recode, st, buf);
      ReadNumbers(cfg, recode, st, buf)
      + ProcessedNumbers(cfg, recode, ReadOnce(cfg, recode, st, buf), Scan(buf).rest, chunks[1..])
  }

  /** The same for one pass. */
  function NumbersAt(cfg: ReaderConfig, st: ScState, dumpAll: bool): seq<int>
    requires AllPaired(st.ts.data)
  {
    PassNumbers(cfg.build, st.asic, st.ts.data, Keep(cfg.build, dumpAll))
  }

  /** The numbers handed out so far are those of the gap filling over some real numbers. */
  ghost predicate NumberedBy(st: ScState, from: int, ids: seq<int>) {
    Numbers(st.events) == FillAll(from - 1, ids) && st.last == AdvanceAll(from - 1, ids)
  }

  lemma BuildNumbers(cfg: ReaderConfig, st: ScState, dumpAll: bool, from: int, ids: seq<int>)
    requires cfg.Valid() && cfg.mode.TrigidMode? && cfg.build.insertDummies && AllPaired(st.ts.data) && NumberedBy(st, from, ids)
    ensures NumberedBy(Build(cfg, st, dumpAll), from, ids + NumbersAt(cfg, st, dumpAll))
  {
    var keep := Keep(cfg.build, dumpAll);
    BuildTrigNumbers(cfg.build, st.asic, st.ts.data, st.last, keep);
    NumbersConcat(st.events, BuildTrig(cfg.build, st.asic, st.ts.data, st.last, keep).events);
    FillConcat(from - 1, ids, NumbersAt(cfg, st, dumpAll));
  }

  /** The numbers of one read. */
  function ReadNumbers(cfg: ReaderConfig, recode: Recoding, st: ScState, buf: seq<Byte>): seq<int>
    requires cfg.Valid() && st.Valid()
  {
    ScannedGood(buf);
    ApplyAllValid(cfg, recode, st, Scan(buf).frames);
    if Scan(buf).foreign then [] else NumbersAt(cfg, ApplyAll(cfg, recode, st, Scan(buf).frames), false)
  }

  lemma ReadKeepsNumbers(cfg: ReaderConfig, recode: Recoding, st: ScState, buf: seq<Byte>, from: int, ids: seq<int>)
    requires cfg.Valid() && cfg.mode.TrigidMode? && cfg.build.insertDummies && st.Valid() && NumberedBy(st, from, ids)
    ensures NumberedBy(ReadOnce(cfg, recode, st, buf), from, ids + ReadNumbers(cfg, recode, st, buf))
  {
    ScannedGood(buf);
    ApplyAllValid(cfg, recode, st, Scan(buf).frames);
    ApplyFiles(cfg, recode, st, Scan(buf).frames);
    if Scan(buf).foreign {
      assert ids + [] == ids;
    } else {
      BuildNumbers(cfg, ApplyAll(cfg, recode, st, Scan(buf).frames), false, from, ids);
    }
  }

  lemma {:induction false} RunNumbers(
      cfg: ReaderConfig, recode: Recoding, st: ScState, rest: seq<Byte>, chunks: seq<seq<Byte>>, from: int, ids: seq<int>)
    requires cfg.Valid() && cfg.mode.TrigidMode? && cfg.build.insertDummies && st.Valid() && NumberedBy(st, from, ids)
    ensures NumberedBy(ReadRun(cfg, recode, st, rest, chunks), from, ids + ProcessedNumbers(cfg, recode, st, rest, chunks))
    decreases |chunks|
  {
    if chunks == [] {
      BuildNumbers(cfg, st, true, from, ids);
    } else {
      var buf := rest + chunks[0];
      var next, now := ReadOnce(cfg, recode, st, buf), ReadNumbers(cfg, recode, st, buf);
      ReadValid(cfg, recode, st, buf);
      ReadKeepsNumbers(cfg, recode, st, buf, from, ids);
      RunNumbers(cfg, recode, next, Scan(buf).rest, chunks[1..], from, ids + now);
      Regroup(ids, now, ProcessedNumbers(cfg, recode, next, Scan(buf).rest, chunks[1..]));
    }
  }

  /** Gap filling over a whole run in TRIGGERID mode: with dummies the numbers run from the configured
      start without gap or repetition if and only if the in-acquisition trigger numbers strictly
      increase over the processed cycles, from at least that start; the real events stand exactly at
      those numbers. */
  lemma TrigidRun(cfg: ReaderConfig, recode: Recoding, chunks: seq<seq<Byte>>)
    requires cfg.Valid() && cfg.mode.TrigidMode? && cfg.build.insertDummies
    ensures var ns := Numbers(ReadRun(cfg, recode, Start(cfg), [], chunks).events);
      var ids := ProcessedNumbers(cfg, recode, Start(cfg), [], chunks);
      && (Contiguous(ns, cfg.build.generateFrom) <==> Rising(ids, cfg.build.generateFrom))
      && Reals(ns) == ids
  {
    var ids := ProcessedNumbers(cfg, recode, Start(cfg), [], chunks);
    RunNumbers(cfg, recode, Start(cfg), [], chunks, cfg.build.generateFrom, []);
    assert [] + ids == ids;
    FillTells(Numbers(ReadRun(cfg, recode, Start(cfg), [], chunks).events), cfg.build.generateFrom, ids);
  }

  lemma FillTells(ns: seq<Numbered>, from: int, ids: seq<int>)
    requires ns == FillAll(from - 1, ids)
    ensures (Contiguous(ns, from) <==> Rising(ids, from)) && Reals(ns) == ids
  {
    FillContiguous(from - 1, ids);
    FillReals(from - 1, ids);
  }
}
