/**
 What the packets sent bring to the readout cycles: blocks, time data and full crossings under their
 true cycles.
 */
module SentData {
  import opened Sequences
  import opened OrderedMap
  import opened GrayCode
  import opened AsicPacket
  import opened LdaStream
  import opened LdaTimestamps
  import opened EventBuilding
  import opened ScReading
  import opened RocReading
  import opened FullCells
  import opened TimesReading
  import opened ValidatedVisits
  import opened ValidatedRuns
  import opened ReadArrivals

  /** What is buffered if the whole stream is read before anything is built. */
  function WholeOf(cfg: ReaderConfig, recode: Recoding, bytes: seq<Byte>): Buf {
    ScannedGood(bytes);
    BufOf(ApplyAll(cfg, recode, Start(cfg), Scan(bytes).frames))
  }

  /** The cycles and data that the packets bring in the order sent. */
  ghost function SentArrivals(cfg: ReaderConfig, sents: seq<Sent>): seq<Arr>
    requires cfg.Valid() && RocReading.AllValid(cfg, sents)
  {
    SentWhole(cfg, sents);
    ScanPackets(Packets(cfg, sents));
    ScannedGood(Bytes(cfg, sents));
    ArrivalsOf(cfg, BxidOf, ClockOf(Start(cfg)), Scan(Bytes(cfg, sents)).frames)
  }

  /** Everything that was sent: blocks by true cycle, time data, and full crossings. */
  ghost function SentWholly(cfg: ReaderConfig, sents: seq<Sent>): Buf
    requires RocReading.AllValid(cfg, sents)
  {
    Buf(Group(Recorded(cfg, sents)), Run(cfg.ts, Initial(cfg.ts), SentStamps(sents)).data, NoteAll([], MarksSent(sents)))
  }

  /** Reading the whole stream files what was sent. */
  lemma WholeIsSent(cfg: ReaderConfig, sents: seq<Sent>)
    requires cfg.Valid() && RocReading.AllValid(cfg, sents) && StepsRecovered(cfg, -1, sents)
    ensures !Scan(Bytes(cfg, sents)).foreign
    ensures WholeOf(cfg, BxidOf, Bytes(cfg, sents)) == SentWholly(cfg, sents)
  {
    SentWhole(cfg, sents);
    ScanPackets(Packets(cfg, sents));
    ScannedGood(Bytes(cfg, sents));
    FramesCarryRecorded(cfg, -1, sents);
    FramesMark(cfg, -1, sents);
    FramesStamp(cfg, sents);
    var fs := Scan(Bytes(cfg, sents)).frames;
    ApplyFiles(cfg, BxidOf, Start(cfg), fs);
    ApplyNotes(cfg, BxidOf, Start(cfg), fs);
    ApplyTimes(cfg, BxidOf, Start(cfg), fs);
  }
}
