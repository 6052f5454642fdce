/**
 The payload of an ASIC readout packet: `ScReader::readAHCALData` after the readout cycle of
 the packet is known.
 */
module AsicPacket {
  import opened GrayCode
  import opened OrderedMap
  import Counters

  type Byte = b: int | 0 <= b < 0x100

  const HEADER_SIZE := 10  // bytes of the LDA header in front of every payload
  const CHANNELS := 36

  /** Settings that choose the chip number and the accepted crossings. */
  datatype ChipConfig = ChipConfig(addBefore: int, keepBits: nat, addAfter: int, difBit: int, minimumBxid: int)

  /** What one memory cell of one ASIC recorded; channels in their natural order. */
  datatype Cell = Cell(bxid: U16, tdc: seq<U16>, adc: seq<U16>) {
    predicate Valid() {
      |tdc| == CHANNELS && |adc| == CHANNELS
    }
  }

  /** One decoded memory cell. */
  datatype Block = Block(cycle: int, bxid: int, memCell: nat, chip: int, tdc: seq<U16>, adc: seq<U16>)

  // ---------- Little-endian words ----------

  function Le16(buf: seq<Byte>, i: nat): U16
    requires i + 1 < |buf|
  {
    (buf[i] as int) + 256 * (buf[i + 1] as int)
  }

  function EncLe16(v: U16): (r: seq<Byte>)
    ensures |r| == 2
  {
    [v % 256, v / 256]
  }

  function EncWords(vs: seq<U16>): (r: seq<Byte>)
    ensures |r| == 2 * |vs|
  {
    if vs == [] then [] else EncLe16(vs[0]) + EncWords(vs[1..])
  }

  lemma {:induction false} EncWordsAt(vs: seq<U16>, i: nat)
    requires i < |vs|
    ensures Le16(EncWords(vs), 2 * i) == vs[i]
    decreases i
  {
    if i > 0 {
      EncWordsAt(vs[1..], i - 1);
      var r := EncWords(vs[1..]);
      assert EncWords(vs)[2 * i] == r[2 * i - 2];
      assert EncWords(vs)[2 * i + 1] == r[2 * i - 1];
    }
  }

  function Reverse<T>(s: seq<T>): (r: seq<T>)
    ensures |r| == |s|
    ensures forall i :: 0 <= i < |s| ==> r[i] == s[|s| - 1 - i]
  {
    if s == [] then [] else Reverse(s[1..]) + [s[0]]
  }

  // ---------- Encoding ----------

  /** TDC words then ADC words, the last channel first. */
  function EncCell(c: Cell): (r: seq<Byte>)
    requires c.Valid()
    ensures |r| == 4 * CHANNELS
  {
    EncWords(Reverse(c.tdc)) + EncWords(Reverse(c.adc))
  }

  predicate ValidCells(cells: seq<Cell>) {
    forall i :: 0 <= i < |cells| ==> cells[i].Valid()
  }

  function EncCells(cells: seq<Cell>): (r: seq<Byte>)
    requires ValidCells(cells)
    ensures |r| == 144 * |cells|
  {
    if cells == [] then [] else EncCell(cells[0]) + EncCells(cells[1..])
  }

  /** Header and payload of one packet with `cells` in readout order (last filled cell first). */
  datatype Source = Source(cycle: Byte, reserved: Byte, lda: Byte, port: Byte, statusLow: Byte,
                           chipIndex: Byte, roChain: Byte, dif: Byte, spare: Byte, chip: U16)

  const ASIC_MAGIC: seq<Byte> := [0x41, 0x43, 0x48, 0x41]

  function PayloadLength(n: nat): nat {
    12 + 146 * n
  }

  /** Header and first eight payload bytes. */
  function Head(src: Source, n: nat): (r: seq<Byte>)
    requires PayloadLength(n) < 0x1_0000
    ensures GoodHead(r, src.cycle, src.dif, n)
  {
    var len := EncLe16(PayloadLength(n));
    var r := [0xCD, 0xCD, len[0], len[1], src.cycle, src.reserved, src.lda, src.port, src.statusLow, 0x40,
              0x41, 0x43, 0x48, 0x41, src.chipIndex, src.roChain, src.dif, src.spare];
    assert r[10..14] == ASIC_MAGIC;
    r
  }

  predicate GoodHead(head: seq<Byte>, cycle: Byte, dif: Byte, n: nat) {
    && |head| == HEADER_SIZE + 8
    && head[0] == head[1] == 0xCD && Le16(head, 2) == PayloadLength(n)
    && head[4] == cycle && head[9] == 0x40 && head[10..14] == ASIC_MAGIC && head[16] == dif
  }

  /** A whole packet: header, channel words of all cells, the identifiers as sent, chip number
      and footer. */
  function Encode(head: seq<Byte>, cells: seq<Cell>, sent: seq<U16>, tail: seq<Byte>): (r: seq<Byte>)
    requires ValidCells(cells)
    ensures |r| == |head| + 144 * |cells| + 2 * |sent| + |tail|
  {
    head + EncCells(cells) + EncWords(sent) + tail
  }

  function Tail(src: Source): (r: seq<Byte>)
    ensures |r| == 4 && Le16(r, 0) == src.chip
  {
    EncLe16(src.chip) + [0xAB, 0xAB]
  }

  lemma {:induction false} EncCellsAt(cells: seq<Cell>, k: nat)
    requires ValidCells(cells) && k < |cells|
    ensures EncCells(cells)[144 * k..144 * k + 144] == EncCell(cells[k])
    decreases k
  {
    var rest := EncCells(cells[1..]);
    if k == 0 {
      assert EncCells(cells)[..144] == EncCell(cells[0]);
    } else {
      EncCellsAt(cells[1..], k - 1);
      assert EncCells(cells)[144 * k..144 * k + 144] == rest[144 * (k - 1)..144 * (k - 1) + 144];
    }
  }

  // ---------- Decoding ----------

  /** 36 words from `at` on, in reversed order. */
  function Channels(pkt: seq<Byte>, at: nat): (r: seq<U16>)
    requires at + 2 * CHANNELS <= |pkt|
    ensures |r| == CHANNELS
  {
    seq(CHANNELS, n requires 0 <= n < CHANNELS => Le16(pkt, at + 2 * (CHANNELS - n - 1)))
  }

  predicate Framed(pkt: seq<Byte>, n: nat) {
    |pkt| == HEADER_SIZE + PayloadLength(n)
  }

  /** Chip number after offset, masking and the optional DIF number. */
  function ChipNumber(cfg: ChipConfig, raw: U16, dif: Byte): int {
    var kept := (raw + cfg.addBefore) % Counters.Pow2(cfg.keepBits) + cfg.addAfter;
    if cfg.difBit > 0 then kept + dif * Counters.Pow2(cfg.difBit) else kept
  }

  function ChipOf(cfg: ChipConfig, pkt: seq<Byte>, n: nat): int
    requires Framed(pkt, n)
  {
    ChipNumber(cfg, Le16(pkt, |pkt| - 4), pkt[HEADER_SIZE + 6])
  }

  /** The identifier word of the `k`-th cell in readout order. */
  function SentAt(pkt: seq<Byte>, n: nat, k: nat): U16
    requires Framed(pkt, n) && k < n
  {
    Le16(pkt, |pkt| - 6 - 2 * (n - 1 - k))
  }

  /** How identifier words are read: `grayRecode` in the running system. */
  type Recoding = U16 -> U16

  /** Cells `k..n` in readout order; `slot` counts the channel groups consumed so far. A cell
      below the minimum is dropped and does not consume its channel group. */
  function CellsFrom(cfg: ChipConfig, recode: Recoding, cycle: int, pkt: seq<Byte>, n: nat, k: nat, slot: nat): seq<Block>
    requires Framed(pkt, n) && slot <= k <= n
    decreases n - k
  {
    if k == n then []
    else
      var bxid := recode(SentAt(pkt, n, k));
      if bxid < cfg.minimumBxid then CellsFrom(cfg, recode, cycle, pkt, n, k + 1, slot)
      else
        [BlockAt(cfg, cycle, bxid, pkt, n, k, slot)] + CellsFrom(cfg, recode, cycle, pkt, n, k + 1, slot + 1)
  }

  function BlockAt(cfg: ChipConfig, cycle: int, bxid: U16, pkt: seq<Byte>, n: nat, k: nat, slot: nat): Block
    requires Framed(pkt, n) && slot <= k < n
  {
    var at := HEADER_SIZE + 8 + 144 * slot;
    Block(cycle, bxid, n - 1 - k, ChipOf(cfg, pkt, n), Channels(pkt, at), Channels(pkt, at + 72))
  }

  /** Everything one packet contributes to its readout cycle. */
  function Decode(cfg: ChipConfig, cycle: int, pkt: seq<Byte>, n: nat): seq<Block>
    requires Framed(pkt, n)
  {
    CellsFrom(cfg, BxidOf, cycle, pkt, n, 0, 0)
  }

  // ---------- Round trip ----------

  predicate Accepted(cfg: ChipConfig, c: Cell) {
    c.bxid >= cfg.minimumBxid
  }

  /** What a packet of `cells` ought to give: one block per accepted cell, in readout order. */
  function Expected(cfg: ChipConfig, cycle: int, chip: int, cells: seq<Cell>, k: nat): seq<Block>
    requires k <= |cells|
    decreases |cells| - k
  {
    if k == |cells| then []
    else if Accepted(cfg, cells[k]) then
      [Block(cycle, cells[k].bxid, |cells| - 1 - k, chip, cells[k].tdc, cells[k].adc)]
      + Expected(cfg, cycle, chip, cells, k + 1)
    else Expected(cfg, cycle, chip, cells, k + 1)
  }

  /** Once a cell is dropped, so are all cells read out after it. */
  predicate DropsAreSuffix(cfg: ChipConfig, cells: seq<Cell>) {
    forall i, j :: 0 <= i < j < |cells| && !Accepted(cfg, cells[i]) ==> !Accepted(cfg, cells[j])
  }

  /** Identifiers never grow along the readout order, as the readout itself expects. */
  predicate InSequence(cells: seq<Cell>) {
    forall i, j :: 0 <= i < j < |cells| ==> cells[j].bxid <= cells[i].bxid
  }

  lemma Le16Slice(big: seq<Byte>, small: seq<Byte>, at: nat, i: nat)
    requires at + |small| <= |big| && big[at..at + |small|] == small && i + 1 < |small|
    ensures Le16(big, at + i) == Le16(small, i)
  {
    assert big[at..at + |small|][i] == big[at + i];
    assert big[at..at + |small|][i + 1] == big[at + i + 1];
  }

  lemma Slices(head: seq<Byte>, a: seq<Byte>, b: seq<Byte>, tail: seq<Byte>, pkt: seq<Byte>)
    requires pkt == head + a + b + tail
    ensures pkt[..|head|] == head
    ensures pkt[|head|..|head| + |a|] == a
    ensures pkt[|head| + |a|..|head| + |a| + |b|] == b
    ensures pkt[|head| + |a| + |b|..] == tail
  {
  }

  /** The pieces of an encoded packet at their offsets. */
  lemma EncodeLayout(head: seq<Byte>, cells: seq<Cell>, sent: seq<U16>, tail: seq<Byte>)
    requires ValidCells(cells)
    ensures var pkt := Encode(head, cells, sent, tail); var b := |head| + 144 * |cells|; var t := b + 2 * |sent|;
      && pkt[..|head|] == head
      && pkt[|head|..b] == EncCells(cells)
      && pkt[b..t] == EncWords(sent)
      && pkt[t..] == tail
  {
    Slices(head, EncCells(cells), EncWords(sent), tail, Encode(head, cells, sent, tail));
  }

  lemma ChipRoundTrip(cfg: ChipConfig, src: Source, head: seq<Byte>, cells: seq<Cell>, sent: seq<U16>)
    requires ValidCells(cells) && |sent| == |cells| && GoodHead(head, src.cycle, src.dif, |cells|)
    ensures ChipOf(cfg, Encode(head, cells, sent, Tail(src)), |cells|) == ChipNumber(cfg, src.chip, src.dif)
  {
    var tail := Tail(src);
    var pkt := Encode(head, cells, sent, tail);
    EncodeLayout(head, cells, sent, tail);
    var t := |pkt| - 4;
    assert pkt[t] == pkt[t..][0] && pkt[t + 1] == pkt[t..][1];
    assert pkt[16] == pkt[..|head|][16];
  }

  lemma SentRoundTrip(head: seq<Byte>, cells: seq<Cell>, sent: seq<U16>, tail: seq<Byte>, k: nat)
    requires ValidCells(cells) && |sent| == |cells| && |head| == HEADER_SIZE + 8 && |tail| == 4 && k < |cells|
    ensures SentAt(Encode(head, cells, sent, tail), |cells|, k) == sent[k]
  {
    EncodeLayout(head, cells, sent, tail);
    EncWordsAt(sent, k);
    Le16Slice(Encode(head, cells, sent, tail), EncWords(sent), |head| + 144 * |cells|, 2 * k);
  }

  lemma EncWordsAll(vs: seq<U16>)
    ensures forall i :: 0 <= i < |vs| ==> Le16(EncWords(vs), 2 * i) == vs[i]
  {
    forall i | 0 <= i < |vs| ensures Le16(EncWords(vs), 2 * i) == vs[i] {
      EncWordsAt(vs, i);
    }
  }

  lemma ChannelsOfWords(pkt: seq<Byte>, at: nat, words: seq<U16>, enc: seq<Byte>)
    requires |words| == CHANNELS && |enc| == 2 * CHANNELS && at + 2 * CHANNELS <= |pkt|
    requires forall i :: 0 <= i < CHANNELS ==> Le16(enc, 2 * i) == words[CHANNELS - 1 - i]
    requires pkt[at..at + 2 * CHANNELS] == enc
    ensures Channels(pkt, at) == words
  {
    forall n | 0 <= n < CHANNELS ensures Le16(pkt, at + 2 * (CHANNELS - n - 1)) == words[n] {
      Le16Slice(pkt, enc, at, 2 * (CHANNELS - n - 1));
    }
  }

  lemma CellSlice(head: seq<Byte>, cells: seq<Cell>, sent: seq<U16>, tail: seq<Byte>, k: nat)
    requires ValidCells(cells) && k < |cells|
    ensures var at := |head| + 144 * k; var pkt := Encode(head, cells, sent, tail);
            at + 144 <= |pkt| && pkt[at..at + 144] == EncCell(cells[k])
  {
    var pkt, body := Encode(head, cells, sent, tail), EncCells(cells);
    EncodeLayout(head, cells, sent, tail);
    EncCellsAt(cells, k);
    assert pkt[|head| + 144 * k..|head| + 144 * k + 144] == body[144 * k..144 * k + 144];
  }

  lemma SplitCell(pkt: seq<Byte>, at: nat, c: Cell)
    requires c.Valid() && at + 144 <= |pkt| && pkt[at..at + 144] == EncCell(c)
    ensures Channels(pkt, at) == c.tdc && Channels(pkt, at + 72) == c.adc
  {
    var rt, ra := Reverse(c.tdc), Reverse(c.adc);
    var t, a := EncWords(rt), EncWords(ra);
    var both := pkt[at..at + 144];
    assert pkt[at..at + 72] == both[..72] == t;
    assert pkt[at + 72..at + 144] == both[72..] == a;
    EncWordsAll(rt);
    EncWordsAll(ra);
    ChannelsOfWords(pkt, at, c.tdc, t);
    ChannelsOfWords(pkt, at + 72, c.adc, a);
  }

  /** The packet holds these cells at their places. */
  ghost predicate Carries(recode: Recoding, pkt: seq<Byte>, cells: seq<Cell>) {
    && Framed(pkt, |cells|)
    && (forall k :: 0 <= k < |cells| ==> recode(SentAt(pkt, |cells|, k)) == cells[k].bxid)
    && (forall k :: 0 <= k < |cells| ==> ChannelsAt(pkt, k, cells[k]))
  }

  ghost predicate ChannelsAt(pkt: seq<Byte>, k: nat, c: Cell) {
    var at := HEADER_SIZE + 8 + 144 * k;
    at + 144 <= |pkt| && Channels(pkt, at) == c.tdc && Channels(pkt, at + 72) == c.adc
  }

  lemma EncodeCarries(recode: Recoding, head: seq<Byte>, cells: seq<Cell>, sent: seq<U16>, tail: seq<Byte>)
    requires ValidCells(cells) && |sent| == |cells| && |head| == HEADER_SIZE + 8 && |tail| == 4
    requires forall k :: 0 <= k < |cells| ==> recode(sent[k]) == cells[k].bxid
    ensures Carries(recode, Encode(head, cells, sent, tail), cells)
  {
    var pkt := Encode(head, cells, sent, tail);
    forall k | 0 <= k < |cells|
      ensures recode(SentAt(pkt, |cells|, k)) == cells[k].bxid && ChannelsAt(pkt, k, cells[k])
    {
      SentRoundTrip(head, cells, sent, tail, k);
      CellSlice(head, cells, sent, tail, k);
      SplitCell(pkt, |head| + 144 * k, cells[k]);
    }
  }

  /** From a cell on, no accepted cell follows a dropped one, which would leave `slot` behind `k`. */
  predicate DropsLast(cfg: ChipConfig, cells: seq<Cell>, k: nat, slot: nat)
    requires k <= |cells|
    decreases |cells| - k
  {
    k == |cells|
    || (if Accepted(cfg, cells[k]) then slot == k && DropsLast(cfg, cells, k + 1, slot + 1)
        else DropsLast(cfg, cells, k + 1, slot))
  }

  lemma {:induction false} SuffixDropsLast(cfg: ChipConfig, cells: seq<Cell>, k: nat, slot: nat)
    requires DropsAreSuffix(cfg, cells) && slot <= k <= |cells|
    requires slot < k ==> 0 < k && !Accepted(cfg, cells[k - 1])
    ensures DropsLast(cfg, cells, k, slot)
    decreases |cells| - k
  {
    if k < |cells| {
      SuffixDropsLast(cfg, cells, k + 1, if Accepted(cfg, cells[k]) then slot + 1 else slot);
    }
  }

  lemma {:induction false} DecodedFrom(cfg: ChipConfig, recode: Recoding, cycle: int, pkt: seq<Byte>, cells: seq<Cell>,
                                       k: nat, slot: nat)
    requires Carries(recode, pkt, cells) && slot <= k <= |cells| && DropsLast(cfg, cells, k, slot)
    ensures CellsFrom(cfg, recode, cycle, pkt, |cells|, k, slot)
         == Expected(cfg, cycle, ChipOf(cfg, pkt, |cells|), cells, k)
    decreases |cells| - k
  {
    if k < |cells| {
      assert recode(SentAt(pkt, |cells|, k)) == cells[k].bxid;
      assert ChannelsAt(pkt, k, cells[k]);
      DecodedFrom(cfg, recode, cycle, pkt, cells, k + 1, if Accepted(cfg, cells[k]) then slot + 1 else slot);
    }
  }

  /** The words in which the front end sends the identifiers of `cells`, given as bit patterns. */
  function SentWords(ids: seq<bv16>): (r: seq<U16>)
    ensures |r| == |ids| && forall k :: 0 <= k < |ids| ==> r[k] == SentFor(ids[k])
  {
    seq(|ids|, k requires 0 <= k < |ids| => SentFor(ids[k]))
  }

  ghost predicate Identified(cells: seq<Cell>, ids: seq<bv16>) {
    |cells| == |ids| && forall k :: 0 <= k < |ids| ==> cells[k].bxid == ids[k] as int
  }

  /** The packet a front end sends for `cells`. */
  function Packet(src: Source, cells: seq<Cell>, ids: seq<bv16>): seq<Byte>
    requires ValidCells(cells) && |cells| == |ids| && PayloadLength(|cells|) < 0x1_0000
  {
    Encode(Head(src, |cells|), cells, SentWords(ids), Tail(src))
  }

  lemma PacketCarries(cfg: ChipConfig, src: Source, cells: seq<Cell>, ids: seq<bv16>)
    requires ValidCells(cells) && Identified(cells, ids) && PayloadLength(|cells|) < 0x1_0000
    ensures Carries(BxidOf, Packet(src, cells, ids), cells)
    ensures ChipOf(cfg, Packet(src, cells, ids), |cells|) == ChipNumber(cfg, src.chip, src.dif)
  {
    var sent, head, tail := SentWords(ids), Head(src, |cells|), Tail(src);
    forall k | 0 <= k < |cells| ensures BxidOf(sent[k]) == cells[k].bxid {
      BxidRecovered(ids[k]);
    }
    EncodeCarries(BxidOf, head, cells, sent, tail);
    ChipRoundTrip(cfg, src, head, cells, sent);
  }

  /** Round trip: whatever the number of cells, decoding a packet gives one block per accepted
      cell, with its identifier, chip number, TDC and ADC channels, provided that the dropped
      cells come last. */
  lemma RoundTrip(cfg: ChipConfig, cycle: int, src: Source, cells: seq<Cell>, ids: seq<bv16>)
    requires ValidCells(cells) && Identified(cells, ids) && PayloadLength(|cells|) < 0x1_0000
    requires DropsAreSuffix(cfg, cells)
    ensures Framed(Packet(src, cells, ids), |cells|)
    ensures Decode(cfg, cycle, Packet(src, cells, ids), |cells|)
         == Expected(cfg, cycle, ChipNumber(cfg, src.chip, src.dif), cells, 0)
  {
    PacketCarries(cfg, src, cells, ids);
    SuffixDropsLast(cfg, cells, 0, 0);
    DecodedFrom(cfg, BxidOf, cycle, Packet(src, cells, ids), cells, 0, 0);
  }

  /** In-sequence identifiers meet that condition whatever the minimum is. */
  lemma InSequenceSuffices(cfg: ChipConfig, cells: seq<Cell>)
    requires InSequence(cells)
    ensures DropsAreSuffix(cfg, cells)
  {
  }

  // ---------- The condition is exact ----------

  /** The same cells with channel words that all show the readout position. */
  function Marked(cells: seq<Cell>): (r: seq<Cell>)
    requires |cells| < 0x1_0000
    ensures ValidCells(r) && |r| == |cells|
    ensures forall i :: 0 <= i < |cells| ==> r[i].bxid == cells[i].bxid && r[i].tdc[0] == i
  {
    seq(|cells|, i requires 0 <= i < |cells| => Cell(cells[i].bxid, seq(CHANNELS, _ => i), seq(CHANNELS, _ => i)))
  }

  /** After the first drop the channel groups lag behind: the next accepted cell gets the words
      of an earlier one. */
  lemma {:induction false} LaggingDiffers(cfg: ChipConfig, recode: Recoding, cycle: int, pkt: seq<Byte>, cells: seq<Cell>,
                                          k: nat, slot: nat, j: nat)
    requires Carries(recode, pkt, cells) && ValidCells(cells) && slot < k <= j < |cells|
    requires forall i :: 0 <= i < |cells| ==> cells[i].tdc[0] == i
    requires Accepted(cfg, cells[j])
    ensures CellsFrom(cfg, recode, cycle, pkt, |cells|, k, slot)
         != Expected(cfg, cycle, ChipOf(cfg, pkt, |cells|), cells, k)
    decreases |cells| - k
  {
    assert recode(SentAt(pkt, |cells|, k)) == cells[k].bxid;
    if Accepted(cfg, cells[k]) {
      assert ChannelsAt(pkt, slot, cells[slot]);
      var got := CellsFrom(cfg, recode, cycle, pkt, |cells|, k, slot);
      var want := Expected(cfg, cycle, ChipOf(cfg, pkt, |cells|), cells, k);
      assert got[0].tdc[0] == slot && want[0].tdc[0] == k;
    } else {
      LaggingDiffers(cfg, recode, cycle, pkt, cells, k + 1, slot, j);
    }
  }

  lemma ConsDiffers<T>(x: T, a: seq<T>, y: T, b: seq<T>)
    requires a != b
    ensures [x] + a != [y] + b
  {
    assert ([x] + a)[1..] == a && ([y] + b)[1..] == b;
  }

  /** The packet holds the cells, and every channel word of a cell shows its readout position. */
  ghost predicate Showing(recode: Recoding, pkt: seq<Byte>, cells: seq<Cell>)
    requires ValidCells(cells)
  {
    Carries(recode, pkt, cells) && forall p :: 0 <= p < |cells| ==> cells[p].tdc[0] == p
  }

  /** Decoding from a cell on gives something else than expected. */
  ghost predicate Differs(cfg: ChipConfig, recode: Recoding, cycle: int, pkt: seq<Byte>, cells: seq<Cell>, k: nat, slot: nat)
    requires ValidCells(cells) && Framed(pkt, |cells|) && slot <= k <= |cells|
  {
    CellsFrom(cfg, recode, cycle, pkt, |cells|, k, slot) != Expected(cfg, cycle, ChipOf(cfg, pkt, |cells|), cells, k)
  }

  lemma DiffersInFront(cfg: ChipConfig, recode: Recoding, cycle: int, pkt: seq<Byte>, cells: seq<Cell>, k: nat)
    requires ValidCells(cells) && Framed(pkt, |cells|) && k < |cells| && Accepted(cfg, cells[k])
    ensures Showing(recode, pkt, cells) && Differs(cfg, recode, cycle, pkt, cells, k + 1, k + 1)
        ==> Differs(cfg, recode, cycle, pkt, cells, k, k)
  {
    var chip := ChipOf(cfg, pkt, |cells|);
    var got, want := CellsFrom(cfg, recode, cycle, pkt, |cells|, k + 1, k + 1), Expected(cfg, cycle, chip, cells, k + 1);
    if Showing(recode, pkt, cells) && got != want {
      assert recode(SentAt(pkt, |cells|, k)) == cells[k].bxid;
      ConsDiffers(BlockAt(cfg, cycle, cells[k].bxid, pkt, |cells|, k, k), got,
                  Block(cycle, cells[k].bxid, |cells| - 1 - k, chip, cells[k].tdc, cells[k].adc), want);
    }
  }

  lemma DroppedHere(cfg: ChipConfig, recode: Recoding, cycle: int, pkt: seq<Byte>, cells: seq<Cell>, k: nat, j: nat)
    requires ValidCells(cells) && Framed(pkt, |cells|) && k < j < |cells|
    requires !Accepted(cfg, cells[k]) && Accepted(cfg, cells[j])
    ensures Showing(recode, pkt, cells) ==> Differs(cfg, recode, cycle, pkt, cells, k, k)
  {
    if Showing(recode, pkt, cells) {
      assert recode(SentAt(pkt, |cells|, k)) == cells[k].bxid;
      LaggingDiffers(cfg, recode, cycle, pkt, cells, k + 1, k, j);
    }
  }

  lemma {:induction false} DropDiffers(cfg: ChipConfig, recode: Recoding, cycle: int, pkt: seq<Byte>, cells: seq<Cell>,
                                       k: nat, i: nat, j: nat)
    requires ValidCells(cells) && Framed(pkt, |cells|) && k <= i < j < |cells|
    requires !Accepted(cfg, cells[i]) && Accepted(cfg, cells[j])
    ensures Showing(recode, pkt, cells) ==> Differs(cfg, recode, cycle, pkt, cells, k, k)
    decreases |cells| - k
  {
    if Accepted(cfg, cells[k]) {
      DropDiffers(cfg, recode, cycle, pkt, cells, k + 1, i, j);
      DiffersInFront(cfg, recode, cycle, pkt, cells, k);
    } else {
      DroppedHere(cfg, recode, cycle, pkt, cells, k, j);
    }
  }

  lemma SameDrops(cfg: ChipConfig, a: seq<Cell>, b: seq<Cell>)
    requires |a| == |b| && DropsAreSuffix(cfg, a)
    requires forall i :: 0 <= i < |a| ==> a[i].bxid == b[i].bxid
    ensures DropsAreSuffix(cfg, b)
  {
    forall i, j | 0 <= i < j < |b| && !Accepted(cfg, b[i]) ensures !Accepted(cfg, b[j]) {
      assert !Accepted(cfg, a[i]);
    }
  }

  ghost predicate DecodedRight(cfg: ChipConfig, cycle: int, src: Source, cells: seq<Cell>, ids: seq<bv16>)
    requires ValidCells(cells) && |cells| == |ids| && PayloadLength(|cells|) < 0x1_0000
  {
    Decode(cfg, cycle, Packet(src, cells, ids), |cells|)
    == Expected(cfg, cycle, ChipNumber(cfg, src.chip, src.dif), cells, 0)
  }

  lemma WrongWhenDropPrecedes(cfg: ChipConfig, cycle: int, src: Source, cells: seq<Cell>, ids: seq<bv16>, i: nat, j: nat)
    requires Identified(cells, ids) && PayloadLength(|ids|) < 0x1_0000
    requires i < j < |cells| && !Accepted(cfg, cells[i]) && Accepted(cfg, cells[j])
    ensures !DecodedRight(cfg, cycle, src, Marked(cells), ids) && Identified(Marked(cells), ids)
  {
    var marked := Marked(cells);
    PacketCarries(cfg, src, marked, ids);
    DropDiffers(cfg, BxidOf, cycle, Packet(src, marked, ids), marked, 0, i, j);
  }

  /** Packets with given identifiers are decoded right, whatever their channels hold, if and
      only if the dropped cells come last in readout order. */
  lemma RoundTripExactly(cfg: ChipConfig, cycle: int, src: Source, cells: seq<Cell>, ids: seq<bv16>)
    requires Identified(cells, ids) && PayloadLength(|ids|) < 0x1_0000
    ensures DropsAreSuffix(cfg, cells) <==>
      forall cs | ValidCells(cs) && Identified(cs, ids) :: DecodedRight(cfg, cycle, src, cs, ids)
  {
    if DropsAreSuffix(cfg, cells) {
      forall cs | ValidCells(cs) && Identified(cs, ids) ensures DecodedRight(cfg, cycle, src, cs, ids) {
        SameDrops(cfg, cells, cs);
        RoundTrip(cfg, cycle, src, cs, ids);
      }
    } else {
      var i, j :| 0 <= i < j < |cells| && !Accepted(cfg, cells[i]) && Accepted(cfg, cells[j]);
      WrongWhenDropPrecedes(cfg, cycle, src, cells, ids, i, j);
    }
  }
}
