/**
 What the decoded blocks of an ASIC packet say: which memory cells they come from, and which ASIC.
 */
module AsicMeaning {
  import opened GrayCode
  import opened AsicPacket
  import Counters

  /** The block that the memory cell at place `i` of the readout order ought to give. */
  function BlockFor(cycle: int, chip: int, cells: seq<Cell>, i: nat): Block
    requires i < |cells|
  {
    Block(cycle, cells[i].bxid, |cells| - 1 - i, chip, cells[i].tdc, cells[i].adc)
  }

  /** The blocks are those of the cells whose crossing is not below the minimum. */
  lemma {:induction false} ExpectedExactly(cfg: ChipConfig, cycle: int, chip: int, cells: seq<Cell>, k: nat, b: Block)
    requires k <= |cells|
    ensures b in Expected(cfg, cycle, chip, cells, k)
      <==> exists i :: k <= i < |cells| && !(cells[i].bxid < cfg.minimumBxid) && b == BlockFor(cycle, chip, cells, i)
    decreases |cells| - k
  {
    if k < |cells| {
      ExpectedExactly(cfg, cycle, chip, cells, k + 1, b);
    }
  }

  /** From later memory cells to earlier ones, all of them among the first `bound`. */
  predicate Descending(blocks: seq<Block>, bound: int) {
    && (forall i :: 0 <= i < |blocks| ==> blocks[i].memCell < bound)
    && (forall i, j :: 0 <= i < j < |blocks| ==> blocks[j].memCell < blocks[i].memCell)
  }

  /** They stand in readout order: the last memory cell first. */
  lemma {:induction false} ExpectedOrder(cfg: ChipConfig, cycle: int, chip: int, cells: seq<Cell>, k: nat)
    requires k <= |cells|
    ensures Descending(Expected(cfg, cycle, chip, cells, k), |cells| - k)
    decreases |cells| - k
  {
    if k < |cells| {
      var rest := Expected(cfg, cycle, chip, cells, k + 1);
      ExpectedOrder(cfg, cycle, chip, cells, k + 1);
      assert forall i :: 0 <= i < |rest| ==> rest[i].memCell < |cells| - k - 1;
      if Accepted(cfg, cells[k]) {
        assert Expected(cfg, cycle, chip, cells, k) == [BlockFor(cycle, chip, cells, k)] + rest;
      }
    }
  }

  /** When the number of the ASIC has room below the bit of the DIF number, both can be read off the
      chip number: the latter exactly, the former up to the bits kept. */
  lemma ChipRecovered(cfg: ChipConfig, raw: U16, dif: Byte)
    requires cfg.difBit > 0 && 0 <= cfg.addAfter && Counters.Pow2(cfg.keepBits) + cfg.addAfter <= Counters.Pow2(cfg.difBit)
    ensures var number, place, kept := ChipNumber(cfg, raw, dif), Counters.Pow2(cfg.difBit), Counters.Pow2(cfg.keepBits);
      && number / place == dif
      && 0 <= number % place - cfg.addAfter < kept
      && (number % place - cfg.addAfter - cfg.addBefore - raw) % kept == 0
  {
    var number, place, kept := ChipNumber(cfg, raw, dif), Counters.Pow2(cfg.difBit), Counters.Pow2(cfg.keepBits);
    var low := (raw + cfg.addBefore) % kept + cfg.addAfter;
    assert number == low + dif * place;
    Counters.DivModUnique(number, dif, low, place);
    Multiple(raw + cfg.addBefore, kept);
  }

  /** Without the DIF number it is the number of the ASIC. */
  lemma ChipAlone(cfg: ChipConfig, raw: U16, dif: Byte)
    requires cfg.difBit <= 0
    ensures var number, kept := ChipNumber(cfg, raw, dif), Counters.Pow2(cfg.keepBits);
      0 <= number - cfg.addAfter < kept && (number - cfg.addAfter - cfg.addBefore - raw) % kept == 0
  {
    Multiple(raw + cfg.addBefore, Counters.Pow2(cfg.keepBits));
  }

  lemma Multiple(v: int, m: int)
    requires m > 0
    ensures (v % m - v) % m == 0
  {
    Counters.DivModUnique(v, v / m, v % m, m);
    Counters.DivModUnique(v % m - v, -(v / m), 0, m);
  }
}
