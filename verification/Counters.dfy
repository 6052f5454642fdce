/**
 Short hardware counters and their reconstruction: the modulo counter extension and
 the Gray recoding of `ScReader.cc`.
 */
module Counters {

  /** `1 << bits`. */
  function Pow2(bits: nat): (p: nat)
    ensures p > 0
  {
    if bits == 0 then 1 else 2 * Pow2(bits - 1)
  }

  // ---------- Modular arithmetic ----------

  lemma MulAtLeast(k: int, m: int)
    requires k >= 1 && m > 0
    ensures k * m >= m
  {
    if k > 1 {
      MulAtLeast(k - 1, m);
      assert k * m == (k - 1) * m + m;
    }
  }

  /** A multiple of `m` strictly between `-m` and `m` is zero. */
  lemma SmallMultiple(k: int, m: int)
    requires m > 0 && -m < k * m < m
    ensures k == 0
  {
    if k >= 1 {
      MulAtLeast(k, m);
    } else if k <= -1 {
      MulAtLeast(-k, m);
    }
  }

  /** Quotient and remainder are determined by any decomposition with a small remainder. */
  lemma DivModUnique(x: int, q: int, r: int, m: int)
    requires m > 0 && 0 <= r < m && x == q * m + r
    ensures x / m == q && x % m == r
  {
    var k := q - x / m;
    assert x == (x / m) * m + x % m;
    assert k * m == q * m - (x / m) * m;
    SmallMultiple(k, m);
  }

  /** Shifting by a multiple of the modulus changes no residue. */
  lemma ModShift(x: int, k: int, m: int)
    requires m > 0
    ensures (x + k * m) % m == x % m
  {
    assert x == (x / m) * m + x % m;
    assert (x / m + k) * m == (x / m) * m + k * m;
    DivModUnique(x + k * m, x / m + k, x % m, m);
  }

  /** Two congruent numbers less than one modulus apart are equal. */
  lemma CongruentClose(a: int, b: int, m: int)
    requires m > 0 && a % m == b % m && -m < a - b < m
    ensures a == b
  {
    var k := a / m - b / m;
    assert k * m == (a / m) * m - (b / m) * m;
    SmallMultiple(k, m);
  }

  // ---------- Counter reconstruction ----------

  /** The number congruent to `short` modulo `m` in the window of `m` numbers starting at
      `last - maxBack`. */
  function Reconstruct(last: int, short: int, m: nat, maxBack: int): (r: int)
    requires m > 0
    ensures last - maxBack <= r < last - maxBack + m
  {
    last - maxBack + (short - (last - maxBack)) % m
  }

  lemma ReconstructCongruent(last: int, short: int, m: nat, maxBack: int)
    requires m > 0
    ensures Reconstruct(last, short, m, maxBack) % m == short % m
  {
    var b := last - maxBack;
    var q := (short - b) / m;
    assert short - b == q * m + (short - b) % m;
    assert (-q) * m == -(q * m);
    ModShift(short, -q, m);
  }

  /** The window holds no second number with that residue. */
  lemma ReconstructUnique(last: int, short: int, m: nat, maxBack: int, v: int)
    requires m > 0
    requires last - maxBack <= v < last - maxBack + m && v % m == short % m
    ensures v == Reconstruct(last, short, m, maxBack)
  {
    ReconstructCongruent(last, short, m, maxBack);
    CongruentClose(v, Reconstruct(last, short, m, maxBack), m);
  }

  /** `ScReader::updateCntModulo`. Masking with `(1 << bits) - 1` is the residue modulo
      `1 << bits`, negative counters included (two's complement). */
  method UpdateCntModulo(oldCnt: int, newCntModulo: int, bits: nat, maxBack: int) returns (newvalue: int)
    ensures newvalue == Reconstruct(oldCnt, newCntModulo, Pow2(bits), maxBack)
    ensures newvalue % Pow2(bits) == newCntModulo % Pow2(bits)
    ensures oldCnt - maxBack <= newvalue < oldCnt - maxBack + Pow2(bits)
  {
    var m := Pow2(bits);
    newvalue := oldCnt - maxBack;
    if newvalue % m > newCntModulo % m {
      newvalue := newvalue + m;
    }
    ghost var base := newvalue;
    assert base == (base / m) * m + base % m;
    newvalue := newvalue - newvalue % m + newCntModulo % m;
    ModShift(oldCnt - maxBack, 1, m);
    DivModUnique(newCntModulo % m, 0, newCntModulo % m, m);
    ModShift(newCntModulo % m, base / m, m);
    ReconstructUnique(oldCnt, newCntModulo, m, maxBack, newvalue);
  }

  /** Every step of the true counter stays inside the reconstruction window. */
  predicate StepsInWindow(start: int, truth: seq<int>, m: nat, maxBack: int) {
    && (truth != [] ==> -maxBack <= truth[0] - start < m - maxBack)
    && forall i :: 1 <= i < |truth| ==> -maxBack <= truth[i] - truth[i - 1] < m - maxBack
  }

  /** The counters rebuilt one after the other from short readings. */
  function ReconstructAll(start: int, shorts: seq<int>, m: nat, maxBack: int): (r: seq<int>)
    requires m > 0
    ensures |r| == |shorts|
    decreases |shorts|
  {
    if shorts == [] then [] else
    var c := Reconstruct(start, shorts[0], m, maxBack);
    [c] + ReconstructAll(c, shorts[1..], m, maxBack)
  }

  /** The readings a short counter gives along a run. */
  function Shorts(truth: seq<int>, m: nat): (r: seq<int>)
    requires m > 0
    ensures |r| == |truth|
  {
    if truth == [] then [] else [truth[0] % m] + Shorts(truth[1..], m)
  }

  lemma OneStep(start: int, next: int, m: nat, maxBack: int)
    requires m > 0
    ensures Reconstruct(start, next % m, m, maxBack) == next <==> -maxBack <= next - start < m - maxBack
  {
    DivModUnique(next % m, 0, next % m, m);
    if -maxBack <= next - start < m - maxBack {
      ReconstructUnique(start, next % m, m, maxBack, next);
    }
  }

  lemma StepsTail(start: int, truth: seq<int>, m: nat, maxBack: int)
    requires truth != []
    ensures StepsInWindow(start, truth, m, maxBack)
       <==> -maxBack <= truth[0] - start < m - maxBack && StepsInWindow(truth[0], truth[1..], m, maxBack)
  {
    var rest := truth[1..];
    assert forall i :: 0 <= i < |rest| ==> rest[i] == truth[i + 1];
    if -maxBack <= truth[0] - start < m - maxBack && StepsInWindow(truth[0], rest, m, maxBack) {
      forall i | 1 <= i < |truth|
        ensures -maxBack <= truth[i] - truth[i - 1] < m - maxBack
      {
        assert rest[i - 1] == truth[i];
        assert i > 1 ==> rest[i - 2] == truth[i - 1];
      }
    }
  }

  /** A whole run is recovered exactly, whatever the length and sign of the true counters,
      if and only if every one of its steps lies in the window. */
  lemma {:induction false} RunRecovered(start: int, truth: seq<int>, m: nat, maxBack: int)
    requires m > 0
    ensures ReconstructAll(start, Shorts(truth, m), m, maxBack) == truth
       <==> StepsInWindow(start, truth, m, maxBack)
    decreases |truth|
  {
    if truth != [] {
      var rest := truth[1..];
      var all := ReconstructAll(start, Shorts(truth, m), m, maxBack);
      assert Shorts(truth, m)[1..] == Shorts(rest, m);
      var c := Reconstruct(start, truth[0] % m, m, maxBack);
      assert all == [c] + ReconstructAll(c, Shorts(rest, m), m, maxBack);
      assert all[0] == c && all[1..] == ReconstructAll(c, Shorts(rest, m), m, maxBack);
      assert truth == [truth[0]] + rest;
      OneStep(start, truth[0], m, maxBack);
      StepsTail(start, truth, m, maxBack);
      RunRecovered(truth[0], rest, m, maxBack);
    }
  }
}
