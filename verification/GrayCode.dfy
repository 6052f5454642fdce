/**
 The bunch-crossing identifiers leave the front end as a Gray code of which only bits 0-11
 were decoded; `ScReader::grayRecode` completes the decoding.
 */
module GrayCode {

  /** The reflected Gray code of `v`. */
  function GrayEncode(v: bv16): bv16 {
    v ^ (v >> 1)
  }

  /** Bits 0-11 are inverted when bit 12 is set. */
  function Inversion(h: bv16): bv16 {
    if h & 0x1000 != 0 then 0xFFF else 0
  }

  /** What the front end sends for `v`. */
  function PartiallyDecoded(v: bv16): bv16 {
    (GrayEncode(v) & 0xF000) ^ ((v & 0xFFF) ^ Inversion(v))
  }

  /** No two twelve-bit numbers have the same Gray code. */
  lemma LowPartUnique(x: bv16, y: bv16)
    requires x & 0xF000 == 0 && y & 0xF000 == 0
    requires GrayEncode(x) == GrayEncode(y)
    ensures x == y
  {
  }

  lemma SentHalves(v: bv16)
    ensures PartiallyDecoded(v) & 0xF000 == GrayEncode(v) & 0xF000
    ensures GrayEncode(PartiallyDecoded(v) & 0xFFF) == GrayEncode(v) & 0xFFF
  {
  }

  lemma SameHalves(p: bv16, q: bv16)
    requires p & 0xF000 == q & 0xF000 && p & 0xFFF == q & 0xFFF
    ensures p == q
  {
  }

  /** A word with the halves of the one sent is the one sent. */
  lemma HalvesDetermine(p: bv16, q: bv16)
    requires p & 0xF000 == q & 0xF000 && GrayEncode(p & 0xFFF) == GrayEncode(q & 0xFFF)
    ensures p == q
  {
    LowPartUnique(p & 0xFFF, q & 0xFFF);
    SameHalves(p, q);
  }

  /** Whether a word's bits 12-15 are those of the Gray code of `v`, and its bits 0-11 the twelve-bit
      number whose own Gray code is bits 0-11 of the Gray code of `v`. */
  predicate HasHalvesOf(p: bv16, v: bv16) {
    p & 0xF000 == GrayEncode(v) & 0xF000 && GrayEncode(p & 0xFFF) == GrayEncode(v) & 0xFFF
  }

  /** This determines what is sent for `v`. */
  lemma PartiallyDecodedMeaning(v: bv16, p: bv16)
    ensures p == PartiallyDecoded(v) <==> HasHalvesOf(p, v)
  {
    SentHalves(v);
    DeterminedBy(v, p, PartiallyDecoded(v));
  }

  lemma DeterminedBy(v: bv16, p: bv16, q: bv16)
    requires HasHalvesOf(q, v)
    ensures p == q <==> HasHalvesOf(p, v)
  {
    if HasHalvesOf(p, v) {
      HalvesDetermine(p, q);
    }
  }

  /** Prefix parity of the top four bits, in place. */
  function HighParity(g: bv16): bv16 {
    (g ^ (g >> 1) ^ (g >> 2) ^ (g >> 3)) & 0xF000
  }

  /** The decoded high part `h` above bits 0-11 of `p` freed of their inversion. */
  function Combine(h: bv16, p: bv16): bv16 {
    h ^ ((p & 0xFFF) ^ Inversion(h))
  }

  /** Bits 12-15 become prefix parities, bits 0-11 lose the inversion. */
  function Recoded(p: bv16): bv16 {
    Combine(HighParity(p), p)
  }

  lemma SplitWord(v: bv16, l: bv16)
    ensures HighParity((GrayEncode(v) & 0xF000) ^ (l & 0xFFF)) == v & 0xF000
    ensures ((GrayEncode(v) & 0xF000) ^ (l & 0xFFF)) & 0xFFF == l & 0xFFF
    ensures Inversion(v & 0xF000) == Inversion(v) == Inversion(v) & 0xFFF
    ensures (v & 0xF000) ^ (v & 0xFFF) == v
  {
  }

  /** Recoding undoes the partial decoding of every 16-bit word. */
  lemma RecodedOfPartial(v: bv16)
    ensures Recoded(PartiallyDecoded(v)) == v
  {
    UndoPartial(v, PartiallyDecoded(v), (v & 0xFFF) ^ Inversion(v));
  }

  lemma UndoPartial(v: bv16, p: bv16, l: bv16)
    requires l == (v & 0xFFF) ^ Inversion(v) && p == (GrayEncode(v) & 0xF000) ^ l
    ensures Recoded(p) == v
  {
    SplitWord(v, l);
    assert p == (GrayEncode(v) & 0xF000) ^ (l & 0xFFF);
  }

  /** One pass of the shifting loop: what is accumulated plus what is still to come. */
  lemma ParityStep(highPart: bv16, gray: bv16, target: bv16)
    requires gray & 0xF000 != 0 && (highPart & 0xF000) ^ HighParity(gray) == target
    ensures ((highPart ^ gray) & 0xF000) ^ HighParity(gray >> 1) == target
    ensures gray >> 1 < gray
  {
  }

  lemma ParityDone(highPart: bv16, gray: bv16, target: bv16)
    requires gray & 0xF000 == 0 && (highPart & 0xF000) ^ HighParity(gray) == target
    ensures highPart & 0xF000 == target
  {
  }

  /** The halves are put together by `|`, which here is the same as `^`. */
  lemma FinishRecoding(high: bv16, p: bv16, parity: bv16)
    requires high & 0xF000 == parity
    ensures high & 0x1000 != 0 ==> (high & 0xF000) | ((p ^ 0xFFFF) & 0xFFF) == Combine(parity, p)
    ensures high & 0x1000 == 0 ==> (high & 0xF000) | (p & 0xFFF) == Combine(parity, p)
  {
  }

  /** `ScReader::grayRecode`. */
  method GrayRecode(partiallyDecoded: bv16) returns (r: bv16)
    ensures r == Recoded(partiallyDecoded)
  {
    var gray := partiallyDecoded;
    var highPart: bv16 := 0;
    ghost var target := HighParity(gray);
    assert (highPart & 0xF000) ^ HighParity(gray) == target;
    while gray & 0xF000 != 0
      invariant (highPart & 0xF000) ^ HighParity(gray) == target
      decreases gray
    {
      ParityStep(highPart, gray, target);
      highPart := highPart ^ gray;
      gray := gray >> 1;
    }
    ParityDone(highPart, gray, target);
    FinishRecoding(highPart, partiallyDecoded, target);
    if highPart & 0x1000 != 0 {
      r := (highPart & 0xF000) | ((partiallyDecoded ^ 0xFFFF) & 0xFFF);
    } else {
      r := (highPart & 0xF000) | (partiallyDecoded & 0xFFF);
    }
    assert r == Combine(target, partiallyDecoded);
  }

  // ---------- The same on 16-bit numbers ----------

  type U16 = x: int | 0 <= x < 0x1_0000

  /** The number in which the front end sends the identifier `bxid`. */
  function SentFor(bxid: bv16): U16 {
    PartiallyDecoded(bxid) as int
  }

  /** The identifier read from a received number. */
  function BxidOf(sent: U16): U16 {
    Recoded(sent as bv16) as int
  }

  /** Every bunch-crossing identifier survives the front end and the recoding. */
  lemma BxidRecovered(bxid: bv16)
    ensures BxidOf(SentFor(bxid)) == bxid as int
  {
    assert SentFor(bxid) as bv16 == PartiallyDecoded(bxid);
    RecodedOfPartial(bxid);
  }
}
