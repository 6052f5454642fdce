/** Integer division and narrowing as C++ has them, and the bunch crossings calculated with them. */
module CppDivision {

  function Abs(a: int): nat {
    if a < 0 then -a else a
  }

  /** Rounds toward zero. */
  function TruncDiv(a: int, b: int): int
    requires b != 0
  {
    if (a >= 0) == (b > 0) then Abs(a) / Abs(b) else -(Abs(a) / Abs(b))
  }

  /** Narrowing to a 32-bit `int`. */
  function ToInt32(x: int): int {
    (x + 0x8000_0000) % 0x1_0000_0000 - 0x8000_0000
  }

  /** Narrowing keeps the number if and only if it fits, and always its residue. */
  lemma NarrowExact(x: int)
    ensures ToInt32(x) == x <==> -2147483648 <= x < 2147483648
    ensures (ToInt32(x) - x) % 4294967296 == 0 && -2147483648 <= ToInt32(x) < 2147483648
  {
  }

  /** A time `d` behind the begin of crossing 0 lies in crossing `b`. Rounding toward zero makes
      crossing 0 begin one width early. */
  predicate InCrossing(d: int, b: int, width: int) {
    if b > 0 then b * width <= d < (b + 1) * width
    else if b < 0 then (b - 1) * width < d <= b * width
    else -width < d < width
  }

  lemma QuotientIs(d: nat, width: int, b: nat)
    requires width > 0
    ensures d / width == b <==> b * width <= d < (b + 1) * width
  {
    var q := d / width;
    assert q * width <= d < (q + 1) * width;
    if b < q {
      Times(b + 1, q, width);
    } else if q < b {
      Times(q + 1, b, width);
    }
  }

  lemma Times(a: int, b: int, width: int)
    requires a <= b && width > 0
    ensures a * width <= b * width
  {
  }

  lemma Opposite(b: int, width: int)
    ensures (-b) * width == -(b * width) && (-b + 1) * width == -((b - 1) * width)
  {
  }

  /** A later time. */
  lemma QuotientAfter(d: int, width: int, b: int)
    requires d >= 0 && width > 0
    ensures d / width == b <==> InCrossing(d, b, width)
  {
    if b >= 0 {
      QuotientIs(d, width, b);
      assert b == 0 ==> b * width == 0 && (b + 1) * width == width;
    } else {
      Times(b, -1, width);
      assert d / width >= 0;
    }
  }

  /** An earlier time. */
  lemma QuotientBefore(d: int, width: int, b: int)
    requires d < 0 && width > 0
    ensures -((-d) / width) == b <==> InCrossing(d, b, width)
  {
    if b <= 0 {
      QuotientIs(-d, width, -b);
      Opposite(b, width);
      assert b == 0 ==> b * width == 0 && (-b + 1) * width == width;
    } else {
      Times(0, b, width);
      assert (-d) / width >= 0;
    }
  }

  lemma TruncDivIs(d: int, width: int, b: int)
    requires width > 0
    ensures TruncDiv(d, width) == b <==> InCrossing(d, b, width)
  {
    if d >= 0 {
      QuotientAfter(d, width, b);
    } else {
      QuotientBefore(d, width, b);
    }
  }
}
