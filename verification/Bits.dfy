/**
 Machine words: powers of two, masks, and the comparisons and divisions the queues do on indices that
 wrap around. A w-bit word is a natural number below 2^w, and every operation that can wrap says so.
 */
module Bits {
  import opened Arith
  import opened Ladders

  function Pow2(k: nat): (p: nat)
    ensures p > 0
  {
    if k == 0 then 1 else 2 * Pow2(k - 1)
  }

  /** What is left of x in a w-bit word. */
  function Wrap(x: int, w: nat): (r: nat)
    ensures r < Pow2(w)
  {
    x % Pow2(w)
  }

  // ----------------------------------------------------------- arithmetic

  lemma Associate(a: int, b: int, c: int)
    ensures a * b * c == a * (b * c)
  {
  }

  lemma Distribute(a: int, b: int, c: int)
    ensures a * (b + c) == a * b + a * c
  {
  }

  lemma Divide(x: int, m: nat)
    requires m > 0
    ensures x == m * (x / m) + x % m && 0 <= x % m < m
  {
  }

  lemma QuotientIsNat(x: nat, m: nat)
    requires m > 0
    ensures x / m >= 0
  {
  }

  lemma {:induction false} PowAdds(a: nat, b: nat)
    ensures Pow2(a + b) == Pow2(a) * Pow2(b)
  {
    if a > 0 {
      PowAdds(a - 1, b);
      Associate(2, Pow2(a - 1), Pow2(b));
    }
  }

  lemma {:induction false} PowRises(a: nat, b: nat)
    requires a < b
    ensures 2 * Pow2(a) <= Pow2(b)
  {
    if a + 1 < b {
      PowRises(a, b - 1);
    }
  }

  lemma ModOfProduct(x: int, m: nat, n: nat)
    requires m > 0 && n > 0 && m * n > 0
    ensures (x % (m * n)) % m == x % m
  {
    var y := x % (m * n);
    var q, q' := x / (m * n), y / m;
    Divide(x, m * n);
    Divide(y, m);
    Associate(m, n, q);
    Distribute(m, n * q, q');
    DivModUnique(x, m, n * q + q', y % m);
  }

  /** Adding a multiple changes no remainder. */
  lemma ModShift(x: int, m: nat, k: int)
    requires m > 0
    ensures (x + m * k) % m == x % m
  {
    Divide(x, m);
    Distribute(m, x / m, k);
    DivModUnique(x + m * k, m, x / m + k, x % m);
  }

  /** Wrapping to a narrower word may come after wrapping to a wider one. */
  lemma WrapTwice(x: int, k: nat, w: nat)
    requires k <= w
    ensures Wrap(Wrap(x, w), k) == Wrap(x, k)
  {
    PowAdds(k, w - k);
    ModOfProduct(x, Pow2(k), Pow2(w - k));
  }

  lemma WrapSum(x: int, y: int, w: nat)
    ensures Wrap(x + Wrap(y, w), w) == Wrap(x + y, w)
  {
    var m := Pow2(w);
    Divide(y, m);
    ModShift(x + Wrap(y, w), m, y / m);
  }

  lemma WrapDifference(x: int, y: int, w: nat)
    ensures Wrap(Wrap(x, w) - Wrap(y, w), w) == Wrap(x - y, w)
  {
    var m := Pow2(w);
    var a, b := x / m, y / m;
    Divide(x, m);
    Divide(y, m);
    Distribute(m, a - b, b);
    ModShift(Wrap(x, w) - Wrap(y, w), m, a - b);
  }

  // ------------------------------------------------------ bits of numbers

  function Or(a: nat, b: nat): nat {
    if a == 0 && b == 0 then 0
    else (if a % 2 == 1 || b % 2 == 1 then 1 else 0) + 2 * Or(a / 2, b / 2)
  }

  function And(a: nat, b: nat): nat {
    if a == 0 || b == 0 then 0
    else (if a % 2 == 1 && b % 2 == 1 then 1 else 0) + 2 * And(a / 2, b / 2)
  }

  function ShiftRight(a: nat, k: nat): nat {
    QuotientIsNat(a, Pow2(k));
    a / Pow2(k)
  }

  lemma DoubleMod(x: nat, m: nat)
    requires m > 0
    ensures x % (2 * m) == 2 * ((x / 2) % m) + x % 2
  {
    var h := x / 2;
    Divide(h, m);
    Associate(2, m, h / m);
    DivModUnique(x, 2 * m, h / m, 2 * (h % m) + x % 2);
  }

  lemma AndOdd(x: nat, h: nat)
    ensures And(x, 2 * h + 1) == x % 2 + 2 * And(x / 2, h)
  {
    assert (2 * h + 1) / 2 == h && (2 * h + 1) % 2 == 1;
  }

  lemma AndEven(x: nat, h: nat)
    ensures And(x, 2 * h) == 2 * And(x / 2, h)
  {
    assert (2 * h) / 2 == h && (2 * h) % 2 == 0;
  }

  lemma {:induction false} MaskParts(x: nat, k: nat) returns (q: nat)
    ensures And(x, Pow2(k) - 1) < Pow2(k) && x == Pow2(k) * q + And(x, Pow2(k) - 1)
  {
    if k == 0 {
      q := x;
    } else {
      q := MaskParts(x / 2, k - 1);
      AndOdd(x, Pow2(k - 1) - 1);
      Associate(2, Pow2(k - 1), q);
    }
  }

  /** x & (2^k - 1) is x mod 2^k. */
  lemma MaskIsMod(x: nat, k: nat)
    ensures And(x, Pow2(k) - 1) == x % Pow2(k)
  {
    var q := MaskParts(x, k);
    DivModUnique(x, Pow2(k), q, And(x, Pow2(k) - 1));
  }

  /** ~(2^k - 1) in a w-bit word. */
  function HighMask(k: nat, w: nat): nat
    requires k <= w
  {
    if k < w then PowRises(k, w); Pow2(w) - Pow2(k) else 0
  }

  /** In a w-bit word, x & ~(2^k - 1) is x rounded down to a multiple of 2^k. */
  lemma {:induction false} MaskRoundsDown(x: nat, k: nat, w: nat)
    requires k <= w && x < Pow2(w)
    ensures And(x, HighMask(k, w)) == x - x % Pow2(k)
  {
    if k == w {
      DivModUnique(x, Pow2(w), 0, x);
    } else if k == 0 {
      MaskIsMod(x, w);
      DivModUnique(x, Pow2(w), 0, x);
    } else {
      var m, h := Pow2(k - 1), HighMask(k - 1, w - 1);
      MaskRoundsDown(x / 2, k - 1, w - 1);
      DoubleMod(x, m);
      AndEven(x, h);
      assert HighMask(k, w) == 2 * h;
    }
  }

  // ------------------------------------------------ the next power of two

  ghost predicate IsPow2(n: nat) {
    exists k: nat :: n == Pow2(k)
  }

  ghost predicate LeastPow2(r: nat, x: nat) {
    IsPow2(r) && x <= r && forall j: nat :: x <= Pow2(j) ==> r <= Pow2(j)
  }

  lemma PowsBetween(k: nat, x: nat)
    requires Pow2(k) < x <= Pow2(k + 1)
    ensures LeastPow2(Pow2(k + 1), x)
  {
    forall j: nat | x <= Pow2(j) ensures Pow2(k + 1) <= Pow2(j) {
      if j < k {
        PowRises(j, k);
      } else if k + 1 < j {
        PowRises(k + 1, j);
      }
    }
  }

  lemma LeastPow2Unique(r: nat, s: nat, x: nat)
    requires LeastPow2(r, x) && LeastPow2(s, x)
    ensures r == s
  {
  }

  lemma {:induction false} OrAtLeast(a: nat, b: nat)
    ensures Or(a, b) >= a && Or(a, b) >= b
  {
    if a > 0 || b > 0 {
      OrAtLeast(a / 2, b / 2);
    }
  }

  lemma {:induction false} OrBelow(a: nat, b: nat, k: nat)
    requires a < Pow2(k) && b < Pow2(k)
    ensures Or(a, b) < Pow2(k)
  {
    if k > 0 && (a > 0 || b > 0) {
      OrBelow(a / 2, b / 2, k - 1);
    }
  }

  lemma {:induction false} OrZero(a: nat)
    ensures Or(a, 0) == a
  {
    if a > 0 {
      OrZero(a / 2);
    }
  }

  lemma OrHalves(a: nat, b: nat)
    ensures Or(a, b) == (if a % 2 == 1 || b % 2 == 1 then 1 else 0) + 2 * Or(a / 2, b / 2)
  {
  }

  /** Or leaves the bits above both low parts alone. */
  lemma {:induction false} OrHigh(high: nat, low: nat, b: nat, k: nat)
    requires high % Pow2(k) == 0 && low < Pow2(k) && b < Pow2(k)
    ensures Or(high + low, b) == high + Or(low, b)
  {
    if k == 0 {
      OrZero(high);
    } else {
      DoubleMod(high, Pow2(k - 1));
      assert (high + low) / 2 == high / 2 + low / 2 && (high + low) % 2 == low % 2;
      OrHigh(high / 2, low / 2, b / 2, k - 1);
      OrHalves(high + low, b);
      OrHalves(low, b);
    }
  }

  function TopBit(y: nat): (h: nat)
    requires y > 0
    ensures Pow2(h) <= y < Pow2(h + 1)
  {
    if y == 1 then 0 else TopBit(y / 2) + 1
  }

  function Below(h: nat, m: nat): nat {
    if m <= h then h - m else 0
  }

  /** The m highest of the h low bits of x are set, and no bit above them. */
  predicate TopOnes(x: nat, h: nat, m: nat) {
    Pow2(h) - Pow2(Below(h, m)) <= x < Pow2(h)
  }

  lemma ShiftedOnes(x: nat, h: nat, m: nat)
    requires TopOnes(x, h, m) && m < h
    ensures TopOnes(ShiftRight(x, m), h - m, m)
  {
    var p, t, u := Pow2(m), Pow2(h - m), Pow2(Below(h - m, m));
    PowAdds(m, h - m);
    if h >= 2 * m {
      PowAdds(m, h - m - m);
    } else {
      PowRises(h - m, m);
    }
    QuotientBetween(x, p, t, u);
  }

  lemma QuotientBetween(x: nat, p: nat, t: nat, u: nat)
    requires p > 0 && u <= t <= p * u && p * t - p * u <= x < p * t
    ensures t - u <= x / p < t
  {
    Divide(x, p);
    Distribute(p, t, 0 - u);
    MulApart(p, x / p, t - u);
    MulApart(p, t - 1, x / p);
    Distribute(p, t, -1);
  }

  lemma SmearInside(x: nat, h: nat, m: nat)
    requires TopOnes(x, h, m) && m < h
    ensures TopOnes(Or(x, ShiftRight(x, m)), h, 2 * m)
  {
    var t, y := Pow2(h - m), ShiftRight(x, m);
    assert Pow2(h) == t * Pow2(m) by { PowAdds(h - m, m); }
    var high := t * (Pow2(m) - 1);
    assert high == Pow2(h) - t by { Distribute(t, Pow2(m), -1); }
    var low := x - high;
    ShiftedOnes(x, h, m);
    assert Or(x, y) == high + Or(low, y) by {
      DivModUnique(high, t, Pow2(m) - 1, 0);
      OrHigh(high, low, y, h - m);
    }
    OrAtLeast(low, y);
    OrBelow(low, y, h - m);
  }

  /** One smearing step doubles the number of leading ones. */
  lemma SmearStep(x: nat, h: nat, m: nat)
    requires TopOnes(x, h, m)
    ensures TopOnes(Or(x, ShiftRight(x, m)), h, 2 * m)
  {
    if m >= h {
      if h < m {
        PowRises(h, m);
      }
      DivModUnique(x, Pow2(m), 0, x);
      OrZero(x);
    } else {
      SmearInside(x, h, m);
    }
  }

  /** The number of bits of y. */
  function Length(y: nat): (h: nat)
    ensures y < Pow2(h)
    ensures h > 0 ==> Pow2(h - 1) <= y
  {
    if y == 0 then 0 else TopBit(y) + 1
  }

  lemma LengthAtMost(y: nat, w: nat)
    requires y < Pow2(w)
    ensures Length(y) <= w
  {
    if w < Length(y) - 1 {
      PowRises(w, Length(y) - 1);
    }
  }

  lemma LengthStart(y: nat)
    ensures TopOnes(y, Length(y), 1)
  {
    assert Pow2(0) == 1;
  }

  /** The smearing steps on a word of `size` bytes: every bit below the highest one gets set. */
  method Smear(y: nat, size: nat) returns (x: nat)
    requires size > 0 && y < Pow2(8 * size)
    ensures x + 1 == Pow2(Length(y))
  {
    x := y;
    ghost var h := Length(y);
    LengthStart(y);
    SmearStep(x, h, 1);
    x := Or(x, ShiftRight(x, 1));
    SmearStep(x, h, 2);
    x := Or(x, ShiftRight(x, 2));
    SmearStep(x, h, 4);
    x := Or(x, ShiftRight(x, 4));
    var i := 1;
    ghost var m := 8;
    while i < size
      invariant i >= 1 && m == 8 * i && TopOnes(x, h, m)
      decreases size - i
    {
      SmearStep(x, h, m);
      x := Or(x, ShiftRight(x, 8 * i));
      i, m := 2 * i, 2 * m;
    }
    LengthAtMost(y, 8 * size);
  }

  /** ceil_to_pow_2 on a word of `size` bytes. */
  method CeilToPow2(value: nat, size: nat) returns (x: nat)
    requires size > 0 && value < Pow2(8 * size)
    ensures 1 <= value <= Pow2(8 * size - 1) ==> LeastPow2(x, value)
    ensures value == 0 || value > Pow2(8 * size - 1) ==> x == 0
  {
    var w := 8 * size;
    x := Wrap(value - 1, w);
    ghost var h := Length(x);
    OneLess(value, w);
    x := Smear(x, size);
    assert x + 1 == Pow2(h);
    x := Wrap(x + 1, w);
    OneMore(value, w, h, x);
  }

  lemma OneLess(value: nat, w: nat)
    requires value < Pow2(w)
    ensures Wrap(value - 1, w) == if value == 0 then Pow2(w) - 1 else value - 1
  {
    if value == 0 {
      DivModUnique(value - 1, Pow2(w), -1, Pow2(w) - 1);
    } else {
      DivModUnique(value - 1, Pow2(w), 0, value - 1);
    }
  }

  lemma OneMore(value: nat, w: nat, h: nat, r: nat)
    requires w > 0 && value < Pow2(w) && r == Wrap(Pow2(h), w)
    requires h == Length(if value == 0 then Pow2(w) - 1 else value - 1)
    ensures 1 <= value <= Pow2(w - 1) ==> LeastPow2(r, value)
    ensures value == 0 || value > Pow2(w - 1) ==> r == 0
  {
    LengthAtMost(if value == 0 then Pow2(w) - 1 else value - 1, w);
    if 1 <= value <= Pow2(w - 1) {
      LengthAtMost(value - 1, w - 1);
      PowRises(h, w);
      DivModUnique(Pow2(h), Pow2(w), 0, Pow2(h));
      if value > 1 {
        PowsBetween(h - 1, value);
      } else {
        assert Pow2(0) == 1;
      }
    } else {
      if h < w - 1 {
        PowRises(h, w - 1);
      }
      DivModUnique(Pow2(w), Pow2(w), 1, 0);
    }
  }

  /** NextPow2 on a w-bit word. Beyond 2^(w - 1) the loop does not end. */
  method NextPow2(sz: nat, w: nat) returns (ret: nat)
    requires w > 0 && sz <= Pow2(w - 1)
    ensures 1 <= sz ==> LeastPow2(ret, sz)
    ensures sz == 0 ==> ret == 1
  {
    ret := 1;
    ghost var k := 0;
    assert Pow2(0) == 1;
    while ret < sz
      invariant ret == Pow2(k) && (k > 0 ==> Pow2(k - 1) < sz)
      decreases Pow2(w) - ret
    {
      if k >= w - 1 && w - 1 < k {
        PowRises(w - 1, k);
      }
      PowRises(k, w);
      if k + 1 < w {
        PowRises(k + 1, w);
      }
      DivModUnique(2 * ret, Pow2(w), 0, 2 * ret);
      ret := Wrap(2 * ret, w);
      k := k + 1;
    }
    if k > 0 {
      PowsBetween(k - 1, sz);
    }
  }

  /** What NextPow2's loop holds after k rounds. */
  function Rounds(k: nat, w: nat): nat {
    if k == 0 then 1 else Wrap(2 * Rounds(k - 1, w), w)
  }

  lemma {:induction false} RoundsAre(k: nat, w: nat)
    requires w > 0
    ensures Rounds(k, w) == if k < w then Pow2(k) else 0
  {
    if k == 0 {
      assert Pow2(0) == 1;
    } else {
      RoundsAre(k - 1, w);
      if k < w {
        PowRises(k, w);
        DivModUnique(Pow2(k), Pow2(w), 0, Pow2(k));
      } else if k == w {
        DivModUnique(Pow2(w), Pow2(w), 1, 0);
      }
    }
  }

  /** The loop of NextPow2 ends if and only if sz is at most 2^(w - 1): above, doubling reaches zero
      and stays there. */
  lemma NextPow2Ends(sz: nat, w: nat)
    requires w > 0
    ensures (exists k :: Rounds(k, w) >= sz) <==> sz <= Pow2(w - 1)
  {
    RoundsAre(w - 1, w);
    if sz > Pow2(w - 1) {
      forall k: nat ensures Rounds(k, w) < sz {
        RoundsAre(k, w);
        if k < w - 1 {
          PowRises(k, w - 1);
        }
      }
    }
  }

  // ----------------------------------------------------- wrapping indices

  function CircularLessThan(a: nat, b: nat, w: nat): bool
    requires w > 0
  {
    Wrap(a - b, w) > Pow2(w - 1)
  }

  /** For indices less than 2^w apart, the comparison of the wrapped indices is the comparison of the
      true ones if and only if a is ahead by at most, or behind by less than, half the range. */
  lemma CircularOrder(a: nat, b: nat, w: nat)
    requires w > 0 && a < b + Pow2(w) && b < a + Pow2(w)
    ensures (CircularLessThan(Wrap(a, w), Wrap(b, w), w) <==> a < b) <==>
            b < a + Pow2(w - 1) && a <= b + Pow2(w - 1)
  {
    WrapDifference(a, b, w);
    if a < b {
      DivModUnique(a - b, Pow2(w), -1, a - b + Pow2(w));
    } else {
      DivModUnique(a - b, Pow2(w), 0, a - b);
    }
  }

  /** Subtracted as words and as signed numbers. */
  lemma WordDifference(a: nat, b: nat, w: nat)
    requires b <= a < b + Pow2(w)
    ensures Wrap(Wrap(a, w) - Wrap(b, w), w) == a - b
    ensures Wrap(a, w) - Wrap(b, w) == if Wrap(b, w) <= Wrap(a, w) then a - b else a - b - Pow2(w)
  {
    var m, x := Pow2(w), Wrap(a, w) - Wrap(b, w);
    WrapDifference(a, b, w);
    DivModUnique(a - b, m, 0, a - b);
    if x < 0 {
      DivModUnique(x, m, -1, x + m);
    } else {
      DivModUnique(x, m, 0, x);
    }
  }

  /** Counted from zero, the words of the upper half are taken for negative. */
  lemma LessThanFromZero(n: nat, w: nat)
    requires w > 0 && n < Pow2(w)
    ensures CircularLessThan(0, n, w) <==> 0 < n < Pow2(w - 1)
  {
    if n > 0 {
      DivModUnique(0 - n, Pow2(w), -1, Pow2(w) - n);
    } else {
      DivModUnique(0, Pow2(w), 0, 0);
    }
  }

  /** Half the range behind is taken for not behind. */
  lemma HalfRangeBehind(a: nat, w: nat)
    requires w > 0
    ensures !CircularLessThan(Wrap(a, w), Wrap(a + Pow2(w - 1), w), w)
  {
    CircularOrder(a, a + Pow2(w - 1), w);
  }

  /** A w-bit word read as a two's complement number. */
  function Signed(x: nat, w: nat): int
    requires w > 0
  {
    if x < Pow2(w - 1) then x else x - Pow2(w)
  }

  lemma SignedDifference(a: nat, b: nat, w: nat)
    requires w > 0 && b <= a + Pow2(w - 1) && a < b + Pow2(w - 1)
    ensures Signed(Wrap(Wrap(a, w) - Wrap(b, w), w), w) == a - b
  {
    WrapDifference(a, b, w);
    if a < b {
      DivModUnique(a - b, Pow2(w), -1, a - b + Pow2(w));
    } else {
      DivModUnique(a - b, Pow2(w), 0, a - b);
    }
  }

  /** The program's way from an index to a slot of a table with 2^s entries and blocks of 2^k: mask,
      subtract, divide as signed, add, mask; all in w-bit words. */
  function LookupSlot(index: nat, headBase: nat, head: nat, k: nat, s: nat, w: nat): nat
    requires k <= w && w > 0
  {
    var blockBase := And(index, HighMask(k, w));
    var offset := Wrap(TruncDiv(Signed(Wrap(blockBase - headBase, w), w), Pow2(k)), w);
    And(Wrap(head + offset, w), Pow2(s) - 1)
  }

  lemma WrapKeepsBase(index: nat, k: nat, w: nat)
    requires k <= w
    ensures And(Wrap(index, w), HighMask(k, w)) == Wrap(index - index % Pow2(k), w)
  {
    var x := Wrap(index, w);
    MaskRoundsDown(x, k, w);
    WrapTwice(index, k, w);
    var low := index % Pow2(k);
    var m := Pow2(w);
    Divide(index, m);
    Divide(x, Pow2(k));
    LowPart(x, Pow2(k));
    DivModUnique(index - low, m, index / m, x - low);
  }

  lemma LowPart(x: nat, m: nat)
    requires m > 0
    ensures x % m <= x
  {
    if x < m {
      DivModUnique(x, m, 0, x);
    }
  }

  /** However often indices have wrapped, the program finds the slot that lies as many places behind
      the head slot as the index's block lies behind the head block. */
  lemma LookupSurvivesWrapAround(index: nat, headBase: nat, head: nat, k: nat, s: nat, w: nat)
    requires k <= w && s <= w && w > 0
    requires headBase % Pow2(k) == 0 && index - index % Pow2(k) <= headBase
    requires headBase - (index - index % Pow2(k)) <= Pow2(w - 1)
    ensures var behind := (headBase - (index - index % Pow2(k))) / Pow2(k);
            LookupSlot(Wrap(index, w), Wrap(headBase, w), head, k, s, w) == (head - behind) % Pow2(s)
  {
    var base := index - index % Pow2(k);
    LowPart(index, Pow2(k));
    WrapKeepsBase(index, k, w);
    SignedDifference(base, headBase, w);
    SlotFromOffset(head, headBase - base, k, s, w);
  }

  lemma SlotFromOffset(head: nat, distance: nat, k: nat, s: nat, w: nat)
    requires s <= w
    ensures And(Wrap(head + Wrap(TruncDiv(0 - distance, Pow2(k)), w), w), Pow2(s) - 1) ==
            (head - distance / Pow2(k)) % Pow2(s)
  {
    var behind := distance / Pow2(k);
    TruncNegative(distance, Pow2(k));
    MaskIsMod(Wrap(head + Wrap(-behind, w), w), s);
    WrapSum(head, -behind, w);
    WrapTwice(head - behind, s, w);
  }

  lemma TruncNegative(a: nat, m: nat)
    requires m > 0
    ensures TruncDiv(0 - a, m) == -(a / m)
  {
    if a == 0 {
      DivModUnique(0, m, 0, 0);
    }
  }

  // ------------------------------------------------ lookups from far behind

  /** A word read as signed differs from the number it came from by full turns. */
  lemma SignedOf(x: int, w: nat) returns (turns: int)
    requires w > 0
    ensures Signed(Wrap(x, w), w) == x + Pow2(w) * turns
  {
    var m := Pow2(w);
    Divide(x, m);
    turns := -(x / m) - if Wrap(x, w) < Pow2(w - 1) then 0 else 1;
    assert m * turns == m * -(x / m) - (if Wrap(x, w) < Pow2(w - 1) then 0 else m);
  }

  lemma TruncExact(q: int, m: nat)
    requires m > 0
    ensures TruncDiv(m * q, m) == q
  {
    if m * q >= 0 {
      DivModUnique(m * q, m, q, 0);
    } else {
      assert -(m * q) == m * -q;
      DivModUnique(m * -q, m, -q, 0);
    }
  }

  lemma SlotFromQuotient(head: nat, q: int, s: nat, w: nat)
    requires s <= w
    ensures And(Wrap(head + Wrap(q, w), w), Pow2(s) - 1) == (head + q) % Pow2(s)
  {
    MaskIsMod(Wrap(head + Wrap(q, w), w), s);
    WrapSum(head, q, w);
    WrapTwice(head + q, s, w);
  }

  /** The distance of an index's block behind the head block, in blocks. */
  function BlocksBehind(index: nat, headBase: nat, k: nat): int {
    (headBase - (index - index % Pow2(k))) / Pow2(k)
  }

  lemma BlocksBehindExact(index: nat, headBase: nat, k: nat)
    requires headBase % Pow2(k) == 0
    ensures headBase - (index - index % Pow2(k)) == Pow2(k) * BlocksBehind(index, headBase, k)
  {
    var m := Pow2(k);
    Divide(index, m);
    Divide(headBase, m);
    Distribute(m, headBase / m, -(index / m));
    DivModUnique(m * (headBase / m - index / m), m, headBase / m - index / m, 0);
  }

  /** The slot that the program finds, wherever the index is: each full turn of the difference moves it by
      as many slots as there are blocks in the range of indices. */
  lemma LookupSlotIs(index: nat, headBase: nat, head: nat, k: nat, s: nat, w: nat) returns (turns: int)
    requires k <= w && s <= w && w > 0 && headBase % Pow2(k) == 0 && index - index % Pow2(k) >= 0
    ensures var behind := BlocksBehind(index, headBase, k);
            && Signed(Wrap(-(Pow2(k) * behind), w), w) == Pow2(w) * turns - Pow2(k) * behind
            && LookupSlot(Wrap(index, w), Wrap(headBase, w), head, k, s, w)
                 == (head - behind + Pow2(w - k) * turns) % Pow2(s)
  {
    var behind := BlocksBehind(index, headBase, k);
    var base: nat := index - index % Pow2(k);
    BlocksBehindExact(index, headBase, k);
    turns := SignedOf(base - headBase, w);
    assert Wrap(And(Wrap(index, w), HighMask(k, w)) - Wrap(headBase, w), w) == Wrap(base - headBase, w) by {
      WrapKeepsBase(index, k, w);
      WrapDifference(base, headBase, w);
    }
    var q := Pow2(w - k) * turns - behind;
    assert TruncDiv(Signed(Wrap(base - headBase, w), w), Pow2(k)) == q by {
      QuotientOfTurns(behind, turns, k, w);
    }
    SlotFromQuotient(head, q, s, w);
  }

  lemma MulOut(m: int, r: int, turns: int, behind: int)
    ensures m * r * turns - m * behind == m * (r * turns - behind)
  {
  }

  lemma QuotientOfTurns(behind: int, turns: int, k: nat, w: nat)
    requires k <= w
    ensures TruncDiv(Pow2(w) * turns - Pow2(k) * behind, Pow2(k)) == Pow2(w - k) * turns - behind
  {
    var m, r := Pow2(k), Pow2(w - k);
    var q := r * turns - behind;
    assert Pow2(w) * turns - m * behind == m * q by {
      PowAdds(k, w - k);
      MulOut(m, r, turns, behind);
    }
    TruncExact(q, m);
  }

  /** The slot as many places behind the head slot as the block is behind the head block. */
  predicate LooksUpRightly(index: nat, headBase: nat, head: nat, k: nat, s: nat, w: nat)
    requires k <= w && w > 0
  {
    LookupSlot(Wrap(index, w), Wrap(headBase, w), head, k, s, w) == (head - BlocksBehind(index, headBase, k)) % Pow2(s)
  }

  lemma SmallTablesLookUpRightly(index: nat, headBase: nat, head: nat, k: nat, s: nat, w: nat)
    requires k + s <= w && w > 0 && headBase % Pow2(k) == 0
    ensures LooksUpRightly(index, headBase, head, k, s, w)
  {
    LowPart(index, Pow2(k));
    var turns := LookupSlotIs(index, headBase, head, k, s, w);
    PowAdds(s, w - k - s);
    Associate(Pow2(s), Pow2(w - k - s), turns);
    ModShift(head - BlocksBehind(index, headBase, k), Pow2(s), Pow2(w - k - s) * turns);
  }

  lemma OtherSlot(x: int, d: nat, m: nat)
    requires 0 < d < m
    ensures (x + d) % m != x % m
  {
    Divide(x, m);
    if x % m + d < m {
      DivModUnique(x + d, m, x / m, x % m + d);
    } else {
      Distribute(m, x / m, 1);
      DivModUnique(x + d, m, x / m + 1, x % m + d - m);
    }
  }

  /** A difference of a little more than half the range backwards looks like one forwards. */
  lemma OneTurn(d: nat, w: nat, turns: int)
    requires w > 0 && Pow2(w - 1) < d <= Pow2(w)
    requires Signed(Wrap(0 - d, w), w) == Pow2(w) * turns - d
    ensures turns == 1
  {
    var m := Pow2(w);
    DivModUnique(0 - d, m, -1, m - d);
    MulApart(m, turns, 1);
    MulApart(m, 1, turns);
  }

  /** In a larger table a block one more than half the range behind is missed. */
  lemma LargeTablesMiss(head: nat, k: nat, s: nat, w: nat)
    requires k < w && s <= w < k + s
    ensures var headBase := Pow2(w - 1) + Pow2(k);
            && headBase % Pow2(k) == 0 && 0 < BlocksBehind(0, headBase, k) < Pow2(s)
            && !LooksUpRightly(0, headBase, head, k, s, w)
  {
    var headBase, r := Pow2(w - 1) + Pow2(k), Pow2(w - 1 - k);
    OneMoreThanHalf(k, w);
    assert r + 1 < Pow2(s) && Pow2(w - k) < Pow2(s) by {
      PowRises(w - k, s);
    }
    var turns := LookupSlotIs(0, headBase, head, k, s, w);
    assert turns == 1 by {
      if k < w - 1 {
        PowRises(k, w - 1);
      }
      OneTurn(headBase, w, turns);
    }
    OtherSlot(head - (r + 1), Pow2(w - k), Pow2(s));
  }

  lemma OneMoreThanHalf(k: nat, w: nat)
    requires k < w
    ensures var headBase := Pow2(w - 1) + Pow2(k);
            && headBase % Pow2(k) == 0 && 0 - 0 % Pow2(k) == 0 && BlocksBehind(0, headBase, k) == Pow2(w - 1 - k) + 1
            && Pow2(k) * BlocksBehind(0, headBase, k) == headBase
  {
    var m, r := Pow2(k), Pow2(w - 1 - k);
    PowAdds(k, w - 1 - k);
    Distribute(m, r, 1);
    DivModUnique(m * (r + 1), m, r + 1, 0);
    DivModUnique(0, m, 0, 0);
  }

  /** So a table of 2^s blocks of 2^k indices finds every block that it can hold, however far behind, if and
      only if it covers no more indices than there are. */
  lemma LooksUpRightlyIff(k: nat, s: nat, w: nat)
    requires k < w && s <= w
    ensures k + s <= w <==>
            forall index: nat, headBase: nat, head: nat
              | headBase % Pow2(k) == 0 && 0 <= BlocksBehind(index, headBase, k) < Pow2(s) ::
              LooksUpRightly(index, headBase, head, k, s, w)
  {
    if k + s <= w {
      forall index: nat, headBase: nat, head: nat | headBase % Pow2(k) == 0
        ensures LooksUpRightly(index, headBase, head, k, s, w)
      {
        SmallTablesLookUpRightly(index, headBase, head, k, s, w);
      }
    } else {
      LargeTablesMiss(0, k, s, w);
    }
  }
}
