/** Arithmetic and counting that the other modules share. */
module Arith {

  function Min(a: int, b: int): int {
    if a < b then a else b
  }

  lemma SubsetSize<T>(a: set<T>, b: set<T>)
    requires a <= b
    ensures |a| <= |b|
  {
    assert b == a + (b - a);
  }

  lemma MulApart(step: nat, a: int, b: int)
    ensures a < b ==> step * a + step <= step * b
  {
    if a < b {
      assert step * b == step * (a + 1) + step * (b - a - 1);
    }
  }

  lemma DivModUnique(x: int, step: nat, q: int, r: nat)
    requires r < step && x == step * q + r
    ensures x / step == q && x % step == r
  {
    MulApart(step, q, x / step);
    MulApart(step, x / step, q);
  }

  /** One turn around a ring of the given size. */
  lemma ModOnce(x: nat, size: nat)
    requires size > 0 && x < 2 * size
    ensures x % size == if x < size then x else x - size
  {
    if x < size {
      DivModUnique(x, size, 0, x);
    } else {
      DivModUnique(x, size, 1, x - size);
    }
  }

  /** Two different numbers with the same remainder are at least one turn apart. */
  lemma SameRemainder(size: nat, j: nat, k: nat)
    requires size >= 1 && j < k && j % size == k % size
    ensures j + size <= k
  {
    MulApart(size, j / size, k / size);
    MulApart(size, k / size, j / size);
  }

  /** If n is a multiple of step, i and i - n leave the same remainder. */
  lemma RemainderFrom(n: nat, i: nat, step: nat)
    requires step > 0 && n % step == 0 && n <= i
    ensures i % step == (i - n) % step
  {
    assert step * (n / step + (i - n) / step) == step * (n / step) + step * ((i - n) / step);
    DivModUnique(i, step, n / step + (i - n) / step, (i - n) % step);
  }

  lemma MultipleAfter(first: nat, step: nat, k: nat)
    requires step > 0 && first % step == 0
    ensures (first + step * k) % step == 0
  {
    assert step * (first / step + k) == step * (first / step) + step * k;
    DivModUnique(first + step * k, step, first / step + k, 0);
  }

  /** The next multiple of step after base is base + step. */
  lemma NextMultipleOrMore(base: nat, step: nat, x: nat)
    requires step > 0 && base % step == 0 && x % step == 0 && base < x
    ensures base + step <= x
  {
    SameRemainder(step, base, x);
  }

  /** The only multiple of step in (base, base + step]. */
  lemma NextMultiple(base: nat, step: nat, x: nat)
    requires step > 0 && base % step == 0 && x % step == 0 && base < x <= base + step
    ensures x == base + step
  {
    SameRemainder(step, base, x);
  }

  /** Where the m-th of many things goes that are put around a ring. */
  function Slot(m: nat, size: nat): (slot: nat)
    requires size > 0
    ensures slot < size
  {
    if m < size then m else Slot(m - size, size)
  }

  lemma {:induction false} SlotTurns(m: nat, size: nat) returns (q: int)
    requires size > 0
    ensures m == size * q + Slot(m, size)
  {
    q := 0;
    if m >= size {
      q := SlotTurns(m - size, size);
      assert size * (q + 1) == size * q + size;
      q := q + 1;
    }
  }

  /** d places further, or back. */
  lemma SlotShift(m: nat, d: int, size: nat)
    requires size > 0 && m + d >= 0
    ensures (Slot(m, size) + d) % size == Slot(m + d, size)
  {
    var p := SlotTurns(m, size);
    var q := SlotTurns(m + d, size);
    assert size * (q - p) == size * q - size * p;
    DivModUnique(Slot(m, size) + d, size, q - p, Slot(m + d, size));
  }

  lemma SlotRepeats(m: nat, n: nat, size: nat)
    requires size > 0 && m < n && Slot(m, size) == Slot(n, size)
    ensures m + size <= n
  {
    var p := SlotTurns(m, size);
    var q := SlotTurns(n, size);
    MulApart(size, p, q);
    MulApart(size, q, p);
  }
}
