/**
 The bases of consecutive blocks, and how the program finds the block of an index by dividing a
 signed distance by the block size.
 */
module Ladders {
  import opened Arith

  /** a / b for signed machine integers: towards zero. */
  function TruncDiv(a: int, b: nat): int
    requires b > 0
  {
    if a >= 0 then a / b else -((-a) / b)
  }

  predicate Rung(bases: seq<nat>, step: nat, k: nat) {
    0 < k < |bases| && bases[k] == bases[k - 1] + step
  }

  /** The bases of consecutive blocks. */
  ghost predicate Ladder(bases: seq<nat>, step: nat) {
    && (bases != [] && step > 0 ==> bases[0] % step == 0)
    && forall k: nat | 0 < k < |bases| :: Rung(bases, step, k)
  }

  lemma {:induction false} LadderAt(bases: seq<nat>, step: nat, k: nat)
    requires Ladder(bases, step) && k < |bases|
    ensures bases[k] == bases[0] + step * k
  {
    if k > 0 {
      LadderAt(bases, step, k - 1);
      assert Rung(bases, step, k);
      assert step * k == step * (k - 1) + step;
    }
  }

  lemma LadderDistance(bases: seq<nat>, step: nat, k: nat)
    requires Ladder(bases, step) && k < |bases|
    ensures var n := |bases| - 1; bases[n] == bases[k] + step * (n - k)
  {
    var n := |bases| - 1;
    LadderAt(bases, step, n);
    LadderAt(bases, step, k);
    assert step * n == step * k + step * (n - k);
  }

  lemma LadderRises(bases: seq<nat>, step: nat, j: nat, k: nat)
    requires Ladder(bases, step) && j < k < |bases|
    ensures bases[j] + step <= bases[k]
  {
    LadderAt(bases, step, j);
    LadderAt(bases, step, k);
    MulApart(step, j, k);
  }

  /** The distance of two blocks in the index, as the program computes it. */
  function BlockOffset(base: int, headBase: int, step: nat): int
    requires step > 0
  {
    TruncDiv(base - headBase, step)
  }

  lemma BaseIsMultiple(bases: seq<nat>, step: nat, k: nat)
    requires step > 0 && Ladder(bases, step) && k < |bases|
    ensures bases[k] % step == 0
  {
    LadderAt(bases, step, k);
    MultipleAfter(bases[0], step, k);
  }

  /** Where the last block ends if it is full. */
  lemma FullBlocksEnd(bases: seq<nat>, step: nat, tail: nat)
    requires step > 0 && Ladder(bases, step) && bases != [] && tail % step == 0
    requires bases[|bases| - 1] < tail <= bases[|bases| - 1] + step
    ensures tail == bases[0] + step * |bases|
  {
    var n := |bases|;
    LadderAt(bases, step, n - 1);
    BaseIsMultiple(bases, step, n - 1);
    NextMultiple(bases[n - 1], step, tail);
    assert step * n == step * (n - 1) + step;
  }

  lemma LadderShift(bases: seq<nat>, step: nat, drop: nat, base: nat)
    requires step > 0 && Ladder(bases, step) && drop <= |bases|
    requires if bases == [] then base % step == 0 else base == bases[|bases| - 1] + step
    ensures Ladder(bases[drop..] + [base], step) && base % step == 0
  {
    if bases != [] {
      BaseIsMultiple(bases, step, |bases| - 1);
      MultipleAfter(bases[|bases| - 1], step, 1);
      if drop < |bases| {
        BaseIsMultiple(bases, step, drop);
      }
    }
    var bases' := bases[drop..] + [base];
    forall k: nat | 0 < k < |bases'| ensures Rung(bases', step, k) {
      if k + 1 < |bases'| {
        assert Rung(bases, step, drop + k);
      }
    }
  }

  lemma BlockNumber(first: nat, step: nat, n: nat, i: nat) returns (k: nat)
    requires step > 0 && first % step == 0 && first <= i < first + step * n + step
    ensures k <= n && first + step * k == i - i % step
  {
    k := (i - first) / step;
    RemainderFrom(first, i, step);
    MulApart(step, n, k);
  }

  lemma OffsetOfMultiples(first: nat, step: nat, k: nat, n: nat)
    requires step > 0 && k <= n
    ensures BlockOffset(first + step * k, first + step * n, step) == k - n
  {
    assert step * n - step * k == step * (n - k);
    DivModUnique(step * (n - k), step, n - k, 0);
  }

  /** The block that covers index i, and its offset from the newest block. */
  lemma LookupFindsBlock(bases: seq<nat>, step: nat, i: nat) returns (k: nat)
    requires step > 0 && bases != [] && Ladder(bases, step) && bases[0] <= i < bases[|bases| - 1] + step
    ensures k < |bases| && bases[k] == i - i % step
    ensures BlockOffset(bases[k], bases[|bases| - 1], step) == k - (|bases| - 1)
  {
    var n := |bases| - 1;
    LadderAt(bases, step, n);
    k := BlockNumber(bases[0], step, n, i);
    LadderAt(bases, step, k);
    OffsetOfMultiples(bases[0], step, k, n);
  }
}
