/** Totals over the threads of a machine. */
module Sums {

  function Sum<T>(f: T -> nat, s: seq<T>): nat {
    if s == [] then 0 else Sum(f, s[..|s| - 1]) + f(s[|s| - 1])
  }

  /** When one thread moves, only its own share of the total changes. */
  lemma {:induction false} SumUpdate<T>(f: T -> nat, s: seq<T>, t: nat, x: T)
    requires t < |s|
    ensures Sum(f, s[t := x]) == Sum(f, s) - f(s[t]) + f(x)
  {
    var n := |s| - 1;
    if t == n {
      assert s[t := x][..n] == s[..n];
    } else {
      SumUpdate(f, s[..n], t, x);
      assert s[t := x][..n] == s[..n][t := x];
    }
  }

  lemma {:induction false} SumBoundsTerm<T>(f: T -> nat, s: seq<T>, t: nat)
    requires t < |s|
    ensures f(s[t]) <= Sum(f, s)
  {
    if t < |s| - 1 {
      SumBoundsTerm(f, s[..|s| - 1], t);
    }
  }

  lemma {:induction false} SumOfZeros<T>(f: T -> nat, s: seq<T>)
    requires forall i | 0 <= i < |s| :: f(s[i]) == 0
    ensures Sum(f, s) == 0
  {
    if s != [] {
      SumOfZeros(f, s[..|s| - 1]);
    }
  }
}
