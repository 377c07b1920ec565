/**
 The callback queue as the select thread's own code sees it when it runs alone: batches are popped,
 run, possibly cut by a deadline, and what is left over is put back, while callbacks queue further
 callbacks, themselves perhaps. LoopCallbacks must come to the same as running one callback at a time
 off one queue.

 What other threads add is the business of module Selector.
 */
module CallbackQueue {
  import opened Arith

  /** A callback is a number, and a program says which callbacks each of them queues when it runs. */
  type Program = nat -> seq<nat>

  // -------------------------------------------------------- specification

  datatype Progress = Progress(executed: seq<nat>, queue: seq<nat>)

  /** One callback at a time. */
  function OneByOne(program: Program, p: Progress, k: nat): Progress
    decreases k
  {
    if k == 0 || p.queue == [] then p
    else OneByOne(program, Progress(p.executed + [p.queue[0]], p.queue[1..] + program(p.queue[0])), k - 1)
  }

  lemma {:induction false} OneByOneSplits(program: Program, p: Progress, j: nat, k: nat)
    ensures OneByOne(program, p, j + k) == OneByOne(program, OneByOne(program, p, j), k)
    decreases j
  {
    if j > 0 && p.queue != [] {
      var next := Progress(p.executed + [p.queue[0]], p.queue[1..] + program(p.queue[0]));
      OneByOneSplits(program, next, j - 1, k);
    }
  }

  /** Everything the listed callbacks queue. */
  function Queued(program: Program, cs: seq<nat>): seq<nat> {
    if cs == [] then [] else Queued(program, cs[..|cs| - 1]) + program(cs[|cs| - 1])
  }

  /** First in, first out: what has been executed and what waits are, in this order, what was queued
      at the beginning and then what each executed callback queued. */
  ghost predicate FirstInFirstOut(program: Program, p: Progress, r: Progress) {
    && p.executed <= r.executed
    && r.executed + r.queue == p.executed + p.queue + Queued(program, r.executed[|p.executed|..])
  }

  lemma OneMoreIsFifo(program: Program, p: Progress, m: Progress)
    requires FirstInFirstOut(program, p, m) && m.queue != []
    ensures FirstInFirstOut(program, p, Progress(m.executed + [m.queue[0]], m.queue[1..] + program(m.queue[0])))
  {
    var c, rest := m.queue[0], m.queue[1..];
    var done, done' := m.executed[|p.executed|..], (m.executed + [c])[|p.executed|..];
    assert done' == done + [c] && done'[..|done'| - 1] == done;
    assert m.queue == [c] + rest;
    Regroup(m.executed, [c], rest, program(c));
    assert p.executed + p.queue + Queued(program, done) + program(c) ==
           p.executed + p.queue + (Queued(program, done) + program(c));
  }

  lemma Regroup<T>(a: seq<T>, b: seq<T>, c: seq<T>, d: seq<T>)
    ensures a + b + (c + d) == a + (b + c) + d
  {
  }

  lemma {:induction false} OneByOneIsFifo(program: Program, p: Progress, k: nat)
    ensures var r := OneByOne(program, p, k);
            FirstInFirstOut(program, p, r) && |r.executed| <= |p.executed| + k
            && (|r.executed| < |p.executed| + k ==> r.queue == [])
  {
    if k == 0 || p.queue == [] {
      assert p.executed[|p.executed|..] == [];
    } else {
      OneByOneIsFifo(program, p, k - 1);
      OneByOneSplits(program, p, k - 1, 1);
      var m := OneByOne(program, p, k - 1);
      if m.queue != [] {
        OneMoreIsFifo(program, p, m);
      }
    }
  }

  lemma EmptyQueueStays(program: Program, p: Progress, j: nat, k: nat)
    requires OneByOne(program, p, j).queue == [] && j <= k
    ensures OneByOne(program, p, k) == OneByOne(program, p, j)
  {
    OneByOneSplits(program, p, j, k - j);
  }

  // ------------------------------------------------------------ the queue

  /** absl::Time(), in nanoseconds since the Unix epoch. */
  const UNIX_EPOCH: int := 0

  class EventQueue {
    var toRun: seq<nat>
    var haveToRun: bool
    const maxPerEvent: nat
    const program: Program
    ghost var executed: seq<nat>

    ghost predicate Valid()
      reads this
    {
      haveToRun == (toRun != [])
    }

    ghost function Now(): Progress
      reads this
    {
      Progress(executed, toRun)
    }

    constructor (max: nat, program: Program)
      ensures Valid() && Now() == Progress([], []) && maxPerEvent == max && this.program == program
    {
      toRun, haveToRun, maxPerEvent, executed := [], false, max, [];
      this.program := program;
    }

    method RunInSelectLoop(callback: nat)
      modifies this
      ensures Valid() && Now() == Progress(old(executed), old(toRun) + [callback])
    {
      toRun := toRun + [callback];
      haveToRun := true;
    }

    method Invoke(callback: nat)
      requires Valid()
      modifies this
      ensures Valid() && Now() == Progress(old(executed) + [callback], old(toRun) + program(callback))
    {
      executed := executed + [callback];
      var queued := program(callback);
      for i := 0 to |queued|
        invariant Valid() && Now() == Progress(old(executed) + [callback], old(toRun) + queued[..i])
      {
        RunInSelectLoop(queued[i]);
        assert queued[..i + 1] == queued[..i] + [queued[i]];
      }
      assert queued[..|queued|] == queued;
    }

    method PopCallbacks(maxNumToRun: nat) returns (batch: seq<nat>)
      requires Valid()
      modifies this
      ensures Valid() && batch + toRun == old(toRun) && executed == old(executed)
      ensures |batch| == Min(maxNumToRun, |old(toRun)|)
    {
      batch := [];
      assert batch + toRun == toRun;
      if !haveToRun {
        return;
      }
      var left: nat := maxNumToRun;
      while left > 0 && toRun != []
        invariant batch + toRun == old(toRun) && executed == old(executed)
        invariant left + |batch| == maxNumToRun
      {
        assert batch + toRun == batch + [toRun[0]] + toRun[1..];
        batch := batch + [toRun[0]];
        toRun := toRun[1..];
        left := left - 1;
      }
      assert |old(toRun)| == |batch| + |toRun|;
      haveToRun := toRun != [];
    }

    method PrependCallbacks(batch: seq<nat>)
      requires Valid()
      modifies this
      ensures Valid() && Now() == Progress(old(executed), batch + old(toRun))
    {
      if batch != [] {
        var rest := batch;
        while rest != []
          invariant rest + toRun == batch + old(toRun) && executed == old(executed)
        {
          var last := rest[|rest| - 1];
          assert rest + toRun == rest[..|rest| - 1] + ([last] + toRun);
          toRun := [last] + toRun;
          rest := rest[..|rest| - 1];
        }
        haveToRun := true;
      }
    }

    /** `deadline` is the present plus the time allowed. The loop compares it with the Unix epoch and
        not with the present: a batch runs to its end if and only if the deadline is after 1970, and
        else not at all. */
    method RunCallbacks(maxNumToRun: nat, deadline: int) returns (numRun: nat)
      requires Valid()
      modifies this
      ensures Valid() && Now() == OneByOne(program, old(Now()), numRun)
      ensures numRun == if deadline > UNIX_EPOCH then Min(maxNumToRun, |old(toRun)|) else 0
    {
      ghost var start := Now();
      var batch := PopCallbacks(maxNumToRun);
      numRun := 0;
      while batch != [] && UNIX_EPOCH < deadline
        invariant Valid() && numRun + |batch| == Min(maxNumToRun, |old(toRun)|)
        invariant Progress(executed, batch + toRun) == OneByOne(program, start, numRun)
        invariant deadline <= UNIX_EPOCH ==> numRun == 0
        decreases |batch|
      {
        ghost var here := Progress(executed, batch + toRun);
        OneByOneSplits(program, start, numRun, 1);
        assert here.queue[0] == batch[0] && here.queue[1..] == batch[1..] + toRun;
        assert here.queue[1..] + program(batch[0]) == batch[1..] + (toRun + program(batch[0]));
        assert OneByOne(program, here, 1) ==
               OneByOne(program, Progress(executed + [batch[0]], here.queue[1..] + program(batch[0])), 0);
        Invoke(batch[0]);
        batch := batch[1..];
        numRun := numRun + 1;
      }
      assert batch == [] ==> batch + toRun == toRun;
      PrependCallbacks(batch);
    }

    /** The i-th batch gets the deadline deadlines(i). Batches and putting back come to running one
        callback at a time. With deadlines after 1970 exactly maxPerEvent of them are run, or all if
        the queue gets empty before, also when callbacks keep queueing themselves. */
    method LoopCallbacks(deadlines: nat -> int) returns (runCount: nat)
      requires Valid()
      modifies this
      ensures Valid() && runCount <= maxPerEvent
      ensures Now() == OneByOne(program, old(Now()), runCount)
      ensures (forall i :: deadlines(i) > UNIX_EPOCH) ==> Now() == OneByOne(program, old(Now()), maxPerEvent)
    {
      ghost var start := Now();
      runCount := 0;
      var batches := 0;
      while haveToRun && runCount < maxPerEvent
        invariant Valid() && Now() == OneByOne(program, start, runCount) && runCount <= maxPerEvent
        decreases maxPerEvent - runCount
      {
        var n := RunCallbacks(maxPerEvent - runCount, deadlines(batches));
        batches := batches + 1;
        OneByOneSplits(program, start, runCount, n);
        if n == 0 {
          return runCount;
        }
        runCount := runCount + n;
      }
      if toRun == [] {
        EmptyQueueStays(program, start, runCount, maxPerEvent);
      }
    }
  }
}
