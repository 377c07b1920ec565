/**
 A run of the explicit producer with two consumers in which a sub-queue grows past any limit on its size.

 The limit, and the room between tail and head, are checked when a block is added and not when one is
 reused. While one consumer stalls between claiming index 0 and reading it, the block ahead cannot be
 reused, and each time the other consumer has emptied the queue the producer may add a block. When the
 first consumer goes on, all these blocks can be refilled without a check.
 */
module Overfill {
  import opened Options
  import opened Arith
  import opened Ladders
  import Bits
  import O = OptimisticDequeue
  import opened RacingBlocks
  import opened RacingCalls

  lemma ConsumedReaches<Item(!new)>(s: State<Item>, t: nat)
    requires Reachable(s) && t < |s.consumers|
    ensures Sized(s) && Reachable(ConsumerStep(s, t, 1))
  {
    ReachableInv(s);
    assert ConsumerMoves(s, ConsumerStep(s, t, 1));
    MoveReaches(s, ConsumerStep(s, t, 1));
  }

  /** With nothing in the queue there is leeway. */
  lemma EmptyHasLeeway<Item>(s: State<Item>)
    requires s.indexBits > 0 && s.blockSize > 0 && s.blockSize < Bits.Pow2(s.indexBits - 1) && s.Tail() == s.Head()
    requires s.limit.Some? ==> s.limit.value >= s.blockSize
    ensures HasLeeway(s)
  {
    assert Bits.Pow2(s.indexBits) == 2 * Bits.Pow2(s.indexBits - 1);
    Bits.CircularOrder(s.Head(), s.Tail() + s.blockSize, s.indexBits);
    DivModUnique(0, Bits.Pow2(s.indexBits), 0, 0);
  }

  // ----------------------------------------------------------- one dequeue

  /** Everybody is between two tickets, and the counters agree. */
  predicate Settled(c: O.State) {
    O.Quiet(c) && c.optimistic - c.overcommit == c.head && |c.units| == c.optimistic
  }

  /** Consumer t moves on inside the counters. */
  ghost predicate Counted<Item>(s: State<Item>, s': State<Item>, t: nat) {
    && s'.blockSize == s.blockSize && s'.indexBits == s.indexBits && s'.limit == s.limit
    && s'.producer == s.producer && s'.ring == s.ring && s'.done == s.done
    && s'.consumers == s.consumers && t < |s.counters.pc|
    && O.Holds(s.counters.units, t, s.counters.pc[t]) && s'.counters == O.Step(s.counters, t, 1)
  }

  lemma CountingStep<Item(!new)>(s: State<Item>, t: nat) returns (s': State<Item>)
    requires Reachable(s) && t < |s.consumers| == |s.counters.pc| && s.consumers[t].Counting?
    requires !s.counters.pc[t].Take?
    ensures Reachable(s') && Counted(s, s', t)
  {
    ReachableInv(s);
    CounterStep(s.counters, t, 1);
    ConsumedReaches(s, t);
    s' := ConsumerStep(s, t, 1);
  }

  /** Consumer t has claimed the next index and done nothing else. */
  ghost predicate Claimed<Item>(s: State<Item>, s': State<Item>, t: nat) {
    && s'.blockSize == s.blockSize && s'.indexBits == s.indexBits && s'.limit == s.limit
    && s'.producer == s.producer && s'.ring == s.ring && s'.done == s.done
    && Settled(s'.counters) && s'.Tail() == s.Tail() && s'.Head() == s.Head() + 1
    && t < |s.consumers| && s'.consumers == s.consumers[t := Locating(s.Head(), s.Head() + 1)]
    && |s'.consumers| == |s'.counters.pc|
  }

  /** The first three loads of a dequeue on a queue that is not empty. */
  lemma Decide<Item(!new)>(s: State<Item>, t: nat) returns (s': State<Item>)
    requires Reachable(s) && Settled(s.counters) && s.Head() < s.Tail()
    requires t < |s.consumers| == |s.counters.pc| && s.consumers[t].Counting?
    ensures Reachable(s') && SameButCounters(s, s')
    ensures s'.counters == s.counters.(pc := s.counters.pc[t := O.Commit(1, s.counters.overcommit)])
  {
    var s1 := CountingStep(s, t);
    var s2 := CountingStep(s1, t);
    s' := CountingStep(s2, t);
    DecidesToTry(s.counters, t);
  }

  lemma DecidesToTry(c: O.State, t: nat)
    requires Settled(c) && c.head < c.tail && t < |c.pc|
    ensures var c1 := O.Step(c, t, 1); var c2 := O.Step(c1, t, 1);
            && !c1.pc[t].Take? && !c2.pc[t].Take?
            && O.Step(c2, t, 1) == c.(pc := c.pc[t := O.Commit(1, c.overcommit)])
  {
    var c3 := O.Step(O.Step(O.Step(c, t, 1), t, 1), t, 1);
    assert c3.pc == c.pc[t := c3.pc[t]];
  }

  ghost predicate SameButCounters<Item>(s: State<Item>, s': State<Item>) {
    && s'.blockSize == s.blockSize && s'.indexBits == s.indexBits && s'.limit == s.limit
    && s'.producer == s.producer && s'.ring == s.ring && s'.done == s.done && s'.consumers == s.consumers
  }

  /** A winning ticket, and the fetch_add on headIndex. */
  lemma Win<Item(!new)>(s: State<Item>, t: nat) returns (s': State<Item>)
    requires Reachable(s) && t < |s.consumers| == |s.counters.pc| && s.consumers[t].Counting?
    requires s.counters.pc[t] == O.Commit(1, s.counters.overcommit) && |s.counters.units| == s.counters.optimistic
    requires s.counters.optimistic - s.counters.overcommit == s.Head() < s.Tail()
    ensures Reachable(s') && SameButCounters(s, s')
    ensures s'.Head() == s.Head() && s'.Tail() == s.Tail()
    ensures s'.counters.pc == s.counters.pc[t := O.Take(s.counters.optimistic, 1)]
    ensures s'.counters.optimistic - s'.counters.overcommit == s'.Head() + 1
    ensures |s'.counters.units| == s'.counters.optimistic
  {
    s' := CountingStep(s, t);
    s' := CountingStep(s', t);
  }

  lemma TakeOne<Item(!new)>(s: State<Item>, t: nat) returns (s': State<Item>)
    requires Reachable(s) && t < |s.consumers| == |s.counters.pc| && s.consumers[t].Counting?
    requires s.counters.pc[t].Take? && s.counters.pc[t].got == 1
    requires forall u: nat | u < |s.counters.pc| && u != t :: s.counters.pc[u] == O.Idle
    requires s.counters.optimistic - s.counters.overcommit == s.Head() + 1
    requires |s.counters.units| == s.counters.optimistic
    ensures Reachable(s') && Claimed(s, s', t)
  {
    HoldsItsTickets(s, t);
    TakingSettles(s.counters, t);
    ConsumedReaches(s, t);
    s' := ConsumerStep(s, t, 1);
  }

  lemma TakingSettles(c: O.State, t: nat)
    requires t < |c.pc| && O.Holds(c.units, t, c.pc[t]) && c.pc[t].Take? && c.pc[t].got == 1
    requires forall u: nat | u < |c.pc| && u != t :: c.pc[u] == O.Idle
    requires c.optimistic - c.overcommit == c.head + 1 && |c.units| == c.optimistic
    ensures var c' := O.Step(c, t, 1);
            Settled(c') && c'.tail == c.tail && c'.head == c.head + 1 && |c'.pc| == |c.pc|
  {
  }

  lemma HoldsItsTickets<Item(!new)>(s: State<Item>, t: nat)
    requires Reachable(s) && t < |s.counters.pc|
    ensures O.Holds(s.counters.units, t, s.counters.pc[t])
  {
    ReachableInv(s);
    CounterStep(s.counters, t, 1);
  }

  lemma ClaimNext<Item(!new)>(s: State<Item>, t: nat) returns (s': State<Item>)
    requires Reachable(s) && Settled(s.counters) && s.Head() < s.Tail()
    requires t < |s.consumers| == |s.counters.pc| && s.consumers[t].Counting?
    ensures Reachable(s') && Claimed(s, s', t)
  {
    s' := Decide(s, t);
    s' := Win(s', t);
    s' := TakeOne(s', t);
  }

  /** Consumer t is elsewhere in its dequeue of index lo. */
  ghost predicate MovedOn<Item>(s: State<Item>, s': State<Item>, t: nat) {
    && s'.blockSize == s.blockSize && s'.indexBits == s.indexBits && s'.limit == s.limit
    && s'.producer == s.producer && s'.ring == s.ring && s'.counters == s.counters
    && t < |s.consumers| == |s'.consumers| && s'.consumers == s.consumers[t := s'.consumers[t]]
  }

  /** One load of the lookup. */
  lemma LoadStep<Item(!new)>(s: State<Item>, t: nat, lo: nat) returns (s': State<Item>)
    requires Reachable(s) && t < |s.consumers|
    requires var c := s.consumers[t]; (c.Locating? || c.Indexed? || c.Fronted?) && c.lo == lo && c.end == lo + 1
    ensures Reachable(s') && MovedOn(s, s', t) && s'.done == s.done
    ensures var c, c' := s.consumers[t], s'.consumers[t];
            && (c.Locating? ==> c'.Indexed?) && (c.Indexed? ==> c'.Fronted?) && (c.Fronted? ==> c'.Slotted?)
            && !c'.Counting? && c'.lo == lo && c'.end == lo + 1
  {
    LoadLeadsOn(s, t);
    ConsumedReaches(s, t);
    s' := ConsumerStep(s, t, 1);
  }

  lemma LoadLeadsOn<Item(!new)>(s: State<Item>, t: nat)
    requires Reachable(s) && t < |s.consumers|
    ensures Sized(s)
    ensures var c, c' := s.consumers[t], ConsumerStep(s, t, 1).consumers[t];
            && (c.Locating? ==> c'.Indexed?) && (c.Indexed? ==> c'.Fronted?) && (c.Fronted? ==> c'.Slotted?)
            && (c.Slotted? ==> c'.Reading?)
  {
    var run: seq<State<Item>> :| Run(run) && run[|run| - 1] == s;
    LookupNeverMisses(run, t, 1);
  }

  lemma LookUp<Item(!new)>(s: State<Item>, t: nat, lo: nat) returns (s': State<Item>)
    requires Reachable(s) && t < |s.consumers| && s.consumers[t] == Locating(lo, lo + 1)
    ensures Reachable(s') && MovedOn(s, s', t) && s'.done == s.done
    ensures s'.consumers[t].Slotted? && s'.consumers[t].lo == lo && s'.consumers[t].end == lo + 1
  {
    s' := LoadStep(s, t, lo);
    s' := LoadStep(s', t, lo);
    s' := LoadStep(s', t, lo);
  }

  lemma EnterBlock<Item(!new)>(s: State<Item>, t: nat, lo: nat) returns (s': State<Item>)
    requires Reachable(s) && t < |s.consumers|
    requires s.consumers[t].Slotted? && s.consumers[t].lo == lo && s.consumers[t].end == lo + 1
    ensures Reachable(s') && MovedOn(s, s', t) && s'.done == s.done
    ensures var c := s'.consumers[t]; c.Reading? && c.lo == c.i == lo && c.hi == lo + 1 == c.end
  {
    LoadLeadsOn(s, t);
    ConsumedReaches(s, t);
    s' := ConsumerStep(s, t, 1);
    BlockEndsLater(lo, s.blockSize);
  }

  lemma BlockEndsLater(lo: nat, size: nat)
    requires size > 0
    ensures lo < lo - lo % size + size
  {
  }

  lemma ReadStep<Item(!new)>(s: State<Item>, t: nat) returns (s': State<Item>)
    requires Reachable(s) && t < |s.consumers| && s.consumers[t].Reading?
    ensures Reachable(s') && MovedOn(s, s', t) && s'.done == s.done
    ensures var c, c' := s.consumers[t], s'.consumers[t];
            && c'.HasBlock() && c'.lo == c.lo && c'.hi == c.hi && c'.end == c.end
            && (if c.i < c.hi then c'.Reading? && c'.i == c.i + 1 else c'.Marking? && c'.j == 0)
  {
    ConsumedReaches(s, t);
    s' := ConsumerStep(s, t, 1);
  }

  lemma ReadIt<Item(!new)>(s: State<Item>, t: nat, lo: nat) returns (s': State<Item>)
    requires Reachable(s) && t < |s.consumers|
    requires s.consumers[t].Slotted? && s.consumers[t].lo == lo && s.consumers[t].end == lo + 1
    ensures Reachable(s') && MovedOn(s, s', t) && s'.done == s.done
    ensures var c := s'.consumers[t]; c.Marking? && c.lo == lo && c.j == 0 && c.hi == lo + 1 == c.end
  {
    s' := EnterBlock(s, t, lo);
    s' := ReadStep(s', t);
    s' := ReadStep(s', t);
  }

  lemma MarkStep<Item(!new)>(s: State<Item>, t: nat) returns (s': State<Item>)
    requires Reachable(s) && t < |s.consumers| && s.consumers[t].Marking? && s.consumers[t].hi == s.consumers[t].end
    ensures Reachable(s') && MovedOn(s, s', t)
    ensures var c, c' := s.consumers[t], s'.consumers[t];
            if c.lo + c.j < c.hi then c' == c.(j := c.j + 1) && s'.done == s.done + {c.hi - 1 - c.j}
            else c'.Counting? && s'.done == s.done
  {
    ConsumedReaches(s, t);
    s' := ConsumerStep(s, t, 1);
  }

  lemma MarkIt<Item(!new)>(s: State<Item>, t: nat, lo: nat) returns (s': State<Item>)
    requires Reachable(s) && t < |s.consumers|
    requires var c := s.consumers[t]; c.Marking? && c.lo == lo && c.j == 0 && c.hi == lo + 1 == c.end
    ensures Reachable(s') && MovedOn(s, s', t) && s'.done == s.done + {lo} && s'.consumers[t].Counting?
  {
    s' := MarkStep(s, t);
    s' := MarkStep(s', t);
  }

  /** A dequeue that has claimed index lo ends. */
  lemma FinishDequeue<Item(!new)>(s: State<Item>, t: nat, lo: nat) returns (s': State<Item>)
    requires Reachable(s) && t < |s.consumers| && s.consumers[t] == Locating(lo, lo + 1)
    ensures Reachable(s') && MovedOn(s, s', t) && s'.done == s.done + {lo} && s'.consumers[t].Counting?
  {
    s' := LookUp(s, t, lo);
    s' := ReadIt(s', t, lo);
    s' := MarkIt(s', t, lo);
  }

  // ---------------------------------------------------------------- the run

  /** The limit admits a block, and so do the indices. */
  predicate Roomy<Item>(s: State<Item>) {
    && s.blockSize > 1 && s.indexBits > 0 && s.blockSize < Bits.Pow2(s.indexBits - 1)
    && (s.limit.Some? ==> s.limit.value >= s.blockSize)
  }

  /** Of x indices consumer 0 has claimed the first, and consumer 1 has dequeued the others. */
  ghost predicate Stalled<Item>(s: State<Item>, x: nat) {
    && Roomy(s) && s.producer.Ready? && |s.consumers| == |s.counters.pc| == 2
    && s.Head() == s.Tail() == x > 0 && Settled(s.counters)
    && s.consumers[0] == Locating(0, 1) && s.consumers[1].Counting?
    && forall i: nat :: i in s.done <==> 1 <= i < x
  }

  lemma FirstBlockStays<Item>(s: State<Item>)
    requires Layout(s) && DoneOk(s) && s.Tail() > 0 && 0 !in s.done
    ensures s.bases != [] && s.bases[0] == 0
  {
  }

  /** An enqueue that starts while nothing is in the queue. */
  lemma EnqueueWhileEmpty<Item(!new)>(s: State<Item>, x: Item) returns (s': State<Item>)
    requires Reachable(s) && Roomy(s) && s.producer.Ready? && s.Head() == s.Tail()
    ensures Reachable(s') && Enqueued(s, s', x)
  {
    EmptyHasLeeway(s);
    s' := EnqueueEnds(s, x, x, true);
  }

  lemma StalledAgain<Item>(s: State<Item>, x: Item, s1: State<Item>, s2: State<Item>, s': State<Item>)
    requires Stalled(s, s.Head()) && Enqueued(s, s1, x) && Claimed(s1, s2, 1) && MovedOn(s2, s', 1)
    requires s'.done == s2.done + {s.Head()} && s'.consumers[1].Counting?
    ensures Stalled(s', s.Head() + 1)
  {
  }

  lemma StalledGoesOn<Item(!new)>(s: State<Item>, x: Item) returns (s': State<Item>)
    requires Reachable(s) && Stalled(s, s.Head())
    ensures Reachable(s') && Stalled(s', s.Head() + 1) && s'.blockSize == s.blockSize && s'.indexBits == s.indexBits
    ensures s'.limit == s.limit
  {
    var s1 := EnqueueWhileEmpty(s, x);
    var s2 := ClaimNext(s1, 1);
    s' := FinishDequeue(s2, 1, s1.Head());
    StalledAgain(s, x, s1, s2, s');
  }

  function Start<Item>(blockSize: nat, indexBits: nat, limit: Option<nat>): State<Item> {
    State(blockSize, indexBits, limit, O.State(0, 0, 0, 0, [O.Idle, O.Idle], [], []), [], [], [], [], 0, 1, 0,
          Ready, [Counting, Counting], [], map[], {})
  }

  lemma StartReaches<Item(!new)>(blockSize: nat, indexBits: nat, limit: Option<nat>) returns (s: State<Item>)
    requires blockSize > 0 && indexBits > 0
    ensures s == Start(blockSize, indexBits, limit) && Reachable(s)
  {
    s := Start(blockSize, indexBits, limit);
    assert Init(s);
    assert Run([s]) && [s][|[s]| - 1] == s;
  }

  /** The first element is enqueued, and consumer 0 claims it. */
  lemma StallAtOne<Item(!new)>(x: Item, blockSize: nat, indexBits: nat, limit: Option<nat>) returns (s: State<Item>)
    requires Roomy(Start<Item>(blockSize, indexBits, limit))
    ensures Reachable(s) && Stalled(s, 1) && s.blockSize == blockSize && s.indexBits == indexBits && s.limit == limit
  {
    var s0 := StartReaches<Item>(blockSize, indexBits, limit);
    var s1 := EnqueueWhileEmpty(s0, x);
    s := ClaimNext(s1, 0);
    StalledAtOne(s0, x, s1, s);
  }

  lemma StalledAtOne<Item>(s0: State<Item>, x: Item, s1: State<Item>, s: State<Item>)
    requires Roomy(s0) && s0 == Start(s0.blockSize, s0.indexBits, s0.limit)
    requires Enqueued(s0, s1, x) && Claimed(s1, s, 0)
    ensures Stalled(s, 1)
  {
  }

  lemma {:induction false} StallAt<Item(!new)>(x: Item, blockSize: nat, indexBits: nat, limit: Option<nat>, n: nat)
    returns (s: State<Item>)
    requires Roomy(Start<Item>(blockSize, indexBits, limit)) && n > 0
    ensures Reachable(s) && Stalled(s, n) && s.blockSize == blockSize && s.indexBits == indexBits && s.limit == limit
  {
    if n == 1 {
      s := StallAtOne(x, blockSize, indexBits, limit);
    } else {
      s := StallAt(x, blockSize, indexBits, limit, n - 1);
      s := StalledGoesOn(s, x);
    }
  }

  /** All of the indices below the head are done, and y elements are in the queue, whose ring has n blocks. */
  ghost predicate Refilling<Item>(s: State<Item>, n: nat, y: nat) {
    && s.producer.Ready? && s.blockSize > 0 && |s.ring| == n > 0
    && s.Head() == s.blockSize * n && s.Tail() == s.Head() + y
    && forall i: nat :: i in s.done <==> i < s.Head()
  }

  /** The ring is as long as it is full of elements. */
  lemma RingLength<Item>(s: State<Item>, n: nat)
    requires Layout(s) && !s.producer.HasBlock() && s.bases != [] && s.bases[0] == 0 && s.Tail() == s.blockSize * n
    ensures |s.ring| == n
  {
    var k := |s.bases|;
    LadderAt(s.bases, s.blockSize, k - 1);
    MulApart(s.blockSize, k - 1, n);
    MulApart(s.blockSize, n, k - 1);
    MulApart(s.blockSize, k, n);
    assert s.blockSize * k == s.blockSize * (k - 1) + s.blockSize;
  }

  /** Consumer 0 goes on. */
  lemma RefillStarts<Item(!new)>(s: State<Item>, n: nat) returns (s': State<Item>)
    requires Reachable(s) && Stalled(s, s.blockSize * n)
    ensures Reachable(s') && Refilling(s', n, 0) && s'.blockSize == s.blockSize && s'.indexBits == s.indexBits
    ensures s'.limit == s.limit
  {
    ReachableInv(s);
    FirstBlockStays(s);
    RingLength(s, n);
    s' := FinishDequeue(s, 0, 0);
  }

  /** The block ahead can be reused as long as the queue holds less than the ring does. */
  lemma BlockAheadIsDone<Item(!new)>(s: State<Item>, n: nat, y: nat)
    requires Reachable(s) && Refilling(s, n, y) && y < s.blockSize * n && s.Tail() % s.blockSize == 0
    ensures Layout(s) && s.bases != [] && AllDone(s.done, s.bases[0], s.bases[0] + s.blockSize)
  {
    ReachableInv(s);
    FullBlocksEnd(s.bases, s.blockSize, s.Tail());
    BaseIsMultiple(s.bases, s.blockSize, 0);
    OneBlockLess(s.bases[0], s.blockSize, n, y);
  }

  lemma OneBlockLess(base: nat, step: nat, n: nat, y: nat)
    requires step > 0 && base % step == 0 && base == y < step * n
    ensures base + step <= step * n
  {
    DivModUnique(step * n, step, n, 0);
    NextMultipleOrMore(base, step, step * n);
  }

  lemma RefillGoesOn<Item(!new)>(s: State<Item>, x: Item, n: nat, y: nat) returns (s': State<Item>)
    requires Reachable(s) && Refilling(s, n, y) && y < s.blockSize * n
    ensures Reachable(s') && Refilling(s', n, y + 1) && s'.blockSize == s.blockSize && s'.indexBits == s.indexBits
    ensures s'.limit == s.limit
  {
    if s.Tail() % s.blockSize == 0 {
      BlockAheadIsDone(s, n, y);
    }
    s' := EnqueueEnds(s, x, x, true);
  }

  lemma {:induction false} Refill<Item(!new)>(s: State<Item>, x: Item, n: nat, y: nat) returns (s': State<Item>)
    requires Reachable(s) && Refilling(s, n, 0) && y <= s.blockSize * n
    ensures Reachable(s') && Refilling(s', n, y) && s'.blockSize == s.blockSize && s'.indexBits == s.indexBits
    ensures s'.limit == s.limit
  {
    s' := s;
    if y > 0 {
      s' := Refill(s, x, n, y - 1);
      s' := RefillGoesOn(s', x, n, y - 1);
    }
  }

  /** However small the limit on its size and the range of indices, as long as they admit a block, a
      sub-queue can come to hold any number of blocks. */
  lemma AnySizeIsReached<Item(!new)>(x: Item, blockSize: nat, indexBits: nat, limit: Option<nat>, n: nat)
    returns (run: seq<State<Item>>)
    requires Roomy(Start<Item>(blockSize, indexBits, limit)) && n > 0
    ensures Run(run)
    ensures var s := run[|run| - 1];
            && s.blockSize == blockSize && s.indexBits == indexBits && s.limit == limit
            && s.Tail() == s.Head() + blockSize * n && |s.ring| == n
  {
    var s := StallAt(x, blockSize, indexBits, limit, blockSize * n);
    s := RefillStarts(s, n);
    s := Refill(s, x, n, blockSize * n);
    run :| Run(run) && run[|run| - 1] == s;
  }

  /** If the run ends with these parameters and a ring of n blocks, the queue is within the limit. */
  ghost predicate KeepsLimit<Item(!new)>(run: seq<State<Item>>, blockSize: nat, indexBits: nat, limit: nat, n: nat) {
    Run(run) ==>
      var s := run[|run| - 1];
      s.blockSize == blockSize && s.indexBits == indexBits && s.limit == Some(limit) && |s.ring| == n ==>
        s.Tail() - s.Head() <= limit
  }

  /** So a sub-queue of n blocks keeps the limit in every run if and only if all its blocks together do. */
  lemma LimitIsKeptIff<Item(!new)>(x: Item, blockSize: nat, indexBits: nat, limit: nat, n: nat)
    requires Roomy(Start<Item>(blockSize, indexBits, Some(limit))) && n > 0
    ensures blockSize * n <= limit <==>
            forall run: seq<State<Item>> :: KeepsLimit(run, blockSize, indexBits, limit, n)
  {
    if blockSize * n <= limit {
      forall run: seq<State<Item>> ensures KeepsLimit(run, blockSize, indexBits, limit, n) {
        if Run(run) {
          SizeFitsRing(run);
        }
      }
    } else {
      var run := AnySizeIsReached(x, blockSize, indexBits, Some(limit), n);
      assert !KeepsLimit(run, blockSize, indexBits, limit, n);
    }
  }
}
