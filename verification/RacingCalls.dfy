/**
 Whole calls of enqueue and dequeue_bulk of the explicit producer, each alone with everybody else stopped
 anywhere: when they end, and what they have done then.
 */
module RacingCalls {
  import opened Options
  import opened Arith
  import opened Ladders
  import Bits
  import O = OptimisticDequeue
  import opened RacingBlocks

  ghost predicate Reachable<Item(!new)>(s: State<Item>) {
    exists run: seq<State<Item>> :: Run(run) && run[|run| - 1] == s
  }

  lemma ReachableInv<Item(!new)>(s: State<Item>)
    requires Reachable(s)
    ensures Inv(s) && s.Head() <= s.Tail()
  {
    var run: seq<State<Item>> :| Run(run) && run[|run| - 1] == s;
    RunKeepsInv(run);
    O.InvBoundsHead(s.counters);
  }

  lemma MoveReaches<Item(!new)>(s: State<Item>, s': State<Item>)
    requires Reachable(s) && (ProducerMoves(s, s') || ConsumerMoves(s, s'))
    ensures Reachable(s')
  {
    var run: seq<State<Item>> :| Run(run) && run[|run| - 1] == s;
    RunGoesOn(run, s');
    assert (run + [s'])[|run + [s']| - 1] == s';
  }

  lemma RunGoesOn<Item(!new)>(run: seq<State<Item>>, s': State<Item>)
    requires Run(run) && (ProducerMoves(run[|run| - 1], s') || ConsumerMoves(run[|run| - 1], s'))
    ensures Run(run + [s'])
  {
    var run' := run + [s'];
    forall i: nat ensures NextAt(run', i) {
      if i + 1 < |run| {
        assert NextAt(run, i);
        assert run'[i] == run[i] && run'[i + 1] == run[i + 1];
      } else if i + 1 == |run| {
        assert run'[i] == run[|run| - 1] && run'[i + 1] == s';
      }
    }
  }

  /** The next operation of the producer; m says whether there is memory to be had. */
  ghost function Produced<Item>(s: State<Item>, x: Item, m: bool): State<Item>
    requires Sized(s)
  {
    ProducerStep(s, x, m, seq(s.blockSize, _ => x), seq(2 * s.size, _ => Entry(0, 0)))
  }

  ghost predicate StepAt<S>(path: seq<S>, i: nat, step: (S, S) -> bool) {
    i + 1 < |path| ==> step(path[i], path[i + 1])
  }

  /** A number of such steps lead from s to s'. */
  ghost predicate LeadsTo<S(!new)>(s: S, s': S, step: (S, S) -> bool) {
    exists path: seq<S> :: IsPath(path, s, s', step)
  }

  ghost predicate IsPath<S>(path: seq<S>, s: S, s': S, step: (S, S) -> bool) {
    |path| > 0 && path[0] == s && path[|path| - 1] == s' && forall i: nat :: StepAt(path, i, step)
  }

  lemma LeadsOn<S(!new)>(s: S, s1: S, s2: S, step: (S, S) -> bool)
    requires LeadsTo(s, s1, step) && LeadsTo(s1, s2, step)
    ensures LeadsTo(s, s2, step)
  {
    var a :| IsPath(a, s, s1, step);
    var b :| IsPath(b, s1, s2, step);
    var path := a + b[1..];
    forall i: nat ensures StepAt(path, i, step) {
      if i + 1 < |a| {
        assert StepAt(a, i, step);
      } else {
        assert StepAt(b, i + 1 - |a|, step);
      }
    }
    assert IsPath(path, s, s2, step);
  }

  lemma LeadsAtOnce<S(!new)>(s: S, s': S, step: (S, S) -> bool)
    requires step(s, s')
    ensures LeadsTo(s, s', step)
  {
    assert IsPath([s, s'], s, s', step);
  }

  /** Operations of the producer with everybody else standing still; a call that starts there has argument x. */
  ghost function ByProducer<Item>(x: Item, m: bool): (State<Item>, State<Item>) -> bool {
    (a: State<Item>, b: State<Item>) => Sized(a) && b == Produced(a, x, m)
  }

  ghost predicate ProducesTo<Item(!new)>(s: State<Item>, s': State<Item>, x: Item, m: bool) {
    LeadsTo(s, s', ByProducer(x, m))
  }

  lemma ProducesOn<Item(!new)>(s: State<Item>, s1: State<Item>, s2: State<Item>, x: Item, m: bool)
    requires ProducesTo(s, s1, x, m) && ProducesTo(s1, s2, x, m)
    ensures ProducesTo(s, s2, x, m)
  {
    LeadsOn(s, s1, s2, ByProducer(x, m));
  }

  /** One operation of the producer. */
  lemma ProduceOne<Item(!new)>(s: State<Item>, x: Item, m: bool) returns (s': State<Item>)
    requires Reachable(s)
    ensures Sized(s) && s' == Produced(s, x, m) && Reachable(s') && ProducesTo(s, s', x, m)
  {
    ReachableInv(s);
    s' := Produced(s, x, m);
    assert ProducerMoves(s, s');
    MoveReaches(s, s');
    LeadsAtOnce(s, s', ByProducer(x, m));
  }

  // ----------------------------------------------------------- one enqueue

  /** Within an enqueue consumers, counters and flags stay as they are, and so does its argument. */
  ghost predicate Unmoved<Item>(s: State<Item>, s': State<Item>) {
    && s'.blockSize == s.blockSize && s'.indexBits == s.indexBits && s'.limit == s.limit
    && s'.consumers == s.consumers && s'.counters == s.counters && s'.done == s.done && s'.put == s.put
    && s'.got == s.got && !s.producer.Ready? && !s'.producer.Ready? && s'.producer.item == s.producer.item
  }

  /** An enqueue has published `item`, and nothing else. */
  ghost predicate Enqueued<Item>(s: State<Item>, s': State<Item>, item: Item) {
    && s'.blockSize == s.blockSize && s'.indexBits == s.indexBits && s'.limit == s.limit
    && s'.consumers == s.consumers && s'.counters == O.Publish(s.counters, 1) && s'.done == s.done
    && s'.put == s.put + [item] && s'.got == s.got && s'.producer.Ready?
  }

  /** The end of an enqueue that has been refused: nothing has changed. */
  ghost predicate Refused<Item>(s: State<Item>, s': State<Item>) {
    && s'.producer.Ready? && s'.put == s.put && s'.counters == s.counters && s'.consumers == s.consumers
    && s'.done == s.done && s'.got == s.got
  }

  ghost predicate Ends<Item>(s: State<Item>, s': State<Item>, item: Item, accepted: bool) {
    if accepted then Enqueued(s, s', item) else Refused(s, s')
  }

  lemma FinishPublishing<Item(!new)>(s: State<Item>, x: Item, m: bool) returns (s': State<Item>)
    requires Reachable(s) && s.producer.Publishing?
    ensures Reachable(s') && ProducesTo(s, s', x, m) && Enqueued(s, s', s.producer.item) && |s'.ring| == |s.ring|
  {
    s' := ProduceOne(s, x, m);
  }

  lemma FinishWriting<Item(!new)>(s: State<Item>, x: Item, m: bool) returns (s': State<Item>)
    requires Reachable(s) && s.producer.Writing?
    ensures Reachable(s') && ProducesTo(s, s', x, m) && Enqueued(s, s', s.producer.item) && |s'.ring| == |s.ring|
  {
    var s1 := ProduceOne(s, x, m);
    s' := FinishPublishing(s1, x, m);
    ProducesOn(s, s1, s', x, m);
  }

  lemma ListingStep<Item(!new)>(s: State<Item>, x: Item, m: bool) returns (s': State<Item>)
    requires Reachable(s) && s.producer.Listing()
    ensures Reachable(s') && ProducesTo(s, s', x, m) && Unmoved(s, s') && |s'.ring| == |s.ring|
    ensures s.producer.ListingBase? ==> s'.producer.ListingBlock?
    ensures s.producer.ListingBlock? ==> s'.producer.ListingFront?
    ensures s.producer.ListingFront? ==> s'.producer.Writing?
  {
    s' := ProduceOne(s, x, m);
  }

  lemma FinishListing<Item(!new)>(s: State<Item>, x: Item, m: bool) returns (s': State<Item>)
    requires Reachable(s) && s.producer.ListingBase?
    ensures Reachable(s') && ProducesTo(s, s', x, m) && Enqueued(s, s', s.producer.item) && |s'.ring| == |s.ring|
  {
    var s1 := ListingStep(s, x, m);
    var s2 := ListingStep(s1, x, m);
    var s3 := ListingStep(s2, x, m);
    s' := FinishWriting(s3, x, m);
    ProducesOn(s2, s3, s', x, m);
    ProducesOn(s1, s2, s', x, m);
    ProducesOn(s, s1, s', x, m);
  }

  lemma GrowingStep<Item(!new)>(s: State<Item>, x: Item, m: bool) returns (s': State<Item>)
    requires Reachable(s) && s.producer.Growing?
    ensures Reachable(s') && ProducesTo(s, s', x, m)
    ensures if m then Unmoved(s, s') && s'.producer.Adding? else Refused(s, s')
  {
    s' := ProduceOne(s, x, m);
  }

  lemma AddingStep<Item(!new)>(s: State<Item>, x: Item, m: bool) returns (s': State<Item>)
    requires Reachable(s) && s.producer.Adding?
    ensures Reachable(s') && ProducesTo(s, s', x, m)
    ensures if m then Unmoved(s, s') && s'.producer.ListingBase? else Refused(s, s')
  {
    s' := ProduceOne(s, x, m);
  }

  lemma FinishAdding<Item(!new)>(s: State<Item>, x: Item, m: bool) returns (s': State<Item>)
    requires Reachable(s) && (s.producer.Growing? || s.producer.Adding?)
    ensures Reachable(s') && ProducesTo(s, s', x, m) && Ends(s, s', s.producer.item, m)
    decreases s.producer.Growing?
  {
    var s1;
    if s.producer.Growing? {
      s1 := GrowingStep(s, x, m);
    } else {
      s1 := AddingStep(s, x, m);
    }
    s' := s1;
    if m && s.producer.Growing? {
      s' := FinishAdding(s1, x, m);
      ProducesOn(s, s1, s', x, m);
    } else if m {
      s' := FinishListing(s1, x, m);
      ProducesOn(s, s1, s', x, m);
    }
  }

  /** The check on the head ends the call, or goes on to another block. */
  lemma CheckingStep<Item(!new)>(s: State<Item>, x: Item, m: bool) returns (s': State<Item>)
    requires Reachable(s) && s.producer.Checking?
    ensures Sized(s) && Reachable(s') && ProducesTo(s, s', x, m)
    ensures if HasLeeway(s) then Unmoved(s, s') && (s'.producer.Growing? || s'.producer.Adding?)
            else s' == s.(producer := Ready)
  {
    s' := ProduceOne(s, x, m);
  }

  /** What the producer has seen of the block ahead, and what the next flag says. */
  lemma ProbeTells<Item(!new)>(s: State<Item>)
    requires Reachable(s) && s.producer.Probing? && s.bases != []
    ensures var f, end := s.producer.f, s.bases[0] + s.blockSize;
            && f <= s.blockSize && AllDone(s.done, end - f, end)
            && s.ring != [] && s.ring[0] < |s.store|
            && (f < s.blockSize ==>
                  f < |s.store[s.ring[0]].flags| && (s.store[s.ring[0]].flags[f] <==> end - 1 - f in s.done))
  {
    ReachableInv(s);
    assert s.producer.f < s.blockSize ==> FlagAt(s, 0, s.producer.f);
  }

  /** Testing flags until one is down. */
  lemma {:induction false} ProbeInVain<Item(!new)>(s: State<Item>, x: Item, i: nat, m: bool) returns (s': State<Item>)
    requires Reachable(s) && s.producer.Probing? && s.bases != [] && s.bases[0] <= i < s.bases[0] + s.blockSize
    requires i !in s.done
    ensures Reachable(s') && ProducesTo(s, s', x, m) && Unmoved(s, s') && s'.producer.Checking?
    decreases s.blockSize - s.producer.f
  {
    ProbeTells(s);
    s' := ProduceOne(s, x, m);
    if s'.producer.Probing? {
      var s1 := s';
      s' := ProbeInVain(s1, x, i, m);
      ProducesOn(s, s1, s', x, m);
    }
  }

  /** Testing flags that are all set. */
  lemma {:induction false} ProbeWell<Item(!new)>(s: State<Item>, x: Item, m: bool) returns (s': State<Item>)
    requires Reachable(s) && s.producer.Probing? && s.bases != [] && s.producer.f <= s.blockSize
    requires AllDone(s.done, s.bases[0], s.bases[0] + s.blockSize)
    ensures Reachable(s') && ProducesTo(s, s', x, m) && Unmoved(s, s') && |s'.ring| == |s.ring|
    ensures s'.producer.Resetting? && s'.producer.f <= s'.blockSize
    decreases s.blockSize - s.producer.f
  {
    ProbeTells(s);
    s' := ProduceOne(s, x, m);
    if s.producer.f < s.blockSize {
      var s1 := s';
      s' := ProbeWell(s1, x, m);
      ProducesOn(s, s1, s', x, m);
    }
  }

  lemma {:induction false} FinishResetting<Item(!new)>(s: State<Item>, x: Item, m: bool) returns (s': State<Item>)
    requires Reachable(s) && s.producer.Resetting? && s.producer.f <= s.blockSize
    ensures Reachable(s') && ProducesTo(s, s', x, m) && Unmoved(s, s') && |s'.ring| == |s.ring|
    ensures s'.producer.ListingBase?
    decreases s.blockSize - s.producer.f
  {
    s' := ProduceOne(s, x, m);
    if s.producer.f < s.blockSize {
      var s1 := s';
      s' := FinishResetting(s1, x, m);
      ProducesOn(s, s1, s', x, m);
    }
  }

  /** The block ahead has no element left that somebody has still to read. */
  ghost predicate CanReuse<Item>(s: State<Item>) {
    s.bases != [] && AllDone(s.done, s.bases[0], s.bases[0] + s.blockSize)
  }

  /** What an enqueue needs: room in the tail block, a block to reuse, or memory and leeway for another. */
  ghost predicate HasRoom<Item>(s: State<Item>, m: bool)
    requires s.blockSize > 0 && s.indexBits > 0
  {
    s.Tail() % s.blockSize != 0 || CanReuse(s) || (m && HasLeeway(s))
  }

  /** For a tail less than the range of indices ahead of the head, leeway is what one expects. */
  lemma LeewayMeans<Item>(s: State<Item>)
    requires s.indexBits > 0 && s.Head() <= s.Tail() && s.Tail() + s.blockSize < s.Head() + Bits.Pow2(s.indexBits)
    requires s.blockSize > 0
    ensures HasLeeway(s) <==>
            && s.Tail() - s.Head() + s.blockSize < Bits.Pow2(s.indexBits - 1)
            && (s.limit.Some? ==> s.limit.value > 0 && s.Tail() - s.Head() + s.blockSize <= s.limit.value)
  {
    assert Bits.Pow2(s.indexBits) == 2 * Bits.Pow2(s.indexBits - 1);
    Bits.CircularOrder(s.Head(), s.Tail() + s.blockSize, s.indexBits);
    DivModUnique(s.Tail() - s.Head(), Bits.Pow2(s.indexBits), 0, s.Tail() - s.Head());
  }

  lemma FinishChecking<Item(!new)>(s: State<Item>, x: Item, m: bool) returns (s': State<Item>)
    requires Reachable(s) && s.producer.Checking?
    ensures Sized(s) && Reachable(s') && ProducesTo(s, s', x, m)
    ensures Ends(s, s', s.producer.item, m && HasLeeway(s))
  {
    var s1 := CheckingStep(s, x, m);
    s' := s1;
    if HasLeeway(s) {
      s' := FinishAdding(s1, x, m);
      ProducesOn(s, s1, s', x, m);
    }
  }

  lemma FinishReusing<Item(!new)>(s: State<Item>, x: Item, m: bool) returns (s': State<Item>)
    requires Reachable(s) && s.producer.Probing? && s.producer.f <= s.blockSize && CanReuse(s)
    ensures Reachable(s') && ProducesTo(s, s', x, m) && Enqueued(s, s', s.producer.item) && |s'.ring| == |s.ring|
  {
    var s1 := ProbeWell(s, x, m);
    var s2 := FinishResetting(s1, x, m);
    s' := FinishListing(s2, x, m);
    ProducesOn(s1, s2, s', x, m);
    ProducesOn(s, s1, s', x, m);
  }

  lemma FinishInVain<Item(!new)>(s: State<Item>, x: Item, m: bool) returns (s': State<Item>)
    requires Reachable(s) && s.producer.Probing? && s.bases != [] && !CanReuse(s) && s.indexBits > 0
    ensures Reachable(s') && ProducesTo(s, s', x, m)
    ensures Ends(s, s', s.producer.item, m && HasLeeway(s))
  {
    var i :| s.bases[0] <= i < s.bases[0] + s.blockSize && i !in s.done;
    var s1 := ProbeInVain(s, x, i, m);
    s' := FinishChecking(s1, x, m);
    ProducesOn(s, s1, s', x, m);
    LeewayStays(s, s1);
  }

  lemma LeewayStays<Item>(s: State<Item>, s1: State<Item>)
    requires Unmoved(s, s1) && s.indexBits > 0
    ensures HasLeeway(s1) <==> HasLeeway(s)
    ensures forall s' :: Enqueued(s1, s', s1.producer.item) ==> Enqueued(s, s', s.producer.item)
    ensures forall s' :: Refused(s1, s') ==> Refused(s, s')
  {
  }

  /** The first operation of an enqueue only looks. */
  lemma EnqueueBegins<Item(!new)>(s: State<Item>, item: Item, m: bool) returns (s': State<Item>)
    requires Reachable(s) && s.producer.Ready?
    ensures Sized(s) && Reachable(s') && s' == Produced(s, item, m) == s.(producer := s'.producer)
    ensures !s'.producer.Ready? && s'.producer.item == item
    ensures if s.Tail() % s.blockSize != 0 then s'.producer.Writing?
            else if s.bases == [] then s'.producer.Checking? else s'.producer.Probing? && s'.producer.f == 0
  {
    s' := ProduceOne(s, item, m);
  }

  lemma EnqueueWrites<Item(!new)>(s: State<Item>, s1: State<Item>, item: Item, x: Item, m: bool)
    returns (s': State<Item>)
    requires Reachable(s1) && s1 == s.(producer := Writing(item))
    ensures Reachable(s') && ProducesTo(s1, s', x, m) && Enqueued(s, s', item) && |s'.ring| == |s.ring|
  {
    s' := FinishWriting(s1, x, m);
  }

  lemma EnqueueChecks<Item(!new)>(s: State<Item>, s1: State<Item>, item: Item, x: Item, m: bool)
    returns (s': State<Item>)
    requires Reachable(s1) && s1 == s.(producer := Checking(item)) && s.indexBits > 0
    ensures Reachable(s') && ProducesTo(s1, s', x, m)
    ensures Ends(s, s', item, m && HasLeeway(s))
  {
    BegunIsTheSame(s, s1);
    s' := FinishChecking(s1, x, m);
  }

  lemma EnqueueReuses<Item(!new)>(s: State<Item>, s1: State<Item>, item: Item, x: Item, m: bool)
    returns (s': State<Item>)
    requires Reachable(s1) && s1 == s.(producer := Probing(item, 0)) && CanReuse(s)
    ensures Reachable(s') && ProducesTo(s1, s', x, m) && Enqueued(s, s', item) && |s'.ring| == |s.ring|
  {
    s' := FinishReusing(s1, x, m);
  }

  lemma EnqueueProbesInVain<Item(!new)>(s: State<Item>, s1: State<Item>, item: Item, x: Item, m: bool)
    returns (s': State<Item>)
    requires Reachable(s1) && s1 == s.(producer := Probing(item, 0)) && s.bases != [] && !CanReuse(s) && s.indexBits > 0
    ensures Reachable(s') && ProducesTo(s1, s', x, m)
    ensures Ends(s, s', item, m && HasLeeway(s))
  {
    BegunIsTheSame(s, s1);
    s' := FinishInVain(s1, x, m);
  }

  /** A producer that has begun has not changed what decides. */
  lemma BegunIsTheSame<Item>(s: State<Item>, s1: State<Item>)
    requires s1 == s.(producer := s1.producer) && s.indexBits > 0 && !s1.producer.Ready?
    ensures HasLeeway(s1) <==> HasLeeway(s)
    ensures CanReuse(s1) <==> CanReuse(s)
    ensures forall s', item :: Enqueued(s1, s', item) ==> Enqueued(s, s', item)
    ensures forall s' :: Refused(s1, s') ==> Refused(s, s')
  {
  }

  lemma EnqueueEnds<Item(!new)>(s: State<Item>, item: Item, x: Item, m: bool) returns (s': State<Item>)
    requires Reachable(s) && s.producer.Ready?
    ensures Sized(s) && Reachable(s') && ProducesTo(Produced(s, item, m), s', x, m)
    ensures Ends(s, s', item, HasRoom(s, m))
    ensures s.Tail() % s.blockSize != 0 || CanReuse(s) ==> |s'.ring| == |s.ring|
  {
    var s1 := EnqueueBegins(s, item, m);
    if s1.producer.Writing? {
      s' := EnqueueWrites(s, s1, item, x, m);
    } else if s1.producer.Checking? {
      s' := EnqueueChecks(s, s1, item, x, m);
    } else if CanReuse(s) {
      s' := EnqueueReuses(s, s1, item, x, m);
    } else {
      s' := EnqueueProbesInVain(s, s1, item, x, m);
    }
  }

  /** In every reachable state an enqueue that runs alone, wherever the consumers have stopped, ends. It
      appends exactly its argument if there is room in the tail block, if the block ahead has been read and
      flagged altogether, or if there is memory and leeway for another block, and otherwise changes nothing. */
  lemma EnqueueAloneIffRoom<Item(!new)>(run: seq<State<Item>>, item: Item, x: Item, m: bool)
    requires Run(run) && run[|run| - 1].producer.Ready?
    ensures var s := run[|run| - 1];
            && Sized(s)
            && exists s' ::
                 && ProducesTo(Produced(s, item, m), s', x, m)
                 && Ends(s, s', item, HasRoom(s, m))
  {
    assert Reachable(run[|run| - 1]);
    var s' := EnqueueEnds(run[|run| - 1], item, x, m);
  }

  // ----------------------------------------------------------- one dequeue

  lemma CoveredIsOwned<Item>(s: State<Item>, u: nat, x: nat)
    requires ConsumersOk(s) && u < |s.consumers| && Covers(s.consumers[u], x)
    ensures x < |s.counters.takers| && s.counters.takers[x] == u
  {
    assert ConsumerOk(s, u);
  }

  /** A consumer in no dequeue, or not past its claim, has read and flagged every index it ever claimed, and
      read what had been enqueued there. */
  lemma EndedDequeueTookItsClaim<Item(!new)>(run: seq<State<Item>>, t: nat, x: nat)
    requires Run(run) && t < |run[|run| - 1].consumers| && run[|run| - 1].consumers[t].Counting?
    requires x < run[|run| - 1].Head()
    requires x < |run[|run| - 1].counters.takers| && run[|run| - 1].counters.takers[x] == t
    ensures var s := run[|run| - 1]; x in s.done && x in s.got && x < |s.put| && s.got[x] == s.put[x]
  {
    RunKeepsInv(run);
    var s := run[|run| - 1];
    assert Accounted(s, x);
    if u: nat :| u < |s.consumers| && Covers(s.consumers[u], x) {
      CoveredIsOwned(s, u, x);
    }
  }

  /** At most so many operations has a dequeue with a claim still to do: three loads to find its first block,
      then for each block a load and the ends of two loops, and for each element a read and a flag. */
  function Left(c: Consumer): int {
    match c
    case Counting => 0
    case Locating(lo, end) => 5 * (end - lo) + 3
    case Indexed(lo, end, _) => 5 * (end - lo) + 2
    case Fronted(lo, end, _) => 5 * (end - lo) + 1
    case Slotted(lo, end, _) => 5 * (end - lo)
    case Reading(lo, i, hi, end, _, _) => (hi - i) + 1 + (hi - lo) + 1 + 5 * (end - hi)
    case Marking(lo, j, hi, end, _, _) => (hi - lo - j) + 1 + 5 * (end - hi)
  }

  lemma BlockLoopProgress<Item>(s: State<Item>, t: nat, max: nat)
    requires Sized(s) && t < |s.consumers| && s.consumers[t].HasBlock() && ConsumerOk(s, t)
    requires var c := s.consumers[t]; c.Reading? || c.lo + c.j < c.hi || c.hi >= c.end
    ensures 0 <= Left(ConsumerStep(s, t, max).consumers[t]) < Left(s.consumers[t])
  {
  }

  lemma BlockEndProgress<Item(!new)>(run: seq<State<Item>>, t: nat, max: nat)
    requires Run(run) && Sized(run[|run| - 1]) && t < |run[|run| - 1].consumers|
    requires var c := run[|run| - 1].consumers[t]; c.Marking? && c.lo + c.j >= c.hi && c.hi < c.end
    requires ConsumerOk(run[|run| - 1], t)
    ensures var s := run[|run| - 1]; 0 <= Left(ConsumerStep(s, t, max).consumers[t]) < Left(s.consumers[t])
  {
    WalkNeverMisses(run, t, max);
    var c := run[|run| - 1].consumers[t];
    assert ConsumerStep(run[|run| - 1], t, max).consumers[t].end == c.end;
  }

  lemma LookupProgress<Item(!new)>(run: seq<State<Item>>, t: nat, max: nat)
    requires Run(run) && Sized(run[|run| - 1]) && t < |run[|run| - 1].consumers|
    requires var c := run[|run| - 1].consumers[t]; !c.Counting? && !c.HasBlock()
    requires ConsumerOk(run[|run| - 1], t)
    ensures var s := run[|run| - 1]; 0 <= Left(ConsumerStep(s, t, max).consumers[t]) < Left(s.consumers[t])
  {
    LookupNeverMisses(run, t, max);
  }

  /** Each operation of a dequeue with a claim brings its end nearer. */
  lemma OwnStepIsProgress<Item(!new)>(run: seq<State<Item>>, t: nat, max: nat)
    requires Run(run) && t < |run[|run| - 1].consumers| && !run[|run| - 1].consumers[t].Counting?
    ensures var s := run[|run| - 1];
            && Sized(s)
            && 0 <= Left(ConsumerStep(s, t, max).consumers[t]) < Left(s.consumers[t])
  {
    RunKeepsInv(run);
    var s := run[|run| - 1];
    var c := s.consumers[t];
    assert ConsumerOk(s, t);
    if !c.HasBlock() {
      LookupProgress(run, t, max);
    } else if c.Reading? || c.lo + c.j < c.hi || c.hi >= c.end {
      BlockLoopProgress(s, t, max);
    } else {
      BlockEndProgress(run, t, max);
    }
  }

  lemma ConsumerLeavesOthers<Item>(s: State<Item>, u: nat, max: nat, t: nat)
    requires Sized(s) && u < |s.consumers| && t < |s.consumers| && t != u
    ensures var s' := ConsumerStep(s, u, max); |s'.consumers| == |s.consumers| && s'.consumers[t] == s.consumers[t]
  {
  }

  /** What the producer and other consumers do leaves a dequeue where it is. */
  lemma StepOfOthers<Item(!new)>(s: State<Item>, s': State<Item>, t: nat)
    requires ProducerMoves(s, s') || ConsumerMoves(s, s')
    requires t < |s.consumers| && !ItsOwn(s, s', t)
    ensures |s'.consumers| == |s.consumers| && s'.consumers[t] == s.consumers[t]
  {
    if ConsumerMoves(s, s') {
      var u: nat, max: nat :| u < |s.consumers| && Sized(s) && s' == ConsumerStep(s, u, max);
      if u == t {
        assert ItsOwn(s, s', t);
      } else {
        ConsumerLeavesOthers(s, u, max, t);
      }
    } else {
      ProducerLeavesConsumers(s, s');
    }
  }

  ghost predicate ItsOwn<Item>(s: State<Item>, s': State<Item>, t: nat) {
    exists max: nat :: Sized(s) && t < |s.consumers| && s' == ConsumerStep(s, t, max)
  }

  lemma ProducerLeavesConsumers<Item(!new)>(s: State<Item>, s': State<Item>)
    requires ProducerMoves(s, s')
    ensures s'.consumers == s.consumers
  {
    var item: Item, memory: bool, cells: seq<Item>, entries: seq<Entry> :|
      |cells| == s.blockSize && |entries| == 2 * s.size && Sized(s)
      && s' == ProducerStep(s, item, memory, cells, entries);
  }

  /** Consumer t has claimed indices that it has not finished with in run[i], ..., run[j]. */
  ghost predicate Dequeues<Item>(run: seq<State<Item>>, t: nat, i: nat, j: nat) {
    i <= j < |run| && forall k | i <= k <= j :: t < |run[k].consumers| && !run[k].consumers[t].Counting?
  }

  /** How many operations consumer t does between run[i] and run[j]. */
  ghost function OwnSteps<Item>(run: seq<State<Item>>, t: nat, i: nat, j: nat): nat
    requires Dequeues(run, t, i, j)
    decreases j - i
  {
    if i == j then 0
    else OwnSteps(run, t, i, j - 1) + if run[j].consumers[t] != run[j - 1].consumers[t] then 1 else 0
  }

  lemma OwnStepLowersLeft<Item(!new)>(run: seq<State<Item>>, s': State<Item>, t: nat)
    requires Run(run) && t < |run[|run| - 1].consumers| && !run[|run| - 1].consumers[t].Counting?
    requires ItsOwn(run[|run| - 1], s', t)
    ensures |s'.consumers| == |run[|run| - 1].consumers|
    ensures 0 <= Left(s'.consumers[t]) < Left(run[|run| - 1].consumers[t])
  {
    var s := run[|run| - 1];
    var max: nat :| Sized(s) && t < |s.consumers| && s' == ConsumerStep(s, t, max);
    OwnStepIsProgress(run, t, max);
    SameConsumers(s, t, max);
  }

  lemma SameConsumers<Item>(s: State<Item>, t: nat, max: nat)
    requires Sized(s) && t < |s.consumers|
    ensures |ConsumerStep(s, t, max).consumers| == |s.consumers|
  {
  }

  /** The step that follows a run. */
  lemma NextLowersLeft<Item(!new)>(run: seq<State<Item>>, s: State<Item>, s': State<Item>, t: nat)
    requires Run(run) && s == run[|run| - 1] && (ProducerMoves(s, s') || ConsumerMoves(s, s'))
    requires t < |s.consumers| && !s.consumers[t].Counting?
    ensures |s'.consumers| == |s.consumers|
    ensures s'.consumers[t] == s.consumers[t] || 0 <= Left(s'.consumers[t]) < Left(s.consumers[t])
  {
    if ItsOwn(s, s', t) {
      OwnStepLowersLeft(run, s', t);
    } else {
      StepOfOthers(s, s', t);
    }
  }

  lemma MoveAt<Item(!new)>(run: seq<State<Item>>, i: nat)
    requires Run(run) && i + 1 < |run|
    ensures ProducerMoves(run[i], run[i + 1]) || ConsumerMoves(run[i], run[i + 1])
  {
    assert NextAt(run, i);
  }

  lemma StepLowersLeft<Item(!new)>(run: seq<State<Item>>, t: nat, i: nat)
    requires Run(run) && i + 1 < |run|
    requires t < |run[i].consumers| && !run[i].consumers[t].Counting?
    ensures |run[i + 1].consumers| == |run[i].consumers|
    ensures run[i + 1].consumers[t] == run[i].consumers[t]
            || 0 <= Left(run[i + 1].consumers[t]) < Left(run[i].consumers[t])
  {
    MoveAt(run, i);
    PrefixRuns(run, i + 1);
    NextLowersLeft(run[..i + 1], run[i], run[i + 1], t);
  }

  lemma {:induction false} OwnStepsAreBounded<Item(!new)>(run: seq<State<Item>>, t: nat, i: nat, j: nat)
    requires Run(run) && Dequeues(run, t, i, j)
    ensures OwnSteps(run, t, i, j) + Left(run[j].consumers[t]) <= Left(run[i].consumers[t])
    decreases j - i
  {
    if i < j {
      OwnStepsAreBounded(run, t, i, j - 1);
      StepLowersLeft(run, t, j - 1);
    }
  }

  /** Whatever the producer and other consumers do meanwhile, a dequeue that has claimed n indices is over
      with at most 5 * n + 3 more operations of its own. */
  lemma DequeueIsWaitFree<Item(!new)>(run: seq<State<Item>>, t: nat, i: nat, j: nat, lo: nat, n: nat)
    requires Run(run) && Dequeues(run, t, i, j) && run[i].consumers[t] == Locating(lo, lo + n)
    ensures OwnSteps(run, t, i, j) < 5 * n + 3
  {
    OwnStepsAreBounded(run, t, i, j);
    PrefixRuns(run, j + 1);
    OwnStepIsProgress(run[..j + 1], t, 1);
  }
}
