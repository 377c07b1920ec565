/**
 BlockingConcurrentQueue: an unbounded concurrent bag of elements whose inner try_dequeue may fail
 although the bag is not empty, guarded by a LightweightSemaphore that counts elements.

 Every thread alternates between steps of the semaphore (module Semaphore) and steps of the bag:
 an enqueue adds to the bag and then signals, a dequeue acquires permits and then retries on the
 bag until it has redeemed all of them.
 */
module BlockingQueue {
  import opened Arith
  import opened Sums
  import S = Semaphore

  datatype Client =
    | Free
    | Added(n: nat)           // put n elements into the bag, has not signalled yet
    | InSemaphore             // inside a call of the semaphore
    | Redeeming(left: nat)    // in the retry loop, permits not redeemed yet

  datatype State = State(sema: S.State, client: seq<Client>, elements: nat)

  datatype Call =
    | Enqueue(n: nat)          // enqueue, enqueue_bulk and their try_ and token forms
    | TryDequeue(max: nat)     // try_dequeue, try_dequeue_bulk
    | WaitDequeue(max: nat)    // wait_dequeue and its bulk and timed forms

  predicate Sized(s: State) {
    |s.client| == |s.sema.pc| && S.Sized(s.sema)
  }

  function Begin(s: State, t: nat, call: S.Call): State
    requires Sized(s) && t < |s.client|
  {
    s.(sema := S.Start(s.sema, t, call), client := s.client[t := InSemaphore])
  }

  /** The next operation of thread t. `call` and `lucky` are as in Semaphore.Step; `found` is how many
      elements one inner dequeue attempt comes back with, anything from none to all it asked for. */
  function Step(s: State, t: nat, call: Call, lucky: bool, found: nat): State
    requires Sized(s) && t < |s.client|
  {
    match s.client[t]
    case Free => (
      match call
      case Enqueue(n) => s.(elements := s.elements + n, client := s.client[t := Added(n)])
      case TryDequeue(max) => Begin(s, t, S.TryWaitMany(max))
      case WaitDequeue(max) => Begin(s, t, S.WaitMany(max)))
    case Added(n) => Begin(s, t, S.Signal(n))
    case InSemaphore =>
      if s.sema.pc[t].Idle? then
        s.(client := s.client[t := Free])
      else if s.sema.pc[t].Done? then
        s.(client := s.client[t := Redeeming(s.sema.pc[t].got)], sema := s.sema.(pc := s.sema.pc[t := S.Idle]))
      else
        s.(sema := S.Step(s.sema, t, S.Signal(0), lucky))
    case Redeeming(left) =>
      if left == 0 then
        s.(client := s.client[t := Free])
      else if found <= left && found <= s.elements then
        s.(elements := s.elements - found, client := s.client[t := Redeeming(left - found)])
      else
        s
  }

  predicate Init(s: State) {
    && Sized(s)
    && S.Init(s.sema, 0)
    && s.elements == 0
    && forall t | 0 <= t < |s.client| :: s.client[t] == Free
  }

  ghost predicate Next(s: State, s': State) {
    Sized(s) && exists t: nat, call: Call, lucky: bool, found: nat ::
      t < |s.client| && s' == Step(s, t, call, lucky, found)
  }

  ghost predicate NextAt(run: seq<State>, i: nat) {
    i + 1 < |run| ==> Next(run[i], run[i + 1])
  }

  ghost predicate Run(run: seq<State>) {
    && |run| > 0
    && Init(run[0])
    && forall i: nat :: NextAt(run, i)
  }

  // ------------------------------------------------------------ invariant

  /** Elements in the bag that the semaphore has not been told about. */
  function Untold(): Client -> nat { (c: Client) => if c.Added? then c.n else 0 }
  function Unsignalled(): S.Pc -> nat { (pc: S.Pc) => if pc.SignalAdd? then pc.n else 0 }

  /** Permits that have been acquired but not redeemed. */
  function Unredeemed(): Client -> nat { (c: Client) => if c.Redeeming? then c.left else 0 }
  function Holding(): S.Pc -> nat { (pc: S.Pc) => Held(pc) }

  function Held(pc: S.Pc): nat {
    if pc.Done? then pc.got
    else if (pc.TryLoad? || pc.TryCas?) && pc.goal.More? then 1
    else 0
  }

  function Announcing(s: State): nat { Sum(Untold(), s.client) + Sum(Unsignalled(), s.sema.pc) }
  function Outstanding(s: State): nat { Sum(Unredeemed(), s.client) + Sum(Holding(), s.sema.pc) }

  predicate Inv(s: State) {
    && Sized(s)
    && S.Inv(s.sema, 0)
    && s.elements + s.sema.acquired == Announcing(s) + s.sema.signalled + Outstanding(s)
    && forall t | 0 <= t < |s.client| :: s.client[t] != InSemaphore ==> s.sema.pc[t] == S.Idle
  }

  lemma StepTotals(s: State, t: nat, call: Call, lucky: bool, found: nat)
    requires Sized(s) && t < |s.client|
    ensures var s' := Step(s, t, call, lucky, found);
            && Sized(s') && t < |s'.client| == |s.client|
            && Announcing(s') == Announcing(s) - Untold()(s.client[t]) + Untold()(s'.client[t])
                               - Unsignalled()(s.sema.pc[t]) + Unsignalled()(s'.sema.pc[t])
            && Outstanding(s') == Outstanding(s) - Unredeemed()(s.client[t]) + Unredeemed()(s'.client[t])
                                - Holding()(s.sema.pc[t]) + Holding()(s'.sema.pc[t])
            && (forall u | 0 <= u < |s.client| && u != t ::
                  s'.client[u] == s.client[u] && s'.sema.pc[u] == s.sema.pc[u])
  {
    var s' := Step(s, t, call, lucky, found);
    assert s'.client == s.client[t := s'.client[t]];
    assert s'.sema.pc == s.sema.pc[t := s'.sema.pc[t]];
    SumUpdate(Untold(), s.client, t, s'.client[t]);
    SumUpdate(Unredeemed(), s.client, t, s'.client[t]);
    SumUpdate(Unsignalled(), s.sema.pc, t, s'.sema.pc[t]);
    SumUpdate(Holding(), s.sema.pc, t, s'.sema.pc[t]);
  }

  /** Inside the semaphore, what a thread acquires it holds, and what it signals it had announced. */
  lemma SemaphoreStepBalances(s: S.State, t: nat, lucky: bool)
    requires S.Sized(s) && t < |s.pc| && !s.pc[t].Idle? && !s.pc[t].Done?
    ensures var s' := S.Step(s, t, S.Signal(0), lucky);
            && Held(s'.pc[t]) - Held(s.pc[t]) == s'.acquired - s.acquired
            && Unsignalled()(s.pc[t]) - Unsignalled()(s'.pc[t]) == s'.signalled - s.signalled
  {
  }

  lemma BagStepKeepsWaiters(s: State, t: nat, call: Call, lucky: bool, found: nat)
    requires Inv(s) && t < |s.client|
    requires s.client[t] != InSemaphore || s.sema.pc[t].Idle? || s.sema.pc[t].Done?
    ensures var s' := Step(s, t, call, lucky, found);
            S.Waiters(s'.sema) == S.Waiters(s.sema) && S.Owed(s'.sema) == S.Owed(s.sema)
  {
    var s' := Step(s, t, call, lucky, found);
    assert s'.sema.pc == s.sema.pc[t := s'.sema.pc[t]];
    SumUpdate(S.Waits(), s.sema.pc, t, s'.sema.pc[t]);
    SumUpdate(S.Owes(), s.sema.pc, t, s'.sema.pc[t]);
  }

  /** The client's moves outside the semaphore calls. */
  lemma BagStepBalances(s: State, t: nat, call: Call, lucky: bool, found: nat)
    requires Inv(s) && t < |s.client|
    requires s.client[t] != InSemaphore || s.sema.pc[t].Idle? || s.sema.pc[t].Done?
    ensures var s' := Step(s, t, call, lucky, found);
            && s'.sema == s.sema.(pc := s'.sema.pc, calls := s'.sema.calls, patient := s'.sema.patient)
            && S.Waiters(s'.sema) == S.Waiters(s.sema) && S.Owed(s'.sema) == S.Owed(s.sema)
            && s'.elements - s.elements == Untold()(s'.client[t]) + Unsignalled()(s'.sema.pc[t])
                                         + Unredeemed()(s'.client[t]) + Held(s'.sema.pc[t])
                                         - Untold()(s.client[t]) - Unsignalled()(s.sema.pc[t])
                                         - Unredeemed()(s.client[t]) - Held(s.sema.pc[t])
  {
    BagStepKeepsWaiters(s, t, call, lucky, found);
  }

  lemma StepKeepsInv(s: State, t: nat, call: Call, lucky: bool, found: nat)
    requires Inv(s) && t < |s.client|
    ensures Inv(Step(s, t, call, lucky, found))
  {
    StepTotals(s, t, call, lucky, found);
    if s.client[t] == InSemaphore && !s.sema.pc[t].Idle? && !s.sema.pc[t].Done? {
      SemaphoreStepBalances(s.sema, t, lucky);
      S.StepKeepsInv(s.sema, t, S.Signal(0), lucky, 0);
    } else {
      BagStepBalances(s, t, call, lucky, found);
    }
  }

  lemma PrefixRuns(run: seq<State>, n: nat)
    requires Run(run) && 0 < n <= |run|
    ensures Run(run[..n])
  {
    forall i: nat ensures NextAt(run[..n], i) {
      assert NextAt(run, i);
    }
  }

  lemma {:induction false} RunKeepsInv(run: seq<State>)
    requires Run(run)
    ensures Inv(run[|run| - 1])
  {
    if |run| == 1 {
      var s := run[0];
      SumOfZeros(S.Waits(), s.sema.pc);
      SumOfZeros(S.Owes(), s.sema.pc);
      SumOfZeros(Untold(), s.client);
      SumOfZeros(Unredeemed(), s.client);
      SumOfZeros(Unsignalled(), s.sema.pc);
      SumOfZeros(Holding(), s.sema.pc);
    } else {
      PrefixRuns(run, |run| - 1);
      RunKeepsInv(run[..|run| - 1]);
      var s, s' := run[|run| - 2], run[|run| - 1];
      assert NextAt(run, |run| - 2);
      var t: nat, call: Call, lucky: bool, found: nat :| t < |s.client| && s' == Step(s, t, call, lucky, found);
      StepKeepsInv(s, t, call, lucky, found);
    }
  }

  // ------------------------------------------------------------- theorems

  /** Every element is accounted for: it is being announced, or its permit is available, or its
      permit is held by a dequeue. */
  lemma ElementsAreAccountedFor(run: seq<State>)
    requires Run(run)
    ensures var s := run[|run| - 1];
            Sized(s) && s.elements == Announcing(s) + S.Available(s.sema) + Outstanding(s)
  {
    RunKeepsInv(run);
  }

  /** All retry loops together never want more than there is: each of them, whatever the others
      take, has the elements it still has to redeem waiting in the bag, so an attempt of the inner
      queue that does not fail spuriously brings it closer to its end. */
  lemma PermitGuaranteesElement(run: seq<State>, t: nat, call: Call, lucky: bool)
    requires Run(run) && t < |run[|run| - 1].client|
    ensures var s := run[|run| - 1];
            Sized(s) && Outstanding(s) <= s.elements
            && (s.client[t].Redeeming? ==>
                  s.client[t].left <= s.elements
                  && forall found: nat | 0 < found <= s.client[t].left ::
                       Step(s, t, call, lucky, found).client[t] == Redeeming(s.client[t].left - found))
  {
    RunKeepsInv(run);
    var s := run[|run| - 1];
    SumBoundsTerm(Unredeemed(), s.client, t);
  }

  predicate Quiet(s: State) {
    forall t | 0 <= t < |s.client| :: s.client[t] == Free
  }

  /** With no call in progress the semaphore counts exactly the elements in the bag. */
  lemma QuietCountIsSize(run: seq<State>)
    requires Run(run) && Quiet(run[|run| - 1])
    ensures var s := run[|run| - 1]; s.sema.count == s.elements && s.sema.tokens == 0
  {
    RunKeepsInv(run);
    var s := run[|run| - 1];
    SumOfZeros(S.Waits(), s.sema.pc);
    SumOfZeros(S.Owes(), s.sema.pc);
    SumOfZeros(Untold(), s.client);
    SumOfZeros(Unredeemed(), s.client);
    SumOfZeros(Unsignalled(), s.sema.pc);
    SumOfZeros(Holding(), s.sema.pc);
  }

  // ------------------------------------------------------------ whole calls

  /** k operations of thread t with everybody else standing still: no compare-exchange fails spuriously,
      and an inner dequeue attempt comes back with `found` elements. */
  function Alone(s: State, t: nat, call: Call, found: nat, k: nat): State
    requires Sized(s) && t < |s.client|
    decreases k
  {
    if k == 0 then s else
    StepLeavesSize(s, t, call, true, found);
    Alone(Step(s, t, call, true, found), t, call, found, k - 1)
  }

  lemma StepLeavesSize(s: State, t: nat, call: Call, lucky: bool, found: nat)
    requires Sized(s) && t < |s.client|
    ensures Sized(Step(s, t, call, lucky, found)) && |Step(s, t, call, lucky, found).client| == |s.client|
  {
  }

  lemma OneAlone(s: State, t: nat, call: Call, found: nat, k: nat, s': State)
    requires Sized(s) && t < |s.client| && s' == Step(s, t, call, true, found) && k > 0
    ensures Sized(s') && |s'.client| == |s.client| && Alone(s, t, call, found, k) == Alone(s', t, call, found, k - 1)
  {
  }

  /** The calls that take elements out. */
  predicate Dequeues(call: Call) {
    call.TryDequeue? || call.WaitDequeue?
  }

  /** How many operations it takes to acquire permits from a count, and to redeem them. */
  function AcquireLength(count: int): nat { if count > 0 then 4 else 3 }
  function RedeemLength(got: nat): nat { if got > 0 then 2 else 1 }

  /** The semaphore has given `got` permits to thread t, which redeems them. */
  predicate Acquired(s: State, r: State, t: nat, got: nat) {
    && t < |s.client| == |s.sema.pc|
    && r.client == s.client[t := Redeeming(got)] && r.elements == s.elements
    && r.sema.pc == s.sema.pc && r.sema.count == s.sema.count - got && r.sema.tokens == s.sema.tokens
  }

  lemma AcquireAlone(s: State, t: nat, call: Call, found: nat, k: nat, more: nat)
    requires Sized(s) && t < |s.client| && s.client[t] == Free && s.sema.pc[t].Idle? && Dequeues(call)
    requires s.sema.count > 0 || call.TryDequeue?
    requires k == AcquireLength(s.sema.count) + more
    ensures var got := Min(call.max, S.Positive(s.sema.count));
            exists r ::
              && Sized(r) && Acquired(s, r, t, got)
              && Alone(s, t, call, found, k) == Alone(r, t, call, found, more)
  {
    var got := Min(call.max, S.Positive(s.sema.count));
    var s1 := Step(s, t, call, true, found);
    var s2 := Step(s1, t, call, true, found);
    OneAlone(s, t, call, found, k, s1);
    OneAlone(s1, t, call, found, k - 1, s2);
    var s3 := s2;
    if s.sema.count > 0 {
      s3 := Step(s2, t, call, true, found);
      OneAlone(s2, t, call, found, k - 2, s3);
    }
    assert s3.sema.pc[t] == S.Done(got) && s3.client[t] == InSemaphore && s3.sema.pc[t := S.Idle] == s.sema.pc;
    var r := Step(s3, t, call, true, found);
    OneAlone(s3, t, call, found, more + 1, r);
    assert r.client == s.client[t := Redeeming(got)];
  }

  lemma RedeemAlone(s: State, t: nat, call: Call, got: nat, k: nat)
    requires Sized(s) && t < |s.client| && s.client[t] == Redeeming(got) && got <= s.elements && k == RedeemLength(got)
    ensures Alone(s, t, call, got, k) == s.(client := s.client[t := Free], elements := s.elements - got)
  {
    var s1 := Step(s, t, call, true, got);
    OneAlone(s, t, call, got, k, s1);
    if got > 0 {
      var s2 := Step(s1, t, call, true, got);
      OneAlone(s1, t, call, got, k - 1, s2);
      assert s2.client == s.client[t := Free];
    }
  }

  lemma QuietSemaphoreIsIdle(s: State, t: nat)
    requires Inv(s) && Quiet(s) && t < |s.client|
    ensures t < |s.sema.pc| && s.sema.pc[t].Idle?
  {
    assert s.client[t] == Free;
  }

  /** A lone try_dequeue_bulk(max), or wait_dequeue_bulk(max) of a queue that is not empty, acquires and then
      redeems exactly min(max, size) elements, if the inner queue does not fail spuriously. */
  lemma LoneDequeue(run: seq<State>, t: nat, call: Call, got: nat, k: nat)
    requires Run(run) && Quiet(run[|run| - 1]) && t < |run[|run| - 1].client| && Dequeues(call)
    requires var s := run[|run| - 1];
             && (call.WaitDequeue? ==> s.elements > 0)
             && got == Min(call.max, s.elements) && k == AcquireLength(s.elements) + RedeemLength(got)
    ensures var s := run[|run| - 1];
            && Sized(s)
            && var r := Alone(s, t, call, got, k);
               && Quiet(r) && r.elements == s.elements - got && r.sema.count == r.elements && r.sema.tokens == 0
               && r.sema.pc == s.sema.pc
  {
    RunKeepsInv(run);
    QuietCountIsSize(run);
    var s := run[|run| - 1];
    QuietSemaphoreIsIdle(s, t);
    AcquireAlone(s, t, call, got, k, RedeemLength(got));
    var m :| Sized(m) && Acquired(s, m, t, got)
             && Alone(s, t, call, got, k) == Alone(m, t, call, got, RedeemLength(got));
    RedeemAlone(m, t, call, got, RedeemLength(got));
  }

  lemma EnqueueAlone(s: State, t: nat, n: nat, found: nat, k: nat)
    requires Sized(s) && t < |s.client| && s.client[t] == Free && s.sema.pc[t].Idle? && s.sema.count >= 0 && k == 4
    ensures var r := Alone(s, t, Enqueue(n), found, k);
            && r.client == s.client && r.elements == s.elements + n && r.sema.count == s.sema.count + n
            && r.sema.tokens == s.sema.tokens && r.sema.pc == s.sema.pc
  {
    var c := Enqueue(n);
    var s1 := Step(s, t, c, true, found);
    var s2 := Step(s1, t, c, true, found);
    var s3 := Step(s2, t, c, true, found);
    var s4 := Step(s3, t, c, true, found);
    OneAlone(s, t, c, found, k, s1);
    OneAlone(s1, t, c, found, k - 1, s2);
    OneAlone(s2, t, c, found, k - 2, s3);
    OneAlone(s3, t, c, found, k - 3, s4);
    assert s4.client == s.client && s3.sema.pc == s.sema.pc;
  }

  /** A lone enqueue_bulk of n elements puts them into the bag, and the semaphore counts them. */
  lemma LoneEnqueue(run: seq<State>, t: nat, n: nat, found: nat, k: nat)
    requires Run(run) && Quiet(run[|run| - 1]) && t < |run[|run| - 1].client| && k == 4
    ensures var s := run[|run| - 1];
            && Sized(s)
            && var r := Alone(s, t, Enqueue(n), found, k);
               && Quiet(r) && r.elements == s.elements + n && r.sema.count == r.elements && r.sema.tokens == 0
               && r.sema.pc == s.sema.pc
  {
    RunKeepsInv(run);
    QuietCountIsSize(run);
    QuietSemaphoreIsIdle(run[|run| - 1], t);
    EnqueueAlone(run[|run| - 1], t, n, found, k);
  }
}
