/**
 LightweightSemaphore as a state machine: an atomic count in front of an operating system
 semaphore. Any number of threads call tryWait, wait, tryWaitMany, waitMany and signal; every
 atomic operation on m_count and every post of or wait on m_sema is one step.

 The single-permit calls are the many-permit calls with max = 1. Waits may give up at any moment
 (timeout, or an error of the operating system), and spinning may stop at any moment.
 */
module Semaphore {
  import opened Arith
  import opened Sums

  /** What a finished try is for. */
  datatype Then =
    | Return      // tryWait, tryWaitMany: the caller gets what there is
    | OrWait      // first part of wait, waitMany
    | More        // last part of waitMany, which has one permit already

  datatype Pc =
    | Idle
    | TryLoad(max: nat, goal: Then)
    | TryCas(max: nat, seen: int, goal: Then)
    | SpinLoad(max: nat)
    | SpinCas(max: nat, seen: int)
    | Register(max: nat)               // about to decrement m_count unconditionally
    | Blocked(max: nat)                // waits on m_sema
    | UndoLoad(max: nat)               // gave up waiting: load m_count
    | UndoTry(max: nat, seen: int)
    | Done(got: nat)                   // the call returned this many permits
    | SignalAdd(n: nat)
    | Post(n: nat)                     // still owes m_sema n posts
  {
    predicate Waiting() {
      Blocked? || UndoLoad? || UndoTry?
    }
  }

  datatype Call = TryWaitMany(max: nat) | WaitMany(max: nat) | Signal(n: nat)

  /** History, from which no step decides: `signalled` and `acquired` count permits over the whole run,
      `calls[t]` is thread t's latest call, and `patient[t]` says that it has not given up a wait. */
  datatype State = State(
    count: int, tokens: nat, pc: seq<Pc>,
    signalled: nat, acquired: nat, calls: seq<Call>, patient: seq<bool>)

  predicate Sized(s: State) {
    |s.pc| == |s.calls| == |s.patient|
  }

  // ---------------------------------------------------------------- steps

  /** What is left after taking at most max of a positive count. */
  function Rest(seen: int, max: nat): int {
    if seen > max then seen - max else 0
  }

  function Tried(max: nat, goal: Then, got: nat): Pc {
    match goal
    case Return => Done(got)
    case OrWait => if got == 0 && max > 0 then SpinLoad(max) else Done(got)
    case More => Done(1 + got)
  }

  function GotOne(max: nat): Pc {
    if max > 1 then TryLoad(max - 1, More) else Done(1)
  }

  function Retry(max: nat, goal: Then, seen: int): Pc {
    if seen > 0 then TryCas(max, seen, goal) else Tried(max, goal, 0)
  }

  function Started(call: Call): Pc {
    match call
    case TryWaitMany(max) => TryLoad(max, Return)
    case WaitMany(max) => TryLoad(max, OrWait)
    case Signal(n) => SignalAdd(n)
  }

  function Start(s: State, t: nat, call: Call): State
    requires Sized(s) && t < |s.pc|
  {
    s.(pc := s.pc[t := Started(call)], calls := s.calls[t := call], patient := s.patient[t := true])
  }

  function Posting(n: int): Pc {
    if n > 0 then Post(n) else Idle
  }

  /** The next operation of thread t. `lucky` resolves what the program does not control: a weak
      compare-exchange may fail, spinning may stop, a wait may give up. */
  function Step(s: State, t: nat, call: Call, lucky: bool): State
    requires Sized(s) && t < |s.pc|
  {
    match s.pc[t]
    case Idle => Start(s, t, call)
    case TryLoad(max, goal) => s.(pc := s.pc[t := Retry(max, goal, s.count)])
    case TryCas(max, seen, goal) =>
      if lucky && s.count == seen && seen > 0 then
        var got := seen - Rest(seen, max);
        s.(count := Rest(seen, max), acquired := s.acquired + got, pc := s.pc[t := Tried(max, goal, got)])
      else
        s.(pc := s.pc[t := Retry(max, goal, s.count)])
    case SpinLoad(max) =>
      var pc := if !lucky then Register(max) else if s.count > 0 then SpinCas(max, s.count) else SpinLoad(max);
      s.(pc := s.pc[t := pc])
    case SpinCas(max, seen) =>
      if s.count == seen && seen > 0 then
        var got := seen - Rest(seen, max);
        s.(count := Rest(seen, max), acquired := s.acquired + got, pc := s.pc[t := Done(got)])
      else
        s.(pc := s.pc[t := SpinLoad(max)])
    case Register(max) =>
      if s.count > 0 then
        s.(count := s.count - 1, acquired := s.acquired + 1, pc := s.pc[t := GotOne(max)])
      else
        s.(count := s.count - 1, pc := s.pc[t := Blocked(max)])
    case Blocked(max) =>
      if lucky && s.tokens > 0 then
        s.(tokens := s.tokens - 1, acquired := s.acquired + 1, pc := s.pc[t := GotOne(max)])
      else
        s.(pc := s.pc[t := UndoLoad(max)], patient := s.patient[t := false])
    case UndoLoad(max) => s.(pc := s.pc[t := UndoTry(max, s.count)])
    case UndoTry(max, seen) =>
      if seen >= 0 && s.tokens > 0 then
        s.(tokens := s.tokens - 1, acquired := s.acquired + 1, pc := s.pc[t := GotOne(max)])
      else if seen < 0 && s.count == seen then
        s.(count := seen + 1, pc := s.pc[t := Done(0)])
      else
        s.(pc := s.pc[t := UndoLoad(max)])
    case Done(_) => s.(pc := s.pc[t := Idle])
    case SignalAdd(n) =>
      s.(count := s.count + n, signalled := s.signalled + n, pc := s.pc[t := Posting(Min(-s.count, n))])
    case Post(n) => s.(tokens := s.tokens + 1, pc := s.pc[t := Posting(n - 1)])
  }

  predicate Init(s: State, initial: nat) {
    && Sized(s)
    && s.count == initial && s.tokens == s.signalled == s.acquired == 0
    && forall t | 0 <= t < |s.pc| :: s.pc[t] == Idle
  }

  ghost predicate Next(s: State, s': State) {
    Sized(s) && exists t: nat, call: Call, lucky: bool :: t < |s.pc| && s' == Step(s, t, call, lucky)
  }

  ghost predicate NextAt(run: seq<State>, i: nat) {
    i + 1 < |run| ==> Next(run[i], run[i + 1])
  }

  ghost predicate Run(run: seq<State>, initial: nat) {
    && |run| > 0
    && Init(run[0], initial)
    && forall i: nat :: NextAt(run, i)
  }

  // ------------------------------------------------------------ invariant

  function Waits(): Pc -> nat { (pc: Pc) => if pc.Waiting() then 1 else 0 }
  function Owes(): Pc -> nat { (pc: Pc) => if pc.Post? then pc.n else 0 }

  function Waiters(s: State): nat { Sum(Waits(), s.pc) }
  function Owed(s: State): nat { Sum(Owes(), s.pc) }
  function Available(s: State): nat { (if s.count > 0 then s.count else 0) + s.tokens + Owed(s) }

  predicate Inv(s: State, initial: nat) {
    && Sized(s)
    && (if s.count < 0 then -s.count else 0) == Waiters(s) - s.tokens - Owed(s)
    && s.acquired + Available(s) == initial + s.signalled
    && forall t | 0 <= t < |s.pc| && s.pc[t].Post? :: s.pc[t].n > 0
  }

  lemma StepTotals(s: State, t: nat, call: Call, lucky: bool)
    requires Sized(s) && t < |s.pc|
    ensures var s' := Step(s, t, call, lucky);
            && Sized(s') && t < |s'.pc|
            && Waiters(s') == Waiters(s) - Waits()(s.pc[t]) + Waits()(s'.pc[t])
            && Owed(s') == Owed(s) - Owes()(s.pc[t]) + Owes()(s'.pc[t])
  {
    var s' := Step(s, t, call, lucky);
    assert s'.pc == s.pc[t := s'.pc[t]];
    SumUpdate(Waits(), s.pc, t, s'.pc[t]);
    SumUpdate(Owes(), s.pc, t, s'.pc[t]);
  }

  predicate Balanced(s: State, waiters: int, owed: int, initial: nat) {
    && (if s.count < 0 then -s.count else 0) == waiters - s.tokens - owed
    && s.acquired + (if s.count > 0 then s.count else 0) + s.tokens + owed == initial + s.signalled
  }

  lemma TakingBalances(s: State, t: nat, call: Call, lucky: bool, initial: nat, w: int, o: int)
    requires Sized(s) && Balanced(s, w, o, initial) && t < |s.pc|
    requires var pc := s.pc[t];
             pc.Idle? || pc.Done? || pc.TryLoad? || pc.TryCas? || pc.SpinLoad? || pc.SpinCas?
    ensures var s' := Step(s, t, call, lucky); !s'.pc[t].Waiting() && !s'.pc[t].Post? && Balanced(s', w, o, initial)
  {
  }

  lemma WaitingBalances(s: State, t: nat, call: Call, lucky: bool, initial: nat, w: int, o: int)
    requires Sized(s) && Balanced(s, w, o, initial) && t < |s.pc| && (s.pc[t].Waiting() || s.pc[t].Register?)
    ensures var s' := Step(s, t, call, lucky);
            !s'.pc[t].Post? && Balanced(s', w - Waits()(s.pc[t]) + Waits()(s'.pc[t]), o, initial)
  {
  }

  lemma SignallingBalances(s: State, t: nat, call: Call, lucky: bool, initial: nat, w: int, o: int)
    requires Sized(s) && Balanced(s, w, o, initial) && t < |s.pc|
    requires s.pc[t].SignalAdd? || (s.pc[t].Post? && s.pc[t].n > 0)
    ensures var s' := Step(s, t, call, lucky);
            !s'.pc[t].Waiting() && Balanced(s', w, o - Owes()(s.pc[t]) + Owes()(s'.pc[t]), initial)
  {
  }

  lemma StepKeepsInv(s: State, t: nat, call: Call, lucky: bool, initial: nat)
    requires Inv(s, initial) && t < |s.pc|
    ensures Inv(Step(s, t, call, lucky), initial)
  {
    StepTotals(s, t, call, lucky);
    if s.pc[t].Waiting() || s.pc[t].Register? {
      WaitingBalances(s, t, call, lucky, initial, Waiters(s), Owed(s));
    } else if s.pc[t].SignalAdd? || s.pc[t].Post? {
      SignallingBalances(s, t, call, lucky, initial, Waiters(s), Owed(s));
    } else {
      TakingBalances(s, t, call, lucky, initial, Waiters(s), Owed(s));
    }
  }

  lemma PrefixRuns(run: seq<State>, initial: nat, n: nat)
    requires Run(run, initial) && 0 < n <= |run|
    ensures Run(run[..n], initial)
  {
    forall i: nat ensures NextAt(run[..n], i) {
      assert NextAt(run, i);
    }
  }

  lemma {:induction false} RunKeepsInv(run: seq<State>, initial: nat)
    requires Run(run, initial)
    ensures Inv(run[|run| - 1], initial)
  {
    if |run| == 1 {
      SumOfZeros(Waits(), run[0].pc);
      SumOfZeros(Owes(), run[0].pc);
    } else {
      PrefixRuns(run, initial, |run| - 1);
      RunKeepsInv(run[..|run| - 1], initial);
      var s, s' := run[|run| - 2], run[|run| - 1];
      assert NextAt(run, |run| - 2);
      var t: nat, call: Call, lucky: bool :| t < |s.pc| && s' == Step(s, t, call, lucky);
      StepKeepsInv(s, t, call, lucky, initial);
    }
  }

  // ------------------------------------------------------------- theorems

  /** A negative count says how many registered waiters have no token coming to them. */
  lemma NegativeCountIsUnservedWaiters(run: seq<State>, initial: nat)
    requires Run(run, initial)
    ensures var s := run[|run| - 1];
            (if s.count < 0 then -s.count else 0) == Waiters(s) - (s.tokens + Owed(s))
  {
    RunKeepsInv(run, initial);
  }

  /** Permits are conserved through spinning, blocking, timeouts and undo: what was put in is what
      was acquired plus what can still be acquired. In particular nobody acquires too much. */
  lemma PermitsAreConserved(run: seq<State>, initial: nat)
    requires Run(run, initial)
    ensures var s := run[|run| - 1];
            s.acquired + Available(s) == initial + s.signalled && s.acquired <= initial + s.signalled
  {
    RunKeepsInv(run, initial);
  }

  /** No lost wakeup: when the count is not negative every registered waiter has a token, posted
      already or owed by a running signal; and with no signal running a waiter's next wait succeeds. */
  lemma NoLostWakeup(run: seq<State>, initial: nat, t: nat, call: Call)
    requires Run(run, initial) && run[|run| - 1].count >= 0
    ensures var s := run[|run| - 1]; s.tokens + Owed(s) == Waiters(s)
    ensures var s := run[|run| - 1];
            Sized(s) && (t < |s.pc| && s.pc[t].Blocked? && Owed(s) == 0 ==>
              s.tokens > 0 && Step(s, t, call, true).pc[t] == GotOne(s.pc[t].max))
  {
    RunKeepsInv(run, initial);
    var s := run[|run| - 1];
    if t < |s.pc| && s.pc[t].Blocked? {
      SumBoundsTerm(Waits(), s.pc, t);
    }
  }

  /** The most a call can still return, from where it is. */
  function Limit(pc: Pc): nat {
    match pc
    case TryLoad(max, goal) => if goal == More then max + 1 else max
    case TryCas(max, _, goal) => if goal == More then max + 1 else max
    case Done(got) => got
    case Idle => 0
    case SignalAdd(_) => 0
    case Post(_) => 0
    case pc => pc.max
  }

  /** A first try is for all that was asked for. */
  predicate GoalOk(call: Call, max: nat, goal: Then) {
    match goal
    case Return => call.TryWaitMany? && max == call.max
    case OrWait => call.WaitMany? && max == call.max
    case More => call.WaitMany? && max > 0
  }

  /** Where a call of thread t may be: within its limit, and for a wait that has not given up, on the
      way to a permit. */
  predicate CallOk(call: Call, patient: bool, pc: Pc) {
    && (pc.SpinLoad? || pc.SpinCas? || pc.Register? || pc.Waiting() ==> pc.max > 0)
    && (!pc.Idle? ==> (call.Signal? <==> pc.SignalAdd? || pc.Post?))
    && (!pc.Idle? && !call.Signal? ==> Limit(pc) <= call.max)
    && (pc.TryLoad? || pc.TryCas? ==> GoalOk(call, pc.max, pc.goal))
    && (!pc.Idle? && call.TryWaitMany? ==> pc.TryLoad? || pc.TryCas? || pc.Done?)
    && (!pc.Idle? && call.WaitMany? && call.max > 0 && patient ==>
          match pc
          case Done(got) => got > 0
          case TryLoad(_, goal) => goal != Return && (goal == OrWait ==> pc.max > 0)
          case TryCas(_, _, goal) => goal != Return && (goal == OrWait ==> pc.max > 0)
          case UndoLoad(_) => false
          case UndoTry(_, _) => false
          case _ => true)
  }

  lemma TryStepCallOk(s: State, t: nat, call: Call, lucky: bool)
    requires Sized(s) && t < |s.pc| && CallOk(s.calls[t], s.patient[t], s.pc[t])
    requires var pc := s.pc[t];
             pc.TryLoad? || pc.TryCas? || pc.Done? || pc.Idle? || pc.SignalAdd? || pc.Post?
    ensures var s' := Step(s, t, call, lucky);
            Sized(s') && |s'.pc| == |s.pc| && CallOk(s'.calls[t], s'.patient[t], s'.pc[t])
  {
  }

  lemma WaitStepCallOk(s: State, t: nat, call: Call, lucky: bool)
    requires Sized(s) && t < |s.pc| && CallOk(s.calls[t], s.patient[t], s.pc[t])
    requires s.pc[t].SpinLoad? || s.pc[t].SpinCas? || s.pc[t].Register? || s.pc[t].Waiting()
    ensures var s' := Step(s, t, call, lucky);
            Sized(s') && |s'.pc| == |s.pc| && CallOk(s'.calls[t], s'.patient[t], s'.pc[t])
  {
  }

  lemma StepLeavesOthers(s: State, u: nat, call: Call, lucky: bool, t: nat)
    requires Sized(s) && u < |s.pc| && t < |s.pc| && u != t
    ensures var s' := Step(s, u, call, lucky);
            && Sized(s') && |s'.pc| == |s.pc|
            && s'.calls[t] == s.calls[t] && s'.patient[t] == s.patient[t] && s'.pc[t] == s.pc[t]
  {
  }

  lemma StepCallOk(s: State, u: nat, call: Call, lucky: bool, t: nat)
    requires Sized(s) && u < |s.pc| && t < |s.pc| && CallOk(s.calls[t], s.patient[t], s.pc[t])
    ensures var s' := Step(s, u, call, lucky);
            Sized(s') && |s'.pc| == |s.pc| && CallOk(s'.calls[t], s'.patient[t], s'.pc[t])
  {
    if u != t {
      StepLeavesOthers(s, u, call, lucky, t);
    } else if s.pc[t].SpinLoad? || s.pc[t].SpinCas? || s.pc[t].Register? || s.pc[t].Waiting() {
      WaitStepCallOk(s, t, call, lucky);
    } else {
      TryStepCallOk(s, t, call, lucky);
    }
  }

  lemma {:induction false} RunCallOk(run: seq<State>, initial: nat, t: nat)
    requires Run(run, initial) && t < |run[|run| - 1].pc|
    ensures var s := run[|run| - 1]; Sized(s) && CallOk(s.calls[t], s.patient[t], s.pc[t])
  {
    if |run| > 1 {
      var s, s' := run[|run| - 2], run[|run| - 1];
      PrefixRuns(run, initial, |run| - 1);
      assert NextAt(run, |run| - 2);
      NextKeepsThreads(s, s');
      RunCallOk(run[..|run| - 1], initial, t);
      var u: nat, call: Call, lucky: bool :| u < |s.pc| && s' == Step(s, u, call, lucky);
      StepCallOk(s, u, call, lucky, t);
    }
  }

  lemma NextKeepsThreads(s: State, s': State)
    requires Next(s, s')
    ensures |s'.pc| == |s.pc|
  {
  }

  /** Whatever the interleaving, a finished tryWaitMany(max) or waitMany(max) returns at most max, and
      a waitMany that never gave up waiting returns at least one permit (of at least one asked for). */
  lemma CallsReturnAtMostMax(run: seq<State>, initial: nat, t: nat)
    requires Run(run, initial) && t < |run[|run| - 1].pc| && run[|run| - 1].pc[t].Done?
    ensures var s := run[|run| - 1];
            && Sized(s) && !s.calls[t].Signal?
            && s.pc[t].got <= s.calls[t].max
            && (s.calls[t].WaitMany? && s.patient[t] && s.calls[t].max > 0 ==> s.pc[t].got >= 1)
  {
    RunCallOk(run, initial, t);
  }

  /** The step with which a call ends without a permit. */
  lemma EmptyHandedStep(s: State, t: nat, call: Call, lucky: bool)
    requires Sized(s) && t < |s.pc| && CallOk(s.calls[t], s.patient[t], s.pc[t])
    requires !s.pc[t].Idle? && !s.calls[t].Signal? && s.calls[t].max > 0
    requires !s.pc[t].Done? && Step(s, t, call, lucky).pc[t] == Done(0)
    ensures s.count <= 0
  {
  }

  /** In every run a tryWaitMany or waitMany, of at least one permit, comes back without any only if there
      was none to be had: at the operation that decides it the count is not positive. */
  lemma EmptyHandedSawNoPermit(run: seq<State>, initial: nat, t: nat, i: nat)
    requires Run(run, initial) && i + 1 < |run| && t < |run[i].pc| && t < |run[i + 1].pc| && t < |run[i].calls|
    requires !run[i].pc[t].Idle? && !run[i].calls[t].Signal? && run[i].calls[t].max > 0
    requires !run[i].pc[t].Done? && run[i + 1].pc[t] == Done(0)
    ensures run[i].count <= 0
  {
    PrefixRuns(run, initial, i + 1);
    RunCallOk(run[..i + 1], initial, t);
    assert NextAt(run, i);
    var u: nat, call: Call, lucky: bool :| u < |run[i].pc| && run[i + 1] == Step(run[i], u, call, lucky);
    if u == t {
      EmptyHandedStep(run[i], t, call, lucky);
    } else {
      StepLeavesOthers(run[i], u, call, lucky, t);
    }
  }

  // ------------------------------------------------------------ whole calls

  /** k operations of thread t with everybody else standing still, all with the same luck. */
  function Alone(s: State, t: nat, call: Call, lucky: bool, k: nat): State
    requires Sized(s) && t < |s.pc|
    decreases k
  {
    if k == 0 then s else
    StepLeavesSize(s, t, call, lucky);
    Alone(Step(s, t, call, lucky), t, call, lucky, k - 1)
  }

  lemma StepLeavesSize(s: State, t: nat, call: Call, lucky: bool)
    requires Sized(s) && t < |s.pc|
    ensures Sized(Step(s, t, call, lucky)) && |Step(s, t, call, lucky).pc| == |s.pc|
  {
  }

  function Positive(count: int): nat {
    if count > 0 then count else 0
  }

  /** Thread t has taken `got` permits and is at `pc`. */
  function Took(s: State, t: nat, got: nat, pc: Pc): State
    requires t < |s.pc|
  {
    s.(count := s.count - got, acquired := s.acquired + got, pc := s.pc[t := pc])
  }

  /** One try takes what there is, up to max: without interference, and if the compare-exchange does not
      fail spuriously. */
  lemma TryAlone(s: State, t: nat, call: Call, max: nat, goal: Then, k: nat)
    requires Sized(s) && t < |s.pc| && s.pc[t] == TryLoad(max, goal) && k == if s.count > 0 then 2 else 1
    ensures var got := Min(max, Positive(s.count)); Alone(s, t, call, true, k) == Took(s, t, got, Tried(max, goal, got))
  {
    var s1 := Step(s, t, call, true);
    assert Alone(s, t, call, true, k) == Alone(s1, t, call, true, k - 1);
    if s.count > 0 {
      var s2 := Step(s1, t, call, true);
      assert Alone(s1, t, call, true, k - 1) == Alone(s2, t, call, true, k - 2) == s2;
      assert s2.pc == s.pc[t := s2.pc[t]];
    } else {
      assert Alone(s1, t, call, true, k - 1) == s1;
    }
  }

  /** A lone tryWaitMany(max) takes min(max, count). */
  lemma LoneTryWaitMany(s: State, t: nat, max: nat, k: nat)
    requires Sized(s) && t < |s.pc| && s.pc[t] == Idle && k == if s.count > 0 then 3 else 2
    ensures var r := Alone(s, t, TryWaitMany(max), true, k); var got := Min(max, Positive(s.count));
            && r.pc == s.pc[t := Done(got)] && r.count == s.count - got && r.tokens == s.tokens
            && r.acquired == s.acquired + got && r.signalled == s.signalled
  {
    var s1 := Start(s, t, TryWaitMany(max));
    assert Alone(s, t, TryWaitMany(max), true, k) == Alone(s1, t, TryWaitMany(max), true, k - 1);
    TryAlone(s1, t, TryWaitMany(max), max, Return, k - 1);
    assert s1.pc[t := Done(Min(max, Positive(s.count)))] == s.pc[t := Done(Min(max, Positive(s.count)))];
  }

  /** So does a lone waitMany(max) if there is a permit. */
  lemma LoneWaitMany(s: State, t: nat, max: nat, k: nat)
    requires Sized(s) && t < |s.pc| && s.pc[t] == Idle && s.count > 0 && k == 3
    ensures var r := Alone(s, t, WaitMany(max), true, k); var got := Min(max, s.count);
            && r.pc == s.pc[t := Done(got)] && r.count == s.count - got && r.tokens == s.tokens
            && r.acquired == s.acquired + got && r.signalled == s.signalled
  {
    var s1 := Start(s, t, WaitMany(max));
    assert Alone(s, t, WaitMany(max), true, k) == Alone(s1, t, WaitMany(max), true, k - 1);
    TryAlone(s1, t, WaitMany(max), max, OrWait, k - 1);
    assert s1.pc[t := Done(Min(max, s.count))] == s.pc[t := Done(Min(max, s.count))];
  }

  /** And if there is none and spinning stops, it registers as one more waiter and blocks. */
  lemma LoneWaitBlocks(s: State, t: nat, max: nat, k: nat)
    requires Sized(s) && t < |s.pc| && s.pc[t] == Idle && s.count <= 0 && max > 0 && k == 4
    ensures var r := Alone(s, t, WaitMany(max), false, k);
            && r.pc == s.pc[t := Blocked(max)] && r.count == s.count - 1 && r.tokens == s.tokens
            && r.acquired == s.acquired && r.signalled == s.signalled
  {
    var c := WaitMany(max);
    var s1 := Start(s, t, c);
    var s2, s3 := s1.(pc := s.pc[t := SpinLoad(max)]), s1.(pc := s.pc[t := Register(max)]);
    var r := s1.(count := s.count - 1, pc := s.pc[t := Blocked(max)]);
    assert Step(s, t, c, false) == s1 && Step(s1, t, c, false) == s2 && Step(s2, t, c, false) == s3
        && Step(s3, t, c, false) == r;
    assert Alone(s, t, c, false, k) == Alone(s1, t, c, false, k - 1) == Alone(s2, t, c, false, k - 2)
        == Alone(s3, t, c, false, k - 3) == Alone(r, t, c, false, k - 4);
  }

  /** A blocked waiter that finds a token returns with that permit, and with what else there is, up to
      max. */
  lemma WokenWaiterReturns(s: State, t: nat, call: Call, max: nat, k: nat)
    requires Sized(s) && t < |s.pc| && s.pc[t] == Blocked(max) && max > 0 && s.tokens > 0
    requires k == 1 + if max == 1 then 0 else if s.count > 0 then 2 else 1
    ensures var r := Alone(s, t, call, true, k); var more := Min(max - 1, Positive(s.count));
            && r.pc == s.pc[t := Done(1 + more)] && r.count == s.count - more && r.tokens == s.tokens - 1
            && r.acquired == s.acquired + 1 + more && r.signalled == s.signalled
  {
    var s1 := Step(s, t, call, true);
    assert Alone(s, t, call, true, k) == Alone(s1, t, call, true, k - 1);
    if max > 1 {
      TryAlone(s1, t, call, max - 1, More, k - 1);
      assert s1.pc[t := Alone(s1, t, call, true, k - 1).pc[t]] == s.pc[t := Alone(s1, t, call, true, k - 1).pc[t]];
    }
  }

  /** A blocked waiter that gives up while nobody has promised it a token is no waiter any more, and
      returns without a permit. */
  lemma LoneWaiterGivesUp(s: State, t: nat, call: Call, max: nat, k: nat)
    requires Sized(s) && t < |s.pc| && s.pc[t] == Blocked(max) && s.count < 0 && k == 3
    ensures var r := Alone(s, t, call, false, k);
            && r.pc == s.pc[t := Done(0)] && r.count == s.count + 1 && r.tokens == s.tokens
            && r.acquired == s.acquired && r.signalled == s.signalled
  {
    var s1 := Step(s, t, call, false);
    var s2, r := s1.(pc := s.pc[t := UndoTry(max, s.count)]), s1.(count := s.count + 1, pc := s.pc[t := Done(0)]);
    assert Step(s1, t, call, false) == s2 && Step(s2, t, call, false) == r;
    assert Alone(s, t, call, false, k) == Alone(s1, t, call, false, k - 1) == Alone(s2, t, call, false, k - 2)
        == Alone(r, t, call, false, k - 3);
  }

  lemma {:induction false} PostAlone(s: State, t: nat, call: Call, lucky: bool, n: nat)
    requires Sized(s) && t < |s.pc| && s.pc[t] == Posting(n)
    ensures Alone(s, t, call, lucky, n) == s.(tokens := s.tokens + n, pc := s.pc[t := Idle])
    decreases n
  {
    if n == 0 {
      assert s.pc[t := Idle] == s.pc;
    } else {
      var s1 := Step(s, t, call, lucky);
      PostAlone(s1, t, call, lucky, n - 1);
      assert s1.pc[t := Idle] == s.pc[t := Idle];
    }
  }

  /** A lone signal(n) adds n to the count and posts a token for each waiter that it serves. */
  lemma LoneSignal(s: State, t: nat, n: nat, lucky: bool, k: nat)
    requires Sized(s) && t < |s.pc| && s.pc[t] == Idle && k == 2 + Min(Positive(-s.count), n)
    ensures var r := Alone(s, t, Signal(n), lucky, k);
            && r.pc == s.pc && r.count == s.count + n && r.tokens == s.tokens + Min(Positive(-s.count), n)
            && r.acquired == s.acquired && r.signalled == s.signalled + n
  {
    var c := Signal(n);
    var s1 := Start(s, t, c);
    var s2 := Step(s1, t, c, lucky);
    assert Alone(s, t, c, lucky, k) == Alone(s1, t, c, lucky, k - 1) == Alone(s2, t, c, lucky, k - 2);
    PostAlone(s2, t, c, lucky, k - 2);
    assert s2.pc[t := Idle] == s.pc;
  }
}
