/**
 The reference-counted lock-free free list of the concurrent queue, as a state machine: any number
 of threads call add and try_get, and every atomic operation on freeListHead, freeListRefs and
 freeListNext is one step.

 Every node carries a status that says where it is in its life cycle. The status, the list `chain`
 and the two counters are history: no step decides anything from them.
 */
module FreeList {
  import opened Arith

  const SHOULD_BE_ON_FREELIST: nat := 0x8000_0000
  const REFS_WIDTH: nat := 0x1_0000_0000

  /** refs & REFS_MASK, for a 32-bit refs. */
  function Count(refs: nat): nat {
    refs % SHOULD_BE_ON_FREELIST
  }

  /** Atomic 32-bit addition; subtraction is the addition of a negative number. */
  function Plus(refs: nat, delta: int): nat {
    (refs + delta) % REFS_WIDTH
  }

  datatype Ptr = Null | To(node: nat)

  /** Where add_knowing_refcount_is_zero returns to: its caller add, or the loop of try_get, which
      goes on with the head value left behind by its failed compare-exchange. */
  datatype Back = Return | Resume(cur: Ptr)

  datatype Pc =
    | Idle
    | Adding(n: nat)                           // add: about to set the should-be-on-list bit
    | PushLoad(n: nat, back: Back)             // add_knowing_refcount_is_zero: load the head
    | PushLink(n: nat, h: Ptr, back: Back)     // store next
    | PushArm(n: nat, h: Ptr, back: Back)      // store refs = 1
    | PushCas(n: nat, h: Ptr, back: Back)      // swing the head to n
    | PushRetry(n: nat, h: Ptr, back: Back)    // the swing failed: give the list's reference back
    | GetLoad                                  // try_get: load the head
    | GetRefs(n: nat)                          // load refs
    | GetCas(n: nat, refs: nat)                // refs -> refs + 1
    | GetNext(n: nat)                          // load next
    | PopCas(n: nat, next: Ptr)                // swing the head to next
    | PopDone(n: nat)                          // popped: drop two references
    | Release(n: nat, cur: Ptr)                // not popped: drop one reference
  {
    /** The thread has counted itself into node n's references. */
    predicate Reads(m: nat) {
      (GetNext? || PopCas? || PopDone? || Release?) && n == m
    }
  }

  datatype Status =
    | Owned               // belongs to a client of the list
    | Called(t: nat)      // handed to an add that has not touched it yet
    | Pushing(t: nat)     // t alone works on it, its count is zero
    | Armed(t: nat)       // counted by the list already, but the head does not lead to it yet
    | Deferred            // should be on the list; the last reader has to push it
    | Listed
    | Popped(t: nat)      // off the chain, t is about to return it

  datatype State = State(
    refs: seq<nat>, next: seq<Ptr>, head: Ptr, pc: seq<Pc>,
    status: seq<Status>, chain: seq<nat>, adds: seq<nat>, gets: seq<nat>)

  /** What an idle thread does next. */
  datatype Call = Add(n: nat) | TryGet

  // ---------------------------------------------------------------- steps

  function Returned(back: Back): Pc {
    match back
    case Return => Idle
    case Resume(Null) => Idle
    case Resume(To(n)) => GetRefs(n)
  }

  predicate Sized(s: State) {
    |s.refs| == |s.next| == |s.status| == |s.adds| == |s.gets|
  }

  predicate ValidPtr(s: State, p: Ptr) {
    p.To? ==> p.node < |s.refs|
  }

  predicate ValidBack(s: State, b: Back) {
    b.Resume? ==> ValidPtr(s, b.cur)
  }

  predicate ValidPc(s: State, pc: Pc) {
    match pc
    case Idle => true
    case GetLoad => true
    case PushLoad(n, back) => n < |s.refs| && ValidBack(s, back)
    case PushLink(n, h, back) => n < |s.refs| && ValidPtr(s, h) && ValidBack(s, back)
    case PushArm(n, h, back) => n < |s.refs| && ValidPtr(s, h) && ValidBack(s, back)
    case PushCas(n, h, back) => n < |s.refs| && ValidPtr(s, h) && ValidBack(s, back)
    case PushRetry(n, h, back) => n < |s.refs| && ValidPtr(s, h) && ValidBack(s, back)
    case PopCas(n, next) => n < |s.refs| && ValidPtr(s, next)
    case Release(n, cur) => n < |s.refs| && ValidPtr(s, cur)
    case _ => pc.n < |s.refs|
  }

  predicate Wf(s: State) {
    && Sized(s)
    && ValidPtr(s, s.head)
    && (forall n | 0 <= n < |s.next| :: ValidPtr(s, s.next[n]))
    && (forall t | 0 <= t < |s.pc| :: ValidPc(s, s.pc[t]))
  }

  /** The one rule clients follow: add only what you own. */
  predicate Allowed(s: State, call: Call) {
    call.Add? ==> call.n < |s.status| && s.status[call.n] == Owned
  }

  predicate CanTake(s: State, t: nat, call: Call) {
    Wf(s) && t < |s.pc| && (s.pc[t].Idle? ==> Allowed(s, call))
  }

  /** The next atomic operation of thread t. */
  function Step(s: State, t: nat, call: Call): State
    requires CanTake(s, t, call)
  {
    match s.pc[t]
    case Idle => (
      match call
      case TryGet => s.(pc := s.pc[t := GetLoad])
      case Add(n) =>
        s.(pc := s.pc[t := Adding(n)], status := s.status[n := Called(t)], adds := s.adds[n := s.adds[n] + 1]))
    case Adding(n) =>
      var s' := s.(refs := s.refs[n := Plus(s.refs[n], SHOULD_BE_ON_FREELIST)]);
      if s.refs[n] == 0 then
        s'.(pc := s.pc[t := PushLoad(n, Return)], status := s.status[n := Pushing(t)])
      else
        s'.(pc := s.pc[t := Idle], status := s.status[n := Deferred])
    case PushLoad(n, back) => s.(pc := s.pc[t := PushLink(n, s.head, back)])
    case PushLink(n, h, back) => s.(pc := s.pc[t := PushArm(n, h, back)], next := s.next[n := h])
    case PushArm(n, h, back) =>
      s.(pc := s.pc[t := PushCas(n, h, back)], refs := s.refs[n := 1], status := s.status[n := Armed(t)])
    case PushCas(n, h, back) =>
      if s.head == h then
        s.(pc := s.pc[t := Returned(back)], head := To(n), status := s.status[n := Listed], chain := [n] + s.chain)
      else
        s.(pc := s.pc[t := PushRetry(n, s.head, back)])
    case PushRetry(n, h, back) =>
      var s' := s.(refs := s.refs[n := Plus(s.refs[n], SHOULD_BE_ON_FREELIST - 1)]);
      if s.refs[n] == 1 then
        s'.(pc := s.pc[t := PushLink(n, h, back)], status := s.status[n := Pushing(t)])
      else
        s'.(pc := s.pc[t := Returned(back)], status := s.status[n := Deferred])
    case GetLoad => s.(pc := s.pc[t := Returned(Resume(s.head))])
    case GetRefs(n) => s.(pc := s.pc[t := if Count(s.refs[n]) == 0 then GetLoad else GetCas(n, s.refs[n])])
    case GetCas(n, refs) =>
      if s.refs[n] == refs then
        s.(pc := s.pc[t := GetNext(n)], refs := s.refs[n := Plus(refs, 1)])
      else
        s.(pc := s.pc[t := GetLoad])
    case GetNext(n) => s.(pc := s.pc[t := PopCas(n, s.next[n])])
    case PopCas(n, next) =>
      if s.head == To(n) then
        s.(pc := s.pc[t := PopDone(n)], head := next, status := s.status[n := Popped(t)],
           chain := if s.chain == [] then [] else s.chain[1..])
      else
        s.(pc := s.pc[t := Release(n, s.head)])
    case PopDone(n) =>
      s.(pc := s.pc[t := Idle], refs := s.refs[n := Plus(s.refs[n], -2)],
         status := s.status[n := Owned], gets := s.gets[n := s.gets[n] + 1])
    case Release(n, cur) =>
      var s' := s.(refs := s.refs[n := Plus(s.refs[n], -1)]);
      if s.refs[n] == SHOULD_BE_ON_FREELIST + 1 then
        s'.(pc := s.pc[t := PushLoad(n, Resume(cur))], status := s.status[n := Pushing(t)])
      else
        s'.(pc := s.pc[t := Returned(Resume(cur))])
  }

  /** All nodes are fresh and owned by clients. The reference field has room for every thread. */
  predicate Init(s: State) {
    && Sized(s)
    && |s.pc| < SHOULD_BE_ON_FREELIST - 1
    && s.head == Null && s.chain == []
    && (forall n | 0 <= n < |s.refs| :: s.refs[n] == 0)
    && (forall n | 0 <= n < |s.next| :: s.next[n] == Null)
    && (forall n | 0 <= n < |s.status| :: s.status[n] == Owned)
    && (forall n | 0 <= n < |s.adds| :: s.adds[n] == 0)
    && (forall n | 0 <= n < |s.gets| :: s.gets[n] == 0)
    && (forall t | 0 <= t < |s.pc| :: s.pc[t] == Idle)
  }

  ghost predicate Next(s: State, s': State) {
    exists t: nat, call: Call :: CanTake(s, t, call) && s' == Step(s, t, call)
  }

  ghost predicate NextAt(run: seq<State>, i: nat) {
    i + 1 < |run| ==> Next(run[i], run[i + 1])
  }

  ghost predicate Run(run: seq<State>) {
    && |run| > 0
    && Init(run[0])
    && forall i: nat :: NextAt(run, i)
  }

  // ------------------------------------------------------------ invariant

  /** The threads that have counted themselves into node n. */
  function Readers(pcs: seq<Pc>, n: nat): set<nat> {
    set t: nat | t < |pcs| && pcs[t].Reads(n)
  }

  /** The reference word that a status calls for. */
  function RefsFor(status: Status, readers: nat): nat {
    match status
    case Owned => readers
    case Called(_) => readers
    case Pushing(_) => SHOULD_BE_ON_FREELIST
    case Deferred => SHOULD_BE_ON_FREELIST + readers
    case _ => readers + 1
  }

  /** The reference word of a node, from its status and its readers. Nobody reads a node that is being
      pushed, and somebody reads a deferred one. */
  predicate RefsOk(status: Status, refs: nat, readers: nat) {
    && refs == RefsFor(status, readers)
    && (status.Pushing? ==> readers == 0)
    && (status.Deferred? ==> readers > 0)
  }

  /** A status that names a thread is backed by that thread's program point. */
  predicate Backed(s: State, n: nat)
    requires n < |s.status|
  {
    match s.status[n]
    case Called(t) => t < |s.pc| && s.pc[t] == Adding(n)
    case Pushing(t) =>
      t < |s.pc| && (s.pc[t].PushLoad? || s.pc[t].PushLink? || s.pc[t].PushArm?) && s.pc[t].n == n
    case Armed(t) => t < |s.pc| && (s.pc[t].PushCas? || s.pc[t].PushRetry?) && s.pc[t].n == n
    case Popped(t) => t < |s.pc| && s.pc[t] == PopDone(n)
    case _ => true
  }

  predicate PcOk(s: State, t: nat)
    requires Wf(s) && t < |s.pc|
  {
    match s.pc[t]
    case Adding(n) => s.status[n] == Called(t)
    case PushLoad(n, _) => s.status[n] == Pushing(t)
    case PushLink(n, _, _) => s.status[n] == Pushing(t)
    case PushArm(n, h, _) => s.status[n] == Pushing(t) && s.next[n] == h
    case PushCas(n, h, _) => s.status[n] == Armed(t) && s.next[n] == h
    case PushRetry(n, _, _) => s.status[n] == Armed(t)
    case GetCas(_, refs) => Count(refs) != 0
    case PopCas(n, next) => s.next[n] == next
    case PopDone(n) => s.status[n] == Popped(t)
    case _ => true
  }

  /** The successor of the i-th node of a chain. */
  function Succ(chain: seq<nat>, i: nat): Ptr {
    if i < |chain| then To(chain[i]) else Null
  }

  predicate Linked(next: seq<Ptr>, chain: seq<nat>, i: nat) {
    i < |chain| && chain[i] < |next| && next[chain[i]] == Succ(chain, i + 1)
  }

  /** Starting at head, the next pointers spell out `chain`, which has no repetitions. */
  ghost predicate Chained(head: Ptr, next: seq<Ptr>, chain: seq<nat>) {
    && head == Succ(chain, 0)
    && (forall i: nat | i < |chain| :: Linked(next, chain, i))
    && (forall i: nat, j: nat | i < j < |chain| :: chain[i] != chain[j])
  }

  predicate IsListed(status: seq<Status>, n: nat) {
    n < |status| && status[n] == Listed
  }

  ghost predicate Members(status: seq<Status>, chain: seq<nat>) {
    forall n: nat :: IsListed(status, n) <==> n in chain
  }

  ghost predicate ChainOk(s: State) {
    Chained(s.head, s.next, s.chain) && Members(s.status, s.chain)
  }

  predicate Tally(status: Status, adds: nat, gets: nat) {
    adds == if status == Owned then gets else gets + 1
  }

  predicate RefsAt(s: State, n: nat) {
    && n < |s.refs| == |s.status|
    && RefsOk(s.status[n], s.refs[n], |Readers(s.pc, n)|)
  }

  predicate NodeOk(s: State, n: nat) {
    && Sized(s)
    && RefsAt(s, n)
    && Backed(s, n)
    && Tally(s.status[n], s.adds[n], s.gets[n])
  }

  predicate CanStep(s: State, t: nat, call: Call) {
    && CanTake(s, t, call)
    && |s.pc| < SHOULD_BE_ON_FREELIST - 1
    && (s.head.To? ==> s.status[s.head.node] == Listed)
  }

  ghost predicate Inv(s: State) {
    && Wf(s)
    && |s.pc| < SHOULD_BE_ON_FREELIST - 1
    && (forall n: nat | n < |s.refs| :: NodeOk(s, n))
    && (forall t: nat | t < |s.pc| :: PcOk(s, t))
    && ChainOk(s)
  }

  // ----------------------------------------------------- counting readers

  lemma {:induction false} SizeOfPrefix(n: nat, a: set<nat>)
    requires forall t | t in a :: t < n
    ensures |a| <= n
  {
    if n > 0 {
      SizeOfPrefix(n - 1, a - {n - 1});
    } else {
      assert a == {};
    }
  }

  lemma ReadersFit(pcs: seq<Pc>, n: nat)
    ensures |Readers(pcs, n)| <= |pcs|
  {
    SizeOfPrefix(|pcs|, Readers(pcs, n));
  }

  /** A thread's move changes a node's readers by that thread only. */
  lemma ReadersAfter(pcs: seq<Pc>, t: nat, pc: Pc, n: nat)
    requires t < |pcs|
    ensures |Readers(pcs[t := pc], n)|
         == |Readers(pcs, n)| + (if pc.Reads(n) then 1 else 0) - (if pcs[t].Reads(n) then 1 else 0)
  {
    var before, after := Readers(pcs, n), Readers(pcs[t := pc], n);
    assert after - {t} == before - {t};
    WithAndWithout(before, t);
    WithAndWithout(after, t);
    assert t in before <==> pcs[t].Reads(n);
    assert t in after <==> pc.Reads(n);
  }

  lemma WithAndWithout(a: set<nat>, t: nat)
    ensures |a - {t}| == |a| - (if t in a then 1 else 0)
  {
    if t !in a {
      assert a - {t} == a;
    }
  }

  // ---------------------------------------------------- steps keep the invariant

  lemma PlusIsExact(refs: nat, delta: int)
    requires 0 <= refs + delta < REFS_WIDTH
    ensures Plus(refs, delta) == refs + delta
  {
  }

  lemma RefsClient(s: State, t: nat, call: Call, n: nat)
    requires CanStep(s, t, call) && PcOk(s, t) && n < |s.refs| && RefsAt(s, n)
    requires s.pc[t].Idle? || s.pc[t].Adding?
    ensures RefsAt(Step(s, t, call), n)
  {
    var s' := Step(s, t, call);
    ReadersFit(s.pc, n);
    ReadersAfter(s.pc, t, s'.pc[t], n);
    if s.pc[t].Adding? && n == s.pc[t].n {
      PlusIsExact(s.refs[n], SHOULD_BE_ON_FREELIST);
    }
    assert s'.pc == s.pc[t := s'.pc[t]];
  }

  lemma RefsPush(s: State, t: nat, call: Call, n: nat)
    requires CanStep(s, t, call) && PcOk(s, t) && n < |s.refs| && RefsAt(s, n)
    requires s.pc[t].PushLoad? || s.pc[t].PushLink? || s.pc[t].PushArm? || s.pc[t].PushCas?
    ensures RefsAt(Step(s, t, call), n)
  {
    var s' := Step(s, t, call);
    ReadersFit(s.pc, n);
    ReadersAfter(s.pc, t, s'.pc[t], n);
    assert s'.pc == s.pc[t := s'.pc[t]];
  }

  lemma RefsRetry(s: State, t: nat, call: Call, n: nat)
    requires CanStep(s, t, call) && PcOk(s, t) && n < |s.refs| && RefsAt(s, n)
    requires s.pc[t].PushRetry?
    ensures RefsAt(Step(s, t, call), n)
  {
    var s' := Step(s, t, call);
    ReadersFit(s.pc, n);
    ReadersAfter(s.pc, t, s'.pc[t], n);
    if n == s.pc[t].n {
      PlusIsExact(s.refs[n], SHOULD_BE_ON_FREELIST - 1);
    }
    assert s'.pc == s.pc[t := s'.pc[t]];
  }

  lemma RefsGet(s: State, t: nat, call: Call, n: nat)
    requires CanStep(s, t, call) && PcOk(s, t) && n < |s.refs| && RefsAt(s, n)
    requires s.pc[t].GetLoad? || s.pc[t].GetRefs? || s.pc[t].GetCas? || s.pc[t].GetNext?
    ensures RefsAt(Step(s, t, call), n)
  {
    var s' := Step(s, t, call);
    ReadersFit(s.pc, n);
    ReadersAfter(s.pc, t, s'.pc[t], n);
    assert s'.pc == s.pc[t := s'.pc[t]];
  }

  lemma RefsPop(s: State, t: nat, call: Call, n: nat)
    requires CanStep(s, t, call) && PcOk(s, t) && n < |s.refs| && RefsAt(s, n)
    requires s.pc[t].PopCas? || s.pc[t].PopDone? || s.pc[t].Release?
    ensures RefsAt(Step(s, t, call), n)
  {
    var s' := Step(s, t, call);
    ReadersFit(s.pc, n);
    ReadersAfter(s.pc, t, s'.pc[t], n);
    assert s'.pc == s.pc[t := s'.pc[t]];
  }

  lemma StepRefs(s: State, t: nat, call: Call, n: nat)
    requires CanStep(s, t, call) && PcOk(s, t) && n < |s.refs| && RefsAt(s, n)
    ensures RefsAt(Step(s, t, call), n)
  {
    match s.pc[t]
    case Idle => RefsClient(s, t, call, n);
    case Adding(_) => RefsClient(s, t, call, n);
    case PushRetry(_, _, _) => RefsRetry(s, t, call, n);
    case GetLoad => RefsGet(s, t, call, n);
    case GetRefs(_) => RefsGet(s, t, call, n);
    case GetCas(_, _) => RefsGet(s, t, call, n);
    case GetNext(_) => RefsGet(s, t, call, n);
    case PopCas(_, _) => RefsPop(s, t, call, n);
    case PopDone(_) => RefsPop(s, t, call, n);
    case Release(_, _) => RefsPop(s, t, call, n);
    case _ => RefsPush(s, t, call, n);
  }

  /** The node whose fields the next operation of t may change. */
  function Touched(s: State, t: nat, call: Call): Ptr
    requires t < |s.pc|
  {
    match s.pc[t]
    case Idle => if call.Add? then To(call.n) else Null
    case GetLoad => Null
    case pc => To(pc.n)
  }

  predicate Names(status: Status, u: nat) {
    status == Called(u) || status == Pushing(u) || status == Armed(u) || status == Popped(u)
  }

  /** What one operation leaves alone. */
  ghost predicate Frame(s: State, s': State, t: nat, m: Ptr) {
    && Sized(s) && Sized(s') && t < |s.pc| == |s'.pc| && |s'.refs| == |s.refs|
    && (forall u: nat | u < |s.pc| && u != t :: s'.pc[u] == s.pc[u])
    && (forall n: nat | n < |s.refs| && To(n) != m ::
          && s'.refs[n] == s.refs[n] && s'.next[n] == s.next[n] && s'.status[n] == s.status[n]
          && s'.adds[n] == s.adds[n] && s'.gets[n] == s.gets[n])
    && (forall n: nat | n < |s.refs| && !s.pc[t].PushLink? :: s'.next[n] == s.next[n])
    && (m.To? ==> m.node < |s.refs|)
  }

  lemma StepFrame(s: State, t: nat, call: Call)
    requires CanStep(s, t, call)
    ensures Frame(s, Step(s, t, call), t, Touched(s, t, call))
  {
    assert ValidPc(s, s.pc[t]);
  }

  lemma StepPointers(s: State, t: nat, call: Call)
    requires CanStep(s, t, call)
    ensures var s' := Step(s, t, call);
            t < |s'.pc| && ValidPc(s', s'.pc[t]) && ValidPtr(s', s'.head)
            && (s.pc[t].PushLink? ==> s.pc[t].n < |s'.next| && ValidPtr(s', s'.next[s.pc[t].n]))
  {
    assert ValidPc(s, s.pc[t]);
  }

  lemma StepWf(s: State, t: nat, call: Call)
    requires CanStep(s, t, call)
    ensures Wf(Step(s, t, call))
  {
    StepPointers(s, t, call);
    StepFrame(s, t, call);
  }

  /** A status that names another thread stays, and so does a next pointer somebody has read. */
  lemma StepLeavesOthersAlone(s: State, t: nat, call: Call, u: nat, n: nat)
    requires CanStep(s, t, call) && PcOk(s, t) && n < |s.refs| && RefsAt(s, n) && u < |s.pc| && u != t
    ensures var s' := Step(s, t, call);
            && |s'.status| == |s'.next| == |s.refs|
            && (Names(s.status[n], u) ==> s'.status[n] == s.status[n])
            && (s.pc[u].Reads(n) ==> s'.next[n] == s.next[n])
  {
    StepFrame(s, t, call);
    ReadersFit(s.pc, n);
    if s.pc[u].Reads(n) {
      assert u in Readers(s.pc, n);
    }
  }

  lemma StepPcs(s: State, t: nat, call: Call, u: nat)
    requires CanStep(s, t, call) && PcOk(s, t) && u < |s.pc| && PcOk(s, u)
    requires forall n: nat | n < |s.refs| :: NodeOk(s, n)
    ensures var s' := Step(s, t, call); Wf(s') && u < |s'.pc| && PcOk(s', u)
  {
    var s' := Step(s, t, call);
    StepWf(s, t, call);
    StepFrame(s, t, call);
    assert ValidPc(s, s.pc[u]);
    if t != u {
      if !s.pc[u].Idle? && !s.pc[u].GetLoad? {
        assert NodeOk(s, s.pc[u].n);
        StepLeavesOthersAlone(s, t, call, u, s.pc[u].n);
      }
    } else {
      OwnPc(s, t, call);
    }
  }

  lemma OwnPc(s: State, t: nat, call: Call)
    requires CanStep(s, t, call) && PcOk(s, t)
    ensures var s' := Step(s, t, call); Wf(s') && t < |s'.pc| && PcOk(s', t)
  {
    StepWf(s, t, call);
    assert ValidPc(s, s.pc[t]);
  }

  predicate Pushes(pc: Pc) {
    pc.PushLoad? || pc.PushLink? || pc.PushArm? || pc.PushCas? || pc.PushRetry?
  }

  lemma BackedClient(s: State, t: nat, call: Call, n: nat)
    requires t < |s.pc| && (s.pc[t].Idle? || s.pc[t].Adding? || s.pc[t].PopDone?)
    requires CanStep(s, t, call) && PcOk(s, t) && n < |s.refs| && RefsAt(s, n) && Backed(s, n)
    ensures var s' := Step(s, t, call); n < |s'.status| && Backed(s', n)
  {
    StepFrame(s, t, call);
    ReadersFit(s.pc, n);
  }

  lemma BackedPush(s: State, t: nat, call: Call, n: nat)
    requires t < |s.pc| && Pushes(s.pc[t])
    requires CanStep(s, t, call) && PcOk(s, t) && n < |s.refs| && RefsAt(s, n) && Backed(s, n)
    ensures var s' := Step(s, t, call); n < |s'.status| && Backed(s', n)
  {
    StepFrame(s, t, call);
    ReadersFit(s.pc, n);
  }

  lemma BackedGet(s: State, t: nat, call: Call, n: nat)
    requires t < |s.pc| && !s.pc[t].Idle? && !s.pc[t].Adding? && !s.pc[t].PopDone? && !Pushes(s.pc[t])
    requires CanStep(s, t, call) && PcOk(s, t) && n < |s.refs| && RefsAt(s, n) && Backed(s, n)
    ensures var s' := Step(s, t, call); n < |s'.status| && Backed(s', n)
  {
    StepFrame(s, t, call);
    ReadersFit(s.pc, n);
  }

  lemma StepBacked(s: State, t: nat, call: Call, n: nat)
    requires CanStep(s, t, call) && PcOk(s, t) && n < |s.refs| && RefsAt(s, n) && Backed(s, n)
    ensures var s' := Step(s, t, call); n < |s'.status| && Backed(s', n)
  {
    if Pushes(s.pc[t]) {
      BackedPush(s, t, call, n);
    } else if s.pc[t].Idle? || s.pc[t].Adding? || s.pc[t].PopDone? {
      BackedClient(s, t, call, n);
    } else {
      BackedGet(s, t, call, n);
    }
  }

  lemma StepTally(s: State, t: nat, call: Call, n: nat)
    requires CanStep(s, t, call) && PcOk(s, t) && n < |s.refs| && RefsAt(s, n)
    requires Tally(s.status[n], s.adds[n], s.gets[n])
    ensures var s' := Step(s, t, call);
            n < |s'.status| == |s'.adds| == |s'.gets| && Tally(s'.status[n], s'.adds[n], s'.gets[n])
  {
    StepFrame(s, t, call);
    ReadersFit(s.pc, n);
  }

  /** Unless the head moves, no node enters or leaves the list and no listed node's link changes. */
  lemma StepLeavesListAlone(s: State, t: nat, call: Call, n: nat)
    requires CanStep(s, t, call) && PcOk(s, t) && n < |s.refs| && RefsAt(s, n)
    requires !HeadMoves(s, t)
    ensures var s' := Step(s, t, call);
            && |s'.status| == |s'.next| == |s.refs|
            && (s'.status[n] == Listed <==> s.status[n] == Listed)
            && (s.status[n] == Listed ==> s'.next[n] == s.next[n])
  {
    StepFrame(s, t, call);
    ReadersFit(s.pc, n);
  }

  predicate HeadMoves(s: State, t: nat)
    requires t < |s.pc|
  {
    (s.pc[t].PushCas? && s.head == s.pc[t].h) || (s.pc[t].PopCas? && s.head == To(s.pc[t].n))
  }

  lemma StillChained(next: seq<Ptr>, next': seq<Ptr>, status: seq<Status>, head: Ptr, chain: seq<nat>)
    requires Chained(head, next, chain) && Members(status, chain)
    requires |next| == |next'|
    requires forall n: nat | IsListed(status, n) :: n < |next| && next'[n] == next[n]
    ensures Chained(head, next', chain)
  {
    forall i: nat | i < |chain| ensures Linked(next', chain, i) {
      assert Linked(next, chain, i) && IsListed(status, chain[i]);
    }
  }

  lemma PushedChain(head: Ptr, next: seq<Ptr>, status: seq<Status>, chain: seq<nat>, n: nat)
    requires Chained(head, next, chain) && Members(status, chain)
    requires n < |next| == |status| && next[n] == head && status[n] != Listed
    ensures Chained(To(n), next, [n] + chain) && Members(status[n := Listed], [n] + chain)
  {
    var chain' := [n] + chain;
    assert !IsListed(status, n);
    forall i: nat | i < |chain'| ensures Linked(next, chain', i) {
      if i > 0 {
        assert Linked(next, chain, i - 1);
      }
    }
    forall m: nat ensures IsListed(status[n := Listed], m) <==> m in chain' {
      assert m != n ==> (IsListed(status, m) <==> IsListed(status[n := Listed], m));
    }
  }

  lemma PoppedChain(head: Ptr, next: seq<Ptr>, status: seq<Status>, chain: seq<nat>, n: nat, status': Status)
    requires Chained(head, next, chain) && Members(status, chain)
    requires head == To(n) && |next| == |status| && status' != Listed
    ensures chain != [] && n < |next| && Chained(next[n], next, chain[1..]) && Members(status[n := status'], chain[1..])
  {
    assert Linked(next, chain, 0);
    forall i: nat | i < |chain[1..]| ensures Linked(next, chain[1..], i) {
      assert Linked(next, chain, i + 1);
    }
    forall m: nat ensures IsListed(status[n := status'], m) <==> m in chain[1..] {
      assert m != n ==> (IsListed(status, m) <==> IsListed(status[n := status'], m));
      assert chain == [n] + chain[1..];
    }
  }

  lemma StepChain(s: State, t: nat, call: Call)
    requires CanStep(s, t, call) && PcOk(s, t) && ChainOk(s)
    requires forall n: nat | n < |s.refs| :: NodeOk(s, n)
    ensures ChainOk(Step(s, t, call))
  {
    var s' := Step(s, t, call);
    assert ValidPc(s, s.pc[t]);
    if !HeadMoves(s, t) {
      StepFrame(s, t, call);
      forall n: nat
        ensures IsListed(s'.status, n) <==> IsListed(s.status, n)
        ensures IsListed(s.status, n) ==> n < |s.next| == |s'.next| && s'.next[n] == s.next[n]
      {
        if n < |s.refs| {
          assert NodeOk(s, n);
          StepLeavesListAlone(s, t, call, n);
        }
      }
      StillChained(s.next, s'.next, s.status, s.head, s.chain);
    } else if s.pc[t].PushCas? {
      PushedChain(s.head, s.next, s.status, s.chain, s.pc[t].n);
    } else {
      PoppedChain(s.head, s.next, s.status, s.chain, s.pc[t].n, Popped(t));
    }
  }

  lemma StepNode(s: State, t: nat, call: Call, n: nat)
    requires CanStep(s, t, call) && PcOk(s, t) && NodeOk(s, n)
    ensures NodeOk(Step(s, t, call), n)
  {
    StepFrame(s, t, call);
    StepRefs(s, t, call, n);
    StepBacked(s, t, call, n);
    StepTally(s, t, call, n);
  }

  lemma HeadIsListed(s: State)
    requires ChainOk(s) && s.head.To?
    ensures IsListed(s.status, s.head.node)
  {
    assert s.head.node in s.chain;
  }

  lemma StepKeepsInv(s: State, t: nat, call: Call)
    requires Inv(s) && t < |s.pc| && (s.pc[t].Idle? ==> Allowed(s, call))
    ensures Inv(Step(s, t, call))
  {
    var s' := Step(s, t, call);
    if s.head.To? {
      HeadIsListed(s);
    }
    assert CanStep(s, t, call) && PcOk(s, t);
    StepFrame(s, t, call);
    forall n: nat | n < |s.refs| ensures NodeOk(s', n) {
      assert NodeOk(s, n);
      StepNode(s, t, call, n);
    }
    StepWf(s, t, call);
    forall u: nat | u < |s.pc| ensures PcOk(s', u) {
      assert PcOk(s, u);
      StepPcs(s, t, call, u);
    }
    StepChain(s, t, call);
  }

  lemma InitInv(s: State)
    requires Init(s)
    ensures Inv(s)
  {
    forall n: nat | n < |s.refs| ensures NodeOk(s, n) {
      assert Readers(s.pc, n) == {};
    }
  }

  /** Every step of a run is an operation of some thread. */
  lemma RunStep(run: seq<State>, i: nat) returns (t: nat, call: Call)
    requires Run(run) && i + 1 < |run|
    ensures CanTake(run[i], t, call) && run[i + 1] == Step(run[i], t, call)
  {
    assert NextAt(run, i);
    t, call :| CanTake(run[i], t, call) && run[i + 1] == Step(run[i], t, call);
  }

  lemma PrefixRuns(run: seq<State>, n: nat)
    requires Run(run) && 0 < n <= |run|
    ensures Run(run[..n])
  {
    forall i: nat ensures NextAt(run[..n], i) {
      assert NextAt(run, i);
    }
  }

  lemma {:induction false} RunKeepsInv(run: seq<State>)
    requires Run(run)
    ensures Inv(run[|run| - 1])
  {
    if |run| == 1 {
      InitInv(run[0]);
    } else {
      PrefixRuns(run, |run| - 1);
      RunKeepsInv(run[..|run| - 1]);
      var t, call := RunStep(run, |run| - 2);
      StepKeepsInv(run[|run| - 2], t, call);
    }
  }

  // ------------------------------------------------------------- theorems

  /** Following k next pointers from the head. */
  function Walk(s: State, k: nat): Ptr {
    if k == 0 then s.head else
    match Walk(s, k - 1)
    case Null => Null
    case To(n) => if n < |s.next| then s.next[n] else Null
  }

  ghost predicate OnList(s: State, n: nat) {
    exists k: nat :: Walk(s, k) == To(n)
  }

  lemma {:induction false} WalkFollowsChain(s: State, k: nat)
    requires ChainOk(s)
    ensures Walk(s, k) == Succ(s.chain, k)
  {
    if k > 0 {
      WalkFollowsChain(s, k - 1);
      if k - 1 < |s.chain| {
        assert Linked(s.next, s.chain, k - 1);
      }
    }
  }

  /** The count of every reference word is the number of its readers, plus one if the list holds a
      reference; the top bit says that the node waits to be put on the list. */
  lemma ReferencesAreCounted(run: seq<State>, n: nat)
    requires Run(run) && n < |run[|run| - 1].refs|
    ensures var s := run[|run| - 1];
            && n < |s.status|
            && var st := s.status[n];
            && Count(s.refs[n]) == |Readers(s.pc, n)| + (if st.Armed? || st.Listed? || st.Popped? then 1 else 0)
            && (s.refs[n] >= SHOULD_BE_ON_FREELIST <==> st.Pushing? || st.Deferred?)
  {
    RunKeepsInv(run);
    assert NodeOk(run[|run| - 1], n);
    ReadersFit(run[|run| - 1].pc, n);
  }

  /** The chain hanging off the head ends, never visits a node twice and visits exactly the listed
      nodes, in every reachable state. */
  lemma HeadLeadsToListedNodes(run: seq<State>)
    requires Run(run)
    ensures var s := run[|run| - 1];
            && Walk(s, |s.chain|) == Null
            && (forall j: nat, k: nat | j < k && Walk(s, j).To? :: Walk(s, j) != Walk(s, k))
            && (forall n: nat :: IsListed(s.status, n) <==> OnList(s, n))
  {
    RunKeepsInv(run);
    var s := run[|run| - 1];
    forall k: nat ensures Walk(s, k) == Succ(s.chain, k) {
      WalkFollowsChain(s, k);
    }
    forall n: nat ensures IsListed(s.status, n) <==> OnList(s, n) {
      if IsListed(s.status, n) {
        var k: nat :| k < |s.chain| && s.chain[k] == n;
        assert Walk(s, k) == To(n);
      }
      if OnList(s, n) {
        var k: nat :| Walk(s, k) == To(n);
        assert s.chain[k] == n && n in s.chain;
      }
    }
  }

  /** No ABA: whenever the compare-exchange of a pop succeeds, the pointer it installs is the
      successor the head has at that very moment, and the node is not waiting to be added. */
  lemma PopInstallsTrueSuccessor(run: seq<State>, t: nat)
    requires Run(run)
    requires var s := run[|run| - 1];
             t < |s.pc| && s.pc[t].PopCas? && s.head == To(s.pc[t].n)
    ensures var s := run[|run| - 1];
            && s.pc[t].next == Walk(s, 1)
            && s.pc[t].n < |s.refs| && s.refs[s.pc[t].n] < SHOULD_BE_ON_FREELIST
  {
    RunKeepsInv(run);
    var s := run[|run| - 1];
    assert ValidPc(s, s.pc[t]) && PcOk(s, t) && NodeOk(s, s.pc[t].n);
    HeadIsListed(s);
    ReadersFit(s.pc, s.pc[t].n);
    WalkFollowsChain(s, 0);
  }

  /** A node that is being returned by one try_get is not being returned by another. */
  lemma OneReceiver(run: seq<State>, t: nat, u: nat)
    requires Run(run)
    requires var s := run[|run| - 1];
             t < |s.pc| && u < |s.pc| && s.pc[t].PopDone? && s.pc[u] == s.pc[t]
    ensures t == u
  {
    RunKeepsInv(run);
    assert PcOk(run[|run| - 1], t) && PcOk(run[|run| - 1], u);
  }

  ghost predicate HandedOut(s: State, s': State, n: nat) {
    n < |s.gets| == |s'.gets| && s'.gets[n] == s.gets[n] + 1
  }

  lemma StepGets(s: State, t: nat, call: Call, n: nat)
    requires CanTake(s, t, call) && n < |s.gets|
    ensures var s' := Step(s, t, call);
            |s'.gets| == |s.gets| && |s'.refs| == |s.refs| && s.gets[n] <= s'.gets[n] <= s.gets[n] + 1
  {
    assert ValidPc(s, s.pc[t]);
  }

  lemma {:induction false} GetsGrow(run: seq<State>, i: nat, j: nat, n: nat)
    requires Run(run) && i <= j < |run| && n < |run[i].gets|
    ensures |run[j].gets| == |run[i].gets| && run[i].gets[n] <= run[j].gets[n]
  {
    if i < j {
      GetsGrow(run, i, j - 1, n);
      var t, call := RunStep(run, j - 1);
      StepGets(run[j - 1], t, call, n);
    }
  }

  lemma RunTally(run: seq<State>, i: nat, n: nat)
    requires Run(run) && i < |run| && n < |run[i].gets|
    ensures n < |run[i].status| == |run[i].adds| && Tally(run[i].status[n], run[i].adds[n], run[i].gets[n])
  {
    PrefixRuns(run, i + 1);
    RunKeepsInv(run[..i + 1]);
    assert NodeOk(run[i], n);
  }

  /** Whenever try_get returns a node, it has been added once more often than returned before. */
  lemma HandOutTally(run: seq<State>, i: nat, n: nat)
    requires Run(run) && i + 1 < |run| && HandedOut(run[i], run[i + 1], n)
    ensures n < |run[i].adds| == |run[i + 1].adds|
    ensures run[i].adds[n] == run[i].gets[n] + 1 == run[i + 1].adds[n] == run[i + 1].gets[n]
  {
    RunTally(run, i, n);
    RunThreadStep(run, i, n);
  }

  lemma RunThreadStep(run: seq<State>, i: nat, n: nat)
    requires Run(run) && i + 1 < |run| && HandedOut(run[i], run[i + 1], n)
    ensures n < |run[i].status| && run[i].status[n].Popped? && run[i + 1].adds == run[i].adds
  {
    var t, call := RunStep(run, i);
    PrefixRuns(run, i + 1);
    RunKeepsInv(run[..i + 1]);
    assert ValidPc(run[i], run[i].pc[t]) && PcOk(run[i], t);
  }

  /** Between two hand-outs of the same node somebody has added it back. */
  lemma HandOutsAreSeparatedByAdds(run: seq<State>, i: nat, j: nat, n: nat)
    requires Run(run) && i < j && j + 1 < |run|
    requires HandedOut(run[i], run[i + 1], n) && HandedOut(run[j], run[j + 1], n)
    ensures n < |run[j].adds| && n < |run[i + 1].adds| && run[j].adds[n] > run[i + 1].adds[n]
  {
    HandOutTally(run, i, n);
    HandOutTally(run, j, n);
    GetsGrow(run, i + 1, j, n);
  }

  predicate Quiet(s: State) {
    forall t: nat | t < |s.pc| :: s.pc[t] == Idle
  }

  /** When no call is in progress every node is with exactly one side: a client owns it and its
      reference word is zero, or it is on the list, the list holding the only reference. */
  lemma QuietListConservesNodes(run: seq<State>, n: nat)
    requires Run(run) && n < |run[|run| - 1].refs|
    requires Quiet(run[|run| - 1])
    ensures var s := run[|run| - 1];
            && n < |s.status| && |s.adds| == |s.gets| == |s.status|
            && ((s.status[n] == Owned && s.refs[n] == 0 && s.adds[n] == s.gets[n] && !OnList(s, n))
                || (s.status[n] == Listed && s.refs[n] == 1 && s.adds[n] == s.gets[n] + 1 && OnList(s, n)))
  {
    RunKeepsInv(run);
    HeadLeadsToListedNodes(run);
    var s := run[|run| - 1];
    assert NodeOk(s, n) && Readers(s.pc, n) == {};
    assert IsListed(s.status, n) <==> s.status[n] == Listed;
  }

  predicate IsDeferred(s: State, n: nat) {
    n < |s.status| && s.status[n] == Deferred
  }

  lemma DeferredHasReader(s: State, n: nat)
    requires Inv(s) && IsDeferred(s, n)
    ensures Readers(s.pc, n) != {}
  {
    assert NodeOk(s, n);
  }

  /** One operation of a reader of a deferred node: on to its release, or the release itself. */
  lemma DeferredReaderSteps(s: State, n: nat, t: nat)
    requires Inv(s) && IsDeferred(s, n) && t in Readers(s.pc, n)
    ensures CanTake(s, t, TryGet) && Inv(Step(s, t, TryGet))
    ensures s.pc[t].GetNext? || s.pc[t].PopCas? || s.pc[t].Release?
    ensures var s' := Step(s, t, TryGet);
            && t < |s'.pc|
            && (s.pc[t].GetNext? ==> s'.pc[t].PopCas? && IsDeferred(s', n) && Readers(s'.pc, n) == Readers(s.pc, n))
            && (s.pc[t].PopCas? ==> s'.pc[t].Release? && IsDeferred(s', n) && Readers(s'.pc, n) == Readers(s.pc, n))
            && (s.pc[t].Release? ==> Dropped(s, s', n, t))
  {
    StepKeepsInv(s, t, TryGet);
    assert PcOk(s, t) && NodeOk(s, n);
    assert !IsListed(s.status, n);
    if s.head.To? {
      HeadIsListed(s);
    }
    var others := Readers(s.pc, n) - {t};
    if others != {} {
      var u :| u in others;
      SubsetSize({t, u}, Readers(s.pc, n));
    }
  }

  /** Reader t has dropped its reference to the deferred node n. The last one goes on to push it. */
  predicate Dropped(s: State, s': State, n: nat, t: nat) {
    if Readers(s.pc, n) == {t} then
      t < |s'.pc| && s'.pc[t].PushLoad? && s'.pc[t].n == n && n < |s'.status| && s'.status[n] == Pushing(t)
    else
      IsDeferred(s', n) && Readers(s'.pc, n) == Readers(s.pc, n) - {t}
  }

  /** How many operations a reader is from having dropped its node. */
  function ToDrop(pc: Pc): nat {
    if pc.GetNext? then 3 else if pc.PopCas? then 2 else 1
  }

  /** k operations of thread t with everybody else standing still; `call` is what it does if it is idle. */
  function Alone(s: State, t: nat, call: Call, k: nat): State
    decreases k
  {
    if k == 0 || !CanTake(s, t, call) then s else Alone(Step(s, t, call), t, call, k - 1)
  }

  /** A deferred add is never forgotten: the node has a reader, and every reader, wherever it is, drops
      the node within three operations of its own; the last one goes on to push it. */
  lemma DeferredAddIsPickedUp(run: seq<State>, n: nat)
    requires Run(run) && IsDeferred(run[|run| - 1], n)
    ensures var s := run[|run| - 1];
            && Readers(s.pc, n) != {}
            && forall t <- Readers(s.pc, n) ::
                 && t < |s.pc| && (s.pc[t].GetNext? || s.pc[t].PopCas? || s.pc[t].Release?)
                 && Dropped(s, Alone(s, t, TryGet, ToDrop(s.pc[t])), n, t)
  {
    RunKeepsInv(run);
    var s := run[|run| - 1];
    DeferredHasReader(s, n);
    forall t <- Readers(s.pc, n)
      ensures t < |s.pc| && (s.pc[t].GetNext? || s.pc[t].PopCas? || s.pc[t].Release?)
      ensures Dropped(s, Alone(s, t, TryGet, ToDrop(s.pc[t])), n, t)
    {
      ReaderDrops(s, n, t);
    }
  }

  lemma ReaderDrops(s: State, n: nat, t: nat)
    requires Inv(s) && IsDeferred(s, n) && t in Readers(s.pc, n)
    ensures s.pc[t].GetNext? || s.pc[t].PopCas? || s.pc[t].Release?
    ensures Dropped(s, Alone(s, t, TryGet, ToDrop(s.pc[t])), n, t)
    decreases ToDrop(s.pc[t])
  {
    DeferredReaderSteps(s, n, t);
    var s' := Step(s, t, TryGet);
    if s.pc[t].Release? {
      assert Alone(s, t, TryGet, 1) == Alone(s', t, TryGet, 0) == s';
    } else {
      ReaderDrops(s', n, t);
      assert s.pc[t].GetNext? ==> Alone(s, t, TryGet, 3) == Alone(s', t, TryGet, 2);
      assert s.pc[t].PopCas? ==> Alone(s, t, TryGet, 2) == Alone(s', t, TryGet, 1);
    }
  }

  // ------------------------------------------------------------ whole calls

  /** In a quiet state a node on the list has the list's reference and no other. */
  lemma QuietHead(s: State)
    requires Inv(s) && Quiet(s) && s.head.To?
    ensures var n := s.head.node;
            && n < |s.refs| && s.refs[n] == 1 && s.status[n] == Listed && s.next[n] == Walk(s, 1)
            && s.chain != [] && s.chain[0] == n
  {
    var n := s.head.node;
    HeadIsListed(s);
    assert NodeOk(s, n) && Readers(s.pc, n) == {};
    assert Walk(s, 0) == s.head;
  }

  /** What a lone try_get makes of a list that is not empty. */
  function HandedOver(s: State, n: nat): State
    requires n < |s.refs| && n < |s.status| && n < |s.gets| && n < |s.next| && s.chain != []
  {
    s.(refs := s.refs[n := 0], head := s.next[n], status := s.status[n := Owned],
       chain := s.chain[1..], gets := s.gets[n := s.gets[n] + 1])
  }

  lemma OneAlone(s: State, t: nat, call: Call, k: nat, s': State)
    requires Inv(s) && CanTake(s, t, call) && s' == Step(s, t, call)
    ensures Alone(s, t, call, k + 1) == Alone(s', t, call, k) && Inv(s')
  {
    StepKeepsInv(s, t, call);
  }

  /** From its start to the count of its reference, on a list that is not empty. */
  lemma LoneGetCounts(s: State, t: nat, n: nat, k: nat)
    requires Inv(s) && t < |s.pc| && s.pc[t] == Idle && s.head == To(n) && s.refs[n] == 1
    ensures var r := s.(pc := s.pc[t := GetNext(n)], refs := s.refs[n := 2]);
            Inv(r) && Alone(s, t, TryGet, k + 4) == Alone(r, t, TryGet, k)
  {
    var s1, s2 := s.(pc := s.pc[t := GetLoad]), s.(pc := s.pc[t := GetRefs(n)]);
    var s3, r := s.(pc := s.pc[t := GetCas(n, 1)]), s.(pc := s.pc[t := GetNext(n)], refs := s.refs[n := 2]);
    OneAlone(s, t, TryGet, k + 3, s1);
    OneAlone(s1, t, TryGet, k + 2, s2);
    OneAlone(s2, t, TryGet, k + 1, s3);
    OneAlone(s3, t, TryGet, k, r);
  }

  /** From there to its return. */
  lemma LoneGetPops(s: State, t: nat, n: nat, k: nat)
    requires k == 3
    requires Inv(s) && t < |s.pc| && s.pc[t] == GetNext(n) && s.head == To(n) && s.refs[n] == 2 && s.chain != []
    ensures Alone(s, t, TryGet, k) == HandedOver(s.(pc := s.pc[t := Idle]), n)
  {
    var s1 := s.(pc := s.pc[t := PopCas(n, s.next[n])]);
    var s2 := s.(pc := s.pc[t := PopDone(n)], head := s.next[n], status := s.status[n := Popped(t)],
                 chain := s.chain[1..]);
    var r := HandedOver(s.(pc := s.pc[t := Idle]), n);
    OneAlone(s, t, TryGet, k - 1, s1);
    OneAlone(s1, t, TryGet, k - 2, s2);
    assert r.status == s2.status[n := Owned];
    OneAlone(s2, t, TryGet, k - 3, r);
  }

  lemma LoneGetOnEmptyList(s: State, t: nat, k: nat)
    requires Inv(s) && t < |s.pc| && s.pc[t] == Idle && s.head == Null && k == 2
    ensures Alone(s, t, TryGet, k) == s
  {
    var s1 := s.(pc := s.pc[t := GetLoad]);
    OneAlone(s, t, TryGet, k - 1, s1);
    SeqUpdates(s.pc, t, GetLoad, Idle);
    OneAlone(s1, t, TryGet, k - 2, s);
  }

  /** One thread's detour over another program point and reference word leaves no trace. */
  lemma SeqUpdates<T>(a: seq<T>, i: nat, x: T, y: T)
    requires i < |a|
    ensures a[i := x][i := y] == a[i := y]
    ensures a[i] == y ==> a[i := x][i := y] == a
  {
  }

  lemma HandedOverAfterwards(s: State, t: nat, n: nat)
    requires t < |s.pc| && s.pc[t] == Idle && s.chain != []
    requires n < |s.refs| && n < |s.status| && n < |s.gets| && n < |s.next|
    ensures var r := s.(pc := s.pc[t := GetNext(n)], refs := s.refs[n := 2]);
            HandedOver(r.(pc := r.pc[t := Idle]), n) == HandedOver(s, n)
  {
    SeqUpdates(s.pc, t, GetNext(n), Idle);
    SeqUpdates(s.refs, n, 2, 0);
  }

  lemma LoneGetOnList(s: State, t: nat, n: nat, k: nat)
    requires k == 7
    requires Inv(s) && t < |s.pc| && s.pc[t] == Idle && s.head == To(n) && s.chain != []
    requires n < |s.refs| && n < |s.status| && n < |s.gets| && n < |s.next| && s.refs[n] == 1
    ensures Alone(s, t, TryGet, k) == HandedOver(s, n)
  {
    LoneGetCounts(s, t, n, k - 4);
    LoneGetPops(s.(pc := s.pc[t := GetNext(n)], refs := s.refs[n := 2]), t, n, k - 4);
    HandedOverAfterwards(s, t, n);
  }

  lemma LoneGetOnQuietList(s: State, t: nat, k: nat)
    requires k == 7
    requires Inv(s) && Quiet(s) && t < |s.pc| && s.head.To?
    ensures var n := s.head.node;
            && n < |s.refs| && n < |s.status| && n < |s.gets| && n < |s.next| && s.chain != []
            && s.next[n] == Walk(s, 1) && Alone(s, t, TryGet, k) == HandedOver(s, n)
  {
    QuietHead(s);
    LoneGetOnList(s, t, s.head.node, k);
  }

  /** From s to r node n has been handed out: nobody has a reference to it, and the head is the node that
      followed it. */
  predicate TookFirst(s: State, r: State, n: nat) {
    && n < |s.gets| && n < |s.status| && n < |s.refs|
    && r.pc == s.pc && r.head == Walk(s, 1) && r.next == s.next && r.adds == s.adds
    && r.gets == s.gets[n := s.gets[n] + 1]
    && r.status == s.status[n := Owned] && r.refs == s.refs[n := 0]
  }

  lemma LoneGetTakesFirst(s: State, t: nat, k: nat)
    requires Inv(s) && Quiet(s) && t < |s.pc| && s.head.To? && k == 7
    ensures TookFirst(s, Alone(s, t, TryGet, k), s.head.node)
  {
    LoneGetOnQuietList(s, t, k);
  }

  /** A lone try_get on a list that is not empty hands out its first node, in seven operations. On an
      empty list it ends after two operations that change nothing. */
  lemma LoneTryGet(run: seq<State>, t: nat, k: nat)
    requires Run(run) && Quiet(run[|run| - 1]) && t < |run[|run| - 1].pc|
    requires k == if run[|run| - 1].head == Null then 2 else 7
    ensures var s := run[|run| - 1]; var r := Alone(s, t, TryGet, k);
            if s.head == Null then r == s else TookFirst(s, r, s.head.node)
  {
    RunKeepsInv(run);
    if run[|run| - 1].head == Null {
      LoneGetOnEmptyList(run[|run| - 1], t, k);
    } else {
      LoneGetTakesFirst(run[|run| - 1], t, k);
    }
  }

  /** From the call of add to the link. */
  lemma LoneAddLinks(s: State, t: nat, n: nat, k: nat)
    requires Inv(s) && t < |s.pc| && s.pc[t] == Idle && n < |s.refs| && s.status[n] == Owned && s.refs[n] == 0
    ensures var r := s.(pc := s.pc[t := PushArm(n, s.head, Return)], refs := s.refs[n := SHOULD_BE_ON_FREELIST],
                        next := s.next[n := s.head], status := s.status[n := Pushing(t)],
                        adds := s.adds[n := s.adds[n] + 1]);
            Inv(r) && Alone(s, t, Add(n), k + 4) == Alone(r, t, Add(n), k)
  {
    var s1 := s.(pc := s.pc[t := Adding(n)], status := s.status[n := Called(t)], adds := s.adds[n := s.adds[n] + 1]);
    var s2 := s1.(pc := s.pc[t := PushLoad(n, Return)], refs := s.refs[n := SHOULD_BE_ON_FREELIST],
                  status := s.status[n := Pushing(t)]);
    var s3 := s2.(pc := s.pc[t := PushLink(n, s.head, Return)]);
    var r := s3.(pc := s.pc[t := PushArm(n, s.head, Return)], next := s.next[n := s.head]);
    OneAlone(s, t, Add(n), k + 3, s1);
    assert s1.status[n := Pushing(t)] == s.status[n := Pushing(t)] && s1.pc[t := s2.pc[t]] == s2.pc;
    OneAlone(s1, t, Add(n), k + 2, s2);
    OneAlone(s2, t, Add(n), k + 1, s3);
    OneAlone(s3, t, Add(n), k, r);
  }

  lemma LoneAddSwings(s: State, t: nat, n: nat, k: nat)
    requires k == 2
    requires Inv(s) && t < |s.pc| && n < |s.refs| && s.pc[t] == PushArm(n, s.head, Return)
    ensures Alone(s, t, Add(n), k)
         == s.(pc := s.pc[t := Idle], refs := s.refs[n := 1], head := To(n), status := s.status[n := Listed],
               chain := [n] + s.chain)
  {
    var s1 := s.(pc := s.pc[t := PushCas(n, s.head, Return)], refs := s.refs[n := 1],
                 status := s.status[n := Armed(t)]);
    var r := s.(pc := s.pc[t := Idle], refs := s.refs[n := 1], head := To(n), status := s.status[n := Listed],
                chain := [n] + s.chain);
    OneAlone(s, t, Add(n), k - 1, s1);
    assert s1.status[n := Listed] == s.status[n := Listed] && s1.pc[t := Idle] == s.pc[t := Idle];
    OneAlone(s1, t, Add(n), k - 2, r);
  }

  /** A lone add of a node that its caller owns ends after six operations with the node in front of the
      list, the list holding the only reference. */
  lemma LoneAdd(run: seq<State>, t: nat, n: nat, k: nat)
    requires k == 6
    requires Run(run) && Quiet(run[|run| - 1]) && t < |run[|run| - 1].pc|
    requires n < |run[|run| - 1].status| && run[|run| - 1].status[n] == Owned
    ensures var s := run[|run| - 1]; var r := Alone(s, t, Add(n), k);
            && n < |s.refs| && n < |s.adds| && n < |s.next|
            && r.pc == s.pc && r.head == To(n) && r.next == s.next[n := s.head] && r.gets == s.gets
            && r.adds == s.adds[n := s.adds[n] + 1]
            && r.status == s.status[n := Listed] && r.refs == s.refs[n := 1]
  {
    RunKeepsInv(run);
    var s := run[|run| - 1];
    LoneAddOfOwned(s, t, n, k);
  }

  /** What a lone add makes of the list. */
  function AddedTo(s: State, n: nat): State
    requires n < |s.refs| && n < |s.next| && n < |s.status| && n < |s.adds|
  {
    s.(refs := s.refs[n := 1], next := s.next[n := s.head], head := To(n), status := s.status[n := Listed],
       chain := [n] + s.chain, adds := s.adds[n := s.adds[n] + 1])
  }

  lemma LoneAddOfFree(s: State, t: nat, n: nat, k: nat)
    requires k == 6
    requires Inv(s) && t < |s.pc| && s.pc[t] == Idle
    requires n < |s.refs| && n < |s.next| && n < |s.status| && n < |s.adds| && s.status[n] == Owned && s.refs[n] == 0
    ensures Alone(s, t, Add(n), k) == AddedTo(s, n)
  {
    LoneAddLinks(s, t, n, k - 4);
    var m := s.(pc := s.pc[t := PushArm(n, s.head, Return)], refs := s.refs[n := SHOULD_BE_ON_FREELIST],
                next := s.next[n := s.head], status := s.status[n := Pushing(t)],
                        adds := s.adds[n := s.adds[n] + 1]);
    LoneAddSwings(m, t, n, k - 4);
    SeqUpdates(s.pc, t, PushArm(n, s.head, Return), Idle);
    SeqUpdates(s.refs, n, SHOULD_BE_ON_FREELIST, 1);
    SeqUpdates(s.status, n, Pushing(t), Listed);
  }

  lemma LoneAddOfOwned(s: State, t: nat, n: nat, k: nat)
    requires k == 6
    requires Inv(s) && Quiet(s) && t < |s.pc| && n < |s.status| && s.status[n] == Owned
    ensures n < |s.refs| && n < |s.adds| && n < |s.next| && Alone(s, t, Add(n), k) == AddedTo(s, n)
  {
    assert NodeOk(s, n) && Readers(s.pc, n) == {};
    LoneAddOfFree(s, t, n, k);
  }

  // ------------------------------------------- a try_get that comes back empty-handed

  /** A call of try_get by thread t, from step i to step j. */
  ghost predicate GetSpans(run: seq<State>, t: nat, i: nat, j: nat) {
    && i + 1 < j < |run|
    && (forall k: nat | i <= k <= j :: t < |run[k].pc|)
    && run[i].pc[t] == Idle == run[j].pc[t] && run[i + 1].pc[t] == GetLoad
    && forall k: nat | i < k < j :: run[k].pc[t] != Idle
  }

  /** The head value the thread goes on with is null. */
  predicate HasNull(pc: Pc) {
    || (pc.Release? && pc.cur == Null)
    || ((pc.PushLoad? || pc.PushLink? || pc.PushArm? || pc.PushCas? || pc.PushRetry?) && pc.back == Resume(Null))
  }

  /** Where a thread may be inside try_get. */
  predicate InGet(pc: Pc) {
    match pc
    case Idle => false
    case Adding(_) => false
    case PushLoad(_, back) => back.Resume?
    case PushLink(_, _, back) => back.Resume?
    case PushArm(_, _, back) => back.Resume?
    case PushCas(_, _, back) => back.Resume?
    case PushRetry(_, _, back) => back.Resume?
    case _ => true
  }

  /** A step inside try_get ends it with a node, or with a head value that was null. */
  lemma GetStepSees(s: State, t: nat, call: Call)
    requires CanTake(s, t, call) && InGet(s.pc[t])
    ensures var s' := Step(s, t, call);
            && t < |s'.pc|
            && (if s'.pc[t] == Idle then s.pc[t].PopDone? || s.head == Null || HasNull(s.pc[t])
                else InGet(s'.pc[t]) && (HasNull(s'.pc[t]) ==> s.head == Null || HasNull(s.pc[t])))
  {
  }

  lemma OthersLeavePc(s: State, u: nat, call: Call, t: nat)
    requires CanTake(s, u, call) && t < |s.pc| && u != t
    ensures t < |Step(s, u, call).pc| && Step(s, u, call).pc[t] == s.pc[t]
  {
  }

  lemma GetAtSees(run: seq<State>, t: nat, k: nat)
    requires Run(run) && k + 1 < |run| && t < |run[k].pc| && InGet(run[k].pc[t])
    ensures t < |run[k + 1].pc|
    ensures var pc, pc' := run[k].pc[t], run[k + 1].pc[t];
            if pc' == Idle then pc.PopDone? || run[k].head == Null || HasNull(pc)
            else InGet(pc') && (HasNull(pc') ==> run[k].head == Null || HasNull(pc))
  {
    var u, call := RunStep(run, k);
    if u == t {
      GetStepSees(run[k], t, call);
    } else {
      OthersLeavePc(run[k], u, call, t);
    }
  }

  /** The head was null in some state from i up to k. */
  ghost predicate WasNull(run: seq<State>, i: nat, k: nat) {
    exists m: nat :: i <= m <= k && m < |run| && run[m].head == Null
  }

  lemma {:induction false} GetStaysInGet(run: seq<State>, t: nat, i: nat, j: nat, k: nat)
    requires Run(run) && GetSpans(run, t, i, j) && i < k < j
    ensures InGet(run[k].pc[t]) && (HasNull(run[k].pc[t]) ==> WasNull(run, i, k))
  {
    if k > i + 1 {
      GetStaysInGet(run, t, i, j, k - 1);
      GetAtSees(run, t, k - 1);
      if HasNull(run[k].pc[t]) && run[k - 1].head == Null {
        assert WasNull(run, i, k);
      }
    }
  }

  /** A try_get comes back without a node only if it saw the list empty: in some state during the call
      the head was null. */
  lemma EmptyHandedSawNull(run: seq<State>, t: nat, i: nat, j: nat)
    requires Run(run) && GetSpans(run, t, i, j) && !run[j - 1].pc[t].PopDone?
    ensures exists m: nat :: i <= m < j && run[m].head == Null
  {
    GetStaysInGet(run, t, i, j, j - 1);
    GetAtSees(run, t, j - 1);
  }
}
