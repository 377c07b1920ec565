/**
 The four counters with which the consumers of one sub-queue agree on who takes which element:
 tailIndex, headIndex, dequeueOptimisticCount and dequeueOvercommit. Any number of consumers run
 dequeue and dequeue_bulk against one producer; every atomic operation is one step. A consumer
 decides from values that may be stale by the time it acts.

 dequeue is dequeue_bulk with max = 1: same loads, same fetch_adds, same comparisons.

 Proof idea. A ticket is a unit of dequeueOptimisticCount. The overcommit a consumer has read counts
 units given up by tickets smaller than its own, so among the units up to its last winning one at
 most `tail` can still be worth an element; giving up more units later only helps.
 */
module OptimisticDequeue {
  import opened Arith

  datatype Pc =
    | Idle
    | GotTail(max: nat, tail: nat)              // loaded tailIndex
    | GotOver(max: nat, tail: nat, over: nat)   // loaded dequeueOvercommit
    | Commit(want: nat, over: nat)              // decided to try for `want` elements
    | Check(want: nat, over: nat, my: nat)      // drew the tickets [my, my + want)
    | Refund(want: nat, my: nat, got: nat)      // won some, gives the others up first
    | Take(my: nat, got: nat)                   // won `got`, about to advance headIndex
    | Fail(want: nat, my: nat)                  // won none, gives all up

  /** The fate of one ticket, with the consumer that still has to act on it. */
  datatype Unit =
    | Undecided(t: nat)
    | Won(t: nat)          // entitles to an element, headIndex not advanced for it yet
    | Claimed              // counted in headIndex
    | Lost(t: nat)         // given up, dequeueOvercommit not advanced for it yet
    | Refunded             // counted in dequeueOvercommit
  {
    predicate GivenUp() { Lost? || Refunded? }
    predicate Worth() { Won? || Claimed? }
    predicate Pending() { Undecided? || Won? || Lost? }
  }

  /** `units` and `takers` (who took element i) are history. */
  datatype State = State(
    tail: nat, head: nat, optimistic: nat, overcommit: nat, pc: seq<Pc>,
    units: seq<Unit>, takers: seq<nat>)

  // ---------------------------------------------------------------- steps

  function Repeat<T>(x: T, n: nat): seq<T> {
    seq(n, _ => x)
  }

  /** units with [lo, lo + n) overwritten. */
  function Mark(units: seq<Unit>, lo: nat, n: nat, x: Unit): seq<Unit> {
    seq(|units|, i requires 0 <= i < |units| => if lo <= i < lo + n then x else units[i])
  }

  /** The tickets a consumer still has to act on. */
  predicate Holds(units: seq<Unit>, t: nat, pc: Pc) {
    match pc
    case Check(want, _, my) => AllAre(units, my, my + want, Undecided(t))
    case Refund(want, my, got) =>
      got <= want && AllAre(units, my, my + got, Won(t)) && AllAre(units, my + got, my + want, Lost(t))
    case Take(my, got) => AllAre(units, my, my + got, Won(t))
    case Fail(want, my) => AllAre(units, my, my + want, Lost(t))
    case _ => true
  }

  predicate AllAre(units: seq<Unit>, lo: nat, hi: nat, x: Unit) {
    lo <= hi <= |units| && forall i | lo <= i < hi :: units[i] == x
  }

  /** Of the tickets [my, my + want) the first `got` win. */
  function Decided(units: seq<Unit>, t: nat, want: nat, my: nat, got: nat): seq<Unit>
    requires got <= want
  {
    Mark(Mark(units, my, got, Won(t)), my + got, want - got, Lost(t))
  }

  /** The next atomic operation of consumer t; `max` is the argument of a call that starts here. */
  function Step(s: State, t: nat, max: nat): State
    requires t < |s.pc| && Holds(s.units, t, s.pc[t])
  {
    match s.pc[t]
    case Idle => s.(pc := s.pc[t := GotTail(max, s.tail)])
    case GotTail(m, tail) => s.(pc := s.pc[t := GotOver(m, tail, s.overcommit)])
    case GotOver(m, tail, over) =>
      var want := tail - (s.optimistic - over);
      s.(pc := s.pc[t := if want > 0 then Commit(Min(want, m), over) else Idle])
    case Commit(want, over) =>
      s.(pc := s.pc[t := Check(want, over, s.optimistic)], optimistic := s.optimistic + want,
         units := s.units + Repeat(Undecided(t), want))
    case Check(want, over, my) =>
      var actual := s.tail - (my - over);
      var got := if actual > 0 then Min(want, actual) else 0;
      s.(pc := s.pc[t :=
             if actual <= 0 then Fail(want, my) else if got < want then Refund(want, my, got) else Take(my, got)],
         units := Decided(s.units, t, want, my, got))
    case Refund(want, my, got) =>
      s.(pc := s.pc[t := Take(my, got)], overcommit := s.overcommit + (want - got),
         units := Mark(s.units, my + got, want - got, Refunded))
    case Take(my, got) =>
      s.(pc := s.pc[t := Idle], head := s.head + got, units := Mark(s.units, my, got, Claimed),
         takers := s.takers + Repeat(t, got))
    case Fail(want, my) =>
      s.(pc := s.pc[t := Idle], overcommit := s.overcommit + want, units := Mark(s.units, my, want, Refunded))
  }

  /** The producer publishes n more elements. */
  function Publish(s: State, n: nat): State {
    s.(tail := s.tail + n)
  }

  predicate Init(s: State) {
    && s.tail == s.head == s.optimistic == s.overcommit == 0
    && s.units == [] && s.takers == []
    && forall t | 0 <= t < |s.pc| :: s.pc[t] == Idle
  }

  ghost predicate Next(s: State, s': State) {
    || (exists t: nat, max: nat :: t < |s.pc| && Holds(s.units, t, s.pc[t]) && s' == Step(s, t, max))
    || (exists n: nat :: s' == Publish(s, n))
  }

  ghost predicate NextAt(run: seq<State>, i: nat) {
    i + 1 < |run| ==> Next(run[i], run[i + 1])
  }

  ghost predicate Run(run: seq<State>) {
    && |run| > 0
    && Init(run[0])
    && forall i: nat :: NextAt(run, i)
  }

  // -------------------------------------------------------------- counting

  function Count(f: Unit -> bool, units: seq<Unit>): (r: nat)
    ensures r <= |units|
  {
    if units == [] then 0
    else Count(f, units[..|units| - 1]) + if f(units[|units| - 1]) then 1 else 0
  }

  function GivenUp(): Unit -> bool { (u: Unit) => u.GivenUp() }
  function Worth(): Unit -> bool { (u: Unit) => u.Worth() }
  function IsClaimed(): Unit -> bool { (u: Unit) => u.Claimed? }
  function IsRefunded(): Unit -> bool { (u: Unit) => u.Refunded? }

  lemma {:induction false} CountConcat(f: Unit -> bool, a: seq<Unit>, b: seq<Unit>)
    ensures Count(f, a + b) == Count(f, a) + Count(f, b)
  {
    if b == [] {
      assert a + b == a;
    } else {
      assert (a + b)[..|a + b| - 1] == a + b[..|b| - 1];
      CountConcat(f, a, b[..|b| - 1]);
    }
  }

  lemma {:induction false} CountUniform(f: Unit -> bool, a: seq<Unit>, x: Unit)
    requires forall i | 0 <= i < |a| :: a[i] == x
    ensures Count(f, a) == if f(x) then |a| else 0
  {
    if a != [] {
      CountUniform(f, a[..|a| - 1], x);
    }
  }

  /** Overwriting a uniform stretch moves the count by its length at most. */
  lemma CountMark(f: Unit -> bool, units: seq<Unit>, lo: nat, n: nat, was: Unit, x: Unit)
    requires AllAre(units, lo, lo + n, was)
    ensures Count(f, Mark(units, lo, n, x))
         == Count(f, units) - (if f(was) then n else 0) + (if f(x) then n else 0)
  {
    var a, b, c := units[..lo], units[lo..lo + n], units[lo + n..];
    assert units == a + b + c && Mark(units, lo, n, x) == a + Repeat(x, n) + c;
    CountConcat(f, a + b, c);
    CountConcat(f, a, b);
    CountConcat(f, a + Repeat(x, n), c);
    CountConcat(f, a, Repeat(x, n));
    CountUniform(f, b, was);
    CountUniform(f, Repeat(x, n), x);
  }

  lemma {:induction false} CountGrows(f: Unit -> bool, g: Unit -> bool, a: seq<Unit>, b: seq<Unit>)
    requires |a| == |b| && forall i | 0 <= i < |a| :: f(a[i]) ==> g(b[i])
    ensures Count(f, a) <= Count(g, b)
  {
    if a != [] {
      CountGrows(f, g, a[..|a| - 1], b[..|b| - 1]);
    }
  }

  /** Units worth an element and units given up are different units. */
  lemma {:induction false} CountDisjoint(units: seq<Unit>)
    ensures Count(Worth(), units) + Count(GivenUp(), units) <= |units|
  {
    if units != [] {
      CountDisjoint(units[..|units| - 1]);
    }
  }

  // ------------------------------------------------------------ invariant

  /** Even if every undecided ticket up to u won, the elements would suffice. */
  predicate Covered(units: seq<Unit>, tail: nat, u: nat) {
    u < |units| && u + 1 - Count(GivenUp(), units[..u + 1]) <= tail
  }

  predicate ThreadOk(units: seq<Unit>, t: nat, pc: Pc) {
    && Holds(units, t, pc)
    && match pc
       case GotOver(_, _, over) => over <= Count(GivenUp(), units)
       case Commit(_, over) => over <= Count(GivenUp(), units)
       case Check(_, over, my) => my <= |units| && over <= Count(GivenUp(), units[..my])
       case _ => true
  }

  /** The tickets a program point accounts for. */
  predicate Covers(pc: Pc, u: nat) {
    match pc
    case Check(want, _, my) => my <= u < my + want
    case Refund(want, my, _) => my <= u < my + want
    case Take(my, got) => my <= u < my + got
    case Fail(want, my) => my <= u < my + want
    case _ => false
  }

  predicate UnitOk(s: State, u: nat) {
    && u < |s.units|
    && (s.units[u].Worth() ==> Covered(s.units, s.tail, u))
    && (s.units[u].Pending() ==> s.units[u].t < |s.pc| && Covers(s.pc[s.units[u].t], u))
  }

  /** dequeueOvercommit and headIndex count the tickets given up and claimed. */
  predicate CountsAgree(s: State) {
    Count(IsRefunded(), s.units) == s.overcommit && Count(IsClaimed(), s.units) == s.head == |s.takers|
  }

  ghost predicate Inv(s: State) {
    && |s.units| == s.optimistic
    && CountsAgree(s)
    && (forall t: nat | t < |s.pc| :: ThreadOk(s.units, t, s.pc[t]))
    && (forall u: nat | u < |s.units| :: UnitOk(s, u))
  }

  /** How one step of consumer t may rewrite the fates of existing tickets. */
  ghost predicate Evolves(a: seq<Unit>, b: seq<Unit>, t: nat) {
    && |a| <= |b|
    && (forall i | 0 <= i < |a| :: b[i] != a[i] ==> a[i].Pending() && a[i].t == t)
    && (forall i | 0 <= i < |a| :: a[i].GivenUp() ==> b[i].GivenUp())
  }

  lemma StepEvolves(s: State, t: nat, max: nat)
    requires t < |s.pc| && Holds(s.units, t, s.pc[t])
    ensures Evolves(s.units, Step(s, t, max).units, t)
  {
  }

  lemma PrefixGivenUpGrows(a: seq<Unit>, b: seq<Unit>, t: nat, n: nat)
    requires Evolves(a, b, t) && n <= |a|
    ensures Count(GivenUp(), a[..n]) <= Count(GivenUp(), b[..n])
  {
    CountGrows(GivenUp(), GivenUp(), a[..n], b[..n]);
  }

  lemma GivenUpGrows(a: seq<Unit>, b: seq<Unit>, t: nat)
    requires Evolves(a, b, t)
    ensures Count(GivenUp(), a) <= Count(GivenUp(), b)
  {
    PrefixGivenUpGrows(a, b, t, |a|);
    assert a[..|a|] == a && b == b[..|a|] + b[|a|..];
    CountConcat(GivenUp(), b[..|a|], b[|a|..]);
  }

  /** Other consumers keep their tickets and what they know. */
  lemma OthersStayOk(a: seq<Unit>, b: seq<Unit>, t: nat, v: nat, pc: Pc)
    requires Evolves(a, b, t) && v != t && ThreadOk(a, v, pc)
    ensures ThreadOk(b, v, pc)
  {
    GivenUpGrows(a, b, t);
    if pc.Check? {
      PrefixGivenUpGrows(a, b, t, pc.my);
    }
  }

  lemma OwnStaysOk(s: State, t: nat, max: nat)
    requires Inv(s) && t < |s.pc| && ThreadOk(s.units, t, s.pc[t])
    ensures var s' := Step(s, t, max); t < |s'.pc| && ThreadOk(s'.units, t, s'.pc[t])
  {
    match s.pc[t]
    case GotTail(_, _) => CountGrows(IsRefunded(), GivenUp(), s.units, s.units);
    case Commit(want, _) => assert (s.units + Repeat(Undecided(t), want))[..|s.units|] == s.units;
    case _ =>
  }

  lemma LongerPrefixCountsMore(f: Unit -> bool, units: seq<Unit>, m: nat, n: nat)
    requires m <= n <= |units|
    ensures Count(f, units[..m]) <= Count(f, units[..n])
  {
    assert units[..n] == units[..m] + units[m..n];
    CountConcat(f, units[..m], units[m..n]);
  }

  /** The decisive step: the tickets that win now are covered by the tail just read, since as many
      tickets before them have been given up as the overcommit that was read says. */
  lemma WinnersAreCovered(units: seq<Unit>, tail: nat, t: nat, want: nat, over: nat, my: nat, got: nat, u: nat)
    requires AllAre(units, my, my + want, Undecided(t)) && over <= Count(GivenUp(), units[..my])
    requires got <= want && my + got <= tail + over && my <= u < my + got
    ensures Covered(Decided(units, t, want, my, got), tail, u)
  {
    var units' := Decided(units, t, want, my, got);
    assert units'[..my] == units[..my];
    LongerPrefixCountsMore(GivenUp(), units', my, u + 1);
  }

  /** A ticket that is worth an element after a step was so before, or has just won. */
  lemma StepWorth(s: State, t: nat, max: nat, u: nat)
    requires t < |s.pc| && ThreadOk(s.units, t, s.pc[t]) && u < |s.units|
    requires var s' := Step(s, t, max); u < |s'.units| && s'.units[u].Worth() && !s.units[u].Worth()
    ensures Covered(Step(s, t, max).units, s.tail, u)
  {
    assert s.pc[t].Check?;
    var want, over, my := s.pc[t].want, s.pc[t].over, s.pc[t].my;
    var actual := s.tail - (my - over);
    WinnersAreCovered(s.units, s.tail, t, want, over, my, if actual > 0 then Min(want, actual) else 0, u);
  }

  lemma StepPending(s: State, t: nat, max: nat, u: nat)
    requires t < |s.pc| && ThreadOk(s.units, t, s.pc[t]) && |s.units| == s.optimistic
    requires u < |s.units| ==> UnitOk(s, u)
    requires var s' := Step(s, t, max); u < |s'.units| && s'.units[u].Pending()
    ensures var s' := Step(s, t, max); s'.units[u].t < |s'.pc| && Covers(s'.pc[s'.units[u].t], u)
  {
  }

  lemma StepUnit(s: State, t: nat, max: nat, u: nat)
    requires t < |s.pc| && ThreadOk(s.units, t, s.pc[t])
    requires u < |s.units| ==> UnitOk(s, u)
    requires |s.units| == s.optimistic && u < |Step(s, t, max).units|
    ensures UnitOk(Step(s, t, max), u)
  {
    var s' := Step(s, t, max);
    StepEvolves(s, t, max);
    if s'.units[u].Pending() {
      StepPending(s, t, max, u);
    }
    if s'.units[u].Worth() {
      if s.units[u].Worth() {
        PrefixGivenUpGrows(s.units, s'.units, t, u + 1);
      } else {
        StepWorth(s, t, max, u);
      }
    }
  }

  lemma CommitCounters(units: seq<Unit>, t: nat, want: nat)
    ensures var units' := units + Repeat(Undecided(t), want);
            && Count(IsRefunded(), units') == Count(IsRefunded(), units)
            && Count(IsClaimed(), units') == Count(IsClaimed(), units)
  {
    var drawn := Repeat(Undecided(t), want);
    CountConcat(IsRefunded(), units, drawn);
    CountConcat(IsClaimed(), units, drawn);
    CountUniform(IsRefunded(), drawn, Undecided(t));
    CountUniform(IsClaimed(), drawn, Undecided(t));
  }

  lemma CheckCounters(units: seq<Unit>, t: nat, want: nat, my: nat, got: nat)
    requires AllAre(units, my, my + want, Undecided(t)) && got <= want
    ensures var units' := Decided(units, t, want, my, got);
            && Count(IsRefunded(), units') == Count(IsRefunded(), units)
            && Count(IsClaimed(), units') == Count(IsClaimed(), units)
  {
    MarkCounters(units, my, got, Undecided(t), Won(t));
    MarkCounters(Mark(units, my, got, Won(t)), my + got, want - got, Undecided(t), Lost(t));
  }

  lemma CommitKeepsCounts(s: State, t: nat, max: nat)
    requires t < |s.pc| && Holds(s.units, t, s.pc[t]) && CountsAgree(s) && (s.pc[t].Commit? || s.pc[t].Check?)
    ensures CountsAgree(Step(s, t, max))
  {
    match s.pc[t]
    case Commit(want, over) => CommitCounters(s.units, t, want);
    case Check(want, over, my) =>
      var actual := s.tail - (my - over);
      CheckCounters(s.units, t, want, my, if actual > 0 then Min(want, actual) else 0);
  }

  lemma RefundKeepsCounts(s: State, t: nat, max: nat)
    requires t < |s.pc| && Holds(s.units, t, s.pc[t]) && CountsAgree(s) && (s.pc[t].Refund? || s.pc[t].Fail?)
    ensures CountsAgree(Step(s, t, max))
  {
    match s.pc[t]
    case Refund(want, my, got) => MarkCounters(s.units, my + got, want - got, Lost(t), Refunded);
    case Fail(want, my) => MarkCounters(s.units, my, want, Lost(t), Refunded);
  }

  lemma TakeKeepsCounts(s: State, t: nat, max: nat)
    requires t < |s.pc| && Holds(s.units, t, s.pc[t]) && CountsAgree(s) && s.pc[t].Take?
    ensures CountsAgree(Step(s, t, max))
  {
    MarkCounters(s.units, s.pc[t].my, s.pc[t].got, Won(t), Claimed);
  }

  lemma StepKeepsCounts(s: State, t: nat, max: nat)
    requires t < |s.pc| && Holds(s.units, t, s.pc[t]) && CountsAgree(s)
    ensures CountsAgree(Step(s, t, max))
  {
    match s.pc[t]
    case Commit(_, _) => CommitKeepsCounts(s, t, max);
    case Check(_, _, _) => CommitKeepsCounts(s, t, max);
    case Refund(_, _, _) => RefundKeepsCounts(s, t, max);
    case Fail(_, _) => RefundKeepsCounts(s, t, max);
    case Take(_, _) => TakeKeepsCounts(s, t, max);
    case _ =>
  }

  lemma MarkCounters(units: seq<Unit>, lo: nat, n: nat, was: Unit, x: Unit)
    requires AllAre(units, lo, lo + n, was) && was.Pending()
    ensures Count(IsRefunded(), Mark(units, lo, n, x)) == Count(IsRefunded(), units) + if x.Refunded? then n else 0
    ensures Count(IsClaimed(), Mark(units, lo, n, x)) == Count(IsClaimed(), units) + if x.Claimed? then n else 0
  {
    CountMark(IsRefunded(), units, lo, n, was, x);
    CountMark(IsClaimed(), units, lo, n, was, x);
  }

  lemma StepKeepsInv(s: State, t: nat, max: nat)
    requires Inv(s) && t < |s.pc|
    ensures Holds(s.units, t, s.pc[t]) && Inv(Step(s, t, max))
  {
    assert ThreadOk(s.units, t, s.pc[t]);
    var s' := Step(s, t, max);
    StepKeepsCounts(s, t, max);
    forall v: nat | v < |s'.pc| ensures ThreadOk(s'.units, v, s'.pc[v]) {
      if v == t {
        OwnStaysOk(s, t, max);
      } else {
        assert ThreadOk(s.units, v, s.pc[v]) && s'.pc[v] == s.pc[v];
        StepEvolves(s, t, max);
        OthersStayOk(s.units, s'.units, t, v, s.pc[v]);
      }
    }
    forall u: nat | u < |s'.units| ensures UnitOk(s', u) {
      if u < |s.units| {
        assert UnitOk(s, u);
      }
      StepUnit(s, t, max, u);
    }
  }

  lemma PublishKeepsInv(s: State, n: nat)
    requires Inv(s)
    ensures Inv(Publish(s, n))
  {
    var s' := Publish(s, n);
    forall t: nat | t < |s'.pc| ensures ThreadOk(s'.units, t, s'.pc[t]) {
      assert ThreadOk(s.units, t, s.pc[t]);
    }
    forall u: nat | u < |s'.units| ensures UnitOk(s', u) {
      assert UnitOk(s, u);
    }
  }

  lemma PrefixRuns(run: seq<State>, n: nat)
    requires Run(run) && 0 < n <= |run|
    ensures Run(run[..n])
  {
    forall i: nat ensures NextAt(run[..n], i) {
      assert NextAt(run, i);
    }
  }

  lemma {:induction false} RunKeepsInv(run: seq<State>)
    requires Run(run)
    ensures Inv(run[|run| - 1])
  {
    if |run| > 1 {
      PrefixRuns(run, |run| - 1);
      RunKeepsInv(run[..|run| - 1]);
      var s, s' := run[|run| - 2], run[|run| - 1];
      assert NextAt(run, |run| - 2);
      if n: nat :| s' == Publish(s, n) {
        PublishKeepsInv(s, n);
      } else {
        var t: nat, max: nat :| t < |s.pc| && Holds(s.units, t, s.pc[t]) && s' == Step(s, t, max);
        StepKeepsInv(s, t, max);
      }
    }
  }

  // ------------------------------------------------------------- theorems

  lemma {:induction false} WorthFitsUnderTail(s: State, n: nat)
    requires (forall u: nat | u < |s.units| :: UnitOk(s, u)) && n <= |s.units|
    ensures Count(Worth(), s.units[..n]) <= s.tail
  {
    if n > 0 {
      var prefix := s.units[..n];
      assert prefix[..n - 1] == s.units[..n - 1];
      if prefix[n - 1].Worth() {
        assert UnitOk(s, n - 1);
        CountDisjoint(prefix);
      } else {
        WorthFitsUnderTail(s, n - 1);
      }
    }
  }

  lemma InvBoundsHead(s: State)
    requires Inv(s)
    ensures s.head <= Count(Worth(), s.units) <= s.tail
  {
    CountGrows(IsClaimed(), Worth(), s.units, s.units);
    WorthFitsUnderTail(s, |s.units|);
    assert s.units[..|s.units|] == s.units;
  }

  /** However stale the values the consumers decided from: headIndex never passes tailIndex, and
      there is an element for every ticket that has won but has not advanced headIndex yet. */
  lemma HeadNeverPassesTail(run: seq<State>)
    requires Run(run)
    ensures var s := run[|run| - 1]; s.head <= Count(Worth(), s.units) <= s.tail
  {
    RunKeepsInv(run);
    InvBoundsHead(run[|run| - 1]);
  }

  /** A fetch_add on headIndex hands the consumer exactly the indices [head, head + got): they are
      published, nobody took them before, and nobody else's indices change hands. */
  lemma ClaimIsExclusive(run: seq<State>, t: nat, max: nat)
    requires Run(run)
    requires t < |run[|run| - 1].pc| && run[|run| - 1].pc[t].Take?
    ensures var s := run[|run| - 1]; var got := s.pc[t].got;
            && Holds(s.units, t, s.pc[t])
            && var s' := Step(s, t, max);
            && s'.head == s.head + got <= s.tail
            && |s.takers| == s.head && |s'.takers| == s'.head
            && (forall i | 0 <= i < s.head :: s'.takers[i] == s.takers[i])
            && (forall i | s.head <= i < s'.head :: s'.takers[i] == t)
  {
    RunKeepsInv(run);
    var s := run[|run| - 1];
    StepKeepsInv(s, t, max);
    InvBoundsHead(Step(s, t, max));
  }

  predicate Quiet(s: State) {
    forall t | 0 <= t < |s.pc| :: s.pc[t] == Idle
  }

  lemma {:induction false} ClaimedOrRefunded(units: seq<Unit>)
    requires forall i | 0 <= i < |units| :: units[i].Claimed? || units[i].Refunded?
    ensures Count(IsClaimed(), units) + Count(IsRefunded(), units) == |units|
  {
    if units != [] {
      ClaimedOrRefunded(units[..|units| - 1]);
    }
  }

  /** The counters are eventually consistent: with no dequeue in progress their difference is headIndex. */
  lemma QuietCountersAgree(run: seq<State>)
    requires Run(run) && Quiet(run[|run| - 1])
    ensures var s := run[|run| - 1]; s.optimistic - s.overcommit == s.head <= s.tail
  {
    RunKeepsInv(run);
    var s := run[|run| - 1];
    forall i | 0 <= i < |s.units| ensures s.units[i].Claimed? || s.units[i].Refunded? {
      assert UnitOk(s, i);
    }
    ClaimedOrRefunded(s.units);
    HeadNeverPassesTail(run);
  }

  /** One call of consumer t, from start to return in exactly n operations, with everybody else
      standing still. */
  ghost predicate OneCall(s: State, t: nat, max: nat, n: nat, s': State)
    decreases n
  {
    && n > 0 && t < |s.pc| && Holds(s.units, t, s.pc[t])
    && var next := Step(s, t, max);
       if n == 1 then s' == next && next.pc[t] == Idle
       else next.pc[t] != Idle && OneCall(next, t, max, n - 1, s')
  }

  /** Consumer t takes the next `got` elements, having given `back` tickets up. */
  ghost predicate Takes(s: State, s': State, t: nat, got: nat, back: nat) {
    && t < |s.pc| && s'.pc == s.pc[t := Idle] && s'.tail == s.tail
    && s'.head == s.head + got && s'.takers == s.takers + Repeat(t, got) && s'.overcommit == s.overcommit + back
  }

  /** Such a call of n operations takes the next `got` elements and gives no ticket up. */
  ghost predicate TakesAlone(s: State, t: nat, max: nat, n: nat, got: nat) {
    exists s' :: OneCall(s, t, max, n, s') && Takes(s, s', t, got, 0) && s'.optimistic == s.optimistic + got
  }

  lemma OneMore(s: State, t: nat, max: nat, n: nat, s': State)
    requires t < |s.pc| && Holds(s.units, t, s.pc[t]) && Step(s, t, max).pc[t] != Idle
    requires OneCall(Step(s, t, max), t, max, n, s')
    ensures OneCall(s, t, max, n + 1, s')
  {
  }

  lemma CallEnds(s: State, t: nat, max: nat, n: nat)
    requires t < |s.pc| && Holds(s.units, t, s.pc[t]) && Step(s, t, max).pc[t] == Idle && n == 1
    ensures OneCall(s, t, max, n, Step(s, t, max))
  {
  }

  lemma NothingToTry(s: State, t: nat, max: nat, n: nat)
    requires t < |s.pc| && s.pc[t] == Idle && s.optimistic - s.overcommit >= s.tail && n == 3
    ensures TakesAlone(s, t, max, n, 0)
  {
    var s1 := Step(s, t, max);
    var s2 := Step(s1, t, max);
    var s3 := Step(s2, t, max);
    assert s3.pc == s.pc[t := Idle];
    CallEnds(s2, t, max, n - 2);
    OneMore(s1, t, max, n - 2, s3);
    OneMore(s, t, max, n - 1, s3);
  }

  /** From the comparison with the tail just read on a call alone takes exactly the elements that its tickets
      are entitled to by that tail, and gives the other tickets up. */
  lemma CheckTakes(s: State, t: nat, max: nat, got: nat, n: nat)
    requires t < |s.pc| && Holds(s.units, t, s.pc[t]) && s.pc[t].Check?
    requires var actual := s.tail - (s.pc[t].my - s.pc[t].over);
             && got == (if actual > 0 then Min(s.pc[t].want, actual) else 0)
             && n == if actual > 0 && got < s.pc[t].want then 3 else 2
    ensures exists s' ::
              OneCall(s, t, max, n, s') && Takes(s, s', t, got, s.pc[t].want - got) && s'.optimistic == s.optimistic
  {
    var s1 := Step(s, t, max);
    var s2 := Step(s1, t, max);
    if n == 2 {
      CallEnds(s1, t, max, n - 1);
      OneMore(s, t, max, n - 1, s2);
      assert s2.pc == s.pc[t := Idle] && s2.takers == s.takers + Repeat(t, got);
    } else {
      var s3 := Step(s2, t, max);
      CallEnds(s2, t, max, n - 2);
      OneMore(s1, t, max, n - 2, s3);
      OneMore(s, t, max, n - 1, s3);
      assert s3.pc == s.pc[t := Idle];
    }
  }

  /** In every run, wherever the others are. */
  lemma TicketsAreHonoured(run: seq<State>, t: nat, max: nat, got: nat, n: nat)
    requires Run(run) && t < |run[|run| - 1].pc| && run[|run| - 1].pc[t].Check?
    requires var s := run[|run| - 1];
             var actual := s.tail - (s.pc[t].my - s.pc[t].over);
             && got == (if actual > 0 then Min(s.pc[t].want, actual) else 0)
             && n == if actual > 0 && got < s.pc[t].want then 3 else 2
    ensures var s := run[|run| - 1];
            exists s' ::
              OneCall(s, t, max, n, s') && Takes(s, s', t, got, s.pc[t].want - got) && s'.optimistic == s.optimistic
  {
    RunKeepsInv(run);
    assert ThreadOk(run[|run| - 1].units, t, run[|run| - 1].pc[t]);
    CheckTakes(run[|run| - 1], t, max, got, n);
  }

  lemma CommitsAndTakes(s: State, t: nat, max: nat, size: nat, n: nat)
    requires t < |s.pc| && s.pc[t] == Commit(Min(max, size), s.overcommit) && s.optimistic == |s.units|
    requires size == s.tail - (s.optimistic - s.overcommit) > 0 && n == 3
    ensures exists s' ::
              && OneCall(s, t, max, n, s') && Takes(s, s', t, Min(max, size), 0)
              && s'.optimistic == s.optimistic + Min(max, size)
  {
    var s1, got := Step(s, t, max), Min(max, size);
    CheckTakes(s1, t, max, got, n - 1);
    var s' :| OneCall(s1, t, max, n - 1, s') && Takes(s1, s', t, got, 0) && s'.optimistic == s1.optimistic;
    OneMore(s, t, max, n - 1, s');
    assert s1.pc[t := Idle] == s.pc[t := Idle];
  }

  lemma SomethingToTry(s: State, t: nat, max: nat, size: nat, n: nat)
    requires t < |s.pc| && s.pc[t] == Idle && s.optimistic == |s.units|
    requires size == s.tail - (s.optimistic - s.overcommit) > 0 && n == 6
    ensures TakesAlone(s, t, max, n, Min(max, size))
  {
    var s1 := Step(s, t, max);
    var s2 := Step(s1, t, max);
    var s3 := Step(s2, t, max);
    var got := Min(max, size);
    CommitsAndTakes(s3, t, max, size, n - 3);
    var s' :| OneCall(s3, t, max, n - 3, s') && Takes(s3, s', t, got, 0) && s'.optimistic == s3.optimistic + got;
    assert s3.pc[t := Idle] == s.pc[t := Idle];
    OneMore(s2, t, max, n - 3, s');
    OneMore(s1, t, max, n - 2, s');
    OneMore(s, t, max, n - 1, s');
  }

  /** In every reachable state a dequeue_bulk that runs alone, wherever the others have stopped, takes exactly
      what the counters show: after three operations nothing if dequeueOptimisticCount less
      dequeueOvercommit has reached tailIndex, and else after six operations min(max, difference). */
  lemma DequeueAloneIsExact(run: seq<State>, t: nat, max: nat, n: nat)
    requires Run(run) && t < |run[|run| - 1].pc| && run[|run| - 1].pc[t] == Idle
    requires var s := run[|run| - 1]; n == if s.tail > s.optimistic - s.overcommit then 6 else 3
    ensures var s := run[|run| - 1]; var size := s.tail - (s.optimistic - s.overcommit);
            TakesAlone(s, t, max, n, if size > 0 then Min(max, size) else 0)
  {
    RunKeepsInv(run);
    var s := run[|run| - 1];
    var size := s.tail - (s.optimistic - s.overcommit);
    if size > 0 {
      SomethingToTry(s, t, max, size, n);
    } else {
      NothingToTry(s, t, max, n);
    }
  }

  /** So on a quiet queue it takes min(max, size) elements, and with max = 1 it fails if and only if the queue
      is empty. */
  lemma LoneDequeueIsExact(run: seq<State>, t: nat, max: nat, n: nat)
    requires Run(run) && Quiet(run[|run| - 1]) && t < |run[|run| - 1].pc|
    requires var s := run[|run| - 1]; n == if s.tail > s.head then 6 else 3
    ensures var s := run[|run| - 1]; s.head <= s.tail && TakesAlone(s, t, max, n, Min(max, s.tail - s.head))
  {
    QuietCountersAgree(run);
    DequeueAloneIsExact(run, t, max, n);
  }

  // -------------------------------------------------- calls that do not overlap

  /** Nobody but consumer t has tickets to act on. */
  predicate NoOther(s: State, t: nat) {
    forall u | 0 <= u < |s.units| && s.units[u].Pending() :: s.units[u].t == t
  }

  /** Consumer t found `size` elements unclaimed when it loaded tailIndex, and is on its way to taking
      min(max, size) of them. */
  predicate OnCourse(s: State, t: nat, max: nat, size: nat) {
    && t < |s.pc| && size > 0
    && match s.pc[t]
       case GotTail(m, tail) => m == max && tail == s.head + size && tail <= s.tail
       case GotOver(m, tail, over) => m == max && over == s.overcommit && tail == s.head + size && tail <= s.tail
       case Commit(want, over) => want == Min(max, size) && over == s.overcommit && s.head + size <= s.tail
       case Check(want, over, my) => want == Min(max, size) && my - over == s.head && s.head + size <= s.tail
       case Take(_, got) => got == Min(max, size)
       case _ => false
  }

  /** Between tickets the two counters differ by headIndex. */
  lemma SettledBetweenTickets(s: State, t: nat)
    requires Inv(s) && NoOther(s, t) && t < |s.pc|
    requires s.pc[t].GotOver? || s.pc[t].Commit?
    ensures s.optimistic - s.overcommit == s.head
  {
    forall u | 0 <= u < |s.units| ensures s.units[u].Claimed? || s.units[u].Refunded? {
      assert UnitOk(s, u);
    }
    ClaimedOrRefunded(s.units);
  }

  lemma OwnStepStaysOnCourse(s: State, t: nat, m: nat, max: nat, size: nat)
    requires Inv(s) && NoOther(s, t) && OnCourse(s, t, max, size) && !s.pc[t].Take?
    ensures Holds(s.units, t, s.pc[t]) && OnCourse(Step(s, t, m), t, max, size)
  {
    assert ThreadOk(s.units, t, s.pc[t]);
    if s.pc[t].GotOver? || s.pc[t].Commit? {
      SettledBetweenTickets(s, t);
    }
  }

  lemma NoTickets(s: State, t: nat, lo: nat, hi: nat, x: Unit)
    requires AllAre(s.units, lo, hi, x) && x.Pending() && x.t != t
    ensures NoOther(s, t) ==> lo == hi
  {
    if lo < hi {
      assert s.units[lo] == x;
    }
  }

  /** Without tickets before and after, a step of another consumer moves no counter. */
  lemma OtherStepMovesNothing(s: State, t: nat, u: nat, m: nat)
    requires u < |s.pc| && u != t && Holds(s.units, u, s.pc[u]) && NoOther(s, t) && NoOther(Step(s, u, m), t)
    ensures var s' := Step(s, u, m);
            && s'.head == s.head && s'.tail == s.tail && s'.overcommit == s.overcommit
            && |s'.pc| == |s.pc| && (t < |s.pc| ==> s'.pc[t] == s.pc[t])
  {
    match s.pc[u]
    case Refund(want, my, got) => NoTickets(s, t, my + got, my + want, Lost(u));
    case Take(my, got) => NoTickets(s, t, my, my + got, Won(u));
    case Fail(want, my) => NoTickets(s, t, my, my + want, Lost(u));
    case _ =>
  }

  /** Any step of the system keeps the call on course, until it takes its elements. */
  lemma StepStaysOnCourse(s: State, s': State, t: nat, max: nat, size: nat)
    requires Inv(s) && Next(s, s') && NoOther(s, t) && OnCourse(s, t, max, size)
    requires t < |s'.pc|
    ensures if s'.pc[t] == Idle then s.pc[t].Take? && s'.head == s.head + s.pc[t].got
            else NoOther(s', t) ==> OnCourse(s', t, max, size)
  {
    if n: nat :| s' == Publish(s, n) {
    } else {
      var u: nat, m: nat :| u < |s.pc| && Holds(s.units, u, s.pc[u]) && s' == Step(s, u, m);
      if u != t {
        if NoOther(s', t) {
          OtherStepMovesNothing(s, t, u, m);
        }
      } else if !s.pc[t].Take? {
        OwnStepStaysOnCourse(s, t, m, max, size);
      }
    }
  }

  /** A call starts with the load of tailIndex. */
  lemma CallStarts(s: State, s': State, t: nat)
    requires Next(s, s') && t < |s.pc| && t < |s'.pc| && s.pc[t] == Idle != s'.pc[t] && s.head < s.tail
    ensures s'.pc[t].GotTail? && OnCourse(s', t, s'.pc[t].max, s.tail - s.head)
  {
  }

  /** A call of consumer t, from the load of tailIndex at step i to its return at step j - 1. */
  predicate CallSpans(run: seq<State>, t: nat, i: nat, j: nat) {
    && i + 1 < j < |run|
    && (forall k | i <= k <= j :: t < |run[k].pc|)
    && run[i].pc[t] == Idle && run[j].pc[t] == Idle
    && forall k | i < k < j :: run[k].pc[t] != Idle
  }

  lemma InvHoldsAt(run: seq<State>, k: nat)
    requires Run(run) && k + 1 < |run|
    ensures Inv(run[k]) && Next(run[k], run[k + 1])
  {
    PrefixRuns(run, k + 1);
    RunKeepsInv(run[..k + 1]);
    assert NextAt(run, k);
  }

  lemma CallStartsAt(run: seq<State>, t: nat, i: nat, j: nat)
    requires Run(run) && CallSpans(run, t, i, j) && run[i].head < run[i].tail
    ensures run[i + 1].pc[t].GotTail? && OnCourse(run[i + 1], t, run[i + 1].pc[t].max, run[i].tail - run[i].head)
  {
    InvHoldsAt(run, i);
    CallStarts(run[i], run[i + 1], t);
  }

  lemma StepStaysOnCourseAt(run: seq<State>, t: nat, k: nat, max: nat, size: nat)
    requires Run(run) && k + 1 < |run| && NoOther(run[k], t) && OnCourse(run[k], t, max, size)
    requires t < |run[k + 1].pc|
    ensures if run[k + 1].pc[t] == Idle then run[k].pc[t].Take? && run[k + 1].head == run[k].head + run[k].pc[t].got
            else NoOther(run[k + 1], t) ==> OnCourse(run[k + 1], t, max, size)
  {
    InvHoldsAt(run, k);
    StepStaysOnCourse(run[k], run[k + 1], t, max, size);
  }

  lemma {:induction false} CallStaysOnCourse(run: seq<State>, t: nat, i: nat, j: nat, k: nat, max: nat, size: nat)
    requires Run(run) && CallSpans(run, t, i, j) && i < k < j
    requires OnCourse(run[i + 1], t, max, size) && forall n | i <= n < j :: NoOther(run[n], t)
    ensures OnCourse(run[k], t, max, size)
  {
    if k > i + 1 {
      CallStaysOnCourse(run, t, i, j, k - 1, max, size);
      StepStaysOnCourseAt(run, t, k - 1, max, size);
    }
  }

  /** Whatever else goes on: unless another consumer has tickets pending meanwhile, a call takes exactly
      min(max, size), where size is the number of elements unclaimed when it loads tailIndex. */
  lemma UndisturbedDequeueIsExact(run: seq<State>, t: nat, i: nat, j: nat)
    requires Run(run) && CallSpans(run, t, i, j)
    requires run[i].head < run[i].tail && forall n | i <= n < j :: NoOther(run[n], t)
    ensures run[i + 1].pc[t].GotTail?
    ensures var s := run[j - 1]; var got := Min(run[i + 1].pc[t].max, run[i].tail - run[i].head);
            s.pc[t].Take? && s.pc[t].got == got && run[j].head == s.head + got
  {
    CallStartsAt(run, t, i, j);
    var max, size := run[i + 1].pc[t].max, run[i].tail - run[i].head;
    CallStaysOnCourse(run, t, i, j, j - 1, max, size);
    StepStaysOnCourseAt(run, t, j - 1, max, size);
  }

  /** So a dequeue that takes nothing, or too little, although there were elements has met another
      consumer's ticket. */
  lemma ShortfallMeansOverlap(run: seq<State>, t: nat, i: nat, j: nat)
    requires Run(run) && CallSpans(run, t, i, j) && run[i].head < run[i].tail
    requires run[i + 1].pc[t].GotTail?
    requires run[j - 1].pc[t].Take? ==>
               run[j - 1].pc[t].got != Min(run[i + 1].pc[t].max, run[i].tail - run[i].head)
    ensures exists k, u ::
              && i <= k < j && 0 <= u < |run[k].units|
              && run[k].units[u].Pending() && run[k].units[u].t != t
  {
    if forall k | i <= k < j :: NoOther(run[k], t) {
      UndisturbedDequeueIsExact(run, t, i, j);
    }
  }
}
