/**
 Selector's callback queue as a state machine: any number of threads call RunInSelectLoop while the
 select thread polls, drains its wake signal, takes a batch of callbacks, runs it and gives back what
 the deadline left over. Every load, store, system call, and every push or pop inside a critical
 section is one step.

 Thread 0 is the select thread. It calls RunInSelectLoop too, from event handlers, from callbacks and
 from alarms, and then sends no signal.
 */
module Selector {
  import opened Options

  /** Where a thread is inside RunInSelectLoop. */
  datatype Call<Callback> =
    | NoCall
    | Locking(callback: Callback)
    | Pushing(callback: Callback)
    | Storing                        // about to set have_to_run_
    | Unlocking
    | Signalling                     // about to write the wake signal
  {
    predicate Holds() {
      Pushing? || Storing? || Unlocking?
    }

    /** The callback is in the queue and the wake signal is still to come. */
    predicate Owes() {
      Storing? || Unlocking? || Signalling?
    }
  }

  /** Where the select thread is in Loop, LoopCallbacks, RunCallbacks, PopCallbacks and
      PrependCallbacks. `ran` is LoopCallbacks' run_count and `num` RunCallbacks' num_run. */
  datatype Pc =
    | Checking                             // about to choose the poll timeout
    | Polling(blocking: bool)
    | Handling                             // event handlers
    | Testing(ran: nat)
    | Draining(ran: nat)
    | Popping(ran: nat)
    | PopLocking(ran: nat)
    | Taking(ran: nat, room: nat)
    | PopUnlocking(ran: nat)
    | Running(ran: nat, num: nat, deadline: int)
    | InCallback(ran: nat, num: nat, deadline: int)
    | PrependLocking(ran: nat, num: nat)
    | Prepending(ran: nat, num: nat)
    | PrependUnlocking(ran: nat, num: nat)
    | Alarms
  {
    predicate Holds() {
      Taking? || PopUnlocking? || Prepending? || PrependUnlocking?
    }

    predicate UserCode() {
      Handling? || InCallback? || Alarms?
    }
  }

  /** absl::Time(), in nanoseconds since the Unix epoch. */
  const UNIX_EPOCH: int := 0

  /** RunCallbacks compares its deadline with absl::Time() if `asWritten`, and with the present, as was
      evidently meant, if not. `max`, `capacity` and `asWritten` never change.

      `called` lists the callbacks of the whole run in the order in which RunInSelectLoop was called with
      them, `appended` and `executed` in the order they were queued and started; `passStart` is |executed|
      when LoopCallbacks was entered. No step decides from them. */
  datatype State<Callback> = State(
    max: nat, capacity: nat, asWritten: bool,
    queue: seq<Callback>, have: bool, pending: nat, lock: Option<nat>,
    calls: seq<Call<Callback>>, pc: Pc, batch: seq<Callback>,
    called: seq<Callback>, appended: seq<Callback>, executed: seq<Callback>, passStart: nat)

  // ---------------------------------------------------------------- steps

  /** Thread t inside RunInSelectLoop. A full pipe refuses the byte. */
  function CallStep<Callback>(s: State<Callback>, t: nat, callback: Callback): State<Callback>
    requires t < |s.calls|
  {
    match s.calls[t]
    case NoCall => if t == 0 && !s.pc.UserCode() then s
                   else s.(calls := s.calls[t := Locking(callback)], called := s.called + [callback])
    case Locking(cb) => if s.lock.Some? then s else s.(lock := Some(t), calls := s.calls[t := Pushing(cb)])
    case Pushing(cb) => s.(queue := s.queue + [cb], appended := s.appended + [cb], calls := s.calls[t := Storing])
    case Storing => s.(have := true, calls := s.calls[t := Unlocking])
    case Unlocking => s.(lock := None, calls := s.calls[t := if t == 0 then NoCall else Signalling])
    case Signalling =>
      s.(pending := if s.pending < s.capacity then s.pending + 1 else s.pending, calls := s.calls[t := NoCall])
  }

  function Returned(ran: nat, num: nat): Pc {
    if num == 0 then Alarms else Testing(ran + num)
  }

  /** The select thread outside RunInSelectLoop. `due` says that an alarm is due, n how many bytes a
      read takes, and `time` is what the clock says, the time allowed for a batch already added where
      the deadline is computed. */
  function LoopStep<Callback>(s: State<Callback>, due: bool, n: nat, time: int): State<Callback>
    requires |s.calls| > 0
  {
    if s.calls[0] != NoCall then s else
    match s.pc
    case Checking => s.(pc := Polling(!s.have && !due))
    case Polling(_) => s.(pc := Handling)
    case Handling => s.(pc := Testing(0), passStart := |s.executed|)
    case Testing(ran) => s.(pc := if s.have && ran < s.max then Draining(ran) else Alarms)
    case Draining(ran) =>
      if s.pending == 0 then s.(pc := Popping(ran))
      else s.(pending := if n < s.pending then n else s.pending - 1)
    case Popping(ran) => s.(pc := if s.have then PopLocking(ran) else Running(ran, 0, time))
    case PopLocking(ran) => if s.lock.Some? then s else s.(lock := Some(0), pc := Taking(ran, Left(s.max, ran)))
    case Taking(ran, room) =>
      if room > 0 && s.queue != [] then
        s.(batch := s.batch + [s.queue[0]], queue := s.queue[1..], pc := Taking(ran, room - 1))
      else
        s.(have := s.queue != [], pc := PopUnlocking(ran))
    case PopUnlocking(ran) => s.(lock := None, pc := Running(ran, 0, time))
    case Running(ran, num, deadline) =>
      if s.batch == [] then s.(pc := Returned(ran, num))
      else if (if s.asWritten then UNIX_EPOCH else time) < deadline then
        s.(executed := s.executed + [s.batch[0]], pc := InCallback(ran, num, deadline))
      else s.(pc := PrependLocking(ran, num))
    case InCallback(ran, num, deadline) =>
      if s.batch == [] then s else s.(batch := s.batch[1..], pc := Running(ran, num + 1, deadline))
    case PrependLocking(ran, num) => if s.lock.Some? then s else s.(lock := Some(0), pc := Prepending(ran, num))
    case Prepending(ran, num) =>
      if s.batch != [] then
        s.(queue := [s.batch[|s.batch| - 1]] + s.queue, batch := s.batch[..|s.batch| - 1])
      else
        s.(have := true, pc := PrependUnlocking(ran, num))
    case PrependUnlocking(ran, num) => s.(lock := None, pc := Returned(ran, num))
    case Alarms => s.(pc := Checking)
  }

  function Left(max: nat, ran: nat): nat {
    if ran < max then max - ran else 0
  }

  datatype Move<Callback> = ByCall(t: nat, callback: Callback) | ByLoop(due: bool, n: nat, time: int)

  predicate Callable<Callback>(s: State<Callback>, move: Move<Callback>) {
    |s.calls| > 0 && (move.ByCall? ==> move.t < |s.calls|)
  }

  function Step<Callback>(s: State<Callback>, move: Move<Callback>): State<Callback>
    requires Callable(s, move)
  {
    match move
    case ByCall(t, callback) => CallStep(s, t, callback)
    case ByLoop(due, n, time) => LoopStep(s, due, n, time)
  }

  ghost predicate NobodyCalls<Callback>(calls: seq<Call<Callback>>) {
    forall t | 0 <= t < |calls| :: calls[t] == NoCall
  }

  ghost predicate Init<Callback>(s: State<Callback>) {
    && s.capacity > 0 && |s.calls| > 0
    && s.queue == s.batch == s.called == s.appended == s.executed == []
    && !s.have && s.pending == 0 && s.lock == None && s.pc == Checking && s.passStart == 0
    && NobodyCalls(s.calls)
  }

  ghost predicate Next<Callback(!new)>(s: State<Callback>, s': State<Callback>) {
    exists move: Move<Callback> ::
      Callable(s, move) && s' == Step(s, move)
  }

  ghost predicate Run<Callback(!new)>(run: seq<State<Callback>>) {
    && |run| > 0
    && Init(run[0])
    && forall i | 0 <= i < |run| - 1 :: Next(run[i], run[i + 1])
  }

  // ------------------------------------------------------------ invariant

  /** The part of the batch that has not been started. */
  function NotStarted<Callback>(s: State<Callback>): seq<Callback> {
    if s.pc.InCallback? && s.batch != [] then s.batch[1..] else s.batch
  }

  predicate CallOk<Callback>(s: State<Callback>, t: nat)
    requires t < |s.calls|
  {
    && (s.calls[t].Holds() ==> s.lock == Some(t))
    && (t == 0 ==> s.calls[t] != Signalling)
  }

  ghost predicate CallsOk<Callback>(s: State<Callback>) {
    forall t: nat | t < |s.calls| :: CallOk(s, t)
  }

  ghost predicate LockInv<Callback>(s: State<Callback>) {
    && |s.calls| > 0
    && CallsOk(s)
    && (s.lock.Some? ==> s.lock.value < |s.calls|)
    && (s.pc.Holds() ==> s.lock == Some(0))
    && (s.calls[0] != NoCall ==> s.pc.UserCode())
  }

  /** A non-empty queue is announced, unless the thread holding the mutex is about to announce it;
      an empty one is not, unless the select thread is about to say so. */
  predicate FlagInv<Callback>(s: State<Callback>)
    requires |s.calls| > 0 && (s.lock.Some? ==> s.lock.value < |s.calls|)
  {
    && (s.queue != [] && !s.have ==> s.lock.Some? && (s.calls[s.lock.value].Storing? || s.pc.Prepending?))
    && (s.queue == [] && s.have ==> s.pc.Taking?)
    && (s.queue == [] && s.lock.Some? ==> !s.calls[s.lock.value].Storing?)
    && (s.pc.PopUnlocking? || s.pc.PrependUnlocking? ==> s.have == (s.queue != []))
  }

  /** Some thread other than the select thread is on its way to the wake signal. */
  ghost predicate SignalDue<Callback>(calls: seq<Call<Callback>>) {
    exists t :: 1 <= t < |calls| && calls[t].Owes()
  }

  ghost predicate WakeInv<Callback>(s: State<Callback>) {
    s.pc == Polling(true) && s.queue != [] ==> s.pending > 0 || SignalDue(s.calls)
  }

  ghost predicate OrderInv<Callback>(s: State<Callback>) {
    s.appended == s.executed + (NotStarted(s) + s.queue)
  }

  predicate BatchInv<Callback>(s: State<Callback>) {
    var b, e := |s.batch|, |s.executed|;
    match s.pc
    case Testing(ran) => b == 0 && ran <= s.max && e == s.passStart + ran
    case Draining(ran) => b == 0 && ran < s.max && e == s.passStart + ran && s.have
    case Popping(ran) => b == 0 && ran < s.max && e == s.passStart + ran && s.have
    case PopLocking(ran) => b == 0 && ran < s.max && e == s.passStart + ran && s.have
    case Taking(ran, room) =>
      ran + b + room == s.max && e == s.passStart + ran && (b > 0 || (room > 0 && s.queue != []))
    case PopUnlocking(ran) => ran + b <= s.max && e == s.passStart + ran && b > 0
    case Running(ran, num, _) => ran + num + b <= s.max && e == s.passStart + ran + num && (num == 0 ==> b > 0)
    case InCallback(ran, num, _) => ran + num + b <= s.max && e == s.passStart + ran + num + 1 && b > 0
    case PrependLocking(ran, num) => ran + num + b <= s.max && e == s.passStart + ran + num && b > 0
    case Prepending(ran, num) => ran + num + b <= s.max && e == s.passStart + ran + num && (b > 0 || s.queue != [])
    case PrependUnlocking(ran, num) => b == 0 && ran + num <= s.max && e == s.passStart + ran + num
    case _ => b == 0 && s.passStart <= e <= s.passStart + s.max
  }

  ghost predicate Inv<Callback>(s: State<Callback>) {
    s.capacity > 0 && LockInv(s) && FlagInv(s) && WakeInv(s) && OrderInv(s) && BatchInv(s)
  }

  // ----------------------------------------------------- a step keeps it

  lemma CallKeepsLock<Callback>(s: State<Callback>, t: nat, callback: Callback)
    requires LockInv(s) && t < |s.calls|
    ensures LockInv(CallStep(s, t, callback))
  {
    var s' := CallStep(s, t, callback);
    assert CallOk(s, t);
    forall u: nat | u < |s'.calls| ensures CallOk(s', u) {
      assert CallOk(s, u);
    }
  }

  lemma LoopKeepsLock<Callback>(s: State<Callback>, due: bool, n: nat, time: int)
    requires LockInv(s)
    ensures LockInv(LoopStep(s, due, n, time))
  {
    var s' := LoopStep(s, due, n, time);
    LoopLocks(s, due, n, time);
    forall u: nat | u < |s'.calls| ensures CallOk(s', u) {
      assert CallOk(s, u);
    }
  }

  /** The select thread touches the mutex only when it is free or its own. */
  lemma LoopLocks<Callback>(s: State<Callback>, due: bool, n: nat, time: int)
    requires LockInv(s)
    ensures var s' := LoopStep(s, due, n, time);
            && s'.calls == s.calls
            && (s'.lock == s.lock || (s.calls[0] == NoCall && s.lock == None && s'.lock == Some(0))
                || (s.calls[0] == NoCall && s.lock == Some(0) && s'.lock == None))
            && (s'.pc.Holds() ==> s'.lock == Some(0))
            && (s.calls[0] != NoCall ==> s' == s)
  {
    if s.pc.Holds() {
      LoopUnlocks(s, due, n, time);
    }
  }

  lemma LoopUnlocks<Callback>(s: State<Callback>, due: bool, n: nat, time: int)
    requires LockInv(s) && s.pc.Holds()
    ensures var s' := LoopStep(s, due, n, time);
            && s'.calls == s.calls && s.lock == Some(0)
            && (if s'.pc.Holds() then s'.lock == Some(0) else s'.lock == None)
            && (s.calls[0] != NoCall ==> s' == s)
  {
    assert s.pc.Taking? || s.pc.PopUnlocking? || s.pc.Prepending? || s.pc.PrependUnlocking?;
  }

  lemma CallKeepsFlag<Callback>(s: State<Callback>, t: nat, callback: Callback)
    requires LockInv(s) && FlagInv(s) && t < |s.calls|
    ensures var s' := CallStep(s, t, callback);
            (s'.lock.Some? ==> s'.lock.value < |s'.calls|) && FlagInv(s')
  {
    assert CallOk(s, t);
  }

  lemma LoopKeepsFlag<Callback>(s: State<Callback>, due: bool, n: nat, time: int)
    requires LockInv(s) && FlagInv(s) && BatchInv(s)
    ensures var s' := LoopStep(s, due, n, time);
            (s'.lock.Some? ==> s'.lock.value < |s'.calls|) && FlagInv(s')
  {
  }

  lemma CallKeepsWake<Callback>(s: State<Callback>, t: nat, callback: Callback)
    requires LockInv(s) && WakeInv(s) && s.capacity > 0 && t < |s.calls|
    ensures WakeInv(CallStep(s, t, callback))
  {
    var s' := CallStep(s, t, callback);
    assert CallOk(s, t);
    if s'.pc == Polling(true) && s'.queue != [] && s'.pending == 0 {
      if s.queue == [] {
        assert s'.calls[t].Owes();
      } else {
        var u :| 1 <= u < |s.calls| && s.calls[u].Owes();
        assert s'.calls[u].Owes();
      }
    }
  }

  lemma LoopKeepsWake<Callback>(s: State<Callback>, due: bool, n: nat, time: int)
    requires LockInv(s) && FlagInv(s) && WakeInv(s)
    ensures WakeInv(LoopStep(s, due, n, time))
  {
    if s.pc.Checking? && s.queue != [] && !s.have {
      assert s.calls[s.lock.value].Owes();
    }
  }

  lemma CallKeepsOrder<Callback>(s: State<Callback>, t: nat, callback: Callback)
    requires OrderInv(s) && t < |s.calls|
    ensures OrderInv(CallStep(s, t, callback))
  {
    if s.calls[t].Pushing? {
      var q, cb := s.queue, s.calls[t].callback;
      assert s.executed + (NotStarted(s) + q) + [cb] == s.executed + (NotStarted(s) + (q + [cb]));
    }
  }

  lemma StartingKeepsOrder<Callback>(s: State<Callback>, due: bool, n: nat, time: int)
    requires OrderInv(s) && |s.calls| > 0 && s.pc.Running?
    ensures OrderInv(LoopStep(s, due, n, time))
  {
    if s.batch != [] {
      FirstMoves(s.executed, s.batch, s.queue);
    }
  }

  lemma FirstMoves<T>(a: seq<T>, b: seq<T>, c: seq<T>)
    requires b != []
    ensures a + (b + c) == a + [b[0]] + (b[1..] + c)
  {
    assert b == [b[0]] + b[1..];
  }

  lemma OtherLoopStepsKeepOrder<Callback>(s: State<Callback>, due: bool, n: nat, time: int)
    requires |s.calls| > 0 && !s.pc.Running? && !s.pc.Taking? && !s.pc.Prepending?
    ensures var s' := LoopStep(s, due, n, time);
            && NotStarted(s') == NotStarted(s) && s'.queue == s.queue
            && s'.executed == s.executed && s'.appended == s.appended
  {
  }

  lemma LoopKeepsOrder<Callback>(s: State<Callback>, due: bool, n: nat, time: int)
    requires OrderInv(s) && |s.calls| > 0
    ensures OrderInv(LoopStep(s, due, n, time))
  {
    if s.pc.Running? {
      StartingKeepsOrder(s, due, n, time);
    } else if s.pc.Taking? || s.pc.Prepending? {
      MovingKeepsOrder(s, due, n, time);
    } else {
      OtherLoopStepsKeepOrder(s, due, n, time);
    }
  }

  lemma MovingKeepsOrder<Callback>(s: State<Callback>, due: bool, n: nat, time: int)
    requires |s.calls| > 0 && (s.pc.Taking? || s.pc.Prepending?)
    ensures var s' := LoopStep(s, due, n, time);
            s'.batch + s'.queue == s.batch + s.queue && !s'.pc.InCallback?
            && s'.executed == s.executed && s'.appended == s.appended
  {
    var s' := LoopStep(s, due, n, time);
    var b, q := s.batch, s.queue;
    if s.pc.Taking? {
      if q != [] {
        assert b + [q[0]] + q[1..] == b + q;
      }
    } else if b != [] {
      assert b[..|b| - 1] + ([b[|b| - 1]] + q) == b + q;
    }
  }

  lemma CallKeepsBatch<Callback>(s: State<Callback>, t: nat, callback: Callback)
    requires LockInv(s) && BatchInv(s) && t < |s.calls|
    ensures BatchInv(CallStep(s, t, callback))
  {
    CallTouchesNoBatch(s, t, callback);
  }

  lemma CallTouchesNoBatch<Callback>(s: State<Callback>, t: nat, callback: Callback)
    requires t < |s.calls|
    ensures var s' := CallStep(s, t, callback);
            && s'.pc == s.pc && s'.batch == s.batch && s'.executed == s.executed
            && s'.passStart == s.passStart && s'.max == s.max
            && (s.have ==> s'.have) && (s.queue != [] ==> s'.queue != [])
  {
  }

  lemma MovingKeepsBatch<Callback>(s: State<Callback>, due: bool, n: nat, time: int)
    requires LockInv(s) && FlagInv(s) && BatchInv(s) && (s.pc.Taking? || s.pc.Prepending?)
    ensures BatchInv(LoopStep(s, due, n, time))
  {
  }

  lemma RunningKeepsBatch<Callback>(s: State<Callback>, due: bool, n: nat, time: int)
    requires LockInv(s) && BatchInv(s) && (s.pc.Running? || s.pc.InCallback?)
    ensures BatchInv(LoopStep(s, due, n, time))
  {
  }

  lemma PoppingKeepsBatch<Callback>(s: State<Callback>, due: bool, n: nat, time: int)
    requires LockInv(s) && FlagInv(s) && BatchInv(s)
    requires s.pc.Testing? || s.pc.Draining? || s.pc.Popping? || s.pc.PopLocking?
    ensures BatchInv(LoopStep(s, due, n, time))
  {
  }

  lemma OtherLoopStepsKeepBatch<Callback>(s: State<Callback>, due: bool, n: nat, time: int)
    requires LockInv(s) && BatchInv(s)
    requires !s.pc.Taking? && !s.pc.Prepending? && !s.pc.Running? && !s.pc.InCallback?
    requires !s.pc.Testing? && !s.pc.Draining? && !s.pc.Popping? && !s.pc.PopLocking?
    ensures BatchInv(LoopStep(s, due, n, time))
  {
    assert LoopStep(s, due, n, time).batch == s.batch && LoopStep(s, due, n, time).executed == s.executed;
  }

  lemma LoopKeepsBatch<Callback>(s: State<Callback>, due: bool, n: nat, time: int)
    requires LockInv(s) && FlagInv(s) && BatchInv(s)
    ensures BatchInv(LoopStep(s, due, n, time))
  {
    if s.pc.Taking? || s.pc.Prepending? {
      MovingKeepsBatch(s, due, n, time);
    } else if s.pc.Running? || s.pc.InCallback? {
      RunningKeepsBatch(s, due, n, time);
    } else if s.pc.Testing? || s.pc.Draining? || s.pc.Popping? || s.pc.PopLocking? {
      PoppingKeepsBatch(s, due, n, time);
    } else {
      OtherLoopStepsKeepBatch(s, due, n, time);
    }
  }

  lemma CallKeepsInv<Callback>(s: State<Callback>, t: nat, callback: Callback)
    requires Inv(s) && t < |s.calls|
    ensures Inv(CallStep(s, t, callback))
  {
    CallKeepsFlags(s, t, callback);
    CallKeepsOrder(s, t, callback);
    CallKeepsBatch(s, t, callback);
  }

  lemma CallKeepsFlags<Callback>(s: State<Callback>, t: nat, callback: Callback)
    requires s.capacity > 0 && LockInv(s) && FlagInv(s) && WakeInv(s) && t < |s.calls|
    ensures var s' := CallStep(s, t, callback); s'.capacity > 0 && LockInv(s') && FlagInv(s') && WakeInv(s')
  {
    CallKeepsLock(s, t, callback);
    CallKeepsFlag(s, t, callback);
    CallKeepsWake(s, t, callback);
  }

  lemma LoopKeepsInv<Callback>(s: State<Callback>, due: bool, n: nat, time: int)
    requires Inv(s)
    ensures Inv(LoopStep(s, due, n, time))
  {
    LoopKeepsLock(s, due, n, time);
    LoopKeepsFlag(s, due, n, time);
    LoopKeepsWake(s, due, n, time);
    LoopKeepsOrder(s, due, n, time);
    LoopKeepsBatch(s, due, n, time);
  }

  lemma InitInv<Callback>(s: State<Callback>)
    requires Init(s)
    ensures Inv(s)
  {
    assert forall t: nat | t < |s.calls| :: CallOk(s, t);
  }

  lemma {:induction false} RunKeepsInv<Callback(!new)>(run: seq<State<Callback>>)
    requires Run(run)
    ensures Inv(run[|run| - 1])
  {
    if |run| == 1 {
      InitInv(run[0]);
    } else {
      RunKeepsInv(run[..|run| - 1]);
      NextKeepsInv(run[|run| - 2], run[|run| - 2 + 1]);
    }
  }

  lemma NextKeepsInv<Callback(!new)>(s: State<Callback>, s': State<Callback>)
    requires Inv(s) && Next(s, s')
    ensures Inv(s')
  {
    var move: Move<Callback> :| Callable(s, move) && s' == Step(s, move);
    match move
    case ByCall(t, callback) => CallKeepsInv(s, t, callback);
    case ByLoop(due, n, time) => LoopKeepsInv(s, due, n, time);
  }

  // ------------------------------------------------------------- theorems

  /** Whenever nobody holds the mutex, have_to_run_ says whether callbacks are queued. */
  lemma FlagTellsTheTruth<Callback(!new)>(run: seq<State<Callback>>)
    requires Run(run) && run[|run| - 1].lock == None
    ensures run[|run| - 1].have == (run[|run| - 1].queue != [])
  {
    RunKeepsInv(run);
  }

  /** No lost wakeup: if callbacks are queued while the select thread is in a poll that may block, a
      signal is pending, or some caller has queued its callback and not signalled yet. */
  lemma NoLostWakeup<Callback(!new)>(run: seq<State<Callback>>)
    requires Run(run) && run[|run| - 1].pc == Polling(true) && run[|run| - 1].queue != []
    ensures run[|run| - 1].pending > 0 || SignalDue(run[|run| - 1].calls)
  {
    RunKeepsInv(run);
  }

  /** Such a caller waits for nobody: three steps of its own at most, and the signal is pending. */
  lemma SignalArrives<Callback(!new)>(run: seq<State<Callback>>, t: nat, callback: Callback)
    requires Run(run) && 1 <= t < |run[|run| - 1].calls| && run[|run| - 1].calls[t].Owes()
    ensures var s := run[|run| - 1];
            var steps := if s.calls[t].Storing? then 3 else if s.calls[t].Unlocking? then 2 else 1;
            var s' := Steps(s, t, callback, steps);
            s'.pending > 0 && s'.queue == s.queue && s'.pc == s.pc
  {
    RunKeepsInv(run);
    var s := run[|run| - 1];
    if s.calls[t].Storing? {
      var s1 := CallStep(s, t, callback);
      var s2 := CallStep(s1, t, callback);
      assert Steps(s, t, callback, 3) == Steps(s1, t, callback, 2) == Steps(s2, t, callback, 1);
    }
  }

  function Steps<Callback>(s: State<Callback>, t: nat, callback: Callback, k: nat): State<Callback>
    requires t < |s.calls|
    decreases k
  {
    if k == 0 then s else Steps(CallStep(s, t, callback), t, callback, k - 1)
  }

  /** Callbacks start in exactly the order in which they were queued, each once; those not started
      are in the batch and the queue, in order. */
  lemma CallbacksRunInOrder<Callback(!new)>(run: seq<State<Callback>>)
    requires Run(run)
    ensures var s := run[|run| - 1];
            s.executed <= s.appended && s.appended[|s.executed|..] == NotStarted(s) + s.queue
  {
    RunKeepsInv(run);
  }

  /** One call of LoopCallbacks starts at most max_num_callbacks_per_event callbacks. */
  lemma PassStartsAtMostMax<Callback(!new)>(run: seq<State<Callback>>)
    requires Run(run)
    ensures var s := run[|run| - 1]; s.passStart <= |s.executed| <= s.passStart + s.max
  {
    RunKeepsInv(run);
  }

  /** LoopCallbacks ends because it started the maximal number, because have_to_run_ was false, or
      because the deadline cut a batch before its first callback; it never comes back from
      PopCallbacks with nothing. */
  lemma PassEndsForAReason<Callback(!new)>(run: seq<State<Callback>>, due: bool, n: nat, time: int)
    requires Run(run)
    ensures var s := run[|run| - 1];
            |s.calls| > 0 &&
            (s.pc != Alarms && LoopStep(s, due, n, time).pc == Alarms ==>
              || |s.executed| == s.passStart + s.max
              || (s.pc.Testing? && !s.have)
              || (s.pc.PrependUnlocking? && s.pc.num == 0))
  {
    RunKeepsInv(run);
  }

  // ------------------------------------------------ the deadline as written

  /** A batch that has run anything has a deadline after 1970, and what is cut has not run anything. */
  predicate DeadlineInv<Callback>(s: State<Callback>) {
    && s.asWritten
    && (s.pc.InCallback? || (s.pc.Running? && s.pc.num > 0) ==> s.pc.deadline > UNIX_EPOCH)
    && (s.pc.PrependLocking? || s.pc.Prepending? || s.pc.PrependUnlocking? ==> s.pc.num == 0)
  }

  ghost predicate DeadlineStep<Callback>(s: State<Callback>, s': State<Callback>) {
    && DeadlineInv(s')
    && (s.pc.Running? && s.batch != [] && s'.pc != s.pc ==>
          (s'.pc.PrependLocking? <==> s.pc.deadline <= UNIX_EPOCH))
    && (s'.pc.PrependLocking? && s'.pc != s.pc ==> s.pc.Running? && s.batch != [])
    && (s'.pc.Prepending? || s'.pc.PrependUnlocking? ==>
          s.pc.PrependLocking? || s.pc.Prepending? || s.pc.PrependUnlocking?)
  }

  lemma RunningKeepsDeadline<Callback>(s: State<Callback>, due: bool, n: nat, time: int)
    requires |s.calls| > 0 && DeadlineInv(s) && (s.pc.Running? || s.pc.InCallback?)
    ensures DeadlineStep(s, LoopStep(s, due, n, time))
  {
  }

  lemma LoopKeepsDeadline<Callback>(s: State<Callback>, due: bool, n: nat, time: int)
    requires |s.calls| > 0 && DeadlineInv(s)
    ensures DeadlineStep(s, LoopStep(s, due, n, time))
  {
    if s.pc.Running? || s.pc.InCallback? {
      RunningKeepsDeadline(s, due, n, time);
    }
  }

  lemma CallLeavesLoop<Callback>(s: State<Callback>, t: nat, callback: Callback)
    requires t < |s.calls|
    ensures var s' := CallStep(s, t, callback); s'.pc == s.pc && s'.batch == s.batch && s'.asWritten == s.asWritten
  {
  }

  lemma NextKeepsDeadline<Callback(!new)>(s: State<Callback>, s': State<Callback>)
    requires Next(s, s') && DeadlineInv(s)
    ensures DeadlineStep(s, s')
  {
    var move: Move<Callback> :| Callable(s, move) && s' == Step(s, move);
    match move
    case ByCall(t, callback) => CallLeavesLoop(s, t, callback);
    case ByLoop(due, n, time) => LoopKeepsDeadline(s, due, n, time);
  }

  lemma {:induction false} RunKeepsDeadline<Callback(!new)>(run: seq<State<Callback>>)
    requires Run(run) && run[0].asWritten
    ensures DeadlineInv(run[|run| - 1])
  {
    if |run| > 1 {
      RunKeepsDeadline(run[..|run| - 1]);
      assert Next(run[|run| - 2], run[|run| - 2 + 1]);
      NextKeepsDeadline(run[|run| - 2], run[|run| - 2 + 1]);
    }
  }

  /** As written, a batch is cut if and only if its deadline is not after 1970, and then as a whole:
      the time that has passed does not matter. */
  lemma BatchIsCutIffDeadlineBefore1970<Callback(!new)>(run: seq<State<Callback>>, i: nat)
    requires Run(run) && run[0].asWritten && i + 1 < |run|
    requires run[i].pc.Running? && run[i].batch != [] && run[i + 1].pc != run[i].pc
    ensures run[i + 1].pc.PrependLocking? <==> run[i].pc.deadline <= UNIX_EPOCH
    ensures run[i + 1].pc.PrependLocking? ==> run[i].pc.num == 0
  {
    RunKeepsDeadline(run[..i + 1]);
    assert Next(run[i], run[i + 1]);
    NextKeepsDeadline(run[i], run[i + 1]);
  }

  ghost predicate DeadlinesAfter1970<Callback>(run: seq<State<Callback>>) {
    forall i | 0 <= i < |run| && run[i].pc.Running? :: run[i].pc.deadline > UNIX_EPOCH
  }

  /** So with clocks and time allowances that are not negative no batch is ever given back. */
  lemma {:induction false} NoBatchIsCut<Callback(!new)>(run: seq<State<Callback>>)
    requires Run(run) && run[0].asWritten && DeadlinesAfter1970(run)
    ensures var pc := run[|run| - 1].pc; !pc.PrependLocking? && !pc.Prepending? && !pc.PrependUnlocking?
  {
    if |run| > 1 {
      var rest := run[..|run| - 1];
      NoBatchIsCut(rest);
      RunKeepsDeadline(rest);
      assert run[|run| - 2] == rest[|rest| - 1] && Next(run[|run| - 2], run[|run| - 2 + 1]);
      NextKeepsDeadline(run[|run| - 2], run[|run| - 2 + 1]);
    }
  }

  /** And LoopCallbacks ends with the maximal number started or with have_to_run_ false. */
  lemma PassEndsByBudgetOrEmptyQueue<Callback(!new)>(run: seq<State<Callback>>, due: bool, n: nat, time: int)
    requires Run(run) && run[0].asWritten && DeadlinesAfter1970(run)
    ensures var s := run[|run| - 1];
            |s.calls| > 0 &&
            (s.pc != Alarms && LoopStep(s, due, n, time).pc == Alarms ==>
              |s.executed| == s.passStart + s.max || (s.pc.Testing? && !s.have))
  {
    PassEndsForAReason(run, due, n, time);
    NoBatchIsCut(run);
  }

  // --------------------------------------------- a signal that outlives its callback

  /** From s to s' a caller writes its wake signal. */
  ghost predicate Signals<Callback>(s: State<Callback>, s': State<Callback>) {
    |s.calls| == |s'.calls| && exists t :: 0 <= t < |s.calls| && s.calls[t].Signalling? && s'.calls[t].NoCall?
  }

  /** A signal has been written since RunCallbacks last drained. */
  ghost predicate Undrained<Callback>(run: seq<State<Callback>>) {
    exists i :: 0 <= i < |run| - 1 && SignalledAt(run, i) && forall j | i < j < |run| :: !run[j].pc.Draining?
  }

  ghost predicate SignalledAt<Callback>(run: seq<State<Callback>>, i: int)
    requires 0 <= i < |run| - 1
  {
    Signals(run[i], run[i + 1])
  }

  ghost predicate SignalStep<Callback>(s: State<Callback>, s': State<Callback>) {
    && (Signals(s, s') ==> s'.pending > 0 && s'.pc == s.pc)
    && (!Signals(s, s') && !s.pc.Draining? ==> s'.pending == s.pending)
    && (s.pc.Draining? && !s'.pc.Draining? ==> s'.pending == 0 && !Signals(s, s'))
  }

  lemma CallSignals<Callback>(s: State<Callback>, t: nat, callback: Callback)
    requires t < |s.calls| && s.capacity > 0
    ensures SignalStep(s, CallStep(s, t, callback))
  {
    var s' := CallStep(s, t, callback);
    assert s'.pc == s.pc;
    if s.calls[t].Signalling? {
      assert s'.calls[t].NoCall?;
    } else {
      assert s'.pending == s.pending;
      assert forall u | 0 <= u < |s.calls| && u != t :: s'.calls[u] == s.calls[u];
    }
  }

  lemma LoopDrains<Callback>(s: State<Callback>, due: bool, n: nat, time: int)
    requires |s.calls| > 0
    ensures SignalStep(s, LoopStep(s, due, n, time))
  {
    var s' := LoopStep(s, due, n, time);
    assert s'.calls == s.calls;
  }

  lemma NextAndSignal<Callback(!new)>(s: State<Callback>, s': State<Callback>)
    requires s.capacity > 0 && Next(s, s')
    ensures SignalStep(s, s')
  {
    var move: Move<Callback> :| Callable(s, move) && s' == Step(s, move);
    match move
    case ByCall(t, callback) => CallSignals(s, t, callback);
    case ByLoop(due, n, time) => LoopDrains(s, due, n, time);
  }

  /** A signal is pending exactly if one has been written since the last drain: nothing else makes it
      pending, and nothing but RunCallbacks takes it away. */
  lemma {:induction false} PendingIffUndrained<Callback(!new)>(run: seq<State<Callback>>)
    requires Run(run) && !run[|run| - 1].pc.Draining?
    ensures run[|run| - 1].pending > 0 <==> Undrained(run)
  {
    if |run| > 1 {
      var rest := run[..|run| - 1];
      var s, s' := run[|run| - 2], run[|run| - 2 + 1];
      assert rest[|rest| - 1] == s && Next(s, s');
      RunKeepsInv(rest);
      NextAndSignal(s, s');
      if !s.pc.Draining? {
        PendingIffUndrained(rest);
        UndrainedGrows(run);
      } else {
        forall i | 0 <= i < |run| - 1 && SignalledAt(run, i) ensures exists j :: i < j < |run| && run[j].pc.Draining? {
          assert i < |run| - 2;
        }
      }
    }
  }

  lemma UndrainedGrows<Callback>(run: seq<State<Callback>>)
    requires |run| > 1 && !run[|run| - 1].pc.Draining? && !run[|run| - 2].pc.Draining?
    ensures Undrained(run) <==> Undrained(run[..|run| - 1]) || Signals(run[|run| - 2], run[|run| - 2 + 1])
  {
    var rest := run[..|run| - 1];
    if i :| 0 <= i < |rest| - 1 && SignalledAt(rest, i) && forall j | i < j < |rest| :: !rest[j].pc.Draining? {
      assert SignalledAt(run, i);
      assert forall j | i < j < |run| :: j < |rest| ==> run[j] == rest[j];
    }
    if Signals(run[|run| - 2], run[|run| - 2 + 1]) {
      assert SignalledAt(run, |run| - 2);
    }
    if i :| 0 <= i < |run| - 1 && SignalledAt(run, i) && forall j | i < j < |run| :: !run[j].pc.Draining? {
      if i < |rest| - 1 {
        assert SignalledAt(rest, i);
        assert forall j | i < j < |rest| :: rest[j] == run[j];
      }
    }
  }

  /** Nothing queued, nobody calling, and the select thread between two batches. */
  ghost predicate Resting<Callback>(s: State<Callback>) {
    && |s.calls| > 0 && NobodyCalls(s.calls)
    && s.queue == [] && !s.have
    && (s.pc.Checking? || s.pc.Polling? || s.pc.Handling? || s.pc.Testing? || s.pc.Alarms?)
  }

  datatype Choice = Choice(due: bool, n: nat, time: int)

  /** The select thread alone, with what the outside decides at each step. */
  function LoopSteps<Callback>(s: State<Callback>, choices: seq<Choice>): State<Callback>
    decreases |choices|
  {
    if choices == [] || |s.calls| == 0 then s else
    var c := choices[0];
    LoopSteps(LoopStep(s, c.due, c.n, c.time), choices[1..])
  }

  lemma {:induction false} RestingStays<Callback>(s: State<Callback>, choices: seq<Choice>)
    requires Resting(s)
    ensures var r := LoopSteps(s, choices); Resting(r) && r.pending == s.pending
    decreases |choices|
  {
    if choices != [] {
      var c := choices[0];
      RestingStays(LoopStep(s, c.due, c.n, c.time), choices[1..]);
    }
  }

  /** Without a queued callback the signal is not drained. A select thread at rest stays at rest until
      somebody calls, and all the time its polls return at once if and only if a signal was written
      after the last drain. */
  lemma RestSpinsIffUndrained<Callback(!new)>(run: seq<State<Callback>>, choices: seq<Choice>)
    requires Run(run) && Resting(run[|run| - 1])
    ensures var r := LoopSteps(run[|run| - 1], choices); Resting(r) && (r.pending > 0 <==> Undrained(run))
  {
    PendingIffUndrained(run);
    RestingStays(run[|run| - 1], choices);
  }

  ghost predicate Reachable<Callback(!new)>(s: State<Callback>) {
    exists run :: Run(run) && run[|run| - 1] == s
  }

  lemma ReachStep<Callback(!new)>(s: State<Callback>, move: Move<Callback>)
    requires Reachable(s) && Callable(s, move)
    ensures Reachable(Step(s, move))
  {
    var run :| Run(run) && run[|run| - 1] == s;
    var run' := run + [Step(s, move)];
    forall i | 0 <= i < |run'| - 1 ensures Next(run'[i], run'[i + 1]) {
      if i < |run| - 1 {
        assert Next(run[i], run[i + 1]);
      }
    }
    assert Run(run') && run'[|run'| - 1] == Step(s, move);
  }

  /** A select thread that already sees have_to_run_ can run a callback before its caller signals. The
      late signal stays pending, so that poll returns at once until another callback is queued. */
  lemma SignalMayOutliveItsCallback()
    ensures exists s: State<bool> :: Reachable(s) && Resting(s) && s.pc == Polling(true) && s.pending > 0
  {
    var s := CallbackQueued();
    s := CallbackDone(s);
    ReachStep(s, ByCall(1, true));
    s := Step(s, ByCall(1, true));
    ReachStep(s, ByLoop(false, 0, 1));
    s := Step(s, ByLoop(false, 0, 1));
    ReachStep(s, ByLoop(false, 0, 1));
    s := Step(s, ByLoop(false, 0, 1));
    assert Resting(s) && s.pc == Polling(true) && s.pending > 0;
  }

  /** A caller queues the only callback, step by step. */
  function QueueState(i: nat): State<bool> {
    var (call, lock) :=
      match i {
        case 0 => (NoCall, None)
        case 1 => (Locking(true), None)
        case 2 => (Pushing(true), Some(1))
        case 3 => (Storing, Some(1))
        case 4 => (Unlocking, Some(1))
        case _ => (Signalling, None)
      };
    var queue := if i < 3 then [] else [true];
    State(1, 1, true, queue, i >= 4, 0, lock, [NoCall, call], Checking, [], if i < 1 then [] else [true], queue, [], 0)
  }

  lemma QueueMoves(i: nat)
    requires i < 5
    ensures CallStep(QueueState(i), 1, true) == QueueState(i + 1)
  {
  }

  lemma QueueStarts()
    ensures Reachable(QueueState(0))
  {
    var run := [QueueState(0)];
    assert Run(run) && run[|run| - 1] == QueueState(0);
  }

  lemma CallbackQueued() returns (s: State<bool>)
    ensures Reachable(s) && s == PassState(0)
  {
    QueueStarts();
    s := QueueState(0);
    for i := 0 to 5
      invariant Reachable(s) && s == QueueState(i)
    {
      QueueMoves(i);
      ReachStep(s, ByCall(1, true));
      s := QueueState(i + 1);
    }
  }

  /** The select thread's pass over the only callback, step by step. */
  function PassPc(i: nat): Pc {
    match i
    case 0 => Checking
    case 1 => Polling(false)
    case 2 => Handling
    case 3 => Testing(0)
    case 4 => Draining(0)
    case 5 => Popping(0)
    case 6 => PopLocking(0)
    case 7 => Taking(0, 1)
    case 8 => Taking(0, 0)
    case 9 => PopUnlocking(0)
    case 10 => Running(0, 0, 1)
    case 11 => InCallback(0, 0, 1)
    case 12 => Running(0, 1, 1)
    case 13 => Testing(1)
    case _ => Alarms
  }

  function PassState(i: nat): State<bool> {
    State(1, 1, true, if i < 8 then [true] else [], i < 9, 0, if 7 <= i < 10 then Some(0) else None,
          [NoCall, Signalling], PassPc(i), if 8 <= i < 12 then [true] else [], [true], [true],
          if i < 11 then [] else [true], 0)
  }

  lemma PassMoves(i: nat)
    requires i < 14
    ensures LoopStep(PassState(i), false, 0, 1) == PassState(i + 1)
  {
  }

  lemma CallbackDone(start: State<bool>) returns (s: State<bool>)
    requires Reachable(start) && start == PassState(0)
    ensures Reachable(s) && s == PassState(14)
  {
    s := start;
    for i := 0 to 14
      invariant Reachable(s) && s == PassState(i)
    {
      PassMoves(i);
      ReachStep(s, ByLoop(false, 0, 1));
      s := PassState(i + 1);
    }
  }

  // ------------------------------------------------------ no call is lost

  /** The callback that a call has still to queue. */
  ghost function Carried<Callback>(call: Call<Callback>): multiset<Callback> {
    match call
    case Locking(cb) => multiset{cb}
    case Pushing(cb) => multiset{cb}
    case _ => multiset{}
  }

  ghost function AllCarried<Callback>(calls: seq<Call<Callback>>): multiset<Callback> {
    if calls == [] then multiset{} else Carried(calls[0]) + AllCarried(calls[1..])
  }

  lemma AddToBoth<T>(a: multiset<T>, x: multiset<T>, c: multiset<T>, y: multiset<T>, d: multiset<T>)
    requires x + c == y + d
    ensures (a + x) + c == (a + y) + d
  {
    assert (a + x) + c == a + (x + c) && (a + y) + d == a + (y + d);
  }

  lemma {:induction false} CarriedAfter<Callback>(calls: seq<Call<Callback>>, t: nat, call: Call<Callback>)
    requires t < |calls|
    ensures AllCarried(calls[t := call]) + Carried(calls[t]) == AllCarried(calls) + Carried(call)
  {
    var calls' := calls[t := call];
    if t == 0 {
      assert calls'[1..] == calls[1..];
    } else {
      CarriedAfter(calls[1..], t - 1, call);
      assert calls'[1..] == calls[1..][t - 1 := call] && calls'[0] == calls[0];
      AddToBoth(Carried(calls[0]), AllCarried(calls'[1..]), Carried(calls[t]), AllCarried(calls[1..]), Carried(call));
    }
  }

  lemma {:induction false} NobodyCarries<Callback>(calls: seq<Call<Callback>>)
    requires NobodyCalls(calls)
    ensures AllCarried(calls) == multiset{}
  {
    if calls != [] {
      assert calls[0] == NoCall;
      NobodyCarries(calls[1..]);
    }
  }

  ghost predicate CallsAccounted<Callback>(s: State<Callback>) {
    multiset(s.called) == multiset(s.appended) + AllCarried(s.calls)
  }

  /** Of what was called some was carried along and is now queued or still carried, be the next call new or not. */
  lemma Accounts<T>(c: multiset<T>, a: multiset<T>, x: multiset<T>, y: multiset<T>, o: multiset<T>, n: multiset<T>)
    requires y + o == x + n && c == a + x
    ensures o == n ==> c == a + y
    ensures o == multiset{} ==> c + n == a + y
    ensures n == multiset{} ==> c == a + o + y
  {
    if o == n {
      forall e: T ensures x[e] == y[e] {
        assert (y + o)[e] == (x + n)[e];
      }
      assert x == y;
    }
    if o == multiset{} {
      assert y == x + n && c + n == a + (x + n);
    }
    if n == multiset{} {
      assert x == y + o && a + (y + o) == a + o + y;
    }
  }

  lemma CallStepCalls<Callback>(s: State<Callback>, t: nat, callback: Callback)
    requires t < |s.calls|
    ensures var s' := CallStep(s, t, callback); |s'.calls| == |s.calls| && s'.calls == s.calls[t := s'.calls[t]]
  {
  }

  lemma StartingAccounts<Callback>(s: State<Callback>, t: nat, callback: Callback)
    requires t < |s.calls| && s.calls[t] == NoCall && (t == 0 ==> s.pc.UserCode())
    ensures var s' := CallStep(s, t, callback);
            && |s'.calls| == |s.calls| && Carried(s'.calls[t]) == multiset{callback} && s'.appended == s.appended
            && multiset(s'.called) == multiset(s.called) + multiset{callback}
  {
    assert multiset(s.called + [callback]) == multiset(s.called) + multiset{callback};
  }

  lemma PushingAccounts<Callback>(s: State<Callback>, t: nat, callback: Callback)
    requires t < |s.calls| && s.calls[t].Pushing?
    ensures var s' := CallStep(s, t, callback);
            && |s'.calls| == |s.calls| && Carried(s'.calls[t]) == multiset{} && s'.called == s.called
            && multiset(s'.appended) == multiset(s.appended) + Carried(s.calls[t])
  {
    var cb := s.calls[t].callback;
    assert multiset(s.appended + [cb]) == multiset(s.appended) + multiset{cb};
  }

  lemma LockingAccounts<Callback>(s: State<Callback>, t: nat, callback: Callback)
    requires t < |s.calls| && s.calls[t].Locking?
    ensures var s' := CallStep(s, t, callback);
            && |s'.calls| == |s.calls| && Carried(s'.calls[t]) == Carried(s.calls[t])
            && s'.called == s.called && s'.appended == s.appended
  {
  }

  lemma OtherCallSteps<Callback>(s: State<Callback>, t: nat, callback: Callback)
    requires t < |s.calls|
    requires s.calls[t].Owes() || (s.calls[t].NoCall? && t == 0 && !s.pc.UserCode())
    ensures var s' := CallStep(s, t, callback);
            && |s'.calls| == |s.calls| && !s'.calls[t].Locking? && !s'.calls[t].Pushing?
            && s'.called == s.called && s'.appended == s.appended
  {
  }

  lemma CallKeepsAccounts<Callback>(s: State<Callback>, t: nat, callback: Callback)
    requires CallsAccounted(s) && t < |s.calls|
    ensures CallsAccounted(CallStep(s, t, callback))
  {
    var s' := CallStep(s, t, callback);
    CallStepCalls(s, t, callback);
    CarriedAfter(s.calls, t, s'.calls[t]);
    Accounts(multiset(s.called), multiset(s.appended), AllCarried(s.calls), AllCarried(s'.calls),
             Carried(s.calls[t]), Carried(s'.calls[t]));
    if s.calls[t].Pushing? {
      PushingAccounts(s, t, callback);
    } else if s.calls[t].NoCall? && (t == 0 ==> s.pc.UserCode()) {
      StartingAccounts(s, t, callback);
    } else if s.calls[t].Locking? {
      LockingAccounts(s, t, callback);
    } else {
      OtherCallSteps(s, t, callback);
    }
  }

  lemma LoopLeavesCalls<Callback>(s: State<Callback>, due: bool, n: nat, time: int)
    requires |s.calls| > 0
    ensures var s' := LoopStep(s, due, n, time);
            s'.calls == s.calls && s'.called == s.called && s'.appended == s.appended
  {
    if s.pc.Taking? || s.pc.Prepending? {
      MovingKeepsOrder(s, due, n, time);
    } else if !s.pc.Running? {
      OtherLoopStepsKeepOrder(s, due, n, time);
    }
  }

  lemma LoopKeepsAccounts<Callback>(s: State<Callback>, due: bool, n: nat, time: int)
    requires CallsAccounted(s) && |s.calls| > 0
    ensures CallsAccounted(LoopStep(s, due, n, time))
  {
    LoopLeavesCalls(s, due, n, time);
  }

  lemma NextKeepsAccounts<Callback(!new)>(s: State<Callback>, s': State<Callback>)
    requires CallsAccounted(s) && Next(s, s')
    ensures CallsAccounted(s')
  {
    var move: Move<Callback> :| Callable(s, move) && s' == Step(s, move);
    match move
    case ByCall(t, callback) => CallKeepsAccounts(s, t, callback);
    case ByLoop(due, n, time) => LoopKeepsAccounts(s, due, n, time);
  }

  /** In every run the callbacks that RunInSelectLoop was called with are those that have been queued and
      those whose calls are about to queue them: none is dropped, and none appears from nowhere. */
  lemma {:induction false} CallsAreQueued<Callback(!new)>(run: seq<State<Callback>>)
    requires Run(run)
    ensures CallsAccounted(run[|run| - 1])
  {
    if |run| == 1 {
      NobodyCarries(run[0].calls);
    } else {
      CallsAreQueued(run[..|run| - 1]);
      assert Next(run[|run| - 2], run[|run| - 2 + 1]);
      NextKeepsAccounts(run[|run| - 2], run[|run| - 2 + 1]);
    }
  }

  /** How many operations a whole call takes; the select thread's own sends no signal. */
  function CallLength(t: nat): nat {
    if t == 0 then 5 else 6
  }

  lemma OneStep<Callback>(s: State<Callback>, t: nat, callback: Callback, k: nat)
    requires t < |s.calls|
    ensures var s' := CallStep(s, t, callback);
            |s'.calls| == |s.calls| && Steps(s, t, callback, k + 1) == Steps(s', t, callback, k)
  {
  }

  /** An undisturbed RunInSelectLoop(callback), with the mutex free, ends with the callback behind all others
      in the queue, the flag set, and the wake signal pending unless the select thread called itself. */
  lemma LoneCallQueues<Callback>(s: State<Callback>, t: nat, callback: Callback, k: nat)
    requires t < |s.calls| && s.calls[t] == NoCall && s.lock == None && k == CallLength(t)
    requires t == 0 ==> s.pc.UserCode()
    ensures var r := Steps(s, t, callback, k);
            && r.queue == s.queue + [callback] && r.have && r.lock == None && r.calls == s.calls
            && r.pc == s.pc && r.batch == s.batch && r.called == s.called + [callback]
            && r.executed == s.executed && r.appended == s.appended + [callback]
            && r.pending == if t != 0 && s.pending < s.capacity then s.pending + 1 else s.pending
  {
    var s1 := CallStep(s, t, callback);
    var s2 := CallStep(s1, t, callback);
    var s3 := CallStep(s2, t, callback);
    var s4 := CallStep(s3, t, callback);
    var s5 := CallStep(s4, t, callback);
    OneStep(s, t, callback, k - 1);
    OneStep(s1, t, callback, k - 2);
    OneStep(s2, t, callback, k - 3);
    OneStep(s3, t, callback, k - 4);
    OneStep(s4, t, callback, k - 5);
    if t != 0 {
      var s6 := CallStep(s5, t, callback);
      OneStep(s5, t, callback, k - 6);
      assert s6.calls == s.calls;
    } else {
      assert s5.calls == s.calls;
    }
  }

  // ------------------------------------------------------ the select thread alone

  /** k operations of the select thread with nobody calling, always with the same outside. */
  function LoopAlone<Callback>(s: State<Callback>, c: Choice, k: nat): State<Callback>
    requires |s.calls| > 0
    decreases k
  {
    if k == 0 then s else LoopAlone(LoopStep(s, c.due, c.n, c.time), c, k - 1)
  }

  lemma OneLoop<Callback>(s: State<Callback>, c: Choice, k: nat, s': State<Callback>)
    requires |s.calls| > 0 && s' == LoopStep(s, c.due, c.n, c.time)
    ensures |s'.calls| > 0 && LoopAlone(s, c, k + 1) == LoopAlone(s', c, k)
  {
  }

  /** PopCallbacks takes what there is, up to the room left. */
  /** What PopCallbacks has done when it has moved m callbacks into the batch. */
  function Taken<Callback>(s: State<Callback>, m: nat): State<Callback>
    requires s.pc.Taking? && m <= |s.queue|
  {
    s.(batch := s.batch + s.queue[..m], queue := s.queue[m..], have := s.queue[m..] != [], pc := PopUnlocking(s.pc.ran))
  }

  lemma TakingOneMore<Callback>(s: State<Callback>, c: Choice, m: nat)
    requires |s.calls| > 0 && s.calls[0] == NoCall && s.pc.Taking? && 0 < m <= s.pc.room && m <= |s.queue|
    ensures var s' := LoopStep(s, c.due, c.n, c.time);
            s'.pc.Taking? && s'.pc.room == s.pc.room - 1 && |s'.queue| == |s.queue| - 1 && s'.calls == s.calls
            && Taken(s', m - 1) == Taken(s, m)
  {
    assert s.batch + [s.queue[0]] + s.queue[1..][..m - 1] == s.batch + s.queue[..m];
    assert s.queue[1..][m - 1..] == s.queue[m..];
  }

  lemma {:induction false} TakesWhatThereIs<Callback>(s: State<Callback>, c: Choice, m: nat, k: nat)
    requires |s.calls| > 0 && s.calls[0] == NoCall && s.pc.Taking?
    requires m == if s.pc.room < |s.queue| then s.pc.room else |s.queue|
    ensures LoopAlone(s, c, m + 1 + k) == LoopAlone(Taken(s, m), c, k)
    decreases m
  {
    var s' := LoopStep(s, c.due, c.n, c.time);
    OneLoop(s, c, m + k, s');
    if m == 0 {
      assert s.batch + s.queue[..0] == s.batch && s.queue[0..] == s.queue;
    } else {
      TakingOneMore(s, c, m);
      TakesWhatThereIs(s', c, m - 1, k);
    }
  }

  /** With a deadline after 1970 RunCallbacks runs the whole batch in order. */
  lemma {:induction false} RunsTheBatch<Callback>(s: State<Callback>, c: Choice, b: nat, k: nat)
    requires |s.calls| > 0 && s.calls[0] == NoCall && s.asWritten
    requires s.pc.Running? && s.pc.deadline > UNIX_EPOCH && b == |s.batch|
    ensures LoopAlone(s, c, 2 * b + 1 + k)
         == LoopAlone(s.(executed := s.executed + s.batch, batch := [], pc := Returned(s.pc.ran, s.pc.num + b)), c, k)
    decreases b
  {
    var s1 := LoopStep(s, c.due, c.n, c.time);
    OneLoop(s, c, 2 * b + k, s1);
    if b == 0 {
      assert s.executed + s.batch == s.executed;
    } else {
      var s2 := LoopStep(s1, c.due, c.n, c.time);
      OneLoop(s1, c, 2 * b - 1 + k, s2);
      RunsTheBatch(s2, c, b - 1, k);
      assert s2.executed + s2.batch == s.executed + s.batch;
    }
  }

  /** How many callbacks one pass runs. */
  function PassSize<Callback>(s: State<Callback>): nat {
    if s.max < |s.queue| then s.max else |s.queue|
  }

  function DrainLength(pending: nat): nat {
    if pending > 0 then 2 else 1
  }

  /** From LoopCallbacks' test to the first callback taken: the wake signal has been drained. */
  lemma PassBegins<Callback>(s: State<Callback>, c: Choice, k: nat)
    requires |s.calls| > 0 && s.calls[0] == NoCall && s.lock == None
    requires s.pc == Testing(0) && s.have && s.max > 0 && c.n == 0
    ensures LoopAlone(s, c, 3 + DrainLength(s.pending) + k)
         == LoopAlone(s.(pending := 0, lock := Some(0), pc := Taking(0, s.max)), c, k)
  {
    var d := DrainLength(s.pending);
    var s1 := s.(pc := Draining(0));
    OneLoop(s, c, 2 + d + k, s1);
    var s2 := s1.(pending := 0);
    if s.pending > 0 {
      OneLoop(s1, c, 3 + k, s2);
    }
    var s3, s4 := s2.(pc := Popping(0)), s2.(pc := PopLocking(0));
    OneLoop(s2, c, 2 + k, s3);
    OneLoop(s3, c, 1 + k, s4);
    OneLoop(s4, c, k, s.(pending := 0, lock := Some(0), pc := Taking(0, s.max)));
  }

  /** From the last callback taken to the end of the pass. */
  lemma PassEnds<Callback>(s: State<Callback>, c: Choice, k: nat)
    requires |s.calls| > 0 && s.calls[0] == NoCall && s.pc == PopUnlocking(0) && s.asWritten && c.time > UNIX_EPOCH
    requires s.batch != [] && (s.have ==> |s.batch| == s.max)
    ensures LoopAlone(s, c, 2 * |s.batch| + 3 + k)
         == LoopAlone(s.(lock := None, executed := s.executed + s.batch, batch := [], pc := Alarms), c, k)
  {
    var b := |s.batch|;
    var s1 := s.(lock := None, pc := Running(0, 0, c.time));
    OneLoop(s, c, 2 * b + 2 + k, s1);
    RunsTheBatch(s1, c, b, 1 + k);
    var s2 := s1.(executed := s.executed + s.batch, batch := [], pc := Testing(b));
    OneLoop(s2, c, k, s2.(pc := Alarms));
  }

  /** What a pass over a queue leaves. */
  function Passed<Callback>(s: State<Callback>): State<Callback> {
    s.(executed := s.executed + s.queue[..PassSize(s)], queue := s.queue[PassSize(s)..],
       have := s.queue[PassSize(s)..] != [], pending := 0, pc := Alarms)
  }

  /** How many operations it takes. */
  function PassLength<Callback>(s: State<Callback>): nat {
    3 * PassSize(s) + 7 + DrainLength(s.pending)
  }

  lemma PassTakes<Callback>(s: State<Callback>, c: Choice, m: nat, k: nat)
    requires |s.calls| > 0 && s.calls[0] == NoCall && s.pc == Taking(0, s.max) && s.batch == [] && s.lock == Some(0)
    requires s.queue != [] && s.max > 0 && s.asWritten && c.time > UNIX_EPOCH && m == PassSize(s) && s.pending == 0
    ensures LoopAlone(s, c, 3 * m + 4 + k) == LoopAlone(Passed(s).(lock := None), c, k)
  {
    var n: nat := 2 * m + 3 + k;
    assert 3 * m + 4 + k == m + 1 + n;
    TakesWhatThereIs(s, c, m, n);
    TakenIsPassed(s, m);
    PassEnds(Taken(s, m), c, k);
  }

  lemma TakenIsPassed<Callback>(s: State<Callback>, m: nat)
    requires s.pc == Taking(0, s.max) && s.batch == [] && s.queue != [] && s.max > 0
    requires m == PassSize(s) && s.pending == 0
    ensures var r := Taken(s, m);
            && |r.batch| == m > 0 && (r.have ==> m == s.max)
            && r.(lock := None, executed := r.executed + r.batch, batch := [], pc := Alarms) == Passed(s).(lock := None)
  {
    assert Taken(s, m).batch == s.queue[..m];
  }

  lemma PassRuns<Callback>(s: State<Callback>, c: Choice, k: nat)
    requires |s.calls| > 0 && s.calls[0] == NoCall && s.lock == None && s.pc == Testing(0) && s.batch == []
    requires s.have && s.queue != [] && s.max > 0 && s.asWritten && c.n == 0 && c.time > UNIX_EPOCH
    ensures LoopAlone(s, c, PassLength(s) + k) == LoopAlone(Passed(s), c, k)
  {
    var m := PassSize(s);
    var n: nat := 3 * m + 4 + k;
    assert PassLength(s) + k == 3 + DrainLength(s.pending) + n;
    PassBegins(s, c, n);
    var s1 := s.(pending := 0, lock := Some(0), pc := Taking(0, s.max));
    PassTakes(s1, c, m, k);
    assert Passed(s1).(lock := None) == Passed(s);
  }

  /** The select thread alone, once around its loop: it blocks in poll if and only if nothing is queued and no
      alarm is due, and then runs the first min(max, size) callbacks in order. */
  lemma LoneIteration<Callback(!new)>(run: seq<State<Callback>>, c: Choice, k: nat)
    requires Run(run) && run[0].asWritten && c.n == 0 && c.time > UNIX_EPOCH
    requires var s := run[|run| - 1];
             && s.pc == Checking && s.lock == None && NobodyCalls(s.calls)
             && k == 4 + if s.queue != [] && s.max > 0 then PassLength(s) else 1
    ensures var s := run[|run| - 1];
            && |s.calls| > 0
            && LoopStep(s, c.due, c.n, c.time).pc == Polling(s.queue == [] && !c.due)
            && Iterated(s, LoopAlone(s, c, k))
  {
    RunKeepsInv(run);
    RunKeepsDeadline(run);
    FlagTellsTheTruth(run);
    LoopsOnce(run[|run| - 1], c, k);
  }

  /** What an iteration does to the queue. */
  ghost predicate Iterated<Callback>(s: State<Callback>, r: State<Callback>) {
    && r.pc == Checking && r.calls == s.calls && r.lock == s.lock && r.appended == s.appended
    && r.executed == s.executed + s.queue[..PassSize(s)] && r.queue == s.queue[PassSize(s)..]
    && r.have == (r.queue != [])
  }

  lemma TestsOnce<Callback>(s: State<Callback>, c: Choice, k: nat)
    requires |s.calls| > 0 && s.calls[0] == NoCall && s.lock == None && s.pc == Testing(0) && s.batch == []
    requires s.have == (s.queue != []) && s.asWritten && c.n == 0 && c.time > UNIX_EPOCH
    requires k == 1 + if s.queue != [] && s.max > 0 then PassLength(s) else 1
    ensures Iterated(s, LoopAlone(s, c, k))
  {
    if s.queue != [] && s.max > 0 {
      PassRuns(s, c, 1);
      OneLoop(Passed(s), c, 0, Passed(s).(pc := Checking));
    } else {
      var s4 := s.(pc := Alarms);
      OneLoop(s, c, k - 1, s4);
      OneLoop(s4, c, k - 2, s4.(pc := Checking));
      assert s.executed + s.queue[..0] == s.executed && s.queue[0..] == s.queue;
    }
  }

  lemma LoopsOnce<Callback>(s: State<Callback>, c: Choice, k: nat)
    requires |s.calls| > 0 && s.calls[0] == NoCall && s.lock == None && s.pc == Checking && s.batch == []
    requires s.have == (s.queue != []) && s.asWritten && c.n == 0 && c.time > UNIX_EPOCH
    requires k == 4 + if s.queue != [] && s.max > 0 then PassLength(s) else 1
    ensures LoopStep(s, c.due, c.n, c.time).pc == Polling(s.queue == [] && !c.due)
    ensures Iterated(s, LoopAlone(s, c, k))
  {
    var s1, s2 := s.(pc := Polling(!s.have && !c.due)), s.(pc := Handling);
    var s3 := s.(pc := Testing(0), passStart := |s.executed|);
    OneLoop(s, c, k - 1, s1);
    OneLoop(s1, c, k - 2, s2);
    OneLoop(s2, c, k - 3, s3);
    TestsOnce(s3, c, k - 3);
  }
}
