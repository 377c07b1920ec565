/**
 The lock-free ring buffer LockFreeProducerConsumerQueue as a state machine: every atomic
 load, store or fetch_add of Put and Get is one step, and clients interleave freely.

 Put and Get run the same protocol on mirrored variables, so both halves of the queue are
 values of one record, Side:

                     producers          consumers
   next              head_              tail_
   last              last_head_         last_tail_
   lease             clients_[i].head_  clients_[i].tail_
   slack             q_size             0

 A client may enter slot ticket % q_size once ticket < m + slack, where m is the smallest
 position the other half has not finished with.
 */
module RingQueue {
  import opened Arith

  /** A published reservation; `Unset` is numeric_limits<size_t>::max(). */
  datatype Lease = Unset | At(pos: nat)

  datatype Pc =
    | Idle
    | Loaded(seen: nat)                       // loaded next, reservation not stored yet
    | Reserved                                // stored that old value as reservation
    | Ticketed(ticket: nat)                   // did the fetch_add
    | Leased(ticket: nat)                     // reservation is now the ticket itself
    | Rescan(ticket: nat)                     // at the top of the wait loop
    | Scan(ticket: nat, pos: nat, i: nat)     // about to look at the i-th opposite client
    | Granted(ticket: nat)                    // out of the loop, about to touch the slot
    | Finished(ticket: nat)                   // slot touched, reservation still published
  {
    /** The client owns a ticket whose slot it has not touched yet. */
    predicate Holds() {
      Ticketed? || Leased? || Rescan? || Scan? || Granted?
    }

    predicate Waiting() {
      Rescan? || Scan?
    }
  }

  /** One half of the queue. `owner` (who took ticket k) and `done` (whose slot access is over)
      are history: no step decides anything from them. */
  datatype Side = Side(next: nat, last: nat, lease: seq<Lease>, pc: seq<Pc>, owner: seq<nat>, done: set<nat>)

  /** `puts[k]` is the argument of the Put that drew ticket k and `gets[k]` what Get k returned. */
  datatype State<Item> = State(
    size: nat, prod: Side, cons: Side, arg: seq<Item>, slots: seq<Item>,
    puts: seq<Item>, gets: map<nat, Item>)

  // ---------------------------------------------------------------- steps

  function Lower(a: nat, l: Lease): nat {
    if l.At? && l.pos < a then l.pos else a
  }

  /** One atomic operation of client c, other than the slot access. The second result is the new
      `last` of the opposite half, the only field of the opposite half a client ever stores to. */
  function ClientStep(me: Side, other: Side, slack: nat, c: nat): (Side, nat)
    requires c < |me.pc| == |me.lease|
    requires |other.lease| == |other.pc|
  {
    match me.pc[c]
    case Idle => (me.(pc := me.pc[c := Loaded(me.next)]), other.last)
    case Loaded(seen) => (me.(pc := me.pc[c := Reserved], lease := me.lease[c := At(seen)]), other.last)
    case Reserved =>
      (me.(pc := me.pc[c := Ticketed(me.next)], next := me.next + 1, owner := me.owner + [c]), other.last)
    case Ticketed(t) => (me.(pc := me.pc[c := Leased(t)], lease := me.lease[c := At(t)]), other.last)
    case Leased(t) =>
      (me.(pc := me.pc[c := if t >= other.last + slack then Rescan(t) else Granted(t)]), other.last)
    case Rescan(t) => (me.(pc := me.pc[c := Scan(t, other.next, 0)]), other.last)
    case Scan(t, pos, i) =>
      if i < |other.lease| then
        (me.(pc := me.pc[c := Scan(t, Lower(pos, other.lease[i]), i + 1)]), other.last)
      else
        (me.(pc := me.pc[c := if t < pos + slack then Granted(t) else Rescan(t)]), pos)
    case Granted(t) => (me.(pc := me.pc[c := Finished(t)], done := me.done + {t}), other.last)
    case Finished(t) => (me.(pc := me.pc[c := Idle], lease := me.lease[c := Unset]), other.last)
  }

  ghost predicate WellFormed<Item>(s: State<Item>) {
    && s.size >= 1
    && |s.slots| == s.size
    && |s.prod.pc| == |s.prod.lease| == |s.arg|
    && |s.cons.pc| == |s.cons.lease|
    && |s.puts| == s.prod.next
  }

  /** The next atomic operation of producer p. `item` is the argument of a Put that starts here. */
  function PutStep<Item>(s: State<Item>, p: nat, item: Item): State<Item>
    requires WellFormed(s) && p < |s.prod.pc|
  {
    var (prod, last) := ClientStep(s.prod, s.cons, s.size, p);
    var s' := s.(prod := prod, cons := s.cons.(last := last));
    match s.prod.pc[p]
    case Idle => s'.(arg := s.arg[p := item])
    case Reserved => s'.(puts := s.puts + [s.arg[p]])
    case Granted(t) => s'.(slots := s.slots[t % s.size := s.arg[p]])
    case _ => s'
  }

  /** The next atomic operation of consumer c. */
  function GetStep<Item>(s: State<Item>, c: nat): State<Item>
    requires WellFormed(s) && c < |s.cons.pc|
  {
    var (cons, last) := ClientStep(s.cons, s.prod, 0, c);
    var s' := s.(cons := cons, prod := s.prod.(last := last));
    match s.cons.pc[c]
    case Granted(t) => s'.(gets := s.gets[t := s.slots[t % s.size]])
    case _ => s'
  }

  ghost predicate InitSide(side: Side) {
    && side.next == side.last == 0
    && |side.lease| == |side.pc|
    && (forall i | 0 <= i < |side.pc| :: side.pc[i] == Idle)
    && (forall i | 0 <= i < |side.lease| :: side.lease[i] == Unset)
    && side.owner == []
    && side.done == {}
  }

  /** A ring of any size (the program's are powers of two), any number of clients, uninitialised slots. */
  ghost predicate Init<Item>(s: State<Item>) {
    && WellFormed(s)
    && InitSide(s.prod)
    && InitSide(s.cons)
    && s.gets == map[]
  }

  ghost predicate Next<Item(!new)>(s: State<Item>, s': State<Item>) {
    && WellFormed(s)
    && ((exists p: nat, item: Item | p < |s.prod.pc| :: s' == PutStep(s, p, item))
        || (exists c: nat | c < |s.cons.pc| :: s' == GetStep(s, c)))
  }

  ghost predicate NextAt<Item(!new)>(run: seq<State<Item>>, i: nat) {
    i + 1 < |run| ==> Next(run[i], run[i + 1])
  }

  /** A finite prefix of any interleaving. */
  ghost predicate Run<Item(!new)>(run: seq<State<Item>>) {
    && |run| > 0
    && Init(run[0])
    && forall i: nat :: NextAt(run, i)
  }

  // ------------------------------------------------------------ invariant

  /** Every ticket this far below k is finished on the given side. */
  ghost predicate Cleared(side: Side, k: nat, slack: nat) {
    forall j: nat :: j + slack <= k ==> j in side.done
  }

  /** Tickets are owned uniquely until done, and a holder's reservation never exceeds its ticket. */
  ghost predicate Tickets(side: Side) {
    && |side.pc| == |side.lease|
    && |side.owner| == side.next
    && (forall k | k in side.done :: k < side.next)
    && (forall k: nat | k < side.next && k !in side.done ::
          && side.owner[k] < |side.pc|
          && side.pc[side.owner[k]].Holds()
          && side.pc[side.owner[k]].ticket == k)
    && (forall c: nat | c < |side.pc| && side.pc[c].Holds() ::
          && side.pc[c].ticket < side.next
          && side.pc[c].ticket !in side.done
          && side.owner[side.pc[c].ticket] == c)
    && (forall k: nat | k < side.last :: k in side.done)
  }

  ghost predicate Leases(side: Side) {
    && |side.pc| == |side.lease|
    && forall c: nat | c < |side.pc| :: LeaseOk(side.pc[c], side.lease[c], side.next)
  }

  ghost predicate LeaseOk(pc: Pc, lease: Lease, next: nat) {
    match pc
    case Idle => lease == Unset
    case Loaded(seen) => lease == Unset && seen <= next
    case Reserved => lease.At? && lease.pos <= next
    case Ticketed(t) => lease.At? && lease.pos <= t
    case _ => lease == At(pc.ticket)
  }

  /** A scan that has looked at clients [0, i) can vouch for every ticket below pos, except those
      still held by a client it has not looked at. */
  ghost predicate Vouches(side: Side, pos: nat, i: nat) {
    && pos <= side.next
    && i <= |side.pc|
    && forall k: nat | k < pos :: k in side.done || (k < |side.owner| && side.owner[k] >= i)
  }

  ghost predicate Scans(me: Side, other: Side) {
    forall c: nat | c < |me.pc| && me.pc[c].Scan? :: Vouches(other, me.pc[c].pos, me.pc[c].i)
  }

  ghost predicate Grants(me: Side, other: Side, slack: nat) {
    && (forall c: nat | c < |me.pc| && me.pc[c].Granted? :: Cleared(other, me.pc[c].ticket, slack))
    && (forall k: nat | k in me.done :: Cleared(other, k, slack))
  }

  ghost predicate Protocol(me: Side, other: Side, slack: nat) {
    Tickets(me) && Leases(me) && Scans(me, other) && Grants(me, other, slack)
  }

  ghost predicate Live<Item>(s: State<Item>, k: nat) {
    k in s.prod.done && k !in s.cons.done
  }

  ghost predicate Contents<Item>(s: State<Item>)
    requires WellFormed(s)
  {
    && (forall p: nat | p < |s.prod.pc| && s.prod.pc[p].Holds() && s.prod.pc[p].ticket < |s.puts| ::
          s.arg[p] == s.puts[s.prod.pc[p].ticket])
    && (forall k: nat | Live(s, k) && k < |s.puts| :: s.slots[k % s.size] == s.puts[k])
    && s.gets.Keys == s.cons.done
    && (forall k: nat | k in s.gets :: k < |s.puts| && s.gets[k] == s.puts[k])
  }

  ghost predicate Inv<Item>(s: State<Item>) {
    && WellFormed(s)
    && Protocol(s.prod, s.cons, s.size)
    && Protocol(s.cons, s.prod, 0)
    && Contents(s)
  }

  // --------------------------------------------- the protocol is inductive

  /** A client that changes its program point and reservation but neither gains nor loses a ticket. */
  lemma MoveKeepsTickets(me: Side, c: nat, pc: Pc, lease: Lease)
    requires Tickets(me) && c < |me.pc|
    requires pc.Holds() == me.pc[c].Holds() && (pc.Holds() ==> pc.ticket == me.pc[c].ticket)
    ensures Tickets(me.(pc := me.pc[c := pc], lease := me.lease[c := lease]))
  {
  }

  lemma DrawKeepsTickets(me: Side, c: nat)
    requires Tickets(me) && c < |me.pc| && me.pc[c].Reserved?
    ensures Tickets(me.(pc := me.pc[c := Ticketed(me.next)], next := me.next + 1, owner := me.owner + [c]))
  {
    var me' := me.(pc := me.pc[c := Ticketed(me.next)], next := me.next + 1, owner := me.owner + [c]);
    assert forall k: nat | k < me.next :: me'.owner[k] == me.owner[k];
  }

  lemma FinishKeepsTickets(me: Side, c: nat)
    requires Tickets(me) && c < |me.pc| && me.pc[c].Granted?
    ensures var t := me.pc[c].ticket; Tickets(me.(pc := me.pc[c := Finished(t)], done := me.done + {t}))
  {
  }

  lemma StepTickets(me: Side, other: Side, slack: nat, c: nat)
    requires c < |me.pc|
    requires Tickets(me) && Tickets(other) && Leases(other)
    ensures var (me', last) := ClientStep(me, other, slack, c); Tickets(me')
  {
    var (me', last) := ClientStep(me, other, slack, c);
    match me.pc[c]
    case Reserved => DrawKeepsTickets(me, c);
    case Granted(t) => FinishKeepsTickets(me, c);
    case _ =>
      MoveKeepsTickets(me, c, me'.pc[c], me'.lease[c]);
      assert me' == me.(pc := me.pc[c := me'.pc[c]], lease := me.lease[c := me'.lease[c]]);
  }

  /** A bound is published only when the scan behind it is complete, so it covers finished tickets. */
  lemma StepLast(me: Side, other: Side, slack: nat, c: nat)
    requires c < |me.pc|
    requires Tickets(me) && Tickets(other) && Scans(me, other)
    ensures var (me', last) := ClientStep(me, other, slack, c);
            forall k: nat | k < last :: k in other.done
  {
    if me.pc[c].Scan? && me.pc[c].i >= |other.lease| {
      assert Vouches(other, me.pc[c].pos, me.pc[c].i);
    }
  }

  lemma StepLeases(me: Side, other: Side, slack: nat, c: nat)
    requires c < |me.pc|
    requires Leases(me) && Leases(other)
    ensures var (me', last) := ClientStep(me, other, slack, c); Leases(me')
  {
    var (me', last) := ClientStep(me, other, slack, c);
    assert LeaseOk(me.pc[c], me.lease[c], me.next);
    forall d: nat | d < |me.pc| ensures LeaseOk(me'.pc[d], me'.lease[d], me'.next) {
      assert LeaseOk(me.pc[d], me.lease[d], me.next);
    }
  }

  /** Looking at client i: if it holds a ticket, its reservation pulls pos down to that ticket. */
  lemma LookVouches(side: Side, pos: nat, i: nat)
    requires Tickets(side) && Leases(side) && Vouches(side, pos, i) && i < |side.pc|
    ensures Vouches(side, Lower(pos, side.lease[i]), i + 1)
  {
    assert LeaseOk(side.pc[i], side.lease[i], side.next);
  }

  /** Steps of a side only draw tickets at or above every vouched position, or finish tickets. */
  lemma GrowthKeepsVouching(side: Side, side': Side, pos: nat, i: nat)
    requires Vouches(side, pos, i)
    requires |side'.pc| == |side.pc| && side.next <= side'.next && side.done <= side'.done && side.owner <= side'.owner
    ensures Vouches(side', pos, i)
  {
  }

  lemma StepScans(me: Side, other: Side, slack: nat, c: nat)
    requires c < |me.pc|
    requires Tickets(me) && Tickets(other) && Leases(other) && Scans(me, other)
    ensures var (me', last) := ClientStep(me, other, slack, c); Scans(me', other.(last := last))
  {
    var (me', last) := ClientStep(me, other, slack, c);
    forall d: nat | d < |me.pc| && me'.pc[d].Scan?
      ensures Vouches(other.(last := last), me'.pc[d].pos, me'.pc[d].i)
    {
      if d == c && me.pc[c].Scan? {
        assert Vouches(other, me.pc[c].pos, me.pc[c].i);
        LookVouches(other, me.pc[c].pos, me.pc[c].i);
      }
    }
  }

  lemma StepKeepsOthersScans(me: Side, other: Side, slack: nat, c: nat)
    requires c < |me.pc| == |me.lease| && |other.pc| == |other.lease|
    requires Scans(other, me)
    ensures var (me', last) := ClientStep(me, other, slack, c); Scans(other.(last := last), me')
  {
    var (me', last) := ClientStep(me, other, slack, c);
    forall d: nat | d < |other.pc| && other.pc[d].Scan? ensures Vouches(me', other.pc[d].pos, other.pc[d].i) {
      GrowthKeepsVouching(me, me', other.pc[d].pos, other.pc[d].i);
    }
  }

  /** Entering the slot is decided from `last` or from a complete scan; either way the opposite
      half is finished with everything that far back. */
  lemma StepGrants(me: Side, other: Side, slack: nat, c: nat)
    requires c < |me.pc| == |me.lease|
    requires Tickets(other) && Scans(me, other) && Grants(me, other, slack)
    ensures var (me', last) := ClientStep(me, other, slack, c); Grants(me', other.(last := last), slack)
  {
    var (me', last) := ClientStep(me, other, slack, c);
    var other' := other.(last := last);
    forall k: nat | Cleared(other, k, slack) ensures Cleared(other', k, slack) { }
    if me'.pc[c].Granted? {
      if me.pc[c].Scan? {
        assert Vouches(other, me.pc[c].pos, me.pc[c].i);
      }
      assert Cleared(other', me'.pc[c].ticket, slack);
    }
  }

  lemma StepKeepsOthersGrants(me: Side, other: Side, slack: nat, slack': nat, c: nat)
    requires c < |me.pc| == |me.lease| && |other.pc| == |other.lease|
    requires Grants(other, me, slack')
    ensures var (me', last) := ClientStep(me, other, slack, c); Grants(other.(last := last), me', slack')
  {
    var (me', last) := ClientStep(me, other, slack, c);
    forall k: nat | Cleared(me, k, slack') ensures Cleared(me', k, slack') { }
  }

  /** A step of client c keeps every protocol fact, about its own half and about the opposite one. */
  lemma ClientStepKeepsProtocol(me: Side, other: Side, slack: nat, slack': nat, c: nat)
    requires c < |me.pc|
    requires Protocol(me, other, slack) && Protocol(other, me, slack')
    ensures var (me', last) := ClientStep(me, other, slack, c);
            Protocol(me', other.(last := last), slack) && Protocol(other.(last := last), me', slack')
  {
    StepTickets(me, other, slack, c);
    StepLast(me, other, slack, c);
    StepLeases(me, other, slack, c);
    StepScans(me, other, slack, c);
    StepKeepsOthersScans(me, other, slack, c);
    StepGrants(me, other, slack, c);
    StepKeepsOthersGrants(me, other, slack, slack', c);
  }

  // ------------------------------------------------- the data is where it should be

  lemma ReadImpliesWritten<Item>(s: State<Item>, k: nat)
    requires Inv(s)
    ensures k in s.cons.done ==> k in s.prod.done
  {
    if k in s.cons.done {
      assert Cleared(s.prod, k, 0) && k + 0 <= k;
    }
  }

  /** No ticket whose value is still wanted shares its slot with the one being written. */
  lemma SlotIsFree<Item>(s: State<Item>, p: nat, k: nat)
    requires Inv(s) && p < |s.prod.pc| && s.prod.pc[p].Granted? && Live(s, k)
    ensures k % s.size != s.prod.pc[p].ticket % s.size
  {
    var t := s.prod.pc[p].ticket;
    ReadImpliesWritten(s, t);
    assert Cleared(s.cons, k, s.size);
    if k % s.size == t % s.size {
      if k < t {
        SameRemainder(s.size, k, t);
      } else {
        SameRemainder(s.size, t, k);
      }
    }
  }

  lemma WritingKeepsContents<Item>(s: State<Item>, p: nat, item: Item)
    requires Inv(s) && p < |s.prod.pc| && s.prod.pc[p].Granted?
    ensures WellFormed(PutStep(s, p, item)) && Contents(PutStep(s, p, item))
  {
    forall k: nat | Live(s, k) ensures k % s.size != s.prod.pc[p].ticket % s.size {
      SlotIsFree(s, p, k);
    }
    assert forall k: nat :: Live(PutStep(s, p, item), k) ==> Live(s, k) || k == s.prod.pc[p].ticket;
  }

  /** Drawing a ticket records the argument under it. */
  lemma DrawingKeepsContents<Item>(s: State<Item>, p: nat, item: Item)
    requires Inv(s) && p < |s.prod.pc| && s.prod.pc[p].Reserved?
    ensures WellFormed(PutStep(s, p, item)) && Contents(PutStep(s, p, item))
  {
    var s' := PutStep(s, p, item);
    assert s'.prod.done == s.prod.done && s'.cons == s.cons && s'.slots == s.slots && s'.gets == s.gets;
    assert s'.puts == s.puts + [s.arg[p]] && s'.arg == s.arg && s'.prod.pc == s.prod.pc[p := s'.prod.pc[p]];
    forall k: nat | Live(s', k) && k < |s'.puts| ensures s'.slots[k % s'.size] == s'.puts[k] {
      assert Live(s, k) && k < |s.puts|;
    }
  }

  /** While a Put waits nothing is written. */
  lemma WaitingKeepsContents<Item>(s: State<Item>, p: nat, item: Item)
    requires Inv(s) && p < |s.prod.pc| && !s.prod.pc[p].Granted? && !s.prod.pc[p].Reserved?
    ensures WellFormed(PutStep(s, p, item)) && Contents(PutStep(s, p, item))
  {
    var s' := PutStep(s, p, item);
    assert s'.prod.done == s.prod.done && s'.cons.done == s.cons.done && s'.slots == s.slots && s'.gets == s.gets;
    assert s'.puts == s.puts && s'.prod.pc == s.prod.pc[p := s'.prod.pc[p]];
    forall k: nat | Live(s', k) && k < |s'.puts| ensures s'.slots[k % s'.size] == s'.puts[k] {
      assert Live(s, k);
    }
  }

  lemma PutStepKeepsContents<Item>(s: State<Item>, p: nat, item: Item)
    requires Inv(s) && p < |s.prod.pc|
    ensures WellFormed(PutStep(s, p, item)) && Contents(PutStep(s, p, item))
  {
    if s.prod.pc[p].Granted? {
      WritingKeepsContents(s, p, item);
    } else if s.prod.pc[p].Reserved? {
      DrawingKeepsContents(s, p, item);
    } else {
      WaitingKeepsContents(s, p, item);
    }
  }

  lemma GetStepKeepsContents<Item>(s: State<Item>, c: nat)
    requires Inv(s) && c < |s.cons.pc|
    ensures WellFormed(GetStep(s, c)) && Contents(GetStep(s, c))
  {
    var s' := GetStep(s, c);
    assert forall k: nat :: Live(s', k) ==> Live(s, k);
    if s.cons.pc[c].Granted? {
      var t := s.cons.pc[c].ticket;
      assert Cleared(s.prod, t, 0) && t + 0 <= t;
      assert Live(s, t);
    }
  }

  lemma PutStepKeepsInv<Item>(s: State<Item>, p: nat, item: Item)
    requires Inv(s) && p < |s.prod.pc|
    ensures Inv(PutStep(s, p, item))
  {
    ClientStepKeepsProtocol(s.prod, s.cons, s.size, 0, p);
    PutStepKeepsContents(s, p, item);
  }

  lemma GetStepKeepsInv<Item>(s: State<Item>, c: nat)
    requires Inv(s) && c < |s.cons.pc|
    ensures Inv(GetStep(s, c))
  {
    ClientStepKeepsProtocol(s.cons, s.prod, 0, s.size, c);
    GetStepKeepsContents(s, c);
  }

  lemma StepKeepsInv<Item(!new)>(s: State<Item>, s': State<Item>)
    requires Inv(s) && Next(s, s')
    ensures Inv(s')
  {
    if p: nat, item: Item :| p < |s.prod.pc| && s' == PutStep(s, p, item) {
      PutStepKeepsInv(s, p, item);
    } else {
      var c: nat :| c < |s.cons.pc| && s' == GetStep(s, c);
      GetStepKeepsInv(s, c);
    }
  }

  lemma PrefixRuns<Item(!new)>(run: seq<State<Item>>, n: nat)
    requires Run(run) && 0 < n <= |run|
    ensures Run(run[..n])
  {
    forall i: nat ensures NextAt(run[..n], i) {
      assert NextAt(run, i);
    }
  }

  lemma {:induction false} RunKeepsInv<Item(!new)>(run: seq<State<Item>>)
    requires Run(run)
    ensures Inv(run[|run| - 1])
  {
    if |run| > 1 {
      PrefixRuns(run, |run| - 1);
      RunKeepsInv(run[..|run| - 1]);
      assert NextAt(run, |run| - 2);
      StepKeepsInv(run[|run| - 2], run[|run| - 1]);
    }
  }

  // ------------------------------------------------------------- theorems

  /** Get number t returns exactly the argument of Put number t. */
  lemma GetReturnsMatchingPut<Item(!new)>(run: seq<State<Item>>)
    requires Run(run)
    ensures var s := run[|run| - 1];
            forall t: nat | t in s.gets :: t < |s.puts| && s.gets[t] == s.puts[t]
  {
    RunKeepsInv(run);
  }

  /** A Put writes only after the Get one lap behind it has read, and hits no wanted value. */
  lemma WriteWaitsForReader<Item(!new)>(run: seq<State<Item>>, p: nat)
    requires Run(run)
    requires var s := run[|run| - 1]; p < |s.prod.pc| && s.prod.pc[p].Granted?
    ensures var s := run[|run| - 1]; var t := s.prod.pc[p].ticket;
            && (forall k: nat | k + s.size <= t :: k in s.gets)
            && s.size >= 1 && (forall k: nat | Live(s, k) :: k % s.size != t % s.size)
  {
    RunKeepsInv(run);
    var s := run[|run| - 1];
    forall k: nat | Live(s, k) ensures k % s.size != s.prod.pc[p].ticket % s.size {
      SlotIsFree(s, p, k);
    }
    assert Cleared(s.cons, s.prod.pc[p].ticket, s.size);
  }

  /** A Get reads only after its Put wrote, nobody has consumed it, and the value is in the slot. */
  lemma ReadWaitsForWriter<Item(!new)>(run: seq<State<Item>>, c: nat)
    requires Run(run)
    requires var s := run[|run| - 1]; c < |s.cons.pc| && s.cons.pc[c].Granted?
    ensures var s := run[|run| - 1]; var t := s.cons.pc[c].ticket;
            t in s.prod.done && t !in s.gets && t < |s.puts| && WellFormed(s) && s.slots[t % s.size] == s.puts[t]
  {
    RunKeepsInv(run);
    var s := run[|run| - 1];
    var t := s.cons.pc[c].ticket;
    assert Cleared(s.prod, t, 0) && t + 0 <= t;
    assert Live(s, t);
  }

  ghost predicate Quiet(side: Side) {
    forall c: nat | c < |side.pc| :: side.pc[c] == Idle
  }

  /** Two values still in the ring are less than one lap apart, so the ring never overfills. */
  lemma LiveTicketsFitTheRing<Item(!new)>(run: seq<State<Item>>, j: nat, k: nat)
    requires Run(run)
    requires Live(run[|run| - 1], j) && Live(run[|run| - 1], k)
    ensures k < j + run[|run| - 1].size
  {
    RunKeepsInv(run);
    var s := run[|run| - 1];
    assert Cleared(s.cons, k, s.size);
  }

  /** With no call in progress the ring is a bounded FIFO queue: the first tail_ Puts have been
      returned in order and exactly the Puts from tail_ to head_ are stored, at most size of them. */
  lemma QuietQueueIsFifo<Item(!new)>(run: seq<State<Item>>)
    requires Run(run)
    requires Quiet(run[|run| - 1].prod) && Quiet(run[|run| - 1].cons)
    ensures var s := run[|run| - 1]; var head, tail := s.prod.next, s.cons.next;
            && tail <= head <= tail + s.size
            && |s.puts| == head
            && s.gets == (map t: nat | t < tail :: s.puts[t])
            && s.size == |s.slots| >= 1
            && forall k: nat | tail <= k < head :: s.slots[k % s.size] == s.puts[k]
  {
    RunKeepsInv(run);
    var s := run[|run| - 1];
    var head, tail := s.prod.next, s.cons.next;
    assert forall k: nat | k < head :: k in s.prod.done;
    assert forall k: nat | k < tail :: k in s.cons.done;
    if tail > 0 {
      ReadImpliesWritten(s, tail - 1);
    }
    if head > s.size {
      assert Cleared(s.cons, head - 1, s.size) && (head - 1 - s.size) + s.size <= head - 1;
      assert head - 1 - s.size in s.cons.done;
    }
    forall k: nat | tail <= k < head ensures s.slots[k % s.size] == s.puts[k] {
      assert Live(s, k);
    }
  }

  // ------------------------------------------------------- no deadlock

  /** n atomic operations of client c with everybody else standing still. */
  function Solo(me: Side, other: Side, slack: nat, c: nat, n: nat): (r: (Side, Side))
    requires c < |me.pc| == |me.lease| && |other.lease| == |other.pc|
    ensures |r.0.pc| == |r.0.lease| == |me.pc| && r.1 == other.(last := r.1.last)
  {
    if n == 0 then (me, other) else
    var (me', other') := Solo(me, other, slack, c, n - 1);
    var (me'', last) := ClientStep(me', other', slack, c);
    (me'', other'.(last := last))
  }

  /** What an undisturbed scan of the first n clients of a side computes. */
  function Fresh(side: Side, n: nat): nat
    requires n <= |side.lease|
  {
    if n == 0 then side.next else Lower(Fresh(side, n - 1), side.lease[n - 1])
  }

  function Moved(me: Side, c: nat, pc: Pc): Side
    requires c < |me.pc|
  {
    me.(pc := me.pc[c := pc])
  }

  lemma MovedTwice(me: Side, c: nat, pc: Pc, pc': Pc)
    requires c < |me.pc|
    ensures Moved(Moved(me, c, pc), c, pc') == Moved(me, c, pc')
  {
    assert me.pc[c := pc][c := pc'] == me.pc[c := pc'];
  }

  lemma {:induction false} SoloScanComputesFresh(me: Side, other: Side, slack: nat, c: nat, n: nat)
    requires c < |me.pc| == |me.lease| && |other.lease| == |other.pc|
    requires me.pc[c].Rescan? && n <= |other.lease|
    ensures Solo(me, other, slack, c, n + 1)
         == (Moved(me, c, Scan(me.pc[c].ticket, Fresh(other, n), n)), other)
  {
    if n == 0 {
      assert Solo(me, other, slack, c, 0) == (me, other);
    } else {
      SoloScanComputesFresh(me, other, slack, c, n - 1);
      var t := me.pc[c].ticket;
      MovedTwice(me, c, Scan(t, Fresh(other, n - 1), n - 1), Scan(t, Fresh(other, n), n));
    }
  }

  /** A client at the top of its wait loop gets out with one undisturbed scan iff that scan allows. */
  lemma SoloScanOutcome(me: Side, other: Side, slack: nat, c: nat)
    requires c < |me.pc| == |me.lease| && |other.lease| == |other.pc|
    requires me.pc[c].Rescan?
    ensures var m := |other.lease|; var t := me.pc[c].ticket; var (me', other') := Solo(me, other, slack, c, m + 2);
            && me' == Moved(me, c, if t < Fresh(other, m) + slack then Granted(t) else Rescan(t))
            && other' == other.(last := Fresh(other, m))
  {
    var m, t := |other.lease|, me.pc[c].ticket;
    SoloScanComputesFresh(me, other, slack, c, m);
    MovedTwice(me, c, Scan(t, Fresh(other, m), m), if t < Fresh(other, m) + slack then Granted(t) else Rescan(t));
  }

  lemma {:induction false} SoloFinishesScan(me: Side, other: Side, slack: nat, c: nat, n: nat)
    requires c < |me.pc| == |me.lease| && |other.lease| == |other.pc|
    requires me.pc[c].Scan? && me.pc[c].i + n <= |other.lease|
    ensures var (me', other') := Solo(me, other, slack, c, n);
            && me' == Moved(me, c, me'.pc[c]) && other' == other
            && me'.pc[c].Scan? && me'.pc[c].ticket == me.pc[c].ticket && me'.pc[c].i == me.pc[c].i + n
  {
    if n > 0 {
      SoloFinishesScan(me, other, slack, c, n - 1);
      MovedTwice(me, c, Solo(me, other, slack, c, n - 1).0.pc[c], Solo(me, other, slack, c, n).0.pc[c]);
    }
  }

  /** An undisturbed scan that has begun ends, in n operations. */
  lemma SoloEndsScan(me: Side, other: Side, slack: nat, c: nat) returns (n: nat, mid: (Side, Side))
    requires c < |me.pc| == |me.lease| && |other.lease| == |other.pc|
    requires me.pc[c].Scan? && me.pc[c].i <= |other.lease|
    ensures mid == Solo(me, other, slack, c, n)
    ensures mid.0.pc[c] == Granted(me.pc[c].ticket) || mid.0.pc[c] == Rescan(me.pc[c].ticket)
    ensures |mid.0.pc| == |mid.0.lease| == |me.pc| && mid.1 == other.(last := mid.1.last)
  {
    n := |other.lease| - me.pc[c].i + 1;
    mid := Solo(me, other, slack, c, n);
    SoloFinishesScan(me, other, slack, c, n - 1);
  }

  lemma {:induction false} SoloCompose(me: Side, other: Side, slack: nat, c: nat, m: nat, n: nat)
    requires c < |me.pc| == |me.lease| && |other.lease| == |other.pc|
    ensures var mid := Solo(me, other, slack, c, m);
            Solo(mid.0, mid.1, slack, c, n) == Solo(me, other, slack, c, m + n)
  {
    if n > 0 {
      SoloCompose(me, other, slack, c, m, n - 1);
    }
  }

  /** Left alone, client c leaves its wait loop. */
  ghost predicate GetsThrough(me: Side, other: Side, slack: nat, c: nat) {
    && c < |me.pc| == |me.lease| && |other.lease| == |other.pc|
    && exists n: nat :: Solo(me, other, slack, c, n).0.pc[c].Granted?
  }

  lemma GettingThroughLaterIsEnough(me: Side, other: Side, slack: nat, c: nat, n: nat)
    requires c < |me.pc| == |me.lease| && |other.lease| == |other.pc|
    requires var mid := Solo(me, other, slack, c, n); GetsThrough(mid.0, mid.1, slack, c)
    ensures GetsThrough(me, other, slack, c)
  {
    var mid := Solo(me, other, slack, c, n);
    var k: nat :| Solo(mid.0, mid.1, slack, c, k).0.pc[c].Granted?;
    SoloCompose(me, other, slack, c, n, k);
    assert Solo(me, other, slack, c, n + k).0.pc[c].Granted?;
  }

  lemma RescannerGetsThrough(me: Side, other: Side, slack: nat, c: nat)
    requires c < |me.pc| == |me.lease| && |other.lease| == |other.pc|
    requires me.pc[c].Rescan? && me.pc[c].ticket < Fresh(other, |other.lease|) + slack
    ensures GetsThrough(me, other, slack, c)
  {
    SoloScanOutcome(me, other, slack, c);
    assert Solo(me, other, slack, c, |other.lease| + 2).0.pc[c].Granted?;
  }

  lemma {:induction false} FreshIgnoresLast(side: Side, last: nat, n: nat)
    requires n <= |side.lease|
    ensures Fresh(side.(last := last), n) == Fresh(side, n)
  {
    if n > 0 {
      FreshIgnoresLast(side, last, n - 1);
    }
  }

  lemma RescanGetsThrough(me: Side, other: Side, slack: nat, c: nat, n: nat, mid: (Side, Side))
    requires c < |me.pc| == |me.lease| && |other.lease| == |other.pc|
    requires mid == Solo(me, other, slack, c, n) && mid.1 == other.(last := mid.1.last)
    requires mid.0.pc[c].Granted? || (mid.0.pc[c].Rescan? && mid.0.pc[c].ticket < Fresh(other, |other.lease|) + slack)
    ensures GetsThrough(me, other, slack, c)
  {
    if mid.0.pc[c].Rescan? {
      FreshIgnoresLast(other, mid.1.last, |other.lease|);
      RescannerGetsThrough(mid.0, mid.1, slack, c);
      GettingThroughLaterIsEnough(me, other, slack, c, n);
    }
  }

  /** Wherever in its wait loop a client is, a favourable fresh scan lets it through. */
  lemma WaiterGetsThrough(me: Side, other: Side, slack: nat, c: nat)
    requires c < |me.pc| == |me.lease| && |other.lease| == |other.pc|
    requires me.pc[c].Rescan? || (me.pc[c].Scan? && me.pc[c].i <= |other.lease|)
    requires me.pc[c].ticket < Fresh(other, |other.lease|) + slack
    ensures GetsThrough(me, other, slack, c)
  {
    if me.pc[c].Rescan? {
      RescannerGetsThrough(me, other, slack, c);
    } else {
      var n, mid := SoloEndsScan(me, other, slack, c);
      RescanGetsThrough(me, other, slack, c, n, mid);
    }
  }

  ghost predicate IdleOrWaiting(side: Side) {
    forall c: nat | c < |side.pc| :: side.pc[c] == Idle || side.pc[c].Waiting()
  }

  lemma {:induction false} FreshIsSomebodysTicket(side: Side, n: nat)
    requires Leases(side) && IdleOrWaiting(side) && n <= |side.lease|
    ensures Fresh(side, n) == side.next
         || exists c: nat :: c < n && side.pc[c].Waiting() && side.pc[c].ticket == Fresh(side, n)
    ensures forall c: nat | c < n && side.pc[c].Waiting() :: Fresh(side, n) <= side.pc[c].ticket
  {
    if n > 0 {
      FreshIsSomebodysTicket(side, n - 1);
      assert LeaseOk(side.pc[n - 1], side.lease[n - 1], side.next);
    }
  }

  /** Nobody deadlocks: if all active clients sit in their wait loops and both a Put and a Get are
      among them, then some client gets through on its own, no matter how stale its scan is. */
  lemma SomebodyGetsThrough<Item(!new)>(run: seq<State<Item>>, p0: nat, c0: nat)
    requires Run(run)
    requires var s := run[|run| - 1];
             && IdleOrWaiting(s.prod) && IdleOrWaiting(s.cons)
             && p0 < |s.prod.pc| && s.prod.pc[p0].Waiting()
             && c0 < |s.cons.pc| && s.cons.pc[c0].Waiting()
    ensures var s := run[|run| - 1];
            ((exists p: nat :: p < |s.prod.pc| && s.prod.pc[p].Waiting() && GetsThrough(s.prod, s.cons, s.size, p))
             || (exists c: nat :: c < |s.cons.pc| && s.cons.pc[c].Waiting() && GetsThrough(s.cons, s.prod, 0, c)))
  {
    RunKeepsInv(run);
    var s := run[|run| - 1];
    FreshIsSomebodysTicket(s.prod, |s.prod.pc|);
    FreshIsSomebodysTicket(s.cons, |s.cons.pc|);
    var p: nat :| p < |s.prod.pc| && s.prod.pc[p].Waiting() && s.prod.pc[p].ticket == Fresh(s.prod, |s.prod.pc|);
    var c: nat :| c < |s.cons.pc| && s.cons.pc[c].Waiting() && s.cons.pc[c].ticket == Fresh(s.cons, |s.cons.pc|);
    if s.prod.pc[p].ticket < s.cons.pc[c].ticket + s.size {
      assert s.prod.pc[p].Scan? ==> Vouches(s.cons, s.prod.pc[p].pos, s.prod.pc[p].i);
      WaiterGetsThrough(s.prod, s.cons, s.size, p);
    } else {
      assert s.cons.pc[c].Scan? ==> Vouches(s.prod, s.cons.pc[c].pos, s.cons.pc[c].i);
      WaiterGetsThrough(s.cons, s.prod, 0, c);
    }
  }

  lemma {:induction false} FreshOfQuiet(side: Side, n: nat)
    requires Leases(side) && Quiet(side) && n <= |side.lease|
    ensures Fresh(side, n) == side.next
  {
    if n > 0 {
      FreshOfQuiet(side, n - 1);
      assert LeaseOk(side.pc[n - 1], side.lease[n - 1], side.next);
    }
  }

  /** No scan comes out above the other side's next ticket. */
  lemma {:induction false} SoloStaysStuck(me: Side, other: Side, slack: nat, c: nat, n: nat)
    requires c < |me.pc| == |me.lease| && |other.lease| == |other.pc|
    requires me.pc[c].Waiting() && me.pc[c].ticket >= other.next + slack
    requires me.pc[c].Scan? ==> me.pc[c].pos <= other.next
    ensures var (me', other') := Solo(me, other, slack, c, n);
            && me'.pc[c].Waiting() && me'.pc[c].ticket == me.pc[c].ticket && other'.next == other.next
            && (me'.pc[c].Scan? ==> me'.pc[c].pos <= other.next)
  {
    if n > 0 {
      SoloStaysStuck(me, other, slack, c, n - 1);
    }
  }

  /** Against a side with no call in progress, waiting ends exactly if the ticket is within reach. */
  lemma WaiterAgainstQuietSide(me: Side, other: Side, slack: nat, c: nat)
    requires c < |me.pc| == |me.lease| && me.pc[c].Waiting()
    requires Scans(me, other) && Leases(other) && Quiet(other)
    ensures GetsThrough(me, other, slack, c) <==> me.pc[c].ticket < other.next + slack
  {
    FreshOfQuiet(other, |other.lease|);
    assert me.pc[c].Scan? ==> Vouches(other, me.pc[c].pos, me.pc[c].i);
    if me.pc[c].ticket < other.next + slack {
      WaiterGetsThrough(me, other, slack, c);
    } else {
      forall n: nat ensures !Solo(me, other, slack, c, n).0.pc[c].Granted? {
        SoloStaysStuck(me, other, slack, c, n);
      }
    }
  }

  /** With no Get active, a waiting Put is blocked exactly by a full ring: it gets through on its own
      if and only if fewer than size tickets lie between tail_ and its own. */
  lemma PutBlockedByFullRing<Item(!new)>(run: seq<State<Item>>, p: nat)
    requires Run(run) && Quiet(run[|run| - 1].cons)
    requires var s := run[|run| - 1]; p < |s.prod.pc| && s.prod.pc[p].Waiting()
    ensures var s := run[|run| - 1];
            (GetsThrough(s.prod, s.cons, s.size, p) <==> s.prod.pc[p].ticket < s.cons.next + s.size)
  {
    RunKeepsInv(run);
    var s := run[|run| - 1];
    WaiterAgainstQuietSide(s.prod, s.cons, s.size, p);
  }

  /** With no Put active, a waiting Get is blocked exactly by an empty ring. */
  lemma GetBlockedByEmptyRing<Item(!new)>(run: seq<State<Item>>, c: nat)
    requires Run(run) && Quiet(run[|run| - 1].prod)
    requires var s := run[|run| - 1]; c < |s.cons.pc| && s.cons.pc[c].Waiting()
    ensures var s := run[|run| - 1];
            (GetsThrough(s.cons, s.prod, 0, c) <==> s.cons.pc[c].ticket < s.prod.next)
  {
    RunKeepsInv(run);
    var s := run[|run| - 1];
    WaiterAgainstQuietSide(s.cons, s.prod, 0, c);
  }

  // ------------------------------------------------------------ whole calls

  /** Operations of producer p with everybody else standing still; the first of `items` is the argument
      if a Put starts here. */
  ghost function PutAlone<Item>(s: State<Item>, p: nat, items: seq<Item>): (r: State<Item>)
    requires WellFormed(s) && p < |s.prod.pc|
    ensures WellFormed(r) && |r.prod.pc| == |s.prod.pc|
  {
    if items == [] then s else PutStep(PutAlone(s, p, items[..|items| - 1]), p, items[|items| - 1])
  }

  ghost function GetAlone<Item>(s: State<Item>, c: nat, n: nat): (r: State<Item>)
    requires WellFormed(s) && c < |s.cons.pc|
    ensures WellFormed(r) && |r.cons.pc| == |s.cons.pc|
    decreases n
  {
    if n == 0 then s else GetAlone(GetStep(s, c), c, n - 1)
  }

  lemma PutOneMore<Item>(s: State<Item>, p: nat, items: seq<Item>, k: nat)
    requires WellFormed(s) && p < |s.prod.pc| && k < |items|
    ensures PutAlone(s, p, items[..k + 1]) == PutStep(PutAlone(s, p, items[..k]), p, items[k])
  {
    assert items[..k + 1][..k] == items[..k];
  }

  lemma {:induction false} PutAloneSplits<Item>(s: State<Item>, p: nat, a: seq<Item>, b: seq<Item>)
    requires WellFormed(s) && p < |s.prod.pc|
    ensures PutAlone(s, p, a + b) == PutAlone(PutAlone(s, p, a), p, b)
  {
    if b == [] {
      assert a + b == a;
    } else {
      assert (a + b)[..|a + b| - 1] == a + b[..|b| - 1];
      PutAloneSplits(s, p, a, b[..|b| - 1]);
    }
  }

  lemma {:induction false} GetAloneSplits<Item>(s: State<Item>, c: nat, m: nat, n: nat, all: nat)
    requires WellFormed(s) && c < |s.cons.pc| && all == m + n
    ensures GetAlone(s, c, all) == GetAlone(GetAlone(s, c, m), c, n)
    decreases m
  {
    if m > 0 {
      GetAloneSplits(GetStep(s, c), c, m - 1, n, all - 1);
    }
  }

  lemma GetOneMore<Item>(s: State<Item>, c: nat, k: nat, n: nat)
    requires WellFormed(s) && c < |s.cons.pc| && n == k + 1
    ensures GetAlone(s, c, n) == GetStep(GetAlone(s, c, k), c)
  {
    GetAloneSplits(s, c, k, 1, n);
    var r := GetAlone(s, c, k);
    assert GetAlone(r, c, 1) == GetAlone(GetStep(r, c), c, 0);
  }

  /** While a client scans, only its program point changes. */
  lemma ScanGoesOn(me: Side, other: Side, slack: nat, c: nat, n: nat)
    requires c < |me.pc| == |me.lease| && |other.lease| == |other.pc|
    requires me.pc[c].Rescan? && n < |other.lease| + 2
    ensures Solo(me, other, slack, c, n).0.pc[c].Waiting()
  {
    if n > 0 {
      SoloScanComputesFresh(me, other, slack, c, n - 1);
    }
  }

  lemma {:induction false} PutScans<Item>(s: State<Item>, p: nat, items: seq<Item>)
    requires WellFormed(s) && p < |s.prod.pc| && s.prod.pc[p].Rescan? && |items| <= |s.cons.lease| + 2
    ensures var (prod, cons) := Solo(s.prod, s.cons, s.size, p, |items|);
            PutAlone(s, p, items) == s.(prod := prod, cons := cons)
  {
    if items != [] {
      PutScans(s, p, items[..|items| - 1]);
      ScanGoesOn(s.prod, s.cons, s.size, p, |items| - 1);
    }
  }

  lemma {:induction false} GetScans<Item>(s: State<Item>, c: nat, n: nat)
    requires WellFormed(s) && c < |s.cons.pc| && s.cons.pc[c].Rescan? && n <= |s.prod.lease| + 2
    ensures var (cons, prod) := Solo(s.cons, s.prod, 0, c, n);
            GetAlone(s, c, n) == s.(prod := prod, cons := cons)
  {
    if n > 0 {
      GetScans(s, c, n - 1);
      GetOneMore(s, c, n - 1, n);
      ScanGoesOn(s.cons, s.prod, 0, c, n - 1);
    }
  }

  /** A client that has drawn the next ticket. */
  function Drawn(side: Side, c: nat, pc: Pc): Side
    requires c < |side.pc| == |side.lease|
  {
    side.(next := side.next + 1, pc := side.pc[c := pc], lease := side.lease[c := At(side.next)],
          owner := side.owner + [c])
  }

  /** The first operations of a call: the argument, the reservation, the ticket. */
  lemma PutReserves<Item>(s: State<Item>, p: nat, items: seq<Item>)
    requires WellFormed(s) && p < |s.prod.pc| && s.prod.pc[p] == Idle && |items| == 2
    ensures PutAlone(s, p, items)
         == s.(prod := s.prod.(pc := s.prod.pc[p := Reserved], lease := s.prod.lease[p := At(s.prod.next)]),
               arg := s.arg[p := items[0]])
  {
    PutOneMore(s, p, items, 0);
    PutOneMore(s, p, items, 1);
    assert items[..2] == items;
    assert PutAlone(s, p, items).prod.pc == s.prod.pc[p := Reserved];
  }

  lemma PutTakesTicket<Item>(s: State<Item>, p: nat, items: seq<Item>)
    requires WellFormed(s) && p < |s.prod.pc| && s.prod.pc[p] == Reserved && |items| == 2
    ensures PutAlone(s, p, items)
         == s.(prod := Drawn(s.prod, p, Leased(s.prod.next)), puts := s.puts + [s.arg[p]])
  {
    PutOneMore(s, p, items, 0);
    PutOneMore(s, p, items, 1);
    assert items[..2] == items;
    assert PutAlone(s, p, items).prod.pc == s.prod.pc[p := Leased(s.prod.next)];
  }

  lemma PutDraws<Item>(s: State<Item>, p: nat, items: seq<Item>)
    requires WellFormed(s) && p < |s.prod.pc| && s.prod.pc[p] == Idle && |items| == 4
    ensures PutAlone(s, p, items)
         == s.(prod := Drawn(s.prod, p, Leased(s.prod.next)), arg := s.arg[p := items[0]], puts := s.puts + [items[0]])
  {
    assert items == items[..2] + items[2..];
    PutAloneSplits(s, p, items[..2], items[2..]);
    PutReserves(s, p, items[..2]);
    PutTakesTicket(PutAlone(s, p, items[..2]), p, items[2..]);
    var r := PutAlone(s, p, items);
    assert r.prod.pc == Drawn(s.prod, p, Leased(s.prod.next)).pc;
    assert r.prod.lease == Drawn(s.prod, p, Leased(s.prod.next)).lease;
  }

  lemma GetDraws<Item>(s: State<Item>, c: nat)
    requires WellFormed(s) && c < |s.cons.pc| && s.cons.pc[c] == Idle
    ensures GetAlone(s, c, 4) == s.(cons := Drawn(s.cons, c, Leased(s.cons.next)))
  {
    GetOneMore(s, c, 0, 1);
    GetOneMore(s, c, 1, 2);
    GetOneMore(s, c, 2, 3);
    GetOneMore(s, c, 3, 4);
    var r := GetAlone(s, c, 4);
    assert r.cons.pc == Drawn(s.cons, c, Leased(s.cons.next)).pc;
    assert r.cons.lease == Drawn(s.cons, c, Leased(s.cons.next)).lease;
  }

  /** From the start of the wait loop to the grant: at once, or after one scan. */
  function WaitLength(m: nat, ticket: nat, last: nat, slack: nat): nat {
    if ticket >= last + slack then m + 3 else 1
  }

  lemma PutWaits<Item>(s: State<Item>, p: nat, items: seq<Item>)
    requires WellFormed(s) && p < |s.prod.pc| && s.prod.pc[p].Leased?
    requires Quiet(s.cons) && Leases(s.cons) && s.prod.pc[p].ticket < s.cons.next + s.size
    requires |items| == WaitLength(|s.cons.lease|, s.prod.pc[p].ticket, s.cons.last, s.size)
    ensures var r := PutAlone(s, p, items);
            r == s.(prod := Moved(s.prod, p, Granted(s.prod.pc[p].ticket)), cons := s.cons.(last := r.cons.last))
  {
    PutOneMore(s, p, items, 0);
    if |items| == 1 {
      assert items[..1] == items;
      assert PutAlone(s, p, items).cons == s.cons.(last := s.cons.last);
    } else {
      var s1 := PutAlone(s, p, items[..1]);
      assert items == items[..1] + items[1..];
      PutAloneSplits(s, p, items[..1], items[1..]);
      PutScansThrough(s1, p, items[1..]);
      MovedTwice(s.prod, p, s1.prod.pc[p], Granted(s.prod.pc[p].ticket));
      assert s1.cons == s.cons;
    }
  }

  lemma PutScansThrough<Item>(s: State<Item>, p: nat, items: seq<Item>)
    requires WellFormed(s) && p < |s.prod.pc| && s.prod.pc[p].Rescan? && |items| == |s.cons.lease| + 2
    requires Quiet(s.cons) && Leases(s.cons) && s.prod.pc[p].ticket < s.cons.next + s.size
    ensures PutAlone(s, p, items)
         == s.(prod := Moved(s.prod, p, Granted(s.prod.pc[p].ticket)), cons := s.cons.(last := s.cons.next))
  {
    PutScans(s, p, items);
    SoloScanOutcome(s.prod, s.cons, s.size, p);
    FreshOfQuiet(s.cons, |s.cons.lease|);
  }

  lemma GetWaits<Item>(s: State<Item>, c: nat, n: nat)
    requires WellFormed(s) && c < |s.cons.pc| && s.cons.pc[c].Leased?
    requires Quiet(s.prod) && Leases(s.prod) && s.cons.pc[c].ticket < s.prod.next
    requires n == WaitLength(|s.prod.lease|, s.cons.pc[c].ticket, s.prod.last, 0)
    ensures var r := GetAlone(s, c, n);
            r == s.(cons := Moved(s.cons, c, Granted(s.cons.pc[c].ticket)), prod := s.prod.(last := r.prod.last))
  {
    GetOneMore(s, c, 0, 1);
    var s1 := GetAlone(s, c, 1);
    if n == 1 {
      assert s1 == s.(cons := Moved(s.cons, c, Granted(s.cons.pc[c].ticket)), prod := s.prod.(last := s.prod.last));
    } else {
      GetAloneSplits(s, c, 1, n - 1, n);
      GetScans(s1, c, n - 1);
      SoloScanOutcome(s1.cons, s1.prod, 0, c);
      FreshOfQuiet(s.prod, |s.prod.lease|);
      MovedTwice(s.cons, c, s1.cons.pc[c], Granted(s.cons.pc[c].ticket));
      assert s1.prod == s.prod;
    }
  }

  /** The slot access and the end of the call. */
  lemma PutEnds<Item>(s: State<Item>, p: nat, items: seq<Item>)
    requires WellFormed(s) && p < |s.prod.pc| && s.prod.pc[p].Granted? && |items| == 2
    ensures var t := s.prod.pc[p].ticket;
            PutAlone(s, p, items)
              == s.(prod := s.prod.(pc := s.prod.pc[p := Idle], lease := s.prod.lease[p := Unset],
                                    done := s.prod.done + {t}),
                    slots := s.slots[t % s.size := s.arg[p]])
  {
    PutOneMore(s, p, items, 0);
    PutOneMore(s, p, items, 1);
    assert items[..2] == items;
    assert PutAlone(s, p, items).prod.pc == s.prod.pc[p := Idle];
  }

  lemma GetEnds<Item>(s: State<Item>, c: nat)
    requires WellFormed(s) && c < |s.cons.pc| && s.cons.pc[c].Granted?
    ensures var t := s.cons.pc[c].ticket;
            GetAlone(s, c, 2)
              == s.(cons := s.cons.(pc := s.cons.pc[c := Idle], lease := s.cons.lease[c := Unset],
                                    done := s.cons.done + {t}),
                    gets := s.gets[t := s.slots[t % s.size]])
  {
    GetOneMore(s, c, 0, 1);
    GetOneMore(s, c, 1, 2);
    assert GetAlone(s, c, 2).cons.pc == s.cons.pc[c := Idle];
  }

  /** The operations of a whole call that may enter at once, or after one scan of m clients. */
  function CallLength(m: nat, ticket: nat, last: nat, slack: nat): nat {
    6 + WaitLength(m, ticket, last, slack)
  }

  /** A lone Put on a ring that is not full ends: it draws one ticket, stores its argument in the slot of
      that ticket and clears its reservation. */
  lemma LonePut<Item(!new)>(run: seq<State<Item>>, p: nat, items: seq<Item>)
    requires Run(run) && Quiet(run[|run| - 1].prod) && Quiet(run[|run| - 1].cons)
    requires var s := run[|run| - 1]; p < |s.prod.pc| && s.prod.next < s.cons.next + s.size
    requires var s := run[|run| - 1]; |items| == CallLength(|s.cons.lease|, s.prod.next, s.cons.last, s.size)
    ensures var s := run[|run| - 1];
            && WellFormed(s)
            && var r := PutAlone(s, p, items);
               && r.puts == s.puts + [items[0]] && r.slots == s.slots[s.prod.next % s.size := items[0]]
               && r.prod.next == s.prod.next + 1 && r.cons.next == s.cons.next && r.gets == s.gets
               && Quiet(r.prod) && Quiet(r.cons)
  {
    RunKeepsInv(run);
    var s, n := run[|run| - 1], |items|;
    var a, b, c := items[..4], items[4..n - 2], items[n - 2..];
    assert items == a + b + c && items[0] == a[0];
    PutAloneSplits(s, p, a + b, c);
    PutAloneSplits(s, p, a, b);
    PutDraws(s, p, a);
    PutWaits(PutAlone(s, p, a), p, b);
    PutEnds(PutAlone(s, p, a + b), p, c);
  }

  /** A lone Get on a ring that is not empty ends, and returns the oldest value. */
  lemma LoneGet<Item(!new)>(run: seq<State<Item>>, c: nat, n: nat)
    requires Run(run) && Quiet(run[|run| - 1].prod) && Quiet(run[|run| - 1].cons)
    requires var s := run[|run| - 1]; c < |s.cons.pc| && s.cons.next < s.prod.next
    requires var s := run[|run| - 1]; n == CallLength(|s.prod.lease|, s.cons.next, s.prod.last, 0)
    ensures var s := run[|run| - 1];
            && WellFormed(s)
            && var r := GetAlone(s, c, n);
               && s.cons.next < |s.puts| && r.gets == s.gets[s.cons.next := s.puts[s.cons.next]]
               && r.cons.next == s.cons.next + 1 && r.prod.next == s.prod.next && r.puts == s.puts
               && r.slots == s.slots && Quiet(r.prod) && Quiet(r.cons)
  {
    RunKeepsInv(run);
    QuietQueueIsFifo(run);
    var s := run[|run| - 1];
    GetAloneSplits(s, c, n - 2, 2, n);
    GetAloneSplits(s, c, 4, n - 6, n - 2);
    GetDraws(s, c);
    GetWaits(GetAlone(s, c, 4), c, n - 6);
    GetEnds(GetAlone(s, c, n - 2), c);
  }

  // -------------------------------------------------- one ticket for each call

  function Half<Item>(s: State<Item>, producing: bool): Side {
    if producing then s.prod else s.cons
  }

  /** Client c draws exactly ticket k of those from number `from` on. */
  ghost predicate DrewOnly(owner: seq<nat>, from: nat, c: nat, k: nat) {
    && from <= k < |owner| && owner[k] == c
    && forall j: nat | from <= j < |owner| && owner[j] == c :: j == k
  }

  ghost predicate DrewNone(owner: seq<nat>, from: nat, c: nat) {
    from <= |owner| && forall j: nat | from <= j < |owner| :: owner[j] != c
  }

  /** A call of client c, from step i to step j. */
  ghost predicate CallSpans<Item>(run: seq<State<Item>>, producing: bool, c: nat, i: nat, j: nat) {
    && i + 1 < j < |run|
    && (forall k: nat | i <= k <= j :: c < |Half(run[k], producing).pc|)
    && Half(run[i], producing).pc[c] == Idle == Half(run[j], producing).pc[c]
    && forall k: nat | i < k < j :: Half(run[k], producing).pc[c] != Idle
  }

  /** Where a call is that has begun with `from` tickets drawn by anybody. */
  ghost predicate InCall(side: Side, from: nat, c: nat) {
    && c < |side.pc|
    && match side.pc[c]
       case Idle => false
       case Loaded(_) => DrewNone(side.owner, from, c)
       case Reserved => DrewNone(side.owner, from, c)
       case pc => DrewOnly(side.owner, from, c, pc.ticket)
  }

  /** The next state of client c, be it its own move or that of somebody else. */
  ghost predicate MovesOn(side: Side, side': Side, c: nat) {
    && c < |side.pc| == |side'.pc|
    && (|| (side'.pc[c] == side.pc[c] && side'.owner == side.owner)
        || (side'.pc[c] == side.pc[c] && exists d: nat :: d != c && side'.owner == side.owner + [d])
        || OwnMove(side, side', c))
  }

  ghost predicate OwnMove(side: Side, side': Side, c: nat)
    requires c < |side.pc| == |side'.pc|
  {
    match side.pc[c]
    case Idle => side'.pc[c].Loaded? && side'.owner == side.owner
    case Loaded(_) => side'.pc[c].Reserved? && side'.owner == side.owner
    case Reserved => side'.pc[c] == Ticketed(|side.owner|) && side'.owner == side.owner + [c]
    case Finished(_) => side'.pc[c] == Idle && side'.owner == side.owner
    case pc =>
      !side'.pc[c].Idle? && !side'.pc[c].Loaded? && !side'.pc[c].Reserved?
      && side'.pc[c].ticket == pc.ticket && side'.owner == side.owner
  }

  lemma ClientMovesOn(me: Side, other: Side, slack: nat, d: nat, c: nat)
    requires d < |me.pc| == |me.lease| && |other.lease| == |other.pc| && c < |me.pc| && |me.owner| == me.next
    ensures MovesOn(me, ClientStep(me, other, slack, d).0, c)
  {
    var me' := ClientStep(me, other, slack, d).0;
    if d != c && me.pc[d].Reserved? {
      assert me'.owner == me.owner + [d];
    }
  }

  lemma PutMovesOn<Item>(s: State<Item>, p: nat, item: Item, producing: bool, c: nat)
    requires WellFormed(s) && p < |s.prod.pc| && c < |Half(s, producing).pc| && |s.prod.owner| == s.prod.next
    ensures MovesOn(Half(s, producing), Half(PutStep(s, p, item), producing), c)
  {
    if producing {
      ClientMovesOn(s.prod, s.cons, s.size, p, c);
    }
  }

  lemma GetMovesOn<Item>(s: State<Item>, d: nat, producing: bool, c: nat)
    requires WellFormed(s) && d < |s.cons.pc| && c < |Half(s, producing).pc| && |s.cons.owner| == s.cons.next
    ensures MovesOn(Half(s, producing), Half(GetStep(s, d), producing), c)
  {
    if !producing {
      ClientMovesOn(s.cons, s.prod, 0, d, c);
    }
  }

  lemma NextMovesOn<Item(!new)>(s: State<Item>, s': State<Item>, producing: bool, c: nat)
    requires WellFormed(s) && Next(s, s') && c < |Half(s, producing).pc|
    requires |s.prod.owner| == s.prod.next && |s.cons.owner| == s.cons.next
    ensures MovesOn(Half(s, producing), Half(s', producing), c)
  {
    if p: nat, item: Item :| p < |s.prod.pc| && s' == PutStep(s, p, item) {
      PutMovesOn(s, p, item, producing, c);
    } else {
      var d: nat :| d < |s.cons.pc| && s' == GetStep(s, d);
      GetMovesOn(s, d, producing, c);
    }
  }

  lemma DrawnByOthers(owner: seq<nat>, from: nat, c: nat, d: nat)
    requires d != c
    ensures DrewNone(owner, from, c) ==> DrewNone(owner + [d], from, c)
    ensures forall k: nat :: DrewOnly(owner, from, c, k) ==> DrewOnly(owner + [d], from, c, k)
  {
  }

  /** A move keeps a call where it should be; its end leaves exactly one ticket drawn. */
  lemma MoveKeepsCall(side: Side, side': Side, from: nat, c: nat)
    requires MovesOn(side, side', c) && InCall(side, from, c)
    ensures if side'.pc[c] == Idle then side.pc[c].Finished? && DrewOnly(side'.owner, from, c, side.pc[c].ticket)
            else InCall(side', from, c)
  {
    if d: nat :| d != c && side'.owner == side.owner + [d] && side'.pc[c] == side.pc[c] {
      DrawnByOthers(side.owner, from, c, d);
    }
  }

  lemma InvHoldsAt<Item(!new)>(run: seq<State<Item>>, k: nat)
    requires Run(run) && k < |run|
    ensures Inv(run[k]) && (k + 1 < |run| ==> Next(run[k], run[k + 1]))
  {
    PrefixRuns(run, k + 1);
    RunKeepsInv(run[..k + 1]);
    assert NextAt(run, k);
  }

  lemma CallMovesAt<Item(!new)>(run: seq<State<Item>>, producing: bool, c: nat, k: nat)
    requires Run(run) && k + 1 < |run| && c < |Half(run[k], producing).pc|
    ensures MovesOn(Half(run[k], producing), Half(run[k + 1], producing), c)
  {
    InvHoldsAt(run, k);
    NextMovesOn(run[k], run[k + 1], producing, c);
  }

  lemma {:induction false} CallStaysInCall<Item(!new)>(
      run: seq<State<Item>>, producing: bool, c: nat, i: nat, j: nat, k: nat)
    requires Run(run) && CallSpans(run, producing, c, i, j) && i < k < j
    ensures InCall(Half(run[k], producing), |Half(run[i], producing).owner|, c)
  {
    CallMovesAt(run, producing, c, k - 1);
    if k > i + 1 {
      CallStaysInCall(run, producing, c, i, j, k - 1);
      MoveKeepsCall(Half(run[k - 1], producing), Half(run[k], producing), |Half(run[i], producing).owner|, c);
    }
  }

  lemma TicketOfCall<Item(!new)>(run: seq<State<Item>>, producing: bool, c: nat, i: nat, j: nat) returns (k: nat)
    requires Run(run) && CallSpans(run, producing, c, i, j)
    ensures Half(run[j - 1], producing).pc[c] == Finished(k)
    ensures DrewOnly(Half(run[j], producing).owner, |Half(run[i], producing).owner|, c, k)
  {
    CallStaysInCall(run, producing, c, i, j, j - 1);
    CallMovesAt(run, producing, c, j - 1);
    MoveKeepsCall(Half(run[j - 1], producing), Half(run[j], producing), |Half(run[i], producing).owner|, c);
    k := Half(run[j - 1], producing).pc[c].ticket;
  }

  /** What has been drawn and is held by nobody is done. */
  lemma DrawnAndIdleIsDone(side: Side, from: nat, c: nat, k: nat)
    requires Tickets(side) && DrewOnly(side.owner, from, c, k) && c < |side.pc| && side.pc[c] == Idle
    ensures k in side.done
  {
  }

  /** In every run each call of Put or Get draws exactly one ticket, and touches its slot before it returns. */
  lemma CallDrawsOneTicket<Item(!new)>(run: seq<State<Item>>, producing: bool, c: nat, i: nat, j: nat)
    requires Run(run) && CallSpans(run, producing, c, i, j)
    ensures exists k: nat ::
              DrewOnly(Half(run[j], producing).owner, |Half(run[i], producing).owner|, c, k)
              && k in Half(run[j], producing).done
  {
    var k := TicketOfCall(run, producing, c, i, j);
    InvHoldsAt(run, j);
    DrawnAndIdleIsDone(Half(run[j], producing), |Half(run[i], producing).owner|, c, k);
  }

  /** A Put of `item` that has drawn its ticket has recorded `item` under it. */
  ghost predicate Carries<Item>(s: State<Item>, c: nat, item: Item) {
    && WellFormed(s) && c < |s.prod.pc| && s.arg[c] == item
    && match s.prod.pc[c]
       case Idle => false
       case Loaded(_) => true
       case Reserved => true
       case pc => pc.ticket < |s.puts| && s.puts[pc.ticket] == item
  }

  lemma PutStepCarries<Item>(s: State<Item>, p: nat, x: Item, c: nat, item: Item)
    requires Carries(s, c, item) && p < |s.prod.pc|
    ensures var s' := PutStep(s, p, x);
            && s.puts <= s'.puts && c < |s'.prod.pc|
            && (s'.prod.pc[c] == Idle ==> s.prod.pc[c].Finished?)
            && (s'.prod.pc[c] != Idle ==> Carries(s', c, item))
  {
  }

  lemma NextCarries<Item(!new)>(s: State<Item>, s': State<Item>, c: nat, item: Item)
    requires Carries(s, c, item) && Next(s, s')
    ensures s.puts <= s'.puts && c < |s'.prod.pc|
    ensures s'.prod.pc[c] == Idle ==> s.prod.pc[c].Finished?
    ensures s'.prod.pc[c] != Idle ==> Carries(s', c, item)
  {
    if p: nat, x: Item :| p < |s.prod.pc| && s' == PutStep(s, p, x) {
      PutStepCarries(s, p, x, c, item);
    } else {
      var d: nat :| d < |s.cons.pc| && s' == GetStep(s, d);
    }
  }

  lemma CarriesAt<Item(!new)>(run: seq<State<Item>>, c: nat, k: nat, item: Item)
    requires Run(run) && k + 1 < |run| && Carries(run[k], c, item)
    ensures run[k].puts <= run[k + 1].puts && c < |run[k + 1].prod.pc|
    ensures run[k + 1].prod.pc[c] != Idle ==> Carries(run[k + 1], c, item)
  {
    assert NextAt(run, k);
    NextCarries(run[k], run[k + 1], c, item);
  }

  lemma CallBeginsToCarry<Item(!new)>(run: seq<State<Item>>, c: nat, i: nat, j: nat)
    requires Run(run) && CallSpans(run, true, c, i, j)
    ensures c < |run[i + 1].arg| && Carries(run[i + 1], c, run[i + 1].arg[c])
  {
    CallMovesAt(run, true, c, i);
    assert NextAt(run, i + 1);
  }

  lemma {:induction false} CallCarries<Item(!new)>(run: seq<State<Item>>, c: nat, i: nat, j: nat, k: nat, item: Item)
    requires Run(run) && CallSpans(run, true, c, i, j) && i < k < j && Carries(run[i + 1], c, item)
    ensures Carries(run[k], c, item)
  {
    if k > i + 1 {
      CallCarries(run, c, i, j, k - 1, item);
      CarriesAt(run, c, k - 1, item);
    }
  }

  /** And what is recorded under that ticket is the argument the Put was called with. */
  lemma PutStoresItsArgument<Item(!new)>(run: seq<State<Item>>, c: nat, i: nat, j: nat)
    requires Run(run) && CallSpans(run, true, c, i, j)
    ensures c < |run[i + 1].arg|
    ensures exists k: nat ::
              DrewOnly(run[j].prod.owner, |run[i].prod.owner|, c, k)
              && k < |run[j].puts| && run[j].puts[k] == run[i + 1].arg[c]
  {
    CallBeginsToCarry(run, c, i, j);
    var item := run[i + 1].arg[c];
    CallCarries(run, c, i, j, j - 1, item);
    CarriesAt(run, c, j - 1, item);
    var k := TicketOfCall(run, true, c, i, j);
    assert run[j].puts[k] == item;
  }
}
