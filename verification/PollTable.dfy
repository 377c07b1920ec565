/**
 PollSelectorLoop's slot table: an array of pollfd records, how much of it is used, a map from file
 descriptors to slots and user data, and the list of slots that Delete left dead and Compact closes.
 */
module PollTable {
  import opened Arith

  datatype PollFlag = In | RdHup | Out | Err | Hup
  datatype Desires = Desires(read: bool, write: bool, error: bool)
  datatype PollFd = PollFd(fd: int, events: set<PollFlag>, revents: set<PollFlag>)
  datatype Entry<UserData> = Entry(index: nat, userData: UserData)
  datatype Outcome = Ok | InvalidFd | ResourceExhausted | NotFound

  /** `slots` is the whole array, of which the first `size` records are passed to poll. */
  datatype Table<UserData> = Table(
    slots: seq<PollFd>, size: nat, data: map<int, Entry<UserData>>, pending: seq<nat>)

  function PollEvents(desires: Desires): set<PollFlag> {
    (if desires.read then {In, RdHup} else {})
    + (if desires.write then {Out} else {})
    + (if desires.error then {Err, Hup} else {})
  }

  /** What poll is asked for, flag by flag. */
  predicate Asks(events: set<PollFlag>, desires: Desires) {
    && (In in events <==> desires.read) && (RdHup in events <==> desires.read)
    && (Out in events <==> desires.write)
    && (Err in events <==> desires.error) && (Hup in events <==> desires.error)
  }

  lemma PollEventsAsk(desires: Desires)
    ensures Asks(PollEvents(desires), desires)
  {
  }

  /** Different desires ask for different events. */
  lemma AsksForOneDesire(events: set<PollFlag>, d: Desires, e: Desires)
    requires Asks(events, d) && Asks(events, e)
    ensures d == e
  {
  }

  // ------------------------------------------------------- specification

  /** What the array needs to be safe to index. */
  predicate Bounded<UserData>(t: Table<UserData>) {
    && t.size <= |t.slots|
    && (forall fd <- t.data :: t.data[fd].index < |t.slots|)
    && (forall i | 0 <= i < |t.pending| :: t.pending[i] < |t.slots|)
  }

  function Added<UserData>(t: Table<UserData>, fd: int, userData: UserData, desires: Desires): Table<UserData>
    requires t.size < |t.slots|
  {
    Table(t.slots[t.size := PollFd(fd, PollEvents(desires), {})], t.size + 1,
          if fd in t.data then t.data else t.data[fd := Entry(t.size, userData)], t.pending)
  }

  function Updated<UserData>(t: Table<UserData>, fd: int, userData: UserData, desires: Desires): Table<UserData>
    requires Bounded(t) && fd in t.data
  {
    var i := t.data[fd].index;
    t.(slots := t.slots[i := t.slots[i].(events := PollEvents(desires))], data := t.data[fd := Entry(i, userData)])
  }

  function Deleted<UserData>(t: Table<UserData>, fd: int): Table<UserData>
    requires Bounded(t) && fd in t.data
  {
    var i := t.data[fd].index;
    t.(slots := t.slots[i := t.slots[i].(fd := -1)], data := t.data - {fd}, pending := t.pending + [i])
  }

  // std::sort

  function Inserted(x: nat, s: seq<nat>): seq<nat> {
    if s == [] || x <= s[0] then [x] + s else [s[0]] + Inserted(x, s[1..])
  }

  function Sorted(s: seq<nat>): seq<nat> {
    if s == [] then [] else Inserted(s[0], Sorted(s[1..]))
  }

  /** The last slot moves into slot `index`, unless it is that slot or nobody's. */
  function Closed<UserData>(t: Table<UserData>, index: nat): Table<UserData>
    requires 0 < t.size <= |t.slots| && index < |t.slots|
  {
    var last := t.size - 1;
    var fd := t.slots[last].fd;
    if last == 0 || index == last || fd !in t.data then t.(size := last)
    else t.(size := last,
            data := t.data[fd := Entry(index, t.data[fd].userData)],
            slots := t.slots[index := PollFd(fd, t.slots[last].events, {})])
  }

  /** Closes indices[k - 1], ..., indices[0], as long as slots are left. */
  function ClosedAll<UserData>(t: Table<UserData>, indices: seq<nat>, k: nat): Table<UserData>
    requires t.size <= |t.slots| && k <= |indices| && forall i | 0 <= i < k :: indices[i] < |t.slots|
    decreases k
  {
    if k == 0 || t.size == 0 then t else ClosedAll(Closed(t, indices[k - 1]), indices, k - 1)
  }

  lemma {:induction false} InsertedMembers(x: nat, s: seq<nat>)
    ensures multiset(Inserted(x, s)) == multiset(s) + multiset{x} && |Inserted(x, s)| == |s| + 1
  {
    if s != [] && x > s[0] {
      InsertedMembers(x, s[1..]);
      assert s == [s[0]] + s[1..];
    }
  }

  lemma {:induction false} SortedMembers(s: seq<nat>)
    ensures multiset(Sorted(s)) == multiset(s) && |Sorted(s)| == |s|
  {
    if s != [] {
      SortedMembers(s[1..]);
      InsertedMembers(s[0], Sorted(s[1..]));
      assert s == [s[0]] + s[1..];
    }
  }

  lemma SortedBounded<UserData>(t: Table<UserData>)
    requires Bounded(t)
    ensures forall i | 0 <= i < |Sorted(t.pending)| :: Sorted(t.pending)[i] < |t.slots|
  {
    SortedMembers(t.pending);
    forall i | 0 <= i < |Sorted(t.pending)| ensures Sorted(t.pending)[i] < |t.slots| {
      assert Sorted(t.pending)[i] in multiset(Sorted(t.pending));
      assert Sorted(t.pending)[i] in t.pending;
    }
  }

  /** The list of pending slots is sorted in place and otherwise stays as it is. */
  function Compacted<UserData>(t: Table<UserData>): Table<UserData>
    requires Bounded(t)
  {
    SortedBounded(t);
    var indices := Sorted(t.pending);
    if t.pending == [] then t else ClosedAll(t.(pending := indices), indices, |indices|)
  }

  // ------------------------------------------------------------ the class

  const MAX_FDS: nat := 4096

  class PollSelectorLoop<UserData> {
    var fds: array<PollFd>
    var fdsSize: nat
    var fdData: map<int, Entry<UserData>>
    var indicesToCompact: seq<nat>

    ghost function Contents(): Table<UserData>
      reads this, fds
    {
      Table(fds[..], fdsSize, fdData, indicesToCompact)
    }

    ghost predicate Valid()
      reads this, fds
    {
      fds.Length == MAX_FDS && Bounded(Contents())
    }

    /** The descriptor of the wake signal comes first. Adding it fails if it is negative. */
    constructor (signalFd: int, nothing: UserData)
      ensures Valid() && fresh(fds)
      ensures signalFd >= 0 ==> Asks(fds[0].events, Desires(true, false, true))
      ensures signalFd >= 0 ==>
                fdsSize == 1 && fds[0] == PollFd(signalFd, PollEvents(Desires(true, false, true)), {})
                && fdData == map[signalFd := Entry(0, nothing)] && indicesToCompact == []
      ensures signalFd < 0 ==> fdsSize == 0 && fdData == map[] && indicesToCompact == []
    {
      fds := new PollFd[MAX_FDS](_ => PollFd(0, {}, {}));
      fdsSize, fdData, indicesToCompact := 0, map[], [];
      new;
      var outcome := Add(signalFd, nothing, Desires(true, false, true));
    }

    method Add(fd: int, userData: UserData, desires: Desires) returns (outcome: Outcome)
      requires Valid()
      modifies this, fds
      ensures Valid() && fds == old(fds)
      ensures outcome == if fd < 0 then InvalidFd else if old(fdsSize) >= MAX_FDS then ResourceExhausted else Ok
      ensures outcome == Ok ==> Contents() == Added(old(Contents()), fd, userData, desires)
      ensures outcome == Ok ==>
                && fdsSize == old(fdsSize) + 1 && fds[old(fdsSize)].fd == fd && Asks(fds[old(fdsSize)].events, desires)
                && (forall i | 0 <= i < fds.Length && i != old(fdsSize) :: fds[i] == old(fds[i]))
                && fd in fdData && (fd !in old(fdData) ==> fdData[fd] == Entry(old(fdsSize), userData))
      ensures outcome != Ok ==> Contents() == old(Contents())
    {
      if fd < 0 {
        return InvalidFd;
      }
      if fdsSize >= MAX_FDS {
        return ResourceExhausted;
      }
      PollEventsAsk(desires);
      fds[fdsSize] := PollFd(fd, PollEvents(desires), {});
      if fd !in fdData {
        fdData := fdData[fd := Entry(fdsSize, userData)];
      }
      fdsSize := fdsSize + 1;
      return Ok;
    }

    method Update(fd: int, userData: UserData, desires: Desires) returns (outcome: Outcome)
      requires Valid()
      modifies this, fds
      ensures Valid() && fds == old(fds)
      ensures outcome == if fd in old(fdData) then Ok else NotFound
      ensures Contents() == if fd in old(fdData) then Updated(old(Contents()), fd, userData, desires)
                            else old(Contents())
      ensures outcome == Ok ==>
                && fd in old(fdData) && fdData == old(fdData)[fd := Entry(old(fdData[fd].index), userData)]
                && var i := old(fdData[fd].index);
                   && i < fds.Length && fds[i].fd == old(fds[..])[i].fd && Asks(fds[i].events, desires)
                   && (forall j | 0 <= j < fds.Length && j != i :: fds[j] == old(fds[j]))
    {
      if fd !in fdData {
        return NotFound;
      }
      var index := fdData[fd].index;
      PollEventsAsk(desires);
      fds[index] := fds[index].(events := PollEvents(desires));
      fdData := fdData[fd := Entry(index, userData)];
      return Ok;
    }

    method Delete(fd: int) returns (outcome: Outcome)
      requires Valid()
      modifies this, fds
      ensures Valid() && fds == old(fds)
      ensures outcome == if fd in old(fdData) then Ok else NotFound
      ensures Contents() == if fd in old(fdData) then Deleted(old(Contents()), fd) else old(Contents())
    {
      if fd !in fdData {
        return NotFound;
      }
      var index := fdData[fd].index;
      indicesToCompact := indicesToCompact + [index];
      fds[index] := fds[index].(fd := -1);
      fdData := fdData - {fd};
      return Ok;
    }

    /** The body of Compact's loop. */
    method CloseSlot(index: nat)
      requires Valid() && fdsSize > 0 && index < MAX_FDS
      modifies this, fds
      ensures Valid() && fds == old(fds)
      ensures Contents() == Closed(old(Contents()), index)
    {
      fdsSize := fdsSize - 1;
      if fdsSize == 0 || index == fdsSize {
        return;
      }
      var fd := fds[fdsSize].fd;
      if fd !in fdData {
        return;
      }
      fdData := fdData[fd := Entry(index, fdData[fd].userData)];
      fds[index] := PollFd(fd, fds[fdsSize].events, {});
    }

    method Compact()
      requires Valid()
      modifies this, fds
      ensures Valid() && fds == old(fds)
      ensures Contents() == Compacted(old(Contents()))
    {
      if indicesToCompact == [] {
        return;
      }
      SortedBounded(Contents());
      SortedMembers(indicesToCompact);
      indicesToCompact := Sorted(indicesToCompact);
      ghost var start := Contents();
      var i: nat := |indicesToCompact|;
      while i > 0 && fdsSize > 0
        invariant i <= |indicesToCompact| && indicesToCompact == start.pending
        invariant Valid() && fds == old(fds)
        invariant ClosedAll(Contents(), start.pending, i) == ClosedAll(start, start.pending, |start.pending|)
      {
        CloseSlot(indicesToCompact[i - 1]);
        i := i - 1;
      }
    }
  }

  // ------------------------------------------- what the table keeps track of

  predicate EntryOk<UserData>(t: Table<UserData>, fd: int)
    requires fd in t.data
  {
    fd >= 0 && t.data[fd].index < t.size <= |t.slots| && t.slots[t.data[fd].index].fd == fd
  }

  /** Slot i is the slot of a registered descriptor. */
  predicate Live<UserData>(t: Table<UserData>, i: nat)
    requires i < |t.slots|
  {
    t.slots[i].fd in t.data && t.data[t.slots[i].fd].index == i
  }

  predicate SlotOk<UserData>(t: Table<UserData>, i: nat, dead: seq<nat>)
    requires i < |t.slots|
  {
    if i in dead then t.slots[i].fd == -1 else Live(t, i)
  }

  predicate Distinct(s: seq<nat>) {
    forall i, j | 0 <= i < j < |s| :: s[i] != s[j]
  }

  /** Every descriptor has a slot, every slot is some descriptor's or listed once as dead. */
  predicate TracksBut<UserData>(t: Table<UserData>, dead: seq<nat>) {
    && t.size <= |t.slots|
    && (forall fd <- t.data :: EntryOk(t, fd))
    && (forall i: nat | i < t.size :: SlotOk(t, i, dead))
    && (forall i | 0 <= i < |dead| :: dead[i] < t.size)
    && Distinct(dead)
  }

  /** The precondition of Compact: the pending list names exactly the dead slots. */
  predicate Tracks<UserData>(t: Table<UserData>) {
    TracksBut(t, t.pending)
  }

  /** No dead slots at all. */
  predicate Dense<UserData>(t: Table<UserData>) {
    TracksBut(t, [])
  }

  /** A new descriptor keeps the books in order; one that is there already does not. */
  lemma AddTracks<UserData>(t: Table<UserData>, fd: int, userData: UserData, desires: Desires)
    requires Tracks(t) && fd >= 0 && t.size < |t.slots|
    ensures Tracks(Added(t, fd, userData, desires)) <==> fd !in t.data
  {
    var t' := Added(t, fd, userData, desires);
    if fd in t.data {
      assert EntryOk(t, fd);
      assert t.size !in t.pending;
      assert !SlotOk(t', t.size, t'.pending);
    } else {
      forall f <- t'.data ensures EntryOk(t', f) {
        assert f != fd ==> EntryOk(t, f);
      }
      forall i: nat | i < t'.size ensures SlotOk(t', i, t'.pending) {
        if i < t.size {
          assert SlotOk(t, i, t.pending);
        } else {
          assert i !in t.pending;
        }
      }
    }
  }

  lemma UpdateTracks<UserData>(t: Table<UserData>, fd: int, userData: UserData, desires: Desires)
    requires Tracks(t) && fd in t.data && Bounded(t)
    ensures Tracks(Updated(t, fd, userData, desires))
  {
    var t' := Updated(t, fd, userData, desires);
    assert EntryOk(t, fd);
    forall f <- t'.data ensures EntryOk(t', f) {
      assert EntryOk(t, f);
    }
    forall i: nat | i < t'.size ensures SlotOk(t', i, t'.pending) {
      assert SlotOk(t, i, t.pending);
    }
  }

  lemma DeleteTracks<UserData>(t: Table<UserData>, fd: int)
    requires Tracks(t) && fd in t.data && Bounded(t)
    ensures Tracks(Deleted(t, fd))
  {
    var t' := Deleted(t, fd);
    var k := t.data[fd].index;
    assert EntryOk(t, fd);
    assert SlotOk(t, k, t.pending);
    forall f <- t'.data ensures EntryOk(t', f) {
      assert EntryOk(t, f);
    }
    forall i: nat | i < t'.size ensures SlotOk(t', i, t'.pending) {
      assert SlotOk(t, i, t.pending);
      assert i in t'.pending <==> i in t.pending || i == k;
    }
  }

  // ------------------------------------------------ runs without Compact

  datatype Op<UserData> =
    | AddOp(fd: int, userData: UserData, desires: Desires)
    | UpdateOp(fd: int, userData: UserData, desires: Desires)
    | DeleteOp(fd: int)

  /** What the methods do, failures included. */
  function Performed<UserData>(t: Table<UserData>, op: Op<UserData>): Table<UserData>
    requires Bounded(t)
  {
    match op
    case AddOp(fd, userData, desires) =>
      if fd < 0 || t.size >= |t.slots| then t else Added(t, fd, userData, desires)
    case UpdateOp(fd, userData, desires) =>
      if fd in t.data then Updated(t, fd, userData, desires) else t
    case DeleteOp(fd) =>
      if fd in t.data then Deleted(t, fd) else t
  }

  lemma OpTracks<UserData>(t: Table<UserData>, op: Op<UserData>)
    requires Tracks(t) && Bounded(t) && (op.AddOp? ==> op.fd !in t.data)
    ensures Tracks(Performed(t, op)) && Bounded(Performed(t, op))
  {
    match op {
      case AddOp(fd, userData, desires) =>
        if fd >= 0 && t.size < |t.slots| {
          AddTracks(t, fd, userData, desires);
        }
      case UpdateOp(fd, userData, desires) =>
        if fd in t.data {
          UpdateTracks(t, fd, userData, desires);
        }
      case DeleteOp(fd) =>
        if fd in t.data {
          DeleteTracks(t, fd);
        }
    }
  }

  /** A run of operations that never adds a descriptor twice. */
  ghost predicate FreshRun<UserData(!new)>(run: seq<Table<UserData>>) {
    && |run| > 0
    && run[0].size == 0 && run[0].data == map[] && run[0].pending == []
    && forall i | 0 <= i < |run| - 1 :: FreshStep(run[i], run[i + 1])
  }

  ghost predicate FreshStep<UserData(!new)>(t: Table<UserData>, t': Table<UserData>) {
    Bounded(t) && exists op: Op<UserData> :: (op.AddOp? ==> op.fd !in t.data) && t' == Performed(t, op)
  }

  /** Any run of Add of new descriptors, Update and Delete leads to a table that Compact can handle. */
  lemma {:induction false} RunsTrack<UserData(!new)>(run: seq<Table<UserData>>)
    requires FreshRun(run)
    ensures Tracks(run[|run| - 1])
  {
    if |run| > 1 {
      RunsTrack(run[..|run| - 1]);
      var t, t' := run[|run| - 2], run[|run| - 2 + 1];
      assert FreshStep(t, t');
      var op: Op<UserData> :| (op.AddOp? ==> op.fd !in t.data) && t' == Performed(t, op);
      OpTracks(t, op);
    }
  }

  // ---------------------------------------------------------- one Compact

  predicate Increasing(s: seq<nat>) {
    forall i, j | 0 <= i < j < |s| :: s[i] < s[j]
  }

  lemma InsertedElements(x: nat, s: seq<nat>)
    ensures forall y :: y in Inserted(x, s) <==> y == x || y in s
  {
    InsertedMembers(x, s);
    forall y ensures y in Inserted(x, s) <==> y == x || y in s {
      assert y in Inserted(x, s) <==> y in multiset(Inserted(x, s));
    }
  }

  lemma SortedElements(s: seq<nat>)
    ensures forall y :: y in Sorted(s) <==> y in s
  {
    SortedMembers(s);
    forall y ensures y in Sorted(s) <==> y in s {
      assert y in Sorted(s) <==> y in multiset(Sorted(s));
    }
  }

  lemma {:induction false} InsertedIncreases(x: nat, s: seq<nat>)
    requires Increasing(s) && x !in s
    ensures Increasing(Inserted(x, s))
  {
    if s != [] && x > s[0] {
      InsertedIncreases(x, s[1..]);
      InsertedElements(x, s[1..]);
      var rest := Inserted(x, s[1..]);
      forall j | 0 <= j < |rest| ensures s[0] < rest[j] {
        assert rest[j] in rest;
      }
    }
  }

  lemma {:induction false} SortedIncreases(s: seq<nat>)
    requires Distinct(s)
    ensures Increasing(Sorted(s))
  {
    if s != [] {
      SortedIncreases(s[1..]);
      SortedElements(s[1..]);
      InsertedIncreases(s[0], Sorted(s[1..]));
    }
  }

  /** The same descriptors with the same user data and events. */
  ghost predicate SameRegistrations<UserData>(t: Table<UserData>, t': Table<UserData>) {
    && t'.data.Keys == t.data.Keys
    && forall fd <- t.data :: SameRegistration(t, t', fd)
  }

  ghost predicate SameRegistration<UserData>(t: Table<UserData>, t': Table<UserData>, fd: int)
    requires fd in t.data && fd in t'.data
  {
    && t.data[fd].index < |t.slots| && t'.data[fd].index < |t'.slots|
    && t'.data[fd].userData == t.data[fd].userData
    && t'.slots[t'.data[fd].index].events == t.slots[t.data[fd].index].events
  }

  /** Closing the largest dead slot leaves one dead slot less. */
  lemma ClosedTracks<UserData>(t: Table<UserData>, dead: seq<nat>)
    requires Increasing(dead) && dead != [] && TracksBut(t, dead)
    ensures var k := |dead| - 1; var t' := Closed(t, dead[k]);
            TracksBut(t', dead[..k]) && SameRegistrations(t, t')
  {
    var k := |dead| - 1;
    var t', last := Closed(t, dead[k]), t.size - 1;
    assert SlotOk(t, dead[k], dead) && SlotOk(t, last, dead);
    assert last in dead ==> last == dead[k];
    forall fd <- t'.data ensures EntryOk(t', fd) && SameRegistration(t, t', fd) {
      assert EntryOk(t, fd);
    }
    forall i: nat | i < t'.size ensures SlotOk(t', i, dead[..k]) {
      assert SlotOk(t, i, dead);
      assert i in dead <==> i in dead[..k] || i == dead[k];
    }
  }

  lemma SameRegistrationsChain<UserData>(a: Table<UserData>, b: Table<UserData>, c: Table<UserData>)
    requires SameRegistrations(a, b) && SameRegistrations(b, c)
    ensures SameRegistrations(a, c)
  {
    forall fd <- a.data ensures SameRegistration(a, c, fd) {
      assert SameRegistration(a, b, fd) && SameRegistration(b, c, fd);
    }
  }

  lemma {:induction false} ClosedAllTracks<UserData>(t: Table<UserData>, indices: seq<nat>, k: nat)
    requires k <= |indices| && Increasing(indices[..k]) && TracksBut(t, indices[..k])
    ensures (forall i | 0 <= i < k :: indices[i] < |t.slots|)
    ensures var t' := ClosedAll(t, indices, k); Dense(t') && SameRegistrations(t, t')
    decreases k
  {
    forall i | 0 <= i < k ensures indices[i] < |t.slots| {
      assert indices[..k][i] < t.size;
    }
    if k == 0 {
      assert indices[..0] == [];
      forall fd <- t.data ensures SameRegistration(t, t, fd) {
        assert EntryOk(t, fd);
      }
    } else {
      var dead := indices[..k];
      assert dead[k - 1] < t.size;
      ClosedTracks(t, dead);
      var next := Closed(t, indices[k - 1]);
      assert dead[..k - 1] == indices[..k - 1];
      ClosedAllTracks(next, indices, k - 1);
      SameRegistrationsChain(t, next, ClosedAll(next, indices, k - 1));
    }
  }

  lemma {:induction false} ClosedAllSize<UserData>(t: Table<UserData>, indices: seq<nat>, k: nat)
    requires t.size <= |t.slots| && k <= |indices| && forall i | 0 <= i < k :: indices[i] < |t.slots|
    ensures var t' := ClosedAll(t, indices, k);
            && t'.size == (if t.size >= k then t.size - k else 0)
            && t'.data.Keys == t.data.Keys && t'.pending == t.pending && |t'.slots| == |t.slots|
    decreases k
  {
    if k > 0 && t.size > 0 {
      ClosedAllSize(Closed(t, indices[k - 1]), indices, k - 1);
    }
  }

  lemma SortedTracks<UserData>(t: Table<UserData>)
    requires Tracks(t)
    ensures var indices := Sorted(t.pending); Increasing(indices) && TracksBut(t.(pending := indices), indices)
  {
    var indices := Sorted(t.pending);
    var t' := t.(pending := indices);
    SortedElements(t.pending);
    SortedIncreases(t.pending);
    forall fd <- t'.data ensures EntryOk(t', fd) {
      assert EntryOk(t, fd);
    }
    forall i: nat | i < t'.size ensures SlotOk(t', i, indices) {
      assert SlotOk(t, i, t.pending);
    }
    forall i | 0 <= i < |indices| ensures indices[i] < t'.size {
      assert indices[i] in t.pending;
    }
  }

  /** One call of Compact on a table in order leaves a table with no dead slot, each registered
      descriptor in it with its user data and events. */
  lemma CompactMakesDense<UserData>(t: Table<UserData>)
    requires Tracks(t)
    ensures Dense(Compacted(t)) && SameRegistrations(t, Compacted(t))
    ensures Compacted(t).size == |t.data|
  {
    var indices := Sorted(t.pending);
    var s := t.(pending := indices);
    assert indices[..|indices|] == indices;
    SortedTracks(t);
    SortedBounded(t);
    if t.pending == [] {
      forall fd <- t.data ensures SameRegistration(t, t, fd) {
        assert EntryOk(t, fd);
      }
    } else {
      ClosedAllTracks(s, indices, |indices|);
    }
    DenseSize(Compacted(t));
  }

  function SlotFds(slots: seq<PollFd>): set<int> {
    set i | 0 <= i < |slots| :: slots[i].fd
  }

  lemma {:induction false} DistinctFds(slots: seq<PollFd>)
    ensures |SlotFds(slots)| <= |slots|
    ensures (forall i, j | 0 <= i < j < |slots| :: slots[i].fd != slots[j].fd) ==> |SlotFds(slots)| == |slots|
  {
    if slots != [] {
      var front, last := slots[..|slots| - 1], slots[|slots| - 1];
      DistinctFds(front);
      assert slots == front + [last];
      assert SlotFds(slots) == SlotFds(front) + {last.fd};
    }
  }

  lemma DenseSize<UserData>(t: Table<UserData>)
    requires Dense(t)
    ensures t.size == |t.data|
  {
    var used := t.slots[..t.size];
    forall i: nat | i < t.size ensures Live(t, i) {
      assert SlotOk(t, i, []);
    }
    forall fd <- t.data ensures fd in SlotFds(used) {
      assert EntryOk(t, fd);
      assert used[t.data[fd].index].fd == fd;
    }
    forall fd <- SlotFds(used) ensures fd in t.data {
      var i: nat :| i < |used| && used[i].fd == fd;
      assert Live(t, i);
    }
    assert SlotFds(used) == t.data.Keys;
    forall i, j | 0 <= i < j < |used| ensures used[i].fd != used[j].fd {
      assert Live(t, i) && Live(t, j);
    }
    DistinctFds(used);
  }

  // --------------------------------------------------- the next Compact

  /** Compact does not empty the pending list. So it leaves the books in order for another Compact if
      and only if there was nothing to do; emptying the list would be enough. */
  lemma CompactTracksIffIdle<UserData>(t: Table<UserData>)
    requires Tracks(t)
    ensures Tracks(Compacted(t)) <==> t.pending == []
    ensures Tracks(Compacted(t).(pending := []))
  {
    CompactMakesDense(t);
    var t' := Compacted(t);
    var repaired := t'.(pending := []);
    forall fd <- repaired.data ensures EntryOk(repaired, fd) {
      assert EntryOk(t', fd);
    }
    forall i: nat | i < repaired.size ensures SlotOk(repaired, i, []) {
      assert SlotOk(t', i, []);
    }
    PendingStays(t);
    if t.pending != [] {
      DenseWithPending(t');
    }
  }

  lemma DenseWithPending<UserData>(t: Table<UserData>)
    requires Dense(t) && t.pending != []
    ensures !Tracks(t)
  {
    var i := t.pending[0];
    if i < t.size {
      assert SlotOk(t, i, []);
      assert EntryOk(t, t.slots[i].fd);
      assert !SlotOk(t, i, t.pending);
    }
  }

  lemma PendingStays<UserData>(t: Table<UserData>)
    requires Tracks(t) && Bounded(t) && Dense(Compacted(t))
    ensures Bounded(Compacted(t)) && |Compacted(t).pending| == |t.pending|
  {
    var t' := Compacted(t);
    SortedMembers(t.pending);
    SortedBounded(t);
    if t.pending != [] {
      ClosedAllSize(t.(pending := Sorted(t.pending)), Sorted(t.pending), |t.pending|);
    }
    forall fd <- t'.data ensures t'.data[fd].index < |t'.slots| {
      assert EntryOk(t', fd);
    }
  }

  /** Every registered descriptor is passed to poll. */
  ghost predicate AllPolled<UserData>(t: Table<UserData>) {
    t.size <= |t.slots| && forall fd <- t.data :: fd in SlotFds(t.slots[..t.size])
  }

  /** After the first Compact every registered descriptor is polled. After the second one in a row
      that is so if and only if no slot had been deleted, or no descriptor is registered. */
  lemma SecondCompactLosesDescriptors<UserData>(t: Table<UserData>)
    requires Tracks(t)
    ensures Bounded(t) && Bounded(Compacted(t)) && AllPolled(Compacted(t))
    ensures AllPolled(Compacted(Compacted(t))) <==> t.pending == [] || t.data == map[]
  {
    CompactMakesDense(t);
    var once := Compacted(t);
    DenseIsPolled(once);
    PendingStays(t);
    if t.pending != [] {
      var twice := Compacted(once);
      SortedMembers(once.pending);
      SortedBounded(once);
      var indices := Sorted(once.pending);
      ClosedAllSize(once.(pending := indices), indices, |indices|);
      if AllPolled(twice) {
        PolledFit(twice);
        assert twice.data.Keys == t.data.Keys;
        assert |t.data.Keys| == 0;
      }
    }
  }

  lemma PolledFit<UserData>(t: Table<UserData>)
    requires AllPolled(t)
    ensures |t.data.Keys| <= t.size
  {
    var polled := SlotFds(t.slots[..t.size]);
    assert forall fd <- t.data.Keys :: fd in t.data && fd in polled;
    SubsetSize(t.data.Keys, polled);
    DistinctFds(t.slots[..t.size]);
  }

  lemma DenseIsPolled<UserData>(t: Table<UserData>)
    requires Dense(t)
    ensures AllPolled(t)
  {
    var used := t.slots[..t.size];
    forall fd <- t.data ensures fd in SlotFds(used) {
      assert EntryOk(t, fd);
      assert used[t.data[fd].index].fd == fd;
    }
  }

  lemma CompactKeepsKeys<UserData>(t: Table<UserData>)
    requires Bounded(t)
    ensures Compacted(t).data.Keys == t.data.Keys
  {
    SortedBounded(t);
    ClosedAllSize(t.(pending := Sorted(t.pending)), Sorted(t.pending), |Sorted(t.pending)|);
  }

  /** Two descriptors beside the signal's, of which the first has been deleted. */
  method OneDeleted<UserData>(signalFd: int, a: int, b: int, data: UserData, desires: Desires)
    returns (loop: PollSelectorLoop<UserData>)
    requires signalFd >= 0 && a >= 0 && b >= 0 && signalFd != a && signalFd != b && a != b
    ensures loop.Valid() && fresh(loop) && fresh(loop.fds) && Tracks(loop.Contents())
    ensures loop.fdData.Keys == {signalFd, b} && loop.indicesToCompact == [1]
  {
    loop := new PollSelectorLoop(signalFd, data);
    ghost var t := loop.Contents();
    assert EntryOk(t, signalFd) && SlotOk(t, 0, []);
    AddTracks(t, a, data, desires);
    var outcome := loop.Add(a, data, desires);
    AddTracks(loop.Contents(), b, data, desires);
    outcome := loop.Add(b, data, desires);
    DeleteTracks(loop.Contents(), a);
    outcome := loop.Delete(a);
  }

  /** A run that loses a descriptor: after two calls of Compact the signal's descriptor and b are
      registered, but not both are polled. */
  method LostDescriptor<UserData>(signalFd: int, a: int, b: int, data: UserData, desires: Desires)
    returns (loop: PollSelectorLoop<UserData>)
    requires signalFd >= 0 && a >= 0 && b >= 0 && signalFd != a && signalFd != b && a != b
    ensures loop.Valid() && loop.fdData.Keys == {signalFd, b} && !AllPolled(loop.Contents())
  {
    loop := OneDeleted(signalFd, a, b, data, desires);
    SecondCompactLosesDescriptors(loop.Contents());
    assert signalFd in loop.fdData;
    CompactKeepsKeys(loop.Contents());
    loop.Compact();
    CompactKeepsKeys(loop.Contents());
    loop.Compact();
  }
}
