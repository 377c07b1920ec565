/**
 The explicit producer while any number of consumers dequeue, as a state machine: the counters of
 module OptimisticDequeue, joined with the blocks, their empty flags, the reuse of blocks and the
 block index, which grows by replacement. Each test, reset or setting of a flag, each access to an
 element or to the block index and each operation on a counter is one step. dequeue is dequeue_bulk
 with one element.

 What the producer alone reads and writes needs no steps of its own: where its ring of blocks ends,
 and the copy of the index that it makes before publishing it.
 */
module RacingBlocks {
  import opened Options
  import opened Arith
  import opened Ladders
  import Bits
  import O = OptimisticDequeue

  datatype Block<Item> = Block(cells: seq<Item>, flags: seq<bool>)

  datatype Entry = Entry(base: nat, block: nat)

  /** A block index, once published. `listed` is history: the bases of all blocks listed so far, or
      copied when the index was made. */
  datatype Table = Table(front: int, entries: seq<Entry>, listed: seq<nat>)

  /** Where enqueue is. */
  datatype Producer<Item> =
    | Ready
    | Probing(item: Item, f: nat)      // is_empty of the block ahead: the first f flags are set
    | Resetting(item: Item, f: nat)    // reset_empty: the first f flags are cleared
    | Checking(item: Item)             // needs another block, about to load headIndex
    | Growing(item: Item)              // about to replace the block index
    | Adding(item: Item)
    | ListingBase(item: Item)          // about to write the new entry of the index, ...
    | ListingBlock(item: Item)
    | ListingFront(item: Item)         // ... and to publish it
    | Writing(item: Item)
    | Publishing(item: Item)
  {
    predicate NeedsBlock() {
      Probing? || Resetting? || Checking? || Growing? || Adding?
    }

    predicate Listing() {
      ListingBase? || ListingBlock? || ListingFront?
    }

    predicate HasBlock() {
      Listing() || Writing? || Publishing?
    }
  }

  /** A slot of a block index. That it is the m-th listing is history. */
  datatype Place = Place(table: nat, slot: nat, m: int)

  /** Where a dequeue is. It has claimed the indices up to `end` and is at those from `lo` on. */
  datatype Consumer =
    | Counting                                                                   // in the counters, or in no call
    | Locating(lo: nat, end: nat)                                                // about to load blockIndex
    | Indexed(lo: nat, end: nat, table: nat)                                     // about to load front
    | Fronted(lo: nat, end: nat, front: Place)                                   // about to load its base
    | Slotted(lo: nat, end: nat, at: Place)                                      // about to load the block
    | Reading(lo: nat, i: nat, hi: nat, end: nat, block: nat, at: Place)         // reads lo, ..., hi - 1
    | Marking(lo: nat, j: nat, hi: nat, end: nat, block: nat, at: Place)         // has set j of their flags
  {
    predicate HasBlock() {
      Reading? || Marking?
    }
  }

  /** `store` holds all blocks ever used, `ring` lists the circular list from the block ahead of the
      tail block to the tail block; the last of `tables` is the current block index, None if there is
      none; `used`, `size` and `place` are pr_blockIndexSlotsUsed, -Size and -Front.

      History, from which no step decides: `bases` says which indices the blocks of the ring cover,
      `put` is what has been enqueued, `got` what was read at which index, and `done` are the indices
      whose flags have been set. */
  datatype State<Item> = State(
    blockSize: nat, indexBits: nat, limit: Option<nat>,
    counters: O.State, store: seq<Block<Item>>, ring: seq<nat>, bases: seq<nat>,
    tables: seq<Table>, used: nat, size: nat, place: nat,
    producer: Producer<Item>, consumers: seq<Consumer>,
    put: seq<Item>, got: map<nat, Item>, done: set<nat>)
  {
    function Tail(): nat { counters.tail }
    function Head(): nat { counters.head }
  }

  predicate BlockSized<Item>(store: seq<Block<Item>>, size: nat, b: nat) {
    b < |store| && |store[b].cells| == |store[b].flags| == size
  }

  predicate ConsumerSized(c: Consumer, blocks: nat) {
    c.HasBlock() ==> c.block < blocks
  }

  predicate ProducerSized<Item>(s: State<Item>) {
    && s.size > 0
    && (s.tables != [] ==> |Last(s.tables).entries| == s.size && s.place < s.size)
    && (s.used > 0 ==> s.tables != [] && s.used <= s.size)
    && (s.producer.Probing? || s.producer.Resetting? || s.producer.HasBlock() ==> s.ring != [])
    && (s.producer.Adding? || s.producer.Listing() ==> s.tables != [])
  }

  ghost predicate Sized<Item>(s: State<Item>) {
    && s.blockSize > 0 && s.indexBits > 0
    && |s.ring| == |s.bases|
    && |s.consumers| == |s.counters.pc|
    && ProducerSized(s)
    && (forall b: nat | b < |s.store| :: BlockSized(s.store, s.blockSize, b))
    && (forall k: nat | k < |s.ring| :: s.ring[k] < |s.store|)
    && (forall t: nat | t < |s.consumers| :: ConsumerSized(s.consumers[t], |s.store|))
  }

  // ---------------------------------------------------------------- steps

  function Last<T>(s: seq<T>): T
    requires s != []
  {
    s[|s| - 1]
  }

  function WithFlag<Item>(s: State<Item>, b: nat, f: nat, set_: bool): seq<Block<Item>>
    requires b < |s.store| && f < |s.store[b].flags|
  {
    s.store[b := s.store[b].(flags := s.store[b].flags[f := set_])]
  }

  /** The flag of an index; flags are stored back to front. */
  function FlagOf(blockSize: nat, i: nat): nat
    requires blockSize > 0
  {
    blockSize - 1 - i % blockSize
  }

  /** The check of the tail, one block on, against the head: less than half the range of indices apart,
      as wrapped words, and within the limit. */
  predicate HasLeeway<Item>(s: State<Item>)
    requires s.indexBits > 0
  {
    && Bits.CircularLessThan(
         Bits.Wrap(s.Head(), s.indexBits), Bits.Wrap(s.Tail() + s.blockSize, s.indexBits), s.indexBits)
    && (s.limit.Some? ==>
          s.limit.value > 0 && s.limit.value - s.blockSize >= Bits.Wrap(s.Tail() - s.Head(), s.indexBits))
  }

  /** The larger index: the entries in use, oldest first, and then what the memory holds. */
  function Grown<Item>(s: State<Item>, memory: seq<Entry>): Table
    requires ProducerSized(s)
  {
    Table(s.used - 1,
          seq(|memory|, j requires 0 <= j < |memory| =>
            if j < s.used then Last(s.tables).entries[(s.place - s.used + j) % s.size] else memory[j]),
          s.bases)
  }

  /** The current index with another entry in the next slot. */
  function WithEntry<Item>(s: State<Item>, entry: Entry): seq<Table>
    requires ProducerSized(s) && s.tables != []
  {
    var table := Last(s.tables);
    s.tables[|s.tables| - 1 := table.(entries := table.entries[s.place := entry])]
  }

  /** The current index with the next slot as its front. */
  function WithFront<Item>(s: State<Item>): seq<Table>
    requires s.tables != []
  {
    var table := Last(s.tables);
    s.tables[|s.tables| - 1 := table.(front := s.place, listed := table.listed + [s.Tail()])]
  }

  /** Enqueue. `item` is the argument of a call that starts here, `memory` says whether there is any to be
      had, and `cells` and `entries` are what the memory of a new block and of a new index hold. */
  ghost function ProducerStep<Item>(
      s: State<Item>, item: Item, memory: bool, cells: seq<Item>, entries: seq<Entry>): State<Item>
    requires Sized(s) && |cells| == s.blockSize && |entries| == 2 * s.size
  {
    match s.producer
    case Ready =>
      s.(producer := if s.Tail() % s.blockSize != 0 then Writing(item)
                     else if s.ring == [] then Checking(item) else Probing(item, 0))
    case Probing(x, f) =>
      assert BlockSized(s.store, s.blockSize, s.ring[0]);
      s.(producer := if f >= s.blockSize then Resetting(x, 0)
                     else if s.store[s.ring[0]].flags[f] then Probing(x, f + 1) else Checking(x))
    case Resetting(x, f) =>
      assert BlockSized(s.store, s.blockSize, s.ring[0]);
      if f < s.blockSize then s.(store := WithFlag(s, s.ring[0], f, false), producer := Resetting(x, f + 1))
      else s.(ring := s.ring[1..] + [s.ring[0]], bases := s.bases[1..] + [s.Tail()], producer := ListingBase(x))
    case Checking(x) =>
      s.(producer := if !HasLeeway(s) then Ready
                     else if s.tables == [] || s.used == s.size then Growing(x) else Adding(x))
    case Growing(x) =>
      if !memory then s.(producer := Ready)
      else s.(tables := s.tables + [Grown(s, entries)], size := 2 * s.size, place := s.used, producer := Adding(x))
    case Adding(x) =>
      if !memory then s.(producer := Ready)
      else s.(store := s.store + [Block(cells, seq(s.blockSize, _ => false))], used := s.used + 1,
              ring := s.ring + [|s.store|], bases := s.bases + [s.Tail()], producer := ListingBase(x))
    case ListingBase(x) =>
      s.(tables := WithEntry(s, Last(s.tables).entries[s.place].(base := s.Tail())), producer := ListingBlock(x))
    case ListingBlock(x) =>
      s.(tables := WithEntry(s, Last(s.tables).entries[s.place].(block := Last(s.ring))), producer := ListingFront(x))
    case ListingFront(x) => s.(tables := WithFront(s), place := (s.place + 1) % s.size, producer := Writing(x))
    case Writing(x) =>
      var b, o := Last(s.ring), s.Tail() % s.blockSize;
      assert BlockSized(s.store, s.blockSize, b);
      s.(store := s.store[b := s.store[b].(cells := s.store[b].cells[o := x])], producer := Publishing(x))
    case Publishing(x) => s.(counters := O.Publish(s.counters, 1), put := s.put + [x], producer := Ready)
  }

  function Moved<Item>(s: State<Item>, t: nat, c: Consumer): State<Item>
    requires t < |s.consumers|
  {
    s.(consumers := s.consumers[t := c])
  }

  predicate InTable(tables: seq<Table>, i: nat, slot: int) {
    i < |tables| && 0 <= slot < |tables[i].entries|
  }

  /** From the slot of the front entry to that of the block of index lo, by their bases. */
  function SlotOf(table: Table, front: Place, blockSize: nat, lo: nat): Place
    requires blockSize > 0 && 0 <= front.slot < |table.entries|
  {
    var offset := BlockOffset(lo - lo % blockSize, table.entries[front.slot].base, blockSize);
    Place(front.table, (front.slot + offset) % |table.entries|, front.m + offset)
  }

  /** One operation of consumer t; `max` is the argument of a call that starts here. Loads through the
      index stand still if they miss it; that this does not happen is a theorem. */
  ghost function ConsumerStep<Item>(s: State<Item>, t: nat, max: nat): State<Item>
    requires Sized(s) && t < |s.consumers|
  {
    match s.consumers[t]
    case Counting =>
      if !O.Holds(s.counters.units, t, s.counters.pc[t]) then s else
      var s' := s.(counters := O.Step(s.counters, t, max));
      var pc := s.counters.pc[t];
      if pc.Take? && pc.got > 0 then Moved(s', t, Locating(s.Head(), s.Head() + pc.got)) else s'
    case Locating(lo, end) =>
      if s.tables == [] then s else Moved(s, t, Indexed(lo, end, |s.tables| - 1))
    case Indexed(lo, end, i) =>
      if !(i < |s.tables| && InTable(s.tables, i, s.tables[i].front)) then s
      else Moved(s, t, Fronted(lo, end, Place(i, s.tables[i].front, |s.tables[i].listed| - 1)))
    case Fronted(lo, end, front) =>
      if !InTable(s.tables, front.table, front.slot) then s
      else Moved(s, t, Slotted(lo, end, SlotOf(s.tables[front.table], front, s.blockSize, lo)))
    case Slotted(lo, end, at) =>
      if !(InTable(s.tables, at.table, at.slot) && s.tables[at.table].entries[at.slot].block < |s.store|) then s
      else
        var blockEnd := lo - lo % s.blockSize + s.blockSize;
        Moved(s, t, Reading(lo, lo, Min(end, blockEnd), end, s.tables[at.table].entries[at.slot].block, at))
    case Reading(lo, i, hi, end, b, at) =>
      if i < hi then
        assert ConsumerSized(s.consumers[t], |s.store|);
        assert BlockSized(s.store, s.blockSize, b);
        Moved(s, t, Reading(lo, i + 1, hi, end, b, at)).(got := s.got[i := s.store[b].cells[i % s.blockSize]])
      else
        Moved(s, t, Marking(lo, 0, hi, end, b, at))
    case Marking(lo, j, hi, end, b, at) =>
      if lo + j < hi then
        assert ConsumerSized(s.consumers[t], |s.store|);
        assert BlockSized(s.store, s.blockSize, b);
        Moved(s, t, Marking(lo, j + 1, hi, end, b, at)).(
          store := WithFlag(s, b, FlagOf(s.blockSize, hi - 1 - j), true), done := s.done + {hi - 1 - j})
      else if hi < end then
        if !(at.table < |s.tables| && |s.tables[at.table].entries| > 0) then s
        else
          var next := Place(at.table, (at.slot + 1) % |s.tables[at.table].entries|, at.m + 1);
          Moved(s, t, Slotted(hi, end, next))
      else
        Moved(s, t, Counting)
  }

  ghost predicate Init<Item>(s: State<Item>) {
    && Sized(s) && O.Init(s.counters)
    && s.store == [] && s.ring == s.bases == [] && s.used == s.place == 0 && s.producer == Ready
    && |s.tables| <= 1
    && (forall i: nat | i < |s.tables| :: s.tables[i].listed == [])
    && (forall t: nat | t < |s.consumers| :: s.consumers[t] == Counting)
    && s.put == [] && s.got == map[] && s.done == {}
  }

  ghost predicate ProducerMoves<Item(!new)>(s: State<Item>, s': State<Item>) {
    exists item: Item, memory: bool, cells: seq<Item>, entries: seq<Entry> ::
      |cells| == s.blockSize && |entries| == 2 * s.size && Sized(s)
      && s' == ProducerStep(s, item, memory, cells, entries)
  }

  ghost predicate ConsumerMoves<Item>(s: State<Item>, s': State<Item>) {
    exists t: nat, max: nat :: t < |s.consumers| && Sized(s) && s' == ConsumerStep(s, t, max)
  }

  ghost predicate NextAt<Item(!new)>(run: seq<State<Item>>, i: nat) {
    i + 1 < |run| ==> ProducerMoves(run[i], run[i + 1]) || ConsumerMoves(run[i], run[i + 1])
  }

  ghost predicate Run<Item(!new)>(run: seq<State<Item>>) {
    && |run| > 0
    && Init(run[0])
    && forall i: nat :: NextAt(run, i)
  }

  // ------------------------------------------------------------ invariant

  /** Consecutive bases up to the tail; the producer works where it says it does. */
  ghost predicate Layout<Item>(s: State<Item>) {
    && s.blockSize > 0 && |s.ring| == |s.bases|
    && Ladder(s.bases, s.blockSize)
    && (s.bases == [] ==> s.Tail() == 0 && !s.producer.HasBlock())
    && (s.bases != [] ==>
          if s.producer.HasBlock() then Last(s.bases) <= s.Tail() < Last(s.bases) + s.blockSize
          else Last(s.bases) < s.Tail() <= Last(s.bases) + s.blockSize)
    && (s.producer.Probing? || s.producer.Resetting? ==> s.bases != [])
    && (s.producer.NeedsBlock() ==> s.Tail() % s.blockSize == 0)
    && (s.producer.Listing() ==> s.bases != [] && Last(s.bases) == s.Tail())
    && (forall j: nat, k: nat | j < k < |s.ring| :: s.ring[j] != s.ring[k])
  }

  predicate AllDone(done: set<nat>, lo: nat, hi: nat) {
    forall x | lo <= x < hi :: x in done
  }

  /** Only claimed indices are done, and all those below the oldest base. The block ahead is done as far
      as the producer has seen. */
  ghost predicate DoneOk<Item>(s: State<Item>) {
    && (forall x <- s.done :: x < s.Head())
    && (s.bases != [] ==>
          && AllDone(s.done, 0, s.bases[0])
          && (s.producer.Resetting? ==> AllDone(s.done, s.bases[0], s.bases[0] + s.blockSize))
          && (s.producer.Probing? ==>
                s.producer.f <= s.blockSize
                && AllDone(s.done, s.bases[0] + s.blockSize - s.producer.f, s.bases[0] + s.blockSize)))
  }

  /** What flag f of the k-th block of the ring says. */
  predicate FlagAt<Item>(s: State<Item>, k: nat, f: nat) {
    && s.blockSize > 0 && k < |s.ring| == |s.bases| && s.ring[k] < |s.store| && f < s.blockSize
    && f < |s.store[s.ring[k]].flags|
    && s.store[s.ring[k]].flags[f] ==
       if k == 0 && s.producer.Resetting? then f >= s.producer.f
       else s.bases[k] + (s.blockSize - 1 - f) in s.done
  }

  ghost predicate FlagsOk<Item>(s: State<Item>) {
    forall k: nat, f: nat | k < |s.ring| && f < s.blockSize :: FlagAt(s, k, f)
  }

  /** Elements published and not done are in their cells. */
  ghost predicate CellAt<Item>(s: State<Item>, k: nat, o: nat) {
    && k < |s.ring| == |s.bases| && s.ring[k] < |s.store| && o < |s.store[s.ring[k]].cells|
    && var x := s.bases[k] + o;
       (x < s.Tail() && x !in s.done ==> x < |s.put| && s.store[s.ring[k]].cells[o] == s.put[x])
  }

  ghost predicate CellsOk<Item>(s: State<Item>) {
    && (forall k: nat, o: nat | k < |s.ring| && o < s.blockSize :: CellAt(s, k, o))
    && (s.producer.Publishing? ==>
          && s.ring != [] && Last(s.ring) < |s.store| && s.blockSize > 0
          && var cells := s.store[Last(s.ring)].cells;
             s.Tail() % s.blockSize < |cells| && cells[s.Tail() % s.blockSize] == s.producer.item)
  }

  ghost predicate GotOk<Item>(s: State<Item>) {
    && |s.put| == s.Tail()
    && (forall x <- s.got :: x < s.Head() && x < |s.put| && s.got[x] == s.put[x])
    && (forall x <- s.done :: x in s.got)
  }

  ghost predicate BlocksOk<Item>(s: State<Item>) {
    Layout(s) && DoneOk(s) && FlagsOk(s) && CellsOk(s) && GotOk(s)
  }

  // the block index

  /** How many blocks of the ring the current index lists. */
  function Listed<Item>(s: State<Item>): int {
    if s.producer.Listing() then |s.ring| - 1 else |s.ring|
  }

  /** If the m-th listing of table i is that of the k-th block, its slot still holds it. */
  predicate ListsAt<Item>(s: State<Item>, i: nat, m: nat, k: nat) {
    && i < |s.tables| && m < |s.tables[i].listed| && |s.tables[i].entries| > 0 && k < |s.ring| == |s.bases|
    && (s.tables[i].listed[m] == s.bases[k] ==>
          s.tables[i].entries[Slot(m, |s.tables[i].entries|)] == Entry(s.bases[k], s.ring[k]))
  }

  ghost predicate ListsOk<Item>(s: State<Item>) {
    forall i: nat, m: nat, k: nat | i < |s.tables| && m < |s.tables[i].listed| && k < |s.ring| :: ListsAt(s, i, m, k)
  }

  /** No index lists a block before the producer lists it in the current one. */
  predicate IsOld<Item>(s: State<Item>, base: nat) {
    s.bases != [] && if s.producer.Listing() then base < Last(s.bases) else base <= Last(s.bases)
  }

  ghost predicate TableOk<Item>(s: State<Item>, i: nat) {
    && i < |s.tables|
    && var table := s.tables[i];
       && |table.entries| > 0
       && Ladder(table.listed, s.blockSize)
       && (s.bases == [] ==> table.listed == [])
       && (table.listed != [] ==> table.front == Slot(|table.listed| - 1, |table.entries|))
       && forall m: nat | m < |table.listed| :: IsOld(s, table.listed[m])
  }

  /** The k-th block was listed as long ago in the current index as its place in the ring says. */
  predicate IsListed<Item>(s: State<Item>, k: nat) {
    && s.tables != [] && k < |s.bases|
    && var listed := Last(s.tables).listed;
       0 <= |listed| - Listed(s) + k < |listed| && listed[|listed| - Listed(s) + k] == s.bases[k]
  }

  /** The blocks of the ring were the last ones to be listed. */
  ghost predicate CurrentOk<Item>(s: State<Item>) {
    && s.used == |s.ring| == |s.bases|
    && (s.tables == [] ==> s.ring == [])
    && (s.producer.Adding? ==> s.tables != [] && s.used < s.size)
    && (s.producer.Listing() ==> s.ring != [])
    && (s.tables != [] ==>
          var table, n := Last(s.tables), Listed(s);
          && s.place < |table.entries| == s.size && s.used <= s.size
          && s.place == Slot(|table.listed|, s.size)
          && n <= |table.listed| && (forall k: nat | k < n :: IsListed(s, k))
          && (s.producer.Listing() && table.listed != [] ==> Last(table.listed) + s.blockSize == Last(s.bases))
          && (s.producer.ListingBlock? ==> table.entries[s.place].base == s.Tail())
          && (s.producer.ListingFront? ==> table.entries[s.place] == Entry(s.Tail(), Last(s.ring))))
  }

  ghost predicate TablesOk<Item>(s: State<Item>) {
    && ListsOk(s) && CurrentOk(s)
    && forall i: nat | i < |s.tables| :: TableOk(s, i)
  }

  // consumers

  /** The indices [lo, hi) belong to consumer t and their flags are still to be set. */
  ghost predicate Owes<Item>(s: State<Item>, t: nat, lo: nat, hi: nat) {
    && lo <= hi <= |s.counters.takers|
    && forall x | lo <= x < hi :: s.counters.takers[x] == t && x !in s.done
  }

  ghost predicate Unread<Item>(s: State<Item>, lo: nat, hi: nat) {
    forall x | lo <= x < hi :: x !in s.got
  }

  ghost predicate Read<Item>(s: State<Item>, lo: nat, hi: nat) {
    forall x | lo <= x < hi :: x in s.got
  }

  /** If the block of index i is in the ring, it is block b. */
  ghost predicate BlockIs<Item>(s: State<Item>, b: nat, i: nat) {
    && s.blockSize > 0 && |s.ring| == |s.bases|
    && forall k: nat | k < |s.ring| && s.bases[k] == i - i % s.blockSize :: s.ring[k] == b
  }

  ghost predicate ConsumerOk<Item>(s: State<Item>, t: nat)
    requires t < |s.consumers| && s.blockSize > 0
  {
    match s.consumers[t]
    case Counting => true
    case Reading(lo, i, hi, end, b, _) =>
      && lo <= i <= hi <= end && lo < hi == Min(end, lo - lo % s.blockSize + s.blockSize)
      && Owes(s, t, lo, end) && Read(s, lo, i) && Unread(s, i, end) && BlockIs(s, b, lo)
    case Marking(lo, j, hi, end, b, _) =>
      && lo + j <= hi <= end && lo < hi == Min(end, lo - lo % s.blockSize + s.blockSize)
      && Owes(s, t, lo, hi - j) && Owes(s, t, hi, end) && Read(s, lo, hi) && Unread(s, hi, end)
      && BlockIs(s, b, lo)
    case c => c.lo < c.end && Owes(s, t, c.lo, c.end) && Unread(s, c.lo, c.end)
  }

  /** The indices a consumer still has to mark. */
  predicate Covers(c: Consumer, x: nat) {
    match c
    case Counting => false
    case Marking(lo, j, hi, end, _, _) => lo <= x < hi - j || hi <= x < end
    case _ => c.lo <= x < c.end
  }

  /** A claimed index that is not done is some consumer's business. */
  ghost predicate Accounted<Item>(s: State<Item>, x: nat) {
    x < s.Head() && x !in s.done ==> exists t: nat :: t < |s.consumers| && Covers(s.consumers[t], x)
  }

  ghost predicate ConsumersOk<Item>(s: State<Item>) {
    && s.blockSize > 0
    && (forall t: nat | t < |s.consumers| :: ConsumerOk(s, t))
    && (forall x: nat :: Accounted(s, x))
  }

  /** Table i lists all blocks from that of lo to that of end - 1. */
  predicate Reaches(tables: seq<Table>, blockSize: nat, i: nat, lo: nat, end: nat) {
    && blockSize > 0 && i < |tables| && |tables[i].entries| > 0 && tables[i].listed != []
    && tables[i].listed[0] <= lo - lo % blockSize && end <= Last(tables[i].listed) + blockSize
  }

  /** A place is that of its listing, which is that of the block of lo, or of a newer one. */
  predicate Points(tables: seq<Table>, blockSize: nat, p: Place, lo: nat, exactly: bool) {
    && blockSize > 0 && p.table < |tables|
    && var table := tables[p.table];
       && 0 <= p.m < |table.listed| && |table.entries| > 0 && p.slot == Slot(p.m, |table.entries|)
       && if exactly then table.listed[p.m] == lo - lo % blockSize else table.listed[p.m] >= lo - lo % blockSize
  }

  /** What a consumer has loaded from the index leads it to its blocks. */
  predicate Aims(tables: seq<Table>, blockSize: nat, c: Consumer) {
    match c
    case Counting => true
    case Locating(_, _) => true
    case Indexed(lo, end, i) => Reaches(tables, blockSize, i, lo, end)
    case Fronted(lo, end, p) => Reaches(tables, blockSize, p.table, lo, end) && Points(tables, blockSize, p, lo, false)
    case Slotted(lo, end, p) => Reaches(tables, blockSize, p.table, lo, end) && Points(tables, blockSize, p, lo, true)
    case _ =>
      Reaches(tables, blockSize, c.at.table, c.lo, c.end) && Points(tables, blockSize, c.at, c.lo, true)
  }

  ghost predicate AimsOk<Item>(s: State<Item>) {
    forall t: nat | t < |s.consumers| :: Aims(s.tables, s.blockSize, s.consumers[t])
  }

  ghost predicate Inv<Item>(s: State<Item>) {
    Sized(s) && O.Inv(s.counters) && BlocksOk(s) && TablesOk(s) && ConsumersOk(s) && AimsOk(s)
  }

  // -------------------------------------------- what enqueue does keeps it

  /** Blocks keep their bases, except that a block may get a base that nobody has claimed an index of. */
  ghost predicate RingKeeps<Item>(s: State<Item>, s': State<Item>) {
    && |s.ring| == |s.bases| && |s'.ring| == |s'.bases|
    && forall k': nat | k' < |s'.ring| :: KeptAt(s, s', k')
  }

  ghost predicate KeptAt<Item>(s: State<Item>, s': State<Item>, k': nat)
    requires |s.ring| == |s.bases| && k' < |s'.ring| == |s'.bases|
  {
    || s'.bases[k'] >= s.Head()
    || exists k: nat :: k < |s.ring| && s.ring[k] == s'.ring[k'] && s.bases[k] == s'.bases[k']
  }

  lemma BlockStays<Item>(s: State<Item>, s': State<Item>, b: nat, i: nat)
    requires BlockIs(s, b, i) && RingKeeps(s, s') && s'.blockSize == s.blockSize && i < s.Head()
    ensures BlockIs(s', b, i)
  {
    forall k': nat | k' < |s'.ring| && s'.bases[k'] == i - i % s.blockSize ensures s'.ring[k'] == b {
      assert KeptAt(s, s', k');
    }
  }

  ghost predicate SameClaims<Item>(s: State<Item>, s': State<Item>) {
    && s'.blockSize == s.blockSize && s'.consumers == s.consumers
    && s'.counters.takers == s.counters.takers && s'.counters.head == s.counters.head
    && s'.done == s.done && s'.got == s.got
  }

  lemma ConsumersKept<Item>(s: State<Item>, s': State<Item>)
    requires ConsumersOk(s) && SameClaims(s, s') && RingKeeps(s, s') && |s.counters.takers| == s.Head()
    ensures ConsumersOk(s')
  {
    forall t: nat | t < |s'.consumers| ensures ConsumerOk(s', t) {
      assert ConsumerOk(s, t);
      var c := s.consumers[t];
      if c.HasBlock() {
        BlockStays(s, s', c.block, c.lo);
      }
    }
    forall x: nat ensures Accounted(s', x) {
      assert Accounted(s, x);
    }
  }

  lemma SameRingKept<Item>(s: State<Item>, s': State<Item>)
    requires |s.ring| == |s.bases| && s'.ring == s.ring && s'.bases == s.bases
    ensures RingKeeps(s, s')
  {
    assert forall k: nat | k < |s.ring| :: s.ring[k] == s'.ring[k] && s.bases[k] == s'.bases[k];
  }

  /** Indexes are replaced by larger ones, and list more and more. */
  predicate TablesGrow(tables: seq<Table>, tables': seq<Table>) {
    && |tables| <= |tables'|
    && forall i: nat | i < |tables| ::
         tables[i].listed <= tables'[i].listed && |tables'[i].entries| == |tables[i].entries|
  }

  lemma ReachesMore(tables: seq<Table>, tables': seq<Table>, blockSize: nat, i: nat, lo: nat, end: nat)
    requires TablesGrow(tables, tables') && Reaches(tables, blockSize, i, lo, end)
    requires Ladder(tables'[i].listed, blockSize)
    ensures Reaches(tables', blockSize, i, lo, end)
  {
    var n, n' := |tables[i].listed|, |tables'[i].listed|;
    if n < n' {
      LadderRises(tables'[i].listed, blockSize, n - 1, n' - 1);
    }
  }

  lemma AimsKept<Item>(s: State<Item>, s': State<Item>)
    requires AimsOk(s) && s'.blockSize == s.blockSize && s'.consumers == s.consumers
    requires TablesGrow(s.tables, s'.tables) && forall i: nat | i < |s'.tables| :: TableOk(s', i)
    ensures AimsOk(s')
  {
    forall t: nat | t < |s'.consumers| ensures Aims(s'.tables, s'.blockSize, s'.consumers[t]) {
      var c := s.consumers[t];
      assert Aims(s.tables, s.blockSize, c);
      if !c.Counting? && !c.Locating? {
        var i := if c.Indexed? then c.table else if c.Fronted? then c.front.table else c.at.table;
        assert TableOk(s', i);
        ReachesMore(s.tables, s'.tables, s.blockSize, i, c.lo, c.end);
      }
    }
  }

  /** A table keeps its listings, and what was listed before stays so. */
  lemma TableKept<Item>(s: State<Item>, s': State<Item>, i: nat)
    requires TableOk(s, i) && i < |s'.tables| && s'.blockSize == s.blockSize
    requires s'.tables[i].front == s.tables[i].front && s'.tables[i].listed == s.tables[i].listed
    requires |s'.tables[i].entries| == |s.tables[i].entries|
    requires s'.bases == [] ==> s.bases == []
    requires forall base: nat :: IsOld(s, base) ==> IsOld(s', base)
    ensures TableOk(s', i)
  {
  }

  /** The fields that the invariant of the block index speaks of, but for the producer. */
  ghost predicate SameTables<Item>(s: State<Item>, s': State<Item>) {
    && s'.blockSize == s.blockSize && s'.ring == s.ring && s'.bases == s.bases
    && s'.tables == s.tables && s'.used == s.used && s'.size == s.size && s'.place == s.place
  }

  lemma TablesKept<Item>(s: State<Item>, s': State<Item>)
    requires TablesOk(s) && SameTables(s, s')
    requires s'.producer == s.producer || (!s.producer.Listing() && !s'.producer.Listing())
    requires s'.producer.Listing() ==> s'.Tail() == s.Tail()
    requires s'.producer.Adding? && !s.producer.Adding? ==> s.tables != [] && s.used != s.size
    ensures TablesOk(s')
  {
    assert forall base: nat :: IsOld(s, base) ==> IsOld(s', base);
    assert forall k: nat :: IsListed(s, k) ==> IsListed(s', k);
    forall i: nat | i < |s'.tables| ensures TableOk(s', i) {
      assert TableOk(s, i);
      TableKept(s, s', i);
    }
    forall i: nat, m: nat, k: nat | i < |s'.tables| && m < |s'.tables[i].listed| && k < |s'.ring|
      ensures ListsAt(s', i, m, k)
    {
      assert ListsAt(s, i, m, k);
    }
  }

  /** The fields that the invariant of the blocks speaks of, but for the producer. */
  ghost predicate SameBlocks<Item>(s: State<Item>, s': State<Item>) {
    && s'.blockSize == s.blockSize && s'.store == s.store && s'.ring == s.ring && s'.bases == s.bases
    && s'.put == s.put && s'.got == s.got && s'.done == s.done && s'.counters == s.counters
  }

  /** A decision of the producer that the blocks allow. */
  ghost predicate Allowed<Item>(s: State<Item>, p: Producer<Item>) {
    && s.blockSize > 0 && !s.producer.Resetting? && !p.Publishing?
    && (p.HasBlock() <==> s.producer.HasBlock() || (p.Writing? && s.Tail() % s.blockSize != 0))
    && (p.NeedsBlock() ==> s.Tail() % s.blockSize == 0)
    && (p.Listing() ==> s.producer.Listing())
    && (p.Probing? ==> s.bases != [] && p.f <= s.blockSize
                       && AllDone(s.done, s.bases[0] + s.blockSize - p.f, s.bases[0] + s.blockSize))
    && (p.Resetting? ==> s.producer.Probing? && s.producer.f == s.blockSize && p.f == 0)
  }

  lemma LayoutKept<Item>(s: State<Item>, s': State<Item>)
    requires Layout(s) && DoneOk(s) && SameBlocks(s, s') && Allowed(s, s'.producer)
    ensures Layout(s') && DoneOk(s')
  {
    if s'.producer.Writing? && !s.producer.HasBlock() && s.bases != [] {
      BaseIsMultiple(s.bases, s.blockSize, |s.bases| - 1);
      MultipleAfter(Last(s.bases), s.blockSize, 1);
    }
  }

  /** The producer moves on without touching the blocks. */
  lemma BlocksKept<Item>(s: State<Item>, s': State<Item>)
    requires BlocksOk(s) && SameBlocks(s, s') && Allowed(s, s'.producer)
    ensures BlocksOk(s')
  {
    LayoutKept(s, s');
    forall k: nat, f: nat | k < |s'.ring| && f < s'.blockSize ensures FlagAt(s', k, f) {
      assert FlagAt(s, k, f);
    }
    forall k: nat, o: nat | k < |s'.ring| && o < s'.blockSize ensures CellAt(s', k, o) {
      assert CellAt(s, k, o);
    }
  }

  /** Deciding without touching shared data. */
  lemma DecisionKeepsInv<Item>(s: State<Item>, p: Producer<Item>)
    requires Inv(s) && !s.producer.HasBlock() && !p.Listing() && Allowed(s, p)
    requires p.Adding? ==> s.tables != [] && s.used != s.size
    ensures Inv(s.(producer := p))
  {
    var s' := s.(producer := p);
    BlocksKept(s, s');
    TablesKept(s, s');
    SameRingKept(s, s');
    ConsumersKept(s, s');
  }

  lemma ReadyKeepsInv<Item>(s: State<Item>, item: Item, memory: bool, cells: seq<Item>, entries: seq<Entry>)
    requires Inv(s) && |cells| == s.blockSize && |entries| == 2 * s.size && s.producer.Ready?
    ensures Inv(ProducerStep(s, item, memory, cells, entries))
  {
    DecisionKeepsInv(s, ProducerStep(s, item, memory, cells, entries).producer);
  }

  /** What a flag says of the index it stands for. */
  lemma ProbeIsAllowed<Item>(s: State<Item>, p: Producer<Item>)
    requires BlocksOk(s) && s.producer.Probing? && s.ring != [] && s.ring[0] < |s.store|
    requires s.producer.f < s.blockSize ==> s.producer.f < |s.store[s.ring[0]].flags|
    requires p == if s.producer.f >= s.blockSize then Resetting(s.producer.item, 0)
                  else if s.store[s.ring[0]].flags[s.producer.f] then Probing(s.producer.item, s.producer.f + 1)
                  else Checking(s.producer.item)
    ensures Allowed(s, p)
  {
    if s.producer.f < s.blockSize {
      assert FlagAt(s, 0, s.producer.f);
    }
  }

  lemma ProbingKeepsInv<Item>(s: State<Item>, item: Item, memory: bool, cells: seq<Item>, entries: seq<Entry>)
    requires Inv(s) && |cells| == s.blockSize && |entries| == 2 * s.size && s.producer.Probing?
    ensures Inv(ProducerStep(s, item, memory, cells, entries))
  {
    var p := ProducerStep(s, item, memory, cells, entries).producer;
    assert BlockSized(s.store, s.blockSize, s.ring[0]);
    ProbeIsAllowed(s, p);
    DecisionKeepsInv(s, p);
  }

  lemma CheckingKeepsInv<Item>(s: State<Item>, item: Item, memory: bool, cells: seq<Item>, entries: seq<Entry>)
    requires Inv(s) && |cells| == s.blockSize && |entries| == 2 * s.size && s.producer.Checking?
    ensures Inv(ProducerStep(s, item, memory, cells, entries))
  {
    DecisionKeepsInv(s, ProducerStep(s, item, memory, cells, entries).producer);
  }

  lemma BlockChangeKeepsSized<Item>(s: State<Item>, s': State<Item>, b: nat)
    requires Sized(s) && b < |s.store| && ProducerSized(s')
    requires s'.blockSize == s.blockSize && s'.indexBits == s.indexBits
    requires s'.consumers == s.consumers && s'.counters == s.counters && s'.ring == s.ring && s'.bases == s.bases
    requires |s'.store| == |s.store| && s'.store == s.store[b := s'.store[b]]
    requires |s'.store[b].cells| == |s'.store[b].flags| == s.blockSize
    ensures Sized(s')
  {
    forall c: nat | c < |s'.store| ensures BlockSized(s'.store, s'.blockSize, c) {
      assert BlockSized(s.store, s.blockSize, c);
    }
  }

  /** One flag of the block ahead is cleared: all of its elements have been read and flagged. */
  lemma ClearingKeepsBlocks<Item>(s: State<Item>)
    requires BlocksOk(s) && s.producer.Resetting? && s.producer.f < s.blockSize && s.ring != []
    requires s.ring[0] < |s.store| && s.producer.f < |s.store[s.ring[0]].flags|
    ensures BlocksOk(s.(store := WithFlag(s, s.ring[0], s.producer.f, false),
                        producer := Resetting(s.producer.item, s.producer.f + 1)))
  {
    var b, g := s.ring[0], s.producer.f;
    var s' := s.(store := WithFlag(s, b, g, false), producer := Resetting(s.producer.item, g + 1));
    forall k: nat, f: nat | k < |s'.ring| && f < s'.blockSize ensures FlagAt(s', k, f) {
      assert FlagAt(s, k, f);
      assert k > 0 ==> s.ring[k] != s.ring[0];
    }
    forall k: nat, o: nat | k < |s'.ring| && o < s'.blockSize ensures CellAt(s', k, o) {
      assert CellAt(s, k, o);
    }
  }

  lemma ClearingKeepsInv<Item>(s: State<Item>)
    requires Inv(s) && s.producer.Resetting? && s.producer.f < s.blockSize
    requires s.ring[0] < |s.store| && s.producer.f < |s.store[s.ring[0]].flags|
    ensures Inv(s.(store := WithFlag(s, s.ring[0], s.producer.f, false),
                   producer := Resetting(s.producer.item, s.producer.f + 1)))
  {
    var b, g := s.ring[0], s.producer.f;
    var s' := s.(store := WithFlag(s, b, g, false), producer := Resetting(s.producer.item, g + 1));
    assert BlockSized(s.store, s.blockSize, b);
    BlockChangeKeepsSized(s, s', b);
    ClearingKeepsBlocks(s);
    TablesKept(s, s');
    SameRingKept(s, s');
    ConsumersKept(s, s');
  }

  // the block ahead becomes the tail block

  function Turned<Item>(s: State<Item>): State<Item>
    requires s.ring != [] && s.bases != [] && s.producer.Resetting?
  {
    s.(ring := s.ring[1..] + [s.ring[0]], bases := s.bases[1..] + [s.Tail()], producer := ListingBase(s.producer.item))
  }

  lemma TurningKeepsLayout<Item>(s: State<Item>)
    requires Layout(s) && s.producer.Resetting?
    ensures s.ring != [] && Layout(Turned(s))
    ensures s.Tail() == Last(s.bases) + s.blockSize
    ensures |s.bases| > 1 ==> s.bases[1] == s.bases[0] + s.blockSize
  {
    BaseIsMultiple(s.bases, s.blockSize, |s.bases| - 1);
    NextMultiple(Last(s.bases), s.blockSize, s.Tail());
    LadderShift(s.bases, s.blockSize, 1, s.Tail());
    if |s.bases| > 1 {
      assert Rung(s.bases, s.blockSize, 1);
    }
    var ring' := s.ring[1..] + [s.ring[0]];
    forall j: nat, k: nat | j < k < |ring'| ensures ring'[j] != ring'[k] {
      assert ring'[j] == s.ring[j + 1];
      assert k + 1 < |s.ring| ==> ring'[k] == s.ring[k + 1];
    }
  }

  lemma TurningKeepsBlocks<Item>(s: State<Item>)
    requires BlocksOk(s) && s.producer.Resetting? && s.producer.f >= s.blockSize && s.Head() <= s.Tail()
    ensures s.ring != [] && BlocksOk(Turned(s)) && RingKeeps(s, Turned(s))
  {
    TurningKeepsLayout(s);
    var s', n := Turned(s), |s.ring|;
    forall k': nat | k' < |s'.ring| ensures KeptAt(s, s', k') {
      if k' + 1 < n {
        assert s.ring[k' + 1] == s'.ring[k'] && s.bases[k' + 1] == s'.bases[k'];
      }
    }
    forall k: nat, f: nat | k < |s'.ring| && f < s'.blockSize ensures FlagAt(s', k, f) {
      assert FlagAt(s, if k + 1 < n then k + 1 else 0, f);
    }
    forall k: nat, o: nat | k < |s'.ring| && o < s'.blockSize ensures CellAt(s', k, o) {
      assert CellAt(s, if k + 1 < n then k + 1 else 0, o);
    }
  }

  lemma TurningKeepsTables<Item>(s: State<Item>)
    requires TablesOk(s) && Layout(s) && s.producer.Resetting?
    ensures s.ring != [] && TablesOk(Turned(s))
  {
    TurningKeepsLayout(s);
    var s', n := Turned(s), |s.ring|;
    assert forall base: nat :: IsOld(s, base) ==> IsOld(s', base);
    forall i: nat | i < |s'.tables| ensures TableOk(s', i) {
      assert TableOk(s, i);
      TableKept(s, s', i);
    }
    forall i: nat, m: nat, k: nat | i < |s'.tables| && m < |s'.tables[i].listed| && k < |s'.ring|
      ensures ListsAt(s', i, m, k)
    {
      assert TableOk(s, i) && IsOld(s, s.tables[i].listed[m]);
      if k + 1 < n {
        assert ListsAt(s, i, m, k + 1);
      } else {
        assert ListsAt(s, i, m, 0);
      }
    }
    assert IsListed(s, n - 1);
    forall k: nat | k < n - 1 ensures IsListed(s', k) {
      assert IsListed(s, k + 1);
    }
  }

  lemma TurningKeepsInv<Item>(s: State<Item>)
    requires Inv(s) && s.producer.Resetting? && s.producer.f >= s.blockSize
    ensures s.ring != [] && Inv(Turned(s))
  {
    O.InvBoundsHead(s.counters);
    TurningKeepsBlocks(s);
    TurningKeepsTables(s);
    var s' := Turned(s);
    ConsumersKept(s, s');
    forall k: nat | k < |s'.ring| ensures s'.ring[k] < |s'.store| {
      assert s'.ring[k] == s.ring[if k + 1 < |s.ring| then k + 1 else 0];
    }
  }

  lemma ResettingKeepsInv<Item>(s: State<Item>, item: Item, memory: bool, cells: seq<Item>, entries: seq<Entry>)
    requires Inv(s) && |cells| == s.blockSize && |entries| == 2 * s.size && s.producer.Resetting?
    ensures Inv(ProducerStep(s, item, memory, cells, entries))
  {
    if s.producer.f < s.blockSize {
      assert BlockSized(s.store, s.blockSize, s.ring[0]);
      ClearingKeepsInv(s);
    } else {
      TurningKeepsInv(s);
    }
  }

  // the index grows

  /** Which slot of the old index the j-th copied entry comes from. */
  lemma CopiedFrom<Item>(s: State<Item>, j: nat)
    requires TablesOk(s) && s.tables != [] && !s.producer.Listing() && j < s.used
    ensures var listed := Last(s.tables).listed; var m := |listed| - s.used + j;
            && 0 <= m < |listed| && s.size > 0 && (s.place - s.used + j) % s.size == Slot(m, s.size)
            && listed[m] == s.bases[j]
  {
    var listed := Last(s.tables).listed;
    var m := |listed| - s.used + j;
    assert IsListed(s, j);
    SlotShift(|listed|, j - s.used, s.size);
  }

  lemma GrownListsAt<Item>(s: State<Item>, entries: seq<Entry>, m: nat, k: nat)
    requires TablesOk(s) && ProducerSized(s) && Layout(s) && s.producer.Growing? && |entries| == 2 * s.size
    requires m < |s.bases| && k < |s.ring|
    ensures s.bases[m] == s.bases[k] ==>
              Grown(s, entries).entries[Slot(m, |entries|)] == Entry(s.bases[k], s.ring[k])
  {
    if m < k {
      LadderRises(s.bases, s.blockSize, m, k);
    } else if k < m {
      LadderRises(s.bases, s.blockSize, k, m);
    } else {
      CopiedFrom(s, k);
      assert ListsAt(s, |s.tables| - 1, |Last(s.tables).listed| - s.used + k, k);
    }
  }

  lemma GrowingKeepsTables<Item>(s: State<Item>, s': State<Item>, entries: seq<Entry>)
    requires TablesOk(s) && ProducerSized(s) && Layout(s) && s.producer.Growing? && |entries| == 2 * s.size
    requires s' == s.(tables := s.tables + [Grown(s, entries)], size := 2 * s.size, place := s.used,
                      producer := Adding(s.producer.item))
    ensures TablesOk(s') && TablesGrow(s.tables, s'.tables)
  {
    var n := |s.tables|;
    assert forall base: nat :: IsOld(s, base) ==> IsOld(s', base);
    forall i: nat | i < |s'.tables| ensures TableOk(s', i) {
      if i < n {
        assert TableOk(s, i);
        TableKept(s, s', i);
      } else {
        GrownIsOk(s, s', entries);
      }
    }
    forall i: nat, m: nat, k: nat | i < |s'.tables| && m < |s'.tables[i].listed| && k < |s'.ring|
      ensures ListsAt(s', i, m, k)
    {
      if i < n {
        assert ListsAt(s, i, m, k);
      } else {
        GrownListsAt(s, entries, m, k);
      }
    }
  }

  lemma GrownIsOk<Item>(s: State<Item>, s': State<Item>, entries: seq<Entry>)
    requires CurrentOk(s) && ProducerSized(s) && Layout(s) && s.producer.Growing? && |entries| == 2 * s.size
    requires s' == s.(tables := s.tables + [Grown(s, entries)], size := 2 * s.size, place := s.used,
                      producer := Adding(s.producer.item))
    ensures TableOk(s', |s.tables|)
  {
    forall m: nat | m < |s.bases| ensures s.bases[m] <= Last(s.bases) {
      if m + 1 < |s.bases| {
        LadderRises(s.bases, s.blockSize, m, |s.bases| - 1);
      }
    }
  }

  lemma GrowthKeepsInv<Item>(s: State<Item>, s': State<Item>, entries: seq<Entry>)
    requires Inv(s) && s.producer.Growing? && |entries| == 2 * s.size
    requires s' == s.(tables := s.tables + [Grown(s, entries)], size := 2 * s.size, place := s.used,
                      producer := Adding(s.producer.item))
    ensures Inv(s')
  {
    BlocksKept(s, s');
    GrowingKeepsTables(s, s', entries);
    SameRingKept(s, s');
    ConsumersKept(s, s');
    AimsKept(s, s');
  }

  lemma GrowingKeepsInv<Item>(s: State<Item>, item: Item, memory: bool, cells: seq<Item>, entries: seq<Entry>)
    requires Inv(s) && |cells| == s.blockSize && |entries| == 2 * s.size && s.producer.Growing?
    ensures Inv(ProducerStep(s, item, memory, cells, entries))
  {
    if memory {
      GrowthKeepsInv(s, ProducerStep(s, item, memory, cells, entries), entries);
    } else {
      DecisionKeepsInv(s, Ready);
    }
  }

  // a new block joins the ring

  function Joined<Item>(s: State<Item>, cells: seq<Item>): State<Item>
    requires s.producer.Adding?
  {
    s.(store := s.store + [Block(cells, seq(s.blockSize, _ => false))], used := s.used + 1,
       ring := s.ring + [|s.store|], bases := s.bases + [s.Tail()], producer := ListingBase(s.producer.item))
  }

  lemma JoiningKeepsLayout<Item>(s: State<Item>, cells: seq<Item>)
    requires Layout(s) && s.producer.Adding? && forall k: nat | k < |s.ring| :: s.ring[k] < |s.store|
    ensures Layout(Joined(s, cells)) && (s.bases != [] ==> s.Tail() == Last(s.bases) + s.blockSize)
  {
    var n := |s.ring|;
    if n > 0 {
      BaseIsMultiple(s.bases, s.blockSize, n - 1);
      NextMultiple(s.bases[n - 1], s.blockSize, s.Tail());
    }
    LadderShift(s.bases, s.blockSize, 0, s.Tail());
    assert s.bases[0..] == s.bases;
  }

  lemma JoiningKeepsBlocks<Item>(s: State<Item>, cells: seq<Item>)
    requires BlocksOk(s) && s.producer.Adding? && |cells| == s.blockSize && s.Head() <= s.Tail()
    requires forall k: nat | k < |s.ring| :: s.ring[k] < |s.store|
    ensures BlocksOk(Joined(s, cells)) && RingKeeps(s, Joined(s, cells))
  {
    JoiningKeepsLayout(s, cells);
    var s', n := Joined(s, cells), |s.ring|;
    forall k': nat | k' < |s'.ring| ensures KeptAt(s, s', k') {
      if k' < n {
        assert s.ring[k'] == s'.ring[k'] && s.bases[k'] == s'.bases[k'];
      }
    }
    forall k: nat, f: nat | k < |s'.ring| && f < s'.blockSize ensures FlagAt(s', k, f) {
      assert k < n ==> FlagAt(s, k, f);
    }
    forall k: nat, o: nat | k < |s'.ring| && o < s'.blockSize ensures CellAt(s', k, o) {
      assert k < n ==> CellAt(s, k, o);
    }
  }

  lemma JoiningKeepsTables<Item>(s: State<Item>, cells: seq<Item>)
    requires TablesOk(s) && Layout(s) && s.producer.Adding? && forall k: nat | k < |s.ring| :: s.ring[k] < |s.store|
    ensures TablesOk(Joined(s, cells))
  {
    JoiningKeepsLayout(s, cells);
    var s', n := Joined(s, cells), |s.ring|;
    assert forall base: nat :: IsOld(s, base) ==> IsOld(s', base);
    forall i: nat | i < |s'.tables| ensures TableOk(s', i) {
      assert TableOk(s, i);
      TableKept(s, s', i);
    }
    forall i: nat, m: nat, k: nat | i < |s'.tables| && m < |s'.tables[i].listed| && k < |s'.ring|
      ensures ListsAt(s', i, m, k)
    {
      assert TableOk(s, i) && IsOld(s, s.tables[i].listed[m]);
      if k < n {
        assert ListsAt(s, i, m, k);
      } else {
        assert ListsAt(s, i, m, 0);
      }
    }
    assert TableOk(s, |s.tables| - 1);
    assert n > 0 ==> IsListed(s, n - 1);
    forall k: nat | k < n ensures IsListed(s', k) {
      assert IsListed(s, k);
    }
  }

  lemma JoiningKeepsSized<Item>(s: State<Item>, cells: seq<Item>)
    requires Sized(s) && s.producer.Adding? && |cells| == s.blockSize && s.used < s.size
    ensures Sized(Joined(s, cells))
  {
    var s' := Joined(s, cells);
    forall b: nat | b < |s'.store| ensures BlockSized(s'.store, s'.blockSize, b) {
      assert b < |s.store| ==> BlockSized(s.store, s.blockSize, b);
    }
    forall t: nat | t < |s'.consumers| ensures ConsumerSized(s'.consumers[t], |s'.store|) {
      assert ConsumerSized(s.consumers[t], |s.store|);
    }
  }

  lemma JoiningKeepsInv<Item>(s: State<Item>, cells: seq<Item>)
    requires Inv(s) && s.producer.Adding? && |cells| == s.blockSize
    ensures Inv(Joined(s, cells))
  {
    O.InvBoundsHead(s.counters);
    JoiningKeepsSized(s, cells);
    JoiningKeepsBlocks(s, cells);
    JoiningKeepsTables(s, cells);
    ConsumersKept(s, Joined(s, cells));
  }

  lemma AddingKeepsInv<Item>(s: State<Item>, item: Item, memory: bool, cells: seq<Item>, entries: seq<Entry>)
    requires Inv(s) && |cells| == s.blockSize && |entries| == 2 * s.size && s.producer.Adding?
    ensures Inv(ProducerStep(s, item, memory, cells, entries))
  {
    if memory {
      JoiningKeepsInv(s, cells);
    } else {
      DecisionKeepsInv(s, Ready);
    }
  }

  // listing the tail block

  /** The slot that is written next holds no entry of a block in the ring. */
  lemma PlaceIsFree<Item>(s: State<Item>, m: nat, k: nat)
    requires CurrentOk(s) && s.tables != [] && s.producer.Listing() && TableOk(s, |s.tables| - 1)
    requires Ladder(s.bases, s.blockSize) && s.blockSize > 0 && k < |s.ring|
    requires m < |Last(s.tables).listed| && Slot(m, s.size) == s.place
    ensures Last(s.tables).listed[m] != s.bases[k]
  {
    var listed, n := Last(s.tables).listed, Listed(s);
    SlotRepeats(m, |listed|, s.size);
    assert IsOld(s, listed[m]);
    if k < n {
      assert IsListed(s, k);
      LadderRises(listed, s.blockSize, m, |listed| - n + k);
    }
  }

  lemma EntryKeepsListing<Item>(s: State<Item>, s': State<Item>, entry: Entry, i: nat, m: nat, k: nat)
    requires TablesOk(s) && Layout(s) && ProducerSized(s) && s.producer.Listing()
    requires s' == s.(tables := WithEntry(s, entry), producer := s'.producer)
    requires i < |s.tables| && m < |s.tables[i].listed| && k < |s.ring|
    ensures ListsAt(s', i, m, k)
  {
    assert ListsAt(s, i, m, k) && TableOk(s, i);
    if i == |s.tables| - 1 && Slot(m, s.size) == s.place {
      PlaceIsFree(s, m, k);
    }
  }

  lemma EntryKeepsTable<Item>(s: State<Item>, s': State<Item>, entry: Entry, i: nat)
    requires ProducerSized(s) && s.producer.Listing() && s'.producer.Listing() && i < |s.tables| && TableOk(s, i)
    requires s' == s.(tables := WithEntry(s, entry), producer := s'.producer)
    ensures TableOk(s', i) && s'.tables[i].listed == s.tables[i].listed
    ensures |s'.tables[i].entries| == |s.tables[i].entries|
  {
    assert s'.tables[i].listed == s.tables[i].listed;
    TableKept(s, s', i);
  }

  lemma EntryKeepsCurrent<Item>(s: State<Item>, s': State<Item>, entry: Entry)
    requires CurrentOk(s) && ProducerSized(s) && s.producer.Listing() && s'.producer.Listing()
    requires s' == s.(tables := WithEntry(s, entry), producer := s'.producer)
    requires s'.producer.ListingBlock? ==> entry.base == s.Tail()
    requires s'.producer.ListingFront? ==> entry == Entry(s.Tail(), Last(s.ring))
    ensures CurrentOk(s')
  {
    assert Last(s'.tables).listed == Last(s.tables).listed;
    forall k: nat | k < Listed(s') ensures IsListed(s', k) {
      assert IsListed(s, k);
    }
  }

  lemma EntryKeepsLists<Item>(s: State<Item>, s': State<Item>, entry: Entry)
    requires TablesOk(s) && Layout(s) && ProducerSized(s) && s.producer.Listing()
    requires s' == s.(tables := WithEntry(s, entry), producer := s'.producer)
    ensures ListsOk(s') && TablesGrow(s.tables, s'.tables)
  {
    forall i: nat, m: nat, k: nat | i < |s'.tables| && m < |s'.tables[i].listed| && k < |s'.ring|
      ensures ListsAt(s', i, m, k)
    {
      EntryKeepsListing(s, s', entry, i, m, k);
    }
  }

  /** Writing a part of the new entry. */
  lemma EntryKeepsTables<Item>(s: State<Item>, s': State<Item>, entry: Entry)
    requires TablesOk(s) && Layout(s) && ProducerSized(s) && s.producer.Listing() && s'.producer.Listing()
    requires s' == s.(tables := WithEntry(s, entry), producer := s'.producer)
    requires s'.producer.ListingBlock? ==> entry.base == s.Tail()
    requires s'.producer.ListingFront? ==> entry == Entry(s.Tail(), Last(s.ring))
    ensures TablesOk(s') && TablesGrow(s.tables, s'.tables)
  {
    EntryKeepsLists(s, s', entry);
    EntryKeepsCurrent(s, s', entry);
    forall i: nat | i < |s'.tables| ensures TableOk(s', i) {
      assert TableOk(s, i);
      EntryKeepsTable(s, s', entry, i);
    }
  }

  lemma EntryKeepsInv<Item>(s: State<Item>, s': State<Item>, entry: Entry)
    requires Inv(s) && s.producer.Listing() && s'.producer.Listing()
    requires s' == s.(tables := WithEntry(s, entry), producer := s'.producer)
    requires s'.producer.ListingBlock? ==> entry.base == s.Tail()
    requires s'.producer.ListingFront? ==> entry == Entry(s.Tail(), Last(s.ring))
    ensures Inv(s')
  {
    BlocksKept(s, s');
    EntryKeepsTables(s, s', entry);
    SameRingKept(s, s');
    ConsumersKept(s, s');
    AimsKept(s, s');
  }

  lemma ListingEntryKeepsInv<Item>(s: State<Item>, item: Item, memory: bool, cells: seq<Item>, entries: seq<Entry>)
    requires Inv(s) && |cells| == s.blockSize && |entries| == 2 * s.size
    requires s.producer.ListingBase? || s.producer.ListingBlock?
    ensures Inv(ProducerStep(s, item, memory, cells, entries))
  {
    var old_ := Last(s.tables).entries[s.place];
    EntryKeepsInv(s, ProducerStep(s, item, memory, cells, entries),
                  if s.producer.ListingBase? then old_.(base := s.Tail()) else old_.(block := Last(s.ring)));
  }

  function Published<Item>(s: State<Item>): State<Item>
    requires s.tables != [] && s.size > 0 && s.producer.ListingFront?
  {
    s.(tables := WithFront(s), place := Slot(|Last(s.tables).listed| + 1, s.size), producer := Writing(s.producer.item))
  }

  /** The bases listed are those of consecutive blocks. */
  lemma FrontContinuesLadder<Item>(s: State<Item>)
    requires CurrentOk(s) && Layout(s) && s.producer.ListingFront? && TableOk(s, |s.tables| - 1)
    ensures Ladder(Last(s.tables).listed + [s.Tail()], s.blockSize)
  {
    var listed := Last(s.tables).listed;
    var listed' := listed + [s.Tail()];
    if listed == [] {
      BaseIsMultiple(s.bases, s.blockSize, |s.bases| - 1);
    }
    forall m: nat | 0 < m < |listed'| ensures Rung(listed', s.blockSize, m) {
      assert m < |listed| ==> Rung(listed, s.blockSize, m);
    }
  }

  lemma FrontKeepsTable<Item>(s: State<Item>)
    requires CurrentOk(s) && Layout(s) && ProducerSized(s) && s.producer.ListingFront? && TableOk(s, |s.tables| - 1)
    ensures TableOk(Published(s), |s.tables| - 1)
  {
    FrontContinuesLadder(s);
  }

  lemma FrontKeepsCurrent<Item>(s: State<Item>)
    requires CurrentOk(s) && Layout(s) && ProducerSized(s) && s.producer.ListingFront?
    ensures CurrentOk(Published(s))
  {
    var s', n := Published(s), |s.ring|;
    assert Last(s'.tables).listed == Last(s.tables).listed + [s.Tail()];
    forall k: nat | k < n ensures IsListed(s', k) {
      assert k < n - 1 ==> IsListed(s, k);
    }
  }

  lemma FrontKeepsListing<Item>(s: State<Item>, i: nat, m: nat, k: nat)
    requires TablesOk(s) && Layout(s) && ProducerSized(s) && s.producer.ListingFront?
    requires i < |s.tables| && m < |Published(s).tables[i].listed| && k < |s.ring|
    ensures ListsAt(Published(s), i, m, k)
  {
    assert TableOk(s, i);
    if m < |s.tables[i].listed| {
      assert ListsAt(s, i, m, k);
    } else if k + 1 < |s.ring| {
      LadderRises(s.bases, s.blockSize, k, |s.ring| - 1);
    }
  }

  lemma FrontKeepsTables<Item>(s: State<Item>)
    requires TablesOk(s) && Layout(s) && ProducerSized(s) && s.producer.ListingFront?
    ensures TablesOk(Published(s)) && TablesGrow(s.tables, Published(s).tables)
  {
    var s', n := Published(s), |s.tables|;
    FrontKeepsCurrent(s);
    assert forall base: nat :: IsOld(s, base) ==> IsOld(s', base);
    forall i: nat | i < n ensures TableOk(s', i) {
      assert TableOk(s, i);
      if i == n - 1 {
        FrontKeepsTable(s);
      } else {
        TableKept(s, s', i);
      }
    }
    forall i: nat, m: nat, k: nat | i < n && m < |s'.tables[i].listed| && k < |s'.ring| ensures ListsAt(s', i, m, k) {
      FrontKeepsListing(s, i, m, k);
    }
  }

  lemma ListingFrontKeepsInv<Item>(s: State<Item>, item: Item, memory: bool, cells: seq<Item>, entries: seq<Entry>)
    requires Inv(s) && |cells| == s.blockSize && |entries| == 2 * s.size && s.producer.ListingFront?
    ensures Inv(ProducerStep(s, item, memory, cells, entries))
  {
    FrontPublishedKeepsInv(s);
    PlaceMovesOn(s);
  }

  lemma PlaceMovesOn<Item>(s: State<Item>)
    requires CurrentOk(s) && s.tables != []
    ensures s.size > 0 && (s.place + 1) % s.size == Slot(|Last(s.tables).listed| + 1, s.size)
  {
    SlotShift(|Last(s.tables).listed|, 1, s.size);
  }

  lemma FrontPublishedKeepsInv<Item>(s: State<Item>)
    requires Inv(s) && s.producer.ListingFront?
    ensures Inv(Published(s))
  {
    var s' := Published(s);
    BlocksKept(s, s');
    FrontKeepsTables(s);
    SameRingKept(s, s');
    ConsumersKept(s, s');
    AimsKept(s, s');
  }

  // writing the element and publishing it

  lemma TailOffset<Item>(s: State<Item>)
    requires Layout(s) && s.producer.HasBlock()
    ensures s.Tail() == Last(s.bases) + s.Tail() % s.blockSize
  {
    BaseIsMultiple(s.bases, s.blockSize, |s.bases| - 1);
    RemainderFrom(Last(s.bases), s.Tail(), s.blockSize);
    DivModUnique(s.Tail() - Last(s.bases), s.blockSize, 0, s.Tail() - Last(s.bases));
  }

  function Written<Item>(s: State<Item>): State<Item>
    requires s.ring != [] && Last(s.ring) < |s.store| && s.blockSize > 0 && s.producer.Writing?
    requires s.Tail() % s.blockSize < |s.store[Last(s.ring)].cells|
  {
    var b, o := Last(s.ring), s.Tail() % s.blockSize;
    s.(store := s.store[b := s.store[b].(cells := s.store[b].cells[o := s.producer.item])],
       producer := Publishing(s.producer.item))
  }

  /** The element goes to a cell of the tail block that no published index uses. */
  lemma WritingKeepsBlocks<Item>(s: State<Item>)
    requires BlocksOk(s) && s.producer.Writing? && s.ring != [] && Last(s.ring) < |s.store|
    requires s.Tail() % s.blockSize < |s.store[Last(s.ring)].cells|
    ensures BlocksOk(Written(s))
  {
    var s', n := Written(s), |s.ring|;
    TailOffset(s);
    forall k: nat, f: nat | k < |s'.ring| && f < s'.blockSize ensures FlagAt(s', k, f) {
      assert FlagAt(s, k, f);
    }
    forall k: nat, o': nat | k < |s'.ring| && o' < s'.blockSize ensures CellAt(s', k, o') {
      assert CellAt(s, k, o');
      assert k + 1 < n ==> s.ring[k] != s.ring[n - 1];
    }
  }

  lemma WritingKeepsInv<Item>(s: State<Item>, item: Item, memory: bool, cells: seq<Item>, entries: seq<Entry>)
    requires Inv(s) && |cells| == s.blockSize && |entries| == 2 * s.size && s.producer.Writing?
    ensures Inv(ProducerStep(s, item, memory, cells, entries))
  {
    assert BlockSized(s.store, s.blockSize, Last(s.ring));
    var s' := Written(s);
    BlockChangeKeepsSized(s, s', Last(s.ring));
    WritingKeepsBlocks(s);
    TablesKept(s, s');
    SameRingKept(s, s');
    ConsumersKept(s, s');
  }

  lemma PublishingKeepsBlocks<Item>(s: State<Item>, s': State<Item>)
    requires BlocksOk(s) && s.producer.Publishing?
    requires s' == s.(counters := O.Publish(s.counters, 1), put := s.put + [s.producer.item], producer := Ready)
    ensures BlocksOk(s')
  {
    var n := |s.ring|;
    TailOffset(s);
    forall k: nat, f: nat | k < |s'.ring| && f < s'.blockSize ensures FlagAt(s', k, f) {
      assert FlagAt(s, k, f);
    }
    forall k: nat, o: nat | k < |s'.ring| && o < s'.blockSize ensures CellAt(s', k, o) {
      assert CellAt(s, k, o);
      if k + 1 < n {
        LadderRises(s.bases, s.blockSize, k, n - 1);
      }
    }
  }

  lemma PublishingKeepsInv<Item>(s: State<Item>, item: Item, memory: bool, cells: seq<Item>, entries: seq<Entry>)
    requires Inv(s) && |cells| == s.blockSize && |entries| == 2 * s.size && s.producer.Publishing?
    ensures Inv(ProducerStep(s, item, memory, cells, entries))
  {
    var s' := ProducerStep(s, item, memory, cells, entries);
    O.PublishKeepsInv(s.counters, 1);
    PublishingKeepsBlocks(s, s');
    TablesKept(s, s');
    SameRingKept(s, s');
    ConsumersKept(s, s');
  }

  lemma ProducerKeepsInv<Item>(s: State<Item>, item: Item, memory: bool, cells: seq<Item>, entries: seq<Entry>)
    requires Inv(s) && |cells| == s.blockSize && |entries| == 2 * s.size
    ensures Inv(ProducerStep(s, item, memory, cells, entries))
  {
    match s.producer
    case Ready => ReadyKeepsInv(s, item, memory, cells, entries);
    case Probing(_, _) => ProbingKeepsInv(s, item, memory, cells, entries);
    case Resetting(_, _) => ResettingKeepsInv(s, item, memory, cells, entries);
    case Checking(_) => CheckingKeepsInv(s, item, memory, cells, entries);
    case Growing(_) => GrowingKeepsInv(s, item, memory, cells, entries);
    case Adding(_) => AddingKeepsInv(s, item, memory, cells, entries);
    case ListingBase(_) => ListingEntryKeepsInv(s, item, memory, cells, entries);
    case ListingBlock(_) => ListingEntryKeepsInv(s, item, memory, cells, entries);
    case ListingFront(_) => ListingFrontKeepsInv(s, item, memory, cells, entries);
    case Writing(_) => WritingKeepsInv(s, item, memory, cells, entries);
    case Publishing(_) => PublishingKeepsInv(s, item, memory, cells, entries);
  }

  // -------------------------------------------- what dequeue does keeps it

  lemma CounterStep(c: O.State, t: nat, max: nat)
    requires O.Inv(c) && t < |c.pc|
    ensures O.Holds(c.units, t, c.pc[t])
    ensures var c' := O.Step(c, t, max); var got := if c.pc[t].Take? then c.pc[t].got else 0;
            && O.Inv(c') && c'.tail == c.tail && c'.head == c.head + got <= c.tail && |c'.pc| == |c.pc|
            && |c.takers| == c.head && c'.takers == c.takers + O.Repeat(t, got)
  {
    O.StepKeepsInv(c, t, max);
    O.InvBoundsHead(O.Step(c, t, max));
  }

  /** Consumers leave the producer and its index alone. */
  ghost predicate SameProducer<Item>(s: State<Item>, s': State<Item>) {
    && SameTables(s, s') && s'.producer == s.producer && s'.put == s.put && s'.Tail() == s.Tail()
    && s'.indexBits == s.indexBits
  }

  /** The blocks do not change while consumers claim, look up and read. */
  lemma BlocksStay<Item>(s: State<Item>, s': State<Item>)
    requires Layout(s) && FlagsOk(s) && CellsOk(s)
    requires SameProducer(s, s') && s'.store == s.store && s'.done == s.done
    ensures Layout(s') && FlagsOk(s') && CellsOk(s')
  {
    forall k: nat, f: nat | k < |s'.ring| && f < s'.blockSize ensures FlagAt(s', k, f) {
      assert FlagAt(s, k, f);
    }
    forall k: nat, o: nat | k < |s'.ring| && o < s'.blockSize ensures CellAt(s', k, o) {
      assert CellAt(s, k, o);
    }
  }

  lemma AimsStay<Item>(s: State<Item>, s': State<Item>, t: nat)
    requires AimsOk(s) && t < |s.consumers| && SameProducer(s, s')
    requires |s'.consumers| == |s.consumers| && s'.consumers == s.consumers[t := s'.consumers[t]]
    requires Aims(s'.tables, s'.blockSize, s'.consumers[t])
    ensures AimsOk(s')
  {
    forall u: nat | u < |s'.consumers| ensures Aims(s'.tables, s'.blockSize, s'.consumers[u]) {
      assert Aims(s.tables, s.blockSize, s.consumers[u]);
    }
  }

  /** A step inside the counters that claims nothing. */
  lemma CountingKeepsInv<Item>(s: State<Item>, t: nat, max: nat)
    requires Inv(s) && t < |s.consumers| && s.consumers[t].Counting?
    requires !(s.counters.pc[t].Take? && s.counters.pc[t].got > 0)
    ensures Inv(ConsumerStep(s, t, max))
  {
    CounterStep(s.counters, t, max);
    var s' := ConsumerStep(s, t, max);
    assert s'.counters.takers == s.counters.takers;
    SameRingKept(s, s');
    ConsumersKept(s, s');
    BlocksStay(s, s');
    TablesKept(s, s');
  }

  /** The fetch_add on headIndex hands out the next indices. */
  lemma ClaimingKeepsConsumers<Item>(s: State<Item>, s': State<Item>, t: nat, got: nat)
    requires ConsumersOk(s) && |s.counters.takers| == s.Head() && got > 0
    requires t < |s.consumers| && s.consumers[t].Counting?
    requires s'.blockSize == s.blockSize && s'.ring == s.ring && s'.bases == s.bases && |s.ring| == |s.bases|
    requires s'.done == s.done && s'.got == s.got
    requires forall x <- s.done :: x < s.Head()
    requires forall x <- s.got :: x < s.Head()
    requires s'.consumers == s.consumers[t := Locating(s.Head(), s.Head() + got)]
    requires s'.counters.takers == s.counters.takers + O.Repeat(t, got) && s'.Head() == s.Head() + got
    ensures ConsumersOk(s')
  {
    forall u: nat | u < |s'.consumers| ensures ConsumerOk(s', u) {
      assert ConsumerOk(s, u);
    }
    forall x: nat ensures Accounted(s', x) {
      assert Accounted(s, x);
      if x < s.Head() && x !in s.done {
        var u: nat :| u < |s.consumers| && Covers(s.consumers[u], x);
        assert Covers(s'.consumers[u], x);
      } else if x < s'.Head() && x !in s.done {
        assert Covers(s'.consumers[t], x);
      }
    }
  }

  lemma ClaimingKeepsInv<Item>(s: State<Item>, t: nat, max: nat)
    requires Inv(s) && t < |s.consumers| && s.consumers[t].Counting?
    requires s.counters.pc[t].Take? && s.counters.pc[t].got > 0
    ensures Inv(ConsumerStep(s, t, max))
  {
    CounterStep(s.counters, t, max);
    var s' := ConsumerStep(s, t, max);
    ClaimingKeepsConsumers(s, s', t, s.counters.pc[t].got);
    BlocksStay(s, s');
    TablesKept(s, s');
    AimsStay(s, s', t);
    MovedKeepsSized(s, s', t);
  }

  lemma MovedKeepsSized<Item>(s: State<Item>, s': State<Item>, t: nat)
    requires Sized(s) && t < |s.consumers| && SameProducer(s, s')
    requires s'.store == s.store && |s'.counters.pc| == |s.counters.pc|
    requires |s'.consumers| == |s.consumers| && s'.consumers == s.consumers[t := s'.consumers[t]]
    requires ConsumerSized(s'.consumers[t], |s.store|)
    ensures Sized(s')
  {
    forall u: nat | u < |s'.consumers| ensures ConsumerSized(s'.consumers[u], |s'.store|) {
      assert ConsumerSized(s.consumers[u], |s.store|);
    }
    forall b: nat | b < |s'.store| ensures BlockSized(s'.store, s'.blockSize, b) {
      assert BlockSized(s.store, s.blockSize, b);
    }
  }

  /** Only consumer t moves, and what it covers stays covered. */
  lemma MovingKeepsConsumers<Item>(s: State<Item>, t: nat, c: Consumer)
    requires ConsumersOk(s) && t < |s.consumers| && ConsumerOk(Moved(s, t, c), t)
    requires forall x: nat :: Covers(s.consumers[t], x) ==> Covers(c, x)
    ensures ConsumersOk(Moved(s, t, c))
  {
    var s' := Moved(s, t, c);
    forall u: nat | u < |s'.consumers| ensures ConsumerOk(s', u) {
      assert ConsumerOk(s, u);
    }
    forall x: nat ensures Accounted(s', x) {
      assert Accounted(s, x);
      if x < s.Head() && x !in s.done {
        var u: nat :| u < |s.consumers| && Covers(s.consumers[u], x);
        assert Covers(s'.consumers[u], x);
      }
    }
  }

  lemma MovingKeepsInv<Item>(s: State<Item>, t: nat, c: Consumer)
    requires Inv(s) && t < |s.consumers| && ConsumerOk(Moved(s, t, c), t) && ConsumerSized(c, |s.store|)
    requires Aims(s.tables, s.blockSize, c)
    requires forall x: nat :: Covers(s.consumers[t], x) ==> Covers(c, x)
    ensures Inv(Moved(s, t, c))
  {
    var s' := Moved(s, t, c);
    MovingKeepsConsumers(s, t, c);
    BlocksStay(s, s');
    TablesKept(s, s');
    AimsStay(s, s', t);
    MovedKeepsSized(s, s', t);
  }

  // the lookup

  /** The block of an index that is claimed and not done is in the ring. */
  lemma BlockInRing<Item>(s: State<Item>, x: nat) returns (k: nat)
    requires O.Inv(s.counters) && Layout(s) && DoneOk(s) && x < s.Head() && x !in s.done
    ensures k < |s.ring| == |s.bases| && s.bases[k] == x - x % s.blockSize <= x < s.bases[k] + s.blockSize
  {
    O.InvBoundsHead(s.counters);
    assert x >= s.bases[0];
    k := LookupFindsBlock(s.bases, s.blockSize, x);
  }

  /** A consumer finds its indices neither done nor anybody else's. */
  lemma OwnIndex<Item>(s: State<Item>, t: nat)
    requires Inv(s) && t < |s.consumers|
    requires !s.consumers[t].Counting? && !s.consumers[t].HasBlock()
    ensures ConsumerOk(s, t) && s.consumers[t].lo < s.consumers[t].end <= s.Head()
    ensures s.consumers[t].lo !in s.done
  {
    assert ConsumerOk(s, t);
    assert s.counters.takers[s.consumers[t].lo] == t;
  }

  /** The current index lists all claimed blocks that are not done. */
  lemma CurrentReaches<Item>(s: State<Item>, lo: nat, end: nat)
    requires Inv(s) && lo < end <= s.Head() && lo !in s.done
    ensures s.tables != [] && Reaches(s.tables, s.blockSize, |s.tables| - 1, lo, end)
  {
    O.InvBoundsHead(s.counters);
    var k := BlockInRing(s, lo);
    assert IsListed(s, k) && TableOk(s, |s.tables| - 1);
    var listed := Last(s.tables).listed;
    var m := |listed| - Listed(s) + k;
    if m > 0 {
      LadderRises(listed, s.blockSize, 0, m);
    }
    if !s.producer.Listing() {
      assert IsListed(s, |s.ring| - 1);
    }
  }

  lemma LocatingKeepsInv<Item>(s: State<Item>, t: nat, max: nat)
    requires Inv(s) && t < |s.consumers| && s.consumers[t].Locating?
    ensures ConsumerStep(s, t, max).consumers[t].Indexed? && Inv(ConsumerStep(s, t, max))
  {
    var lo, end := s.consumers[t].lo, s.consumers[t].end;
    OwnIndex(s, t);
    CurrentReaches(s, lo, end);
    MovingKeepsInv(s, t, Indexed(lo, end, |s.tables| - 1));
  }

  /** The newest listing of a table that reaches to `end` is not older than the block of lo. */
  lemma FrontPoints<Item>(s: State<Item>, i: nat, lo: nat, end: nat)
    requires i < |s.tables| && TableOk(s, i) && Reaches(s.tables, s.blockSize, i, lo, end) && lo < end
    ensures InTable(s.tables, i, s.tables[i].front)
    ensures Points(s.tables, s.blockSize, Place(i, s.tables[i].front, |s.tables[i].listed| - 1), lo, false)
  {
    var listed := s.tables[i].listed;
    BaseIsMultiple(listed, s.blockSize, |listed| - 1);
    RoundDown(lo, s.blockSize, Last(listed));
  }

  lemma RoundDown(x: nat, step: nat, base: nat)
    requires step > 0 && base % step == 0 && x < base + step
    ensures x - x % step <= base
  {
    MulApart(step, base / step, x / step);
  }

  lemma IndexedKeepsInv<Item>(s: State<Item>, t: nat, max: nat)
    requires Inv(s) && t < |s.consumers| && s.consumers[t].Indexed?
    ensures ConsumerStep(s, t, max).consumers[t].Fronted? && Inv(ConsumerStep(s, t, max))
  {
    var lo, end, i := s.consumers[t].lo, s.consumers[t].end, s.consumers[t].table;
    OwnIndex(s, t);
    assert Aims(s.tables, s.blockSize, s.consumers[t]) && TableOk(s, i);
    FrontPoints(s, i, lo, end);
    MovingKeepsInv(s, t, Fronted(lo, end, Place(i, s.tables[i].front, |s.tables[i].listed| - 1)));
  }

  /** An entry that points to the block of a claimed index not done, or to a newer one, is intact. */
  lemma EntryIsIntact<Item>(s: State<Item>, p: Place, lo: nat) returns (k: nat)
    requires Inv(s) && Points(s.tables, s.blockSize, p, lo, false) && lo < s.Head() && lo !in s.done
    ensures InTable(s.tables, p.table, p.slot) && k < |s.ring| == |s.bases|
    ensures s.tables[p.table].entries[p.slot] == Entry(s.bases[k], s.ring[k])
    ensures s.bases[k] == s.tables[p.table].listed[p.m]
  {
    var base := s.tables[p.table].listed[p.m];
    var k0 := BlockInRing(s, lo);
    assert TableOk(s, p.table) && IsOld(s, base);
    if k0 > 0 {
      LadderRises(s.bases, s.blockSize, 0, k0);
    }
    k := LookupFindsBlock(s.bases, s.blockSize, base);
    BaseIsMultiple(s.tables[p.table].listed, s.blockSize, p.m);
    assert ListsAt(s, p.table, p.m, k);
  }

  /** From the slot of an intact entry the bases lead to the slot of the block of lo. */
  lemma SlotOfIsRight(table: Table, front: Place, blockSize: nat, lo: nat, m: nat)
    requires blockSize > 0 && Ladder(table.listed, blockSize) && 0 <= front.m < |table.listed| && m <= front.m
    requires |table.entries| > 0 && front.slot == Slot(front.m, |table.entries|)
    requires table.entries[front.slot].base == table.listed[front.m]
    requires table.listed[m] == lo - lo % blockSize
    ensures SlotOf(table, front, blockSize, lo) == Place(front.table, Slot(m, |table.entries|), m)
  {
    LadderAt(table.listed, blockSize, m);
    LadderAt(table.listed, blockSize, front.m);
    OffsetOfMultiples(table.listed[0], blockSize, m, front.m);
    SlotShift(front.m, m - front.m, |table.entries|);
  }

  lemma FrontedLeads<Item>(s: State<Item>, front: Place, lo: nat, end: nat)
    requires Inv(s) && lo < end <= s.Head() && lo !in s.done
    requires Reaches(s.tables, s.blockSize, front.table, lo, end) && Points(s.tables, s.blockSize, front, lo, false)
    ensures InTable(s.tables, front.table, front.slot)
    ensures var p := SlotOf(s.tables[front.table], front, s.blockSize, lo);
            p.table == front.table && Points(s.tables, s.blockSize, p, lo, true)
  {
    var table := s.tables[front.table];
    var k := EntryIsIntact(s, front, lo);
    assert TableOk(s, front.table);
    var m := LookupFindsBlock(table.listed, s.blockSize, lo);
    if front.m < m {
      LadderRises(table.listed, s.blockSize, front.m, m);
    }
    SlotOfIsRight(table, front, s.blockSize, lo, m);
  }

  lemma FrontedKeepsInv<Item>(s: State<Item>, t: nat, max: nat)
    requires Inv(s) && t < |s.consumers| && s.consumers[t].Fronted?
    ensures ConsumerStep(s, t, max).consumers[t].Slotted? && Inv(ConsumerStep(s, t, max))
  {
    var lo, end, front := s.consumers[t].lo, s.consumers[t].end, s.consumers[t].front;
    OwnIndex(s, t);
    assert Aims(s.tables, s.blockSize, s.consumers[t]);
    FrontedLeads(s, front, lo, end);
    MovingKeepsInv(s, t, Slotted(lo, end, SlotOf(s.tables[front.table], front, s.blockSize, lo)));
  }

  /** Two blocks of the ring have different bases. */
  lemma BasesDiffer(bases: seq<nat>, step: nat, j: nat, k: nat)
    requires step > 0 && Ladder(bases, step) && j < |bases| && k < |bases| && bases[j] == bases[k]
    ensures j == k
  {
    if j < k {
      LadderRises(bases, step, j, k);
    } else if k < j {
      LadderRises(bases, step, k, j);
    }
  }

  /** The entry holds the block that covers lo. */
  lemma SlottedLeads<Item>(s: State<Item>, at: Place, lo: nat)
    requires Inv(s) && lo < s.Head() && lo !in s.done && Points(s.tables, s.blockSize, at, lo, true)
    ensures InTable(s.tables, at.table, at.slot)
    ensures var b := s.tables[at.table].entries[at.slot].block; b < |s.store| && BlockIs(s, b, lo)
  {
    var k := EntryIsIntact(s, at, lo);
    forall j: nat | j < |s.ring| && s.bases[j] == lo - lo % s.blockSize ensures s.ring[j] == s.ring[k] {
      BasesDiffer(s.bases, s.blockSize, j, k);
    }
  }

  lemma SlottedKeepsInv<Item>(s: State<Item>, t: nat, max: nat)
    requires Inv(s) && t < |s.consumers| && s.consumers[t].Slotted?
    ensures ConsumerStep(s, t, max).consumers[t].Reading? && Inv(ConsumerStep(s, t, max))
  {
    var lo, end, at := s.consumers[t].lo, s.consumers[t].end, s.consumers[t].at;
    OwnIndex(s, t);
    assert Aims(s.tables, s.blockSize, s.consumers[t]);
    SlottedLeads(s, at, lo);
    MovingKeepsInv(s, t, ConsumerStep(s, t, max).consumers[t]);
  }

  // reading and marking

  /** An index is read from the right block: the value is the one that was put there. */
  lemma ReadsTheRightCell<Item>(s: State<Item>, t: nat)
    requires Inv(s) && t < |s.consumers| && s.consumers[t].Reading? && s.consumers[t].i < s.consumers[t].hi
    ensures var b, i := s.consumers[t].block, s.consumers[t].i;
            && b < |s.store| && i % s.blockSize < |s.store[b].cells| && i < |s.put|
            && s.store[b].cells[i % s.blockSize] == s.put[i]
  {
    var c := s.consumers[t];
    assert ConsumerOk(s, t) && ConsumerSized(c, |s.store|);
    assert s.counters.takers[c.i] == t;
    var k := BlockInRing(s, c.i);
    SameBlock(c.lo, c.i, s.blockSize);
    O.InvBoundsHead(s.counters);
    assert CellAt(s, k, c.i % s.blockSize);
  }

  lemma SameBlock(lo: nat, i: nat, size: nat)
    requires size > 0 && lo <= i < lo - lo % size + size
    ensures i - i % size == lo - lo % size
  {
    var base := lo - lo % size;
    assert base == size * (lo / size);
    DivModUnique(i, size, lo / size, i - base);
  }

  /** What consumer t reads or marks is not another consumer's. */
  lemma OthersStayOk<Item>(s: State<Item>, s': State<Item>, t: nat, x: nat, u: nat)
    requires s.blockSize > 0 && u < |s.consumers| == |s'.consumers| && ConsumerOk(s, u)
    requires x < |s.counters.takers| && s.counters.takers[x] == t != u && s'.consumers[u] == s.consumers[u]
    requires s'.blockSize == s.blockSize && s'.counters == s.counters && s'.ring == s.ring && s'.bases == s.bases
    requires s'.done == s.done || s'.done == s.done + {x}
    requires s'.got.Keys == s.got.Keys || s'.got.Keys == s.got.Keys + {x}
    ensures ConsumerOk(s', u)
  {
  }

  /** Consumer t still covers what it did, except what it has just marked. */
  lemma StillAccounted<Item>(s: State<Item>, s': State<Item>, t: nat, x: nat)
    requires Accounted(s, x) && t < |s.consumers| == |s'.consumers|
    requires s'.consumers == s.consumers[t := s'.consumers[t]] && s'.counters == s.counters && s.done <= s'.done
    requires Covers(s.consumers[t], x) && x !in s'.done ==> Covers(s'.consumers[t], x)
    ensures Accounted(s', x)
  {
    if x < s.Head() && x !in s'.done {
      var u: nat :| u < |s.consumers| && Covers(s.consumers[u], x);
      assert Covers(s'.consumers[u], x);
    }
  }

  lemma ReadingKeepsConsumers<Item>(s: State<Item>, s': State<Item>, t: nat, value: Item)
    requires ConsumersOk(s) && t < |s.consumers| && s.consumers[t].Reading? && s.consumers[t].i < s.consumers[t].hi
    requires var c := s.consumers[t];
             s' == s.(consumers := s.consumers[t := c.(i := c.i + 1)], got := s.got[c.i := value])
    ensures ConsumersOk(s')
  {
    var c := s.consumers[t];
    assert ConsumerOk(s, t);
    assert s.counters.takers[c.i] == t;
    forall u: nat | u < |s'.consumers| ensures ConsumerOk(s', u) {
      if u != t {
        OthersStayOk(s, s', t, c.i, u);
      }
    }
    forall x: nat ensures Accounted(s', x) {
      StillAccounted(s, s', t, x);
    }
  }

  lemma ReadingKeepsInv<Item>(s: State<Item>, t: nat, max: nat)
    requires Inv(s) && t < |s.consumers| && s.consumers[t].Reading? && s.consumers[t].i < s.consumers[t].hi
    ensures Inv(ConsumerStep(s, t, max))
  {
    ReadsTheRightCell(s, t);
    var c := s.consumers[t];
    var s' := ConsumerStep(s, t, max);
    ReadingKeepsConsumers(s, s', t, s.put[c.i]);
    BlocksStay(s, s');
    TablesKept(s, s');
    assert ConsumerSized(c, |s.store|) && Aims(s.tables, s.blockSize, c);
    AimsStay(s, s', t);
    MovedKeepsSized(s, s', t);
    assert ConsumerOk(s, t);
  }

  /** Setting the flag of index x, whose block b is the k0-th of the ring. */
  lemma MarkingKeepsFlag<Item>(s: State<Item>, s': State<Item>, k0: nat, x: nat, k: nat, f: nat)
    requires Layout(s) && k0 < |s.ring|
    requires s.bases[k0] <= x < s.bases[k0] + s.blockSize && x % s.blockSize == x - s.bases[k0]
    requires s.ring[k0] < |s.store| && FlagOf(s.blockSize, x) < |s.store[s.ring[k0]].flags|
    requires s'.store == WithFlag(s, s.ring[k0], FlagOf(s.blockSize, x), true) && s'.done == s.done + {x}
    requires s'.blockSize == s.blockSize && s'.ring == s.ring && s'.bases == s.bases && s'.producer == s.producer
    requires k0 == 0 ==> !s.producer.Resetting?
    requires k < |s.ring| && f < s.blockSize && FlagAt(s, k, f)
    ensures FlagAt(s', k, f)
  {
    if k < k0 {
      LadderRises(s.bases, s.blockSize, k, k0);
    } else if k0 < k {
      LadderRises(s.bases, s.blockSize, k0, k);
    }
  }

  /** Setting the flag of an index that is claimed and not done: its block is still in the ring under the
      index's base, and the producer is not resetting it. */
  lemma MarkingKeepsBlocks<Item>(s: State<Item>, s': State<Item>, b: nat, x: nat)
    requires BlocksOk(s) && O.Inv(s.counters)
    requires x < s.Head() && x !in s.done && x in s.got && BlockIs(s, b, x)
    requires b < |s.store| && FlagOf(s.blockSize, x) < |s.store[b].flags|
    requires s'.store == WithFlag(s, b, FlagOf(s.blockSize, x), true) && s'.done == s.done + {x}
    requires SameProducer(s, s') && s'.counters == s.counters && s'.got == s.got
    ensures BlocksOk(s')
  {
    var k0 := BlockInRing(s, x);
    assert s.ring[k0] == b;
    assert s.producer.Resetting? ==> AllDone(s.done, s.bases[0], s.bases[0] + s.blockSize);
    forall k: nat, f: nat | k < |s'.ring| && f < s'.blockSize ensures FlagAt(s', k, f) {
      MarkingKeepsFlag(s, s', k0, x, k, f);
    }
    forall k: nat, o: nat | k < |s'.ring| && o < s'.blockSize ensures CellAt(s', k, o) {
      assert CellAt(s, k, o);
    }
  }

  /** Consumer t has set the flag of the last index it had not marked in this block. */
  lemma MarkerStaysOk<Item>(s: State<Item>, s': State<Item>, t: nat)
    requires s.blockSize > 0 && t < |s.consumers| && ConsumerOk(s, t)
    requires s.consumers[t].Marking?
    requires var c := s.consumers[t];
             && c.lo + c.j < c.hi
             && s' == s.(consumers := s.consumers[t := c.(j := c.j + 1)], store := s'.store,
                         done := s.done + {c.hi - 1 - c.j})
    ensures var x := s.consumers[t].hi - 1 - s.consumers[t].j;
            x < |s.counters.takers| && s.counters.takers[x] == t && ConsumerOk(s', t)
    ensures forall y: nat | Covers(s.consumers[t], y) && y !in s'.done :: Covers(s'.consumers[t], y)
  {
  }

  lemma MarkingKeepsConsumers<Item>(s: State<Item>, s': State<Item>, t: nat)
    requires ConsumersOk(s)
    requires t < |s.consumers| && s.consumers[t].Marking?
    requires var c := s.consumers[t];
             && c.lo + c.j < c.hi
             && s' == s.(consumers := s.consumers[t := c.(j := c.j + 1)], store := s'.store,
                         done := s.done + {c.hi - 1 - c.j})
    ensures ConsumersOk(s')
  {
    var x := s.consumers[t].hi - 1 - s.consumers[t].j;
    assert ConsumerOk(s, t);
    MarkerStaysOk(s, s', t);
    forall u: nat | u < |s'.consumers| ensures ConsumerOk(s', u) {
      if u != t {
        OthersStayOk(s, s', t, x, u);
      }
    }
    forall y: nat ensures Accounted(s', y) {
      StillAccounted(s, s', t, y);
    }
  }

  lemma MarkingKeepsInv<Item>(s: State<Item>, t: nat, max: nat)
    requires Inv(s) && t < |s.consumers| && s.consumers[t].Marking?
    requires s.consumers[t].lo + s.consumers[t].j < s.consumers[t].hi
    ensures Inv(ConsumerStep(s, t, max))
  {
    var c := s.consumers[t];
    var x := c.hi - 1 - c.j;
    var s' := ConsumerStep(s, t, max);
    assert ConsumerOk(s, t) && ConsumerSized(c, |s.store|) && Aims(s.tables, s.blockSize, c);
    assert s.counters.takers[x] == t && x !in s.done && x in s.got;
    assert BlockSized(s.store, s.blockSize, c.block);
    SameBlock(c.lo, x, s.blockSize);
    MarkingKeepsConsumers(s, s', t);
    MarkingKeepsBlocks(s, s', c.block, x);
    TablesKept(s, s');
    AimsStay(s, s', t);
    MarkingKeepsSized(s, s', t);
  }

  lemma MarkingKeepsSized<Item>(s: State<Item>, s': State<Item>, t: nat)
    requires Sized(s) && t < |s.consumers| && s.consumers[t].Marking?
    requires s.consumers[t].lo + s.consumers[t].j < s.consumers[t].hi && s' == ConsumerStep(s, t, 0)
    ensures Sized(s')
  {
    assert ConsumerSized(s.consumers[t], |s.store|);
    forall u: nat | u < |s'.consumers| ensures ConsumerSized(s'.consumers[u], |s'.store|) {
      assert ConsumerSized(s.consumers[u], |s.store|);
    }
    forall b: nat | b < |s'.store| ensures BlockSized(s'.store, s'.blockSize, b) {
      assert BlockSized(s.store, s.blockSize, b);
    }
  }

  /** The slot behind that of the block of lo is that of the next block, in the same table. */
  lemma NextPoints<Item>(s: State<Item>, at: Place, lo: nat, hi: nat, end: nat)
    requires at.table < |s.tables| && TableOk(s, at.table) && hi < end && s.blockSize > 0
    requires hi == lo - lo % s.blockSize + s.blockSize
    requires Reaches(s.tables, s.blockSize, at.table, lo, end) && Points(s.tables, s.blockSize, at, lo, true)
    ensures var next := Place(at.table, (at.slot + 1) % |s.tables[at.table].entries|, at.m + 1);
            && Points(s.tables, s.blockSize, next, hi, true)
            && Reaches(s.tables, s.blockSize, at.table, hi, end)
  {
    var listed := s.tables[at.table].listed;
    SlotShift(at.m, 1, |s.tables[at.table].entries|);
    assert Rung(listed, s.blockSize, at.m + 1);
    BaseIsMultiple(listed, s.blockSize, at.m + 1);
    assert hi % s.blockSize == 0;
  }

  lemma WalkingKeepsInv<Item>(s: State<Item>, t: nat, max: nat)
    requires Inv(s) && t < |s.consumers| && s.consumers[t].Marking?
    requires s.consumers[t].lo + s.consumers[t].j >= s.consumers[t].hi && s.consumers[t].hi < s.consumers[t].end
    ensures Inv(ConsumerStep(s, t, max)) && ConsumerStep(s, t, max).consumers[t].Slotted?
  {
    var c := s.consumers[t];
    var next := NextPlace(s, t);
    WalkIsMove(s, t, max, next);
    MovingKeepsInv(s, t, Slotted(c.hi, c.end, next));
  }

  lemma WalkIsMove<Item>(s: State<Item>, t: nat, max: nat, next: Place)
    requires Sized(s) && t < |s.consumers| && s.consumers[t].Marking?
    requires s.consumers[t].lo + s.consumers[t].j >= s.consumers[t].hi && s.consumers[t].hi < s.consumers[t].end
    requires s.consumers[t].at.table < |s.tables| && |s.tables[s.consumers[t].at.table].entries| > 0
    requires var at := s.consumers[t].at;
             next == Place(at.table, (at.slot + 1) % |s.tables[at.table].entries|, at.m + 1)
    ensures ConsumerStep(s, t, max) == Moved(s, t, Slotted(s.consumers[t].hi, s.consumers[t].end, next))
  {
  }

  lemma NextPlace<Item>(s: State<Item>, t: nat) returns (next: Place)
    requires Inv(s) && t < |s.consumers| && s.consumers[t].Marking?
    requires s.consumers[t].lo + s.consumers[t].j >= s.consumers[t].hi && s.consumers[t].hi < s.consumers[t].end
    ensures var c := s.consumers[t];
            && ConsumerOk(s, t) && c.at.table < |s.tables| && |s.tables[c.at.table].entries| > 0
            && next == Place(c.at.table, (c.at.slot + 1) % |s.tables[c.at.table].entries|, c.at.m + 1)
            && Aims(s.tables, s.blockSize, Slotted(c.hi, c.end, next))
  {
    var c := s.consumers[t];
    assert ConsumerOk(s, t) && Aims(s.tables, s.blockSize, c) && TableOk(s, c.at.table);
    NextPoints(s, c.at, c.lo, c.hi, c.end);
    next := Place(c.at.table, (c.at.slot + 1) % |s.tables[c.at.table].entries|, c.at.m + 1);
  }

  lemma AdvancingKeepsInv<Item>(s: State<Item>, t: nat, max: nat)
    requires Inv(s) && t < |s.consumers| && s.consumers[t].Marking?
    requires s.consumers[t].lo + s.consumers[t].j >= s.consumers[t].hi
    ensures Inv(ConsumerStep(s, t, max))
    ensures s.consumers[t].hi < s.consumers[t].end ==> ConsumerStep(s, t, max).consumers[t].Slotted?
  {
    if s.consumers[t].hi < s.consumers[t].end {
      WalkingKeepsInv(s, t, max);
    } else {
      MovingKeepsInv(s, t, Counting);
    }
  }

  lemma ReaderKeepsInv<Item>(s: State<Item>, t: nat, max: nat)
    requires Inv(s) && t < |s.consumers| && s.consumers[t].Reading?
    ensures Inv(ConsumerStep(s, t, max))
  {
    var c := s.consumers[t];
    if c.i < c.hi {
      ReadingKeepsInv(s, t, max);
    } else {
      assert ConsumerOk(s, t) && ConsumerSized(c, |s.store|) && Aims(s.tables, s.blockSize, c);
      MovingKeepsInv(s, t, Marking(c.lo, 0, c.hi, c.end, c.block, c.at));
    }
  }

  lemma ConsumerKeepsInv<Item>(s: State<Item>, t: nat, max: nat)
    requires Inv(s) && t < |s.consumers|
    ensures Inv(ConsumerStep(s, t, max))
  {
    match s.consumers[t]
    case Counting =>
      if s.counters.pc[t].Take? && s.counters.pc[t].got > 0 {
        ClaimingKeepsInv(s, t, max);
      } else {
        CountingKeepsInv(s, t, max);
      }
    case Locating(_, _) => LocatingKeepsInv(s, t, max);
    case Indexed(_, _, _) => IndexedKeepsInv(s, t, max);
    case Fronted(_, _, _) => FrontedKeepsInv(s, t, max);
    case Slotted(_, _, _) => SlottedKeepsInv(s, t, max);
    case Reading(_, _, _, _, _, _) => ReaderKeepsInv(s, t, max);
    case Marking(lo, j, hi, _, _, _) =>
      if lo + j < hi {
        MarkingKeepsInv(s, t, max);
      } else {
        AdvancingKeepsInv(s, t, max);
      }
  }

  lemma NextKeepsInv<Item(!new)>(s: State<Item>, s': State<Item>)
    requires Inv(s) && (ProducerMoves(s, s') || ConsumerMoves(s, s'))
    ensures Inv(s')
  {
    if ConsumerMoves(s, s') {
      var t: nat, max: nat :| t < |s.consumers| && Sized(s) && s' == ConsumerStep(s, t, max);
      ConsumerKeepsInv(s, t, max);
    } else {
      var item: Item, memory: bool, cells: seq<Item>, entries: seq<Entry> :|
        |cells| == s.blockSize && |entries| == 2 * s.size && Sized(s)
        && s' == ProducerStep(s, item, memory, cells, entries);
      ProducerKeepsInv(s, item, memory, cells, entries);
    }
  }

  lemma InitInv<Item>(s: State<Item>)
    requires Init(s)
    ensures Inv(s)
  {
  }

  lemma PrefixRuns<Item(!new)>(run: seq<State<Item>>, n: nat)
    requires Run(run) && 0 < n <= |run|
    ensures Run(run[..n])
  {
    forall i: nat ensures NextAt(run[..n], i) {
      assert NextAt(run, i);
    }
  }

  lemma {:induction false} RunKeepsInv<Item(!new)>(run: seq<State<Item>>)
    requires Run(run)
    ensures Inv(run[|run| - 1])
  {
    if |run| == 1 {
      InitInv(run[0]);
    } else {
      PrefixRuns(run, |run| - 1);
      RunKeepsInv(run[..|run| - 1]);
      assert NextAt(run, |run| - 2);
      NextKeepsInv(run[|run| - 2], run[|run| - 1]);
    }
  }

  // ------------------------------------------------------------- theorems

  /** In every interleaving, what is read at index i is the i-th element enqueued. */
  lemma ReadsAreTheEnqueued<Item(!new)>(run: seq<State<Item>>)
    requires Run(run)
    ensures var s := run[|run| - 1];
            forall x: nat | x in s.got :: x < |s.put| && s.got[x] == s.put[x]
  {
    RunKeepsInv(run);
  }

  /** Every index is read by the consumer that claimed it, and by nobody before. */
  lemma EachIndexIsReadOnce<Item(!new)>(run: seq<State<Item>>, t: nat)
    requires Run(run)
    requires var s := run[|run| - 1];
             t < |s.consumers| && s.consumers[t].Reading? && s.consumers[t].i < s.consumers[t].hi
    ensures var s := run[|run| - 1]; var i := s.consumers[t].i;
            i < |s.counters.takers| && s.counters.takers[i] == t && i !in s.got
  {
    RunKeepsInv(run);
    assert ConsumerOk(run[|run| - 1], t);
  }

  /** A block is reset only when every index it covers has been claimed, read and flagged. */
  lemma ResetOnlyWhatIsRead<Item(!new)>(run: seq<State<Item>>, x: nat)
    requires Run(run) && run[|run| - 1].producer.Resetting?
    ensures var s := run[|run| - 1];
            && s.bases != []
            && (s.bases[0] <= x < s.bases[0] + s.blockSize ==> x < s.Head() && x in s.got && x in s.done)
  {
    RunKeepsInv(run);
    var s := run[|run| - 1];
    assert AllDone(s.done, s.bases[0], s.bases[0] + s.blockSize);
    assert s.bases[0] <= x < s.bases[0] + s.blockSize ==> x in s.done;
  }

  /** A cell is written only for an index that nobody has claimed, in a block that nobody reads there. */
  lemma WritesAreUndisturbed<Item(!new)>(run: seq<State<Item>>, t: nat)
    requires Run(run) && run[|run| - 1].producer.Writing?
    requires var s := run[|run| - 1];
             t < |s.consumers| && s.consumers[t].Reading? && s.consumers[t].i < s.consumers[t].hi
    ensures var s := run[|run| - 1];
            && s.Head() <= s.Tail() && s.ring != []
            && (s.consumers[t].block == Last(s.ring) ==>
                  s.blockSize > 0 && s.consumers[t].i % s.blockSize != s.Tail() % s.blockSize)
  {
    RunKeepsInv(run);
    var s := run[|run| - 1];
    var c, n := s.consumers[t], |s.ring|;
    assert ConsumerOk(s, t);
    assert s.counters.takers[c.i] == t;
    O.InvBoundsHead(s.counters);
    SameBlock(c.lo, c.i, s.blockSize);
    var k := BlockInRing(s, c.i);
    assert s.ring[k] == c.block;
    if c.block == s.ring[n - 1] {
      assert k == n - 1;
      TailOffset(s);
    }
  }

  /** Block b of the ring covers index x, and the entry says so. */
  ghost predicate EntryCovers<Item>(s: State<Item>, entry: Entry, x: nat) {
    && |s.ring| == |s.bases| && entry.base <= x < entry.base + s.blockSize
    && exists k: nat :: k < |s.ring| && entry == Entry(s.bases[k], s.ring[k])
  }

  /** Looking a claimed index up never misses, whatever the producer lists and however often it replaces
      the index between the loads: every load stays inside its table, and the entry that is loaded in the
      end is that of the block that covers the index. */
  lemma LookupNeverMisses<Item(!new)>(run: seq<State<Item>>, t: nat, max: nat)
    requires Run(run) && t < |run[|run| - 1].consumers|
    ensures var s := run[|run| - 1]; var c := s.consumers[t];
            && Sized(s)
            && var c' := ConsumerStep(s, t, max).consumers[t];
               && (c.Locating? ==> c'.Indexed?)
               && (c.Indexed? ==> c'.Fronted?)
               && (c.Fronted? ==> c'.Slotted?)
               && (c.Slotted? ==> InTable(s.tables, c.at.table, c.at.slot)
                                  && EntryCovers(s, s.tables[c.at.table].entries[c.at.slot], c.lo)
                                  && c'.Reading? && c'.block == s.tables[c.at.table].entries[c.at.slot].block)
  {
    RunKeepsInv(run);
    var s := run[|run| - 1];
    match s.consumers[t]
    case Locating(_, _) => LocatingKeepsInv(s, t, max);
    case Indexed(_, _, _) => IndexedKeepsInv(s, t, max);
    case Fronted(_, _, _) => FrontedKeepsInv(s, t, max);
    case Slotted(lo, _, at) =>
      SlottedKeepsInv(s, t, max);
      OwnIndex(s, t);
      assert Aims(s.tables, s.blockSize, s.consumers[t]);
      var k := EntryIsIntact(s, at, lo);
    case _ =>
  }

  /** dequeue_bulk finds its next block in the next slot of the table it has loaded, even if that is no
      longer the current one. */
  lemma WalkNeverMisses<Item(!new)>(run: seq<State<Item>>, t: nat, max: nat)
    requires Run(run) && t < |run[|run| - 1].consumers|
    requires var c := run[|run| - 1].consumers[t]; c.Marking? && c.lo + c.j >= c.hi && c.hi < c.end
    ensures var s := run[|run| - 1]; var c := s.consumers[t];
            && Sized(s)
            && var c' := ConsumerStep(s, t, max).consumers[t];
               && c'.Slotted? && c'.lo == c.hi && c'.at.table == c.at.table
               && InTable(s.tables, c'.at.table, c'.at.slot)
               && EntryCovers(s, s.tables[c'.at.table].entries[c'.at.slot], c.hi)
  {
    RunKeepsInv(run);
    var s := run[|run| - 1];
    AdvancingKeepsInv(s, t, max);
    var s' := ConsumerStep(s, t, max);
    OwnIndex(s', t);
    assert Aims(s'.tables, s'.blockSize, s'.consumers[t]);
    var k := EntryIsIntact(s', s'.consumers[t].at, s'.consumers[t].lo);
  }

  lemma BlocksBehindInTable(table: Table, blockSize: nat, blockBits: nat, g: nat, lo: nat)
    requires blockSize > 0 && Ladder(table.listed, blockSize) && g < |table.listed| && blockSize == Bits.Pow2(blockBits)
    requires table.listed[0] <= lo - lo % blockSize <= table.listed[g]
    ensures table.listed[g] % blockSize == 0
    ensures Bits.BlocksBehind(lo, table.listed[g], blockBits)
              == -BlockOffset(lo - lo % blockSize, table.listed[g], blockSize)
  {
    BaseIsMultiple(table.listed, blockSize, g);
    if lo - lo % blockSize == table.listed[g] {
      DivModUnique(0, blockSize, 0, 0);
    }
  }

  /** The lookup as the program does it, in words of indexBits bits that have wrapped and with masks, finds
      the slot that is found here, if the index covers no more indices than there are. */
  lemma WrappedLookupAgrees<Item(!new)>(run: seq<State<Item>>, t: nat, blockBits: nat, slotBits: nat)
    requires Run(run) && t < |run[|run| - 1].consumers| && run[|run| - 1].consumers[t].Fronted?
    requires var s := run[|run| - 1];
             && s.blockSize == Bits.Pow2(blockBits) && blockBits + slotBits <= s.indexBits
             && (s.consumers[t].front.table < |s.tables| ==>
                   |s.tables[s.consumers[t].front.table].entries| == Bits.Pow2(slotBits))
    ensures var s := run[|run| - 1]; var front, lo := s.consumers[t].front, s.consumers[t].lo;
            && s.indexBits > 0 && InTable(s.tables, front.table, front.slot)
            && var table := s.tables[front.table];
               Bits.LookupSlot(Bits.Wrap(lo, s.indexBits), Bits.Wrap(table.entries[front.slot].base, s.indexBits),
                               front.slot, blockBits, slotBits, s.indexBits)
                 == SlotOf(table, front, s.blockSize, lo).slot
  {
    RunKeepsInv(run);
    var s := run[|run| - 1];
    var front, lo := s.consumers[t].front, s.consumers[t].lo;
    OwnIndex(s, t);
    assert Aims(s.tables, s.blockSize, s.consumers[t]) && TableOk(s, front.table);
    var k := EntryIsIntact(s, front, lo);
    var table := s.tables[front.table];
    BlocksBehindInTable(table, s.blockSize, blockBits, front.m, lo);
    Bits.SmallTablesLookUpRightly(lo, table.entries[front.slot].base, front.slot, blockBits, slotBits, s.indexBits);
  }

  /** The size never exceeds what the blocks of the ring can hold. */
  lemma SizeFitsRing<Item(!new)>(run: seq<State<Item>>)
    requires Run(run)
    ensures var s := run[|run| - 1]; s.Head() <= s.Tail() <= s.Head() + s.blockSize * |s.ring|
  {
    RunKeepsInv(run);
    var s := run[|run| - 1];
    O.InvBoundsHead(s.counters);
    if s.bases != [] {
      LadderAt(s.bases, s.blockSize, |s.bases| - 1);
      assert s.blockSize * |s.ring| == s.blockSize * (|s.ring| - 1) + s.blockSize;
      if s.bases[0] > 0 {
        assert s.bases[0] - 1 in s.done;
      }
    }
  }

  ghost predicate NobodyReads<Item>(s: State<Item>) {
    forall t: nat | t < |s.consumers| :: s.consumers[t] == Counting
  }

  /** With no dequeue past its claim, exactly the claimed indices have been read and flagged. */
  lemma QuietRingIsExact<Item(!new)>(run: seq<State<Item>>)
    requires Run(run) && NobodyReads(run[|run| - 1])
    ensures var s := run[|run| - 1];
            && s.Head() <= s.Tail() == |s.put|
            && (forall x: nat :: x in s.done <==> x < s.Head())
            && s.got == (map x: nat | x < s.Head() :: s.put[x])
  {
    RunKeepsInv(run);
    var s := run[|run| - 1];
    O.InvBoundsHead(s.counters);
    forall x: nat ensures x in s.done <==> x < s.Head() {
      assert Accounted(s, x);
    }
    assert forall x: nat :: x in s.got <==> x < s.Head();
  }
}
