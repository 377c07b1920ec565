/**
 The explicit producer of the concurrent queue, run sequentially: a circular list of fixed-size
 blocks, entered through a growable circular index of block bases, behaves as a FIFO queue.

 Memory allocation is a parameter: the caller hands in the block that requisition_block() would
 return (null if it fails, arbitrary leftovers inside) and says whether a new index can be had.
 Sizes are powers of two in the program, where x & (size - 1) is x % size (see module Bits). Indices
 are unbounded in the fields; whatever the program compares it compares as words that have wrapped.
 */
module BlockRing {
  import opened Options
  import opened Arith
  import opened Ladders
  import Bits

  /** How a block of n elements remembers which of them have been dequeued: by flags, stored back to
      front, up to EXPLICIT_BLOCK_EMPTY_COUNTER_THRESHOLD elements, and else by counting them. */
  datatype Marks = Flags(flags: seq<bool>) | Counter(count: nat)
  {
    predicate Sized(n: nat) {
      Flags? ==> |flags| == n
    }

    predicate All(n: nat) {
      match this
      case Flags(_) => forall f | 0 <= f < |flags| :: flags[f]
      case Counter(_) => count == n
    }

    /** Exactly the elements before offset x are marked. */
    predicate Below(n: nat, x: int) {
      match this
      case Flags(_) => |flags| == n && forall f: nat | f < n :: flags[f] <==> n - 1 - f < x
      case Counter(_) => count == if x < 0 then 0 else Min(x, n)
    }

    /** m marks `more` elements from offset o on beyond what this marks. */
    predicate Then(m: Marks, n: nat, o: nat, more: nat) {
      match this
      case Flags(_) =>
        && m.Flags? && |flags| == |m.flags| == n
        && forall f: nat | f < n :: m.flags[f] <==> flags[f] || n - o - more <= f < n - o
      case Counter(_) => m == Counter(count + more)
    }
  }

  lemma MarkingInOrder(m: Marks, m': Marks, n: nat, o: nat, more: nat)
    requires m.Below(n, o) && m.Then(m', n, o, more) && o + more <= n
    ensures m'.Below(n, o + more)
  {
  }

  lemma AllIsBelow(m: Marks, n: nat, x: int)
    requires n > 0 && m.Below(n, x)
    ensures m.All(n) <==> x >= n
  {
    if m.Flags? && m.All(n) {
      assert m.flags[0];
    }
  }

  class Block<T> {
    var next: Block?<T>
    var elements: seq<T>
    var marks: Marks

    constructor (elements: seq<T>, marks: Marks)
      ensures this.elements == elements && this.marks == marks && next == null
    {
      this.elements, this.marks, this.next := elements, marks, null;
    }

    method IsEmpty() returns (empty: bool)
      ensures empty <==> marks.All(|elements|)
    {
      if marks.Flags? {
        for i := 0 to |marks.flags|
          invariant forall j | 0 <= j < i :: marks.flags[j]
        {
          if !marks.flags[i] {
            return false;
          }
        }
        return true;
      }
      return marks.count == |elements|;
    }

    method ResetEmpty()
      requires marks.Sized(|elements|)
      modifies this`marks
      ensures marks.Below(|elements|, 0) && marks.Flags? == old(marks.Flags?)
    {
      if marks.Flags? {
        for i := 0 to |marks.flags|
          invariant marks.Flags? && |marks.flags| == |elements|
          invariant forall j | 0 <= j < i :: !marks.flags[j]
        {
          marks := Flags(marks.flags[i := false]);
        }
      } else {
        marks := Counter(0);
      }
    }

    method SetEmpty(i: nat)
      requires |elements| > 0 && marks.Sized(|elements|)
      modifies this`marks
      ensures old(marks).Then(marks, |elements|, i % |elements|, 1)
    {
      var n := |elements|;
      if marks.Flags? {
        marks := Flags(marks.flags[n - 1 - i % n := true]);
      } else {
        marks := Counter(marks.count + 1);
      }
    }

    /** `more` indices from i on, all in this block. */
    method SetManyEmpty(i: nat, more: nat)
      requires |elements| > 0 && marks.Sized(|elements|) && i % |elements| + more <= |elements|
      modifies this`marks
      ensures old(marks).Then(marks, |elements|, i % |elements|, more)
    {
      var n := |elements|;
      if marks.Flags? {
        var start := n - 1 - i % n - more + 1;
        for j := 0 to more
          invariant marks.Flags? && |marks.flags| == n
          invariant forall f: nat | f < n :: marks.flags[f] <==> (old(marks).flags[f] || start <= f < start + j)
        {
          marks := Flags(marks.flags[start + j := true]);
        }
      } else {
        marks := Counter(marks.count + more);
      }
    }
  }

  datatype Entry<T> = Entry(base: nat, block: Block?<T>)

  class BlockIndex<T> {
    const size: nat
    var front: int
    const entries: array<Entry<T>>

    constructor (size: nat, front: int, entries: array<Entry<T>>)
      ensures this.size == size && this.front == front && this.entries == entries
    {
      this.size, this.front, this.entries := size, front, entries;
    }
  }

  /** Consecutive blocks cover the live indices, and the last block covers index tail - 1. */
  ghost predicate Fits(bases: seq<nat>, step: nat, head: nat, tail: nat) {
    && step > 0
    && Ladder(bases, step)
    && (bases == [] ==> tail == 0)
    && (bases != [] ==> bases[0] <= head && bases[|bases| - 1] < tail <= bases[|bases| - 1] + step)
  }

  lemma FitsNextBlock(bases: seq<nat>, step: nat, head: nat, tail: nat, drop: nat)
    requires Fits(bases, step, head, tail) && head <= tail && tail % step == 0 && drop <= |bases| && drop <= 1
    requires drop == 1 ==> bases[0] + step <= head
    ensures Fits(bases[drop..] + [tail], step, head, tail + 1)
  {
    if bases != [] {
      BaseIsMultiple(bases, step, |bases| - 1);
      NextMultiple(bases[|bases| - 1], step, tail);
    }
    LadderShift(bases, step, drop, tail);
    if drop == 1 && |bases| > 1 {
      assert Rung(bases, step, 1);
    }
  }

  lemma FitsSameBlock(bases: seq<nat>, step: nat, head: nat, tail: nat)
    requires Fits(bases, step, head, tail) && tail % step != 0
    ensures Fits(bases, step, head, tail + 1)
  {
    if bases != [] {
      BaseIsMultiple(bases, step, |bases| - 1);
      MultipleAfter(bases[|bases| - 1], step, 1);
    }
  }

  lemma OffsetInBlock(bases: seq<nat>, step: nat, k: nat, i: nat)
    requires step > 0 && Ladder(bases, step) && k < |bases| && bases[k] <= i < bases[k] + step
    ensures i % step == i - bases[k]
  {
    BaseIsMultiple(bases, step, k);
    RemainderFrom(bases[k], i, step);
    DivModUnique(i - bases[k], step, 0, i - bases[k]);
  }

  lemma WithinBlock(base: nat, step: nat, n: nat)
    requires step > 0 && base % step == 0 && 0 < n <= step
    ensures (base + n) % step == if n < step then n else 0
  {
    if n < step {
      RemainderFrom(base, base + n, step);
      DivModUnique(n, step, 0, n);
    } else {
      MultipleAfter(base, step, 1);
    }
  }

  lemma FitsOffset(bases: seq<nat>, step: nat, head: nat, tail: nat)
    requires Fits(bases, step, head, tail + 1)
    ensures bases != [] && tail == bases[|bases| - 1] + tail % step
  {
    BaseIsMultiple(bases, step, |bases| - 1);
    RemainderFrom(bases[|bases| - 1], tail, step);
    DivModUnique(tail - bases[|bases| - 1], step, 0, tail - bases[|bases| - 1]);
  }

  /** The slot j places before the one that will be filled next. */
  function Back(front: nat, size: nat, j: nat): int
  {
    if front >= j + 1 then front - 1 - j else front + size - 1 - j
  }

  /** The rotated copy into a larger table: oldest entry first. */
  method CopyEntries<T>(from: array<Entry<T>>, to: array<Entry<T>>, front: nat, size: nat, used: nat) returns (j: nat)
    requires from != to && from.Length == size > 0 && to.Length == 2 * size && front < size && 0 < used <= size
    modifies to
    ensures j == used
    ensures forall k: nat | k < used :: to[k] == from[Back(front, size, used - 1 - k)]
  {
    ModOnce(front + size - used, size);
    var i := (front + size - used) % size;
    j := 0;
    while true
      invariant j < used
      invariant i == Back(front, size, used - 1 - j)
      invariant forall k: nat | k < j :: to[k] == from[Back(front, size, used - 1 - k)]
      decreases used - j
    {
      to[j] := from[i];
      j := j + 1;
      ModOnce(i + 1, size);
      i := (i + 1) % size;
      if i == front {
        break;
      }
    }
  }

  /** Going back from `front`, the index lists the blocks of the ring from newest to oldest. */
  ghost predicate Maps<T>(entries: seq<Entry<T>>, front: nat, bases: seq<nat>, ring: seq<Block<T>>) {
    && front < |entries| && |bases| == |ring| <= |entries|
    && forall j: nat | j < |ring| :: Lists(entries, front, bases, ring, j)
  }

  /** The entry j places back is that of the j-th newest block. */
  ghost predicate Lists<T>(entries: seq<Entry<T>>, front: nat, bases: seq<nat>, ring: seq<Block<T>>, j: nat) {
    && front < |entries| && j < |bases| == |ring| <= |entries|
    && entries[Back(front, |entries|, j)] == Entry(bases[|ring| - 1 - j], ring[|ring| - 1 - j])
  }

  /** The slot the program computes from the published front and a distance. */
  lemma BackIsMod(front: nat, size: nat, j: nat)
    requires front < size && j < size
    ensures (Back(front, size, 0) - j) % size == Back(front, size, j)
  {
    var x := Back(front, size, 0) - j;
    if x < 0 {
      assert x == size * -1 + (x + size);
    } else {
      ModOnce(x, size);
    }
  }

  /** The slot of the next newer block. */
  lemma NextSlot(front: nat, size: nat, j: nat)
    requires front < size && 0 < j < size
    ensures (Back(front, size, j) + 1) % size == Back(front, size, j - 1)
  {
    ModOnce(Back(front, size, j) + 1, size);
  }

  lemma Extend<T>(s: seq<T>, i: nat, j: nat)
    requires i <= j <= |s|
    ensures s[..i] + s[i..j] == s[..j]
  {
  }

  /** Listing one more block at the front; the oldest one falls out if the ring keeps its length. */
  lemma AddMaps<T>(
      entries: seq<Entry<T>>, front: nat, bases: seq<nat>, ring: seq<Block<T>>, drop: nat, base: nat, b: Block<T>)
    requires Maps(entries, front, bases, ring) && drop <= |ring| && |ring| - drop < |entries|
    ensures Maps(entries[front := Entry(base, b)], (front + 1) % |entries|, bases[drop..] + [base], ring[drop..] + [b])
  {
    var size := |entries|;
    ModOnce(front + 1, size);
    var front', bases', ring' := (front + 1) % size, bases[drop..] + [base], ring[drop..] + [b];
    var n := |ring'|;
    var entries' := entries[front := Entry(base, b)];
    forall j: nat | j < n ensures Lists(entries', front', bases', ring', j) {
      if j > 0 {
        assert Lists(entries, front, bases, ring, j - 1);
        assert Back(front', size, j) == Back(front, size, j - 1) != front;
        assert ring'[n - 1 - j] == ring[|ring| - 1 - (j - 1)] && bases'[n - 1 - j] == bases[|ring| - 1 - (j - 1)];
      }
    }
  }

  lemma CopyMaps<T>(from: seq<Entry<T>>, to: seq<Entry<T>>, front: nat, bases: seq<nat>, ring: seq<Block<T>>)
    requires Maps(from, front, bases, ring) && |to| == 2 * |from|
    requires forall k: nat | k < |ring| :: to[k] == from[Back(front, |from|, |ring| - 1 - k)]
    ensures Maps(to, |ring|, bases, ring)
  {
    forall j: nat | j < |ring|
      ensures Lists(to, |ring|, bases, ring, j)
    {
      var k := |ring| - 1 - j;
      assert Lists(from, front, bases, ring, j);
      assert Back(|ring|, |to|, j) == k && |ring| - 1 - k == j;
    }
  }

  /** n blocks are full up to the tail, the oldest of them not empty, and one more leaves the tail
      at most `limit` ahead of the head: then n + 1 blocks are within the limit. */
  lemma OneMoreBlockFits(n: nat, step: nat, limit: nat, first: nat, head: nat)
    requires step > 0 && limit % step == 0 && limit > 0
    requires n > 0 ==> head < first + step && first + step * n + step <= limit + head
    ensures step * (n + 1) <= limit
  {
    var q := limit / step;
    assert limit == step * q;
    MulApart(step, q, n);
    MulApart(step, n + 1, q);
  }

  class ExplicitProducer<T> {
    const blockSize: nat
    /** The width of index_t. */
    const indexBits: nat
    /** The width of size_t, which is at most that of index_t. */
    const sizeBits: nat
    /** Whether index_t is narrower than int, so that indices are subtracted as signed numbers. */
    const promotes: bool
    /** MAX_SUBQUEUE_SIZE, rounded up to whole blocks; None stands for no limit. */
    const maxSubqueueSize: Option<nat>
    var tailIndex: nat
    var headIndex: nat
    var dequeueOptimisticCount: nat
    var dequeueOvercommit: nat
    var tailBlock: Block?<T>
    var blockIndex: BlockIndex?<T>
    var slotsUsed: nat
    var indexSize: nat
    var indexFront: nat

    /** What the queue holds, oldest first. */
    ghost var Contents: seq<T>
    /** The circular list from the oldest block to the tail block, and the first index of each. */
    ghost var ring: seq<Block<T>>
    ghost var bases: seq<nat>

    ghost function Repr(): set<object>
      reads this, blockIndex
    {
      {this} + (set b: object | b in ring)
      + (if blockIndex == null then {} else {blockIndex as object, blockIndex.entries as object})
    }

    ghost predicate CountersOk()
      reads `tailIndex, `headIndex, `dequeueOptimisticCount, `dequeueOvercommit, `Contents
    {
      && blockSize > 0
      && headIndex <= tailIndex
      && dequeueOptimisticCount == dequeueOvercommit + headIndex
      && |Contents| == tailIndex - headIndex
    }

    ghost predicate Placed(tail: nat)
      reads `headIndex, `ring, `bases
    {
      |bases| == |ring| && Fits(bases, blockSize, headIndex, tail)
    }

    ghost predicate LinksOk()
      reads `tailBlock, `ring, ring`next
    {
      && (tailBlock == if ring == [] then null else ring[|ring| - 1])
      && (forall k: nat {:trigger ring[k].next} | k < |ring| ::
            ring[k].next == ring[if k + 1 < |ring| then k + 1 else 0])
      && (forall j: nat, k: nat | j < k < |ring| :: ring[j] != ring[k])
    }

    /** A block that covers [base, base + blockSize): flags say what was dequeued, and the elements
        not dequeued yet are those of the queue. */
    ghost predicate BlockOk(b: Block<T>, base: nat)
      reads `tailIndex, `headIndex, `Contents, b`elements, b`marks
    {
      && |b.elements| == blockSize && b.marks.Sized(blockSize)
      && |Contents| == tailIndex - headIndex
      && b.marks.Below(blockSize, headIndex - base)
      && (forall o: nat | o < blockSize && headIndex <= base + o < tailIndex ::
            b.elements[o] == Contents[base + o - headIndex])
    }

    ghost predicate BlocksOk()
      reads `tailIndex, `headIndex, `Contents, `ring, `bases, ring`elements, ring`marks
    {
      && |bases| == |ring|
      && forall k: nat {:trigger BlockOk(ring[k], bases[k])} | k < |ring| :: BlockOk(ring[k], bases[k])
    }

    /** index_t counts far enough for several blocks, and limits are whole blocks. */
    ghost predicate WidthsOk() {
      && blockSize > 1 && 0 < sizeBits <= indexBits
      && blockSize < Bits.Pow2(indexBits - 1) && Bits.Pow2(indexBits - 1) % blockSize == 0
      && (maxSubqueueSize.Some? ==> maxSubqueueSize.value % blockSize == 0)
    }

    /** n blocks span at most half the range of indices, and at most the limit on the size if that is
        checked rightly. */
    ghost predicate SpanFits(n: nat) {
      && WidthsOk()
      && blockSize * n <= Bits.Pow2(indexBits - 1)
      && (maxSubqueueSize.Some? && !promotes ==> blockSize * n <= maxSubqueueSize.value)
    }

    ghost predicate IndexOk()
      reads `ring, `bases, `slotsUsed, `indexSize, `indexFront, `blockIndex, blockIndex
      reads if blockIndex == null then {} else {blockIndex.entries}
    {
      && indexSize > 0
      && slotsUsed == |ring| == |bases|
      && SpanFits(slotsUsed)
      && (blockIndex == null ==> ring == [])
      && (blockIndex != null ==>
            && blockIndex.size == blockIndex.entries.Length == indexSize
            && slotsUsed <= indexSize && indexFront < indexSize
            && (ring != [] ==> blockIndex.front == Back(indexFront, indexSize, 0))
            && Maps(blockIndex.entries[..], indexFront, bases, ring))
    }

    ghost predicate Valid()
      reads this, ring, blockIndex, if blockIndex == null then {} else {blockIndex.entries}
    {
      CountersOk() && Placed(tailIndex) && LinksOk() && BlocksOk() && IndexOk()
    }

    constructor (
        blockSize: nat, indexBits: nat, sizeBits: nat, promotes: bool, maxSubqueueSize: Option<nat>,
        halfIndexSize: nat, memory: bool)
      requires blockSize > 1 && halfIndexSize > 0 && 0 < sizeBits <= indexBits
      requires blockSize < Bits.Pow2(indexBits - 1) && Bits.Pow2(indexBits - 1) % blockSize == 0
      requires maxSubqueueSize.Some? ==> maxSubqueueSize.value % blockSize == 0
      ensures this.blockSize == blockSize && this.indexBits == indexBits && this.sizeBits == sizeBits
      ensures this.promotes == promotes && this.maxSubqueueSize == maxSubqueueSize
      ensures Valid() && Contents == [] && ring == [] && bases == [] && tailIndex == headIndex == 0 && fresh(Repr())
    {
      this.blockSize, this.indexBits, this.sizeBits := blockSize, indexBits, sizeBits;
      this.promotes, this.maxSubqueueSize := promotes, maxSubqueueSize;
      tailIndex, headIndex, dequeueOptimisticCount, dequeueOvercommit := 0, 0, 0, 0;
      tailBlock, blockIndex := null, null;
      slotsUsed, indexSize, indexFront := 0, halfIndexSize, 0;
      Contents, ring, bases := [], [], [];
      new;
      var _ := NewBlockIndex(0, memory);
    }

    /** Doubles the index. Every block keeps its place relative to the newest one. */
    method NewBlockIndex(expose: nat, memory: bool) returns (ok: bool)
      requires IndexOk() && expose == slotsUsed
      modifies this`indexSize, this`indexFront, this`blockIndex
      ensures IndexOk() && ok == memory
      ensures ok ==> blockIndex != null && fresh(blockIndex) && fresh(blockIndex.entries)
      ensures ok ==> indexSize == 2 * old(indexSize)
      ensures !ok ==> blockIndex == old(blockIndex) && indexSize == old(indexSize) && indexFront == old(indexFront)
    {
      var prevSize := indexSize;
      indexSize := indexSize * 2;
      if !memory {
        indexSize := indexSize / 2;
        return false;
      }
      var entries := new Entry<T>[indexSize];
      var j := 0;
      if slotsUsed != 0 {
        j := CopyEntries(blockIndex.entries, entries, indexFront, prevSize, slotsUsed);
      }
      if slotsUsed != 0 {
        CopyMaps(blockIndex.entries[..], entries[..], indexFront, bases, ring);
      }
      blockIndex := new BlockIndex(indexSize, expose - 1, entries);
      indexFront := j;
      return true;
    }

    /** The oldest block becomes the tail block. */
    method AdvanceRing()
      requires LinksOk() && ring != []
      modifies `tailBlock, `ring
      ensures LinksOk() && ring == old(ring)[1..] + [old(ring)[0]]
    {
      tailBlock := tailBlock.next;
      ring := ring[1..] + [ring[0]];
    }

    /** Splices a block in after the tail block and makes it the tail block. */
    method SpliceIntoRing(spare: Block<T>)
      requires LinksOk() && spare !in ring
      modifies `tailBlock, `ring, spare`next, ring`next
      ensures LinksOk() && ring == old(ring) + [spare]
    {
      if tailBlock == null {
        spare.next := spare;
      } else {
        spare.next := tailBlock.next;
        tailBlock.next := spare;
      }
      tailBlock := spare;
      ring := ring + [spare];
    }

    /** A block whose flags are all down can serve the indices from the tail on. */
    lemma FreshBlockOk(b: Block<T>)
      requires CountersOk() && |b.elements| == blockSize && b.marks.Sized(blockSize)
      requires b.marks.Below(blockSize, 0)
      ensures BlockOk(b, tailIndex)
    {
    }

    /** The block ahead is empty: reuse it. */
    method ReuseBlock()
      requires CountersOk() && Placed(tailIndex) && LinksOk() && BlocksOk()
      requires tailIndex % blockSize == 0 && CanReuse()
      modifies `tailBlock, `ring, `bases, ring`marks
      ensures CountersOk() && Placed(tailIndex + 1) && LinksOk() && BlocksOk()
      ensures ring == old(ring)[1..] + [old(ring)[0]] && bases == old(bases)[1..] + [tailIndex]
    {
      FitsNextBlock(bases, blockSize, headIndex, tailIndex, 1);
      assert BlockOk(ring[0], bases[0]);
      AdvanceRing();
      tailBlock.ResetEmpty();
      bases := bases[1..] + [tailIndex];
      FreshBlockOk(tailBlock);
      forall k: nat | k + 1 < |ring| ensures BlockOk(ring[k], bases[k]) {
        assert old(BlockOk(ring[k + 1], bases[k + 1]));
      }
    }

    method InsertBlock(spare: Block<T>)
      requires CountersOk() && Placed(tailIndex) && LinksOk() && BlocksOk()
      requires tailIndex % blockSize == 0
      requires spare !in ring && |spare.elements| == blockSize && spare.marks.Sized(blockSize)
      modifies `tailBlock, `ring, `bases, `slotsUsed, spare`marks, spare`next, ring`next
      ensures CountersOk() && Placed(tailIndex + 1) && LinksOk() && BlocksOk()
      ensures ring == old(ring) + [spare] && bases == old(bases) + [tailIndex] && slotsUsed == old(slotsUsed) + 1
    {
      FitsNextBlock(bases, blockSize, headIndex, tailIndex, 0);
      spare.ResetEmpty();
      SpliceIntoRing(spare);
      slotsUsed := slotsUsed + 1;
      bases := bases + [tailIndex];
      FreshBlockOk(spare);
      forall k: nat | k + 1 < |ring| ensures BlockOk(ring[k], bases[k]) {
        assert old(BlockOk(ring[k], bases[k]));
      }
    }

    /** Lists the tail block in the index. */
    method AddEntry(ghost oldRing: seq<Block<T>>, ghost oldBases: seq<nat>, ghost drop: nat)
      requires blockIndex != null && blockIndex.size == blockIndex.entries.Length == indexSize
      requires Maps(blockIndex.entries[..], indexFront, oldBases, oldRing)
      requires drop <= |oldRing| && |oldRing| - drop < indexSize
      requires tailBlock != null && ring == oldRing[drop..] + [tailBlock] && bases == oldBases[drop..] + [tailIndex]
      requires slotsUsed == |ring| && SpanFits(slotsUsed)
      modifies `indexFront, blockIndex`front, blockIndex.entries
      ensures IndexOk()
    {
      AddMaps(blockIndex.entries[..], indexFront, oldBases, oldRing, drop, tailIndex, tailBlock);
      ModOnce(indexFront + 1, indexSize);
      blockIndex.entries[indexFront] := Entry(tailIndex, tailBlock);
      blockIndex.front := indexFront;
      indexFront := (indexFront + 1) % indexSize;
    }

    /** The oldest block has no live element left. */
    ghost predicate CanReuse()
      reads `ring, `bases, `headIndex
    {
      ring != [] && bases != [] && bases[0] + blockSize <= headIndex
    }

    /** The size that is compared with the limit. */
    ghost function SizeAhead(): int
      reads `headIndex, `tailIndex
    {
      if promotes then Bits.Wrap(tailIndex, indexBits) - Bits.Wrap(headIndex, indexBits) else tailIndex - headIndex
    }

    /** One more block keeps the tail less than half the range ahead of the head, and the size within
        the limit. */
    ghost predicate HasLeeway()
      reads `headIndex, `tailIndex
    {
      && indexBits > 0 && tailIndex + blockSize < headIndex + Bits.Pow2(indexBits - 1)
      && (maxSubqueueSize.Some? ==>
            maxSubqueueSize.value > 0 && SizeAhead() + blockSize <= maxSubqueueSize.value)
    }

    ghost predicate HasRoom(spare: Block?<T>, memory: bool)
      reads `ring, `bases, `headIndex, `tailIndex, `blockIndex, `slotsUsed, `indexSize
    {
      || blockSize == 0 || tailIndex % blockSize != 0
      || CanReuse()
      || (HasLeeway() && spare != null && (memory || (blockIndex != null && slotsUsed < indexSize)))
    }

    method BlockAheadIsEmpty() returns (reuse: bool)
      requires CountersOk() && LinksOk() && BlocksOk()
      ensures reuse == CanReuse()
    {
      reuse := false;
      if tailBlock != null {
        assert BlockOk(ring[0], bases[0]);
        reuse := tailBlock.next.IsEmpty();
        AllIsBelow(ring[0].marks, blockSize, headIndex - bases[0]);
      }
    }

    method EnsureIndexRoom(memory: bool) returns (ok: bool)
      requires IndexOk()
      modifies `indexSize, `indexFront, `blockIndex
      ensures IndexOk() && ok == (memory || old(blockIndex != null && slotsUsed < indexSize))
      ensures ok ==> blockIndex != null && slotsUsed < indexSize
      ensures blockIndex == old(blockIndex) || (blockIndex != null && fresh(blockIndex) && fresh(blockIndex.entries))
    {
      ok := true;
      if blockIndex == null || slotsUsed == indexSize {
        ok := NewBlockIndex(slotsUsed, memory);
      }
    }

    /** The size never exceeds what the blocks of the ring can hold. */
    lemma SizeWithinSpan()
      requires Placed(tailIndex) && IndexOk() && headIndex <= tailIndex && |Contents| == tailIndex - headIndex
      ensures |Contents| <= blockSize * |ring|
    {
      if ring != [] {
        LadderAt(bases, blockSize, |bases| - 1);
        assert blockSize * |ring| == blockSize * (|ring| - 1) + blockSize;
      }
    }

    /** The check of the program, on indices that have wrapped. */
    method CheckLeeway() returns (leeway: bool)
      requires CountersOk() && Placed(tailIndex) && IndexOk()
      ensures leeway == HasLeeway()
    {
      SizeWithinSpan();
      assert Bits.Pow2(indexBits) == 2 * Bits.Pow2(indexBits - 1);
      Bits.CircularOrder(headIndex, tailIndex + blockSize, indexBits);
      var head, end := Bits.Wrap(headIndex, indexBits), Bits.Wrap(tailIndex + blockSize, indexBits);
      if !Bits.CircularLessThan(head, end, indexBits) {
        return false;
      }
      leeway := CheckLimit();
    }

    method CheckLimit() returns (within: bool)
      requires WidthsOk() && headIndex <= tailIndex < headIndex + Bits.Pow2(indexBits)
      ensures within == (maxSubqueueSize.Some? ==>
                           maxSubqueueSize.value > 0 && SizeAhead() + blockSize <= maxSubqueueSize.value)
    {
      if maxSubqueueSize == None {
        return true;
      }
      if maxSubqueueSize.value == 0 {
        return false;
      }
      LimitHoldsBlock();
      var ahead := Bits.Wrap(tailIndex, indexBits) - Bits.Wrap(headIndex, indexBits);
      if !promotes {
        ahead := Bits.Wrap(ahead, indexBits);
        Bits.WordDifference(tailIndex, headIndex, indexBits);
      }
      return maxSubqueueSize.value - blockSize >= ahead;
    }

    lemma LimitHoldsBlock()
      requires WidthsOk() && maxSubqueueSize.Some? && maxSubqueueSize.value > 0
      ensures blockSize <= maxSubqueueSize.value
    {
      OneMoreBlockFits(0, blockSize, maxSubqueueSize.value, 0, 0);
    }

    /** With leeway one more block fits. */
    lemma OneMoreBlock()
      requires CountersOk() && Placed(tailIndex) && IndexOk() && tailIndex % blockSize == 0
      requires !CanReuse() && HasLeeway()
      ensures SpanFits(slotsUsed + 1)
    {
      var n, first := |ring|, if ring == [] then 0 else bases[0];
      if ring != [] {
        FullBlocksEnd(bases, blockSize, tailIndex);
      }
      OneMoreBlockFits(n, blockSize, Bits.Pow2(indexBits - 1), first, headIndex);
      if maxSubqueueSize.Some? && !promotes {
        OneMoreBlockFits(n, blockSize, maxSubqueueSize.value, first, headIndex);
      }
    }

    /** So indices stay comparable: the queue never holds more than the limit nor more than half the
        range, and comparing the wrapped head and tail is right unless it holds exactly half the range. */
    lemma IndicesStayComparable()
      requires Valid()
      ensures maxSubqueueSize.Some? && !promotes ==> |Contents| <= maxSubqueueSize.value
      ensures indexBits > 0 && |Contents| <= Bits.Pow2(indexBits - 1)
      ensures var head, tail := Bits.Wrap(headIndex, indexBits), Bits.Wrap(tailIndex, indexBits);
              (Bits.CircularLessThan(head, tail, indexBits) <==> Contents != [])
                <==> |Contents| != Bits.Pow2(indexBits - 1)
    {
      SizeWithinSpan();
      assert Bits.Pow2(indexBits) == 2 * Bits.Pow2(indexBits - 1);
      Bits.CircularOrder(headIndex, tailIndex, indexBits);
    }

    /** If index_t is narrower than int, the limit is compared with a negative number once the tail has
        wrapped and the head has not. */
    lemma LimitSeesSizeIff()
      requires Valid()
      ensures SizeAhead() == |Contents| <==>
              !promotes || Bits.Wrap(headIndex, indexBits) <= Bits.Wrap(tailIndex, indexBits)
      ensures SizeAhead() != |Contents| ==> SizeAhead() < 0
    {
      SizeWithinSpan();
      assert Bits.Pow2(indexBits) == 2 * Bits.Pow2(indexBits - 1);
      Bits.WordDifference(tailIndex, headIndex, indexBits);
    }

    /** A queue of half the range refuses every element: its ring is as long as it may be, the block
        ahead is full, and there is no leeway. */
    lemma HalfFullHasNoRoom(spare: Block?<T>, memory: bool)
      requires Valid() && |Contents| == Bits.Pow2(indexBits - 1)
      ensures !HasRoom(spare, memory)
    {
      SizeWithinSpan();
      var n := |ring|;
      LadderAt(bases, blockSize, n - 1);
      assert blockSize * n == blockSize * (n - 1) + blockSize;
      MultipleAfter(bases[0], blockSize, n);
    }

    /** What dequeue_bulk takes is min(max, size) for every max if and only if the size is below half the
        range of size_t. */
    lemma BulkIsExactIff()
      requires Valid()
      ensures (forall max: nat :: Min(max, BulkSize()) == Min(max, |Contents|)) <==>
              |Contents| < Bits.Pow2(sizeBits - 1)
    {
      assert Min(|Contents|, |Contents|) == |Contents|;
      if |Contents| < Bits.Pow2(sizeBits) {
        DivModUnique(|Contents|, Bits.Pow2(sizeBits), 0, |Contents|);
      }
    }

    /** A size of half the range of indices is seen as none, or as none below it in narrower words. */
    lemma HalfRangeAsSize()
      requires Valid() && |Contents| == Bits.Pow2(indexBits - 1)
      ensures BulkSize() == 0
    {
      var half := Bits.Pow2(indexBits - 1);
      if sizeBits < indexBits {
        Bits.PowAdds(sizeBits, indexBits - 1 - sizeBits);
        DivModUnique(half, Bits.Pow2(sizeBits), Bits.Pow2(indexBits - 1 - sizeBits), 0);
      } else {
        DivModUnique(half, Bits.Pow2(sizeBits), 0, half);
      }
    }

    method StartReusedBlock()
      requires Valid() && tailIndex % blockSize == 0 && CanReuse()
      modifies `tailBlock, `ring, `bases, `indexFront, ring`marks, blockIndex`front, blockIndex.entries
      ensures CountersOk() && LinksOk() && BlocksOk() && IndexOk() && Placed(tailIndex + 1)
      ensures ring == old(ring)[1..] + [old(ring)[0]] && bases == old(bases)[1..] + [tailIndex]
    {
      ghost var oldRing, oldBases := ring, bases;
      ReuseBlock();
      AddEntry(oldRing, oldBases, 1);
    }

    method StartNewBlock(spare: Block<T>)
      requires Valid() && tailIndex % blockSize == 0 && blockIndex != null && slotsUsed < indexSize
      requires SpanFits(slotsUsed + 1)
      requires spare !in ring && |spare.elements| == blockSize && spare.marks.Sized(blockSize)
      modifies `tailBlock, `ring, `bases, `slotsUsed, `indexFront, ring`next, spare`marks, spare`next
      modifies blockIndex`front, blockIndex.entries
      ensures CountersOk() && LinksOk() && BlocksOk() && IndexOk() && Placed(tailIndex + 1)
      ensures ring == old(ring) + [spare] && bases == old(bases) + [tailIndex]
    {
      ghost var oldRing, oldBases := ring, bases;
      InsertBlock(spare);
      AddEntry(oldRing, oldBases, 0);
    }

    method StartSpareBlock(spare: Block?<T>, memory: bool) returns (ok: bool)
      requires Valid() && tailIndex % blockSize == 0 && SpanFits(slotsUsed + 1)
      requires spare != null ==> spare !in ring && |spare.elements| == blockSize && spare.marks.Sized(blockSize)
      modifies `tailBlock, `ring, `bases, `slotsUsed, `indexSize, `indexFront, `blockIndex
      modifies ring`next, if spare == null then {} else {spare}
      modifies blockIndex, if blockIndex == null then {} else {blockIndex.entries}
      ensures CountersOk() && LinksOk() && BlocksOk() && IndexOk()
      ensures ok == (spare != null && (memory || old(blockIndex != null && slotsUsed < indexSize)))
      ensures Placed(if ok then tailIndex + 1 else tailIndex)
      ensures ring == if ok then old(ring) + [spare] else old(ring)
      ensures bases == if ok then old(bases) + [tailIndex] else old(bases)
      ensures blockIndex == old(blockIndex) || (blockIndex != null && fresh(blockIndex) && fresh(blockIndex.entries))
    {
      var room := EnsureIndexRoom(memory);
      if !room || spare == null {
        return false;
      }
      StartNewBlock(spare);
      return true;
    }

    method StartAnotherBlock(spare: Block?<T>, memory: bool) returns (ok: bool)
      requires Valid() && tailIndex % blockSize == 0 && !CanReuse()
      requires spare != null ==> spare !in ring && |spare.elements| == blockSize && spare.marks.Sized(blockSize)
      modifies `tailBlock, `ring, `bases, `slotsUsed, `indexSize, `indexFront, `blockIndex
      modifies ring`next, if spare == null then {} else {spare}
      modifies blockIndex, if blockIndex == null then {} else {blockIndex.entries}
      ensures CountersOk() && LinksOk() && BlocksOk() && IndexOk()
      ensures ok == old(HasRoom(spare, memory))
      ensures Placed(if ok then tailIndex + 1 else tailIndex)
      ensures ring == if ok then old(ring) + [spare] else old(ring)
      ensures bases == if ok then old(bases) + [tailIndex] else old(bases)
      ensures blockIndex == old(blockIndex) || (blockIndex != null && fresh(blockIndex) && fresh(blockIndex.entries))
    {
      var leeway := CheckLeeway();
      if !leeway {
        return false;
      }
      OneMoreBlock();
      ok := StartSpareBlock(spare, memory);
    }

    /** Makes a block ready for the first index it will cover. */
    method StartBlock(spare: Block?<T>, memory: bool) returns (ok: bool)
      requires Valid() && tailIndex % blockSize == 0
      requires spare != null ==> spare !in ring && |spare.elements| == blockSize && spare.marks.Sized(blockSize)
      modifies `tailBlock, `ring, `bases, `slotsUsed, `indexSize, `indexFront, `blockIndex
      modifies ring`marks, ring`next, if spare == null then {} else {spare}
      modifies blockIndex, if blockIndex == null then {} else {blockIndex.entries}
      ensures CountersOk() && LinksOk() && BlocksOk() && IndexOk()
      ensures ok == old(HasRoom(spare, memory))
      ensures Placed(if ok then tailIndex + 1 else tailIndex)
      ensures ring == old(if !HasRoom(spare, memory) then ring
                          else if CanReuse() then ring[1..] + [ring[0]] else ring + [spare])
      ensures bases == old(if !HasRoom(spare, memory) then bases
                           else if CanReuse() then bases[1..] + [tailIndex] else bases + [tailIndex])
      ensures blockIndex == old(blockIndex) || (blockIndex != null && fresh(blockIndex) && fresh(blockIndex.entries))
    {
      var reuse := BlockAheadIsEmpty();
      if reuse {
        StartReusedBlock();
        return true;
      }
      ok := StartAnotherBlock(spare, memory);
    }

    /** Starts a block if the tail block is full. */
    method MakeRoom(spare: Block?<T>, memory: bool) returns (ok: bool)
      requires Valid()
      requires spare != null ==> spare !in ring && |spare.elements| == blockSize && spare.marks.Sized(blockSize)
      modifies `tailBlock, `ring, `bases, `slotsUsed, `indexSize, `indexFront, `blockIndex
      modifies ring`marks, ring`next, if spare == null then {} else {spare}
      modifies blockIndex, if blockIndex == null then {} else {blockIndex.entries}
      ensures CountersOk() && LinksOk() && BlocksOk() && IndexOk()
      ensures ok == old(HasRoom(spare, memory))
      ensures Placed(if ok then tailIndex + 1 else tailIndex)
      ensures bases == old(if blockSize == 0 || tailIndex % blockSize != 0 || !HasRoom(spare, memory) then bases
                           else if CanReuse() then bases[1..] + [tailIndex] else bases + [tailIndex])
      ensures forall b | b in ring :: b in old(ring) || b == spare
      ensures ring == old(if blockSize == 0 || tailIndex % blockSize != 0 || !HasRoom(spare, memory) then ring
                          else if CanReuse() then ring[1..] + [ring[0]] else ring + [spare])
      ensures blockIndex == old(blockIndex) || (blockIndex != null && fresh(blockIndex) && fresh(blockIndex.entries))
    {
      if tailIndex % blockSize == 0 {
        ok := StartBlock(spare, memory);
      } else {
        FitsSameBlock(bases, blockSize, headIndex, tailIndex);
        ok := true;
      }
    }

    method Store(x: T)
      requires CountersOk() && LinksOk() && BlocksOk() && IndexOk() && Placed(tailIndex + 1)
      modifies `tailIndex, `Contents, ring`elements
      ensures Valid() && Contents == old(Contents) + [x] && tailIndex == old(tailIndex) + 1
    {
      var n := |ring| - 1;
      FitsOffset(bases, blockSize, headIndex, tailIndex);
      assert BlockOk(ring[n], bases[n]);
      tailBlock.elements := tailBlock.elements[tailIndex % blockSize := x];
      tailIndex := tailIndex + 1;
      Contents := Contents + [x];
      forall k: nat | k < |ring| ensures BlockOk(ring[k], bases[k]) {
        assert old(BlockOk(ring[k], bases[k]));
        if k < n {
          LadderRises(bases, blockSize, k, n);
        }
      }
    }

    method Enqueue(x: T, spare: Block?<T>, memory: bool) returns (ok: bool)
      requires Valid()
      requires spare != null ==> spare !in ring && |spare.elements| == blockSize && spare.marks.Sized(blockSize)
      modifies this, ring, if spare == null then {} else {spare}
      modifies blockIndex, if blockIndex == null then {} else {blockIndex.entries}
      ensures Valid() && ok == old(HasRoom(spare, memory))
      ensures Contents == if ok then old(Contents) + [x] else old(Contents)
      ensures headIndex == old(headIndex) && tailIndex == old(tailIndex) + if ok then 1 else 0
      ensures bases == old(if blockSize == 0 || tailIndex % blockSize != 0 || !HasRoom(spare, memory) then bases
                           else if CanReuse() then bases[1..] + [tailIndex] else bases + [tailIndex])
      ensures forall b | b in ring :: b in old(ring) || b == spare
      ensures blockIndex == old(blockIndex) || (blockIndex != null && fresh(blockIndex) && fresh(blockIndex.entries))
    {
      ok := MakeRoom(spare, memory);
      if !ok {
        return false;
      }
      Store(x);
      return true;
    }

    /** What the test of wrapped counters lets a dequeue see. */
    ghost predicate SeesElements()
      reads `Contents
    {
      indexBits > 0 && Contents != [] && |Contents| != Bits.Pow2(indexBits - 1)
    }

    lemma TestIsSeesElements()
      requires CountersOk() && Placed(tailIndex) && IndexOk()
      ensures Bits.CircularLessThan(Bits.Wrap(headIndex, indexBits), Bits.Wrap(tailIndex, indexBits), indexBits) <==>
              SeesElements()
    {
      SizeWithinSpan();
      assert Bits.Pow2(indexBits) == 2 * Bits.Pow2(indexBits - 1);
      Bits.CircularOrder(headIndex, tailIndex, indexBits);
    }

    /** Finds nothing in an empty queue, and nothing in a queue of exactly half the range of indices. */
    method Dequeue() returns (element: Option<T>)
      requires Valid()
      modifies `headIndex, `dequeueOptimisticCount, `dequeueOvercommit, `Contents, ring`marks
      ensures Valid()
      ensures element == None <==> old(Contents) == [] || |old(Contents)| == Bits.Pow2(indexBits - 1)
      ensures element == None ==> Contents == old(Contents) && headIndex == old(headIndex)
      ensures element.Some? ==>
                old(Contents) == [element.value] + Contents && headIndex == old(headIndex) + 1
    {
      TestIsSeesElements();
      var tail := tailIndex;
      var overcommit := dequeueOvercommit;
      var head := Bits.Wrap(dequeueOptimisticCount - overcommit, indexBits);
      if Bits.CircularLessThan(head, Bits.Wrap(tail, indexBits), indexBits) {
        var my := dequeueOptimisticCount;
        dequeueOptimisticCount := dequeueOptimisticCount + 1;
        tail := tailIndex;
        head := Bits.Wrap(my - overcommit, indexBits);
        if Bits.CircularLessThan(head, Bits.Wrap(tail, indexBits), indexBits) {
          var x := TakeNext();
          return Some(x);
        } else {
          assert false;
        }
      }
      return None;
    }

    /** The dequeue proper: claims the next index, finds its block and takes the element out. */
    method TakeNext() returns (x: T)
      requires blockSize > 0 && headIndex < tailIndex && |Contents| == tailIndex - headIndex
      requires dequeueOptimisticCount == dequeueOvercommit + headIndex + 1
      requires Placed(tailIndex) && LinksOk() && BlocksOk() && IndexOk()
      modifies `headIndex, `Contents, ring`marks
      ensures Valid() && x == old(Contents)[0] && Contents == old(Contents)[1..] && headIndex == old(headIndex) + 1
    {
      ghost var was := Contents;
      var index := Claim(1);
      x := TakeAt(index, was);
    }

    method TakeAt(index: nat, ghost was: seq<T>) returns (x: T)
      requires Placed(tailIndex) && LinksOk() && IndexOk() && AllTaken(index, was, index)
      requires bases != [] && bases[0] <= index < tailIndex == index + |was|
      requires headIndex == index + 1 && Contents == was[1..]
      modifies ring`marks
      ensures Placed(tailIndex) && LinksOk() && IndexOk() && BlocksOk() && x == was[0]
    {
      var block, k := FindBlock(index);
      x := TakeOne(block, k, index, was);
      TakenEnds(index, was);
    }

    /** Takes the element at `index`, which block k holds. */
    method TakeOne(block: Block<T>, ghost k: nat, index: nat, ghost was: seq<T>) returns (x: T)
      requires blockSize > 0 && AllTaken(index, was, index) && LinksOk() && Ladder(bases, blockSize) && was != []
      requires k < |ring| && block == ring[k] && bases[k] == index - index % blockSize && bases[k] % blockSize == 0
      modifies block`marks
      ensures x == was[0] && AllTaken(index, was, index + 1)
    {
      assert Taken(block, bases[k], index, was, index);
      x := block.elements[index % blockSize];
      block.SetEmpty(index);
      MarkingInOrder(old(block.marks), block.marks, blockSize, index % blockSize, 1);
      forall j: nat | j < |ring| && j != k ensures Taken(ring[j], bases[j], index, was, index) {
        assert old(Taken(ring[j], bases[j], index, was, index));
      }
      OthersStayTaken(k, index, was, index, index + 1);
    }

    /** Taking elements of block k changes nothing for the other blocks. */
    lemma OthersStayTaken(k: nat, first: nat, was: seq<T>, index: nat, endIndex: nat)
      requires blockSize > 0 && Ladder(bases, blockSize) && k < |ring| == |bases|
      requires forall j: nat {:trigger ring[j]} | j < |ring| && j != k :: Taken(ring[j], bases[j], first, was, index)
      requires bases[k] <= index <= endIndex <= bases[k] + blockSize
      requires Taken(ring[k], bases[k], first, was, endIndex)
      ensures AllTaken(first, was, endIndex)
    {
      forall j: nat | j < |ring| ensures Taken(ring[j], bases[j], first, was, endIndex) {
        if j < k {
          LadderRises(bases, blockSize, j, k);
        } else if k < j {
          LadderRises(bases, blockSize, k, j);
        }
      }
    }

    /** The lookup through the index: from the newest block back to the one that covers `index`. */
    method FindSlot(index: nat) returns (slot: nat, ghost k: nat)
      requires bases != [] && bases[0] <= index < tailIndex && Placed(tailIndex) && IndexOk()
      ensures k < |ring| == |bases| && bases[k] == index - index % blockSize
      ensures slot == Back(indexFront, indexSize, |ring| - 1 - k) < indexSize
      ensures blockIndex != null && slot < blockIndex.entries.Length
      ensures var entry := blockIndex.entries[slot]; entry.base == index - index % blockSize && entry.block in ring
    {
      var localFront := blockIndex.front;
      k := LookupFindsBlock(bases, blockSize, index);
      ghost var n := |ring| - 1;
      assert Lists(blockIndex.entries[..], indexFront, bases, ring, 0);
      assert Lists(blockIndex.entries[..], indexFront, bases, ring, n - k);
      BackIsMod(indexFront, indexSize, n - k);
      var headBase := blockIndex.entries[localFront].base;
      var blockBase := index - index % blockSize;
      var offset := BlockOffset(blockBase, headBase, blockSize);
      slot := (localFront + offset) % blockIndex.size;
    }

    /** The lookup as the program does it, with indices of indexBits bits that have wrapped and masks
        for sizes that are powers of two, finds the slot that FindSlot finds. */
    lemma WrappedLookupAgrees(index: nat, k: nat, blockBits: nat, slotBits: nat)
      requires Placed(tailIndex) && IndexOk() && bases != [] && blockIndex != null
      requires k < |bases| && bases[k] == index - index % blockSize
      requires blockSize == Bits.Pow2(blockBits) && indexSize == Bits.Pow2(slotBits)
      requires blockBits <= indexBits && slotBits <= indexBits
      ensures var headBase := bases[|bases| - 1];
              blockIndex.front >= 0 &&
              Bits.LookupSlot(Bits.Wrap(index, indexBits), Bits.Wrap(headBase, indexBits), blockIndex.front,
                              blockBits, slotBits, indexBits)
                == Back(indexFront, indexSize, |ring| - 1 - k)
    {
      var n := |ring| - 1;
      DistanceInRange(k);
      assert Lists(blockIndex.entries[..], indexFront, bases, ring, n - k);
      Bits.LookupSurvivesWrapAround(index, bases[n], blockIndex.front, blockBits, slotBits, indexBits);
      DivModUnique(bases[n] - bases[k], blockSize, n - k, 0);
      BackIsMod(indexFront, indexSize, n - k);
    }

    /** The newest block is at most half the range of indices ahead of any other. */
    lemma DistanceInRange(k: nat)
      requires Placed(tailIndex) && IndexOk() && k < |bases|
      ensures var n := |bases| - 1;
              && bases[k] <= bases[n] == bases[k] + blockSize * (n - k)
              && bases[n] % blockSize == 0
              && indexBits > 0 && bases[n] <= bases[k] + Bits.Pow2(indexBits - 1)
    {
      var n := |bases| - 1;
      BaseIsMultiple(bases, blockSize, n);
      LadderDistance(bases, blockSize, k);
      MulApart(blockSize, n - k, |ring|);
    }

    method FindBlock(index: nat) returns (block: Block<T>, ghost k: nat)
      requires bases != [] && bases[0] <= index < tailIndex && Placed(tailIndex) && IndexOk()
      ensures k < |ring| == |bases| && block == ring[k]
      ensures bases[k] == index - index % blockSize && bases[k] % blockSize == 0
    {
      var slot, j := FindSlot(index);
      k := j;
      BaseIsMultiple(bases, blockSize, k);
      assert Lists(blockIndex.entries[..], indexFront, bases, ring, |ring| - 1 - k);
      block := blockIndex.entries[slot].block;
    }

    // dequeue_bulk: between taking the first element and the last, flags lag behind the head index

    /** Of the elements `was`, which start at index `first`, those below `index` have been taken. */
    ghost predicate Taken(b: Block<T>, base: nat, first: nat, was: seq<T>, index: nat)
      reads b`elements, b`marks
    {
      && |b.elements| == blockSize && b.marks.Sized(blockSize)
      && b.marks.Below(blockSize, index - base)
      && (forall o: nat | o < blockSize && first <= base + o < first + |was| :: b.elements[o] == was[base + o - first])
    }

    ghost predicate AllTaken(first: nat, was: seq<T>, index: nat)
      reads `ring, `bases, ring`elements, ring`marks
    {
      |bases| == |ring| && forall k: nat {:trigger ring[k]} | k < |ring| :: Taken(ring[k], bases[k], first, was, index)
    }

    lemma TakenStarts()
      requires BlocksOk() && blockSize > 0
      ensures AllTaken(headIndex, Contents, headIndex)
    {
      forall k: nat | k < |ring| ensures Taken(ring[k], bases[k], headIndex, Contents, headIndex) {
        assert BlockOk(ring[k], bases[k]);
      }
    }

    lemma TakenEnds(first: nat, was: seq<T>)
      requires AllTaken(first, was, headIndex) && first <= headIndex <= tailIndex == first + |was|
      requires Contents == was[headIndex - first..]
      ensures BlocksOk()
    {
      forall k: nat | k < |ring| ensures BlockOk(ring[k], bases[k]) {
        assert Taken(ring[k], bases[k], first, was, headIndex);
      }
    }

    method Collect(block: Block<T>, ghost base: nat, index: nat, endIndex: nat, ghost first: nat, ghost was: seq<T>)
      returns (items: seq<T>)
      requires blockSize > 0 && Taken(block, base, first, was, index) && base % blockSize == 0
      requires base <= index <= endIndex <= base + blockSize && first <= index && endIndex <= first + |was|
      ensures items == was[index - first..endIndex - first]
    {
      items := [];
      var i := index;
      while i != endIndex
        invariant index <= i <= endIndex && items == was[index - first..i - first]
      {
        OffsetInBlock([base], blockSize, 0, i);
        items := items + [block.elements[i % blockSize]];
        i := i + 1;
      }
    }

    /** Takes the elements from `index` on that block k holds, at most up to `total`. */
    method TakeFromBlock(block: Block<T>, ghost k: nat, index: nat, total: nat, ghost first: nat, ghost was: seq<T>)
      returns (items: seq<T>, endIndex: nat)
      requires blockSize > 0 && AllTaken(first, was, index) && LinksOk() && Ladder(bases, blockSize)
      requires k < |ring| && block == ring[k] && bases[k] == index - index % blockSize && bases[k] % blockSize == 0
      requires first <= index <= total <= first + |was|
      requires WidthsOk() && total <= index + Bits.Pow2(indexBits - 1)
      modifies block`marks
      ensures endIndex == if total < bases[k] + blockSize then total else bases[k] + blockSize
      ensures index <= endIndex && items == was[index - first..endIndex - first]
      ensures AllTaken(first, was, endIndex)
    {
      endIndex := index - index % blockSize + blockSize;
      assert Bits.Pow2(indexBits) == 2 * Bits.Pow2(indexBits - 1);
      Bits.CircularOrder(total, endIndex, indexBits);
      if Bits.CircularLessThan(Bits.Wrap(total, indexBits), Bits.Wrap(endIndex, indexBits), indexBits) {
        endIndex := total;
      }
      assert Taken(block, bases[k], first, was, index);
      items := Collect(block, bases[k], index, endIndex, first, was);
      OffsetInBlock(bases, blockSize, k, index);
      block.SetManyEmpty(index, endIndex - index);
      MarkingInOrder(old(block.marks), block.marks, blockSize, index % blockSize, endIndex - index);
      forall j: nat | j < |ring| && j != k ensures Taken(ring[j], bases[j], first, was, index) {
        assert old(Taken(ring[j], bases[j], first, was, index));
      }
      OthersStayTaken(k, first, was, index, endIndex);
    }

    lemma NextBlock(k: nat, index: nat)
      requires Placed(tailIndex) && k < |ring| && index == bases[k] + blockSize < tailIndex
      ensures k + 1 < |ring| && bases[k + 1] == index && index % blockSize == 0
    {
      assert k + 1 < |ring|;
      assert Rung(bases, blockSize, k + 1);
      BaseIsMultiple(bases, blockSize, k + 1);
    }

    /** What is left of the size after conversion to size_t, if that is less than half the range. */
    ghost function BulkSize(): (n: nat)
      reads `Contents
      requires 0 < sizeBits <= indexBits
      ensures n <= |Contents|
    {
      var n := Bits.Wrap(|Contents|, sizeBits);
      Bits.LowPart(|Contents|, Bits.Pow2(sizeBits));
      if n < Bits.Pow2(sizeBits - 1) then n else 0
    }

    /** At most max elements, oldest first, block after block along the index. */
    method DequeueBulk(max: nat) returns (items: seq<T>)
      requires Valid()
      modifies `headIndex, `dequeueOptimisticCount, `dequeueOvercommit, `Contents, ring`marks
      ensures Valid()
      ensures items + Contents == old(Contents) && headIndex == old(headIndex) + |items|
      ensures |items| == Min(max, old(BulkSize()))
    {
      var tail := tailIndex;
      var overcommit := dequeueOvercommit;
      var desiredCount := SizeSeen(tail, dequeueOptimisticCount - overcommit);
      if Bits.CircularLessThan(0, desiredCount, sizeBits) {
        desiredCount := if desiredCount < max then desiredCount else max;
        var my := dequeueOptimisticCount;
        dequeueOptimisticCount := dequeueOptimisticCount + desiredCount;
        tail := tailIndex;
        var actualCount := SizeSeen(tail, my - overcommit);
        if Bits.CircularLessThan(0, actualCount, sizeBits) {
          actualCount := if desiredCount < actualCount then desiredCount else actualCount;
          if actualCount < desiredCount {
            assert false;
          }
          items := TakeMany(actualCount);
          return;
        } else {
          assert false;
        }
      }
      items := [];
      assert items + Contents == Contents;
    }

    /** The difference of two counters, as an index_t and then as a size_t. */
    method SizeSeen(tail: nat, head: nat) returns (n: nat)
      requires 0 < sizeBits <= indexBits && head <= tail && |Contents| == tail - head
      ensures n == Bits.Wrap(|Contents|, sizeBits)
      ensures BulkSize() == if Bits.CircularLessThan(0, n, sizeBits) then n else 0
    {
      n := Bits.Wrap(Bits.Wrap(tail - head, indexBits), sizeBits);
      Bits.WrapTwice(tail - head, sizeBits, indexBits);
      Bits.LessThanFromZero(n, sizeBits);
    }

    method TakeMany(count: nat) returns (items: seq<T>)
      requires blockSize > 0 && headIndex < tailIndex && |Contents| == tailIndex - headIndex && count <= |Contents|
      requires dequeueOptimisticCount == dequeueOvercommit + headIndex + count
      requires Placed(tailIndex) && LinksOk() && BlocksOk() && IndexOk()
      modifies `headIndex, `Contents, ring`marks
      ensures Valid() && items + Contents == old(Contents) && |items| == count
      ensures headIndex == old(headIndex) + count
    {
      ghost var was := Contents;
      SizeWithinSpan();
      var firstIndex := Claim(count);
      items := TakeClaimed(firstIndex, count, was);
      assert was == was[..count] + was[count..];
    }

    method TakeClaimed(firstIndex: nat, count: nat, ghost was: seq<T>) returns (items: seq<T>)
      requires Placed(tailIndex) && LinksOk() && IndexOk() && AllTaken(firstIndex, was, firstIndex)
      requires bases != [] && bases[0] <= firstIndex < tailIndex == firstIndex + |was| && count <= |was|
      requires |was| <= Bits.Pow2(indexBits - 1)
      requires headIndex == firstIndex + count && Contents == was[count..]
      modifies ring`marks
      ensures Placed(tailIndex) && LinksOk() && IndexOk() && BlocksOk() && items == was[..count]
    {
      items := TakeAlongIndex(firstIndex, count, was);
      TakenEnds(firstIndex, was);
    }

    method Claim(count: nat) returns (firstIndex: nat)
      requires blockSize > 0 && headIndex < tailIndex && |Contents| == tailIndex - headIndex && count <= |Contents|
      requires Placed(tailIndex) && LinksOk() && BlocksOk() && IndexOk()
      modifies `headIndex, `Contents
      ensures firstIndex == old(headIndex) && headIndex == firstIndex + count && Contents == old(Contents)[count..]
      ensures Placed(tailIndex) && LinksOk() && IndexOk() && AllTaken(firstIndex, old(Contents), firstIndex)
      ensures bases != [] && bases[0] <= firstIndex
    {
      TakenStarts();
      firstIndex := headIndex;
      headIndex, Contents := headIndex + count, Contents[count..];
    }

    /** Block k, listed in `slot`, covers `index`, and the elements below `index` have been taken. */
    ghost predicate Cursor(slot: nat, k: nat, index: nat, first: nat, was: seq<T>)
      reads this, ring, blockIndex, if blockIndex == null then {} else {blockIndex.entries}
    {
      && Placed(tailIndex) && LinksOk() && IndexOk() && AllTaken(first, was, index)
      && |was| <= Bits.Pow2(indexBits - 1)
      && first <= index < tailIndex == first + |was|
      && k < |ring| && bases[k] == index - index % blockSize
      && slot == Back(indexFront, indexSize, |ring| - 1 - k)
    }

    method FindCursor(index: nat, ghost was: seq<T>) returns (slot: nat, ghost k: nat)
      requires Placed(tailIndex) && LinksOk() && IndexOk() && AllTaken(index, was, index)
      requires bases != [] && bases[0] <= index < tailIndex == index + |was|
      requires |was| <= Bits.Pow2(indexBits - 1)
      ensures Cursor(slot, k, index, index, was)
    {
      slot, k := FindSlot(index);
    }

    method TakeAlongIndex(firstIndex: nat, count: nat, ghost was: seq<T>) returns (items: seq<T>)
      requires Placed(tailIndex) && LinksOk() && IndexOk() && AllTaken(firstIndex, was, firstIndex)
      requires bases != [] && bases[0] <= firstIndex < tailIndex == firstIndex + |was| && count <= |was|
      requires |was| <= Bits.Pow2(indexBits - 1)
      modifies ring`marks
      ensures Placed(tailIndex) && LinksOk() && IndexOk()
      ensures items == was[..count] && AllTaken(firstIndex, was, firstIndex + count)
    {
      var slot: nat, k: nat := FindCursor(firstIndex, was);
      var index: nat := firstIndex;
      items, index, slot, k := TakeAtSlot(slot, k, index, firstIndex + count, firstIndex, was, []);
      while index != firstIndex + count
        invariant Taking(slot, k, index, firstIndex + count, firstIndex, was)
        invariant items == was[..index - firstIndex]
        decreases firstIndex + count - index
      {
        items, index, slot, k := TakeAtSlot(slot, k, index, firstIndex + count, firstIndex, was, items);
      }
    }

    /** The elements below `index` have been taken, and if more are wanted the cursor is at the next. */
    ghost predicate Taking(slot: nat, k: nat, index: nat, total: nat, first: nat, was: seq<T>)
      reads this, ring, blockIndex, if blockIndex == null then {} else {blockIndex.entries}
    {
      && Placed(tailIndex) && LinksOk() && IndexOk() && AllTaken(first, was, index)
      && first <= index <= total && (index < total ==> Cursor(slot, k, index, first, was))
    }

    /** Appends what the block in `slot` holds to `got`, and goes on to the next block. */
    method TakeAtSlot(slot: nat, ghost k: nat, index: nat, total: nat, ghost first: nat, ghost was: seq<T>, got: seq<T>)
      returns (items: seq<T>, endIndex: nat, next: nat, ghost block: nat)
      requires Cursor(slot, k, index, first, was) && index <= total <= first + |was| && got == was[..index - first]
      modifies ring`marks
      ensures index <= endIndex <= total && (index < endIndex || index == total)
      ensures items == was[..endIndex - first]
      ensures Taking(next, block, endIndex, total, first, was)
    {
      assert Lists(blockIndex.entries[..], indexFront, bases, ring, |ring| - 1 - k);
      BaseIsMultiple(bases, blockSize, k);
      items, endIndex := TakeFromBlock(blockIndex.entries[slot].block, k, index, total, first, was);
      Extend(was, index - first, endIndex - first);
      items := got + items;
      next := (slot + 1) % indexSize;
      block := k;
      if endIndex < total {
        NextBlock(k, endIndex);
        NextSlot(indexFront, indexSize, |ring| - 1 - k);
        block := k + 1;
      }
    }

    // runs

    /** Half the range of indices. */
    function Half(): nat {
      if indexBits > 0 then Bits.Pow2(indexBits - 1) else 1
    }

    /** Enqueues with a new block at hand. */
    method EnqueueWithBlock(x: T, memory: bool) returns (ok: bool)
      requires Valid()
      modifies Repr()
      ensures Valid() && fresh(Repr() - old(Repr()))
      ensures memory && old(blockSize > 0 && (tailIndex % blockSize != 0 || CanReuse() || HasLeeway())) ==> ok
      ensures old(|Contents| == Half()) ==> !ok
      ensures Contents == if ok then old(Contents) + [x] else old(Contents)
      ensures headIndex == old(headIndex) && tailIndex == old(tailIndex) + if ok then 1 else 0
      ensures ok ==> bases == old(if blockSize == 0 || tailIndex % blockSize != 0 then bases
                                  else if CanReuse() then bases[1..] + [tailIndex] else bases + [tailIndex])
    {
      var spare := new Block(seq(blockSize, _ => x), Flags(seq(blockSize, _ => false)));
      if |Contents| == Half() {
        HalfFullHasNoRoom(spare, memory);
      }
      ok := Enqueue(x, spare, memory);
    }

    /** Enqueues a whole block. */
    method FillBlock(x: T)
      requires Valid() && tailIndex % blockSize == 0 && (CanReuse() || HasLeeway())
      modifies Repr()
      ensures Valid() && fresh(Repr() - old(Repr()))
      ensures headIndex == old(headIndex) && tailIndex == old(tailIndex) + blockSize && tailIndex % blockSize == 0
      ensures bases == old(if CanReuse() then bases[1..] + [tailIndex] else bases + [tailIndex])
    {
      var first := tailIndex;
      var _ := EnqueueWithBlock(x, true);
      FillUp(x, first, 1);
    }

    method EnqueueInBlock(x: T)
      requires Valid() && tailIndex % blockSize != 0
      modifies Repr()
      ensures Valid() && fresh(Repr() - old(Repr()))
      ensures headIndex == old(headIndex) && tailIndex == old(tailIndex) + 1 && bases == old(bases)
    {
      var _ := EnqueueWithBlock(x, true);
    }

    /** Fills the block that starts at `first` and holds n elements. */
    method FillUp(x: T, first: nat, n: nat)
      requires Valid() && 0 < n <= blockSize && tailIndex == first + n && first % blockSize == 0
      modifies Repr()
      ensures Valid() && fresh(Repr() - old(Repr()))
      ensures headIndex == old(headIndex) && tailIndex == first + blockSize && bases == old(bases)
      ensures tailIndex % blockSize == 0
      decreases blockSize - n
    {
      WithinBlock(first, blockSize, n);
      if n < blockSize {
        EnqueueInBlock(x);
        FillUp(x, first, n + 1);
      }
    }

    /** Dequeues n elements. */
    method Drain(n: nat)
      requires Valid() && n <= |Contents| < Bits.Pow2(indexBits - 1)
      modifies Repr()
      ensures Valid() && Repr() == old(Repr())
      ensures headIndex == old(headIndex) + n && tailIndex == old(tailIndex) && bases == old(bases)
    {
      for i := 0 to n
        invariant Valid() && Repr() == old(Repr())
        invariant headIndex == old(headIndex) + i && tailIndex == old(tailIndex) && bases == old(bases)
      {
        var _ := Dequeue();
      }
    }

    /** The first block is listed, and nothing of it has been reused. */
    ghost predicate Filling(head: int, tail: int)
      reads this, ring, blockIndex, if blockIndex == null then {} else {blockIndex.entries}
    {
      && Valid() && maxSubqueueSize == None && headIndex == head && tailIndex == tail && tail % blockSize == 0
      && (bases != [] ==> bases[0] == 0)
    }

    /** After one dequeue there is leeway for the last block. */
    method FillLastBlock(x: T)
      requires Filling(0, Half() - blockSize)
      modifies Repr()
      ensures Filling(1, Half()) && bases != [] && fresh(Repr() - old(Repr()))
    {
      Drain(1);
      FillBlock(x);
    }

    method FillRest(x: T)
      requires Filling(0, Half() - blockSize)
      modifies Repr()
      ensures Valid() && |Contents| == Half() && fresh(Repr() - old(Repr()))
    {
      FillLastBlock(x);
      FillFirstBlockAgain(x);
    }

    /** With the first block dequeued, that block takes as many elements again. */
    method FillFirstBlockAgain(x: T)
      requires Filling(1, Half()) && bases != []
      modifies Repr()
      ensures Valid() && |Contents| == Bits.Pow2(indexBits - 1) && fresh(Repr() - old(Repr()))
    {
      Drain(blockSize - 1);
      FillBlock(x);
    }

    /** Fills blocks up to one block short of half the range, and goes on as above. */
    method FillHalf(x: T, tail: nat)
      requires Filling(0, tail) && tail + blockSize <= Half()
      modifies Repr()
      ensures Valid() && |Contents| == Half() && fresh(Repr() - old(Repr()))
      decreases Half() - tail
    {
      MultipleAfter(tail, blockSize, 1);
      if tail + blockSize < Half() {
        NextMultipleOrMore(tail + blockSize, blockSize, Half());
        FillBlock(x);
        FillHalf(x, tail + blockSize);
      } else {
        FillRest(x);
      }
    }

    /** Nothing in the queue, and the limit is one block. */
    ghost predicate EmptyAt(tail: int)
      reads this, ring, blockIndex, if blockIndex == null then {} else {blockIndex.entries}
    {
      && Valid() && maxSubqueueSize == Some(blockSize)
      && headIndex == tailIndex == tail && tail % blockSize == 0
    }

    method MoveOneBlock(x: T)
      requires EmptyAt(tailIndex)
      modifies Repr()
      ensures EmptyAt(old(tailIndex) + blockSize) && fresh(Repr() - old(Repr()))
    {
      FillEmpty(x);
      Drain(blockSize);
    }

    method FillEmpty(x: T)
      requires EmptyAt(tailIndex)
      modifies Repr()
      ensures Valid() && fresh(Repr() - old(Repr()))
      ensures |Contents| == blockSize && headIndex == old(headIndex) && tailIndex % blockSize == 0
    {
      FillBlock(x);
    }

    /** Enqueues and dequeues blocks until the indices are one block before they wrap. */
    method MoveOn(x: T, tail: nat)
      requires EmptyAt(tail) && tail + blockSize <= 2 * Half() && 2 * Half() % blockSize == 0
      modifies Repr()
      ensures EmptyAt(2 * Half() - blockSize) && fresh(Repr() - old(Repr()))
      decreases 2 * Half() - tail
    {
      if tail + blockSize < 2 * Half() {
        MultipleAfter(tail, blockSize, 1);
        NextMultipleOrMore(tail + blockSize, blockSize, 2 * Half());
        MoveOneBlock(x);
        MoveOn(x, tail + blockSize);
      }
    }

    method FillTwoBlocks(x: T)
      requires EmptyAt(2 * Half() - blockSize) && promotes && 2 * blockSize < Half() && 2 * Half() % blockSize == 0
      modifies Repr()
      ensures Valid() && |Contents| == 2 * blockSize && fresh(Repr() - old(Repr()))
    {
      FillBlock(x);
      ghost var m := Bits.Pow2(indexBits);
      DivModUnique(m, m, 1, 0);
      DivModUnique(m - blockSize, m, 0, m - blockSize);
      FillBlock(x);
    }

    method FillBeyondLimit(x: T)
      requires EmptyAt(0) && promotes && 2 * blockSize < Half()
      modifies Repr()
      ensures Valid() && |Contents| == 2 * blockSize && fresh(Repr() - old(Repr()))
    {
      MultipleAfter(Half(), blockSize, Half() / blockSize);
      MoveOn(x, 0);
      FillTwoBlocks(x);
    }
  }

  /** For all widths a queue without limit gets stuck, however much memory there is: filled up to one
      block short of half the range, then by one more block after the first dequeue, and by another one
      after the first block has been dequeued, it holds half the range. */
  method FillHalfRange<T>(
      x: T, blockSize: nat, indexBits: nat, sizeBits: nat, promotes: bool, halfIndexSize: nat)
    returns (p: ExplicitProducer<T>)
    requires blockSize > 1 && halfIndexSize > 0 && 0 < sizeBits <= indexBits
    requires blockSize < Bits.Pow2(indexBits - 1) && Bits.Pow2(indexBits - 1) % blockSize == 0
    ensures p.Valid() && fresh(p.Repr()) && p.indexBits == indexBits
    ensures |p.Contents| == Bits.Pow2(indexBits - 1)
  {
    p := new ExplicitProducer(blockSize, indexBits, sizeBits, promotes, None, halfIndexSize, true);
    p.FillHalf(x, 0);
  }

  /** With an index_t narrower than int the limit does not hold: an empty queue one block before the
      indices wrap takes that block, and then any other. */
  method ExceedLimit<T>(x: T, blockSize: nat, indexBits: nat, sizeBits: nat, halfIndexSize: nat)
    returns (p: ExplicitProducer<T>)
    requires blockSize > 1 && halfIndexSize > 0 && 0 < sizeBits <= indexBits
    requires 2 * blockSize < Bits.Pow2(indexBits - 1) && Bits.Pow2(indexBits - 1) % blockSize == 0
    ensures p.Valid() && fresh(p.Repr()) && p.promotes && p.maxSubqueueSize == Some(blockSize)
    ensures |p.Contents| == 2 * blockSize
  {
    DivModUnique(blockSize, blockSize, 1, 0);
    p := new ExplicitProducer(blockSize, indexBits, sizeBits, true, Some(blockSize), halfIndexSize, true);
    p.FillBeyondLimit(x);
  }

  datatype Call<T> = CallEnqueue(x: T, memory: bool) | CallDequeue | CallDequeueBulk(max: nat)

  /** Whether the call takes an element in or gives one out. */
  method Answer<T>(p: ExplicitProducer<T>, call: Call<T>) returns (yes: bool)
    requires p.Valid()
    modifies p.Repr()
    ensures p.Valid() && fresh(p.Repr() - old(p.Repr()))
    ensures old(|p.Contents| == p.Half()) ==> !yes && p.Contents == old(p.Contents)
  {
    match call
    case CallEnqueue(x, memory) =>
      yes := p.EnqueueWithBlock(x, memory);
    case CallDequeue =>
      var element := p.Dequeue();
      yes := element.Some?;
    case CallDequeueBulk(max) =>
      if |p.Contents| == p.Half() {
        p.HalfRangeAsSize();
      }
      var items := p.DequeueBulk(max);
      yes := items != [];
  }

  /** Once it holds half the range, no call has an effect any more. */
  method StayStuck<T>(p: ExplicitProducer<T>, calls: seq<Call<T>>) returns (answered: nat)
    requires p.Valid() && |p.Contents| == p.Half()
    modifies p.Repr()
    ensures p.Valid() && p.Contents == old(p.Contents) && answered == 0
  {
    answered := 0;
    for i := 0 to |calls|
      invariant p.Valid() && p.Contents == old(p.Contents) && answered == 0
      invariant fresh(p.Repr() - old(p.Repr()))
    {
      var yes := Answer(p, calls[i]);
      answered := answered + if yes then 1 else 0;
    }
  }
}
