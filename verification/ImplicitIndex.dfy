/**
 The block index of the implicit producer: a circular table of pointers to index entries, grown by
 copying the pointers, oldest first, in front of new invalid entries. A slot is used again when its
 entry is invalid or its block is gone; otherwise the table grows.

 Run sequentially; memory allocation is a parameter. Sizes are powers of two in the program, where
 x & (size - 1) is x % size (see module Bits).
 */
module ImplicitIndex {
  import opened Options
  import opened Arith
  import opened Ladders

  /** Odd, and so not the base of a block. */
  const INVALID_BLOCK_BASE: nat := 1

  class IndexEntry<Block> {
    var key: nat
    var block: Option<Block>

    constructor (block: Option<Block>)
      ensures key == INVALID_BLOCK_BASE && this.block == block
    {
      key, this.block := INVALID_BLOCK_BASE, block;
    }

    predicate Dead()
      reads this
    {
      key == INVALID_BLOCK_BASE || block == None
    }
  }

  class IndexHeader<Block> {
    const capacity: nat
    var tail: nat
    const index: array<IndexEntry?<Block>>

    constructor (capacity: nat, tail: nat, index: array<IndexEntry?<Block>>)
      ensures this.capacity == capacity && this.tail == tail && this.index == index
    {
      this.capacity, this.tail, this.index := capacity, tail, index;
    }
  }

  /** The slot j places before the tail. */
  function SlotBack(tail: nat, capacity: nat, j: nat): int {
    if tail >= j then tail - j else tail + capacity - j
  }

  lemma SlotBackIsMod(tail: nat, capacity: nat, j: nat)
    requires tail < capacity && j < capacity
    ensures (tail - j) % capacity == SlotBack(tail, capacity, j)
  {
    var x := tail - j;
    if x < 0 {
      assert x == capacity * -1 + (x + capacity);
    } else {
      ModOnce(x, capacity);
    }
  }

  /** The rotated copy that growing makes. */
  ghost predicate Rotated<E>(prev: seq<E>, tail: nat, next: seq<E>) {
    && |next| == 2 * |prev| && tail < |prev|
    && forall i: nat | i < |prev| :: next[i] == prev[SlotBack(tail, |prev|, |prev| - 1 - i)]
  }

  /** A distance back from the tail leads to the same entry in the old and in the new table, and so
      readers may use either. */
  lemma GrowthKeepsLookups<E>(prev: seq<E>, tail: nat, next: seq<E>, offset: int)
    requires Rotated(prev, tail, next) && -|prev| < offset <= 0
    ensures next[(|prev| - 1 + offset) % |next|] == prev[(tail + offset) % |prev|]
  {
    SlotBackIsMod(tail, |prev|, -offset);
    SlotBackIsMod(|prev| - 1, |next|, -offset);
    var i := |prev| - 1 + offset;
    assert next[i] == prev[SlotBack(tail, |prev|, |prev| - 1 - i)];
  }

  method CopyIndex<E>(prev: array<E>, prevTail: nat, next: array<E>) returns (i: nat)
    requires prev != next && prevTail < prev.Length && next.Length == 2 * prev.Length
    modifies next
    ensures i == prev.Length && Rotated(prev[..], prevTail, next[..])
  {
    var prevPos := prevTail;
    i := 0;
    while true
      invariant i < prev.Length && prevPos == SlotBack(prevTail, prev.Length, prev.Length - i)
      invariant forall k: nat | k < i :: next[k] == prev[SlotBack(prevTail, prev.Length, prev.Length - 1 - k)]
      decreases prev.Length - i
    {
      ModOnce(prevPos + 1, prev.Length);
      prevPos := (prevPos + 1) % prev.Length;
      next[i] := prev[prevPos];
      i := i + 1;
      if prevPos == prevTail {
        break;
      }
    }
  }

  /** The entry j places back from the tail is the j-th newest of the window. */
  ghost predicate Listed<E>(slots: seq<E>, tail: nat, window: seq<E>, j: nat) {
    && tail < |slots| && j < |window| <= |slots|
    && slots[SlotBack(tail, |slots|, j)] == window[|window| - 1 - j]
  }

  ghost predicate ListsWindow<E>(slots: seq<E>, tail: nat, window: seq<E>) {
    forall j: nat | j < |window| :: Listed(slots, tail, window, j)
  }

  lemma RotatedListsWindow<E>(prev: seq<E>, tail: nat, next: seq<E>, tail': nat, window: seq<E>)
    requires Rotated(prev, tail, next) && tail' == |prev| - 1 && ListsWindow(prev, tail, window)
    ensures ListsWindow(next, tail', window)
  {
    forall j: nat | j < |window| ensures Listed(next, tail', window, j) {
      assert Listed(prev, tail, window, j);
      assert next[tail' - j] == prev[SlotBack(tail, |prev|, j)];
    }
  }

  ghost predicate Unused<Block>(slots: seq<IndexEntry<Block>>, tail: nat, j: nat)
    reads slots
  {
    tail < |slots| && j < |slots| && slots[SlotBack(tail, |slots|, j)].Dead()
  }

  /** Blocks that are not among the newest n are gone. */
  ghost predicate RestDead<Block>(slots: seq<IndexEntry<Block>>, tail: nat, n: nat)
    reads slots
  {
    forall j: nat | n <= j < |slots| :: Unused(slots, tail, j)
  }

  lemma RotatedRestDead<Block>(
      prev: seq<IndexEntry<Block>>, tail: nat, next: seq<IndexEntry<Block>>, tail': nat, n: nat)
    requires Rotated(prev, tail, next) && tail' == |prev| - 1 && RestDead(prev, tail, n)
    requires forall k | |prev| <= k < |next| :: next[k].Dead()
    ensures RestDead(next, tail', n)
  {
    forall j: nat | n <= j < |next| ensures Unused(next, tail', j) {
      if j < |prev| {
        assert Unused(prev, tail, j);
        assert next[tail' - j] == prev[SlotBack(tail, |prev|, j)];
      }
    }
  }

  /** One step on from the tail. When the window fills the table, its oldest entry is there. */
  lemma NextListsWindow<E>(slots: seq<E>, tail: nat, tail': nat, window: seq<E>, drop: nat)
    requires tail < |slots| && tail' == (tail + 1) % |slots| && |window| <= |slots| && ListsWindow(slots, tail, window)
    requires drop == if |window| == |slots| then 1 else 0
    ensures ListsWindow(slots, tail', window[drop..] + [slots[tail']])
    ensures drop == 1 ==> slots[tail'] == window[0]
  {
    ModOnce(tail + 1, |slots|);
    var window' := window[drop..] + [slots[tail']];
    var n := |window'|;
    forall j: nat | j < n ensures Listed(slots, tail', window', j) {
      if j > 0 {
        assert Listed(slots, tail, window, j - 1);
        assert window'[n - 1 - j] == window[|window| - 1 - (j - 1)];
      }
    }
    if drop == 1 {
      assert Listed(slots, tail, window, |window| - 1);
    }
  }

  /** The other entries of the window are other entries. */
  lemma WindowApart<E>(slots: seq<E>, tail: nat, tail': nat, window: seq<E>, k: nat)
    requires tail < |slots| && tail' == (tail + 1) % |slots| && |window| <= |slots| && ListsWindow(slots, tail, window)
    requires forall i: nat, j: nat | i < j < |slots| :: slots[i] != slots[j]
    requires k < |window| && (|window| == |slots| ==> k > 0)
    ensures window[k] != slots[tail']
  {
    ModOnce(tail + 1, |slots|);
    assert Listed(slots, tail, window, |window| - 1 - k);
  }

  lemma NextRestDead<Block>(slots: seq<IndexEntry<Block>>, tail: nat, tail': nat, n: nat)
    requires tail < |slots| && tail' == (tail + 1) % |slots| && RestDead(slots, tail, n)
    ensures RestDead(slots, tail', n + 1)
  {
    ModOnce(tail + 1, |slots|);
    forall j: nat | n + 1 <= j < |slots| ensures Unused(slots, tail', j) {
      assert Unused(slots, tail, j - 1);
    }
  }

  lemma RotatedElements<E>(prev: seq<E>, tail: nat, next: seq<E>, i: nat, j: nat)
    requires Rotated(prev, tail, next) && i < j < |prev|
    requires forall i: nat, j: nat | i < j < |prev| :: prev[i] != prev[j]
    ensures next[i] != next[j] && next[i] in prev
  {
    assert next[i] == prev[SlotBack(tail, |prev|, |prev| - 1 - i)];
    assert next[j] == prev[SlotBack(tail, |prev|, |prev| - 1 - j)];
  }

  class BlockIndex<Block> {
    const blockSize: nat
    var header: IndexHeader?<Block>
    var nextCapacity: nat

    /** The entries in the order of the table. */
    ghost var slots: seq<IndexEntry<Block>>
    /** The entries of the newest consecutive blocks, oldest first, and the first index of each. */
    ghost var window: seq<IndexEntry<Block>>
    ghost var bases: seq<nat>

    ghost predicate TableOk()
      reads this, header, if header == null then {} else {header.index}
    {
      && nextCapacity > 0
      && (header == null ==> slots == [] && window == [])
      && (header != null ==>
            && 0 < header.capacity == header.index.Length == |slots|
            && header.tail < header.capacity
            && nextCapacity == 2 * header.capacity
            && header.index[..] == slots)
      && forall i: nat, j: nat | i < j < |slots| :: slots[i] != slots[j]
    }

    ghost predicate WindowOk()
      reads this, header
    {
      && |bases| == |window| <= |slots|
      && (header != null ==> ListsWindow(slots, header.tail, window))
    }

    ghost predicate KeysOk()
      reads this, window
    {
      && blockSize > 1
      && |bases| == |window|
      && Ladder(bases, blockSize)
      && forall k: nat | k < |window| :: window[k].key == bases[k]
    }

    ghost predicate Valid()
      reads this, header, if header == null then {} else {header.index}, slots, window
    {
      TableOk() && WindowOk() && KeysOk() && (header != null ==> RestDead(slots, header.tail, |window|))
    }

    constructor (blockSize: nat, initialCapacity: nat, memory: bool, junk: Option<Block>)
      requires blockSize > 1 && initialCapacity > 0
      ensures Valid() && window == [] && this.blockSize == blockSize
    {
      this.blockSize, nextCapacity, header := blockSize, initialCapacity, null;
      slots, window, bases := [], [], [];
      new;
      var _ := NewBlockIndex(memory, junk);
    }

    /** The entries of the old table, oldest first, and behind them new ones. `junk` is what the
        memory of a new entry holds where its block goes. */
    method BuildIndex(junk: Option<Block>) returns (index: array<IndexEntry?<Block>>)
      requires TableOk()
      ensures fresh(index) && index.Length == nextCapacity
      ensures forall k | 0 <= k < index.Length :: index[k] != null
      ensures header != null ==> Rotated(slots, header.tail, index[..])
      ensures forall k | |slots| <= k < index.Length :: fresh(index[k]) && index[k].key == INVALID_BLOCK_BASE
      ensures forall j, k | 0 <= j < k < index.Length :: index[j] != index[k]
    {
      var prevCapacity := if header == null then 0 else header.capacity;
      var entryCount := if header == null then nextCapacity else prevCapacity;
      index := new IndexEntry?<Block>[nextCapacity](_ => null);
      if header != null {
        var _ := CopyIndex(header.index, header.tail, index);
        forall j: nat, k: nat | j < k < prevCapacity ensures index[j] != index[k] {
          RotatedElements(slots, header.tail, index[..], j, k);
        }
      }
      ghost var copied := index[..prevCapacity];
      for i := 0 to entryCount
        invariant index[..prevCapacity] == copied
        invariant forall k | prevCapacity <= k < prevCapacity + i :: index[k] != null && fresh(index[k])
        invariant forall k | prevCapacity <= k < prevCapacity + i :: index[k].key == INVALID_BLOCK_BASE
        invariant forall j, k | prevCapacity <= j < k < prevCapacity + i :: index[j] != index[k]
      {
        index[prevCapacity + i] := new IndexEntry(junk);
      }
      forall j, k | 0 <= j < k < index.Length ensures index[j] != index[k] {
        assert j < prevCapacity ==> index[j] == copied[j];
        assert k < prevCapacity ==> index[k] == copied[k];
      }
    }

    method NewBlockIndex(memory: bool, junk: Option<Block>) returns (ok: bool)
      requires Valid()
      modifies this`header, this`nextCapacity, this`slots
      ensures Valid() && ok == memory
      ensures !ok ==> header == old(header) && slots == old(slots)
      ensures ok ==> fresh(header) && header.capacity == old(nextCapacity) && nextCapacity == 2 * old(nextCapacity)
      ensures ok && old(header) != null ==>
                Rotated(old(slots), old(header.tail), slots) && header.tail == |old(slots)| - 1
      ensures ok ==> forall k | |old(slots)| <= k < |slots| :: fresh(slots[k]) && slots[k].key == INVALID_BLOCK_BASE
    {
      if !memory {
        return false;
      }
      var prevCapacity := if header == null then 0 else header.capacity;
      var index := BuildIndex(junk);
      var tail := if prevCapacity == 0 then nextCapacity - 1 else prevCapacity - 1;
      ghost var next: seq<IndexEntry<Block>> := index[..];
      if header != null {
        RotatedListsWindow(slots, header.tail, next, tail, window);
        RotatedRestDead(slots, header.tail, next, tail, |window|);
      }
      header := new IndexHeader(nextCapacity, tail, index);
      slots := next;
      nextCapacity := nextCapacity * 2;
      return true;
    }

    /** Readers find an entry by dividing a signed distance by the block size. */
    method EntryFor(i: nat) returns (entry: IndexEntry<Block>, ghost k: nat)
      requires Valid() && window != [] && bases[0] <= i < bases[|bases| - 1] + blockSize
      ensures entry in window && entry.key == i - i % blockSize
      ensures k < |window| && entry == window[k] && bases[k] == entry.key
    {
      var n := |window|;
      var base := i - i % blockSize;
      var tailBase := header.index[header.tail].key;
      assert Listed(slots, header.tail, window, 0);
      k := LookupFindsBlock(bases, blockSize, i);
      var offset := BlockOffset(base, tailBase, blockSize);
      assert Listed(slots, header.tail, window, n - 1 - k);
      SlotBackIsMod(header.tail, header.capacity, n - 1 - k);
      entry := header.index[(header.tail + offset) % header.capacity];
    }

    /** The entry behind the newest one becomes the newest. */
    method TakeSlot(base: nat) returns (entry: IndexEntry<Block>)
      requires Valid() && header != null && slots[(header.tail + 1) % |slots|].Dead()
      requires if window == [] then base % blockSize == 0 else base == bases[|bases| - 1] + blockSize
      modifies header`tail, slots`key, this`window, this`bases
      ensures Valid() && header == old(header) && slots == old(slots)
      ensures entry == slots[(old(header.tail) + 1) % |slots|] && entry.key == base
      ensures forall k | 0 <= k < |slots| && slots[k] != entry :: slots[k].key == old(slots[k].key)
      ensures var drop := if |old(window)| == |slots| then 1 else 0;
              && window == old(window)[drop..] + [entry] && bases == old(bases)[drop..] + [base]
              && (drop == 1 ==> entry == old(window)[0])
    {
      ghost var drop := if |window| == |slots| then 1 else 0;
      ghost var tail := header.tail;
      var newTail := (header.tail + 1) % header.capacity;
      NextListsWindow(slots, tail, newTail, window, drop);
      LadderShift(bases, blockSize, drop, base);
      NextRestDead(slots, tail, newTail, |window|);
      forall k: nat | drop <= k < |window| ensures window[k] != slots[newTail] {
        WindowApart(slots, tail, newTail, window, k);
      }
      entry := header.index[newTail];
      entry.key := base;
      header.tail := newTail;
      window, bases := window[drop..] + [entry], bases[drop..] + [base];
      forall j: nat | |window| <= j < |slots| ensures Unused(slots, newTail, j) {
        assert drop == 0 && old(Unused(slots, newTail, j));
        assert slots[SlotBack(newTail, |slots|, j)] != entry;
      }
      forall k: nat | k < |window| ensures window[k].key == bases[k] {
        assert k + 1 < |window| ==> window[k] == old(window)[drop + k] && bases[k] == old(bases)[drop + k];
      }
    }

    /** Null if there is no table, or no room and no memory. A slot is given up only when its block is
        gone; the blocks of all entries stay where they are. */
    method InsertEntry(base: nat, memory: bool, junk: Option<Block>) returns (entry: IndexEntry?<Block>)
      requires Valid()
      requires if window == [] then base % blockSize == 0 else base == bases[|bases| - 1] + blockSize
      modifies this`header, this`nextCapacity, this`slots, this`window, this`bases, slots`key
      modifies if header == null then {} else {header}
      ensures Valid()
      ensures entry == null <==>
                old(header) == null || (!memory && !old(slots[(header.tail + 1) % |slots|].Dead()))
      ensures entry == null ==> header == old(header) && window == old(window) && bases == old(bases)
      ensures entry != null ==>
                || (window == old(window) + [entry] && bases == old(bases) + [base])
                || (old(window) != [] && entry == old(window)[0] && old(window[0].Dead())
                    && window == old(window)[1..] + [entry] && bases == old(bases)[1..] + [base])
    {
      if header == null {
        return null;
      }
      var next := header.index[(header.tail + 1) % header.capacity];
      if next.key == INVALID_BLOCK_BASE || next.block == None {
        entry := TakeSlot(base);
        return;
      }
      if !memory {
        return null;
      }
      if |window| < |slots| {
        RoomBehindTail();
      }
      ghost var before := |slots|;
      var _ := NewBlockIndex(memory, junk);
      ModOnce(header.tail + 1, |slots|);
      assert (header.tail + 1) % |slots| == before;
      entry := TakeSlot(base);
    }

    /** The slot behind the tail can only be taken when the window fills the table. */
    lemma RoomBehindTail()
      requires Valid() && header != null && |window| < |slots|
      ensures slots[(header.tail + 1) % |slots|].Dead()
    {
      ModOnce(header.tail + 1, |slots|);
      assert Unused(slots, header.tail, |slots| - 1);
    }

    /** Enqueue takes its entry back when it gets no block. */
    method DiscardNewest(entry: IndexEntry<Block>)
      requires Valid() && window != [] && entry == window[|window| - 1]
      modifies header`tail, entry`block, this`window, this`bases
      ensures Valid() && header == old(header) && slots == old(slots)
      ensures window == old(window)[..|old(window)| - 1] && bases == old(bases)[..|old(window)| - 1]
    {
      ghost var n, tail := |window|, header.tail;
      assert Listed(slots, tail, window, 0);
      SlotBackIsMod(tail, header.capacity, if header.capacity > 1 then 1 else 0);
      var newTail := (header.tail + header.capacity - 1) % header.capacity;
      ModOnce(tail + header.capacity - 1, header.capacity);
      header.tail := newTail;
      entry.block := None;
      window, bases := window[..n - 1], bases[..n - 1];
      forall j: nat | j < |window| ensures Listed(slots, newTail, window, j) {
        assert Listed(slots, tail, old(window), j + 1);
      }
      forall j: nat | |window| <= j < |slots| ensures Unused(slots, newTail, j) {
        assert j + 1 < |slots| ==> old(Unused(slots, tail, j + 1));
      }
      forall k: nat | 0 < k < |bases| ensures Rung(bases, blockSize, k) {
        assert Rung(old(bases), blockSize, k);
      }
    }
  }
}
