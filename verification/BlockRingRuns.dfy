/**
 What the block ring of `BlockRing` promises over whole runs: one FIFO sequence, the two assertions of the
 code, and what a refused `try_dequeue` or `try_enqueue` says about the contents of the queue.
 */
module BlockRingRuns {
  import opened Options
  import opened Bits
  import opened BlockRing

  /** A queue that no thread uses yet. */
  ghost predicate Fresh<V>(s: State<V>) {
    Inv(s) && s.producer.PIdle? && s.consumer.CIdle? && s.sent == [] && s.received == []
  }

  ghost predicate StepAt<V>(run: seq<State<V>>, sched: seq<Action<V>>, i: nat) {
    i + 1 < |run| && i < |sched| && Wf(run[i]) && run[i + 1] == Next(run[i], sched[i])
  }

  /** A run of a fresh queue under a schedule, which may mix the steps of the two threads in any way. */
  ghost predicate IsRun<V>(run: seq<State<V>>, sched: seq<Action<V>>) {
    |run| == |sched| + 1 && Fresh(run[0]) && forall i | 0 <= i < |sched| :: StepAt(run, sched, i)
  }

  lemma {:induction false} RunKeepsInv<V>(run: seq<State<V>>, sched: seq<Action<V>>, i: nat)
    requires IsRun(run, sched) && i < |run|
    ensures Inv(run[i])
  {
    if i > 0 {
      RunKeepsInv(run, sched, i - 1);
      assert StepAt(run, sched, i - 1);
      NextKeepsInv(run[i - 1], sched[i - 1]);
    }
  }

  ghost predicate InvAt<V>(run: seq<State<V>>, i: nat) {
    i < |run| && Inv(run[i])
  }

  /** What the arguments about two instants of a run need of it. */
  ghost predicate IsTrace<V>(run: seq<State<V>>, sched: seq<Action<V>>) {
    && |run| == |sched| + 1 && run[0].producer.PIdle? && run[0].consumer.CIdle?
    && (forall i | 0 <= i < |sched| :: StepAt(run, sched, i))
    && (forall i | 0 <= i < |run| :: InvAt(run, i))
  }

  lemma RunIsTrace<V>(run: seq<State<V>>, sched: seq<Action<V>>)
    requires IsRun(run, sched)
    ensures IsTrace(run, sched)
  {
    forall i | 0 <= i < |run| ensures InvAt(run, i) { RunKeepsInv(run, sched, i); }
  }

  // ---------------------------------------------------------------------------------------------
  // The initial queue
  // ---------------------------------------------------------------------------------------------

  /** The n blocks of one size that the constructor links to a circle. */
  function Circle<V>(n: nat, size: nat): seq<Block<V>> {
    seq(n, i requires 0 <= i < n => Block(0, 0, 0, 0, if i + 1 < n then i + 1 else 0, seq(size, k => None)))
  }

  function Initial<V>(n: nat, size: nat, maxBlock: nat): State<V> {
    State(Circle(n, size), 0, 0, size, maxBlock, PIdle, CIdle, seq(n, i requires 0 <= i < n => i), 0, [], [])
  }

  lemma InitialIsFresh<V>(n: nat, size: nat, maxBlock: nat)
    requires n > 0 && size >= 2 && IsPow2(size)
    ensures Fresh(Initial<V>(n, size, maxBlock)) && Cells(Initial<V>(n, size, maxBlock)) == []
  {
    var s := Initial<V>(n, size, maxBlock);
    forall j | 0 <= j < n ensures LinkOk(s.blocks, s.ring, j) {}
    assert Live(s) == [0];
    assert Contents(s.blocks[0]) == [];
    assert Queue(s.blocks, [0]) == Contents(s.blocks[0]) + Queue(s.blocks, []);
  }

  /** Any set of `maxSize` elements fits: into the one block, or into all blocks but the one being read. */
  ghost predicate Roomy(n: nat, size: nat, maxSize: nat) {
    n > 0 && size > 0 && maxSize <= if n == 1 then size - 1 else (n - 1) * (size - 1)
  }

  lemma EnoughBlocks(maxSize: nat, maxBlock: nat, n: nat)
    requires maxBlock >= 2 && n == (maxSize + maxBlock * 2 - 3) / (maxBlock - 1)
    ensures n >= 1 && maxSize <= (n - 1) * (maxBlock - 1)
  {
    var m, x := maxBlock - 1, maxSize + maxBlock * 2 - 3;
    assert x == n * m + x % m;
    assert (n - 1) * m == n * m - m;
  }

  /** One block less would not do. */
  lemma NoFewerBlocks(maxSize: nat, maxBlock: nat, n: nat)
    requires maxBlock >= 2 && maxSize > 0 && n == (maxSize + maxBlock * 2 - 3) / (maxBlock - 1)
    ensures n >= 2 && (n - 2) * (maxBlock - 1) < maxSize
  {
    var m, x := maxBlock - 1, maxSize + maxBlock * 2 - 3;
    assert x == n * m + x % m;
    assert (n - 2) * m == n * m - 2 * m;
    assert n * m > m;
    if n == 0 { assert false; }
    if n == 1 { assert false; }
  }

  /**
   The constructor: one block of the least power of two above `maxSize`, or, when that is more than two
   maximal blocks, the least number of maximal blocks with room for `maxSize` beside the one being read.
   */
  method Construct<V>(maxSize: nat, maxBlock: nat) returns (blocks: seq<Block<V>>, largest: nat)
    requires 0 < maxSize < Pow2(WORD_BITS - 1) && IsPow2(maxBlock) && maxBlock >= 2
    ensures |blocks| > 0 && largest >= 2 && IsPow2(largest) && blocks == Circle(|blocks|, largest)
    ensures Roomy(|blocks|, largest, maxSize)
    ensures |blocks| > 1 ==> largest == maxBlock && maxSize >= 2 * maxBlock && (|blocks| - 2) * (maxBlock - 1) < maxSize
    ensures |blocks| == 1 ==> largest <= 2 * maxBlock && forall k: nat :: maxSize < Pow2(k) ==> largest <= Pow2(k)
  {
    largest := CeilToPow2(maxSize + 1);
    if largest > maxBlock * 2 {
      var k: nat :| maxBlock == Pow2(k);
      assert Pow2(k + 1) == 2 * maxBlock;
      var initialBlockCount := (maxSize + maxBlock * 2 - 3) / (maxBlock - 1);
      EnoughBlocks(maxSize, maxBlock, initialBlockCount);
      NoFewerBlocks(maxSize, maxBlock, initialBlockCount);
      largest := maxBlock;
      blocks := [];
      for i := 0 to initialBlockCount
        invariant blocks == Circle(i, largest)
      {
        var block := Block(0, 0, 0, 0, 0, seq(largest, k => None));
        if i > 0 {
          blocks := blocks[i - 1 := blocks[i - 1].(next := i)];
        }
        blocks := blocks + [block];
      }
    } else {
      blocks := [Block(0, 0, 0, 0, 0, seq(largest, k => None))];
    }
  }

  // ---------------------------------------------------------------------------------------------
  // One FIFO sequence
  // ---------------------------------------------------------------------------------------------

  /**
   What was received is the beginning of what was sent, and the cells from the front block to the tail
   block hold the rest of it in order; a `try_dequeue` that returned true returned the last one received.
   */
  lemma RunIsFifo<V>(run: seq<State<V>>, sched: seq<Action<V>>, i: nat)
    requires IsRun(run, sched) && i < |run|
    ensures var r := run[i];
            && Wf(r) && RingOk(r) && r.received <= r.sent
            && (!r.consumer.CAdvance? ==>
                  && |Cells(r)| == |r.sent| - |r.received|
                  && forall i | 0 <= i < |Cells(r)| :: Cells(r)[i] == Some(r.sent[|r.received| + i]))
            && (r.consumer.CReturned? && r.consumer.result.Some? ==> LastReceived(r, r.consumer.result.value))
  {
    RunKeepsInv(run, sched, i);
    HistoryIsFifo(run[i]);
  }

  lemma HistoryIsFifo<V>(r: State<V>)
    requires Wf(r) && RingOk(r) && HistoryOk(r)
    ensures r.received <= r.sent
    ensures !r.consumer.CAdvance? ==> |Cells(r)| == |r.sent| - |r.received|
    ensures !r.consumer.CAdvance? ==> forall i | 0 <= i < |Cells(r)| :: Cells(r)[i] == Some(r.sent[|r.received| + i])
  {
  }

  /** Every block behind the tail block is empty, but for an element that is about to be published. */
  lemma OtherBlocksAreEmpty<V>(run: seq<State<V>>, sched: seq<Action<V>>, i: nat, j: nat)
    requires IsRun(run, sched) && i < |run| && run[i].tailPos < j < |run[i].ring|
    ensures var r := run[i];
            && r.ring[j] < |r.blocks| && InBounds(r.blocks[r.ring[j]])
            && (Contents(r.blocks[r.ring[j]]) == [] || (r.producer.PNextPublish? && r.producer.nb == r.ring[j]))
  {
    RunKeepsInv(run, sched, i);
  }

  /** The assertion of `try_dequeue`: the block the consumer is about to advance to holds an element. */
  lemma NextBlockHasElement<V>(run: seq<State<V>>, sched: seq<Action<V>>, i: nat)
    requires IsRun(run, sched) && i < |run| && run[i].consumer.CNextTail?
    ensures var r := run[i]; r.consumer.nb < |r.blocks| && r.blocks[r.consumer.nb].front != r.blocks[r.consumer.nb].tail
  {
    RunKeepsInv(run, sched, i);
    var r := run[i];
    assert r.ring[r.tailPos] == r.tailBlock;
  }

  /** The assertion of `inner_enqueue`: the block the producer is about to reuse is empty. */
  lemma ReusedBlockIsEmpty<V>(run: seq<State<V>>, sched: seq<Action<V>>, i: nat)
    requires IsRun(run, sched) && i < |run| && run[i].producer.PNextFront?
    ensures var r := run[i]; r.producer.nb < |r.blocks| && r.blocks[r.producer.nb].front == r.blocks[r.producer.nb].tail
  {
    RunKeepsInv(run, sched, i);
  }

  /** Elements are constructed in empty cells and moved out of full ones only. */
  lemma CellsAreUsedSafely<V>(run: seq<State<V>>, sched: seq<Action<V>>, i: nat)
    requires IsRun(run, sched) && i < |run|
    ensures Wf(run[i])
    ensures var r := run[i];
            && (r.producer.PConstruct? ==> r.blocks[r.tailBlock].data[r.blocks[r.tailBlock].tail].None?)
            && (r.producer.PNextConstruct? ==> r.blocks[r.producer.nb].data[r.blocks[r.producer.nb].tail].None?)
            && (r.consumer.CTake? ==> r.blocks[r.frontBlock].data[r.blocks[r.frontBlock].front].Some?)
  {
    RunKeepsInv(run, sched, i);
    var r := run[i];
    if r.producer.PConstruct? { ConstructKeepsInv(r); }
    if r.producer.PNextConstruct? { NextConstructKeepsInv(r); }
    if r.consumer.CTake? { TakeKeepsInv(r); }
  }

  // ---------------------------------------------------------------------------------------------
  // A refused dequeue
  // ---------------------------------------------------------------------------------------------

  /** While the consumer decides, the producer can only move the tail block away from the front block. */
  lemma TailPosGrows<V>(s: State<V>, a: Action<V>)
    requires Wf(s) && RingOk(s) && ProducerOk(s)
    requires s.consumer.CReadTailBlock? && Next(s, a).consumer.CReadTailBlock?
    ensures Next(s, a).tailPos >= s.tailPos
  {
  }

  lemma LookFoundNothing<V>(s: State<V>, a: Action<V>)
    requires Wf(s) && !s.consumer.CReadTailBlock? && Next(s, a).consumer.CReadTailBlock? && Wf(Next(s, a))
    ensures var s' := Next(s, a); Count(s'.blocks[s'.frontBlock]) == 0
  {
  }

  /** The consumer has just found the front block empty, or had before and the tail block did not come back. */
  lemma LookStep<V>(run: seq<State<V>>, sched: seq<Action<V>>, i: nat)
    requires IsTrace(run, sched) && i < |sched| && run[i + 1].consumer.CReadTailBlock?
    ensures run[i].consumer.CReadTailBlock? ==> run[i].tailPos <= run[i + 1].tailPos
    ensures !run[i].consumer.CReadTailBlock? ==> FoundEmpty(run, i + 1)
  {
    assert StepAt(run, sched, i) && InvAt(run, i) && InvAt(run, i + 1);
    if run[i].consumer.CReadTailBlock? {
      TailPosGrows(run[i], sched[i]);
    } else {
      LookFoundNothing(run[i], sched[i]);
    }
  }

  ghost predicate FoundEmpty<V>(run: seq<State<V>>, m: nat) {
    m < |run| && Wf(run[m]) && Count(run[m].blocks[run[m].frontBlock]) == 0
  }

  /** The instant at which the running `try_dequeue` found the front block empty. */
  lemma {:induction false} LastLook<V>(run: seq<State<V>>, sched: seq<Action<V>>, i: nat) returns (m: nat)
    requires IsTrace(run, sched) && i < |run| && run[i].consumer.CReadTailBlock?
    ensures m <= i && forall j | m <= j <= i :: run[j].consumer.CReadTailBlock?
    ensures FoundEmpty(run, m) && run[m].tailPos <= run[i].tailPos
    decreases i
  {
    assert i > 0;
    LookStep(run, sched, i - 1);
    if run[i - 1].consumer.CReadTailBlock? {
      m := LastLook(run, sched, i - 1);
    } else {
      m := i;
    }
  }

  lemma NothingQueued<V>(s: State<V>)
    requires Wf(s) && RingOk(s) && s.tailPos == 0 && Count(s.blocks[s.frontBlock]) == 0
    ensures Cells(s) == []
  {
    FrontBlockCells(s);
  }

  lemma RefusedAtTailBlock<V>(s: State<V>, a: Action<V>)
    requires Wf(s) && RingOk(s) && !s.consumer.CReturned? && Next(s, a).consumer == CReturned(None)
    ensures s.consumer.CReadTailBlock? && s.tailPos == 0
  {
    assert s.ring[0] == s.ring[s.tailPos];
  }

  /** A `try_dequeue` that returns false at step i was inside its call at an instant m at which nothing was queued. */
  lemma RefusedDequeueSawEmptyQueue<V>(run: seq<State<V>>, sched: seq<Action<V>>, i: nat)
    requires IsRun(run, sched) && i < |sched|
    requires !run[i].consumer.CReturned? && run[i + 1].consumer == CReturned(None)
    ensures exists m: nat | m <= i ::
              && Inv(run[m]) && Cells(run[m]) == []
              && forall j | m <= j <= i :: run[j].consumer.CReadTailBlock?
  {
    RunIsTrace(run, sched);
    assert StepAt(run, sched, i) && InvAt(run, i);
    RefusedAtTailBlock(run[i], sched[i]);
    var m := LastLook(run, sched, i);
    assert InvAt(run, m);
    NothingQueued(run[m]);
  }

  // ---------------------------------------------------------------------------------------------
  // A refused enqueue
  // ---------------------------------------------------------------------------------------------

  /** The ring has at least n blocks, and no block, linked or not, is smaller than `size`. */
  ghost predicate AtLeast<V>(s: State<V>, n: nat, size: nat) {
    |s.ring| >= n && s.largest >= size && forall k | 0 <= k < |s.blocks| :: |s.blocks[k].data| >= size
  }

  lemma StepKeepsAtLeast<V>(s: State<V>, a: Action<V>, n: nat, size: nat)
    requires Wf(s) && AtLeast(s, n, size)
    ensures AtLeast(Next(s, a), n, size)
  {
  }

  lemma {:induction false} RunKeepsAtLeast<V>(run: seq<State<V>>, sched: seq<Action<V>>, i: nat, n: nat, size: nat)
    requires IsTrace(run, sched) && AtLeast(run[0], n, size) && i < |run|
    ensures AtLeast(run[i], n, size)
  {
    if i > 0 {
      RunKeepsAtLeast(run, sched, i - 1, n, size);
      assert StepAt(run, sched, i - 1);
      StepKeepsAtLeast(run[i - 1], sched[i - 1], n, size);
    }
  }

  /** A list of full blocks holds at least as many elements as its blocks have usable cells. */
  lemma {:induction false} FullBlocksHold<V>(blocks: seq<Block<V>>, ids: seq<nat>, c: nat)
    requires forall j | 0 <= j < |ids| :: ids[j] < |blocks| && InBounds(blocks[ids[j]])
    requires forall j | 0 <= j < |ids| :: Count(blocks[ids[j]]) >= c
    ensures |Queue(blocks, ids)| >= |ids| * c
  {
    if ids != [] {
      FullBlocksHold(blocks, ids[1..], c);
      assert |Queue(blocks, ids)| == Count(blocks[ids[0]]) + |Queue(blocks, ids[1..])|;
      OneMore(|ids|, c);
    }
  }

  lemma OneMore(n: nat, c: nat)
    requires n > 0
    ensures n * c == c + (n - 1) * c
  {
  }

  /** The producer sees the consumer right behind it: all blocks but the front block are full. */
  lemma RingIsFull<V>(s: State<V>, size: nat)
    requires Wf(s) && RingOk(s) && FillOk(s) && TailFull(s) && s.tailPos > 0 && s.blocks[s.tailBlock].next == s.frontBlock
    requires AtLeast(s, 0, size) && size > 0
    ensures |Cells(s)| >= (|s.ring| - 1) * (size - 1)
  {
    assert LinkOk(s.blocks, s.ring, s.tailPos) && s.ring[s.tailPos] == s.tailBlock;
    assert s.tailPos + 1 == |s.ring|;
    var rest := Live(s)[1..];
    forall j | 0 <= j < |rest| ensures Count(s.blocks[rest[j]]) >= size - 1 {
      assert rest[j] == s.ring[j + 1];
    }
    FullBlocksHold(s.blocks, rest, size - 1);
    FrontBlockCells(s);
  }

  lemma OnlyBlock<V>(s: State<V>)
    requires Wf(s) && RingOk(s) && s.tailPos == 0 && s.blocks[s.tailBlock].next == s.frontBlock
    ensures |s.ring| == 1
  {
    assert LinkOk(s.blocks, s.ring, 0) && s.ring[0] == s.tailBlock;
  }

  lemma OnlyBlockIsFull<V>(s: State<V>, size: nat)
    requires Wf(s) && RingOk(s) && |s.ring| == 1 && AtLeast(s, 0, size)
    requires Count(s.blocks[s.tailBlock]) == |s.blocks[s.tailBlock].data| - 1
    ensures |Cells(s)| >= size - 1
  {
    FrontBlockCells(s);
    assert s.ring[0] == s.tailBlock;
  }

  lemma ReloadFoundFull<V>(s: State<V>, a: Action<V>)
    requires Wf(s) && !s.producer.PReadFrontBlock? && Next(s, a).producer.PReadFrontBlock? && Wf(Next(s, a))
    ensures var s' := Next(s, a); Count(s'.blocks[s'.tailBlock]) == |s'.blocks[s'.tailBlock].data| - 1
  {
    FullBlock(s.blocks[s.tailBlock]);
  }

  lemma ConsumerKeepsBlockCount<V>(s: State<V>, a: Action<V>)
    requires Wf(s) && s.producer.PReadFrontBlock? && Next(s, a).producer.PReadFrontBlock?
    ensures |Next(s, a).ring| == |s.ring|
  {
  }

  ghost predicate FoundFull<V>(run: seq<State<V>>, m: nat) {
    m < |run| && Wf(run[m]) && Count(run[m].blocks[run[m].tailBlock]) == |run[m].blocks[run[m].tailBlock].data| - 1
  }

  /** The producer has just found the tail block full, or had before and the ring did not change. */
  lemma ReloadStep<V>(run: seq<State<V>>, sched: seq<Action<V>>, i: nat)
    requires IsTrace(run, sched) && i < |sched| && run[i + 1].producer.PReadFrontBlock?
    ensures run[i].producer.PReadFrontBlock? ==> |run[i].ring| == |run[i + 1].ring|
    ensures !run[i].producer.PReadFrontBlock? ==> FoundFull(run, i + 1)
  {
    assert StepAt(run, sched, i) && InvAt(run, i + 1);
    if run[i].producer.PReadFrontBlock? {
      ConsumerKeepsBlockCount(run[i], sched[i]);
    } else {
      ReloadFoundFull(run[i], sched[i]);
    }
  }

  /** The instant at which the running enqueue found the tail block full. */
  lemma {:induction false} LastReload<V>(run: seq<State<V>>, sched: seq<Action<V>>, i: nat) returns (m: nat)
    requires IsTrace(run, sched) && i < |run| && run[i].producer.PReadFrontBlock?
    ensures m <= i && forall j | m <= j <= i :: run[j].producer.PReadFrontBlock?
    ensures FoundFull(run, m) && |run[m].ring| == |run[i].ring|
    decreases i
  {
    assert i > 0;
    ReloadStep(run, sched, i - 1);
    if run[i - 1].producer.PReadFrontBlock? {
      m := LastReload(run, sched, i - 1);
    } else {
      m := i;
    }
  }

  /** `inner_enqueue` has found no room in the tail block, and is about to return or to allocate. */
  predicate Deciding<V>(p: Producer<V>) {
    p.PReadFrontBlock? || p.PAlloc?
  }

  /** At an instant since the running enqueue found its block full, the queue held `maxSize` elements. */
  ghost predicate SawFull<V>(run: seq<State<V>>, i: nat, maxSize: nat) {
    exists m: nat | m <= i < |run| :: HeldAt(run, m, maxSize) && forall j | m <= j <= i :: Deciding(run[j].producer)
  }

  ghost predicate HeldAt<V>(run: seq<State<V>>, m: nat, maxSize: nat) {
    m < |run| && Wf(run[m]) && RingOk(run[m]) && |Cells(run[m])| >= maxSize
  }

  lemma NoBlockAhead<V>(run: seq<State<V>>, sched: seq<Action<V>>, i: nat, n: nat, size: nat, maxSize: nat)
    requires IsTrace(run, sched) && AtLeast(run[0], n, size) && Roomy(n, size, maxSize) && i < |run|
    requires Wf(run[i]) && run[i].producer.PReadFrontBlock? && run[i].blocks[run[i].tailBlock].next == run[i].frontBlock
    ensures SawFull(run, i, maxSize)
  {
    RunKeepsAtLeast(run, sched, i, n, size);
    assert InvAt(run, i);
    if run[i].tailPos > 0 {
      RingIsFull(run[i], size);
      MoreBlocks(|run[i].ring|, n, size, maxSize);
      assert HeldAt(run, i, maxSize);
    } else {
      OnlyBlock(run[i]);
      var m := LastReload(run, sched, i);
      RunKeepsAtLeast(run, sched, m, n, size);
      assert InvAt(run, m);
      OnlyBlockIsFull(run[m], size);
      assert HeldAt(run, m, maxSize);
    }
  }

  lemma MoreBlocks(blocks: nat, n: nat, size: nat, maxSize: nat)
    requires blocks >= n && blocks >= 2 && Roomy(n, size, maxSize)
    ensures maxSize <= (blocks - 1) * (size - 1)
  {
    var k := if n == 1 then 1 else n - 1;
    assert (blocks - 1) * (size - 1) == k * (size - 1) + (blocks - 1 - k) * (size - 1);
  }

  lemma AllocatesAfterFull<V>(s: State<V>, a: Action<V>)
    requires Wf(s) && !s.producer.PAlloc? && !s.producer.PReturned?
    requires Next(s, a).producer.PAlloc? || Next(s, a).producer == PReturned(false)
    ensures s.producer.PReadFrontBlock? && s.blocks[s.tailBlock].next == s.frontBlock
  {
  }

  lemma {:induction false} AllocationSawFull<V>(run: seq<State<V>>, sched: seq<Action<V>>, i: nat, n: nat, size: nat, maxSize: nat)
    requires IsTrace(run, sched) && AtLeast(run[0], n, size) && Roomy(n, size, maxSize) && i < |run|
    requires run[i].producer.PAlloc?
    ensures SawFull(run, i, maxSize)
    decreases i
  {
    assert i > 0;
    assert StepAt(run, sched, i - 1);
    if run[i - 1].producer.PAlloc? {
      AllocationSawFull(run, sched, i - 1, n, size, maxSize);
    } else {
      NotReturned(run[i - 1], sched[i - 1]);
      AllocatesAfterFull(run[i - 1], sched[i - 1]);
      NoBlockAhead(run, sched, i - 1, n, size, maxSize);
    }
  }

  lemma NotReturned<V>(s: State<V>, a: Action<V>)
    requires Wf(s) && Next(s, a).producer.PAlloc?
    ensures !s.producer.PReturned?
  {
  }

  /**
   An enqueue that returns false at step i, because it may not allocate or could not, was inside its call
   at an instant at which at least `maxSize` elements were queued.
   */
  lemma RefusedEnqueueSawFullQueue<V>(run: seq<State<V>>, sched: seq<Action<V>>, i: nat, n: nat, size: nat, maxSize: nat)
    requires IsRun(run, sched) && AtLeast(run[0], n, size) && Roomy(n, size, maxSize) && i < |sched|
    requires !run[i].producer.PReturned? && run[i + 1].producer == PReturned(false)
    ensures SawFull(run, i, maxSize)
  {
    RunIsTrace(run, sched);
    assert StepAt(run, sched, i);
    if run[i].producer.PAlloc? {
      AllocationSawFull(run, sched, i, n, size, maxSize);
    } else {
      AllocatesAfterFull(run[i], sched[i]);
      NoBlockAhead(run, sched, i, n, size, maxSize);
    }
  }

  /** The promise of the constructor, for every run on the queue it builds. */
  lemma ConstructedCapacity<V>(run: seq<State<V>>, sched: seq<Action<V>>, i: nat, n: nat, size: nat, maxSize: nat)
    requires size >= 2 && IsPow2(size) && Roomy(n, size, maxSize) && i < |sched|
    requires |run| == |sched| + 1 && run[0] == Initial(n, size, run[0].maxBlock)
    requires forall i | 0 <= i < |sched| :: StepAt(run, sched, i)
    requires !run[i].producer.PReturned? && run[i + 1].producer == PReturned(false)
    ensures IsRun(run, sched) && SawFull(run, i, maxSize)
  {
    InitialIsFresh<V>(n, size, run[0].maxBlock);
    RefusedEnqueueSawFullQueue(run, sched, i, n, size, maxSize);
  }
}
