/**
 The single-producer single-consumer queue of `readerwriterqueue.h`: a ring of circular blocks.

 The producer runs `inner_enqueue`, the consumer `try_dequeue`; every load or store of a variable that
 the other thread can see is a step of its own, and so are the construction and the move of an element.
 The two threads interleave in any order. Memory is sequentially consistent.
 */
module BlockRing {
  import opened Options
  import opened Bits

  /** `front` and `localTail` are written by the consumer, `tail`, `localFront` and `next` by the producer. */
  datatype Block<V> = Block(front: nat, localTail: nat, tail: nat, localFront: nat, next: nat, data: seq<Option<V>>)

  /** Positions in `inner_enqueue`; `nb` is the block the producer is about to make the tail block. */
  datatype Producer<V> =
    | PIdle
    | PReturned(ok: bool)
    | PReload(value: V, canAlloc: bool)
    | PConstruct(value: V)
    | PPublish(value: V)
    | PReadFrontBlock(value: V, canAlloc: bool)
    | PNextFront(value: V, nb: nat)
    | PNextConstruct(value: V, nb: nat)
    | PNextTail(value: V, nb: nat)
    | PAlloc(value: V)
    | PLink(value: V, nb: nat)
    | PNextPublish(value: V, nb: nat)

  /** Positions in `try_dequeue`; `nb` is the block the consumer is about to advance to. */
  datatype Consumer<V> =
    | CIdle
    | CReturned(result: Option<V>)
    | CReloadTail
    | CReadTailBlock
    | CRecheck
    | CNext
    | CNextTail(nb: nat)
    | CMoveOn(nb: nat)
    | CTake
    | CAdvance(value: V)

  /**
   The blocks by identity, the two shared block pointers, and the two threads. The last four fields are
   history: `ring` lists the linked blocks in the order of their `next` pointers from the front block on,
   the tail block stands at `tailPos`, `sent` and `received` are the elements enqueued and moved out.
   */
  datatype State<V> = State(
    blocks: seq<Block<V>>,
    frontBlock: nat,
    tailBlock: nat,
    largest: nat,
    maxBlock: nat,
    producer: Producer<V>,
    consumer: Consumer<V>,
    ring: seq<nat>,
    tailPos: nat,
    sent: seq<V>,
    received: seq<V>)

  /** `memory` says whether an allocation made in this step succeeds. */
  datatype Action<V> = CallEnqueue(value: V, canAlloc: bool) | CallDequeue | ProducerStep(memory: bool) | ConsumerStep

  /** `(x + 1) & sizeMask` for a block whose size is a power of two. */
  function Inc(x: nat, size: nat): nat {
    if x + 1 == size then 0 else x + 1
  }

  lemma IncIsMask(x: nat, k: nat)
    requires x < Pow2(k)
    ensures Inc(x, Pow2(k)) == BitAnd(x + 1, Pow2(k) - 1)
  {
    MaskWraps(x + 1, k);
  }

  /** The number of increments that lead from f to t. */
  function Dist(f: nat, t: nat, size: nat): nat
    requires f < size && t < size
  {
    if f <= t then t - f else t - f + size
  }

  function Pos(f: nat, i: nat, size: nat): nat
    requires f < size && i < size
  {
    if f + i < size then f + i else f + i - size
  }

  predicate InBounds<V>(b: Block<V>) {
    var size := |b.data|;
    b.front < size && b.tail < size && b.localFront < size && b.localTail < size
  }

  function Count<V>(b: Block<V>): nat
    requires InBounds(b)
  {
    Dist(b.front, b.tail, |b.data|)
  }

  /** The cells of a block from its front to its tail. */
  function Contents<V>(b: Block<V>): (c: seq<Option<V>>)
    requires InBounds(b)
    ensures |c| == Count(b)
  {
    seq(Count(b), i requires 0 <= i < Count(b) => b.data[Pos(b.front, i, |b.data|)])
  }

  ghost predicate Wf<V>(s: State<V>) {
    && s.frontBlock < |s.blocks| && s.tailBlock < |s.blocks|
    && (forall i | 0 <= i < |s.blocks| :: InBounds(s.blocks[i]) && s.blocks[i].next < |s.blocks|)
    && (s.producer.PNextFront? || s.producer.PNextConstruct? || s.producer.PNextTail? || s.producer.PLink? || s.producer.PNextPublish? ==>
          s.producer.nb < |s.blocks|)
    && (s.consumer.CNextTail? || s.consumer.CMoveOn? ==> s.consumer.nb < |s.blocks|)
    && s.ring != [] && s.tailPos < |s.ring|
  }

  function SetBlock<V>(s: State<V>, id: nat, b: Block<V>): State<V>
    requires id < |s.blocks|
  {
    s.(blocks := s.blocks[id := b])
  }

  /** `inner_enqueue` up to its first read of a variable of the consumer. */
  function BeginEnqueue<V>(s: State<V>, v: V, canAlloc: bool): State<V>
    requires Wf(s)
  {
    var tb := s.blocks[s.tailBlock];
    s.(producer := if Inc(tb.tail, |tb.data|) != tb.localFront then PConstruct(v) else PReload(v, canAlloc))
  }

  function NextBlockSize(largest: nat, maxBlock: nat): nat {
    if largest >= maxBlock then largest else largest * 2
  }

  function NewBlock<V>(size: nat, v: V, next: nat): Block<V>
    requires size > 1
  {
    Block(0, 1, 1, 0, next, [Some(v)] + seq(size - 1, i => None))
  }

  function StepProducer<V>(s: State<V>, memory: bool): State<V>
    requires Wf(s)
  {
    var tb := s.blocks[s.tailBlock];
    match s.producer
    case PIdle => s
    case PReturned(_) => s
    case PReload(v, canAlloc) =>
      SetBlock(s, s.tailBlock, tb.(localFront := tb.front)).(
        producer := if Inc(tb.tail, |tb.data|) != tb.front then PConstruct(v) else PReadFrontBlock(v, canAlloc))
    case PConstruct(v) =>
      SetBlock(s, s.tailBlock, tb.(data := tb.data[tb.tail := Some(v)])).(producer := PPublish(v))
    case PPublish(v) =>
      SetBlock(s, s.tailBlock, tb.(tail := Inc(tb.tail, |tb.data|))).(producer := PReturned(true), sent := s.sent + [v])
    case PReadFrontBlock(v, canAlloc) =>
      s.(producer := if tb.next != s.frontBlock then PNextFront(v, tb.next)
                     else if canAlloc then PAlloc(v)
                     else PReturned(false))
    case PNextFront(v, nb) =>
      SetBlock(s, nb, s.blocks[nb].(localFront := s.blocks[nb].front)).(producer := PNextConstruct(v, nb))
    case PNextConstruct(v, nb) =>
      var b := s.blocks[nb];
      SetBlock(s, nb, b.(data := b.data[b.tail := Some(v)])).(producer := PNextTail(v, nb))
    case PNextTail(v, nb) =>
      var b := s.blocks[nb];
      SetBlock(s, nb, b.(tail := Inc(b.tail, |b.data|))).(producer := PNextPublish(v, nb))
    case PAlloc(v) =>
      var size := NextBlockSize(s.largest, s.maxBlock);
      if !memory || size < 2 then s.(producer := PReturned(false))
      else s.(largest := size, blocks := s.blocks + [NewBlock(size, v, tb.next)], producer := PLink(v, |s.blocks|))
    case PLink(v, nb) =>
      SetBlock(s, s.tailBlock, tb.(next := nb)).(
        producer := PNextPublish(v, nb),
        ring := s.ring[..s.tailPos + 1] + [nb] + s.ring[s.tailPos + 1..])
    case PNextPublish(v, nb) =>
      s.(tailBlock := nb, producer := PReturned(true), sent := s.sent + [v],
         tailPos := if s.tailPos + 1 < |s.ring| then s.tailPos + 1 else 0)
  }

  /** `try_dequeue` up to its first read of a variable of the producer. */
  function BeginDequeue<V>(s: State<V>): State<V>
    requires Wf(s)
  {
    var fb := s.blocks[s.frontBlock];
    s.(consumer := if fb.front != fb.localTail then CTake else CReloadTail)
  }

  function StepConsumer<V>(s: State<V>): State<V>
    requires Wf(s)
  {
    var fb := s.blocks[s.frontBlock];
    match s.consumer
    case CIdle => s
    case CReturned(_) => s
    case CReloadTail =>
      SetBlock(s, s.frontBlock, fb.(localTail := fb.tail)).(consumer := if fb.front != fb.tail then CTake else CReadTailBlock)
    case CReadTailBlock =>
      s.(consumer := if s.frontBlock != s.tailBlock then CRecheck else CReturned(None))
    case CRecheck =>
      SetBlock(s, s.frontBlock, fb.(localTail := fb.tail)).(consumer := if fb.front != fb.tail then CTake else CNext)
    case CNext => s.(consumer := CNextTail(fb.next))
    case CNextTail(nb) =>
      SetBlock(s, nb, s.blocks[nb].(localTail := s.blocks[nb].tail)).(consumer := CMoveOn(nb))
    case CMoveOn(nb) =>
      s.(frontBlock := nb, consumer := CTake,
         ring := s.ring[1..] + [s.ring[0]],
         tailPos := if s.tailPos > 0 then s.tailPos - 1 else |s.ring| - 1)
    case CTake =>
      var cell := fb.data[fb.front];
      if cell.None? then s
      else SetBlock(s, s.frontBlock, fb.(data := fb.data[fb.front := None])).(
        consumer := CAdvance(cell.value), received := s.received + [cell.value])
    case CAdvance(v) =>
      SetBlock(s, s.frontBlock, fb.(front := Inc(fb.front, |fb.data|))).(consumer := CReturned(Some(v)))
  }

  function Next<V>(s: State<V>, a: Action<V>): State<V>
    requires Wf(s)
  {
    match a
    case CallEnqueue(v, canAlloc) => if s.producer.PIdle? || s.producer.PReturned? then BeginEnqueue(s, v, canAlloc) else s
    case CallDequeue => if s.consumer.CIdle? || s.consumer.CReturned? then BeginDequeue(s) else s
    case ProducerStep(memory) => StepProducer(s, memory)
    case ConsumerStep => StepConsumer(s)
  }

  // ---------------------------------------------------------------------------------------------
  // The inductive invariant
  // ---------------------------------------------------------------------------------------------

  /** The local copies lag behind: `localTail` lies before the tail, `localFront` not after the front. */
  ghost predicate BlockOk<V>(b: Block<V>) {
    && InBounds(b) && 2 <= |b.data| && IsPow2(|b.data|)
    && Dist(b.front, b.localTail, |b.data|) <= Count(b)
    && Dist(b.localFront, b.front, |b.data|) + Count(b) == Dist(b.localFront, b.tail, |b.data|)
  }

  /** The next pointer of the j-th block of the ring leads to the block after it, from the last to the first. */
  ghost predicate LinkOk<V>(blocks: seq<Block<V>>, ring: seq<nat>, j: nat)
    requires j < |ring| && ring[j] < |blocks|
  {
    blocks[ring[j]].next == ring[if j + 1 < |ring| then j + 1 else 0]
  }

  /** The linked blocks form one circle that starts at the front block and passes the tail block. */
  ghost predicate RingOk<V>(s: State<V>)
    requires Wf(s)
  {
    && s.ring[0] == s.frontBlock && s.ring[s.tailPos] == s.tailBlock
    && (forall j | 0 <= j < |s.ring| :: s.ring[j] < |s.blocks|)
    && (forall i, j | 0 <= i < j < |s.ring| :: s.ring[i] != s.ring[j])
    && (forall j | 0 <= j < |s.ring| :: LinkOk(s.blocks, s.ring, j))
    && (forall j | 0 <= j < |s.ring| :: BlockOk(s.blocks[s.ring[j]]))
  }

  /** Between front and tail block every block is full; behind the tail block every block is empty. */
  ghost predicate FillOk<V>(s: State<V>)
    requires Wf(s) && RingOk(s)
  {
    && (forall j | 0 < j < s.tailPos :: Count(s.blocks[s.ring[j]]) == |s.blocks[s.ring[j]].data| - 1)
    && (s.tailPos > 0 ==> Count(s.blocks[s.tailBlock]) > 0)
    && (forall j | s.tailPos < j < |s.ring| ::
          Count(s.blocks[s.ring[j]]) == if s.producer.PNextPublish? && s.ring[j] == s.producer.nb then 1 else 0)
  }

  /** The producer has constructed an element in the tail cell of block id and not yet moved its tail. */
  predicate Written<V>(s: State<V>, id: nat) {
    || (s.producer.PPublish? && id == s.tailBlock)
    || (s.producer.PNextTail? && id == s.producer.nb)
  }

  /** The consumer has moved the element out of the front cell of block id and not yet moved its front. */
  predicate Taken<V>(s: State<V>, id: nat) {
    s.consumer.CAdvance? && id == s.frontBlock
  }

  /** Exactly the cells that hold a constructed element are those between front and tail. */
  ghost predicate CellsOk<V>(b: Block<V>, written: bool, taken: bool)
    requires InBounds(b)
  {
    forall c | 0 <= c < |b.data| ::
      b.data[c].Some? <==>
      (Dist(b.front, c, |b.data|) < Count(b) && !(taken && c == b.front)) || (written && c == b.tail)
  }

  ghost predicate CellsAt<V>(s: State<V>, id: nat)
    requires Wf(s)
  {
    id < |s.blocks| ==> CellsOk(s.blocks[id], Written(s, id), Taken(s, id))
  }

  ghost predicate AllCells<V>(s: State<V>)
    requires Wf(s)
  {
    forall j | 0 <= j < |s.ring| :: CellsAt(s, s.ring[j])
  }

  /** The elements of the listed blocks, one block after the other. */
  ghost function Queue<V>(blocks: seq<Block<V>>, ids: seq<nat>): seq<Option<V>>
    requires forall j | 0 <= j < |ids| :: ids[j] < |blocks| && InBounds(blocks[ids[j]])
  {
    if ids == [] then [] else Contents(blocks[ids[0]]) + Queue(blocks, ids[1..])
  }

  /** The blocks from the front block to the tail block. */
  ghost function Live<V>(s: State<V>): seq<nat>
    requires Wf(s)
  {
    s.ring[..s.tailPos + 1]
  }

  ghost function Cells<V>(s: State<V>): seq<Option<V>>
    requires Wf(s) && RingOk(s)
  {
    Queue(s.blocks, Live(s))
  }

  /** q lists the elements sent and not received; its first `taken` cells are already moved out. */
  ghost predicate Holds<V>(q: seq<Option<V>>, sent: seq<V>, received: seq<V>, taken: nat) {
    && taken <= |q| && taken <= |received| && |received| <= |sent|
    && |received| + |q| == |sent| + taken
    && received == sent[..|received|]
    && forall i | taken <= i < |q| :: q[i] == Some(sent[|received| + i - taken])
  }

  ghost predicate HistoryOk<V>(s: State<V>)
    requires Wf(s) && RingOk(s)
  {
    Holds(Cells(s), s.sent, s.received, if s.consumer.CAdvance? then 1 else 0)
  }

  /** Once the front block has left the tail block behind, the tail block stays full. */
  ghost predicate TailFull<V>(s: State<V>)
    requires Wf(s) && RingOk(s)
  {
    s.tailPos > 0 ==> Count(s.blocks[s.tailBlock]) == |s.blocks[s.tailBlock].data| - 1
  }

  /** The producer has found a free block behind the tail block. */
  ghost predicate HasNext<V>(s: State<V>, nb: nat)
    requires Wf(s) && RingOk(s)
  {
    TailFull(s) && s.tailPos + 1 < |s.ring| && nb == s.ring[s.tailPos + 1]
  }

  ghost predicate ProducerOk<V>(s: State<V>)
    requires Wf(s) && RingOk(s)
  {
    var tb := s.blocks[s.tailBlock];
    match s.producer
    case PConstruct(v) => Inc(tb.tail, |tb.data|) != tb.localFront
    case PPublish(v) => Inc(tb.tail, |tb.data|) != tb.localFront && tb.data[tb.tail] == Some(v)
    case PReadFrontBlock(v, canAlloc) => TailFull(s)
    case PNextFront(v, nb) => HasNext(s, nb)
    case PNextConstruct(v, nb) => HasNext(s, nb) && s.blocks[nb].localFront == s.blocks[nb].front
    case PNextTail(v, nb) =>
      HasNext(s, nb) && s.blocks[nb].localFront == s.blocks[nb].front && s.blocks[nb].data[s.blocks[nb].tail] == Some(v)
    case PAlloc(v) => TailFull(s)
    case PLink(v, nb) =>
      && TailFull(s) && nb !in s.ring && BlockOk(s.blocks[nb]) && s.blocks[nb].next == tb.next
      && CellsOk(s.blocks[nb], false, false) && Contents(s.blocks[nb]) == [Some(v)]
    case PNextPublish(v, nb) => HasNext(s, nb) && Contents(s.blocks[nb]) == [Some(v)]
    case _ => true
  }

  ghost predicate LastReceived<V>(s: State<V>, v: V) {
    s.received != [] && s.received[|s.received| - 1] == v
  }

  ghost predicate ConsumerOk<V>(s: State<V>)
    requires Wf(s) && RingOk(s)
  {
    var fb := s.blocks[s.frontBlock];
    match s.consumer
    case CRecheck => s.tailPos > 0
    case CNext => s.tailPos > 0 && Count(fb) == 0
    case CNextTail(nb) => s.tailPos > 0 && Count(fb) == 0 && nb == s.ring[1]
    case CMoveOn(nb) => s.tailPos > 0 && Count(fb) == 0 && nb == s.ring[1] && s.blocks[nb].front != s.blocks[nb].localTail
    case CTake => fb.front != fb.localTail
    case CAdvance(v) => fb.front != fb.localTail && LastReceived(s, v)
    case CReturned(r) => r.Some? ==> LastReceived(s, r.value)
    case _ => true
  }

  ghost predicate SizesOk<V>(s: State<V>) {
    2 <= s.largest && IsPow2(s.largest)
  }

  ghost predicate Inv<V>(s: State<V>) {
    && Wf(s) && RingOk(s) && FillOk(s)
    && AllCells(s) && HistoryOk(s) && ProducerOk(s) && ConsumerOk(s) && SizesOk(s)
  }

  // ---------------------------------------------------------------------------------------------
  // Queues of blocks
  // ---------------------------------------------------------------------------------------------

  lemma {:induction false} QueueFrame<V>(blocks: seq<Block<V>>, blocks': seq<Block<V>>, ids: seq<nat>)
    requires forall j | 0 <= j < |ids| :: ids[j] < |blocks| && InBounds(blocks[ids[j]])
    requires forall j | 0 <= j < |ids| :: ids[j] < |blocks'| && InBounds(blocks'[ids[j]])
    requires forall j | 0 <= j < |ids| :: Contents(blocks'[ids[j]]) == Contents(blocks[ids[j]])
    ensures Queue(blocks', ids) == Queue(blocks, ids)
    decreases |ids|
  {
    if ids != [] {
      QueueFrame(blocks, blocks', ids[1..]);
    }
  }

  lemma {:induction false} QueueAppend<V>(blocks: seq<Block<V>>, ids: seq<nat>, id: nat)
    requires forall j | 0 <= j < |ids| :: ids[j] < |blocks| && InBounds(blocks[ids[j]])
    requires id < |blocks| && InBounds(blocks[id])
    ensures Queue(blocks, ids + [id]) == Queue(blocks, ids) + Contents(blocks[id])
    decreases |ids|
  {
    if ids == [] {
      assert Queue(blocks, [id]) == Contents(blocks[id]) + Queue(blocks, []);
    } else {
      QueueAppend(blocks, ids[1..], id);
      assert (ids + [id])[1..] == ids[1..] + [id];
    }
  }

  lemma SameContents<V>(b: Block<V>, b': Block<V>)
    requires InBounds(b) && InBounds(b') && b'.front == b.front && b'.tail == b.tail && |b'.data| == |b.data|
    requires forall c | 0 <= c < |b.data| && Dist(b.front, c, |b.data|) < Count(b) :: b'.data[c] == b.data[c]
    ensures Contents(b') == Contents(b)
  {
    forall i | 0 <= i < Count(b) ensures Contents(b')[i] == Contents(b)[i] {
      assert Dist(b.front, Pos(b.front, i, |b.data|), |b.data|) == i;
    }
  }

  // ---------------------------------------------------------------------------------------------
  // Steps that refresh a local copy or only decide where to go
  // ---------------------------------------------------------------------------------------------

  predicate ProducerQuiet<V>(p: Producer<V>) {
    !p.PPublish? && !p.PNextTail? && !p.PNextPublish?
  }

  /** Fronts, tails, links and block sizes stay; no block behind the tail block is filled or published. */
  ghost predicate SameLinks<V>(s: State<V>, s': State<V>) {
    && |s'.blocks| == |s.blocks|
    && (forall k | 0 <= k < |s.blocks| ::
          s'.blocks[k].front == s.blocks[k].front && s'.blocks[k].tail == s.blocks[k].tail
          && s'.blocks[k].next == s.blocks[k].next && |s'.blocks[k].data| == |s.blocks[k].data|)
    && s' == s.(blocks := s'.blocks, producer := s'.producer, consumer := s'.consumer, sent := s'.sent, received := s'.received)
    && (s'.producer == s.producer || (!s.producer.PNextPublish? && !s'.producer.PNextPublish?))
  }

  /** The blocks differ in their local copies at most, the ring and the history not at all. */
  ghost predicate SameShape<V>(s: State<V>, s': State<V>) {
    && SameLinks(s, s')
    && (forall k | 0 <= k < |s.blocks| :: s'.blocks[k].data == s.blocks[k].data)
    && s'.sent == s.sent && s'.received == s.received
    && (s'.producer == s.producer || (ProducerQuiet(s.producer) && ProducerQuiet(s'.producer)))
    && (s'.consumer == s.consumer || (!s.consumer.CAdvance? && !s'.consumer.CAdvance?))
  }

  /** Next pointers, block pointers and ring are untouched. */
  lemma RingFrame<V>(s: State<V>, s': State<V>)
    requires Wf(s) && RingOk(s) && Wf(s') && |s.blocks| <= |s'.blocks|
    requires s'.ring == s.ring && s'.tailPos == s.tailPos && s'.frontBlock == s.frontBlock && s'.tailBlock == s.tailBlock
    requires forall k | 0 <= k < |s.blocks| :: s'.blocks[k].next == s.blocks[k].next
    requires forall j | 0 <= j < |s.ring| :: BlockOk(s'.blocks[s.ring[j]])
    ensures RingOk(s')
  {
    forall j | 0 <= j < |s'.ring| ensures LinkOk(s'.blocks, s'.ring, j) { assert LinkOk(s.blocks, s.ring, j); }
  }

  lemma SameLinksRing<V>(s: State<V>, s': State<V>)
    requires Wf(s) && RingOk(s) && FillOk(s) && Wf(s') && SameLinks(s, s')
    requires forall j | 0 <= j < |s.ring| :: BlockOk(s'.blocks[s.ring[j]])
    ensures RingOk(s') && FillOk(s')
  {
    RingFrame(s, s');
  }

  lemma SameShapeHistory<V>(s: State<V>, s': State<V>)
    requires Wf(s) && RingOk(s) && HistoryOk(s) && Wf(s') && RingOk(s') && SameShape(s, s')
    ensures Cells(s') == Cells(s) && HistoryOk(s')
  {
    forall j | 0 <= j < |Live(s)| ensures Contents(s'.blocks[Live(s)[j]]) == Contents(s.blocks[Live(s)[j]]) {
      SameContents(s.blocks[Live(s)[j]], s'.blocks[Live(s)[j]]);
    }
    QueueFrame(s.blocks, s'.blocks, Live(s));
  }

  lemma SameShapeCells<V>(s: State<V>, s': State<V>, id: nat)
    requires SameShape(s, s') && id < |s.blocks| && InBounds(s.blocks[id]) && InBounds(s'.blocks[id])
    requires CellsOk(s.blocks[id], Written(s, id), Taken(s, id))
    ensures CellsOk(s'.blocks[id], Written(s', id), Taken(s', id))
  {
    var b, b' := s.blocks[id], s'.blocks[id];
    forall c | 0 <= c < |b'.data| ensures b'.data[c] == b.data[c] && Dist(b'.front, c, |b'.data|) == Dist(b.front, c, |b.data|) {}
  }

  lemma SameShapeConsumer<V>(s: State<V>, s': State<V>)
    requires Wf(s) && RingOk(s) && ConsumerOk(s) && Wf(s') && RingOk(s') && SameShape(s, s')
    requires s'.consumer == s.consumer
    requires forall k | 0 <= k < |s.blocks| :: s'.blocks[k].localTail == s.blocks[k].localTail
    ensures ConsumerOk(s')
  {
  }

  /** What every local step keeps; the position of the thread that moved is left to its caller. */
  lemma LocalStep<V>(s: State<V>, s': State<V>)
    requires Inv(s) && Wf(s') && SameShape(s, s')
    requires forall j | 0 <= j < |s.ring| :: BlockOk(s'.blocks[s.ring[j]])
    ensures RingOk(s') && FillOk(s') && HistoryOk(s') && SizesOk(s')
    ensures AllCells(s')
  {
    SameLinksRing(s, s');
    SameShapeHistory(s, s');
    forall j | 0 <= j < |s'.ring| ensures CellsAt(s', s'.ring[j]) {
      assert CellsAt(s, s.ring[j]);
      SameShapeCells(s, s', s.ring[j]);
    }
  }

  /** A step that writes to one block, and changes what is in the making in no other block. */
  lemma OneBlockCells<V>(s: State<V>, s': State<V>, id: nat)
    requires Wf(s) && Wf(s') && AllCells(s) && s'.ring == s.ring && |s'.blocks| == |s.blocks|
    requires forall k | 0 <= k < |s.blocks| && k != id :: s'.blocks[k] == s.blocks[k]
    requires forall k | 0 <= k < |s.blocks| && k != id :: Written(s', k) == Written(s, k) && Taken(s', k) == Taken(s, k)
    requires CellsAt(s', id)
    ensures AllCells(s')
  {
    forall j | 0 <= j < |s'.ring| ensures CellsAt(s', s'.ring[j]) {
      assert CellsAt(s, s.ring[j]);
    }
  }

  /** A step that changes links and block pointers, and the cells of no block; the blocks of `more` may join the ring. */
  lemma LinkedCells<V>(s: State<V>, s': State<V>, more: set<nat>)
    requires Wf(s) && Wf(s') && AllCells(s) && |s.blocks| <= |s'.blocks|
    requires forall k | 0 <= k < |s.blocks| :: s'.blocks[k] == s.blocks[k].(next := s'.blocks[k].next)
    requires forall k | 0 <= k < |s.blocks| :: Written(s', k) == Written(s, k) && Taken(s', k) == Taken(s, k)
    requires forall j | 0 <= j < |s'.ring| :: s'.ring[j] in s.ring || s'.ring[j] in more
    requires forall j | 0 <= j < |s.ring| :: s.ring[j] < |s.blocks|
    requires forall id | id in more :: id < |s.blocks| && CellsAt(s, id)
    ensures AllCells(s')
  {
    forall j | 0 <= j < |s'.ring| ensures CellsAt(s', s'.ring[j]) {
      var id := s'.ring[j];
      assert CellsAt(s, id);
    }
  }

  /** A step of the consumer that refreshes one `localTail` at most, and then goes on to another position. */
  lemma ConsumerLooks<V>(s: State<V>, s': State<V>, id: nat, localTail: nat)
    requires Inv(s) && id < |s.blocks| && id in s.ring && BlockOk(s.blocks[id].(localTail := localTail))
    requires s' == SetBlock(s, id, s.blocks[id].(localTail := localTail)).(consumer := s'.consumer)
    requires !s.consumer.CAdvance? && !s'.consumer.CAdvance?
    requires s'.consumer.CNextTail? || s'.consumer.CMoveOn? ==> s'.consumer.nb < |s.blocks|
    ensures Wf(s') && RingOk(s') && (ConsumerOk(s') ==> Inv(s'))
  {
    LocalStep(s, s');
    LookKeepsProducer(s, s', id, localTail);
  }

  lemma LookKeepsProducer<V>(s: State<V>, s': State<V>, id: nat, localTail: nat)
    requires Wf(s) && RingOk(s) && ProducerOk(s) && Wf(s') && RingOk(s') && id < |s.blocks| && id in s.ring
    requires s' == SetBlock(s, id, s.blocks[id].(localTail := localTail)).(consumer := s'.consumer)
    ensures ProducerOk(s')
  {
    if s.producer.PNextPublish? {
      SameContents(s.blocks[s.producer.nb], s'.blocks[s.producer.nb]);
    }
  }

  /** A step of the producer that refreshes one `localFront` at most, and then goes on to another position. */
  lemma ProducerLooks<V>(s: State<V>, s': State<V>, id: nat, localFront: nat)
    requires Inv(s) && id < |s.blocks| && BlockOk(s.blocks[id].(localFront := localFront))
    requires s' == SetBlock(s, id, s.blocks[id].(localFront := localFront)).(producer := s'.producer)
    requires ProducerQuiet(s.producer) && ProducerQuiet(s'.producer)
    requires s'.producer.PNextFront? || s'.producer.PNextConstruct? || s'.producer.PLink? ==> s'.producer.nb < |s.blocks|
    ensures Wf(s') && RingOk(s') && (ProducerOk(s') ==> Inv(s'))
  {
    LooksSameShape(s, s', id, localFront);
    LocalStep(s, s');
    SameShapeConsumer(s, s');
  }

  lemma LooksSameShape<V>(s: State<V>, s': State<V>, id: nat, localFront: nat)
    requires Wf(s) && RingOk(s) && id < |s.blocks| && BlockOk(s.blocks[id].(localFront := localFront))
    requires s' == SetBlock(s, id, s.blocks[id].(localFront := localFront)).(producer := s'.producer)
    requires ProducerQuiet(s.producer) && ProducerQuiet(s'.producer)
    requires s'.producer.PNextFront? || s'.producer.PNextConstruct? || s'.producer.PLink? ==> s'.producer.nb < |s.blocks|
    ensures Wf(s') && SameShape(s, s')
    ensures forall j | 0 <= j < |s.ring| :: BlockOk(s'.blocks[s.ring[j]])
  {
  }

  /** The block is full when its tail would run into its front. */
  lemma FullBlock<V>(b: Block<V>)
    requires InBounds(b)
    ensures Inc(b.tail, |b.data|) == b.front <==> Count(b) == |b.data| - 1
  {
  }

  lemma CallEnqueueKeepsInv<V>(s: State<V>, v: V, canAlloc: bool)
    requires Inv(s) && (s.producer.PIdle? || s.producer.PReturned?)
    ensures Inv(BeginEnqueue(s, v, canAlloc))
  {
    assert s.ring[s.tailPos] == s.tailBlock;
    ProducerLooks(s, BeginEnqueue(s, v, canAlloc), s.tailBlock, s.blocks[s.tailBlock].localFront);
  }

  lemma ReloadFrontKeepsInv<V>(s: State<V>)
    requires Inv(s) && s.producer.PReload?
    ensures Inv(StepProducer(s, true))
  {
    assert s.ring[s.tailPos] == s.tailBlock;
    FullBlock(s.blocks[s.tailBlock]);
    ProducerLooks(s, StepProducer(s, true), s.tailBlock, s.blocks[s.tailBlock].front);
  }

  lemma ReadFrontBlockKeepsInv<V>(s: State<V>)
    requires Inv(s) && s.producer.PReadFrontBlock?
    ensures Inv(StepProducer(s, true))
  {
    assert s.ring[s.tailPos] == s.tailBlock && LinkOk(s.blocks, s.ring, s.tailPos);
    ProducerLooks(s, StepProducer(s, true), s.tailBlock, s.blocks[s.tailBlock].localFront);
  }

  lemma NextFrontKeepsProducer<V>(s: State<V>, s': State<V>, nb: nat)
    requires Wf(s) && RingOk(s) && Wf(s') && RingOk(s') && nb < |s.blocks| && HasNext(s, nb)
    requires s' == SetBlock(s, nb, s.blocks[nb].(localFront := s.blocks[nb].front)).(producer := s'.producer)
    requires s'.producer.PNextConstruct? && s'.producer.nb == nb
    ensures ProducerOk(s')
  {
  }

  lemma NextFrontKeepsInv<V>(s: State<V>)
    requires Inv(s) && s.producer.PNextFront?
    ensures Inv(StepProducer(s, true))
  {
    var s', nb := StepProducer(s, true), s.producer.nb;
    assert nb == s.ring[s.tailPos + 1];
    ProducerLooks(s, s', nb, s.blocks[nb].front);
    NextFrontKeepsProducer(s, s', nb);
  }

  lemma CallDequeueKeepsInv<V>(s: State<V>)
    requires Inv(s) && (s.consumer.CIdle? || s.consumer.CReturned?)
    ensures Inv(BeginDequeue(s))
  {
    assert s.ring[0] == s.frontBlock;
    ConsumerLooks(s, BeginDequeue(s), s.frontBlock, s.blocks[s.frontBlock].localTail);
  }

  /** The loads of the tail of the front block, and the test of the tail block. */
  lemma LookKeepsInv<V>(s: State<V>)
    requires Inv(s) && (s.consumer.CReloadTail? || s.consumer.CReadTailBlock? || s.consumer.CRecheck?)
    ensures Inv(StepConsumer(s))
  {
    var fb := s.blocks[s.frontBlock];
    assert s.ring[0] == s.frontBlock;
    ConsumerLooks(s, StepConsumer(s), s.frontBlock, if s.consumer.CReadTailBlock? then fb.localTail else fb.tail);
  }

  /** The load of the next pointer of the empty front block. */
  lemma LoadNextKeepsInv<V>(s: State<V>)
    requires Inv(s) && s.consumer.CNext?
    ensures Inv(StepConsumer(s))
  {
    assert LinkOk(s.blocks, s.ring, 0) && s.ring[0] == s.frontBlock;
    ConsumerLooks(s, StepConsumer(s), s.frontBlock, s.blocks[s.frontBlock].localTail);
  }

  /** The load of the tail of the next block. */
  lemma LoadNextTailKeepsInv<V>(s: State<V>)
    requires Inv(s) && s.consumer.CNextTail?
    ensures Inv(StepConsumer(s))
  {
    var id := s.ring[1];
    assert s.ring[0] != id && BlockOk(s.blocks[id]);
    ConsumerLooks(s, StepConsumer(s), id, s.blocks[id].tail);
  }

  // ---------------------------------------------------------------------------------------------
  // Steps of the producer that fill cells, move a tail or link a block
  // ---------------------------------------------------------------------------------------------

  /** The construction writes one cell of block id, the empty one at its tail. */
  lemma ConstructKeepsHistory<V>(s: State<V>, s': State<V>, id: nat, v: V)
    requires Wf(s) && RingOk(s) && HistoryOk(s) && Wf(s') && RingOk(s') && id < |s.blocks|
    requires s' == SetBlock(s, id, s.blocks[id].(data := s.blocks[id].data[s.blocks[id].tail := Some(v)])).(producer := s'.producer)
    ensures Cells(s') == Cells(s) && HistoryOk(s')
  {
    SameContents(s.blocks[id], s'.blocks[id]);
    SameContentsKeepHistory(s, s', id, s'.blocks[id]);
  }

  lemma SameContentsKeepHistory<V>(s: State<V>, s': State<V>, id: nat, b: Block<V>)
    requires Wf(s) && RingOk(s) && HistoryOk(s) && Wf(s') && RingOk(s') && id < |s.blocks|
    requires InBounds(b) && Contents(b) == Contents(s.blocks[id])
    requires s' == SetBlock(s, id, b).(producer := s'.producer)
    ensures Cells(s') == Cells(s) && HistoryOk(s')
  {
    forall j | 0 <= j < |Live(s)| ensures Contents(s'.blocks[Live(s)[j]]) == Contents(s.blocks[Live(s)[j]]) {}
    QueueFrame(s.blocks, s'.blocks, Live(s));
  }

  /** An element is only ever constructed in an empty cell. */
  lemma TailCellIsEmpty<V>(b: Block<V>, taken: bool)
    requires InBounds(b) && CellsOk(b, false, taken)
    ensures b.data[b.tail].None?
  {
  }

  lemma ConstructCell<V>(b: Block<V>, v: V, taken: bool)
    requires InBounds(b) && CellsOk(b, false, taken)
    ensures CellsOk(b.(data := b.data[b.tail := Some(v)]), true, taken)
  {
    var b' := b.(data := b.data[b.tail := Some(v)]);
    forall c | 0 <= c < |b'.data| && c != b.tail ensures b'.data[c] == b.data[c] {}
  }

  /** What a construction keeps; the producer then has an element in the tail cell of block id. */
  lemma ConstructKeepsRing<V>(s: State<V>, s': State<V>, id: nat, v: V)
    requires Wf(s) && RingOk(s) && FillOk(s) && ConsumerOk(s) && id < |s.blocks| && Wf(s')
    requires s' == SetBlock(s, id, s.blocks[id].(data := s.blocks[id].data[s.blocks[id].tail := Some(v)])).(producer := s'.producer)
    requires !s.producer.PNextPublish? && !s'.producer.PNextPublish?
    ensures RingOk(s') && FillOk(s') && ConsumerOk(s')
  {
    SameLinksRing(s, s');
  }

  /** What a construction keeps; the producer then has an element in the tail cell of block id. */
  lemma Constructs<V>(s: State<V>, s': State<V>, id: nat, v: V)
    requires Inv(s) && id < |s.blocks| && id in s.ring && Wf(s') && !Written(s, id) && Written(s', id)
    requires s' == SetBlock(s, id, s.blocks[id].(data := s.blocks[id].data[s.blocks[id].tail := Some(v)])).(producer := s'.producer)
    requires forall k | 0 <= k < |s.blocks| && k != id :: Written(s', k) == Written(s, k)
    requires !s.producer.PNextPublish? && !s'.producer.PNextPublish?
    ensures s.blocks[id].data[s.blocks[id].tail].None?
    ensures RingOk(s') && (ProducerOk(s') ==> Inv(s'))
  {
    assert CellsAt(s, id);
    TailCellIsEmpty(s.blocks[id], Taken(s, id));
    ConstructCell(s.blocks[id], v, Taken(s, id));
    ConstructKeepsRing(s, s', id, v);
    ConstructKeepsHistory(s, s', id, v);
    OneBlockCells(s, s', id);
  }

  lemma ConstructKeepsInv<V>(s: State<V>)
    requires Inv(s) && s.producer.PConstruct?
    ensures s.blocks[s.tailBlock].data[s.blocks[s.tailBlock].tail].None?
    ensures Inv(StepProducer(s, true))
  {
    assert s.tailBlock == s.ring[s.tailPos];
    Constructs(s, StepProducer(s, true), s.tailBlock, s.producer.value);
  }

  lemma NextConstructKeepsProducer<V>(s: State<V>, s': State<V>, id: nat, v: V)
    requires Wf(s) && RingOk(s) && Wf(s') && RingOk(s') && HasNext(s, id) && id < |s.blocks|
    requires s.blocks[id].localFront == s.blocks[id].front
    requires s' == SetBlock(s, id, s.blocks[id].(data := s.blocks[id].data[s.blocks[id].tail := Some(v)])).(producer := s'.producer)
    requires s'.producer == PNextTail(v, id)
    ensures ProducerOk(s')
  {
    assert id == s.ring[s.tailPos + 1] && id != s.ring[s.tailPos];
  }

  lemma NextConstructKeepsInv<V>(s: State<V>)
    requires Inv(s) && s.producer.PNextConstruct?
    ensures s.blocks[s.producer.nb].data[s.blocks[s.producer.nb].tail].None?
    ensures Inv(StepProducer(s, true))
  {
    var s', id, v := StepProducer(s, true), s.producer.nb, s.producer.value;
    assert id == s.ring[s.tailPos + 1];
    Constructs(s, s', id, v);
    NextConstructKeepsProducer(s, s', id, v);
  }

  /** Moving the tail past a constructed cell of a block with room appends that element. */
  lemma TailMoves<V>(b: Block<V>, taken: bool)
    requires BlockOk(b) && CellsOk(b, true, taken) && Count(b) < |b.data| - 1
    requires Inc(b.tail, |b.data|) != b.localFront && (taken ==> Count(b) > 0)
    ensures var b' := b.(tail := Inc(b.tail, |b.data|));
            && BlockOk(b') && Count(b') == Count(b) + 1
            && Contents(b') == Contents(b) + [b.data[b.tail]]
            && CellsOk(b', false, taken)
  {
    var b' := b.(tail := Inc(b.tail, |b.data|));
    var size := |b.data|;
    assert Count(b') == Count(b) + 1;
    forall i | 0 <= i < Count(b') ensures Contents(b')[i] == (Contents(b) + [b.data[b.tail]])[i] {
      if i == Count(b) { assert Pos(b.front, i, size) == b.tail; }
    }
    forall c | 0 <= c < size
      ensures Dist(b'.front, c, size) < Count(b') <==> Dist(b.front, c, size) < Count(b) || c == b.tail
    {}
  }

  /** A tail block that the producer may fill has room. */
  lemma RoomInTailBlock<V>(b: Block<V>)
    requires BlockOk(b) && Inc(b.tail, |b.data|) != b.localFront
    ensures Count(b) < |b.data| - 1
  {
  }

  lemma PublishKeepsRing<V>(s: State<V>, s': State<V>, id: nat, b: Block<V>)
    requires Wf(s) && RingOk(s) && FillOk(s) && Wf(s')
    requires id == s.tailBlock && BlockOk(b) && b.next == s.blocks[id].next && Count(b) > 0
    requires s' == SetBlock(s, id, b).(producer := s'.producer, consumer := s'.consumer, sent := s'.sent, received := s'.received)
    requires !s.producer.PNextPublish? && !s'.producer.PNextPublish?
    ensures RingOk(s') && FillOk(s')
  {
    RingFrame(s, s');
    assert s.ring[s.tailPos] == id;
  }

  /** The cells up to the tail block, and those of the tail block. */
  lemma CellsSplit<V>(s: State<V>)
    requires Wf(s) && RingOk(s)
    ensures Cells(s) == Queue(s.blocks, s.ring[..s.tailPos]) + Contents(s.blocks[s.tailBlock])
  {
    assert Live(s) == s.ring[..s.tailPos] + [s.tailBlock];
    QueueAppend(s.blocks, s.ring[..s.tailPos], s.tailBlock);
  }

  lemma HoldsSent<V>(q: seq<Option<V>>, sent: seq<V>, received: seq<V>, taken: nat, v: V)
    requires Holds(q, sent, received, taken)
    ensures Holds(q + [Some(v)], sent + [v], received, taken)
  {
  }

  lemma PublishKeepsHistory<V>(s: State<V>, s': State<V>, b: Block<V>, v: V)
    requires Wf(s) && RingOk(s) && HistoryOk(s) && Wf(s') && RingOk(s')
    requires InBounds(b) && Contents(b) == Contents(s.blocks[s.tailBlock]) + [Some(v)]
    requires s' == SetBlock(s, s.tailBlock, b).(producer := s'.producer, sent := s.sent + [v])
    ensures Cells(s') == Cells(s) + [Some(v)] && HistoryOk(s')
  {
    CellsSplit(s);
    CellsSplit(s');
    assert s.ring[s.tailPos] == s.tailBlock;
    QueueFrame(s.blocks, s'.blocks, s.ring[..s.tailPos]);
    assert Cells(s') == Cells(s) + [Some(v)];
    HoldsSent(Cells(s), s.sent, s.received, if s.consumer.CAdvance? then 1 else 0, v);
  }

  lemma PublishKeepsInv<V>(s: State<V>)
    requires Inv(s) && s.producer.PPublish?
    ensures Inv(StepProducer(s, true))
  {
    var s' := StepProducer(s, true);
    var id, v := s.tailBlock, s.producer.value;
    var b, b' := s.blocks[id], s'.blocks[id];
    assert id == s.ring[s.tailPos];
    assert CellsAt(s, id);
    RoomInTailBlock(b);
    TailMoves(b, Taken(s, id));
    PublishKeepsRing(s, s', id, b');
    PublishKeepsHistory(s, s', b', v);
    OneBlockCells(s, s', id);
    assert ConsumerOk(s');
  }

  /** The first element of a fresh or reused block, before the block becomes the tail block. */
  lemma NextTailKeepsInv<V>(s: State<V>)
    requires Inv(s) && s.producer.PNextTail?
    ensures Inv(StepProducer(s, true))
  {
    var id := s.producer.nb;
    var b := s.blocks[id];
    NextTailMoves(s, StepProducer(s, true), id, s.producer.value, b, b.(tail := Inc(b.tail, |b.data|)));
  }

  lemma NextTailMoves<V>(s: State<V>, s': State<V>, id: nat, v: V, b: Block<V>, b': Block<V>)
    requires Inv(s) && s.producer == PNextTail(v, id) && id < |s.blocks| && b == s.blocks[id]
    requires InBounds(b) && b' == b.(tail := Inc(b.tail, |b.data|))
    requires s' == SetBlock(s, id, b').(producer := PNextPublish(v, id))
    ensures Inv(s')
  {
    assert id == s.ring[s.tailPos + 1];
    assert CellsAt(s, id);
    assert Count(b) == 0;
    FirstElement(b, v);
    SecondPosition(s, s', id, b');
    OneBlockCells(s, s', id);
    AheadKeepsHistory(s, s', id, b');
    AheadKeepsConsumer(s, s', id, b');
  }

  /** The block behind the tail block is not part of the queue yet. */
  lemma AheadKeepsHistory<V>(s: State<V>, s': State<V>, id: nat, b: Block<V>)
    requires Wf(s) && RingOk(s) && HistoryOk(s) && Wf(s') && RingOk(s') && InBounds(b)
    requires s.tailPos + 1 < |s.ring| && id == s.ring[s.tailPos + 1]
    requires s' == SetBlock(s, id, b).(producer := s'.producer)
    ensures HistoryOk(s')
  {
    forall j | 0 <= j < |Live(s)| ensures s'.blocks[Live(s)[j]] == s.blocks[Live(s)[j]] {}
    QueueFrame(s.blocks, s'.blocks, Live(s));
  }

  lemma AheadKeepsConsumer<V>(s: State<V>, s': State<V>, id: nat, b: Block<V>)
    requires Wf(s) && RingOk(s) && ConsumerOk(s) && Wf(s') && RingOk(s')
    requires s.tailPos + 1 < |s.ring| && id == s.ring[s.tailPos + 1]
    requires s' == SetBlock(s, id, b).(producer := s'.producer)
    ensures ConsumerOk(s')
  {
    assert s.frontBlock == s.ring[0] != id;
    assert s.tailPos > 0 ==> s.ring[1] != id;
  }

  lemma FirstElement<V>(b: Block<V>, v: V)
    requires BlockOk(b) && CellsOk(b, true, false) && Count(b) == 0 && b.localFront == b.front
    requires b.data[b.tail] == Some(v)
    ensures var b' := b.(tail := Inc(b.tail, |b.data|));
            BlockOk(b') && Count(b') == 1 && Contents(b') == [Some(v)] && CellsOk(b', false, false)
  {
    TailMoves(b, false);
  }

  lemma SecondPosition<V>(s: State<V>, s': State<V>, id: nat, b: Block<V>)
    requires Wf(s) && RingOk(s) && FillOk(s) && Wf(s') && HasNext(s, id)
    requires BlockOk(b) && Count(b) == 1 && b.next == s.blocks[id].next
    requires s.producer.PNextTail? && s.producer.nb == id
    requires s' == SetBlock(s, id, b).(producer := PNextPublish(s.producer.value, id))
    ensures RingOk(s') && FillOk(s') && HasNext(s', id)
  {
    RingFrame(s, s');
    assert s.ring[s.tailPos + 1] == id;
  }

  /** A private block at the end of the block table changes nothing that is linked. */
  ghost predicate Allocates<V>(s: State<V>, s': State<V>, b: Block<V>)
    requires Wf(s)
  {
    && s.producer.PAlloc? && s'.producer == PLink(s.producer.value, |s.blocks|)
    && s' == s.(blocks := s.blocks + [b], largest := s'.largest, producer := s'.producer)
    && InBounds(b) && b.next == s.blocks[s.tailBlock].next
  }

  lemma AllocKeepsRing<V>(s: State<V>, s': State<V>, b: Block<V>)
    requires Wf(s) && RingOk(s) && FillOk(s) && ConsumerOk(s) && Allocates(s, s', b)
    ensures Wf(s') && RingOk(s') && FillOk(s') && ConsumerOk(s')
  {
    RingFrame(s, s');
  }

  lemma AllocKeepsHistory<V>(s: State<V>, s': State<V>, b: Block<V>)
    requires Wf(s) && RingOk(s) && HistoryOk(s) && Allocates(s, s', b) && Wf(s') && RingOk(s')
    ensures HistoryOk(s')
  {
    QueueFrame(s.blocks, s'.blocks, Live(s));
  }

  lemma AllocKeepsCells<V>(s: State<V>, s': State<V>, b: Block<V>)
    requires Wf(s) && RingOk(s) && AllCells(s) && Allocates(s, s', b) && Wf(s') && RingOk(s')
    ensures AllCells(s')
  {
    LinkedCells(s, s', {});
  }

  lemma AllocKeepsInv<V>(s: State<V>, memory: bool)
    requires Inv(s) && s.producer.PAlloc?
    ensures Inv(StepProducer(s, memory))
  {
    var s' := StepProducer(s, memory);
    if s'.producer.PLink? {
      var size := NextBlockSize(s.largest, s.maxBlock);
      var b := NewBlock(size, s.producer.value, s.blocks[s.tailBlock].next);
      GrownSize(s.largest, s.maxBlock);
      NewBlockOk(size, s.producer.value, b.next);
      AllocKeepsRing(s, s', b);
      AllocKeepsHistory(s, s', b);
      AllocKeepsCells(s, s', b);
    } else {
      assert s.ring[0] == s.frontBlock;
      ProducerLooks(s, s', s.frontBlock, s.blocks[s.frontBlock].localFront);
    }
  }

  lemma GrownSize(largest: nat, maxBlock: nat)
    requires 2 <= largest && IsPow2(largest)
    ensures NextBlockSize(largest, maxBlock) >= largest && IsPow2(NextBlockSize(largest, maxBlock))
  {
    var k: nat :| largest == Pow2(k);
    assert largest * 2 == Pow2(k + 1);
  }

  lemma NewBlockOk<V>(size: nat, v: V, next: nat)
    requires size >= 2 && IsPow2(size)
    ensures var b := NewBlock(size, v, next);
            BlockOk(b) && Count(b) == 1 && Contents(b) == [Some(v)] && CellsOk(b, false, false)
  {
  }

  /** The ring with the new block behind the tail block, whether or not the consumer has moved on meanwhile. */
  function Linked<V>(s: State<V>, nb: nat): (ring: seq<nat>)
    requires s.tailPos < |s.ring|
    ensures |ring| == |s.ring| + 1
    ensures forall j | 0 <= j < |ring| ::
              ring[j] == if j <= s.tailPos then s.ring[j] else if j == s.tailPos + 1 then nb else s.ring[j - 1]
  {
    s.ring[..s.tailPos + 1] + [nb] + s.ring[s.tailPos + 1..]
  }

  ghost predicate Links<V>(s: State<V>, s': State<V>, nb: nat) {
    && s.tailPos < |s.ring| && s.tailBlock < |s.blocks|
    && s' == SetBlock(s, s.tailBlock, s.blocks[s.tailBlock].(next := nb)).(producer := s'.producer, ring := Linked(s, nb))
    && s.producer.PLink? && s.producer.nb == nb && s'.producer == PNextPublish(s.producer.value, nb)
  }

  lemma LinkedDistinct<V>(s: State<V>, nb: nat)
    requires s.tailPos < |s.ring| && nb !in s.ring
    requires forall i, j | 0 <= i < j < |s.ring| :: s.ring[i] != s.ring[j]
    ensures forall i, j | 0 <= i < j < |s.ring| + 1 :: Linked(s, nb)[i] != Linked(s, nb)[j]
  {
    var ring, p := Linked(s, nb), s.tailPos;
    forall i, j | 0 <= i < j < |ring| ensures ring[i] != ring[j] {
      if i != p + 1 && j != p + 1 {
        var a, b := if i <= p then i else i - 1, if j <= p then j else j - 1;
        assert a < b && s.ring[a] != s.ring[b];
      }
    }
  }

  lemma LinkKeepsRing<V>(s: State<V>, s': State<V>, nb: nat)
    requires Wf(s) && RingOk(s) && Wf(s') && Links(s, s', nb)
    requires nb !in s.ring && BlockOk(s.blocks[nb]) && s.blocks[nb].next == s.blocks[s.tailBlock].next
    ensures RingOk(s')
  {
    var p := s.tailPos;
    LinkedDistinct(s, nb);
    assert s.ring[p] == s.tailBlock && LinkOk(s.blocks, s.ring, p);
    forall j | 0 <= j < |s'.ring| ensures s'.ring[j] < |s'.blocks| && BlockOk(s'.blocks[s'.ring[j]]) {
      assert j == p + 1 || s'.ring[j] == s.ring[if j <= p then j else j - 1];
    }
    forall j | 0 <= j < |s'.ring| ensures LinkOk(s'.blocks, s'.ring, j) {
      if j < p {
        assert LinkOk(s.blocks, s.ring, j) && s.ring[j] != s.ring[p];
      } else if j > p + 1 {
        assert LinkOk(s.blocks, s.ring, j - 1) && s.ring[p] != s.ring[j - 1];
      }
    }
  }

  lemma LinkKeepsFill<V>(s: State<V>, s': State<V>, nb: nat)
    requires Wf(s) && RingOk(s) && FillOk(s) && TailFull(s) && Wf(s') && Links(s, s', nb) && RingOk(s')
    requires Count(s.blocks[nb]) == 1 && nb !in s.ring
    ensures FillOk(s') && HasNext(s', nb)
  {
    forall k | 0 <= k < |s.blocks| ensures Count(s'.blocks[k]) == Count(s.blocks[k]) && |s'.blocks[k].data| == |s.blocks[k].data| {}
    forall j | s'.tailPos < j < |s'.ring|
      ensures Count(s'.blocks[s'.ring[j]]) == if s'.producer.PNextPublish? && s'.ring[j] == s'.producer.nb then 1 else 0
    {
      if j > s.tailPos + 1 {
        assert s'.ring[j] == s.ring[j - 1];
      }
    }
  }

  lemma LinkKeepsHistory<V>(s: State<V>, s': State<V>, nb: nat)
    requires Wf(s) && RingOk(s) && HistoryOk(s) && Wf(s') && Links(s, s', nb) && RingOk(s')
    ensures HistoryOk(s')
  {
    assert Live(s') == Live(s);
    QueueFrame(s.blocks, s'.blocks, Live(s));
  }

  lemma LinkKeepsCells<V>(s: State<V>, s': State<V>, nb: nat)
    requires Wf(s) && RingOk(s) && AllCells(s) && Wf(s') && Links(s, s', nb) && nb < |s.blocks| && nb !in s.ring
    requires CellsOk(s.blocks[nb], false, false)
    ensures AllCells(s')
  {
    assert s.ring[0] == s.frontBlock;
    LinkedCells(s, s', {nb});
  }

  lemma LinkKeepsConsumer<V>(s: State<V>, s': State<V>, nb: nat)
    requires Wf(s) && RingOk(s) && ConsumerOk(s) && Wf(s') && Links(s, s', nb) && RingOk(s')
    ensures ConsumerOk(s')
  {
  }

  lemma LinkKeepsInv<V>(s: State<V>)
    requires Inv(s) && s.producer.PLink?
    ensures Inv(StepProducer(s, true))
  {
    var s', nb := StepProducer(s, true), s.producer.nb;
    LinkKeepsRing(s, s', nb);
    LinkKeepsFill(s, s', nb);
    LinkKeepsHistory(s, s', nb);
    LinkKeepsCells(s, s', nb);
    LinkKeepsConsumer(s, s', nb);
    assert Contents(s'.blocks[nb]) == Contents(s.blocks[nb]);
  }

  lemma NextPublishKeepsRing<V>(s: State<V>, s': State<V>, nb: nat)
    requires Wf(s) && RingOk(s) && FillOk(s) && HasNext(s, nb) && nb < |s.blocks| && Count(s.blocks[nb]) == 1
    requires s.producer.PNextPublish? && s.producer.nb == nb && s'.producer.PReturned?
    requires s' == s.(tailBlock := nb, tailPos := s.tailPos + 1, producer := s'.producer, sent := s'.sent)
    ensures Wf(s') && RingOk(s') && FillOk(s')
  {
    assert s.ring[s.tailPos] == s.tailBlock;
  }

  lemma NextPublishKeepsHistory<V>(s: State<V>, s': State<V>, nb: nat, v: V)
    requires Wf(s) && RingOk(s) && HistoryOk(s) && HasNext(s, nb) && nb < |s.blocks| && Contents(s.blocks[nb]) == [Some(v)]
    requires s' == s.(tailBlock := nb, tailPos := s.tailPos + 1, producer := s'.producer, sent := s.sent + [v])
    requires Wf(s') && RingOk(s')
    ensures Cells(s') == Cells(s) + [Some(v)] && HistoryOk(s')
  {
    assert Live(s') == Live(s) + [nb];
    QueueAppend(s.blocks, Live(s), nb);
    HoldsSent(Cells(s), s.sent, s.received, if s.consumer.CAdvance? then 1 else 0, v);
  }

  /** The store of `tailBlock` makes the element of the next block part of the queue. */
  lemma NextPublishKeepsInv<V>(s: State<V>)
    requires Inv(s) && s.producer.PNextPublish?
    ensures Inv(StepProducer(s, true))
  {
    NextPublishTo(s, StepProducer(s, true), s.producer.nb, s.producer.value);
  }

  lemma NextPublishTo<V>(s: State<V>, s': State<V>, nb: nat, v: V)
    requires Inv(s) && s.producer == PNextPublish(v, nb) && s'.producer.PReturned?
    requires s' == s.(tailBlock := nb, tailPos := s.tailPos + 1, producer := s'.producer, sent := s.sent + [v])
    ensures Inv(s')
  {
    NextPublishKeepsRing(s, s', nb);
    NextPublishKeepsHistory(s, s', nb, v);
    LinkedCells(s, s', {});
  }

  // ---------------------------------------------------------------------------------------------
  // Steps of the consumer that advance to the next block, empty a cell or move a front
  // ---------------------------------------------------------------------------------------------

  /** The list of blocks as seen from the second block. */
  function Rotated(ring: seq<nat>): (r: seq<nat>)
    requires ring != []
    ensures |r| == |ring|
    ensures forall j | 0 <= j < |ring| :: r[j] == ring[if j + 1 < |ring| then j + 1 else 0]
  {
    ring[1..] + [ring[0]]
  }

  ghost predicate MovesOn<V>(s: State<V>, s': State<V>) {
    && s.ring != [] && 0 < s.tailPos < |s.ring|
    && s' == s.(frontBlock := s.ring[1], consumer := CTake, ring := Rotated(s.ring), tailPos := s.tailPos - 1)
  }

  lemma MoveOnKeepsRing<V>(s: State<V>, s': State<V>)
    requires Wf(s) && RingOk(s) && Wf(s') && MovesOn(s, s')
    ensures RingOk(s')
  {
    var n := |s.ring|;
    forall i, j | 0 <= i < j < n ensures s'.ring[i] != s'.ring[j] {
      if j + 1 < n { assert s.ring[i + 1] != s.ring[j + 1]; } else { assert s.ring[0] != s.ring[i + 1]; }
    }
    forall j | 0 <= j < n ensures LinkOk(s'.blocks, s'.ring, j) {
      var i := if j + 1 < n then j + 1 else 0;
      assert LinkOk(s.blocks, s.ring, i) && s'.ring[j] == s.ring[i];
    }
  }

  lemma MoveOnKeepsFill<V>(s: State<V>, s': State<V>)
    requires Wf(s) && RingOk(s) && FillOk(s) && Wf(s') && RingOk(s') && MovesOn(s, s')
    requires Count(s.blocks[s.ring[0]]) == 0
    requires s.producer.PNextPublish? ==> s.producer.nb != s.ring[0]
    ensures FillOk(s')
  {
    forall j | 0 < j < s'.tailPos ensures Count(s'.blocks[s'.ring[j]]) == |s'.blocks[s'.ring[j]].data| - 1 {
      assert s'.ring[j] == s.ring[j + 1];
    }
    forall j | s'.tailPos < j < |s'.ring|
      ensures Count(s'.blocks[s'.ring[j]]) == if s'.producer.PNextPublish? && s'.ring[j] == s'.producer.nb then 1 else 0
    {
      assert s'.ring[j] == s.ring[if j + 1 < |s.ring| then j + 1 else 0];
    }
  }

  lemma MoveOnKeepsHistory<V>(s: State<V>, s': State<V>)
    requires Wf(s) && RingOk(s) && HistoryOk(s) && Wf(s') && RingOk(s') && MovesOn(s, s')
    requires Count(s.blocks[s.ring[0]]) == 0 && !s.consumer.CAdvance?
    ensures Cells(s') == Cells(s) && HistoryOk(s')
  {
    assert Live(s)[1..] == Live(s');
    assert Contents(s.blocks[s.ring[0]]) == [];
  }

  lemma MoveOnKeepsProducer<V>(s: State<V>, s': State<V>)
    requires Wf(s) && RingOk(s) && ProducerOk(s) && Wf(s') && RingOk(s') && MovesOn(s, s')
    ensures ProducerOk(s')
  {
    if s.producer.PLink? {
      assert forall j | 0 <= j < |s'.ring| :: s'.ring[j] in s.ring;
    }
  }

  lemma MoveOnKeepsInv<V>(s: State<V>)
    requires Inv(s) && s.consumer.CMoveOn?
    ensures Inv(StepConsumer(s))
  {
    var s' := StepConsumer(s);
    MoveOnKeepsRing(s, s');
    MoveOnKeepsFill(s, s');
    MoveOnKeepsHistory(s, s');
    MoveOnKeepsProducer(s, s');
    LinkedCells(s, s', {});
  }

  /** Only the front block changes, and of it only what the consumer writes. */
  ghost predicate FrontBlockStep<V>(s: State<V>, s': State<V>, b: Block<V>)
    requires Wf(s)
  {
    var fb := s.blocks[s.frontBlock];
    && BlockOk(b) && b.tail == fb.tail && b.localFront == fb.localFront && b.next == fb.next && |b.data| == |fb.data|
    && s' == SetBlock(s, s.frontBlock, b).(consumer := s'.consumer, received := s'.received)
  }

  lemma FrontBlockKeepsRing<V>(s: State<V>, s': State<V>, b: Block<V>)
    requires Wf(s) && RingOk(s) && FillOk(s) && Wf(s') && FrontBlockStep(s, s', b)
    ensures RingOk(s') && FillOk(s')
  {
    RingFrame(s, s');
  }

  lemma FrontBlockKeepsProducer<V>(s: State<V>, s': State<V>, b: Block<V>)
    requires Wf(s) && RingOk(s) && ProducerOk(s) && Wf(s') && RingOk(s') && FrontBlockStep(s, s', b)
    requires s.producer.PPublish? && s.frontBlock == s.tailBlock ==> b.data[b.tail] == s.blocks[s.frontBlock].data[b.tail]
    ensures ProducerOk(s')
  {
  }

  lemma FrontBlockCells<V>(s: State<V>)
    requires Wf(s) && RingOk(s)
    ensures Cells(s) == Contents(s.blocks[s.frontBlock]) + Queue(s.blocks, Live(s)[1..])
  {
  }

  /** The front block after its first cell lost its element, and after that cell was left behind. */
  lemma FrontCellGone<V>(s: State<V>, b: Block<V>)
    requires Wf(s) && RingOk(s) && InBounds(b) && Count(s.blocks[s.frontBlock]) > 0
    ensures Cells(s) != [] && Cells(s)[0] == s.blocks[s.frontBlock].data[s.blocks[s.frontBlock].front]
    ensures Contents(b) == [None] + Contents(s.blocks[s.frontBlock])[1..] ==>
      Contents(b) + Queue(s.blocks, Live(s)[1..]) == [None] + Cells(s)[1..]
    ensures Contents(b) == Contents(s.blocks[s.frontBlock])[1..] ==>
      Contents(b) + Queue(s.blocks, Live(s)[1..]) == Cells(s)[1..]
  {
    FrontBlockCells(s);
  }

  lemma FrontBlockHistory<V>(s: State<V>, s': State<V>, b: Block<V>)
    requires Wf(s) && RingOk(s) && Wf(s') && RingOk(s') && FrontBlockStep(s, s', b)
    ensures Cells(s') == Contents(b) + Queue(s.blocks, Live(s)[1..])
  {
    FrontBlockCells(s');
    QueueFrame(s.blocks, s'.blocks, Live(s)[1..]);
  }

  lemma TakeCell<V>(b: Block<V>, written: bool)
    requires BlockOk(b) && CellsOk(b, written, false) && Count(b) > 0
    ensures b.data[b.front].Some?
    ensures var b' := b.(data := b.data[b.front := None]);
            BlockOk(b') && CellsOk(b', written, true) && Contents(b') == [None] + Contents(b)[1..]
  {
    var b' := b.(data := b.data[b.front := None]);
    forall i | 0 < i < Count(b) ensures Contents(b')[i] == Contents(b)[i] {}
    assert Contents(b')[0] == None;
    assert b.data[b.front].Some?;
    forall c | 0 <= c < |b'.data| && c != b.front ensures b'.data[c] == b.data[c] {}
  }

  lemma HoldsTake<V>(q: seq<Option<V>>, sent: seq<V>, received: seq<V>, v: V)
    requires Holds(q, sent, received, 0) && q != [] && q[0] == Some(v)
    ensures Holds([None] + q[1..], sent, received + [v], 1)
  {
  }

  /** What the two last steps of `try_dequeue` keep, given what they do to the cells of the front block. */
  lemma FrontBlockKeepsInv<V>(s: State<V>, s': State<V>, b: Block<V>)
    requires Inv(s) && Wf(s') && FrontBlockStep(s, s', b)
    requires CellsOk(b, Written(s, s.frontBlock), s'.consumer.CAdvance?)
    requires s.producer.PPublish? && s.frontBlock == s.tailBlock ==> b.data[b.tail] == s.blocks[s.frontBlock].data[b.tail]
    requires s'.consumer.CReturned? || (s'.consumer.CAdvance? && b.front != b.localTail)
    requires s'.consumer.CReturned? ==> s'.consumer.result.Some? && LastReceived(s', s'.consumer.result.value)
    requires s'.consumer.CAdvance? ==> LastReceived(s', s'.consumer.value)
    requires Holds(Contents(b) + Queue(s.blocks, Live(s)[1..]), s.sent, s'.received, if s'.consumer.CAdvance? then 1 else 0)
    ensures Inv(s')
  {
    FrontBlockKeepsRing(s, s', b);
    FrontBlockKeepsProducer(s, s', b);
    FrontBlockHistory(s, s', b);
    OneBlockCells(s, s', s.frontBlock);
  }

  /** The consumer finds an element in the front cell, and it is the oldest one not yet received. */
  lemma TakeKeepsInv<V>(s: State<V>)
    requires Inv(s) && s.consumer.CTake?
    ensures s.blocks[s.frontBlock].data[s.blocks[s.frontBlock].front].Some?
    ensures Inv(StepConsumer(s))
  {
    var id := s.frontBlock;
    var b := s.blocks[id];
    assert id == s.ring[0] && CellsAt(s, id);
    TakeCell(b, Written(s, id));
    var b' := b.(data := b.data[b.front := None]);
    FrontCellGone(s, b');
    HoldsTake(Cells(s), s.sent, s.received, b.data[b.front].value);
    FrontBlockKeepsInv(s, StepConsumer(s), b');
  }

  lemma FrontMoves<V>(b: Block<V>, written: bool)
    requires BlockOk(b) && CellsOk(b, written, true) && b.front != b.localTail
    ensures var b' := b.(front := Inc(b.front, |b.data|));
            && BlockOk(b') && CellsOk(b', written, false) && Contents(b') == Contents(b)[1..]
  {
    var b' := b.(front := Inc(b.front, |b.data|));
    var size := |b.data|;
    assert Count(b') == Count(b) - 1;
    forall i | 0 <= i < Count(b') ensures Contents(b')[i] == Contents(b)[i + 1] {
      assert Pos(b'.front, i, size) == Pos(b.front, i + 1, size);
    }
    forall c | 0 <= c < size
      ensures Dist(b'.front, c, size) < Count(b') <==> Dist(b.front, c, size) < Count(b) && c != b.front
    {}
  }

  lemma HoldsAdvance<V>(q: seq<Option<V>>, sent: seq<V>, received: seq<V>)
    requires Holds(q, sent, received, 1)
    ensures Holds(q[1..], sent, received, 0)
  {
  }

  lemma FrontAdvances<V>(s: State<V>, b: Block<V>)
    requires Wf(s) && RingOk(s) && AllCells(s) && HistoryOk(s) && ConsumerOk(s) && s.consumer.CAdvance?
    requires b == s.blocks[s.frontBlock].(front := Inc(s.blocks[s.frontBlock].front, |s.blocks[s.frontBlock].data|))
    ensures BlockOk(b) && CellsOk(b, Written(s, s.frontBlock), false)
    ensures Holds(Contents(b) + Queue(s.blocks, Live(s)[1..]), s.sent, s.received, 0)
  {
    assert s.frontBlock == s.ring[0] && CellsAt(s, s.frontBlock);
    FrontMoves(s.blocks[s.frontBlock], Written(s, s.frontBlock));
    FrontCellGone(s, b);
    HoldsAdvance(Cells(s), s.sent, s.received);
  }

  lemma AdvanceKeepsInv<V>(s: State<V>)
    requires Inv(s) && s.consumer.CAdvance?
    ensures Inv(StepConsumer(s))
  {
    var b := s.blocks[s.frontBlock];
    var b' := b.(front := Inc(b.front, |b.data|));
    FrontAdvances(s, b');
    FrontBlockKeepsInv(s, StepConsumer(s), b');
  }

  // ---------------------------------------------------------------------------------------------
  // Every step
  // ---------------------------------------------------------------------------------------------

  lemma StepProducerKeepsInv<V>(s: State<V>, memory: bool)
    requires Inv(s)
    ensures Inv(StepProducer(s, memory))
  {
    match s.producer
    case PIdle =>
    case PReturned(_) =>
    case PReload(_, _) => ReloadFrontKeepsInv(s);
    case PConstruct(_) => ConstructKeepsInv(s);
    case PPublish(_) => PublishKeepsInv(s);
    case PReadFrontBlock(_, _) => ReadFrontBlockKeepsInv(s);
    case PNextFront(_, _) => NextFrontKeepsInv(s);
    case PNextConstruct(_, _) => NextConstructKeepsInv(s);
    case PNextTail(_, _) => NextTailKeepsInv(s);
    case PAlloc(_) => AllocKeepsInv(s, memory);
    case PLink(_, _) => LinkKeepsInv(s);
    case PNextPublish(_, _) => NextPublishKeepsInv(s);
  }

  lemma StepConsumerKeepsInv<V>(s: State<V>)
    requires Inv(s)
    ensures Inv(StepConsumer(s))
  {
    match s.consumer
    case CIdle =>
    case CReturned(_) =>
    case CReloadTail => LookKeepsInv(s);
    case CReadTailBlock => LookKeepsInv(s);
    case CRecheck => LookKeepsInv(s);
    case CNext => LoadNextKeepsInv(s);
    case CNextTail(_) => LoadNextTailKeepsInv(s);
    case CMoveOn(_) => MoveOnKeepsInv(s);
    case CTake => TakeKeepsInv(s);
    case CAdvance(_) => AdvanceKeepsInv(s);
  }

  /** Any step of either thread, and any call, keeps the invariant. */
  lemma NextKeepsInv<V>(s: State<V>, a: Action<V>)
    requires Inv(s)
    ensures Inv(Next(s, a))
  {
    match a
    case CallEnqueue(v, canAlloc) => if s.producer.PIdle? || s.producer.PReturned? { CallEnqueueKeepsInv(s, v, canAlloc); }
    case CallDequeue => if s.consumer.CIdle? || s.consumer.CReturned? { CallDequeueKeepsInv(s); }
    case ProducerStep(memory) => StepProducerKeepsInv(s, memory);
    case ConsumerStep => StepConsumerKeepsInv(s);
  }
}
