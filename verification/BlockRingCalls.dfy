/**
 The calls of the two threads of the ring: what they were given, what they returned, and that each of them ends after
 a few steps of its own thread, whatever the other thread does.
 */
module BlockRingCalls {
  import opened Bits
  import opened Options
  import opened BlockRing
  import opened BlockRingRuns

  // ---------------------------------------------------------------------------------------------
  // What the calls were given and what they returned
  // ---------------------------------------------------------------------------------------------

  datatype Request<V> = Request(value: V, canAlloc: bool)

  predicate ProducerRests<V>(p: Producer<V>) {
    p.PIdle? || p.PReturned?
  }

  predicate ConsumerRests<V>(c: Consumer<V>) {
    c.CIdle? || c.CReturned?
  }

  /** The arguments of the last enqueue call that was made before instant i. */
  ghost function Asked<V>(run: seq<State<V>>, sched: seq<Action<V>>, i: nat): Option<Request<V>>
    requires i < |run| == |sched| + 1
  {
    if i == 0 then None
    else if sched[i - 1].CallEnqueue? && ProducerRests(run[i - 1].producer) then Some(Request(sched[i - 1].value, sched[i - 1].canAlloc))
    else Asked(run, sched, i - 1)
  }

  /** The arguments of the enqueue calls that returned true before instant i, in the order of their returns. */
  ghost function Accepted<V>(run: seq<State<V>>, sched: seq<Action<V>>, i: nat): seq<V>
    requires i < |run| == |sched| + 1
  {
    if i == 0 then []
    else if !ProducerRests(run[i - 1].producer) && run[i].producer == PReturned(true) && Asked(run, sched, i - 1).Some? then
      Accepted(run, sched, i - 1) + [Asked(run, sched, i - 1).value.value]
    else Accepted(run, sched, i - 1)
  }

  /** The elements that dequeue calls returned before instant i, in the order of their returns. */
  ghost function Handed<V>(run: seq<State<V>>, i: nat): seq<V>
    requires i < |run|
  {
    if i == 0 then []
    else if !ConsumerRests(run[i - 1].consumer) && run[i].consumer.CReturned? && run[i].consumer.result.Some? then
      Handed(run, i - 1) + [run[i].consumer.result.value]
    else Handed(run, i - 1)
  }

  /** A producer inside its call has the arguments of the call. */
  ghost predicate HasRequest<V>(p: Producer<V>, asked: Option<Request<V>>) {
    match p
    case PIdle => true
    case PReturned(_) => true
    case PReload(v, canAlloc) => asked == Some(Request(v, canAlloc))
    case PReadFrontBlock(v, canAlloc) => asked == Some(Request(v, canAlloc))
    case PAlloc(v) => asked == Some(Request(v, true))
    case _ => asked.Some? && asked.value.value == p.value
  }

  /** What the consumer has moved out and not yet returned is the element it holds. */
  ghost predicate HandedOk<V>(s: State<V>, handed: seq<V>) {
    s.received == if s.consumer.CAdvance? then handed + [s.consumer.value] else handed
  }

  lemma StepKeepsRequest<V>(s: State<V>, a: Action<V>, asked: Option<Request<V>>)
    requires Wf(s) && HasRequest(s.producer, asked)
    ensures var s' := Next(s, a);
            var asked' := if a.CallEnqueue? && ProducerRests(s.producer) then Some(Request(a.value, a.canAlloc)) else asked;
            && HasRequest(s'.producer, asked')
            && s'.sent == if !ProducerRests(s.producer) && s'.producer == PReturned(true) then s.sent + [asked.value.value] else s.sent
    ensures !ProducerRests(s.producer) ==> asked.Some?
  {
  }

  lemma StepKeepsHanded<V>(s: State<V>, a: Action<V>, handed: seq<V>)
    requires Wf(s) && HandedOk(s, handed)
    ensures var c := Next(s, a).consumer;
            HandedOk(Next(s, a), if !ConsumerRests(s.consumer) && c.CReturned? && c.result.Some? then handed + [c.result.value] else handed)
  {
  }

  lemma {:induction false} CallsOfRun<V>(run: seq<State<V>>, sched: seq<Action<V>>, i: nat)
    requires IsRun(run, sched) && i < |run|
    ensures HasRequest(run[i].producer, Asked(run, sched, i))
    ensures run[i].sent == Accepted(run, sched, i) && HandedOk(run[i], Handed(run, i))
  {
    if i > 0 {
      CallsOfRun(run, sched, i - 1);
      assert StepAt(run, sched, i - 1);
      StepKeepsRequest(run[i - 1], sched[i - 1], Asked(run, sched, i - 1));
      StepKeepsHanded(run[i - 1], sched[i - 1], Handed(run, i - 1));
    }
  }

  /** The elements that dequeue calls have returned are, in order, the first ones for which enqueue calls returned true. */
  lemma CallsAreFifo<V>(run: seq<State<V>>, sched: seq<Action<V>>, i: nat)
    requires IsRun(run, sched) && i < |run|
    ensures Handed(run, i) <= Accepted(run, sched, i)
    ensures run[i].sent == Accepted(run, sched, i)
    ensures run[i].received == if run[i].consumer.CAdvance? then Handed(run, i) + [run[i].consumer.value] else Handed(run, i)
  {
    CallsOfRun(run, sched, i);
    RunIsFifo(run, sched, i);
  }

  /** An enqueue that may allocate returns false only if an allocation fails. */
  lemma RefusedEnqueueCouldNotAllocate<V>(run: seq<State<V>>, sched: seq<Action<V>>, i: nat)
    requires IsRun(run, sched) && i < |sched|
    requires !run[i].producer.PReturned? && run[i + 1].producer == PReturned(false)
    ensures Asked(run, sched, i).Some?
    ensures Asked(run, sched, i).value.canAlloc ==> sched[i] == ProducerStep(false)
  {
    CallsOfRun(run, sched, i);
    SizesAt(run, sched, i);
    assert StepAt(run, sched, i);
    RefusesStep(run[i], sched[i], Asked(run, sched, i));
  }

  lemma SizesAt<V>(run: seq<State<V>>, sched: seq<Action<V>>, i: nat)
    requires IsRun(run, sched) && i < |run|
    ensures run[i].largest >= 2
  {
    RunKeepsInv(run, sched, i);
  }

  lemma RefusesStep<V>(s: State<V>, a: Action<V>, asked: Option<Request<V>>)
    requires Wf(s) && s.largest >= 2 && HasRequest(s.producer, asked)
    requires !s.producer.PReturned? && Next(s, a).producer == PReturned(false)
    ensures asked.Some? && (asked.value.canAlloc ==> a == ProducerStep(false))
  {
  }

  // ---------------------------------------------------------------------------------------------
  // Every call ends
  // ---------------------------------------------------------------------------------------------

  /** How many steps of its own thread a dequeue takes at most until it returns. */
  function DequeueSteps<V>(c: Consumer<V>): nat {
    match c
    case CReloadTail => 8
    case CReadTailBlock => 7
    case CRecheck => 6
    case CNext => 5
    case CNextTail(_) => 4
    case CMoveOn(_) => 3
    case CTake => 2
    case CAdvance(_) => 1
    case _ => 0
  }

  function EnqueueSteps<V>(p: Producer<V>): nat {
    match p
    case PReload(_, _) => 6
    case PReadFrontBlock(_, _) => 5
    case PNextFront(_, _) => 4
    case PNextConstruct(_, _) => 3
    case PNextTail(_, _) => 2
    case PAlloc(_) => 3
    case PLink(_, _) => 2
    case PNextPublish(_, _) => 1
    case PConstruct(_) => 2
    case PPublish(_) => 1
    case _ => 0
  }

  /** A consumer about to move an element out finds one. */
  ghost predicate CellIsThere<V>(s: State<V>) {
    Wf(s) && (s.consumer.CTake? ==> s.blocks[s.frontBlock].data[s.blocks[s.frontBlock].front].Some?)
  }

  lemma CellIsThereAt<V>(run: seq<State<V>>, sched: seq<Action<V>>, i: nat)
    requires IsRun(run, sched) && i < |run|
    ensures CellIsThere(run[i])
  {
    CellsAreUsedSafely(run, sched, i);
  }

  lemma DequeueComesNearer<V>(s: State<V>, a: Action<V>)
    requires CellIsThere(s) && !ConsumerRests(s.consumer)
    ensures a.ConsumerStep? ==> DequeueSteps(Next(s, a).consumer) < DequeueSteps(s.consumer)
    ensures !a.ConsumerStep? ==> Next(s, a).consumer == s.consumer
  {
  }

  lemma EnqueueComesNearer<V>(s: State<V>, a: Action<V>)
    requires Wf(s) && !ProducerRests(s.producer)
    ensures a.ProducerStep? ==> EnqueueSteps(Next(s, a).producer) < EnqueueSteps(s.producer)
    ensures !a.ProducerStep? ==> Next(s, a).producer == s.producer
  {
  }

  function ConsumerSteps<V>(sched: seq<Action<V>>): nat {
    if sched == [] then 0 else ConsumerSteps(sched[..|sched| - 1]) + if sched[|sched| - 1].ConsumerStep? then 1 else 0
  }

  function ProducerSteps<V>(sched: seq<Action<V>>): nat {
    if sched == [] then 0 else ProducerSteps(sched[..|sched| - 1]) + if sched[|sched| - 1].ProducerStep? then 1 else 0
  }

  /** A dequeue that has not returned between two instants has made fewer than nine steps between them. */
  lemma {:induction false} DequeueIsWaitFree<V>(run: seq<State<V>>, sched: seq<Action<V>>, m: nat, i: nat)
    requires IsRun(run, sched) && m <= i < |run| && forall j | m <= j < i :: !ConsumerRests(run[j].consumer)
    ensures ConsumerSteps(sched[m..i]) + DequeueSteps(run[i].consumer) <= DequeueSteps(run[m].consumer) <= 8
    decreases i
  {
    if m < i {
      DequeueIsWaitFree(run, sched, m, i - 1);
      CellIsThereAt(run, sched, i - 1);
      assert StepAt(run, sched, i - 1);
      DequeueComesNearer(run[i - 1], sched[i - 1]);
      assert sched[m..i][..i - m - 1] == sched[m..i - 1];
    }
  }

  /** An enqueue that has not returned between two instants has made fewer than seven steps between them. */
  lemma {:induction false} EnqueueIsWaitFree<V>(run: seq<State<V>>, sched: seq<Action<V>>, m: nat, i: nat)
    requires IsRun(run, sched) && m <= i < |run| && forall j | m <= j < i :: !ProducerRests(run[j].producer)
    ensures ProducerSteps(sched[m..i]) + EnqueueSteps(run[i].producer) <= EnqueueSteps(run[m].producer) <= 6
    decreases i
  {
    if m < i {
      EnqueueIsWaitFree(run, sched, m, i - 1);
      assert StepAt(run, sched, i - 1);
      EnqueueComesNearer(run[i - 1], sched[i - 1]);
      assert sched[m..i][..i - m - 1] == sched[m..i - 1];
    }
  }

  /** A call that is made while its thread rests begins at once. */
  lemma CallsBegin<V>(run: seq<State<V>>, sched: seq<Action<V>>, i: nat)
    requires IsRun(run, sched) && i < |sched|
    ensures sched[i].CallEnqueue? && ProducerRests(run[i].producer) ==>
      !ProducerRests(run[i + 1].producer) && Asked(run, sched, i + 1) == Some(Request(sched[i].value, sched[i].canAlloc))
    ensures sched[i].CallDequeue? && ConsumerRests(run[i].consumer) ==> !ConsumerRests(run[i + 1].consumer)
  {
    assert StepAt(run, sched, i);
  }

  // ---------------------------------------------------------------------------------------------
  // The sizes of the blocks
  // ---------------------------------------------------------------------------------------------

  /** The size of new blocks has doubled with each block allocated, as long as it was below the greatest one. */
  ghost predicate HasDoubled<V>(first: State<V>, s: State<V>, j: nat) {
    && |first.blocks| + j <= |s.blocks| && s.maxBlock == first.maxBlock && s.largest == first.largest * Pow2(j)
    && (|first.blocks| + j == |s.blocks| || s.largest >= s.maxBlock) && (j > 0 ==> s.largest < 2 * s.maxBlock)
  }

  lemma StepDoubles<V>(first: State<V>, s: State<V>, a: Action<V>, j: nat) returns (k: nat)
    requires Wf(s) && s.largest >= 2 && HasDoubled(first, s, j)
    ensures HasDoubled(first, Next(s, a), k)
  {
    var s' := Next(s, a);
    k := if s'.largest > s.largest then j + 1 else j;
    if s'.largest > s.largest {
      assert first.largest * Pow2(j + 1) == (first.largest * Pow2(j)) * 2;
    }
  }

  lemma {:induction false} BlocksDouble<V>(run: seq<State<V>>, sched: seq<Action<V>>, i: nat) returns (j: nat)
    requires IsRun(run, sched) && i < |run|
    ensures HasDoubled(run[0], run[i], j)
  {
    if i == 0 {
      j := 0;
    } else {
      j := BlocksDouble(run, sched, i - 1);
      SizesAt(run, sched, i - 1);
      assert StepAt(run, sched, i - 1);
      j := StepDoubles(run[0], run[i - 1], sched[i - 1], j);
    }
  }

  /** A block is allocated only by an enqueue that may do so and has seen the ring full, one at a time, with the size due. */
  lemma AllocatesWhenFull<V>(run: seq<State<V>>, sched: seq<Action<V>>, i: nat, n: nat, size: nat, maxSize: nat)
    requires IsRun(run, sched) && AtLeast(run[0], n, size) && Roomy(n, size, maxSize) && i < |sched|
    requires |run[i + 1].blocks| != |run[i].blocks|
    ensures SawFull(run, i, maxSize) && Asked(run, sched, i).Some? && Asked(run, sched, i).value.canAlloc
    ensures |run[i + 1].blocks| == |run[i].blocks| + 1 && |run[i + 1].blocks[|run[i].blocks|].data| == run[i + 1].largest
  {
    RunIsTrace(run, sched);
    CallsOfRun(run, sched, i);
    assert StepAt(run, sched, i);
    AllocatesStep(run[i], sched[i]);
    AllocationSawFull(run, sched, i, n, size, maxSize);
  }

  lemma AllocatesStep<V>(s: State<V>, a: Action<V>)
    requires Wf(s) && |Next(s, a).blocks| != |s.blocks|
    ensures s.producer.PAlloc? && |Next(s, a).blocks| == |s.blocks| + 1
    ensures |Next(s, a).blocks[|s.blocks|].data| == Next(s, a).largest
  {
  }
}
