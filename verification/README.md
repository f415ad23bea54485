# JODA core, verified

A Dafny model of the parts of the JODA core in which the reasoning is hard: its concurrent queues and scheduler,
its adaptive indices, the execution of queries over them, and the texts and pages that leave the system. Each file
is one module. The command `dafny verify dfyconfig.toml` checks the whole project.

| module | what it models |
|---|---|
| `MpmcQueue`, `MpmcCalls`, `MpmcAlone` | the bounded multi-producer multi-consumer queue, one atomic access of one thread at a time, over all runs; what its calls return, and that they return |
| `BlockRing`, `BlockRingRuns`, `BlockRingCalls`, `Bits` | the single-producer single-consumer ring of blocks, its steps, its runs, its calls and its constructor |
| `Semaphore`, `SemaphoreAlone` | the counting semaphore and the retry loops of the blocking queue around it; when a thread gets its permits, and when it gives up |
| `SharedQueue` | the queue with registered producers that is finished when all of them are |
| `ThreadPool` | the scheduler that starts the tasks of stages on a fixed number of threads |
| `AdaptiveTrie` | the string index that splits and compresses its nodes as searches come |
| `Doubles`, `AdaptiveHistogram` | the number index that splits crowded buckets as searches come, with 64-bit, 32-bit and double arithmetic |
| `MixedExecutor` | the execution of predicates of which the index knows only some leaves |
| `Expressions`, `Parser`, `ParserRoundTrip`, `ParserChains`, `ParserStates` | the printed form of predicates, its grammar, and the states that build predicates while parsing |
| `QueryCaching` | the cache of results under printed predicates |
| `Aggregators`, `AggregatorObjects` | COUNT, DISTINCT, COLLECT and GROUP as values and as objects that workers fill and one merger merges |
| `PathsReader` | the event handler that lists the paths of a document |
| `Pagination` | ranges of documents over containers, the chunked reply, and the bulks of the export |

Concurrent code is a state machine: a schedule mixes the steps of any number of threads in any way, and the results
hold after every schedule. Objects whose methods update fields are classes, and their loops are loops. What comes
from outside is a parameter: the outcomes of weak exchanges, timeouts and allocations, what the inner queue hands
out, which queries the index answers, the values of expressions on a document, which functions accept which
arguments, and the results of tasks.

## Findings

Properties that the code does not have, with an input and the condition under which it has them.

- **Equality search in the trie** (`libs/joda/core/modules/indexing/src/adaptive/AdaptiveTrie.cpp:83-87`). With the
  only document "ab", a search for "ab" compresses its node; a search for "a" then returns it
  (`AdaptiveTrie.LongerStringFound`). `AdaptiveTrie.FindEq` is exact if and only if, before the call, no node for the
  string ends in a longer path with exact matches.
- **Prefix search in the trie** (`libs/joda/core/modules/indexing/src/adaptive/AdaptiveTrie.cpp:118-119`). With the
  only document "a", the search for strings that start with "a" returns nothing (`AdaptiveTrie.ExactMatchSkipped`).
  `AdaptiveTrie.FindStartsWith` is exact if and only if not: some document has just that string, none a longer one,
  and the string is at, or will branch off, a node that is virtual before the call.
- **Width of the buckets** (`libs/joda/core/modules/indexing/src/adaptive/AdaptiveHistogram.cpp:20`, `:77`, `:160`).
  With 100 buckets, the range 0 to 9007199254741000 rounds to a width that is too small, and the maximum is looked up
  in bucket 100 (`AdaptiveHistogram.LargeRangeIsNotSplittable`). `AdaptiveHistogram.Split`,
  `AdaptiveHistogram.FirstSplit` and `AdaptiveHistogram.AdaptiveHistogram.InitialSplit` fail if and only if range or
  width overflow or the buckets do not reach the maximum; a range of at most 2 to the power of 53 always fits.
- **Values outside the buckets** (`libs/joda/core/modules/indexing/src/adaptive/AdaptiveHistogram.cpp:232-235`,
  `:280-283`). With 100 buckets for the values 0 and 199 (`AdaptiveHistogram.BuildTwoDocs`), `findLess` for 200 looks
  up a bucket behind the last one, `findLess` for 1 one behind the only sub-bucket of the first bucket, and `findMore`
  for -2 one before the first bucket (`AdaptiveHistogram.ValuesBehindTheEndFail`,
  `AdaptiveHistogram.ValuesBeforeTheBeginningFail`). `AdaptiveHistogram.FindLess` and `AdaptiveHistogram.FindMore`
  give the exact condition on the tree before the call.
- **Bucket numbers as `int`** (`libs/joda/core/modules/indexing/src/adaptive/AdaptiveHistogram.cpp:232`, `:280`). With
  values 0 and 199 a search for values below 2 to the power of 33 misses the 199
  (`AdaptiveHistogram.WrappedBucketNumber`). The result is exact if and only if no matching document is beyond the cut
  (`AdaptiveHistogram.LessIsExactIff`, `AdaptiveHistogram.MoreIsExactIff`); there is no cut for smaller values if and
  only if all bucket numbers fit (`AdaptiveHistogram.NoCutIffFitsInt`).
- **Bounds of the numbers** (`libs/joda/core/modules/indexing/src/adaptive/UnionTreeNode.cpp:137-141`, `:508-512`). A
  value that is a new minimum is not compared with the maximum, so a single document has no maximum
  (`AdaptiveHistogram.OneValueHasNoMaximum`). `AdaptiveHistogram.ScanBounds` says exactly when the maximum bounds all
  values.
- **Asked and replaced leaf** (`libs/joda/core/modules/indexing/src/adaptive/visitors/NextPredicateVisitor.cpp:26-34`,
  `libs/joda/core/modules/indexing/src/adaptive/visitors/SetPredicateVisitor.cpp:26-31`). The last leaf is asked and
  the first one replaced: for ((a && b) && x) with a false and b and x true the document is returned
  (`MixedExecutor.ConjunctionReturnsTooMuch`). For predicates without constants and repeated expressions the execution
  is right on all boolean documents if and only if there is at most one leaf for the index
  (`MixedExecutor.RightIffOneLeaf`).
- **Missing values under a negation**
  (`libs/joda/core/modules/queryexecution/src/executor/AdaptiveIndexExecutor.cpp:157-163`). For x && !a with a missing
  attribute in a, the document is returned (`MixedExecutor.NegatedNullIsReturned`).
  `MixedExecutor.MixedExecutionIsRightIff` has the exact condition.
- **Optimizer under a negation**
  (`libs/joda/core/modules/query/values/include/joda/query/values/BinaryBoolProvider.h:144-150`,
  `libs/joda/core/modules/query/values/include/joda/query/values/NotProvider.h:65-75`,
  `libs/joda/core/modules/queryexecution/src/executor/AdaptiveIndexExecutor.cpp:140-143`). For !(b && !x) with b true
  and a missing attribute in x, the optimizer takes b and the negations out and keeps x, so that the document is lost
  (`MixedExecutor.OptimizerLosesDocument`); for !(b && x) the optimized copy is dropped and the answer is right
  (`MixedExecutor.DroppedCopyIsRight`), as it is for x && !(a && b) with a and x true and a missing attribute in b
  (`MixedExecutor.DroppedCopyKeepsDocument`). `MixedExecutor.MixedExecutionIsRightIff` is the exact condition for the
  last three findings together, over all documents: at most one leaf for the index, which is not negated, and no truth
  value of it with which the executor keeps a copy in which a bare leaf stands for a negated connective. Both parts of
  the latter are stated by the form of the predicate (`MixedExecutor.CopyIsKeptIff`).
- **Empty containers** (`libs/joda/core/modules/storage/src/JSONStorage.cpp:228-230`). A range over three containers
  of which the second one is empty never ends (`Pagination.EmptyContainerIsStuck`). `Pagination.JSONStorage.Stringify`
  and `Pagination.SendResult` return if and only if no empty container lies within the range, or within a chunk.
- **Negative offsets** (`libs/joda/core/modules/network/src/apiv2/JodaResultRequest.cpp:93-108`). Chunks that begin
  before document 0 are lost: offset -1 sends documents from 49 on. `Pagination.NegativeOffsetLosesDocuments` is the
  exact condition.
- **Texts of predicates** (`libs/joda/core/modules/query/values/include/joda/query/values/NotProvider.h:29`,
  `libs/joda/core/modules/query/values/src/AtomProvider.cpp:89-92`). A comparison with a negation and the negation of
  a comparison have the same text, and so have f("a\", \"b") and f("a", "b"), for instance
  (`ParserRoundTrip.NegationIsAmbiguous`, `ParserRoundTrip.QuotesAreAmbiguous`); the text of a double negation cannot
  be parsed, and of that of null the brackets are left over (`ParserRoundTrip.DoubleNegationIsLost`,
  `ParserRoundTrip.NullLeavesBrackets`). A string is read back if and only if it has neither quotes nor backslashes
  (`ParserRoundTrip.StringReadBack`). The cache uses the texts as keys: a history of queries is answered right if and
  only if each query is taken for a predicate that is true on the same documents (`QueryCaching.HistoryIsRightIff`,
  with an input in `QueryCaching.NegationIsMistaken`).
- **Late registration** (`libs/joda/core/modules/concurrency/include/joda/concurrency/Queue.h:66-85`). An element of a
  producer that registers after the only other one has finished is left in a finished queue
  (`SharedQueue.LateRegistrationIsMissed`). A producer is never missed if and only if, when it registers, the queue is
  not marked and no producer is committed to mark it (`SharedQueue.RegisteringIsSafeIff`).
- **Late unregistration** (`libs/joda/core/modules/concurrency/include/joda/concurrency/Queue.h:72-85`). A producer
  that unregisters after the other one has looked leaves a queue that is never marked
  (`SharedQueue.UnregistrationIsMissed`, `SharedQueue.UnmarkedStaysUnmarked`). `SharedQueue.UnregisteringIsSafeIff` is
  the exact condition.
- **Count of elements** (`libs/joda/core/modules/concurrency/include/joda/concurrency/Queue.h:93-104`, `:181-182`). An
  element taken before its sender has counted it makes the count wrap around (`SharedQueue.CountWrapsAround`);
  `SharedQueue.CountIsRightIff` is the exact condition.
- **Slashes in names** (`libs/joda/core/modules/similarity/src/RJPathsReader.cpp:140-146`). A member "a/b" and a
  member "b" below "a" have the same text (`PathsReader.SlashesAreAmbiguous`). Two positions have the same text if and
  only if they are the same once their names are cut at the slashes (`PathsReader.TextsAreEqualIff`).

## Model

| member | source | states |
|---|---|---|
| `Bits.MaskWraps` | `libs/joda/core/modules/concurrency/include/joda/concurrency/readerwriterqueue.h:289` | an index below a power of two that is incremented and masked with the size minus one wraps around to 0 exactly at the size |
| `Bits.CeilToPow2` | `libs/joda/core/modules/concurrency/include/joda/concurrency/readerwriterqueue.h:536-547` | the shift-and-or loop returns the least power of two that is not below its argument |
| `MpmcQueue.LapsAreDivision` | `libs/joda/core/modules/concurrency/include/joda/concurrency/MPMCQueue.h:272-274` | slot number and lap of a ticket are its remainder and its quotient by the capacity |
| `MpmcQueue.NextKeepsInv` | `libs/joda/core/modules/concurrency/include/joda/concurrency/MPMCQueue.h:166-254` | every atomic step of `push`, `try_push`, `pop` and `try_pop`, by any thread, keeps the invariant that ties turns, storage, tickets and delivered values together |
| `MpmcQueue.PopTakesItsTicketsValue` | `libs/joda/core/modules/concurrency/include/joda/concurrency/MPMCQueue.h:225-254` | in every run the pop with ticket k moves out exactly the value of the push with ticket k, no value is delivered twice, and `pop` returns that value |
| `MpmcQueue.SlotHasOneOwner` | `libs/joda/core/modules/concurrency/include/joda/concurrency/MPMCQueue.h:170-174` | no two threads are ever between their turn test and their turn store on the same slot |
| `MpmcQueue.StorageIsUsedSafely` | `libs/joda/core/modules/concurrency/include/joda/concurrency/MPMCQueue.h:85-109` | a value is only constructed in an empty slot, and only moved out of and destroyed in a full one |
| `MpmcQueue.PendingPopIsNotStuck` | `libs/joda/core/modules/concurrency/include/joda/concurrency/MPMCQueue.h:225-233` | while a pop waits for a ticket that a push has drawn, some ticket holder can make a step |
| `MpmcQueue.PendingPushIsNotStuck` | `libs/joda/core/modules/concurrency/include/joda/concurrency/MPMCQueue.h:166-175` | while a push waits for a ticket less than one capacity ahead of the pops, some ticket holder can make a step |
| `MpmcQueue.LeftDecreases` | `libs/joda/core/modules/concurrency/include/joda/concurrency/MPMCQueue.h:166-254` | a step of the thread that serves a ticket brings the delivery of the ticket strictly nearer |
| `MpmcQueue.DrawnTicketsAreDelivered` | `libs/joda/core/modules/concurrency/include/joda/concurrency/MPMCQueue.h:166-254` | from every reachable state, finitely many steps of the pending operations alone deliver any ticket that has been drawn on both sides |
| `MpmcQueue.TryPushesStayWithinCapacity` | `libs/joda/core/modules/concurrency/include/joda/concurrency/MPMCQueue.h:177-197` | while all pushes are `try_push`, at most capacity tickets are open, and no push ever spins |
| `MpmcQueue.TryPopsStayBehindPushes` | `libs/joda/core/modules/concurrency/include/joda/concurrency/MPMCQueue.h:235-254` | while all pops are `try_pop`, no pop ticket is drawn before the push ticket of the same number |
| `MpmcQueue.RefusedPushSawFullSlot` | `libs/joda/core/modules/concurrency/include/joda/concurrency/MPMCQueue.h:189-194` | a `try_push` that returns false was inside its call at an instant at which the pop one lap before it was not complete |
| `MpmcQueue.RefusedPopSawEmptySlot` | `libs/joda/core/modules/concurrency/include/joda/concurrency/MPMCQueue.h:246-251` | a `try_pop` that returns false was inside its call at an instant at which the push of the next ticket was not complete |
| `MpmcCalls.ReturnsEndCalls` | `libs/joda/core/modules/concurrency/include/joda/concurrency/MPMCQueue.h:166-254` | every return, in every run, ends a call of its thread: a push that returns true has drawn its ticket during the call for the value it was given, a pop returns the value of a ticket it has drawn during the call, and a refusal ends a try operation |
| `MpmcAlone.NextSlotsMean` | `libs/joda/core/modules/concurrency/include/joda/concurrency/MPMCQueue.h:274-278` | the slot of the next push ticket is free exactly if the pop one lap before is complete, and that of the next pop ticket full exactly if the push of the same number is |
| `MpmcAlone.TryPushAlone` | `libs/joda/core/modules/concurrency/include/joda/concurrency/MPMCQueue.h:177-197` | a `try_push` during which no other thread moves has returned within six steps: true, with its value under the next ticket, if the slot of that ticket is free, and false, with nothing changed, if not |
| `MpmcAlone.TryPopAlone` | `libs/joda/core/modules/concurrency/include/joda/concurrency/MPMCQueue.h:235-254` | the same for `try_pop`, within seven steps: true, with the value of the next ticket, if its push is complete, and false if not |
| `MpmcAlone.PushAlone` | `libs/joda/core/modules/concurrency/include/joda/concurrency/MPMCQueue.h:166-175` | `push` draws the next ticket at once, and has returned within four steps if its slot is free; otherwise it waits with the ticket |
| `MpmcAlone.PopAlone` | `libs/joda/core/modules/concurrency/include/joda/concurrency/MPMCQueue.h:225-233` | the same for `pop` |
| `MpmcAlone.TryPushFinishesAlone` | `libs/joda/core/modules/concurrency/include/joda/concurrency/MPMCQueue.h:180-196` | from any instant of any run, a thread inside `try_push` that then runs alone has returned within six steps, and has pushed if the next slot is free, unless it had just found it taken |
| `MpmcAlone.TryPopFinishesAlone` | `libs/joda/core/modules/concurrency/include/joda/concurrency/MPMCQueue.h:237-253` | the same for `try_pop`, within seven steps |
| `MpmcAlone.SpinFinishesAlone` | `libs/joda/core/modules/concurrency/include/joda/concurrency/MPMCQueue.h:170-174` | a blocking operation that waits with its ticket returns within four steps of its own once the slot serves the ticket, and changes nothing before |
| `BlockRing.IncIsMask` | `libs/joda/core/modules/concurrency/include/joda/concurrency/readerwriterqueue.h:289` | the increment of the model is the masked increment of the source for power-of-two block sizes |
| `BlockRing.TakeKeepsInv` | `libs/joda/core/modules/concurrency/include/joda/concurrency/readerwriterqueue.h:206-299` | the consumer finds an element in its front cell, namely the oldest one not yet received |
| `BlockRing.PublishKeepsInv` | `libs/joda/core/modules/concurrency/include/joda/concurrency/readerwriterqueue.h:431-469` | the store of `tail` appends the constructed element to the queue and keeps the invariant |
| `BlockRing.NextPublishKeepsInv` | `libs/joda/core/modules/concurrency/include/joda/concurrency/readerwriterqueue.h:470-488` | the store of `tailBlock` appends the element of the reused block to the queue |
| `BlockRing.LinkKeepsInv` | `libs/joda/core/modules/concurrency/include/joda/concurrency/readerwriterqueue.h:489-517` | linking a new block behind the tail block appends its element and keeps the circle of blocks |
| `BlockRing.MoveOnKeepsInv` | `libs/joda/core/modules/concurrency/include/joda/concurrency/readerwriterqueue.h:254-292` | advancing the front block leaves an empty block behind the tail block and keeps the queue |
| `BlockRing.StepProducerKeepsInv` | `libs/joda/core/modules/concurrency/include/joda/concurrency/readerwriterqueue.h:431-528` | every step of the producer keeps the invariant |
| `BlockRing.StepConsumerKeepsInv` | `libs/joda/core/modules/concurrency/include/joda/concurrency/readerwriterqueue.h:206-299` | every step of the consumer keeps the invariant |
| `BlockRing.NextKeepsInv` | `libs/joda/core/modules/concurrency/include/joda/concurrency/readerwriterqueue.h:206-528` | every step of either thread, and every call, keeps the invariant |
| `BlockRingRuns.RunKeepsInv` | `libs/joda/core/modules/concurrency/include/joda/concurrency/readerwriterqueue.h:206-528` | the invariant holds in every state of every run of one producer and one consumer |
| `BlockRingRuns.InitialIsFresh` | `libs/joda/core/modules/concurrency/include/joda/concurrency/readerwriterqueue.h:127-145` | the blocks that the constructor links are an empty queue |
| `BlockRingRuns.RunIsFifo` | `libs/joda/core/modules/concurrency/include/joda/concurrency/readerwriterqueue.h:206-528` | at every instant of every run the received elements are a prefix of the sent ones and the ring holds exactly the rest, in order |
| `BlockRingRuns.OtherBlocksAreEmpty` | `libs/joda/core/modules/concurrency/include/joda/concurrency/readerwriterqueue.h:437-445` | the blocks behind the tail block are empty, but for an element about to be published |
| `BlockRingRuns.NextBlockHasElement` | `libs/joda/core/modules/concurrency/include/joda/concurrency/readerwriterqueue.h:271-273` | the assertion in `try_dequeue` holds: the block the consumer advances to has an element |
| `BlockRingRuns.ReusedBlockIsEmpty` | `libs/joda/core/modules/concurrency/include/joda/concurrency/readerwriterqueue.h:477-479` | the assertion in `inner_enqueue` holds: the block the producer reuses is empty |
| `BlockRingRuns.CellsAreUsedSafely` | `libs/joda/core/modules/concurrency/include/joda/concurrency/readerwriterqueue.h:482-483` | elements are constructed in empty cells and moved out of full ones only |
| `BlockRingRuns.EnoughBlocks` | `libs/joda/core/modules/concurrency/include/joda/concurrency/readerwriterqueue.h:98-107` | the number of blocks of the constructor leaves room for the maximal size even without one block |
| `BlockRingRuns.NoFewerBlocks` | `libs/joda/core/modules/concurrency/include/joda/concurrency/readerwriterqueue.h:98-107` | one block less would not do |
| `BlockRingRuns.Construct` | `libs/joda/core/modules/concurrency/include/joda/concurrency/readerwriterqueue.h:81-145` | the constructor builds a circle of power-of-two blocks that has room for the maximal size, with as few blocks as do |
| `BlockRingRuns.RefusedDequeueSawEmptyQueue` | `libs/joda/core/modules/concurrency/include/joda/concurrency/readerwriterqueue.h:293-296` | a `try_dequeue` that returns false was inside its call at an instant at which nothing was queued |
| `BlockRingRuns.RefusedEnqueueSawFullQueue` | `libs/joda/core/modules/concurrency/include/joda/concurrency/readerwriterqueue.h:518-520` | an enqueue that returns false was inside its call at an instant at which the queue held at least the maximal size |
| `BlockRingRuns.ConstructedCapacity` | `libs/joda/core/modules/concurrency/include/joda/concurrency/readerwriterqueue.h:75-80` | the same for every run on the queue that the constructor builds: its promise about the maximal size |
| `BlockRingCalls.CallsAreFifo` | `libs/joda/core/modules/concurrency/include/joda/concurrency/readerwriterqueue.h:206-528` | at every instant of every run the elements that dequeue calls have returned are, in order, the first of those for which enqueue calls have returned true; an element moved out and not yet returned is the next one |
| `BlockRingCalls.RefusedEnqueueCouldNotAllocate` | `libs/joda/core/modules/concurrency/include/joda/concurrency/readerwriterqueue.h:489-520` | an enqueue that may allocate returns false only at an allocation that fails |
| `BlockRingCalls.CallsBegin` | `libs/joda/core/modules/concurrency/include/joda/concurrency/readerwriterqueue.h:206-528` | a call made while its thread rests begins at once, with its arguments |
| `BlockRingCalls.DequeueIsWaitFree` | `libs/joda/core/modules/concurrency/include/joda/concurrency/readerwriterqueue.h:206-299` | a dequeue returns after at most eight steps of its own thread, whatever the producer does |
| `BlockRingCalls.EnqueueIsWaitFree` | `libs/joda/core/modules/concurrency/include/joda/concurrency/readerwriterqueue.h:431-528` | an enqueue returns after at most six steps of its own thread, whatever the consumer does |
| `BlockRingCalls.BlocksDouble` | `libs/joda/core/modules/concurrency/include/joda/concurrency/readerwriterqueue.h:491-499` | in every run the size of new blocks is the first one doubled once for each block allocated, until it is not below the greatest one |
| `BlockRingCalls.AllocatesWhenFull` | `libs/joda/core/modules/concurrency/include/joda/concurrency/readerwriterqueue.h:489-499` | a block is allocated only by an enqueue that may do so and has seen the ring full, one at a time, with the size due |
| `Semaphore.InitInv` | `libs/joda/core/modules/concurrency/include/joda/concurrency/blockingconcurrentqueue.h:300-302` | the accounts of a fresh semaphore and an empty queue balance |
| `Semaphore.NextKeepsInv` | `libs/joda/core/modules/concurrency/include/joda/concurrency/blockingconcurrentqueue.h:224-359` | every step of every thread keeps the accounts of permits, waiting threads and elements |
| `Semaphore.PermitsAreConserved` | `libs/joda/core/modules/concurrency/include/joda/concurrency/blockingconcurrentqueue.h:216-365` | in every run the acquired permits never exceed the signalled ones, the count is the rest less the debt of waiting threads, releases and debts match, and unused permits are covered by elements |
| `Semaphore.RetryLoopHasElement` | `libs/joda/core/modules/concurrency/include/joda/concurrency/blockingconcurrentqueue.h:649-657` | a consumer past the semaphore finds as many elements in the inner queue as it has permits left |
| `Semaphore.ElementsAreConserved` | `libs/joda/core/modules/concurrency/include/joda/concurrency/blockingconcurrentqueue.h:485-546` | elements are neither lost nor duplicated |
| `Semaphore.NoLostWakeup` | `libs/joda/core/modules/concurrency/include/joda/concurrency/blockingconcurrentqueue.h:241-247` | a thread waits without a release on its way only when every permit has been acquired |
| `Semaphore.TimedOutThreadIsOwed` | `libs/joda/core/modules/concurrency/include/joda/concurrency/blockingconcurrentqueue.h:248-260` | while the count hides the debt of a thread that timed out, releases for all waiting threads are made or on their way |
| `Semaphore.WaitReturnsPermits` | `libs/joda/core/modules/concurrency/include/joda/concurrency/blockingconcurrentqueue.h:324-350` | no operation acquires more than it was asked for, and a wait without timeout returns with a permit, as `waitMany` asserts |
| `SemaphoreAlone.TryDequeueAlone` | `libs/joda/core/modules/concurrency/include/joda/concurrency/blockingconcurrentqueue.h:649-657` | a `try_dequeue` during which no other thread moves returns within a bound, with an element for each permit there is, up to the number asked for, and without one only if there is none |
| `SemaphoreAlone.WaitDequeueAlone` | `libs/joda/core/modules/concurrency/include/joda/concurrency/blockingconcurrentqueue.h:338-344` | a `wait_dequeue` during which no other thread moves does the same if there is a permit, and otherwise blocks with its debt in the count |
| `SemaphoreAlone.EnqueueAlone` | `libs/joda/core/modules/concurrency/include/joda/concurrency/blockingconcurrentqueue.h:352-359` | an enqueue during which no other thread moves leaves its elements, as many permits, and a release for each permit that was owed |
| `SemaphoreAlone.SpinFindsPermits` | `libs/joda/core/modules/concurrency/include/joda/concurrency/blockingconcurrentqueue.h:268-278` | a thread that finds permits while it spins takes them at once |
| `SemaphoreAlone.ReleasedAlone` | `libs/joda/core/modules/concurrency/include/joda/concurrency/blockingconcurrentqueue.h:282-297` | a waiting thread for which a release was made takes that permit and, without waiting, the rest |
| `SemaphoreAlone.ExpiredWaitAlone` | `libs/joda/core/modules/concurrency/include/joda/concurrency/blockingconcurrentqueue.h:283-292` | a timed wait that expires while its debt is in the count gives it back and returns without a permit |
| `SemaphoreAlone.OwedWaitAlone` | `libs/joda/core/modules/concurrency/include/joda/concurrency/blockingconcurrentqueue.h:283-296` | one that expires when a release was made for it takes the permit after all |
| `SemaphoreAlone.RefusedTrySawNoPermit` | `libs/joda/core/modules/concurrency/include/joda/concurrency/blockingconcurrentqueue.h:324-335` | in every run a `try_dequeue` that returns with nothing has just seen a count of zero or less |
| `SemaphoreAlone.TimedWaitGivesUp` | `libs/joda/core/modules/concurrency/include/joda/concurrency/blockingconcurrentqueue.h:279-294` | in every run a timed wait that returns with nothing has announced itself when there was no permit, its kernel wait has expired since, and it has just given its debt back while the count showed it |
| `ThreadPool.Scheduler.ScheduleFuture` | `libs/joda/core/modules/queryexecution/src/pipeline/ThreadPool.h:45-65` | a stage of fresh tasks, as many as asked for and no more than there are threads, is added or takes the place of one of which the pool has no task; nothing is started |
| `ThreadPool.Scheduler.StageOrder` | `libs/joda/core/modules/queryexecution/src/pipeline/ThreadPool.h:210` | the stages are walked in the order of their numbers |
| `ThreadPool.Scheduler.ScheduleStrategy` | `libs/joda/core/modules/queryexecution/src/pipeline/ThreadPool.h:222-248` | the search begins at the stage of a starved task, at the stage with the next greater number after a task that yields or idles, or the least one if there is none, and at the least one otherwise |
| `ThreadPool.Scheduler.Remove` | `libs/joda/core/modules/queryexecution/src/pipeline/ThreadPool.h:89-111` | only a finished task leaves its stage, in place, and the stage goes with its last task |
| `ThreadPool.Scheduler.TakeBack` | `libs/joda/core/modules/queryexecution/src/pipeline/ThreadPool.h:82-111` | the counter of running threads follows the tasks that the pool has |
| `ThreadPool.Scheduler.StartOne` | `libs/joda/core/modules/queryexecution/src/pipeline/ThreadPool.h:126-143` | the first task of the stage that can be started is started, and none only if all of them run |
| `ThreadPool.RoundIsRunning` | `libs/joda/core/modules/queryexecution/src/pipeline/ThreadPool.h:150-157` | when the search is back where it began without a start, no task of any stage is left waiting |
| `ThreadPool.TurnsAreFair` | `libs/joda/core/modules/queryexecution/src/pipeline/ThreadPool.h:121-158` | in a search that goes round the stages, tasks of a stage are started in their order, and no stage gets more of them started than one with a task left over, save one more if its turn comes first |
| `ThreadPool.Scheduler.ServeStage` | `libs/joda/core/modules/queryexecution/src/pipeline/ThreadPool.h:123-157` | one turn starts the first waiting task of its stage, if there is one, and passes the turn to the next stage |
| `ThreadPool.Scheduler.StartTasks` | `libs/joda/core/modules/queryexecution/src/pipeline/ThreadPool.h:121-158` | the loop ends with every thread busy or every task running; the stages took turns from the first one on, whose first waiting task has been started if a thread was free |
| `ThreadPool.Scheduler.StartFrom` | `libs/joda/core/modules/queryexecution/src/pipeline/ThreadPool.h:118-158` | with a free thread, the first waiting task of the stage asked for is started: the stage of a starved task, the one with the next greater number after a task that yields or idles, the least one after no task or a finished one; then the stages take turns |
| `ThreadPool.Scheduler.RescheduleTask` | `libs/joda/core/modules/queryexecution/src/pipeline/ThreadPool.h:79-159` | rescheduling is work conserving, starts no task twice, loses no task, removes exactly a finished task, and serves the stages in turns from the one the returning task asks for, whose first waiting task gets a thread |
| `ThreadPool.Scheduler.NothingLeftToWaitFor` | `libs/joda/core/modules/queryexecution/src/pipeline/ThreadPool.h:161-176` | the check at the end of `wait` holds: without stages nothing runs |
| `AdaptiveTrie.TrieNode.GetChild` | `libs/joda/core/modules/indexing/src/adaptive/AdaptiveTrie.h:24-32` | the child with the given first character is found if there is one |
| `AdaptiveTrie.Put` | `libs/joda/core/modules/indexing/src/adaptive/AdaptiveTrie.cpp:466-484` | a document goes into the child for its next character, and into the list of exact matches exactly if its string ends there |
| `AdaptiveTrie.Distribute` | `libs/joda/core/modules/indexing/src/adaptive/AdaptiveTrie.cpp:465-485` | one split partitions the documents of the start list by their next character |
| `AdaptiveTrie.Compress` | `libs/joda/core/modules/indexing/src/adaptive/AdaptiveTrie.cpp:512-521` | an only child without alternatives becomes part of its parent, which still knows the same documents |
| `AdaptiveTrie.Extract` | `libs/joda/core/modules/indexing/src/adaptive/AdaptiveTrie.cpp:341-533` | a split ends at a node with exact matches or at least two children, and loses no document |
| `AdaptiveTrie.InitializeByStep` | `libs/joda/core/modules/indexing/src/adaptive/AdaptiveTrie.cpp:35-67` | a document of a new trie goes into the child of the root for its first character |
| `AdaptiveTrie.UnsearchedIsValid` | `libs/joda/core/modules/indexing/src/adaptive/AdaptiveTrie.cpp:35-67` | a trie that has not been searched satisfies the invariant |
| `AdaptiveTrie.Open` | `libs/joda/core/modules/indexing/src/adaptive/AdaptiveTrie.cpp:299-304` | splitting a virtual node on the way keeps the invariant of the whole trie |
| `AdaptiveTrie.MatchChain` | `libs/joda/core/modules/indexing/src/adaptive/AdaptiveTrie.cpp:306-321` | comparing the compressed characters of a node tells a matching path, a mismatch and a search string that ends within the path apart |
| `AdaptiveTrie.FindMatchingNode` | `libs/joda/core/modules/indexing/src/adaptive/AdaptiveTrie.cpp:293-339` | the walk keeps the trie valid and ends at a node for the search string, or without a node only if no document matches |
| `AdaptiveTrie.CollectDocuments` | `libs/joda/core/modules/indexing/src/adaptive/AdaptiveTrie.cpp:277-291` | collecting below a node adds exactly the documents whose string begins with the path of the node |
| `AdaptiveTrie.KeysAreUnique` | `libs/joda/core/modules/indexing/src/adaptive/AdaptiveTrie.cpp:341-533` | two nodes never have the same key |
| `AdaptiveTrie.PathOfDocument` | `libs/joda/core/modules/indexing/src/adaptive/AdaptiveTrie.cpp:341-533` | the path of a node is a prefix of the strings of its documents, and the whole string of the exact ones |
| `AdaptiveTrie.InOneNode` | `libs/joda/core/modules/indexing/src/adaptive/AdaptiveTrie.cpp:341-533` | after any searches a document is in the list of at most one node |
| `AdaptiveTrie.InSomeNode` | `libs/joda/core/modules/indexing/src/adaptive/AdaptiveTrie.cpp:341-533` | after any searches a document is in the list of some node |
| `AdaptiveTrie.OnTheWayIsSplit` | `libs/joda/core/modules/indexing/src/adaptive/AdaptiveTrie.cpp:298-336` | every node on the way of a search is split |
| `AdaptiveTrie.FindEq` | `libs/joda/core/modules/indexing/src/adaptive/AdaptiveTrie.cpp:76-90` | all documents with the string are found, and no other ones exactly if no node for the string was made part of a longer chain before the call |
| `AdaptiveTrie.LongerStringFound` | `libs/joda/core/modules/indexing/src/adaptive/AdaptiveTrie.cpp:83-87` | an input on which a longer string is found |
| `AdaptiveTrie.FindStartsWith` | `libs/joda/core/modules/indexing/src/adaptive/AdaptiveTrie.cpp:111-125` | only documents with the prefix are found, and all of them exactly if the state before the call does not make the search end at a virtual node with exact matches only |
| `AdaptiveTrie.SkippedIff` | `libs/joda/core/modules/indexing/src/adaptive/AdaptiveTrie.cpp:118-119` | whether a search will meet such a node can be told from the documents and the trie before it |
| `AdaptiveTrie.ExactMatchSkipped` | `libs/joda/core/modules/indexing/src/adaptive/AdaptiveTrie.cpp:118-119` | an input on which the only match is skipped |
| `Doubles.WidthIsNear` | `libs/joda/core/modules/indexing/src/adaptive/AdaptiveHistogram.cpp:20` | the rounded width of the buckets is positive, and the buckets together cover at least 64/81 of the range |
| `Doubles.SmallRangeIsCovered` | `libs/joda/core/modules/indexing/src/adaptive/AdaptiveHistogram.cpp:20` | up to a range of 2 to the power of 53 the rounded width is never too small |
| `Doubles.RoundingLosesARange` | `libs/joda/core/modules/indexing/src/adaptive/AdaptiveHistogram.cpp:20` | behind that it can be: a hundred buckets are one too narrow for a range of 9007199254741001 |
| `AdaptiveHistogram.SmallRangeIsSplittable` | `libs/joda/core/modules/indexing/src/adaptive/AdaptiveHistogram.cpp:150-197` | a split of a range of at most 2 to the power of 53 stays in range |
| `AdaptiveHistogram.LargeRangeIsNotSplittable` | `libs/joda/core/modules/indexing/src/adaptive/AdaptiveHistogram.cpp:17-40` | the split of 0 to 9007199254741000 into 100 buckets looks up bucket 100 |
| `AdaptiveHistogram.Fill` | `libs/joda/core/modules/indexing/src/adaptive/AdaptiveHistogram.cpp:170-186` | the loop of a split puts every document into the bucket for its value, unless a lookup is out of range, which happens exactly for values behind the last bucket |
| `AdaptiveHistogram.Split` | `libs/joda/core/modules/indexing/src/adaptive/AdaptiveHistogram.cpp:150-197` | a split fails exactly if the range is not splittable, and otherwise distributes the documents without loss over buckets with tight bounds |
| `AdaptiveHistogram.FirstSplit` | `libs/joda/core/modules/indexing/src/adaptive/AdaptiveHistogram.cpp:11-55` | the first split fails exactly if its buckets do not reach up to the maximum in 64-bit arithmetic, and otherwise holds all documents |
| `AdaptiveHistogram.SplitCrowded` | `libs/joda/core/modules/indexing/src/adaptive/AdaptiveHistogram.cpp:61-65` | the last loop of the construction splits exactly the crowded buckets, keeps all documents, and fails exactly if one of them is not splittable |
| `AdaptiveHistogram.CrowdedMeans` | `libs/joda/core/modules/indexing/src/adaptive/AdaptiveHistogram.cpp:57-62` | a bucket is crowded if it has more than eleven tenths of an equal share that is rounded down |
| `AdaptiveHistogram.AdaptiveHistogram.InitialSplit` | `libs/joda/core/modules/indexing/src/adaptive/AdaptiveHistogram.cpp:68-123` | the construction succeeds exactly if the first split fits and all crowded buckets are splittable, always so for ranges up to 2 to the power of 53, and then holds exactly the given documents |
| `AdaptiveHistogram.FindEqual` | `libs/joda/core/modules/indexing/src/adaptive/AdaptiveHistogram.cpp:199-225` | exactly the documents with the value are found and all documents are kept, unless the search has to split a bucket that is not splittable |
| `AdaptiveHistogram.SearchEqual` | `libs/joda/core/modules/indexing/src/adaptive/AdaptiveHistogram.cpp:211-224` | the leaf that a search comes to is split exactly if it has more documents than the threshold and more than one value and the query has split none before; the rest of the tree stays |
| `AdaptiveHistogram.RefinedInSub` | `libs/joda/core/modules/indexing/src/adaptive/AdaptiveHistogram.cpp:206-212` | what the search makes of a sub-bucket it makes of the tree |
| `AdaptiveHistogram.SplitOnce` | `libs/joda/core/modules/indexing/src/adaptive/AdaptiveHistogram.cpp:214` | after its one split a search changes nothing more |
| `AdaptiveHistogram.NarrowEqualSucceeds` | `libs/joda/core/modules/indexing/src/adaptive/AdaptiveHistogram.cpp:199-225` | in a histogram of at most 2 to the power of 53 values the search for a value never fails |
| `AdaptiveHistogram.AdaptiveHistogram.FindEqualTo` | `libs/joda/core/modules/indexing/src/adaptive/AdaptiveHistogram.cpp:199-225` | the same for the histogram object, which stays ready for the next search |
| `AdaptiveHistogram.SetAll` | `libs/joda/core/modules/indexing/src/adaptive/AdaptiveHistogram.cpp:323-337` | all documents of a bucket are set |
| `AdaptiveHistogram.FindLess` | `libs/joda/core/modules/indexing/src/adaptive/AdaptiveHistogram.cpp:227-273` | the search fails exactly if, in the tree before the call, the value is behind the end of a bucket on its way or the bucket to split is not splittable; otherwise it finds exactly the smaller documents below the cut that a wrapped bucket number makes; all documents are kept unless a split failed |
| `AdaptiveHistogram.NoCutIffFitsInt` | `libs/joda/core/modules/indexing/src/adaptive/AdaptiveHistogram.cpp:232` | there is no such cut exactly if every bucket number on the way fits an `int` |
| `AdaptiveHistogram.LessIsExactIff` | `libs/joda/core/modules/indexing/src/adaptive/AdaptiveHistogram.cpp:227-273` | the result is always among the smaller documents, and all of them exactly if none of them is at or above the cut |
| `AdaptiveHistogram.LessIsExact` | `libs/joda/core/modules/indexing/src/adaptive/AdaptiveHistogram.cpp:227-273` | if every bucket number fits an `int`, the result is exactly the smaller documents |
| `AdaptiveHistogram.AdaptiveHistogram.FindLessThan` | `libs/joda/core/modules/indexing/src/adaptive/AdaptiveHistogram.cpp:227-273` | the same for the histogram object, which stays ready for the next search unless a split failed |
| `AdaptiveHistogram.FindMore` | `libs/joda/core/modules/indexing/src/adaptive/AdaptiveHistogram.cpp:275-321` | the same as for smaller values, for greater ones |
| `AdaptiveHistogram.MoreIsExactIff` | `libs/joda/core/modules/indexing/src/adaptive/AdaptiveHistogram.cpp:275-321` | the result is always among the greater documents, and all of them exactly if none of them is below the cut |
| `AdaptiveHistogram.MoreIsExact` | `libs/joda/core/modules/indexing/src/adaptive/AdaptiveHistogram.cpp:275-321` | if every bucket number fits an `int`, the result is exactly the greater documents |
| `AdaptiveHistogram.AdaptiveHistogram.FindMoreThan` | `libs/joda/core/modules/indexing/src/adaptive/AdaptiveHistogram.cpp:275-321` | the same for the histogram object, which stays ready for the next search unless a split failed |
| `AdaptiveHistogram.BuildTwoDocs` | `libs/joda/core/modules/indexing/src/adaptive/NumberIndex.cpp:83` | the construction with 100 buckets for the values 0 and 199 succeeds and leaves the tree of the next rows |
| `AdaptiveHistogram.ValuesBehindTheEndFail` | `libs/joda/core/modules/indexing/src/adaptive/AdaptiveHistogram.cpp:232-235` | on this tree the searches for values less than 1 and less than 200 are out of range |
| `AdaptiveHistogram.ValuesBeforeTheBeginningFail` | `libs/joda/core/modules/indexing/src/adaptive/AdaptiveHistogram.cpp:280-283` | on this tree the search for values greater than -2 is out of range |
| `AdaptiveHistogram.WrappedBucketNumber` | `libs/joda/core/modules/indexing/src/adaptive/AdaptiveHistogram.cpp:232` | on this tree the search for values less than 2 to the power of 33 misses the document with the value 199 |
| `AdaptiveHistogram.EstimateWork` | `libs/joda/core/modules/indexing/src/adaptive/AdaptiveHistogram.cpp:125-148` | the lookups of the estimate are in range, and the estimate is between the number of hits and the number of documents |
| `AdaptiveHistogram.EstimateMeans` | `libs/joda/core/modules/indexing/src/adaptive/AdaptiveHistogram.cpp:125-148` | the estimate is the size of the bucket that five lookups lead to, or none if it cannot have the value |
| `AdaptiveHistogram.ScanBounds` | `libs/joda/core/modules/indexing/src/adaptive/UnionTreeNode.cpp:133-141` | the scan finds the minimum, and its maximum bounds all values exactly if no value that is a new minimum exceeds all values that are not |
| `AdaptiveHistogram.OneValueHasNoMaximum` | `libs/joda/core/modules/indexing/src/adaptive/UnionTreeNode.cpp:137-141` | with a single value the maximum is missed |
| `MixedExecutor.ContinueHasLess` | `libs/joda/core/modules/queryexecution/src/executor/AdaptiveIndexExecutor.cpp:131-155` | both branches of the expansion have fewer leaves left for the index, so the recursion ends |
| `MixedExecutor.CheckDocuments` | `libs/joda/core/modules/query/src/Query.cpp:10-29` | the scan of the remaining documents keeps exactly those on which the predicate is true |
| `MixedExecutor.ExecuteNextMixedQuery` | `libs/joda/core/modules/queryexecution/src/executor/AdaptiveIndexExecutor.cpp:88-168` | the recursion over the overwritten query object returns, document by document, what the expansion of the predicate says |
| `MixedExecutor.OptimizedSame` | `libs/joda/core/modules/query/values/include/joda/query/values/BinaryBoolProvider.h:104-192` | `optimize` keeps the truth of a predicate on documents that are clear |
| `MixedExecutor.SetLeafSame` | `libs/joda/core/modules/indexing/src/adaptive/visitors/SetPredicateVisitor.cpp:5-60` | so does a constant for a leaf of the same truth value |
| `MixedExecutor.ReturnsWhatChecks` | `libs/joda/core/modules/queryexecution/src/executor/AdaptiveIndexExecutor.cpp:88-168` | if the leaf that was asked is the one replaced, a clear document is returned if and only if the predicate checks true on it |
| `MixedExecutor.ResultIsScan` | `libs/joda/core/modules/queryexecution/src/executor/AdaptiveIndexExecutor.cpp:88-168` | the result is then the set of documents that a plain scan finds |
| `MixedExecutor.FirstLeafIsIgnored` | `libs/joda/core/modules/indexing/src/adaptive/visitors/SetPredicateVisitor.cpp:26-31` | with two leaves for the index some document gets the wrong answer |
| `MixedExecutor.RightIffOneLeaf` | `libs/joda/core/modules/indexing/src/adaptive/visitors/NextPredicateVisitor.cpp:26-34` | on documents with boolean values the execution is right for all of them if and only if there is at most one leaf for the index |
| `MixedExecutor.ConjunctionReturnsTooMuch` | `libs/joda/core/modules/queryexecution/src/executor/AdaptiveIndexExecutor.cpp:131-155` | an input on which a false conjunct is ignored |
| `MixedExecutor.UnexposedIsSame` | `libs/joda/core/modules/query/values/include/joda/query/values/BinaryBoolProvider.h:104-192` | with one constant, the optimizer keeps the truth of a predicate on all documents unless a negated connective gives way to a bare leaf |
| `MixedExecutor.ExposedIsSeen` | `libs/joda/core/modules/query/values/include/joda/query/values/BinaryBoolProvider.h:144-188` | where one does, some document without a value for the leaf tells the optimized predicate from the other |
| `MixedExecutor.CopyIsKeptIff` | `libs/joda/core/modules/queryexecution/src/executor/AdaptiveIndexExecutor.cpp:140-143` | the executor keeps the optimized copy if and only if, by the form of the predicate, the constant passes through one side up to the connective at the top, or two negations meet at the top |
| `MixedExecutor.OnlyNegationsMislead` | `libs/joda/core/modules/query/values/include/joda/query/values/NotProvider.h:65-75` | of the kept copies, only that of a negation can show a bare leaf |
| `MixedExecutor.MixedExecutionIsRightIff` | `libs/joda/core/modules/queryexecution/src/executor/AdaptiveIndexExecutor.cpp:88-168` | for predicates without constants and repeated expressions the execution is right on all documents, with and without values, if and only if there is at most one leaf for the index, it is not negated, and neither of its truth values makes the executor keep a copy in which a bare leaf shows up |
| `MixedExecutor.NegatedNullIsReturned` | `libs/joda/core/modules/queryexecution/src/executor/AdaptiveIndexExecutor.cpp:157-163` | an input on which a missing attribute under a negation is returned |
| `MixedExecutor.OptimizerLosesDocument` | `libs/joda/core/modules/query/values/include/joda/query/values/NotProvider.h:65-75` | an input on which the kept copy loses a document |
| `MixedExecutor.DroppedCopyIsRight` | `libs/joda/core/modules/queryexecution/src/executor/AdaptiveIndexExecutor.cpp:140-143` | a predicate whose optimized copy would lose documents and is dropped, so that the answer is right on all documents |
| `MixedExecutor.DroppedCopyKeepsDocument` | `libs/joda/core/modules/query/values/include/joda/query/values/BinaryBoolProvider.h:104-120` | an input on which the copy of a conjunction would lose the document and is dropped |
| `Parser.UnescapeText` | `libs/joda/core/modules/queryparsing/src/actions/Function_Actions.h:116-140` | the loop undoes the two escapes and drops all others |
| `ParserChains.EscapedRoundTrip` | `libs/joda/core/modules/queryparsing/src/grammar/Literals.h:56-69` | every string can be written, in one way only: a text in quotes is read as a string if and only if it has a backslash in front of each of its quotes and backslashes and no other one |
| `ParserChains.SignedNumbers` | `libs/joda/core/modules/queryparsing/src/actions/Function_Actions.h:73-112` | a plus sign changes nothing, and a negative number too small for a signed word wraps around |
| `ParserChains.SpacesAreSkipped` | `libs/joda/core/modules/queryparsing/src/grammar/Literals.h:162-175` | spaces in front of an expression change nothing |
| `ParserChains.ChainsAreParsed` | `libs/joda/core/modules/queryparsing/src/grammar/Literals.h:168-175` | a chain of connectives without brackets is combined from the left, conjunctions before disjunctions |
| `ParserRoundTrip.NumberRoundTrip` | `libs/joda/core/modules/query/values/src/AtomProvider.cpp:30-59` | a printed integer is read back, signed up to the greatest signed number and unsigned above it |
| `ParserRoundTrip.StringReadBack` | `libs/joda/core/modules/query/values/src/AtomProvider.cpp:89-92` | a printed string is read back if and only if it has neither quotes nor backslashes |
| `ParserRoundTrip.PointerRoundTrip` | `libs/joda/core/modules/query/values/src/PointerProvider.cpp:21-26` | a printed pointer is read back |
| `ParserRoundTrip.FunctionIsName` | `libs/joda/core/modules/queryparsing/src/FunctionWrapper.h:63-199` | the names of all functions are identifiers that no operator takes |
| `ParserRoundTrip.OrRoundTrip` | `libs/joda/core/modules/queryparsing/src/grammar/Literals.h:93-175` | parsing a printed expression in front of anything that can follow it gives the expression and leaves the rest |
| `ParserRoundTrip.RoundTrip` | `libs/joda/core/modules/queryparsing/src/grammar/Literals.h:93-175` | the parser rebuilds every printable expression from its text |
| `ParserRoundTrip.PrintIsInjective` | `libs/joda/core/modules/query/values/src/IValueProvider.cpp:107-121` | printable expressions with the same text are the same, so the text can serve as a key |
| `ParserRoundTrip.NegationIsAmbiguous` | `libs/joda/core/modules/query/values/include/joda/query/values/NotProvider.h:29` | two predicates with the same text |
| `ParserRoundTrip.QuotesAreAmbiguous` | `libs/joda/core/modules/query/values/src/AtomProvider.cpp:89-92` | two calls with the same text |
| `ParserRoundTrip.DoubleNegationIsLost` | `libs/joda/core/modules/queryparsing/src/grammar/Literals.h:162-166` | the text of a double negation is no expression |
| `ParserRoundTrip.NullLeavesBrackets` | `libs/joda/core/modules/queryparsing/src/grammar/Literals.h:84-87` | of the text of null the parser leaves the brackets over |
| `ParserStates.Disjunction` | `libs/joda/core/modules/queryparsing/src/states/Function_State.h:57-91` | the operands of a list are combined from the left, as the list of the parser accumulates them |
| `ParserStates.Conjunction` | `libs/joda/core/modules/queryparsing/src/states/Function_State.h:93-118` | the same for a conjunction |
| `ParserStates.CompareState.ReadSymbol` | `libs/joda/core/modules/queryparsing/src/grammar/Literals.h:98-110` | the flags that the parts of a symbol set stand for its operator |
| `ParserStates.Comparison` | `libs/joda/core/modules/queryparsing/src/states/Function_State.h:151-207` | operand, symbol and operand in the order of the text give the comparison that the named function would build |
| `Aggregators.MergeIsConcatenation` | `libs/joda/core/modules/query/aggregate/src/GroupAggregator.cpp:17-54` | merging the results for two sequences of documents gives the result for their concatenation |
| `Aggregators.AccumulateIsAppend` | `libs/joda/core/modules/query/aggregate/src/GroupAggregator.cpp:123-173` | accumulating a document extends the sequence by it |
| `Aggregators.FoldIsDenote` | `libs/joda/core/modules/query/aggregate/src/GroupAggregator.cpp:123-173` | the sequential fold computes the count, the sets of values, the list, and one inner result for each group |
| `Aggregators.MergeOfFolds` | `libs/joda/core/modules/query/aggregate/src/GroupAggregator.cpp:17-54` | two batches accumulated separately and merged give the fold of their concatenation |
| `Aggregators.FoldsCommute` | `libs/joda/core/modules/queryexecution/src/pipeline/tasks/agg/AggMerger.cpp:5-24` | without COLLECT the order of two batches does not matter |
| `Aggregators.OrderDoesNotMatter` | `libs/joda/core/modules/queryexecution/src/pipeline/tasks/agg/AggMerger.cpp:5-24` | without COLLECT the result depends on the multiset of documents only |
| `Aggregators.GroupCountsAddUp` | `libs/joda/core/modules/query/aggregate/src/GroupAggregator.cpp:123-173` | the counts of all groups add up to the number of counted documents with a string, number or bool as key |
| `Aggregators.CountMeans` | `libs/joda/core/modules/query/aggregate/src/CountAggregator.cpp:36-53` | COUNT is the number of documents on which the expression has a value |
| `Aggregators.DistinctMeans` | `libs/joda/core/modules/query/aggregate/src/DistinctAggregator.cpp:68-91` | DISTINCT has exactly the values of the enabled kinds that occur |
| `Aggregators.CollectMeans` | `libs/joda/core/modules/query/aggregate/src/CollectAggregator.cpp:42-54` | COLLECT has one value for each document in their order, null where the expression has none |
| `Aggregators.GroupMeans` | `libs/joda/core/modules/query/aggregate/src/GroupAggregator.cpp:123-173` | GROUP has a group exactly for each string, number and boolean that occurs, with the result on the documents that have it |
| `AggregatorObjects.Aggregator.constructor` | `libs/joda/core/modules/query/aggregate/src/GroupAggregator.cpp:56-60` | a duplicate has seen no document and shares no object |
| `AggregatorObjects.Aggregator.AccumulateOne` | `libs/joda/core/modules/query/aggregate/src/CountAggregator.cpp:36-53` | the object changes as accumulation of one document says, for COUNT, DISTINCT, COLLECT and GROUP |
| `AggregatorObjects.Aggregator.AccumulateKey` | `libs/joda/core/modules/query/aggregate/src/GroupAggregator.cpp:134-145` | a document of a known group goes to its aggregator, that of a new one to a fresh one |
| `AggregatorObjects.Aggregator.MergeWith` | `libs/joda/core/modules/query/aggregate/src/DistinctAggregator.cpp:9-18` | merging changes the object as the merge of the values says, for all four aggregators |
| `AggregatorObjects.Aggregator.MergeGroups` | `libs/joda/core/modules/query/aggregate/src/GroupAggregator.cpp:17-54` | the groups of the other aggregator are merged or moved, and none is shared afterwards |
| `AggregatorObjects.Aggregator.MoveGroups` | `libs/joda/core/modules/query/aggregate/src/GroupAggregator.cpp:22-38` | after the loop all groups have been merged or moved |
| `AggregatorObjects.Aggregator.MergeKey` | `libs/joda/core/modules/query/aggregate/src/GroupAggregator.cpp:22-29` | the aggregator of a known group is merged, that of a new one moved |
| `AggregatorObjects.AccumulateAll` | `libs/joda/core/modules/queryexecution/src/pipeline/tasks/agg/AggPipeline.cpp:18-28` | a worker folds the documents of a container into its aggregator |
| `AggregatorObjects.AccumulateBatch` | `libs/joda/core/modules/queryexecution/src/pipeline/tasks/agg/AggPipeline.cpp:37-42` | each worker has an aggregator of its own |
| `AggregatorObjects.AggregateBatches` | `libs/joda/core/modules/queryexecution/src/pipeline/tasks/agg/AggMerger.cpp:5-24` | the merger of the workers computes the fold of all batches in the order of their arrival |
| `QueryCaching.QueryCache.AddQueryResult` | `libs/joda/core/modules/indexing/src/cache/QueryCache.cpp:8-24` | a result is kept under the text of its predicate unless one is kept already |
| `QueryCaching.JSONContainer.CheckDocuments` | `libs/joda/core/modules/storage/container/src/JSONContainer.cpp:143-155` | the plain scan: the valid documents on which the predicate is true |
| `QueryCaching.JSONContainer.ForAll` | `libs/joda/core/modules/storage/container/include/joda/container/JSONContainer.h:201-214` | the filter keeps the valid documents of the index on which the other predicate is true |
| `QueryCaching.CacheExecutor.EstimatedWork` | `libs/joda/core/modules/queryexecution/src/executor/CacheExecutor.cpp:18-49` | the estimate is 0 for a kept predicate and the smaller kept side for a conjunction |
| `QueryCaching.WorkIsLeast` | `libs/joda/core/modules/queryexecution/src/executor/CacheExecutor.cpp:18-49` | the estimate is the size of the smallest kept set of documents that can answer the query, and not applicable if there is none |
| `QueryCaching.AnswersAreValid` | `libs/joda/core/modules/storage/container/include/joda/container/JSONContainer.h:201-214` | whatever was asked before, no answer has a document that is not valid |
| `QueryCaching.CacheExecutor.Execute` | `libs/joda/core/modules/queryexecution/src/executor/CacheExecutor.cpp:51-131` | whenever the estimate applies the cache can answer, by the kept result or by filtering the smaller side |
| `QueryCaching.HandleOne` | `libs/joda/core/modules/queryexecution/src/pipeline/tasks/choose/ChoosePipeline.cpp:25-54` | the executor with less work answers, and its answer goes into the cache |
| `QueryCaching.RunQueries` | `libs/joda/core/modules/queryexecution/src/pipeline/tasks/choose/ChoosePipeline.cpp:25-54` | the answers of a sequence of queries are those of the executors with the cache of the queries before |
| `QueryCaching.CachedAnswerIsScan` | `libs/joda/core/modules/queryexecution/src/executor/CacheExecutor.cpp:51-131` | if no text is mistaken, every answer from the cache is the plain scan |
| `QueryCaching.HistoryIsRight` | `libs/joda/core/modules/queryexecution/src/executor/CacheExecutor.cpp:135-143` | if no two predicates of a history are mistaken for each other, every answer is the plain scan and the cache stays right |
| `QueryCaching.RightMeansApart` | `libs/joda/core/modules/indexing/src/cache/QueryCache.cpp:8-18` | if all answers are right, predicates with the same text are true on the same documents |
| `QueryCaching.HistoryIsRightIff` | `libs/joda/core/modules/queryexecution/src/executor/CacheExecutor.cpp:51-143` | a history, with or without conjunctions, is answered right if and only if each query is taken for a predicate that is true on the same documents |
| `QueryCaching.SimpleHistoryIsRightIff` | `libs/joda/core/modules/indexing/src/cache/QueryCache.cpp:8-18` | without conjunctions: if and only if predicates with the same text are true on the same documents |
| `QueryCaching.PrintableHistoryIsRight` | `libs/joda/core/modules/queryexecution/src/executor/CacheExecutor.cpp:14-16` | every history of printable predicates is answered as by the plain scan |
| `QueryCaching.SecondQueryRightIff` | `libs/joda/core/modules/indexing/src/cache/QueryCache.cpp:8-18` | a repeated text is answered right if and only if both predicates are true on the same documents |
| `QueryCaching.NegationIsMistaken` | `libs/joda/core/modules/queryexecution/src/executor/CacheExecutor.cpp:23-26` | an input on which a comparison gets the answer of another predicate |
| `PathsReader.RJPathsReader.Read` | `libs/joda/core/modules/similarity/src/RJPathsReader.cpp:66-96` | the handlers follow the events |
| `PathsReader.ValueIsConsumed` | `libs/joda/core/modules/similarity/src/RJPathsReader.cpp:10-96` | the events of any value, anywhere, list exactly its members in order and leave the stacks as a scalar does |
| `PathsReader.DocumentIsListed` | `libs/joda/core/modules/similarity/src/RJPathsReader.cpp:10-96` | a whole document leaves both stacks empty and has its paths listed behind those before |
| `PathsReader.ListPaths` | `libs/joda/core/modules/similarity/src/RJPathsReader.cpp:10-146` | the reader lists the positions of a document |
| `PathsReader.PositionsAreMembers` | `libs/joda/core/modules/similarity/src/RJPathsReader.cpp:71-76` | a position is listed if and only if it is a member of an object at any depth |
| `PathsReader.TextsAreDistinct` | `libs/joda/core/modules/similarity/src/RJPathsReader.cpp:140-146` | names without slashes can be told from the text |
| `PathsReader.TextsAreEqualIff` | `libs/joda/core/modules/similarity/src/RJPathsReader.cpp:140-146` | two positions have the same text if and only if they are the same once their names are cut at the slashes |
| `PathsReader.SlashesAreAmbiguous` | `libs/joda/core/modules/similarity/src/RJPathsReader.cpp:140-146` | two documents with different positions and the same texts |
| `Pagination.JSONContainer.Stringify` | `libs/joda/core/modules/storage/container/src/JSONContainer.cpp:854-889` | the texts of the range are returned, unless the length to reserve is negative |
| `Pagination.JSONStorage.InsertDocuments` | `libs/joda/core/modules/storage/src/JSONStorage.cpp:37-45` | a container is appended, a missing one ignored |
| `Pagination.JSONStorage.SkipTo` | `libs/joda/core/modules/storage/src/JSONStorage.cpp:199-205` | the loop stops at the container of the first document |
| `Pagination.JSONStorage.Part` | `libs/joda/core/modules/storage/src/JSONStorage.cpp:208-227` | each container contributes its part of the range |
| `Pagination.JSONStorage.Collect` | `libs/joda/core/modules/storage/src/JSONStorage.cpp:207-231` | the loop collects the range, or stays at an empty container |
| `Pagination.JSONStorage.Stringify` | `libs/joda/core/modules/storage/src/JSONStorage.cpp:183-233` | the range of the concatenated documents is returned, and the call does not return if and only if an empty container lies within the range |
| `Pagination.EmptyContainerIsStuck` | `libs/joda/core/modules/storage/src/JSONStorage.cpp:228-230` | an input on which the call does not return |
| `Pagination.WriteChunk` | `libs/joda/core/modules/network/src/apiv2/JodaResultRequest.cpp:100-107` | commas stand between all strings of all chunks |
| `Pagination.SendChunk` | `libs/joda/core/modules/network/src/apiv2/JodaResultRequest.cpp:98-99` | one chunk is read; chunks with a negative position are empty |
| `Pagination.SendNext` | `libs/joda/core/modules/network/src/apiv2/JodaResultRequest.cpp:97-109` | one round of the loop sends the next chunk |
| `Pagination.SendResult` | `libs/joda/core/modules/network/src/apiv2/JodaResultRequest.cpp:79-114` | the reply is the document range in one list, and there is none if and only if an empty container lies within a chunk |
| `Pagination.RequestMeans` | `libs/joda/core/modules/network/src/apiv2/JodaResultRequest.cpp:82-86` | without a count all documents behind the offset are asked for, with one no more than so many |
| `Pagination.ReplyMeans` | `libs/joda/core/modules/network/src/apiv2/JodaResultRequest.cpp:92-110` | the text of a reply |
| `Pagination.TextsMean` | `libs/joda/core/modules/storage/container/src/JSONContainer.cpp:870-886` | a removed document is sent as an empty string |
| `Pagination.NegativeOffsetLosesDocuments` | `libs/joda/core/modules/network/src/apiv2/JodaResultRequest.cpp:93-108` | the whole request is sent if and only if the offset is not negative, or a multiple of the chunk size, or nothing was to be sent |
| `Pagination.FillBuffer` | `libs/joda/core/modules/export/src/JSONStringifier.cpp:3-36` | the bulks are full but for the last one, and together the container |
| `SharedQueue.MoveKeepsInv` | `libs/joda/core/modules/concurrency/include/joda/concurrency/Queue.h:66-107` | every step of producers, consumers and observers keeps the counts and the meaning of the mark |
| `SharedQueue.RunKeepsInv` | `libs/joda/core/modules/concurrency/include/joda/concurrency/Queue.h:66-107` | so does every orderly run |
| `SharedQueue.FinishedIsEmpty` | `libs/joda/core/modules/concurrency/include/joda/concurrency/Queue.h:48-51` | once `isFinished` says yes in an orderly run, the queue is and stays empty and everything sent has been taken |
| `SharedQueue.RegisteringIsSafeIff` | `libs/joda/core/modules/concurrency/include/joda/concurrency/Queue.h:66-70` | a producer can register without the queue ever being marked as finished before it has finished, if and only if the queue is not marked and no producer is committed to mark it |
| `SharedQueue.LateRegistrationIsMissed` | `libs/joda/core/modules/concurrency/include/joda/concurrency/Queue.h:78-85` | a run in which the element of a late producer is left in a finished queue |
| `SharedQueue.StorerStays` | `libs/joda/core/modules/concurrency/include/joda/concurrency/Queue.h:78-85` | while all have finished, someone has marked the queue or will |
| `SharedQueue.QuietIsFinished` | `libs/joda/core/modules/concurrency/include/joda/concurrency/Queue.h:78-85` | once all registered producers of a steady run have finished and everything is taken, the queue is marked and the count is zero |
| `SharedQueue.QuietSaysFinished` | `libs/joda/core/modules/concurrency/include/joda/concurrency/Queue.h:48-51` | whoever asks then is told that the queue is finished |
| `SharedQueue.FinishesAlone` | `libs/joda/core/modules/concurrency/include/joda/concurrency/Queue.h:78-85` | `producerFinished`, with its loads in either order, returns, and the last producer marks the queue and no other one does |
| `SharedQueue.AsksAlone` | `libs/joda/core/modules/concurrency/include/joda/concurrency/Queue.h:48-51` | `isFinished` says yes if and only if the queue is marked and the count is zero |
| `SharedQueue.SendsAlone` | `libs/joda/core/modules/concurrency/include/joda/concurrency/Queue.h:162-171` | `send` puts its elements into the queue and counts them |
| `SharedQueue.RetrievesAlone` | `libs/joda/core/modules/concurrency/include/joda/concurrency/Queue.h:173-184` | `retrieve` takes its elements out of the queue and out of the count |
| `SharedQueue.UnregisteringIsSafeIff` | `libs/joda/core/modules/concurrency/include/joda/concurrency/Queue.h:72-76` | a producer leaves a queue that is open or has someone to mark it if and only if others are left, none has finished, or the last one has still to look |
| `SharedQueue.UnregistrationIsMissed` | `libs/joda/core/modules/concurrency/include/joda/concurrency/Queue.h:72-85` | a run that leaves a queue no one marks |
| `SharedQueue.UnmarkedStaysUnmarked` | `libs/joda/core/modules/concurrency/include/joda/concurrency/Queue.h:78-85` | such a queue is never marked until another producer registers |
| `SharedQueue.CountWrapsAround` | `libs/joda/core/modules/concurrency/include/joda/concurrency/Queue.h:93-104` | a run in which the count of elements wraps around |
| `SharedQueue.CountIsRightIff` | `libs/joda/core/modules/concurrency/include/joda/concurrency/Queue.h:93-182` | after every orderly run the count is right if and only if no more elements are uncounted than the queue and the retrievals under way hold; otherwise it has wrapped around |

## Left out

- Parser.ParseNumber: reads integers only; a literal with a decimal point gives no match where the grammar accepts a double, and doubles are not printed either.
- Parser.Build: functions of loaded modules, which can have any name, are not part of this model, and whether a function accepts its arguments is a parameter.
- ParserRoundTrip.RoundTrip: is stated for printable expressions; that others are not read back is proved for strings, double negations and null.
- MixedExecutor.MixedExecutionIsRightIff: is about predicates in which no expression occurs twice and no constant occurs; others can be right by coincidence.
- MixedExecutor.IndexResult: the bit set of the index is the truth set of the leaf; XOR and IMPLICATION are leaves.
- AdaptiveTrie.FindStartsWith: requires strings without the character NUL and not empty, which the source cannot index either; the cache of string values, the full initialization, the searches by inequality, order and length, and the memory accounts are not part of this model.
- AdaptiveHistogram.AdaptiveHistogram.InitialSplit: documents are given as one list of numbers and values instead of ranges, at least one of them has the maximal value, and loading them is not part of this model.
- AdaptiveHistogram.FindEqual: says nothing about the tree after a split that failed; the exception of the source leaves the bucket with half of its sub-buckets filled, and later searches on it are not part of this model.
- AdaptiveHistogram.FindLess: the same after a split that failed, that is, where `AdaptiveHistogram.LessBreaks` holds.
- AdaptiveHistogram.FindMore: the same where `AdaptiveHistogram.MoreBreaks` holds.
- AdaptiveHistogram.Threshold: the factor 1.1 is a real number and not a double.
- AdaptiveHistogram.MoreIsExact: goes one way, because a bucket number that wraps around to 0 loses nothing; the exact loss is that of `AdaptiveHistogram.MoreIsExactIff`.
- MpmcQueue.Next: memory is sequentially consistent, counters and turns are unbounded, and size, emptiness and destruction are left out.
- BlockRing.Next: memory is sequentially consistent; `peek`, `pop` and `size_approx` are left out.
- MpmcAlone.TryPushFinishesAlone: bounds the steps of a thread that runs alone; while others run, a try operation can lose the exchange to them any number of times.
- Semaphore.Next: memory is sequentially consistent, the kernel semaphore is a counter without interrupts, the number of releases is not cut to an `int`, and the inner queue is a bag that may refuse.
- AdaptiveHistogram.AdaptiveHistogram.FindEqualTo: whether the query has split a bucket before is a parameter, since the first split of a histogram, and other histograms in the same query, set the same flag.
- ThreadPool.Scheduler.ScheduleFuture: requires that the pool has no task of the stage that is replaced; the source would free tasks that run.
- ThreadPool.Scheduler.RescheduleTask: the mutex makes each call one step; timers, statistics and `reset` are left out.
- SharedQueue.After: `forceSend`, the variants with tokens, back pressure and statistics are left out; a retrieval that gives up changes nothing.
- Aggregators.Accumulate: numbers are reals, the value of an expression on a document is given, and the four containers of groups are one map; the numeric, histogram, attribute and extension aggregators and the JSON that `terminate` builds are left out.
- QueryCaching.HandleOne: the cache is switched on and only it and the scan compete; answers of the adaptive executor, the Bloom filter and the materialization of views are left out.
- PathsReader.Step: the names are given without their JSON escapes, and array indices are unbounded.
- Pagination.SendResult: requires that offset, end and their difference fit a signed 64-bit number, with one to spare below; the parsing of the request, raw access, and the insertion from a queue are left out.
- Strings are sequences of characters: encodings are left out everywhere.
- The similarity measures, joins, extensions, importers, the web interface and the command line of the system would add easy members only or belong to other libraries.
