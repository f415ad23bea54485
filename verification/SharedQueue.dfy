/**
 The queue that producers register with and that is finished when all of them are. Every atomic access is one
 step of one thread; the underlying concurrent queue is a bag.
 */
module SharedQueue {
  const TWO_64 := 0x1_0000_0000_0000_0000

  /** Where a producer is: inside `send` its elements are in the queue but not yet counted in `inQueue`. */
  datatype Producer =
    | Outside
    | Registered
    | Sending(count: nat)
    | Counted
    | SawFinished(f: int)
    | SawRegistered(r: int)
    | Storing
    | Done
    | Unregistered

  /** Inside `retrieve` the elements are out of the queue but still counted. */
  datatype Consumer = Idle | Taking(count: nat)

  /** A thread in `isFinished`. */
  datatype Observer = Asking | SawWritingEnd | SaysFinished

  datatype State = State(
    queue: multiset<int>, inQueue: int, registered: int, finished: int, finishedWriting: bool,
    producers: seq<Producer>, consumers: seq<Consumer>, observers: seq<Observer>,
    sent: multiset<int>, taken: multiset<int>)

  datatype Move =
    | RegisterProducer(i: nat)
    | UnregisterProducer(i: nat)
    | Enqueue(i: nat, elements: multiset<int>)
    | AddToCount(i: nat)
    | CountFinished(i: nat)
    | LoadFinished(i: nat)
    | LoadRegistered(i: nat)
    | StoreWritingEnd(i: nat)
    | Dequeue(c: nat, elements: multiset<int>)
    | SubtractFromCount(c: nat)
    | LoadWritingEnd(o: nat)
    | LoadCount(o: nat)

  ghost predicate IsInitial(s: State) {
    && s.queue == s.sent == s.taken == multiset{}
    && s.inQueue == s.registered == s.finished == 0 && !s.finishedWriting
    && (forall i | 0 <= i < |s.producers| :: s.producers[i] == Outside)
    && (forall c | 0 <= c < |s.consumers| :: s.consumers[c] == Idle)
    && (forall o | 0 <= o < |s.observers| :: s.observers[o] == Asking)
  }

  function At(s: State, i: nat): Producer {
    if i < |s.producers| then s.producers[i] else Outside
  }

  predicate Enabled(s: State, m: Move) {
    match m
    case RegisterProducer(i) => i < |s.producers| && s.producers[i].Outside?
    case UnregisterProducer(i) => At(s, i).Registered?
    case Enqueue(i, elements) => At(s, i).Registered? && |elements| > 0
    case AddToCount(i) => At(s, i).Sending?
    case CountFinished(i) => At(s, i).Registered?
    case LoadFinished(i) => At(s, i).Counted? || At(s, i).SawRegistered?
    case LoadRegistered(i) => At(s, i).Counted? || At(s, i).SawFinished?
    case StoreWritingEnd(i) => At(s, i).Storing?
    case Dequeue(c, elements) =>
      c < |s.consumers| && s.consumers[c].Idle? && |elements| > 0 && elements <= s.queue
    case SubtractFromCount(c) => c < |s.consumers| && s.consumers[c].Taking?
    case LoadWritingEnd(o) => o < |s.observers| && s.observers[o].Asking?
    case LoadCount(o) => o < |s.observers| && s.observers[o].SawWritingEnd?
  }

  function Set(s: State, i: nat, p: Producer): State
    requires i < |s.producers|
  {
    s.(producers := s.producers[i := p])
  }

  /** The comparison that ends `producerFinished`; its two loads can come in either order. */
  function Decided(finished: int, registered: int): Producer {
    if finished >= registered then Storing else Done
  }

  function After(s: State, m: Move): State
    requires Enabled(s, m)
  {
    match m
    case RegisterProducer(i) => Set(s, i, Registered).(registered := s.registered + 1)
    case UnregisterProducer(i) => Set(s, i, Unregistered).(registered := s.registered - 1)
    case Enqueue(i, elements) =>
      Set(s, i, Sending(|elements|)).(queue := s.queue + elements, sent := s.sent + elements)
    case AddToCount(i) => Set(s, i, Registered).(inQueue := (s.inQueue + s.producers[i].count) % TWO_64)
    case CountFinished(i) => Set(s, i, Counted).(finished := s.finished + 1)
    case LoadFinished(i) =>
      if s.producers[i].Counted? then Set(s, i, SawFinished(s.finished))
      else Set(s, i, Decided(s.finished, s.producers[i].r))
    case LoadRegistered(i) =>
      if s.producers[i].Counted? then Set(s, i, SawRegistered(s.registered))
      else Set(s, i, Decided(s.producers[i].f, s.registered))
    case StoreWritingEnd(i) => Set(s, i, Done).(finishedWriting := true)
    case Dequeue(c, elements) =>
      s.(queue := s.queue - elements, taken := s.taken + elements, consumers := s.consumers[c := Taking(|elements|)])
    case SubtractFromCount(c) =>
      s.(inQueue := (s.inQueue - s.consumers[c].count) % TWO_64, consumers := s.consumers[c := Idle])
    case LoadWritingEnd(o) => if s.finishedWriting then s.(observers := s.observers[o := SawWritingEnd]) else s
    case LoadCount(o) => s.(observers := s.observers[o := if s.inQueue == 0 then SaysFinished else Asking])
  }

  // ---------------------------------------------------------------------------------------------
  // Counting threads
  // ---------------------------------------------------------------------------------------------

  ghost function Sum<T>(s: seq<T>, weight: T -> nat): nat {
    if s == [] then 0 else Sum(s[..|s| - 1], weight) + weight(s[|s| - 1])
  }

  lemma {:induction false} SumUpdate<T>(s: seq<T>, i: nat, x: T, weight: T -> nat)
    requires i < |s|
    ensures Sum(s[i := x], weight) == Sum(s, weight) - weight(s[i]) + weight(x)
  {
    var n := |s| - 1;
    if i == n {
      assert s[i := x][..n] == s[..n];
    } else {
      assert s[i := x][..n] == s[..n][i := x];
      SumUpdate(s[..n], i, x, weight);
    }
  }

  lemma {:induction false} SumAtLeast<T>(s: seq<T>, i: nat, weight: T -> nat)
    requires i < |s|
    ensures Sum(s, weight) >= weight(s[i])
  {
    if i < |s| - 1 {
      SumAtLeast(s[..|s| - 1], i, weight);
    }
  }

  lemma {:induction false} SumZero<T>(s: seq<T>, weight: T -> nat)
    requires forall i | 0 <= i < |s| :: weight(s[i]) == 0
    ensures Sum(s, weight) == 0
  {
    if s != [] {
      SumZero(s[..|s| - 1], weight);
    }
  }

  function IsRegistered(p: Producer): nat {
    if p.Outside? || p.Unregistered? then 0 else 1
  }

  function HasFinished(p: Producer): nat {
    if p.Outside? || p.Unregistered? || p.Registered? || p.Sending? then 0 else 1
  }

  function Uncounted(p: Producer): nat {
    if p.Sending? then p.count else 0
  }

  function StillCounted(c: Consumer): nat {
    if c.Taking? then c.count else 0
  }

  lemma {:induction false} FinishedAreRegistered(s: seq<Producer>)
    ensures Sum(s, HasFinished) <= Sum(s, IsRegistered)
    ensures Sum(s, HasFinished) == Sum(s, IsRegistered) ==> forall i | 0 <= i < |s| :: !s[i].Registered? && !s[i].Sending?
  {
    if s != [] {
      FinishedAreRegistered(s[..|s| - 1]);
    }
  }

  // ---------------------------------------------------------------------------------------------
  // The invariant
  // ---------------------------------------------------------------------------------------------

  /** `inQueue` is the number of elements, up to sends and retrievals under way, modulo the word size. */
  ghost predicate CountsAgree(s: State) {
    && s.registered == Sum(s.producers, IsRegistered)
    && s.finished == Sum(s.producers, HasFinished)
    && s.inQueue == (|s.queue| - Sum(s.producers, Uncounted) + Sum(s.consumers, StillCounted)) % TWO_64
    && s.sent == s.queue + s.taken
  }

  /** All producers have finished, which stays so if none registers late. */
  ghost predicate IsClosed(s: State) {
    s.finished > 0 && s.finished >= s.registered
  }

  ghost predicate ProducerFits(s: State, p: Producer) {
    && (HasFinished(p) > 0 ==> s.finished > 0)
    && (p.SawFinished? ==> p.f <= s.finished)
    && (p.SawRegistered? ==> s.registered <= p.r)
    && (p.Storing? ==> IsClosed(s))
  }

  ghost predicate ObserverFits(s: State, o: Observer) {
    && (o != Asking ==> s.finishedWriting)
    && (o == SaysFinished ==> s.queue == multiset{})
  }

  ghost predicate Inv(s: State) {
    && CountsAgree(s)
    && (forall i | 0 <= i < |s.producers| :: ProducerFits(s, s.producers[i]))
    && (s.finishedWriting ==> IsClosed(s))
    && (forall o | 0 <= o < |s.observers| :: ObserverFits(s, s.observers[o]))
  }

  /** The producer is about to mark the queue as finished, or will be once as many have finished as it saw registered. */
  predicate IsCommitted(s: State, p: Producer) {
    p.Storing? || (p.SawRegistered? && p.r <= s.registered)
  }

  /** The queue is not marked as finished, and no producer can do so for what it saw before. */
  ghost predicate MayRegister(s: State) {
    !s.finishedWriting && forall i | 0 <= i < |s.producers| :: !IsCommitted(s, s.producers[i])
  }

  ghost predicate HasRoom(s: State) {
    |s.queue| + Sum(s.consumers, StillCounted) < TWO_64
  }

  /** Producers register only while they may, and all elements have room in memory. */
  ghost predicate IsOrderly(s: State, m: Move) {
    (m.RegisterProducer? ==> MayRegister(s)) && HasRoom(s)
  }

  /** Until one producer has finished, others may register. */
  lemma EarlyMayRegister(s: State)
    requires Inv(s) && s.finished == 0
    ensures MayRegister(s)
  {
    forall i | 0 <= i < |s.producers| ensures !IsCommitted(s, s.producers[i]) {
      assert ProducerFits(s, s.producers[i]);
    }
  }

  lemma InitialInv(s: State)
    requires IsInitial(s)
    ensures Inv(s)
  {
    SumZero(s.producers, IsRegistered);
    SumZero(s.producers, HasFinished);
    SumZero(s.producers, Uncounted);
    SumZero(s.consumers, StillCounted);
  }

  lemma SetCounts(s: State, i: nat, p: Producer)
    requires i < |s.producers|
    ensures var ps := Set(s, i, p).producers; var q := s.producers[i];
            && Sum(ps, IsRegistered) == Sum(s.producers, IsRegistered) - IsRegistered(q) + IsRegistered(p)
            && Sum(ps, HasFinished) == Sum(s.producers, HasFinished) - HasFinished(q) + HasFinished(p)
            && Sum(ps, Uncounted) == Sum(s.producers, Uncounted) - Uncounted(q) + Uncounted(p)
  {
    SumUpdate(s.producers, i, p, IsRegistered);
    SumUpdate(s.producers, i, p, HasFinished);
    SumUpdate(s.producers, i, p, Uncounted);
  }

  lemma EnqueueCounts(s: State, i: nat, elements: multiset<int>)
    requires CountsAgree(s) && Enabled(s, Enqueue(i, elements))
    ensures CountsAgree(After(s, Enqueue(i, elements)))
  {
    SetCounts(s, i, Sending(|elements|));
    assert |s.queue + elements| == |s.queue| + |elements|;
  }

  lemma AddCounts(s: State, i: nat)
    requires CountsAgree(s) && Enabled(s, AddToCount(i))
    ensures CountsAgree(After(s, AddToCount(i)))
  {
    SetCounts(s, i, Registered);
    Wraps(s.inQueue, |s.queue| - Sum(s.producers, Uncounted) + Sum(s.consumers, StillCounted), s.producers[i].count);
  }

  lemma DequeueCounts(s: State, c: nat, elements: multiset<int>)
    requires CountsAgree(s) && Enabled(s, Dequeue(c, elements))
    ensures CountsAgree(After(s, Dequeue(c, elements)))
  {
    SumUpdate(s.consumers, c, Taking(|elements|), StillCounted);
    assert |s.queue - elements| == |s.queue| - |elements|;
  }

  lemma SubtractCounts(s: State, c: nat)
    requires CountsAgree(s) && Enabled(s, SubtractFromCount(c))
    ensures CountsAgree(After(s, SubtractFromCount(c)))
  {
    SumUpdate(s.consumers, c, Idle, StillCounted);
    var n: int := s.consumers[c].count;
    Wraps(s.inQueue, |s.queue| - Sum(s.producers, Uncounted) + Sum(s.consumers, StillCounted), -n);
  }

  /** The steps that move no element. */
  predicate MovesNothing(m: Move) {
    !m.Enqueue? && !m.AddToCount? && !m.Dequeue? && !m.SubtractFromCount?
  }

  lemma OtherCounts(s: State, m: Move)
    requires CountsAgree(s) && Enabled(s, m) && MovesNothing(m)
    ensures CountsAgree(After(s, m))
  {
    if m.LoadFinished? || m.LoadRegistered? || m.StoreWritingEnd? {
      LookCounts(s, m);
    } else if !m.LoadWritingEnd? && !m.LoadCount? {
      SetCounts(s, m.i, After(s, m).producers[m.i]);
    }
  }

  /** The producer has counted itself as finished before it looks and marks. */
  lemma LookCounts(s: State, m: Move)
    requires CountsAgree(s) && Enabled(s, m) && (m.LoadFinished? || m.LoadRegistered? || m.StoreWritingEnd?)
    ensures CountsAgree(After(s, m))
  {
    SetCounts(s, m.i, After(s, m).producers[m.i]);
  }

  lemma CountsStayAgreed(s: State, m: Move)
    requires CountsAgree(s) && Enabled(s, m)
    ensures CountsAgree(After(s, m))
  {
    match m
    case Enqueue(i, elements) => EnqueueCounts(s, i, elements);
    case AddToCount(i) => AddCounts(s, i);
    case Dequeue(c, elements) => DequeueCounts(s, c, elements);
    case SubtractFromCount(c) => SubtractCounts(s, c);
    case _ => OtherCounts(s, m);
  }

  lemma Wraps(x: int, y: int, d: int)
    requires x == y % TWO_64
    ensures (x + d) % TWO_64 == (y + d) % TWO_64
  {
    var q, r := y / TWO_64, (y + d) / TWO_64;
    assert x + d == (r - q) * TWO_64 + (y + d) % TWO_64;
    assert (x + d) / TWO_64 == r - q;
  }

  /** Once all producers have finished, nothing can be sent any more. */
  lemma ClosedSendsNothing(s: State)
    requires CountsAgree(s) && IsClosed(s)
    ensures forall i | 0 <= i < |s.producers| :: !s.producers[i].Registered? && !s.producers[i].Sending?
    ensures Sum(s.producers, Uncounted) == 0
  {
    FinishedAreRegistered(s.producers);
    SumZero(s.producers, Uncounted);
  }

  lemma ClosedStays(s: State, m: Move)
    requires CountsAgree(s) && IsClosed(s) && Enabled(s, m) && !m.RegisterProducer?
    ensures IsClosed(After(s, m))
    ensures After(s, m).queue <= s.queue
  {
    ClosedSendsNothing(s);
  }

  /** A count of zero behind a closed queue means that it is empty. */
  lemma ZeroIsEmpty(s: State)
    requires CountsAgree(s) && IsClosed(s) && s.inQueue == 0
    requires HasRoom(s)
    ensures s.queue == multiset{}
    ensures forall c | 0 <= c < |s.consumers| :: StillCounted(s.consumers[c]) == 0
  {
    ClosedSendsNothing(s);
    forall c | 0 <= c < |s.consumers| ensures StillCounted(s.consumers[c]) == 0 {
      SumAtLeast(s.consumers, c, StillCounted);
    }
  }

  lemma ProducersStayFit(s: State, m: Move)
    requires Inv(s) && Enabled(s, m) && IsOrderly(s, m)
    ensures forall i | 0 <= i < |s.producers| :: ProducerFits(After(s, m), After(s, m).producers[i])
  {
    var t := After(s, m);
    if IsClosed(s) && !m.RegisterProducer? {
      ClosedStays(s, m);
    }
    CountsStayAgreed(s, m);
    forall i | 0 <= i < |s.producers| ensures ProducerFits(t, t.producers[i]) {
      assert ProducerFits(s, s.producers[i]);
      assert m.RegisterProducer? ==> !IsCommitted(s, s.producers[i]);
    }
  }

  lemma ObserversStayFit(s: State, m: Move)
    requires Inv(s) && Enabled(s, m) && IsOrderly(s, m)
    ensures forall o | 0 <= o < |s.observers| :: ObserverFits(After(s, m), After(s, m).observers[o])
  {
    var t := After(s, m);
    if IsClosed(s) && !m.RegisterProducer? {
      ClosedStays(s, m);
      if s.inQueue == 0 {
        ZeroIsEmpty(s);
      }
    }
    forall o | 0 <= o < |s.observers| ensures ObserverFits(t, t.observers[o]) {
      assert ObserverFits(s, s.observers[o]);
    }
  }

  lemma MoveKeepsInv(s: State, m: Move)
    requires Inv(s) && Enabled(s, m) && IsOrderly(s, m)
    ensures Inv(After(s, m))
  {
    CountsStayAgreed(s, m);
    ProducersStayFit(s, m);
    ObserversStayFit(s, m);
    if s.finishedWriting {
      ClosedStays(s, m);
    } else if m.StoreWritingEnd? {
      assert ProducerFits(s, s.producers[m.i]);
    }
  }

  // ---------------------------------------------------------------------------------------------
  // Runs
  // ---------------------------------------------------------------------------------------------

  ghost predicate IsRun(s: State, moves: seq<Move>)
    decreases |moves|
  {
    moves == [] || (Enabled(s, moves[0]) && IsRun(After(s, moves[0]), moves[1..]))
  }

  ghost function End(s: State, moves: seq<Move>): State
    requires IsRun(s, moves)
    decreases |moves|
  {
    if moves == [] then s else End(After(s, moves[0]), moves[1..])
  }

  ghost predicate IsOrderlyRun(s: State, moves: seq<Move>)
    decreases |moves|
  {
    && IsRun(s, moves)
    && (moves == [] || (IsOrderly(s, moves[0]) && IsOrderlyRun(After(s, moves[0]), moves[1..])))
  }

  lemma {:induction false} RunKeepsInv(s: State, moves: seq<Move>)
    requires Inv(s) && IsOrderlyRun(s, moves)
    ensures Inv(End(s, moves))
    decreases |moves|
  {
    if moves != [] {
      MoveKeepsInv(s, moves[0]);
      RunKeepsInv(After(s, moves[0]), moves[1..]);
    }
  }

  lemma {:induction false} FinishedStays(s: State, o: nat, moves: seq<Move>)
    requires IsRun(s, moves) && o < |s.observers| && s.observers[o] == SaysFinished
    ensures o < |End(s, moves).observers| && End(s, moves).observers[o] == SaysFinished
    decreases |moves|
  {
    if moves != [] {
      FinishedStays(After(s, moves[0]), o, moves[1..]);
    }
  }

  /**
   When `isFinished` says yes in a run in which producers register only while they may, the queue is empty and
   everything sent has been taken, then and at any later time.
   */
  lemma FinishedIsEmpty(s: State, moves: seq<Move>, o: nat, later: seq<Move>)
    requires IsInitial(s) && IsOrderlyRun(s, moves) && IsOrderlyRun(End(s, moves), later)
    requires o < |End(s, moves).observers| && End(s, moves).observers[o] == SaysFinished
    ensures End(End(s, moves), later).queue == multiset{}
    ensures End(End(s, moves), later).taken == End(End(s, moves), later).sent
  {
    var t := End(s, moves);
    InitialInv(s);
    RunKeepsInv(s, moves);
    RunKeepsInv(t, later);
    FinishedStays(t, o, later);
    assert ObserverFits(End(t, later), End(t, later).observers[o]);
  }

  // ---------------------------------------------------------------------------------------------
  // The last producer to finish
  // ---------------------------------------------------------------------------------------------

  /** The producer is in `producerFinished` and will find that it is the last one. */
  ghost predicate WillStore(s: State, p: Producer) {
    match p
    case Counted => true
    case SawFinished(f) => f >= s.registered
    case SawRegistered(r) => s.finished >= r
    case Storing => true
    case _ => false
  }

  ghost predicate SomeoneStores(s: State) {
    s.finishedWriting || exists i | 0 <= i < |s.producers| :: WillStore(s, s.producers[i])
  }

  /** The producer is in `producerFinished` and will find that it is the last one, also without one that unregisters. */
  predicate Remains(s: State, p: Producer) {
    p.Counted? || (p.SawFinished? && p.f >= s.registered - 1)
  }

  /** Others are left, or none has finished, or the one that finishes last has still to look. */
  ghost predicate MayUnregister(s: State) {
    || s.finished == 0 || s.finished < s.registered - 1
    || exists i | 0 <= i < |s.producers| :: Remains(s, s.producers[i])
  }

  /** Producers also unregister only while they may. */
  ghost predicate IsSteadyRun(s: State, moves: seq<Move>)
    decreases |moves|
  {
    && IsOrderlyRun(s, moves)
    && (moves == [] || ((moves[0].UnregisterProducer? ==> MayUnregister(s)) && IsSteadyRun(After(s, moves[0]), moves[1..])))
  }

  /** Exactly then, the queue that it leaves is still open or has someone to mark it. */
  lemma UnregisteringIsSafeIff(s: State, i: nat)
    requires Inv(s) && Enabled(s, UnregisterProducer(i))
    ensures var t := After(s, UnregisterProducer(i)); (IsClosed(t) ==> SomeoneStores(t)) <==> MayUnregister(s)
  {
    var t := After(s, UnregisterProducer(i));
    FinishedAreRegistered(s.producers);
    assert s.finished < s.registered;
    forall j | 0 <= j < |s.producers| && j != i ensures s.finished == s.registered - 1 ==> (WillStore(t, t.producers[j]) <==> Remains(s, s.producers[j])) {
      assert ProducerFits(s, s.producers[j]);
    }
    if j :| 0 <= j < |s.producers| && Remains(s, s.producers[j]) {
      assert j != i;
    }
  }

  lemma StorerStays(s: State, m: Move)
    requires Inv(s) && Enabled(s, m) && IsOrderly(s, m) && (m.UnregisterProducer? ==> MayUnregister(s))
    requires IsClosed(s) ==> SomeoneStores(s)
    ensures IsClosed(After(s, m)) ==> SomeoneStores(After(s, m))
  {
    var t := After(s, m);
    if m.RegisterProducer? {
      FinishedAreRegistered(s.producers);
    } else if m.UnregisterProducer? {
      UnregisteringIsSafeIff(s, m.i);
    } else if m.CountFinished? {
      assert WillStore(t, t.producers[m.i]);
    } else if IsClosed(s) && !s.finishedWriting {
      var i :| 0 <= i < |s.producers| && WillStore(s, s.producers[i]);
      assert t.finishedWriting || WillStore(t, t.producers[i]);
    }
  }

  lemma {:induction false} SteadyRunStores(s: State, moves: seq<Move>)
    requires Inv(s) && IsSteadyRun(s, moves)
    requires IsClosed(s) ==> SomeoneStores(s)
    ensures IsClosed(End(s, moves)) ==> SomeoneStores(End(s, moves))
    decreases |moves|
  {
    if moves != [] {
      MoveKeepsInv(s, moves[0]);
      StorerStays(s, moves[0]);
      SteadyRunStores(After(s, moves[0]), moves[1..]);
    }
  }

  ghost predicate IsQuiet(s: State) {
    forall i | 0 <= i < |s.producers| :: s.producers[i].Outside? || s.producers[i].Done? || s.producers[i].Unregistered?
  }

  lemma {:induction false} QuietCounts(s: seq<Producer>)
    requires forall i | 0 <= i < |s| :: s[i].Outside? || s[i].Done? || s[i].Unregistered?
    ensures Sum(s, IsRegistered) == Sum(s, HasFinished) && Sum(s, Uncounted) == 0
  {
    if s != [] {
      QuietCounts(s[..|s| - 1]);
    }
  }

  /** Once all registered producers have finished and everything is taken, `isFinished` says yes. */
  lemma QuietIsFinished(s: State, moves: seq<Move>)
    requires IsInitial(s) && IsSteadyRun(s, moves)
    requires IsQuiet(End(s, moves)) && End(s, moves).finished > 0
    ensures End(s, moves).finishedWriting
    ensures End(s, moves).queue == multiset{} && (forall c | 0 <= c < |End(s, moves).consumers| :: End(s, moves).consumers[c].Idle?)
            ==> End(s, moves).inQueue == 0
  {
    var t := End(s, moves);
    InitialInv(s);
    RunKeepsInv(s, moves);
    SteadyRunStores(s, moves);
    QuietCounts(t.producers);
    if forall c | 0 <= c < |t.consumers| :: t.consumers[c].Idle? {
      SumZero(t.consumers, StillCounted);
    }
  }

  // ---------------------------------------------------------------------------------------------
  // What each operation comes to while the other threads pause
  // ---------------------------------------------------------------------------------------------

  lemma TwoMoves(s: State, a: Move, b: Move)
    requires Enabled(s, a) && Enabled(After(s, a), b)
    ensures IsRun(s, [a, b]) && End(s, [a, b]) == After(After(s, a), b)
  {
    OneMore(s, [], a);
    assert [] + [a] == [a] && [a] + [b] == [a, b];
    OneMore(s, [a], b);
  }

  /** `send` puts its elements into the queue and counts them. */
  lemma SendsAlone(s: State, i: nat, elements: multiset<int>)
    requires Enabled(s, Enqueue(i, elements))
    ensures var moves := [Enqueue(i, elements), AddToCount(i)];
            IsRun(s, moves) && End(s, moves) ==
              s.(queue := s.queue + elements, sent := s.sent + elements, inQueue := (s.inQueue + |elements|) % TWO_64)
  {
    assert s.producers[i := Sending(|elements|)][i := Registered] == s.producers;
    var n := |elements|;
    assert After(s, Enqueue(i, elements)) == Set(s, i, Sending(n)).(queue := s.queue + elements, sent := s.sent + elements);
    TwoMoves(s, Enqueue(i, elements), AddToCount(i));
  }

  /** `retrieve` takes its elements out of the queue and out of the count. */
  lemma RetrievesAlone(s: State, c: nat, elements: multiset<int>)
    requires Enabled(s, Dequeue(c, elements))
    ensures var moves := [Dequeue(c, elements), SubtractFromCount(c)];
            IsRun(s, moves) && End(s, moves) ==
              s.(queue := s.queue - elements, taken := s.taken + elements, inQueue := (s.inQueue - |elements|) % TWO_64)
  {
    TwoMoves(s, Dequeue(c, elements), SubtractFromCount(c));
    assert s.consumers[c := Taking(|elements|)][c := Idle] == s.consumers;
  }

  /** `producerFinished`, with its two loads in either order: the last producer marks the queue, no other one does. */
  lemma FinishesAlone(s: State, i: nat, first: Move, second: Move) returns (moves: seq<Move>)
    requires Enabled(s, CountFinished(i)) && {first, second} == {LoadFinished(i), LoadRegistered(i)}
    ensures [CountFinished(i), first, second] <= moves && |moves| <= 4 && IsRun(s, moves)
    ensures End(s, moves) == Set(s, i, Done).(finished := s.finished + 1,
                                              finishedWriting := s.finishedWriting || s.finished + 1 >= s.registered)
  {
    OneMore(s, [], CountFinished(i));
    moves := [CountFinished(i)];
    assert [] + [CountFinished(i)] == moves;
    OneMore(s, moves, first);
    moves := moves + [first];
    OneMore(s, moves, second);
    moves := moves + [second];
    var t := End(s, moves);
    assert t.producers == s.producers[i := Decided(s.finished + 1, s.registered)];
    if t.producers[i].Storing? {
      OneMore(s, moves, StoreWritingEnd(i));
      moves := moves + [StoreWritingEnd(i)];
    }
    assert End(s, moves).producers == s.producers[i := Done];
  }

  /** `isFinished` says yes if the queue is marked and the count is zero, and may be asked again otherwise. */
  lemma AsksAlone(s: State, o: nat)
    requires Enabled(s, LoadWritingEnd(o))
    ensures !s.finishedWriting ==> After(s, LoadWritingEnd(o)) == s
    ensures s.finishedWriting ==>
      var moves := [LoadWritingEnd(o), LoadCount(o)];
      IsRun(s, moves) && End(s, moves) == s.(observers := s.observers[o := if s.inQueue == 0 then SaysFinished else Asking])
  {
    if s.finishedWriting {
      TwoMoves(s, LoadWritingEnd(o), LoadCount(o));
      assert s.observers[o := SawWritingEnd][o := Asking] == s.observers[o := Asking];
    }
  }

  /** Whoever asks then is told that the queue is finished. */
  lemma QuietSaysFinished(s: State, moves: seq<Move>, o: nat)
    requires IsInitial(s) && IsSteadyRun(s, moves)
    requires IsQuiet(End(s, moves)) && End(s, moves).finished > 0
    requires End(s, moves).queue == multiset{} && forall c | 0 <= c < |End(s, moves).consumers| :: End(s, moves).consumers[c].Idle?
    requires Enabled(End(s, moves), LoadWritingEnd(o))
    ensures var asked := [LoadWritingEnd(o), LoadCount(o)];
            IsRun(End(s, moves), asked) && o < |End(End(s, moves), asked).observers| && End(End(s, moves), asked).observers[o] == SaysFinished
  {
    QuietIsFinished(s, moves);
    AsksAlone(End(s, moves), o);
  }

  // ---------------------------------------------------------------------------------------------
  // What the order of registration is needed for
  // ---------------------------------------------------------------------------------------------

  lemma {:induction false} OneMore(s: State, moves: seq<Move>, m: Move)
    requires IsRun(s, moves) && Enabled(End(s, moves), m)
    ensures IsRun(s, moves + [m]) && End(s, moves + [m]) == After(End(s, moves), m)
    ensures IsOrderlyRun(s, moves) && IsOrderly(End(s, moves), m) ==> IsOrderlyRun(s, moves + [m])
    decreases |moves|
  {
    if moves == [] {
      assert [] + [m] == [m] && [m][1..] == [];
    } else {
      assert (moves + [m])[1..] == moves[1..] + [m];
      OneMore(After(s, moves[0]), moves[1..], m);
    }
  }

  /** The queue is marked as finished, though a registered producer has not finished. */
  ghost predicate IsPremature(s: State) {
    s.finishedWriting && s.finished < s.registered
  }

  /** Of the first n producers, none but i has still to count itself as finished; p is where it was. */
  ghost predicate OthersAreDone(s: State, t: State, i: nat, p: nat, n: nat)
    requires i < |s.producers| && p < |s.producers| && n <= |s.producers|
  {
    && CountsAgree(t) && HasRoom(t) && t.registered == s.registered && |t.producers| == |s.producers|
    && t.producers[i].Registered? && t.producers[p] == s.producers[p]
    && forall j | 0 <= j < n && j != i :: !t.producers[j].Registered? && !t.producers[j].Sending?
  }

  lemma {:induction false} OthersFinish(s: State, i: nat, p: nat, n: nat) returns (more: seq<Move>)
    requires CountsAgree(s) && HasRoom(s) && i < |s.producers| && p < |s.producers| && n <= |s.producers|
    requires s.producers[i].Registered? && s.producers[p].SawRegistered?
    ensures IsOrderlyRun(s, more) && OthersAreDone(s, End(s, more), i, p, n)
  {
    if n == 0 {
      more := [];
    } else {
      more := OthersFinish(s, i, p, n - 1);
      more := OtherFinishes(s, i, p, n - 1, more);
    }
  }

  lemma OtherFinishes(s: State, i: nat, p: nat, n: nat, moves: seq<Move>) returns (more: seq<Move>)
    requires i < |s.producers| && p < |s.producers| && n < |s.producers| && s.producers[p].SawRegistered?
    requires IsOrderlyRun(s, moves) && OthersAreDone(s, End(s, moves), i, p, n)
    ensures IsOrderlyRun(s, more) && OthersAreDone(s, End(s, more), i, p, n + 1)
  {
    more := moves;
    if n != i && End(s, moves).producers[n].Sending? {
      more := OthersMove(s, i, p, n, moves, AddToCount(n));
    }
    var between := more;
    if n != i && End(s, between).producers[n].Registered? {
      more := OthersMove(s, i, p, n, between, CountFinished(n));
    }
  }

  lemma OthersMove(s: State, i: nat, p: nat, n: nat, moves: seq<Move>, m: Move) returns (more: seq<Move>)
    requires i < |s.producers| && p < |s.producers| && n < |s.producers| && n != i && s.producers[p].SawRegistered?
    requires IsOrderlyRun(s, moves) && OthersAreDone(s, End(s, moves), i, p, n)
    requires (m == AddToCount(n) || m == CountFinished(n)) && Enabled(End(s, moves), m)
    ensures IsOrderlyRun(s, more) && OthersAreDone(s, End(s, more), i, p, n)
    ensures End(s, more).producers[n] == if m.AddToCount? then Registered else Counted
  {
    OneMore(s, moves, m);
    CountsStayAgreed(End(s, moves), m);
    more := moves + [m];
  }

  lemma {:induction false} NoneUnfinished(s: seq<Producer>)
    requires forall i | 0 <= i < |s| :: !s[i].Registered? && !s[i].Sending?
    ensures Sum(s, IsRegistered) == Sum(s, HasFinished)
  {
    if s != [] {
      NoneUnfinished(s[..|s| - 1]);
    }
  }

  lemma OneUnfinished(s: seq<Producer>, i: nat)
    requires i < |s| && s[i].Registered? && forall j | 0 <= j < |s| && j != i :: !s[j].Registered? && !s[j].Sending?
    ensures Sum(s, HasFinished) == Sum(s, IsRegistered) - 1
  {
    SumUpdate(s, i, Done, HasFinished);
    SumUpdate(s, i, Done, IsRegistered);
    NoneUnfinished(s[i := Done]);
  }

  /** A producer that has seen fewer registered marks the queue when all others have finished. */
  lemma CommittedMarks(s: State, i: nat, p: nat) returns (more: seq<Move>)
    requires CountsAgree(s) && HasRoom(s) && i < |s.producers| && p < |s.producers|
    requires s.producers[i].Registered? && s.producers[p].SawRegistered? && s.producers[p].r < s.registered
    ensures IsOrderlyRun(s, more) && IsPremature(End(s, more))
  {
    more := OthersFinish(s, i, p, |s.producers|);
    OneUnfinished(End(s, more).producers, i);
    OneMore(s, more, LoadFinished(p));
    more := more + [LoadFinished(p)];
    OneMore(s, more, StoreWritingEnd(p));
    more := more + [StoreWritingEnd(p)];
  }

  /** Once the queue is marked, or will be by a producer that did not see the new one, the new one is missed. */
  lemma LateIsPremature(s: State, i: nat) returns (more: seq<Move>)
    requires Inv(s) && HasRoom(s) && Enabled(s, RegisterProducer(i)) && !MayRegister(s)
    ensures IsOrderlyRun(After(s, RegisterProducer(i)), more) && IsPremature(End(After(s, RegisterProducer(i)), more))
  {
    var t := After(s, RegisterProducer(i));
    FinishedAreRegistered(s.producers);
    CountsStayAgreed(s, RegisterProducer(i));
    more := [];
    if !s.finishedWriting {
      var p: nat :| p < |s.producers| && IsCommitted(s, s.producers[p]);
      if s.producers[p].Storing? {
        OneMore(t, more, StoreWritingEnd(p));
        more := more + [StoreWritingEnd(p)];
      } else {
        more := CommittedMarks(t, i, p);
      }
    }
  }

  ghost predicate StaysRight(s: State, moves: seq<Move>) {
    IsOrderlyRun(s, moves) ==> !IsPremature(End(s, moves))
  }

  /** A producer can register without ever being missed exactly while it may. */
  lemma RegisteringIsSafeIff(s: State, i: nat)
    requires Inv(s) && HasRoom(s) && Enabled(s, RegisterProducer(i))
    ensures MayRegister(s) <==> forall more :: StaysRight(After(s, RegisterProducer(i)), more)
  {
    var t := After(s, RegisterProducer(i));
    if MayRegister(s) {
      MoveKeepsInv(s, RegisterProducer(i));
      forall more ensures StaysRight(t, more) {
        if IsOrderlyRun(t, more) {
          RunKeepsInv(t, more);
        }
      }
    } else {
      var more := LateIsPremature(s, i);
      assert !StaysRight(t, more);
    }
  }

  function Start(): State {
    State(multiset{}, 0, 0, 0, false, [Outside, Outside], [Idle], [Asking], multiset{}, multiset{})
  }

  /** One producer registers and finishes, with the other one outside. */
  lemma OneFinishes() returns (moves: seq<Move>)
    ensures IsRun(Start(), moves)
    ensures End(Start(), moves) == Start().(registered := 1, finished := 1, finishedWriting := true, producers := [Done, Outside])
  {
    moves := [];
    OneMore(Start(), moves, RegisterProducer(0));
    moves := moves + [RegisterProducer(0)];
    OneMore(Start(), moves, CountFinished(0));
    moves := moves + [CountFinished(0)];
    OneMore(Start(), moves, LoadFinished(0));
    moves := moves + [LoadFinished(0)];
    OneMore(Start(), moves, LoadRegistered(0));
    moves := moves + [LoadRegistered(0)];
    OneMore(Start(), moves, StoreWritingEnd(0));
    moves := moves + [StoreWritingEnd(0)];
  }

  /** A producer that registers after the other one has finished is missed: its element is in a finished queue. */
  lemma LateRegistrationIsMissed() returns (moves: seq<Move>)
    ensures IsInitial(Start()) && IsRun(Start(), moves)
    ensures End(Start(), moves).observers == [SaysFinished] && End(Start(), moves).queue == multiset{7}
  {
    moves := OneFinishes();
    OneMore(Start(), moves, RegisterProducer(1));
    moves := moves + [RegisterProducer(1)];
    OneMore(Start(), moves, Enqueue(1, multiset{7}));
    moves := moves + [Enqueue(1, multiset{7})];
    OneMore(Start(), moves, LoadWritingEnd(0));
    moves := moves + [LoadWritingEnd(0)];
    OneMore(Start(), moves, LoadCount(0));
    moves := moves + [LoadCount(0)];
  }

  /** An element taken before its sender has counted it makes the count wrap around to the largest number. */
  lemma CountWrapsAround() returns (moves: seq<Move>)
    ensures IsRun(Start(), moves)
    ensures End(Start(), moves).queue == multiset{} && End(Start(), moves).inQueue == TWO_64 - 1
  {
    moves := [];
    OneMore(Start(), moves, RegisterProducer(0));
    moves := moves + [RegisterProducer(0)];
    OneMore(Start(), moves, Enqueue(0, multiset{7}));
    moves := moves + [Enqueue(0, multiset{7})];
    OneMore(Start(), moves, Dequeue(0, multiset{7}));
    moves := moves + [Dequeue(0, multiset{7})];
    OneMore(Start(), moves, SubtractFromCount(0));
    moves := moves + [SubtractFromCount(0)];
  }

  /** The elements in the queue, less those not counted yet, and those taken and still counted. */
  ghost function Countable(s: State): int {
    |s.queue| - Sum(s.producers, Uncounted) + Sum(s.consumers, StillCounted)
  }

  /** After every orderly run the count is right exactly if no more elements are uncounted than are to be counted. */
  lemma CountIsRightIff(s: State, moves: seq<Move>)
    requires IsInitial(s) && IsOrderlyRun(s, moves) && HasRoom(End(s, moves))
    ensures End(s, moves).inQueue == Countable(End(s, moves)) <==> Countable(End(s, moves)) >= 0
    ensures Countable(End(s, moves)) < 0 ==> End(s, moves).inQueue == Countable(End(s, moves)) + TWO_64 || -Countable(End(s, moves)) > TWO_64
  {
    var t := End(s, moves);
    InitialInv(s);
    RunKeepsInv(s, moves);
    WordOf(Countable(t), t.inQueue);
  }

  lemma WordOf(n: int, word: int)
    requires n < TWO_64 && word == n % TWO_64
    ensures word == n <==> n >= 0
    ensures n < 0 ==> word == n + TWO_64 || -n > TWO_64
  {
    if n >= 0 {
      assert n % TWO_64 == n;
    } else if -n <= TWO_64 {
      assert (n + TWO_64) % TWO_64 == n % TWO_64;
    }
  }

  /** A producer that unregisters after the other one has finished leaves a queue that no one marks as finished. */
  lemma UnregistrationIsMissed() returns (moves: seq<Move>)
    ensures IsRun(Start(), moves)
    ensures IsQuiet(End(Start(), moves)) && End(Start(), moves).finished > 0 && !End(Start(), moves).finishedWriting
  {
    moves := [];
    OneMore(Start(), moves, RegisterProducer(0));
    moves := moves + [RegisterProducer(0)];
    OneMore(Start(), moves, RegisterProducer(1));
    moves := moves + [RegisterProducer(1)];
    OneMore(Start(), moves, CountFinished(0));
    moves := moves + [CountFinished(0)];
    OneMore(Start(), moves, LoadFinished(0));
    moves := moves + [LoadFinished(0)];
    OneMore(Start(), moves, LoadRegistered(0));
    moves := moves + [LoadRegistered(0)];
    OneMore(Start(), moves, UnregisterProducer(1));
    moves := moves + [UnregisterProducer(1)];
  }

  predicate NoneRegisters(moves: seq<Move>) {
    forall k | 0 <= k < |moves| :: !moves[k].RegisterProducer?
  }

  /** A queue that no one will mark is not marked until another producer registers. */
  lemma {:induction false} UnmarkedStaysUnmarked(s: State, moves: seq<Move>)
    requires CountsAgree(s) && IsClosed(s) && !SomeoneStores(s)
    requires IsRun(s, moves) && NoneRegisters(moves)
    ensures !End(s, moves).finishedWriting
    decreases |moves|
  {
    if moves != [] {
      var t := After(s, moves[0]);
      CountsStayAgreed(s, moves[0]);
      ClosedStays(s, moves[0]);
      NobodyBegins(s, moves[0]);
      UnmarkedStaysUnmarked(t, moves[1..]);
    }
  }

  lemma NobodyBegins(s: State, m: Move)
    requires CountsAgree(s) && IsClosed(s) && !SomeoneStores(s) && Enabled(s, m) && !m.RegisterProducer?
    ensures !SomeoneStores(After(s, m))
  {
    ClosedSendsNothing(s);
    var t := After(s, m);
    forall i | 0 <= i < |t.producers| ensures !WillStore(t, t.producers[i]) {
      assert !WillStore(s, s.producers[i]);
    }
  }
}
