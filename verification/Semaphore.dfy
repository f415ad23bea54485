/**
 The benaphore of `blockingconcurrentqueue.h` and the blocking queue above it.

 Any number of threads enqueue and dequeue. Every load, compare-and-swap or fetch of `m_count`, every
 operation on the kernel semaphore and every operation on the inner queue is one step; the steps of the
 threads interleave in any order. The inner queue is a bag that may hand out any of its elements, or none.
 The single-permit operations are the many-permit ones for a maximum of one: `tryWait` and
 `waitWithPartialSpinning` take the same branches as `tryWaitMany(1)` and `waitManyWithPartialSpinning(1)`.
 */
module Semaphore {
  /** `tryWaitMany`, `waitMany` without and with a timeout. */
  datatype Mode = Try | Wait | Timed

  /** The number of rounds before a waiting thread announces itself. */
  const SPINS: nat := 10000

  /**
   Positions of a thread. `max` is what it asked for, `have` the permit it got before it asks for more,
   `seen` the value of the count it read last.
   */
  datatype Thread =
    | Idle
    | Signal(n: nat)
    | Post(left: nat)
    | Load(mode: Mode, max: nat, have: nat)
    | Cas(mode: Mode, max: nat, have: nat, seen: nat)
    | SpinLoad(mode: Mode, max: nat, spins: nat)
    | SpinCas(mode: Mode, max: nat, spins: nat, seen: nat)
    | Announce(mode: Mode, max: nat)
    | Blocked(mode: Mode, max: nat)
    | TimedOutLoad(max: nat)
    | TimedOutTry(max: nat)
    | TimedOutCas(max: nat, debt: int)
    | Dequeue(mode: Mode, max: nat, permits: nat, left: nat)
    | Done(mode: Mode, max: nat, permits: nat)
  {
    predicate Resting() {
      Idle? || Done?
    }

    /** In the part of `wait` between the announcement in the count and its settlement. */
    predicate Waiting() {
      Blocked? || TimedOutLoad? || TimedOutTry? || TimedOutCas?
    }
  }

  /** `added`, `delivered`, `signalled` and `acquired` are history. */
  datatype State<V(==)> = State(
    count: int,
    tokens: nat,
    bag: multiset<V>,
    threads: seq<Thread>,
    added: multiset<V>,
    delivered: multiset<V>,
    signalled: nat,
    acquired: nat)

  /**
   `spurious` lets a weak compare-and-swap fail, `expire` ends the kernel wait of a thread with a timeout,
   `take` is what the inner queue hands out.
   */
  datatype Action<V(==)> =
    | CallEnqueue(values: multiset<V>)
    | CallDequeue(mode: Mode, max: nat)
    | Step(spurious: bool, expire: bool, take: multiset<V>)

  function Init<V>(n: nat): State<V> {
    State(0, 0, multiset{}, seq(n, i => Idle), multiset{}, multiset{}, 0, 0)
  }

  /** The count after a thread took at most max permits from it. */
  function Lowered(seen: nat, max: nat): (r: nat)
    ensures r <= seen && seen - r <= max && (r > 0 ==> seen - r == max)
  {
    if seen > max then seen - max else 0
  }

  /** What `tryWaitMany` is asked for, at first or beside the permit that ended a wait. */
  function Want(max: nat, have: nat): nat {
    if max >= have then max - have else 0
  }

  /** Where `tryWaitMany` goes when it finds no permit. */
  function NoPermit(mode: Mode, max: nat, have: nat): Thread {
    if have > 0 then Dequeue(mode, max, have, have)
    else if mode.Try? || max == 0 then Done(mode, max, 0)
    else SpinLoad(mode, max, SPINS)
  }

  /** Where a waiting thread goes with its first permit: it asks for the rest without waiting. */
  function FirstPermit(mode: Mode, max: nat): Thread {
    if max > 1 then Load(mode, max, 1) else Dequeue(mode, max, 1, 1)
  }

  function SetThread<V>(s: State<V>, t: nat, pc: Thread): State<V>
    requires t < |s.threads|
  {
    s.(threads := s.threads[t := pc])
  }

  /** `signal`: the count goes up at once, the kernel semaphore is released once per waiter that is owed a permit. */
  function SignalStep<V>(s: State<V>, t: nat): State<V>
    requires t < |s.threads|
  {
    match s.threads[t]
    case Signal(n) =>
      var toRelease := if -s.count < n then -s.count else n;
      SetThread(s, t, if toRelease > 0 then Post(toRelease) else Idle).(count := s.count + n, signalled := s.signalled + n)
    case Post(left) =>
      if left == 0 then SetThread(s, t, Idle)
      else SetThread(s, t, if left > 1 then Post(left - 1) else Idle).(tokens := s.tokens + 1)
    case _ => s
  }

  /** `tryWaitMany`, and the spinning of `waitManyWithPartialSpinning`. */
  function TryStep<V>(s: State<V>, t: nat, spurious: bool): State<V>
    requires t < |s.threads|
  {
    match s.threads[t]
    case Load(mode, max, have) =>
      SetThread(s, t, if s.count > 0 then Cas(mode, max, have, s.count) else NoPermit(mode, max, have))
    case Cas(mode, max, have, seen) =>
      if s.count == seen && !spurious then Take(s, t, mode, max, have, Want(max, have))
      else SetThread(s, t, if s.count > 0 then Cas(mode, max, have, s.count) else NoPermit(mode, max, have))
    case SpinLoad(mode, max, spins) =>
      SetThread(s, t, if spins == 0 then Announce(mode, max)
                      else if s.count > 0 then SpinCas(mode, max, spins - 1, s.count)
                      else SpinLoad(mode, max, spins - 1))
    case SpinCas(mode, max, spins, seen) =>
      if s.count == seen then Take(s, t, mode, max, 0, max) else SetThread(s, t, SpinLoad(mode, max, spins))
    case _ => s
  }

  /** A successful compare-and-swap: as many permits as the count has, but not more than `want`. */
  function Take<V>(s: State<V>, t: nat, mode: Mode, max: nat, have: nat, want: nat): State<V>
    requires t < |s.threads|
  {
    if s.count < 0 then s
    else
      var got := s.count - Lowered(s.count, want);
      SetThread(s, t, Dequeue(mode, max, have + got, have + got)).(count := s.count - got, acquired := s.acquired + got)
  }

  /** The announcement in the count, the kernel wait, and the loop after a timeout. */
  function WaitStep<V>(s: State<V>, t: nat, expire: bool): State<V>
    requires t < |s.threads|
  {
    match s.threads[t]
    case Announce(mode, max) =>
      if s.count > 0 then SetThread(s, t, FirstPermit(mode, max)).(count := s.count - 1, acquired := s.acquired + 1)
      else SetThread(s, t, Blocked(mode, max)).(count := s.count - 1)
    case Blocked(mode, max) =>
      if mode.Timed? && expire then SetThread(s, t, TimedOutLoad(max))
      else if s.tokens > 0 then SetThread(s, t, FirstPermit(mode, max)).(tokens := s.tokens - 1, acquired := s.acquired + 1)
      else s
    case TimedOutLoad(max) =>
      SetThread(s, t, if s.count >= 0 then TimedOutTry(max) else TimedOutCas(max, s.count))
    case TimedOutTry(max) =>
      if s.tokens > 0 then SetThread(s, t, FirstPermit(Timed, max)).(tokens := s.tokens - 1, acquired := s.acquired + 1)
      else SetThread(s, t, TimedOutLoad(max))
    case TimedOutCas(max, debt) =>
      if s.count == debt then SetThread(s, t, Done(Timed, max, 0)).(count := s.count + 1)
      else SetThread(s, t, TimedOutLoad(max))
    case _ => s
  }

  /** The loop that takes one element from the inner queue for each permit. */
  function DequeueStep<V>(s: State<V>, t: nat, take: multiset<V>): State<V>
    requires t < |s.threads|
  {
    match s.threads[t]
    case Dequeue(mode, max, permits, left) =>
      if left == 0 then SetThread(s, t, Done(mode, max, permits))
      else if take <= s.bag && |take| <= left then
        SetThread(s, t, Dequeue(mode, max, permits, left - |take|)).(bag := s.bag - take, delivered := s.delivered + take)
      else s
    case _ => s
  }

  function StepThread<V>(s: State<V>, t: nat, spurious: bool, expire: bool, take: multiset<V>): State<V>
    requires t < |s.threads|
  {
    var pc := s.threads[t];
    if pc.Signal? || pc.Post? then SignalStep(s, t)
    else if pc.Load? || pc.Cas? || pc.SpinLoad? || pc.SpinCas? then TryStep(s, t, spurious)
    else if pc.Announce? || pc.Waiting() then WaitStep(s, t, expire)
    else DequeueStep(s, t, take)
  }

  function Next<V>(s: State<V>, t: nat, a: Action<V>): State<V>
    requires t < |s.threads|
  {
    match a
    case CallEnqueue(values) =>
      if s.threads[t].Resting() then
        SetThread(s, t, Signal(|values|)).(bag := s.bag + values, added := s.added + values)
      else s
    case CallDequeue(mode, max) =>
      if s.threads[t].Resting() then SetThread(s, t, Load(mode, max, 0)) else s
    case Step(spurious, expire, take) => StepThread(s, t, spurious, expire, take)
  }

  // ---------------------------------------------------------------------------------------------
  // Totals over the threads
  // ---------------------------------------------------------------------------------------------

  ghost function Total(threads: seq<Thread>, weight: Thread -> nat): nat {
    if threads == [] then 0 else weight(threads[0]) + Total(threads[1..], weight)
  }

  lemma {:induction false} TotalUpdate(threads: seq<Thread>, t: nat, pc: Thread, weight: Thread -> nat)
    requires t < |threads|
    ensures Total(threads[t := pc], weight) + weight(threads[t]) == Total(threads, weight) + weight(pc)
  {
    if t > 0 {
      TotalUpdate(threads[1..], t - 1, pc, weight);
      assert threads[t := pc][1..] == threads[1..][t - 1 := pc];
    } else {
      assert threads[t := pc][1..] == threads[1..];
    }
  }

  lemma {:induction false} TotalAtLeast(threads: seq<Thread>, t: nat, weight: Thread -> nat)
    requires t < |threads|
    ensures weight(threads[t]) <= Total(threads, weight)
  {
    if t > 0 {
      TotalAtLeast(threads[1..], t - 1, weight);
    }
  }

  lemma {:induction false} TotalZero(threads: seq<Thread>, weight: Thread -> nat)
    requires forall i | 0 <= i < |threads| :: weight(threads[i]) == 0
    ensures Total(threads, weight) == 0
  {
    if threads != [] {
      TotalZero(threads[1..], weight);
    }
  }

  function WaitWeight(pc: Thread): nat {
    if pc.Waiting() then 1 else 0
  }

  function PostWeight(pc: Thread): nat {
    if pc.Post? then pc.left else 0
  }

  /** Permits that a thread has acquired and not yet used for an element. */
  function HeldWeight(pc: Thread): nat {
    if pc.Load? || pc.Cas? then pc.have else if pc.Dequeue? then pc.left else 0
  }

  /** Elements that a thread has enqueued and not yet signalled. */
  function SignalWeight(pc: Thread): nat {
    if pc.Signal? then pc.n else 0
  }

  ghost function Waiters<V>(s: State<V>): nat {
    Total(s.threads, WaitWeight)
  }

  /** Releases of the kernel semaphore that a signaller has announced and not yet made. */
  ghost function Posts<V>(s: State<V>): nat {
    Total(s.threads, PostWeight)
  }

  ghost function Held<V>(s: State<V>): nat {
    Total(s.threads, HeldWeight)
  }

  ghost function Unsignalled<V>(s: State<V>): nat {
    Total(s.threads, SignalWeight)
  }

  // ---------------------------------------------------------------------------------------------
  // The invariant
  // ---------------------------------------------------------------------------------------------

  function Max(x: int, y: int): int {
    if x > y then x else y
  }

  /** Every permit is in the count, acquired, or owed to a thread that has announced itself. */
  ghost predicate PermitsOk<V>(s: State<V>) {
    && s.count == s.signalled - s.acquired - Waiters(s)
    && Waiters(s) - (s.tokens + Posts(s)) == Max(-s.count, 0)
  }

  /** Every element was signalled or will be; every acquired permit stands for one element. */
  ghost predicate ElementsOk<V>(s: State<V>) {
    && s.added == s.bag + s.delivered
    && |s.added| == s.signalled + Unsignalled(s)
    && s.acquired == |s.delivered| + Held(s)
  }

  /** A thread never holds more permits than it asked for, and returns without one only where it may. */
  predicate ThreadOk(pc: Thread) {
    match pc
    case Idle => true
    case Signal(_) => true
    case Post(_) => true
    case Load(mode, max, have) => have <= 1 && have <= max
    case Cas(mode, max, have, seen) => have <= 1 && have <= max && seen > 0
    case SpinLoad(mode, max, _) => !mode.Try? && max > 0
    case SpinCas(mode, max, _, seen) => !mode.Try? && max > 0 && seen > 0
    case Announce(mode, max) => !mode.Try? && max > 0
    case Blocked(mode, max) => !mode.Try? && max > 0
    case TimedOutLoad(max) => max > 0
    case TimedOutTry(max) => max > 0
    case TimedOutCas(max, debt) => max > 0 && debt < 0
    case Dequeue(mode, max, permits, left) => left <= permits <= max && (max > 0 ==> permits > 0)
    case Done(mode, max, permits) => permits <= max && (mode.Wait? && max > 0 ==> permits > 0)
  }

  ghost predicate Inv<V>(s: State<V>) {
    PermitsOk(s) && ElementsOk(s) && forall t | 0 <= t < |s.threads| :: ThreadOk(s.threads[t])
  }

  /** How the totals move when one thread moves. */
  lemma TotalsMove<V>(s: State<V>, s': State<V>, t: nat)
    requires t < |s.threads| == |s'.threads| && s'.threads == s.threads[t := s'.threads[t]]
    ensures var pc, pc' := s.threads[t], s'.threads[t];
            && Waiters(s') + WaitWeight(pc) == Waiters(s) + WaitWeight(pc')
            && Posts(s') + PostWeight(pc) == Posts(s) + PostWeight(pc')
            && Held(s') + HeldWeight(pc) == Held(s) + HeldWeight(pc')
            && Unsignalled(s') + SignalWeight(pc) == Unsignalled(s) + SignalWeight(pc')
  {
    TotalUpdate(s.threads, t, s'.threads[t], WaitWeight);
    TotalUpdate(s.threads, t, s'.threads[t], PostWeight);
    TotalUpdate(s.threads, t, s'.threads[t], HeldWeight);
    TotalUpdate(s.threads, t, s'.threads[t], SignalWeight);
  }

  /** Only thread t moves, and to a position it may be in. */
  ghost predicate Moves<V>(s: State<V>, s': State<V>, t: nat)
    requires t < |s.threads|
  {
    |s'.threads| == |s.threads| && s'.threads == s.threads[t := s'.threads[t]] && ThreadOk(s'.threads[t])
  }

  lemma SignalStepKeeps<V>(s: State<V>, t: nat)
    requires PermitsOk(s) && ElementsOk(s) && t < |s.threads| && ThreadOk(s.threads[t])
    ensures var s' := SignalStep(s, t); PermitsOk(s') && ElementsOk(s') && Moves(s, s', t)
  {
    var s' := SignalStep(s, t);
    assert s'.threads == s.threads[t := s'.threads[t]];
    TotalsMove(s, s', t);
  }

  lemma TakeKeeps<V>(s: State<V>, t: nat, mode: Mode, max: nat, have: nat, want: nat)
    requires PermitsOk(s) && ElementsOk(s) && t < |s.threads| && s.count > 0 && have + want == max
    requires (s.threads[t].Cas? && s.threads[t].have == have) || (s.threads[t].SpinCas? && have == 0)
    ensures var s' := Take(s, t, mode, max, have, want); PermitsOk(s') && ElementsOk(s') && Moves(s, s', t)
  {
    TotalsMove(s, Take(s, t, mode, max, have, want), t);
  }

  lemma TryStepKeeps<V>(s: State<V>, t: nat, spurious: bool)
    requires PermitsOk(s) && ElementsOk(s) && t < |s.threads| && ThreadOk(s.threads[t])
    ensures var s' := TryStep(s, t, spurious); PermitsOk(s') && ElementsOk(s') && Moves(s, s', t)
  {
    var pc := s.threads[t];
    if pc.Cas? && s.count == pc.seen && !spurious {
      TakeKeeps(s, t, pc.mode, pc.max, pc.have, Want(pc.max, pc.have));
    } else if pc.SpinCas? && s.count == pc.seen {
      TakeKeeps(s, t, pc.mode, pc.max, 0, pc.max);
    } else {
      TotalsMove(s, TryStep(s, t, spurious), t);
    }
  }

  lemma AnnounceKeeps<V>(s: State<V>, t: nat, expire: bool)
    requires PermitsOk(s) && ElementsOk(s) && t < |s.threads| && ThreadOk(s.threads[t]) && s.threads[t].Announce?
    ensures var s' := WaitStep(s, t, expire); PermitsOk(s') && ElementsOk(s') && Moves(s, s', t)
  {
    TotalsMove(s, WaitStep(s, t, expire), t);
  }

  lemma WakeUpKeeps<V>(s: State<V>, t: nat, expire: bool)
    requires PermitsOk(s) && ElementsOk(s) && t < |s.threads| && ThreadOk(s.threads[t]) && s.threads[t].Blocked?
    ensures var s' := WaitStep(s, t, expire); PermitsOk(s') && ElementsOk(s') && Moves(s, s', t)
  {
    var s' := WaitStep(s, t, expire);
    assert s'.threads == s.threads[t := s'.threads[t]];
    TotalsMove(s, s', t);
  }

  lemma TimedOutKeeps<V>(s: State<V>, t: nat, expire: bool)
    requires PermitsOk(s) && ElementsOk(s) && t < |s.threads| && ThreadOk(s.threads[t])
    requires s.threads[t].TimedOutLoad? || s.threads[t].TimedOutTry? || s.threads[t].TimedOutCas?
    ensures var s' := WaitStep(s, t, expire); PermitsOk(s') && ElementsOk(s') && Moves(s, s', t)
  {
    TotalsMove(s, WaitStep(s, t, expire), t);
  }

  lemma WaitStepKeeps<V>(s: State<V>, t: nat, expire: bool)
    requires PermitsOk(s) && ElementsOk(s) && t < |s.threads| && ThreadOk(s.threads[t])
    ensures var s' := WaitStep(s, t, expire); PermitsOk(s') && ElementsOk(s') && Moves(s, s', t)
  {
    match s.threads[t]
    case Announce(_, _) => AnnounceKeeps(s, t, expire);
    case Blocked(_, _) => WakeUpKeeps(s, t, expire);
    case TimedOutLoad(_) => TimedOutKeeps(s, t, expire);
    case TimedOutTry(_) => TimedOutKeeps(s, t, expire);
    case TimedOutCas(_, _) => TimedOutKeeps(s, t, expire);
    case _ => assert s.threads == s.threads[t := s.threads[t]];
  }

  lemma DequeueStepKeeps<V>(s: State<V>, t: nat, take: multiset<V>)
    requires PermitsOk(s) && ElementsOk(s) && t < |s.threads| && ThreadOk(s.threads[t])
    ensures var s' := DequeueStep(s, t, take); PermitsOk(s') && ElementsOk(s') && Moves(s, s', t)
  {
    var s' := DequeueStep(s, t, take);
    assert s'.threads == s.threads[t := s'.threads[t]];
    TotalsMove(s, s', t);
  }

  lemma CallKeeps<V>(s: State<V>, t: nat, a: Action<V>)
    requires PermitsOk(s) && ElementsOk(s) && t < |s.threads| && ThreadOk(s.threads[t]) && !a.Step?
    ensures var s' := Next(s, t, a); PermitsOk(s') && ElementsOk(s') && Moves(s, s', t)
  {
    var s' := Next(s, t, a);
    assert s'.threads == s.threads[t := s'.threads[t]];
    TotalsMove(s, s', t);
  }

  lemma StepKeeps<V>(s: State<V>, t: nat, a: Action<V>)
    requires PermitsOk(s) && ElementsOk(s) && t < |s.threads| && ThreadOk(s.threads[t]) && a.Step?
    ensures var s' := Next(s, t, a); PermitsOk(s') && ElementsOk(s') && Moves(s, s', t)
  {
    SignalStepKeeps(s, t);
    TryStepKeeps(s, t, a.spurious);
    WaitStepKeeps(s, t, a.expire);
    DequeueStepKeeps(s, t, a.take);
  }

  /** Every step of every thread keeps the accounts of permits and elements. */
  lemma NextKeepsInv<V>(s: State<V>, t: nat, a: Action<V>)
    requires Inv(s) && t < |s.threads|
    ensures Inv(Next(s, t, a)) && |Next(s, t, a).threads| == |s.threads|
  {
    if a.Step? {
      StepKeeps(s, t, a);
    } else {
      CallKeeps(s, t, a);
    }
    assert Moves(s, Next(s, t, a), t);
  }

  // ---------------------------------------------------------------------------------------------
  // What every run promises
  // ---------------------------------------------------------------------------------------------

  /** The state that n threads reach under a schedule, which may mix their steps in any way. */
  ghost function After<V>(n: nat, sched: seq<(nat, Action<V>)>): (s: State<V>)
    ensures Inv(s) && |s.threads| == n
    decreases |sched|
  {
    if sched == [] then
      assert Inv(Init<V>(n)) by { InitInv<V>(n); }
      Init(n)
    else
      var last := sched[|sched| - 1];
      var p := After(n, sched[..|sched| - 1]);
      if last.0 < n then
        NextKeepsInv(p, last.0, last.1);
        Next(p, last.0, last.1)
      else p
  }

  lemma InitInv<V>(n: nat)
    ensures Inv(Init<V>(n))
  {
    var s := Init<V>(n);
    TotalZero(s.threads, WaitWeight);
    TotalZero(s.threads, PostWeight);
    TotalZero(s.threads, HeldWeight);
    TotalZero(s.threads, SignalWeight);
  }

  /** The inner queue never holds fewer elements than the permits of all threads past the semaphore. */
  lemma BagCoversPermits<V>(s: State<V>)
    requires Inv(s)
    ensures Held(s) <= |s.bag|
  {
    assert |s.added| == |s.bag| + |s.delivered|;
  }

  /**
   Acquired permits never exceed signalled ones, the count is what is left of them after the debt of the waiting
   threads, those that wait beyond the releases made or announced are the ones the count owes a permit, and every
   permit that has been acquired and not used is covered by an element.
   */
  ghost predicate Conserved<V>(s: State<V>) {
    && s.acquired <= s.signalled
    && s.count == s.signalled - s.acquired - Waiters(s)
    && Waiters(s) - (s.tokens + Posts(s)) == Max(-s.count, 0)
    && Held(s) <= |s.bag|
  }

  lemma InvConserves<V>(s: State<V>)
    requires Inv(s)
    ensures Conserved(s)
  {
    BagCoversPermits(s);
  }

  /** Permits are conserved in every run. */
  lemma PermitsAreConserved<V>(n: nat, sched: seq<(nat, Action<V>)>)
    ensures Conserved(After(n, sched))
  {
    InvConserves(After<V>(n, sched));
  }

  /** The retry loop of a consumer past the semaphore: there is an element for each of its permits. */
  lemma RetryLoopHasElement<V>(n: nat, sched: seq<(nat, Action<V>)>, t: nat)
    requires t < n && After(n, sched).threads[t].Dequeue?
    ensures After(n, sched).threads[t].left <= |After(n, sched).bag|
  {
    var s := After(n, sched);
    BagCoversPermits(s);
    TotalAtLeast(s.threads, t, HeldWeight);
  }

  /** Elements are neither lost nor duplicated, and those not yet delivered are in the inner queue. */
  lemma ElementsAreConserved<V>(n: nat, sched: seq<(nat, Action<V>)>)
    ensures var s := After(n, sched); s.added == s.bag + s.delivered
  {
  }

  /** No lost wake-up: a thread is left waiting without a release on its way only when no permit is left. */
  lemma NoLostWakeup<V>(n: nat, sched: seq<(nat, Action<V>)>, t: nat)
    requires t < n
    ensures var s := After(n, sched);
            s.threads[t].Waiting() && s.tokens == 0 && Posts(s) == 0 ==> s.acquired == s.signalled && s.count < 0
  {
    TotalAtLeast(After(n, sched).threads, t, WaitWeight);
  }

  /** The loop after a timeout: while the count does not show the thread's debt, a release is made or on its way. */
  lemma TimedOutThreadIsOwed<V>(n: nat, sched: seq<(nat, Action<V>)>, t: nat)
    requires t < n
    ensures var s := After(n, sched);
            s.threads[t].Waiting() && s.count >= 0 ==> s.tokens + Posts(s) == Waiters(s) > 0
  {
    TotalAtLeast(After(n, sched).threads, t, WaitWeight);
  }

  /** No operation acquires more than it was asked for; a wait without timeout returns with a permit. */
  lemma WaitReturnsPermits<V>(n: nat, sched: seq<(nat, Action<V>)>, t: nat)
    requires t < n && After(n, sched).threads[t].Done?
    ensures var pc := After(n, sched).threads[t];
            pc.permits <= pc.max && (pc.mode.Wait? && pc.max > 0 ==> pc.permits > 0)
  {
    assert ThreadOk(After(n, sched).threads[t]);
  }
}
