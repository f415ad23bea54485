/**
 The operations of the ticket queue while the other threads pause: each of them returns after a few steps, with the
 result that the slot of its ticket decides. Together with the results about refused operations this says when a try
 operation succeeds.
 */
module MpmcAlone {
  import opened Options
  import opened MpmcQueue

  /** The state after n steps of thread t and of no other one. */
  function Alone<V>(s: State<V>, t: nat, n: nat): State<V>
    requires |s.slots| > 0
    decreases n
  {
    NextKeepsShape(s, t, Step);
    if n == 0 then s else Alone(Next(s, t, Step), t, n - 1)
  }

  function Steps<V>(t: nat, n: nat): Schedule<V> {
    seq(n, i => (t, Step))
  }

  lemma {:induction false} AloneIsRun<V>(s: State<V>, t: nat, n: nat)
    requires |s.slots| > 0
    ensures Alone(s, t, n) == Run(s, Steps(t, n))
    decreases n
  {
    if n > 0 {
      AloneIsRun(Next(s, t, Step), t, n - 1);
      var rest: Schedule<V> := Steps(t, n - 1);
      RunCons(s, (t, Step), rest);
      assert [(t, Step)] + rest == Steps(t, n);
    }
  }

  lemma {:induction false} ReturnedStays<V>(s: State<V>, t: nat, n: nat)
    requires |s.slots| > 0 && t < |s.threads| && s.threads[t].Returned?
    ensures Alone(s, t, n) == s
    decreases n
  {
    if n > 0 {
      ReturnedStays(s, t, n - 1);
    }
  }

  /** The slot of push ticket k is free for it. */
  predicate IsFree<V>(s: State<V>, k: nat)
    requires |s.slots| > 0
  {
    SlotTurn(s, k) == Turn(|s.slots|, k) * 2
  }

  /** The push of ticket k is complete, and no pop of its slot since. */
  predicate IsFull<V>(s: State<V>, k: nat)
    requires |s.slots| > 0
  {
    SlotTurn(s, k) == Turn(|s.slots|, k) * 2 + 1
  }

  /** Thread t has pushed v with ticket k, and nothing else has changed but the slot of the ticket. */
  ghost predicate HasPushed<V>(s: State<V>, s': State<V>, t: nat, k: nat, v: V)
    requires |s.slots| > 0 && t < |s.threads|
  {
    s' == SetSlot(s, k, Slot(Turn(|s.slots|, k) * 2 + 1, Some(v))).(
      threads := s.threads[t := Returned(Pushed)],
      head := s'.head, values := s'.values, pushOwner := s'.pushOwner)
  }

  /** Thread t has taken v with ticket k, and nothing else has changed but the slot of the ticket. */
  ghost predicate HasPopped<V>(s: State<V>, s': State<V>, t: nat, k: nat, v: V)
    requires |s.slots| > 0 && t < |s.threads|
  {
    s' == SetSlot(s, k, Slot(Turn(|s.slots|, k) * 2 + 2, None)).(
      threads := s.threads[t := Returned(Popped(v))],
      tail := s'.tail, popOwner := s'.popOwner, delivered := s.delivered[k := v])
  }

  lemma SetTwice<V>(threads: seq<Thread<V>>, t: nat, pc: Thread<V>, result: Result<V>)
    requires t < |threads|
    ensures threads[t := pc][t := Returned(result)] == threads[t := Returned(result)]
  {
  }

  lemma OneStep<V>(s: State<V>, s1: State<V>, t: nat, n: nat)
    requires |s.slots| > 0 && s1 == Next(s, t, Step) && n > 0
    ensures |s1.slots| == |s.slots| && |s1.threads| == |s.threads| && Alone(s, t, n) == Alone(s1, t, n - 1)
  {
    NextKeepsShape(s, t, Step);
  }

  lemma ConstructsAlone<V>(s: State<V>, t: nat, v: V, k: nat, n: nat)
    requires |s.slots| > 0 && t < |s.threads| && s.threads[t] == PushConstruct(v, k) && n >= 2
    ensures HasPushed(s, Alone(s, t, n), t, k, v)
    ensures var s' := Alone(s, t, n); s'.head == s.head && s'.values == s.values && s'.pushOwner == s.pushOwner
  {
    var s1 := Next(s, t, Step);
    OneStep(s, s1, t, n);
    assert s1.threads[t] == PushPublish(k);
    var s2 := Next(s1, t, Step);
    OneStep(s1, s2, t, n - 1);
    ReturnedStays(s2, t, n - 2);
    assert s2.slots == s.slots[Idx(|s.slots|, k) := Slot(Turn(|s.slots|, k) * 2 + 1, Some(v))];
    assert s2.threads == s.threads[t := Returned(Pushed)];
  }

  lemma MovesAlone<V>(s: State<V>, t: nat, k: nat, v: V, n: nat)
    requires |s.slots| > 0 && t < |s.threads| && s.threads[t] == PopMove(k) && s.slots[Idx(|s.slots|, k)].storage == Some(v) && n >= 3
    ensures HasPopped(s, Alone(s, t, n), t, k, v)
    ensures var s' := Alone(s, t, n); s'.tail == s.tail && s'.popOwner == s.popOwner
  {
    var s1 := Next(s, t, Step);
    OneStep(s, s1, t, n);
    assert s1 == s.(threads := s.threads[t := PopDestroy(k, v)], delivered := s.delivered[k := v]);
    DestroysAlone(s1, t, k, v, n - 1);
    SetTwice(s.threads, t, s1.threads[t], Popped(v));
  }

  lemma DestroysAlone<V>(s: State<V>, t: nat, k: nat, v: V, n: nat)
    requires |s.slots| > 0 && t < |s.threads| && s.threads[t] == PopDestroy(k, v) && n >= 2
    ensures Alone(s, t, n) == SetSlot(s, k, Slot(Turn(|s.slots|, k) * 2 + 2, None)).(threads := s.threads[t := Returned(Popped(v))])
  {
    var s1 := Next(s, t, Step);
    OneStep(s, s1, t, n);
    assert s1.threads[t] == PopPublish(k, v);
    var s2 := Next(s1, t, Step);
    OneStep(s1, s2, t, n - 1);
    ReturnedStays(s2, t, n - 2);
    assert s2.slots == s.slots[Idx(|s.slots|, k) := Slot(Turn(|s.slots|, k) * 2 + 2, None)];
    assert s2.threads == s.threads[t := Returned(Popped(v))];
  }

  /** The loop of `try_emplace`, which may still look at an old ticket. */
  predicate InTryPush<V>(pc: Thread<V>) {
    pc.TryPushCheck? || pc.TryPushCas? || pc.TryPushReload?
  }

  predicate InTryPop<V>(pc: Thread<V>) {
    pc.TryPopCheck? || pc.TryPopCas? || pc.TryPopReload?
  }

  /** A `try_push` that runs alone draws the next ticket if its slot is free, unless it has just found it taken. */
  ghost predicate TryPushEnds<V>(s: State<V>, s': State<V>, t: nat)
    requires |s.slots| > 0 && t < |s.threads| && InTryPush(s.threads[t])
  {
    var v := s.threads[t].value;
    if IsFree(s, s.head) && s.threads[t] != TryPushReload(v, s.head) then
      HasPushed(s, s', t, s.head, v) && s'.head == s.head + 1 && s'.values == s.values + [v] && s'.pushOwner == s.pushOwner + [t]
    else s' == s.(threads := s.threads[t := Returned(PushRefused)])
  }

  ghost predicate TryPopEnds<V>(s: State<V>, s': State<V>, t: nat)
    requires Shaped(s) && t < |s.threads| && InTryPop(s.threads[t])
  {
    if IsFull(s, s.tail) && s.threads[t] != TryPopReload(s.tail) then
      s.tail < |s.values| && HasPopped(s, s', t, s.tail, s.values[s.tail]) && s'.tail == s.tail + 1 && s'.popOwner == s.popOwner + [t]
    else s' == s.(threads := s.threads[t := Returned(PopRefused)])
  }

  lemma WinsAlone<V>(s: State<V>, t: nat, v: V, n: nat)
    requires |s.slots| > 0 && t < |s.threads| && s.threads[t] == TryPushCas(v, s.head) && n >= 3
    ensures HasPushed(s, Alone(s, t, n), t, s.head, v)
    ensures var s' := Alone(s, t, n); s'.head == s.head + 1 && s'.values == s.values + [v] && s'.pushOwner == s.pushOwner + [t]
  {
    var s1 := Next(s, t, Step);
    OneStep(s, s1, t, n);
    assert s1 == Move(DrawPush(s, t, v), t, PushConstruct(v, s.head));
    ConstructsAlone(s1, t, v, s.head, n - 1);
    SetTwice(s.threads, t, s1.threads[t], Pushed);
  }

  lemma WinsPopAlone<V>(s: State<V>, t: nat, v: V, n: nat)
    requires |s.slots| > 0 && t < |s.threads| && s.threads[t] == TryPopCas(s.tail) && n >= 4
    requires s.slots[Idx(|s.slots|, s.tail)].storage == Some(v)
    ensures HasPopped(s, Alone(s, t, n), t, s.tail, v)
    ensures var s' := Alone(s, t, n); s'.tail == s.tail + 1 && s'.popOwner == s.popOwner + [t]
  {
    var s1 := Next(s, t, Step);
    OneStep(s, s1, t, n);
    assert s1 == Move(DrawPop(s, t), t, PopMove(s.tail));
    MovesAlone(s1, t, s.tail, v, n - 1);
    SetTwice(s.threads, t, s1.threads[t], Popped(v));
  }

  /** A thread that is about to reload a counter that has not moved returns false. */
  lemma RefusedAlone<V>(s: State<V>, t: nat, n: nat)
    requires |s.slots| > 0 && t < |s.threads| && n >= 1
    requires (s.threads[t].TryPushReload? && s.threads[t].head == s.head) || (s.threads[t].TryPopReload? && s.threads[t].tail == s.tail)
    ensures Alone(s, t, n) == Move(s, t, Returned(if s.threads[t].TryPushReload? then PushRefused else PopRefused))
  {
    var s1 := Next(s, t, Step);
    OneStep(s, s1, t, n);
    ReturnedStays(s1, t, n - 1);
  }

  /** The test of the next ticket leads to the exchange if the slot is free, and to the reload if it is not. */
  lemma TryPushAtHead<V>(s: State<V>, t: nat, v: V, n: nat)
    requires |s.slots| > 0 && t < |s.threads| && s.threads[t] == TryPushCheck(v, s.head) && n >= 4
    ensures TryPushEnds(s, Alone(s, t, n), t)
  {
    var s1 := Next(s, t, Step);
    OneStep(s, s1, t, n);
    if IsFree(s, s.head) {
      assert s1 == Move(s, t, TryPushCas(v, s.head));
      WinsAlone(s1, t, v, n - 1);
      SetTwice(s.threads, t, s1.threads[t], Pushed);
    } else {
      assert s1 == Move(s, t, TryPushReload(v, s.head));
      RefusedAlone(s1, t, n - 1);
      SetTwice(s.threads, t, s1.threads[t], PushRefused);
    }
  }

  lemma TryPopAtTail<V>(s: State<V>, t: nat, n: nat)
    requires Shaped(s) && t < |s.threads| && s.threads[t] == TryPopCheck(s.tail) && n >= 5
    requires IsFull(s, s.tail) ==> s.tail < |s.values| && s.slots[Idx(|s.slots|, s.tail)].storage == Some(s.values[s.tail])
    ensures TryPopEnds(s, Alone(s, t, n), t)
  {
    var s1 := Next(s, t, Step);
    OneStep(s, s1, t, n);
    if IsFull(s, s.tail) {
      assert s1 == Move(s, t, TryPopCas(s.tail));
      WinsPopAlone(s1, t, s.values[s.tail], n - 1);
      SetTwice(s.threads, t, s1.threads[t], Popped(s.values[s.tail]));
    } else {
      assert s1 == Move(s, t, TryPopReload(s.tail));
      RefusedAlone(s1, t, n - 1);
      SetTwice(s.threads, t, s1.threads[t], PopRefused);
    }
  }

  /** A loop that looks at an old ticket comes to look at the next one within two steps. */
  lemma TryPushCatchesUp<V>(s: State<V>, t: nat, n: nat) returns (s1: State<V>, m: nat)
    requires |s.slots| > 0 && t < |s.threads| && InTryPush(s.threads[t]) && s.threads[t].head != s.head && n >= 2
    ensures s1 == Move(s, t, TryPushCheck(s.threads[t].value, s.head)) && n - 2 <= m <= n && Alone(s, t, n) == Alone(s1, t, m)
  {
    s1, m := Next(s, t, Step), n - 1;
    OneStep(s, s1, t, n);
    if s.threads[t].TryPushCheck? {
      var looked := s1;
      s1, m := Next(looked, t, Step), n - 2;
      OneStep(looked, s1, t, n - 1);
      assert s1.threads == s.threads[t := TryPushCheck(s.threads[t].value, s.head)];
    }
  }

  lemma TryPopCatchesUp<V>(s: State<V>, t: nat, n: nat) returns (s1: State<V>, m: nat)
    requires |s.slots| > 0 && t < |s.threads| && InTryPop(s.threads[t]) && s.threads[t].tail != s.tail && n >= 2
    ensures s1 == Move(s, t, TryPopCheck(s.tail)) && n - 2 <= m <= n && Alone(s, t, n) == Alone(s1, t, m)
  {
    s1, m := Next(s, t, Step), n - 1;
    OneStep(s, s1, t, n);
    if s.threads[t].TryPopCheck? {
      var looked := s1;
      s1, m := Next(looked, t, Step), n - 2;
      OneStep(looked, s1, t, n - 1);
      assert s1.threads == s.threads[t := TryPopCheck(s.tail)];
    }
  }

  /** What the test says of the next ticket, it says again after the loop has caught up with it. */
  lemma TryPushEndsAfter<V>(s: State<V>, s1: State<V>, s': State<V>, t: nat, v: V)
    requires |s.slots| > 0 && t < |s.threads| && InTryPush(s.threads[t]) && s.threads[t].value == v
    requires s.threads[t] != TryPushReload(v, s.head)
    requires s1 == Move(s, t, TryPushCheck(v, s.head)) && TryPushEnds(s1, s', t)
    ensures TryPushEnds(s, s', t)
  {
    SetTwice(s.threads, t, s1.threads[t], Pushed);
    SetTwice(s.threads, t, s1.threads[t], PushRefused);
  }

  lemma TryPopEndsAfter<V>(s: State<V>, s1: State<V>, s': State<V>, t: nat)
    requires Shaped(s) && t < |s.threads| && InTryPop(s.threads[t]) && s.threads[t] != TryPopReload(s.tail)
    requires s1 == Move(s, t, TryPopCheck(s.tail)) && TryPopEnds(s1, s', t)
    ensures TryPopEnds(s, s', t)
  {
    SetTwice(s.threads, t, s1.threads[t], PopRefused);
    if s.tail < |s.values| { SetTwice(s.threads, t, s1.threads[t], Popped(s.values[s.tail])); }
  }

  lemma OldTryPushEnds<V>(s: State<V>, t: nat, v: V, n: nat)
    requires |s.slots| > 0 && t < |s.threads| && InTryPush(s.threads[t]) && s.threads[t].head != s.head && s.threads[t].value == v && n >= 6
    ensures TryPushEnds(s, Alone(s, t, n), t)
  {
    var s1, m := TryPushCatchesUp(s, t, n);
    TryPushEndsFrom(s, s1, t, v, m);
  }

  lemma TryPushEndsFrom<V>(s: State<V>, s1: State<V>, t: nat, v: V, n: nat)
    requires |s.slots| > 0 && t < |s.threads| && InTryPush(s.threads[t]) && s.threads[t].value == v && n >= 4
    requires s.threads[t] != TryPushReload(v, s.head) && s1 == Move(s, t, TryPushCheck(v, s.head))
    ensures TryPushEnds(s, Alone(s1, t, n), t)
  {
    TryPushAtHead(s1, t, v, n);
    TryPushEndsAfter(s, s1, Alone(s1, t, n), t, v);
  }

  lemma TryPushEndsAlone<V>(s: State<V>, t: nat, n: nat)
    requires Inv(s) && t < |s.threads| && InTryPush(s.threads[t]) && n >= 6
    ensures TryPushEnds(s, Alone(s, t, n), t)
  {
    var pc := s.threads[t];
    if pc.head != s.head {
      OldTryPushEnds(s, t, pc.value, n);
    } else if pc.TryPushCheck? {
      TryPushAtHead(s, t, pc.value, n);
    } else if pc.TryPushReload? {
      RefusedAlone(s, t, n);
    } else {
      ExchangeIsFree(s, t);
      WinsAlone(s, t, pc.value, n);
    }
  }

  /** The slot of the next ticket does not leave its turn before the ticket is drawn. */
  lemma ExchangeIsFree<V>(s: State<V>, t: nat)
    requires Inv(s) && t < |s.threads|
    ensures s.threads[t].TryPushCas? && s.threads[t].head == s.head ==> IsFree(s, s.head)
    ensures s.threads[t].TryPopCas? && s.threads[t].tail == s.tail ==> IsFull(s, s.tail)
  {
    assert ThreadInv(s, t) && !PushDone(s, s.head) && !PopDone(s, s.tail);
  }

  lemma OldTryPopEnds<V>(s: State<V>, t: nat, n: nat)
    requires Shaped(s) && t < |s.threads| && InTryPop(s.threads[t]) && s.threads[t].tail != s.tail && n >= 7
    requires IsFull(s, s.tail) ==> s.tail < |s.values| && s.slots[Idx(|s.slots|, s.tail)].storage == Some(s.values[s.tail])
    ensures TryPopEnds(s, Alone(s, t, n), t)
  {
    var s1, m := TryPopCatchesUp(s, t, n);
    TryPopEndsFrom(s, s1, t, m);
  }

  lemma TryPopEndsFrom<V>(s: State<V>, s1: State<V>, t: nat, n: nat)
    requires Shaped(s) && t < |s.threads| && InTryPop(s.threads[t]) && s.threads[t] != TryPopReload(s.tail) && n >= 5
    requires IsFull(s, s.tail) ==> s.tail < |s.values| && s.slots[Idx(|s.slots|, s.tail)].storage == Some(s.values[s.tail])
    requires s1 == Move(s, t, TryPopCheck(s.tail))
    ensures TryPopEnds(s, Alone(s1, t, n), t)
  {
    TryPopAtTail(s1, t, n);
    TryPopEndsAfter(s, s1, Alone(s1, t, n), t);
  }

  lemma TryPopEndsAlone<V>(s: State<V>, t: nat, n: nat)
    requires Inv(s) && t < |s.threads| && InTryPop(s.threads[t]) && n >= 7
    ensures TryPopEnds(s, Alone(s, t, n), t)
  {
    var pc := s.threads[t];
    FullHasValue(s);
    if pc.tail != s.tail {
      OldTryPopEnds(s, t, n);
    } else if pc.TryPopCheck? {
      TryPopAtTail(s, t, n);
    } else if pc.TryPopReload? {
      RefusedAlone(s, t, n);
    } else {
      ExchangeIsFree(s, t);
      WinsPopAlone(s, t, s.values[s.tail], n);
    }
  }

  /** The slot of the next pop ticket, once its push is complete, holds the value of that ticket. */
  lemma FullHasValue<V>(s: State<V>)
    requires Inv(s)
    ensures IsFull(s, s.tail) ==> s.tail < |s.values| && s.slots[Idx(|s.slots|, s.tail)].storage == Some(s.values[s.tail])
  {
    assert StorageInv(s, s.tail);
  }

  /**
   The slot of the next push ticket is free exactly if the pop one lap before is complete, and that of the next pop
   ticket is full exactly if the push of the same number is.
   */
  lemma NextSlotsMean<V>(capacity: nat, n: nat, sched: Schedule<V>)
    requires capacity > 0
    ensures var s := After(capacity, n, sched);
            && |s.slots| == capacity
            && (IsFree(s, s.head) <==> s.head < capacity || PopDone(s, s.head - capacity))
            && (IsFull(s, s.tail) <==> PushDone(s, s.tail))
  {
    AfterInv(capacity, n, sched);
    var s := After(capacity, n, sched);
    assert !PushDone(s, s.head) && !PopDone(s, s.tail);
    if s.head >= capacity {
      SameSlot(capacity, s.head - capacity, s.head);
    } else {
      assert StorageInv(s, s.head);
    }
  }

  /**
   A thread that stands in `try_push` and then runs alone has returned within six of its steps: true, with its value
   under the next ticket, if the slot of that ticket is free; false if it is not, or if the thread had found it taken
   and compares the counter next.
   */
  lemma TryPushFinishesAlone<V>(capacity: nat, n: nat, sched: Schedule<V>, t: nat, steps: nat)
    requires capacity > 0 && t < n && InTryPush(After(capacity, n, sched).threads[t]) && steps >= 6
    ensures |After(capacity, n, sched).slots| > 0 && t < |After(capacity, n, sched).threads|
    ensures TryPushEnds(After(capacity, n, sched), Run(After(capacity, n, sched), Steps(t, steps)), t)
  {
    AfterInv(capacity, n, sched);
    AloneIsRun(After(capacity, n, sched), t, steps);
    TryPushEndsAlone(After(capacity, n, sched), t, steps);
  }

  /** The same for `try_pop`, within seven steps: true, with the value of the next ticket, if its push is complete. */
  lemma TryPopFinishesAlone<V>(capacity: nat, n: nat, sched: Schedule<V>, t: nat, steps: nat)
    requires capacity > 0 && t < n && InTryPop(After(capacity, n, sched).threads[t]) && steps >= 7
    ensures Shaped(After(capacity, n, sched)) && t < |After(capacity, n, sched).threads|
    ensures TryPopEnds(After(capacity, n, sched), Run(After(capacity, n, sched), Steps(t, steps)), t)
  {
    AfterInv(capacity, n, sched);
    AloneIsRun(After(capacity, n, sched), t, steps);
    TryPopEndsAlone(After(capacity, n, sched), t, steps);
  }

  lemma {:induction false} SpinStays<V>(s: State<V>, t: nat, n: nat)
    requires |s.slots| > 0 && Next(s, t, Step) == s
    ensures Alone(s, t, n) == s
    decreases n
  {
    if n > 0 {
      SpinStays(s, t, n - 1);
    }
  }

  /** A blocking operation that runs alone with its ticket returns if the slot serves the ticket, and spins if not. */
  ghost predicate SpinEnds<V>(s: State<V>, s': State<V>, t: nat)
    requires |s.slots| > 0 && t < |s.threads| && (s.threads[t].PushSpin? || s.threads[t].PopSpin?)
  {
    var k := s.threads[t].ticket;
    if s.threads[t].PushSpin? && IsFree(s, k) then
      && k < |s.values| && HasPushed(s, s', t, k, s.values[k])
      && s'.head == s.head && s'.values == s.values && s'.pushOwner == s.pushOwner
    else if s.threads[t].PopSpin? && IsFull(s, k) then
      k < |s.values| && HasPopped(s, s', t, k, s.values[k]) && s'.tail == s.tail && s'.popOwner == s.popOwner
    else s' == s
  }

  lemma SpinEndsAlone<V>(s: State<V>, t: nat, n: nat)
    requires Inv(s) && t < |s.threads| && (s.threads[t].PushSpin? || s.threads[t].PopSpin?) && n >= 4
    ensures SpinEnds(s, Alone(s, t, n), t)
  {
    var k := s.threads[t].ticket;
    assert ThreadInv(s, t) && StorageInv(s, k);
    if s.threads[t].PushSpin? {
      PushSpinEnds(s, t, s.threads[t].value, k, n);
    } else if IsFull(s, k) {
      PopSpinEnds(s, t, k, s.values[k], n);
    } else {
      SpinStays(s, t, n);
    }
  }

  lemma PushSpinEnds<V>(s: State<V>, t: nat, v: V, k: nat, n: nat)
    requires |s.slots| > 0 && t < |s.threads| && s.threads[t] == PushSpin(v, k) && k < |s.values| && s.values[k] == v && n >= 3
    ensures SpinEnds(s, Alone(s, t, n), t)
  {
    if IsFree(s, k) {
      var s1 := Next(s, t, Step);
      OneStep(s, s1, t, n);
      assert s1 == Move(s, t, PushConstruct(v, k));
      ConstructsAlone(s1, t, v, k, n - 1);
      SetTwice(s.threads, t, s1.threads[t], Pushed);
    } else {
      SpinStays(s, t, n);
    }
  }

  lemma PopSpinEnds<V>(s: State<V>, t: nat, k: nat, v: V, n: nat)
    requires |s.slots| > 0 && t < |s.threads| && s.threads[t] == PopSpin(k) && k < |s.values| && s.values[k] == v && n >= 4
    requires IsFull(s, k) && s.slots[Idx(|s.slots|, k)].storage == Some(v)
    ensures SpinEnds(s, Alone(s, t, n), t)
  {
    var s1 := Next(s, t, Step);
    OneStep(s, s1, t, n);
    assert s1 == Move(s, t, PopMove(k));
    MovesAlone(s1, t, k, v, n - 1);
    PoppedFrom(s, s1, Alone(s1, t, n - 1), t, PopMove(k), k, v);
  }

  /** It does not matter where the thread stood before. */
  lemma PoppedFrom<V>(s: State<V>, s1: State<V>, s': State<V>, t: nat, pc: Thread<V>, k: nat, v: V)
    requires |s.slots| > 0 && t < |s.threads| && s1 == Move(s, t, pc) && HasPopped(s1, s', t, k, v)
    ensures HasPopped(s, s', t, k, v)
  {
    SetTwice(s.threads, t, pc, Popped(v));
  }

  /** A blocking push or pop returns within four steps of its own once its slot serves its ticket. */
  lemma SpinFinishesAlone<V>(capacity: nat, n: nat, sched: Schedule<V>, t: nat, steps: nat)
    requires capacity > 0 && t < n && steps >= 4
    requires After(capacity, n, sched).threads[t].PushSpin? || After(capacity, n, sched).threads[t].PopSpin?
    ensures |After(capacity, n, sched).slots| > 0 && t < |After(capacity, n, sched).threads|
    ensures SpinEnds(After(capacity, n, sched), Run(After(capacity, n, sched), Steps(t, steps)), t)
  {
    AfterInv(capacity, n, sched);
    AloneIsRun(After(capacity, n, sched), t, steps);
    SpinEndsAlone(After(capacity, n, sched), t, steps);
  }

  // ---------------------------------------------------------------------------------------------
  // Whole calls
  // ---------------------------------------------------------------------------------------------

  lemma CallThenAlone<V>(s: State<V>, t: nat, call: Action<V>, steps: nat)
    requires |s.slots| > 0
    ensures |Next(s, t, call).slots| == |s.slots| && Run(s, [(t, call)] + Steps(t, steps)) == Alone(Next(s, t, call), t, steps)
  {
    NextKeepsShape(s, t, call);
    RunCons(s, (t, call), Steps(t, steps));
    AloneIsRun(Next(s, t, call), t, steps);
  }

  ghost predicate TryPushReturns<V>(s: State<V>, s': State<V>, t: nat, v: V)
    requires |s.slots| > 0 && t < |s.threads|
  {
    if IsFree(s, s.head) then
      HasPushed(s, s', t, s.head, v) && s'.head == s.head + 1 && s'.values == s.values + [v] && s'.pushOwner == s.pushOwner + [t]
    else s' == s.(threads := s.threads[t := Returned(PushRefused)])
  }

  ghost predicate TryPopReturns<V>(s: State<V>, s': State<V>, t: nat)
    requires Shaped(s) && t < |s.threads|
  {
    if IsFull(s, s.tail) then
      s.tail < |s.values| && HasPopped(s, s', t, s.tail, s.values[s.tail]) && s'.tail == s.tail + 1 && s'.popOwner == s.popOwner + [t]
    else s' == s.(threads := s.threads[t := Returned(PopRefused)])
  }

  ghost predicate PushReturns<V>(s: State<V>, s': State<V>, t: nat, v: V)
    requires |s.slots| > 0 && t < |s.threads|
  {
    && s'.head == s.head + 1 && s'.values == s.values + [v] && s'.pushOwner == s.pushOwner + [t]
    && if IsFree(s, s.head) then HasPushed(s, s', t, s.head, v)
       else s' == DrawPush(s, t, v).(threads := s.threads[t := PushSpin(v, s.head)])
  }

  ghost predicate PopReturns<V>(s: State<V>, s': State<V>, t: nat)
    requires Shaped(s) && t < |s.threads|
  {
    && s'.tail == s.tail + 1 && s'.popOwner == s.popOwner + [t]
    && if IsFull(s, s.tail) then s.tail < |s.values| && HasPopped(s, s', t, s.tail, s.values[s.tail])
       else s' == DrawPop(s, t).(threads := s.threads[t := PopSpin(s.tail)])
  }

  lemma TryPushFrom<V>(s: State<V>, t: nat, v: V, n: nat)
    requires |s.slots| > 0 && t < |s.threads| && s.threads[t].Resting() && n >= 6
    ensures TryPushReturns(s, Alone(Move(s, t, TryPushCheck(v, s.head)), t, n), t, v)
  {
    var s1 := Move(s, t, TryPushCheck(v, s.head));
    TryPushAtHead(s1, t, v, n);
    SetTwice(s.threads, t, s1.threads[t], Pushed);
    SetTwice(s.threads, t, s1.threads[t], PushRefused);
  }

  lemma TryPopFrom<V>(s: State<V>, t: nat, n: nat)
    requires Shaped(s) && t < |s.threads| && s.threads[t].Resting() && n >= 7
    requires IsFull(s, s.tail) ==> s.tail < |s.values| && s.slots[Idx(|s.slots|, s.tail)].storage == Some(s.values[s.tail])
    ensures TryPopReturns(s, Alone(Move(s, t, TryPopCheck(s.tail)), t, n), t)
  {
    var s1 := Move(s, t, TryPopCheck(s.tail));
    TryPopAtTail(s1, t, n);
    if IsFull(s, s.tail) {
      SetTwice(s.threads, t, s1.threads[t], Popped(s.values[s.tail]));
    } else {
      SetTwice(s.threads, t, s1.threads[t], PopRefused);
    }
  }

  lemma PushFrom<V>(s: State<V>, t: nat, v: V, n: nat)
    requires Shaped(s) && t < |s.threads| && s.threads[t].Resting() && n >= 4
    ensures PushReturns(s, Alone(Move(DrawPush(s, t, v), t, PushSpin(v, s.head)), t, n), t, v)
  {
    var s1 := Move(DrawPush(s, t, v), t, PushSpin(v, s.head));
    PushSpinEnds(s1, t, v, s.head, n);
    SetTwice(s.threads, t, s1.threads[t], Pushed);
  }

  lemma PopFrom<V>(s: State<V>, t: nat, n: nat)
    requires Shaped(s) && t < |s.threads| && s.threads[t].Resting() && n >= 4
    requires IsFull(s, s.tail) ==> s.tail < |s.values| && s.slots[Idx(|s.slots|, s.tail)].storage == Some(s.values[s.tail])
    ensures PopReturns(s, Alone(Move(DrawPop(s, t), t, PopSpin(s.tail)), t, n), t)
  {
    var s1 := Move(DrawPop(s, t), t, PopSpin(s.tail));
    if IsFull(s, s.tail) {
      PopSpinEnds(s1, t, s.tail, s.values[s.tail], n);
      SetTwice(s.threads, t, s1.threads[t], Popped(s.values[s.tail]));
    } else {
      SpinStays(s1, t, n);
    }
  }

  /** A `try_push` during which no other thread moves pushes its value if the slot of the next ticket is free, and is refused if not. */
  lemma TryPushAlone<V>(capacity: nat, n: nat, sched: Schedule<V>, t: nat, v: V, steps: nat)
    requires capacity > 0 && t < n && After(capacity, n, sched).threads[t].Resting() && steps >= 6
    ensures var s := After(capacity, n, sched);
            |s.slots| > 0 && t < |s.threads| && TryPushReturns(s, Run(s, [(t, CallTryPush(v))] + Steps(t, steps)), t, v)
  {
    AfterInv(capacity, n, sched);
    CallThenAlone(After(capacity, n, sched), t, CallTryPush(v), steps);
    TryPushFrom(After(capacity, n, sched), t, v, steps);
  }

  /** A `try_pop` during which no other thread moves takes the value of the next ticket if its push is complete, and is refused if not. */
  lemma TryPopAlone<V>(capacity: nat, n: nat, sched: Schedule<V>, t: nat, steps: nat)
    requires capacity > 0 && t < n && After(capacity, n, sched).threads[t].Resting() && steps >= 7
    ensures var s := After(capacity, n, sched);
            Shaped(s) && t < |s.threads| && TryPopReturns(s, Run(s, [(t, CallTryPop)] + Steps(t, steps)), t)
  {
    AfterInv(capacity, n, sched);
    CallThenAlone(After(capacity, n, sched), t, CallTryPop, steps);
    FullHasValue(After(capacity, n, sched));
    TryPopFrom(After(capacity, n, sched), t, steps);
  }

  /** A `push` draws the next ticket, and is done if its slot is free; if not, it waits with the ticket. */
  lemma PushAlone<V>(capacity: nat, n: nat, sched: Schedule<V>, t: nat, v: V, steps: nat)
    requires capacity > 0 && t < n && After(capacity, n, sched).threads[t].Resting() && steps >= 4
    ensures var s := After(capacity, n, sched);
            |s.slots| > 0 && t < |s.threads| && PushReturns(s, Run(s, [(t, CallPush(v))] + Steps(t, steps)), t, v)
  {
    AfterInv(capacity, n, sched);
    CallThenAlone(After(capacity, n, sched), t, CallPush(v), steps);
    PushFrom(After(capacity, n, sched), t, v, steps);
  }

  /** A `pop` draws the next ticket, and is done if the push of the same number is; if not, it waits with the ticket. */
  lemma PopAlone<V>(capacity: nat, n: nat, sched: Schedule<V>, t: nat, steps: nat)
    requires capacity > 0 && t < n && After(capacity, n, sched).threads[t].Resting() && steps >= 4
    ensures var s := After(capacity, n, sched);
            Shaped(s) && t < |s.threads| && PopReturns(s, Run(s, [(t, CallPop)] + Steps(t, steps)), t)
  {
    AfterInv(capacity, n, sched);
    CallThenAlone(After(capacity, n, sched), t, CallPop, steps);
    FullHasValue(After(capacity, n, sched));
    PopFrom(After(capacity, n, sched), t, steps);
  }
}
