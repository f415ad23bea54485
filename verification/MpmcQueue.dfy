/**
 The bounded multi-producer multi-consumer ticket queue of `MPMCQueue.h`.

 Every atomic load, store, fetch_add or compare_exchange of the C++ code is one step, and the
 non-atomic construction, move and destruction of an element are steps of their own. Any number of
 threads interleave: a schedule is a sequence of (thread, action) pairs, and every statement below is
 about every schedule. Memory is sequentially consistent and tickets are unbounded naturals.
 */
module MpmcQueue {
  import opened Options

  datatype Slot<V> = Slot(turn: nat, storage: Option<V>)

  datatype Result<V> = Pushed | PushRefused | Popped(value: V) | PopRefused

  datatype Ticket = NoTicket | PushTicket(k: nat) | PopTicket(k: nat)

  /** Where a thread stands inside one call; the names follow the statements of the four operations. */
  datatype Thread<V> =
    | Idle
    | Returned(result: Result<V>)
    // emplace, and the tail of a try_emplace that won its ticket
    | PushSpin(value: V, ticket: nat)
    | PushConstruct(value: V, ticket: nat)
    | PushPublish(ticket: nat)
    // try_emplace
    | TryPushCheck(value: V, head: nat)
    | TryPushCas(value: V, head: nat)
    | TryPushReload(value: V, head: nat)
    // pop, and the tail of a try_pop that won its ticket
    | PopSpin(ticket: nat)
    | PopMove(ticket: nat)
    | PopDestroy(ticket: nat, value: V)
    | PopPublish(ticket: nat, value: V)
    // try_pop
    | TryPopCheck(tail: nat)
    | TryPopCas(tail: nat)
    | TryPopReload(tail: nat)
  {
    function Held(): Ticket {
      if PushSpin? || PushConstruct? || PushPublish? then PushTicket(ticket)
      else if PopSpin? || PopMove? || PopDestroy? || PopPublish? then PopTicket(ticket)
      else NoTicket
    }

    /** The thread is between its turn test and its turn store: it alone may touch the storage. */
    predicate Owns(k: nat) {
      (PushConstruct? || PushPublish? || PopMove? || PopDestroy? || PopPublish?) && ticket == k
    }

    predicate Resting() {
      Idle? || Returned?
    }
  }

  /**
   The shared memory, the threads, and the history of tickets: `values[k]` is the value brought by the
   holder of push ticket k, `pushOwner[k]` and `popOwner[k]` the threads that drew the tickets, and
   `delivered` the values moved out, by pop ticket.
   */
  datatype State<V> = State(
    head: nat,
    tail: nat,
    slots: seq<Slot<V>>,
    threads: seq<Thread<V>>,
    values: seq<V>,
    pushOwner: seq<nat>,
    popOwner: seq<nat>,
    delivered: map<nat, V>)

  /** What a scheduled thread does; `Step` continues the call it is in. */
  datatype Action<V> = CallPush(value: V) | CallTryPush(value: V) | CallPop | CallTryPop | Step

  /** The slot of ticket k, `k % c`, by laps of length c (see `LapsAreDivision`). */
  function Idx(c: nat, k: nat): (i: nat)
    requires c > 0
    ensures i < c
    decreases k
  {
    if k < c then k else Idx(c, k - c)
  }

  /** The lap of ticket k, `k / c`. */
  function Turn(c: nat, k: nat): nat
    requires c > 0
    decreases k
  {
    if k < c then 0 else Turn(c, k - c) + 1
  }

  ghost predicate Shaped<V>(s: State<V>) {
    |s.slots| > 0 && |s.values| == |s.pushOwner| == s.head && |s.popOwner| == s.tail
  }

  function Init<V>(capacity: nat, threads: nat): (s: State<V>)
    requires capacity > 0
  {
    State(0, 0, seq(capacity, i => Slot(0, None)), seq(threads, i => Idle), [], [], [], map[])
  }

  function SlotTurn<V>(s: State<V>, k: nat): nat
    requires |s.slots| > 0
  {
    s.slots[Idx(|s.slots|, k)].turn
  }

  function SetSlot<V>(s: State<V>, k: nat, slot: Slot<V>): State<V>
    requires |s.slots| > 0
  {
    s.(slots := s.slots[Idx(|s.slots|, k) := slot])
  }

  function Move<V>(s: State<V>, t: nat, pc: Thread<V>): State<V>
    requires t < |s.threads|
  {
    s.(threads := s.threads[t := pc])
  }

  /** The fetch_add or the successful compare_exchange on `head_`: thread t draws the next push ticket. */
  function DrawPush<V>(s: State<V>, t: nat, v: V): State<V> {
    s.(head := s.head + 1, values := s.values + [v], pushOwner := s.pushOwner + [t])
  }

  function DrawPop<V>(s: State<V>, t: nat): State<V> {
    s.(tail := s.tail + 1, popOwner := s.popOwner + [t])
  }

  /** One step of thread t. An action that does not fit the thread's position changes nothing. */
  function Next<V>(s: State<V>, t: nat, a: Action<V>): State<V>
    requires |s.slots| > 0
  {
    if t >= |s.threads| then s else
    var c := |s.slots|;
    var pc := s.threads[t];
    match a
    case CallPush(v) => if pc.Resting() then Move(DrawPush(s, t, v), t, PushSpin(v, s.head)) else s
    case CallTryPush(v) => if pc.Resting() then Move(s, t, TryPushCheck(v, s.head)) else s
    case CallPop => if pc.Resting() then Move(DrawPop(s, t), t, PopSpin(s.tail)) else s
    case CallTryPop => if pc.Resting() then Move(s, t, TryPopCheck(s.tail)) else s
    case Step =>
      match pc
      case Idle => s
      case Returned(_) => s
      case PushSpin(v, k) =>
        if Turn(c, k) * 2 == SlotTurn(s, k) then Move(s, t, PushConstruct(v, k)) else s
      case PushConstruct(v, k) => Move(SetSlot(s, k, Slot(SlotTurn(s, k), Some(v))), t, PushPublish(k))
      case PushPublish(k) =>
        Move(SetSlot(s, k, Slot(Turn(c, k) * 2 + 1, s.slots[Idx(c, k)].storage)), t, Returned(Pushed))
      case TryPushCheck(v, h) =>
        Move(s, t, if Turn(c, h) * 2 == SlotTurn(s, h) then TryPushCas(v, h) else TryPushReload(v, h))
      case TryPushCas(v, h) =>
        if s.head == h then Move(DrawPush(s, t, v), t, PushConstruct(v, h))
        else Move(s, t, TryPushCheck(v, s.head))
      case TryPushReload(v, h) =>
        Move(s, t, if s.head == h then Returned(PushRefused) else TryPushCheck(v, s.head))
      case PopSpin(k) =>
        if Turn(c, k) * 2 + 1 == SlotTurn(s, k) then Move(s, t, PopMove(k)) else s
      case PopMove(k) =>
        var stored := s.slots[Idx(c, k)].storage;
        if stored.None? then s
        else Move(s.(delivered := s.delivered[k := stored.value]), t, PopDestroy(k, stored.value))
      case PopDestroy(k, v) => Move(SetSlot(s, k, Slot(SlotTurn(s, k), None)), t, PopPublish(k, v))
      case PopPublish(k, v) =>
        Move(SetSlot(s, k, Slot(Turn(c, k) * 2 + 2, s.slots[Idx(c, k)].storage)), t, Returned(Popped(v)))
      case TryPopCheck(h) =>
        Move(s, t, if Turn(c, h) * 2 + 1 == SlotTurn(s, h) then TryPopCas(h) else TryPopReload(h))
      case TryPopCas(h) =>
        if s.tail == h then Move(DrawPop(s, t), t, PopMove(h)) else Move(s, t, TryPopCheck(s.tail))
      case TryPopReload(h) =>
        Move(s, t, if s.tail == h then Returned(PopRefused) else TryPopCheck(s.tail))
  }

  type Schedule<V> = seq<(nat, Action<V>)>

  function Run<V>(s: State<V>, sched: Schedule<V>): (r: State<V>)
    requires |s.slots| > 0
    ensures |r.slots| == |s.slots| && |r.threads| == |s.threads|
    decreases |sched|
  {
    if sched == [] then s
    else
      var last := |sched| - 1;
      var p := Run(s, sched[..last]);
      NextKeepsShape(p, sched[last].0, sched[last].1);
      Next(p, sched[last].0, sched[last].1)
  }

  lemma NextKeepsShape<V>(s: State<V>, t: nat, a: Action<V>)
    requires |s.slots| > 0
    ensures |Next(s, t, a).slots| == |s.slots| && |Next(s, t, a).threads| == |s.threads|
  {
  }

  // ---------------------------------------------------------------------------------------------
  // Tickets, turns and slots
  // ---------------------------------------------------------------------------------------------

  /** The holder of push ticket k has stored its turn: its value is in the slot, or has been there. */
  predicate PushDone<V>(s: State<V>, k: nat)
    requires |s.slots| > 0
  {
    SlotTurn(s, k) > Turn(|s.slots|, k) * 2
  }

  predicate PopDone<V>(s: State<V>, k: nat)
    requires |s.slots| > 0
  {
    SlotTurn(s, k) > Turn(|s.slots|, k) * 2 + 1
  }

  lemma {:induction false} LapsAddUp(c: nat, k: nat)
    requires c > 0
    ensures k == Turn(c, k) * c + Idx(c, k)
    decreases k
  {
    if k >= c {
      LapsAddUp(c, k - c);
    }
  }

  lemma QuotientUnique(c: nat, q: int, r: nat, p: int, m: nat)
    requires r < c && m < c && q * c + r == p * c + m
    ensures q == p && r == m
  {
    if q < p { assert (q + 1) * c <= p * c by { MulMono(q + 1, p, c); } }
    if p < q { assert (p + 1) * c <= q * c by { MulMono(p + 1, q, c); } }
  }

  lemma MulMono(a: int, b: int, c: nat)
    requires a <= b
    ensures a * c <= b * c
  {
  }

  /** The laps count what the source computes by division and remainder. */
  lemma LapsAreDivision(c: nat, k: nat)
    requires c > 0
    ensures Idx(c, k) == k % c && Turn(c, k) == k / c
  {
    LapsAddUp(c, k);
    QuotientUnique(c, Turn(c, k), Idx(c, k), k / c, k % c);
  }

  /** Two tickets of one slot with the same turn are one ticket, and consecutive turns lie c apart. */
  lemma {:induction false} SameSlot(c: nat, j: nat, k: nat)
    requires c > 0 && Idx(c, j) == Idx(c, k)
    ensures Turn(c, j) == Turn(c, k) <==> j == k
    ensures Turn(c, j) < Turn(c, k) <==> j < k
    ensures Turn(c, j) + 1 == Turn(c, k) <==> j + c == k
    ensures j < k ==> j + c <= k
    decreases j + k
  {
    if j >= c && k >= c {
      SameSlot(c, j - c, k - c);
    } else if k >= c + c {
      SameSlot(c, j, k - c);
    } else if j >= c + c {
      SameSlot(c, j - c, k);
    }
  }

  /** The push ticket that a slot whose turn is even waits for, the pop ticket if it is odd. */
  function Awaited(c: nat, i: nat, lap: nat): (k: nat)
    requires i < c
    ensures Idx(c, k) == i && Turn(c, k) == lap
    decreases lap
  {
    if lap == 0 then i else Awaited(c, i, lap - 1) + c
  }

  // ---------------------------------------------------------------------------------------------
  // The inductive invariant
  // ---------------------------------------------------------------------------------------------

  /** Only drawn tickets are done, and every drawn ticket that is not done is held by its drawer. */
  ghost predicate TicketInv<V>(s: State<V>)
    requires Shaped(s)
  {
    && (forall k: nat :: PushDone(s, k) ==> k < s.head)
    && (forall k: nat :: PopDone(s, k) ==> k < s.tail)
    && (forall k: nat | k < s.head ::
          s.pushOwner[k] < |s.threads| && (PushDone(s, k) || s.threads[s.pushOwner[k]].Held() == PushTicket(k)))
    && (forall k: nat | k < s.tail ::
          s.popOwner[k] < |s.threads| && (PopDone(s, k) || s.threads[s.popOwner[k]].Held() == PopTicket(k)))
  }

  /** What the position of thread t says about its ticket. */
  ghost predicate ThreadInv<V>(s: State<V>, t: nat)
    requires Shaped(s) && t < |s.threads|
  {
    var c := |s.slots|;
    match s.threads[t]
    case PushSpin(v, k) =>
      k < s.head && s.pushOwner[k] == t && s.values[k] == v && !PushDone(s, k)
    case PushConstruct(v, k) =>
      k < s.head && s.pushOwner[k] == t && s.values[k] == v && SlotTurn(s, k) == Turn(c, k) * 2
    case PushPublish(k) =>
      k < s.head && s.pushOwner[k] == t && SlotTurn(s, k) == Turn(c, k) * 2
    case PopSpin(k) =>
      k < s.tail && s.popOwner[k] == t && !PopDone(s, k) && k !in s.delivered
    case PopMove(k) =>
      k < s.tail && s.popOwner[k] == t && SlotTurn(s, k) == Turn(c, k) * 2 + 1 && k !in s.delivered
    case PopDestroy(k, v) =>
      k < s.tail && s.popOwner[k] == t && SlotTurn(s, k) == Turn(c, k) * 2 + 1
      && k in s.delivered && s.delivered[k] == v
    case PopPublish(k, v) =>
      k < s.tail && s.popOwner[k] == t && SlotTurn(s, k) == Turn(c, k) * 2 + 1
      && k in s.delivered && s.delivered[k] == v
    case TryPushCheck(v, h) => h <= s.head
    case TryPushCas(v, h) => h <= s.head && SlotTurn(s, h) >= Turn(c, h) * 2
    case TryPushReload(v, h) => h <= s.head
    case TryPopCheck(h) => h <= s.tail
    case TryPopCas(h) => h <= s.tail && SlotTurn(s, h) >= Turn(c, h) * 2 + 1
    case TryPopReload(h) => h <= s.tail
    case _ => true
  }

  /** What the slot of ticket k holds while its turn says that k is the ticket it serves. */
  ghost predicate StorageInv<V>(s: State<V>, k: nat)
    requires Shaped(s) && TicketInv(s)
  {
    var storage := s.slots[Idx(|s.slots|, k)].storage;
    && (SlotTurn(s, k) == Turn(|s.slots|, k) * 2 ==>
          storage == if k < s.head && s.threads[s.pushOwner[k]] == PushPublish(k) then Some(s.values[k]) else None)
    && (SlotTurn(s, k) == Turn(|s.slots|, k) * 2 + 1 ==>
          k < s.head &&
          storage == if k < s.tail && s.threads[s.popOwner[k]].PopPublish? then None else Some(s.values[k]))
  }

  /** Pop ticket k is delivered once its holder has passed the move, with the value of push ticket k. */
  ghost predicate DeliveryInv<V>(s: State<V>)
    requires Shaped(s)
  {
    && (forall k: nat | k in s.delivered :: k < s.tail && k < s.head && s.delivered[k] == s.values[k])
    && (forall k: nat :: PopDone(s, k) ==> k in s.delivered)
  }

  ghost predicate Inv<V>(s: State<V>) {
    && Shaped(s)
    && TicketInv(s)
    && (forall t: nat | t < |s.threads| :: ThreadInv(s, t))
    && (forall k: nat :: StorageInv(s, k))
    && DeliveryInv(s)
  }

  lemma InitInv<V>(capacity: nat, threads: nat)
    requires capacity > 0
    ensures Inv(Init<V>(capacity, threads))
  {
  }

  // ---------------------------------------------------------------------------------------------
  // Every step keeps the invariant
  // ---------------------------------------------------------------------------------------------

  /** A step of t that stores no turn leaves what every other thread knows about its ticket. */
  lemma OthersKept<V>(s: State<V>, s': State<V>, t: nat, u: nat)
    requires Shaped(s) && Shaped(s') && |s.slots| == |s'.slots| && u < |s.threads| && u != t
    requires forall i | 0 <= i < |s.slots| :: s.slots[i].turn == s'.slots[i].turn
    requires s.values <= s'.values && s.pushOwner <= s'.pushOwner && s.popOwner <= s'.popOwner
    requires forall k: nat | k < s.tail && s.popOwner[k] != t ::
      (k in s.delivered <==> k in s'.delivered) && (k in s.delivered ==> s.delivered[k] == s'.delivered[k])
    requires ThreadInv(s, u) && u < |s'.threads| && s'.threads[u] == s.threads[u]
    ensures ThreadInv(s', u)
  {
    var pc := s.threads[u];
    if pc.Held() != NoTicket {
      assert SlotTurn(s', pc.ticket) == SlotTurn(s, pc.ticket);
    } else if pc.TryPushCas? {
      assert SlotTurn(s', pc.head) == SlotTurn(s, pc.head);
    } else if pc.TryPopCas? {
      assert SlotTurn(s', pc.tail) == SlotTurn(s, pc.tail);
    }
  }

  /** A step that moves thread t between positions without touching memory or tickets. */
  lemma MoveKeepsInv<V>(s: State<V>, t: nat, pc: Thread<V>)
    requires Inv(s) && t < |s.threads|
    requires s.threads[t].Held() == pc.Held()
    requires !s.threads[t].PushPublish? && !pc.PushPublish? && !s.threads[t].PopPublish? && !pc.PopPublish?
    requires ThreadInv(Move(s, t, pc), t)
    ensures Inv(Move(s, t, pc))
  {
    var s' := Move(s, t, pc);
    assert TicketInv(s') by {
      SameTurns(s, s');
    }
    forall u: nat | u < |s'.threads| ensures ThreadInv(s', u) {
      if u != t { OthersKept(s, s', t, u); }
    }
    forall k: nat ensures StorageInv(s', k) { assert StorageInv(s, k); }
  }

  lemma DrawPushKeepsInv<V>(s: State<V>, t: nat, v: V, pc: Thread<V>)
    requires Inv(s) && t < |s.threads|
    requires s.threads[t].Held() == NoTicket
    requires pc == PushSpin(v, s.head) || (pc == PushConstruct(v, s.head) && s.threads[t] == TryPushCas(v, s.head))
    ensures Inv(Move(DrawPush(s, t, v), t, pc))
  {
    var s' := Move(DrawPush(s, t, v), t, pc);
    SameTurns(s, s');
    assert !PushDone(s, s.head);
    assert ThreadInv(s, t);
    forall u: nat | u < |s'.threads| ensures ThreadInv(s', u) {
      if u != t { OthersKept(s, s', t, u); }
    }
    forall k: nat ensures StorageInv(s', k) { assert StorageInv(s, k); }
  }

  lemma DrawPopKeepsInv<V>(s: State<V>, t: nat, pc: Thread<V>)
    requires Inv(s) && t < |s.threads|
    requires s.threads[t].Held() == NoTicket
    requires pc == PopSpin(s.tail) || (pc == PopMove(s.tail) && s.threads[t] == TryPopCas(s.tail))
    ensures Inv(Move(DrawPop(s, t), t, pc))
  {
    var s' := Move(DrawPop(s, t), t, pc);
    SameTurns(s, s');
    assert !PopDone(s, s.tail);
    assert ThreadInv(s, t);
    forall u: nat | u < |s'.threads| ensures ThreadInv(s', u) {
      if u != t { OthersKept(s, s', t, u); }
    }
    forall k: nat ensures StorageInv(s', k) { assert StorageInv(s, k); }
  }

  /** The construction of the value in the slot of push ticket k; the slot's turn stays. */
  lemma ConstructKeepsInv<V>(s: State<V>, t: nat, k: nat, v: V)
    requires Inv(s) && t < |s.threads| && s.threads[t] == PushConstruct(v, k)
    ensures Inv(Next(s, t, Step))
  {
    var s' := Next(s, t, Step);
    assert ThreadInv(s, t);
    SameTurns(s, s');
    assert TicketInv(s');
    forall u: nat | u < |s'.threads| ensures ThreadInv(s', u) {
      if u != t { OthersKept(s, s', t, u); }
    }
    forall j: nat ensures StorageInv(s', j) {
      assert StorageInv(s, j);
      if Idx(|s.slots|, j) == Idx(|s.slots|, k) { SameSlot(|s.slots|, j, k); }
    }
  }

  /** The destruction of the moved-out value in the slot of pop ticket k; the slot's turn stays. */
  lemma DestroyKeepsInv<V>(s: State<V>, t: nat, k: nat, v: V)
    requires Inv(s) && t < |s.threads| && s.threads[t] == PopDestroy(k, v)
    ensures Inv(Next(s, t, Step))
  {
    var s' := Next(s, t, Step);
    assert ThreadInv(s, t);
    SameTurns(s, s');
    assert TicketInv(s');
    forall u: nat | u < |s'.threads| ensures ThreadInv(s', u) {
      if u != t { OthersKept(s, s', t, u); }
    }
    forall j: nat ensures StorageInv(s', j) {
      assert StorageInv(s, j);
      if Idx(|s.slots|, j) == Idx(|s.slots|, k) { SameSlot(|s.slots|, j, k); }
    }
  }

  lemma SameTurns<V>(s: State<V>, s': State<V>)
    requires |s.slots| == |s'.slots| > 0
    requires forall i | 0 <= i < |s.slots| :: s.slots[i].turn == s'.slots[i].turn
    ensures forall k: nat :: SlotTurn(s', k) == SlotTurn(s, k)
    ensures forall k: nat :: PushDone(s', k) == PushDone(s, k) && PopDone(s', k) == PopDone(s, k)
  {
  }

  /** The turn store of thread t on its ticket k leaves what every other thread knows about its own. */
  lemma TurnStored<V>(s: State<V>, s': State<V>, t: nat, u: nat, k: nat)
    requires Shaped(s) && t < |s.threads| && u < |s.threads| && u != t
    requires ThreadInv(s, t) && ThreadInv(s, u) && s.threads[t].Owns(k)
    requires s' == s.(threads := s'.threads, slots := s.slots[Idx(|s.slots|, k) := Slot(SlotTurn(s, k) + 1, s.slots[Idx(|s.slots|, k)].storage)])
    requires u < |s'.threads| && s'.threads[u] == s.threads[u]
    ensures ThreadInv(s', u)
  {
    var c := |s.slots|;
    var pc := s.threads[u];
    if pc.Held() != NoTicket {
      if Idx(c, pc.ticket) == Idx(c, k) { SameSlot(c, pc.ticket, k); }
    } else if pc.TryPushCas? {
      if Idx(c, pc.head) == Idx(c, k) { SameSlot(c, pc.head, k); }
    } else if pc.TryPopCas? {
      if Idx(c, pc.tail) == Idx(c, k) { SameSlot(c, pc.tail, k); }
    }
  }

  /** The turn store of thread t on its ticket k, which ends the call. */
  function Publish<V>(s: State<V>, t: nat, k: nat, result: Result<V>): State<V>
    requires |s.slots| > 0 && t < |s.threads|
  {
    Move(SetSlot(s, k, Slot(SlotTurn(s, k) + 1, s.slots[Idx(|s.slots|, k)].storage)), t, Returned(result))
  }

  /** The turn store makes ticket k done and no other. */
  lemma PublishKeepsTickets<V>(s: State<V>, t: nat, k: nat, result: Result<V>)
    requires Inv(s) && t < |s.threads| && (s.threads[t].PushPublish? || s.threads[t].PopPublish?) && s.threads[t].ticket == k
    ensures TicketInv(Publish(s, t, k, result))
    ensures forall j: nat ::
      PopDone(Publish(s, t, k, result), j) == ((j == k && s.threads[t].PopPublish?) || PopDone(s, j))
  {
    var c := |s.slots|;
    var s' := Publish(s, t, k, result);
    assert ThreadInv(s, t);
    forall j: nat
      ensures PushDone(s', j) == ((j == k && s.threads[t].PushPublish?) || PushDone(s, j))
      ensures PopDone(s', j) == ((j == k && s.threads[t].PopPublish?) || PopDone(s, j))
    {
      if Idx(c, j) == Idx(c, k) { SameSlot(c, j, k); }
    }
  }

  /** After the turn store the slot holds what the ticket it now serves expects. */
  lemma PublishKeepsStorage<V>(s: State<V>, t: nat, k: nat, result: Result<V>, j: nat)
    requires Inv(s) && t < |s.threads| && (s.threads[t].PushPublish? || s.threads[t].PopPublish?) && s.threads[t].ticket == k
    requires TicketInv(Publish(s, t, k, result))
    ensures StorageInv(Publish(s, t, k, result), j)
  {
    var c := |s.slots|;
    assert ThreadInv(s, t) && StorageInv(s, k) && StorageInv(s, j);
    if Idx(c, j) == Idx(c, k) {
      SameSlot(c, k, j);
      if s.threads[t].PushPublish? {
        if j == k && k < s.tail { assert ThreadInv(s, s.popOwner[k]); }
      } else {
        if j == k + c && j < s.head { assert ThreadInv(s, s.pushOwner[j]); }
      }
    } else if j < s.tail {
      assert PopDone(s, j) || s.threads[s.popOwner[j]].Held() == PopTicket(j);
    }
  }

  lemma PublishKeepsInv<V>(s: State<V>, t: nat, k: nat, result: Result<V>)
    requires Inv(s) && t < |s.threads| && (s.threads[t].PushPublish? || s.threads[t].PopPublish?) && s.threads[t].ticket == k
    ensures Inv(Publish(s, t, k, result))
  {
    var s' := Publish(s, t, k, result);
    assert ThreadInv(s, t);
    PublishKeepsTickets(s, t, k, result);
    forall u: nat | u < |s'.threads| ensures ThreadInv(s', u) {
      if u != t { TurnStored(s, s', t, u, k); }
    }
    forall j: nat ensures StorageInv(s', j) { PublishKeepsStorage(s, t, k, result, j); }
  }

  /** The move out of the slot delivers the value of push ticket k, for the first and only time. */
  lemma DeliverKeepsInv<V>(s: State<V>, t: nat, k: nat)
    requires Inv(s) && t < |s.threads| && s.threads[t] == PopMove(k)
    ensures k < s.head && s.slots[Idx(|s.slots|, k)].storage == Some(s.values[k]) && k !in s.delivered
    ensures Next(s, t, Step).delivered == s.delivered[k := s.values[k]]
    ensures Inv(Next(s, t, Step))
  {
    var s' := Next(s, t, Step);
    assert ThreadInv(s, t) && StorageInv(s, k);
    SameTurns(s, s');
    assert TicketInv(s');
    forall u: nat | u < |s'.threads| ensures ThreadInv(s', u) {
      if u != t { OthersKept(s, s', t, u); }
    }
    forall j: nat ensures StorageInv(s', j) { assert StorageInv(s, j); }
  }

  lemma CallKeepsInv<V>(s: State<V>, t: nat, a: Action<V>)
    requires Inv(s) && t < |s.threads| && a != Step && s.threads[t].Resting()
    ensures Inv(Next(s, t, a))
  {
    match a
    case CallPush(v) => DrawPushKeepsInv(s, t, v, PushSpin(v, s.head));
    case CallTryPush(v) => MoveKeepsInv(s, t, TryPushCheck(v, s.head));
    case CallPop => DrawPopKeepsInv(s, t, PopSpin(s.tail));
    case CallTryPop => MoveKeepsInv(s, t, TryPopCheck(s.tail));
  }

  /** The steps that draw no ticket and touch no slot. */
  lemma LocalStepKeepsInv<V>(s: State<V>, t: nat)
    requires Inv(s) && t < |s.threads|
    requires var pc := s.threads[t];
             || pc.PushSpin? || pc.PopSpin? || pc.TryPushCheck? || pc.TryPushReload? || pc.TryPopCheck? || pc.TryPopReload?
             || (pc.TryPushCas? && s.head != pc.head) || (pc.TryPopCas? && s.tail != pc.tail)
    ensures Inv(Next(s, t, Step))
  {
    assert ThreadInv(s, t);
    var s' := Next(s, t, Step);
    if s'.threads[t] != s.threads[t] {
      MoveKeepsInv(s, t, s'.threads[t]);
    } else {
      assert s'.threads == s.threads;
    }
  }

  lemma StepKeepsInv<V>(s: State<V>, t: nat)
    requires Inv(s) && t < |s.threads|
    ensures Inv(Next(s, t, Step))
  {
    assert ThreadInv(s, t);
    match s.threads[t]
    case Idle =>
    case Returned(_) =>
    case PushConstruct(v, k) => ConstructKeepsInv(s, t, k, v);
    case PushPublish(_) => PublishStepKeepsInv(s, t);
    case PopMove(k) => DeliverKeepsInv(s, t, k);
    case PopDestroy(k, v) => DestroyKeepsInv(s, t, k, v);
    case PopPublish(_, _) => PublishStepKeepsInv(s, t);
    case TryPushCas(_, _) => TryPushKeepsInv(s, t);
    case TryPopCas(_) => TryPopKeepsInv(s, t);
    case _ => LocalStepKeepsInv(s, t);
  }

  lemma PublishStepKeepsInv<V>(s: State<V>, t: nat)
    requires Inv(s) && t < |s.threads| && (s.threads[t].PushPublish? || s.threads[t].PopPublish?)
    ensures Inv(Next(s, t, Step))
  {
    assert ThreadInv(s, t);
    match s.threads[t]
    case PushPublish(k) => PublishKeepsInv(s, t, k, Pushed);
    case PopPublish(k, v) => PublishKeepsInv(s, t, k, Popped(v));
  }

  lemma TryPushKeepsInv<V>(s: State<V>, t: nat)
    requires Inv(s) && t < |s.threads| && s.threads[t].TryPushCas?
    ensures Inv(Next(s, t, Step))
  {
    var v, h := s.threads[t].value, s.threads[t].head;
    assert ThreadInv(s, t);
    if s.head == h { DrawPushKeepsInv(s, t, v, PushConstruct(v, h)); } else { LocalStepKeepsInv(s, t); }
  }

  lemma TryPopKeepsInv<V>(s: State<V>, t: nat)
    requires Inv(s) && t < |s.threads| && s.threads[t].TryPopCas?
    ensures Inv(Next(s, t, Step))
  {
    var h := s.threads[t].tail;
    assert ThreadInv(s, t);
    if s.tail == h { DrawPopKeepsInv(s, t, PopMove(h)); } else { LocalStepKeepsInv(s, t); }
  }

  lemma NextKeepsInv<V>(s: State<V>, t: nat, a: Action<V>)
    requires Inv(s)
    ensures Inv(Next(s, t, a))
  {
    if t < |s.threads| {
      if a == Step {
        StepKeepsInv(s, t);
      } else if s.threads[t].Resting() {
        CallKeepsInv(s, t, a);
      }
    }
  }

  lemma {:induction false} RunKeepsInv<V>(s: State<V>, sched: Schedule<V>)
    requires Inv(s)
    ensures Inv(Run(s, sched))
    decreases |sched|
  {
    if sched != [] {
      var last := |sched| - 1;
      RunKeepsInv(s, sched[..last]);
      NextKeepsInv(Run(s, sched[..last]), sched[last].0, sched[last].1);
    }
  }

  // ---------------------------------------------------------------------------------------------
  // Every reachable state
  // ---------------------------------------------------------------------------------------------

  /** The state after a schedule of a fresh queue of the given capacity, used by n threads. */
  function After<V>(capacity: nat, n: nat, sched: Schedule<V>): State<V>
    requires capacity > 0
  {
    Run(Init(capacity, n), sched)
  }

  lemma AfterInv<V>(capacity: nat, n: nat, sched: Schedule<V>)
    requires capacity > 0
    ensures Inv(After(capacity, n, sched))
    ensures |After(capacity, n, sched).slots| == capacity && |After(capacity, n, sched).threads| == n
  {
    InitInv<V>(capacity, n);
    RunKeepsInv(Init<V>(capacity, n), sched);
  }

  /**
   The pop of ticket k hands out exactly the value that came with push ticket k. It is taken out of the
   queue when the holder moves it, at most once, and every pop that has returned took its own.
   */
  lemma PopTakesItsTicketsValue<V>(capacity: nat, n: nat, sched: Schedule<V>, t: nat)
    requires capacity > 0 && t < n
    ensures var s := After(capacity, n, sched);
            |s.values| == s.head && forall k: nat | k in s.delivered :: k < |s.values| && k < s.tail && s.delivered[k] == s.values[k]
    ensures var s := After(capacity, n, sched);
            forall k: nat, v | s.threads[t] == PopDestroy(k, v) || s.threads[t] == PopPublish(k, v) ::
              k < |s.values| && v == s.values[k] && k in s.delivered
    ensures var s := After(capacity, n, sched);
            forall k: nat | s.threads[t] == PopMove(k) ::
              k < |s.values| && k !in s.delivered && Next(s, t, Step).delivered == s.delivered[k := s.values[k]]
    ensures var s := After(capacity, n, sched);
            forall v | s.threads[t].PopPublish? && s.threads[t].value == v ::
              Next(s, t, Step).threads[t] == Returned(Popped(v))
  {
    AfterInv(capacity, n, sched);
    var s := After(capacity, n, sched);
    assert ThreadInv(s, t);
    if s.threads[t].PopMove? {
      DeliverKeepsInv(s, t, s.threads[t].ticket);
    }
  }

  /** No two threads are ever between their turn test and their turn store on one slot. */
  lemma SlotHasOneOwner<V>(capacity: nat, n: nat, sched: Schedule<V>, t: nat, u: nat, k: nat, j: nat)
    requires capacity > 0 && t < n && u < n && t != u
    requires After(capacity, n, sched).threads[t].Owns(k) && After(capacity, n, sched).threads[u].Owns(j)
    ensures k % capacity != j % capacity
  {
    AfterInv(capacity, n, sched);
    var s := After(capacity, n, sched);
    assert ThreadInv(s, t) && ThreadInv(s, u);
    LapsAreDivision(capacity, k);
    LapsAreDivision(capacity, j);
    if Idx(capacity, k) == Idx(capacity, j) {
      SameSlot(capacity, j, k);
    }
  }

  /** A value is constructed only in an empty slot, and moved out and destroyed only in a full one. */
  lemma StorageIsUsedSafely<V>(capacity: nat, n: nat, sched: Schedule<V>, t: nat, k: nat)
    requires capacity > 0 && t < n && After(capacity, n, sched).threads[t].Owns(k)
    ensures var s := After(capacity, n, sched);
            s.slots[k % capacity].storage.None? <==> s.threads[t].PushConstruct? || s.threads[t].PopPublish?
  {
    AfterInv(capacity, n, sched);
    var s := After(capacity, n, sched);
    assert ThreadInv(s, t) && StorageInv(s, k);
    LapsAreDivision(capacity, k);
  }

  // ---------------------------------------------------------------------------------------------
  // Progress of the blocking operations
  // ---------------------------------------------------------------------------------------------

  /** The next step of thread t changes the state: it does not spin and does not rest. */
  ghost predicate CanStep<V>(s: State<V>, t: nat)
    requires |s.slots| > 0
  {
    t < |s.threads| && Next(s, t, Step) != s
  }

  /**
   A pop that has drawn a ticket for which a push has drawn one too is never stuck for good: it can
   step itself, or the one thread the slot is waiting for can.
   */
  lemma PendingPopIsNotStuck<V>(capacity: nat, n: nat, sched: Schedule<V>, t: nat, k: nat)
    requires capacity > 0 && t < n
    requires var s := After(capacity, n, sched); s.threads[t].Held() == PopTicket(k) && k < s.head
    ensures exists u: nat :: CanStep(After(capacity, n, sched), u) && After(capacity, n, sched).threads[u].Held() != NoTicket
  {
    AfterInv(capacity, n, sched);
    var s := After(capacity, n, sched);
    var c := capacity;
    assert ThreadInv(s, t) && StorageInv(s, k);
    if !s.threads[t].PopSpin? || SlotTurn(s, k) == Turn(c, k) * 2 + 1 {
      assert CanStep(s, t);
    } else {
      // the slot still serves an earlier ticket j, whose holder is between its draw and its turn store
      var j := Awaited(c, Idx(c, k), SlotTurn(s, k) / 2);
      SameSlot(c, j, k);
      var u := if SlotTurn(s, k) % 2 == 0 then s.pushOwner[j] else s.popOwner[j];
      assert ThreadInv(s, u) && StorageInv(s, j);
      assert CanStep(s, u);
    }
  }

  /** The same for a push whose ticket lies less than one capacity ahead of the pops. */
  lemma PendingPushIsNotStuck<V>(capacity: nat, n: nat, sched: Schedule<V>, t: nat, k: nat)
    requires capacity > 0 && t < n
    requires var s := After(capacity, n, sched); s.threads[t].Held() == PushTicket(k) && k < s.tail + capacity
    ensures exists u: nat :: CanStep(After(capacity, n, sched), u) && After(capacity, n, sched).threads[u].Held() != NoTicket
  {
    AfterInv(capacity, n, sched);
    var s := After(capacity, n, sched);
    var c := capacity;
    assert ThreadInv(s, t);
    if !s.threads[t].PushSpin? || SlotTurn(s, k) == Turn(c, k) * 2 {
      assert CanStep(s, t);
    } else {
      var j := Awaited(c, Idx(c, k), SlotTurn(s, k) / 2);
      SameSlot(c, j, k);
      var u := if SlotTurn(s, k) % 2 == 0 then s.pushOwner[j] else s.popOwner[j];
      assert ThreadInv(s, u) && StorageInv(s, j);
      assert CanStep(s, u);
    }
  }

  /** How many steps a thread is away from storing the turn of its slot, once it need not wait any more. */
  function StepsLeft<V>(pc: Thread<V>): (n: nat)
    ensures n <= 4
  {
    match pc
    case PopSpin(_) => 4
    case PushSpin(_, _) => 3
    case PopMove(_) => 3
    case PushConstruct(_, _) => 2
    case PopDestroy(_, _) => 2
    case PushPublish(_) => 1
    case PopPublish(_, _) => 1
    case _ => 0
  }

  /** The ticket that the slot of ticket k serves now. */
  function Served<V>(s: State<V>, k: nat): nat
    requires |s.slots| > 0
  {
    Awaited(|s.slots|, Idx(|s.slots|, k), SlotTurn(s, k) / 2)
  }

  /** The slot of a drawn pair of tickets that is not done serves a ticket that is drawn, too. */
  lemma ServedIsDrawn<V>(s: State<V>, k: nat)
    requires Inv(s) && k < s.head && k < s.tail && !PopDone(s, k)
    ensures Served(s, k) <= k && (SlotTurn(s, k) == Turn(|s.slots|, k) * 2 + 1 ==> Served(s, k) == k)
  {
    SameSlot(|s.slots|, Served(s, k), k);
  }

  function Server<V>(s: State<V>, k: nat): nat
    requires Inv(s) && k < s.head && k < s.tail && !PopDone(s, k)
  {
    ServedIsDrawn(s, k);
    if SlotTurn(s, k) % 2 == 0 then s.pushOwner[Served(s, k)] else s.popOwner[Served(s, k)]
  }

  /** The thread that the slot is waiting for holds its ticket and does not spin. */
  lemma ServerIsReady<V>(s: State<V>, k: nat)
    requires Inv(s) && k < s.head && k < s.tail && !PopDone(s, k)
    ensures var u, j := Server(s, k), Served(s, k);
            && u < |s.threads| && ThreadInv(s, u) && StorageInv(s, j)
            && Idx(|s.slots|, j) == Idx(|s.slots|, k)
            && s.threads[u].Held() == (if SlotTurn(s, k) % 2 == 0 then PushTicket(j) else PopTicket(j))
            && SlotTurn(s, k) == Turn(|s.slots|, j) * 2 + SlotTurn(s, k) % 2
  {
    ServedIsDrawn(s, k);
    var u, j := Server(s, k), Served(s, k);
    assert SlotTurn(s, j) == SlotTurn(s, k);
    assert ThreadInv(s, u) && StorageInv(s, j);
  }
  /** A bound for the steps that are needed until ticket k is done. */
  function Left<V>(s: State<V>, k: nat): nat
    requires Inv(s) && k < s.head && k < s.tail && !PopDone(s, k)
  {
    ServerIsReady(s, k);
    (Turn(|s.slots|, k) * 2 + 2 - SlotTurn(s, k)) * 5 + StepsLeft(s.threads[Server(s, k)])
  }

  /** What a step of the thread that the slot is waiting for does to the slot. */
  lemma ServerSteps<V>(s: State<V>, k: nat, u: nat)
    requires Inv(s) && k < s.head && k < s.tail && !PopDone(s, k) && k !in s.delivered && u == Server(s, k)
    ensures var s' := Next(s, u, Step);
            && s'.head == s.head && s'.tail == s.tail && s'.pushOwner == s.pushOwner && s'.popOwner == s.popOwner
            && u < |s.threads| == |s'.threads| && |s'.slots| == |s.slots|
            && if s.threads[u].PushPublish? || s.threads[u].PopPublish? then SlotTurn(s', k) == SlotTurn(s, k) + 1
               else SlotTurn(s', k) == SlotTurn(s, k) &&
                    (StepsLeft(s'.threads[u]) < StepsLeft(s.threads[u]) || k in s'.delivered)
    ensures s.threads[u].PopPublish? ==> Served(s, k) != k
  {
    ServerIsReady(s, k);
  }

  lemma LeftDecreases<V>(s: State<V>, k: nat, u: nat)
    requires Inv(s) && k < s.head && k < s.tail && !PopDone(s, k) && k !in s.delivered && u == Server(s, k)
    ensures var s' := Next(s, u, Step);
            && Inv(s') && k < s'.head && k < s'.tail
            && (k in s'.delivered || (!PopDone(s', k) && Left(s', k) < Left(s, k)))
  {
    var s' := Next(s, u, Step);
    ServerSteps(s, k, u);
    ServerIsReady(s, k);
    NextKeepsInv(s, u, Step);
    ServedIsDrawn(s, k);
  }

  lemma {:induction false} RunCons<V>(s: State<V>, first: (nat, Action<V>), rest: Schedule<V>)
    requires |s.slots| > 0
    ensures |Next(s, first.0, first.1).slots| == |s.slots|
    ensures Run(s, [first] + rest) == Run(Next(s, first.0, first.1), rest)
    decreases |rest|
  {
    NextKeepsShape(s, first.0, first.1);
    var all := [first] + rest;
    if rest == [] {
      assert all[..0] == [] && Run(s, []) == s;
    } else {
      var n := |rest| - 1;
      assert all[..n + 1] == [first] + rest[..n];
      RunCons(s, first, rest[..n]);
    }
  }

  /** Steps of the threads in question alone lead to the delivery of a ticket that has been drawn on both sides. */
  lemma {:induction false} SomeStepsDeliver<V>(s: State<V>, k: nat) returns (more: Schedule<V>)
    requires Inv(s) && k < s.head && k < s.tail
    ensures k in Run(s, more).delivered && forall i | 0 <= i < |more| :: more[i].1 == Step
    decreases if k !in s.delivered && !PopDone(s, k) then Left(s, k) else 0
  {
    more := [];
    if k !in s.delivered {
      var u := Server(s, k);
      LeftDecreases(s, k, u);
      var rest := SomeStepsDeliver(Next(s, u, Step), k);
      RunCons(s, (u, Step), rest);
      more := [(u, Step)] + rest;
    }
  }

  /**
   Whenever both a push and a pop have drawn ticket k, some finite continuation, in which no new call is made, moves
   the value of ticket k out to its pop.
   */
  lemma DrawnTicketsAreDelivered<V>(capacity: nat, n: nat, sched: Schedule<V>, k: nat) returns (more: Schedule<V>)
    requires capacity > 0 && k < After(capacity, n, sched).head && k < After(capacity, n, sched).tail
    ensures |Run(After(capacity, n, sched), more).values| > k && k in Run(After(capacity, n, sched), more).delivered
    ensures Run(After(capacity, n, sched), more).delivered[k] == Run(After(capacity, n, sched), more).values[k]
    ensures forall i | 0 <= i < |more| :: more[i].1 == Step
  {
    AfterInv(capacity, n, sched);
    more := SomeStepsDeliver(After(capacity, n, sched), k);
    RunKeepsInv(After(capacity, n, sched), more);
  }

  // ---------------------------------------------------------------------------------------------
  // Capacity, and what a refused try operation has seen
  // ---------------------------------------------------------------------------------------------

  /** A try_emplace about to win the next ticket has seen the pop one capacity earlier free its slot. */
  lemma WinningPushHasRoom<V>(s: State<V>, t: nat)
    requires Inv(s) && t < |s.threads| && s.threads[t].TryPushCas? && s.threads[t].head == s.head
    ensures s.head < s.tail + |s.slots|
  {
    var c := |s.slots|;
    assert ThreadInv(s, t) && !PushDone(s, s.head);
    if s.head >= c {
      SameSlot(c, s.head - c, s.head);
      assert PopDone(s, s.head - c);
    }
  }

  /** A try_pop about to win the next ticket has seen the push of that ticket complete. */
  lemma WinningPopHasElement<V>(s: State<V>, t: nat)
    requires Inv(s) && t < |s.threads| && s.threads[t].TryPopCas? && s.threads[t].tail == s.tail
    ensures s.tail < s.head
  {
    assert ThreadInv(s, t) && PushDone(s, s.tail);
  }

  /**
   While every push is a `try_emplace`, the tickets of the pushes never run more than the capacity ahead
   of those of the pops, whatever kind of pop is used.
   */
  lemma {:induction false} TryPushesStayWithinCapacity<V>(capacity: nat, n: nat, sched: Schedule<V>)
    requires capacity > 0 && forall i | 0 <= i < |sched| :: !sched[i].1.CallPush?
    ensures var s := After(capacity, n, sched);
            s.head <= s.tail + capacity && forall t: nat | t < |s.threads| :: !s.threads[t].PushSpin?
    decreases |sched|
  {
    if sched != [] {
      var last := |sched| - 1;
      var (t, a) := sched[last];
      TryPushesStayWithinCapacity(capacity, n, sched[..last]);
      AfterInv(capacity, n, sched[..last]);
      var p := After(capacity, n, sched[..last]);
      if t < n && p.threads[t].TryPushCas? && p.threads[t].head == p.head {
        WinningPushHasRoom(p, t);
      }
    }
  }

  /** While every pop is a `try_pop`, no pop ticket is drawn before the push ticket of the same number. */
  lemma {:induction false} TryPopsStayBehindPushes<V>(capacity: nat, n: nat, sched: Schedule<V>)
    requires capacity > 0 && forall i | 0 <= i < |sched| :: !sched[i].1.CallPop?
    ensures var s := After(capacity, n, sched); s.tail <= s.head
    decreases |sched|
  {
    if sched != [] {
      var last := |sched| - 1;
      var (t, a) := sched[last];
      TryPopsStayBehindPushes(capacity, n, sched[..last]);
      AfterInv(capacity, n, sched[..last]);
      var p := After(capacity, n, sched[..last]);
      if t < n && p.threads[t].TryPopCas? && p.threads[t].tail == p.tail {
        WinningPopHasElement(p, t);
      }
    }
  }

  lemma {:induction false} CountersGrow<V>(capacity: nat, n: nat, sched: Schedule<V>, m: nat, i: nat)
    requires capacity > 0 && m <= i <= |sched|
    ensures After(capacity, n, sched[..m]).head <= After(capacity, n, sched[..i]).head
    ensures After(capacity, n, sched[..m]).tail <= After(capacity, n, sched[..i]).tail
    decreases i
  {
    if m < i {
      CountersGrow(capacity, n, sched, m, i - 1);
      assert sched[..i][..i - 1] == sched[..i - 1];
    }
  }

  /** The thread's next step reloads its counter: it has failed the turn test on this ticket. */
  ghost predicate FailedTest<V>(s: State<V>, t: nat, pc: Thread<V>)
    requires |s.slots| > 0 && t < |s.threads|
  {
    var c := |s.slots|;
    match pc
    case TryPushReload(v, h) => s.threads[t] == TryPushCheck(v, h) && SlotTurn(s, h) != Turn(c, h) * 2
    case TryPopReload(h) => s.threads[t] == TryPopCheck(h) && SlotTurn(s, h) != Turn(c, h) * 2 + 1
    case _ => false
  }

  lemma ReloadFollowsTest<V>(s: State<V>, u: nat, a: Action<V>, t: nat)
    requires |s.slots| > 0 && t < |s.threads|
    requires var pc := Next(s, u, a).threads[t]; (pc.TryPushReload? || pc.TryPopReload?) && pc != s.threads[t]
    ensures FailedTest(s, t, Next(s, u, a).threads[t])
  {
  }

  /** A thread about to reload its counter got there from the turn test it failed, and has waited since. */
  lemma {:induction false} LastTest<V>(capacity: nat, n: nat, sched: Schedule<V>, i: nat, t: nat) returns (m: nat)
    requires capacity > 0 && i <= |sched| && t < n
    requires var pc := After(capacity, n, sched[..i]).threads[t]; pc.TryPushReload? || pc.TryPopReload?
    ensures m < i && FailedTest(After(capacity, n, sched[..m]), t, After(capacity, n, sched[..i]).threads[t])
    ensures forall j | m < j <= i :: After(capacity, n, sched[..j]).threads[t] == After(capacity, n, sched[..i]).threads[t]
    decreases i
  {
    assert i > 0;
    assert sched[..i][..i - 1] == sched[..i - 1] && sched[..i][i - 1] == sched[i - 1];
    var p := After(capacity, n, sched[..i - 1]);
    if p.threads[t] == After(capacity, n, sched[..i]).threads[t] {
      m := LastTest(capacity, n, sched, i - 1, t);
    } else {
      m := i - 1;
      ReloadFollowsTest(p, sched[i - 1].0, sched[i - 1].1, t);
    }
  }

  /** What the state at a failed turn test says, if the counter still shows the ticket. */
  lemma FailedTestMeans<V>(s: State<V>, t: nat, pc: Thread<V>)
    requires Inv(s) && t < |s.threads| && FailedTest(s, t, pc)
    ensures pc.TryPushReload? ==> pc.head <= s.head
    ensures pc.TryPushReload? && pc.head == s.head ==> s.head >= |s.slots| && !PopDone(s, s.head - |s.slots|)
    ensures pc.TryPopReload? ==> pc.tail <= s.tail
    ensures pc.TryPopReload? && pc.tail == s.tail ==> !PushDone(s, s.tail)
  {
    assert ThreadInv(s, t) && !PushDone(s, s.head) && !PopDone(s, s.tail);
    if s.head >= |s.slots| {
      SameSlot(|s.slots|, s.head - |s.slots|, s.head);
    }
  }

  /**
   A `try_emplace` that returns false at step i was inside its call at an earlier step m at which its
   ticket would have been the next one and the pop one capacity earlier had not freed the slot.
   */
  lemma RefusedPushSawFullSlot<V>(capacity: nat, n: nat, sched: Schedule<V>, i: nat, t: nat)
    requires capacity > 0 && i < |sched| && t < n && sched[i].0 == t
    requires !After(capacity, n, sched[..i]).threads[t].Resting()
    requires After(capacity, n, sched[..i + 1]).threads[t] == Returned(PushRefused)
    ensures exists m: nat | m < i ::
              var s := After(capacity, n, sched[..m]);
              && s.head >= capacity && !PopDone(s, s.head - capacity)
              && forall j | m <= j <= i :: !After(capacity, n, sched[..j]).threads[t].Resting()
  {
    assert sched[..i + 1][..i] == sched[..i];
    var m := LastTest(capacity, n, sched, i, t);
    var s := After(capacity, n, sched[..m]);
    AfterInv(capacity, n, sched[..m]);
    CountersGrow(capacity, n, sched, m, i);
    FailedTestMeans(s, t, After(capacity, n, sched[..i]).threads[t]);
  }

  /** A `try_pop` that returns false saw, inside its call, that the push of the next ticket was not complete. */
  lemma RefusedPopSawEmptySlot<V>(capacity: nat, n: nat, sched: Schedule<V>, i: nat, t: nat)
    requires capacity > 0 && i < |sched| && t < n && sched[i].0 == t
    requires !After(capacity, n, sched[..i]).threads[t].Resting()
    requires After(capacity, n, sched[..i + 1]).threads[t] == Returned(PopRefused)
    ensures exists m: nat | m < i ::
              var s := After(capacity, n, sched[..m]);
              && !PushDone(s, s.tail)
              && forall j | m <= j <= i :: !After(capacity, n, sched[..j]).threads[t].Resting()
  {
    assert sched[..i + 1][..i] == sched[..i];
    var m := LastTest(capacity, n, sched, i, t);
    var s := After(capacity, n, sched[..m]);
    AfterInv(capacity, n, sched[..m]);
    CountersGrow(capacity, n, sched, m, i);
    FailedTestMeans(s, t, After(capacity, n, sched[..i]).threads[t]);
  }
}
