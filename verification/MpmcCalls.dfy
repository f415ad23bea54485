/**
 Every call of the ticket queue from its beginning to its return, whatever the other threads do meanwhile: which
 arguments lead to which tickets, and what a result says.
 */
module MpmcCalls {
  import opened Options
  import opened MpmcQueue

  /** A call that brings v. */
  predicate Pushes<V(==)>(a: Action<V>, v: V) {
    a == CallPush(v) || a == CallTryPush(v)
  }

  predicate Pops<V>(a: Action<V>) {
    a.CallPop? || a.CallTryPop?
  }

  /** Thread t is in the call a that it made in state p: it has the argument, and its ticket was drawn since. */
  ghost predicate InCall<V>(p: State<V>, a: Action<V>, s: State<V>, t: nat) {
    && p.head <= s.head && p.tail <= s.tail && t < |s.threads|
    && match s.threads[t]
       case PushSpin(v, k) => a == CallPush(v) && p.head <= k
       case PushConstruct(v, k) => Pushes(a, v) && p.head <= k
       case PushPublish(k) => p.head <= k < |s.values| && Pushes(a, s.values[k])
       case TryPushCheck(v, _) => a == CallTryPush(v)
       case TryPushCas(v, _) => a == CallTryPush(v)
       case TryPushReload(v, _) => a == CallTryPush(v)
       case PopSpin(k) => a.CallPop? && p.tail <= k
       case PopMove(k) => Pops(a) && p.tail <= k
       case PopDestroy(k, _) => Pops(a) && p.tail <= k
       case PopPublish(k, _) => Pops(a) && p.tail <= k
       case TryPopCheck(_) => a.CallTryPop?
       case TryPopCas(_) => a.CallTryPop?
       case TryPopReload(_) => a.CallTryPop?
       case _ => false
  }

  lemma CallBegins<V>(s: State<V>, t: nat, a: Action<V>)
    requires |s.slots| > 0 && t < |s.threads| && s.threads[t].Resting() && !Next(s, t, a).threads[t].Resting()
    ensures InCall(s, a, Next(s, t, a), t) && !a.Step?
  {
  }

  lemma OtherStepKeepsCall<V>(p: State<V>, a: Action<V>, s: State<V>, u: nat, b: Action<V>, t: nat)
    requires Shaped(s) && InCall(p, a, s, t) && u != t
    ensures InCall(p, a, Next(s, u, b), t)
  {
    var s' := Next(s, u, b);
    assert s'.threads[t] == s.threads[t] && s.values <= s'.values;
  }

  lemma OwnStepKeepsCall<V>(p: State<V>, a: Action<V>, s: State<V>, b: Action<V>, t: nat)
    requires Inv(s) && InCall(p, a, s, t) && !Next(s, t, b).threads[t].Resting()
    ensures InCall(p, a, Next(s, t, b), t)
  {
    assert ThreadInv(s, t);
    if s.threads[t].Held() == NoTicket {
      TryStepKeepsCall(p, a, s, b, t);
    } else {
      TicketStepKeepsCall(p, a, s, b, t);
    }
  }

  lemma TryStepKeepsCall<V>(p: State<V>, a: Action<V>, s: State<V>, b: Action<V>, t: nat)
    requires Shaped(s) && InCall(p, a, s, t) && !Next(s, t, b).threads[t].Resting() && s.threads[t].Held() == NoTicket
    ensures InCall(p, a, Next(s, t, b), t)
  {
  }

  lemma TicketStepKeepsCall<V>(p: State<V>, a: Action<V>, s: State<V>, b: Action<V>, t: nat)
    requires Shaped(s) && InCall(p, a, s, t) && !Next(s, t, b).threads[t].Resting() && s.threads[t].Held() != NoTicket
    requires ThreadInv(s, t)
    ensures InCall(p, a, Next(s, t, b), t)
  {
  }

  /** Step m begins the call in which thread t is after step i. */
  ghost predicate IsCallOf<V>(capacity: nat, n: nat, sched: Schedule<V>, m: nat, i: nat, t: nat)
    requires capacity > 0
  {
    && m < i <= |sched| && sched[m].0 == t && t < n && !sched[m].1.Step?
    && RestsAt(capacity, n, sched, m, t)
    && InCall(After(capacity, n, sched[..m]), sched[m].1, After(capacity, n, sched[..i]), t)
    && forall j | m < j <= i :: !RestsAt(capacity, n, sched, j, t)
  }

  /** Thread t is in no call after i steps. */
  ghost predicate RestsAt<V>(capacity: nat, n: nat, sched: Schedule<V>, i: nat, t: nat)
    requires capacity > 0
  {
    i <= |sched| && t < |After(capacity, n, sched[..i]).threads| && After(capacity, n, sched[..i]).threads[t].Resting()
  }

  lemma AfterNext<V>(capacity: nat, n: nat, sched: Schedule<V>, i: nat)
    requires capacity > 0 && i < |sched|
    ensures var s := After(capacity, n, sched[..i]);
            && Inv(s) && |s.slots| == capacity && |s.threads| == n
            && After(capacity, n, sched[..i + 1]) == Next(s, sched[i].0, sched[i].1)
            && Inv(After(capacity, n, sched[..i + 1])) && |After(capacity, n, sched[..i + 1]).threads| == n
  {
    AfterInv(capacity, n, sched[..i]);
    AfterInv(capacity, n, sched[..i + 1]);
    assert sched[..i + 1][..i] == sched[..i];
  }

  lemma {:induction false} CallOf<V>(capacity: nat, n: nat, sched: Schedule<V>, i: nat, t: nat) returns (m: nat)
    requires capacity > 0 && i <= |sched| && t < n && !RestsAt(capacity, n, sched, i, t)
    ensures IsCallOf(capacity, n, sched, m, i, t)
    decreases i
  {
    if i == 0 {
      FirstRests(capacity, n, sched, t);
      assert false;
    } else {
      m := i - 1;
      if !RestsAt(capacity, n, sched, i - 1, t) {
        m := CallOf(capacity, n, sched, i - 1, t);
      }
      CallGoesOn(capacity, n, sched, m, i - 1, t);
    }
  }

  lemma FirstRests<V>(capacity: nat, n: nat, sched: Schedule<V>, t: nat)
    requires capacity > 0 && t < n
    ensures RestsAt(capacity, n, sched, 0, t)
  {
    assert sched[..0] == [];
  }

  lemma CallGoesOn<V>(capacity: nat, n: nat, sched: Schedule<V>, m: nat, i: nat, t: nat)
    requires capacity > 0 && i < |sched| && t < n && !RestsAt(capacity, n, sched, i + 1, t)
    requires if RestsAt(capacity, n, sched, i, t) then m == i else IsCallOf(capacity, n, sched, m, i, t)
    ensures IsCallOf(capacity, n, sched, m, i + 1, t)
  {
    AfterNext(capacity, n, sched, i);
    NextInCall(After(capacity, n, sched[..m]), sched[m].1, After(capacity, n, sched[..i]), sched[i].0, sched[i].1, t, m == i);
  }

  lemma NextInCall<V>(p: State<V>, a: Action<V>, s: State<V>, u: nat, b: Action<V>, t: nat, begins: bool)
    requires Inv(s) && t < |s.threads| && !Next(s, u, b).threads[t].Resting()
    requires if begins then p == s && a == b && s.threads[t].Resting() else InCall(p, a, s, t)
    ensures InCall(p, a, Next(s, u, b), t) && (begins ==> u == t && !a.Step?)
  {
    if begins {
      CallBegins(s, t, b);
    } else if u == t {
      OwnStepKeepsCall(p, a, s, b, t);
    } else {
      OtherStepKeepsCall(p, a, s, u, b, t);
    }
  }

  /**
   What the result r of a call says, made in state p as action a and returned in state s: a push has its own value
   under a ticket of its own that was drawn during the call, and its turn is stored; a pop has the value of a ticket
   of its own that was drawn during the call; only a try operation is refused.
   */
  ghost predicate ResultMeans<V>(p: State<V>, a: Action<V>, s: State<V>, t: nat, r: Result<V>)
    requires Shaped(s)
  {
    match r
    case Pushed => exists k: nat :: IsPushOf(p, a, s, t, k)
    case Popped(v) => exists k: nat :: IsPopOf(p, a, s, t, k, v)
    case PushRefused => a.CallTryPush?
    case PopRefused => a.CallTryPop?
  }

  ghost predicate IsPushOf<V>(p: State<V>, a: Action<V>, s: State<V>, t: nat, k: nat)
    requires Shaped(s)
  {
    p.head <= k < s.head && Pushes(a, s.values[k]) && s.pushOwner[k] == t && PushDone(s, k)
  }

  ghost predicate IsPopOf<V>(p: State<V>, a: Action<V>, s: State<V>, t: nat, k: nat, v: V)
    requires Shaped(s)
  {
    && p.tail <= k < s.tail && Pops(a) && s.popOwner[k] == t && PopDone(s, k)
    && k < s.head && k in s.delivered && s.delivered[k] == s.values[k] == v
  }

  lemma ReturnMeans<V>(p: State<V>, a: Action<V>, s: State<V>, t: nat)
    requires Inv(s) && InCall(p, a, s, t) && Next(s, t, Step).threads[t].Returned?
    ensures Shaped(Next(s, t, Step)) && ResultMeans(p, a, Next(s, t, Step), t, Next(s, t, Step).threads[t].result)
  {
    var s' := Next(s, t, Step);
    NextKeepsInv(s, t, Step);
    assert ThreadInv(s, t);
    match s.threads[t]
    case PushPublish(k) => assert IsPushOf(p, a, s', t, k);
    case PopPublish(k, v) => assert IsPopOf(p, a, s', t, k, v);
    case _ =>
  }

  lemma NextReturns<V>(p: State<V>, a: Action<V>, s: State<V>, b: Action<V>, t: nat)
    requires Inv(s) && InCall(p, a, s, t) && Next(s, t, b).threads[t].Resting()
    ensures b == Step && Next(s, t, b).threads[t].Returned?
    ensures Shaped(Next(s, t, b)) && ResultMeans(p, a, Next(s, t, b), t, Next(s, t, b).threads[t].result)
  {
    ReturnMeans(p, a, s, t);
  }

  /** Every return, in every schedule, ends the call that began at step m, and its result means what it says. */
  lemma ReturnsEndCalls<V>(capacity: nat, n: nat, sched: Schedule<V>, i: nat, t: nat) returns (m: nat)
    requires capacity > 0 && i < |sched| && t < n && sched[i].0 == t
    requires !RestsAt(capacity, n, sched, i, t) && RestsAt(capacity, n, sched, i + 1, t)
    ensures IsCallOf(capacity, n, sched, m, i, t)
    ensures Shaped(After(capacity, n, sched[..i + 1])) && t < |After(capacity, n, sched[..i + 1]).threads|
    ensures After(capacity, n, sched[..i + 1]).threads[t].Returned?
    ensures ResultMeans(After(capacity, n, sched[..m]), sched[m].1, After(capacity, n, sched[..i + 1]), t,
                        After(capacity, n, sched[..i + 1]).threads[t].result)
  {
    m := CallOf(capacity, n, sched, i, t);
    AfterNext(capacity, n, sched, i);
    NextReturns(After(capacity, n, sched[..m]), sched[m].1, After(capacity, n, sched[..i]), sched[i].1, t);
  }
}
