/**
 The operations of the blocking queue while the other threads pause, and what an operation that comes back without a
 permit has seen: a permit that is there is taken, and a thread gives up only for a reason.
 */
module SemaphoreAlone {
  import opened Semaphore

  function Min(x: int, y: int): int {
    if x < y then x else y
  }

  // ---------------------------------------------------------------------------------------------
  // A thread that runs alone
  // ---------------------------------------------------------------------------------------------

  /** The state after steps of thread t and of no other one. */
  function Alone<V>(s: State<V>, t: nat, steps: seq<Action<V>>): State<V>
    requires t < |s.threads|
    decreases |steps|
  {
    NextKeepsThreads(s, t, if steps == [] then Calm() else steps[0]);
    if steps == [] then s else Alone(Next(s, t, steps[0]), t, steps[1..])
  }

  /** No exchange fails without a reason, no wait ends early, and no element is taken. */
  function Calm<V>(): Action<V> {
    Step(false, false, multiset{})
  }

  lemma NextKeepsThreads<V>(s: State<V>, t: nat, a: Action<V>)
    requires t < |s.threads|
    ensures |Next(s, t, a).threads| == |s.threads|
  {
  }

  lemma DropFirst<V>(first: seq<Action<V>>, rest: seq<Action<V>>)
    requires first != []
    ensures (first + rest)[1..] == first[1..] + rest && (first + rest)[0] == first[0]
  {
  }

  lemma {:induction false} AloneOne<V>(s: State<V>, t: nat, steps: seq<Action<V>>, a: Action<V>)
    requires t < |s.threads|
    ensures |Alone(s, t, steps).threads| == |s.threads|
    ensures Alone(s, t, steps + [a]) == Next(Alone(s, t, steps), t, a)
    decreases |steps|
  {
    if steps == [] {
      assert [] + [a] == [a] && [a][1..] == [];
    } else {
      NextKeepsThreads(s, t, steps[0]);
      AloneOne(Next(s, t, steps[0]), t, steps[1..], a);
      DropFirst(steps, [a]);
    }
  }

  lemma {:induction false} AloneMore<V>(s: State<V>, t: nat, first: seq<Action<V>>, rest: seq<Action<V>>)
    requires t < |s.threads|
    ensures |Alone(s, t, first).threads| == |s.threads|
    ensures Alone(s, t, first + rest) == Alone(Alone(s, t, first), t, rest)
    decreases |first|
  {
    if first == [] {
      assert [] + rest == rest;
    } else {
      NextKeepsThreads(s, t, first[0]);
      AloneMore(Next(s, t, first[0]), t, first[1..], rest);
      DropFirst(first, rest);
    }
  }

  lemma FirstAlone<V>(s: State<V>, t: nat, a: Action<V>, rest: seq<Action<V>>)
    requires t < |s.threads|
    ensures |Next(s, t, a).threads| == |s.threads|
    ensures Alone(s, t, [a] + rest) == Alone(Next(s, t, a), t, rest)
  {
    NextKeepsThreads(s, t, a);
    assert ([a] + rest)[1..] == rest;
  }

  /** The steps as a part of a schedule. */
  function Own<V>(t: nat, steps: seq<Action<V>>): seq<(nat, Action<V>)> {
    seq(|steps|, i requires 0 <= i < |steps| => (t, steps[i]))
  }

  predicate AllSteps<V>(steps: seq<Action<V>>) {
    forall i | 0 <= i < |steps| :: steps[i].Step?
  }

  lemma ButLast<V>(steps: seq<Action<V>>)
    requires |steps| > 0
    ensures var m := |steps| - 1; steps[..m] + [steps[m]] == steps
  {
  }

  lemma OwnOne<V>(sched: seq<(nat, Action<V>)>, t: nat, steps: seq<Action<V>>, a: Action<V>)
    ensures sched + Own(t, steps + [a]) == (sched + Own(t, steps)) + [(t, a)]
  {
  }

  /** A thread that runs alone at the end of a schedule. */
  lemma {:induction false} AfterAlone<V>(n: nat, sched: seq<(nat, Action<V>)>, t: nat, steps: seq<Action<V>>)
    requires t < n
    ensures After(n, sched + Own(t, steps)) == Alone(After(n, sched), t, steps)
    decreases |steps|
  {
    if steps == [] {
      assert sched + Own(t, steps) == sched;
    } else {
      var m := |steps| - 1;
      AfterAlone(n, sched, t, steps[..m]);
      AfterAloneOne(n, sched, t, steps[..m], steps[m]);
      ButLast(steps);
    }
  }

  lemma AfterAloneOne<V>(n: nat, sched: seq<(nat, Action<V>)>, t: nat, steps: seq<Action<V>>, a: Action<V>)
    requires t < n && After(n, sched + Own(t, steps)) == Alone(After(n, sched), t, steps)
    ensures After(n, sched + Own(t, steps + [a])) == Alone(After(n, sched), t, steps + [a])
  {
    OwnOne(sched, t, steps, a);
    AfterOne(n, sched + Own(t, steps), t, a);
    AloneOne(After(n, sched), t, steps, a);
  }

  lemma AfterOne<V>(n: nat, sched: seq<(nat, Action<V>)>, t: nat, a: Action<V>)
    requires t < n
    ensures After(n, sched + [(t, a)]) == Next(After(n, sched), t, a)
  {
    assert (sched + [(t, a)])[..|sched|] == sched;
  }

  // ---------------------------------------------------------------------------------------------
  // From the permit to the element
  // ---------------------------------------------------------------------------------------------

  /** Thread t has finished a dequeue with some permits; it has as many elements, and nothing else has changed. */
  ghost predicate Ends<V>(s: State<V>, s': State<V>, t: nat, mode: Mode, max: nat, permits: nat, taken: nat)
    requires t < |s.threads|
  {
    && s' == s.(threads := s.threads[t := Done(mode, max, permits)], bag := s'.bag, delivered := s'.delivered,
                count := s'.count, tokens := s'.tokens, acquired := s'.acquired)
    && s'.bag <= s.bag && s'.delivered == s.delivered + (s.bag - s'.bag) && |s.bag - s'.bag| == taken
  }

  /** The state after thread t has taken one element. */
  function OneLess<V>(s: State<V>, t: nat, pc: Thread, v: V): State<V>
    requires t < |s.threads| && v in s.bag
  {
    s.(threads := s.threads[t := pc], bag := s.bag - multiset{v}, delivered := s.delivered + multiset{v})
  }

  lemma TakesOne<V>(s: State<V>, t: nat, mode: Mode, max: nat, permits: nat, left: nat, v: V)
    requires t < |s.threads| && s.threads[t] == Dequeue(mode, max, permits, left) && left > 0 && v in s.bag
    ensures Next(s, t, Step(false, false, multiset{v})) == OneLess(s, t, Dequeue(mode, max, permits, left - 1), v)
  {
    TakeOne(s.bag, v);
  }

  lemma {:induction false} DequeuesAlone<V>(s: State<V>, t: nat, mode: Mode, max: nat, permits: nat, left: nat)
    returns (steps: seq<Action<V>>)
    requires t < |s.threads| && s.threads[t] == Dequeue(mode, max, permits, left) && left <= |s.bag|
    ensures AllSteps(steps) && |steps| == left + 1
    ensures Ends(s, Alone(s, t, steps), t, mode, max, permits, left)
    ensures var s' := Alone(s, t, steps); s'.count == s.count && s'.tokens == s.tokens && s'.acquired == s.acquired
    decreases left
  {
    if left == 0 {
      steps := [Calm()];
      LastAlone(s, t, mode, max, permits);
    } else {
      var v :| v in s.bag;
      TakeOne(s.bag, v);
      TakesOne(s, t, mode, max, permits, left, v);
      var s1 := OneLess(s, t, Dequeue(mode, max, permits, left - 1), v);
      var rest := DequeuesAlone(s1, t, mode, max, permits, left - 1);
      steps := [Step(false, false, multiset{v})] + rest;
      FirstAlone(s, t, Step(false, false, multiset{v}), rest);
      EndsLater(s, s1, Alone(s1, t, rest), t, mode, max, permits, left, multiset{v});
    }
  }

  lemma LastAlone<V>(s: State<V>, t: nat, mode: Mode, max: nat, permits: nat)
    requires t < |s.threads| && s.threads[t] == Dequeue(mode, max, permits, 0)
    ensures Ends(s, Alone(s, t, [Calm()]), t, mode, max, permits, 0)
    ensures var s' := Alone(s, t, [Calm()]); s'.count == s.count && s'.tokens == s.tokens && s'.acquired == s.acquired
  {
    FirstAlone(s, t, Calm(), []);
    assert [Calm<V>()] + [] == [Calm<V>()];
    assert s.bag - s.bag == multiset{};
  }

  lemma EndsLater<V>(s: State<V>, s1: State<V>, s': State<V>, t: nat, mode: Mode, max: nat, permits: nat, left: nat, take: multiset<V>)
    requires t < |s.threads| && left > 0 && take <= s.bag && |take| == 1
    requires s1 == s.(threads := s.threads[t := Dequeue(mode, max, permits, left - 1)], bag := s.bag - take, delivered := s.delivered + take)
    requires Ends(s1, s', t, mode, max, permits, left - 1)
    ensures Ends(s, s', t, mode, max, permits, left)
  {
    TakeMore(s.bag, take, s'.bag);
    assert s1.threads[t := Done(mode, max, permits)] == s.threads[t := Done(mode, max, permits)];
  }

  lemma TakeOne<V>(bag: multiset<V>, v: V)
    requires v in bag
    ensures multiset{v} <= bag && |bag - multiset{v}| == |bag| - 1
  {
  }

  lemma TakeMore<V>(bag: multiset<V>, take: multiset<V>, rest: multiset<V>)
    requires take <= bag && rest <= bag - take
    ensures rest <= bag && bag - rest == take + ((bag - take) - rest)
  {
  }

  // ---------------------------------------------------------------------------------------------
  // To the permit
  // ---------------------------------------------------------------------------------------------

  /** The permits that `tryWaitMany` gets when it is not disturbed. */
  function Got(count: int, want: nat): nat {
    if count <= 0 then 0 else Min(count, want)
  }

  /** Thread t has taken some permits out of the count. */
  function Granted<V>(s: State<V>, t: nat, pc: Thread, got: nat): State<V>
    requires t < |s.threads|
  {
    s.(threads := s.threads[t := pc], count := s.count - got, acquired := s.acquired + got)
  }

  /** `tryWaitMany` alone: all permits that are there, up to the number asked for, or where it goes without. */
  lemma LoadsAlone<V>(s: State<V>, t: nat, mode: Mode, max: nat, have: nat) returns (steps: seq<Action<V>>)
    requires t < |s.threads| && s.threads[t] == Load(mode, max, have) && have <= max
    ensures AllSteps(steps) && |steps| <= 2
    ensures var got := Got(s.count, max - have);
            Alone(s, t, steps) == Granted(s, t,
              if s.count > 0 || have > 0 then Dequeue(mode, max, have + got, have + got)
              else if mode == Try || max == 0 then Done(mode, max, 0)
              else SpinLoad(mode, max, SPINS), got)
  {
    var s1 := Next(s, t, Calm());
    if s.count > 0 {
      steps := [Calm(), Calm()];
      FirstAlone(s, t, Calm(), [Calm()]);
      FirstAlone(s1, t, Calm(), []);
      assert steps[..1] + steps[1..] == steps && steps[1..] + [] == steps[1..];
      assert Next(s1, t, Calm()).threads == Granted(s, t, Next(s1, t, Calm()).threads[t], 0).threads;
    } else {
      steps := [Calm()];
      FirstAlone(s, t, Calm(), []);
      assert [Calm()] + [] == steps;
    }
  }

  /** A `try_dequeue` alone returns with all permits there are, up to the number asked for, and an element for each. */
  lemma TriesAlone<V>(s: State<V>, t: nat, max: nat) returns (steps: seq<Action<V>>)
    requires Inv(s) && t < |s.threads| && s.threads[t] == Load(Try, max, 0)
    ensures AllSteps(steps) && |steps| <= max + 3
    ensures var got := Got(s.count, max); Ends(s, Alone(s, t, steps), t, Try, max, got, got)
    ensures var got := Got(s.count, max); Alone(s, t, steps).count == s.count - got && Alone(s, t, steps).tokens == s.tokens
  {
    steps := LoadsAlone(s, t, Try, max, 0);
    if s.count > 0 {
      var got := Got(s.count, max);
      steps := FinishesAlone(s, t, steps, Try, max, got);
    } else {
      assert s.bag - s.bag == multiset{};
    }
  }

  /** Once the permits are there, the elements follow. */
  lemma FinishesAlone<V>(s: State<V>, t: nat, first: seq<Action<V>>, mode: Mode, max: nat, permits: nat) returns (steps: seq<Action<V>>)
    requires Inv(s) && t < |s.threads| && AllSteps(first)
    requires var s1 := Alone(s, t, first); |s1.threads| == |s.threads| && s1.threads[t] == Dequeue(mode, max, permits, permits)
    requires var s1 := Alone(s, t, first);
             s1 == s.(threads := s.threads[t := s1.threads[t]], count := s1.count, tokens := s1.tokens, acquired := s1.acquired)
    ensures AllSteps(steps) && |steps| == |first| + permits + 1
    ensures Ends(s, Alone(s, t, steps), t, mode, max, permits, permits)
    ensures var s1, s' := Alone(s, t, first), Alone(s, t, steps); s'.count == s1.count && s'.tokens == s1.tokens && s'.acquired == s1.acquired
  {
    var s1 := Alone(s, t, first);
    AloneKeepsInv(s, t, first);
    BagCoversPermits(s1);
    TotalAtLeast(s1.threads, t, HeldWeight);
    var rest := DequeuesAlone(s1, t, mode, max, permits, permits);
    AloneMore(s, t, first, rest);
    steps := first + rest;
    assert s1.threads[t := Done(mode, max, permits)] == s.threads[t := Done(mode, max, permits)];
  }

  lemma {:induction false} AloneKeepsInv<V>(s: State<V>, t: nat, steps: seq<Action<V>>)
    requires Inv(s) && t < |s.threads|
    ensures Inv(Alone(s, t, steps))
    decreases |steps|
  {
    if steps != [] {
      NextKeepsInv(s, t, steps[0]);
      AloneKeepsInv(Next(s, t, steps[0]), t, steps[1..]);
    }
  }

  /** A `try_dequeue` that runs alone from its call on finishes within a bound, with all it can get. */
  lemma TryFinishesAlone<V>(n: nat, sched: seq<(nat, Action<V>)>, t: nat, max: nat) returns (steps: seq<Action<V>>)
    requires t < n && After(n, sched).threads[t] == Load(Try, max, 0)
    ensures AllSteps(steps) && |steps| <= max + 3
    ensures var s := After(n, sched); var got := Got(s.count, max);
            var s' := After(n, sched + Own(t, steps));
            Ends(s, s', t, Try, max, got, got) && s'.count == s.count - got && s'.tokens == s.tokens
  {
    steps := TriesAlone(After(n, sched), t, max);
    AfterAlone(n, sched, t, steps);
  }

  // ---------------------------------------------------------------------------------------------
  // Waiting
  // ---------------------------------------------------------------------------------------------

  /** A thread that finds no permit while it spins announces itself and blocks. */
  lemma {:induction false} SpinsAlone<V>(s: State<V>, t: nat, mode: Mode, max: nat, spins: nat) returns (steps: seq<Action<V>>)
    requires t < |s.threads| && s.threads[t] == SpinLoad(mode, max, spins) && s.count <= 0
    ensures AllSteps(steps) && |steps| == spins + 2
    ensures Alone(s, t, steps) == s.(threads := s.threads[t := Blocked(mode, max)], count := s.count - 1)
    decreases spins
  {
    var s1 := Next(s, t, Calm());
    if spins == 0 {
      assert s1 == s.(threads := s.threads[t := Announce(mode, max)]);
      var s2 := s.(threads := s.threads[t := Blocked(mode, max)], count := s.count - 1);
      assert Next(s1, t, Calm()) == s2;
      steps := [Calm(), Calm()];
      FirstAlone(s, t, Calm(), steps[1..]);
      FirstAlone(s1, t, Calm(), []);
      assert steps[..1] + steps[1..] == steps && steps[1..] + [] == steps[1..];
    } else {
      assert s1 == s.(threads := s.threads[t := SpinLoad(mode, max, spins - 1)]);
      var rest := SpinsAlone(s1, t, mode, max, spins - 1);
      steps := [Calm()] + rest;
      FirstAlone(s, t, Calm(), rest);
      assert s1.threads[t := Blocked(mode, max)] == s.threads[t := Blocked(mode, max)];
    }
  }

  /** A thread that finds permits while it spins takes them, as many as it asked for or all there are. */
  lemma SpinFindsPermits<V>(s: State<V>, t: nat, mode: Mode, max: nat, spins: nat)
    requires t < |s.threads| && s.threads[t] == SpinLoad(mode, max, spins) && spins > 0 && s.count > 0
    ensures Alone(s, t, [Calm(), Calm()]) == Granted(s, t, Dequeue(mode, max, Got(s.count, max), Got(s.count, max)), Got(s.count, max))
  {
    var s1 := s.(threads := s.threads[t := SpinCas(mode, max, spins - 1, s.count)]);
    assert Next(s, t, Calm()) == s1;
    var steps: seq<Action<V>> := [Calm(), Calm()];
    FirstAlone(s, t, Calm(), steps[1..]);
    FirstAlone(s1, t, Calm(), []);
    assert steps[..1] + steps[1..] == steps && steps[1..] + [] == steps[1..];
    assert Next(s1, t, Calm()).threads == s.threads[t := Next(s1, t, Calm()).threads[t]];
  }

  /** A wait that runs alone returns with all permits it can get, or blocks with its debt in the count if there is none. */
  lemma WaitsAlone<V>(s: State<V>, t: nat, mode: Mode, max: nat) returns (steps: seq<Action<V>>)
    requires Inv(s) && t < |s.threads| && s.threads[t] == Load(mode, max, 0) && mode != Try && max > 0
    ensures AllSteps(steps) && |steps| <= max + SPINS + 3
    ensures s.count > 0 ==> Ends(s, Alone(s, t, steps), t, mode, max, Min(s.count, max), Min(s.count, max))
    ensures s.count > 0 ==> Alone(s, t, steps).count == s.count - Min(s.count, max) && Alone(s, t, steps).tokens == s.tokens
    ensures s.count <= 0 ==> Alone(s, t, steps) == s.(threads := s.threads[t := Blocked(mode, max)], count := s.count - 1)
  {
    steps := LoadsAlone(s, t, mode, max, 0);
    if s.count > 0 {
      steps := FinishesAlone(s, t, steps, mode, max, Min(s.count, max));
    } else {
      var s1 := Alone(s, t, steps);
      var rest := SpinsAlone(s1, t, mode, max, SPINS);
      AloneMore(s, t, steps, rest);
      steps := steps + rest;
      assert s1.threads[t := Blocked(mode, max)] == s.threads[t := Blocked(mode, max)];
    }
  }

  /** With its first permit a thread takes the rest without waiting. */
  lemma FirstPermitAlone<V>(s: State<V>, t: nat, mode: Mode, max: nat) returns (steps: seq<Action<V>>)
    requires t < |s.threads| && s.threads[t] == FirstPermit(mode, max) && max > 0
    ensures AllSteps(steps) && |steps| <= 2
    ensures var got := Got(s.count, max - 1); Alone(s, t, steps) == Granted(s, t, Dequeue(mode, max, 1 + got, 1 + got), got)
  {
    if max > 1 {
      steps := LoadsAlone(s, t, mode, max, 1);
    } else {
      steps := [];
      assert s.threads[t := s.threads[t]] == s.threads;
    }
  }

  /** The release that a waiting thread gets is one permit, and it takes the rest without waiting. */
  lemma ReleasedAlone<V>(s: State<V>, t: nat, mode: Mode, max: nat) returns (steps: seq<Action<V>>)
    requires Inv(s) && t < |s.threads| && s.tokens > 0
    requires s.threads[t] == Blocked(mode, max) || (s.threads[t] == TimedOutTry(max) && mode == Timed)
    ensures AllSteps(steps) && |steps| <= max + 4
    ensures var permits := 1 + Got(s.count, max - 1);
            var s' := Alone(s, t, steps);
            max > 0 && Ends(s, s', t, mode, max, permits, permits) && s'.tokens == s.tokens - 1 && s'.count == s.count - (permits - 1)
  {
    assert ThreadOk(s.threads[t]);
    var s1 := s.(threads := s.threads[t := FirstPermit(mode, max)], tokens := s.tokens - 1, acquired := s.acquired + 1);
    assert Next(s, t, Calm()) == s1;
    var rest := FirstPermitAlone(s1, t, mode, max);
    steps := [Calm()] + rest;
    FirstAlone(s, t, Calm(), rest);
    var permits := 1 + Got(s.count, max - 1);
    assert s1.threads[t := Dequeue(mode, max, permits, permits)] == s.threads[t := Dequeue(mode, max, permits, permits)];
    steps := FinishesAlone(s, t, steps, mode, max, permits);
  }

  /** A signaller alone releases one waiting thread for each permit that the count owes, and then it is done. */
  lemma SignalsAlone<V>(s: State<V>, t: nat, m: nat) returns (steps: seq<Action<V>>)
    requires t < |s.threads| && s.threads[t] == Signal(m)
    ensures AllSteps(steps) && |steps| <= m + 1
    ensures Alone(s, t, steps) == s.(threads := s.threads[t := Idle], count := s.count + m, signalled := s.signalled + m,
                                     tokens := s.tokens + Got(-s.count, m))
  {
    var s1 := Next(s, t, Calm());
    var release := Got(-s.count, m);
    var rest := [];
    if release > 0 {
      assert s1.threads == s.threads[t := Post(release)];
      rest := PostsAlone(s1, t, release);
      assert s1.threads[t := Idle] == s.threads[t := Idle];
    }
    steps := [Calm()] + rest;
    FirstAlone(s, t, Calm(), rest);
  }

  lemma {:induction false} PostsAlone<V>(s: State<V>, t: nat, left: nat) returns (steps: seq<Action<V>>)
    requires t < |s.threads| && s.threads[t] == Post(left) && left > 0
    ensures AllSteps(steps) && |steps| == left
    ensures Alone(s, t, steps) == s.(threads := s.threads[t := Idle], tokens := s.tokens + left)
    decreases left
  {
    var s1 := Next(s, t, Calm());
    var rest := [];
    if left > 1 {
      rest := PostsAlone(s1, t, left - 1);
      assert s1.threads[t := Idle] == s.threads[t := Idle];
    }
    steps := [Calm()] + rest;
    FirstAlone(s, t, Calm(), rest);
  }

  /** After a timeout a thread whose debt is in the count gives it back and returns without a permit. */
  lemma TimesOutAlone<V>(s: State<V>, t: nat, max: nat) returns (steps: seq<Action<V>>)
    requires t < |s.threads| && s.threads[t] == TimedOutLoad(max) && s.count < 0
    ensures AllSteps(steps) && |steps| == 2
    ensures Alone(s, t, steps) == s.(threads := s.threads[t := Done(Timed, max, 0)], count := s.count + 1)
  {
    var s1 := Next(s, t, Calm());
    assert s1 == s.(threads := s.threads[t := TimedOutCas(max, s.count)]);
    var s2 := s.(threads := s.threads[t := Done(Timed, max, 0)], count := s.count + 1);
    assert Next(s1, t, Calm()) == s2;
    steps := [Calm(), Calm()];
    FirstAlone(s, t, Calm(), steps[1..]);
    FirstAlone(s1, t, Calm(), []);
    assert steps[..1] + steps[1..] == steps && steps[1..] + [] == steps[1..];
  }

  /** The kernel wait of a thread with a timeout ends without a release. */
  function Expire<V>(): Action<V> {
    Step(false, true, multiset{})
  }

  lemma ExpiresAlone<V>(s: State<V>, t: nat, max: nat, rest: seq<Action<V>>)
    requires t < |s.threads| && s.threads[t] == Blocked(Timed, max)
    ensures Alone(s, t, [Expire()] + rest) == Alone(s.(threads := s.threads[t := TimedOutLoad(max)]), t, rest)
  {
    FirstAlone(s, t, Expire(), rest);
  }

  /** A timed wait that expires while its debt is in the count gives it back and returns without a permit. */
  lemma ExpiredWaitAlone<V>(s: State<V>, t: nat, max: nat) returns (steps: seq<Action<V>>)
    requires t < |s.threads| && s.threads[t] == Blocked(Timed, max) && s.count < 0
    ensures AllSteps(steps) && |steps| == 3
    ensures Alone(s, t, steps) == s.(threads := s.threads[t := Done(Timed, max, 0)], count := s.count + 1)
  {
    var s1 := s.(threads := s.threads[t := TimedOutLoad(max)]);
    var rest := TimesOutAlone(s1, t, max);
    steps := [Expire()] + rest;
    ExpiresAlone(s, t, max, rest);
    assert s1.threads[t := Done(Timed, max, 0)] == s.threads[t := Done(Timed, max, 0)];
  }

  /** It does not matter where the thread stood before. */
  lemma EndsFrom<V>(s: State<V>, s2: State<V>, s': State<V>, t: nat, pc: Thread, mode: Mode, max: nat, permits: nat)
    requires t < |s.threads| && s2 == s.(threads := s.threads[t := pc]) && Ends(s2, s', t, mode, max, permits, permits)
    ensures Ends(s, s', t, mode, max, permits, permits)
  {
    assert s2.threads[t := Done(mode, max, permits)] == s.threads[t := Done(mode, max, permits)];
  }

  lemma OwedLooks<V>(s: State<V>, t: nat, max: nat, rest: seq<Action<V>>)
    requires Inv(s) && t < |s.threads| && s.threads[t] == Blocked(Timed, max) && s.count >= 0
    ensures var s2 := s.(threads := s.threads[t := TimedOutTry(max)]);
            Inv(s2) && Alone(s, t, [Expire()] + ([Calm()] + rest)) == Alone(s2, t, rest)
  {
    var s1 := s.(threads := s.threads[t := TimedOutLoad(max)]);
    var s2 := s.(threads := s.threads[t := TimedOutTry(max)]);
    NextKeepsInv(s, t, Expire());
    NextKeepsInv(s1, t, Calm());
    assert s1.threads[t := TimedOutTry(max)] == s2.threads;
    ExpiresAlone(s, t, max, [Calm()] + rest);
    FirstAlone(s1, t, Calm(), rest);
  }

  /** One that expires when a release has been made for it takes the permit after all. */
  lemma OwedWaitAlone<V>(s: State<V>, t: nat, max: nat) returns (steps: seq<Action<V>>)
    requires Inv(s) && t < |s.threads| && s.threads[t] == Blocked(Timed, max) && s.count >= 0 && s.tokens > 0
    ensures AllSteps(steps) && |steps| <= max + 6
    ensures var permits := 1 + Got(s.count, max - 1);
            var s' := Alone(s, t, steps);
            max > 0 && Ends(s, s', t, Timed, max, permits, permits) && s'.tokens == s.tokens - 1 && s'.count == s.count - (permits - 1)
  {
    assert ThreadOk(s.threads[t]);
    OwedLooks(s, t, max, []);
    var s2 := s.(threads := s.threads[t := TimedOutTry(max)]);
    var rest := ReleasedAlone(s2, t, Timed, max);
    steps := [Expire()] + ([Calm()] + rest);
    OwedLooks(s, t, max, rest);
    EndsFrom(s, s2, Alone(s2, t, rest), t, TimedOutTry(max), Timed, max, 1 + Got(s.count, max - 1));
  }

  // ---------------------------------------------------------------------------------------------
  // Whole calls
  // ---------------------------------------------------------------------------------------------

  lemma CallThenAlone<V>(n: nat, sched: seq<(nat, Action<V>)>, t: nat, call: Action<V>, rest: seq<Action<V>>)
    requires t < n && !call.Step?
    ensures |Next(After(n, sched), t, call).threads| == n
    ensures After(n, sched + Own(t, [call] + rest)) == Alone(Next(After(n, sched), t, call), t, rest)
  {
    AfterAlone(n, sched, t, [call] + rest);
    FirstAlone(After(n, sched), t, call, rest);
  }

  lemma CallKeepsInv<V>(s: State<V>, t: nat, mode: Mode, max: nat)
    requires Inv(s) && t < |s.threads| && s.threads[t].Resting()
    ensures Next(s, t, CallDequeue(mode, max)) == s.(threads := s.threads[t := Load(mode, max, 0)])
    ensures Inv(Next(s, t, CallDequeue(mode, max)))
  {
    NextKeepsInv(s, t, CallDequeue(mode, max));
  }

  /** A `try_dequeue` has as many elements as there were permits, up to the number asked for. */
  ghost predicate TryReturns<V>(s: State<V>, s': State<V>, t: nat, max: nat)
    requires t < |s.threads|
  {
    var got := Got(s.count, max);
    Ends(s, s', t, Try, max, got, got) && s'.count == s.count - got && s'.tokens == s.tokens
  }

  /** A dequeue that may wait has the same if there was a permit, and otherwise waits with its debt in the count. */
  ghost predicate WaitReturns<V>(s: State<V>, s': State<V>, t: nat, mode: Mode, max: nat)
    requires t < |s.threads|
  {
    var got := Got(s.count, max);
    if s.count > 0 then Ends(s, s', t, mode, max, got, got) && s'.count == s.count - got && s'.tokens == s.tokens
    else s' == s.(threads := s.threads[t := Blocked(mode, max)], count := s.count - 1)
  }

  lemma TriesFrom<V>(s: State<V>, t: nat, max: nat) returns (steps: seq<Action<V>>)
    requires Inv(s) && t < |s.threads| && s.threads[t].Resting()
    ensures AllSteps(steps) && |steps| <= max + 3
    ensures TryReturns(s, Alone(s.(threads := s.threads[t := Load(Try, max, 0)]), t, steps), t, max)
  {
    CallKeepsInv(s, t, Try, max);
    var s1 := s.(threads := s.threads[t := Load(Try, max, 0)]);
    steps := TriesAlone(s1, t, max);
    var got := Got(s.count, max);
    assert s1.threads[t := Done(Try, max, got)] == s.threads[t := Done(Try, max, got)];
  }

  lemma WaitsFrom<V>(s: State<V>, t: nat, mode: Mode, max: nat) returns (steps: seq<Action<V>>)
    requires Inv(s) && t < |s.threads| && s.threads[t].Resting() && mode != Try && max > 0
    ensures AllSteps(steps) && |steps| <= max + SPINS + 3
    ensures WaitReturns(s, Alone(s.(threads := s.threads[t := Load(mode, max, 0)]), t, steps), t, mode, max)
  {
    CallKeepsInv(s, t, mode, max);
    var s1 := s.(threads := s.threads[t := Load(mode, max, 0)]);
    steps := WaitsAlone(s1, t, mode, max);
    var got := Got(s.count, max);
    assert s1.threads[t := Done(mode, max, got)] == s.threads[t := Done(mode, max, got)];
    assert s1.threads[t := Blocked(mode, max)] == s.threads[t := Blocked(mode, max)];
  }

  /** What an enqueue leaves: its elements and as many permits, and a release for each permit that was owed. */
  function Enqueued<V>(s: State<V>, t: nat, values: multiset<V>): State<V>
    requires t < |s.threads|
  {
    s.(threads := s.threads[t := Idle], bag := s.bag + values, added := s.added + values, count := s.count + |values|,
       signalled := s.signalled + |values|, tokens := s.tokens + Got(-s.count, |values|))
  }

  lemma SignalsFrom<V>(s: State<V>, t: nat, values: multiset<V>) returns (steps: seq<Action<V>>)
    requires t < |s.threads| && s.threads[t].Resting()
    ensures AllSteps(steps) && |steps| <= |values| + 1 && |Next(s, t, CallEnqueue(values)).threads| == |s.threads|
    ensures Alone(Next(s, t, CallEnqueue(values)), t, steps) == Enqueued(s, t, values)
  {
    var s1 := s.(threads := s.threads[t := Signal(|values|)], bag := s.bag + values, added := s.added + values);
    assert Next(s, t, CallEnqueue(values)) == s1;
    steps := SignalsAlone(s1, t, |values|);
    assert s1.threads[t := Idle] == s.threads[t := Idle];
  }

  /** An undisturbed `try_dequeue` returns within a bound. */
  lemma TryDequeueAlone<V>(n: nat, sched: seq<(nat, Action<V>)>, t: nat, max: nat) returns (steps: seq<Action<V>>)
    requires t < n && After(n, sched).threads[t].Resting()
    ensures AllSteps(steps) && |steps| <= max + 3
    ensures TryReturns(After(n, sched), After(n, sched + Own(t, [CallDequeue(Try, max)] + steps)), t, max)
  {
    CallKeepsInv(After(n, sched), t, Try, max);
    steps := TriesFrom(After(n, sched), t, max);
    CallThenAlone(n, sched, t, CallDequeue(Try, max), steps);
  }

  /** So does an undisturbed `wait_dequeue`, unless it blocks. */
  lemma WaitDequeueAlone<V>(n: nat, sched: seq<(nat, Action<V>)>, t: nat, mode: Mode, max: nat) returns (steps: seq<Action<V>>)
    requires t < n && After(n, sched).threads[t].Resting() && mode != Try && max > 0
    ensures AllSteps(steps) && |steps| <= max + SPINS + 3
    ensures WaitReturns(After(n, sched), After(n, sched + Own(t, [CallDequeue(mode, max)] + steps)), t, mode, max)
  {
    CallKeepsInv(After(n, sched), t, mode, max);
    steps := WaitsFrom(After(n, sched), t, mode, max);
    CallThenAlone(n, sched, t, CallDequeue(mode, max), steps);
  }

  /** And an undisturbed enqueue. */
  lemma EnqueueAlone<V>(n: nat, sched: seq<(nat, Action<V>)>, t: nat, values: multiset<V>) returns (steps: seq<Action<V>>)
    requires t < n && After(n, sched).threads[t].Resting()
    ensures AllSteps(steps) && |steps| <= |values| + 1
    ensures After(n, sched + Own(t, [CallEnqueue(values)] + steps)) == Enqueued(After(n, sched), t, values)
  {
    steps := SignalsFrom(After(n, sched), t, values);
    CallThenAlone(n, sched, t, CallEnqueue(values), steps);
  }

  // ---------------------------------------------------------------------------------------------
  // Coming back without a permit
  // ---------------------------------------------------------------------------------------------

  lemma NextOf<V>(n: nat, sched: seq<(nat, Action<V>)>, i: nat)
    requires i < |sched| && sched[i].0 < n
    ensures After(n, sched[..i + 1]) == Next(After(n, sched[..i]), sched[i].0, sched[i].1)
  {
    assert sched[..i + 1][..i] == sched[..i];
  }

  lemma RefusedStep<V>(s: State<V>, t: nat, a: Action<V>, max: nat)
    requires t < |s.threads| && ThreadOk(s.threads[t]) && !s.threads[t].Resting() && max > 0
    requires Next(s, t, a).threads[t] == Done(Try, max, 0)
    ensures s.count <= 0
  {
  }

  /** A `try_dequeue` that comes back with nothing has just seen that there was no permit. */
  lemma RefusedTrySawNoPermit<V>(n: nat, sched: seq<(nat, Action<V>)>, i: nat, t: nat, max: nat)
    requires i < |sched| && t < n && sched[i].0 == t && max > 0
    requires !After(n, sched[..i]).threads[t].Resting() && After(n, sched[..i + 1]).threads[t] == Done(Try, max, 0)
    ensures After(n, sched[..i]).count <= 0
  {
    NextOf(n, sched, i);
    assert ThreadOk(After(n, sched[..i]).threads[t]);
    RefusedStep(After(n, sched[..i]), t, sched[i].1, max);
  }

  /** In step i thread t goes from one position to another. */
  ghost predicate Goes<V>(n: nat, sched: seq<(nat, Action<V>)>, i: nat, t: nat, from: Thread, to: Thread) {
    && i < |sched| && t < n && sched[i].0 == t
    && After(n, sched[..i]).threads[t] == from && After(n, sched[..i + 1]).threads[t] == to
  }

  predicate IsBlocked(pc: Thread, mode: Mode, max: nat) {
    pc == Blocked(mode, max)
  }

  predicate TimedOut(pc: Thread, max: nat) {
    pc == TimedOutLoad(max) || pc == TimedOutTry(max) || (pc.TimedOutCas? && pc.max == max)
  }

  ghost predicate WaitsBetween<V>(n: nat, sched: seq<(nat, Action<V>)>, m: nat, i: nat, t: nat)
    requires i <= |sched| && t < n
  {
    forall j | m < j <= i :: After(n, sched[..j]).threads[t].Waiting()
  }

  lemma OthersStay<V>(s: State<V>, u: nat, a: Action<V>, t: nat)
    requires u < |s.threads| && t < |s.threads| && u != t
    ensures |Next(s, u, a).threads| == |s.threads| && Next(s, u, a).threads[t] == s.threads[t]
  {
  }

  lemma StepToBlocked<V>(s: State<V>, u: nat, a: Action<V>, t: nat, mode: Mode, max: nat)
    requires u < |s.threads| && t < |s.threads|
    requires IsBlocked(Next(s, u, a).threads[t], mode, max) && !IsBlocked(s.threads[t], mode, max)
    ensures u == t && s.threads[t] == Announce(mode, max) && s.count <= 0 && Next(s, u, a).count == s.count - 1
  {
    if u != t {
      OthersStay(s, u, a, t);
    } else {
      OwnStepToBlocked(s, t, a, mode, max);
    }
  }

  lemma OwnStepToBlocked<V>(s: State<V>, t: nat, a: Action<V>, mode: Mode, max: nat)
    requires t < |s.threads| && IsBlocked(Next(s, t, a).threads[t], mode, max) && !IsBlocked(s.threads[t], mode, max)
    ensures s.threads[t] == Announce(mode, max) && s.count <= 0 && Next(s, t, a).count == s.count - 1
  {
  }

  lemma StepToTimedOut<V>(s: State<V>, u: nat, a: Action<V>, t: nat, max: nat)
    requires u < |s.threads| && t < |s.threads| && TimedOut(Next(s, u, a).threads[t], max) && !TimedOut(s.threads[t], max)
    ensures u == t && a.Step? && a.expire && s.threads[t] == Blocked(Timed, max) && Next(s, u, a).threads[t] == TimedOutLoad(max)
  {
    if u != t {
      OthersStay(s, u, a, t);
    } else {
      OwnStepToTimedOut(s, t, a, max);
    }
  }

  lemma OwnStepToTimedOut<V>(s: State<V>, t: nat, a: Action<V>, max: nat)
    requires t < |s.threads| && TimedOut(Next(s, t, a).threads[t], max) && !TimedOut(s.threads[t], max)
    ensures a.Step? && a.expire && s.threads[t] == Blocked(Timed, max) && Next(s, t, a).threads[t] == TimedOutLoad(max)
  {
  }

  /** Before instant i thread t has announced itself in the count when there was no permit, and waits since. */
  ghost predicate Announced<V>(n: nat, sched: seq<(nat, Action<V>)>, m: nat, i: nat, t: nat, mode: Mode, max: nat)
    requires i <= |sched| && t < n
  {
    && m < i && Goes(n, sched, m, t, Announce(mode, max), Blocked(mode, max)) && After(n, sched[..m]).count <= 0
    && After(n, sched[..m + 1]).count == After(n, sched[..m]).count - 1 && WaitsBetween(n, sched, m, i, t)
  }

  lemma SameForOthers<V>(n: nat, sched: seq<(nat, Action<V>)>, i: nat)
    requires i < |sched| && sched[i].0 >= n
    ensures After(n, sched[..i + 1]) == After(n, sched[..i])
  {
    assert sched[..i + 1][..i] == sched[..i];
  }

  lemma BecameBlocked<V>(n: nat, sched: seq<(nat, Action<V>)>, i: nat, t: nat, mode: Mode, max: nat)
    requires i < |sched| && t < n
    requires IsBlocked(After(n, sched[..i + 1]).threads[t], mode, max) && !IsBlocked(After(n, sched[..i]).threads[t], mode, max)
    ensures Goes(n, sched, i, t, Announce(mode, max), Blocked(mode, max)) && After(n, sched[..i]).count <= 0
    ensures After(n, sched[..i + 1]).count == After(n, sched[..i]).count - 1
  {
    if sched[i].0 >= n {
      SameForOthers(n, sched, i);
    } else {
      NextOf(n, sched, i);
      StepToBlocked(After(n, sched[..i]), sched[i].0, sched[i].1, t, mode, max);
    }
  }

  lemma NotAtFirst<V>(n: nat, sched: seq<(nat, Action<V>)>, t: nat)
    requires t < n
    ensures After(n, sched[..0]).threads[t] == Idle
  {
    assert sched[..0] == [];
  }

  /** From after instant m until instant i the position of thread t is of some kind, and at m it is not. */
  ghost predicate HoldsSince<V>(n: nat, sched: seq<(nat, Action<V>)>, m: nat, i: nat, t: nat, holds: Thread -> bool)
    requires i <= |sched| && t < n
  {
    && m < i && !holds(After(n, sched[..m]).threads[t])
    && forall j | m < j <= i :: holds(After(n, sched[..j]).threads[t])
  }

  /** What a thread does not do at first it has begun at some instant. */
  lemma BeganAt<V>(n: nat, sched: seq<(nat, Action<V>)>, i: nat, t: nat, holds: Thread -> bool) returns (m: nat)
    requires i <= |sched| && t < n && !holds(Idle) && holds(After(n, sched[..i]).threads[t])
    ensures HoldsSince(n, sched, m, i, t, holds)
  {
    NotAtFirst(n, sched, t);
    var pcs := seq(i + 1, j requires 0 <= j <= i => After(n, sched[..j]).threads[t]);
    m := LastChange(pcs, holds);
    forall j | m < j <= i ensures holds(After(n, sched[..j]).threads[t]) {
      assert holds(pcs[j]);
    }
  }

  lemma {:induction false} LastChange(pcs: seq<Thread>, holds: Thread -> bool) returns (m: nat)
    requires |pcs| > 0 && !holds(pcs[0]) && holds(pcs[|pcs| - 1])
    ensures m + 1 < |pcs| && !holds(pcs[m]) && forall j | m < j < |pcs| :: holds(pcs[j])
  {
    if holds(pcs[|pcs| - 2]) {
      m := LastChange(pcs[..|pcs| - 1], holds);
    } else {
      m := |pcs| - 2;
    }
  }

  lemma WaitsSince<V>(n: nat, sched: seq<(nat, Action<V>)>, m: nat, i: nat, t: nat, holds: Thread -> bool)
    requires i <= |sched| && t < n && HoldsSince(n, sched, m, i, t, holds) && forall pc | holds(pc) :: pc.Waiting()
    ensures WaitsBetween(n, sched, m, i, t)
  {
  }

  /** A blocked thread has announced itself. */
  lemma BlockedWasAnnounced<V>(n: nat, sched: seq<(nat, Action<V>)>, i: nat, t: nat, mode: Mode, max: nat) returns (m: nat)
    requires i <= |sched| && t < n && IsBlocked(After(n, sched[..i]).threads[t], mode, max)
    ensures Announced(n, sched, m, i, t, mode, max)
  {
    var holds := (pc: Thread) => IsBlocked(pc, mode, max);
    m := BeganAt(n, sched, i, t, holds);
    BecameBlocked(n, sched, m, t, mode, max);
    WaitsSince(n, sched, m, i, t, holds);
  }

  /** Before instant i the kernel wait of thread t has expired, and it waits since. */
  ghost predicate Expired<V>(n: nat, sched: seq<(nat, Action<V>)>, m: nat, i: nat, t: nat, max: nat)
    requires i <= |sched| && t < n
  {
    && m < i && Goes(n, sched, m, t, Blocked(Timed, max), TimedOutLoad(max)) && sched[m].1.Step? && sched[m].1.expire
    && WaitsBetween(n, sched, m, i, t)
  }

  lemma BecameTimedOut<V>(n: nat, sched: seq<(nat, Action<V>)>, i: nat, t: nat, max: nat)
    requires i < |sched| && t < n
    requires TimedOut(After(n, sched[..i + 1]).threads[t], max) && !TimedOut(After(n, sched[..i]).threads[t], max)
    ensures Goes(n, sched, i, t, Blocked(Timed, max), TimedOutLoad(max)) && sched[i].1.Step? && sched[i].1.expire
  {
    if sched[i].0 >= n {
      SameForOthers(n, sched, i);
    } else {
      NextOf(n, sched, i);
      StepToTimedOut(After(n, sched[..i]), sched[i].0, sched[i].1, t, max);
    }
  }

  /** A thread in the loop after a timeout was blocked when its kernel wait expired. */
  lemma TimedOutHasExpired<V>(n: nat, sched: seq<(nat, Action<V>)>, i: nat, t: nat, max: nat) returns (m: nat)
    requires i <= |sched| && t < n && TimedOut(After(n, sched[..i]).threads[t], max)
    ensures Expired(n, sched, m, i, t, max)
  {
    var holds := (pc: Thread) => TimedOut(pc, max);
    m := BeganAt(n, sched, i, t, holds);
    BecameTimedOut(n, sched, m, t, max);
    WaitsSince(n, sched, m, i, t, holds);
  }

  lemma GivesUp<V>(s: State<V>, t: nat, a: Action<V>, max: nat)
    requires t < |s.threads| && ThreadOk(s.threads[t]) && !s.threads[t].Resting() && max > 0
    requires Next(s, t, a).threads[t] == Done(Timed, max, 0)
    ensures TimedOut(s.threads[t], max) && s.count < 0 && Next(s, t, a).count == s.count + 1
  {
  }

  /**
   A timed wait that comes back with nothing has announced itself when there was no permit, its kernel wait has expired
   since, and it has just given its debt back while the count still showed it.
   */
  lemma TimedWaitGivesUp<V>(n: nat, sched: seq<(nat, Action<V>)>, i: nat, t: nat, max: nat) returns (announced: nat, expired: nat)
    requires i < |sched| && t < n && sched[i].0 == t && max > 0
    requires !After(n, sched[..i]).threads[t].Resting() && After(n, sched[..i + 1]).threads[t] == Done(Timed, max, 0)
    ensures expired < i && Announced(n, sched, announced, expired, t, Timed, max) && Expired(n, sched, expired, i, t, max)
    ensures After(n, sched[..i]).count < 0 && After(n, sched[..i + 1]).count == After(n, sched[..i]).count + 1
  {
    NextOf(n, sched, i);
    assert ThreadOk(After(n, sched[..i]).threads[t]);
    GivesUp(After(n, sched[..i]), t, sched[i].1, max);
    expired := TimedOutHasExpired(n, sched, i, t, max);
    announced := BlockedWasAnnounced(n, sched, expired, t, Timed, max);
  }
}
