/**
 The task scheduler of `ThreadPool.h`. Every method runs under the pool's mutex, so a run of the scheduler
 is a sequence of calls; a pool thread that ends its part of a task calls `RescheduleTask` with it.
 */
module ThreadPool {
  datatype TaskStatus = NotStarted | Running | Finished | Idle | Starved | Yield

  class ScheduledTask {
    const num: nat
    var status: TaskStatus

    constructor (num: nat)
      ensures this.num == num && status == NotStarted
    {
      this.num := num;
      status := NotStarted;
    }
  }

  // ---------------------------------------------------------------------------------------------
  // Whose turn it is
  // ---------------------------------------------------------------------------------------------

  /** The tasks of a stage that the pool does not have, in the order of the stage. */
  ghost function Waiting(stage: seq<ScheduledTask>, posted: set<ScheduledTask>): (w: seq<ScheduledTask>)
    ensures (forall t | t in w :: t in stage && t !in posted) && forall t | t in stage && t !in posted :: t in w
  {
    if stage == [] then [] else (if stage[0] in posted then [] else [stage[0]]) + Waiting(stage[1..], posted)
  }

  ghost function WaitingIn(stages: map<nat, seq<ScheduledTask>>, posted: set<ScheduledTask>): map<nat, seq<ScheduledTask>> {
    map n | n in stages :: Waiting(stages[n], posted)
  }

  /** Whether a search that begins with stage s comes to stage m before stage n in each of its rounds. */
  predicate ServedBefore(m: nat, n: nat, s: nat) {
    if m >= s then n < s || m < n else m < n < s
  }

  ghost function Started(before: map<nat, seq<ScheduledTask>>, after: map<nat, seq<ScheduledTask>>, n: nat): int
    requires n in before && n in after
  {
    |before[n]| - |after[n]|
  }

  /**
   The tasks of each stage are started in their order, and the stages take turns, of which the first is that of s: no
   stage gets more tasks started than one with a task left over, save one more if it is served before that one.
   */
  ghost predicate InTurn(before: map<nat, seq<ScheduledTask>>, after: map<nat, seq<ScheduledTask>>, s: nat) {
    && before.Keys == after.Keys
    && (forall n {:trigger after[n]} | n in after :: 0 <= Started(before, after, n) && after[n] == before[n][Started(before, after, n)..])
    && (forall m, n {:trigger Started(before, after, m), after[n]} | m in after && n in after && m != n && after[n] != [] ::
          Started(before, after, m) <= Started(before, after, n) + if ServedBefore(m, n, s) then 1 else 0)
  }

  ghost predicate IsLeast(s: nat, stages: set<nat>) {
    s in stages && forall n | n in stages :: s <= n
  }

  /** The stage with the next greater number, or the one with the least number if there is none. */
  ghost predicate IsNext(s: nat, num: nat, stages: set<nat>) {
    s in stages && if s > num then forall n | n in stages :: n <= num || s <= n else forall n | n in stages :: s <= n <= num
  }

  /** The stage with which the search for work begins: what a task with a status asks for, or the first one. */
  ghost predicate BeginsWith(task: ScheduledTask?, status: TaskStatus, s: nat, stages: set<nat>) {
    if task == null then IsLeast(s, stages)
    else match status
      case Starved => s == task.num
      case Yield => IsNext(s, task.num, stages)
      case Idle => IsNext(s, task.num, stages)
      case _ => IsLeast(s, stages)
  }

  /** No task is in a stage twice or in two stages. */
  ghost predicate Apart(stages: map<nat, seq<ScheduledTask>>) {
    && (forall n, i | n in stages && 0 <= i < |stages[n]| :: stages[n][i].num == n)
    && (forall n, i, j | n in stages && 0 <= i < j < |stages[n]| :: stages[n][i] != stages[n][j])
  }

  lemma {:induction false} FirstWaiting(stage: seq<ScheduledTask>, posted: set<ScheduledTask>, i: nat)
    requires i < |stage| && stage[i] !in posted && forall k | 0 <= k < i :: stage[k] in posted
    ensures Waiting(stage, posted) != [] && Waiting(stage, posted)[0] == stage[i]
  {
    if i > 0 {
      FirstWaiting(stage[1..], posted, i - 1);
    }
  }

  lemma {:induction false} NoneLeft(stage: seq<ScheduledTask>, posted: set<ScheduledTask>)
    requires forall i | 0 <= i < |stage| :: stage[i] in posted
    ensures Waiting(stage, posted) == []
  {
    if stage != [] {
      NoneLeft(stage[1..], posted);
    }
  }

  lemma {:induction false} OneLessWaits(stage: seq<ScheduledTask>, posted: set<ScheduledTask>)
    requires Waiting(stage, posted) != [] && forall i, j | 0 <= i < j < |stage| :: stage[i] != stage[j]
    ensures Waiting(stage, posted + {Waiting(stage, posted)[0]}) == Waiting(stage, posted)[1..]
    ensures Waiting(stage, posted)[0] !in Waiting(stage, posted)[1..]
  {
    var t := Waiting(stage, posted)[0];
    if stage[0] in posted {
      OneLessWaits(stage[1..], posted);
    } else {
      assert t == stage[0] && t !in stage[1..];
      OthersWait(stage[1..], posted, t);
    }
  }

  lemma {:induction false} OthersWait(stage: seq<ScheduledTask>, posted: set<ScheduledTask>, t: ScheduledTask)
    requires t !in stage
    ensures Waiting(stage, posted + {t}) == Waiting(stage, posted)
  {
    if stage != [] {
      OthersWait(stage[1..], posted, t);
    }
  }

  /** What is left of a sequence when k elements have been taken off its front, or all of them. */
  function From<T>(s: seq<T>, k: nat): seq<T> {
    if k < |s| then s[k..] else []
  }

  /** The numbers of the stages, ascending. */
  ghost predicate IsOrder(order: seq<nat>, stages: map<nat, seq<ScheduledTask>>) {
    (forall n :: n in order <==> n in stages) && forall i, j | 0 <= i < j < |order| :: order[i] < order[j]
  }

  /** The positions the search has passed since it last stood at `start`. */
  predicate Passed(p: nat, start: nat, position: nat) {
    if start <= position then start <= p < position else p >= start || p < position
  }

  function Turns(rounds: nat, p: nat, start: nat, position: nat): nat {
    rounds + if Passed(p, start, position) then 1 else 0
  }

  /** After some rounds, each stage has got a task started on each of its turns while it had one. */
  ghost predicate TurnsTaken(stages: map<nat, seq<ScheduledTask>>, was: set<ScheduledTask>, now: set<ScheduledTask>,
      order: seq<nat>, start: nat, position: nat, rounds: nat)
    requires IsOrder(order, stages)
  {
    forall p: nat {:trigger Turns(rounds, p, start, position)} | p < |order| ::
      Waiting(stages[order[p]], now) == From(Waiting(stages[order[p]], was), Turns(rounds, p, start, position))
  }

  function After(position: nat, size: nat): nat {
    if position + 1 == size then 0 else position + 1
  }

  /** How many positions are left until the search is back where it started. */
  function Distance(start: nat, position: nat, size: nat): int {
    if position > start then size - position + start else if position == start then size else start - position
  }

  lemma TurnMoves(rounds: nat, p: nat, start: nat, before: nat, size: nat)
    requires p < size && start < size && before < size
    ensures var position := After(before, size);
            Turns(if position == start then rounds + 1 else rounds, p, start, position)
            == Turns(rounds, p, start, before) + if p == before then 1 else 0
  {
  }

  lemma WaitAfterTurn(stages: map<nat, seq<ScheduledTask>>, now: set<ScheduledTask>, next: set<ScheduledTask>, m: nat, n: nat)
    requires Apart(stages) && m in stages && n in stages
    requires var w := Waiting(stages[m], now); next == if w == [] then now else now + {w[0]}
    ensures Waiting(stages[n], next) == From(Waiting(stages[n], now), if n == m then 1 else 0)
  {
    var w := Waiting(stages[m], now);
    if w != [] {
      if n == m { OneLessWaits(stages[m], now); } else { OthersWait(stages[n], now, w[0]); }
    }
  }

  /** One turn: the first waiting task of a stage is started, if there is one. */
  lemma TakeTurn(stages: map<nat, seq<ScheduledTask>>, was: set<ScheduledTask>, now: set<ScheduledTask>, next: set<ScheduledTask>,
      order: seq<nat>, start: nat, before: nat, rounds: nat)
    requires Apart(stages) && IsOrder(order, stages) && start < |order| && before < |order| && TurnsTaken(stages, was, now, order, start, before, rounds)
    requires var w := Waiting(stages[order[before]], now); next == if w == [] then now else now + {w[0]}
    ensures var position := After(before, |order|);
            TurnsTaken(stages, was, next, order, start, position, if position == start then rounds + 1 else rounds)
  {
    var stage := stages[order[before]];
    var position := After(before, |order|);
    forall p: nat | p < |order|
      ensures Waiting(stages[order[p]], next) ==
        From(Waiting(stages[order[p]], was), Turns(if position == start then rounds + 1 else rounds, p, start, position))
    {
      TurnMoves(rounds, p, start, before, |order|);
      WaitAfterTurn(stages, now, next, order[before], order[p]);
    }
  }

  lemma PassedIsServedBefore(order: seq<nat>, start: nat, position: nat, p: nat, q: nat)
    requires forall i, j | 0 <= i < j < |order| :: order[i] < order[j]
    requires start < |order| && position < |order| && p < |order| && q < |order|
    requires Passed(p, start, position) && !Passed(q, start, position)
    ensures ServedBefore(order[p], order[q], order[start])
  {
  }

  /** The stages that the search has passed have no task left that waits. */
  ghost predicate PassedAreRunning(stages: map<nat, seq<ScheduledTask>>, posted: set<ScheduledTask>, order: seq<nat>, start: nat, position: nat)
    requires IsOrder(order, stages)
  {
    forall p: nat {:trigger Passed(p, start, position)} | p < |order| && Passed(p, start, position) :: Waiting(stages[order[p]], posted) == []
  }

  lemma NextIsRunning(stages: map<nat, seq<ScheduledTask>>, posted: set<ScheduledTask>, order: seq<nat>, start: nat, before: nat)
    requires IsOrder(order, stages) && start < |order| && before < |order| && After(before, |order|) != start
    requires PassedAreRunning(stages, posted, order, start, before) && Waiting(stages[order[before]], posted) == []
    ensures PassedAreRunning(stages, posted, order, start, After(before, |order|))
  {
    forall p: nat | p < |order| && Passed(p, start, After(before, |order|)) ensures Waiting(stages[order[p]], posted) == [] {
      assert Passed(p, start, before) || p == before;
    }
  }

  /** When the search is back where it started, it has passed all stages. */
  lemma RoundIsRunning(stages: map<nat, seq<ScheduledTask>>, posted: set<ScheduledTask>, order: seq<nat>, start: nat, before: nat)
    requires IsOrder(order, stages) && start < |order| && before < |order| && After(before, |order|) == start
    requires PassedAreRunning(stages, posted, order, start, before) && Waiting(stages[order[before]], posted) == []
    ensures forall n | n in stages :: Waiting(stages[n], posted) == []
  {
    forall n | n in stages ensures Waiting(stages[n], posted) == [] {
      var p: nat :| p < |order| && order[p] == n;
      assert Passed(p, start, before) || p == before;
    }
  }

  /** Where the search stands: the turns it has taken, and what it knows of a round that has started nothing. */
  ghost predicate Searched(stages: map<nat, seq<ScheduledTask>>, was: set<ScheduledTask>, now: set<ScheduledTask>,
      order: seq<nat>, start: nat, position: nat, rounds: nat, couldStart: bool)
    requires IsOrder(order, stages)
  {
    && start < |order| && position < |order| && TurnsTaken(stages, was, now, order, start, position, rounds)
    && (!couldStart ==> PassedAreRunning(stages, now, order, start, position))
  }

  lemma SearchGoesOn(stages: map<nat, seq<ScheduledTask>>, was: set<ScheduledTask>, now: set<ScheduledTask>, next: set<ScheduledTask>,
      order: seq<nat>, start: nat, before: nat, position: nat, rounds: nat, couldStart: bool, started: bool)
    requires Apart(stages) && IsOrder(order, stages) && Searched(stages, was, now, order, start, before, rounds, couldStart)
    requires var w := Waiting(stages[order[before]], now); started == (w != []) && next == if w == [] then now else now + {w[0]}
    requires position == After(before, |order|)
    ensures position != start ==> Searched(stages, was, next, order, start, position, rounds, couldStart || started)
    ensures position == start ==> Searched(stages, was, next, order, start, position, rounds + 1, false)
    ensures position == start && !couldStart && !started ==> forall n | n in stages :: Waiting(stages[n], next) == []
  {
    TakeTurn(stages, was, now, next, order, start, before, rounds);
    if !started && !couldStart {
      if position == start {
        RoundIsRunning(stages, now, order, start, before);
      } else {
        NextIsRunning(stages, now, order, start, before);
      }
    }
  }

  /** What a stage got out of its turns. */
  lemma ShareOf(stages: map<nat, seq<ScheduledTask>>, was: set<ScheduledTask>, now: set<ScheduledTask>,
      order: seq<nat>, start: nat, position: nat, rounds: nat, n: nat)
    returns (p: nat)
    requires IsOrder(order, stages) && TurnsTaken(stages, was, now, order, start, position, rounds) && n in stages
    ensures p < |order| && order[p] == n
    ensures var turns := Turns(rounds, p, start, position);
            |Waiting(stages[n], was)| - |Waiting(stages[n], now)| == (if turns < |Waiting(stages[n], was)| then turns else |Waiting(stages[n], was)|)
            && Waiting(stages[n], now) == From(Waiting(stages[n], was), turns)
  {
    p :| p < |order| && order[p] == n;
  }

  lemma FairShares(stages: map<nat, seq<ScheduledTask>>, was: set<ScheduledTask>, now: set<ScheduledTask>,
      order: seq<nat>, start: nat, position: nat, rounds: nat, m: nat, n: nat)
    requires IsOrder(order, stages) && start < |order| && position < |order| && TurnsTaken(stages, was, now, order, start, position, rounds)
    requires m in stages && n in stages && m != n && Waiting(stages[n], now) != []
    ensures |Waiting(stages[m], was)| - |Waiting(stages[m], now)| <=
            |Waiting(stages[n], was)| - |Waiting(stages[n], now)| + if ServedBefore(m, n, order[start]) then 1 else 0
  {
    var p := ShareOf(stages, was, now, order, start, position, rounds, m);
    var q := ShareOf(stages, was, now, order, start, position, rounds, n);
    if Passed(p, start, position) && !Passed(q, start, position) {
      PassedIsServedBefore(order, start, position, p, q);
    }
  }

  /** Taking turns is fair. */
  lemma TurnsAreFair(stages: map<nat, seq<ScheduledTask>>, was: set<ScheduledTask>, now: set<ScheduledTask>,
      order: seq<nat>, start: nat, position: nat, rounds: nat)
    requires IsOrder(order, stages) && start < |order| && position < |order| && TurnsTaken(stages, was, now, order, start, position, rounds)
    ensures InTurn(WaitingIn(stages, was), WaitingIn(stages, now), order[start])
  {
    var before, after := WaitingIn(stages, was), WaitingIn(stages, now);
    forall n | n in after ensures 0 <= Started(before, after, n) && after[n] == before[n][Started(before, after, n)..] {
      var p := ShareOf(stages, was, now, order, start, position, rounds, n);
    }
    forall m, n | m in after && n in after && m != n && after[n] != []
      ensures Started(before, after, m) <= Started(before, after, n) + if ServedBefore(m, n, order[start]) then 1 else 0
    {
      FairShares(stages, was, now, order, start, position, rounds, m, n);
    }
  }

  /** The search has begun with stage s, whose first waiting task is started if there is a free thread. */
  ghost predicate ServedFrom(stages: map<nat, seq<ScheduledTask>>, was: set<ScheduledTask>, now: set<ScheduledTask>, free: bool, s: nat) {
    && s in stages && InTurn(WaitingIn(stages, was), WaitingIn(stages, now), s)
    && (free && Waiting(stages[s], was) != [] ==> Waiting(stages[s], was)[0] in now)
  }

  /** The search has begun with the stage that the task asks for. */
  ghost predicate Served(task: ScheduledTask?, status: TaskStatus, stages: map<nat, seq<ScheduledTask>>,
      was: set<ScheduledTask>, now: set<ScheduledTask>, free: bool)
  {
    exists s: nat :: BeginsWith(task, status, s, stages.Keys) && ServedFrom(stages, was, now, free, s)
  }

  lemma FirstIsTaken(stage: seq<ScheduledTask>, was: set<ScheduledTask>, now: set<ScheduledTask>, turns: nat)
    requires Waiting(stage, was) != [] && turns > 0 && Waiting(stage, now) == From(Waiting(stage, was), turns)
    requires forall i, j | 0 <= i < j < |stage| :: stage[i] != stage[j]
    ensures Waiting(stage, was)[0] in now
  {
    OneLessWaits(stage, was);
    assert Waiting(stage, was)[0] !in From(Waiting(stage, was), turns);
  }

  lemma SearchEnds(stages: map<nat, seq<ScheduledTask>>, was: set<ScheduledTask>, now: set<ScheduledTask>, free: bool,
      order: seq<nat>, start: nat, position: nat, rounds: nat, task: ScheduledTask?, status: TaskStatus)
    requires Apart(stages) && IsOrder(order, stages) && start < |order| && position < |order| && TurnsTaken(stages, was, now, order, start, position, rounds)
    requires position != start || rounds > 0 || !free
    requires BeginsWith(task, status, order[start], stages.Keys)
    ensures Served(task, status, stages, was, now, free)
  {
    TurnsAreFair(stages, was, now, order, start, position, rounds);
    if free && Waiting(stages[order[start]], was) != [] {
      FirstIsTaken(stages[order[start]], was, now, Turns(rounds, start, start, position));
    }
    assert ServedFrom(stages, was, now, free, order[start]);
  }

  /** A task that has left its stage asks for nothing. */
  lemma SameSearch(task: ScheduledTask?, status: TaskStatus, remaining: ScheduledTask?, stages: map<nat, seq<ScheduledTask>>,
      was: set<ScheduledTask>, now: set<ScheduledTask>, free: bool)
    requires (remaining == if status == Finished then null else task) && Served(remaining, status, stages, was, now, free)
    ensures Served(task, status, stages, was, now, free)
  {
    var s: nat :| BeginsWith(remaining, status, s, stages.Keys) && ServedFrom(stages, was, now, free, s);
    assert BeginsWith(task, status, s, stages.Keys);
  }

  class Scheduler {
    const maxThreads: nat
    var runningThreads: int
    var stages: map<nat, seq<ScheduledTask>>
    /** The tasks of all stages, and those handed to the pool that have not called back. */
    ghost var tasks: set<ScheduledTask>
    ghost var posted: set<ScheduledTask>

    /** Stages are never empty, hold tasks of their own number only, and no task twice. */
    ghost predicate StagesOk()
      reads this
    {
      && (forall n | n in stages :: stages[n] != [])
      && (forall n, i | n in stages && 0 <= i < |stages[n]| :: stages[n][i] in tasks && stages[n][i].num == n)
      && (forall n, i, j | n in stages && 0 <= i < j < |stages[n]| :: stages[n][i] != stages[n][j])
      && (forall t | t in tasks :: t.num in stages && t in stages[t.num])
    }

    /** The counter is the number of running tasks; a task runs exactly while the pool has it. */
    ghost predicate CountOk()
      reads this, tasks
    {
      && posted <= tasks
      && (forall t | t in tasks :: t.status == Running <==> t in posted)
      && (forall t | t in tasks :: t.status != Finished)
      && runningThreads == |posted| <= maxThreads
    }

    ghost predicate Valid()
      reads this, tasks
    {
      maxThreads > 0 && StagesOk() && CountOk()
    }

    constructor (maxThreads: nat)
      requires maxThreads > 0
      ensures Valid() && stages == map[] && this.maxThreads == maxThreads
    {
      this.maxThreads := maxThreads;
      runningThreads := 0;
      stages := map[];
      tasks := {};
      posted := {};
    }

    static method Clones(num: nat, count: nat) returns (stage: seq<ScheduledTask>)
      ensures |stage| == count
      ensures forall i | 0 <= i < count :: fresh(stage[i]) && stage[i].num == num && stage[i].status == NotStarted
      ensures forall i, j | 0 <= i < j < count :: stage[i] != stage[j]
    {
      stage := [];
      for i := 0 to count
        invariant |stage| == i
        invariant forall k | 0 <= k < i :: fresh(stage[k]) && stage[k].num == num && stage[k].status == NotStarted
        invariant forall j, k | 0 <= j < k < i :: stage[j] != stage[k]
      {
        var clone := new ScheduledTask(num);
        stage := stage + [clone];
      }
    }

    /** A stage of fresh tasks takes the place of the stage with its number, if there is one. */
    method Replace(num: nat, stage: seq<ScheduledTask>)
      requires Valid() && stage != [] && forall t | t in posted :: t.num != num
      requires forall i | 0 <= i < |stage| :: stage[i] !in tasks && stage[i].num == num && stage[i].status == NotStarted
      requires forall i, j | 0 <= i < j < |stage| :: stage[i] != stage[j]
      modifies this`stages, this`tasks
      ensures Valid() && stages == old(stages)[num := stage]
      ensures tasks == (set t | t in old(tasks) && t.num != num) + (set i | 0 <= i < |stage| :: stage[i])
    {
      tasks := (set t | t in tasks && t.num != num) + (set i | 0 <= i < |stage| :: stage[i]);
      stages := stages[num := stage];
    }

    /**
     Adds a stage of clones of one task; nothing is started. A stage with the same number is replaced and its tasks
     are freed, so that the pool must have none of them.
     */
    method ScheduleFuture(num: nat, instances: nat)
      requires Valid() && (num in stages ==> forall t | t in stages[num] :: t !in posted)
      modifies this
      ensures Valid() && runningThreads == old(runningThreads) && posted == old(posted)
      ensures stages.Keys == old(stages.Keys) + {num} && forall n | n in old(stages) && n != num :: stages[n] == old(stages[n])
      ensures |stages[num]| == if instances == 0 || instances > maxThreads then maxThreads else instances
      ensures forall i | 0 <= i < |stages[num]| :: fresh(stages[num][i]) && stages[num][i].status == NotStarted
    {
      var maxInstances := if instances == 0 then maxThreads else instances;
      if maxInstances > maxThreads {
        maxInstances := maxThreads;
      }
      var stage := Clones(num, maxInstances);
      assert forall t | t in posted :: t.num in stages && t in stages[t.num] && t.num != num;
      Replace(num, stage);
    }

    /** The keys of the stages in the order in which the map is walked. */
    method StageOrder() returns (order: seq<nat>)
      ensures IsOrder(order, stages)
    {
      order := [];
      var rest := stages.Keys;
      while rest != {}
        invariant forall i, j | 0 <= i < j < |order| :: order[i] < order[j]
        invariant forall n, i | n in rest && 0 <= i < |order| :: order[i] < n
        invariant forall n :: n in stages <==> n in order || n in rest
        decreases rest
      {
        var least := Least(rest);
        rest := rest - {least};
        order := order + [least];
      }
    }

    static method Least(s: set<nat>) returns (least: nat)
      requires s != {}
      ensures least in s && forall n | n in s :: least <= n
    {
      least :| least in s;
      var rest := s - {least};
      while rest != {}
        invariant least in s && rest <= s && forall n | n in s - rest :: least <= n
        decreases rest
      {
        var n :| n in rest;
        if n < least {
          least := n;
        }
        assert s - (rest - {n}) == (s - rest) + {n};
        rest := rest - {n};
      }
      assert s - rest == s;
    }

    /** The stage at which the search for work begins, as a position in the order of the stages. */
    method ScheduleStrategy(task: ScheduledTask?, order: seq<nat>) returns (position: nat)
      requires IsOrder(order, stages)
      requires order != [] && (task != null && task.status != Finished ==> task.num in stages)
      ensures position < |order|
      ensures task != null && task.status == Starved ==> order[position] == task.num
      ensures task != null && (task.status == Yield || task.status == Idle) ==>
        order[if position == 0 then |order| - 1 else position - 1] == task.num
      ensures task == null || task.status in {NotStarted, Running, Finished} ==> position == 0
      ensures forall status | task != null ==> task.status == status :: BeginsWith(task, status, order[position], stages.Keys)
    {
      if task == null || task.status == Finished {
        return 0;
      }
      position := 0;
      while order[position] != task.num
        invariant position < |order| && task.num !in order[..position]
        decreases |order| - position
      {
        if position + 1 == |order| {
          assert false;
        }
        position := position + 1;
      }
      if task.status == Yield || task.status == Idle {
        position := position + 1;
      } else if task.status != Starved {
        position := 0;
      }
      if position == |order| {
        position := 0;
      }
    }

    /** Removes a finished task, and its stage with the last task of it. */
    method Remove(task: ScheduledTask)
      requires maxThreads > 0 && StagesOk() && task in tasks && task !in posted
      modifies this`stages, this`tasks
      ensures StagesOk() && tasks == old(tasks) - {task}
      ensures forall n | n in stages :: n in old(stages) && (n != task.num ==> stages[n] == old(stages[n]))
      ensures forall n | n in old(stages) && n != task.num :: n in stages
      ensures task.num in stages ==>
        exists i | 0 <= i < old(|stages[task.num]|) ::
          old(stages[task.num][i]) == task && stages[task.num] == old(stages[task.num][..i] + stages[task.num][i + 1..])
      ensures task.num !in stages ==> old(stages[task.num]) == [task]
    {
      var stage := stages[task.num];
      var i: nat := 0;
      while stage[i] != task
        invariant i < |stage| && task !in stage[..i]
        decreases |stage| - i
      {
        if i + 1 == |stage| {
          assert false;
        }
        i := i + 1;
      }
      var rest := stage[..i] + stage[i + 1..];
      tasks := tasks - {task};
      stages := if rest == [] then stages - {task.num} else stages[task.num := rest];
      assert forall t | t in stage && t != task :: t in rest;
      assert rest == [] ==> stage == [task];
    }

    predicate Startable(t: ScheduledTask)
      reads t
    {
      t.status != Finished && t.status != Running
    }

    ghost predicate AllRunning(n: nat)
      requires n in stages
      reads this, tasks
    {
      forall i | 0 <= i < |stages[n]| && stages[n][i] in tasks :: stages[n][i].status == Running
    }

    /** Starts the first task of a stage that can be started. */
    method StartOne(n: nat) returns (started: bool)
      requires Valid() && n in stages && runningThreads < maxThreads
      modifies this`runningThreads, this`posted, tasks
      ensures Valid()
      ensures started == (old(Waiting(stages[n], posted)) != [])
      ensures !started ==> unchanged(this) && unchanged(tasks) && AllRunning(n)
      ensures started ==> runningThreads == old(runningThreads) + 1 && posted == old(posted) + {old(Waiting(stages[n], posted))[0]}
      ensures forall t | t in tasks && (t in old(posted) || t !in posted) :: t.status == old(t.status)
    {
      started := false;
      for i := 0 to |stages[n]|
        invariant forall k | 0 <= k < i :: !Startable(stages[n][k])
      {
        var task := stages[n][i];
        if Startable(task) {
          assert task !in posted;
          FirstWaiting(stages[n], posted, i);
          task.status := Running;
          runningThreads := runningThreads + 1;
          posted := posted + {task};
          return true;
        }
      }
      NoneLeft(stages[n], posted);
    }

    /** Every thread is busy, or every task of every stage runs. */
    ghost predicate WorkConserving()
      reads this, tasks
    {
      runningThreads == maxThreads || forall n | n in stages :: AllRunning(n)
    }

    lemma NoneWaits()
      requires Valid() && forall n | n in stages :: Waiting(stages[n], posted) == []
      ensures WorkConserving()
    {
      forall n, i | n in stages && 0 <= i < |stages[n]| ensures stages[n][i] in posted {
        assert stages[n][i] !in Waiting(stages[n], posted);
      }
    }

    /**
     One stage's turn in the search: it starts its first task that can be started, and the search goes on to the next
     stage. It is done when it is back where it began and a whole round has started nothing.
     */
    method ServeStage(order: seq<nat>, start: nat, position: nat, couldStart: bool, ghost was: set<ScheduledTask>, ghost rounds: nat)
      returns (next: nat, could: bool, done: bool, ghost rounds': nat)
      requires Valid() && runningThreads < maxThreads && IsOrder(order, stages)
      requires Searched(stages, was, posted, order, start, position, rounds, couldStart)
      modifies this`runningThreads, this`posted, tasks
      ensures Valid() && old(posted) <= posted
      ensures forall t | t in tasks && (t in old(posted) || t !in posted) :: t.status == old(t.status)
      ensures Searched(stages, was, posted, order, start, next, rounds', could) && (next == start ==> rounds' > 0)
      ensures done ==> WorkConserving()
      ensures runningThreads >= old(runningThreads)
      ensures !done && runningThreads == old(runningThreads) ==>
        if could == couldStart then Distance(start, next, |order|) < Distance(start, position, |order|) else couldStart
    {
      ghost var now := posted;
      var started := StartOne(order[position]);
      next := if position + 1 == |order| then 0 else position + 1;
      done := next == start && !couldStart && !started;
      could := next != start && (couldStart || started);
      rounds' := if next == start then rounds + 1 else rounds;
      SearchGoesOn(stages, was, now, posted, order, start, position, next, rounds, couldStart, started);
      if done {
        NoneWaits();
      }
    }

    /**
     The search for work, which goes round the stages from `start`. It ends when all threads are busy or
     when a whole round started nothing.
     */
    method StartTasks(order: seq<nat>, start: nat, ghost task: ScheduledTask?, ghost status: TaskStatus)
      requires Valid() && start < |order| && IsOrder(order, stages) && BeginsWith(task, status, order[start], stages.Keys)
      modifies this`runningThreads, this`posted, tasks
      ensures Valid() && WorkConserving() && old(posted) <= posted
      ensures Served(task, status, stages, old(posted), posted, old(runningThreads < maxThreads))
      ensures forall t | t in tasks && (t in old(posted) || t !in posted) :: t.status == old(t.status)
    {
      var position: nat, couldStart, done := start, false, false;
      ghost var rounds: nat := 0;
      while runningThreads < maxThreads && !done
        invariant Valid() && old(posted) <= posted
        invariant forall t | t in tasks && (t in old(posted) || t !in posted) :: t.status == old(t.status)
        invariant Searched(stages, old(posted), posted, order, start, position, rounds, couldStart)
        invariant position == start ==> rounds > 0 || runningThreads == old(runningThreads)
        invariant done ==> WorkConserving() && (position == start ==> rounds > 0)
        decreases maxThreads - runningThreads, !done, couldStart, Distance(start, position, |order|)
      {
        position, couldStart, done, rounds := ServeStage(order, start, position, couldStart, old(posted), rounds);
      }
      SearchEnds(stages, old(posted), posted, old(runningThreads < maxThreads), order, start, position, rounds, task, status);
    }

    /** A pool thread hands a task back with its new status; a finished task leaves its stage. */
    method TakeBack(task: ScheduledTask, status: TaskStatus)
      requires Valid() && task in posted && status != Running
      modifies this, task
      ensures Valid() && runningThreads == old(runningThreads) - 1 && posted == old(posted) - {task}
      ensures tasks == if status == Finished then old(tasks) - {task} else old(tasks)
      ensures task.status == status
    {
      runningThreads := runningThreads - 1;
      task.status := status;
      posted := posted - {task};
      if task.status == Finished {
        Remove(task);
      }
    }

    /** The task that is handed back, if it stays with the scheduler. */
    method HandBack(task: ScheduledTask?, status: TaskStatus) returns (remaining: ScheduledTask?)
      requires Valid() && (task != null ==> task in posted && status != Running)
      modifies this, task
      ensures Valid() && runningThreads == old(runningThreads) - (if task == null then 0 else 1) && posted == old(posted) - {task}
      ensures tasks == if task != null && status == Finished then old(tasks) - {task} else old(tasks)
      ensures remaining == if status == Finished then null else task
      ensures task != null ==> task.status == status
      ensures remaining != null ==> remaining in tasks && remaining !in posted
    {
      if task == null {
        return null;
      }
      TakeBack(task, status);
      remaining := if status == Finished then null else task;
    }

    /** Starts tasks until no more can be: the stages take turns, and the first turn is that of the stage asked for. */
    method StartFrom(task: ScheduledTask?, ghost status: TaskStatus)
      requires Valid() && (task != null ==> task in tasks && task !in posted && task.status == status)
      modifies this`runningThreads, this`posted, tasks
      ensures Valid() && WorkConserving() && old(posted) <= posted
      ensures forall t | t in tasks && (t in old(posted) || t !in posted) :: t.status == old(t.status)
      ensures stages != map[] ==>
        Served(task, status, stages, old(posted), posted, old(runningThreads < maxThreads))
      ensures task != null && status == Starved && old(runningThreads < maxThreads) ==>
        exists t | t in stages[task.num] :: t in posted && t !in old(posted)
    {
      if stages == map[] {
        return;
      }
      var order := StageOrder();
      assert order != [] by {
        var n :| n in stages;
        assert n in order;
      }
      var start := ScheduleStrategy(task, order);
      StartTasks(order, start, task, status);
      if task != null && status == Starved && old(runningThreads < maxThreads) {
        assert task in Waiting(stages[task.num], old(posted));
      }
    }

    /**
     A pool thread hands its task back, or someone else asks for work to be started; then tasks are started
     until no more can be.
     */
    method RescheduleTask(task: ScheduledTask?, status: TaskStatus)
      requires Valid() && (task != null ==> task in posted && status != Running)
      modifies this, tasks
      ensures Valid() && WorkConserving()
      ensures tasks == if task != null && status == Finished then old(tasks) - {task} else old(tasks)
      ensures old(posted) - {task} <= posted
      ensures forall t | t in tasks && t != task && t !in posted :: t.status == old(t.status)
      ensures task != null && task in tasks && task !in posted ==> task.status == status
      ensures stages != map[] ==>
        Served(task, status, stages, old(posted) - {task}, posted, task != null || old(runningThreads < maxThreads))
      ensures task != null && status == Starved ==>
        task.num in stages && exists t | t in stages[task.num] :: t in posted && t !in old(posted) - {task}
      ensures stages == map[] ==> runningThreads == 0 && posted == {}
    {
      var remaining := HandBack(task, status);
      ghost var was, free := posted, runningThreads < maxThreads;
      assert was == old(posted) - {task} && free == (task != null || old(runningThreads < maxThreads));
      StartFrom(remaining, status);
      if stages != map[] {
        SameSearch(task, status, remaining, stages, was, posted, free);
      }
      if stages == map[] {
        NothingLeftToWaitFor();
      }
    }

    /** What `wait` asserts when it has seen the map of stages empty. */
    lemma NothingLeftToWaitFor()
      requires Valid() && stages == map[]
      ensures runningThreads == 0 && posted == {} && tasks == {}
    {
      assert forall t | t in tasks :: false;
    }
  }
}
