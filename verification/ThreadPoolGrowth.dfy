/** When the pool gets threads: what init creates, when execute asks for one more, and when it gets it. */
module ThreadPoolGrowth {
  import opened Numbers
  import opened ThreadPool

  // ---- the tests -------------------------------------------------------------------------------

  /** The threads of the table that are outside a task. */
  ghost function Idle(s: State): set<Tid> {
    s.threads.Keys - Working(s)
  }

  /** pool_size() - active_count() is how many there are. */
  lemma {:induction false} IdleCount(s: State)
    requires TableInv(s) && CountersAgree(s)
    ensures |Idle(s)| == |s.threads| - s.activeCount
  {
    assert Working(s) <= s.threads.Keys;
    assert |s.threads.Keys| == |s.threads|;
    SubsetSize(Working(s), s.threads.Keys);
  }

  lemma {:induction false} SubsetSize(a: set<Tid>, b: set<Tid>)
    requires a <= b
    ensures |b - a| == |b| - |a|
  {
    assert b == (b - a) + a;
  }

  /** extend_thread, its count taken: no thread exactly if as many are idle as tasks were queued, and one otherwise. */
  lemma {:induction false} ExtendDecidesExactly(s: State, c: Cid)
    requires Inv(s) && CountersAgree(s) && s.Client(c).SIZED?
    ensures IsAllowed(s, ExtendDecline(c)) <==> s.Client(c).queued <= |Idle(s)|
    ensures (exists t :: IsAllowed(s, ExtendSpawn(c, t))) <==> s.Client(c).queued > |Idle(s)|
  {
    IdleCount(s);
    if s.Client(c).queued > |Idle(s)| {
      var t := Unused(s);
      assert IsAllowed(s, ExtendSpawn(c, t));
    }
  }

  ghost function Unused(s: State): (t: Tid)
    ensures CanSpawn(s, t)
  {
    Above(s.workers.Keys + s.threads.Keys)
  }

  /** Before that it looks for room. */
  lemma {:induction false} ExtendNeedsRoom(s: State, c: Cid)
    requires Inv(s) && s.Client(c).EXTENDING?
    ensures IsAllowed(s, ExtendDecline(c)) <==> |s.threads| == s.maxPoolSize
    ensures IsAllowed(s, ExtendReadQueue(c)) <==> |s.threads| < s.maxPoolSize
  {
  }

  /** The test in execute, on the two numbers read before it. */
  lemma {:induction false} ExecuteDecidesExactly(s: State, c: Cid)
    requires Inv(s) && CountersAgree(s) && s.Client(c).POOLED?
    ensures IsAllowed(s, ExecuteDecide(c))
    ensures var POOLED(queued, pooled) := s.Client(c);
      && (Apply(s, ExecuteDecide(c)).Client(c).IDLE? <==> queued + |Working(s)| <= pooled)
      && (Apply(s, ExecuteDecide(c)).Client(c).WANTING? <==> queued + |Working(s)| > pooled)
  {
  }

  // ---- what an execute has seen ------------------------------------------------------------------

  predicate Steps(s: State, e: Event, s': State) {
    IsAllowed(s, e) && s' == Apply(s, e)
  }

  predicate StepsAt(states: seq<State>, events: seq<Event>, k: int) {
    0 <= k < |events| && k + 1 < |states| && Steps(states[k], events[k], states[k + 1])
  }

  /** The states a run goes through. */
  predicate IsTrace(states: seq<State>, events: seq<Event>) {
    |states| == |events| + 1 && forall k :: 0 <= k < |events| ==> StepsAt(states, events, k)
  }

  function Trace(s: State, events: seq<Event>): (states: seq<State>)
    requires IsRun(s, events)
    ensures |states| == |events| + 1 && states[0] == s
    decreases |events|
  {
    if events == [] then [s] else [s] + Trace(Apply(s, events[0]), events[1..])
  }

  lemma {:induction false} RunHasTrace(s: State, events: seq<Event>)
    requires IsRun(s, events)
    ensures IsTrace(Trace(s, events), events) && Trace(s, events)[|events|] == Run(s, events)
    decreases |events|
  {
    if events != [] {
      var rest := Trace(Apply(s, events[0]), events[1..]);
      RunHasTrace(Apply(s, events[0]), events[1..]);
      forall k | 0 <= k < |events| ensures StepsAt(Trace(s, events), events, k) {
        if k > 0 { assert StepsAt(rest, events[1..], k - 1); }
      }
    }
  }

  predicate Reaches(corePoolSize: int, maxPoolSize: int, events: seq<Event>, s: State) {
    && IsConfig(corePoolSize, maxPoolSize) && IsRun(Initial(corePoolSize, maxPoolSize), events)
    && Run(Initial(corePoolSize, maxPoolSize), events) == s
  }

  /** Some pool gets there. */
  ghost predicate IsReachable(s: State) {
    exists corePoolSize, maxPoolSize, events :: Reaches(corePoolSize, maxPoolSize, events, s)
  }

  lemma {:induction false} ReachableIsSound(s: State)
    requires IsReachable(s)
    ensures Inv(s) && CountersAgree(s)
  {
    var corePoolSize, maxPoolSize, events :| Reaches(corePoolSize, maxPoolSize, events, s);
    InitialInv(corePoolSize, maxPoolSize);
    RunKeepsInv(Initial(corePoolSize, maxPoolSize), events);
    CountersStayRight(Initial(corePoolSize, maxPoolSize), events);
  }

  lemma {:induction false} RunOneMore(s: State, events: seq<Event>, e: Event)
    requires IsRun(s, events) && IsAllowed(Run(s, events), e)
    ensures IsRun(s, events + [e]) && Run(s, events + [e]) == Apply(Run(s, events), e)
    decreases |events|
  {
    if events == [] {
      OneStepRun(s, e);
    } else {
      assert (events + [e])[0] == events[0] && (events + [e])[1..] == events[1..] + [e];
      RunOneMore(Apply(s, events[0]), events[1..], e);
    }
  }

  lemma {:induction false} OneStepRun(s: State, e: Event)
    requires IsAllowed(s, e)
    ensures IsRun(s, [] + [e]) && Run(s, [] + [e]) == Apply(s, e)
  {
    assert [] + [e] == [e] && [e][1..] == [];
    assert IsRun(Apply(s, e), []) && Run(Apply(s, e), []) == Apply(s, e);
  }

  lemma {:induction false} ReachableNext(s: State, e: Event)
    requires IsReachable(s) && IsAllowed(s, e)
    ensures IsReachable(Apply(s, e))
  {
    var corePoolSize, maxPoolSize, events :| Reaches(corePoolSize, maxPoolSize, events, s);
    RunOneMore(Initial(corePoolSize, maxPoolSize), events, e);
    assert Reaches(corePoolSize, maxPoolSize, events + [e], Apply(s, e));
  }

  lemma {:induction false} ReachableStep(states: seq<State>, events: seq<Event>, k: nat)
    requires IsTrace(states, events) && k < |events| && IsReachable(states[k])
    ensures IsReachable(states[k + 1])
  {
    assert StepsAt(states, events, k);
    ReachableNext(states[k], events[k]);
  }

  lemma {:induction false} TraceIsReachable(states: seq<State>, events: seq<Event>, k: nat)
    requires IsTrace(states, events) && IsReachable(states[0]) && k <= |events|
    ensures IsReachable(states[k])
    decreases k
  {
    if k > 0 {
      TraceIsReachable(states, events, k - 1);
      ReachableStep(states, events, k - 1);
    }
  }

  /** How a client comes to know a number. */
  lemma {:induction false} ClientLearns(s: State, e: Event, c: Cid)
    requires IsAllowed(s, e) && Apply(s, e).Client(c) != s.Client(c)
    ensures match Apply(s, e).Client(c)
      case COUNTED(queued) => queued == |s.queue|
      case POOLED(queued, pooled) => s.Client(c) == COUNTED(queued) && pooled == |s.threads|
      case SIZED(queued) => queued == |s.queue|
      case _ => true
  {
  }

  predicate QueueWas(states: seq<State>, i: nat, m: nat, queued: nat) {
    i < m < |states| && |states[i].queue| == queued
  }

  /** The number was the length of the queue at some moment since the push. */
  lemma {:induction false} CountWasSeen(states: seq<State>, events: seq<Event>, c: Cid, m: nat) returns (i: nat)
    requires IsTrace(states, events) && states[0].Client(c).PUSHED? && m <= |events|
    requires states[m].Client(c).COUNTED? || states[m].Client(c).SIZED?
    ensures QueueWas(states, i, m, states[m].Client(c).queued)
    decreases m
  {
    assert StepsAt(states, events, m - 1);
    if states[m].Client(c) == states[m - 1].Client(c) {
      i := CountWasSeen(states, events, c, m - 1);
    } else {
      ClientLearns(states[m - 1], events[m - 1], c);
      i := m - 1;
    }
  }

  lemma {:induction false} PoolWasSeen(states: seq<State>, events: seq<Event>, c: Cid, m: nat) returns (i: nat, j: nat)
    requires IsTrace(states, events) && states[0].Client(c).PUSHED? && m <= |events| && states[m].Client(c).POOLED?
    ensures i <= j < m && |states[i].queue| == states[m].Client(c).queued && |states[j].threads| == states[m].Client(c).pooled
    decreases m
  {
    assert StepsAt(states, events, m - 1);
    if states[m].Client(c) == states[m - 1].Client(c) {
      i, j := PoolWasSeen(states, events, c, m - 1);
    } else {
      ClientLearns(states[m - 1], events[m - 1], c);
      i := CountWasSeen(states, events, c, m - 1);
      j := m - 1;
    }
  }

  /** As many tasks were queued at moment i as threads of the table at moment j were free of the tasks run at moment k. */
  ghost predicate WasCovered(states: seq<State>, i: nat, j: nat, k: nat) {
    i <= j <= k < |states| && |states[i].queue| + |Working(states[k])| <= |states[j].threads|
  }

  predicate WasFull(states: seq<State>, k: nat) {
    k < |states| && |states[k].threads| == states[k].maxPoolSize
  }

  /** The last step returns from execute without having created a thread. */
  predicate ReturnsWithout(states: seq<State>, events: seq<Event>, c: Cid) {
    && |events| > 0 && |states| == |events| + 1 && states[|events|].Client(c).IDLE?
    && (events[|events| - 1] == ExecuteDecide(c) || events[|events| - 1] == ExtendDecline(c))
  }

  lemma {:induction false} DecideSees(s: State, c: Cid)
    requires IsReachable(s) && IsAllowed(s, ExecuteDecide(c)) && Apply(s, ExecuteDecide(c)).Client(c).IDLE?
    ensures s.Client(c).POOLED? && s.Client(c).queued + |Working(s)| <= s.Client(c).pooled
  {
    ReachableIsSound(s);
    ExecuteDecidesExactly(s, c);
  }

  lemma {:induction false} DeclineSees(s: State, c: Cid)
    requires IsReachable(s) && IsAllowed(s, ExtendDecline(c))
    ensures || |s.threads| == s.maxPoolSize
            || (s.Client(c).SIZED? && s.Client(c).queued + |Working(s)| <= |s.threads|)
  {
    ReachableIsSound(s);
    if s.Client(c).EXTENDING? {
      ExtendNeedsRoom(s, c);
    } else {
      IdleCount(s);
      ExtendDecidesExactly(s, c);
    }
  }

  /** The step that returns from execute, and the client after it. */
  lemma {:induction false} ReturningStep(states: seq<State>, events: seq<Event>, c: Cid)
    requires IsTrace(states, events) && ReturnsWithout(states, events, c)
    ensures var s, e := states[|events| - 1], events[|events| - 1];
      IsAllowed(s, e) && Apply(s, e).Client(c).IDLE?
  {
    assert StepsAt(states, events, |events| - 1);
  }

  /** An execute that returns without a new thread has seen enough idle ones, or a full table. */
  lemma {:induction false} ReturnHasSeen(states: seq<State>, events: seq<Event>, c: Cid)
    requires IsTrace(states, events) && IsReachable(states[0])
    requires states[0].Client(c).PUSHED? && ReturnsWithout(states, events, c)
    ensures (exists i, j, k: nat :: k < |events| && WasCovered(states, i, j, k)) ||
            (exists k: nat :: k < |events| && WasFull(states, k))
  {
    var k := |events| - 1;
    ReturningStep(states, events, c);
    TraceIsReachable(states, events, k);
    if events[k] == ExecuteDecide(c) {
      DecideSees(states[k], c);
      var i, j := PoolWasSeen(states, events, c, k);
      assert WasCovered(states, i, j, k);
    } else {
      DeclineSees(states[k], c);
      if |states[k].threads| == states[k].maxPoolSize {
        assert WasFull(states, k);
      } else {
        var i := CountWasSeen(states, events, c, k);
        assert WasCovered(states, i, k, k);
      }
    }
  }

  // ---- an empty table ------------------------------------------------------------------------------

  /** With no thread in the table nothing leaves the queue. */
  lemma {:induction false} QueueStays(s: State, e: Event)
    requires TableInv(s) && s.threads == map[] && IsAllowed(s, e)
    ensures |Apply(s, e).queue| >= |s.queue|
  {
    if e.WorkerPop? {
      assert false;
    }
  }

  lemma {:induction false} QueueStep(states: seq<State>, events: seq<Event>, k: nat)
    requires IsTrace(states, events) && k < |events| && IsReachable(states[k]) && states[k].threads == map[]
    ensures |states[k + 1].queue| >= |states[k].queue|
  {
    assert StepsAt(states, events, k);
    ReachableIsSound(states[k]);
    QueueStays(states[k], events[k]);
  }

  lemma {:induction false} TraceQueueStays(states: seq<State>, events: seq<Event>, k: nat)
    requires IsTrace(states, events) && IsReachable(states[0]) && k <= |events|
    requires forall l :: 0 <= l < k ==> states[l].threads == map[]
    ensures |states[k].queue| >= |states[0].queue|
    decreases k
  {
    if k > 0 {
      TraceQueueStays(states, events, k - 1);
      TraceIsReachable(states, events, k - 1);
      QueueStep(states, events, k - 1);
    }
  }

  lemma {:induction false} RunningStays(s: State, e: Event)
    requires SizeInv(s) && IsAllowed(s, e) && !s.phase.NEW?
    ensures !Apply(s, e).phase.NEW?
  {
  }

  lemma {:induction false} RunningStep(states: seq<State>, events: seq<Event>, k: nat)
    requires IsTrace(states, events) && k < |events| && IsReachable(states[k]) && !states[k].phase.NEW?
    ensures !states[k + 1].phase.NEW?
  {
    assert StepsAt(states, events, k);
    ReachableIsSound(states[k]);
    RunningStays(states[k], events[k]);
  }

  /** A client that has pushed does so in a pool that runs, or is shutting down. */
  lemma {:induction false} PushedIsRunning(s: State, c: Cid)
    requires SizeInv(s) && s.Client(c).PUSHED?
    ensures !s.phase.NEW?
  {
  }

  lemma {:induction false} TraceIsRunning(states: seq<State>, events: seq<Event>, c: Cid, k: nat)
    requires IsTrace(states, events) && IsReachable(states[0]) && k <= |events|
    requires states[0].Client(c).PUSHED?
    ensures !states[k].phase.NEW?
    decreases k
  {
    if k == 0 {
      ReachableIsSound(states[0]);
      PushedIsRunning(states[0], c);
    } else {
      TraceIsRunning(states, events, c, k - 1);
      TraceIsReachable(states, events, k - 1);
      RunningStep(states, events, k - 1);
    }
  }

  /** How an execute can return. */
  lemma {:induction false} ReturnSteps(s: State, e: Event, c: Cid)
    requires SizeInv(s) && IsAllowed(s, e) && !s.phase.NEW? && !s.Client(c).IDLE? && Apply(s, e).Client(c).IDLE?
    ensures e == ExecuteDecide(c) || e == ExtendDecline(c) || e == CreateInsert(c)
  {
  }

  /** An execute that pushed into a pool with an empty table returns only with a thread in it: its own, if no other came. */
  lemma {:induction false} EmptyTableGrows(states: seq<State>, events: seq<Event>, c: Cid)
    requires IsTrace(states, events) && IsReachable(states[0]) && |events| > 0
    requires states[0].Client(c).PUSHED? && states[0].queue != []
    requires !states[|events| - 1].Client(c).IDLE? && states[|events|].Client(c).IDLE?
    requires forall k :: 0 <= k < |events| ==> states[k].threads == map[]
    ensures events[|events| - 1] == CreateInsert(c) && states[|events|].threads != map[]
  {
    var n := |events| - 1;
    TraceIsReachable(states, events, n);
    TraceIsRunning(states, events, c, n);
    LastStep(states, events, c, n);
    if ReturnsWithout(states, events, c) {
      NotWithoutThread(states, events, c);
    }
  }

  lemma {:induction false} LastStep(states: seq<State>, events: seq<Event>, c: Cid, n: nat)
    requires IsTrace(states, events) && n < |events| && IsReachable(states[n]) && !states[n].phase.NEW?
    requires !states[n].Client(c).IDLE? && states[n + 1].Client(c).IDLE?
    ensures events[n] == ExecuteDecide(c) || events[n] == ExtendDecline(c) || events[n] == CreateInsert(c)
    ensures events[n] == CreateInsert(c) ==> states[n + 1].threads != map[]
  {
    assert StepsAt(states, events, n);
    ReachableIsSound(states[n]);
    ReturnSteps(states[n], events[n], c);
    if events[n] == CreateInsert(c) { InsertGrows(states[n], c); }
  }

  lemma {:induction false} NotWithoutThread(states: seq<State>, events: seq<Event>, c: Cid)
    requires IsTrace(states, events) && IsReachable(states[0]) && states[0].Client(c).PUSHED? && states[0].queue != []
    requires forall k :: 0 <= k < |events| ==> states[k].threads == map[]
    ensures !ReturnsWithout(states, events, c)
  {
    if ReturnsWithout(states, events, c) {
      ReturnHasSeen(states, events, c);
      if i, j, k: nat :| k < |events| && WasCovered(states, i, j, k) {
        TraceQueueStays(states, events, i);
      } else {
        var k: nat :| k < |events| && WasFull(states, k);
        TraceIsReachable(states, events, k);
        ReachableIsSound(states[k]);
      }
    }
  }

  lemma {:induction false} InsertGrows(s: State, c: Cid)
    requires IsAllowed(s, CreateInsert(c))
    ensures Apply(s, CreateInsert(c)).threads != map[]
  {
    assert s.Client(c).tid in Apply(s, CreateInsert(c)).threads;
  }

  lemma {:induction false} PushIsReachable(s: State, c: Cid)
    requires IsReachable(s) && s.Client(c).CHECKED?
    ensures var s1 := Apply(s, ExecutePush(c)); IsReachable(s1) && s1.Client(c).PUSHED? && s1.queue != []
  {
    ReachableNext(s, ExecutePush(c));
  }

  /** So over every run: between the push of an execute and its return some thread was in the table. */
  lemma {:induction false} EveryExecuteFindsAThread(s: State, events: seq<Event>, c: Cid)
    requires IsReachable(s) && s.Client(c).CHECKED? && IsRun(Apply(s, ExecutePush(c)), events)
    requires Run(Apply(s, ExecutePush(c)), events).Client(c).IDLE?
    ensures exists k :: 0 <= k <= |events| && Trace(Apply(s, ExecutePush(c)), events)[k].threads != map[]
  {
    var s1 := Apply(s, ExecutePush(c));
    PushIsReachable(s, c);
    RunHasTrace(s1, events);
    SomeMomentHasThread(Trace(s1, events), events, c);
  }

  lemma {:induction false} SomeMomentHasThread(states: seq<State>, events: seq<Event>, c: Cid)
    requires IsTrace(states, events) && IsReachable(states[0]) && states[0].Client(c).PUSHED? && states[0].queue != []
    requires states[|events|].Client(c).IDLE?
    ensures exists k :: 0 <= k <= |events| && states[k].threads != map[]
  {
    if forall k :: 0 <= k <= |events| ==> states[k].threads == map[] {
      var n := FirstIdle(states, c, |events|);
      IsTracePrefix(states, events, n);
      EmptyTableGrows(states[..n + 1], events[..n], c);
    }
  }

  lemma {:induction false} FirstIdle(states: seq<State>, c: Cid, m: nat) returns (n: nat)
    requires m < |states| && states[m].Client(c).IDLE? && !states[0].Client(c).IDLE?
    ensures 0 < n <= m && states[n].Client(c).IDLE? && !states[n - 1].Client(c).IDLE?
    decreases m
  {
    if states[m - 1].Client(c).IDLE? {
      n := FirstIdle(states, c, m - 1);
    } else {
      n := m;
    }
  }

  lemma {:induction false} IsTracePrefix(states: seq<State>, events: seq<Event>, n: nat)
    requires IsTrace(states, events) && n <= |events|
    ensures IsTrace(states[..n + 1], events[..n])
  {
    var before, done := states[..n + 1], events[..n];
    forall k | 0 <= k < n ensures StepsAt(before, done, k) {
      assert StepsAt(states, events, k);
    }
  }

  // ---- the threads init creates ------------------------------------------------------------------

  /** The pool starts running exactly when the core threads are all in the table at once. */
  lemma {:induction false} StartsFullExactly(s: State)
    requires Inv(s) && IsAllowed(s, InitTest)
    ensures Apply(s, InitTest).phase.RUNNING? <==> |s.threads| == s.corePoolSize
  {
  }

  /** While init is at work all threads are core threads. */
  ghost predicate OnlyCore(s: State) {
    s.phase.NEW? ==>
      && (forall t :: t in s.workers ==> s.workers[t].core)
      && (forall c :: c in s.clients && s.clients[c].CREATING? ==> s.clients[c].core)
      && s.queue == []
  }

  lemma {:induction false} StepKeepsOnlyCore(s: State, e: Event)
    requires SizeInv(s) && OnlyCore(s) && IsAllowed(s, e)
    ensures OnlyCore(Apply(s, e))
  {
    if IsWorkerStep(e) {
      if s.phase.NEW? { CoreStays(s, e); }
    } else {
      InitAddsCore(s, e);
    }
  }

  lemma {:induction false} InitAddsCore(s: State, e: Event)
    requires SizeInv(s) && OnlyCore(s) && IsAllowed(s, e) && !IsWorkerStep(e)
    ensures OnlyCore(Apply(s, e))
  {
    assert s.phase.NEW? ==> forall c :: c != 0 ==> s.Client(c).IDLE?;
  }

  lemma {:induction false} CoreStays(s: State, e: Event)
    requires IsAllowed(s, e) && IsWorkerStep(e) && forall t :: t in s.workers ==> s.workers[t].core
    ensures forall t :: t in Apply(s, e).workers ==> Apply(s, e).workers[t].core
    ensures Apply(s, e).clients == s.clients && (s.queue == [] ==> Apply(s, e).queue == [])
    ensures Apply(s, e).phase == s.phase
  {
  }

  lemma {:induction false} RunKeepsOnlyCore(s: State, events: seq<Event>)
    requires Inv(s) && OnlyCore(s) && IsRun(s, events)
    ensures OnlyCore(Run(s, events))
    decreases |events|
  {
    if events != [] {
      StepKeepsInv(s, events[0]);
      StepKeepsOnlyCore(s, events[0]);
      RunKeepsOnlyCore(Apply(s, events[0]), events[1..]);
    }
  }

  /** Over every run from the start: when init returns, corePoolSize core threads are in the table, and nothing else. */
  lemma {:induction false} EveryPoolStartsFull(corePoolSize: int, maxPoolSize: int, events: seq<Event>)
    requires IsConfig(corePoolSize, maxPoolSize) && IsRun(Initial(corePoolSize, maxPoolSize), events)
    requires var s := Run(Initial(corePoolSize, maxPoolSize), events);
      IsAllowed(s, InitTest) && Apply(s, InitTest).phase.RUNNING?
    ensures var s := Run(Initial(corePoolSize, maxPoolSize), events);
      |s.threads| == corePoolSize && forall t :: t in s.threads ==> s.threads[t]
  {
    var s0 := Initial(corePoolSize, maxPoolSize);
    InitialInv(corePoolSize, maxPoolSize);
    RunKeepsInv(s0, events);
    RunKeepsOnlyCore(s0, events);
    RunKeepsSizes(s0, events);
    StartsFullExactly(Run(s0, events));
  }

  lemma {:induction false} CoreSizeStays(s: State, e: Event)
    requires IsAllowed(s, e)
    ensures Apply(s, e).corePoolSize == s.corePoolSize
  {
  }

  lemma {:induction false} RunKeepsSizes(s: State, events: seq<Event>)
    requires IsRun(s, events)
    ensures Run(s, events).corePoolSize == s.corePoolSize
    decreases |events|
  {
    if events != [] {
      CoreSizeStays(s, events[0]);
      RunKeepsSizes(Apply(s, events[0]), events[1..]);
    }
  }

  // ---- core threads that leave before init is done -----------------------------------------------

  /** The pool can come to run without a thread in its table. */
  ghost predicate CanRunEmpty(s: State) {
    exists events :: IsRun(s, events) && Run(s, events).phase.RUNNING? && Run(s, events).threads == map[]
  }

  lemma {:induction false} EmptyLater(s: State, e: Event)
    requires IsAllowed(s, e) && CanRunEmpty(Apply(s, e))
    ensures CanRunEmpty(s)
  {
    var s1 := Apply(s, e);
    var events :| IsRun(s1, events) && Run(s1, events).phase.RUNNING? && Run(s1, events).threads == map[];
    assert ([e] + events)[1..] == events;
    assert IsRun(s, [e] + events) && Run(s, [e] + events) == Run(s1, events);
  }

  lemma {:induction false} EmptyNow(s: State)
    requires s.phase.RUNNING? && s.threads == map[]
    ensures CanRunEmpty(s)
  {
    assert IsRun(s, []) && Run(s, []) == s;
  }

  /** A thread on its way out of a running pool leaves the table. */
  lemma {:induction false} ThreadLeaves(s: State, t: Tid)
    requires s.lock.Free? && t in s.threads && s.At(t).EXITING?
    ensures CanRunEmpty(s.Move(t, GONE).(threads := s.threads - {t})) ==> CanRunEmpty(s)
  {
    if CanRunEmpty(s.Move(t, GONE).(threads := s.threads - {t})) {
      var s1 := Apply(s, WorkerExitLock(t));
      assert Apply(s1, WorkerErase(t)) == s.Move(t, GONE).(threads := s.threads - {t});
      EmptyLater(s1, WorkerErase(t));
      EmptyLater(s, WorkerExitLock(t));
    }
  }

  ghost predicate AllLeaving(s: State) {
    s.phase.RUNNING? && s.lock.Free? && forall t :: t in s.threads ==> s.At(t).EXITING?
  }

  lemma {:induction false} AllLeave(s: State)
    requires AllLeaving(s)
    ensures CanRunEmpty(s)
    decreases |s.threads|
  {
    if s.threads == map[] {
      EmptyNow(s);
    } else {
      var t :| t in s.threads;
      var s1 := s.Move(t, GONE).(threads := s.threads - {t});
      SmallerTable(s.threads, t);
      AllLeave(s1);
      ThreadLeaves(s, t);
    }
  }

  lemma {:induction false} SmallerTable(threads: map<Tid, bool>, t: Tid)
    requires t in threads
    ensures |threads - {t}| < |threads|
  {
    assert (threads - {t}).Keys == threads.Keys - {t};
    assert |threads - {t}| == |(threads - {t}).Keys| && |threads| == |threads.Keys|;
  }

  /** A core thread that polls while the pool is not running finds nothing, and leaves its loop. */
  lemma {:induction false} PollsAndLeaves(s: State, t: Tid)
    requires !s.phase.RUNNING? && s.queue == [] && s.At(t).LOOP?
    ensures CanRunEmpty(s.Move(t, EXITING)) ==> CanRunEmpty(s)
  {
    if CanRunEmpty(s.Move(t, EXITING)) {
      var s1 := Apply(s, WorkerPop(t));
      var s2 := Apply(s1, WorkerReadState(t));
      assert Apply(s2, WorkerReadSize(t)) == s.Move(t, EXITING);
      EmptyLater(s2, WorkerReadSize(t));
      EmptyLater(s1, WorkerReadState(t));
      EmptyLater(s, WorkerPop(t));
    }
  }

  /** The first n threads, all of them core threads. */
  function FirstThreads(n: nat): (r: map<Tid, bool>)
    ensures |r| == n && forall t :: t in r <==> 0 <= t < n
  {
    if n == 0 then map[] else FirstThreads(n - 1)[n - 1 := true]
  }

  function FirstLeaving(n: nat): (r: map<Tid, Worker>)
    ensures forall t :: t in r <==> 0 <= t < n
    ensures forall t :: t in r ==> r[t] == Worker(true, EXITING)
  {
    if n == 0 then map[] else FirstLeaving(n - 1)[n - 1 := Worker(true, EXITING)]
  }

  /** init has created n threads, and all of them are on their way out. */
  function Leaving(corePoolSize: int, maxPoolSize: int, n: nat): State {
    Initial(corePoolSize, maxPoolSize).(threads := FirstThreads(n), workers := FirstLeaving(n))
  }

  /** The next one has just been entered into the table. */
  function Entered(corePoolSize: int, maxPoolSize: int, n: nat): State {
    Leaving(corePoolSize, maxPoolSize, n).(
      threads := FirstThreads(n + 1), workers := FirstLeaving(n)[n := Worker(true, SPAWNED)])
  }

  lemma {:induction false} InitCreates(corePoolSize: int, maxPoolSize: int, n: nat)
    requires n < corePoolSize && CanRunEmpty(Entered(corePoolSize, maxPoolSize, n))
    ensures CanRunEmpty(Leaving(corePoolSize, maxPoolSize, n))
  {
    var s := Leaving(corePoolSize, maxPoolSize, n);
    var s1 := Apply(s, InitTest);
    var s2 := Apply(s1, InitLock);
    var s3 := Apply(s2, InitSpawn(n));
    assert s.clients[0 := INIT_WANT][0 := INIT_LOCKED][0 := CREATING(n, true)][0 := INIT_LOOP] == s.clients;
    assert Apply(s3, CreateInsert(0)) == Entered(corePoolSize, maxPoolSize, n);
    EmptyLater(s3, CreateInsert(0));
    EmptyLater(s2, InitSpawn(n));
    EmptyLater(s1, InitLock);
    EmptyLater(s, InitTest);
  }

  lemma {:induction false} EnteredLeaves(corePoolSize: int, maxPoolSize: int, n: nat)
    requires CanRunEmpty(Leaving(corePoolSize, maxPoolSize, n + 1))
    ensures CanRunEmpty(Entered(corePoolSize, maxPoolSize, n))
  {
    var s := Entered(corePoolSize, maxPoolSize, n);
    var s1 := Apply(s, WorkerLock(n));
    var s2 := Apply(s1, WorkerLookup(n));
    assert s2.Move(n, EXITING).workers == FirstLeaving(n + 1);
    assert s2.Move(n, EXITING) == Leaving(corePoolSize, maxPoolSize, n + 1);
    PollsAndLeaves(s2, n);
    EmptyLater(s1, WorkerLookup(n));
    EmptyLater(s, WorkerLock(n));
  }

  lemma {:induction false} LeavingCanRunEmpty(corePoolSize: int, maxPoolSize: int, n: nat)
    requires n <= corePoolSize
    ensures CanRunEmpty(Leaving(corePoolSize, maxPoolSize, n))
    decreases corePoolSize - n
  {
    if n < corePoolSize {
      LeavingCanRunEmpty(corePoolSize, maxPoolSize, n + 1);
      EnteredLeaves(corePoolSize, maxPoolSize, n);
      InitCreates(corePoolSize, maxPoolSize, n);
    } else {
      var s := Leaving(corePoolSize, maxPoolSize, n);
      AllLeave(Apply(s, InitTest));
      EmptyLater(s, InitTest);
    }
  }

  /**
   * The threads init created need not stay. One that polls before init is done sees a pool that is not running and an
   * empty queue, and leaves; init still finds it in the table. So every pool can come to run without a thread.
   */
  lemma {:induction false} EveryPoolCanRunEmpty(corePoolSize: int, maxPoolSize: int)
    requires IsConfig(corePoolSize, maxPoolSize)
    ensures CanRunEmpty(Initial(corePoolSize, maxPoolSize))
  {
    LeavingCanRunEmpty(corePoolSize, maxPoolSize, 0);
    assert Leaving(corePoolSize, maxPoolSize, 0) == Initial(corePoolSize, maxPoolSize);
  }
}
