/** Shutting the pool down: when every accepted task is sure to be done, and when one can be left behind. */
module ThreadPoolDrain {
  import opened Numbers
  import opened ThreadPool

  // ---- draining ----------------------------------------------------------------------------

  predicate HasNotLeft(pc: WorkerPc) {
    IsAlive(pc) && !pc.EXITING? && !pc.ERASING?
  }

  /** Core thread g has not left its loop. */
  predicate IsLooping(s: State, g: Tid) {
    g in s.workers && s.workers[g].core && HasNotLeft(s.workers[g].pc)
  }

  ghost predicate NoneInFlight(s: State) {
    forall c :: c in s.clients ==> !s.clients[c].CHECKED?
  }

  /** The pool is shutting down, nothing more can be queued, and g will not leave while something is. */
  ghost predicate IsGuarded(s: State, g: Tid) {
    s.phase.TERMINATING? && NoneInFlight(s) && (s.queue == [] || IsLooping(s, g))
  }

  lemma {:induction false} StepKeepsNoneInFlight(s: State, e: Event)
    requires IsAllowed(s, e) && SizeInv(s) && s.phase.TERMINATING? && NoneInFlight(s)
    ensures NoneInFlight(Apply(s, e)) && Apply(s, e).phase.TERMINATING?
    ensures s.queue == [] ==> Apply(s, e).queue == []
  {
  }

  lemma {:induction false} StepKeepsLooping(s: State, e: Event, g: Tid)
    requires IsAllowed(s, e) && LockInv(s) && TableInv(s) && s.phase.TERMINATING? && IsLooping(s, g)
    requires e.WorkerReadSize? ==> s.queue != []
    ensures IsLooping(Apply(s, e), g)
  {
    WorkersAfter(s, e);
    if MovesSomeWorker(e) && e.tid == g {
      LoopingMoves(s, e, g);
    }
  }

  /** No step of its own takes a core thread out of its loop while tasks are queued. */
  lemma {:induction false} LoopingMoves(s: State, e: Event, g: Tid)
    requires IsAllowed(s, e) && LockInv(s) && TableInv(s) && s.phase.TERMINATING? && IsLooping(s, g)
    requires (e.WorkerReadSize? ==> s.queue != []) && MovesSomeWorker(e) && e.tid == g
    ensures IsLooping(Apply(s, e), g)
  {
    if e.WorkerLookup? {
      LookupSucceeds(s, g);
      LookupMoves(s, g);
    } else if e.WorkerPop? || e.WorkerStart? || e.WorkerFinish? {
      TaskMoves(s, e);
    } else if e.WorkerReadState? || e.WorkerReadSize? {
      StopTestMoves(s, e);
    }
  }

  lemma {:induction false} LookupMoves(s: State, g: Tid)
    requires IsAllowed(s, WorkerLookup(g)) && g in s.threads
    ensures Apply(s, WorkerLookup(g)).workers == s.workers[g := Worker(s.workers[g].core, LOOP)]
  {
  }

  lemma {:induction false} TaskMoves(s: State, e: Event)
    requires IsAllowed(s, e) && (e.WorkerPop? || e.WorkerStart? || e.WorkerFinish?)
    ensures e.tid in s.workers && Apply(s, e).workers.Keys == s.workers.Keys
    ensures Apply(s, e).workers[e.tid].core == s.workers[e.tid].core && HasNotLeft(Apply(s, e).workers[e.tid].pc)
  {
  }

  lemma {:induction false} StopTestMoves(s: State, e: Event)
    requires IsAllowed(s, e) && (e.WorkerReadState? || e.WorkerReadSize?)
    ensures e.tid in s.workers && Apply(s, e).workers.Keys == s.workers.Keys
    ensures Apply(s, e).workers[e.tid].core == s.workers[e.tid].core
    ensures Apply(s, e).workers[e.tid].pc ==
            if e.WorkerReadState? then (if s.phase.RUNNING? then LOOP else SAW_STOP)
            else if s.queue == [] then EXITING else LOOP
  {
  }

  lemma {:induction false} StepKeepsGuard(s: State, e: Event, g: Tid)
    requires Inv(s) && IsAllowed(s, e) && IsGuarded(s, g)
    ensures IsGuarded(Apply(s, e), g)
  {
    StepKeepsNoneInFlight(s, e);
    if s.queue != [] {
      StepKeepsLooping(s, e, g);
    }
  }

  lemma {:induction false} RunKeepsGuard(s: State, events: seq<Event>, g: Tid)
    requires Inv(s) && IsRun(s, events) && IsGuarded(s, g)
    ensures IsGuarded(Run(s, events), g)
    decreases |events|
  {
    if events != [] {
      StepKeepsInv(s, events[0]);
      StepKeepsGuard(s, events[0], g);
      RunKeepsGuard(Apply(s, events[0]), events[1..], g);
    }
  }

  /** What await_termination waits for means that nothing is left to do. */
  lemma {:induction false} EmptyTableMeansDrained(s: State, g: Tid)
    requires Inv(s) && IsGuarded(s, g) && s.threads == map[]
    ensures forall task :: task in s.places ==> s.places[task].Done?
  {
    assert forall t :: t in s.workers && IsAlive(s.workers[t].pc) ==> s.workers[t] == Worker(false, SPAWNED) by {
      forall t | t in s.workers && IsAlive(s.workers[t].pc) ensures s.workers[t] == Worker(false, SPAWNED) {
        assert IsBeingCreated(s, t, s.lock.cid);
      }
    }
    assert !IsLooping(s, g);
    forall task | task in s.places ensures s.places[task].Done? {
      TaskIsInOnePlace(s, task);
    }
  }

  /**
   * shutdown followed by await_termination: if a core thread is still looping when shutdown is called
   * and no execute is between its check and its push, then however the run goes on, an empty
   * thread table means that every accepted task is done.
   */
  lemma {:induction false} ShutdownDrains(s: State, g: Tid, events: seq<Event>)
    requires Inv(s) && s.phase.RUNNING? && IsLooping(s, g) && NoneInFlight(s)
    requires IsRun(Apply(s, Shutdown), events) && Run(Apply(s, Shutdown), events).threads == map[]
    ensures var end := Run(Apply(s, Shutdown), events);
      && s.places.Keys <= end.places.Keys
      && forall task :: task in end.places ==> end.places[task].Done?
  {
    var s' := Apply(s, Shutdown);
    StepKeepsInv(s, Shutdown);
    RunKeepsInv(s', events);
    RunKeepsGuard(s', events, g);
    EmptyTableMeansDrained(Run(s', events), g);
    AcceptedStayAccepted(s', events);
  }

  lemma {:induction false} AcceptedStep(s: State, e: Event)
    requires IsAllowed(s, e)
    ensures s.places.Keys <= Apply(s, e).places.Keys
  {
  }

  lemma {:induction false} AcceptedStayAccepted(s: State, events: seq<Event>)
    requires IsRun(s, events)
    ensures s.places.Keys <= Run(s, events).places.Keys
    decreases |events|
  {
    if events != [] {
      AcceptedStep(s, events[0]);
      AcceptedStayAccepted(Apply(s, events[0]), events[1..]);
    }
  }

  // ---- when an accepted task can be left behind ---------------------------------------------

  /** await_termination would return, every execute has returned, yet an accepted task was never run. */
  predicate IsStranded(s: State) {
    && s.phase.TERMINATING? && s.threads == map[] && s.queue != []
    && forall c :: c in s.clients ==> s.clients[c].IDLE?
  }

  /** Nothing will ever run it: no step is possible any more. */
  lemma {:induction false} StrandedForGood(s: State, e: Event)
    requires Inv(s) && IsStranded(s)
    ensures !IsAllowed(s, e)
  {
    AllAreGone(s);
    if IsWorkerStep(e) {
      GoneCannot(s, e);
    } else {
      IdleCannot(s, e);
    }
  }

  lemma {:induction false} AllAreGone(s: State)
    requires TableInv(s) && IsStranded(s) && HolderInv(s)
    ensures forall t :: t in s.workers ==> s.workers[t].pc.GONE?
  {
  }

  lemma {:induction false} GoneCannot(s: State, e: Event)
    requires IsWorkerStep(e) && s.At(e.tid).GONE?
    ensures !IsAllowed(s, e)
  {
  }

  lemma {:induction false} IdleCannot(s: State, e: Event)
    requires s.phase.TERMINATING? && !IsWorkerStep(e) && forall c :: c in s.clients ==> s.clients[c].IDLE?
    ensures !IsAllowed(s, e)
  {
  }

  ghost predicate CanStrand(s: State) {
    exists events :: IsRun(s, events) && IsStranded(Run(s, events))
  }

  lemma {:induction false} StrandedAlready(s: State)
    requires IsStranded(s)
    ensures CanStrand(s)
  {
    assert IsRun(s, []) && IsStranded(Run(s, []));
  }

  lemma {:induction false} StepBefore(s: State, e: Event)
    requires IsAllowed(s, e) && CanStrand(Apply(s, e))
    ensures CanStrand(s)
  {
    var events :| IsRun(Apply(s, e), events) && IsStranded(Run(Apply(s, e), events));
    assert ([e] + events)[1..] == events;
    assert IsRun(s, [e] + events) && IsStranded(Run(s, [e] + events));
  }

  /** Nothing can be left behind once the drain is guarded, however the run goes on. */
  lemma {:induction false} GuardedCannotStrand(s: State, g: Tid)
    requires Inv(s) && IsGuarded(s, g)
    ensures !CanStrand(s)
  {
    forall events | IsRun(s, events) ensures !IsStranded(Run(s, events)) {
      RunKeepsInv(s, events);
      RunKeepsGuard(s, events, g);
      var end := Run(s, events);
      if end.queue != [] {
        QueuedIsNotDone(end);
      }
      if end.threads == map[] {
        EmptyTableMeansDrained(end, g);
      }
    }
  }

  lemma {:induction false} QueuedIsNotDone(s: State)
    requires QueueInv(s) && s.queue != []
    ensures exists task :: task in s.places && !s.places[task].Done?
  {
    assert s.queue[0] in s.queue;
  }

  // ---- driving the pool empty ----------------------------------------------------------------

  /** How many steps a client is from the return of its execute. */
  function ClientRank(pc: ClientPc): nat {
    match pc
    case CHECKED(_) => 8
    case PUSHED => 7
    case COUNTED(_) => 6
    case POOLED(_, _) => 5
    case WANTING => 4
    case EXTENDING => 3
    case SIZED(_) => 2
    case CREATING(_, _) => 1
    case _ => 0
  }

  ghost function ClientRanks(clients: map<Cid, ClientPc>): map<nat, nat> {
    map c | c in clients :: ClientRank(clients[c])
  }

  ghost function Outstanding(s: State): nat {
    Total(ClientRanks(s.clients))
  }

  /** How far a thread is from being gone; polling an empty queue is on the way out, a filled one is polled later. */
  function Rank(pc: WorkerPc, isEmpty: bool): nat {
    match pc
    case SPAWNED => 9
    case LOOKUP => 8
    case HOLDING(_) => 7
    case WORKING(_) => 6
    case AFTER_TASK => 5
    case SAW_STOP => 4
    case LOOP => if isEmpty then 7 else 3
    case EXITING => 2
    case ERASING => 1
    case GONE => 0
    case STUCK => 0
  }

  ghost function Ranks(workers: map<Tid, Worker>, isEmpty: bool): map<nat, nat> {
    map t | t in workers :: Rank(workers[t].pc, isEmpty)
  }

  /** What is left to do to get all threads out. */
  ghost function Distance(s: State): nat {
    Total(Ranks(s.workers, s.queue == []))
  }

  /** An execute is between its check and its push, or tasks are queued and no core thread is left to take them. */
  ghost predicate IsAtRisk(s: State) {
    !NoneInFlight(s) || (s.queue != [] && forall g :: !IsLooping(s, g))
  }

  /** The step the client inside the lock takes next on its way out. */
  ghost function WayOut(s: State, c: Cid): Event
    requires c in s.clients && (s.clients[c].EXTENDING? || s.clients[c].SIZED? || s.clients[c].CREATING?)
  {
    match s.clients[c]
    case EXTENDING => if HasRoom(s) then ExtendReadQueue(c) else ExtendDecline(c)
    case SIZED(queued) =>
      if WantsThread(s, queued) then ExtendSpawn(c, Above(s.workers.Keys + s.threads.Keys)) else ExtendDecline(c)
    case CREATING(_, _) => CreateInsert(c)
  }

  /** During shutdown only extend_thread is inside. */
  lemma {:induction false} InsideIsExtending(s: State)
    requires SizeInv(s) && HolderInv(s) && s.phase.TERMINATING? && s.lock.HeldByClient?
    ensures var c := s.lock.cid;
      c in s.clients && (s.clients[c].EXTENDING? || s.clients[c].SIZED? || s.clients[c].CREATING?)
  {
    assert !IsInit(s.clients[s.lock.cid]);
  }

  /** The client's execute gets closer to its return. */
  predicate MovesOn(s: State, s': State, c: Cid) {
    && c in s.clients && c in s'.clients && s'.clients == s.clients[c := s'.clients[c]]
    && ClientRank(s'.clients[c]) < ClientRank(s.clients[c])
  }

  ghost predicate IsClientStep(s: State, s': State, c: Cid) {
    MovesOn(s, s', c) && s'.phase.TERMINATING? && IsAtRisk(s')
  }

  lemma {:induction false} OutstandingFalls(s: State, s': State, c: Cid)
    requires IsClientStep(s, s', c)
    ensures Outstanding(s') < Outstanding(s)
  {
    var before, rank := ClientRanks(s.clients), ClientRank(s'.clients[c]);
    TotalMoves(before, c, rank);
    assert ClientRanks(s'.clients) == before[c := rank];
  }

  lemma {:induction false} WayOutMoves(s: State, c: Cid)
    requires s.lock == HeldByClient(c) && c in s.clients
    requires s.clients[c].EXTENDING? || s.clients[c].SIZED? || s.clients[c].CREATING?
    ensures IsAllowed(s, WayOut(s, c))
    ensures var s' := Apply(s, WayOut(s, c));
      && MovesOn(s, s', c) && s'.phase == s.phase && s'.queue == s.queue
      && forall g :: IsLooping(s', g) ==> IsLooping(s, g)
  {
    if s.clients[c].SIZED? && WantsThread(s, s.clients[c].queued) {
      SpawnMoves(s, c);
    }
  }

  /** The new thread is an ordinary one. */
  lemma {:induction false} SpawnMoves(s: State, c: Cid)
    requires c in s.clients && s.clients[c].SIZED? && WantsThread(s, s.clients[c].queued)
    ensures IsAllowed(s, WayOut(s, c))
    ensures var s' := Apply(s, WayOut(s, c));
      && MovesOn(s, s', c) && s'.phase == s.phase && s'.queue == s.queue
      && forall g :: IsLooping(s', g) ==> IsLooping(s, g)
  {
  }

  /** Inside the lock no core thread is added, and whoever is in flight stays so. */
  lemma {:induction false} WayOutLeads(s: State, c: Cid)
    requires s.lock == HeldByClient(c) && c in s.clients && s.phase.TERMINATING? && IsAtRisk(s)
    requires s.clients[c].EXTENDING? || s.clients[c].SIZED? || s.clients[c].CREATING?
    ensures IsAllowed(s, WayOut(s, c)) && IsClientStep(s, Apply(s, WayOut(s, c)), c)
  {
    WayOutMoves(s, c);
    OthersStayInFlight(s, Apply(s, WayOut(s, c)), c);
  }

  lemma {:induction false} OthersStayInFlight(s: State, s': State, c: Cid)
    requires MovesOn(s, s', c) && !s.clients[c].CHECKED?
    ensures !NoneInFlight(s) ==> !NoneInFlight(s')
  {
    if d :| d in s.clients && s.clients[d].CHECKED? {
      assert d in s'.clients && s'.clients[d].CHECKED?;
    }
  }

  /** Where an execute is outside the lock and not done. */
  predicate IsCalling(pc: ClientPc) {
    pc.CHECKED? || pc.PUSHED? || pc.COUNTED? || pc.POOLED? || pc.WANTING?
  }

  /** The step it takes next. */
  function NextCall(s: State, c: Cid): Event
    requires c in s.clients && IsCalling(s.clients[c])
  {
    match s.clients[c]
    case CHECKED(_) => ExecutePush(c)
    case PUSHED => ExecuteCount(c)
    case COUNTED(_) => ExecuteReadPool(c)
    case POOLED(_, _) => ExecuteDecide(c)
    case WANTING => ExtendLock(c)
  }

  lemma {:induction false} NextCallMoves(s: State, c: Cid)
    requires s.lock.Free? && c in s.clients && IsCalling(s.clients[c])
    ensures IsAllowed(s, NextCall(s, c))
    ensures var s' := Apply(s, NextCall(s, c));
      && MovesOn(s, s', c) && s'.phase == s.phase && s'.workers == s.workers
      && s'.queue == if s.clients[c].CHECKED? then s.queue + [s.clients[c].task] else s.queue
  {
  }

  lemma {:induction false} NextCallLeads(s: State, c: Cid)
    requires s.lock.Free? && s.phase.TERMINATING? && IsAtRisk(s) && c in s.clients && IsCalling(s.clients[c])
    requires forall t :: t in s.workers ==> !IsAlive(s.workers[t].pc)
    ensures IsAllowed(s, NextCall(s, c)) && IsClientStep(s, Apply(s, NextCall(s, c)), c)
  {
    var s' := Apply(s, NextCall(s, c));
    NextCallMoves(s, c);
    assert forall g :: !IsLooping(s', g);
    if !s.clients[c].CHECKED? {
      OthersStayInFlight(s, s', c);
    }
  }

  /** The step thread t takes next on its way out; a core thread in its loop polls, an ordinary one expires. */
  function NextStep(s: State, t: Tid): Event
    requires t in s.workers && IsAlive(s.workers[t].pc)
  {
    match s.workers[t].pc
    case SPAWNED => WorkerLock(t)
    case LOOKUP => WorkerLookup(t)
    case LOOP => if s.workers[t].core then WorkerPop(t) else WorkerExpire(t)
    case HOLDING(_) => WorkerStart(t)
    case WORKING(_) => WorkerFinish(t)
    case AFTER_TASK => WorkerReadState(t)
    case SAW_STOP => WorkerReadSize(t)
    case EXITING => WorkerExitLock(t)
    case ERASING => WorkerErase(t)
  }

  /** A thread that has the lock, or any live one when the lock is free, can take that step. */
  lemma {:induction false} NextStepIsAllowed(s: State, t: Tid)
    requires Inv(s) && t in s.workers && IsAlive(s.workers[t].pc)
    requires s.lock == HeldByWorker(t) || s.lock.Free?
    ensures IsAllowed(s, NextStep(s, t))
  {
    if UsesLock(s.workers[t].pc) {
      LockStepIsAllowed(s, t);
    } else {
      FreeStepIsAllowed(s, t);
    }
  }

  predicate UsesLock(pc: WorkerPc) {
    pc.SPAWNED? || pc.LOOKUP? || pc.EXITING? || pc.ERASING?
  }

  lemma {:induction false} LockStepIsAllowed(s: State, t: Tid)
    requires Inv(s) && t in s.workers && IsAlive(s.workers[t].pc) && UsesLock(s.workers[t].pc)
    requires s.lock == HeldByWorker(t) || s.lock.Free?
    ensures IsAllowed(s, NextStep(s, t))
  {
  }

  lemma {:induction false} FreeStepIsAllowed(s: State, t: Tid)
    requires Inv(s) && t in s.workers && IsAlive(s.workers[t].pc) && !UsesLock(s.workers[t].pc)
    requires s.lock == HeldByWorker(t) || s.lock.Free?
    ensures IsAllowed(s, NextStep(s, t))
  {
  }

  /** The thread's state after that step. */
  function NextPc(s: State, t: Tid): WorkerPc
    requires t in s.workers && IsAlive(s.workers[t].pc)
  {
    match s.workers[t].pc
    case SPAWNED => LOOKUP
    case LOOKUP => LOOP
    case LOOP => if !s.workers[t].core then EXITING else if s.queue == [] then AFTER_TASK else HOLDING(s.queue[0])
    case HOLDING(task) => WORKING(task)
    case WORKING(_) => AFTER_TASK
    case AFTER_TASK => if s.phase.RUNNING? then LOOP else SAW_STOP
    case SAW_STOP => if s.queue == [] then EXITING else LOOP
    case EXITING => ERASING
    case ERASING => GONE
  }

  predicate IsPolling(s: State, t: Tid) {
    t in s.workers && s.workers[t].pc.LOOP? && s.workers[t].core
  }

  ghost predicate StepsTo(s: State, s': State, t: Tid) {
    && t in s.workers && IsAlive(s.workers[t].pc)
    && s'.workers == s.workers[t := Worker(s.workers[t].core, NextPc(s, t))]
    && s'.clients == s.clients && s'.phase == s.phase
    && s'.queue == if IsPolling(s, t) && s.queue != [] then s.queue[1..] else s.queue
  }

  lemma {:induction false} LockStepEffect(s: State, t: Tid)
    requires LockInv(s) && TableInv(s) && t in s.workers && UsesLock(s.workers[t].pc)
    requires IsAllowed(s, NextStep(s, t))
    ensures StepsTo(s, Apply(s, NextStep(s, t)), t) && !Apply(s, NextStep(s, t)).lock.HeldByClient?
  {
    if s.workers[t].pc.LOOKUP? {
      LookupSucceeds(s, t);
    }
  }

  lemma {:induction false} LoopStepEffect(s: State, t: Tid)
    requires t in s.workers && IsAlive(s.workers[t].pc) && !UsesLock(s.workers[t].pc)
    requires IsAllowed(s, NextStep(s, t))
    ensures StepsTo(s, Apply(s, NextStep(s, t)), t) && Apply(s, NextStep(s, t)).lock == s.lock
  {
  }

  lemma {:induction false} StepsToRisk(s: State, s': State, t: Tid)
    requires StepsTo(s, s', t) && IsAtRisk(s)
    ensures IsAtRisk(s')
  {
    if !NoneInFlight(s) {
      var d :| d in s.clients && s.clients[d].CHECKED?;
      assert d in s'.clients && s'.clients[d].CHECKED?;
    } else {
      assert !IsLooping(s, t);
      forall g ensures !IsLooping(s', g) {
        assert !IsLooping(s, g);
      }
    }
  }

  /** Such a step shortens the queue or gets the thread closer to being gone. */
  lemma {:induction false} StepsToLower(s: State, s': State, t: Tid)
    requires StepsTo(s, s', t) && s.phase.TERMINATING?
    ensures |s'.queue| < |s.queue| || (s'.queue == s.queue && Distance(s') < Distance(s))
  {
    RanksMove(s.workers, t, Worker(s.workers[t].core, NextPc(s, t)), s.queue == []);
    if s'.queue == s.queue {
      RankFalls(s, t);
    }
  }

  lemma {:induction false} RanksMove(workers: map<Tid, Worker>, t: Tid, w: Worker, isEmpty: bool)
    requires t in workers
    ensures Total(Ranks(workers[t := w], isEmpty)) ==
            Total(Ranks(workers, isEmpty)) - Rank(workers[t].pc, isEmpty) + Rank(w.pc, isEmpty)
  {
    var before, rank := Ranks(workers, isEmpty), Rank(w.pc, isEmpty);
    TotalMoves(before, t, rank);
    assert Ranks(workers[t := w], isEmpty) == before[t := rank];
  }

  lemma {:induction false} RankFalls(s: State, t: Tid)
    requires t in s.workers && IsAlive(s.workers[t].pc) && s.phase.TERMINATING? && !(IsPolling(s, t) && s.queue != [])
    ensures Rank(NextPc(s, t), s.queue == []) < Rank(s.workers[t].pc, s.queue == [])
  {
  }

  /** While at risk, some way of going on leaves an accepted task behind. */
  lemma {:induction false} AtRiskStrands(s: State)
    requires Inv(s) && s.phase.TERMINATING? && IsAtRisk(s)
    ensures CanStrand(s)
    decreases Outstanding(s), |s.queue|, Distance(s), 1
  {
    if s.lock.HeldByClient? {
      InsideIsExtending(s);
      WayOutLeads(s, s.lock.cid);
      ClientLeaves(s, WayOut(s, s.lock.cid), s.lock.cid);
    } else if s.lock.HeldByWorker? {
      WorkerLeaves(s, s.lock.tid);
    } else if t :| t in s.workers && IsAlive(s.workers[t].pc) {
      WorkerLeaves(s, t);
    } else if c :| c in s.clients && IsCalling(s.clients[c]) {
      NextCallLeads(s, c);
      ClientLeaves(s, NextCall(s, c), c);
    } else {
      AllReturned(s);
      StrandedAlready(s);
    }
  }

  lemma {:induction false} AllReturned(s: State)
    requires Inv(s) && s.phase.TERMINATING? && IsAtRisk(s) && s.lock.Free?
    requires forall t :: t in s.workers ==> !IsAlive(s.workers[t].pc)
    requires forall c :: c in s.clients ==> !IsCalling(s.clients[c])
    ensures IsStranded(s)
  {
    forall c | c in s.clients ensures s.clients[c].IDLE? {
      assert !ClientNeedsLock(s.clients[c]) && !IsInit(s.clients[c]);
    }
    assert s.threads == map[];
  }

  lemma {:induction false} ClientLeaves(s: State, e: Event, c: Cid)
    requires Inv(s) && IsAllowed(s, e) && IsClientStep(s, Apply(s, e), c)
    ensures CanStrand(s)
    decreases Outstanding(s), |s.queue|, Distance(s), 0
  {
    StepKeepsInv(s, e);
    OutstandingFalls(s, Apply(s, e), c);
    AtRiskStrands(Apply(s, e));
    StepBefore(s, e);
  }

  lemma {:induction false} WorkerLeaves(s: State, t: Tid)
    requires Inv(s) && s.phase.TERMINATING? && IsAtRisk(s) && t in s.workers && IsAlive(s.workers[t].pc)
    requires s.lock == HeldByWorker(t) || s.lock.Free?
    ensures CanStrand(s)
    decreases Outstanding(s), |s.queue|, Distance(s), 0
  {
    var s1 := StepAtRisk(s, t);
    StepsToLower(s, s1, t);
    AtRiskStrands(s1);
  }

  lemma {:induction false} StepAtRisk(s: State, t: Tid) returns (s': State)
    requires Inv(s) && s.phase.TERMINATING? && IsAtRisk(s) && t in s.workers && IsAlive(s.workers[t].pc)
    requires s.lock == HeldByWorker(t) || s.lock.Free?
    ensures IsRiskStep(s, s', t) && (CanStrand(s') ==> CanStrand(s))
  {
    NextStepKeepsRisk(s, t);
    s' := Apply(s, NextStep(s, t));
    if CanStrand(s') {
      StepBefore(s, NextStep(s, t));
    }
  }

  ghost predicate IsRiskStep(s: State, s': State, t: Tid) {
    Inv(s') && s'.phase.TERMINATING? && IsAtRisk(s') && StepsTo(s, s', t)
  }

  lemma {:induction false} NextStepKeepsRisk(s: State, t: Tid)
    requires Inv(s) && s.phase.TERMINATING? && IsAtRisk(s) && t in s.workers && IsAlive(s.workers[t].pc)
    requires s.lock == HeldByWorker(t) || s.lock.Free?
    ensures IsAllowed(s, NextStep(s, t))
    ensures IsRiskStep(s, Apply(s, NextStep(s, t)), t)
  {
    NextStepIsAllowed(s, t);
    StepKeepsInv(s, NextStep(s, t));
    if UsesLock(s.workers[t].pc) {
      LockStepEffect(s, t);
    } else {
      LoopStepEffect(s, t);
    }
    StepsToRisk(s, Apply(s, NextStep(s, t)), t);
  }

  // ---- exactly when -------------------------------------------------------------------------

  /**
   * While the pool shuts down an accepted task can be left behind if and only if an execute is in flight,
   * or tasks are queued and every core thread has left its loop.
   */
  lemma {:induction false} StrandsExactly(s: State)
    requires Inv(s) && s.phase.TERMINATING?
    ensures CanStrand(s) <==> !NoneInFlight(s) || (s.queue != [] && forall g :: !IsLooping(s, g))
  {
    if IsAtRisk(s) {
      AtRiskStrands(s);
    } else if s.queue == [] {
      GuardedCannotStrand(s, 0);
    } else {
      var g :| IsLooping(s, g);
      GuardedCannotStrand(s, g);
    }
  }

  /** A running pool never rules it out: an execute may pass its check just before shutdown. */
  lemma {:induction false} RunningCanStrand(s: State)
    requires Inv(s) && s.phase.RUNNING?
    ensures CanStrand(s)
  {
    var c := Above(s.clients.Keys);
    var task := Above(s.places.Keys + PendingTasks(s));
    var s1 := Apply(s, ExecuteCheck(c, task));
    var s2 := Apply(s1, Shutdown);
    StepKeepsInv(s, ExecuteCheck(c, task));
    StepKeepsInv(s1, Shutdown);
    assert s2.clients[c].CHECKED?;
    AtRiskStrands(s2);
    StepBefore(s1, Shutdown);
    StepBefore(s, ExecuteCheck(c, task));
  }

  ghost function PendingTasks(s: State): set<Task> {
    set c | c in s.clients && s.clients[c].CHECKED? :: s.clients[c].task
  }

  /** How many steps init needs at most until it tests the number of threads again. */
  function InitRank(pc: ClientPc): nat {
    match pc
    case INIT_LOOP => 3
    case INIT_WANT => 2
    case INIT_LOCKED => 1
    case _ => 0
  }

  /** Nor does a pool that is not running yet: init can always get done. */
  lemma {:induction false} NewCanStrand(s: State)
    requires Inv(s) && s.phase.NEW?
    ensures CanStrand(s)
    decreases s.lock.HeldByWorker?, s.corePoolSize - |s.threads|, InitRank(s.Client(0))
  {
    if s.lock.HeldByWorker? {
      var s' := HolderLeaves(s);
      NewCanStrand(s');
    } else {
      var s' := InitStep(s);
      if s'.phase.NEW? {
        NewCanStrand(s');
      } else {
        RunningCanStrand(s');
      }
    }
  }

  lemma {:induction false} HolderLeaves(s: State) returns (s': State)
    requires Inv(s) && s.phase.NEW? && s.lock.HeldByWorker?
    ensures Inv(s') && s'.phase.NEW? && s'.lock.Free? && (CanStrand(s') ==> CanStrand(s))
  {
    var e := if s.workers[s.lock.tid].pc.LOOKUP? then WorkerLookup(s.lock.tid) else WorkerErase(s.lock.tid);
    if e.WorkerLookup? {
      LookupSucceeds(s, s.lock.tid);
    }
    s' := Apply(s, e);
    StepKeepsInv(s, e);
    if CanStrand(s') {
      StepBefore(s, e);
    }
  }

  /** The step init takes next. */
  ghost function InitNext(s: State): Event
    requires IsInit(s.Client(0))
  {
    match s.Client(0)
    case INIT_LOOP => InitTest
    case INIT_WANT => InitLock
    case INIT_LOCKED => InitSpawn(Above(s.workers.Keys + s.threads.Keys))
    case CREATING(_, _) => CreateInsert(0)
  }

  lemma {:induction false} InitNextIsAllowed(s: State)
    requires Inv(s) && s.phase.NEW? && !s.lock.HeldByWorker?
    ensures IsInit(s.Client(0)) && IsAllowed(s, InitNext(s))
  {
  }

  ghost predicate IsInitStep(s: State, s': State) {
    && !s'.lock.HeldByWorker? && s'.corePoolSize == s.corePoolSize
    && (s'.phase.RUNNING? || (s'.phase.NEW? && (|s'.threads| > |s.threads| ||
         (s'.threads == s.threads && InitRank(s'.Client(0)) < InitRank(s.Client(0))))))
  }

  lemma {:induction false} InitNextEffect(s: State)
    requires TableInv(s) && s.phase.NEW? && !s.lock.HeldByWorker? && IsInit(s.Client(0)) && 0 in s.clients
    requires IsAllowed(s, InitNext(s))
    ensures IsInitStep(s, Apply(s, InitNext(s)))
  {
    if s.clients[0].CREATING? {
      CoreInsertEffect(s);
    }
  }

  lemma {:induction false} CoreInsertEffect(s: State)
    requires TableInv(s) && s.phase.NEW? && 0 in s.clients && s.clients[0].CREATING? && s.clients[0].core
    ensures |Apply(s, CreateInsert(0)).threads| > |s.threads|
    ensures Apply(s, CreateInsert(0)).lock.Free? && Apply(s, CreateInsert(0)).phase.NEW?
    ensures Apply(s, CreateInsert(0)).corePoolSize == s.corePoolSize
  {
    var t := s.clients[0].tid;
    var threads := s.threads[t := true];
    assert IsBeingCreated(s, t, 0);
    assert threads.Keys == s.threads.Keys + {t};
    assert |threads| == |threads.Keys| && |s.threads| == |s.threads.Keys|;
  }

  lemma {:induction false} InitStep(s: State) returns (s': State)
    requires Inv(s) && s.phase.NEW? && !s.lock.HeldByWorker?
    ensures Inv(s') && IsInitStep(s, s') && (CanStrand(s') ==> CanStrand(s))
  {
    InitNextIsAllowed(s);
    InitNextEffect(s);
    s' := Apply(s, InitNext(s));
    StepKeepsInv(s, InitNext(s));
    if CanStrand(s') {
      StepBefore(s, InitNext(s));
    }
  }

  /**
   * In every interleaving of every pool: an accepted task can still be left behind if and only if
   * shutdown was not called yet, or an execute is in flight, or tasks are queued and no core thread
   * is left in its loop.
   */
  lemma {:induction false} EveryRunStrandsExactly(corePoolSize: int, maxPoolSize: int, events: seq<Event>)
    requires IsConfig(corePoolSize, maxPoolSize) && IsRun(Initial(corePoolSize, maxPoolSize), events)
    ensures var s := Run(Initial(corePoolSize, maxPoolSize), events);
      CanStrand(s) <==>
        !s.phase.TERMINATING? || !NoneInFlight(s) || (s.queue != [] && forall g :: !IsLooping(s, g))
  {
    var s0 := Initial(corePoolSize, maxPoolSize);
    InitialInv(corePoolSize, maxPoolSize);
    RunKeepsInv(s0, events);
    var s := Run(s0, events);
    match s.phase {
      case NEW => NewCanStrand(s);
      case RUNNING => RunningCanStrand(s);
      case TERMINATING => StrandsExactly(s);
    }
  }
}
