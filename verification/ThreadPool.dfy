/** The auto-growing thread pool: its shared fields, and every atomic step its threads and clients interleave. */
module ThreadPool {

  type Tid = nat
  type Cid = nat
  type Task = nat

  datatype Phase = NEW | RUNNING | TERMINATING

  /** Who holds the pool's lock. */
  datatype Holder = Free | HeldByWorker(tid: Tid) | HeldByClient(cid: Cid)

  /** Where a pool thread is in thread_func. STUCK: its lookup failed and it returned with the lock held. */
  datatype WorkerPc =
    | SPAWNED
    | LOOKUP
    | LOOP
    | HOLDING(task: Task)
    | WORKING(task: Task)
    | AFTER_TASK
    | SAW_STOP
    | EXITING
    | ERASING
    | GONE
    | STUCK

  datatype Worker = Worker(core: bool, pc: WorkerPc)

  /** Where a client is: client 0 runs init, the others call execute. */
  datatype ClientPc =
    | INIT_LOOP
    | INIT_WANT
    | INIT_LOCKED
    | IDLE
    | CHECKED(task: Task)
    | PUSHED
    | COUNTED(queued: nat)
    | POOLED(queued: nat, pooled: nat)
    | WANTING
    | EXTENDING
    | SIZED(queued: nat)
    | CREATING(tid: Tid, core: bool)

  /** Where an accepted task is. */
  datatype Place = Queued | InHand(tid: Tid) | Done

  datatype State = State(
    corePoolSize: int,
    maxPoolSize: int,
    phase: Phase,
    lock: Holder,
    threads: map<Tid, bool>,
    queue: seq<Task>,
    activeCount: int,
    taskCount: int,
    workers: map<Tid, Worker>,
    clients: map<Cid, ClientPc>,
    places: map<Task, Place>)
  {
    function Client(c: Cid): ClientPc {
      if c in clients then clients[c] else IDLE
    }

    function At(t: Tid): WorkerPc {
      if t in workers then workers[t].pc else GONE
    }

    function Move(t: Tid, pc: WorkerPc): State
      requires t in workers
    {
      this.(workers := workers[t := workers[t].(pc := pc)])
    }
  }

  /** init's checked arguments, before its first step. */
  function Initial(corePoolSize: int, maxPoolSize: int): State {
    State(corePoolSize, maxPoolSize, NEW, Free, map[], [], 0, 0, map[], map[0 := INIT_LOOP], map[])
  }

  predicate IsConfig(corePoolSize: int, maxPoolSize: int) {
    0 <= corePoolSize <= maxPoolSize && maxPoolSize > 0
  }

  datatype Event =
    | InitTest                       // threads_.size() < core_pool_size_, else the pool starts running
    | InitLock
    | InitSpawn(tid: Tid)
    | CreateInsert(cid: Cid)         // threads_[id] = data, and the lock is released
    | ExecuteCheck(cid: Cid, task: Task)
    | ExecutePush(cid: Cid)
    | ExecuteCount(cid: Cid)         // work_queue_->size()
    | ExecuteReadPool(cid: Cid)      // pool_size(), without the lock
    | ExecuteDecide(cid: Cid)        // active_count(), and the test
    | ExtendLock(cid: Cid)
    | ExtendReadQueue(cid: Cid)      // there is room for a thread; the queue's size is read
    | ExtendDecline(cid: Cid)
    | ExtendSpawn(cid: Cid, tid: Tid)
    | Shutdown
    | WorkerLock(tid: Tid)
    | WorkerLookup(tid: Tid)
    | WorkerExpire(tid: Tid)         // an ordinary thread's idle deadline has passed
    | WorkerPop(tid: Tid)
    | WorkerStart(tid: Tid)
    | WorkerFinish(tid: Tid)
    | WorkerReadState(tid: Tid)
    | WorkerReadSize(tid: Tid)
    | WorkerExitLock(tid: Tid)
    | WorkerErase(tid: Tid)

  predicate HasRoom(s: State) {
    |s.threads| < s.maxPoolSize
  }

  /** extend_thread creates a thread when more tasks were queued than threads are idle. */
  predicate WantsThread(s: State, queued: nat) {
    queued > |s.threads| - s.activeCount
  }

  /** execute calls extend_thread when more tasks were queued than threads looked idle. */
  predicate LooksShort(s: State, queued: nat, pooled: nat) {
    queued > pooled - s.activeCount
  }

  predicate CanSpawn(s: State, t: Tid) {
    s.At(t).GONE? && t !in s.threads
  }

  predicate IsAllowed(s: State, e: Event) {
    match e
    case InitTest => s.Client(0).INIT_LOOP?
    case InitLock => s.Client(0).INIT_WANT? && s.lock.Free?
    case InitSpawn(t) => s.Client(0).INIT_LOCKED? && CanSpawn(s, t)
    case CreateInsert(c) => s.Client(c).CREATING?
    case ExecuteCheck(c, task) => s.Client(c).IDLE? && s.phase.RUNNING? && task !in s.places && FreshTask(s, task)
    case ExecutePush(c) => s.Client(c).CHECKED?
    case ExecuteCount(c) => s.Client(c).PUSHED?
    case ExecuteReadPool(c) => s.Client(c).COUNTED?
    case ExecuteDecide(c) => s.Client(c).POOLED?
    case ExtendLock(c) => s.Client(c).WANTING? && s.lock.Free?
    case ExtendReadQueue(c) => s.Client(c).EXTENDING? && HasRoom(s)
    case ExtendDecline(c) =>
      || (s.Client(c).EXTENDING? && !HasRoom(s))
      || (s.Client(c).SIZED? && !WantsThread(s, s.Client(c).queued))
    case ExtendSpawn(c, t) => s.Client(c).SIZED? && WantsThread(s, s.Client(c).queued) && CanSpawn(s, t)
    case Shutdown => s.phase.RUNNING?
    case WorkerLock(t) => s.At(t).SPAWNED? && s.lock.Free?
    case WorkerLookup(t) => s.At(t).LOOKUP?
    case WorkerExpire(t) => s.At(t).LOOP? && !s.workers[t].core
    case WorkerPop(t) => s.At(t).LOOP?
    case WorkerStart(t) => s.At(t).HOLDING?
    case WorkerFinish(t) => s.At(t).WORKING?
    case WorkerReadState(t) => s.At(t).AFTER_TASK?
    case WorkerReadSize(t) => s.At(t).SAW_STOP?
    case WorkerExitLock(t) => s.At(t).EXITING? && s.lock.Free?
    case WorkerErase(t) => s.At(t).ERASING?
  }

  /** Every call brings a task object of its own. */
  predicate FreshTask(s: State, task: Task) {
    forall c :: c in s.clients ==> s.clients[c] != CHECKED(task)
  }

  function Apply(s: State, e: Event): State
    requires IsAllowed(s, e)
  {
    match e
    case InitTest =>
      if |s.threads| < s.corePoolSize then s.(clients := s.clients[0 := INIT_WANT])
      else s.(clients := s.clients[0 := IDLE], phase := RUNNING)
    case InitLock => s.(clients := s.clients[0 := INIT_LOCKED], lock := HeldByClient(0))
    case InitSpawn(t) =>
      s.(clients := s.clients[0 := CREATING(t, true)], workers := s.workers[t := Worker(true, SPAWNED)])
    case CreateInsert(c) =>
      var CREATING(t, core) := s.Client(c);
      s.(clients := s.clients[c := if core then INIT_LOOP else IDLE], threads := s.threads[t := core],
         lock := Free)
    case ExecuteCheck(c, task) => s.(clients := s.clients[c := CHECKED(task)])
    case ExecutePush(c) =>
      var task := s.Client(c).task;
      s.(clients := s.clients[c := PUSHED], queue := s.queue + [task], places := s.places[task := Queued])
    case ExecuteCount(c) => s.(clients := s.clients[c := COUNTED(|s.queue|)])
    case ExecuteReadPool(c) => s.(clients := s.clients[c := POOLED(s.Client(c).queued, |s.threads|)])
    case ExecuteDecide(c) =>
      var POOLED(queued, pooled) := s.Client(c);
      s.(clients := s.clients[c := if LooksShort(s, queued, pooled) then WANTING else IDLE])
    case ExtendLock(c) => s.(clients := s.clients[c := EXTENDING], lock := HeldByClient(c))
    case ExtendReadQueue(c) => s.(clients := s.clients[c := SIZED(|s.queue|)])
    case ExtendDecline(c) => s.(clients := s.clients[c := IDLE], lock := Free)
    case ExtendSpawn(c, t) =>
      s.(clients := s.clients[c := CREATING(t, false)], workers := s.workers[t := Worker(false, SPAWNED)])
    case Shutdown => s.(phase := TERMINATING)
    case WorkerLock(t) => s.Move(t, LOOKUP).(lock := HeldByWorker(t))
    case WorkerLookup(t) => if t in s.threads then s.Move(t, LOOP).(lock := Free) else s.Move(t, STUCK)
    case WorkerExpire(t) => s.Move(t, EXITING)
    case WorkerPop(t) =>
      if s.queue == [] then s.Move(t, AFTER_TASK)
      else
        var task := s.queue[0];
        s.Move(t, HOLDING(task)).(queue := s.queue[1..], places := s.places[task := InHand(t)])
    case WorkerStart(t) => s.Move(t, WORKING(s.At(t).task)).(activeCount := s.activeCount + 1)
    case WorkerFinish(t) =>
      s.Move(t, AFTER_TASK).(activeCount := s.activeCount - 1, taskCount := s.taskCount + 1,
                             places := s.places[s.At(t).task := Done])
    case WorkerReadState(t) => s.Move(t, if s.phase.RUNNING? then LOOP else SAW_STOP)
    case WorkerReadSize(t) => s.Move(t, if s.queue == [] then EXITING else LOOP)
    case WorkerExitLock(t) => s.Move(t, ERASING).(lock := HeldByWorker(t))
    case WorkerErase(t) => s.Move(t, GONE).(threads := s.threads - {t}, lock := Free)
  }

  // ---- what every step keeps ---------------------------------------------------------------

  predicate NeedsLock(pc: WorkerPc) {
    pc.LOOKUP? || pc.ERASING?
  }

  predicate ClientNeedsLock(pc: ClientPc) {
    pc.INIT_LOCKED? || pc.EXTENDING? || pc.SIZED? || pc.CREATING?
  }

  /** The lock protects what it should: at most one thread is inside. */
  ghost predicate LockInv(s: State) {
    && (forall t :: t in s.workers && NeedsLock(s.workers[t].pc) ==> s.lock == HeldByWorker(t))
    && (forall c :: c in s.clients && ClientNeedsLock(s.clients[c]) ==> s.lock == HeldByClient(c))
  }

  predicate IsAlive(pc: WorkerPc) {
    !pc.GONE? && !pc.STUCK?
  }

  /** Thread t is spawned, and client c, who has the lock, is about to enter it into the table. */
  predicate IsBeingCreated(s: State, t: Tid, c: Cid) {
    && c in s.clients && s.clients[c].CREATING? && s.clients[c].tid == t
    && t in s.workers && s.workers[t] == Worker(s.clients[c].core, SPAWNED)
    && t !in s.threads
  }

  /** The thread table lists the live threads, except one that is being created. */
  ghost predicate TableInv(s: State) {
    && (forall t :: t in s.threads ==>
          t in s.workers && IsAlive(s.workers[t].pc) && s.workers[t].core == s.threads[t])
    && (forall t :: t in s.workers && IsAlive(s.workers[t].pc) && t !in s.threads ==>
          s.lock.HeldByClient? && IsBeingCreated(s, t, s.lock.cid))
    && (forall c :: c in s.clients && s.clients[c].CREATING? ==> IsBeingCreated(s, s.clients[c].tid, c))
    && (forall t :: t in s.workers ==> !s.workers[t].pc.STUCK?)
  }

  predicate IsInit(pc: ClientPc) {
    pc.INIT_LOOP? || pc.INIT_WANT? || pc.INIT_LOCKED? || (pc.CREATING? && pc.core)
  }

  /** Room for the thread about to be created was checked, and cannot have been taken since. */
  ghost predicate SizeInv(s: State) {
    && IsConfig(s.corePoolSize, s.maxPoolSize)
    && |s.threads| <= s.maxPoolSize
    && 0 in s.clients
    && (s.phase.NEW? <==> IsInit(s.clients[0]))
    && (s.phase.NEW? ==> |s.threads| <= s.corePoolSize)
    && (IsInit(s.clients[0]) && !s.clients[0].INIT_LOOP? ==> |s.threads| < s.corePoolSize)
    && (forall c :: c in s.clients && c != 0 ==> !IsInit(s.clients[c]) && (s.phase.NEW? ==> s.clients[c].IDLE?))
    && (forall c :: c in s.clients && (s.clients[c].SIZED? || s.clients[c].CREATING?) ==> HasRoom(s))
  }

  predicate Holds(pc: WorkerPc, task: Task) {
    pc == HOLDING(task) || pc == WORKING(task)
  }

  /** The queue holds exactly the tasks recorded as queued, each once. */
  ghost predicate QueueInv(s: State) {
    && (forall i, j :: 0 <= i < j < |s.queue| ==> s.queue[i] != s.queue[j])
    && (forall task :: task in s.queue <==> task in s.places && s.places[task].Queued?)
  }

  /** A thread has exactly the task recorded as in its hands. */
  ghost predicate HandInv(s: State) {
    && (forall t, task :: t in s.workers && Holds(s.workers[t].pc, task) ==>
          task in s.places && s.places[task] == InHand(t))
    && (forall task :: task in s.places && s.places[task].InHand? ==>
          var t := s.places[task].tid; t in s.workers && Holds(s.workers[t].pc, task))
  }

  /** Tasks on their way into the queue are not accepted yet, and are different. */
  ghost predicate CheckedInv(s: State) {
    && (forall c :: c in s.clients && s.clients[c].CHECKED? ==> s.clients[c].task !in s.places)
    && (forall c, d :: c in s.clients && d in s.clients && s.clients[c].CHECKED? && s.clients[c] == s.clients[d] ==> c == d)
  }

  ghost predicate Consistent(s: State) {
    LockInv(s) && TableInv(s) && SizeInv(s) && QueueInv(s) && HandInv(s) && CheckedInv(s)
  }

  /** Whoever has the lock is inside. */
  ghost predicate HolderInv(s: State) {
    match s.lock
    case Free => true
    case HeldByWorker(t) => t in s.workers && NeedsLock(s.workers[t].pc)
    case HeldByClient(c) => c in s.clients && ClientNeedsLock(s.clients[c])
  }

  ghost predicate Inv(s: State) {
    Consistent(s) && HolderInv(s)
  }

  // ---- frames: one worker or one client moves ----------------------------------------------

  /** s' is s with worker t moved to pc and possibly the tasks moved about; the table side is untouched. */
  predicate MovesWorker(s: State, s': State, t: Tid, pc: WorkerPc) {
    && t in s.workers
    && s'.workers == s.workers[t := s.workers[t].(pc := pc)]
    && s'.clients == s.clients && s'.phase == s.phase
    && s'.corePoolSize == s.corePoolSize && s'.maxPoolSize == s.maxPoolSize
  }

  predicate MovesClient(s: State, s': State, c: Cid, pc: ClientPc) {
    && s'.clients == s.clients[c := pc] && s'.workers == s.workers && s'.phase == s.phase
    && s'.corePoolSize == s.corePoolSize && s'.maxPoolSize == s.maxPoolSize
  }

  predicate IsInside(pc: WorkerPc) {
    IsAlive(pc) && !pc.SPAWNED?
  }

  lemma {:induction false} QuietWorkerTable(s: State, s': State, t: Tid, pc: WorkerPc)
    requires LockInv(s) && TableInv(s) && SizeInv(s) && MovesWorker(s, s', t, pc)
    requires s'.lock == s.lock && s'.threads == s.threads
    requires IsInside(pc) && IsInside(s.workers[t].pc) && !NeedsLock(pc)
    ensures LockInv(s') && TableInv(s') && SizeInv(s')
  {
    assert LockInv(s') && SizeInv(s');
    QuietWorkerListed(s, s', t, pc);
  }

  lemma {:induction false} QuietWorkerListed(s: State, s': State, t: Tid, pc: WorkerPc)
    requires TableInv(s) && MovesWorker(s, s', t, pc)
    requires s'.lock == s.lock && s'.threads == s.threads
    requires IsInside(pc) && IsInside(s.workers[t].pc)
    ensures TableInv(s')
  {
  }

  lemma {:induction false} WorkerTakesLock(s: State, s': State, t: Tid, pc: WorkerPc)
    requires LockInv(s) && TableInv(s) && SizeInv(s) && MovesWorker(s, s', t, pc)
    requires s.lock.Free? && s'.lock == HeldByWorker(t) && s'.threads == s.threads
    requires IsAlive(pc) && IsAlive(s.workers[t].pc) && !pc.SPAWNED?
    ensures LockInv(s') && TableInv(s') && SizeInv(s')
  {
  }

  lemma {:induction false} WorkerKeepsTasks(s: State, s': State, t: Tid, pc: WorkerPc)
    requires QueueInv(s) && HandInv(s) && CheckedInv(s) && MovesWorker(s, s', t, pc)
    requires s'.queue == s.queue && s'.places == s.places
    requires forall task :: Holds(pc, task) == Holds(s.workers[t].pc, task)
    ensures QueueInv(s') && HandInv(s') && CheckedInv(s')
  {
  }

  lemma {:induction false} QuietClientTable(s: State, s': State, c: Cid, pc: ClientPc)
    requires LockInv(s) && TableInv(s) && SizeInv(s) && MovesClient(s, s', c, pc)
    requires s'.lock == s.lock && s'.threads == s.threads && !s.phase.NEW?
    requires !ClientNeedsLock(pc) && !IsInit(pc)
    requires c in s.clients ==> !ClientNeedsLock(s.clients[c])
    ensures LockInv(s') && TableInv(s') && SizeInv(s')
  {
  }

  lemma {:induction false} ClientKeepsTasks(s: State, s': State, c: Cid, pc: ClientPc)
    requires QueueInv(s) && HandInv(s) && CheckedInv(s)
    requires s'.clients == s.clients[c := pc] && s'.workers == s.workers
    requires s'.queue == s.queue && s'.places == s.places && !pc.CHECKED?
    ensures QueueInv(s') && HandInv(s') && CheckedInv(s')
  {
  }

  // ---- one lemma for each kind of step -----------------------------------------------------

  lemma {:induction false} QuietWorkerMove(s: State, s': State, t: Tid, pc: WorkerPc)
    requires Consistent(s) && MovesWorker(s, s', t, pc)
    requires s'.lock == s.lock && s'.threads == s.threads && s'.queue == s.queue && s'.places == s.places
    requires IsInside(pc) && IsInside(s.workers[t].pc) && !NeedsLock(pc)
    requires forall task :: Holds(pc, task) == Holds(s.workers[t].pc, task)
    ensures Consistent(s')
  {
    QuietWorkerTable(s, s', t, pc);
    WorkerKeepsTasks(s, s', t, pc);
  }

  lemma {:induction false} QuietWorkerStep(s: State, e: Event)
    requires Consistent(s) && IsAllowed(s, e)
    requires e.WorkerExpire? || e.WorkerStart?
    ensures Consistent(Apply(s, e))
  {
    QuietWorkerMove(s, Apply(s, e), e.tid, if e.WorkerExpire? then EXITING else WORKING(s.At(e.tid).task));
  }

  lemma {:induction false} StopTestStep(s: State, e: Event)
    requires Consistent(s) && IsAllowed(s, e)
    requires e.WorkerReadState? || e.WorkerReadSize?
    ensures Consistent(Apply(s, e))
  {
    QuietWorkerMove(s, Apply(s, e), e.tid, Apply(s, e).workers[e.tid].pc);
  }

  lemma {:induction false} LockingWorkerStep(s: State, e: Event)
    requires Consistent(s) && IsAllowed(s, e)
    requires e.WorkerLock? || e.WorkerExitLock?
    ensures Consistent(Apply(s, e))
  {
    LockingMove(s, Apply(s, e), e.tid, if e.WorkerLock? then LOOKUP else ERASING);
  }

  lemma {:induction false} LockingMove(s: State, s': State, t: Tid, pc: WorkerPc)
    requires Consistent(s) && MovesWorker(s, s', t, pc) && s.lock.Free? && s'.lock == HeldByWorker(t)
    requires s'.threads == s.threads && s'.queue == s.queue && s'.places == s.places
    requires (s.workers[t].pc.SPAWNED? || s.workers[t].pc.EXITING?) && NeedsLock(pc)
    ensures Consistent(s')
  {
    WorkerTakesLock(s, s', t, pc);
    WorkerKeepsTasks(s, s', t, pc);
  }

  /** The lookup at the head of thread_func cannot fail. */
  lemma {:induction false} LookupSucceeds(s: State, t: Tid)
    requires LockInv(s) && TableInv(s) && s.At(t).LOOKUP?
    ensures t in s.threads
  {
  }

  lemma {:induction false} WorkerLookupStep(s: State, t: Tid)
    requires Consistent(s) && IsAllowed(s, WorkerLookup(t))
    ensures Consistent(Apply(s, WorkerLookup(t)))
  {
    var s' := Apply(s, WorkerLookup(t));
    LookupSucceeds(s, t);
    assert LockInv(s') && SizeInv(s');
    assert TableInv(s');
    WorkerKeepsTasks(s, s', t, LOOP);
  }

  lemma {:induction false} EraseTable(s: State, s': State, t: Tid)
    requires LockInv(s) && TableInv(s) && MovesWorker(s, s', t, GONE)
    requires s.workers[t].pc.ERASING? && s'.threads == s.threads - {t} && s'.lock.Free?
    ensures LockInv(s') && TableInv(s')
  {
  }

  lemma {:induction false} EraseSize(s: State, s': State, t: Tid)
    requires LockInv(s) && SizeInv(s) && MovesWorker(s, s', t, GONE)
    requires s.workers[t].pc.ERASING? && s'.threads == s.threads - {t}
    ensures SizeInv(s')
  {
    assert s'.threads.Keys == s.threads.Keys - {t};
    assert |s'.threads| == |s'.threads.Keys| && |s.threads| == |s.threads.Keys|;
  }

  lemma {:induction false} WorkerEraseStep(s: State, t: Tid)
    requires Consistent(s) && IsAllowed(s, WorkerErase(t))
    ensures Consistent(Apply(s, WorkerErase(t)))
  {
    EraseKeepsConsistent(s, Apply(s, WorkerErase(t)), t);
  }

  lemma {:induction false} EraseKeepsConsistent(s: State, s': State, t: Tid)
    requires Consistent(s) && MovesWorker(s, s', t, GONE) && s.workers[t].pc.ERASING?
    requires s'.threads == s.threads - {t} && s'.lock.Free? && s'.queue == s.queue && s'.places == s.places
    ensures Consistent(s')
  {
    EraseTable(s, s', t);
    EraseSize(s, s', t);
    WorkerKeepsTasks(s, s', t, GONE);
  }

  lemma {:induction false} PopQueue(s: State, s': State, t: Tid)
    requires QueueInv(s) && s.queue != []
    requires s'.queue == s.queue[1..] && s'.places == s.places[s.queue[0] := InHand(t)]
    ensures QueueInv(s')
  {
    forall task ensures task in s'.queue <==> task in s'.places && s'.places[task].Queued? {
      if task == s.queue[0] {
        assert task !in s'.queue;
      } else {
        assert task in s.queue <==> task in s'.queue;
      }
    }
  }

  lemma {:induction false} PopHand(s: State, s': State, t: Tid)
    requires QueueInv(s) && HandInv(s) && CheckedInv(s) && s.queue != []
    requires MovesWorker(s, s', t, HOLDING(s.queue[0])) && s.workers[t].pc.LOOP?
    requires s'.places == s.places[s.queue[0] := InHand(t)]
    ensures HandInv(s') && CheckedInv(s')
  {
    assert s.queue[0] in s.queue;
  }

  lemma {:induction false} WorkerPopStep(s: State, t: Tid)
    requires Consistent(s) && IsAllowed(s, WorkerPop(t))
    ensures Consistent(Apply(s, WorkerPop(t)))
  {
    var s' := Apply(s, WorkerPop(t));
    QuietWorkerTable(s, s', t, s'.workers[t].pc);
    if s.queue == [] {
      WorkerKeepsTasks(s, s', t, AFTER_TASK);
    } else {
      PopQueue(s, s', t);
      PopHand(s, s', t);
    }
  }

  lemma {:induction false} FinishTasks(s: State, s': State, t: Tid)
    requires QueueInv(s) && HandInv(s) && CheckedInv(s)
    requires MovesWorker(s, s', t, AFTER_TASK) && s.workers[t].pc.WORKING?
    requires s'.queue == s.queue && s'.places == s.places[s.workers[t].pc.task := Done]
    ensures QueueInv(s') && HandInv(s') && CheckedInv(s')
  {
    assert Holds(s.workers[t].pc, s.workers[t].pc.task);
    FinishHands(s, s', t);
  }

  lemma {:induction false} FinishHands(s: State, s': State, t: Tid)
    requires HandInv(s) && MovesWorker(s, s', t, AFTER_TASK) && s.workers[t].pc.WORKING?
    requires s'.places == s.places[s.workers[t].pc.task := Done]
    ensures HandInv(s')
  {
    var finished := s.workers[t].pc.task;
    assert Holds(s.workers[t].pc, finished);
    forall u, task | u in s'.workers && Holds(s'.workers[u].pc, task)
      ensures task in s'.places && s'.places[task] == InHand(u)
    {
      assert u != t && Holds(s.workers[u].pc, task);
      assert s.places[task] == InHand(u) && s.places[finished] == InHand(t);
    }
    forall task | task in s'.places && s'.places[task].InHand?
      ensures var u := s'.places[task].tid; u in s'.workers && Holds(s'.workers[u].pc, task)
    {
      var u := s.places[task].tid;
      assert task != finished && Holds(s.workers[u].pc, task);
    }
  }

  lemma {:induction false} WorkerFinishStep(s: State, t: Tid)
    requires Consistent(s) && IsAllowed(s, WorkerFinish(t))
    ensures Consistent(Apply(s, WorkerFinish(t)))
  {
    var s' := Apply(s, WorkerFinish(t));
    QuietWorkerTable(s, s', t, AFTER_TASK);
    FinishTasks(s, s', t);
  }

  predicate IsReading(e: Event) {
    e.ExecuteCount? || e.ExecuteReadPool? || e.ExecuteDecide?
  }

  /** What a reading step of execute leaves in the client. */
  function AfterReading(s: State, e: Event): ClientPc
    requires IsAllowed(s, e) && IsReading(e)
  {
    Apply(s, e).Client(e.cid)
  }

  lemma {:induction false} ReadingMoves(s: State, e: Event)
    requires IsAllowed(s, e) && IsReading(e)
    ensures var s', pc := Apply(s, e), AfterReading(s, e);
      && MovesClient(s, s', e.cid, pc) && s'.lock == s.lock && s'.threads == s.threads
      && s'.queue == s.queue && s'.places == s.places && (pc.COUNTED? || pc.POOLED? || pc.WANTING? || pc.IDLE?)
      && e.cid in s.clients && (s.clients[e.cid].PUSHED? || s.clients[e.cid].COUNTED? || s.clients[e.cid].POOLED?)
  {
  }

  lemma {:induction false} ReadingStep(s: State, e: Event)
    requires Consistent(s) && IsAllowed(s, e) && IsReading(e)
    ensures Consistent(Apply(s, e))
  {
    var s', pc := Apply(s, e), AfterReading(s, e);
    ReadingMoves(s, e);
    QuietClientTable(s, s', e.cid, pc);
    ClientKeepsTasks(s, s', e.cid, pc);
  }

  lemma {:induction false} CheckTasks(s: State, s': State, c: Cid, task: Task)
    requires QueueInv(s) && HandInv(s) && CheckedInv(s) && MovesClient(s, s', c, CHECKED(task))
    requires s'.queue == s.queue && s'.places == s.places
    requires task !in s.places && FreshTask(s, task)
    ensures QueueInv(s') && HandInv(s') && CheckedInv(s')
  {
  }

  lemma {:induction false} ExecuteCheckStep(s: State, c: Cid, task: Task)
    requires Consistent(s) && IsAllowed(s, ExecuteCheck(c, task))
    ensures Consistent(Apply(s, ExecuteCheck(c, task)))
  {
    var s' := Apply(s, ExecuteCheck(c, task));
    QuietClientTable(s, s', c, CHECKED(task));
    CheckTasks(s, s', c, task);
  }

  lemma {:induction false} ExecutePushStep(s: State, c: Cid)
    requires Consistent(s) && IsAllowed(s, ExecutePush(c))
    ensures Consistent(Apply(s, ExecutePush(c)))
  {
    var s' := Apply(s, ExecutePush(c));
    QuietClientTable(s, s', c, PUSHED);
    PushTasks(s, s', c);
  }

  lemma {:induction false} PushTasks(s: State, s': State, c: Cid)
    requires QueueInv(s) && HandInv(s) && CheckedInv(s) && s.Client(c).CHECKED?
    requires MovesClient(s, s', c, PUSHED)
    requires s'.queue == s.queue + [s.Client(c).task] && s'.places == s.places[s.Client(c).task := Queued]
    ensures QueueInv(s') && HandInv(s') && CheckedInv(s')
  {
    var task := s.clients[c].task;
    assert task !in s.queue;
    forall x ensures x in s'.queue <==> x in s'.places && s'.places[x].Queued? {
      assert x in s'.queue <==> x in s.queue || x == task;
    }
  }

  lemma {:induction false} ClientLockTable(s: State, s': State, c: Cid, pc: ClientPc)
    requires LockInv(s) && TableInv(s) && SizeInv(s) && MovesClient(s, s', c, pc)
    requires s'.threads == s.threads && c in s.clients && !s.clients[c].CREATING? && !pc.CREATING?
    requires pc.SIZED? ==> HasRoom(s)
    requires IsInit(pc) == IsInit(s.clients[c]) && !pc.INIT_LOOP? && !s.clients[c].INIT_LOOP?
    requires s.phase.NEW? ==> c == 0
    requires s.lock == (if ClientNeedsLock(s.clients[c]) then HeldByClient(c) else Free)
    requires s'.lock == (if ClientNeedsLock(pc) then HeldByClient(c) else Free)
    ensures LockInv(s') && TableInv(s') && SizeInv(s')
  {
    assert LockInv(s') && SizeInv(s');
    assert forall t :: t in s.workers && IsAlive(s.workers[t].pc) ==> t in s.threads;
  }

  lemma {:induction false} ClientLockStep(s: State, e: Event)
    requires Consistent(s) && IsAllowed(s, e)
    requires e.ExtendLock? || e.ExtendReadQueue? || e.ExtendDecline? || e.InitLock?
    ensures Consistent(Apply(s, e))
  {
    var c := if e.InitLock? then 0 else e.cid;
    var s' := Apply(s, e);
    ClientLockTable(s, s', c, s'.clients[c]);
    ClientKeepsTasks(s, s', c, s'.clients[c]);
  }

  lemma {:induction false} InitTestTable(s: State, s': State)
    requires LockInv(s) && TableInv(s) && 0 in s.clients && s.clients[0].INIT_LOOP?
    requires s'.clients == s.clients[0 := s'.Client(0)] && s'.workers == s.workers && s'.threads == s.threads
    requires s'.lock == s.lock && !ClientNeedsLock(s'.Client(0))
    ensures LockInv(s') && TableInv(s')
  {
  }

  lemma {:induction false} InitTestStep(s: State)
    requires Consistent(s) && IsAllowed(s, InitTest)
    ensures Consistent(Apply(s, InitTest))
  {
    var s' := Apply(s, InitTest);
    ClientKeepsTasks(s, s', 0, s'.clients[0]);
    InitTestTable(s, s');
    assert SizeInv(s');
  }

  /** The phase itself is watched by SizeInv alone. */
  lemma {:induction false} PhaseIsApart(s: State, phase: Phase)
    ensures LockInv(s.(phase := phase)) == LockInv(s)
    ensures QueueInv(s.(phase := phase)) == QueueInv(s)
    ensures HandInv(s.(phase := phase)) == HandInv(s)
    ensures CheckedInv(s.(phase := phase)) == CheckedInv(s)
  {
  }

  lemma {:induction false} PhaseTable(s: State, phase: Phase)
    requires TableInv(s)
    ensures TableInv(s.(phase := phase))
  {
    var s' := s.(phase := phase);
    forall t, c | IsBeingCreated(s, t, c) ensures IsBeingCreated(s', t, c) {
    }
  }

  lemma {:induction false} ShutdownStep(s: State)
    requires Consistent(s) && IsAllowed(s, Shutdown)
    ensures Consistent(Apply(s, Shutdown))
  {
    PhaseIsApart(s, TERMINATING);
    PhaseTable(s, TERMINATING);
  }

  lemma {:induction false} SpawnTable(s: State, s': State, c: Cid, t: Tid, core: bool)
    requires LockInv(s) && TableInv(s) && CanSpawn(s, t)
    requires c in s.clients && ClientNeedsLock(s.clients[c]) && !s.clients[c].CREATING?
    requires s'.threads == s.threads && s'.lock == s.lock
    requires s'.workers == s.workers[t := Worker(core, SPAWNED)] && s'.clients == s.clients[c := CREATING(t, core)]
    ensures LockInv(s') && TableInv(s')
  {
    assert LockInv(s');
    assert forall u :: u in s.workers && IsAlive(s.workers[u].pc) ==> u in s.threads;
  }

  lemma {:induction false} SpawnTasks(s: State, s': State, c: Cid, t: Tid, core: bool)
    requires QueueInv(s) && HandInv(s) && CheckedInv(s) && CanSpawn(s, t)
    requires s'.queue == s.queue && s'.places == s.places
    requires s'.workers == s.workers[t := Worker(core, SPAWNED)] && s'.clients == s.clients[c := CREATING(t, core)]
    ensures QueueInv(s') && HandInv(s') && CheckedInv(s')
  {
  }

  lemma {:induction false} SpawnStep(s: State, e: Event)
    requires Consistent(s) && IsAllowed(s, e) && (e.InitSpawn? || e.ExtendSpawn?)
    ensures Consistent(Apply(s, e))
  {
    var c := if e.InitSpawn? then 0 else e.cid;
    var s' := Apply(s, e);
    SpawnTable(s, s', c, e.tid, e.InitSpawn?);
    SpawnTasks(s, s', c, e.tid, e.InitSpawn?);
    SpawnSize(s, s', c, e.tid, e.InitSpawn?);
  }

  lemma {:induction false} SpawnSize(s: State, s': State, c: Cid, t: Tid, core: bool)
    requires LockInv(s) && SizeInv(s) && c in s.clients && s'.clients == s.clients[c := CREATING(t, core)]
    requires if core then c == 0 && s.clients[c].INIT_LOCKED? else s.clients[c].SIZED?
    requires s'.threads == s.threads && s'.phase == s.phase
    requires s'.corePoolSize == s.corePoolSize && s'.maxPoolSize == s.maxPoolSize
    ensures SizeInv(s')
  {
  }

  lemma {:induction false} InsertTable(s: State, s': State, c: Cid)
    requires LockInv(s) && TableInv(s) && s.Client(c).CREATING?
    requires MovesClient(s, s', c, if s.clients[c].core then INIT_LOOP else IDLE)
    requires s'.threads == s.threads[s.clients[c].tid := s.clients[c].core] && s'.lock.Free?
    ensures LockInv(s') && TableInv(s')
  {
    assert LockInv(s');
    assert IsBeingCreated(s, s.clients[c].tid, c);
  }

  lemma {:induction false} InsertSize(s: State, s': State, c: Cid)
    requires LockInv(s) && SizeInv(s) && TableInv(s) && s.Client(c).CREATING?
    requires MovesClient(s, s', c, if s.clients[c].core then INIT_LOOP else IDLE)
    requires s'.threads == s.threads[s.clients[c].tid := s.clients[c].core]
    ensures SizeInv(s')
  {
    assert IsBeingCreated(s, s.clients[c].tid, c);
    assert s'.threads.Keys == s.threads.Keys + {s.clients[c].tid};
    assert |s'.threads| == |s'.threads.Keys| && |s.threads| == |s.threads.Keys|;
    assert forall d :: d in s.clients && (s.clients[d].SIZED? || s.clients[d].CREATING?) ==> s.lock == HeldByClient(d);
  }

  lemma {:induction false} CreateInsertStep(s: State, c: Cid)
    requires Consistent(s) && IsAllowed(s, CreateInsert(c))
    ensures Consistent(Apply(s, CreateInsert(c)))
  {
    var s' := Apply(s, CreateInsert(c));
    InsertTable(s, s', c);
    InsertSize(s, s', c);
    ClientKeepsTasks(s, s', c, s'.clients[c]);
  }

  // ---- every run ---------------------------------------------------------------------------

  predicate IsClientStep(e: Event) {
    || e.InitTest? || e.InitLock? || e.InitSpawn? || e.CreateInsert? || e.ExecuteCheck? || e.ExecutePush? || IsReading(e)
    || e.ExtendLock? || e.ExtendReadQueue? || e.ExtendDecline? || e.ExtendSpawn? || e.Shutdown?
  }

  lemma {:induction false} ClientStepKeeps(s: State, e: Event)
    requires Consistent(s) && IsAllowed(s, e) && IsClientStep(e)
    ensures Consistent(Apply(s, e))
  {
    match e {
      case InitTest => InitTestStep(s);
      case InitLock => ClientLockStep(s, e);
      case InitSpawn(_) => SpawnStep(s, e);
      case CreateInsert(c) => CreateInsertStep(s, c);
      case ExecuteCheck(c, task) => ExecuteCheckStep(s, c, task);
      case ExecutePush(c) => ExecutePushStep(s, c);
      case ExecuteCount(_) => ReadingStep(s, e);
      case ExecuteReadPool(_) => ReadingStep(s, e);
      case ExecuteDecide(_) => ReadingStep(s, e);
      case ExtendLock(_) => ClientLockStep(s, e);
      case ExtendReadQueue(_) => ClientLockStep(s, e);
      case ExtendDecline(_) => ClientLockStep(s, e);
      case ExtendSpawn(_, _) => SpawnStep(s, e);
      case Shutdown => ShutdownStep(s);
    }
  }

  lemma {:induction false} WorkerStepKeeps(s: State, e: Event)
    requires Consistent(s) && IsAllowed(s, e) && !IsClientStep(e)
    ensures Consistent(Apply(s, e))
  {
    match e {
      case WorkerLock(_) => LockingWorkerStep(s, e);
      case WorkerLookup(t) => WorkerLookupStep(s, t);
      case WorkerExpire(_) => QuietWorkerStep(s, e);
      case WorkerPop(t) => WorkerPopStep(s, t);
      case WorkerStart(_) => QuietWorkerStep(s, e);
      case WorkerFinish(t) => WorkerFinishStep(s, t);
      case WorkerReadState(_) => StopTestStep(s, e);
      case WorkerReadSize(_) => StopTestStep(s, e);
      case WorkerExitLock(_) => LockingWorkerStep(s, e);
      case WorkerErase(t) => WorkerEraseStep(s, t);
    }
  }

  /** Whoever is inside stays inside until it gives the lock back. */
  lemma {:induction false} ClientStepKeepsHolder(s: State, e: Event)
    requires LockInv(s) && HolderInv(s) && IsAllowed(s, e) && IsClientStep(e)
    ensures HolderInv(Apply(s, e))
  {
  }

  lemma {:induction false} WorkerStepKeepsHolder(s: State, e: Event)
    requires LockInv(s) && TableInv(s) && HolderInv(s) && IsAllowed(s, e) && !IsClientStep(e)
    ensures HolderInv(Apply(s, e))
  {
    if e.WorkerLookup? {
      LookupSucceeds(s, e.tid);
    }
  }

  lemma {:induction false} StepKeepsInv(s: State, e: Event)
    requires Inv(s) && IsAllowed(s, e)
    ensures Inv(Apply(s, e))
  {
    if IsClientStep(e) {
      ClientStepKeeps(s, e);
      ClientStepKeepsHolder(s, e);
    } else {
      WorkerStepKeeps(s, e);
      WorkerStepKeepsHolder(s, e);
    }
  }

  /** The events are possible one after the other, starting in s. */
  predicate IsRun(s: State, events: seq<Event>)
    decreases |events|
  {
    events == [] || (IsAllowed(s, events[0]) && IsRun(Apply(s, events[0]), events[1..]))
  }

  function Run(s: State, events: seq<Event>): State
    requires IsRun(s, events)
    decreases |events|
  {
    if events == [] then s else Run(Apply(s, events[0]), events[1..])
  }

  lemma {:induction false} RunKeepsInv(s: State, events: seq<Event>)
    requires Inv(s) && IsRun(s, events)
    ensures Inv(Run(s, events))
    decreases |events|
  {
    if events != [] {
      StepKeepsInv(s, events[0]);
      RunKeepsInv(Apply(s, events[0]), events[1..]);
    }
  }

  lemma {:induction false} InitialInv(corePoolSize: int, maxPoolSize: int)
    requires IsConfig(corePoolSize, maxPoolSize)
    ensures Inv(Initial(corePoolSize, maxPoolSize))
  {
  }

  predicate IsQueuedOnce(s: State, task: Task) {
    exists i :: 0 <= i < |s.queue| && s.queue[i] == task && forall j :: 0 <= j < |s.queue| && s.queue[j] == task ==> j == i
  }

  predicate IsHeldOnce(s: State, task: Task) {
    exists t :: t in s.workers && Holds(s.workers[t].pc, task) &&
      forall u :: u in s.workers && Holds(s.workers[u].pc, task) ==> u == t
  }

  predicate IsHeld(s: State, task: Task) {
    exists t :: t in s.workers && Holds(s.workers[t].pc, task)
  }

  /** How often the run finishes the task. */
  function Completions(s: State, events: seq<Event>, task: Task): nat
    requires IsRun(s, events)
    decreases |events|
  {
    if events == [] then 0
    else
      var e := events[0];
      (if e.WorkerFinish? && s.At(e.tid) == WORKING(task) then 1 else 0) +
        Completions(Apply(s, e), events[1..], task)
  }

  predicate IsDone(s: State, task: Task) {
    task in s.places && s.places[task].Done?
  }

  /** Where a step puts tasks: only a push, a pop or a finish moves one. */
  lemma {:induction false} PlacesAfter(s: State, e: Event)
    requires IsAllowed(s, e)
    ensures Apply(s, e).places ==
      if e.ExecutePush? then s.places[s.Client(e.cid).task := Queued]
      else if e.WorkerPop? && s.queue != [] then s.places[s.queue[0] := InHand(e.tid)]
      else if e.WorkerFinish? then s.places[s.At(e.tid).task := Done]
      else s.places
  {
    if !e.ExecutePush? && !e.WorkerPop? && !e.WorkerFinish? {
      PlacesStay(s, e);
    }
  }

  lemma {:induction false} PlacesStay(s: State, e: Event)
    requires IsAllowed(s, e) && !e.ExecutePush? && !e.WorkerPop? && !e.WorkerFinish?
    ensures Apply(s, e).places == s.places
  {
  }

  /** A task that is pushed, popped or finished is not done already. */
  lemma {:induction false} MovedIsNotDone(s: State, e: Event)
    requires QueueInv(s) && HandInv(s) && CheckedInv(s) && IsAllowed(s, e)
    ensures e.ExecutePush? ==> !IsDone(s, s.Client(e.cid).task)
    ensures e.WorkerPop? && s.queue != [] ==> !IsDone(s, s.queue[0])
    ensures e.WorkerFinish? ==> !IsDone(s, s.At(e.tid).task)
  {
    if e.WorkerPop? && s.queue != [] {
      assert s.queue[0] in s.queue;
    } else if e.WorkerFinish? {
      assert Holds(s.workers[e.tid].pc, s.At(e.tid).task);
    }
  }

  /** Only finishing a task makes it done, and an unfinished task is not done already. */
  lemma {:induction false} DoneStep(s: State, e: Event, task: Task)
    requires QueueInv(s) && HandInv(s) && CheckedInv(s) && IsAllowed(s, e)
    ensures var finishes := e.WorkerFinish? && s.At(e.tid) == WORKING(task);
      && IsDone(Apply(s, e), task) == (IsDone(s, task) || finishes)
      && !(IsDone(s, task) && finishes)
  {
    PlacesAfter(s, e);
    MovedIsNotDone(s, e);
  }

  lemma {:induction false} DoneMeansCompletedOnce(s: State, events: seq<Event>, task: Task)
    requires Inv(s) && IsRun(s, events)
    ensures Completions(s, events, task) + (if IsDone(s, task) then 1 else 0) ==
            (if IsDone(Run(s, events), task) then 1 else 0)
    decreases |events|
  {
    if events != [] {
      StepKeepsInv(s, events[0]);
      DoneStep(s, events[0], task);
      DoneMeansCompletedOnce(Apply(s, events[0]), events[1..], task);
    }
  }

  lemma {:induction false} QueuedIsQueuedOnce(s: State, task: Task)
    requires QueueInv(s) && task in s.queue
    ensures IsQueuedOnce(s, task)
  {
    var i :| 0 <= i < |s.queue| && s.queue[i] == task;
    assert forall j :: 0 <= j < |s.queue| && s.queue[j] == task ==> j == i;
  }

  lemma {:induction false} HeldIsInHand(s: State, task: Task)
    requires HandInv(s) && IsHeld(s, task)
    ensures task in s.places && s.places[task].InHand?
  {
    var t :| t in s.workers && Holds(s.workers[t].pc, task);
  }

  lemma {:induction false} InHandIsHeldOnce(s: State, task: Task)
    requires HandInv(s) && task in s.places && s.places[task].InHand?
    ensures IsHeldOnce(s, task)
  {
    var t := s.places[task].tid;
    assert t in s.workers && Holds(s.workers[t].pc, task);
    forall u | u in s.workers && Holds(s.workers[u].pc, task) ensures u == t {
      assert s.places[task] == InHand(u);
    }
  }

  /** An accepted task is once in the queue, or in the hands of one thread, or done: never two of these. */
  predicate IsInOnePlace(s: State, task: Task) {
    match if task in s.places then s.places[task] else Done
    case Queued => IsQueuedOnce(s, task) && !IsHeld(s, task)
    case InHand(_) => task !in s.queue && IsHeldOnce(s, task)
    case Done => task !in s.queue && !IsHeld(s, task)
  }

  lemma {:induction false} TaskIsInOnePlace(s: State, task: Task)
    requires QueueInv(s) && HandInv(s)
    ensures IsInOnePlace(s, task)
  {
    if IsHeld(s, task) {
      HeldIsInHand(s, task);
    }
    if task in s.places && s.places[task].InHand? {
      InHandIsHeldOnce(s, task);
    }
    if task in s.queue {
      QueuedIsQueuedOnce(s, task);
    }
  }

  /** Whatever the interleaving: the limit holds, no lookup fails, and every task is kept and run at most once. */
  lemma {:induction false} EveryRunIsSafe(corePoolSize: int, maxPoolSize: int, events: seq<Event>)
    requires IsConfig(corePoolSize, maxPoolSize) && IsRun(Initial(corePoolSize, maxPoolSize), events)
    ensures var s := Run(Initial(corePoolSize, maxPoolSize), events);
      && Inv(s)
      && |s.threads| <= s.maxPoolSize
      && (forall t :: t in s.workers ==> !s.workers[t].pc.STUCK?)
      && (forall task :: IsInOnePlace(s, task))
      && (forall task :: Completions(Initial(corePoolSize, maxPoolSize), events, task) == if IsDone(s, task) then 1 else 0)
  {
    var s0 := Initial(corePoolSize, maxPoolSize);
    InitialInv(corePoolSize, maxPoolSize);
    RunKeepsInv(s0, events);
    var s := Run(s0, events);
    forall task ensures IsInOnePlace(s, task) {
      TaskIsInOnePlace(s, task);
    }
    forall task ensures Completions(s0, events, task) == if IsDone(s, task) then 1 else 0 {
      DoneMeansCompletedOnce(s0, events, task);
    }
  }

  // ---- counters ----------------------------------------------------------------------------

  ghost function DoneIn(places: map<Task, Place>): set<Task> {
    set task | task in places && places[task].Done?
  }

  ghost function DoneTasks(s: State): set<Task> {
    DoneIn(s.places)
  }

  ghost function WorkingIn(workers: map<Tid, Worker>): set<Tid> {
    set t | t in workers && workers[t].pc.WORKING?
  }

  ghost function Working(s: State): set<Tid> {
    WorkingIn(s.workers)
  }

  /** task_count_ counts the finished tasks and active_count_ the threads inside one. */
  ghost predicate CountersAgree(s: State) {
    s.taskCount == |DoneTasks(s)| && s.activeCount == |Working(s)|
  }

  lemma {:induction false} DoneInUpdate(places: map<Task, Place>, task: Task, place: Place)
    requires task !in DoneIn(places)
    ensures DoneIn(places[task := place]) == if place.Done? then DoneIn(places) + {task} else DoneIn(places)
  {
  }

  lemma {:induction false} StepKeepsDone(s: State, e: Event)
    requires QueueInv(s) && HandInv(s) && CheckedInv(s) && IsAllowed(s, e)
    ensures DoneTasks(Apply(s, e)) == if e.WorkerFinish? then DoneTasks(s) + {s.At(e.tid).task} else DoneTasks(s)
    ensures e.WorkerFinish? ==> s.At(e.tid).task !in DoneTasks(s)
  {
    PlacesAfter(s, e);
    MovedIsNotDone(s, e);
    if e.ExecutePush? {
      DoneInUpdate(s.places, s.Client(e.cid).task, Queued);
    } else if e.WorkerPop? && s.queue != [] {
      DoneInUpdate(s.places, s.queue[0], InHand(e.tid));
    } else if e.WorkerFinish? {
      DoneInUpdate(s.places, s.At(e.tid).task, Done);
    }
  }

  predicate SpawnsWorker(e: Event) {
    e.InitSpawn? || e.ExtendSpawn?
  }

  predicate IsWorkerStep(e: Event) {
    || e.WorkerLock? || e.WorkerLookup? || e.WorkerExpire? || e.WorkerPop? || e.WorkerStart? || e.WorkerFinish?
    || e.WorkerReadState? || e.WorkerReadSize? || e.WorkerExitLock? || e.WorkerErase?
  }

  predicate MovesSomeWorker(e: Event) {
    SpawnsWorker(e) || IsWorkerStep(e)
  }

  /** s' has worker e.tid moved or added, and all others as in s; only start and finish lead into and out of a task. */
  predicate WorkerMoved(s: State, e: Event, s': State)
    requires MovesSomeWorker(e)
  {
    && e.tid in s'.workers
    && s'.workers == s.workers[e.tid := s'.workers[e.tid]]
    && (s'.workers[e.tid].pc.WORKING? <==> e.WorkerStart?)
    && (s.At(e.tid).WORKING? <==> e.WorkerFinish?)
  }

  lemma {:induction false} SpawnMovesOne(s: State, e: Event)
    requires IsAllowed(s, e) && SpawnsWorker(e)
    ensures WorkerMoved(s, e, Apply(s, e))
  {
  }

  predicate IsTaskStep(e: Event) {
    e.WorkerPop? || e.WorkerStart? || e.WorkerFinish? || e.WorkerReadState? || e.WorkerReadSize?
  }

  lemma {:induction false} TaskStepMovesOne(s: State, e: Event)
    requires IsAllowed(s, e) && IsTaskStep(e)
    ensures WorkerMoved(s, e, Apply(s, e))
  {
  }

  lemma {:induction false} WorkerMovesOne(s: State, e: Event)
    requires IsAllowed(s, e) && IsWorkerStep(e)
    ensures WorkerMoved(s, e, Apply(s, e))
  {
    if IsTaskStep(e) {
      TaskStepMovesOne(s, e);
    }
  }

  /** A step moves the one worker it names, or none. */
  lemma {:induction false} WorkersAfter(s: State, e: Event)
    requires IsAllowed(s, e)
    ensures !MovesSomeWorker(e) ==> Apply(s, e).workers == s.workers
    ensures MovesSomeWorker(e) ==> WorkerMoved(s, e, Apply(s, e))
  {
    if SpawnsWorker(e) {
      SpawnMovesOne(s, e);
    } else if IsWorkerStep(e) {
      WorkerMovesOne(s, e);
    }
  }

  lemma {:induction false} WorkingInUpdate(workers: map<Tid, Worker>, t: Tid, w: Worker)
    ensures WorkingIn(workers[t := w]) == if w.pc.WORKING? then WorkingIn(workers) + {t} else WorkingIn(workers) - {t}
  {
  }

  lemma {:induction false} StepKeepsWorking(s: State, e: Event)
    requires IsAllowed(s, e)
    ensures Working(Apply(s, e)) ==
      if e.WorkerStart? then Working(s) + {e.tid} else if e.WorkerFinish? then Working(s) - {e.tid} else Working(s)
    ensures e.WorkerStart? ==> e.tid !in Working(s)
    ensures e.WorkerFinish? ==> e.tid in Working(s)
  {
    WorkersAfter(s, e);
    if MovesSomeWorker(e) {
      WorkingMoves(s, e, Apply(s, e));
    }
  }

  lemma {:induction false} WorkingMoves(s: State, e: Event, s': State)
    requires MovesSomeWorker(e) && WorkerMoved(s, e, s')
    ensures Working(s') ==
      if e.WorkerStart? then Working(s) + {e.tid} else if e.WorkerFinish? then Working(s) - {e.tid} else Working(s)
    ensures e.WorkerStart? ==> e.tid !in Working(s)
    ensures e.WorkerFinish? ==> e.tid in Working(s)
  {
    WorkingInUpdate(s.workers, e.tid, s'.workers[e.tid]);
  }

  lemma {:induction false} CountersStep(s: State, e: Event)
    requires Inv(s) && IsAllowed(s, e) && CountersAgree(s)
    ensures CountersAgree(Apply(s, e))
  {
    StepKeepsDone(s, e);
    StepKeepsWorking(s, e);
    CountersMove(s, e);
    Cardinalities(s, e, Apply(s, e));
  }

  lemma {:induction false} Cardinalities(s: State, e: Event, s': State)
    requires e.WorkerFinish? ==> s.At(e.tid).WORKING?
    requires DoneTasks(s') == if e.WorkerFinish? then DoneTasks(s) + {s.At(e.tid).task} else DoneTasks(s)
    requires Working(s') ==
      if e.WorkerStart? then Working(s) + {e.tid} else if e.WorkerFinish? then Working(s) - {e.tid} else Working(s)
    requires e.WorkerFinish? ==> s.At(e.tid).task !in DoneTasks(s) && e.tid in Working(s)
    requires e.WorkerStart? ==> e.tid !in Working(s)
    ensures |DoneTasks(s')| == |DoneTasks(s)| + if e.WorkerFinish? then 1 else 0
    ensures |Working(s')| == |Working(s)| + if e.WorkerStart? then 1 else if e.WorkerFinish? then -1 else 0
  {
  }

  lemma {:induction false} CountersMove(s: State, e: Event)
    requires IsAllowed(s, e)
    ensures Apply(s, e).taskCount == s.taskCount + (if e.WorkerFinish? then 1 else 0)
    ensures Apply(s, e).activeCount ==
            s.activeCount + (if e.WorkerStart? then 1 else if e.WorkerFinish? then -1 else 0)
  {
  }

  lemma {:induction false} CountersStayRight(s: State, events: seq<Event>)
    requires Inv(s) && CountersAgree(s) && IsRun(s, events)
    ensures CountersAgree(Run(s, events))
    decreases |events|
  {
    if events != [] {
      StepKeepsInv(s, events[0]);
      CountersStep(s, events[0]);
      CountersStayRight(Apply(s, events[0]), events[1..]);
    }
  }
}
