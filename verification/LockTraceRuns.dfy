/** Threads that lock and unlock traced mutexes, interleaved step by step, and what that does to the tracer's tables. */
module LockTraceRuns {
  import opened LockTrace
  import opened Numbers

  /** Who holds a mutex, and how often; more than once only if it is recursive. */
  datatype Hold = Hold(tid: Tid, count: nat)

  /** Where a thread is in the locking macros: a table is never updated in the step that takes or gives the mutex. */
  datatype Pc = IDLE | WANTS(mutex: Mutex) | GOT(mutex: Mutex) | RELEASED(mutex: Mutex)

  datatype State = State(tables: Tables, holders: map<Mutex, Hold>, pcs: map<Tid, Pc>) {
    function At(t: Tid): Pc {
      if t in pcs then pcs[t] else IDLE
    }

    predicate Holds(t: Tid, m: Mutex) {
      m in holders && holders[m].tid == t
    }
  }

  datatype Event =
    | Check(tid: Tid, mutex: Mutex)     // LockTrace::check
    | Acquire(tid: Tid)                 // pthread_mutex_lock returns, or pthread_mutex_trylock succeeds
    | TryFail(tid: Tid)                 // pthread_mutex_trylock finds the mutex held
    | Record(tid: Tid)                  // LockTrace::lock
    | Release(tid: Tid, mutex: Mutex)   // pthread_mutex_unlock
    | Erase(tid: Tid)                   // LockTrace::unlock

  predicate IsAllowed(s: State, e: Event) {
    match e
    case Check(t, _) => s.At(t).IDLE?
    case Acquire(t) =>
      s.At(t).WANTS? && var m := s.At(t).mutex;
        m in s.holders ==> s.holders[m].tid == t && m in s.tables.recursives
    case TryFail(t) => s.At(t).WANTS? && s.At(t).mutex in s.holders && !s.Holds(t, s.At(t).mutex)
    case Record(t) => s.At(t).GOT?
    case Release(t, m) => s.At(t).IDLE? && s.Holds(t, m)
    case Erase(t) => s.At(t).RELEASED?
  }

  function Apply(s: State, e: Event): State
    requires IsAllowed(s, e)
  {
    match e
    case Check(t, m) => s.(tables := Recorded(s.tables, m, t), pcs := s.pcs[t := WANTS(m)])
    case Acquire(t) =>
      var m := s.At(t).mutex;
      s.(holders := s.holders[m := Hold(t, if m in s.holders then s.holders[m].count + 1 else 1)], pcs := s.pcs[t := GOT(m)])
    case TryFail(t) => s.(pcs := s.pcs[t := IDLE])
    case Record(t) => s.(tables := RecordLock(s.tables, s.At(t).mutex, t), pcs := s.pcs[t := IDLE])
    case Release(t, m) =>
      s.(holders := if s.holders[m].count > 1 then s.holders[m := Hold(t, s.holders[m].count - 1)] else s.holders - {m},
         pcs := s.pcs[t := RELEASED(m)])
    case Erase(t) => s.(tables := EraseLock(s.tables, s.At(t).mutex, t), pcs := s.pcs[t := IDLE])
  }

  function Initial(recursives: set<Mutex>, maxBlockTids: int): State {
    State(Tables(map[], map[], map[], recursives, maxBlockTids), map[], map[])
  }

  // ---- what every step keeps ---------------------------------------------------------------

  /** Only a holder, or a thread about to erase, is recorded as owning a mutex. */
  ghost predicate OwnersHold(s: State) {
    forall m, t :: m in s.tables.Owned(t) ==> s.Holds(t, m) || s.At(t) == RELEASED(m)
  }

  /** Of a plain mutex the holder is recorded, unless it has just got it, and stays so until it erases. */
  ghost predicate HoldersOwn(s: State) {
    forall m, t :: m !in s.tables.recursives ==>
      ((s.Holds(t, m) && s.At(t) != GOT(m)) || s.At(t) == RELEASED(m) ==> m in s.tables.Owned(t))
  }

  /** A thread that has just got a mutex holds it; a thread that wants one is recorded as waiting for it. */
  ghost predicate PcsAgree(s: State) {
    && (forall t :: s.At(t).GOT? ==> s.Holds(t, s.At(t).mutex))
    && (forall t :: s.At(t).WANTS? ==> t in s.tables.waitLocks && s.tables.waitLocks[t] == s.At(t).mutex)
    && (forall t, m :: m !in s.tables.recursives && s.At(t) == RELEASED(m) ==> !s.Holds(t, m))
    && (forall m :: m in s.holders && m !in s.tables.recursives ==> s.holders[m].count == 1)
  }

  /** The recorded owner of a mutex is one of its owners. */
  ghost predicate RecordedOwn(s: State) {
    forall m :: m in s.tables.locks ==> m in s.tables.Owned(s.tables.locks[m])
  }

  ghost predicate Inv(s: State) {
    OwnersHold(s) && HoldersOwn(s) && PcsAgree(s) && RecordedOwn(s)
  }

  lemma {:induction false} StepKeepsOwners(s: State, e: Event)
    requires OwnersHold(s) && PcsAgree(s) && IsAllowed(s, e)
    ensures OwnersHold(Apply(s, e))
  {
    var s' := Apply(s, e);
    forall m, t | m in s'.tables.Owned(t) ensures s'.Holds(t, m) || s'.At(t) == RELEASED(m) {
      if t != e.tid {
        OthersStay(s, e, t);
      }
      assert m in s.tables.Owned(t) ==> s.Holds(t, m) || s.At(t) == RELEASED(m);
    }
  }

  lemma {:induction false} OthersStay(s: State, e: Event, u: Tid)
    requires IsAllowed(s, e) && u != e.tid
    ensures Apply(s, e).At(u) == s.At(u) && Apply(s, e).tables.Owned(u) == s.tables.Owned(u)
    ensures forall m :: Apply(s, e).Holds(u, m) ==> s.Holds(u, m)
    ensures forall m :: s.Holds(u, m) ==> Apply(s, e).Holds(u, m)
  {
  }

  lemma {:induction false} StepKeepsHolders(s: State, e: Event)
    requires HoldersOwn(s) && PcsAgree(s) && IsAllowed(s, e)
    ensures HoldersOwn(Apply(s, e))
  {
    var s' := Apply(s, e);
    forall m, t | m !in s'.tables.recursives && ((s'.Holds(t, m) && s'.At(t) != GOT(m)) || s'.At(t) == RELEASED(m))
      ensures m in s'.tables.Owned(t)
    {
      if t != e.tid {
        OthersStay(s, e, t);
      }
      assert m !in s.tables.recursives;
    }
  }

  lemma {:induction false} StepKeepsPcs(s: State, e: Event)
    requires PcsAgree(s) && IsAllowed(s, e)
    ensures PcsAgree(Apply(s, e))
  {
    var s' := Apply(s, e);
    forall t | s'.At(t).GOT? ensures s'.Holds(t, s'.At(t).mutex) {
      if t != e.tid {
        OthersStay(s, e, t);
      }
    }
    forall t | s'.At(t).WANTS? ensures t in s'.tables.waitLocks && s'.tables.waitLocks[t] == s'.At(t).mutex {
      if t != e.tid {
        OthersStay(s, e, t);
      }
    }
    forall t, m | m !in s'.tables.recursives && s'.At(t) == RELEASED(m) ensures !s'.Holds(t, m) {
      if t != e.tid {
        OthersStay(s, e, t);
      }
    }
  }

  lemma {:induction false} StepKeepsInv(s: State, e: Event)
    requires Inv(s) && IsAllowed(s, e)
    ensures Inv(Apply(s, e))
  {
    StepKeepsOwners(s, e);
    StepKeepsHolders(s, e);
    StepKeepsPcs(s, e);
    StepKeepsRecorded(s, e);
  }

  lemma {:induction false} StepKeepsRecorded(s: State, e: Event)
    requires RecordedOwn(s) && IsAllowed(s, e)
    ensures RecordedOwn(Apply(s, e))
  {
    var ts, ts' := s.tables, Apply(s, e).tables;
    forall m | m in ts'.locks ensures m in ts'.Owned(ts'.locks[m]) {
      if m in ts.locks {
        assert m in ts.Owned(ts.locks[m]);
      }
    }
  }

  // ---- when the tables agree ---------------------------------------------------------------

  /** The step updates the tables for a mutex that is recorded for another thread. */
  predicate Clashes(s: State, e: Event)
    requires IsAllowed(s, e)
  {
    (e.Record? || e.Erase?) && IsRecordedForAnother(s.tables, s.At(e.tid).mutex, e.tid)
  }

  /** A step from consistent tables leads to consistent tables if and only if it does not clash. */
  lemma {:induction false} StepKeepsTablesExactly(s: State, e: Event)
    requires Consistent(s.tables) && IsAllowed(s, e)
    ensures Consistent(Apply(s, e).tables) <==> !Clashes(s, e)
  {
    match e {
      case Check(t, m) => RecordedConsistent(s.tables, m, t);
      case Record(t) => RecordKeepsExactly(s.tables, s.At(t).mutex, t);
      case Erase(t) => EraseKeepsExactly(s.tables, s.At(t).mutex, t);
      case Acquire(_) =>
      case TryFail(_) =>
      case Release(_, _) =>
    }
  }

  /** An acquisition clashes exactly when the mutex was released, and not yet erased, by a thread recorded for it. */
  lemma {:induction false} RecordClashesExactly(s: State, t: Tid)
    requires Inv(s) && Consistent(s.tables) && IsAllowed(s, Record(t))
    ensures var m := s.At(t).mutex;
      Clashes(s, Record(t)) <==> exists u :: u != t && s.At(u) == RELEASED(m) && m in s.tables.Owned(u)
  {
    var m := s.At(t).mutex;
    if Clashes(s, Record(t)) {
      var u := s.tables.locks[m];
      assert m in s.tables.Owned(u) && s.Holds(t, m);
      assert u != t && s.At(u) == RELEASED(m);
    }
  }

  /** For a plain mutex: exactly when another thread is between its release and its erase; erasing never clashes. */
  lemma {:induction false} PlainClashesExactly(s: State, t: Tid)
    requires Inv(s) && Consistent(s.tables)
    ensures IsAllowed(s, Record(t)) && s.At(t).mutex !in s.tables.recursives ==>
      (Clashes(s, Record(t)) <==> exists u :: u != t && s.At(u) == RELEASED(s.At(t).mutex))
    ensures IsAllowed(s, Erase(t)) && s.At(t).mutex !in s.tables.recursives ==> !Clashes(s, Erase(t))
  {
    if IsAllowed(s, Record(t)) {
      RecordClashesExactly(s, t);
    }
  }

  /** When nobody holds a mutex and nobody is about to erase one, the tables agree again, whatever happened. */
  lemma {:induction false} QuietTablesAgree(s: State)
    requires Inv(s) && s.holders == map[] && forall t :: !s.At(t).RELEASED?
    ensures Consistent(s.tables)
  {
    forall m, t ensures m in s.tables.Owned(t) <==> m in s.tables.locks && s.tables.locks[m] == t {
      assert m in s.tables.Owned(t) ==> s.Holds(t, m) || s.At(t) == RELEASED(m);
      if m in s.tables.locks {
        assert m in s.tables.Owned(s.tables.locks[m]);
        assert s.Holds(s.tables.locks[m], m) || s.At(s.tables.locks[m]) == RELEASED(m);
      }
    }
  }

  // ---- every run ---------------------------------------------------------------------------

  predicate IsRun(s: State, events: seq<Event>)
    decreases |events|
  {
    events == [] || (IsAllowed(s, events[0]) && IsRun(Apply(s, events[0]), events[1..]))
  }

  function Run(s: State, events: seq<Event>): State
    requires IsRun(s, events)
    decreases |events|
  {
    if events == [] then s else Run(Apply(s, events[0]), events[1..])
  }

  /** How often the thread holds the mutex. */
  function Depth(s: State, t: Tid, m: Mutex): nat {
    if s.Holds(t, m) then s.holders[m].count else 0
  }

  ghost predicate IsHeldOnceOrMore(s: State) {
    forall m :: m in s.holders ==> s.holders[m].count > 0
  }

  /** The times the thread took the mutex on the way, less the times it gave it back. */
  function Balance(s: State, events: seq<Event>, t: Tid, m: Mutex): int
    requires IsRun(s, events)
    decreases |events|
  {
    if events == [] then 0
    else
      var took := events[0] == Acquire(t) && s.At(t) == WANTS(m);
      (if took then 1 else 0) - (if events[0] == Release(t, m) then 1 else 0) +
      Balance(Apply(s, events[0]), events[1..], t, m)
  }

  lemma {:induction false} StepMovesDepth(s: State, e: Event, t: Tid, m: Mutex)
    requires IsHeldOnceOrMore(s) && IsAllowed(s, e)
    ensures IsHeldOnceOrMore(Apply(s, e))
    ensures Depth(Apply(s, e), t, m) == Depth(s, t, m) +
            (if e == Acquire(t) && s.At(t) == WANTS(m) then 1 else 0) - (if e == Release(t, m) then 1 else 0)
  {
  }

  lemma {:induction false} RunMovesDepth(s: State, events: seq<Event>, t: Tid, m: Mutex)
    requires IsHeldOnceOrMore(s) && IsRun(s, events)
    ensures IsHeldOnceOrMore(Run(s, events)) && Depth(Run(s, events), t, m) == Depth(s, t, m) + Balance(s, events, t, m)
    decreases |events|
  {
    if events != [] {
      StepMovesDepth(s, events[0], t, m);
      RunMovesDepth(Apply(s, events[0]), events[1..], t, m);
    }
  }

  /** Over every run, a thread holds a mutex exactly if it took it more often than it gave it back. */
  lemma {:induction false} HeldExactly(recursives: set<Mutex>, maxBlockTids: int, events: seq<Event>, t: Tid, m: Mutex)
    requires IsRun(Initial(recursives, maxBlockTids), events)
    ensures var s := Run(Initial(recursives, maxBlockTids), events);
      var balance := Balance(Initial(recursives, maxBlockTids), events, t, m);
      balance >= 0 && (s.Holds(t, m) <==> balance > 0)
  {
    RunMovesDepth(Initial(recursives, maxBlockTids), events, t, m);
  }

  ghost predicate StaysConsistent(s: State, events: seq<Event>)
    requires IsRun(s, events)
    decreases |events|
  {
    Consistent(s.tables) && (events != [] ==> StaysConsistent(Apply(s, events[0]), events[1..]))
  }

  predicate NeverClashes(s: State, events: seq<Event>)
    requires IsRun(s, events)
    decreases |events|
  {
    events != [] ==> !Clashes(s, events[0]) && NeverClashes(Apply(s, events[0]), events[1..])
  }

  lemma {:induction false} RunKeepsInv(s: State, events: seq<Event>)
    requires Inv(s) && IsRun(s, events)
    ensures Inv(Run(s, events))
    decreases |events|
  {
    if events != [] {
      StepKeepsInv(s, events[0]);
      RunKeepsInv(Apply(s, events[0]), events[1..]);
    }
  }

  lemma {:induction false} RunStaysExactly(s: State, events: seq<Event>)
    requires Consistent(s.tables) && IsRun(s, events)
    ensures StaysConsistent(s, events) <==> NeverClashes(s, events)
    decreases |events|
  {
    if events != [] {
      StepKeepsTablesExactly(s, events[0]);
      if !Clashes(s, events[0]) {
        RunStaysExactly(Apply(s, events[0]), events[1..]);
      }
    }
  }

  /**
   * In every interleaving: the tables stay consistent throughout if and only if no step updates them for a mutex
   * recorded for another thread; and at quiet moments they are consistent in any case.
   */
  lemma {:induction false} EveryRunExactly(recursives: set<Mutex>, maxBlockTids: int, events: seq<Event>)
    requires IsRun(Initial(recursives, maxBlockTids), events)
    ensures StaysConsistent(Initial(recursives, maxBlockTids), events) <==>
            NeverClashes(Initial(recursives, maxBlockTids), events)
    ensures var s := Run(Initial(recursives, maxBlockTids), events);
      Inv(s) && (s.holders == map[] && (forall t :: !s.At(t).RELEASED?) ==> Consistent(s.tables))
  {
    var s0 := Initial(recursives, maxBlockTids);
    RunStaysExactly(s0, events);
    RunKeepsInv(s0, events);
    var s := Run(s0, events);
    if s.holders == map[] && forall t :: !s.At(t).RELEASED? {
      QuietTablesAgree(s);
    }
  }

  // ---- what a table entry means ------------------------------------------------------------

  /**
   * For a thread that is waiting, the tables name exactly the holder, unless that thread has just got the mutex or is
   * erasing it. (Whether a thread with a wait entry is waiting is another matter.)
   */
  lemma {:induction false} WaitNamesHolder(s: State, a: Tid, b: Tid)
    requires Inv(s) && Consistent(s.tables) && s.At(a).WANTS? && s.At(a).mutex !in s.tables.recursives
    requires s.At(b) != GOT(s.At(a).mutex) && s.At(b) != RELEASED(s.At(a).mutex)
    ensures WaitsFor(s.tables, a, b) <==> s.Holds(b, s.At(a).mutex)
  {
  }

  // ---- the race ----------------------------------------------------------------------------

  /** A thread holds a plain mutex, with its macros done, and the tables have forgotten it: no deadlock over it is found. */
  predicate IsForgotten(s: State, u: Tid, m: Mutex) {
    && s.Holds(u, m) && s.At(u).IDLE? && m !in s.tables.recursives
    && m !in s.tables.locks && m in s.tables.Owned(u)
  }

  ghost predicate CanForget(s: State) {
    exists events, u, m :: IsRun(s, events) && IsForgotten(Run(s, events), u, m)
  }

  /** The tables are inconsistent then, and not even locking the mutex again is reported. */
  lemma {:induction false} ForgottenIsMissed(s: State, u: Tid, m: Mutex)
    requires IsForgotten(s, u, m)
    ensures !Consistent(s.tables) && forall t :: !DeadlockCheck(s.tables, m, t)
  {
    assert m in s.tables.Owned(u);
  }

  lemma {:induction false} StepBefore(s: State, e: Event)
    requires IsAllowed(s, e) && CanForget(Apply(s, e))
    ensures CanForget(s)
  {
    var events, u, m :| IsRun(Apply(s, e), events) && IsForgotten(Run(Apply(s, e), events), u, m);
    assert ([e] + events)[1..] == events;
    assert IsRun(s, [e] + events) && IsForgotten(Run(s, [e] + events), u, m);
  }

  lemma {:induction false} ForgottenAlready(s: State, u: Tid, m: Mutex)
    requires IsForgotten(s, u, m)
    ensures CanForget(s)
  {
    assert IsRun(s, []) && IsForgotten(Run(s, []), u, m);
  }

  /** Release, then the next owner is recorded, and only then the erase: the erase takes the new owner's entry. */
  lemma {:induction false} LateEraseForgets(s: State, t: Tid, u: Tid, m: Mutex)
    requires t != u && s.At(t) == RELEASED(m) && s.At(u) == GOT(m) && s.Holds(u, m) && m !in s.tables.recursives
    ensures CanForget(s)
  {
    var s1 := Apply(s, Record(u));
    var s2 := Apply(s1, Erase(t));
    ForgottenAlready(s2, u, m);
    StepBefore(s1, Erase(t));
    StepBefore(s, Record(u));
  }

  /** One thread holds a plain mutex that another wants. */
  lemma {:induction false} WaitingForgets(s: State, t: Tid, u: Tid, m: Mutex)
    requires t != u && s.At(t).IDLE? && s.Holds(t, m) && s.holders[m].count == 1
    requires s.At(u) == WANTS(m) && m !in s.tables.recursives
    ensures CanForget(s)
  {
    var s1 := Apply(s, Release(t, m));
    LateEraseForgets(Apply(s1, Acquire(u)), t, u, m);
    StepBefore(s1, Acquire(u));
    StepBefore(s, Release(t, m));
  }

  lemma {:induction false} FreeMutexForgets(s: State, t: Tid, u: Tid, m: Mutex)
    requires t != u && s.At(t).IDLE? && s.At(u).IDLE? && m !in s.holders && m !in s.tables.recursives
    ensures CanForget(s)
  {
    var s1 := Apply(s, Check(t, m));
    var s2 := Apply(s1, Acquire(t));
    var s3 := Apply(s2, Record(t));
    WaitingForgets(Apply(s3, Check(u, m)), t, u, m);
    StepBefore(s3, Check(u, m));
    StepBefore(s2, Record(t));
    StepBefore(s1, Acquire(t));
    StepBefore(s, Check(t, m));
  }

  /** No state is safe from that: two more threads and one more plain mutex are enough. */
  lemma {:induction false} AnyStateCanForget(s: State)
    ensures CanForget(s)
  {
    var t := Above(s.pcs.Keys);
    var m := Above(s.holders.Keys + s.tables.recursives);
    FreeMutexForgets(s, t, t + 1, m);
  }
}
