/** The writer-recursive read/write lock, as critical sections that threads interleave in any order. */
module RecursiveSharedMutex {

  type Tid = nat

  datatype Owner = NoOwner | OwnedBy(tid: Tid)

  /** A parked thread sits in a condition variable; a woken one was taken out of it and will look at the counters again. */
  datatype Wait = ParkedReader | WokenReader | ParkedWriter | WokenWriter

  /**
   * The lock's own fields, then what its clients hold and where they wait. `readHolds[t]` and `writeHolds[t]` count the
   * calls thread t has not undone yet.
   */
  datatype State = State(
    sharedLockCount: int,
    exclusiveLockCount: int,
    recursiveOwner: Owner,
    recursiveCount: int,
    readHolds: multiset<Tid>,
    writeHolds: multiset<Tid>,
    waits: map<Tid, Wait>)
  {
    predicate Waits(t: Tid, w: Wait) {
      t in waits && waits[t] == w
    }

    predicate SomeWaits(w: Wait) {
      exists t :: t in waits && Waits(t, w)
    }

    predicate IsFree() {
      sharedLockCount == 0 && exclusiveLockCount == 0
    }
  }

  const INITIAL := State(0, 0, NoOwner, 0, multiset{}, multiset{}, map[])

  /**
   * One critical section of the lock's mutex, or a spurious wake-up. Where a notify_one may choose, `pick` says which
   * parked writer it takes.
   */
  datatype Event =
    | LockShared(t: Tid)
    | TryLockShared(t: Tid)
    | UnlockShared(t: Tid, pick: Tid)
    | Lock(t: Tid)
    | Unlock(t: Tid, pick: Tid)
    | RetryShared(t: Tid)
    | RetryExclusive(t: Tid)
    | SpuriousWake(t: Tid)

  /** notify_one wakes some parked writer if there is one. */
  predicate PickIsParked(s: State, pick: Tid) {
    s.SomeWaits(ParkedWriter) ==> s.Waits(pick, ParkedWriter)
  }

  predicate MayUnlockShared(s: State, t: Tid, pick: Tid) {
    t !in s.waits && t in s.readHolds && PickIsParked(s, pick)
  }

  predicate MayUnlock(s: State, t: Tid, pick: Tid) {
    t !in s.waits && t in s.writeHolds && PickIsParked(s, pick)
  }

  /** A turn of the loop in lock_shared runs at the call, or after the thread was woken. */
  predicate MayTryShared(s: State, t: Tid) {
    t in s.waits ==> s.Waits(t, WokenReader)
  }

  predicate MayTryExclusive(s: State, t: Tid) {
    t !in s.readHolds && (t in s.waits ==> s.Waits(t, WokenWriter))
  }

  /**
   * What threads may do: a waiting thread makes no other call; locks are only released by those who hold them; a
   * thread that holds the shared lock does not ask for the exclusive one, as the class comment requires. The comment
   * does not forbid the other order.
   */
  predicate IsAllowed(s: State, e: Event) {
    match e
    case LockShared(t) => t !in s.waits
    case TryLockShared(t) => t !in s.waits
    case UnlockShared(t, pick) => MayUnlockShared(s, t, pick)
    case Lock(t) => t !in s.waits && t !in s.readHolds
    case Unlock(t, pick) => MayUnlock(s, t, pick)
    case RetryShared(t) => s.Waits(t, WokenReader)
    case RetryExclusive(t) => s.Waits(t, WokenWriter)
    case SpuriousWake(t) => s.Waits(t, ParkedReader) || s.Waits(t, ParkedWriter)
  }

  /** One turn of the loop in lock_shared. */
  function TryShared(s: State, t: Tid): State {
    if s.exclusiveLockCount > 0 then s.(waits := s.waits[t := ParkedReader])
    else s.(sharedLockCount := s.sharedLockCount + 1, readHolds := s.readHolds + multiset{t}, waits := s.waits - {t})
  }

  /** One turn of the loop in lock. */
  function TryExclusive(s: State, t: Tid): State {
    if s.sharedLockCount > 0 || s.exclusiveLockCount > 0 then
      if s.recursiveOwner == OwnedBy(t) then
        s.(recursiveCount := s.recursiveCount + 1, writeHolds := s.writeHolds + multiset{t}, waits := s.waits - {t})
      else s.(waits := s.waits[t := ParkedWriter])
    else s.(recursiveOwner := OwnedBy(t), recursiveCount := 1, exclusiveLockCount := s.exclusiveLockCount + 1,
            writeHolds := s.writeHolds + multiset{t}, waits := s.waits - {t})
  }

  function NotifyOneWriter(s: State, pick: Tid): State {
    if s.SomeWaits(ParkedWriter) then s.(waits := s.waits[pick := WokenWriter]) else s
  }

  function NotifyAllReaders(s: State): State {
    s.(waits := map t | t in s.waits :: if s.waits[t] == ParkedReader then WokenReader else s.waits[t])
  }

  function ReleaseShared(s: State, t: Tid, pick: Tid): State {
    var s1 := s.(sharedLockCount := s.sharedLockCount - 1, readHolds := s.readHolds - multiset{t});
    if s1.sharedLockCount == 0 then NotifyOneWriter(s1, pick) else s1
  }

  function WakeAll(s: State, pick: Tid): State {
    NotifyOneWriter(NotifyAllReaders(s), pick)
  }

  /** The last exclusive hold is given back. */
  function FreeExclusive(s: State, t: Tid): State {
    s.(recursiveOwner := NoOwner, recursiveCount := 0, exclusiveLockCount := s.exclusiveLockCount - 1,
       writeHolds := s.writeHolds - multiset{t})
  }

  function ReleaseExclusive(s: State, t: Tid, pick: Tid): State {
    if s.recursiveOwner == OwnedBy(t) && s.recursiveCount > 1 then
      s.(recursiveCount := s.recursiveCount - 1, writeHolds := s.writeHolds - multiset{t})
    else
      var s1 := FreeExclusive(s, t);
      if s1.exclusiveLockCount == 0 then WakeAll(s1, pick) else s1
  }

  function Apply(s: State, e: Event): State {
    match e
    case LockShared(t) => TryShared(s, t)
    case TryLockShared(t) =>
      if s.exclusiveLockCount == 0 then
        s.(sharedLockCount := s.sharedLockCount + 1, readHolds := s.readHolds + multiset{t})
      else s
    case UnlockShared(t, pick) => ReleaseShared(s, t, pick)
    case Lock(t) => TryExclusive(s, t)
    case Unlock(t, pick) => ReleaseExclusive(s, t, pick)
    case RetryShared(t) => TryShared(s, t)
    case RetryExclusive(t) => TryExclusive(s, t)
    case SpuriousWake(t) =>
      s.(waits := s.waits[t := if s.Waits(t, ParkedReader) then WokenReader else WokenWriter])
  }

  // ---- what every step keeps ---------------------------------------------------------------

  /** The counters tell the truth about what the clients hold. */
  ghost predicate CountersTrue(s: State) {
    && s.sharedLockCount == |s.readHolds|
    && (s.exclusiveLockCount == 0 ==> s.writeHolds == multiset{} && s.recursiveOwner.NoOwner? && s.recursiveCount == 0)
    && (s.exclusiveLockCount != 0 ==>
          && s.exclusiveLockCount == 1 && s.recursiveOwner.OwnedBy?
          && s.recursiveCount == s.writeHolds[s.recursiveOwner.tid] >= 1
          && s.readHolds == multiset{}
          && forall t :: t in s.writeHolds ==> t == s.recursiveOwner.tid)
  }

  /** A thread that waits for the exclusive lock holds nothing. */
  ghost predicate WaitersDisciplined(s: State) {
    forall t :: s.Waits(t, ParkedWriter) || s.Waits(t, WokenWriter) ==> t !in s.writeHolds && t !in s.readHolds
  }

  /** No wake-up is lost. */
  ghost predicate NoLostWakeup(s: State) {
    && (s.exclusiveLockCount == 0 ==> !s.SomeWaits(ParkedReader))
    && (s.IsFree() && s.SomeWaits(ParkedWriter) ==> s.SomeWaits(WokenWriter))
  }

  ghost predicate Inv(s: State) {
    CountersTrue(s) && WaitersDisciplined(s) && NoLostWakeup(s)
  }

  lemma {:induction false} MultisetOne(m: multiset<Tid>, t: Tid)
    ensures |m + multiset{t}| == |m| + 1
    ensures t in m ==> |m - multiset{t}| == |m| - 1
  {
    if t in m {
      assert m == (m - multiset{t}) + multiset{t};
    }
  }

  lemma {:induction false} TrySharedKeeps(s: State, t: Tid)
    requires Inv(s) && MayTryShared(s, t)
    ensures Inv(TryShared(s, t))
  {
    MultisetOne(s.readHolds, t);
    var s' := TryShared(s, t);
    OthersUntouched(s, s', t);
  }

  /** A step that only moves t leaves every other thread where it waits. */
  lemma {:induction false} OthersUntouched(s: State, s': State, t: Tid)
    requires forall u :: u != t ==> (u in s'.waits <==> u in s.waits)
    requires forall u :: u != t && u in s.waits ==> s'.waits[u] == s.waits[u]
    ensures forall u, w :: u != t ==> s'.Waits(u, w) == s.Waits(u, w)
    ensures forall w :: s'.SomeWaits(w) ==> s'.Waits(t, w) || s.SomeWaits(w)
  {
    forall w | s'.SomeWaits(w) ensures s'.Waits(t, w) || s.SomeWaits(w) {
      var u :| u in s'.waits && s'.Waits(u, w);
      if u != t { assert s.Waits(u, w); }
    }
  }

  lemma {:induction false} AcquireKeeps(s: State, t: Tid)
    requires Inv(s) && s.IsFree() && (t in s.waits ==> s.Waits(t, WokenWriter))
    ensures Inv(TryExclusive(s, t))
  {
    assert s.readHolds == multiset{};
    OthersUntouched(s, TryExclusive(s, t), t);
  }

  lemma {:induction false} ReenterKeeps(s: State, t: Tid)
    requires Inv(s) && s.recursiveOwner == OwnedBy(t) && t !in s.waits
    ensures Inv(TryExclusive(s, t))
  {
    assert s.waits - {t} == s.waits;
    assert forall u, w :: TryExclusive(s, t).Waits(u, w) == s.Waits(u, w);
  }

  lemma {:induction false} TryExclusiveKeeps(s: State, t: Tid)
    requires Inv(s) && MayTryExclusive(s, t)
    ensures Inv(TryExclusive(s, t))
  {
    if s.IsFree() {
      AcquireKeeps(s, t);
    } else if s.recursiveOwner == OwnedBy(t) {
      assert t in s.writeHolds;
      ReenterKeeps(s, t);
    } else {
      assert t !in s.writeHolds;
      OthersUntouched(s, TryExclusive(s, t), t);
    }
  }

  /** Waking the readers leaves the parked writers as they were. */
  lemma {:induction false} PickStays(s: State, s': State, pick: Tid)
    requires PickIsParked(s, pick)
    requires s'.waits == s.waits || s'.waits == NotifyAllReaders(s).waits
    ensures PickIsParked(s', pick)
  {
    if s'.SomeWaits(ParkedWriter) {
      var t :| t in s'.waits && s'.Waits(t, ParkedWriter);
      assert s.Waits(t, ParkedWriter);
    }
  }

  lemma {:induction false} NotifyOneKeeps(s: State, pick: Tid)
    requires PickIsParked(s, pick) && WaitersDisciplined(s)
    ensures var s' := NotifyOneWriter(s, pick);
            && WaitersDisciplined(s')
            && (s'.SomeWaits(ParkedWriter) ==> s'.SomeWaits(WokenWriter))
            && (s'.SomeWaits(ParkedReader) ==> s.SomeWaits(ParkedReader))
  {
    var s' := NotifyOneWriter(s, pick);
    if s.SomeWaits(ParkedWriter) { assert s'.Waits(pick, WokenWriter); }
    assert forall u, w :: u != pick ==> s'.Waits(u, w) == s.Waits(u, w);
  }

  lemma {:induction false} UnlockSharedKeeps(s: State, t: Tid, pick: Tid)
    requires Inv(s) && MayUnlockShared(s, t, pick)
    ensures Inv(ReleaseShared(s, t, pick))
  {
    MultisetOne(s.readHolds, t);
    var s1 := s.(sharedLockCount := s.sharedLockCount - 1, readHolds := s.readHolds - multiset{t});
    assert forall u, w :: s1.Waits(u, w) == s.Waits(u, w);
    NotifyOneKeeps(s1, pick);
  }

  lemma {:induction false} WakeReadersKeeps(s: State)
    requires WaitersDisciplined(s)
    ensures WaitersDisciplined(NotifyAllReaders(s)) && !NotifyAllReaders(s).SomeWaits(ParkedReader)
  {
    var s' := NotifyAllReaders(s);
    assert forall u :: s'.Waits(u, ParkedWriter) == s.Waits(u, ParkedWriter);
    assert forall u :: s'.Waits(u, WokenWriter) == s.Waits(u, WokenWriter);
  }

  lemma {:induction false} UnlockLastKeeps(s: State, t: Tid, pick: Tid)
    requires Inv(s) && MayUnlock(s, t, pick) && s.recursiveCount == 1
    ensures Inv(WakeAll(FreeExclusive(s, t), pick))
  {
    var s1 := FreeExclusive(s, t);
    assert s1.writeHolds == multiset{};
    assert WaitersDisciplined(s1);
    WakeReadersKeeps(s1);
    PickStays(s, NotifyAllReaders(s1), pick);
    NotifyOneKeeps(NotifyAllReaders(s1), pick);
  }

  lemma {:induction false} UnlockKeeps(s: State, t: Tid, pick: Tid)
    requires Inv(s) && MayUnlock(s, t, pick)
    ensures Inv(ReleaseExclusive(s, t, pick))
  {
    assert s.recursiveOwner == OwnedBy(t);
    if s.recursiveCount == 1 {
      UnlockLastKeeps(s, t, pick);
    } else {
      assert forall u, w :: ReleaseExclusive(s, t, pick).Waits(u, w) == s.Waits(u, w);
    }
  }

  lemma {:induction false} SpuriousKeeps(s: State, t: Tid)
    requires Inv(s) && IsAllowed(s, SpuriousWake(t))
    ensures Inv(Apply(s, SpuriousWake(t)))
  {
    var s' := Apply(s, SpuriousWake(t));
    assert forall u, w :: u != t ==> s'.Waits(u, w) == s.Waits(u, w);
    if s.Waits(t, ParkedWriter) { assert s'.Waits(t, WokenWriter); }
  }

  lemma {:induction false} TryLockSharedKeeps(s: State, t: Tid)
    requires Inv(s) && IsAllowed(s, TryLockShared(t))
    ensures Inv(Apply(s, TryLockShared(t)))
  {
    MultisetOne(s.readHolds, t);
    assert forall u, w :: Apply(s, TryLockShared(t)).Waits(u, w) == s.Waits(u, w);
  }

  lemma {:induction false} StepKeepsInv(s: State, e: Event)
    requires Inv(s) && IsAllowed(s, e)
    ensures Inv(Apply(s, e))
  {
    match e
    case LockShared(t) => TrySharedKeeps(s, t);
    case TryLockShared(t) => TryLockSharedKeeps(s, t);
    case UnlockShared(t, pick) => UnlockSharedKeeps(s, t, pick);
    case Lock(t) => TryExclusiveKeeps(s, t);
    case Unlock(t, pick) => UnlockKeeps(s, t, pick);
    case RetryShared(t) => TrySharedKeeps(s, t);
    case RetryExclusive(t) => TryExclusiveKeeps(s, t);
    case SpuriousWake(t) => SpuriousKeeps(s, t);
  }

  /** A run: events applied one after another, each allowed where it happens. */
  ghost predicate IsRun(s: State, events: seq<Event>)
    decreases |events|
  {
    events == [] || (IsAllowed(s, events[0]) && IsRun(Apply(s, events[0]), events[1..]))
  }

  function Run(s: State, events: seq<Event>): State
    decreases |events|
  {
    if events == [] then s else Run(Apply(s, events[0]), events[1..])
  }

  lemma {:induction false} RunKeepsInv(s: State, events: seq<Event>)
    requires Inv(s) && IsRun(s, events)
    ensures Inv(Run(s, events))
    decreases |events|
  {
    if events != [] {
      StepKeepsInv(s, events[0]);
      RunKeepsInv(Apply(s, events[0]), events[1..]);
    }
  }

  /**
   * After any interleaving: a writer excludes every reader and every other writer, no reader is parked while no writer
   * holds the lock, and a free lock with a parked writer has a writer on its way.
   */
  lemma {:induction false} EveryRunIsSafe(events: seq<Event>, a: Tid, b: Tid)
    requires IsRun(INITIAL, events)
    ensures var s := Run(INITIAL, events);
            && (a in s.writeHolds ==> b !in s.readHolds)
            && (a in s.writeHolds && b in s.writeHolds ==> a == b)
            && (s.writeHolds == multiset{} ==> !s.Waits(a, ParkedReader))
            && (s.writeHolds == multiset{} && s.readHolds == multiset{} && s.Waits(a, ParkedWriter) ==>
                  s.SomeWaits(WokenWriter))
  {
    RunKeepsInv(INITIAL, events);
    var s := Run(INITIAL, events);
    if s.exclusiveLockCount != 0 { assert s.recursiveOwner.tid in s.writeHolds; }
  }

  /** The owner of the write lock is never parked by locking again, and holds it until it unlocked as often. */
  lemma {:induction false} WriterIsRecursive(s: State, t: Tid, pick: Tid)
    requires Inv(s) && t in s.writeHolds && t !in s.waits && PickIsParked(s, pick)
    ensures t !in Apply(s, Lock(t)).waits
    ensures Apply(Apply(s, Lock(t)), Unlock(t, pick)) == s
    ensures s.writeHolds[t] > 1 ==> t in Apply(s, Unlock(t, pick)).writeHolds
  {
    assert s.recursiveOwner == OwnedBy(t);
    assert s.writeHolds + multiset{t} - multiset{t} == s.writeHolds;
    assert s.waits - {t} == s.waits;
  }

  // ---- reading under one's own write lock --------------------------------------------------------

  /** The thread that has the exclusive lock waits: it asked for the shared one. */
  predicate OwnerWaits(s: State) {
    s.recursiveOwner.OwnedBy? && s.recursiveOwner.tid in s.waits
  }

  predicate WaitsToRead(s: State, t: Tid) {
    s.Waits(t, ParkedReader) || s.Waits(t, WokenReader)
  }

  lemma {:induction false} ReadUnderWriteParks(s: State, t: Tid)
    requires Inv(s) && t in s.writeHolds && t !in s.waits
    ensures IsAllowed(s, LockShared(t)) && OwnerWaits(Apply(s, LockShared(t)))
  {
  }

  lemma {:induction false} StuckStep(s: State, e: Event)
    requires Inv(s) && OwnerWaits(s) && IsAllowed(s, e)
    ensures var s' := Apply(s, e);
      OwnerWaits(s') && s'.writeHolds == s.writeHolds && s'.readHolds == s.readHolds && s.waits.Keys <= s'.waits.Keys
  {
    assert s.recursiveOwner.tid in s.writeHolds;
  }

  /** Then nothing moves any more: whatever the threads do, nobody gets or gives back anything, nobody stops waiting. */
  lemma {:induction false} StuckForGood(s: State, events: seq<Event>)
    requires Inv(s) && OwnerWaits(s) && IsRun(s, events)
    ensures var s' := Run(s, events);
      OwnerWaits(s') && s'.writeHolds == s.writeHolds && s'.readHolds == s.readHolds && s.waits.Keys <= s'.waits.Keys
    decreases |events|
  {
    if events != [] {
      StepKeepsInv(s, events[0]);
      StuckStep(s, events[0]);
      StuckForGood(Apply(s, events[0]), events[1..]);
    }
  }

  ghost predicate CanPass(s: State, t: Tid) {
    exists events :: IsRun(s, events) && t !in Run(s, events).waits
  }

  lemma {:induction false} PassLater(s: State, e: Event, t: Tid)
    requires IsAllowed(s, e) && CanPass(Apply(s, e), t)
    ensures CanPass(s, t)
  {
    var events :| IsRun(Apply(s, e), events) && t !in Run(Apply(s, e), events).waits;
    assert ([e] + events)[0] == e && ([e] + events)[1..] == events;
    assert IsRun(s, [e] + events) && t !in Run(s, [e] + events).waits;
  }

  lemma {:induction false} PassNow(s: State, t: Tid)
    requires t !in s.waits
    ensures CanPass(s, t)
  {
    assert IsRun(s, []) && t !in Run(s, []).waits;
  }

  /** The owner can give everything back, and then the reader gets in. */
  lemma {:induction false} ReaderPasses(s: State, t: Tid)
    requires Inv(s) && WaitsToRead(s, t) && !OwnerWaits(s)
    ensures CanPass(s, t)
    decreases s.recursiveCount
  {
    if s.exclusiveLockCount == 0 {
      assert s.SomeWaits(ParkedReader) || s.Waits(t, WokenReader);
      PassNow(Apply(s, RetryShared(t)), t);
      PassLater(s, RetryShared(t), t);
    } else {
      var e := OwnerUnlock(s);
      StepKeepsInv(s, e);
      OwnerUnlockKeeps(s, e, t);
      ReaderPasses(Apply(s, e), t);
      PassLater(s, e, t);
    }
  }

  lemma {:induction false} OwnerUnlock(s: State) returns (e: Event)
    requires Inv(s) && s.exclusiveLockCount != 0 && !OwnerWaits(s)
    ensures e.Unlock? && s.recursiveOwner == OwnedBy(e.t) && IsAllowed(s, e)
  {
    var o := s.recursiveOwner.tid;
    assert o in s.writeHolds;
    if s.SomeWaits(ParkedWriter) {
      var pick :| pick in s.waits && s.Waits(pick, ParkedWriter);
      e := Unlock(o, pick);
    } else {
      e := Unlock(o, o);
    }
  }

  lemma {:induction false} OwnerUnlockKeeps(s: State, e: Event, t: Tid)
    requires Inv(s) && e.Unlock? && s.recursiveOwner == OwnedBy(e.t) && IsAllowed(s, e)
    requires WaitsToRead(s, t) && !OwnerWaits(s)
    ensures var s' := Apply(s, e);
      WaitsToRead(s', t) && !OwnerWaits(s') && 0 <= s'.recursiveCount < s.recursiveCount
  {
    assert e.t in s.writeHolds;
    if s.recursiveCount == 1 {
      var woken := NotifyAllReaders(FreeExclusive(s, e.t));
      PickStays(s, woken, e.pick);
      assert woken.Waits(t, WokenReader);
      assert s.SomeWaits(ParkedWriter) ==> s.Waits(e.pick, ParkedWriter);
    }
  }

  /** A thread that waits to read can still get in if and only if the owner of the exclusive lock does not wait. */
  lemma {:induction false} ReaderPassesExactly(s: State, t: Tid)
    requires Inv(s) && WaitsToRead(s, t)
    ensures CanPass(s, t) <==> !OwnerWaits(s)
  {
    if OwnerWaits(s) {
      forall events | IsRun(s, events) ensures t in Run(s, events).waits {
        StuckForGood(s, events);
      }
    } else {
      ReaderPasses(s, t);
    }
  }

  /** A woken writer that finds the lock free takes it. */
  lemma {:induction false} WokenWriterAcquires(s: State, t: Tid)
    requires Inv(s) && s.IsFree() && s.Waits(t, WokenWriter)
    ensures IsAllowed(s, RetryExclusive(t)) && Apply(s, RetryExclusive(t)).writeHolds == multiset{t}
  {
  }

  // ---- the lock object ---------------------------------------------------------------------

  /** The threads that wait at w. */
  ghost function WaitingAt(waits: map<Tid, Wait>, w: Wait): set<Tid> {
    set t | t in waits && waits[t] == w
  }

  /** The condition variables hold exactly the parked threads. */
  ghost predicate HoldsParked(sharedCv: set<Tid>, exclusiveCv: set<Tid>, waits: map<Tid, Wait>) {
    sharedCv == WaitingAt(waits, ParkedReader) && exclusiveCv == WaitingAt(waits, ParkedWriter)
  }

  lemma {:induction false} ParkReader(sharedCv: set<Tid>, exclusiveCv: set<Tid>, waits: map<Tid, Wait>, t: Tid)
    requires HoldsParked(sharedCv, exclusiveCv, waits) && t !in exclusiveCv
    ensures HoldsParked(sharedCv + {t}, exclusiveCv, waits[t := ParkedReader])
  {
    assert WaitingAt(waits[t := ParkedReader], ParkedReader) == sharedCv + {t};
    assert WaitingAt(waits[t := ParkedReader], ParkedWriter) == exclusiveCv;
  }

  lemma {:induction false} ParkWriter(sharedCv: set<Tid>, exclusiveCv: set<Tid>, waits: map<Tid, Wait>, t: Tid)
    requires HoldsParked(sharedCv, exclusiveCv, waits) && t !in sharedCv
    ensures HoldsParked(sharedCv, exclusiveCv + {t}, waits[t := ParkedWriter])
  {
    assert WaitingAt(waits[t := ParkedWriter], ParkedReader) == sharedCv;
    assert WaitingAt(waits[t := ParkedWriter], ParkedWriter) == exclusiveCv + {t};
  }

  lemma {:induction false} StopWaiting(sharedCv: set<Tid>, exclusiveCv: set<Tid>, waits: map<Tid, Wait>, t: Tid)
    requires HoldsParked(sharedCv, exclusiveCv, waits) && t !in sharedCv && t !in exclusiveCv
    ensures HoldsParked(sharedCv, exclusiveCv, waits - {t})
  {
    assert WaitingAt(waits - {t}, ParkedReader) == sharedCv;
    assert WaitingAt(waits - {t}, ParkedWriter) == exclusiveCv;
  }

  lemma {:induction false} LetGo(sharedCv: set<Tid>, exclusiveCv: set<Tid>, waits: map<Tid, Wait>, t: Tid)
    requires HoldsParked(sharedCv, exclusiveCv, waits)
    ensures HoldsParked(sharedCv - {t}, exclusiveCv - {t}, waits[t := WokenReader])
    ensures HoldsParked(sharedCv - {t}, exclusiveCv - {t}, waits[t := WokenWriter])
  {
    var one, other := waits[t := WokenReader], waits[t := WokenWriter];
    assert WaitingAt(one, ParkedReader) == sharedCv - {t} == WaitingAt(other, ParkedReader);
    assert WaitingAt(one, ParkedWriter) == exclusiveCv - {t} == WaitingAt(other, ParkedWriter);
  }

  lemma {:induction false} WakeReaders(sharedCv: set<Tid>, exclusiveCv: set<Tid>, s: State)
    requires HoldsParked(sharedCv, exclusiveCv, s.waits)
    ensures HoldsParked({}, exclusiveCv, NotifyAllReaders(s).waits)
  {
    assert WaitingAt(NotifyAllReaders(s).waits, ParkedReader) == {};
    assert WaitingAt(NotifyAllReaders(s).waits, ParkedWriter) == exclusiveCv;
  }

  lemma {:induction false} WakeWriter(sharedCv: set<Tid>, exclusiveCv: set<Tid>, s: State, pick: Tid)
    requires HoldsParked(sharedCv, exclusiveCv, s.waits) && PickIsParked(s, pick)
    ensures HoldsParked(sharedCv, exclusiveCv - {pick}, NotifyOneWriter(s, pick).waits)
  {
    var waits := NotifyOneWriter(s, pick).waits;
    if s.SomeWaits(ParkedWriter) {
      assert WaitingAt(waits, ParkedReader) == sharedCv;
      assert WaitingAt(waits, ParkedWriter) == exclusiveCv - {pick};
    } else if pick in exclusiveCv {
      assert s.Waits(pick, ParkedWriter);
    }
  }

  /** The events so far, and the state they lead to from an unused lock. */
  ghost predicate IsHistory(history: seq<Event>, s: State) {
    IsRun(INITIAL, history) && Run(INITIAL, history) == s
  }

  lemma {:induction false} RunAppend(s: State, events: seq<Event>, e: Event)
    requires IsRun(s, events) && IsAllowed(Run(s, events), e)
    ensures IsRun(s, events + [e]) && Run(s, events + [e]) == Apply(Run(s, events), e)
    decreases |events|
  {
    if events == [] {
      assert [] + [e] == [e] && [e][1..] == [];
      assert Run(Apply(s, e), []) == Apply(s, e);
    } else {
      assert (events + [e])[0] == events[0] && (events + [e])[1..] == events[1..] + [e];
      RunAppend(Apply(s, events[0]), events[1..], e);
    }
  }

  lemma {:induction false} HistoryGrows(history: seq<Event>, s: State, e: Event)
    requires IsHistory(history, s) && IsAllowed(s, e)
    ensures IsHistory(history + [e], Apply(s, e))
  {
    RunAppend(INITIAL, history, e);
  }

  /** A turn of lock_shared continues the run; a caller that was waiting has been woken before. */
  lemma {:induction false} SharedTurn(history: seq<Event>, s: State, t: Tid, e: Event)
    requires IsHistory(history, s) && IsAllowed(s, e) && (e == LockShared(t) || e == RetryShared(t))
    ensures IsHistory(history + [e], TryShared(s, t))
    ensures t in s.waits ==> s.waits[t] == WokenReader
  {
    HistoryGrows(history, s, e);
  }

  /** A reader finds the shared lock open exactly while nobody holds the other one. */
  lemma {:induction false} SharedAttempt(history: seq<Event>, s: State, t: Tid)
    requires IsHistory(history, s) && IsAllowed(s, TryLockShared(t))
    ensures IsHistory(history + [TryLockShared(t)], Apply(s, TryLockShared(t)))
    ensures s.exclusiveLockCount == 0 <==> s.writeHolds == multiset{}
  {
    HistoryGrows(history, s, TryLockShared(t));
    RunKeepsInv(INITIAL, history);
    if s.exclusiveLockCount != 0 { assert s.recursiveOwner.tid in s.writeHolds; }
  }

  /** After a turn of lock the caller holds the lock exactly if it does not wait. */
  lemma {:induction false} ExclusiveTurn(history: seq<Event>, s: State, t: Tid, e: Event)
    requires IsHistory(history, s) && IsAllowed(s, e) && (e == Lock(t) || e == RetryExclusive(t))
    ensures IsHistory(history + [e], TryExclusive(s, t))
    ensures t in s.waits ==> s.waits[t] == WokenWriter
    ensures t in TryExclusive(s, t).writeHolds <==> t !in TryExclusive(s, t).waits
  {
    HistoryGrows(history, s, e);
    RunKeepsInv(INITIAL, history);
  }

  /** A writer gives back the only exclusive hold there is. */
  lemma {:induction false} ExclusiveRelease(history: seq<Event>, s: State, t: Tid, pick: Tid)
    requires IsHistory(history, s) && MayUnlock(s, t, pick)
    ensures IsHistory(history + [Unlock(t, pick)], ReleaseExclusive(s, t, pick))
    ensures s.exclusiveLockCount == 1
    ensures PickIsParked(FreeExclusive(s, t), pick)
  {
    HistoryGrows(history, s, Unlock(t, pick));
    RunKeepsInv(INITIAL, history);
    PickStays(s, FreeExclusive(s, t), pick);
  }

  /**
   * The lock itself, its condition variables included. Each method is one critical section of its mutex: the body of a
   * lock call is a sequence of turns, with a wait on a condition variable after each turn that did not acquire. The
   * object is always where some run of the critical sections leads, so what holds of every run holds of it.
   */
  class SharedMutex {
    var sharedLockCount: int
    var exclusiveLockCount: int
    var recursiveOwner: Owner
    var recursiveCount: int
    var sharedCv: set<Tid>
    var exclusiveCv: set<Tid>
    ghost var readHolds: multiset<Tid>
    ghost var writeHolds: multiset<Tid>
    ghost var waits: map<Tid, Wait>
    ghost var history: seq<Event>

    ghost function Now(): State
      reads this
    {
      State(sharedLockCount, exclusiveLockCount, recursiveOwner, recursiveCount, readHolds, writeHolds, waits)
    }

    ghost predicate CvsMatch()
      reads this
    {
      HoldsParked(sharedCv, exclusiveCv, waits)
    }

    ghost predicate Valid()
      reads this
    {
      CvsMatch() && IsHistory(history, Now())
    }

    constructor ()
      ensures Valid() && Now() == INITIAL && history == []
    {
      sharedLockCount, exclusiveLockCount, recursiveOwner, recursiveCount := 0, 0, NoOwner, 0;
      sharedCv, exclusiveCv := {}, {};
      readHolds, writeHolds, waits, history := multiset{}, multiset{}, map[], [];
    }

    /** notify_all on the readers' condition variable. */
    method NotifyAllShared()
      requires CvsMatch()
      modifies `sharedCv, `waits
      ensures CvsMatch() && Now() == NotifyAllReaders(old(Now()))
      ensures sharedCv == {}
    {
      WakeReaders(sharedCv, exclusiveCv, Now());
      sharedCv := {};
      waits := NotifyAllReaders(Now()).waits;
    }

    /** notify_one on the writers' condition variable; which writer it takes is not the lock's to choose. */
    method NotifyOneExclusive(pick: Tid)
      requires CvsMatch() && PickIsParked(Now(), pick)
      modifies `exclusiveCv, `waits
      ensures CvsMatch() && Now() == NotifyOneWriter(old(Now()), pick)
      ensures exclusiveCv == old(exclusiveCv) - {pick}
    {
      WakeWriter(sharedCv, exclusiveCv, Now(), pick);
      exclusiveCv := exclusiveCv - {pick};
      waits := NotifyOneWriter(Now(), pick).waits;
    }

    /** The end of the last exclusive hold: every reader is woken, then one writer. */
    method NotifyBoth(pick: Tid)
      requires CvsMatch() && PickIsParked(Now(), pick)
      modifies `sharedCv, `exclusiveCv, `waits
      ensures CvsMatch() && Now() == WakeAll(old(Now()), pick)
      ensures sharedCv == {} && exclusiveCv == old(exclusiveCv) - {pick}
    {
      PickStays(Now(), NotifyAllReaders(Now()), pick);
      NotifyAllShared();
      NotifyOneExclusive(pick);
    }

    method LockSharedTurn(t: Tid, ghost e: Event) returns (acquired: bool)
      requires Valid() && IsAllowed(Now(), e) && (e == LockShared(t) || e == RetryShared(t))
      modifies this
      ensures Valid() && history == old(history) + [e]
      ensures Now() == TryShared(old(Now()), t)
      ensures acquired <==> readHolds == old(readHolds) + multiset{t}
      ensures acquired <==> t !in sharedCv
    {
      SharedTurn(history, Now(), t, e);
      if exclusiveLockCount > 0 {
        acquired := false;
        ParkReader(sharedCv, exclusiveCv, waits, t);
        sharedCv := sharedCv + {t};
        waits := waits[t := ParkedReader];
      } else {
        acquired := true;
        sharedLockCount := sharedLockCount + 1;
        StopWaiting(sharedCv, exclusiveCv, waits, t);
        readHolds, waits := readHolds + multiset{t}, waits - {t};
      }
      history := history + [e];
    }

    method TryLockShared(t: Tid) returns (acquired: bool)
      requires Valid() && IsAllowed(Now(), Event.TryLockShared(t))
      modifies this
      ensures Valid() && history == old(history) + [Event.TryLockShared(t)]
      ensures Now() == Apply(old(Now()), Event.TryLockShared(t))
      ensures acquired <==> old(writeHolds) == multiset{}
    {
      SharedAttempt(history, Now(), t);
      acquired := exclusiveLockCount == 0;
      if acquired {
        sharedLockCount := sharedLockCount + 1;
        readHolds := readHolds + multiset{t};
      }
      history := history + [Event.TryLockShared(t)];
    }

    /** Gives one hold back; the last one notifies a writer. */
    method UnlockShared(t: Tid, pick: Tid)
      requires Valid() && MayUnlockShared(Now(), t, pick)
      modifies this
      ensures Valid() && history == old(history) + [Event.UnlockShared(t, pick)]
      ensures Now() == ReleaseShared(old(Now()), t, pick)
      ensures exclusiveCv == if sharedLockCount == 0 then old(exclusiveCv) - {pick} else old(exclusiveCv)
    {
      HistoryGrows(history, Now(), Event.UnlockShared(t, pick));
      sharedLockCount := sharedLockCount - 1;
      readHolds := readHolds - multiset{t};
      PickStays(old(Now()), Now(), pick);
      if sharedLockCount == 0 {
        NotifyOneExclusive(pick);
      }
      history := history + [Event.UnlockShared(t, pick)];
    }

    method LockTurn(t: Tid, ghost e: Event) returns (acquired: bool)
      requires Valid() && IsAllowed(Now(), e) && (e == Lock(t) || e == RetryExclusive(t))
      modifies this
      ensures Valid() && history == old(history) + [e]
      ensures Now() == TryExclusive(old(Now()), t)
      ensures acquired <==> t in writeHolds
      ensures acquired <==> t !in exclusiveCv
    {
      ghost var was := Now();
      ExclusiveTurn(history, was, t, e);
      acquired := true;
      if sharedLockCount > 0 || exclusiveLockCount > 0 {
        if recursiveOwner == OwnedBy(t) {
          recursiveCount := recursiveCount + 1;
        } else {
          acquired := false;
          ParkWriter(sharedCv, exclusiveCv, waits, t);
          exclusiveCv := exclusiveCv + {t};
        }
      } else {
        recursiveOwner, recursiveCount, exclusiveLockCount := OwnedBy(t), 1, exclusiveLockCount + 1;
      }
      if acquired { StopWaiting(sharedCv, exclusiveCv, waits, t); }
      writeHolds, waits := TryExclusive(was, t).writeHolds, TryExclusive(was, t).waits;
      history := history + [e];
    }

    /** The last exclusive hold goes: all readers and a writer are notified. */
    method FreeLock(t: Tid, pick: Tid)
      requires CvsMatch() && PickIsParked(FreeExclusive(Now(), t), pick) && exclusiveLockCount == 1
      modifies this
      ensures CvsMatch() && Now() == WakeAll(FreeExclusive(old(Now()), t), pick) && history == old(history)
      ensures sharedCv == {} && exclusiveCv == old(exclusiveCv) - {pick}
    {
      writeHolds := writeHolds - multiset{t};
      recursiveOwner, recursiveCount, exclusiveLockCount := NoOwner, 0, exclusiveLockCount - 1;
      if exclusiveLockCount == 0 {
        NotifyBoth(pick);
      }
    }

    /** A condition variable lets a thread go that nobody notified. */
    method WakeSpuriously(t: Tid)
      requires Valid() && IsAllowed(Now(), SpuriousWake(t))
      modifies `sharedCv, `exclusiveCv, `waits, `history
      ensures Valid() && history == old(history) + [SpuriousWake(t)]
      ensures Now() == Apply(old(Now()), SpuriousWake(t))
      ensures sharedCv == old(sharedCv) - {t} && exclusiveCv == old(exclusiveCv) - {t}
    {
      HistoryGrows(history, Now(), SpuriousWake(t));
      LetGo(sharedCv, exclusiveCv, waits, t);
      sharedCv, exclusiveCv := sharedCv - {t}, exclusiveCv - {t};
      waits := Apply(Now(), SpuriousWake(t)).waits;
      history := history + [SpuriousWake(t)];
    }

    /** Undoes one lock; the last one notifies all readers and a writer. */
    method Unlock(t: Tid, pick: Tid)
      requires Valid() && MayUnlock(Now(), t, pick)
      modifies this
      ensures Valid() && history == old(history) + [Event.Unlock(t, pick)]
      ensures Now() == ReleaseExclusive(old(Now()), t, pick)
      ensures sharedCv == if exclusiveLockCount == 0 then {} else old(sharedCv)
      ensures exclusiveCv == if exclusiveLockCount == 0 then old(exclusiveCv) - {pick} else old(exclusiveCv)
    {
      ExclusiveRelease(history, Now(), t, pick);
      if recursiveOwner == OwnedBy(t) && recursiveCount > 1 {
        recursiveCount := recursiveCount - 1;
        writeHolds := writeHolds - multiset{t};
      } else {
        FreeLock(t, pick);
      }
      history := history + [Event.Unlock(t, pick)];
    }
  }
}
