/** The lock tracer's tables and its wait-for-chain deadlock detector. */
module LockTrace {

  type Tid = nat
  type Mutex = nat

  /** mLocks, mWaitLocks, mOwnLocks, mEnableRecurisives and mMaxBlockTids. */
  datatype Tables = Tables(
    locks: map<Mutex, Tid>,
    waitLocks: map<Tid, Mutex>,
    ownLocks: map<Tid, set<Mutex>>,
    recursives: set<Mutex>,
    maxBlockTids: int)
  {
    function Owned(t: Tid): set<Mutex> {
      if t in ownLocks then ownLocks[t] else {}
    }
  }

  /** Both directions of the ownership tables agree. */
  ghost predicate Consistent(ts: Tables) {
    forall m, t :: m in ts.Owned(t) <==> m in ts.locks && ts.locks[m] == t
  }

  // ---- the detector ------------------------------------------------------------------------

  /** The recursive chase: is thread `other` waiting, through owners of mutexes, for a mutex in `owned`? */
  function Chase(ts: Tables, owned: set<Mutex>, other: Tid, depth: int): bool
    decreases ts.maxBlockTids - depth
  {
    if depth >= ts.maxBlockTids || other !in ts.waitLocks then false
    else
      var m := ts.waitLocks[other];
      if m in owned then true
      else if m !in ts.locks then false
      else Chase(ts, owned, ts.locks[m], depth + 1)
  }

  /** The entry check: it first records that the caller waits for the mutex. */
  function Recorded(ts: Tables, mutex: Mutex, t: Tid): Tables {
    ts.(waitLocks := ts.waitLocks[t := mutex])
  }

  predicate DeadlockCheck(ts: Tables, mutex: Mutex, t: Tid) {
    var ts' := Recorded(ts, mutex, t);
    && mutex in ts.locks
    && if ts.locks[mutex] == t then mutex !in ts.recursives
       else ts.Owned(t) != {} && Chase(ts', ts.Owned(t), ts.locks[mutex], 1)
  }

  // ---- wait-for cycles ---------------------------------------------------------------------

  /** a waits for a mutex that b owns. */
  predicate WaitsFor(ts: Tables, a: Tid, b: Tid) {
    a in ts.waitLocks && ts.waitLocks[a] in ts.locks && ts.locks[ts.waitLocks[a]] == b
  }

  /** Each thread of the path waits for the next. */
  predicate IsWaitPath(ts: Tables, path: seq<Tid>) {
    forall i :: 0 <= i < |path| - 1 ==> WaitsFor(ts, path[i], path[i + 1])
  }

  /** A cycle through t: a wait path from t to t that does not visit t in between. */
  predicate IsCycle(ts: Tables, t: Tid, path: seq<Tid>) {
    && |path| >= 2 && path[0] == t && path[|path| - 1] == t
    && IsWaitPath(ts, path)
    && forall i :: 1 <= i < |path| - 1 ==> path[i] != t
  }

  lemma {:induction false} TailPath(ts: Tables, path: seq<Tid>)
    requires |path| >= 1 && IsWaitPath(ts, path)
    ensures IsWaitPath(ts, path[1..])
  {
    forall i | 0 <= i < |path[1..]| - 1 ensures WaitsFor(ts, path[1..][i], path[1..][i + 1]) {
      assert WaitsFor(ts, path[i + 1], path[i + 1 + 1]);
    }
  }

  /** What the chase found: a wait path from `other` to the caller. */
  lemma {:induction false} ChaseFinds(ts: Tables, t: Tid, other: Tid, depth: int) returns (path: seq<Tid>)
    requires Consistent(ts) && other != t && Chase(ts, ts.Owned(t), other, depth)
    ensures |path| >= 2 && path[0] == other && path[|path| - 1] == t && IsWaitPath(ts, path)
    ensures forall i :: 0 <= i < |path| - 1 ==> path[i] != t
    decreases ts.maxBlockTids - depth
  {
    var m := ts.waitLocks[other];
    if m in ts.Owned(t) {
      path := [other, t];
    } else {
      var next := ts.locks[m];
      assert next != t by { assert m in ts.locks && m !in ts.Owned(t); }
      var rest := ChaseFinds(ts, t, next, depth + 1);
      path := [other] + rest;
      assert forall i :: 1 <= i < |path| ==> path[i] == rest[i - 1];
    }
  }

  /** Every short enough wait path back to the caller is followed to its end. */
  lemma {:induction false} ChaseFollows(ts: Tables, t: Tid, path: seq<Tid>, depth: int)
    requires Consistent(ts) && |path| >= 2 && path[|path| - 1] == t && IsWaitPath(ts, path)
    requires forall i :: 0 <= i < |path| - 1 ==> path[i] != t
    requires depth + |path| - 2 < ts.maxBlockTids
    ensures Chase(ts, ts.Owned(t), path[0], depth)
    decreases |path|
  {
    assert WaitsFor(ts, path[0], path[1]);
    if |path| > 2 {
      var rest := path[1..];
      assert forall i :: 0 <= i < |rest| ==> rest[i] == path[i + 1];
      TailPath(ts, path);
      ChaseFollows(ts, t, rest, depth + 1);
    }
  }

  lemma {:induction false} RecordedConsistent(ts: Tables, mutex: Mutex, t: Tid)
    requires Consistent(ts)
    ensures Consistent(Recorded(ts, mutex, t))
  {
    assert forall u :: Recorded(ts, mutex, t).Owned(u) == ts.Owned(u);
  }

  /** A report stands for a cycle of table entries through the caller; whether the threads really wait is another matter. */
  lemma {:induction false} ReportIsSound(ts: Tables, mutex: Mutex, t: Tid) returns (path: seq<Tid>)
    requires Consistent(ts) && DeadlockCheck(ts, mutex, t)
    ensures IsCycle(Recorded(ts, mutex, t), t, path)
  {
    var ts' := Recorded(ts, mutex, t);
    RecordedConsistent(ts, mutex, t);
    if ts.locks[mutex] == t {
      path := [t, t];
    } else {
      var rest := ChaseFinds(ts', t, ts.locks[mutex], 1);
      path := [t] + rest;
      assert forall i :: 1 <= i < |path| ==> path[i] == rest[i - 1];
    }
  }

  /**
   * Every cycle of entries through the caller with fewer than mMaxBlockTids other threads is reported, except that locking a
   * recursive mutex again is no deadlock.
   */
  lemma {:induction false} CyclesAreReported(ts: Tables, mutex: Mutex, t: Tid, path: seq<Tid>)
    requires Consistent(ts) && IsCycle(Recorded(ts, mutex, t), t, path)
    requires |path| - 2 < ts.maxBlockTids
    requires |path| == 2 ==> mutex !in ts.recursives
    ensures DeadlockCheck(ts, mutex, t)
  {
    var ts' := Recorded(ts, mutex, t);
    RecordedConsistent(ts, mutex, t);
    assert WaitsFor(ts', path[0], path[1]);
    if |path| > 2 {
      var rest := path[1..];
      assert forall i :: 0 <= i < |rest| ==> rest[i] == path[i + 1];
      TailPath(ts', path);
      ChaseFollows(ts', t, rest, 1);
      assert WaitsFor(ts', path[|path| - 2], path[|path| - 1]);
      var m := ts'.waitLocks[path[|path| - 2]];
      assert m in ts.Owned(t);
    }
  }

  /** With mMaxBlockTids or more other threads in the chain the chase gives up. */
  lemma {:induction false} LongCyclesAreMissed(ts: Tables, mutex: Mutex, t: Tid, path: seq<Tid>)
    requires Consistent(ts) && IsCycle(Recorded(ts, mutex, t), t, path)
    requires |path| > 2 && |path| - 2 >= ts.maxBlockTids
    ensures !DeadlockCheck(ts, mutex, t)
  {
    var ts' := Recorded(ts, mutex, t);
    RecordedConsistent(ts, mutex, t);
    assert WaitsFor(ts', path[0], path[1]);
    var rest := path[1..];
    assert forall i :: 0 <= i < |rest| ==> rest[i] == path[i + 1];
    TailPath(ts', path);
    ChaseGivesUp(ts', t, rest, 1);
  }

  /**
   * A cycle of entries through the caller is reported if and only if it is short enough, or is a second lock of a plain
   * mutex.
   */
  lemma {:induction false} CycleIsReportedExactly(ts: Tables, mutex: Mutex, t: Tid, path: seq<Tid>)
    requires Consistent(ts) && IsCycle(Recorded(ts, mutex, t), t, path)
    ensures DeadlockCheck(ts, mutex, t) <==>
            if |path| == 2 then mutex !in ts.recursives else |path| - 2 < ts.maxBlockTids
  {
    assert WaitsFor(Recorded(ts, mutex, t), path[0], path[1]);
    if |path| > 2 {
      if |path| - 2 < ts.maxBlockTids {
        CyclesAreReported(ts, mutex, t, path);
      } else {
        LongCyclesAreMissed(ts, mutex, t, path);
      }
    }
  }

  lemma {:induction false} ChaseGivesUp(ts: Tables, t: Tid, path: seq<Tid>, depth: int)
    requires Consistent(ts) && |path| >= 2 && path[|path| - 1] == t && IsWaitPath(ts, path)
    requires forall i :: 0 <= i < |path| - 1 ==> path[i] != t
    requires depth + |path| - 2 >= ts.maxBlockTids
    ensures !Chase(ts, ts.Owned(t), path[0], depth)
    decreases ts.maxBlockTids - depth
  {
    if depth < ts.maxBlockTids {
      assert WaitsFor(ts, path[0], path[1]);
      var rest := path[1..];
      assert forall i :: 0 <= i < |rest| ==> rest[i] == path[i + 1];
      TailPath(ts, path);
      assert ts.waitLocks[path[0]] !in ts.Owned(t);
      ChaseGivesUp(ts, t, rest, depth + 1);
    }
  }

  // ---- what updates the tables -------------------------------------------------------------

  /** insertLock: an owner that is recorded already stays. */
  function RecordLock(ts: Tables, mutex: Mutex, t: Tid): Tables {
    Tables(if mutex in ts.locks then ts.locks else ts.locks[mutex := t],
           ts.waitLocks - {t}, ts.ownLocks[t := ts.Owned(t) + {mutex}], ts.recursives, ts.maxBlockTids)
  }

  /** LockTrace::unlock: the entry goes, whoever it was for. */
  function EraseLock(ts: Tables, mutex: Mutex, t: Tid): Tables {
    ts.(locks := ts.locks - {mutex}, ownLocks := ts.ownLocks[t := ts.Owned(t) - {mutex}])
  }

  predicate IsRecordedForAnother(ts: Tables, mutex: Mutex, t: Tid) {
    mutex in ts.locks && ts.locks[mutex] != t
  }

  /** Recording an owner keeps the tables consistent if and only if no other owner is recorded. */
  lemma {:induction false} RecordKeepsExactly(ts: Tables, mutex: Mutex, t: Tid)
    requires Consistent(ts)
    ensures Consistent(RecordLock(ts, mutex, t)) <==> !IsRecordedForAnother(ts, mutex, t)
  {
    var after := RecordLock(ts, mutex, t);
    assert mutex in after.Owned(t);
    if !IsRecordedForAnother(ts, mutex, t) {
      forall m, u ensures m in after.Owned(u) <==> m in after.locks && after.locks[m] == u {
        assert m in ts.Owned(u) <==> m in ts.locks && ts.locks[m] == u;
      }
    }
  }

  /** So does erasing one. */
  lemma {:induction false} EraseKeepsExactly(ts: Tables, mutex: Mutex, t: Tid)
    requires Consistent(ts)
    ensures Consistent(EraseLock(ts, mutex, t)) <==> !IsRecordedForAnother(ts, mutex, t)
  {
    var after := EraseLock(ts, mutex, t);
    if IsRecordedForAnother(ts, mutex, t) {
      assert mutex in ts.Owned(ts.locks[mutex]);
      assert mutex in after.Owned(ts.locks[mutex]) && mutex !in after.locks;
    } else {
      forall m, u ensures m in after.Owned(u) <==> m in after.locks && after.locks[m] == u {
        assert m in ts.Owned(u) <==> m in ts.locks && ts.locks[m] == u;
      }
    }
  }

  // ---- the tracer object -------------------------------------------------------------------

  /** The tables as they are updated, one call at a time. */
  class Tracer {
    var locks: map<Mutex, Tid>
    var waitLocks: map<Tid, Mutex>
    var ownLocks: map<Tid, set<Mutex>>
    var recursives: set<Mutex>
    const maxBlockTids: int

    constructor (maxBlockTids: int)
      ensures Consistent(View()) && this.maxBlockTids == maxBlockTids
    {
      locks, waitLocks, ownLocks, recursives := map[], map[], map[], {};
      this.maxBlockTids := maxBlockTids;
    }

    function View(): Tables
      reads this
    {
      Tables(locks, waitLocks, ownLocks, recursives, maxBlockTids)
    }

    /** deadlockCheck on the caller's behalf, which records the wait whether or not it reports anything. */
    method Check(mutex: Mutex, t: Tid) returns (deadlock: bool)
      modifies this
      ensures View() == Recorded(old(View()), mutex, t)
      ensures deadlock == DeadlockCheck(old(View()), mutex, t)
      ensures old(Consistent(View())) ==> Consistent(View())
    {
      if Consistent(View()) {
        RecordedConsistent(View(), mutex, t);
      }
      waitLocks := waitLocks[t := mutex];
      if mutex !in locks {
        return false;
      }
      var other := locks[mutex];
      if other == t {
        return mutex !in recursives;
      }
      if t !in ownLocks || ownLocks[t] == {} {
        return false;
      }
      return Chase(View(), ownLocks[t], other, 1);
    }

    /** An owner recorded before stays; the tables stay consistent exactly if that is nobody else. */
    method Lock(mutex: Mutex, t: Tid)
      modifies this
      ensures View() == RecordLock(old(View()), mutex, t)
      ensures old(Consistent(View())) ==> (Consistent(View()) <==> !IsRecordedForAnother(old(View()), mutex, t))
    {
      if Consistent(View()) {
        RecordKeepsExactly(View(), mutex, t);
      }
      if mutex !in locks {
        locks := locks[mutex := t];
      }
      waitLocks := waitLocks - {t};
      ownLocks := ownLocks[t := (if t in ownLocks then ownLocks[t] else {}) + {mutex}];
    }

    /** The entry goes whoever it was for; the tables stay consistent exactly if it was for nobody else. */
    method Unlock(mutex: Mutex, t: Tid)
      modifies this
      ensures View() == EraseLock(old(View()), mutex, t)
      ensures old(Consistent(View())) ==> (Consistent(View()) <==> !IsRecordedForAnother(old(View()), mutex, t))
    {
      if Consistent(View()) {
        EraseKeepsExactly(View(), mutex, t);
      }
      locks := locks - {mutex};
      ownLocks := ownLocks[t := (if t in ownLocks then ownLocks[t] else {}) - {mutex}];
    }
  }
}
