/** What a report of the lock tracer says about the threads themselves, and which of their deadlocks it reports. */
module LockTraceDeadlocks {
  import opened LockTrace
  import opened LockTraceRuns

  /** a waits for a mutex that b holds, and cannot get it: it is not a second lock of a recursive one. */
  predicate IsBlockedBy(s: State, a: Tid, b: Tid) {
    && s.At(a).WANTS? && s.Holds(b, s.At(a).mutex)
    && (a == b ==> s.At(a).mutex !in s.tables.recursives)
  }

  /** A deadlock through t: from t on, each thread is blocked by the next, and the last is t again. */
  predicate IsDeadlock(s: State, t: Tid, path: seq<Tid>) {
    && |path| >= 2 && path[0] == t && path[|path| - 1] == t
    && (forall i :: 0 <= i < |path| - 1 ==> IsBlockedBy(s, path[i], path[i + 1]))
    && (forall i :: 1 <= i < |path| - 1 ==> path[i] != t)
  }

  /** Few enough threads for the chase; locking a mutex that the caller holds takes no chase. */
  predicate IsShort(ts: Tables, path: seq<Tid>) {
    |path| == 2 || |path| - 2 < ts.maxBlockTids
  }

  lemma {:induction false} BlockedExactly(s: State, a: Tid)
    requires s.At(a).WANTS?
    ensures IsAllowed(s, Acquire(a)) <==> forall b :: !IsBlockedBy(s, a, b)
  {
    var m := s.At(a).mutex;
    if m in s.holders {
      var b := s.holders[m].tid;
      assert IsBlockedBy(s, a, b) <==> !IsAllowed(s, Acquire(a));
    }
  }

  lemma {:induction false} DeadlockedWants(s: State, t: Tid, path: seq<Tid>, i: nat)
    requires IsDeadlock(s, t, path) && i < |path|
    ensures s.At(path[i]).WANTS?
  {
    var k := if i < |path| - 1 then i else 0;
    assert IsBlockedBy(s, path[k], path[k + 1]);
  }

  /** A deadlock is for good: nothing but a try-lock that gives up on it ends it. */
  lemma {:induction false} DeadlockStays(s: State, e: Event, t: Tid, path: seq<Tid>)
    requires IsDeadlock(s, t, path) && IsAllowed(s, e) && !(e.TryFail? && e.tid in path)
    ensures IsDeadlock(Apply(s, e), t, path)
  {
    forall i | 0 <= i < |path| - 1 ensures IsBlockedBy(Apply(s, e), path[i], path[i + 1]) {
      assert IsBlockedBy(s, path[i], path[i + 1]);
      DeadlockedWants(s, t, path, i + 1);
      BlockedStays(s, e, path[i], path[i + 1]);
    }
  }

  lemma {:induction false} BlockedStays(s: State, e: Event, a: Tid, b: Tid)
    requires IsBlockedBy(s, a, b) && IsAllowed(s, e) && s.At(b).WANTS?
    requires !(e.TryFail? && (e.tid == a || e.tid == b))
    ensures IsBlockedBy(Apply(s, e), a, b)
  {
    if e.tid != a { OthersStay(s, e, a); }
    if e.tid != b { OthersStay(s, e, b); }
  }

  // ---- table entries and threads -------------------------------------------------------------

  /** b has given the mutex back, and its entry is not erased yet. */
  predicate HasLetGo(s: State, b: Tid, m: Mutex) {
    s.At(b) == RELEASED(m) && !s.Holds(b, m)
  }

  /** A wait in the tables is a real one exactly if the thread still waits and the owner has not let go. */
  lemma {:induction false} EdgeIsRealExactly(s: State, a: Tid, b: Tid)
    requires Inv(s) && Consistent(s.tables) && WaitsFor(s.tables, a, b)
    requires a == b ==> s.tables.waitLocks[a] !in s.tables.recursives
    ensures IsBlockedBy(s, a, b) <==> s.At(a).WANTS? && !HasLetGo(s, b, s.At(a).mutex)
  {
    var m := s.tables.waitLocks[a];
    assert m in s.tables.Owned(b);
  }

  lemma {:induction false} StaysStuck(ts: Tables, path: seq<Tid>, i: nat, j: nat)
    requires IsWaitPath(ts, path) && i <= j < |path| && i + 1 < |path| && path[i] == path[i + 1]
    ensures path[j] == path[i]
    decreases j
  {
    if i < j {
      StaysStuck(ts, path, i, j - 1);
      assert WaitsFor(ts, path[i], path[i + 1]) && WaitsFor(ts, path[j - 1], path[j - 1 + 1]);
    }
  }

  /** No thread of a longer cycle waits for itself. */
  lemma {:induction false} NoSelfWait(ts: Tables, t: Tid, path: seq<Tid>, i: nat)
    requires IsCycle(ts, t, path) && |path| > 2 && i < |path| - 1
    ensures path[i] != path[i + 1]
  {
    if i > 0 && path[i] == path[i + 1] {
      StaysStuck(ts, path, i, |path| - 1);
    }
  }

  /** Every thread of the path still waits, and for an owner that has not let go. */
  predicate AllStillWait(s: State, path: seq<Tid>) {
    forall i :: 0 <= i < |path| - 1 ==> StillWaits(s, path, i)
  }

  predicate StillWaits(s: State, path: seq<Tid>, i: nat)
    requires i + 1 < |path|
  {
    s.At(path[i]).WANTS? && !HasLetGo(s, path[i + 1], s.At(path[i]).mutex)
  }

  /** A reported cycle is a deadlock if and only if all its threads still wait. */
  lemma {:induction false} ReportIsRealExactly(s: State, t: Tid, mutex: Mutex, path: seq<Tid>)
    requires Inv(s) && Consistent(s.tables) && IsAllowed(s, Check(t, mutex))
    requires DeadlockCheck(s.tables, mutex, t) && IsCycle(Apply(s, Check(t, mutex)).tables, t, path)
    ensures var s' := Apply(s, Check(t, mutex));
      IsDeadlock(s', t, path) <==> AllStillWait(s', path)
  {
    var s' := Apply(s, Check(t, mutex));
    CheckKeeps(s, t, mutex);
    assert WaitsFor(s'.tables, path[0], path[1]);
    if AllStillWait(s', path) {
      forall i | 0 <= i < |path| - 1 ensures IsBlockedBy(s', path[i], path[i + 1]) {
        assert StillWaits(s', path, i);
        CycleEdge(s', t, path, i);
      }
    }
    if IsDeadlock(s', t, path) {
      forall i | 0 <= i < |path| - 1 ensures StillWaits(s', path, i) {
        assert IsBlockedBy(s', path[i], path[i + 1]);
        CycleEdge(s', t, path, i);
      }
    }
  }

  lemma {:induction false} CycleEdge(s: State, t: Tid, path: seq<Tid>, i: nat)
    requires Inv(s) && Consistent(s.tables) && IsCycle(s.tables, t, path) && i < |path| - 1
    requires t in s.tables.waitLocks && (|path| == 2 ==> s.tables.waitLocks[t] !in s.tables.recursives)
    ensures IsBlockedBy(s, path[i], path[i + 1]) <==> StillWaits(s, path, i)
  {
    assert WaitsFor(s.tables, path[i], path[i + 1]);
    if |path| > 2 { NoSelfWait(s.tables, t, path, i); }
    EdgeIsRealExactly(s, path[i], path[i + 1]);
  }

  lemma {:induction false} CheckKeeps(s: State, t: Tid, mutex: Mutex)
    requires Inv(s) && Consistent(s.tables) && IsAllowed(s, Check(t, mutex))
    ensures Inv(Apply(s, Check(t, mutex))) && Consistent(Apply(s, Check(t, mutex)).tables)
  {
    StepKeepsInv(s, Check(t, mutex));
    StepKeepsTablesExactly(s, Check(t, mutex));
  }

  // ---- without failing try-locks -------------------------------------------------------------

  /** Whoever is recorded as waiting is, or has just got what it waited for. */
  ghost predicate WaitsAreFresh(s: State) {
    forall t :: t in s.tables.waitLocks ==>
      s.At(t) == WANTS(s.tables.waitLocks[t]) || s.At(t) == GOT(s.tables.waitLocks[t])
  }

  /** A step leaves a stale entry behind if and only if it is a try-lock that fails. */
  lemma {:induction false} StepStaysFreshExactly(s: State, e: Event)
    requires PcsAgree(s) && WaitsAreFresh(s) && IsAllowed(s, e)
    ensures WaitsAreFresh(Apply(s, e)) <==> !e.TryFail?
  {
    var s' := Apply(s, e);
    if e.TryFail? {
      assert e.tid in s'.tables.waitLocks && s'.At(e.tid).IDLE?;
    } else {
      forall t | t in s'.tables.waitLocks
        ensures s'.At(t) == WANTS(s'.tables.waitLocks[t]) || s'.At(t) == GOT(s'.tables.waitLocks[t])
      {
        if t != e.tid { OthersStay(s, e, t); }
      }
    }
  }

  /** Then nobody on a cycle of table entries has moved on. */
  lemma {:induction false} FreshStillWaits(s: State, t: Tid, path: seq<Tid>, i: nat)
    requires Inv(s) && Consistent(s.tables) && WaitsAreFresh(s) && s.At(t).WANTS?
    requires IsCycle(s.tables, t, path) && i < |path| - 1
    ensures StillWaits(s, path, i)
  {
    var a, b := path[i], path[i + 1];
    assert WaitsFor(s.tables, a, b);
    var m := s.tables.waitLocks[a];
    assert m in s.tables.Owned(b);
    if i + 1 < |path| - 1 { assert WaitsFor(s.tables, path[i + 1], path[i + 1 + 1]); }
    assert s.Holds(b, m) && !s.At(b).RELEASED?;
    if |path| > 2 { NoSelfWait(s.tables, t, path, i); }
  }

  /** So every report is a deadlock, recursive mutexes included. */
  lemma {:induction false} FreshReportIsReal(s: State, t: Tid, mutex: Mutex) returns (path: seq<Tid>)
    requires Inv(s) && Consistent(s.tables) && WaitsAreFresh(s)
    requires IsAllowed(s, Check(t, mutex)) && DeadlockCheck(s.tables, mutex, t)
    ensures var s' := Apply(s, Check(t, mutex));
      IsDeadlock(s', t, path) && IsCycle(s'.tables, t, path)
  {
    var s' := Apply(s, Check(t, mutex));
    CheckKeeps(s, t, mutex);
    StepStaysFreshExactly(s, Check(t, mutex));
    path := ReportIsSound(s.tables, mutex, t);
    forall i | 0 <= i < |path| - 1 ensures StillWaits(s', path, i) {
      FreshStillWaits(s', t, path, i);
    }
    ReportIsRealExactly(s, t, mutex, path);
  }

  // ---- which deadlocks are reported ------------------------------------------------------------

  /** Every mutex of the deadlock is recorded for its holder. */
  predicate IsTraced(s: State, t: Tid, path: seq<Tid>)
    requires IsDeadlock(s, t, path)
  {
    forall i :: 0 <= i < |path| - 1 ==> HoldIsRecorded(s, path[i], path[i + 1])
  }

  predicate HoldIsRecorded(s: State, a: Tid, b: Tid) {
    s.At(a).WANTS? && s.At(a).mutex in s.tables.Owned(b)
  }

  predicate IsPlain(s: State, path: seq<Tid>) {
    forall i :: 0 <= i < |path| - 1 ==> s.At(path[i]).WANTS? ==> s.At(path[i]).mutex !in s.tables.recursives
  }

  /** A plain mutex of a deadlock always is. */
  lemma {:induction false} PlainIsTraced(s: State, t: Tid, path: seq<Tid>)
    requires Inv(s) && IsDeadlock(s, t, path) && IsPlain(s, path)
    ensures IsTraced(s, t, path)
  {
    forall i | 0 <= i < |path| - 1 ensures HoldIsRecorded(s, path[i], path[i + 1]) {
      assert IsBlockedBy(s, path[i], path[i + 1]);
      DeadlockedWants(s, t, path, i + 1);
    }
  }

  lemma {:induction false} TracedIsCycle(s: State, t: Tid, path: seq<Tid>)
    requires Inv(s) && Consistent(s.tables) && IsDeadlock(s, t, path) && IsTraced(s, t, path)
    ensures IsCycle(s.tables, t, path)
  {
    forall i | 0 <= i < |path| - 1 ensures WaitsFor(s.tables, path[i], path[i + 1]) {
      assert IsBlockedBy(s, path[i], path[i + 1]) && HoldIsRecorded(s, path[i], path[i + 1]);
    }
  }

  /** The check that completes a traced deadlock reports it if and only if it is short enough. */
  lemma {:induction false} TracedIsReportedExactly(s: State, t: Tid, mutex: Mutex, path: seq<Tid>)
    requires Inv(s) && Consistent(s.tables) && IsAllowed(s, Check(t, mutex))
    requires var s' := Apply(s, Check(t, mutex)); IsDeadlock(s', t, path) && IsTraced(s', t, path)
    ensures DeadlockCheck(s.tables, mutex, t) <==> IsShort(s.tables, path)
  {
    var s' := Apply(s, Check(t, mutex));
    CheckKeeps(s, t, mutex);
    TracedIsCycle(s', t, path);
    CycleIsReportedExactly(s.tables, mutex, t, path);
    assert IsBlockedBy(s', path[0], path[1]);
  }

  /**
   * The detector, where no try-lock left a stale entry: it reports exactly the short deadlocks whose mutexes are all
   * recorded for their holders.
   */
  lemma {:induction false} DetectorIsExact(s: State, t: Tid, mutex: Mutex)
    requires Inv(s) && Consistent(s.tables) && WaitsAreFresh(s) && IsAllowed(s, Check(t, mutex))
    ensures var s' := Apply(s, Check(t, mutex));
      DeadlockCheck(s.tables, mutex, t) <==>
      exists path :: IsDeadlock(s', t, path) && IsTraced(s', t, path) && IsShort(s.tables, path)
  {
    var s' := Apply(s, Check(t, mutex));
    if DeadlockCheck(s.tables, mutex, t) {
      var path := FreshReportIsReal(s, t, mutex);
      CheckKeeps(s, t, mutex);
      forall i | 0 <= i < |path| - 1 ensures HoldIsRecorded(s', path[i], path[i + 1]) {
        assert IsBlockedBy(s', path[i], path[i + 1]) && WaitsFor(s'.tables, path[i], path[i + 1]);
      }
      TracedIsReportedExactly(s, t, mutex, path);
    }
    if path :| IsDeadlock(s', t, path) && IsTraced(s', t, path) && IsShort(s.tables, path) {
      TracedIsReportedExactly(s, t, mutex, path);
    }
  }

  // ---- deadlocks as they come about ------------------------------------------------------------

  /** A deadlock comes about in a check of one of its threads, never in an acquisition. */
  lemma {:induction false} DeadlockFormsAtCheck(s: State, e: Event, t: Tid, path: seq<Tid>)
    requires IsAllowed(s, e) && !IsDeadlock(s, t, path) && IsDeadlock(Apply(s, e), t, path)
    ensures e.Check? && e.tid in path
  {
    var s' := Apply(s, e);
    var i :| 0 <= i < |path| - 1 && !IsBlockedBy(s, path[i], path[i + 1]);
    assert IsBlockedBy(s', path[i], path[i + 1]);
    DeadlockedWants(s', t, path, i + 1);
    BlockedBefore(s, e, path[i], path[i + 1]);
  }

  lemma {:induction false} BlockedBefore(s: State, e: Event, a: Tid, b: Tid)
    requires IsAllowed(s, e) && IsBlockedBy(Apply(s, e), a, b) && Apply(s, e).At(b).WANTS? && !IsBlockedBy(s, a, b)
    ensures e.Check? && (e.tid == a || e.tid == b)
  {
    if e.tid != a { OthersStay(s, e, a); }
    if e.tid != b { OthersStay(s, e, b); }
  }

  /** Two places of the same thread lead on to the same threads. */
  lemma {:induction false} SameFromHere(s: State, path: seq<Tid>, i: nat, j: nat, d: nat)
    requires forall k :: 0 <= k < |path| - 1 ==> IsBlockedBy(s, path[k], path[k + 1])
    requires i <= j && j + d < |path| && path[i] == path[j]
    ensures path[i + d] == path[j + d]
    decreases d
  {
    if d > 0 {
      SameFromHere(s, path, i, j, d - 1);
      assert IsBlockedBy(s, path[i + d - 1], path[i + d - 1 + 1]);
      assert IsBlockedBy(s, path[j + d - 1], path[j + d - 1 + 1]);
    }
  }

  /** The threads of a deadlock are all different. */
  lemma {:induction false} DeadlockIsSimple(s: State, t: Tid, path: seq<Tid>, i: nat, j: nat)
    requires IsDeadlock(s, t, path) && i < j < |path| - 1
    ensures path[i] != path[j]
  {
    if path[i] == path[j] {
      SameFromHere(s, path, i, j, |path| - 1 - j);
    }
  }

  /** The same deadlock, from the thread at place k on. */
  function Rotated(path: seq<Tid>, k: nat): seq<Tid>
    requires k < |path| - 1
  {
    path[k..|path| - 1] + path[..k + 1]
  }

  lemma {:induction false} RotatedAt(path: seq<Tid>, k: nat, i: nat)
    requires k < |path| - 1 && i < |path|
    ensures |Rotated(path, k)| == |path|
    ensures Rotated(path, k)[i] == if k + i < |path| - 1 then path[k + i] else path[k + i - (|path| - 1)]
  {
  }

  lemma {:induction false} RotatedDeadlock(s: State, t: Tid, path: seq<Tid>, k: nat)
    requires IsDeadlock(s, t, path) && k < |path| - 1
    ensures IsDeadlock(s, path[k], Rotated(path, k))
  {
    var turned, n := Rotated(path, k), |path| - 1;
    forall i | 0 <= i < |turned| - 1 ensures IsBlockedBy(s, turned[i], turned[i + 1]) {
      RotatedAt(path, k, i);
      RotatedAt(path, k, i + 1);
      var j := if k + i < n then k + i else k + i - n;
      assert IsBlockedBy(s, path[j], path[j + 1]);
    }
    forall i | 1 <= i < |turned| - 1 ensures turned[i] != path[k] {
      RotatedAt(path, k, i);
      if k + i < n {
        DeadlockIsSimple(s, t, path, k, k + i);
      } else {
        DeadlockIsSimple(s, t, path, k + i - n, k);
      }
    }
    RotatedAt(path, k, 0);
    RotatedAt(path, k, |path| - 1);
  }

  /**
   * Whenever a deadlock over plain mutexes comes about in consistent tables, the step is a check, and reports it exactly
   * if it is short.
   */
  lemma {:induction false} PlainDeadlockIsCaughtExactly(s: State, e: Event, t: Tid, path: seq<Tid>)
    requires Inv(s) && Consistent(s.tables) && IsAllowed(s, e)
    requires !IsDeadlock(s, t, path) && IsDeadlock(Apply(s, e), t, path) && IsPlain(Apply(s, e), path)
    ensures e.Check? && (DeadlockCheck(s.tables, e.mutex, e.tid) <==> IsShort(s.tables, path))
  {
    var s' := Apply(s, e);
    DeadlockFormsAtCheck(s, e, t, path);
    CheckKeeps(s, e.tid, e.mutex);
    var k :| 0 <= k < |path| && path[k] == e.tid;
    if k == |path| - 1 { k := 0; }
    var turned := Rotated(path, k);
    RotatedDeadlock(s', t, path, k);
    forall i | 0 <= i < |turned| - 1 && s'.At(turned[i]).WANTS?
      ensures s'.At(turned[i]).mutex !in s'.tables.recursives
    {
      RotatedAt(path, k, i);
    }
    PlainIsTraced(s', e.tid, turned);
    TracedIsReportedExactly(s, e.tid, e.mutex, turned);
    RotatedAt(path, k, 0);
  }

  // ---- every run -----------------------------------------------------------------------------

  predicate NoTryFails(events: seq<Event>) {
    forall e <- events :: !e.TryFail?
  }

  lemma {:induction false} RunStaysFresh(s: State, events: seq<Event>)
    requires Inv(s) && Consistent(s.tables) && WaitsAreFresh(s)
    requires IsRun(s, events) && NeverClashes(s, events) && NoTryFails(events)
    ensures var s' := Run(s, events); Inv(s') && Consistent(s'.tables) && WaitsAreFresh(s')
    decreases |events|
  {
    if events != [] {
      assert events[0] in events;
      StepKeepsInv(s, events[0]);
      StepKeepsTablesExactly(s, events[0]);
      StepStaysFreshExactly(s, events[0]);
      RunStaysFresh(Apply(s, events[0]), events[1..]);
    }
  }

  /** After any run in which no table update clashed and no try-lock failed, the detector is exact. */
  lemma {:induction false} EveryCheckIsExact(
    recursives: set<Mutex>, maxBlockTids: int, events: seq<Event>, t: Tid, mutex: Mutex)
    requires var s0 := Initial(recursives, maxBlockTids);
      IsRun(s0, events) && NeverClashes(s0, events) && NoTryFails(events)
      && IsAllowed(Run(s0, events), Check(t, mutex))
    ensures var s := Run(Initial(recursives, maxBlockTids), events);
      var s' := Apply(s, Check(t, mutex));
      DeadlockCheck(s.tables, mutex, t) <==>
      exists path :: IsDeadlock(s', t, path) && IsTraced(s', t, path) && IsShort(s.tables, path)
  {
    var s0 := Initial(recursives, maxBlockTids);
    RunStaysFresh(s0, events);
    DetectorIsExact(Run(s0, events), t, mutex);
  }

  // ---- both failures ---------------------------------------------------------------------------

  lemma {:induction false} RunFirst(s: State, e: Event, events: seq<Event>)
    requires IsAllowed(s, e) && IsRun(Apply(s, e), events) && !Clashes(s, e) && NeverClashes(Apply(s, e), events)
    ensures IsRun(s, [e] + events) && NeverClashes(s, [e] + events)
    ensures Run(s, [e] + events) == Run(Apply(s, e), events)
  {
    assert ([e] + events)[1..] == events;
  }

  lemma {:induction false} RunPair(s: State, e: Event, f: Event)
    requires IsAllowed(s, e) && !Clashes(s, e) && IsAllowed(Apply(s, e), f) && !Clashes(Apply(s, e), f)
    ensures IsRun(s, [e] + [f]) && NeverClashes(s, [e] + [f]) && Run(s, [e] + [f]) == Apply(Apply(s, e), f)
  {
    var s1 := Apply(s, e);
    assert [f] + [] == [f];
    assert IsRun(Apply(s1, f), []) && NeverClashes(Apply(s1, f), []) && Run(Apply(s1, f), []) == Apply(s1, f);
    RunFirst(s1, f, []);
    RunFirst(s, e, [f]);
  }

  /** The locking macro, then some more. */
  function LockThen(t: Tid, m: Mutex, events: seq<Event>): seq<Event> {
    [Check(t, m)] + ([Acquire(t)] + ([Record(t)] + events))
  }

  function Locked(s: State, t: Tid, m: Mutex): State {
    State(RecordLock(Recorded(s.tables, m, t), m, t),
          s.holders[m := Hold(t, if m in s.holders then s.holders[m].count + 1 else 1)],
          s.pcs[t := IDLE])
  }

  lemma {:induction false} LockRuns(s: State, t: Tid, m: Mutex, events: seq<Event>)
    requires s.At(t).IDLE? && !IsRecordedForAnother(s.tables, m, t)
    requires m in s.holders ==> s.holders[m].tid == t && m in s.tables.recursives
    requires IsRun(Locked(s, t, m), events) && NeverClashes(Locked(s, t, m), events)
    ensures IsRun(s, LockThen(t, m, events)) && NeverClashes(s, LockThen(t, m, events))
    ensures Run(s, LockThen(t, m, events)) == Run(Locked(s, t, m), events)
  {
    var s1 := Apply(s, Check(t, m));
    var s2 := Apply(s1, Acquire(t));
    assert Apply(s2, Record(t)).pcs == s.pcs[t := IDLE];
    RunFirst(s2, Record(t), events);
    RunFirst(s1, Acquire(t), [Record(t)] + events);
    RunFirst(s, Check(t, m), [Acquire(t)] + ([Record(t)] + events));
  }

  /** A thread asks for m, there is a report, the tables are consistent, and there is no deadlock. */
  ghost predicate IsFalseAlarm(s: State, t: Tid, m: Mutex) {
    && Consistent(s.tables) && IsAllowed(s, Check(t, m)) && DeadlockCheck(s.tables, m, t)
    && forall path :: !IsDeadlock(Apply(s, Check(t, m)), t, path)
  }

  /** A thread that holds m gives up its try-lock for n; then the holder of n asks for m. */
  lemma {:induction false} FailedTryAlarms(s: State, t: Tid, u: Tid, m: Mutex, n: Mutex)
    requires Inv(s) && Consistent(s.tables) && t != u && s.At(t).IDLE? && s.At(u).IDLE? && s.tables.maxBlockTids >= 2
    requires m in s.tables.Owned(t) && n in s.tables.Owned(u)
    ensures IsAllowed(s, Check(t, n)) && IsAllowed(Apply(s, Check(t, n)), TryFail(t))
    ensures IsFalseAlarm(Apply(Apply(s, Check(t, n)), TryFail(t)), u, m)
  {
    assert s.Holds(t, m) && s.Holds(u, n);
    RecordedConsistent(s.tables, n, t);
    var s2 := Apply(Apply(s, Check(t, n)), TryFail(t));
    var s3 := Apply(s2, Check(u, m));
    forall path ensures !IsDeadlock(s3, u, path) {
      if IsDeadlock(s3, u, path) {
        assert IsBlockedBy(s3, path[0], path[1]);
        DeadlockedWants(s3, u, path, 1);
      }
    }
  }

  /** Such a run, from an unused tracer on; no table update in it clashes. */
  lemma {:induction false} StaleAlarm(recursives: set<Mutex>, maxBlockTids: int, t: Tid, u: Tid, m: Mutex, n: Mutex)
    requires t != u && m != n && maxBlockTids >= 2
    ensures var s0 := Initial(recursives, maxBlockTids);
      var events := LockThen(t, m, LockThen(u, n, [Check(t, n)] + [TryFail(t)]));
      IsRun(s0, events) && NeverClashes(s0, events) && IsFalseAlarm(Run(s0, events), u, m)
  {
    var s0 := Initial(recursives, maxBlockTids);
    var s1 := Locked(s0, t, m);
    var s2 := Locked(s1, u, n);
    LockRuns(s1, u, n, []);
    LockRuns(s0, t, m, LockThen(u, n, []));
    RunKeepsInv(s0, LockThen(t, m, LockThen(u, n, [])));
    RunStaysConsistent(s0, LockThen(t, m, LockThen(u, n, [])));
    FailedTryAlarms(s2, t, u, m, n);
    RunPair(s2, Check(t, n), TryFail(t));
    LockRuns(s1, u, n, [Check(t, n)] + [TryFail(t)]);
    LockRuns(s0, t, m, LockThen(u, n, [Check(t, n)] + [TryFail(t)]));
  }

  lemma {:induction false} RunStaysConsistent(s: State, events: seq<Event>)
    requires Consistent(s.tables) && IsRun(s, events) && NeverClashes(s, events)
    ensures Consistent(Run(s, events).tables)
    decreases |events|
  {
    if events != [] {
      StepKeepsTablesExactly(s, events[0]);
      RunStaysConsistent(Apply(s, events[0]), events[1..]);
    }
  }

  /** A thread holds m, with its macros done, the tables are consistent, and nobody who asks for m gets a report. */
  ghost predicate IsMissedHolder(s: State, t: Tid, m: Mutex) {
    Consistent(s.tables) && s.Holds(t, m) && s.At(t).IDLE? && forall u :: !DeadlockCheck(s.tables, m, u)
  }

  /** Locking a recursive mutex twice and unlocking it once. */
  lemma {:induction false} InnerUnlockForgets(recursives: set<Mutex>, maxBlockTids: int, t: Tid, m: Mutex)
    requires m in recursives
    ensures var s0 := Initial(recursives, maxBlockTids);
      var events := LockThen(t, m, LockThen(t, m, [Release(t, m)] + [Erase(t)]));
      IsRun(s0, events) && NeverClashes(s0, events) && IsMissedHolder(Run(s0, events), t, m)
  {
    var s0 := Initial(recursives, maxBlockTids);
    var s1 := Locked(s0, t, m);
    var s2 := Locked(s1, t, m);
    RunPair(s2, Release(t, m), Erase(t));
    LockRuns(s1, t, m, [Release(t, m)] + [Erase(t)]);
    LockRuns(s0, t, m, LockThen(t, m, [Release(t, m)] + [Erase(t)]));
    RunStaysConsistent(s0, LockThen(t, m, LockThen(t, m, [Release(t, m)] + [Erase(t)])));
  }

  /** A holder loses its entry while it goes on holding exactly by erasing it after an inner unlock. */
  lemma {:induction false} HolderForgottenExactly(s: State, e: Event, t: Tid, m: Mutex)
    requires Inv(s) && Consistent(s.tables) && IsAllowed(s, e) && s.Holds(t, m) && m in s.tables.Owned(t)
    ensures var s' := Apply(s, e);
      s'.Holds(t, m) && m !in s'.tables.Owned(t) <==> e == Erase(t) && s.At(t) == RELEASED(m)
  {
    if e.tid != t { OthersStay(s, e, t); }
  }
}
