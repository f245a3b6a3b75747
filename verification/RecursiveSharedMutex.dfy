/**
 The reader/writer lock with re-entrant writers, as a state machine whose steps are the critical
 sections between two waits on the internal mutex.  A call runs up to its first wait or its return;
 a thread that a condition variable has released re-runs the loop test under the mutex.
 */
module RecursiveSharedMutexProtocol {
  import opened Common

  type Thread = nat

  /** Where a thread that is inside a blocking call is: parked on a condition variable, or released from
      it and yet to re-run its loop test. */
  datatype Phase = ReaderAsleep | WriterAsleep | ReaderWoken | WriterWoken

  type Waiters = map<Thread, Phase>

  /** The four fields of the lock, the threads inside a blocking call, and the holds of each thread. */
  datatype State = State(
    sharedCount: int,
    exclusiveCount: int,
    owner: Option<Thread>,
    recursiveCount: int,
    waiting: Waiters,
    readHolds: multiset<Thread>,
    writeHolds: multiset<Thread>)
  {
    predicate Free() {
      sharedCount == 0 && exclusiveCount == 0
    }

    predicate In(t: Thread, p: Phase) {
      t in waiting && waiting[t] == p
    }

    predicate Asleep(t: Thread) {
      In(t, ReaderAsleep) || In(t, WriterAsleep)
    }

    predicate Woken(t: Thread) {
      In(t, ReaderWoken) || In(t, WriterWoken)
    }

    predicate Holds(t: Thread) {
      t in readHolds || t in writeHolds
    }
  }

  const Initial: State := State(0, 0, None, 0, map[], multiset{}, multiset{})

  /** One critical section.  `notified` is the thread that `notify_one` picked, if a writer was parked. */
  datatype Event =
    | LockShared(t: Thread)
    | TryLockShared(t: Thread)
    | UnlockShared(t: Thread, notified: Option<Thread>)
    | Lock(t: Thread)
    | Unlock(t: Thread, notified: Option<Thread>)
    | SpuriousWake(t: Thread)
    | Recheck(t: Thread)

  // ---------------------------------------------------------------- the critical sections

  /** The loop of `lock_shared`, from the loop test to the next wait or to the return. */
  function EnterShared(s: State, t: Thread): State {
    if s.exclusiveCount > 0 then
      s.(waiting := s.waiting[t := ReaderAsleep])
    else
      s.(sharedCount := s.sharedCount + 1, readHolds := s.readHolds + multiset{t})
  }

  function TryEnterShared(s: State, t: Thread): State {
    if s.exclusiveCount == 0 then
      s.(sharedCount := s.sharedCount + 1, readHolds := s.readHolds + multiset{t})
    else
      s
  }

  /** The loop of `lock`, from the loop test to the next wait or to the return. */
  function EnterExclusive(s: State, t: Thread): State {
    if s.sharedCount > 0 || s.exclusiveCount > 0 then
      if s.owner == Some(t) then
        s.(recursiveCount := s.recursiveCount + 1, writeHolds := s.writeHolds + multiset{t})
      else
        s.(waiting := s.waiting[t := WriterAsleep])
    else
      s.(owner := Some(t), recursiveCount := 1, exclusiveCount := s.exclusiveCount + 1,
         writeHolds := s.writeHolds + multiset{t})
  }

  /** `exclusive_lock_cv_.notify_one()` */
  function NotifyOneWriter(w: Waiters, notified: Option<Thread>): Waiters {
    if notified.Some? then w[notified.value := WriterWoken] else w
  }

  /** `shared_lock_cv_.notify_all()` */
  function NotifyAllReaders(w: Waiters): Waiters {
    map t | t in w :: if w[t] == ReaderAsleep then ReaderWoken else w[t]
  }

  function LeaveShared(s: State, t: Thread, notified: Option<Thread>): State {
    s.(sharedCount := s.sharedCount - 1,
       readHolds := s.readHolds - multiset{t},
       waiting := if s.sharedCount - 1 == 0 then NotifyOneWriter(s.waiting, notified) else s.waiting)
  }

  function LeaveExclusive(s: State, t: Thread, notified: Option<Thread>): State {
    if s.owner == Some(t) && s.recursiveCount > 1 then
      s.(recursiveCount := s.recursiveCount - 1, writeHolds := s.writeHolds - multiset{t})
    else
      s.(owner := None,
         recursiveCount := 0,
         exclusiveCount := s.exclusiveCount - 1,
         writeHolds := s.writeHolds - multiset{t},
         waiting := if s.exclusiveCount - 1 == 0
                    then NotifyOneWriter(NotifyAllReaders(s.waiting), notified) else s.waiting)
  }

  /** A thread leaves its condition variable without having been notified. */
  function Awaken(s: State, t: Thread): State {
    if s.In(t, ReaderAsleep) then s.(waiting := s.waiting[t := ReaderWoken])
    else if s.In(t, WriterAsleep) then s.(waiting := s.waiting[t := WriterWoken])
    else s
  }

  /** A woken thread has got the internal mutex back and runs its loop test again. */
  function Reenter(s: State, t: Thread): State {
    var s1 := s.(waiting := s.waiting - {t});
    if s.In(t, ReaderWoken) then EnterShared(s1, t)
    else if s.In(t, WriterWoken) then EnterExclusive(s1, t)
    else s
  }

  function Apply(s: State, e: Event): State {
    match e
    case LockShared(t) => EnterShared(s, t)
    case TryLockShared(t) => TryEnterShared(s, t)
    case UnlockShared(t, n) => LeaveShared(s, t, n)
    case Lock(t) => EnterExclusive(s, t)
    case Unlock(t, n) => LeaveExclusive(s, t, n)
    case SpuriousWake(t) => Awaken(s, t)
    case Recheck(t) => Reenter(s, t)
  }

  /** `notify_one` releases one parked writer when there is one, and nobody otherwise. */
  ghost predicate NotifyOneChoice(s: State, notified: Option<Thread>) {
    match notified
    case Some(u) => s.In(u, WriterAsleep)
    case None => forall u :: u in s.waiting ==> s.waiting[u] != WriterAsleep
  }

  /** A thread inside a blocking call makes no other call, and `notify_one` behaves. */
  ghost predicate Possible(s: State, e: Event) {
    match e
    case LockShared(t) => t !in s.waiting
    case TryLockShared(t) => t !in s.waiting
    case UnlockShared(t, n) => t !in s.waiting && NotifyOneChoice(s, n)
    case Lock(t) => t !in s.waiting
    case Unlock(t, n) => t !in s.waiting && NotifyOneChoice(s, n)
    case SpuriousWake(t) => s.Asleep(t)
    case Recheck(t) => s.Woken(t)
  }

  /** A client releases only what it holds. */
  predicate ReleasesOwnHold(s: State, e: Event) {
    match e
    case UnlockShared(t, _) => t in s.readHolds
    case Unlock(t, _) => t in s.writeHolds
    case _ => true
  }

  ghost predicate Legal(s: State, e: Event) {
    Possible(s, e) && ReleasesOwnHold(s, e)
  }

  /** A run: the events fire in order, each of them legal when it fires. */
  ghost predicate LegalRun(s: State, es: seq<Event>)
    decreases |es|
  {
    es == [] || (Legal(s, es[0]) && LegalRun(Apply(s, es[0]), es[1..]))
  }

  ghost function Run(s: State, es: seq<Event>): State
    decreases |es|
  {
    if es == [] then s else Run(Apply(s, es[0]), es[1..])
  }

  // ---------------------------------------------------------------- the invariant

  /** The fields agree with the holds: at most one writer, no reader beside it, counters exact. */
  ghost predicate CountsAgree(s: State) {
    && s.sharedCount == |s.readHolds|
    && s.recursiveCount == |s.writeHolds|
    && s.exclusiveCount == (if s.owner.Some? then 1 else 0)
    && (s.owner.Some? <==> s.recursiveCount > 0)
    && (forall t :: t in s.writeHolds ==> s.owner == Some(t))
    && (s.owner.Some? ==> s.sharedCount == 0)
  }

  /** No lost wakeup: a reader sleeps only while a writer holds the lock, and while the lock is free a
      sleeping writer has a woken writer ahead of it. */
  ghost predicate WakeupsPending(s: State) {
    && (forall t :: t in s.waiting && s.waiting[t] == ReaderAsleep ==> s.exclusiveCount > 0)
    && (s.Free() && (exists t :: s.In(t, WriterAsleep)) ==> exists w :: s.In(w, WriterWoken))
  }

  ghost predicate Inv(s: State) {
    CountsAgree(s) && WakeupsPending(s)
  }

  // ---------------------------------------------------------------- one step

  lemma EnterKeepsInv(s: State, t: Thread)
    requires CountsAgree(s)
    ensures CountsAgree(EnterShared(s, t)) && CountsAgree(TryEnterShared(s, t)) && CountsAgree(EnterExclusive(s, t))
    ensures WakeupsPending(s) ==> WakeupsPending(EnterShared(s, t)) && WakeupsPending(TryEnterShared(s, t))
    ensures WakeupsPending(s) ==> WakeupsPending(EnterExclusive(s, t))
  {
  }

  lemma DropOne(m: multiset<Thread>, t: Thread)
    requires t in m
    ensures |m - multiset{t}| == |m| - 1
    ensures forall u :: u in m - multiset{t} ==> u in m
  {
    assert m == (m - multiset{t}) + multiset{t};
  }

  lemma LeaveSharedKeepsInv(s: State, t: Thread, n: Option<Thread>)
    requires Inv(s) && t in s.readHolds && NotifyOneChoice(s, n)
    ensures Inv(LeaveShared(s, t, n))
  {
    DropOne(s.readHolds, t);
    var s' := LeaveShared(s, t, n);
    if s'.Free() && n.Some? {
      assert s'.In(n.value, WriterWoken);
    }
  }

  lemma LeaveExclusiveKeepsCounts(s: State, t: Thread, n: Option<Thread>)
    requires CountsAgree(s) && t in s.writeHolds
    ensures CountsAgree(LeaveExclusive(s, t, n))
  {
    DropOne(s.writeHolds, t);
  }

  lemma LeaveExclusiveKeepsWakeups(s: State, t: Thread, n: Option<Thread>)
    requires Inv(s) && t in s.writeHolds && NotifyOneChoice(s, n)
    ensures WakeupsPending(LeaveExclusive(s, t, n))
  {
    var s' := LeaveExclusive(s, t, n);
    if s'.Free() && n.Some? {
      assert s'.In(n.value, WriterWoken);
    }
    if s'.Free() && n.None? {
      assert forall u :: s'.In(u, WriterAsleep) ==> s.In(u, WriterAsleep);
    }
  }

  lemma AwakenKeepsInv(s: State, t: Thread)
    requires Inv(s) && s.Asleep(t)
    ensures Inv(Awaken(s, t))
  {
    var s' := Awaken(s, t);
    forall u | s.In(u, WriterWoken) ensures s'.In(u, WriterWoken) {}
    assert s.In(t, WriterAsleep) ==> s'.In(t, WriterWoken);
  }

  /** The woken thread that leaves the lock free can only be a reader, and a reader does not leave it free. */
  lemma ReenterKeepsInv(s: State, t: Thread)
    requires Inv(s) && s.Woken(t)
    ensures Inv(Reenter(s, t))
  {
    var s1 := s.(waiting := s.waiting - {t});
    EnterKeepsInv(s1, t);
    var s' := Reenter(s, t);
    assert !s'.Free();
  }

  lemma StepKeepsInv(s: State, e: Event)
    requires Inv(s) && Legal(s, e)
    ensures Inv(Apply(s, e))
  {
    match e
    case LockShared(t) => EnterKeepsInv(s, t);
    case TryLockShared(t) => EnterKeepsInv(s, t);
    case UnlockShared(t, n) => LeaveSharedKeepsInv(s, t, n);
    case Lock(t) => EnterKeepsInv(s, t);
    case Unlock(t, n) => LeaveExclusiveKeepsCounts(s, t, n); LeaveExclusiveKeepsWakeups(s, t, n);
    case SpuriousWake(t) => AwakenKeepsInv(s, t);
    case Recheck(t) => ReenterKeepsInv(s, t);
  }

  lemma ForeignUnlockSharedBreaksCounts(s: State, t: Thread, n: Option<Thread>)
    requires CountsAgree(s) && t !in s.readHolds
    ensures !CountsAgree(LeaveShared(s, t, n))
  {
    assert s.readHolds - multiset{t} == s.readHolds;
  }

  lemma ForeignUnlockBreaksCounts(s: State, t: Thread, n: Option<Thread>)
    requires CountsAgree(s) && t !in s.writeHolds
    ensures !CountsAgree(LeaveExclusive(s, t, n))
  {
    assert s.writeHolds - multiset{t} == s.writeHolds;
  }

  /** The discipline "release only what you hold" is exactly what keeps the counters true. */
  lemma CountsKeptIffOwnHoldReleased(s: State, e: Event)
    requires Inv(s) && Possible(s, e)
    ensures CountsAgree(Apply(s, e)) <==> ReleasesOwnHold(s, e)
  {
    if ReleasesOwnHold(s, e) {
      StepKeepsInv(s, e);
    } else if e.UnlockShared? {
      ForeignUnlockSharedBreaksCounts(s, e.t, e.notified);
    } else {
      ForeignUnlockBreaksCounts(s, e.t, e.notified);
    }
  }

  // ---------------------------------------------------------------- whole runs

  lemma {:induction false} RunKeepsInv(s: State, es: seq<Event>)
    requires Inv(s) && LegalRun(s, es)
    ensures Inv(Run(s, es))
    decreases |es|
  {
    if es != [] {
      StepKeepsInv(s, es[0]);
      RunKeepsInv(Apply(s, es[0]), es[1..]);
    }
  }

  lemma MutualExclusion(es: seq<Event>)
    requires LegalRun(Initial, es)
    ensures var s := Run(Initial, es);
            && (forall t, u :: t in s.writeHolds && u in s.writeHolds ==> t == u)
            && (s.writeHolds == multiset{} || s.readHolds == multiset{})
            && s.sharedCount == |s.readHolds|
            && (forall t :: t in s.writeHolds ==> s.owner == Some(t) && s.recursiveCount == s.writeHolds[t])
  {
    RunKeepsInv(Initial, es);
    var s := Run(Initial, es);
    forall t | t in s.writeHolds ensures |s.writeHolds| == s.writeHolds[t] {
      assert s.writeHolds == multiset{}[t := s.writeHolds[t]];
    }
  }

  lemma NoLostWakeup(es: seq<Event>)
    requires LegalRun(Initial, es)
    ensures var s := Run(Initial, es);
            && ((exists t :: s.In(t, ReaderAsleep)) ==> exists u :: u in s.writeHolds)
            && (s.Free() && (exists t :: s.In(t, WriterAsleep)) ==> exists w :: s.In(w, WriterWoken))
  {
    RunKeepsInv(Initial, es);
    var s := Run(Initial, es);
    if t :| s.In(t, ReaderAsleep) {
      assert |s.writeHolds| > 0;
      var u :| u in s.writeHolds;
    }
  }

  /** Progress: a free lock with a thread inside a blocking call has a woken thread, and every woken thread
      that re-tests a free lock gets it. */
  lemma FreeLockIsTaken(es: seq<Event>)
    requires LegalRun(Initial, es)
    requires Run(Initial, es).Free() && Run(Initial, es).waiting != map[]
    ensures var s := Run(Initial, es);
            && (exists w :: s.Woken(w))
            && (forall w :: s.Woken(w) ==>
                  var s' := Apply(s, Recheck(w));
                  Legal(s, Recheck(w)) && w !in s'.waiting && s'.Holds(w))
  {
    RunKeepsInv(Initial, es);
    var s := Run(Initial, es);
    var t :| t in s.waiting;
    if s.In(t, WriterAsleep) {
      var w :| s.In(w, WriterWoken);
      assert s.Woken(w);
    } else {
      assert s.Woken(t);
    }
  }

  // ---------------------------------------------------------------- what each call gets

  predicate Reads(p: Phase) {
    p == ReaderAsleep || p == ReaderWoken
  }

  predicate WantsRead(s: State, t: Thread) {
    t in s.waiting && Reads(s.waiting[t])
  }

  predicate WantsWrite(s: State, t: Thread) {
    t in s.waiting && !Reads(s.waiting[t])
  }

  /** `u` holds and waits for the same in both states. */
  ghost predicate SameFor(s: State, s': State, u: Thread) {
    && s'.readHolds[u] == s.readHolds[u] && s'.writeHolds[u] == s.writeHolds[u]
    && (WantsRead(s', u) <==> WantsRead(s, u)) && (WantsWrite(s', u) <==> WantsWrite(s, u))
  }

  lemma EnterSharedLeavesOthers(s: State, t: Thread, u: Thread)
    requires u != t
    ensures SameFor(s, EnterShared(s, t), u)
  {
  }

  lemma TryLeavesOthers(s: State, t: Thread, u: Thread)
    requires u != t
    ensures SameFor(s, TryEnterShared(s, t), u)
  {
  }

  lemma EnterExclusiveLeavesOthers(s: State, t: Thread, u: Thread)
    requires u != t
    ensures SameFor(s, EnterExclusive(s, t), u)
  {
  }

  /** Notified threads wait for what they waited for, and nobody else is touched. */
  lemma NotifyKeepsWants(w: Waiters, n: Option<Thread>)
    requires n.Some? ==> n.value in w && w[n.value] == WriterAsleep
    ensures var v := NotifyOneWriter(w, n);
            v.Keys == w.Keys && forall u :: u in w ==> v[u] == if n == Some(u) then WriterWoken else w[u]
    ensures var v := NotifyAllReaders(w);
            v.Keys == w.Keys && forall u :: u in w ==> v[u] == if w[u] == ReaderAsleep then ReaderWoken else w[u]
  {
  }

  /** Everybody in a blocking call stays in it, and waits for the same. */
  ghost predicate SameWants(w: Waiters, v: Waiters) {
    v.Keys == w.Keys && forall u :: u in w ==> (Reads(v[u]) <==> Reads(w[u]))
  }

  lemma NotifiedSameWants(w: Waiters, n: Option<Thread>)
    requires n.Some? ==> n.value in w && w[n.value] == WriterAsleep
    ensures SameWants(w, NotifyOneWriter(w, n)) && SameWants(w, NotifyOneWriter(NotifyAllReaders(w), n))
  {
    NotifyKeepsWants(w, n);
    NotifyKeepsWants(NotifyAllReaders(w), n);
  }

  lemma LeaveSharedKeepsWants(s: State, t: Thread, n: Option<Thread>)
    requires NotifyOneChoice(s, n)
    ensures var s' := LeaveShared(s, t, n);
            && SameWants(s.waiting, s'.waiting) && s'.writeHolds == s.writeHolds
            && s'.readHolds == s.readHolds - multiset{t}
  {
    NotifiedSameWants(s.waiting, n);
  }

  lemma LeaveExclusiveKeepsWants(s: State, t: Thread, n: Option<Thread>)
    requires NotifyOneChoice(s, n)
    ensures var s' := LeaveExclusive(s, t, n);
            && SameWants(s.waiting, s'.waiting) && s'.readHolds == s.readHolds
            && s'.writeHolds == s.writeHolds - multiset{t}
  {
    NotifiedSameWants(s.waiting, n);
  }

  lemma AwakenKeepsWants(s: State, t: Thread)
    ensures forall u :: SameFor(s, Awaken(s, t), u)
  {
  }

  lemma ReenterLeavesOthers(s: State, t: Thread, u: Thread)
    requires u != t
    ensures SameFor(s, Reenter(s, t), u)
  {
    var s1 := s.(waiting := s.waiting - {t});
    EnterSharedLeavesOthers(s1, t, u);
    EnterExclusiveLeavesOthers(s1, t, u);
    assert SameFor(s, s1, u);
  }

  /** A step of one thread leaves the holds of all others, and what they wait for, as they are. */
  lemma OthersKeepWaiting(s: State, e: Event, u: Thread)
    requires Legal(s, e) && u != e.t
    ensures SameFor(s, Apply(s, e), u)
  {
    match e
    case LockShared(t) => EnterSharedLeavesOthers(s, t, u);
    case TryLockShared(t) => TryLeavesOthers(s, t, u);
    case UnlockShared(t, n) => LeaveSharedKeepsWants(s, t, n);
    case Lock(t) => EnterExclusiveLeavesOthers(s, t, u);
    case Unlock(t, n) => LeaveExclusiveKeepsWants(s, t, n);
    case SpuriousWake(t) => AwakenKeepsWants(s, t);
    case Recheck(t) => ReenterLeavesOthers(s, t, u);
  }

  /** The re-check of a woken thread: it goes back to sleep, or it leaves with one hold of the kind it asked for. */
  lemma RecheckGives(s: State, t: Thread)
    requires s.Woken(t)
    ensures var s' := Reenter(s, t);
            if t in s'.waiting then SameFor(s, s', t) && s'.readHolds == s.readHolds && s'.writeHolds == s.writeHolds
            else if WantsRead(s, t) then
              s'.readHolds == s.readHolds + multiset{t} && s'.writeHolds == s.writeHolds
            else
              s'.writeHolds == s.writeHolds + multiset{t} && s'.readHolds == s.readHolds
  {
  }

  /** A thread leaves a blocking call only by its own re-check, and then has one more hold of the kind it asked for. */
  lemma LeavesWithItsHold(s: State, e: Event, t: Thread)
    requires Legal(s, e) && t in s.waiting && t !in Apply(s, e).waiting
    ensures e == Recheck(t)
    ensures WantsRead(s, t) ==>
              Apply(s, e).readHolds == s.readHolds + multiset{t} && Apply(s, e).writeHolds == s.writeHolds
    ensures WantsWrite(s, t) ==>
              Apply(s, e).writeHolds == s.writeHolds + multiset{t} && Apply(s, e).readHolds == s.readHolds
  {
    if e.t != t {
      OthersKeepWaiting(s, e, t);
    } else if e.Recheck? {
      RecheckGives(s, t);
    } else {
      AwakenKeepsWants(s, t);
    }
  }

  /** What thread `t` asked for and gave back, read locks only; a failed try is not counted. */
  ghost function ReadBalance(s: State, es: seq<Event>, t: Thread): int
    decreases |es|
  {
    if es == [] then 0
    else
      (match es[0]
       case LockShared(u) => if u == t then 1 else 0
       case TryLockShared(u) => if u == t && s.writeHolds == multiset{} then 1 else 0
       case UnlockShared(u, _) => if u == t then -1 else 0
       case _ => 0) + ReadBalance(Apply(s, es[0]), es[1..], t)
  }

  /** The same for write locks. */
  ghost function WriteBalance(es: seq<Event>, t: Thread): int
    decreases |es|
  {
    if es == [] then 0
    else
      (match es[0]
       case Lock(u) => if u == t then 1 else 0
       case Unlock(u, _) => if u == t then -1 else 0
       case _ => 0) + WriteBalance(es[1..], t)
  }

  function ReadAccount(s: State, t: Thread): int {
    s.readHolds[t] + if WantsRead(s, t) then 1 else 0
  }

  function WriteAccount(s: State, t: Thread): int {
    s.writeHolds[t] + if WantsWrite(s, t) then 1 else 0
  }

  /** A call that blocks or enters: one more lock is held or waited for. */
  lemma EnterGives(s: State, t: Thread)
    requires t !in s.waiting
    ensures ReadAccount(EnterShared(s, t), t) == ReadAccount(s, t) + 1
    ensures WriteAccount(EnterShared(s, t), t) == WriteAccount(s, t)
    ensures WriteAccount(EnterExclusive(s, t), t) == WriteAccount(s, t) + 1
    ensures ReadAccount(EnterExclusive(s, t), t) == ReadAccount(s, t)
  {
  }

  lemma TryGives(s: State, t: Thread)
    requires CountsAgree(s) && t !in s.waiting
    ensures ReadAccount(TryEnterShared(s, t), t) ==
            ReadAccount(s, t) + if s.writeHolds == multiset{} then 1 else 0
    ensures WriteAccount(TryEnterShared(s, t), t) == WriteAccount(s, t)
  {
    assert |s.writeHolds| > 0 <==> s.exclusiveCount > 0;
  }

  lemma ReleaseGives(s: State, t: Thread, n: Option<Thread>)
    requires NotifyOneChoice(s, n) && t !in s.waiting
    ensures t in s.readHolds ==> ReadAccount(LeaveShared(s, t, n), t) == ReadAccount(s, t) - 1
    ensures WriteAccount(LeaveShared(s, t, n), t) == WriteAccount(s, t)
    ensures t in s.writeHolds ==> WriteAccount(LeaveExclusive(s, t, n), t) == WriteAccount(s, t) - 1
    ensures ReadAccount(LeaveExclusive(s, t, n), t) == ReadAccount(s, t)
  {
    LeaveSharedKeepsWants(s, t, n);
    LeaveExclusiveKeepsWants(s, t, n);
  }

  /** Whoever is asleep can wake up, a reader as a reader, and waking up and re-checking change neither account. */
  lemma WakingGives(s: State, t: Thread)
    ensures s.In(t, ReaderAsleep) ==> Possible(s, SpuriousWake(t)) && Apply(s, SpuriousWake(t)).In(t, ReaderWoken)
    ensures s.In(t, WriterAsleep) ==> Possible(s, SpuriousWake(t)) && Apply(s, SpuriousWake(t)).In(t, WriterWoken)
    ensures ReadAccount(Awaken(s, t), t) == ReadAccount(s, t) && WriteAccount(Awaken(s, t), t) == WriteAccount(s, t)
    ensures s.Woken(t) ==>
              ReadAccount(Reenter(s, t), t) == ReadAccount(s, t) && WriteAccount(Reenter(s, t), t) == WriteAccount(s, t)
  {
    AwakenKeepsWants(s, t);
    if s.Woken(t) {
      RecheckGives(s, t);
    }
  }

  lemma BalanceOfOne(s: State, e: Event, t: Thread)
    ensures ReadBalance(s, [e], t) ==
            match e
            case LockShared(u) => if u == t then 1 else 0
            case TryLockShared(u) => if u == t && s.writeHolds == multiset{} then 1 else 0
            case UnlockShared(u, _) => if u == t then -1 else 0
            case _ => 0
    ensures WriteBalance([e], t) ==
            match e
            case Lock(u) => if u == t then 1 else 0
            case Unlock(u, _) => if u == t then -1 else 0
            case _ => 0
  {
  }

  lemma OwnStepBalances(s: State, e: Event)
    requires Inv(s) && Legal(s, e)
    ensures ReadAccount(Apply(s, e), e.t) == ReadAccount(s, e.t) + ReadBalance(s, [e], e.t)
    ensures WriteAccount(Apply(s, e), e.t) == WriteAccount(s, e.t) + WriteBalance([e], e.t)
  {
    BalanceOfOne(s, e, e.t);
    match e
    case LockShared(t) => EnterGives(s, t);
    case TryLockShared(t) => TryGives(s, t);
    case UnlockShared(t, n) => ReleaseGives(s, t, n);
    case Lock(t) => EnterGives(s, t);
    case Unlock(t, n) => ReleaseGives(s, t, n);
    case SpuriousWake(t) => WakingGives(s, t);
    case Recheck(t) => WakingGives(s, t);
  }

  lemma OneStepBalances(s: State, e: Event, t: Thread)
    requires Inv(s) && Legal(s, e)
    ensures ReadAccount(Apply(s, e), t) == ReadAccount(s, t) + ReadBalance(s, [e], t)
    ensures WriteAccount(Apply(s, e), t) == WriteAccount(s, t) + WriteBalance([e], t)
  {
    if e.t == t {
      OwnStepBalances(s, e);
    } else {
      OthersKeepWaiting(s, e, t);
    }
  }

  lemma {:induction false} RunBalancesFrom(s: State, es: seq<Event>, t: Thread)
    requires Inv(s) && LegalRun(s, es)
    ensures ReadAccount(Run(s, es), t) == ReadAccount(s, t) + ReadBalance(s, es, t)
    ensures WriteAccount(Run(s, es), t) == WriteAccount(s, t) + WriteBalance(es, t)
    decreases |es|
  {
    if es != [] {
      StepKeepsInv(s, es[0]);
      OneStepBalances(s, es[0], t);
      RunBalancesFrom(Apply(s, es[0]), es[1..], t);
    }
  }

  /** Conservation over every run: the locks that a thread asked for and did not give back are those that it holds and
      the one that it waits for, kind by kind. */
  lemma RunBalances(es: seq<Event>, t: Thread)
    requires LegalRun(Initial, es)
    ensures var s := Run(Initial, es);
            && s.readHolds[t] + (if WantsRead(s, t) then 1 else 0) == ReadBalance(Initial, es, t)
            && s.writeHolds[t] + (if WantsWrite(s, t) then 1 else 0) == WriteBalance(es, t)
  {
    RunBalancesFrom(Initial, es, t);
  }

  /** A call to `lock` returns at once exactly when the lock is free or the caller already holds it for writing. */
  lemma LockReturnsAtOnceIff(s: State, t: Thread)
    requires Inv(s) && Possible(s, Lock(t))
    ensures t !in Apply(s, Lock(t)).waiting <==> s.Free() || t in s.writeHolds
    ensures t !in Apply(s, Lock(t)).waiting ==>
              Apply(s, Lock(t)).writeHolds == s.writeHolds + multiset{t}
  {
    if s.owner == Some(t) {
      assert exists u :: u in s.writeHolds by {
        assert |s.writeHolds| > 0;
      }
    }
  }

  /** A thread waiting for a lock that its own hold excludes: a reader that asked for the write lock, or a
      writer that asked for the read lock. */
  ghost predicate BlockedByItself(s: State, t: Thread) {
    || (t in s.readHolds && (s.In(t, WriterAsleep) || s.In(t, WriterWoken)))
    || (t in s.writeHolds && (s.In(t, ReaderAsleep) || s.In(t, ReaderWoken)))
  }

  lemma ReaderStaysBlocked(s: State, e: Event, t: Thread)
    requires Inv(s) && Legal(s, e) && t in s.readHolds && (s.In(t, WriterAsleep) || s.In(t, WriterWoken))
    ensures BlockedByItself(Apply(s, e), t)
  {
    assert |s.readHolds| > 0;
    assert t in Apply(s, e).readHolds;
  }

  lemma WriterStaysBlocked(s: State, e: Event, t: Thread)
    requires Inv(s) && Legal(s, e) && t in s.writeHolds && (s.In(t, ReaderAsleep) || s.In(t, ReaderWoken))
    ensures BlockedByItself(Apply(s, e), t)
  {
    assert s.owner == Some(t);
    assert t in Apply(s, e).writeHolds;
  }

  lemma BlockedByItselfStep(s: State, e: Event, t: Thread)
    requires Inv(s) && Legal(s, e) && BlockedByItself(s, t)
    ensures BlockedByItself(Apply(s, e), t)
  {
    if t in s.readHolds && (s.In(t, WriterAsleep) || s.In(t, WriterWoken)) {
      ReaderStaysBlocked(s, e, t);
    } else {
      WriterStaysBlocked(s, e, t);
    }
  }

  /** Neither an upgrade nor a downgrade ever returns, whatever the other threads do. */
  lemma {:induction false} SelfBlockedForEver(s: State, es: seq<Event>, t: Thread)
    requires Inv(s) && LegalRun(s, es) && BlockedByItself(s, t)
    ensures BlockedByItself(Run(s, es), t)
    decreases |es|
  {
    if es != [] {
      StepKeepsInv(s, es[0]);
      BlockedByItselfStep(s, es[0], t);
      SelfBlockedForEver(Apply(s, es[0]), es[1..], t);
    }
  }

  /** A thread that holds the lock one way and asks for it the other way is stuck for ever. */
  lemma MixedRequestNeverReturns(s: State, t: Thread, es: seq<Event>)
    requires Inv(s) && t !in s.waiting
    ensures t in s.readHolds && LegalRun(Apply(s, Lock(t)), es) ==> t in Run(Apply(s, Lock(t)), es).waiting
    ensures t in s.writeHolds && LegalRun(Apply(s, LockShared(t)), es) ==> t in Run(Apply(s, LockShared(t)), es).waiting
  {
    if t in s.readHolds && LegalRun(Apply(s, Lock(t)), es) {
      assert |s.readHolds| > 0;
      StepKeepsInv(s, Lock(t));
      SelfBlockedForEver(Apply(s, Lock(t)), es, t);
    }
    if t in s.writeHolds && LegalRun(Apply(s, LockShared(t)), es) {
      StepKeepsInv(s, LockShared(t));
      SelfBlockedForEver(Apply(s, LockShared(t)), es, t);
    }
  }
}

/** The lock as an object: each method is one critical section of the call it is named after. */
module RecursiveSharedMutexObject {
  import opened Common
  import opened RecursiveSharedMutexProtocol

  class RecursiveSharedMutex {
    var sharedLockCount: int
    var exclusiveLockCount: int
    var recursiveOwner: Option<Thread>
    var recursiveCount: int

    // Which threads are inside a blocking call, and who holds what: the view of an outside observer.
    ghost var waiting: Waiters
    ghost var readHolds: multiset<Thread>
    ghost var writeHolds: multiset<Thread>

    ghost function View(): State
      reads this
    {
      State(sharedLockCount, exclusiveLockCount, recursiveOwner, recursiveCount, waiting, readHolds, writeHolds)
    }

    constructor ()
      ensures View() == Initial && Inv(View())
    {
      sharedLockCount, exclusiveLockCount, recursiveOwner, recursiveCount := 0, 0, None, 0;
      waiting, readHolds, writeHolds := map[], multiset{}, multiset{};
    }

    /** A read lock: got at once if and only if no writer holds the lock; otherwise the caller sleeps. */
    method LockShared(t: Thread) returns (entered: bool)
      requires Inv(View()) && Legal(View(), Event.LockShared(t))
      modifies this
      ensures Inv(View()) && View() == Apply(old(View()), Event.LockShared(t))
      ensures entered <==> old(writeHolds) == multiset{}
      ensures readHolds == old(readHolds) + (if entered then multiset{t} else multiset{})
              && writeHolds == old(writeHolds)
      ensures if entered then waiting == old(waiting) else View().In(t, ReaderAsleep)
    {
      StepKeepsInv(View(), Event.LockShared(t));
      WriterCounted(View());
      if exclusiveLockCount > 0 {
        waiting := waiting[t := ReaderAsleep];
        return false;
      }
      sharedLockCount := sharedLockCount + 1;
      readHolds := readHolds + multiset{t};
      return true;
    }

    method TryLockShared(t: Thread) returns (ok: bool)
      requires Inv(View()) && Legal(View(), Event.TryLockShared(t))
      modifies this
      ensures Inv(View()) && View() == Apply(old(View()), Event.TryLockShared(t))
      ensures ok <==> old(writeHolds) == multiset{}
      ensures readHolds == old(readHolds) + (if ok then multiset{t} else multiset{}) && writeHolds == old(writeHolds)
      ensures waiting == old(waiting)
    {
      StepKeepsInv(View(), Event.TryLockShared(t));
      WriterCounted(View());
      if exclusiveLockCount == 0 {
        sharedLockCount := sharedLockCount + 1;
        readHolds := readHolds + multiset{t};
        return true;
      }
      return false;
    }

    /** One read hold less; when it was the last, a sleeping writer is woken. */
    method UnlockShared(t: Thread, ghost notified: Option<Thread>)
      requires Inv(View()) && Legal(View(), Event.UnlockShared(t, notified))
      modifies this
      ensures Inv(View()) && View() == Apply(old(View()), Event.UnlockShared(t, notified))
      ensures readHolds == old(readHolds) - multiset{t} && writeHolds == old(writeHolds)
      ensures readHolds == multiset{} && old(exists w :: View().In(w, WriterAsleep)) ==>
                exists w :: View().In(w, WriterWoken)
      ensures waiting.Keys == old(waiting).Keys
      ensures forall u :: u in waiting ==>
                waiting[u] == if readHolds == multiset{} && notified == Some(u) then WriterWoken else old(waiting)[u]
    {
      StepKeepsInv(View(), Event.UnlockShared(t, notified));
      SharedReleaseWakes(View(), t, notified);
      LastReaderWakes(View(), t, notified);
      sharedLockCount := sharedLockCount - 1;
      readHolds := readHolds - multiset{t};
      if sharedLockCount == 0 {
        waiting := NotifyOneWriter(waiting, notified);
      }
    }

    /** The write lock: got at once if and only if nobody holds the lock or the caller has it already; the recursion
        count is then the number of times that the caller has it. */
    method Lock(t: Thread) returns (entered: bool)
      requires Inv(View()) && Legal(View(), Event.Lock(t))
      modifies this
      ensures Inv(View()) && View() == Apply(old(View()), Event.Lock(t))
      ensures entered <==> (old(readHolds) == multiset{} && old(writeHolds) == multiset{}) || t in old(writeHolds)
      ensures writeHolds == old(writeHolds) + (if entered then multiset{t} else multiset{})
              && readHolds == old(readHolds)
      ensures entered ==> readHolds == multiset{} && recursiveCount == writeHolds[t] && waiting == old(waiting)
      ensures !entered ==> View().In(t, WriterAsleep)
    {
      StepKeepsInv(View(), Event.Lock(t));
      WriterCounted(View());
      OwnerCounted(Apply(View(), Event.Lock(t)));
      entered := EnterOrSleep(t);
    }

    /** The loop test of `lock`. */
    method EnterOrSleep(t: Thread) returns (entered: bool)
      modifies this
      ensures View() == Apply(old(View()), Event.Lock(t))
      ensures entered <==> old(sharedLockCount <= 0 && exclusiveLockCount <= 0) || old(recursiveOwner) == Some(t)
    {
      if sharedLockCount > 0 || exclusiveLockCount > 0 {
        if recursiveOwner == Some(t) {
          recursiveCount := recursiveCount + 1;
          writeHolds := writeHolds + multiset{t};
          return true;
        }
        waiting := waiting[t := WriterAsleep];
        return false;
      }
      recursiveOwner := Some(t);
      recursiveCount := 1;
      exclusiveLockCount := exclusiveLockCount + 1;
      writeHolds := writeHolds + multiset{t};
      return true;
    }

    ghost method NotifyWaiters(notified: Option<Thread>)
      modifies this`waiting
      ensures waiting == NotifyOneWriter(NotifyAllReaders(old(waiting)), notified)
    {
      waiting := NotifyOneWriter(NotifyAllReaders(waiting), notified);
    }

    /** One write hold less; when it was the last, no reader sleeps any more and a sleeping writer is woken. */
    method Unlock(t: Thread, ghost notified: Option<Thread>)
      requires Inv(View()) && Legal(View(), Event.Unlock(t, notified))
      modifies this
      ensures Inv(View()) && View() == Apply(old(View()), Event.Unlock(t, notified))
      ensures writeHolds == old(writeHolds) - multiset{t} && readHolds == old(readHolds)
      ensures writeHolds == multiset{} ==> forall u :: !View().In(u, ReaderAsleep)
      ensures writeHolds == multiset{} && old(exists w :: View().In(w, WriterAsleep)) ==>
                exists w :: View().In(w, WriterWoken)
      ensures waiting.Keys == old(waiting).Keys
      ensures forall u :: u in waiting ==>
                waiting[u] == if writeHolds == multiset{} then Told(old(waiting)[u], notified == Some(u))
                              else old(waiting)[u]
    {
      ExclusiveReleaseWakes(View(), t, notified);
      StepKeepsInv(View(), Event.Unlock(t, notified));
      LastWriterWakes(View(), t, notified);
      GiveBack(t, notified);
    }

    /** The body of `unlock`. */
    method GiveBack(t: Thread, ghost notified: Option<Thread>)
      modifies this
      ensures View() == Apply(old(View()), Event.Unlock(t, notified))
    {
      ghost var holds := writeHolds - multiset{t};
      if recursiveOwner == Some(t) && recursiveCount > 1 {
        recursiveCount := recursiveCount - 1;
      } else {
        recursiveOwner := None;
        recursiveCount := 0;
        exclusiveLockCount := exclusiveLockCount - 1;
        if exclusiveLockCount == 0 {
          NotifyWaiters(notified);
        }
      }
      writeHolds := holds;
    }

    /** A woken reader has the internal mutex again and runs the loop test of `lock_shared`. */
    method ResumeShared(t: Thread) returns (entered: bool)
      requires Inv(View()) && View().In(t, ReaderWoken)
      modifies this
      ensures Inv(View()) && View() == Apply(old(View()), Recheck(t))
      ensures entered <==> old(writeHolds) == multiset{}
      ensures if entered then t !in waiting && t in readHolds else View().In(t, ReaderAsleep)
    {
      StepKeepsInv(View(), Recheck(t));
      WriterCounted(View());
      waiting := waiting - {t};
      if exclusiveLockCount > 0 {
        waiting := waiting[t := ReaderAsleep];
        return false;
      }
      sharedLockCount := sharedLockCount + 1;
      readHolds := readHolds + multiset{t};
      return true;
    }

    /** A woken writer has the internal mutex again and runs the loop test of `lock`. */
    method ResumeExclusive(t: Thread) returns (entered: bool)
      requires Inv(View()) && View().In(t, WriterWoken)
      modifies this
      ensures Inv(View()) && View() == Apply(old(View()), Recheck(t))
      ensures entered <==> (old(readHolds) == multiset{} && old(writeHolds) == multiset{}) || t in old(writeHolds)
      ensures if entered then t !in waiting && t in writeHolds && readHolds == multiset{}
              else View().In(t, WriterAsleep)
    {
      StepKeepsInv(View(), Recheck(t));
      WriterCounted(View());
      waiting := waiting - {t};
      entered := EnterOrSleep(t);
    }
  }

  /** The writer's count tells whether there is a writer. */
  lemma WriterCounted(s: State)
    requires CountsAgree(s)
    ensures s.exclusiveCount > 0 <==> s.writeHolds != multiset{}
    ensures s.sharedCount > 0 <==> s.readHolds != multiset{}
    ensures forall t :: s.owner == Some(t) <==> t in s.writeHolds
  {
    if s.owner.Some? {
      assert |s.writeHolds| > 0;
      var u :| u in s.writeHolds;
    }
  }

  lemma OwnerCounted(s: State)
    requires CountsAgree(s)
    ensures forall t :: t in s.writeHolds ==> s.recursiveCount == s.writeHolds[t]
  {
    forall t | t in s.writeHolds ensures |s.writeHolds| == s.writeHolds[t] {
      assert s.writeHolds == multiset{}[t := s.writeHolds[t]];
    }
  }

  /** What becomes of a waiting thread when the last writer leaves. */
  function Told(p: Phase, notified: bool): Phase {
    match p
    case ReaderAsleep => ReaderWoken
    case ReaderWoken => ReaderWoken
    case WriterAsleep => if notified then WriterWoken else WriterAsleep
    case WriterWoken => WriterWoken
  }

  lemma SharedReleaseWakes(s: State, t: Thread, n: Option<Thread>)
    requires CountsAgree(s) && NotifyOneChoice(s, n) && t in s.readHolds
    ensures var s' := LeaveShared(s, t, n);
            && s'.waiting.Keys == s.waiting.Keys
            && forall u :: u in s.waiting ==>
                 s'.waiting[u] == if s'.readHolds == multiset{} && n == Some(u) then WriterWoken else s.waiting[u]
  {
    NotifyKeepsWants(s.waiting, n);
    DropOne(s.readHolds, t);
  }

  lemma ExclusiveReleaseWakes(s: State, t: Thread, n: Option<Thread>)
    requires CountsAgree(s) && NotifyOneChoice(s, n) && t in s.writeHolds
    ensures var s' := LeaveExclusive(s, t, n);
            && s'.waiting.Keys == s.waiting.Keys
            && forall u :: u in s.waiting ==>
                 s'.waiting[u] == if s'.writeHolds == multiset{} then Told(s.waiting[u], n == Some(u)) else s.waiting[u]
  {
    NotifyKeepsWants(s.waiting, n);
    NotifyKeepsWants(NotifyAllReaders(s.waiting), n);
    DropOne(s.writeHolds, t);
  }

  lemma LastReaderWakes(s: State, t: Thread, n: Option<Thread>)
    requires Inv(s) && Legal(s, Event.UnlockShared(t, n))
    ensures var s' := LeaveShared(s, t, n);
            s'.readHolds == multiset{} && (exists w :: s.In(w, WriterAsleep)) ==> exists w :: s'.In(w, WriterWoken)
  {
    var s' := LeaveShared(s, t, n);
    DropOne(s.readHolds, t);
    if s'.readHolds == multiset{} {
      if w :| s.In(w, WriterAsleep) {
        assert s'.In(n.value, WriterWoken);
      }
    }
  }

  lemma LastWriterWakes(s: State, t: Thread, n: Option<Thread>)
    requires Inv(s) && Legal(s, Event.Unlock(t, n))
    ensures var s' := LeaveExclusive(s, t, n);
            s'.writeHolds == multiset{} ==>
              && (forall u :: !s'.In(u, ReaderAsleep))
              && ((exists w :: s.In(w, WriterAsleep)) ==> exists w :: s'.In(w, WriterWoken))
  {
    var s' := LeaveExclusive(s, t, n);
    DropOne(s.writeHolds, t);
    if s'.writeHolds == multiset{} {
      if w :| s.In(w, WriterAsleep) {
        assert s'.In(n.value, WriterWoken);
      }
    }
  }
}
