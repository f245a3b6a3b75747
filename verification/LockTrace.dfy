/**
 The deadlock check of the lock tracer: who owns which mutex, who waits for which, and a walk along the
 wait-for chain that starts at the owner of the requested mutex and is cut off at a fixed depth.
 */
module LockTraceSpec {
  type Mutex = int
  type Thread = int

  /** The four tables; of a lock record only the owner matters to the check. */
  datatype Tables = Tables(
    locks: map<Mutex, Thread>,
    waits: map<Thread, Mutex>,
    own: map<Thread, set<Mutex>>,
    recursive: set<Mutex>)

  /** The owner map and the own-lock sets describe the same ownership. */
  ghost predicate Consistent(tb: Tables) {
    && (forall m :: m in tb.locks ==> tb.locks[m] in tb.own && m in tb.own[tb.locks[m]])
    && (forall t, m :: t in tb.own && m in tb.own[t] ==> m in tb.locks && tb.locks[m] == t)
  }

  // ---------------------------------------------------------------- the operations

  /** The recursive overload of `deadlockCheck`. */
  function Follow(tb: Tables, ownMutexes: set<Mutex>, other: Thread, depth: int, maxBlockTids: int): bool
    decreases maxBlockTids - depth
  {
    if depth >= maxBlockTids then false
    else if other !in tb.waits then false
    else if tb.waits[other] in ownMutexes then true
    else if tb.waits[other] !in tb.locks then false
    else Follow(tb, ownMutexes, tb.locks[tb.waits[other]], depth + 1, maxBlockTids)
  }

  function WithRequest(tb: Tables, m: Mutex, t: Thread): Tables {
    tb.(waits := tb.waits[t := m])
  }

  /** The outer overload, on the tables that already record the request. */
  function Check(tb: Tables, m: Mutex, t: Thread, maxBlockTids: int): bool {
    if m !in tb.locks then false
    else if tb.locks[m] == t then m !in tb.recursive
    else if t !in tb.own then false
    else if tb.own[t] == {} then false
    else Follow(tb, tb.own[t], tb.locks[m], 1, maxBlockTids)
  }

  function OwnedBy(tb: Tables, t: Thread): set<Mutex> {
    if t in tb.own then tb.own[t] else {}
  }

  /** `map::insert` keeps an existing record. */
  function Insert(tb: Tables, m: Mutex, t: Thread): Tables {
    tb.(locks := if m in tb.locks then tb.locks else tb.locks[m := t],
        waits := tb.waits - {t},
        own := tb.own[t := OwnedBy(tb, t) + {m}])
  }

  function Erase(tb: Tables, m: Mutex, t: Thread): Tables {
    tb.(locks := tb.locks - {m},
        own := tb.own[t := OwnedBy(tb, t) - {m}])
  }

  // ---------------------------------------------------------------- what a deadlock is

  predicate WaitsFor(tb: Tables, a: Thread, b: Thread) {
    a in tb.waits && tb.waits[a] in tb.locks && tb.locks[tb.waits[a]] == b
  }

  ghost predicate WaitChain(tb: Tables, p: seq<Thread>) {
    forall i :: 0 <= i < |p| - 1 ==> WaitsFor(tb, p[i], p[i + 1])
  }

  /** `t` waits for `others[0]`, which waits for `others[1]`, ..., and the last of them waits for `t`. */
  ghost predicate Cycle(tb: Tables, t: Thread, others: seq<Thread>) {
    others != [] && WaitChain(tb, [t] + others + [t])
  }

  // ---------------------------------------------------------------- the walk finds exactly the short cycles

  lemma OwnerRecorded(tb: Tables, t: Thread, m: Mutex)
    requires Consistent(tb)
    ensures (t in tb.own && m in tb.own[t]) <==> (m in tb.locks && tb.locks[m] == t)
  {
  }

  lemma {:induction false} FollowSound(tb: Tables, t: Thread, other: Thread, depth: int, maxBlockTids: int)
      returns (p: seq<Thread>)
    requires Consistent(tb) && t in tb.own
    requires Follow(tb, tb.own[t], other, depth, maxBlockTids)
    ensures p != [] && p[0] == other && WaitChain(tb, p + [t]) && depth + |p| <= maxBlockTids
    decreases maxBlockTids - depth
  {
    if tb.waits[other] in tb.own[t] {
      p := [other];
      OwnerRecorded(tb, t, tb.waits[other]);
    } else {
      var q := FollowSound(tb, t, tb.locks[tb.waits[other]], depth + 1, maxBlockTids);
      p := [other] + q;
      forall i | 0 <= i < |p + [t]| - 1 ensures WaitsFor(tb, (p + [t])[i], (p + [t])[i + 1]) {
        if i > 0 {
          assert WaitsFor(tb, (q + [t])[i - 1], (q + [t])[i]);
        }
      }
    }
  }

  lemma {:induction false} FollowComplete(tb: Tables, t: Thread, p: seq<Thread>, depth: int, maxBlockTids: int)
    requires Consistent(tb) && t in tb.own
    requires p != [] && WaitChain(tb, p + [t]) && depth + |p| <= maxBlockTids
    ensures Follow(tb, tb.own[t], p[0], depth, maxBlockTids)
    decreases |p|
  {
    assert WaitsFor(tb, (p + [t])[0], (p + [t])[0 + 1]);
    OwnerRecorded(tb, t, tb.waits[p[0]]);
    if |p| > 1 {
      var q := p[1..];
      forall i | 0 <= i < |q + [t]| - 1 ensures WaitsFor(tb, (q + [t])[i], (q + [t])[i + 1]) {
        assert WaitsFor(tb, (p + [t])[i + 1], (p + [t])[i + 2]);
      }
      FollowComplete(tb, t, q, depth + 1, maxBlockTids);
    }
  }

  lemma CycleOwner(tb: Tables, t: Thread, others: seq<Thread>)
    requires Consistent(tb) && Cycle(tb, t, others)
    ensures WaitsFor(tb, t, others[0]) && WaitChain(tb, others + [t])
    ensures t in tb.own && tb.own[t] != {}
  {
    var c := [t] + others + [t];
    assert WaitsFor(tb, c[0], c[0 + 1]);
    forall i | 0 <= i < |others + [t]| - 1 ensures WaitsFor(tb, (others + [t])[i], (others + [t])[i + 1]) {
      assert WaitsFor(tb, c[i + 1], c[i + 2]);
    }
    assert WaitsFor(tb, c[|others|], c[|others| + 1]);
    OwnerRecorded(tb, t, tb.waits[c[|others|]]);
  }

  /** The check for a request that is not for a mutex of the requester: it answers true exactly when some
      wait-for cycle runs through the requester and fewer than `maxBlockTids` other threads. */
  lemma CheckExact(tb: Tables, m: Mutex, t: Thread, maxBlockTids: int)
    requires Consistent(tb) && t in tb.waits && tb.waits[t] == m
    requires m in tb.locks ==> tb.locks[m] != t
    ensures Check(tb, m, t, maxBlockTids) <==> exists others :: Cycle(tb, t, others) && |others| < maxBlockTids
  {
    if Check(tb, m, t, maxBlockTids) {
      var p := FollowSound(tb, t, tb.locks[m], 1, maxBlockTids);
      forall i | 0 <= i < |[t] + p + [t]| - 1 ensures WaitsFor(tb, ([t] + p + [t])[i], ([t] + p + [t])[i + 1]) {
        if i > 0 {
          assert WaitsFor(tb, (p + [t])[i - 1], (p + [t])[i]);
        }
      }
      assert Cycle(tb, t, p);
    }
    if others :| Cycle(tb, t, others) && |others| < maxBlockTids {
      CycleOwner(tb, t, others);
      FollowComplete(tb, t, others, 1, maxBlockTids);
    }
  }

  // ---------------------------------------------------------------- the depth bound, by counting threads

  lemma {:induction false} DistinctFit(p: seq<Thread>, s: set<Thread>)
    requires forall i :: 0 <= i < |p| ==> p[i] in s
    requires forall i, j :: 0 <= i < j < |p| ==> p[i] != p[j]
    ensures |p| <= |s|
    decreases |p|
  {
    if p != [] {
      var last := p[|p| - 1];
      DistinctFit(p[..|p| - 1], s - {last});
    }
  }

  /** Two equal threads on a chain have equal futures. */
  lemma {:induction false} SameFuture(tb: Tables, c: seq<Thread>, i: nat, j: nat, d: nat)
    requires WaitChain(tb, c) && i <= j && j + d < |c| && c[i] == c[j]
    ensures c[i + d] == c[j + d]
    decreases d
  {
    if d > 0 {
      SameFuture(tb, c, i, j, d - 1);
      assert WaitsFor(tb, c[i + d - 1], c[i + d - 1 + 1]) && WaitsFor(tb, c[j + d - 1], c[j + d - 1 + 1]);
    }
  }

  lemma PrefixCycle(tb: Tables, t: Thread, others: seq<Thread>, n: nat)
    requires Cycle(tb, t, others) && 0 < n <= |others|
    requires n == |others| || others[n] == t
    ensures Cycle(tb, t, others[..n])
  {
    var c, whole := [t] + others[..n] + [t], [t] + others + [t];
    assert c == whole[..n + 2];
    forall i | 0 <= i < |c| - 1 ensures WaitsFor(tb, c[i], c[i + 1]) {
      assert WaitsFor(tb, whole[i], whole[i + 1]);
    }
  }

  lemma CycleFits(tb: Tables, t: Thread, p: seq<Thread>)
    requires Cycle(tb, t, p) && t !in p
    ensures |p| <= |tb.waits.Keys - {t}|
  {
    var c := [t] + p + [t];
    forall i, j | 0 <= i < j < |p| ensures p[i] != p[j] {
      if p[i] == p[j] {
        SameFuture(tb, c, i + 1, j + 1, |p| - j);
      }
    }
    forall i | 0 <= i < |p| ensures p[i] in tb.waits.Keys - {t} {
      assert WaitsFor(tb, c[i + 1], c[i + 1 + 1]);
    }
    DistinctFit(p, tb.waits.Keys - {t});
  }

  /** Cutting a cycle at its first return to `t` leaves distinct waiting threads other than `t`. */
  lemma SimpleCycle(tb: Tables, t: Thread, others: seq<Thread>) returns (p: seq<Thread>)
    requires Cycle(tb, t, others) && others[0] != t
    ensures Cycle(tb, t, p) && |p| <= |tb.waits.Keys - {t}|
  {
    var n := 1;
    while n < |others| && others[n] != t
      invariant 1 <= n <= |others|
      invariant t !in others[..n]
    {
      n := n + 1;
    }
    p := others[..n];
    PrefixCycle(tb, t, others, n);
    CycleFits(tb, t, p);
  }

  /** While fewer than `maxBlockTids` other threads wait, the check finds every cycle through the requester. */
  lemma CheckCompleteWhenFewWait(tb: Tables, m: Mutex, t: Thread, maxBlockTids: int)
    requires Consistent(tb) && t in tb.waits && tb.waits[t] == m
    requires m in tb.locks ==> tb.locks[m] != t
    requires |tb.waits.Keys - {t}| < maxBlockTids
    ensures Check(tb, m, t, maxBlockTids) <==> exists others :: Cycle(tb, t, others)
  {
    CheckExact(tb, m, t, maxBlockTids);
    if others :| Cycle(tb, t, others) {
      CycleOwner(tb, t, others);
      var p := SimpleCycle(tb, t, others);
    }
  }

  function RingOwner(m: Mutex): Thread {
    m
  }

  function RingWait(n: nat, t: Thread): Mutex {
    if t + 1 == n then 0 else t + 1
  }

  /** Threads 0 to `n - 1`: each owns the mutex with its own number and waits for the next one. */
  function Ring(n: nat): Tables {
    Tables(map m: Mutex | 0 <= m < n :: RingOwner(m), map t: Thread | 0 <= t < n :: RingWait(n, t),
           map t: Thread | 0 <= t < n :: {t}, {})
  }

  lemma {:induction false} RingWalk(n: nat, i: nat, maxBlockTids: int)
    requires 1 <= i <= maxBlockTids < n
    ensures !Follow(Ring(n), {0}, i, i, maxBlockTids)
    decreases maxBlockTids - i
  {
    if i < maxBlockTids {
      RingWalk(n, i + 1, maxBlockTids);
    }
  }

  lemma RingCloses(n: nat, others: seq<Thread>)
    requires n > 1 && |others| == n - 1 && forall i :: 0 <= i < |others| ==> others[i] == i + 1
    ensures Consistent(Ring(n)) && Cycle(Ring(n), 0, others)
  {
    var c := [0] + others + [0];
    forall i | 0 <= i < |c| - 1 ensures WaitsFor(Ring(n), c[i], c[i + 1]) {
    }
  }

  /** A cycle that the check misses: nine threads in a ring, of which eight are not the requester. */
  lemma NineThreadsMissed()
    ensures Consistent(Ring(9)) && Cycle(Ring(9), 0, [1, 2, 3, 4, 5, 6, 7, 8]) && !Check(Ring(9), 1, 0, 8)
  {
    RingCloses(9, [1, 2, 3, 4, 5, 6, 7, 8]);
    RingWalk(9, 1, 8);
    assert Ring(9).own[0] == {0};
  }

  // ---------------------------------------------------------------- which updates keep the tables consistent

  lemma InsertKeepsConsistentIff(tb: Tables, m: Mutex, t: Thread)
    requires Consistent(tb)
    ensures Consistent(Insert(tb, m, t)) <==> (m !in tb.locks || tb.locks[m] == t)
  {
    var tb' := Insert(tb, m, t);
    if m in tb.locks && tb.locks[m] != t {
      assert m in tb'.own[t] && tb'.locks[m] != t;
    }
  }

  lemma EraseKeepsConsistentIff(tb: Tables, m: Mutex, t: Thread)
    requires Consistent(tb)
    ensures Consistent(Erase(tb, m, t)) <==> (m !in tb.locks || tb.locks[m] == t)
  {
    var tb' := Erase(tb, m, t);
    if m in tb.locks && tb.locks[m] != t {
      var u := tb.locks[m];
      assert u in tb.own && m in tb.own[u];
      assert m in tb'.own[u] && m !in tb'.locks;
    }
  }

  // ---------------------------------------------------------------- what the tables say over a run

  /** A grant ends the wait of the thread, so that no cycle runs through it, and touches no other wait. */
  lemma InsertEndsWait(tb: Tables, m: Mutex, t: Thread)
    ensures var tb' := Insert(tb, m, t);
            && t !in tb'.waits && (forall u :: u != t ==> (u in tb'.waits <==> u in tb.waits))
            && (forall u :: u in tb'.waits ==> tb'.waits[u] == tb.waits[u])
            && tb'.recursive == tb.recursive
    ensures forall others :: !Cycle(Insert(tb, m, t), t, others)
  {
    var tb' := Insert(tb, m, t);
    forall others ensures !Cycle(tb', t, others) {
      var c := [t] + others + [t];
      assert !WaitsFor(tb', c[0], c[0 + 1]);
    }
  }

  lemma EraseKeepsWaits(tb: Tables, m: Mutex, t: Thread)
    ensures Erase(tb, m, t).waits == tb.waits && Erase(tb, m, t).recursive == tb.recursive
  {
  }

  /** What threads do with mutexes: ask, get, give back, and give up after a failed `trylock`. */
  datatype Event =
    | Asks(m: Mutex, t: Thread)
    | Gets(m: Mutex, t: Thread)
    | GivesBack(m: Mutex, t: Thread)
    | GivesUp(m: Mutex, t: Thread)

  /** Who really has which mutex, and who is really blocked on which. */
  datatype World = World(holder: map<Mutex, Thread>, blocked: map<Thread, Mutex>)

  /** A blocked thread does nothing else, a mutex goes to one thread at a time, only its holder gives it back, and a
      `trylock` fails only on a mutex that somebody has. */
  predicate Happens(w: World, e: Event) {
    match e
    case Asks(_, t) => t !in w.blocked
    case Gets(m, t) => t in w.blocked && w.blocked[t] == m && m !in w.holder
    case GivesBack(m, t) => t !in w.blocked && m in w.holder && w.holder[m] == t
    case GivesUp(m, t) => t in w.blocked && w.blocked[t] == m && m in w.holder
  }

  function WorldAfter(w: World, e: Event): World {
    match e
    case Asks(m, t) => w.(blocked := w.blocked[t := m])
    case Gets(m, t) => World(w.holder[m := t], w.blocked - {t})
    case GivesBack(m, _) => w.(holder := w.holder - {m})
    case GivesUp(_, t) => w.(blocked := w.blocked - {t})
  }

  /** The record that the macros make of it: none for a failed `trylock`. */
  function Recorded(tb: Tables, e: Event): Tables {
    match e
    case Asks(m, t) => WithRequest(tb, m, t)
    case Gets(m, t) => Insert(tb, m, t)
    case GivesBack(m, t) => Erase(tb, m, t)
    case GivesUp(_, _) => tb
  }

  /** The threads that gave up and have not asked again. */
  function GaveUp(before: set<Thread>, e: Event): set<Thread> {
    match e
    case Asks(_, t) => before - {t}
    case GivesUp(_, t) => before + {t}
    case _ => before
  }

  ghost predicate Real(w: World, es: seq<Event>)
    decreases |es|
  {
    es == [] || (Happens(w, es[0]) && Real(WorldAfter(w, es[0]), es[1..]))
  }

  function WorldRun(w: World, es: seq<Event>): World
    decreases |es|
  {
    if es == [] then w else WorldRun(WorldAfter(w, es[0]), es[1..])
  }

  function RecordedRun(tb: Tables, es: seq<Event>): Tables
    decreases |es|
  {
    if es == [] then tb else RecordedRun(Recorded(tb, es[0]), es[1..])
  }

  function GaveUpRun(before: set<Thread>, es: seq<Event>): set<Thread>
    decreases |es|
  {
    if es == [] then before else GaveUpRun(GaveUp(before, es[0]), es[1..])
  }

  /** The tables say what is the case, but go on listing the waits of those who gave up. */
  ghost predicate Exact(tb: Tables, w: World, gaveUp: set<Thread>) {
    && tb.locks == w.holder && tb.waits.Keys == w.blocked.Keys + gaveUp && w.blocked.Keys !! gaveUp
    && (forall t :: t in w.blocked ==> tb.waits[t] == w.blocked[t])
    && forall t, m :: m in OwnedBy(tb, t) <==> m in w.holder && w.holder[m] == t
  }

  lemma ExactIsConsistent(tb: Tables, w: World, gaveUp: set<Thread>)
    requires Exact(tb, w, gaveUp)
    ensures Consistent(tb)
  {
    forall m | m in tb.locks ensures tb.locks[m] in tb.own && m in tb.own[tb.locks[m]] {
      assert m in OwnedBy(tb, tb.locks[m]);
    }
    forall t, m | t in tb.own && m in tb.own[t] ensures m in tb.locks && tb.locks[m] == t {
      assert m in OwnedBy(tb, t);
    }
  }

  lemma ExactStep(tb: Tables, w: World, gaveUp: set<Thread>, e: Event)
    requires Exact(tb, w, gaveUp) && Happens(w, e)
    ensures Exact(Recorded(tb, e), WorldAfter(w, e), GaveUp(gaveUp, e))
  {
    var tb', w' := Recorded(tb, e), WorldAfter(w, e);
    forall t, m ensures m in OwnedBy(tb', t) <==> m in w'.holder && w'.holder[m] == t {
      assert m in OwnedBy(tb, t) <==> m in w.holder && w.holder[m] == t;
    }
  }

  lemma {:induction false} ExactRun(tb: Tables, w: World, gaveUp: set<Thread>, es: seq<Event>)
    requires Exact(tb, w, gaveUp) && Real(w, es)
    ensures Exact(RecordedRun(tb, es), WorldRun(w, es), GaveUpRun(gaveUp, es))
    decreases |es|
  {
    if es != [] {
      ExactStep(tb, w, gaveUp, es[0]);
      ExactRun(Recorded(tb, es[0]), WorldAfter(w, es[0]), GaveUp(gaveUp, es[0]), es[1..]);
    }
  }

  const NOTHING := World(map[], map[])
  const NO_RECORDS := Tables(map[], map[], map[], {})

  /** Thread `a` is blocked on a mutex that thread `b` has. */
  predicate BlockedBy(w: World, a: Thread, b: Thread) {
    a in w.blocked && w.blocked[a] in w.holder && w.holder[w.blocked[a]] == b
  }

  /** A real deadlock: a chain of blocked threads from `t` back to `t`. */
  ghost predicate Deadlock(w: World, t: Thread, others: seq<Thread>) {
    var c := [t] + others + [t];
    others != [] && forall i :: 0 <= i < |c| - 1 ==> BlockedBy(w, c[i], c[i + 1])
  }

  lemma DeadlockIsCycle(tb: Tables, w: World, gaveUp: set<Thread>, t: Thread, others: seq<Thread>)
    requires Exact(tb, w, gaveUp) && Deadlock(w, t, others)
    ensures Cycle(tb, t, others)
  {
    var c := [t] + others + [t];
    forall i | 0 <= i < |c| - 1 ensures WaitsFor(tb, c[i], c[i + 1]) {
      assert BlockedBy(w, c[i], c[i + 1]);
    }
  }

  /** A recorded cycle is a real deadlock if and only if nobody on it gave up. */
  lemma CycleIsDeadlockIff(tb: Tables, w: World, gaveUp: set<Thread>, t: Thread, others: seq<Thread>)
    requires Exact(tb, w, gaveUp) && t !in gaveUp && Cycle(tb, t, others)
    ensures Deadlock(w, t, others) <==> forall u :: u in others ==> u !in gaveUp
  {
    var c := [t] + others + [t];
    if forall u :: u in others ==> u !in gaveUp {
      forall i | 0 <= i < |c| - 1 ensures BlockedBy(w, c[i], c[i + 1]) {
        assert WaitsFor(tb, c[i], c[i + 1]);
        assert i > 0 ==> c[i] == others[i - 1];
      }
    }
    if Deadlock(w, t, others) {
      forall u | u in others ensures u !in gaveUp {
        var i :| 0 <= i < |others| && others[i] == u;
        assert BlockedBy(w, c[i + 1], c[i + 1 + 1]);
      }
    }
  }

  lemma CyclesAndDeadlocks(tb: Tables, w: World, gaveUp: set<Thread>, t: Thread)
    requires Exact(tb, w, gaveUp) && t !in gaveUp
    ensures forall others :: Deadlock(w, t, others) ==> Cycle(tb, t, others)
    ensures forall others :: Cycle(tb, t, others) ==>
              (Deadlock(w, t, others) <==> forall u :: u in others ==> u !in gaveUp)
  {
    forall others | Deadlock(w, t, others) ensures Cycle(tb, t, others) {
      DeadlockIsCycle(tb, w, gaveUp, t, others);
    }
    forall others | Cycle(tb, t, others) ensures Deadlock(w, t, others) <==> forall u :: u in others ==> u !in gaveUp {
      CycleIsDeadlockIff(tb, w, gaveUp, t, others);
    }
  }

  /** The state of affairs after a run and one further request. */
  lemma ExactRequest(es: seq<Event>, m: Mutex, t: Thread) returns (tb: Tables, w: World, gaveUp: set<Thread>)
    requires Real(NOTHING, es) && Happens(WorldRun(NOTHING, es), Asks(m, t))
    ensures tb == Recorded(RecordedRun(NO_RECORDS, es), Asks(m, t))
    ensures w == WorldAfter(WorldRun(NOTHING, es), Asks(m, t))
    ensures gaveUp == GaveUpRun({}, es) - {t} && Exact(tb, w, gaveUp) && Consistent(tb)
  {
    var tb0, w0, gaveUp0 := RecordedRun(NO_RECORDS, es), WorldRun(NOTHING, es), GaveUpRun({}, es);
    ExactRun(NO_RECORDS, NOTHING, {}, es);
    ExactStep(tb0, w0, gaveUp0, Asks(m, t));
    tb, w := Recorded(tb0, Asks(m, t)), WorldAfter(w0, Asks(m, t));
    gaveUp := gaveUp0 - {t};
    ExactIsConsistent(tb, w, gaveUp);
  }

  /** After every run that is recorded as it happens, the check of a further request answers true if and only if a
      recorded cycle with fewer than `maxBlockTids` other threads runs through it; such a cycle is a real deadlock if
      and only if nobody on it gave up, and no real deadlock of that length is missed. */
  lemma CheckTellsTheTruth(es: seq<Event>, m: Mutex, t: Thread, maxBlockTids: int)
    requires Real(NOTHING, es) && Happens(WorldRun(NOTHING, es), Asks(m, t))
    requires var w := WorldRun(NOTHING, es); m in w.holder ==> w.holder[m] != t
    ensures var tb := Recorded(RecordedRun(NO_RECORDS, es), Asks(m, t));
            var w := WorldAfter(WorldRun(NOTHING, es), Asks(m, t));
            && (Check(tb, m, t, maxBlockTids) <==> exists others :: Cycle(tb, t, others) && |others| < maxBlockTids)
            && (forall others :: Deadlock(w, t, others) ==> Cycle(tb, t, others))
            && (forall others :: Cycle(tb, t, others) ==>
                  (Deadlock(w, t, others) <==> forall u :: u in others ==> u !in GaveUpRun({}, es) - {t}))
  {
    var tb, w, gaveUp := ExactRequest(es, m, t);
    CheckExact(tb, m, t, maxBlockTids);
    CyclesAndDeadlocks(tb, w, gaveUp, t);
  }

  /** In particular without a failed `trylock` since which its thread has not asked again: the check answers true if and
      only if the request really closes a deadlock with fewer than `maxBlockTids` other threads. */
  lemma CheckExactInWorld(es: seq<Event>, m: Mutex, t: Thread, maxBlockTids: int)
    requires Real(NOTHING, es) && Happens(WorldRun(NOTHING, es), Asks(m, t)) && GaveUpRun({}, es) <= {t}
    requires var w := WorldRun(NOTHING, es); m in w.holder ==> w.holder[m] != t
    ensures var tb := Recorded(RecordedRun(NO_RECORDS, es), Asks(m, t));
            var w := WorldAfter(WorldRun(NOTHING, es), Asks(m, t));
            Check(tb, m, t, maxBlockTids) <==> exists others :: Deadlock(w, t, others) && |others| < maxBlockTids
  {
    CheckTellsTheTruth(es, m, t, maxBlockTids);
  }

  lemma RunFrom(w: World, w': World, tb: Tables, tb': Tables, e: Event, rest: seq<Event>)
    requires Happens(w, e) && w' == WorldAfter(w, e) && tb' == Recorded(tb, e) && Real(w', rest)
    ensures Real(w, [e] + rest) && WorldRun(w, [e] + rest) == WorldRun(w', rest)
    ensures RecordedRun(tb, [e] + rest) == RecordedRun(tb', rest)
  {
    assert ([e] + rest)[1..] == rest;
  }

  /** Two threads get a mutex each; the first tries the mutex of the second, and goes on without it. */
  const FAILED_TRY: seq<Event> :=
    [Asks(1, 1)] + ([Gets(1, 1)] + ([Asks(2, 2)] + ([Gets(2, 2)] + ([Asks(2, 1)] + ([GivesUp(2, 1)] + [])))))

  lemma FailedTry()
    ensures Real(NOTHING, FAILED_TRY) && WorldRun(NOTHING, FAILED_TRY) == World(map[1 := 1, 2 := 2], map[])
    ensures RecordedRun(NO_RECORDS, FAILED_TRY) == Tables(map[1 := 1, 2 := 2], map[1 := 2], map[1 := {1}, 2 := {2}], {})
  {
    var w1, t1 := World(map[], map[1 := 1]), Tables(map[], map[1 := 1], map[], {});
    var w2, t2 := World(map[1 := 1], map[]), Tables(map[1 := 1], map[], map[1 := {1}], {});
    var w3, t3 := World(map[1 := 1], map[2 := 2]), Tables(map[1 := 1], map[2 := 2], map[1 := {1}], {});
    var w4, t4 := World(map[1 := 1, 2 := 2], map[]), Tables(map[1 := 1, 2 := 2], map[], map[1 := {1}, 2 := {2}], {});
    var w5, t5 := w4.(blocked := map[1 := 2]), t4.(waits := map[1 := 2]);
    assert {} + {1} == {1} && {} + {2} == {2};
    assert Insert(t1, 1, 1) == t2 && Insert(t3, 2, 2) == t4;
    RunFrom(w5, w4, t5, t5, GivesUp(2, 1), []);
    RunFrom(w4, w5, t4, t5, Asks(2, 1), [GivesUp(2, 1)] + []);
    RunFrom(w3, w4, t3, t4, Gets(2, 2), [Asks(2, 1)] + ([GivesUp(2, 1)] + []));
    RunFrom(w2, w3, t2, t3, Asks(2, 2), [Gets(2, 2)] + ([Asks(2, 1)] + ([GivesUp(2, 1)] + [])));
    RunFrom(w1, w2, t1, t2, Gets(1, 1), [Asks(2, 2)] + ([Gets(2, 2)] + ([Asks(2, 1)] + ([GivesUp(2, 1)] + []))));
    RunFrom(NOTHING, w1, NO_RECORDS, t1, Asks(1, 1), FAILED_TRY[1..]);
  }

  /** The second then asks for the mutex of the first: the check reports a deadlock, and there is none. */
  lemma FailedTryMisleads()
    ensures Real(NOTHING, FAILED_TRY) && Happens(WorldRun(NOTHING, FAILED_TRY), Asks(1, 2))
    ensures Check(Recorded(RecordedRun(NO_RECORDS, FAILED_TRY), Asks(1, 2)), 1, 2, 8)
    ensures forall others :: !Deadlock(WorldAfter(WorldRun(NOTHING, FAILED_TRY), Asks(1, 2)), 2, others)
  {
    FailedTry();
    var w := WorldAfter(WorldRun(NOTHING, FAILED_TRY), Asks(1, 2));
    forall others ensures !Deadlock(w, 2, others) {
      var c := [2] + others + [2];
      if others != [] && BlockedBy(w, c[0], c[0 + 1]) {
        assert c[1] == 1 && !BlockedBy(w, c[1], c[1 + 1]);
      }
    }
  }
}

/** The tracer as an object holding the static tables. */
module LockTraceObject {
  import opened LockTraceSpec

  class LockTrace {
    var mLocks: map<Mutex, Thread>
    var mWaitLocks: map<Thread, Mutex>
    var mOwnLocks: map<Thread, set<Mutex>>
    var mWaitTimes: map<Mutex, int>
    var mEnableRecursives: set<Mutex>
    var mMaxBlockTids: int

    function View(): Tables
      reads this
    {
      Tables(mLocks, mWaitLocks, mOwnLocks, mEnableRecursives)
    }

    constructor ()
      ensures View() == Tables(map[], map[], map[], {}) && Consistent(View())
      ensures mMaxBlockTids == 8
    {
      mLocks, mWaitLocks, mOwnLocks, mWaitTimes, mEnableRecursives := map[], map[], map[], map[], {};
      mMaxBlockTids := 8;
    }

    method FollowChain(ownMutexes: set<Mutex>, other: Thread, recursiveNum: int) returns (found: bool)
      ensures found == Follow(View(), ownMutexes, other, recursiveNum, mMaxBlockTids)
      decreases mMaxBlockTids - recursiveNum
    {
      if recursiveNum >= mMaxBlockTids {
        return false;
      }
      if other !in mWaitLocks {
        return false;
      }
      var otherWaitMutex := mWaitLocks[other];
      if otherWaitMutex in ownMutexes {
        return true;
      }
      if otherWaitMutex !in mLocks {
        return false;
      }
      found := FollowChain(ownMutexes, mLocks[otherWaitMutex], recursiveNum + 1);
    }

    /** Records the request and reports whether it closes a deadlock. */
    method DeadlockCheck(m: Mutex, t: Thread) returns (found: bool)
      requires Consistent(View())
      modifies this`mWaitLocks
      ensures View() == WithRequest(old(View()), m, t) && Consistent(View())
      ensures mWaitLocks == old(mWaitLocks)[t := m]
      ensures m in mLocks && mLocks[m] == t ==> (found <==> m !in mEnableRecursives)
      ensures (m in mLocks ==> mLocks[m] != t) ==>
                (found <==> exists others :: Cycle(View(), t, others) && |others| < mMaxBlockTids)
    {
      mWaitLocks := mWaitLocks[t := m];
      if m in mLocks ==> mLocks[m] != t {
        CheckExact(View(), m, t, mMaxBlockTids);
      }
      if m !in mLocks {
        return false;
      }
      if mLocks[m] == t {
        return m !in mEnableRecursives;
      }
      if t !in mOwnLocks {
        return false;
      }
      if mOwnLocks[t] == {} {
        return false;
      }
      found := FollowChain(mOwnLocks[t], mLocks[m], 1);
    }

    method InsertLock(m: Mutex, t: Thread)
      requires Consistent(View())
      modifies this`mLocks, this`mWaitLocks, this`mOwnLocks, this`mWaitTimes
      ensures View() == Insert(old(View()), m, t)
      ensures mWaitLocks == old(mWaitLocks) - {t} && m in mLocks && (m !in old(mLocks) ==> mLocks[m] == t)
      ensures forall n :: n != m ==> (n in mLocks <==> n in old(mLocks))
      ensures forall n :: n != m && n in mLocks ==> mLocks[n] == old(mLocks)[n]
      ensures OwnedBy(View(), t) == OwnedBy(old(View()), t) + {m}
      ensures Consistent(View()) <==> old(m !in mLocks || mLocks[m] == t)
      ensures mWaitTimes.Keys == old(mWaitTimes).Keys
      ensures forall n :: n in mWaitTimes ==> mWaitTimes[n] == old(mWaitTimes)[n] - if n == m then 1 else 0
    {
      InsertKeepsConsistentIff(View(), m, t);
      if m !in mLocks {
        mLocks := mLocks[m := t];
      }
      mWaitLocks := mWaitLocks - {t};
      mOwnLocks := mOwnLocks[t := OwnedBy(View(), t) + {m}];
      if m in mWaitTimes {
        mWaitTimes := mWaitTimes[m := mWaitTimes[m] - 1];
      }
    }

    method Unlock(m: Mutex, t: Thread)
      requires Consistent(View())
      modifies this`mLocks, this`mOwnLocks
      ensures View() == Erase(old(View()), m, t)
      ensures mWaitLocks == old(mWaitLocks) && mLocks == old(mLocks) - {m}
      ensures OwnedBy(View(), t) == OwnedBy(old(View()), t) - {m}
      ensures forall u :: u != t ==> OwnedBy(View(), u) == OwnedBy(old(View()), u)
      ensures Consistent(View()) <==> old(m !in mLocks || mLocks[m] == t)
    {
      EraseKeepsConsistentIff(View(), m, t);
      mLocks := mLocks - {m};
      mOwnLocks := mOwnLocks[t := OwnedBy(View(), t) - {m}];
    }
  }
}
