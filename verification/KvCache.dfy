/**
 The key-value cache with least-recently-used eviction: what each call does to the recency list and the
 map, what every run keeps, and how two caches of different capacity relate on the same run.
 */
module KvCacheSpec {
  import opened Common

  /** `order` lists the cached keys, the most recently used first. */
  datatype Cache<K, V> = Cache(order: seq<K>, values: map<K, V>)

  datatype Op<K, V> = Get(key: K) | Put(key: K, value: V) | Erase(key: K) | Clear

  function Without<K(==)>(s: seq<K>, k: K): seq<K> {
    if s == [] then [] else (if s[0] == k then [] else [s[0]]) + Without(s[1..], k)
  }

  ghost predicate Distinct<K>(s: seq<K>) {
    forall i, j :: 0 <= i < j < |s| ==> s[i] != s[j]
  }

  /** The list and the map hold the same keys, each key once. */
  ghost predicate Valid<K(!new), V>(c: Cache<K, V>) {
    Distinct(c.order) && Elems(c.order) == c.values.Keys
  }

  function Elems<K(==)>(s: seq<K>): set<K> {
    set x | x in s
  }

  function Empty<K, V>(): Cache<K, V> {
    Cache([], map[])
  }

  function GetStep<K(==), V>(c: Cache<K, V>, k: K): Cache<K, V> {
    if k in c.values then c.(order := [k] + Without(c.order, k)) else c
  }

  /** How many entries survive the eviction loop. */
  function Kept(size: nat, capacity: int): nat {
    if size < capacity then size else if capacity >= 1 then capacity - 1 else 0
  }

  /** The eviction loop pops the back of the list while there is no room for one more entry. */
  function Evict<K(==), V>(c: Cache<K, V>, capacity: int): Cache<K, V> {
    var n := Kept(|c.order|, capacity);
    Cache(c.order[..n], c.values - Elems(c.order[n..]))
  }

  function AddFront<K(==), V>(c: Cache<K, V>, k: K, v: V): Cache<K, V> {
    Cache([k] + c.order, c.values[k := v])
  }

  function PutStep<K(==), V>(c: Cache<K, V>, capacity: int, k: K, v: V): Cache<K, V> {
    if k in c.values then
      Cache([k] + Without(c.order, k), c.values[k := v])
    else
      AddFront(Evict(c, capacity), k, v)
  }

  function EraseStep<K(==), V>(c: Cache<K, V>, k: K): Cache<K, V> {
    if k in c.values then Cache(Without(c.order, k), c.values - {k}) else c
  }

  function Step<K(==), V>(c: Cache<K, V>, capacity: int, op: Op<K, V>): Cache<K, V> {
    match op
    case Get(k) => GetStep(c, k)
    case Put(k, v) => PutStep(c, capacity, k, v)
    case Erase(k) => EraseStep(c, k)
    case Clear => Empty()
  }

  /** The cache of the given capacity after the calls `ops`, starting empty. */
  function Run<K(==), V>(capacity: int, ops: seq<Op<K, V>>): Cache<K, V> {
    if ops == [] then Empty() else Step(Run(capacity, ops[..|ops| - 1]), capacity, ops[|ops| - 1])
  }

  // ---------------------------------------------------------------- lists without repetition

  lemma DistinctCons<K>(x: K, s: seq<K>)
    requires Distinct(s) && x !in s
    ensures Distinct([x] + s)
  {
  }

  lemma {:induction false} WithoutProps<K>(s: seq<K>, k: K)
    ensures forall x :: x in Without(s, k) <==> x in s && x != k
    ensures Distinct(s) ==> Distinct(Without(s, k))
    ensures Distinct(s) ==> |Without(s, k)| == |s| - (if k in s then 1 else 0)
    ensures k !in s ==> Without(s, k) == s
  {
    if s != [] {
      WithoutProps(s[1..], k);
      assert s == [s[0]] + s[1..];
      if Distinct(s) && s[0] != k {
        DistinctCons(s[0], Without(s[1..], k));
      }
    }
  }

  lemma {:induction false} WithoutAt<K>(s: seq<K>, i: nat)
    requires i < |s| && Distinct(s)
    ensures Without(s, s[i]) == s[..i] + s[i + 1..]
  {
    if i == 0 {
      WithoutProps(s[1..], s[0]);
    } else {
      WithoutAt(s[1..], i - 1);
      assert s[..i] + s[i + 1..] == [s[0]] + (s[1..][..i - 1] + s[1..][i..]);
    }
  }

  // ---------------------------------------------------------------- what every run keeps

  lemma EvictKeepsValid<K(!new), V>(c: Cache<K, V>, capacity: int)
    requires Valid(c)
    ensures Valid(Evict(c, capacity))
  {
    var n := Kept(|c.order|, capacity);
    forall x ensures x in c.order[..n] <==> x in Evict(c, capacity).values {
      assert c.order == c.order[..n] + c.order[n..];
      assert !(x in c.order[n..] && x in c.order[..n]);
    }
  }

  lemma AddFrontKeepsValid<K(!new), V>(c: Cache<K, V>, k: K, v: V)
    requires Valid(c) && k !in c.values
    ensures Valid(AddFront(c, k, v))
  {
    DistinctCons(k, c.order);
  }

  lemma StepKeepsValid<K(!new), V>(c: Cache<K, V>, capacity: int, op: Op<K, V>)
    requires Valid(c)
    ensures Valid(Step(c, capacity, op))
    ensures |c.order| <= (if capacity >= 1 then capacity else 1) ==>
              |Step(c, capacity, op).order| <= (if capacity >= 1 then capacity else 1)
  {
    if !op.Clear? {
      var k := op.key;
      WithoutProps(c.order, k);
      DistinctCons(k, Without(c.order, k));
      if op.Put? && k !in c.values {
        EvictKeepsValid(c, capacity);
        AddFrontKeepsValid(Evict(c, capacity), k, op.value);
      }
    }
  }

  lemma {:induction false} RunKeepsValid<K(!new), V>(capacity: int, ops: seq<Op<K, V>>)
    ensures Valid(Run(capacity, ops))
    ensures |Run(capacity, ops).order| <= (if capacity >= 1 then capacity else 1)
  {
    if ops != [] {
      RunKeepsValid(capacity, ops[..|ops| - 1]);
      StepKeepsValid(Run(capacity, ops[..|ops| - 1]), capacity, ops[|ops| - 1]);
    }
  }

  /** A put leaves the cache within its capacity exactly when the capacity is at least one. */
  lemma WithinCapacityIff<K(!new), V>(capacity: int, ops: seq<Op<K, V>>, k: K, v: V)
    ensures |Run(capacity, ops + [Put(k, v)]).order| <= capacity <==> capacity >= 1
  {
    var ops' := ops + [Put(k, v)];
    RunKeepsValid(capacity, ops');
    assert ops'[..|ops'| - 1] == ops;
  }

  // ---------------------------------------------------------------- what a hit returns

  /** The value that the history gives `k`, with no bound on the number of entries. */
  function LatestPut<K(==), V>(ops: seq<Op<K, V>>, k: K): Option<V> {
    if ops == [] then None
    else
      match ops[|ops| - 1]
      case Put(x, v) => if x == k then Some(v) else LatestPut(ops[..|ops| - 1], k)
      case Erase(x) => if x == k then None else LatestPut(ops[..|ops| - 1], k)
      case Clear => None
      case Get(_) => LatestPut(ops[..|ops| - 1], k)
  }

  lemma {:induction false} HitReturnsLatestPut<K(!new), V>(capacity: int, ops: seq<Op<K, V>>, k: K)
    requires k in Run(capacity, ops).values
    ensures LatestPut(ops, k) == Some(Run(capacity, ops).values[k])
  {
    if ops != [] {
      var ops0, op := ops[..|ops| - 1], ops[|ops| - 1];
      if k in Run(capacity, ops0).values {
        HitReturnsLatestPut(capacity, ops0, k);
      }
    }
  }

  /** A cache that no run can fill holds exactly the keys that the history gives a value. */
  lemma {:induction false} LargeCacheHoldsAll<K(!new), V>(capacity: int, ops: seq<Op<K, V>>, k: K)
    requires capacity > |ops|
    ensures k in Run(capacity, ops).values <==> LatestPut(ops, k).Some?
    ensures |Run(capacity, ops).order| <= |ops|
  {
    if ops != [] {
      var ops0, op := ops[..|ops| - 1], ops[|ops| - 1];
      LargeCacheHoldsAll(capacity, ops0, k);
      RunKeepsValid(capacity, ops0);
      var c := Run(capacity, ops0);
      if !op.Clear? {
        WithoutProps(c.order, op.key);
        assert c.order[|c.order|..] == [];
        assert c.values - Elems([]) == c.values;
      }
    }
  }

  // ---------------------------------------------------------------- what is evicted

  /** The position of the last get or put of `k`, or -1. */
  function LastUse<K(==), V>(ops: seq<Op<K, V>>, k: K): int {
    if ops == [] then -1
    else if (ops[|ops| - 1].Get? || ops[|ops| - 1].Put?) && ops[|ops| - 1].key == k then |ops| - 1
    else LastUse(ops[..|ops| - 1], k)
  }

  lemma {:induction false} LastUseBound<K, V>(ops: seq<Op<K, V>>, k: K)
    ensures -1 <= LastUse(ops, k) < |ops|
  {
    if ops != [] {
      LastUseBound(ops[..|ops| - 1], k);
    }
  }

  ghost predicate ByLastUse<K, V>(order: seq<K>, ops: seq<Op<K, V>>) {
    forall i, j :: 0 <= i < j < |order| ==> LastUse(ops, order[i]) > LastUse(ops, order[j])
  }

  /** A step that touches no key of `order` but possibly the one it puts first keeps the list sorted. */
  lemma SortedAfterUse<K, V>(order: seq<K>, ops: seq<Op<K, V>>, op: Op<K, V>, order': seq<K>)
    requires ByLastUse(order, ops)
    requires op.Get? || op.Put? ==> op.key !in order
    requires order' == order || ((op.Get? || op.Put?) && order' == [op.key] + order)
    ensures ByLastUse(order', ops + [op])
  {
    var ops' := ops + [op];
    assert ops'[..|ops'| - 1] == ops;
    forall i, j | 0 <= i < j < |order'| ensures LastUse(ops', order'[i]) > LastUse(ops', order'[j]) {
      LastUseBound(ops, order'[j]);
      assert order' != order ==> order'[j] == order[j - 1] && (i > 0 ==> order'[i] == order[i - 1]);
    }
  }

  lemma {:induction false} WithoutKeepsSorted<K, V>(order: seq<K>, k: K, ops: seq<Op<K, V>>)
    requires Distinct(order) && ByLastUse(order, ops)
    ensures ByLastUse(Without(order, k), ops)
  {
    WithoutProps(order, k);
    if k in order {
      var i :| 0 <= i < |order| && order[i] == k;
      WithoutAt(order, i);
    }
  }

  lemma StepKeepsSorted<K(!new), V>(c: Cache<K, V>, capacity: int, ops: seq<Op<K, V>>, op: Op<K, V>)
    requires Valid(c) && ByLastUse(c.order, ops)
    ensures ByLastUse(Step(c, capacity, op).order, ops + [op])
  {
    var order' := Step(c, capacity, op).order;
    if !op.Clear? {
      var k := op.key;
      if op.Put? && k !in c.values {
        SortedAfterUse(c.order[..Kept(|c.order|, capacity)], ops, op, order');
      } else {
        WithoutProps(c.order, k);
        WithoutKeepsSorted(c.order, k, ops);
        SortedAfterUse(Without(c.order, k), ops, op, order');
      }
    }
  }

  /** The recency list is the cached keys sorted by last use, so the eviction loop, which pops the back,
      removes the key whose last use is oldest. */
  lemma {:induction false} OrderedByLastUse<K(!new), V>(capacity: int, ops: seq<Op<K, V>>)
    ensures ByLastUse(Run(capacity, ops).order, ops)
  {
    if ops != [] {
      var ops0, op := ops[..|ops| - 1], ops[|ops| - 1];
      OrderedByLastUse(capacity, ops0);
      RunKeepsValid(capacity, ops0);
      assert ops == ops0 + [op];
      StepKeepsSorted(Run(capacity, ops0), capacity, ops0, op);
    }
  }

  /** A key that a put pushes out was used longer ago than every key that stays. */
  lemma EvictedIsOldest<K(!new), V>(capacity: int, ops: seq<Op<K, V>>, k: K, v: V, gone: K, kept: K)
    requires var c, c' := Run(capacity, ops), Run(capacity, ops + [Put(k, v)]);
             gone in c.values && gone !in c'.values && kept in c.values && kept in c'.values
    ensures LastUse(ops, gone) < LastUse(ops, kept)
  {
    var c := Run(capacity, ops);
    var ops' := ops + [Put(k, v)];
    assert ops'[..|ops'| - 1] == ops;
    OrderedByLastUse(capacity, ops);
    RunKeepsValid(capacity, ops);
    assert k !in c.values;
    var n := Kept(|c.order|, capacity);
    var i :| 0 <= i < |c.order| && c.order[i] == gone;
    var j :| 0 <= j < |c.order| && c.order[j] == kept;
    assert i >= n;
  }

  // ---------------------------------------------------------------- what stays

  /** What one put leaves, on every cache: the key first with its value, and behind it the others in their order, all of
      them if there is room. */
  lemma PutGives<K(!new), V>(c: Cache<K, V>, capacity: int, k: K, v: V)
    requires Valid(c)
    ensures var c' := PutStep(c, capacity, k, v);
            && c'.order != [] && c'.order[0] == k && k in c'.values && c'.values[k] == v
            && (k in c.values ==> c'.order == [k] + Without(c.order, k) && c'.values.Keys == c.values.Keys)
            && (k !in c.values && |c.order| < capacity ==> c'.order == [k] + c.order)
            && (k !in c.values && 1 <= capacity <= |c.order| ==> c'.order == [k] + c.order[..capacity - 1])
            && (k !in c.values && capacity < 1 ==> c'.order == [k])
            && (forall x :: x in c'.values && x != k ==> x in c.values && c'.values[x] == c.values[x])
  {
  }

  /** Over every run: a put into a cache with room drops nothing. */
  lemma NothingDroppedWithRoom<K(!new), V>(capacity: int, ops: seq<Op<K, V>>, k: K, v: V, x: K)
    requires |Run(capacity, ops).order| < capacity && x in Run(capacity, ops).values && x != k
    ensures var c' := Run(capacity, ops + [Put(k, v)]);
            x in c'.values && c'.values[x] == Run(capacity, ops).values[x]
  {
    var c := Run(capacity, ops);
    RunKeepsValid(capacity, ops);
    RunKeepsValid(capacity, ops + [Put(k, v)]);
    assert (ops + [Put(k, v)])[..|ops|] == ops;
    PutGives(c, capacity, k, v);
    WithoutProps(c.order, k);
    assert x in c.order;
    assert x in PutStep(c, capacity, k, v).order;
  }

  /** Over every run: a put of a new key leaves one entry more, up to the capacity. */
  lemma SizeAfterPut<K(!new), V>(capacity: int, ops: seq<Op<K, V>>, k: K, v: V)
    requires capacity >= 1
    ensures var c, c' := Run(capacity, ops), Run(capacity, ops + [Put(k, v)]);
            && |c'.order| == (if k in c.values || |c.order| == capacity then |c.order| else |c.order| + 1)
            && c'.order[0] == k && k in c'.values && c'.values[k] == v
  {
    var c := Run(capacity, ops);
    RunKeepsValid(capacity, ops);
    assert (ops + [Put(k, v)])[..|ops|] == ops;
    PutGives(c, capacity, k, v);
    WithoutProps(c.order, k);
  }

  function Front<K>(s: seq<K>, n: nat): seq<K> {
    if |s| <= n then s else s[..n]
  }

  function Touch<K(==)>(s: seq<K>, k: K): seq<K> {
    [k] + Without(s, k)
  }

  /** All keys that were ever put, the most recently used first, with nothing evicted; a get of a key that is not among
      the first `capacity` is no use of it. */
  function Recent<K(==), V>(capacity: nat, ops: seq<Op<K, V>>): seq<K> {
    if ops == [] then []
    else
      var s := Recent(capacity, ops[..|ops| - 1]);
      match ops[|ops| - 1]
      case Put(k, _) => Touch(s, k)
      case Get(k) => if k in Front(s, capacity) then Touch(s, k) else s
      case Erase(_) => s
      case Clear => s
  }

  predicate OnlyUses<K, V>(ops: seq<Op<K, V>>) {
    forall i :: 0 <= i < |ops| ==> ops[i].Get? || ops[i].Put?
  }

  lemma {:induction false} RecentDistinct<K(!new), V>(capacity: nat, ops: seq<Op<K, V>>)
    ensures Distinct(Recent(capacity, ops))
  {
    if ops != [] {
      var s := Recent(capacity, ops[..|ops| - 1]);
      RecentDistinct(capacity, ops[..|ops| - 1]);
      if !ops[|ops| - 1].Clear? {
        WithoutProps(s, ops[|ops| - 1].key);
        DistinctCons(ops[|ops| - 1].key, Without(s, ops[|ops| - 1].key));
      }
    }
  }

  lemma FrontTouched<K>(s: seq<K>, n: nat, i: nat)
    requires Distinct(s) && i < |s| && i < n
    ensures Front(Touch(s, s[i]), n) == Touch(Front(s, n), s[i])
  {
    WithoutAt(s, i);
    WithoutAt(Front(s, n), i);
  }

  lemma FrontPushed<K>(s: seq<K>, n: nat, k: K)
    requires Distinct(s) && n >= 1 && k !in Front(s, n)
    ensures Front(Touch(s, k), n) == [k] + (if |Front(s, n)| < n then Front(s, n) else Front(s, n)[..n - 1])
  {
    if k in s {
      var i :| 0 <= i < |s| && s[i] == k;
      assert i >= n;
      WithoutAt(s, i);
    } else {
      WithoutProps(s, k);
    }
  }

  lemma FrontPut<K(!new), V>(c: Cache<K, V>, s: seq<K>, capacity: nat, k: K, v: V)
    requires Valid(c) && Distinct(s) && capacity >= 1 && c.order == Front(s, capacity)
    ensures PutStep(c, capacity, k, v).order == Front(Touch(s, k), capacity)
  {
    PutGives(c, capacity, k, v);
    assert k in c.values <==> k in c.order;
    if k in c.order {
      var i :| 0 <= i < |c.order| && c.order[i] == k;
      FrontTouched(s, capacity, i);
    } else {
      FrontPushed(s, capacity, k);
    }
  }

  lemma FrontGet<K(!new), V>(c: Cache<K, V>, s: seq<K>, capacity: nat, k: K)
    requires Valid(c) && Distinct(s) && c.order == Front(s, capacity)
    ensures GetStep(c, k).order == if k in Front(s, capacity) then Front(Touch(s, k), capacity) else c.order
  {
    assert k in c.values <==> k in c.order;
    if k in c.order {
      var i :| 0 <= i < |c.order| && c.order[i] == k;
      FrontTouched(s, capacity, i);
    }
  }

  /** The closed form: without erases and clears the cache holds exactly the `capacity` most recently used keys, in
      that order. */
  lemma {:induction false} HoldsMostRecent<K(!new), V>(capacity: nat, ops: seq<Op<K, V>>)
    requires capacity >= 1 && OnlyUses(ops)
    ensures Run(capacity, ops).order == Front(Recent(capacity, ops), capacity)
  {
    if ops != [] {
      var ops0, op := ops[..|ops| - 1], ops[|ops| - 1];
      HoldsMostRecent(capacity, ops0);
      RunKeepsValid(capacity, ops0);
      RecentDistinct(capacity, ops0);
      match op
      case Get(k) =>
        FrontGet(Run(capacity, ops0), Recent(capacity, ops0), capacity, k);
      case Put(k, v) =>
        FrontPut(Run(capacity, ops0), Recent(capacity, ops0), capacity, k, v);
    }
  }

  /** An erased key is gone, and the others stay as they are. */
  lemma EraseGives<K(!new), V>(c: Cache<K, V>, k: K)
    requires Valid(c)
    ensures var c' := EraseStep(c, k);
            && k !in c'.values && c'.order == Without(c.order, k)
            && (forall x :: x in c'.values <==> x in c.values && x != k)
            && (forall x :: x in c'.values ==> c'.values[x] == c.values[x])
  {
    WithoutProps(c.order, k);
  }

  /** A hit moves its key to the front; a get changes nothing else. */
  lemma GetGives<K(!new), V>(c: Cache<K, V>, k: K)
    requires Valid(c)
    ensures var c' := GetStep(c, k);
            c'.values == c.values && c'.order == if k in c.values then [k] + Without(c.order, k) else c.order
  {
  }

  // ---------------------------------------------------------------- two capacities, one run

  function Filter<K(==)>(s: seq<K>, keep: set<K>): seq<K> {
    if s == [] then [] else (if s[0] in keep then [s[0]] else []) + Filter(s[1..], keep)
  }

  lemma {:induction false} FilterAppend<K>(s: seq<K>, x: K, keep: set<K>)
    ensures Filter(s + [x], keep) == Filter(s, keep) + (if x in keep then [x] else [])
  {
    if s != [] {
      FilterAppend(s[1..], x, keep);
      assert (s + [x])[1..] == s[1..] + [x];
    }
  }

  lemma WithoutCons<K>(a: K, s: seq<K>, x: K)
    ensures Without([a] + s, x) == (if a == x then [] else [a]) + Without(s, x)
  {
    assert ([a] + s)[1..] == s;
  }

  lemma {:induction false} FilterWithout<K>(s: seq<K>, x: K, keep: set<K>)
    ensures Filter(Without(s, x), keep) == Without(Filter(s, keep), x)
    ensures Filter(s, keep - {x}) == Without(Filter(s, keep), x)
  {
    if s != [] {
      FilterWithout(s[1..], x, keep);
      var f := Filter(s[1..], keep);
      WithoutCons(s[0], f, x);
      assert Filter(s, keep) == if s[0] in keep then [s[0]] + f else f;
      if s[0] == x {
        assert Without(s, x) == Without(s[1..], x);
      } else {
        assert Without(s, x)[1..] == Without(s[1..], x);
      }
    }
  }

  lemma {:induction false} FilterExtra<K>(s: seq<K>, x: K, keep: set<K>)
    requires x !in s
    ensures Filter(s, keep + {x}) == Filter(s, keep)
  {
    if s != [] {
      FilterExtra(s[1..], x, keep);
    }
  }

  lemma {:induction false} FilterMembers<K>(s: seq<K>, keep: set<K>)
    ensures forall x :: x in Filter(s, keep) <==> x in s && x in keep
    ensures Distinct(s) ==> Distinct(Filter(s, keep))
    ensures |Filter(s, keep)| <= |s|
  {
    if s != [] {
      FilterMembers(s[1..], keep);
    }
  }

  lemma FilterErased<K>(s: seq<K>, x: K, keep: set<K>)
    ensures Filter(Without(s, x), keep - {x}) == Without(Filter(s, keep), x)
    ensures Filter(Without(s, x), keep) == Without(Filter(s, keep), x)
  {
    FilterWithout(s, x, keep);
    FilterWithout(Without(s, x), x, keep);
    WithoutProps(Filter(s, keep), x);
    WithoutProps(Without(Filter(s, keep), x), x);
  }

  /** The small cache's recency list is the large one's with some keys left out, with the same values. */
  ghost predicate Related<K(!new), V>(small: Cache<K, V>, large: Cache<K, V>) {
    && Valid(small) && Valid(large)
    && small.order == Filter(large.order, small.values.Keys)
    && SameValues(small.values, large.values)
  }

  ghost predicate SameValues<K, V>(m: map<K, V>, m': map<K, V>) {
    m.Keys <= m'.Keys && forall x :: x in m ==> m[x] == m'[x]
  }

  lemma SameValuesUpdated<K, V>(m: map<K, V>, m': map<K, V>, x: K, v: V)
    requires SameValues(m, m')
    ensures SameValues(m[x := v], m'[x := v]) && m[x := v].Keys == m.Keys + {x}
  {
  }

  lemma SameValuesRemoved<K, V>(m: map<K, V>, m': map<K, V>, x: K)
    requires SameValues(m, m')
    ensures SameValues(m - {x}, m') && SameValues(m - {x}, m' - {x}) && (m - {x}).Keys == m.Keys - {x}
    ensures x !in m ==> SameValues(m, m' - {x})
  {
  }

  /** What the same calls keep between two caches: besides, the small one has no more free space. */
  ghost predicate Included<K(!new), V>(small: Cache<K, V>, large: Cache<K, V>, k: int, l: int) {
    && Related(small, large)
    && |small.order| <= k && |large.order| <= l
    && k - |small.order| <= l - |large.order|
  }

  lemma FilterTouched<K>(s: seq<K>, x: K, keep: set<K>)
    ensures Filter([x] + Without(s, x), keep) ==
              if x in keep then [x] + Without(Filter(s, keep), x) else Filter(s, keep)
  {
    FilterErased(s, x, keep);
    FilterMembers(s, keep);
    WithoutProps(Filter(s, keep), x);
    assert ([x] + Without(s, x))[1..] == Without(s, x);
  }

  lemma SizeAfterGet<K(!new), V>(c: Cache<K, V>, x: K)
    requires Valid(c)
    ensures |GetStep(c, x).order| == |c.order|
  {
    WithoutProps(c.order, x);
  }

  lemma GetKeepsIncluded<K(!new), V>(small: Cache<K, V>, large: Cache<K, V>, k: int, l: int, x: K)
    requires Included(small, large, k, l)
    ensures Included(GetStep(small, x), GetStep(large, x), k, l)
  {
    if x in large.values {
      StepKeepsValid(small, k, Get(x));
      StepKeepsValid(large, l, Get(x));
      FilterTouched(large.order, x, small.values.Keys);
      SizeAfterGet(small, x);
      SizeAfterGet(large, x);
    }
  }

  lemma EraseKeepsIncluded<K(!new), V>(small: Cache<K, V>, large: Cache<K, V>, k: int, l: int, x: K)
    requires Included(small, large, k, l)
    ensures Included(EraseStep(small, x), EraseStep(large, x), k, l)
  {
    var small', large' := EraseStep(small, x), EraseStep(large, x);
    StepKeepsValid(small, k, Erase(x));
    StepKeepsValid(large, l, Erase(x));
    if x in large.values {
      FilterErased(large.order, x, small.values.Keys);
      WithoutProps(small.order, x);
      assert small'.order == Without(small.order, x);
      SameValuesRemoved(small.values, large.values, x);
      assert |large'.order| == |large.order| - 1 by {
        WithoutProps(large.order, x);
      }
    }
  }

  lemma EvictOne<K(!new), V>(c: Cache<K, V>, capacity: int)
    requires Valid(c) && |c.order| == capacity >= 1
    ensures var y := c.order[capacity - 1];
            Evict(c, capacity).order == Without(c.order, y) && Evict(c, capacity).values == c.values - {y}
  {
    var y := c.order[capacity - 1];
    WithoutAt(c.order, capacity - 1);
    assert c.order[capacity - 1..] == [y];
    assert Elems([y]) == {y};
  }

  lemma EvictSmall<K(!new), V>(small: Cache<K, V>, large: Cache<K, V>, k: int)
    requires Related(small, large) && |small.order| <= k && k >= 1
    ensures Related(Evict(small, k), large)
  {
    EvictKeepsValid(small, k);
    if |small.order| == k {
      var y := small.order[k - 1];
      EvictOne(small, k);
      FilterWithout(large.order, y, small.values.Keys);
      SameValuesRemoved(small.values, large.values, y);
    } else {
      assert Evict(small, k) == small;
    }
  }

  /** The large cache evicts a key that the small cache does not hold. */
  lemma EvictLarge<K(!new), V>(small: Cache<K, V>, large: Cache<K, V>, l: int)
    requires Related(small, large) && |large.order| == l >= 1 && large.order[l - 1] !in small.values
    ensures Related(small, Evict(large, l))
  {
    var y := large.order[l - 1];
    EvictKeepsValid(large, l);
    EvictOne(large, l);
    FilterWithout(large.order, y, small.values.Keys);
    WithoutProps(small.order, y);
    SameValuesRemoved(small.values, large.values, y);
  }

  lemma {:induction false} FilterLast<K>(s: seq<K>, keep: set<K>)
    requires s != [] && s[|s| - 1] in keep
    ensures Filter(s, keep) != [] && Filter(s, keep)[|Filter(s, keep)| - 1] == s[|s| - 1]
  {
    FilterAppend(s[..|s| - 1], s[|s| - 1], keep);
    assert s == s[..|s| - 1] + [s[|s| - 1]];
  }

  lemma EvictBoth<K(!new), V>(small: Cache<K, V>, large: Cache<K, V>, k: int, l: int)
    requires Included(small, large, k, l) && 1 <= k
    ensures Related(Evict(small, k), Evict(large, l))
  {
    EvictSmall(small, large, k);
    if |large.order| == l {
      var y := large.order[l - 1];
      EvictOne(small, k);
      if y in small.values {
        FilterLast(large.order, small.values.Keys);
      }
      EvictLarge(Evict(small, k), large, l);
    } else {
      assert Evict(large, l) == large;
    }
  }

  lemma FilterAddedFront<K>(s: seq<K>, x: K, keep: set<K>)
    requires x !in s
    ensures Filter([x] + s, keep + {x}) == [x] + Filter(s, keep)
  {
    FilterExtra(s, x, keep);
    assert ([x] + s)[1..] == s;
  }

  lemma AddFrontBoth<K(!new), V>(small: Cache<K, V>, large: Cache<K, V>, x: K, v: V)
    requires Related(small, large) && x !in large.values
    ensures Related(AddFront(small, x, v), AddFront(large, x, v))
  {
    AddFrontKeepsValid(small, x, v);
    AddFrontKeepsValid(large, x, v);
    FilterAddedFront(large.order, x, small.values.Keys);
    SameValuesUpdated(small.values, large.values, x, v);
  }

  lemma FilterMovedFront<K>(s: seq<K>, x: K, keep: set<K>)
    requires x !in keep
    ensures Filter([x] + Without(s, x), keep + {x}) == [x] + Filter(s, keep)
  {
    FilterErased(s, x, keep);
    FilterMembers(s, keep);
    WithoutProps(Filter(s, keep), x);
    WithoutProps(s, x);
    FilterExtra(Without(s, x), x, keep);
    assert ([x] + Without(s, x))[1..] == Without(s, x);
  }

  lemma AddFrontSmall<K(!new), V>(small: Cache<K, V>, large: Cache<K, V>, x: K, v: V)
    requires Related(small, large) && x !in small.values && x in large.values
    ensures Related(AddFront(small, x, v), Cache([x] + Without(large.order, x), large.values[x := v]))
  {
    AddFrontKeepsValid(small, x, v);
    StepKeepsValid(large, 0, Put(x, v));
    FilterMovedFront(large.order, x, small.values.Keys);
    SameValuesUpdated(small.values, large.values, x, v);
  }

  lemma PutInBoth<K(!new), V>(small: Cache<K, V>, large: Cache<K, V>, k: int, l: int, x: K, v: V)
    requires Included(small, large, k, l) && x in small.values
    ensures Included(PutStep(small, k, x, v), PutStep(large, l, x, v), k, l)
  {
    GetKeepsIncluded(small, large, k, l, x);
    StepKeepsValid(small, k, Put(x, v));
    StepKeepsValid(large, l, Put(x, v));
    SameValuesUpdated(small.values, large.values, x, v);
    assert small.values.Keys + {x} == small.values.Keys;
  }

  lemma PutInLargeOnly<K(!new), V>(small: Cache<K, V>, large: Cache<K, V>, k: int, l: int, x: K, v: V)
    requires Included(small, large, k, l) && 1 <= k && x !in small.values && x in large.values
    ensures Included(PutStep(small, k, x, v), PutStep(large, l, x, v), k, l)
  {
    EvictSmall(small, large, k);
    AddFrontSmall(Evict(small, k), large, x, v);
    WithoutProps(large.order, x);
  }

  lemma PutInNeither<K(!new), V>(small: Cache<K, V>, large: Cache<K, V>, k: int, l: int, x: K, v: V)
    requires Included(small, large, k, l) && 1 <= k && x !in large.values
    ensures Included(PutStep(small, k, x, v), PutStep(large, l, x, v), k, l)
  {
    EvictBoth(small, large, k, l);
    AddFrontBoth(Evict(small, k), Evict(large, l), x, v);
  }

  lemma PutKeepsIncluded<K(!new), V>(small: Cache<K, V>, large: Cache<K, V>, k: int, l: int, x: K, v: V)
    requires Included(small, large, k, l) && 1 <= k
    ensures Included(PutStep(small, k, x, v), PutStep(large, l, x, v), k, l)
  {
    if x in small.values {
      PutInBoth(small, large, k, l, x, v);
    } else if x in large.values {
      PutInLargeOnly(small, large, k, l, x, v);
    } else {
      PutInNeither(small, large, k, l, x, v);
    }
  }

  /** Inclusion: on the same calls, the smaller cache always holds a subset of the larger one, with the same
      values and in the same relative recency order. */
  lemma {:induction false} RunsIncluded<K(!new), V>(k: int, l: int, ops: seq<Op<K, V>>)
    requires 1 <= k <= l
    ensures Included(Run(k, ops), Run(l, ops), k, l)
  {
    if ops != [] {
      var ops0, op := ops[..|ops| - 1], ops[|ops| - 1];
      RunsIncluded(k, l, ops0);
      var small, large := Run(k, ops0), Run(l, ops0);
      match op
      case Get(x) => GetKeepsIncluded(small, large, k, l, x);
      case Put(x, v) => PutKeepsIncluded(small, large, k, l, x, v);
      case Erase(x) => EraseKeepsIncluded(small, large, k, l, x);
      case Clear =>
    }
  }

  /** Raising the capacity never turns a hit into a miss. */
  lemma HitsGrowWithCapacity<K(!new), V>(k: int, l: int, ops: seq<Op<K, V>>, x: K)
    requires 1 <= k <= l && x in Run(k, ops).values
    ensures x in Run(l, ops).values && Run(l, ops).values[x] == Run(k, ops).values[x]
  {
    RunsIncluded(k, l, ops);
  }
}

/** The cache object. */
module KvCacheObject {
  import opened KvCacheSpec

  class KvCache<K(==, !new), V> {
    var capacity: int
    var size: int
    var entries: map<K, V>
    var lruList: seq<K>

    ghost function View(): Cache<K, V>
      reads this
    {
      Cache(lruList, entries)
    }

    ghost predicate Valid()
      reads this
    {
      KvCacheSpec.Valid(View()) && size == |lruList|
    }

    constructor (capacity: int)
      ensures Valid() && View() == Empty() && this.capacity == capacity
    {
      this.capacity, size := capacity, 0;
      entries, lruList := map[], [];
    }

    method EraseFromList(k: K)
      requires Distinct(lruList) && k in lruList
      modifies this`lruList
      ensures lruList == Without(old(lruList), k)
    {
      var i := 0;
      while lruList[i] != k
        invariant 0 <= i < |lruList|
        invariant k !in lruList[..i]
        decreases |lruList| - i
      {
        i := i + 1;
      }
      WithoutAt(lruList, i);
      lruList := lruList[..i] + lruList[i + 1..];
    }

    method Get(k: K, absent: V) returns (found: bool, value: V)
      requires Valid()
      modifies this`lruList
      ensures Valid() && View() == GetStep(old(View()), k)
      ensures found <==> k in entries
      ensures value == if found then entries[k] else absent
    {
      StepKeepsValid(View(), capacity, Op.Get(k));
      if k !in entries {
        return false, absent;
      }
      WithoutProps(lruList, k);
      EraseFromList(k);
      lruList := [k] + lruList;
      return true, entries[k];
    }

    method EvictWhileFull()
      requires size == |lruList|
      modifies this`lruList, this`entries, this`size
      ensures size == |lruList| && View() == Evict(old(View()), capacity)
    {
      ghost var c := View();
      assert entries == entries - Elems([]);
      while size >= capacity && lruList != []
        invariant size == |lruList| && Kept(|c.order|, capacity) <= size <= |c.order|
        invariant lruList == c.order[..size]
        invariant entries == c.values - Elems(c.order[size..])
        decreases size
      {
        var oldest := lruList[|lruList| - 1];
        assert c.order[size - 1..] == [oldest] + c.order[size..];
        assert Elems(c.order[size - 1..]) == {oldest} + Elems(c.order[size..]);
        lruList := lruList[..|lruList| - 1];
        entries := entries - {oldest};
        size := size - 1;
      }
    }

    method Put(k: K, v: V)
      requires Valid()
      modifies this`lruList, this`entries, this`size
      ensures Valid() && View() == PutStep(old(View()), capacity, k, v)
    {
      StepKeepsValid(View(), capacity, Op.Put(k, v));
      if k in entries {
        entries := entries[k := v];
        WithoutProps(lruList, k);
        EraseFromList(k);
        lruList := [k] + lruList;
        return;
      }
      EvictWhileFull();
      lruList := [k] + lruList;
      entries := entries[k := v];
      size := size + 1;
    }

    method Erase(k: K)
      requires Valid()
      modifies this`lruList, this`entries, this`size
      ensures Valid() && View() == EraseStep(old(View()), k)
    {
      StepKeepsValid(View(), capacity, Op.Erase(k));
      if k in entries {
        WithoutProps(lruList, k);
        EraseFromList(k);
        entries := entries - {k};
        size := size - 1;
      }
    }

    method Clear()
      modifies this`lruList, this`entries, this`size
      ensures Valid() && View() == Empty()
    {
      entries, lruList, size := map[], [], 0;
    }
  }
}
