/** What the hand-linked cache stands for: a sequence of key-value pairs, the most recently used first. */
module LruSpec {
  datatype Entry<K, V> = Entry(key: K, value: V)

  predicate HasKey<K(==), V>(s: seq<Entry<K, V>>, k: K) {
    exists i :: 0 <= i < |s| && s[i].key == k
  }

  /** `s` without its entries for `k`. */
  function Drop<K(==), V>(s: seq<Entry<K, V>>, k: K): seq<Entry<K, V>> {
    if s == [] then [] else (if s[0].key == k then [] else [s[0]]) + Drop(s[1..], k)
  }

  /** The entries from place `i` on that a walk shows to `f`, which ends the walk by answering false. */
  function VisitedFrom<K, V>(s: seq<Entry<K, V>>, i: nat, f: (K, V) -> bool): seq<Entry<K, V>>
    decreases |s| - i
  {
    if i >= |s| then []
    else [s[i]] + if f(s[i].key, s[i].value) then VisitedFrom(s, i + 1, f) else []
  }

  function Visited<K, V>(s: seq<Entry<K, V>>, f: (K, V) -> bool): seq<Entry<K, V>> {
    VisitedFrom(s, 0, f)
  }

  /** `s` without the element at place `i`. */
  function Cut<T>(s: seq<T>, i: nat): (r: seq<T>)
    requires i < |s|
    ensures |r| == |s| - 1
    ensures forall j :: 0 <= j < |r| ==> r[j] == s[if j < i then j else j + 1]
  {
    s[..i] + s[i + 1..]
  }

  function Reversed<T>(s: seq<T>): (r: seq<T>)
    ensures |r| == |s|
    ensures forall i :: 0 <= i < |s| ==> r[i] == s[|s| - 1 - i]
  {
    if s == [] then [] else [s[|s| - 1]] + Reversed(s[..|s| - 1])
  }

  ghost predicate DistinctKeys<K, V>(s: seq<Entry<K, V>>) {
    forall i, j :: 0 <= i < j < |s| ==> s[i].key != s[j].key
  }

  lemma {:induction false} DropAbsent<K, V>(s: seq<Entry<K, V>>, k: K)
    requires !HasKey(s, k)
    ensures Drop(s, k) == s
  {
    if s != [] {
      assert s[0].key != k;
      forall i | 0 <= i < |s[1..]| ensures s[1..][i].key != k {
        assert s[1..][i] == s[i + 1];
      }
      DropAbsent(s[1..], k);
    }
  }

  lemma {:induction false} DropAt<K, V>(s: seq<Entry<K, V>>, i: nat)
    requires i < |s| && DistinctKeys(s)
    ensures Drop(s, s[i].key) == Cut(s, i)
  {
    if i == 0 {
      DropAbsent(s[1..], s[0].key);
    } else {
      DropAt(s[1..], i - 1);
      assert s[..i] + s[i + 1..] == [s[0]] + (s[1..][..i - 1] + s[1..][i..]);
    }
  }

  lemma CutFront<T>(s: seq<T>)
    requires s != []
    ensures [s[0]] + Cut(s, 0) == s
  {
  }

  lemma CutKeepsDistinct<K, V>(s: seq<Entry<K, V>>, i: nat)
    requires i < |s| && DistinctKeys(s)
    ensures DistinctKeys(Cut(s, i)) && DistinctKeys([s[i]] + Cut(s, i))
  {
    var r := Cut(s, i);
    assert forall j :: 0 <= j < |r| ==> r[j] == s[if j < i then j else j + 1];
  }

  /** A walk shows a prefix, and it leaves entries out exactly when `f` refuses the last one shown. */
  lemma {:induction false} VisitedIs<K, V>(s: seq<Entry<K, V>>, i: nat, n: nat, f: (K, V) -> bool)
    requires i <= n <= |s|
    requires forall j :: i <= j < n - 1 ==> f(s[j].key, s[j].value)
    requires n < |s| ==> n > i && !f(s[n - 1].key, s[n - 1].value)
    ensures VisitedFrom(s, i, f) == s[i..n]
    decreases |s| - i
  {
    if i < |s| {
      if i + 1 <= n && f(s[i].key, s[i].value) {
        VisitedIs(s, i + 1, n, f);
      }
    }
  }

  /** The walk starts at the first entry and ends behind the first one that `f` refuses, or at the end. */
  lemma VisitedUpTo<K, V>(s: seq<Entry<K, V>>, n: nat, f: (K, V) -> bool)
    requires n <= |s| && forall j :: 0 <= j < n - 1 ==> f(s[j].key, s[j].value)
    requires n < |s| ==> n > 0 && !f(s[n - 1].key, s[n - 1].value)
    ensures Visited(s, f) == s[..n]
  {
    VisitedIs(s, 0, n, f);
  }
}

/** The cache: nodes linked both ways by hand, and a hash set that finds the node of a key. */
module LruCacheObject {
  import opened LruSpec

  class ListNode<K(==), V> {
    const key: K
    var value: V
    var prev: ListNode?<K, V>
    var next: ListNode?<K, V>

    constructor (key: K, value: V)
      ensures this.key == key && this.value == value && prev == null && next == null
    {
      this.key, this.value, prev, next := key, value, null, null;
    }
  }

  /** The nodes hold the entries, in order. */
  ghost predicate Hold<K, V>(ns: seq<ListNode<K, V>>, es: seq<Entry<K, V>>)
    reads ns
  {
    && |es| == |ns|
    && (forall i :: 0 <= i < |ns| ==> es[i] == Entry(ns[i].key, ns[i].value))
  }

  lemma HoldCut<K, V>(ns: seq<ListNode<K, V>>, es: seq<Entry<K, V>>, i: nat)
    requires Hold(ns, es) && i < |ns|
    ensures Hold(Cut(ns, i), Cut(es, i)) && Hold([ns[i]] + Cut(ns, i), [es[i]] + Cut(es, i))
  {
    var ns', es' := Cut(ns, i), Cut(es, i);
    assert forall j :: 0 <= j < |ns'| ==> es'[j] == Entry(ns'[j].key, ns'[j].value);
  }

  class LruCache<K(==), V> {
    var searcher: set<ListNode<K, V>>
    var lruFront: ListNode?<K, V>
    var lruTail: ListNode?<K, V>

    // The nodes from the front to the tail, and the entries they hold.
    ghost var nodes: seq<ListNode<K, V>>
    ghost var contents: seq<Entry<K, V>>

    ghost predicate NoRepeats()
      reads this
    {
      forall i, j :: 0 <= i < j < |nodes| ==> nodes[i] != nodes[j]
    }

    /** Following `next` from the front gives the nodes in order; following `prev` gives them backwards. */
    ghost predicate Linked()
      reads this, nodes
    {
      && (forall i {:trigger nodes[i].next} :: 0 <= i < |nodes| ==>
            nodes[i].next == if i + 1 < |nodes| then nodes[i + 1] else null)
      && (forall i {:trigger nodes[i].prev} :: 0 <= i < |nodes| ==>
            nodes[i].prev == if i > 0 then nodes[i - 1] else null)
      && lruFront == (if nodes == [] then null else nodes[0])
    }

    ghost predicate TailIsLast()
      reads this
    {
      lruTail == (if nodes == [] then null else nodes[|nodes| - 1])
    }

    ghost predicate Valid()
      reads this, nodes
    {
      && NoRepeats() && Linked() && TailIsLast()
      && searcher == (set n | n in nodes)
      && Hold(nodes, contents) && DistinctKeys(contents)
    }

    constructor ()
      ensures Valid() && contents == []
    {
      searcher, lruFront, lruTail, nodes, contents := {}, null, null, [], [];
    }

    // ---------------------------------------------------------------- the links

    /** The node becomes the new front. */
    method LinkFront(node: ListNode<K, V>)
      requires Linked() && NoRepeats() && node !in nodes
      modifies this`lruFront, this`nodes, node`prev, node`next, nodes`prev
      ensures Linked() && NoRepeats() && nodes == [node] + old(nodes)
    {
      node.prev := null;
      node.next := lruFront;
      if lruFront != null {
        lruFront.prev := node;
      }
      lruFront := node;
      nodes := [node] + nodes;
    }

    /** Takes a node that is not the front off the chain. */
    method Detach(node: ListNode<K, V>, ghost i: nat)
      requires Linked() && NoRepeats() && TailIsLast() && 0 < i < |nodes| && nodes[i] == node
      modifies this`lruTail, this`nodes, nodes`prev, nodes`next
      ensures Linked() && NoRepeats() && TailIsLast() && nodes == Cut(old(nodes), i)
    {
      node.prev.next := node.next;
      if node.next != null {
        node.next.prev := node.prev;
      } else {
        lruTail := node.prev;
      }
      nodes := Cut(nodes, i);
    }

    method LruPush(node: ListNode<K, V>)
      requires Valid() && node !in nodes && !HasKey(contents, node.key)
      modifies this, node`prev, node`next, nodes`prev
      ensures Valid() && nodes == [node] + old(nodes)
      ensures contents == [Entry(node.key, node.value)] + old(contents)
    {
      if lruTail == null {
        lruTail := node;
      }
      LinkFront(node);
      searcher := searcher + {node};
      contents := [Entry(node.key, node.value)] + contents;
    }

    method Relink(node: ListNode<K, V>, ghost i: nat)
      requires Linked() && NoRepeats() && TailIsLast() && 0 < i < |nodes| && nodes[i] == node
      modifies this`lruFront, this`lruTail, this`nodes, nodes`prev, nodes`next
      ensures Linked() && NoRepeats() && TailIsLast() && nodes == [node] + Cut(old(nodes), i)
    {
      Detach(node, i);
      LinkFront(node);
    }

    method MoveUp(node: ListNode<K, V>, ghost i: nat)
      requires Valid() && 0 < i < |nodes| && nodes[i] == node
      modifies this, nodes`prev, nodes`next
      ensures Valid()
      ensures nodes == [node] + Cut(old(nodes), i)
      ensures contents == [old(contents)[i]] + Cut(old(contents), i)
    {
      Relink(node, i);
      HoldCut(old(nodes), contents, i);
      CutKeepsDistinct(contents, i);
      SameNodes(old(nodes), i);
      contents := [contents[i]] + Cut(contents, i);
    }

    method LruTouch(node: ListNode<K, V>, ghost i: nat)
      requires Valid() && i < |nodes| && nodes[i] == node
      modifies this, nodes`prev, nodes`next
      ensures Valid()
      ensures nodes == [node] + Cut(old(nodes), i)
      ensures contents == [old(contents)[i]] + Cut(old(contents), i)
    {
      if node.prev == null {
        assert i == 0;
        CutFront(nodes);
        CutFront(contents);
        return;
      }
      MoveUp(node, i);
    }

    /** Takes a node off the chain, wherever it is. */
    method Unlink(node: ListNode<K, V>, ghost i: nat)
      requires Linked() && NoRepeats() && TailIsLast() && i < |nodes| && nodes[i] == node
      modifies this`lruFront, this`lruTail, this`nodes, nodes`prev, nodes`next
      ensures Linked() && NoRepeats() && TailIsLast() && nodes == Cut(old(nodes), i)
    {
      if node.prev != null {
        node.prev.next := node.next;
      }
      if node.next != null {
        node.next.prev := node.prev;
      }
      if lruFront == node {
        lruFront := node.next;
      }
      if lruTail == node {
        lruTail := node.prev;
      }
      nodes := Cut(nodes, i);
    }

    method LruRemove(node: ListNode<K, V>, ghost i: nat)
      requires Valid() && i < |nodes| && nodes[i] == node
      modifies this, nodes`prev, nodes`next
      ensures Valid() && nodes == Cut(old(nodes), i)
      ensures contents == Cut(old(contents), i)
    {
      Unlink(node, i);
      SameNodes(old(nodes), i);
      CutKeepsDistinct(contents, i);
      HoldCut(old(nodes), contents, i);
      searcher := searcher - {node};
      contents := Cut(contents, i);
    }

    static lemma SameNodes(ns: seq<ListNode<K, V>>, i: nat)
      requires i < |ns| && forall i, j :: 0 <= i < j < |ns| ==> ns[i] != ns[j]
      ensures (set n | n in [ns[i]] + Cut(ns, i)) == (set n | n in ns)
      ensures (set n | n in Cut(ns, i)) == (set n | n in ns) - {ns[i]}
    {
      assert ns == ns[..i] + [ns[i]] + ns[i + 1..];
    }

    // ---------------------------------------------------------------- the calls

    /** `searcher_.find`: the node of the key, and its place in the chain for the proof. */
    method Find(key: K) returns (node: ListNode?<K, V>, ghost i: nat)
      requires Valid()
      ensures node == null <==> !HasKey(contents, key)
      ensures node != null ==> i < |nodes| && nodes[i] == node && node.key == key
    {
      if n :| n in searcher && n.key == key {
        node := n;
        i :| 0 <= i < |nodes| && nodes[i] == n;
        assert contents[i].key == key;
      } else {
        node, i := null, 0;
        forall j | 0 <= j < |nodes| ensures contents[j].key != key {
          assert nodes[j] in searcher;
        }
      }
    }

    method Get(key: K, absent: V) returns (found: bool, value: V)
      requires Valid()
      modifies this, nodes`prev, nodes`next
      ensures Valid()
      ensures found <==> HasKey(old(contents), key)
      ensures !found ==> value == absent && contents == old(contents)
      ensures found ==> Entry(key, value) in old(contents)
                        && contents == [Entry(key, value)] + Drop(old(contents), key)
    {
      var node, i := Find(key);
      if node == null {
        return false, absent;
      }
      DropAt(contents, i);
      found, value := true, node.value;
      LruTouch(node, i);
    }

    method Overwrite(node: ListNode<K, V>, ghost i: nat, value: V)
      requires Valid() && i < |nodes| && nodes[i] == node
      modifies this`contents, node`value
      ensures Valid() && contents == old(contents)[i := Entry(node.key, value)]
    {
      node.value := value;
      contents := contents[i := Entry(node.key, value)];
    }

    method Put(key: K, value: V)
      requires Valid()
      modifies this, nodes
      ensures Valid() && contents == [Entry(key, value)] + Drop(old(contents), key)
    {
      var node, i := Find(key);
      if node != null {
        DropAt(contents, i);
        Overwrite(node, i, value);
        LruTouch(node, i);
        return;
      }
      DropAbsent(contents, key);
      var ln := new ListNode(key, value);
      LruPush(ln);
    }

    method Remove(key: K)
      requires Valid()
      modifies this, nodes`prev, nodes`next
      ensures Valid() && contents == Drop(old(contents), key)
    {
      var node, i := Find(key);
      if node != null {
        DropAt(contents, i);
        LruRemove(node, i);
      } else {
        DropAbsent(contents, key);
      }
    }

    method Count() returns (n: nat)
      requires Valid()
      ensures n == |contents|
    {
      n := |searcher|;
      NodeCount(nodes);
    }

    static lemma {:induction false} NodeCount(ns: seq<ListNode<K, V>>)
      requires forall i, j :: 0 <= i < j < |ns| ==> ns[i] != ns[j]
      ensures |set n | n in ns| == |ns|
    {
      if ns != [] {
        NodeCount(ns[1..]);
        assert (set n | n in ns) == {ns[0]} + (set n | n in ns[1..]);
      }
    }

    /** Walks the forward links; the entries shown to `f` are those of the sequence, front first. */
    method ForEach(f: (K, V) -> bool) returns (shown: seq<Entry<K, V>>)
      requires Valid()
      ensures shown == Visited(contents, f)
    {
      shown := [];
      var node := lruFront;
      while node != null
        invariant |shown| <= |nodes| && shown == contents[..|shown|]
        invariant node == if |shown| < |nodes| then nodes[|shown|] else null
        invariant forall j :: 0 <= j < |shown| ==> f(contents[j].key, contents[j].value)
        decreases |nodes| - |shown|
      {
        shown := shown + [Entry(node.key, node.value)];
        if !f(node.key, node.value) {
          break;
        }
        node := node.next;
      }
      VisitedIs(contents, 0, |shown|, f);
    }

    /** Walks the backward links; the entries shown to `f` are those of the reversed sequence. */
    method ForEachReverse(f: (K, V) -> bool) returns (shown: seq<Entry<K, V>>)
      requires Valid()
      ensures shown == Visited(Reversed(contents), f)
    {
      shown := [];
      var node := lruTail;
      ghost var s := Reversed(contents);
      while node != null
        invariant |shown| <= |nodes| && shown == s[..|shown|]
        invariant node == if |shown| < |nodes| then nodes[|nodes| - 1 - |shown|] else null
        invariant forall j :: 0 <= j < |shown| ==> f(s[j].key, s[j].value)
        decreases |nodes| - |shown|
      {
        shown := shown + [Entry(node.key, node.value)];
        if !f(node.key, node.value) {
          break;
        }
        node := node.prev;
      }
      VisitedIs(s, 0, |shown|, f);
    }
  }
}
