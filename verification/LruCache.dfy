/** The least-recently-used cache: its list of entries, most recently used first, and what a history of calls makes of it. */
module LruHistory {
  import opened Common

  datatype Entry<Key, Value> = Entry(key: Key, value: Value)

  datatype Call<Key, Value> = Put(key: Key, value: Value) | Get(key: Key) | Remove(key: Key)

  predicate HasDistinctKeys<Key(==), Value>(es: seq<Entry<Key, Value>>) {
    forall i, j :: 0 <= i < j < |es| ==> es[i].key != es[j].key
  }

  function Lookup<Key(==), Value>(es: seq<Entry<Key, Value>>, key: Key): Option<Value> {
    if es == [] then None
    else if es[0].key == key then Some(es[0].value)
    else Lookup(es[1..], key)
  }

  function Without<Key(==), Value>(es: seq<Entry<Key, Value>>, key: Key): seq<Entry<Key, Value>> {
    if es == [] then []
    else if es[0].key == key then Without(es[1..], key)
    else [es[0]] + Without(es[1..], key)
  }

  /** The list after one call. */
  function After<Key(==), Value>(es: seq<Entry<Key, Value>>, call: Call<Key, Value>): seq<Entry<Key, Value>> {
    match call
    case Put(k, v) => [Entry(k, v)] + Without(es, k)
    case Get(k) => (match Lookup(es, k) case None => es case Some(v) => [Entry(k, v)] + Without(es, k))
    case Remove(k) => Without(es, k)
  }

  function AfterAll<Key(==), Value>(calls: seq<Call<Key, Value>>): seq<Entry<Key, Value>>
    decreases |calls|
  {
    if calls == [] then [] else After(AfterAll(calls[..|calls| - 1]), calls[|calls| - 1])
  }

  // ---- an independent account of the history ------------------------------------------------

  /** The last value put for the key, unless it was removed since. */
  function LastPut<Key(==), Value>(calls: seq<Call<Key, Value>>, key: Key): Option<Value>
    decreases |calls|
  {
    if calls == [] then None
    else
      var last := calls[|calls| - 1];
      if last.Put? && last.key == key then Some(last.value)
      else if last.Remove? && last.key == key then None
      else LastPut(calls[..|calls| - 1], key)
  }

  /** When the key was last put, or asked for while present: one more than that call's position. */
  function LastUse<Key(==), Value>(calls: seq<Call<Key, Value>>, key: Key): nat
    decreases |calls|
  {
    if calls == [] then 0
    else
      var before, last := calls[..|calls| - 1], calls[|calls| - 1];
      if last.key == key && (last.Put? || (last.Get? && LastPut(before, key).Some?)) then |calls|
      else LastUse(before, key)
  }

  lemma {:induction false} LastUseBound<Key, Value>(calls: seq<Call<Key, Value>>, key: Key)
    ensures LastUse(calls, key) <= |calls|
    decreases |calls|
  {
    if calls != [] {
      LastUseBound(calls[..|calls| - 1], key);
    }
  }

  // ---- lists -------------------------------------------------------------------------------

  lemma {:induction false} WithoutMembers<Key, Value>(es: seq<Entry<Key, Value>>, key: Key)
    ensures forall i :: 0 <= i < |Without(es, key)| ==> Without(es, key)[i] in es && Without(es, key)[i].key != key
  {
    if es != [] {
      WithoutMembers(es[1..], key);
    }
  }

  lemma {:induction false} WithoutDistinct<Key, Value>(es: seq<Entry<Key, Value>>, key: Key)
    requires HasDistinctKeys(es)
    ensures HasDistinctKeys(Without(es, key))
  {
    if es != [] {
      WithoutDistinct(es[1..], key);
      WithoutMembers(es[1..], key);
      var rest := Without(es[1..], key);
      forall i | 0 <= i < |rest| ensures rest[i].key != es[0].key {
        var k :| 0 <= k < |es[1..]| && es[1..][k] == rest[i];
        assert es[k + 1] == rest[i];
      }
    }
  }

  lemma {:induction false} WithoutAbsent<Key, Value>(es: seq<Entry<Key, Value>>, key: Key)
    requires forall i :: 0 <= i < |es| ==> es[i].key != key
    ensures Without(es, key) == es && Lookup(es, key) == None
  {
    if es != [] {
      WithoutAbsent(es[1..], key);
    }
  }

  /** With distinct keys, dropping a key drops the one entry that has it. */
  lemma {:induction false} WithoutAt<Key, Value>(es: seq<Entry<Key, Value>>, i: nat)
    requires HasDistinctKeys(es) && i < |es|
    ensures Without(es, es[i].key) == es[..i] + es[i + 1..] && Lookup(es, es[i].key) == Some(es[i].value)
  {
    if i == 0 {
      WithoutAbsent(es[1..], es[0].key);
    } else {
      WithoutAt(es[1..], i - 1);
      assert es[..i] == [es[0]] + es[1..][..i - 1];
    }
  }

  lemma {:induction false} LookupWithout<Key, Value>(es: seq<Entry<Key, Value>>, key: Key, k: Key)
    ensures Lookup(Without(es, key), k) == if k == key then None else Lookup(es, k)
  {
    if es != [] {
      LookupWithout(es[1..], key, k);
    }
  }

  lemma {:induction false} LookupMember<Key, Value>(es: seq<Entry<Key, Value>>, i: nat)
    requires i < |es|
    ensures Lookup(es, es[i].key).Some?
  {
    if i > 0 {
      LookupMember(es[1..], i - 1);
    }
  }

  // ---- what every history makes of the cache ------------------------------------------------

  lemma {:induction false} AfterDistinct<Key, Value>(es: seq<Entry<Key, Value>>, call: Call<Key, Value>)
    requires HasDistinctKeys(es)
    ensures HasDistinctKeys(After(es, call))
  {
    WithoutDistinct(es, call.key);
    WithoutMembers(es, call.key);
  }

  /** get finds the last value put for the key and not removed since, after any history. */
  lemma {:induction false} HistoryLookup<Key, Value>(calls: seq<Call<Key, Value>>, key: Key)
    ensures Lookup(AfterAll(calls), key) == LastPut(calls, key)
    decreases |calls|
  {
    if calls != [] {
      var before, last := calls[..|calls| - 1], calls[|calls| - 1];
      HistoryLookup(before, key);
      LookupWithout(AfterAll(before), last.key, key);
    }
  }

  /** In the order of the list: of two entries, the one in front was used later. */
  ghost predicate IsInUseOrder<Key(!new), Value(!new)>(calls: seq<Call<Key, Value>>, es: seq<Entry<Key, Value>>) {
    forall i, j :: 0 <= i < j < |es| ==> LastUse(calls, es[i].key) > LastUse(calls, es[j].key)
  }

  lemma {:induction false} WithoutOrder<Key(!new), Value(!new)>(calls: seq<Call<Key, Value>>, es: seq<Entry<Key, Value>>, key: Key)
    requires IsInUseOrder(calls, es)
    ensures IsInUseOrder(calls, Without(es, key))
  {
    if es != [] {
      assert IsInUseOrder(calls, es[1..]) by {
        forall i, j | 0 <= i < j < |es[1..]| ensures LastUse(calls, es[1..][i].key) > LastUse(calls, es[1..][j].key) {
          assert es[1..][i] == es[i + 1] && es[1..][j] == es[j + 1];
        }
      }
      WithoutOrder(calls, es[1..], key);
      if es[0].key != key {
        WithoutMembers(es[1..], key);
        var rest := Without(es[1..], key);
        forall j | 0 <= j < |rest| ensures LastUse(calls, es[0].key) > LastUse(calls, rest[j].key) {
          var k :| 0 <= k < |es[1..]| && es[1..][k] == rest[j];
          assert es[k + 1] == rest[j];
        }
      }
    }
  }

  /** Entries the last call did not concern keep their times. */
  lemma {:induction false} OrderStays<Key(!new), Value(!new)>(calls: seq<Call<Key, Value>>, es: seq<Entry<Key, Value>>)
    requires calls != [] && IsInUseOrder(calls[..|calls| - 1], es)
    requires forall i :: 0 <= i < |es| ==> LastUse(calls, es[i].key) == LastUse(calls[..|calls| - 1], es[i].key)
    ensures IsInUseOrder(calls, es)
  {
  }

  lemma {:induction false} OrderStep<Key(!new), Value(!new)>(calls: seq<Call<Key, Value>>)
    requires calls != []
    requires IsInUseOrder(calls[..|calls| - 1], AfterAll(calls[..|calls| - 1]))
    ensures IsInUseOrder(calls, AfterAll(calls))
  {
    var before, last := calls[..|calls| - 1], calls[|calls| - 1];
    var es := AfterAll(before);
    var k := last.key;
    HistoryLookup(before, k);
    if last.Get? && Lookup(es, k) == None {
      OrderStays(calls, es);
    } else {
      WithoutOrder(before, es, k);
      WithoutMembers(es, k);
      var rest := Without(es, k);
      forall i | 0 <= i < |rest| ensures rest[i].key != k && LastUse(calls, rest[i].key) < |calls| {
        LastUseBound(before, rest[i].key);
      }
      OrderStays(calls, rest);
    }
  }

  /** After any history the entries have distinct keys and stand in most-recently-used order. */
  lemma {:induction false} HistoryOrder<Key(!new), Value(!new)>(calls: seq<Call<Key, Value>>)
    ensures HasDistinctKeys(AfterAll(calls)) && IsInUseOrder(calls, AfterAll(calls))
    decreases |calls|
  {
    if calls != [] {
      HistoryOrder(calls[..|calls| - 1]);
      AfterDistinct(AfterAll(calls[..|calls| - 1]), calls[|calls| - 1]);
      OrderStep(calls);
    }
  }
}

/** The cache itself: an intrusive doubly linked list and a hash index into it. */
module LruCache {
  import opened Common
  import opened LruHistory

  class Node<Key(==), Value> {
    const key: Key
    var value: Value
    var prev: Node?<Key, Value>
    var next: Node?<Key, Value>

    constructor (key: Key, value: Value)
      ensures this.key == key && this.value == value && prev == null && next == null
    {
      this.key := key;
      this.value := value;
      prev, next := null, null;
    }
  }

  function At<Key, Value>(nodes: seq<Node<Key, Value>>, i: int): Node?<Key, Value> {
    if 0 <= i < |nodes| then nodes[i] else null
  }

  function Cut<Key, Value>(nodes: seq<Node<Key, Value>>, i: nat): seq<Node<Key, Value>>
    requires i < |nodes|
  {
    nodes[..i] + nodes[i + 1..]
  }

  ghost predicate IsLinkedAt<Key, Value>(nodes: seq<Node<Key, Value>>, i: int)
    requires 0 <= i < |nodes|
    reads nodes[i]
  {
    nodes[i].prev == At(nodes, i - 1) && nodes[i].next == At(nodes, i + 1)
  }

  ghost predicate AreDistinct<Key, Value>(nodes: seq<Node<Key, Value>>) {
    forall i, j :: 0 <= i < j < |nodes| ==> nodes[i] != nodes[j]
  }

  /** The nodes are linked in this order, both ways, between front and tail. */
  ghost predicate IsChain<Key, Value>(front: Node?<Key, Value>, tail: Node?<Key, Value>, nodes: seq<Node<Key, Value>>)
    reads nodes
  {
    && front == At(nodes, 0) && tail == At(nodes, |nodes| - 1) && AreDistinct(nodes)
    && forall i :: 0 <= i < |nodes| ==> IsLinkedAt(nodes, i)
  }

  ghost function Listed<Key, Value>(nodes: seq<Node<Key, Value>>): (es: seq<Entry<Key, Value>>)
    reads nodes
    ensures |es| == |nodes|
  {
    seq(|nodes|, i requires 0 <= i < |nodes| reads nodes => Entry(nodes[i].key, nodes[i].value))
  }

  /** The index holds exactly the list's nodes, each under its own key. */
  ghost predicate IsIndexed<Key, Value>(searcher: map<Key, Node<Key, Value>>, nodes: seq<Node<Key, Value>>) {
    && (forall i :: 0 <= i < |nodes| ==> nodes[i].key in searcher && searcher[nodes[i].key] == nodes[i])
    && (forall k :: k in searcher ==> searcher[k].key == k && searcher[k] in nodes)
  }

  lemma {:induction false} CutDistinct<Key, Value>(nodes: seq<Node<Key, Value>>, i: nat)
    requires AreDistinct(nodes) && i < |nodes|
    ensures AreDistinct(Cut(nodes, i)) && nodes[i] !in Cut(nodes, i)
  {
    var rest := Cut(nodes, i);
    forall j | 0 <= j < |rest| ensures rest[j] == nodes[if j < i then j else j + 1] && rest[j] != nodes[i] {
    }
  }

  lemma {:induction false} IndexWithout<Key, Value>(searcher: map<Key, Node<Key, Value>>, nodes: seq<Node<Key, Value>>, i: nat)
    requires IsIndexed(searcher, nodes) && AreDistinct(nodes) && i < |nodes|
    ensures IsIndexed(searcher - {nodes[i].key}, Cut(nodes, i))
  {
    var rest := searcher - {nodes[i].key};
    forall k | k in rest ensures rest[k].key == k && rest[k] in Cut(nodes, i) {
      var j :| 0 <= j < |nodes| && nodes[j] == searcher[k];
      assert nodes[j] == Cut(nodes, i)[if j < i then j else j - 1];
    }
  }

  lemma {:induction false} IndexMoved<Key, Value>(searcher: map<Key, Node<Key, Value>>, nodes: seq<Node<Key, Value>>, i: nat)
    requires IsIndexed(searcher, nodes) && i < |nodes|
    ensures IsIndexed(searcher, [nodes[i]] + Cut(nodes, i))
  {
    var moved := [nodes[i]] + Cut(nodes, i);
    forall k | k in searcher ensures searcher[k] in moved {
      var j :| 0 <= j < |nodes| && nodes[j] == searcher[k];
      assert nodes[j] == moved[if j == i then 0 else if j < i then j + 1 else j];
    }
  }

  lemma {:induction false} IndexWith<Key, Value>(searcher: map<Key, Node<Key, Value>>, nodes: seq<Node<Key, Value>>, node: Node<Key, Value>)
    requires IsIndexed(searcher, nodes) && node.key !in searcher
    ensures IsIndexed(searcher[node.key := node], [node] + nodes)
  {
  }

  lemma {:induction false} IndexSize<Key, Value>(searcher: map<Key, Node<Key, Value>>, nodes: seq<Node<Key, Value>>)
    requires IsIndexed(searcher, nodes) && AreDistinct(nodes)
    ensures |searcher| == |nodes|
    decreases |nodes|
  {
    if nodes == [] {
      assert searcher == map[];
    } else {
      IndexWithout(searcher, nodes, 0);
      var rest := searcher - {nodes[0].key};
      assert rest.Keys == searcher.Keys - {nodes[0].key} && |rest| == |rest.Keys| && |searcher| == |searcher.Keys|;
      assert AreDistinct(Cut(nodes, 0)) by {
        assert Cut(nodes, 0) == nodes[1..];
      }
      IndexSize(rest, Cut(nodes, 0));
    }
  }

  /** What a traversal shows of the entries before its callback stops it. */
  function Visited<Key, Value>(es: seq<Entry<Key, Value>>, callback: Entry<Key, Value> -> bool): seq<Entry<Key, Value>> {
    if es == [] then []
    else if callback(es[0]) then [es[0]] + Visited(es[1..], callback)
    else [es[0]]
  }

  function Reversed<Key, Value>(es: seq<Entry<Key, Value>>): (r: seq<Entry<Key, Value>>)
    decreases |es|
  {
    if es == [] then [] else [es[|es| - 1]] + Reversed(es[..|es| - 1])
  }

  /** Entries are read off nodes whose values did not change. */
  twostate lemma {:induction false} ListedSame<Key, Value>(nodes: seq<Node<Key, Value>>)
    requires forall i :: 0 <= i < |nodes| ==> nodes[i].value == old(nodes[i].value)
    ensures Listed(nodes) == old(Listed(nodes))
  {
  }

  lemma {:induction false} ListedMoved<Key, Value>(nodes: seq<Node<Key, Value>>, i: nat)
    requires i < |nodes|
    ensures Listed(Cut(nodes, i)) == Listed(nodes)[..i] + Listed(nodes)[i + 1..]
    ensures Listed([nodes[i]] + Cut(nodes, i)) == [Listed(nodes)[i]] + Listed(Cut(nodes, i))
  {
  }

  /** A traversal that showed some entries goes on with those from i on. */
  lemma {:induction false} VisitNext<Key, Value>(
    shown: seq<Entry<Key, Value>>, es: seq<Entry<Key, Value>>, i: nat, callback: Entry<Key, Value> -> bool)
    requires i < |es|
    ensures shown + Visited(es[i..], callback) ==
            shown + [es[i]] + if callback(es[i]) then Visited(es[i + 1..], callback) else []
  {
    assert es[i..][1..] == es[i + 1..];
  }

  lemma {:induction false} VisitPrevious<Key, Value>(
    shown: seq<Entry<Key, Value>>, es: seq<Entry<Key, Value>>, i: nat, callback: Entry<Key, Value> -> bool)
    requires 0 < i <= |es|
    ensures shown + Visited(Reversed(es[..i]), callback) ==
            shown + [es[i - 1]] + if callback(es[i - 1]) then Visited(Reversed(es[..i - 1]), callback) else []
  {
    assert es[..i][..i - 1] == es[..i - 1];
    assert Reversed(es[..i])[1..] == Reversed(es[..i - 1]);
  }

  class Cache<Key(==), Value> {
    var searcher: map<Key, Node<Key, Value>>
    var front: Node?<Key, Value>
    var tail: Node?<Key, Value>
    ghost var nodes: seq<Node<Key, Value>>

    ghost predicate Valid()
      reads this, nodes
    {
      IsChain(front, tail, nodes) && IsIndexed(searcher, nodes)
    }

    ghost function Entries(): seq<Entry<Key, Value>>
      reads this, nodes
    {
      Listed(nodes)
    }

    constructor ()
      ensures Valid() && Entries() == []
    {
      searcher := map[];
      front, tail := null, null;
      nodes := [];
    }

    /** The part lru_touch and lru_push share: link a node in before the front. */
    method LinkFront(node: Node<Key, Value>, ghost rest: seq<Node<Key, Value>>)
      requires IsChain(front, if rest == [] then null else tail, rest) && node !in rest
      requires rest == [] ==> tail == node
      modifies this`front, node`prev, node`next, (if front != null then {front} else {})`prev
      ensures IsChain(front, tail, [node] + rest)
    {
      node.prev := null;
      node.next := front;
      if front != null {
        front.prev := node;
      }
      front := node;
      forall j | 0 <= j < |rest| + 1 ensures IsLinkedAt([node] + rest, j) {
        if j > 0 {
          assert old(IsLinkedAt(rest, j - 1));
        }
      }
    }

    method LruPush(node: Node<Key, Value>)
      requires Valid() && node !in nodes && node.key !in searcher
      modifies this, node`prev, node`next, (if front != null then {front} else {})`prev
      ensures Valid() && nodes == [node] + old(nodes)
    {
      IndexWith(searcher, nodes, node);
      if tail == null {
        tail := node;
      }
      LinkFront(node, nodes);
      searcher := searcher[node.key := node];
      nodes := [node] + nodes;
    }

    /** The part of lru_touch that takes a node other than the front out of the list. */
    method UnlinkInner(node: Node<Key, Value>, ghost i: nat)
      requires IsChain(front, tail, nodes) && 0 < i < |nodes| && nodes[i] == node
      modifies this`tail, nodes`prev, nodes`next
      ensures IsChain(front, tail, Cut(nodes, i)) && node !in Cut(nodes, i)
    {
      assert IsLinkedAt(nodes, i) && (i > 0 ==> IsLinkedAt(nodes, i - 1)) && (i + 1 < |nodes| ==> IsLinkedAt(nodes, i + 1));
      node.prev.next := node.next;
      if node.next != null {
        node.next.prev := node.prev;
      } else {
        tail := node.prev;
      }
      CutDistinct(nodes, i);
      forall j | 0 <= j < |nodes| - 1 ensures IsLinkedAt(Cut(nodes, i), j) {
        assert old(IsLinkedAt(nodes, if j < i then j else j + 1));
      }
    }

    /** lru_touch beyond its early return. */
    method Relink(node: Node<Key, Value>, ghost i: nat)
      requires IsChain(front, tail, nodes) && 0 < i < |nodes| && nodes[i] == node
      modifies this`front, this`tail, nodes`prev, nodes`next
      ensures IsChain(front, tail, [node] + Cut(nodes, i))
    {
      UnlinkInner(node, i);
      assert front == nodes[0] && front in nodes;
      LinkFront(node, Cut(nodes, i));
    }

    /** Move a node to the front. */
    method LruTouch(node: Node<Key, Value>, ghost i: nat)
      requires Valid() && i < |nodes| && nodes[i] == node
      modifies this, nodes`prev, nodes`next
      ensures Valid() && searcher == old(searcher) && nodes == [node] + Cut(old(nodes), i)
    {
      assert IsLinkedAt(nodes, i);
      if node.prev == null {
        assert i == 0 && nodes == [node] + Cut(nodes, 0);
        return;
      }
      IndexMoved(searcher, nodes, i);
      Relink(node, i);
      nodes := [node] + Cut(nodes, i);
    }

    /** The part of lru_remove that takes any node out of the list. */
    method Unlink(node: Node<Key, Value>, ghost i: nat)
      requires IsChain(front, tail, nodes) && i < |nodes| && nodes[i] == node
      modifies this`front, this`tail, nodes`prev, nodes`next
      ensures IsChain(front, tail, Cut(nodes, i))
    {
      assert IsLinkedAt(nodes, i) && (i > 0 ==> IsLinkedAt(nodes, i - 1)) && (i + 1 < |nodes| ==> IsLinkedAt(nodes, i + 1));
      if node.prev != null {
        node.prev.next := node.next;
      }
      if node.next != null {
        node.next.prev := node.prev;
      }
      if front == node {
        front := node.next;
      }
      if tail == node {
        tail := node.prev;
      }
      CutDistinct(nodes, i);
      forall j | 0 <= j < |nodes| - 1 ensures IsLinkedAt(Cut(nodes, i), j) {
        assert old(IsLinkedAt(nodes, if j < i then j else j + 1));
      }
    }

    method LruRemove(node: Node<Key, Value>, ghost i: nat)
      requires Valid() && i < |nodes| && nodes[i] == node
      modifies this, nodes`prev, nodes`next
      ensures Valid() && nodes == Cut(old(nodes), i)
    {
      IndexWithout(searcher, nodes, i);
      Unlink(node, i);
      searcher := searcher - {node.key};
      nodes := Cut(nodes, i);
    }

    /** find in the index agrees with looking along the list. */
    lemma {:induction false} FindsEntry(key: Key)
      requires Valid()
      ensures HasDistinctKeys(Entries())
      ensures key !in searcher ==> Lookup(Entries(), key) == None && Without(Entries(), key) == Entries()
      ensures key in searcher ==> exists i :: 0 <= i < |nodes| && nodes[i] == searcher[key]
    {
      if key !in searcher {
        WithoutAbsent(Entries(), key);
      }
    }

    method Count() returns (n: nat)
      requires Valid()
      ensures n == |Entries()|
    {
      IndexSize(searcher, nodes);
      return |searcher|;
    }

    method Get(key: Key) returns (r: Option<Value>)
      requires Valid()
      modifies this, nodes`prev, nodes`next
      ensures Valid() && Entries() == After(old(Entries()), Call.Get(key))
      ensures r == Lookup(old(Entries()), key)
      ensures forall n :: n in nodes ==> n in old(nodes)
    {
      FindsEntry(key);
      if key !in searcher {
        return None;
      }
      ghost var i :| 0 <= i < |nodes| && nodes[i] == searcher[key];
      FoundAt(key, i);
      TouchFound(searcher[key], i);
      return Some(searcher[key].value);
    }

    /** What get answers and leaves for a key in node i. */
    lemma {:induction false} FoundAt(key: Key, i: nat)
      requires Valid() && i < |nodes| && key in searcher && nodes[i] == searcher[key]
      ensures Lookup(Entries(), key) == Some(nodes[i].value)
      ensures After(Entries(), Call.Get(key)) == [Entries()[i]] + (Entries()[..i] + Entries()[i + 1..])
    {
      FindsEntry(key);
      WithoutAt(Entries(), i);
    }

    /** The branch of get for a key that is present. */
    method TouchFound(node: Node<Key, Value>, ghost i: nat)
      requires Valid() && i < |nodes| && nodes[i] == node
      modifies this, nodes`prev, nodes`next
      ensures Valid() && searcher == old(searcher) && nodes == [node] + Cut(old(nodes), i)
      ensures Entries() == [old(Entries())[i]] + (old(Entries())[..i] + old(Entries())[i + 1..])
    {
      LruTouch(node, i);
      ListedSame(old(nodes));
      ListedMoved(old(nodes), i);
    }

    method SetValue(node: Node<Key, Value>, value: Value, ghost i: nat)
      requires Valid() && i < |nodes| && nodes[i] == node
      modifies node`value
      ensures Valid() && Entries() == old(Entries())[i := Entry(node.key, value)]
    {
      node.value := value;
      forall j | 0 <= j < |nodes| ensures IsLinkedAt(nodes, j) {
        assert old(IsLinkedAt(nodes, j));
      }
    }

    /** The branch of put for a key that is present. */
    method Overwrite(node: Node<Key, Value>, value: Value, ghost i: nat)
      requires Valid() && i < |nodes| && nodes[i] == node
      modifies this, nodes
      ensures Valid() && nodes == [node] + Cut(old(nodes), i)
      ensures Entries() == [Entry(node.key, value)] + (old(Entries())[..i] + old(Entries())[i + 1..])
    {
      SetValue(node, value, i);
      label written:
      LruTouch(node, i);
      ListedSame@written(old(nodes));
      ListedMoved(old(nodes), i);
    }

    /** The branch of put for a new key. */
    method Insert(key: Key, value: Value)
      requires Valid() && key !in searcher
      modifies this, nodes`prev
      ensures Valid() && Entries() == [Entry(key, value)] + old(Entries())
      ensures nodes != [] && fresh(nodes[0]) && nodes[1..] == old(nodes)
    {
      var ln := new Node(key, value);
      LruPush(ln);
      ListedSame(old(nodes));
      assert Entries() == [Entry(key, value)] + Listed(old(nodes));
    }

    method Put(key: Key, value: Value)
      requires Valid()
      modifies this, nodes
      ensures Valid() && Entries() == After(old(Entries()), Call.Put(key, value))
      ensures forall n :: n in nodes ==> n in old(nodes) || fresh(n)
    {
      FindsEntry(key);
      if key in searcher {
        ghost var i :| 0 <= i < |nodes| && nodes[i] == searcher[key];
        WithoutAt(Entries(), i);
        Overwrite(searcher[key], value, i);
      } else {
        Insert(key, value);
      }
    }

    method Remove(key: Key)
      requires Valid()
      modifies this, nodes`prev, nodes`next
      ensures Valid() && Entries() == After(old(Entries()), Call.Remove(key))
      ensures forall n :: n in nodes ==> n in old(nodes)
    {
      FindsEntry(key);
      if key in searcher {
        ghost var i :| 0 <= i < |nodes| && nodes[i] == searcher[key];
        WithoutAt(Entries(), i);
        LruRemove(searcher[key], i);
        ListedSame(old(nodes));
        ListedMoved(old(nodes), i);
      }
    }

    method Destroy()
      requires Valid()
      modifies this
      ensures Valid() && Entries() == []
    {
      searcher := map[];
      front, tail := null, null;
      nodes := [];
    }

    /** Visits the entries from the most recently used on, until the callback says stop. */
    method Foreach(callback: Entry<Key, Value> -> bool) returns (visited: seq<Entry<Key, Value>>)
      requires Valid()
      ensures visited == Visited(Entries(), callback)
    {
      visited := [];
      var node := front;
      ghost var i, es := 0, Entries();
      while node != null
        invariant 0 <= i <= |nodes| && node == At(nodes, i)
        invariant Visited(es, callback) == visited + Visited(es[i..], callback)
        decreases |nodes| - i
      {
        assert IsLinkedAt(nodes, i);
        VisitNext(visited, es, i, callback);
        var entry := Entry(node.key, node.value);
        visited := visited + [entry];
        if !callback(entry) {
          return;
        }
        node := node.next;
        i := i + 1;
      }
    }

    method ForeachReverse(callback: Entry<Key, Value> -> bool) returns (visited: seq<Entry<Key, Value>>)
      requires Valid()
      ensures visited == Visited(Reversed(Entries()), callback)
    {
      visited := [];
      var node := tail;
      ghost var i, es := |nodes|, Entries();
      assert es[..|nodes|] == es;
      while node != null
        invariant 0 <= i <= |nodes| && node == At(nodes, i - 1)
        invariant Visited(Reversed(es), callback) == visited + Visited(Reversed(es[..i]), callback)
        decreases i
      {
        assert IsLinkedAt(nodes, i - 1);
        VisitPrevious(visited, es, i, callback);
        var entry := Entry(node.key, node.value);
        visited := visited + [entry];
        if !callback(entry) {
          return;
        }
        node := node.prev;
        i := i - 1;
      }
    }
  }

  /** Any sequence of calls on a new cache. */
  method Replay<Key(==), Value>(calls: seq<Call<Key, Value>>) returns (cache: Cache<Key, Value>)
    ensures cache.Valid() && cache.Entries() == AfterAll(calls)
  {
    cache := new Cache();
    for i := 0 to |calls|
      invariant fresh(cache) && fresh(cache.nodes) && cache.Valid() && cache.Entries() == AfterAll(calls[..i])
    {
      assert calls[..i + 1][..i] == calls[..i];
      match calls[i] {
        case Put(key, value) => cache.Put(key, value);
        case Get(key) => var _ := cache.Get(key);
        case Remove(key) => cache.Remove(key);
      }
    }
    assert calls[..|calls|] == calls;
  }
}
