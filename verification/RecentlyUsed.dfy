/**
 MostRecentlyUsedCache of src/common/FaceliftUtils.h: a list of entries, most recently used first,
 and a map from each key to its node in the list.
 */
module RecentlyUsed {

  import opened Wrappers
  import opened Sequences

  // ----- the specification: entries, most recently used first

  predicate Has<K(==), V>(s: seq<(K, V)>, k: K) {
    s != [] && (s[0].0 == k || Has(s[1..], k))
  }

  function Lookup<K(==), V>(s: seq<(K, V)>, k: K): V
    requires Has(s, k)
  {
    if s[0].0 == k then s[0].1 else Lookup(s[1..], k)
  }

  predicate DistinctKeys<K(==), V>(s: seq<(K, V)>) {
    s == [] || (!Has(s[1..], s[0].0) && DistinctKeys(s[1..]))
  }

  function RemoveKey<K(==), V>(s: seq<(K, V)>, k: K): seq<(K, V)> {
    if s == [] then []
    else if s[0].0 == k then RemoveKey(s[1..], k)
    else [s[0]] + RemoveKey(s[1..], k)
  }

  function Front<T>(s: seq<T>, n: nat): seq<T> {
    if |s| > n then s[..n] else s
  }

  // get()
  function Touch<K(==), V>(s: seq<(K, V)>, k: K): seq<(K, V)>
    requires Has(s, k)
  {
    [(k, Lookup(s, k))] + RemoveKey(s, k)
  }

  // insert() into a cache of the given size
  function Put<K(==), V>(size: nat, s: seq<(K, V)>, k: K, v: V): seq<(K, V)> {
    Front([(k, v)] + RemoveKey(s, k), size)
  }

  lemma {:induction false} RemoveKeeps<K, V>(s: seq<(K, V)>, x: K, k: K)
    ensures Has(RemoveKey(s, x), k) <==> Has(s, k) && k != x
    ensures Has(s, k) && k != x ==> Lookup(RemoveKey(s, x), k) == Lookup(s, k)
  {
    if s != [] {
      RemoveKeeps(s[1..], x, k);
      assert s[0].0 != x ==> RemoveKey(s, x)[1..] == RemoveKey(s[1..], x);
    }
  }

  lemma {:induction false} RemoveDistinct<K, V>(s: seq<(K, V)>, x: K)
    requires DistinctKeys(s)
    ensures DistinctKeys(RemoveKey(s, x))
    ensures |RemoveKey(s, x)| == if Has(s, x) then |s| - 1 else |s|
    ensures !Has(s, x) ==> RemoveKey(s, x) == s
  {
    if s != [] {
      RemoveDistinct(s[1..], x);
      RemoveKeeps(s[1..], x, s[0].0);
      assert s[0].0 != x ==> RemoveKey(s, x)[1..] == RemoveKey(s[1..], x);
    }
  }

  // Using a key moves it to the front and keeps keys distinct.
  lemma ToFrontDistinct<K, V>(s: seq<(K, V)>, k: K, v: V)
    requires DistinctKeys(s)
    ensures DistinctKeys([(k, v)] + RemoveKey(s, k))
  {
    RemoveDistinct(s, k);
    RemoveKeeps(s, k, k);
    assert ([(k, v)] + RemoveKey(s, k))[1..] == RemoveKey(s, k);
  }

  // ----- traces

  datatype Use<K, V> = Got(key: K) | Inserted(key: K, value: V)

  // get() of a key that is absent is undefined in the source; no caller does it.
  predicate Permitted<K(==), V>(s: seq<(K, V)>, u: Use<K, V>) {
    u.Got? ==> Has(s, u.key)
  }

  function Apply<K(==), V>(size: nat, s: seq<(K, V)>, u: Use<K, V>): seq<(K, V)>
    requires Permitted(s, u)
  {
    match u
    case Got(k) => Touch(s, k)
    case Inserted(k, v) => Put(size, s, k, v)
  }

  predicate LegalTrace<K(==), V>(size: nat, trace: seq<Use<K, V>>)
    decreases |trace|, 0
  {
    trace == [] ||
    var before := trace[..|trace| - 1];
    LegalTrace(size, before) && Permitted(Replay(size, before), trace[|trace| - 1])
  }

  // The entries after a trace that starts from an empty cache.
  function Replay<K(==), V>(size: nat, trace: seq<Use<K, V>>): seq<(K, V)>
    requires LegalTrace(size, trace)
    decreases |trace|, 1
  {
    if trace == [] then [] else Apply(size, Replay(size, trace[..|trace| - 1]), trace[|trace| - 1])
  }

  predicate WasUsed<K(==), V>(trace: seq<Use<K, V>>, k: K) {
    exists i :: 0 <= i < |trace| && trace[i].key == k
  }

  // The keys used since the last use of k.
  function UsedSince<K(==), V>(trace: seq<Use<K, V>>, k: K): set<K> {
    if trace == [] || trace[|trace| - 1].key == k then {}
    else {trace[|trace| - 1].key} + UsedSince(trace[..|trace| - 1], k)
  }

  // The value k was last inserted with.
  function LastInserted<K(==), V>(trace: seq<Use<K, V>>, k: K): Option<V> {
    if trace == [] then None
    else
      var u := trace[|trace| - 1];
      if u.Inserted? && u.key == k then Some(u.value) else LastInserted(trace[..|trace| - 1], k)
  }

  // ----- an unbounded recency list, of which the cache holds the front

  function Recency<K(==), V>(trace: seq<Use<K, V>>): seq<(K, V)> {
    if trace == [] then []
    else
      var s := Recency(trace[..|trace| - 1]);
      match trace[|trace| - 1]
      case Got(k) => if Has(s, k) then Touch(s, k) else s
      case Inserted(k, v) => [(k, v)] + RemoveKey(s, k)
  }

  lemma {:induction false} RecencyDistinct<K, V>(trace: seq<Use<K, V>>)
    ensures DistinctKeys(Recency(trace))
  {
    if trace != [] {
      var s := Recency(trace[..|trace| - 1]);
      RecencyDistinct(trace[..|trace| - 1]);
      match trace[|trace| - 1]
      case Got(k) => if Has(s, k) { ToFrontDistinct(s, k, Lookup(s, k)); }
      case Inserted(k, v) => ToFrontDistinct(s, k, v);
    }
  }

  lemma {:induction false} LookupFront<K, V>(s: seq<(K, V)>, n: nat, k: K)
    requires Has(Front(s, n), k)
    ensures Has(s, k) && Lookup(s, k) == Lookup(Front(s, n), k)
  {
    if s[0].0 != k {
      assert Front(s, n)[1..] == Front(s[1..], n - 1);
      LookupFront(s[1..], n - 1, k);
    }
  }

  lemma FrontCons<T>(x: T, s: seq<T>, n: nat)
    requires n > 0
    ensures Front([x] + s, n) == [x] + Front(s, n - 1)
  {
  }

  // An entry dropped from the back is missed only by what already fell off.
  lemma {:induction false} FrontRemove<K, V>(s: seq<(K, V)>, n: nat, k: K)
    requires DistinctKeys(s)
    ensures Front(RemoveKey(s, k), n) == Front(RemoveKey(Front(s, n + 1), k), n)
  {
    if s != [] {
      var t := Front(s, n + 1);
      assert t[0] == s[0] && t[1..] == Front(s[1..], n);
      if s[0].0 == k {
        RemoveDistinct(s[1..], k);
        FrontDistinct(s[1..], n);
        if Has(t[1..], k) { LookupFront(s[1..], n, k); }
        RemoveDistinct(t[1..], k);
        assert RemoveKey(s, k) == s[1..] && RemoveKey(t, k) == t[1..];
      } else if n > 0 {
        FrontRemove(s[1..], n - 1, k);
        assert RemoveKey(s, k) == [s[0]] + RemoveKey(s[1..], k) && RemoveKey(t, k) == [s[0]] + RemoveKey(t[1..], k);
        hide RemoveKey, Has, DistinctKeys;
        FrontCons(s[0], RemoveKey(s[1..], k), n);
        FrontCons(s[0], RemoveKey(t[1..], k), n);
      }
    }
  }

  lemma {:induction false} FrontDistinct<K, V>(s: seq<(K, V)>, n: nat)
    requires DistinctKeys(s)
    ensures DistinctKeys(Front(s, n))
  {
    if s != [] && n > 0 {
      FrontDistinct(s[1..], n - 1);
      assert Front(s, n)[1..] == Front(s[1..], n - 1);
      if Has(Front(s[1..], n - 1), s[0].0) { LookupFront(s[1..], n - 1, s[0].0); }
    }
  }

  lemma ToFrontTruncates<K, V>(size: nat, s: seq<(K, V)>, k: K, v: V)
    requires DistinctKeys(s)
    ensures Front([(k, v)] + RemoveKey(s, k), size) == Front([(k, v)] + RemoveKey(Front(s, size), k), size)
  {
    if size > 0 {
      FrontRemove(s, size - 1, k);
      FrontCons((k, v), RemoveKey(s, k), size);
      FrontCons((k, v), RemoveKey(Front(s, size), k), size);
      hide Front, RemoveKey, DistinctKeys;
    }
  }

  /** The bounded cache is the front of the unbounded recency list. */
  lemma {:induction false} ReplayIsFrontOfRecency<K, V>(size: nat, trace: seq<Use<K, V>>)
    requires LegalTrace(size, trace)
    ensures Replay(size, trace) == Front(Recency(trace), size)
    ensures DistinctKeys(Replay(size, trace)) && |Replay(size, trace)| <= size
  {
    RecencyDistinct(trace);
    FrontDistinct(Recency(trace), size);
    if trace != [] {
      var before := trace[..|trace| - 1];
      var s, t := Recency(before), Front(Recency(before), size);
      ReplayIsFrontOfRecency(size, before);
      RecencyDistinct(before);
      match trace[|trace| - 1]
      case Got(k) =>
        LookupFront(s, size, k);
        ToFrontTruncates(size, s, k, Lookup(s, k));
        RemoveDistinct(t, k);
      case Inserted(k, v) =>
        ToFrontTruncates(size, s, k, v);
    }
  }

  // The keys in front of k.
  function Before<K(==), V>(s: seq<(K, V)>, k: K): set<K> {
    if s == [] || s[0].0 == k then {} else {s[0].0} + Before(s[1..], k)
  }

  lemma {:induction false} BeforeRemove<K, V>(s: seq<(K, V)>, x: K, k: K)
    requires x != k
    ensures Before(RemoveKey(s, x), k) == Before(s, k) - {x}
  {
    if s != [] {
      BeforeRemove(s[1..], x, k);
      assert s[0].0 != x ==> RemoveKey(s, x)[1..] == RemoveKey(s[1..], x);
    }
  }

  // Moving x to the front puts x, and nothing else new, before k.
  lemma ToFrontBefore<K, V>(s: seq<(K, V)>, x: K, v: V, k: K)
    requires x != k
    ensures var s' := [(x, v)] + RemoveKey(s, x);
            && (Has(s', k) <==> Has(s, k))
            && (Has(s, k) ==> Lookup(s', k) == Lookup(s, k))
            && Before(s', k) == {x} + Before(s, k)
  {
    var s' := [(x, v)] + RemoveKey(s, x);
    assert s'[1..] == RemoveKey(s, x);
    RemoveKeeps(s, x, k);
    BeforeRemove(s, x, k);
  }

  lemma {:induction false} RecencyOrder<K, V>(size: nat, trace: seq<Use<K, V>>, k: K)
    requires LegalTrace(size, trace)
    ensures Has(Recency(trace), k) <==> WasUsed(trace, k)
    ensures WasUsed(trace, k) ==>
      Before(Recency(trace), k) == UsedSince(trace, k) && LastInserted(trace, k) == Some(Lookup(Recency(trace), k))
  {
    if trace != [] {
      var before, u := trace[..|trace| - 1], trace[|trace| - 1];
      var s := Recency(before);
      RecencyOrder(size, before, k);
      assert WasUsed(trace, k) <==> WasUsed(before, k) || u.key == k by {
        if WasUsed(before, k) {
          var i :| 0 <= i < |before| && before[i].key == k;
          assert trace[i].key == k;
        }
      }
      if u.Got? {
        ReplayIsFrontOfRecency(size, before);
        LookupFront(s, size, u.key);
      }
      if u.key != k {
        ToFrontBefore(s, u.key, if u.Got? then Lookup(s, u.key) else u.value, k);
      }
    }
  }

  lemma {:induction false} BeforeNotHas<K, V>(s: seq<(K, V)>, x: K, k: K)
    requires !Has(s, x)
    ensures x !in Before(s, k)
  {
    if s != [] {
      BeforeNotHas(s[1..], x, k);
    }
  }

  lemma {:induction false} FrontHas<K, V>(s: seq<(K, V)>, n: nat, k: K)
    requires DistinctKeys(s)
    ensures Has(Front(s, n), k) <==> Has(s, k) && |Before(s, k)| < n
  {
    if s != [] {
      FrontHas(s[1..], if n > 0 then n - 1 else 0, k);
      BeforeNotHas(s[1..], s[0].0, k);
      assert n > 0 ==> Front(s, n)[1..] == Front(s[1..], n - 1);
    }
  }

  /** Recency: after any trace of insert() and get(), a key is present exactly when it was used and
      fewer than `size` other keys were used since, and it has the value last inserted. */
  lemma PresentExactlyWhenRecent<K, V>(size: nat, trace: seq<Use<K, V>>, k: K)
    requires LegalTrace(size, trace)
    ensures Has(Replay(size, trace), k) <==> WasUsed(trace, k) && |UsedSince(trace, k)| < size
    ensures Has(Replay(size, trace), k) ==> LastInserted(trace, k) == Some(Lookup(Replay(size, trace), k))
    ensures k !in UsedSince(trace, k)
  {
    ReplayIsFrontOfRecency(size, trace);
    RecencyDistinct(trace);
    RecencyOrder(size, trace, k);
    FrontHas(Recency(trace), size, k);
    if Has(Replay(size, trace), k) {
      LookupFront(Recency(trace), size, k);
    }
    NotSinceItself(trace, k);
  }

  lemma {:induction false} NotSinceItself<K, V>(trace: seq<Use<K, V>>, k: K)
    ensures k !in UsedSince(trace, k)
  {
    if trace != [] {
      NotSinceItself(trace[..|trace| - 1], k);
    }
  }

  // ----- the implementation

  // A node of m_list; m_map holds nodes where the source holds list iterators.
  class Node<K, V> {
    const key: K
    const value: V

    constructor (key: K, value: V)
      ensures this.key == key && this.value == value
    {
      this.key, this.value := key, value;
    }
  }

  ghost function EntriesOf<K, V>(nodes: seq<Node<K, V>>): (r: seq<(K, V)>)
    ensures |r| == |nodes|
  {
    if nodes == [] then [] else [(nodes[0].key, nodes[0].value)] + EntriesOf(nodes[1..])
  }

  lemma {:induction false} EntriesHas<K, V>(nodes: seq<Node<K, V>>, k: K)
    ensures Has(EntriesOf(nodes), k) <==> exists n :: n in nodes && n.key == k
    ensures forall n :: n in nodes && n.key == k && DistinctKeys(EntriesOf(nodes)) ==>
        Lookup(EntriesOf(nodes), k) == n.value
  {
    if nodes != [] {
      EntriesHas(nodes[1..], k);
    }
  }

  lemma {:induction false} EntriesWithout<K, V>(nodes: seq<Node<K, V>>, node: Node<K, V>)
    requires forall n :: n in nodes && n.key == node.key ==> n == node
    ensures EntriesOf(Without(nodes, node)) == RemoveKey(EntriesOf(nodes), node.key)
  {
    if nodes != [] {
      EntriesWithout(nodes[1..], node);
    }
  }

  lemma {:induction false} EntriesFront<K, V>(nodes: seq<Node<K, V>>, n: nat)
    requires n <= |nodes|
    ensures EntriesOf(nodes[..n]) == EntriesOf(nodes)[..n]
  {
    if n > 0 {
      EntriesFront(nodes[1..], n - 1);
      assert nodes[..n] == [nodes[0]] + nodes[1..][..n - 1];
    }
  }

  ghost predicate LinkedBy<K, V>(list: seq<Node<K, V>>, index: map<K, Node<K, V>>) {
    && (forall n :: n in list ==> n.key in index && index[n.key] == n)
    && (forall k :: k in index ==> index[k] in list && index[k].key == k)
    && DistinctKeys(EntriesOf(list)) && |index| == |list|
  }

  lemma WithoutLast<K, V>(list: seq<Node<K, V>>, index: map<K, Node<K, V>>)
    requires LinkedBy(list, index) && list != []
    ensures LinkedBy(list[..|list| - 1], index - {list[|list| - 1].key})
  {
    var n, last := |list| - 1, list[|list| - 1];
    EntriesFront(list, n);
    FrontDistinct(EntriesOf(list), n);
    OnlyLast(list);
    hide EntriesOf, DistinctKeys;
    assert (index - {last.key}).Keys == index.Keys - {last.key};
    forall k | k in index && k != last.key
      ensures index[k] in list[..n]
    {
      var i :| 0 <= i < |list| && list[i] == index[k];
      assert list[..n][i] == index[k];
    }
  }

  class MostRecentlyUsedCache<K(==), V> {
    const m_size: nat
    var m_list: seq<Node<K, V>>
    var m_map: map<K, Node<K, V>>

    // List and map are in bijection.
    ghost predicate Linked()
      reads this
    {
      LinkedBy(m_list, m_map)
    }

    ghost predicate Valid()
      reads this
    {
      Linked() && |m_list| <= m_size
    }

    ghost function Contents(): seq<(K, V)>
      reads this
    {
      EntriesOf(m_list)
    }

    constructor (size: nat)
      ensures Valid() && Contents() == [] && m_size == size
    {
      m_size, m_list, m_map := size, [], map[];
    }

    method Exists(key: K) returns (found: bool)
      requires Valid()
      ensures found == Has(Contents(), key)
    {
      EntriesHas(m_list, key);
      found := key in m_map;
    }

    method Get(key: K) returns (value: V)
      requires Valid() && Has(Contents(), key)
      modifies this
      ensures Valid() && value == Lookup(old(Contents()), key)
      ensures Contents() == Touch(old(Contents()), key)
    {
      EntriesHas(m_list, key);
      var node := m_map[key];
      EntriesWithout(m_list, node);
      ToFrontDistinct(Contents(), key, node.value);
      RemoveDistinct(Contents(), key);
      m_list := [node] + Without(m_list, node);
      value := node.value;
    }

    // Takes a node out of list and map.
    method Unlink(node: Node<K, V>)
      requires Linked() && node in m_list
      modifies this
      ensures Linked() && Contents() == RemoveKey(old(Contents()), node.key)
      ensures forall n :: n in m_list <==> n in old(m_list) && n != node
      ensures node.key !in m_map && |m_list| < |old(m_list)|
    {
      EntriesWithout(m_list, node);
      EntriesHas(m_list, node.key);
      RemoveDistinct(Contents(), node.key);
      m_list := Without(m_list, node);
      assert (m_map - {node.key}).Keys == m_map.Keys - {node.key};
      m_map := m_map - {node.key};
    }

    method Insert(key: K, val: V)
      requires Valid()
      modifies this
      ensures Valid() && Contents() == Put(m_size, old(Contents()), key, val)
    {
      EntriesHas(m_list, key);
      RemoveDistinct(Contents(), key);
      if key in m_map {
        Unlink(m_map[key]);
      }
      PushFront(key, val);
      Trim();
    }

    // push_front of a new node
    method PushFront(key: K, val: V)
      requires Linked() && key !in m_map
      modifies this
      ensures Linked() && Contents() == [(key, val)] + old(Contents())
    {
      EntriesHas(m_list, key);
      var node := new Node(key, val);
      m_list := [node] + m_list;
      m_map := m_map[key := node];
    }

    // Evicts the least recently used entries until the bound holds.
    method Trim()
      requires Linked()
      modifies this
      ensures Valid() && Contents() == Front(old(Contents()), m_size)
    {
      hide EntriesOf, DistinctKeys;
      while |m_map| > m_size
        invariant Linked() && |m_list| <= |old(m_list)| && m_list == old(m_list)[..|m_list|]
        invariant |m_list| == |old(m_list)| || |m_list| >= m_size
      {
        DropLast();
      }
      EntriesFront(old(m_list), |m_list|);
    }

    // pop_back, and the map entry of the last node
    method DropLast()
      requires Linked() && m_list != []
      modifies this
      ensures Linked() && m_list == old(m_list)[..|old(m_list)| - 1]
    {
      var last := m_list[|m_list| - 1];
      WithoutLast(m_list, m_map);
      m_list := m_list[..|m_list| - 1];
      m_map := m_map - {last.key};
    }

    method Remove(key: K)
      requires Valid() && Has(Contents(), key)
      modifies this
      ensures Valid() && Contents() == RemoveKey(old(Contents()), key)
    {
      EntriesHas(m_list, key);
      Unlink(m_map[key]);
    }

    method Clear()
      requires Valid()
      modifies this
      ensures Valid() && Contents() == []
    {
      m_map, m_list := map[], [];
    }
  }

  // With distinct keys, no other node has the key of the last one.
  lemma {:induction false} OnlyLast<K, V>(nodes: seq<Node<K, V>>)
    requires nodes != [] && DistinctKeys(EntriesOf(nodes))
    ensures forall n :: n in nodes[..|nodes| - 1] ==> n.key != nodes[|nodes| - 1].key
  {
    if |nodes| > 1 {
      OnlyLast(nodes[1..]);
      EntriesHas(nodes[1..], nodes[0].key);
      assert nodes[|nodes| - 1] in nodes[1..];
      forall n | n in nodes[..|nodes| - 1]
        ensures n.key != nodes[|nodes| - 1].key
      {
        if n != nodes[0] {
          assert n in nodes[1..][..|nodes| - 2] by {
            var i :| 0 <= i < |nodes| - 1 && nodes[i] == n;
            assert nodes[1..][..|nodes| - 2][i - 1] == n;
          }
        }
      }
    }
  }
}
