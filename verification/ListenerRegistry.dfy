/**
 The keyed registry of src/ipc/ipc-common/Registry.h: a map, and listeners per key that are told
 when the key's mapping may have changed.
 */
module ListenerRegistry {

  import opened Wrappers
  import opened Sequences

  function Get<K, V>(content: map<K, V>, key: K): Option<V> {
    if key in content then Some(content[key]) else None
  }

  // A listener is named by its context object.
  type Listener = nat

  function Live(listeners: seq<Listener>, alive: set<Listener>): seq<Listener> {
    if listeners == [] then []
    else if listeners[0] in alive then [listeners[0]] + Live(listeners[1..], alive)
    else Live(listeners[1..], alive)
  }

  lemma {:induction false} LiveMember(listeners: seq<Listener>, alive: set<Listener>, c: Listener)
    ensures c in Live(listeners, alive) <==> c in listeners && c in alive
  {
    if listeners != [] {
      LiveMember(listeners[1..], alive, c);
    }
  }

  /** Live listeners are taken in order and as often as they are registered; the others are left out. */
  lemma {:induction false} LiveExact(a: seq<Listener>, c: Listener, b: seq<Listener>, alive: set<Listener>)
    ensures Live(a + [c] + b, alive) == Live(a, alive) + (if c in alive then [c] else []) + Live(b, alive)
  {
    if a == [] {
      assert ([] + [c] + b)[1..] == b;
    } else {
      assert (a + [c] + b)[1..] == a[1..] + [c] + b;
      LiveExact(a[1..], c, b, alive);
    }
  }

  lemma {:induction false} LiveCount(listeners: seq<Listener>, alive: set<Listener>, c: Listener)
    ensures multiset(Live(listeners, alive))[c] == if c in alive then multiset(listeners)[c] else 0
  {
    if listeners != [] {
      LiveCount(listeners[1..], alive, c);
      assert listeners == [listeners[0]] + listeners[1..];
    }
  }

  lemma LiveNext(listeners: seq<Listener>, i: nat, alive: set<Listener>)
    requires i < |listeners|
    ensures Live(listeners[i..], alive)
            == if listeners[i] in alive then [listeners[i]] + Live(listeners[i + 1..], alive)
                 else Live(listeners[i + 1..], alive)
  {
    assert listeners[i..][1..] == listeners[i + 1..];
  }

  // The notifications of one key: its live listeners, in order.
  function Calls<K>(listeners: seq<Listener>, key: K): (r: seq<(Listener, K)>)
    ensures |r| == |listeners|
  {
    if listeners == [] then [] else [(listeners[0], key)] + Calls(listeners[1..], key)
  }

  function ListenersOf<K>(listeners: map<K, seq<Listener>>, key: K): seq<Listener> {
    if key in listeners then listeners[key] else []
  }

  // The notifications of the first n keys, one key after the other.
  function Deliveries<K>(keys: seq<K>, n: nat, listeners: map<K, seq<Listener>>,
                         alive: set<Listener>): seq<(Listener, K)>
    requires n <= |keys|
  {
    if n == 0 then []
    else
      Deliveries(keys, n - 1, listeners, alive)
      + Calls(Live(ListenersOf(listeners, keys[n - 1]), alive), keys[n - 1])
  }

  // The keys from position n on.
  ghost function From<K>(keys: seq<K>, n: nat): set<K> {
    set i | n <= i < |keys| :: keys[i]
  }

  lemma CallsNext<K>(listeners: seq<Listener>, i: nat, alive: set<Listener>, key: K)
    requires i < |listeners|
    ensures Calls(Live(listeners[i..], alive), key)
            == (if listeners[i] in alive then [(listeners[i], key)] else [])
               + Calls(Live(listeners[i + 1..], alive), key)
  {
    LiveNext(listeners, i, alive);
  }

  // Each listener is called in its turn.
  lemma {:induction false} CallsAt<K>(listeners: seq<Listener>, key: K, i: nat)
    requires i < |listeners|
    ensures Calls(listeners, key)[i] == (listeners[i], key)
  {
    if i > 0 {
      CallsAt(listeners[1..], key, i - 1);
    }
  }

  lemma {:induction false} CallsCount<K>(listeners: seq<Listener>, key: K, c: Listener, k: K)
    ensures multiset(Calls(listeners, key))[(c, k)] == if k == key then multiset(listeners)[c] else 0
  {
    if listeners != [] {
      CallsCount(listeners[1..], key, c, k);
      assert listeners == [listeners[0]] + listeners[1..];
      assert Calls(listeners, key) == [(listeners[0], key)] + Calls(listeners[1..], key);
    }
  }

  /** Notifying distinct keys calls each live listener of these keys once per registration, and no
      other listener. */
  lemma {:induction false} DeliveredOnce<K>(keys: seq<K>, n: nat, listeners: map<K, seq<Listener>>,
                                            alive: set<Listener>, c: Listener, k: K)
    requires Distinct(keys) && n <= |keys|
    ensures multiset(Deliveries(keys, n, listeners, alive))[(c, k)]
            == if k in keys[..n] && k in listeners && c in alive then multiset(listeners[k])[c] else 0
  {
    if n > 0 {
      assert keys[..n] == keys[..n - 1] + [keys[n - 1]];
      DeliveredOnce(keys, n - 1, listeners, alive, c, k);
      CallsCount(Live(ListenersOf(listeners, keys[n - 1]), alive), keys[n - 1], c, k);
      LiveCount(ListenersOf(listeners, keys[n - 1]), alive, c);
    }
  }

  class Registry<K(==,!new), V(==)> {
    var m_content: map<K, V>
    var m_listeners: map<K, seq<Listener>>
    var alive: set<Listener>                      // contexts that are not destroyed
    var seen: map<(Listener, K), Option<V>>       // what a listener read when it was last told
    var calls: seq<(Listener, K)>                 // all notifications, in order

    // Every live listener of a key outside `stale` has seen the key's mapping.
    ghost predicate FreshExcept(stale: set<K>)
      reads this
    {
      forall key, c :: key in m_listeners && c in m_listeners[key] && c in alive && key !in stale ==>
        (c, key) in seen && seen[(c, key)] == Get(m_content, key)
    }

    /** No listener is stale. */
    ghost predicate Valid()
      reads this
    {
      FreshExcept({})
    }

    constructor ()
      ensures Valid() && m_content == map[] && calls == []
    {
      m_content, m_listeners, alive, seen, calls := map[], map[], {}, map[], [];
    }

    // addListener(): the receiver is an existing object, and has read the key's mapping on its own.
    method AddListener(key: K, receiver: Listener)
      requires Valid()
      requires receiver in alive || forall k :: k in m_listeners ==> receiver !in m_listeners[k]
      modifies this`m_listeners, this`alive, this`seen
      ensures Valid()
      ensures m_listeners == old(m_listeners)[key := ListenersOf(old(m_listeners), key) + [receiver]]
      ensures alive == old(alive) + {receiver}
    {
      var listeners := if key in m_listeners then m_listeners[key] else [];
      m_listeners := m_listeners[key := listeners + [receiver]];
      alive := alive + {receiver};
      seen := seen[(receiver, key) := if key in m_content then Some(m_content[key]) else None];
    }

    // The loop of removeInvalidListeners()
    method WithoutInvalid(all: seq<Listener>) returns (listeners: seq<Listener>)
      ensures listeners == Live(all, alive)
    {
      listeners := all;
      var i := |all| - 1;
      assert all[..i + 1] + Live([], alive) == all;
      hide Live;
      while i >= 0
        invariant -1 <= i < |all|
        invariant listeners == all[..i + 1] + Live(all[i + 1..], alive)
      {
        ghost var later := Live(all[i + 1..], alive);
        LiveNext(all, i, alive);
        assert all[..i + 1] == all[..i] + [all[i]];
        if listeners[i] !in alive {
          listeners := listeners[..i] + listeners[i + 1..];
          assert listeners == all[..i] + later;
        } else {
          assert listeners == all[..i] + ([all[i]] + later);
        }
        i := i - 1;
      }
      assert all[0..] == all && listeners == Live(all, alive);
    }

    /** removeInvalidListeners() keeps exactly the live listeners, in order. */
    method RemoveInvalidListeners(key: K)
      modifies this`m_listeners
      ensures m_listeners == old(m_listeners)[key := Live(ListenersOf(old(m_listeners), key), alive)]
      ensures forall c :: c in m_listeners[key] ==> c in ListenersOf(old(m_listeners), key) && c in alive
    {
      var listeners := WithoutInvalid(if key in m_listeners then m_listeners[key] else []);
      m_listeners := m_listeners[key := listeners];
      forall c | c in listeners
        ensures c in ListenersOf(old(m_listeners), key) && c in alive
      {
        LiveMember(ListenersOf(old(m_listeners), key), alive, c);
      }
    }

    // The call of one listener, which reads its key again
    method Call(c: Listener, key: K)
      modifies this`seen, this`calls
      ensures calls == old(calls) + [(c, key)]
      ensures seen == old(seen)[(c, key) := Get(m_content, key)]
    {
      calls := calls + [(c, key)];
      seen := seen[(c, key) := if key in m_content then Some(m_content[key]) else None];
    }

    // The loop of notifyListeners(), over a copy of the key's listeners
    method CallLive(listeners: seq<Listener>, key: K)
      modifies this`seen, this`calls
      ensures calls == old(calls) + Calls(Live(listeners, alive), key)
      ensures forall c :: c in listeners && c in alive ==> (c, key) in seen && seen[(c, key)] == Get(m_content, key)
      ensures forall c, k :: k != key && (c, k) in old(seen) ==> (c, k) in seen && seen[(c, k)] == old(seen)[(c, k)]
    {
      assert listeners[0..] == listeners && Calls(Live(listeners[|listeners|..], alive), key) == [];
      hide Calls, Live;
      for i := 0 to |listeners|
        invariant calls + Calls(Live(listeners[i..], alive), key) == old(calls) + Calls(Live(listeners, alive), key)
        invariant forall c :: c in listeners[..i] && c in alive ==>
            (c, key) in seen && seen[(c, key)] == Get(m_content, key)
        invariant forall c, k :: k != key && (c, k) in old(seen) ==> (c, k) in seen && seen[(c, k)] == old(seen)[(c, k)]
      {
        CallsNext(listeners, i, alive, key);
        assert listeners[..i + 1] == listeners[..i] + [listeners[i]];
        ghost var later := Calls(Live(listeners[i + 1..], alive), key);
        if listeners[i] in alive {
          assert calls + ([(listeners[i], key)] + later) == (calls + [(listeners[i], key)]) + later;
          Call(listeners[i], key);
        }
      }
      assert listeners[..|listeners|] == listeners;
    }

    method NotifyListeners(key: K, ghost stale: set<K>)
      requires FreshExcept(stale + {key})
      modifies this`m_listeners, this`seen, this`calls
      ensures FreshExcept(stale)
      ensures calls == old(calls) + Calls(Live(ListenersOf(old(m_listeners), key), alive), key)
      ensures forall k :: k != key ==> ListenersOf(m_listeners, k) == ListenersOf(old(m_listeners), k)
      ensures ListenersOf(m_listeners, key) == Live(ListenersOf(old(m_listeners), key), alive)
    {
      if key in m_listeners {
        CallLive(m_listeners[key], key);
        RemoveInvalidListeners(key);
      }
    }

    // insert(): the source asserts that the key is absent
    method Insert(key: K, value: V)
      requires Valid() && key !in m_content
      modifies this`m_content, this`m_listeners, this`seen, this`calls
      ensures Valid() && m_content == old(m_content)[key := value]
      ensures calls == old(calls) + Calls(Live(ListenersOf(old(m_listeners), key), alive), key)
      ensures ListenersOf(m_listeners, key) == Live(ListenersOf(old(m_listeners), key), alive)
      ensures forall k :: k != key ==> ListenersOf(m_listeners, k) == ListenersOf(old(m_listeners), k)
    {
      m_content := m_content[key := value];
      NotifyListeners(key, {});
    }

    method Remove(key: K) returns (removed: bool)
      requires Valid()
      modifies this`m_content, this`m_listeners, this`seen, this`calls
      ensures Valid() && removed == (key in old(m_content)) && m_content == old(m_content) - {key}
      ensures calls == old(calls) + Calls(Live(ListenersOf(old(m_listeners), key), alive), key)
      ensures ListenersOf(m_listeners, key) == Live(ListenersOf(old(m_listeners), key), alive)
      ensures forall k :: k != key ==> ListenersOf(m_listeners, k) == ListenersOf(old(m_listeners), k)
    {
      removed := key in m_content;
      m_content := m_content - {key};
      NotifyListeners(key, {});
    }

    // The two loops of setContent() that collect the modified keys; their order is QMap's.
    method ModifiedKeys(content: map<K, V>) returns (modified: seq<K>)
      ensures Distinct(modified)
      ensures forall k :: k in modified <==> Get(content, k) != Get(m_content, k)
    {
      modified := [];
      var keys := content.Keys;
      while keys != {}
        invariant keys <= content.Keys && Distinct(modified)
        invariant forall k :: k in modified <==> k in content.Keys - keys && Get(content, k) != Get(m_content, k)
        decreases keys
      {
        var newKey :| newKey in keys;
        assert newKey !in modified;
        if newKey !in m_content || m_content[newKey] != content[newKey] {
          modified := modified + [newKey];
        }
        keys := keys - {newKey};
      }
      keys := m_content.Keys;
      while keys != {}
        invariant keys <= m_content.Keys && Distinct(modified)
        invariant forall k ::
          k in modified <==> k in content.Keys + (m_content.Keys - keys) && Get(content, k) != Get(m_content, k)
        decreases keys
      {
        var previousKey :| previousKey in keys;
        if previousKey !in content || m_content[previousKey] != content[previousKey] {
          if previousKey !in modified {
            modified := modified + [previousKey];
          }
        }
        keys := keys - {previousKey};
      }
    }

    // The last loop of setContent()
    method NotifyAll(modifiedItems: seq<K>)
      requires FreshExcept(From(modifiedItems, 0)) && Distinct(modifiedItems)
      modifies this`m_listeners, this`seen, this`calls
      ensures Valid()
      ensures calls == old(calls) + Deliveries(modifiedItems, |modifiedItems|, old(m_listeners), alive)
      ensures forall k ::
                ListenersOf(m_listeners, k)
                == if k in modifiedItems then Live(ListenersOf(old(m_listeners), k), alive)
                   else ListenersOf(old(m_listeners), k)
    {
      ghost var before := m_listeners;
      hide Calls, Live, FreshExcept;
      for i := 0 to |modifiedItems|
        invariant FreshExcept(From(modifiedItems, i))
        invariant calls == old(calls) + Deliveries(modifiedItems, i, before, alive)
        invariant forall k ::
          ListenersOf(m_listeners, k)
          == if k in modifiedItems[..i] then Live(ListenersOf(before, k), alive) else ListenersOf(before, k)
      {
        assert modifiedItems[..i + 1] == modifiedItems[..i] + [modifiedItems[i]];
        assert modifiedItems[i] !in modifiedItems[..i];
        assert From(modifiedItems, i + 1) + {modifiedItems[i]} == From(modifiedItems, i);
        NotifyListeners(modifiedItems[i], From(modifiedItems, i + 1));
      }
      assert modifiedItems[..|modifiedItems|] == modifiedItems;
      assert From(modifiedItems, |modifiedItems|) == {};
    }

    /** setContent() notifies exactly the keys whose mapping changed, and afterwards no listener is
        stale.  With `DeliveredOnce`: each live listener of a changed key once, no other. */
    method SetContent(content: map<K, V>) returns (ghost modified: seq<K>)
      requires Valid()
      modifies this`m_content, this`m_listeners, this`seen, this`calls
      ensures Valid() && m_content == content
      ensures Distinct(modified)
      ensures forall k :: k in modified <==>
                if k in content && k in old(m_content) then content[k] != old(m_content)[k]
                else k in content || k in old(m_content)
      ensures calls == old(calls) + Deliveries(modified, |modified|, old(m_listeners), alive)
      ensures forall k ::
                ListenersOf(m_listeners, k)
                == if k in modified then Live(ListenersOf(old(m_listeners), k), alive)
                   else ListenersOf(old(m_listeners), k)
    {
      var modifiedItems := ModifiedKeys(content);
      modified := modifiedItems;
      m_content := content;
      NotifyAll(modifiedItems);
    }

    // A context is destroyed, and the handler connected for one of its keys runs.
    method Destroy(c: Listener, key: K)
      requires Valid()
      modifies this`alive, this`m_listeners
      ensures Valid() && alive == old(alive) - {c}
      ensures m_listeners == old(m_listeners)[key := Live(ListenersOf(old(m_listeners), key), alive)]
    {
      alive := alive - {c};
      RemoveInvalidListeners(key);
    }
  }
}
