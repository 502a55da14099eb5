/**
 The property binding engine of src/model/TProperty.h and src/model/PropertyBase.cpp.

 A property holds a value and the value last notified.  A bound property is re-evaluated, depth
 first and synchronously, each time one of its triggers emits its change signal.  One object of
 class `PropertySystem` holds all the properties; a property is an index.
 */
module PropertyBinding {

  import opened Sequences

  // m_getterFunction (a function of all the values) and the signal sources of m_connections.
  datatype Binding<!V> = Unbound | Bound(getter: seq<V> -> V, triggers: seq<nat>) {
    function Sources(): seq<nat> {
      if Bound? then triggers else []
    }
  }

  // The pure part of the system's state that says who re-evaluates whom.
  datatype Network<!V> = Network(
    binding: seq<Binding<V>>,
    slots: seq<seq<nat>>,    // slots[p]: the slots connected to p's change signal, oldest first
    hasSignal: seq<bool>)    // signalPointer() != nullptr

  // A change notification: which property, and the value it announced.
  datatype Notification<V> = Notification(property: nat, value: V)

  // ----- well-formed networks

  ghost predicate AgreeOn<V(!new)>(ps: seq<nat>, a: seq<V>, b: seq<V>) {
    |a| == |b| && forall p :: p in ps && p < |a| ==> a[p] == b[p]
  }

  // The getter's result depends on the trigger properties only.
  ghost predicate ReadsOnly<V(!new)>(getter: seq<V> -> V, triggers: seq<nat>) {
    forall a, b :: AgreeOn(triggers, a, b) ==> getter(a) == getter(b)
  }

  // Bindings go from lower to higher rank, hence the binding graph has no cycle.
  ghost predicate Acyclic<V>(binding: seq<Binding<V>>, rank: seq<nat>) {
    && |rank| == |binding|
    && forall q, t {:trigger t in binding[q].Sources()} ::
         0 <= q < |binding| && t in binding[q].Sources() ==> t < |binding| && rank[t] < rank[q]
  }

  ghost predicate ReadsOnlyTriggers<V(!new)>(binding: seq<Binding<V>>, unwired: set<nat>) {
    forall q :: 0 <= q < |binding| && q !in unwired && binding[q].Bound?
                ==> ReadsOnly(binding[q].getter, binding[q].triggers)
  }

  // Slots and bindings describe the same connections.
  ghost predicate Connected<V>(net: Network<V>) {
    && |net.slots| == |net.binding| == |net.hasSignal|
    && (forall p, q {:trigger q in net.slots[p]} :: 0 <= p < |net.slots| && q in net.slots[p] ==>
          q < |net.binding| && net.hasSignal[p] && p in net.binding[q].Sources())
    && (forall p, q {:trigger p in net.binding[q].Sources()} ::
          0 <= q < |net.binding| && p in net.binding[q].Sources() ==>
          p < |net.slots| && q in net.slots[p])
  }

  // A network with ranks and getters that fit.
  ghost predicate WellWired<V(!new)>(net: Network<V>, rank: seq<nat>, unwired: set<nat>) {
    Acyclic(net.binding, rank) && Connected(net) && ReadsOnlyTriggers(net.binding, unwired)
  }

  // One more trigger keeps a network well wired.
  lemma TriggerAdded<V(!new)>(net: Network<V>, rank: seq<nat>, unwired: set<nat>, q: nat, t: nat)
    requires WellWired(net, rank, unwired) && q < |net.binding| && net.binding[q].Bound?
    requires t < |net.binding| && rank[t] < rank[q] && net.hasSignal[t]
    ensures var more := Bound(net.binding[q].getter, net.binding[q].triggers + [t]);
            WellWired(Network(net.binding[q := more], net.slots[t := net.slots[t] + [q]], net.hasSignal), rank, unwired)
  {
    var more := Bound(net.binding[q].getter, net.binding[q].triggers + [t]);
    var binding := net.binding[q := more];
    assert forall x, p :: 0 <= x < |binding| && p in binding[x].Sources() ==>
      p in net.binding[x].Sources() || (x == q && p == t);
    if q !in unwired {
      forall a, b | AgreeOn(more.triggers, a, b)
        ensures more.getter(a) == more.getter(b)
      {
        assert AgreeOn(net.binding[q].triggers, a, b);
      }
    }
  }

  // So does taking a property's binding and all its slots out.
  lemma BindingBroken<V(!new)>(net: Network<V>, rank: seq<nat>, unwired: set<nat>, q: nat, slots: seq<seq<nat>>)
    requires WellWired(net, rank, unwired) && q < |net.binding| && |slots| == |net.slots|
    requires forall p :: 0 <= p < |slots| ==> slots[p] == Without(net.slots[p], q)
    ensures WellWired(Network(net.binding[q := Unbound], slots, net.hasSignal), rank, unwired)
  {
    var binding := net.binding[q := Unbound];
    assert forall x, p :: 0 <= x < |binding| && p in binding[x].Sources() ==> x != q && p in net.binding[x].Sources();
  }

  // And a getter without triggers yet, with any ranks that fit.
  lemma GetterBound<V(!new)>(net: Network<V>, rank: seq<nat>, q: nat, getter: seq<V> -> V, newRank: seq<nat>)
    requires WellWired(net, rank, {}) && q < |net.binding| && net.binding[q].Unbound?
    requires Acyclic(net.binding, newRank)
    ensures WellWired(net.(binding := net.binding[q := Bound(getter, [])]), newRank, {q})
  {
    var binding := net.binding[q := Bound(getter, [])];
    assert forall x :: 0 <= x < |binding| ==> binding[x].Sources() == net.binding[x].Sources();
  }

  // Ranks that fit a new binding, before it is there.
  lemma RanksFit<V(!new)>(binding: seq<Binding<V>>, rank: seq<nat>, q: nat, getter: seq<V> -> V, triggers: seq<nat>)
    requires q < |binding| && Acyclic(binding[q := Bound(getter, triggers)], rank)
    ensures |rank| == |binding| && Acyclic(binding[q := Unbound], rank)
    ensures forall t :: t in triggers ==> t < |binding| && rank[t] < rank[q]
  {
    var target, broken := binding[q := Bound(getter, triggers)], binding[q := Unbound];
    assert forall x :: 0 <= x < |broken| ==> broken[x].Sources() == if x == q then [] else target[x].Sources();
    assert forall t :: t in triggers ==> t in target[q].Sources();
  }

  // ----- settled values

  ghost predicate Consistent<V>(binding: seq<Binding<V>>, value: seq<V>, q: nat)
    requires q < |binding| == |value|
  {
    binding[q].Bound? ==> value[q] == binding[q].getter(value)
  }

  ghost predicate ConsistentExcept<V>(binding: seq<Binding<V>>, value: seq<V>, pending: set<nat>)
    requires |binding| == |value|
  {
    forall q :: 0 <= q < |binding| && q !in pending ==> Consistent(binding, value, q)
  }

  // Adding the triggers that a getter reads makes its property consistent, and no other inconsistent.
  lemma BoundConsistent<V(!new)>(before: seq<Binding<V>>, binding: seq<Binding<V>>, value: seq<V>,
                                 oldValue: seq<V>, q: nat)
    requires |before| == |binding| == |value| && q < |binding| && binding[q].Bound?
    requires binding == before[q := binding[q]] && ConsistentExcept(before, value, {q})
    requires ReadsOnly(binding[q].getter, binding[q].triggers) && AgreeOn(binding[q].triggers, value, oldValue)
    requires value[q] == binding[q].getter(oldValue)
    ensures ConsistentExcept(binding, value, {})
  {
    assert forall x :: 0 <= x < |binding| && x != q && Consistent(before, value, x) ==> Consistent(binding, value, x);
  }

  // Writing q leaves x consistent, unless the value changed and x is triggered by q.
  lemma WriteKeeps<V(!new)>(binding: seq<Binding<V>>, rank: seq<nat>, value: seq<V>, q: nat, v: V, x: nat)
    requires Acyclic(binding, rank) && |value| == |binding| && q < |binding| && x < |binding|
    requires binding[x].Bound? ==> ReadsOnly(binding[x].getter, binding[x].triggers)
    requires if x == q && binding[q].Bound? then v == binding[q].getter(value) else Consistent(binding, value, x)
    ensures Consistent(binding, value[q := v], x) || (q in binding[x].Sources() && v != value[q])
  {
    if binding[x].Bound? && (q !in binding[x].Sources() || v == value[q]) {
      assert AgreeOn(binding[x].triggers, value[q := v], value);
    }
  }

  /** The value of property p by one evaluation in rank order from the unbound properties: the
      reference the depth-first propagation is compared with. */
  ghost function Evaluate<V>(binding: seq<Binding<V>>, rank: seq<nat>, source: seq<V>, p: nat): V
    requires Acyclic(binding, rank) && |source| == |binding| && p < |binding|
    decreases rank[p]
  {
    match binding[p]
    case Unbound => source[p]
    case Bound(getter, triggers) =>
      getter(seq(|binding|, i requires 0 <= i < |binding| =>
        if i in binding[p].Sources() then Evaluate(binding, rank, source, i) else source[i]))
  }

  /** Consistent values are the reference values of any source that agrees on the unbound
      properties.  Hence they do not depend on the order of the slots, nor on the rank. */
  lemma {:induction false} ConsistentIsEvaluate<V(!new)>(binding: seq<Binding<V>>, rank: seq<nat>,
                                                         source: seq<V>, value: seq<V>, p: nat)
    requires Acyclic(binding, rank) && ReadsOnlyTriggers(binding, {})
    requires |source| == |value| == |binding| && p < |binding|
    requires forall q :: 0 <= q < |binding| && binding[q].Unbound? ==> source[q] == value[q]
    requires ConsistentExcept(binding, value, {})
    ensures value[p] == Evaluate(binding, rank, source, p)
    decreases rank[p]
  {
    if binding[p].Bound? {
      var triggers := binding[p].triggers;
      assert binding[p].Sources() == triggers;
      forall t | t in triggers && t < |value|
        ensures value[t] == Evaluate(binding, rank, source, t)
      {
        ConsistentIsEvaluate(binding, rank, source, value, t);
      }
      var inputs := seq(|binding|, i requires 0 <= i < |binding| =>
        if i in binding[p].Sources() then Evaluate(binding, rank, source, i) else source[i]);
      assert AgreeOn(triggers, value, inputs);
      assert Consistent(binding, value, p);
    }
  }

  lemma SettledIsEvaluate<V(!new)>(binding: seq<Binding<V>>, rank: seq<nat>, source: seq<V>, value: seq<V>)
    requires Acyclic(binding, rank) && ReadsOnlyTriggers(binding, {})
    requires |source| == |value| == |binding| && ConsistentExcept(binding, value, {})
    requires forall q :: 0 <= q < |binding| && binding[q].Unbound? ==> source[q] == value[q]
    ensures forall p :: 0 <= p < |binding| ==> value[p] == Evaluate(binding, rank, source, p)
  {
    forall p | 0 <= p < |binding|
      ensures value[p] == Evaluate(binding, rank, source, p)
    {
      ConsistentIsEvaluate(binding, rank, source, value, p);
    }
  }

  /** In an acyclic network the unbound values determine all values, whatever ranks witness it. */
  lemma SettledUnique<V(!new)>(binding: seq<Binding<V>>, rank: seq<nat>, a: seq<V>, b: seq<V>)
    requires Acyclic(binding, rank) && ReadsOnlyTriggers(binding, {})
    requires |a| == |b| == |binding|
    requires forall q :: 0 <= q < |binding| && binding[q].Unbound? ==> a[q] == b[q]
    requires forall q :: 0 <= q < |binding| ==> Consistent(binding, a, q) && Consistent(binding, b, q)
    ensures a == b
  {
    forall p | 0 <= p < |a|
      ensures a[p] == b[p]
    {
      ConsistentIsEvaluate(binding, rank, a, a, p);
      ConsistentIsEvaluate(binding, rank, a, b, p);
    }
  }

  // ----- notifications

  // The value of p last announced, `initial` when there was none.
  function LastNotified<V>(initial: V, log: seq<Notification<V>>, p: nat): V {
    if log == [] then initial
    else if log[|log| - 1].property == p then log[|log| - 1].value
    else LastNotified(initial, log[..|log| - 1], p)
  }

  // No notification repeats the value last announced: what PropertyVerifier watches for.
  ghost predicate NoRepeats<V>(initial: seq<V>, log: seq<Notification<V>>) {
    log == [] ||
    var n, before := log[|log| - 1], log[..|log| - 1];
    && NoRepeats(initial, before)
    && (n.property < |initial| ==> n.value != LastNotified(initial[n.property], before, n.property))
  }

  class PropertySystem<V(==,!new)> {
    var value: seq<V>                  // m_value
    var previous: seq<V>               // m_previousValue
    var binding: seq<Binding<V>>       // m_getterFunction and m_connections
    var slots: seq<seq<nat>>
    var hasSignal: seq<bool>
    var log: seq<Notification<V>>
    ghost var initial: seq<V>          // the previous values before the first notification
    ghost var rank: seq<nat>
    ghost var height: nat
    ghost var unwired: set<nat>        // properties whose triggers are still being added

    // Properties without bindings, nothing notified yet.
    constructor (initialValues: seq<V>, withSignal: seq<bool>)
      requires |initialValues| == |withSignal|
      ensures Valid() && log == []
      ensures value == initialValues && hasSignal == withSignal
      ensures forall p :: 0 <= p < |binding| ==> binding[p].Unbound?
    {
      value, previous, initial, hasSignal := initialValues, initialValues, initialValues, withSignal;
      binding := seq(|initialValues|, _ => Unbound);
      slots := seq(|initialValues|, _ => []);
      rank, height, unwired := seq(|initialValues|, _ => 0), 0, {};
      log := [];
    }

    ghost function Net(): Network<V>
      reads this
    {
      Network(binding, slots, hasSignal)
    }

    // What holds at every step, also inside a propagation.
    ghost predicate Structure()
      reads this
    {
      && |value| == |previous| == |binding| == |initial|
      && |slots| == |hasSignal| == |binding| == |rank| && WellWired(Net(), rank, unwired)
      && forall p :: 0 <= p < |rank| ==> rank[p] <= height
    }

    // All properties that can notify are clean, except possibly q.
    ghost predicate CleanExcept(dirty: set<nat>)
      requires |value| == |previous| == |hasSignal|
      reads this
    {
      forall p :: 0 <= p < |value| && hasSignal[p] && p !in dirty ==> previous[p] == value[p]
    }

    ghost predicate Logged()
      requires |previous| == |initial|
      reads this
    {
      && NoRepeats(initial, log)
      && forall p :: 0 <= p < |initial| ==> previous[p] == LastNotified(initial[p], log, p)
    }

    // At rest up to the re-evaluation of `pending`.
    ghost predicate Settled(pending: set<nat>)
      reads this
    {
      && Structure() && CleanExcept({}) && Logged()
      && unwired <= pending && ConsistentExcept(binding, value, pending)
    }

    /** At rest: every bound property has its getter's value, no property is dirty, and no
        notification so far repeated a value. */
    ghost predicate Valid()
      reads this
    {
      Settled({})
    }

    // reevaluate()
    method Reevaluate(q: nat, ghost pending: set<nat>)
      requires Settled(pending + {q}) && unwired <= pending
      requires q < |binding| && binding[q].Bound?
      modifies this`value, this`previous, this`log
      ensures Settled(pending)
      ensures |value| == |old(value)| && old(log) <= log
      ensures value[q] == binding[q].getter(old(value))
      ensures forall p :: 0 <= p < |binding| && p != q && !(binding[p].Bound? && rank[p] > rank[q])
                          ==> value[p] == old(value)[p]
      decreases height - rank[q], 2
    {
      var newValue := binding[q].getter(value);
      forall x | 0 <= x < |binding| && x !in pending
        ensures Consistent(binding, value[q := newValue], x) || (newValue != value[q] && x in slots[q])
      {
        WriteKeeps(binding, rank, value, q, newValue, x);
      }
      value := value[q := newValue];
      TriggerValueChanged(q, pending);
    }

    // triggerValueChangedSignal() with synchronous notification: doTriggerChangeSignal()
    method TriggerValueChanged(q: nat, ghost pending: set<nat>)
      requires Structure() && q < |binding| && CleanExcept({q}) && Logged() && unwired <= pending
      requires forall x :: 0 <= x < |binding| && x !in pending
                           ==> Consistent(binding, value, x) || (previous[q] != value[q] && x in slots[q])
      modifies this`value, this`previous, this`log
      ensures Settled(pending)
      ensures |value| == |old(value)| && old(log) <= log
      ensures forall p :: 0 <= p < |binding| && !(binding[p].Bound? && rank[p] > rank[q])
                          ==> value[p] == old(value)[p]
      decreases height - rank[q], 1
    {
      if hasSignal[q] && previous[q] != value[q] {
        Clean(q);
        Emit(q, pending);
      }
    }

    // clean(), and the entry for the notification that follows it
    method Clean(q: nat)
      requires Structure() && q < |binding| && CleanExcept({q}) && Logged() && previous[q] != value[q]
      modifies this`previous, this`log
      ensures Structure() && CleanExcept({}) && Logged()
      ensures log == old(log) + [Notification(q, value[q])]
    {
      previous := previous[q := value[q]];
      log := log + [Notification(q, value[q])];
      assert log[..|log| - 1] == old(log);
    }

    // A slot of q re-evaluates a bound property above q.
    lemma SlotsRise(q: nat)
      requires Structure() && q < |slots|
      ensures forall x :: x in slots[q] ==>
        x < |binding| == |rank| && binding[x].Bound? && rank[q] < rank[x] <= height
    {
      forall x | x in slots[q]
        ensures x < |binding| && binding[x].Bound? && rank[q] < rank[x]
      {
        assert x in Net().slots[q];
        assert q in binding[x].Sources();
      }
    }

    // The change signal of q: runs the connected slots in order.
    method Emit(q: nat, ghost pending: set<nat>)
      requires q < |slots| && Settled(pending + Elements(slots[q])) && unwired <= pending
      modifies this`value, this`previous, this`log
      ensures Settled(pending)
      ensures |value| == |old(value)| && old(log) <= log
      ensures forall p :: 0 <= p < |binding| && !(binding[p].Bound? && rank[p] > rank[q])
                          ==> value[p] == old(value)[p]
      decreases height - rank[q], 0
    {
      SlotsRise(q);
      hide Settled;
      for i := 0 to |slots[q]|
        invariant |value| == |old(value)| && old(log) <= log
        invariant Settled(pending + Elements(slots[q][i..]))
        invariant forall p :: 0 <= p < |binding| && !(binding[p].Bound? && rank[p] > rank[q])
                              ==> value[p] == old(value)[p]
      {
        var x := slots[q][i];
        assert x in slots[q];
        ghost var later := pending + Elements(slots[q][i + 1..]);
        assert slots[q][i..] == [x] + slots[q][i + 1..];
        assert later + {x} == pending + Elements(slots[q][i..]);
        Reevaluate(x, later);
      }
    }

    // breakBinding() and doBreakBinding()
    method BreakBinding(q: nat)
      requires Structure() && q < |binding|
      modifies this`binding, this`slots
      ensures Structure()
      ensures binding == old(binding)[q := Unbound]
      ensures forall p :: 0 <= p < |slots| ==>
          slots[p] == if old(binding)[q].Bound? then Without(old(slots)[p], q) else old(slots)[p]
    {
      ghost var net := Net();
      ConnectedSources(q);
      hide WellWired;
      match binding[q]
      case Unbound =>
      case Bound(_, sources) =>
        binding := binding[q := Unbound];
        for i := 0 to |sources|
          invariant binding == old(binding)[q := Unbound] && |slots| == |old(slots)|
          invariant forall p :: 0 <= p < |slots| ==>
            slots[p] == if p in sources[..i] then Without(old(slots)[p], q) else old(slots)[p]
        {
          var p := sources[i];
          assert p in old(binding)[q].Sources();
          if p !in sources[..i] {
            slots := slots[p := Without(slots[p], q)];
          }
          assert sources[..i + 1] == sources[..i] + [p];
        }
        assert sources[..|sources|] == sources;
        forall p | 0 <= p < |slots|
          ensures slots[p] == Without(old(slots)[p], q)
        {
          if p !in sources {
            WithoutAbsent(slots[p], q);
          }
        }
        BindingBroken(net, rank, unwired, q, slots);
    }

    // Exactly the sources of q have a slot of q.
    lemma ConnectedSources(q: nat)
      requires Structure() && q < |binding|
      ensures forall p :: p in binding[q].Sources() ==> p < |slots| && q in slots[p]
      ensures forall p :: 0 <= p < |slots| && q in slots[p] ==> p in binding[q].Sources()
    {
      forall p | 0 <= p < |slots| && q in slots[p]
        ensures p in binding[q].Sources()
      {
        assert q in Net().slots[p];
      }
      forall p | p in binding[q].Sources()
        ensures p < |slots| && q in slots[p]
      {
        assert p in Net().binding[q].Sources();
      }
    }

    /** setValue(): breaks the binding, writes and propagates.  The outcome is the evaluation in
        rank order, although properties may pass through intermediate values. */
    method SetValue(q: nat, v: V)
      requires Valid() && q < |binding|
      modifies this`value, this`previous, this`log, this`binding, this`slots
      ensures Valid() && old(log) <= log
      ensures binding == old(binding)[q := Unbound]
      ensures |value| == |old(value)| && value[q] == v
      ensures forall p :: 0 <= p < |binding| ==>
                value[p] == Evaluate(binding, rank, old(value)[q := v], p)
    {
      BreakBinding(q);
      assert forall x :: 0 <= x < |binding| && Consistent(old(binding), value, x) ==> Consistent(binding, value, x);
      ghost var written := value[q := v];
      forall x | 0 <= x < |binding|
        ensures Consistent(binding, written, x) || (previous[q] != v && x in slots[q])
      {
        WriteKeeps(binding, rank, value, q, v, x);
        assert q in binding[x].Sources() ==> x in Net().slots[q];
      }
      value := value[q := v];
      assert value == written;
      TriggerValueChanged(q, {});
      SettledIsEvaluate(binding, rank, old(value)[q := v], value);
    }

    // addTrigger()
    method AddTrigger(q: nat, t: nat)
      requires Structure() && q < |binding| && binding[q].Bound?
      requires t < |binding| && rank[t] < rank[q] && hasSignal[t]
      modifies this`binding, this`slots
      ensures Structure()
      ensures binding == old(binding)[q := Bound(old(binding)[q].getter, old(binding)[q].triggers + [t])]
      ensures slots == old(slots)[t := old(slots)[t] + [q]]
    {
      TriggerAdded(Net(), rank, unwired, q, t);
      hide WellWired;
      binding := binding[q := Bound(binding[q].getter, binding[q].triggers + [t])];
      slots := slots[t := slots[t] + [q]];
    }

    // addTrigger(t0).addTrigger(t1)...
    method AddTriggers(q: nat, triggers: seq<nat>)
      requires Structure() && q < |binding| && binding[q].Bound? && binding[q].triggers == []
      requires forall t :: t in triggers ==> t < |binding| && rank[t] < rank[q] && hasSignal[t]
      requires q in unwired
      modifies this`binding, this`slots
      ensures Structure()
      ensures binding == old(binding)[q := Bound(old(binding)[q].getter, triggers)]
    {
      for i := 0 to |triggers|
        invariant Structure()
        invariant binding == old(binding)[q := Bound(old(binding)[q].getter, triggers[..i])]
      {
        assert triggers[i] in triggers;
        assert triggers[..i + 1] == triggers[..i] + [triggers[i]];
        AddTrigger(q, triggers[i]);
      }
      assert triggers[..|triggers|] == triggers;
    }

    // bind(getter) up to the first addTrigger(): the property is evaluated before it is connected
    method BindGetter(q: nat, getter: seq<V> -> V, ghost newRank: seq<nat>, ghost newHeight: nat)
      requires Valid() && q < |binding|
      requires Acyclic(binding[q := Unbound], newRank)
      requires forall p :: 0 <= p < |newRank| ==> newRank[p] <= newHeight
      modifies this
      ensures Settled({q}) && unwired == {q} && old(log) <= log
      ensures binding == old(binding)[q := Bound(getter, [])] && rank == newRank
      ensures hasSignal == old(hasSignal) && initial == old(initial)
      ensures |value| == |old(value)| && value[q] == getter(old(value))
      ensures forall p :: 0 <= p < |binding| && p != q && !(binding[p].Bound? && rank[p] > rank[q])
                          ==> value[p] == old(value)[p]
    {
      BreakBinding(q);
      GetterBound(Net(), rank, q, getter, newRank);
      hide WellWired, Acyclic;
      rank, height, unwired := newRank, newHeight, {q};
      binding := binding[q := Bound(getter, [])];
      assert forall x :: 0 <= x < |binding| && x != q && Consistent(old(binding), value, x) ==>
          Consistent(binding, value, x);
      Reevaluate(q, {q});
    }

    /** bind(getter).addTrigger(t0).addTrigger(t1)...  `newRank` witnesses that the new binding
        graph has no cycle. */
    method Bind(q: nat, getter: seq<V> -> V, triggers: seq<nat>, ghost newRank: seq<nat>, ghost newHeight: nat)
      requires Valid() && q < |binding|
      requires ReadsOnly(getter, triggers)
      requires Acyclic(binding[q := Bound(getter, triggers)], newRank)
      requires forall p :: 0 <= p < |newRank| ==> newRank[p] <= newHeight
      requires forall t :: t in triggers ==> t < |hasSignal| && hasSignal[t]
      modifies this
      ensures Valid() && old(log) <= log
      ensures binding == old(binding)[q := Bound(getter, triggers)] && rank == newRank
      ensures hasSignal == old(hasSignal) && initial == old(initial)
      ensures |value| == |old(value)|
      ensures forall p :: 0 <= p < |binding| ==> value[p] == Evaluate(binding, rank, old(value), p)
    {
      ghost var target := binding[q := Bound(getter, triggers)];
      RanksFit(binding, newRank, q, getter, triggers);
      hide Acyclic, Connected, Consistent, NoRepeats, LastNotified, Evaluate;
      BindGetter(q, getter, newRank, newHeight);
      assert AgreeOn(triggers, value, old(value));
      label evaluated:
      AddTriggers(q, triggers);
      assert binding == target;
      unwired := {};
      BoundConsistent(old@evaluated(binding), binding, value, old(value), q);
      SettledIsEvaluate(binding, rank, old(value), value);
    }
  }
}
