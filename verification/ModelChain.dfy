/**
 Chains of bound list models: src/model/ModelBase.cpp and src/model/ModelProperty.h.

 When several models are bound to one, they do not affect each other: every path of the tree is a
 chain.
 */
module ModelChain {

  import opened Wrappers

  // The fields of a ModelBase, how often it emitted elementCountChanged, and its other signals.
  datatype Model = Model(
    size: int,
    pendingSize: int,
    previousElementCount: int,
    resetting: bool,
    countChanges: nat,
    emitted: seq<Signal>)

  const NEW_MODEL := Model(0, -1, 0, false, 0, [])

  datatype Signal =
    | BeginInsert(first: int, last: int) | EndInsert
    | BeginRemove(first: int, last: int) | EndRemove
    | BeginMove(sourceFirst: int, sourceLast: int, destination: int) | EndMove
    | BeginReset | EndReset
    | DataChanged(first: int, last: int)

  function ApplyNewSize(m: Model): Model {
    m.(size := m.pendingSize, pendingSize := -1)
  }

  function OnModelChanged(m: Model): Model {
    if m.previousElementCount == m.size then m
    else m.(previousElementCount := m.size, countChanges := m.countChanges + 1)
  }

  // A model emits a signal.
  function React(m: Model, s: Signal): Model {
    RunSlots(m.(emitted := m.emitted + [s]), s)
  }

  // The slots the constructor connects to a model's own signals, in order.
  function RunSlots(m: Model, s: Signal): Model {
    match s
    case BeginInsert(first, last) => m.(pendingSize := m.size + last - first + 1)
    case BeginRemove(first, last) => m.(pendingSize := m.size - last + first - 1)
    case EndInsert => OnModelChanged(ApplyNewSize(m))
    case EndRemove => OnModelChanged(ApplyNewSize(m))
    case BeginReset => m.(resetting := true)
    case EndReset => OnModelChanged(m.(resetting := false))
    case BeginMove(_, _, _) => m
    case EndMove => m
    case DataChanged(_, _) => m
  }

  /** Model k emits a signal.  Model k + 1 is bound to model k: it takes over the size at the end of
      a reset and then emits the same signal. */
  function Emit(models: seq<Model>, k: nat, s: Signal): (r: seq<Model>)
    requires k < |models|
    ensures |r| == |models|
    decreases |models| - k
  {
    var reacted := models[k := React(models[k], s)];
    if k + 1 == |models| then reacted
    else
      var resized := if s.EndReset? then reacted[k + 1 := reacted[k + 1].(size := reacted[k].size)] else reacted;
      Emit(resized, k + 1, s)
  }

  /** A signal reaches every model of the chain once; at the end of a reset all take the size of
      the emitting one. */
  lemma {:induction false} EmitReachesAll(models: seq<Model>, k: nat, s: Signal, j: nat)
    requires k < |models| && j < |models|
    ensures Emit(models, k, s)[j] ==
      if j < k then models[j]
      else if s.EndReset? then React(models[j].(size := models[k].size), s)
      else React(models[j], s)
    decreases |models| - k
  {
    var reacted := models[k := React(models[k], s)];
    if k + 1 < |models| {
      var resized := if s.EndReset? then reacted[k + 1 := reacted[k + 1].(size := reacted[k].size)] else reacted;
      EmitReachesAll(resized, k + 1, s, j);
    }
  }

  lemma ResetReachesAll(models: seq<Model>, k: nat, j: nat)
    requires k <= j < |models|
    ensures Emit(models, k, EndReset)[j].size == models[k].size
  {
    EmitReachesAll(models, k, EndReset, j);
  }

  class ModelBase {
    var m_size: int
    var m_pendingSize: int
    var m_previousElementCount: int
    var m_resettingModel: bool
    var countChanges: nat
    var emitted: seq<Signal>

    ghost function State(): Model
      reads this
    {
      Model(m_size, m_pendingSize, m_previousElementCount, m_resettingModel, countChanges, emitted)
    }

    constructor ()
      ensures State() == NEW_MODEL
    {
      m_size, m_pendingSize, m_previousElementCount, m_resettingModel, countChanges := 0, -1, 0, false, 0;
      emitted := [];
    }

    method Notify()
      modifies this
      ensures State() == OnModelChanged(old(State()))
    {
      if m_previousElementCount != m_size {
        m_previousElementCount := m_size;
        countChanges := countChanges + 1;
      }
    }

    method Receive(s: Signal)
      modifies this
      ensures State() == React(old(State()), s)
    {
      emitted := emitted + [s];
      match s
      case BeginInsert(first, last) => m_pendingSize := m_size + last - first + 1;
      case BeginRemove(first, last) => m_pendingSize := m_size - last + first - 1;
      case EndInsert => m_size, m_pendingSize := m_pendingSize, -1; Notify();
      case EndRemove => m_size, m_pendingSize := m_pendingSize, -1; Notify();
      case BeginReset => m_resettingModel := true;
      case EndReset => m_resettingModel := false; Notify();
      case BeginMove(_, _, _) =>
      case EndMove =>
      case DataChanged(_, _) =>
    }
  }

  ghost function States(models: seq<ModelBase>): (r: seq<Model>)
    reads models
    ensures |r| == |models|
  {
    seq(|models|, i requires 0 <= i < |models| reads models => models[i].State())
  }

  ghost predicate Separate(models: seq<ModelBase>) {
    forall i, j :: 0 <= i < j < |models| ==> models[i] != models[j]
  }

  // A signal of the first model runs down the chain.
  method EmitFrom(models: seq<ModelBase>, s: Signal)
    requires models != [] && Separate(models)
    modifies models
    ensures States(models) == Emit(old(States(models)), 0, s)
  {
    ghost var before := States(models);
    ghost var after := Emit(before, 0, s);
    hide Emit, React;
    for k := 0 to |models|
      invariant forall j :: 0 <= j < k ==> models[j].State() == after[j]
      invariant forall j :: k <= j < |models| ==> models[j].State() == before[j]
    {
      EmitReachesAll(before, 0, s, k);
      ResetReachesAll(before, 0, if k > 0 then k - 1 else 0);
      if k > 0 && s.EndReset? {
        models[k].m_size := models[k - 1].m_size;
      }
      models[k].Receive(s);
    }
  }

  /** bind(): `models` is a chain with the bound model in front, `target` the model it is bound to.
      The bound model takes over the target's size in a reset, which runs down its own chain. */
  method BindTo(models: seq<ModelBase>, target: ModelBase)
    requires models != [] && Separate(models) && target !in models
    modifies models
    ensures States(models) == Perform(old(States(models)), Replacement(target.m_size))
  {
    EmitFrom(models, BeginReset);
    ghost var begun := States(models);
    models[0].m_size := target.m_size;
    assert States(models) == begun[0 := begun[0].(size := target.m_size)];
    EmitFrom(models, EndReset);
  }

  // ----- edits of the first model's list, and the chain at rest

  datatype Edit =
    | Insertion(first: int, last: int)
    | Removal(first: int, last: int)
    | Relocation(sourceFirst: int, sourceLast: int, destination: int)
    | Replacement(size: int)
    | Change(first: int, last: int)

  function NewSize(size: int, e: Edit): int {
    match e
    case Insertion(first, last) => size + last - first + 1
    case Removal(first, last) => size - last + first - 1
    case Relocation(_, _, _) => size
    case Replacement(newSize) => newSize
    case Change(_, _) => size
  }

  // The signals an edit is framed by.
  function SignalsOf(e: Edit): seq<Signal> {
    match e
    case Insertion(first, last) => [BeginInsert(first, last), EndInsert]
    case Removal(first, last) => [BeginRemove(first, last), EndRemove]
    case Relocation(first, last, destination) => [BeginMove(first, last, destination), EndMove]
    case Replacement(_) => [BeginReset, EndReset]
    case Change(first, last) => [DataChanged(first, last)]
  }

  // The begin signal, reset() in case of a replacement, and the end signal.
  function Perform(models: seq<Model>, e: Edit): (r: seq<Model>)
    requires models != []
    ensures |r| == |models|
  {
    match e
    case Insertion(first, last) => Emit(Emit(models, 0, BeginInsert(first, last)), 0, EndInsert)
    case Removal(first, last) => Emit(Emit(models, 0, BeginRemove(first, last)), 0, EndRemove)
    case Relocation(first, last, destination) => Emit(Emit(models, 0, BeginMove(first, last, destination)), 0, EndMove)
    case Replacement(size) =>
      var begun := Emit(models, 0, BeginReset);
      Emit(begun[0 := begun[0].(size := size)], 0, EndReset)
    case Change(first, last) => Emit(models, 0, DataChanged(first, last))
  }

  /** bind(): the first model of a chain is bound to the last one of another.  It takes over that
      model's size in a reset of its own, which runs down the joined chain behind it. */
  function Bind(models: seq<Model>, followers: seq<Model>): (r: seq<Model>)
    requires models != [] && followers != []
    ensures |r| == |models| + |followers|
  {
    var n := |models|;
    var begun := Emit(models + followers, n, BeginReset);
    Emit(begun[n := begun[n].(size := models[n - 1].size)], n, EndReset)
  }

  // All models have the same size, none waits for an end signal, and all reported their size.
  ghost predicate AtRest(models: seq<Model>, size: int) {
    forall k :: 0 <= k < |models| ==>
      models[k].size == models[k].previousElementCount == size && models[k].pendingSize == -1 && !models[k].resetting
  }

  /** An edit takes a chain at rest to a chain at rest with the new size; each model emits the signals
      of the edit in order, and elementCountChanged once if the size is new and not otherwise. */
  lemma EditKeepsRest(models: seq<Model>, size: int, e: Edit)
    requires models != [] && AtRest(models, size)
    ensures AtRest(Perform(models, e), NewSize(size, e))
    ensures forall k :: 0 <= k < |models| ==>
      && Perform(models, e)[k].countChanges == models[k].countChanges + (if NewSize(size, e) != size then 1 else 0)
      && Perform(models, e)[k].emitted == models[k].emitted + SignalsOf(e)
  {
    forall k | 0 <= k < |models|
      ensures Perform(models, e)[k] ==
        Model(NewSize(size, e), -1, NewSize(size, e), false,
              models[k].countChanges + (if NewSize(size, e) != size then 1 else 0), models[k].emitted + SignalsOf(e))
    {
      match e
      case Insertion(first, last) =>
        EmitReachesAll(models, 0, BeginInsert(first, last), k);
        EmitReachesAll(Emit(models, 0, BeginInsert(first, last)), 0, EndInsert, k);
      case Removal(first, last) =>
        EmitReachesAll(models, 0, BeginRemove(first, last), k);
        EmitReachesAll(Emit(models, 0, BeginRemove(first, last)), 0, EndRemove, k);
      case Relocation(first, last, destination) =>
        EmitReachesAll(models, 0, BeginMove(first, last, destination), k);
        EmitReachesAll(Emit(models, 0, BeginMove(first, last, destination)), 0, EndMove, k);
      case Replacement(newSize) =>
        var begun := Emit(models, 0, BeginReset);
        EmitReachesAll(models, 0, BeginReset, k);
        EmitReachesAll(begun[0 := begun[0].(size := newSize)], 0, EndReset, k);
      case Change(first, last) =>
        EmitReachesAll(models, 0, DataChanged(first, last), k);
    }
  }

  /** Binding joins two chains at rest to one with the size of the front one: nothing happens in
      front, and each model behind emits elementCountChanged once if the size is new to it. */
  lemma BindKeepsRest(models: seq<Model>, size: int, followers: seq<Model>, oldSize: int)
    requires models != [] && AtRest(models, size) && followers != [] && AtRest(followers, oldSize)
    ensures AtRest(Bind(models, followers), size)
    ensures forall k :: 0 <= k < |models| ==> Bind(models, followers)[k] == models[k]
    ensures forall k :: 0 <= k < |followers| ==>
      var m, m' := followers[k], Bind(models, followers)[|models| + k];
      m'.countChanges == m.countChanges + (if size != oldSize then 1 else 0)
      && m'.emitted == m.emitted + [BeginReset, EndReset]
  {
    var n := |models|;
    forall k | 0 <= k < n
      ensures Bind(models, followers)[k] == models[k]
    {
      BoundModel(models, size, followers, oldSize, k);
    }
    forall k | 0 <= k < |followers|
      ensures Bind(models, followers)[n + k] == Rebound(followers[k], size, oldSize)
    {
      BoundModel(models, size, followers, oldSize, n + k);
      assert (n + k) - n == k;
    }
    hide Bind, Emit;
    forall k | 0 <= k < n + |followers|
      ensures Bind(models, followers)[k].size == Bind(models, followers)[k].previousElementCount == size
      ensures Bind(models, followers)[k].pendingSize == -1 && !Bind(models, followers)[k].resetting
    {
      assert k >= n ==> Bind(models, followers)[n + (k - n)] == Rebound(followers[k - n], size, oldSize);
    }
  }

  // A model at rest after a reset to another size.
  function Rebound(m: Model, size: int, oldSize: int): Model {
    Model(size, -1, size, false, m.countChanges + (if size != oldSize then 1 else 0),
          m.emitted + [BeginReset, EndReset])
  }

  lemma BoundModel(models: seq<Model>, size: int, followers: seq<Model>, oldSize: int, k: nat)
    requires models != [] && AtRest(models, size) && followers != [] && AtRest(followers, oldSize)
    requires k < |models| + |followers|
    ensures Bind(models, followers)[k]
            == if k < |models| then models[k] else Rebound(followers[k - |models|], size, oldSize)
  {
    var n, joined := |models|, models + followers;
    var begun := Emit(joined, n, BeginReset);
    EmitReachesAll(joined, n, BeginReset, k);
    EmitReachesAll(joined, n, BeginReset, n);
    EmitReachesAll(begun[n := begun[n].(size := models[n - 1].size)], n, EndReset, k);
    hide Emit;
  }

  /** So binding to a chain is, for the chain that is bound, a replacement of its list. */
  lemma BindIsReplacement(models: seq<Model>, followers: seq<Model>)
    requires models != [] && followers != []
    ensures Bind(models, followers) == models + Perform(followers, Replacement(models[|models| - 1].size))
  {
    var n, size := |models|, models[|models| - 1].size;
    var joined := models + followers;
    var begun, begun' := Emit(joined, n, BeginReset), Emit(followers, 0, BeginReset);
    forall k | 0 <= k < |joined|
      ensures Bind(models, followers)[k] == (models + Perform(followers, Replacement(size)))[k]
    {
      EmitReachesAll(joined, n, BeginReset, k);
      EmitReachesAll(joined, n, BeginReset, n);
      EmitReachesAll(begun[n := begun[n].(size := size)], n, EndReset, k);
      if k >= n {
        EmitReachesAll(followers, 0, BeginReset, k - n);
        EmitReachesAll(followers, 0, BeginReset, 0);
        EmitReachesAll(begun'[0 := begun'[0].(size := size)], 0, EndReset, k - n);
      }
    }
  }

  // What happens to a chain: an edit of its first list, a chain bound to its last model, or its
  // first model bound to the last one of a chain.
  datatype Step =
    | Edited(edit: Edit)
    | Extended(followers: seq<Model>, oldSize: int)
    | Bound(sources: seq<Model>, newSize: int)
  {
    ghost predicate Possible() {
      match this
      case Edited(_) => true
      case Extended(followers, oldSize) => followers != [] && AtRest(followers, oldSize)
      case Bound(sources, newSize) => sources != [] && AtRest(sources, newSize)
    }
  }

  ghost function Next(models: seq<Model>, step: Step): (r: seq<Model>)
    requires models != [] && step.Possible()
    ensures r != []
  {
    match step
    case Edited(edit) => Perform(models, edit)
    case Extended(followers, _) => Bind(models, followers)
    case Bound(sources, _) => Bind(sources, models)
  }

  function SizeAfter(size: int, step: Step): int {
    match step
    case Edited(edit) => NewSize(size, edit)
    case Extended(_, _) => size
    case Bound(_, newSize) => newSize
  }

  ghost function Run(models: seq<Model>, steps: seq<Step>): (r: seq<Model>)
    requires models != [] && forall step :: step in steps ==> step.Possible()
    ensures r != []
    decreases |steps|
  {
    if steps == [] then models else Run(Next(models, steps[0]), steps[1..])
  }

  function FinalSize(size: int, steps: seq<Step>): int
    decreases |steps|
  {
    if steps == [] then size else FinalSize(SizeAfter(size, steps[0]), steps[1..])
  }

  // elementAt() of model k; None where one of its assertions fails.
  function ElementAt<T>(models: seq<Model>, list: int -> T, k: nat, index: int): Option<T>
    requires k < |models|
  {
    if models[k].resetting || index >= models[k].size then None
    else if k == 0 then Some(list(index))
    else ElementAt(models, list, k - 1, index)
  }

  lemma {:induction false} ElementsAgree<T>(models: seq<Model>, size: int, list: int -> T, k: nat, index: int)
    requires k < |models| && AtRest(models, size)
    ensures ElementAt(models, list, k, index) == ElementAt(models, list, 0, index)
    ensures ElementAt(models, list, k, index) == if index < size then Some(list(index)) else None
  {
    if k > 0 {
      ElementsAgree(models, size, list, k - 1, index);
    }
  }

  /** Between the begin and end signals of an edit all models still have the old size; during an
      insertion or removal the new one is pending, and during a reset no element may be asked for. */
  lemma DuringEdit<T>(models: seq<Model>, size: int, e: Edit, list: int -> T, k: nat, index: int)
    requires k < |models| && AtRest(models, size) && !e.Change?
    ensures var begun := Emit(models, 0, SignalsOf(e)[0]);
            && begun[k].size == size && begun[k].countChanges == models[k].countChanges
            && begun[k].pendingSize == (if e.Insertion? || e.Removal? then NewSize(size, e) else -1)
            && (e.Replacement? ==> ElementAt(begun, list, k, index) == None)
  {
    EmitReachesAll(models, 0, SignalsOf(e)[0], k);
  }

  /** Bound chains: after any run of edits and bindings of chains at rest, such as single new models,
      in any order, all models have the size of the first, none is in the middle of an edit, and
      elementAt() of all gives the element of the first. */
  lemma {:induction false} ChainAgrees<T>(models: seq<Model>, size: int, steps: seq<Step>, list: int -> T)
    requires models != [] && AtRest(models, size) && forall step :: step in steps ==> step.Possible()
    ensures var r := Run(models, steps);
            && AtRest(r, FinalSize(size, steps))
            && forall k, index :: 0 <= k < |r| ==> ElementAt(r, list, k, index) == ElementAt(r, list, 0, index)
    decreases |steps|
  {
    if steps == [] {
      forall k, index | 0 <= k < |models|
        ensures ElementAt(models, list, k, index) == ElementAt(models, list, 0, index)
      {
        ElementsAgree(models, size, list, k, index);
      }
    } else {
      assert steps[0] in steps;
      match steps[0] {
        case Edited(e) => EditKeepsRest(models, size, e);
        case Extended(followers, oldSize) => BindKeepsRest(models, size, followers, oldSize);
        case Bound(sources, newSize) => BindKeepsRest(sources, newSize, models, size);
      }
      ChainAgrees(Next(models, steps[0]), SizeAfter(size, steps[0]), steps[1..], list);
    }
  }
}
