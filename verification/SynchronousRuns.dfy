/**
 Runs of a proxy that makes blocking requests.  A blocking reply overtakes the events and prefetch
 replies on their way to the proxy: the items it brings run ahead of them, and agree with the
 server's list again once they are handled; the size that a snapshot brings need not.
 */
module SynchronousRuns {

  import opened Wrappers
  import opened RecentlyUsed
  import opened RemoteModel
  import opened RemoteModelRuns

  // ----- one row: what becomes of a cached item on its way through an inbox

  function Pass<T>(cached: Option<T>, m: Message<T>, x: int): Option<T> {
    match m
    case ReplyMessage(first, items, _) =>
      if first <= x < first + |items| then Some(items[x - first]) else cached
    case EventMessage(event, _) =>
      if event.DataChanged? then
        if event.first <= x < event.first + |event.items| then Some(event.items[x - event.first]) else cached
      else None
  }

  function PassAll<T>(cached: Option<T>, inbox: seq<Message<T>>, x: int): Option<T>
    decreases |inbox|
  {
    if inbox == [] then cached else PassAll(Pass(cached, inbox[0], x), inbox[1..], x)
  }

  lemma {:induction false} PassAllAppend<T>(cached: Option<T>, inbox: seq<Message<T>>, m: Message<T>, x: int)
    ensures PassAll(cached, inbox + [m], x) == Pass(PassAll(cached, inbox, x), m, x)
    decreases |inbox|
  {
    if inbox == [] {
      assert (inbox + [m])[1..] == [];
    } else {
      assert (inbox + [m])[1..] == inbox[1..] + [m];
      PassAllAppend(Pass(cached, inbox[0], x), inbox[1..], m, x);
    }
  }

  // What an inbox does to a row does not depend on its item, unless it does nothing.
  lemma {:induction false} PassAllEither<T>(a: Option<T>, b: Option<T>, inbox: seq<Message<T>>, x: int)
    ensures PassAll(a, inbox, x) == PassAll(b, inbox, x) || (PassAll(a, inbox, x) == a && PassAll(b, inbox, x) == b)
    decreases |inbox|
  {
    if inbox != [] {
      PassAllEither(Pass(a, inbox[0], x), Pass(b, inbox[0], x), inbox[1..], x);
    }
  }

  predicate Right<T(==)>(cached: Option<T>, list: seq<T>, x: int) {
    cached.Some? ==> 0 <= x < |list| && cached.value == list[x]
  }

  function Cached<T(==)>(p: Proxy<T>, x: int): Option<T> {
    if Has(p.cache, x) then Some(Lookup(p.cache, x)) else None
  }

  function ItemAt<T>(list: seq<T>, x: int): Option<T> {
    if 0 <= x < |list| then Some(list[x]) else None
  }

  /** What is cached for row x, nothing, and the server's item all become the server's item or nothing
      on their way through the inbox. */
  ghost predicate RowSettles<T>(p: Proxy<T>, inbox: seq<Message<T>>, list: seq<T>, x: int) {
    && Right(PassAll(Cached(p, x), inbox, x), list, x)
    && Right(PassAll(None, inbox, x), list, x)
    && Right(PassAll(ItemAt(list, x), inbox, x), list, x)
  }

  ghost predicate Settles<T>(s: System<T>) {
    && Stream(s.view, s.inbox, s.list)
    && DistinctKeys(s.proxy.cache)
    && forall x :: RowSettles(s.proxy, s.inbox, s.list, x)
  }

  // ----- the size: what becomes of it on its way through an inbox

  function SizeStep<T>(size: int, m: Message<T>): int {
    match m
    case ReplyMessage(_, _, _) => size
    case EventMessage(event, _) =>
      match event
      case DataChanged(_, _) => size
      case Insert(first, last) => size + last - first + 1
      case Remove(first, last) => size - last + first - 1
      case Move(_, _, _) => size
      case Reset(newSize) => newSize
  }

  function SizeAfter<T>(size: int, inbox: seq<Message<T>>): int
    decreases |inbox|
  {
    if inbox == [] then size else SizeAfter(SizeStep(size, inbox[0]), inbox[1..])
  }

  predicate IsReset<T>(m: Message<T>) {
    m.EventMessage? && m.event.Reset?
  }

  predicate HasReset<T>(inbox: seq<Message<T>>) {
    exists k :: 0 <= k < |inbox| && IsReset(inbox[k])
  }

  lemma HandleSize<T>(p: Proxy<T>, m: Message<T>)
    ensures Handle(p, m).size == SizeStep(p.size, m)
  {
    if m.ReplyMessage? {
      HandleReplyFinds(p, m.first, m.items, 0);
    }
  }

  lemma {:induction false} SizeAfterAppend<T>(size: int, inbox: seq<Message<T>>, m: Message<T>)
    ensures SizeAfter(size, inbox + [m]) == SizeStep(SizeAfter(size, inbox), m)
    decreases |inbox|
  {
    if inbox == [] {
      assert (inbox + [m])[1..] == [];
    } else {
      assert (inbox + [m])[1..] == inbox[1..] + [m];
      SizeAfterAppend(SizeStep(size, inbox[0]), inbox[1..], m);
    }
  }

  /** An inbox keeps the difference between a size and the length of the list it starts from, unless
      it holds a reset. */
  lemma {:induction false} SizeAfterStream<T>(size: int, from: seq<T>, inbox: seq<Message<T>>, to: seq<T>)
    requires Stream(from, inbox, to)
    ensures SizeAfter(size, inbox) - |to| == if HasReset(inbox) then 0 else size - |from|
    decreases |inbox|
  {
    if inbox != [] {
      var m, rest := inbox[0], inbox[1..];
      SizeAfterStream(SizeStep(size, m), m.at, rest, to);
      assert SizeStep(size, m) - |m.at| == if IsReset(m) then 0 else size - |from|;
      hide Faithful, SizeStep;
      assert HasReset(inbox) <==> IsReset(m) || HasReset(rest) by {
        if k :| 0 <= k < |inbox| && IsReset(inbox[k]) {
          assert k > 0 ==> IsReset(rest[k - 1]);
        }
        if k :| 0 <= k < |rest| && IsReset(rest[k]) {
          assert IsReset(inbox[k + 1]);
        }
      }
    }
  }

  // By how much the size will be wrong once the inbox is handled.
  function SizeError<T>(s: System<T>): int {
    SizeAfter(s.proxy.size, s.inbox) - |s.list|
  }

  // ----- what one message does to the cache

  lemma HandlePasses<T>(p: Proxy<T>, m: Message<T>, x: int)
    ensures Cached(Handle(p, m), x) == None || Cached(Handle(p, m), x) == Pass(Cached(p, x), m, x)
    ensures DistinctKeys(p.cache) ==> DistinctKeys(Handle(p, m).cache)
  {
    match m
    case ReplyMessage(first, items, _) => HandleReplyFinds(p, first, items, x);
    case EventMessage(event, _) =>
      if event.DataChanged? {
        PutAllFinds(p.cache, event.first, event.items, x);
        if DistinctKeys(p.cache) {
          PutAllDistinct(p.cache, event.first, event.items);
        }
      }
  }

  lemma FaithfulPasses<T>(before: seq<T>, m: Message<T>, cached: Option<T>, x: int)
    requires Faithful(before, m) && Right(cached, before, x)
    ensures Right(Pass(cached, m, x), m.at, x)
    ensures Pass(None, m, x).Some? || Pass(cached, m, x) == cached || Pass(cached, m, x) == None
  {
  }

  // ----- steps

  // A message sent by the server
  lemma RowSettlesSent<T>(p: Proxy<T>, inbox: seq<Message<T>>, list: seq<T>, m: Message<T>, x: int)
    requires RowSettles(p, inbox, list, x) && Faithful(list, m)
    ensures RowSettles(p, inbox + [m], m.at, x)
  {
    PassAllAppend(Cached(p, x), inbox, m, x);
    PassAllAppend(None, inbox, m, x);
    PassAllAppend(ItemAt(m.at, x), inbox, m, x);
    PassAllEither(ItemAt(m.at, x), ItemAt(list, x), inbox, x);
    hide PassAll;
    FaithfulPasses(list, m, PassAll(Cached(p, x), inbox, x), x);
    FaithfulPasses(list, m, PassAll(None, inbox, x), x);
    FaithfulPasses(list, m, PassAll(ItemAt(list, x), inbox, x), x);
    hide Faithful;
  }

  // A message handled by the proxy
  lemma RowSettlesHandled<T>(p: Proxy<T>, inbox: seq<Message<T>>, list: seq<T>, x: int)
    requires inbox != [] && RowSettles(p, inbox, list, x)
    ensures RowSettles(Handle(p, inbox[0]), inbox[1..], list, x)
  {
    var m, rest := inbox[0], inbox[1..];
    HandlePasses(p, m, x);
    PassAllEither(None, Pass(Cached(p, x), m, x), rest, x);
    PassAllEither(None, Pass(None, m, x), rest, x);
    PassAllEither(ItemAt(list, x), Pass(ItemAt(list, x), m, x), rest, x);
  }

  // Fetching a row caches nothing but the server's items.
  lemma FetchCaches<T>(p: Proxy<T>, row: int, synchronous: bool, list: seq<T>, x: int)
    ensures var p' := Fetch(p, row, synchronous, list);
            && p'.size == p.size
            && (Cached(p', x) == None || Cached(p', x) == Cached(p, x) || Cached(p', x) == ItemAt(list, x))
            && (DistinctKeys(p.cache) ==> DistinctKeys(p'.cache))
  {
    if !Has(p.cache, row) && synchronous {
      var window := SyncWindow(p, row);
      var reply := Serve(list, window.0, window.1);
      hide SyncWindow, PutAll;
      PutAllFinds(p.cache, reply.0, reply.1, x);
      if DistinctKeys(p.cache) {
        PutAllDistinct(p.cache, reply.0, reply.1);
      }
    }
  }

  // Reading a row, with or without a blocking request
  lemma ReadCaches<T>(p: Proxy<T>, row: int, synchronous: bool, list: seq<T>, x: int)
    ensures var p' := ModelData(p, row, synchronous, list).0;
            && p'.size == p.size
            && (Cached(p', x) == None || Cached(p', x) == Cached(p, x) || Cached(p', x) == ItemAt(list, x))
            && (DistinctKeys(p.cache) ==> DistinctKeys(p'.cache))
  {
    hide Fetch, WindowAround, Touch;
    FetchCaches(p, row, synchronous, list, x);
    var p1 := Prefetch(Fetch(p, row, synchronous, list), row);
    assert p1.cache == Fetch(p, row, synchronous, list).cache && p1.size == p.size;
    hide Prefetch;
    if Has(p1.cache, row) {
      TouchFinds(p1.cache, row, x);
    }
  }

  // ----- runs

  datatype SyncStep<T> =
    | Async(step: Step<T>)
    | BlockingAsk(row: int)      // a view asks a synchronous proxy for a row
    | BlockingSnapshot           // a blocking GetAllProperties: the size is reset, the cache is kept
  {
    predicate Resets() {
      Async? && step.Perform? && step.edit.ResetItems?
    }
  }

  predicate SyncEnabled<T(==)>(s: System<T>, step: SyncStep<T>) {
    match step
    case Async(step) => Enabled(s, step)
    case BlockingAsk(row) => 0 <= row < s.proxy.size
    case BlockingSnapshot => true
  }

  function SyncNext<T(==)>(s: System<T>, step: SyncStep<T>): System<T>
    requires SyncEnabled(s, step)
  {
    match step
    case Async(step) => Next(s, step)
    case BlockingAsk(row) => s.(proxy := ModelData(s.proxy, row, true, s.list).0)
    case BlockingSnapshot => s.(proxy := s.proxy.(size := |s.list|, told := s.proxy.told + [WasReset]))
  }

  // What a step makes of the size error.
  function ErrorAfter<T(==)>(s: System<T>, step: SyncStep<T>): int {
    if step.Resets() then 0
    else if step.BlockingSnapshot? then if HasReset(s.inbox) then 0 else |s.list| - |s.view|
    else SizeError(s)
  }

  lemma StepSettles<T>(s: System<T>, step: SyncStep<T>)
    requires Settles(s) && SyncEnabled(s, step)
    ensures Settles(SyncNext(s, step)) && SizeError(SyncNext(s, step)) == ErrorAfter(s, step)
  {
    hide RowSettles, SizeStep;
    match step
    case BlockingSnapshot =>
      SizeAfterStream(|s.list|, s.view, s.inbox, s.list);
      forall x
        ensures RowSettles(SyncNext(s, step).proxy, s.inbox, s.list, x)
      {
        SameCacheSettles(s.proxy, SyncNext(s, step).proxy, s.inbox, s.list, x);
      }
    case BlockingAsk(row) => ReadSettles(s, row, true);
    case Async(Ask(row)) => ReadSettles(s, row, false);
    case Async(Perform(e)) =>
      EditIsFaithful(s.list, e);
      SentSettles(s, EventMessage(EventOf(e), ApplyEdit(s.list, e)), s.proxy.outbox);
    case Async(ServeRequest) =>
      var request := s.proxy.outbox[0];
      var reply := Serve(s.list, request.0, request.1);
      ServeIsFaithful(s.list, request.0, request.1);
      SentSettles(s, ReplyMessage(reply.0, reply.1, s.list), s.proxy.outbox[1..]);
    case Async(Deliver) => DeliverySettles(s);
  }

  lemma SameCacheSettles<T>(p: Proxy<T>, q: Proxy<T>, inbox: seq<Message<T>>, list: seq<T>, x: int)
    requires RowSettles(p, inbox, list, x) && q.cache == p.cache
    ensures RowSettles(q, inbox, list, x)
  {
    assert Cached(q, x) == Cached(p, x);
  }

  lemma ReadSettles<T>(s: System<T>, row: int, synchronous: bool)
    requires Settles(s)
    ensures var s' := s.(proxy := ModelData(s.proxy, row, synchronous, s.list).0);
            Settles(s') && SizeError(s') == SizeError(s)
  {
    ReadCaches(s.proxy, row, synchronous, s.list, 0);
    forall x
      ensures RowSettles(ModelData(s.proxy, row, synchronous, s.list).0, s.inbox, s.list, x)
    {
      assert RowSettles(s.proxy, s.inbox, s.list, x);
      ReadCaches(s.proxy, row, synchronous, s.list, x);
    }
  }

  // The requests on their way do not matter.
  lemma SentSettles<T>(s: System<T>, m: Message<T>, outbox: seq<(int, int)>)
    requires Settles(s) && Faithful(s.list, m)
    ensures var s' := System(m.at, s.proxy.(outbox := outbox), s.inbox + [m], s.view);
            Settles(s') && SizeError(s') == if IsReset(m) then 0 else SizeError(s)
  {
    StreamAppend(s.view, s.inbox, s.list, m);
    SizeAfterAppend(s.proxy.size, s.inbox, m);
    forall x
      ensures RowSettles(s.proxy.(outbox := outbox), s.inbox + [m], m.at, x)
    {
      assert RowSettles(s.proxy, s.inbox, s.list, x);
      RowSettlesSent(s.proxy, s.inbox, s.list, m, x);
      SameCacheSettles(s.proxy, s.proxy.(outbox := outbox), s.inbox + [m], m.at, x);
    }
  }

  lemma DeliverySettles<T>(s: System<T>)
    requires Settles(s) && s.inbox != []
    ensures Settles(Next(s, Deliver)) && SizeError(Next(s, Deliver)) == SizeError(s)
  {
    HandlePasses(s.proxy, s.inbox[0], 0);
    HandleSize(s.proxy, s.inbox[0]);
    hide Handle, SizeStep;
    forall x
      ensures RowSettles(Handle(s.proxy, s.inbox[0]), s.inbox[1..], s.list, x)
    {
      assert RowSettles(s.proxy, s.inbox, s.list, x);
      RowSettlesHandled(s.proxy, s.inbox, s.list, x);
    }
  }

  predicate AllSyncEnabled<T(==)>(s: System<T>, steps: seq<SyncStep<T>>)
    decreases |steps|
  {
    steps == [] || (SyncEnabled(s, steps[0]) && AllSyncEnabled(SyncNext(s, steps[0]), steps[1..]))
  }

  function SyncRun<T(==)>(s: System<T>, steps: seq<SyncStep<T>>): System<T>
    requires AllSyncEnabled(s, steps)
    decreases |steps|
  {
    if steps == [] then s else SyncRun(SyncNext(s, steps[0]), steps[1..])
  }

  predicate SomeReset<T>(steps: seq<SyncStep<T>>) {
    exists k :: 0 <= k < |steps| && steps[k].Resets()
  }

  lemma {:induction false} RunSettles<T>(s: System<T>, steps: seq<SyncStep<T>>)
    requires Settles(s) && AllSyncEnabled(s, steps)
    ensures Settles(SyncRun(s, steps))
    ensures BlockingSnapshot !in steps ==>
      SizeError(SyncRun(s, steps)) == if SomeReset(steps) then 0 else SizeError(s)
    decreases |steps|
  {
    if steps != [] {
      var rest := steps[1..];
      StepSettles(s, steps[0]);
      RunSettles(SyncNext(s, steps[0]), rest);
      hide SyncNext, Settles, SizeError;
      assert SomeReset(steps) <==> steps[0].Resets() || SomeReset(rest) by {
        if k :| 0 <= k < |steps| && steps[k].Resets() {
          assert k > 0 ==> rest[k - 1].Resets();
        }
        if k :| 0 <= k < |rest| && rest[k].Resets() {
          assert steps[k + 1].Resets();
        }
      }
    }
  }

  // A proxy that knows nothing of a list, and has received nothing.
  function Start<T>(list: seq<T>): System<T> {
    System(list, Proxy(0, [], [], [], [], []), [], list)
  }

  // The proxy after all messages on their way.
  function HandleAll<T(==)>(p: Proxy<T>, inbox: seq<Message<T>>): Proxy<T>
    decreases |inbox|
  {
    if inbox == [] then p else HandleAll(Handle(p, inbox[0]), inbox[1..])
  }

  lemma {:induction false} SettledAgrees<T>(s: System<T>)
    requires Settles(s)
    ensures var p := HandleAll(s.proxy, s.inbox);
            DistinctKeys(p.cache) && CacheAgrees(p.cache, s.list) && p.size - |s.list| == SizeError(s)
    decreases |s.inbox|
  {
    if s.inbox == [] {
      forall x | Has(s.proxy.cache, x)
        ensures 0 <= x < |s.list| && Lookup(s.proxy.cache, x) == s.list[x]
      {
        assert RowSettles(s.proxy, s.inbox, s.list, x);
      }
    } else {
      DeliverySettles(s);
      SettledAgrees(Next(s, Deliver));
    }
  }

  /** Take any run that mixes events, blocking and asynchronous reads, requests, replies and blocking
      snapshots, from the time before the first snapshot; then a last blocking snapshot, and any
      further run.  Once the messages on their way are handled, every cached item is the server's.
      The size is the server's if and only if, at that snapshot, a reset was on its way to the proxy
      or the events on their way left the length of the list as it was, or there was a reset since;
      otherwise the events it overtook are counted twice.  When it is, a blocking read of any row
      gives the server's item. */
  lemma SynchronousAgreement<T>(list: seq<T>, before: seq<SyncStep<T>>, after: seq<SyncStep<T>>)
    requires AllSyncEnabled(Start(list), before)
    requires AllSyncEnabled(SyncNext(SyncRun(Start(list), before), BlockingSnapshot), after)
    requires BlockingSnapshot !in after
    ensures var s := SyncRun(Start(list), before);
            var t := SyncRun(SyncNext(s, BlockingSnapshot), after);
            var p := HandleAll(t.proxy, t.inbox);
            && CacheAgrees(p.cache, t.list)
            && p.size - |t.list| == (if HasReset(s.inbox) || SomeReset(after) then 0 else |s.list| - |s.view|)
            && (Agrees(p, t.list) <==> HasReset(s.inbox) || SomeReset(after) || |s.list| == |s.view|)
            && (Agrees(p, t.list) ==>
                  forall row :: 0 <= row < |t.list| ==> ModelData(p, row, true, t.list).1 == Some(t.list[row]))
  {
    var s := SyncRun(Start(list), before);
    var t := SyncRun(SyncNext(s, BlockingSnapshot), after);
    var p := HandleAll(t.proxy, t.inbox);
    RunSettles(Start(list), before);
    StepSettles(s, BlockingSnapshot);
    RunSettles(SyncNext(s, BlockingSnapshot), after);
    SettledAgrees(t);
    hide SyncRun, AllSyncEnabled, SyncNext, HandleAll, ModelData, Settles, SizeError, HasReset, SomeReset;
    if Agrees(p, t.list) {
      forall row | 0 <= row < |t.list|
        ensures ModelData(p, row, true, t.list).1 == Some(t.list[row])
      {
        SynchronousReadIsDirect(p, t.list, row);
      }
    }
  }

  lemma SyncRunFirst<T>(s: System<T>, step: SyncStep<T>, rest: seq<SyncStep<T>>)
    requires SyncEnabled(s, step) && AllSyncEnabled(SyncNext(s, step), rest)
    ensures AllSyncEnabled(s, [step] + rest) && SyncRun(s, [step] + rest) == SyncRun(SyncNext(s, step), rest)
  {
    assert ([step] + rest)[1..] == rest;
  }

  /** The size does become wrong: an insertion on its way to a proxy that takes its first snapshot
      is counted twice. */
  lemma SnapshotCountsTwice<T>(a: T)
    ensures var steps := [Async(Perform(InsertItems(0, [a]))), BlockingSnapshot, Async(Deliver)];
            && AllSyncEnabled(Start([]), steps)
            && var s := SyncRun(Start([]), steps);
               s.list == [a] && s.inbox == [] && s.proxy.size == 2
  {
    var insert: SyncStep<T>, snapshot: SyncStep<T>, deliver: SyncStep<T> :=
      Async(Perform(InsertItems(0, [a]))), BlockingSnapshot, Async(Deliver);
    var s := SyncNext(Start([]), insert);
    assert s.list == [a] && s.inbox == [EventMessage(Insert(0, 0), [a])];
    var s' := SyncNext(s, snapshot);
    assert SyncNext(s', deliver).proxy.size == 2;
    SyncRunFirst(s', deliver, []);
    SyncRunFirst(s, snapshot, [deliver]);
    SyncRunFirst(Start([]), insert, [snapshot, deliver]);
    assert [insert, snapshot, deliver] == [insert] + [snapshot, deliver];
    assert [deliver] == [deliver] + [];
    assert [snapshot, deliver] == [snapshot] + [deliver];
  }
}
