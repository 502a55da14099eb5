/**
 Runs of a list model over IPC: a server list, one asynchronous proxy, and the two first-in
 first-out channels between them.  (Proxies do not interact, so one stands for any number.)
 */
module RemoteModelRuns {

  import opened Wrappers
  import opened RecentlyUsed
  import opened RemoteModel

  // ----- edits of the server's list

  datatype Edit<T> =
    | SetItems(first: nat, items: seq<T>)
    | InsertItems(first: nat, items: seq<T>)
    | RemoveItems(first: nat, last: int)
    | MoveItems(sourceFirst: nat, sourceLast: int, destination: nat)
    | ResetItems(items: seq<T>)
  {
    predicate InRange(n: nat) {
      match this
      case SetItems(first, items) => first + |items| <= n
      case InsertItems(first, items) => first <= n && items != []
      case RemoveItems(first, last) => first <= last < n
      case MoveItems(first, last, destination) =>
        first <= last < n && destination <= n && (destination <= first || destination > last)
      case ResetItems(_) => true
    }

    predicate Structural() {
      !SetItems?
    }
  }

  // Rows first to last go in front of row `destination`.
  function Relocate<T>(list: seq<T>, first: int, last: int, destination: int): (r: seq<T>)
    requires 0 <= first <= last < |list| && 0 <= destination <= |list| && (destination <= first || destination > last)
    ensures |r| == |list|
  {
    if destination <= first then
      list[..destination] + list[first..last + 1] + list[destination..first] + list[last + 1..]
    else
      list[..first] + list[last + 1..destination] + list[first..last + 1] + list[destination..]
  }

  function ApplyEdit<T>(list: seq<T>, e: Edit<T>): seq<T>
    requires e.InRange(|list|)
  {
    match e
    case SetItems(first, items) => list[..first] + items + list[first + |items|..]
    case InsertItems(first, items) => list[..first] + items + list[first..]
    case RemoveItems(first, last) => list[..first] + list[last + 1..]
    case MoveItems(first, last, destination) => Relocate(list, first, last, destination)
    case ResetItems(items) => items
  }

  // The event the server sends for an edit.
  function EventOf<T>(e: Edit<T>): Event<T> {
    match e
    case SetItems(first, items) => DataChanged(first, items)
    case InsertItems(first, items) => Insert(first, first + |items| - 1)
    case RemoveItems(first, last) => Remove(first, last)
    case MoveItems(first, last, destination) => Move(first, last, destination)
    case ResetItems(items) => Reset(|items|)
  }

  // ----- messages, stamped with the server's list at sending time (a history variable)

  datatype Message<T> =
    | EventMessage(event: Event<T>, at: seq<T>)
    | ReplyMessage(first: int, items: seq<T>, at: seq<T>)

  function Handle<T(==)>(p: Proxy<T>, m: Message<T>): Proxy<T> {
    match m
    case EventMessage(event, _) => HandleEvent(p, event)
    case ReplyMessage(first, items, _) => HandleReply(p, first, items)
  }

  // The step from the server's list before message m to the list when it was sent.
  predicate Faithful<T(==)>(before: seq<T>, m: Message<T>) {
    match m
    case ReplyMessage(first, items, at) =>
      at == before && (items != [] ==> 0 <= first && first + |items| <= |at| && items == at[first..first + |items|])
    case EventMessage(event, at) =>
      match event
      case DataChanged(first, items) =>
        0 <= first && first + |items| <= |before| && at == before[..first] + items + before[first + |items|..]
      case Insert(first, last) =>
        && 0 <= first <= |before| && first <= last && |at| == |before| + last - first + 1
        && at[..first] == before[..first] && at[last + 1..] == before[first..]
      case Remove(first, last) => 0 <= first <= last < |before| && at == before[..first] + before[last + 1..]
      case Move(first, last, destination) =>
        && 0 <= first <= last < |before| && 0 <= destination <= |before| && (destination <= first || destination > last)
        && at == Relocate(before, first, last, destination)
      case Reset(size) => |at| == size
  }

  lemma EditIsFaithful<T>(list: seq<T>, e: Edit<T>)
    requires e.InRange(|list|)
    ensures Faithful(list, EventMessage(EventOf(e), ApplyEdit(list, e)))
  {
  }

  lemma ServeIsFaithful<T>(list: seq<T>, first: int, last: int)
    ensures Faithful(list, ReplyMessage(Serve(list, first, last).0, Serve(list, first, last).1, list))
  {
  }

  // ----- agreement of a proxy with a list

  ghost predicate CacheAgrees<T>(cache: seq<(int, T)>, list: seq<T>) {
    forall i :: Has(cache, i) ==> 0 <= i < |list| && Lookup(cache, i) == list[i]
  }

  ghost predicate Agrees<T>(p: Proxy<T>, list: seq<T>) {
    p.size == |list| && DistinctKeys(p.cache) && CacheAgrees(p.cache, list)
  }

  // What is found after putting (k, v) was put, or was there before.
  lemma PutFinds<T>(cache: seq<(int, T)>, k: int, v: T, x: int)
    ensures Has(Put(CACHE_SIZE, cache, k, v), x) ==>
      if x == k then Lookup(Put(CACHE_SIZE, cache, k, v), x) == v
      else Has(cache, x) && Lookup(Put(CACHE_SIZE, cache, k, v), x) == Lookup(cache, x)
  {
    var all := [(k, v)] + RemoveKey(cache, k);
    assert all[1..] == RemoveKey(cache, k);
    RemoveKeeps(cache, k, x);
    if Has(Front(all, CACHE_SIZE), x) {
      LookupFront(all, CACHE_SIZE, x);
    }
  }

  lemma PutDistinct<T>(cache: seq<(int, T)>, k: int, v: T)
    requires DistinctKeys(cache)
    ensures DistinctKeys(Put(CACHE_SIZE, cache, k, v))
  {
    ToFrontDistinct(cache, k, v);
    FrontDistinct([(k, v)] + RemoveKey(cache, k), CACHE_SIZE);
  }

  lemma TouchFinds<T>(cache: seq<(int, T)>, k: int, x: int)
    requires Has(cache, k)
    ensures Has(Touch(cache, k), x) <==> Has(cache, x)
    ensures Has(cache, x) ==> Lookup(Touch(cache, k), x) == Lookup(cache, x)
    ensures DistinctKeys(cache) ==> DistinctKeys(Touch(cache, k))
  {
    RemoveKeeps(cache, k, x);
    assert Touch(cache, k)[1..] == RemoveKey(cache, k);
    if DistinctKeys(cache) {
      ToFrontDistinct(cache, k, Lookup(cache, k));
    }
  }

  lemma {:induction false} PutAllFinds<T>(cache: seq<(int, T)>, first: int, items: seq<T>, x: int)
    ensures Has(PutAll(cache, first, items), x) ==>
      if first <= x < first + |items| then Lookup(PutAll(cache, first, items), x) == items[x - first]
      else Has(cache, x) && Lookup(PutAll(cache, first, items), x) == Lookup(cache, x)
    decreases |items|
  {
    if items != [] {
      PutFinds(cache, first, items[0], x);
      PutAllFinds(Put(CACHE_SIZE, cache, first, items[0]), first + 1, items[1..], x);
    }
  }

  lemma {:induction false} PutAllDistinct<T>(cache: seq<(int, T)>, first: int, items: seq<T>)
    requires DistinctKeys(cache)
    ensures DistinctKeys(PutAll(cache, first, items))
    decreases |items|
  {
    if items != [] {
      PutDistinct(cache, first, items[0]);
      PutAllDistinct(Put(CACHE_SIZE, cache, first, items[0]), first + 1, items[1..]);
    }
  }

  lemma ReplyItemFinds<T>(p: Proxy<T>, i: int, item: T, x: int)
    ensures Has(ReplyItem(p, i, item).cache, x) ==>
      if x == i then Lookup(ReplyItem(p, i, item).cache, x) == item
      else Has(p.cache, x) && Lookup(ReplyItem(p, i, item).cache, x) == Lookup(p.cache, x)
    ensures DistinctKeys(p.cache) ==> DistinctKeys(ReplyItem(p, i, item).cache)
  {
    var cache := if Has(p.cache, i) then Touch(p.cache, i) else p.cache;
    if Has(p.cache, i) {
      TouchFinds(p.cache, i, x);
    }
    PutFinds(cache, i, item, x);
    if DistinctKeys(p.cache) {
      PutDistinct(cache, i, item);
    }
  }

  lemma {:induction false} HandleReplyFinds<T>(p: Proxy<T>, first: int, items: seq<T>, x: int)
    ensures Has(HandleReply(p, first, items).cache, x) ==>
      if first <= x < first + |items| then Lookup(HandleReply(p, first, items).cache, x) == items[x - first]
      else Has(p.cache, x) && Lookup(HandleReply(p, first, items).cache, x) == Lookup(p.cache, x)
    ensures DistinctKeys(p.cache) ==> DistinctKeys(HandleReply(p, first, items).cache)
    ensures HandleReply(p, first, items).size == p.size
    decreases |items|
  {
    if items != [] {
      ReplyItemFinds(p, first, items[0], x);
      assert ReplyItem(p, first, items[0]).size == p.size;
      hide ReplyItem, Has, Lookup, DistinctKeys;
      HandleReplyFinds(ReplyItem(p, first, items[0]), first + 1, items[1..], x);
    }
  }

  lemma {:induction false} ReplyKeepsOutbox<T>(p: Proxy<T>, first: int, items: seq<T>)
    ensures HandleReply(p, first, items).outbox == p.outbox
    decreases |items|
  {
    if items != [] {
      ReplyKeepsOutbox(ReplyItem(p, first, items[0]), first + 1, items[1..]);
    }
  }

  lemma ReplyKeepsAgreement<T>(p: Proxy<T>, list: seq<T>, first: int, items: seq<T>)
    requires Agrees(p, list) && Faithful(list, ReplyMessage(first, items, list))
    ensures Agrees(HandleReply(p, first, items), list)
  {
    HandleReplyFinds(p, first, items, 0);
    hide HandleReply, Has, Lookup, DistinctKeys;
    forall i | Has(HandleReply(p, first, items).cache, i)
      ensures 0 <= i < |list| && Lookup(HandleReply(p, first, items).cache, i) == list[i]
    {
      HandleReplyFinds(p, first, items, i);
    }
  }

  lemma ChangeKeepsAgreement<T>(p: Proxy<T>, before: seq<T>, first: int, items: seq<T>, at: seq<T>)
    requires Agrees(p, before) && Faithful(before, EventMessage(DataChanged(first, items), at))
    ensures Agrees(HandleEvent(p, DataChanged(first, items)), at)
  {
    PutAllDistinct(p.cache, first, items);
    hide PutAll, Has, Lookup, DistinctKeys;
    forall i | Has(PutAll(p.cache, first, items), i)
      ensures 0 <= i < |at| && Lookup(PutAll(p.cache, first, items), i) == at[i]
    {
      PutAllFinds(p.cache, first, items, i);
    }
  }

  /** Every message takes a proxy that agrees with the list before it to one that agrees with the
      list at its sending time, whatever was evicted. */
  lemma MessageKeepsAgreement<T>(p: Proxy<T>, before: seq<T>, m: Message<T>)
    requires Agrees(p, before) && Faithful(before, m)
    ensures Agrees(Handle(p, m), m.at)
  {
    match m
    case ReplyMessage(first, items, _) => ReplyKeepsAgreement(p, before, first, items);
    case EventMessage(event, at) =>
      if event.DataChanged? {
        ChangeKeepsAgreement(p, before, event.first, event.items, at);
      }
  }

  /** Asking for a row changes neither size nor what the cache finds. */
  lemma AsyncAskKeepsAgreement<T>(p: Proxy<T>, row: int, server: seq<T>, list: seq<T>)
    requires Agrees(p, list)
    ensures Agrees(ModelData(p, row, false, server).0, list)
  {
    var p1 := Prefetch(Fetch(p, row, false, server), row);
    assert p1.cache == p.cache;
    if Has(p.cache, row) {
      TouchKeepsAgreement(p1, row, list);
    }
  }

  // ----- runs

  datatype System<T> = System(
    list: seq<T>,                // the server's list
    proxy: Proxy<T>,             // its outbox is the channel of requests
    inbox: seq<Message<T>>,
    view: seq<T>)                // history variable: the server's list at the message last handled

  datatype Step<T> =
    | Perform(edit: Edit<T>)     // the server edits its list and sends the event
    | Ask(row: int)              // a view asks the proxy for a row
    | ServeRequest               // the server handles the oldest request
    | Deliver                    // the proxy handles the oldest message

  predicate Enabled<T(==)>(s: System<T>, step: Step<T>) {
    match step
    case Perform(e) => e.InRange(|s.list|)
    case Ask(row) => 0 <= row < s.proxy.size
    case ServeRequest => s.proxy.outbox != []
    case Deliver => s.inbox != []
  }

  function Next<T(==)>(s: System<T>, step: Step<T>): System<T>
    requires Enabled(s, step)
  {
    match step
    case Perform(e) =>
      var list := ApplyEdit(s.list, e);
      s.(list := list, inbox := s.inbox + [EventMessage(EventOf(e), list)])
    case Ask(row) =>
      s.(proxy := ModelData(s.proxy, row, false, s.list).0)
    case ServeRequest =>
      var reply := Serve(s.list, s.proxy.outbox[0].0, s.proxy.outbox[0].1);
      s.(proxy := s.proxy.(outbox := s.proxy.outbox[1..]), inbox := s.inbox + [ReplyMessage(reply.0, reply.1, s.list)])
    case Deliver =>
      s.(proxy := Handle(s.proxy, s.inbox[0]), inbox := s.inbox[1..], view := s.inbox[0].at)
  }

  // The messages in an inbox lead from one list to another.
  predicate Stream<T(==)>(from: seq<T>, inbox: seq<Message<T>>, to: seq<T>)
    decreases |inbox|
  {
    if inbox == [] then from == to else Faithful(from, inbox[0]) && Stream(inbox[0].at, inbox[1..], to)
  }

  lemma {:induction false} StreamAppend<T>(from: seq<T>, inbox: seq<Message<T>>, to: seq<T>, m: Message<T>)
    requires Stream(from, inbox, to) && Faithful(to, m)
    ensures Stream(from, inbox + [m], m.at)
    decreases |inbox|
  {
    if inbox == [] {
      assert (inbox + [m])[1..] == [];
    } else {
      assert (inbox + [m])[1..] == inbox[1..] + [m];
      StreamAppend(inbox[0].at, inbox[1..], to, m);
    }
  }

  ghost predicate Synchronized<T>(s: System<T>) {
    Agrees(s.proxy, s.view) && Stream(s.view, s.inbox, s.list)
  }

  lemma StepSynchronized<T>(s: System<T>, step: Step<T>)
    requires Synchronized(s) && Enabled(s, step)
    ensures Synchronized(Next(s, step))
  {
    match step
    case Perform(e) =>
      EditIsFaithful(s.list, e);
      StreamAppend(s.view, s.inbox, s.list, EventMessage(EventOf(e), ApplyEdit(s.list, e)));
    case Ask(row) =>
      AsyncAskKeepsAgreement(s.proxy, row, s.list, s.view);
    case ServeRequest =>
      var request := s.proxy.outbox[0];
      var reply := Serve(s.list, request.0, request.1);
      ServeIsFaithful(s.list, request.0, request.1);
      StreamAppend(s.view, s.inbox, s.list, ReplyMessage(reply.0, reply.1, s.list));
    case Deliver =>
      MessageKeepsAgreement(s.proxy, s.view, s.inbox[0]);
  }

  predicate AllEnabled<T(==)>(s: System<T>, steps: seq<Step<T>>)
    decreases |steps|
  {
    steps == [] || (Enabled(s, steps[0]) && AllEnabled(Next(s, steps[0]), steps[1..]))
  }

  function Run<T(==)>(s: System<T>, steps: seq<Step<T>>): System<T>
    requires AllEnabled(s, steps)
    decreases |steps|
  {
    if steps == [] then s else Run(Next(s, steps[0]), steps[1..])
  }

  // A proxy right after its first snapshot.
  function Initial<T>(list: seq<T>): System<T> {
    System(list, Proxy(|list|, [], [], [], [], []), [], list)
  }

  lemma {:induction false} RunSynchronized<T>(s: System<T>, steps: seq<Step<T>>)
    requires Synchronized(s) && AllEnabled(s, steps)
    ensures Synchronized(Run(s, steps))
    decreases |steps|
  {
    if steps != [] {
      StepSynchronized(s, steps[0]);
      RunSynchronized(Next(s, steps[0]), steps[1..]);
    }
  }

  /** Cache agreement: at every point of every run the proxy's size and every cached item agree
      with the server's list as it was at the message last handled; and so with the server's list
      when no message is waiting. */
  lemma CacheAgreement<T>(list: seq<T>, steps: seq<Step<T>>)
    requires AllEnabled(Initial(list), steps)
    ensures var s := Run(Initial(list), steps);
            && Agrees(s.proxy, s.view)
            && (s.inbox == [] ==> Agrees(s.proxy, s.list))
  {
    RunSynchronized(Initial(list), steps);
  }

  // ----- reading through a synchronous proxy

  lemma {:induction false} SyncFirstStops<T>(p: Proxy<T>, first: int, last: int)
    requires first <= last
    ensures first <= SyncFirst(p, first, last) <= last
    ensures Has(p.cache, SyncFirst(p, first, last)) ==> SyncFirst(p, first, last) == last
    ensures forall i :: first <= i < SyncFirst(p, first, last) ==> Has(p.cache, i)
    decreases last - first
  {
    if Has(p.cache, first) && first < last {
      SyncFirstStops(p, first + 1, last);
    }
  }

  lemma {:induction false} SyncLastStops<T>(p: Proxy<T>, first: int, last: int)
    requires first <= last
    ensures first <= SyncLast(p, first, last) <= last
    ensures Has(p.cache, SyncLast(p, first, last)) ==> SyncLast(p, first, last) == first
    ensures forall i :: SyncLast(p, first, last) < i <= last ==> Has(p.cache, i)
    decreases last - first
  {
    if Has(p.cache, last) && last > first {
      SyncLastStops(p, first, last - 1);
    }
  }

  /** The trimmed window of a blocking request still contains the row and spans at most 25 items. */
  lemma SyncWindowSound<T>(p: Proxy<T>, row: int)
    requires 0 <= row < p.size && !Has(p.cache, row)
    ensures var (first, last) := SyncWindow(p, row);
            0 <= first <= row <= last < p.size && last - first + 1 <= 25
  {
    var first := if row > PREFETCH_ITEM_COUNT then row - PREFETCH_ITEM_COUNT else 0;
    var last := if row < p.size - PREFETCH_ITEM_COUNT then row + PREFETCH_ITEM_COUNT else p.size - 1;
    SyncFirstStops(p, first, last);
    SyncLastStops(p, SyncFirst(p, first, last), last);
  }

  /** And it is no smaller than needed: it begins and ends at rows that are not cached, and contains
      all of those up to 12 rows away. */
  lemma SyncWindowExact<T>(p: Proxy<T>, row: int)
    requires 0 <= row < p.size && !Has(p.cache, row)
    ensures var (first, last) := SyncWindow(p, row);
            && row - 12 <= first && last <= row + 12 && !Has(p.cache, first) && !Has(p.cache, last)
            && forall i :: row - 12 <= i <= row + 12 && 0 <= i < p.size && !Has(p.cache, i) ==> first <= i <= last
  {
    var first := if row > PREFETCH_ITEM_COUNT then row - PREFETCH_ITEM_COUNT else 0;
    var last := if row < p.size - PREFETCH_ITEM_COUNT then row + PREFETCH_ITEM_COUNT else p.size - 1;
    hide SyncFirst, SyncLast, Has;
    SyncFirstStops(p, first, last);
    SyncLastStops(p, SyncFirst(p, first, last), last);
  }

  lemma BeforeAfterPut<T>(cache: seq<(int, T)>, k: int, v: T, x: int)
    requires DistinctKeys(cache) && Has(cache, x) && |Before(cache, x)| + 1 < CACHE_SIZE
    ensures Has(Put(CACHE_SIZE, cache, k, v), x)
    ensures |Before(Put(CACHE_SIZE, cache, k, v), x)| <= |Before(cache, x)| + 1
  {
    var all := [(k, v)] + RemoveKey(cache, k);
    ToFrontDistinct(cache, k, v);
    if x != k {
      ToFrontBefore(cache, k, v, x);
    }
    FrontHas(all, CACHE_SIZE, x);
    BeforeFront(all, CACHE_SIZE, x);
  }

  lemma {:induction false} BeforeFront<K, V>(s: seq<(K, V)>, n: nat, k: K)
    requires Has(Front(s, n), k)
    ensures Before(Front(s, n), k) == Before(s, k)
  {
    if s[0].0 != k {
      assert Front(s, n)[1..] == Front(s[1..], n - 1);
      BeforeFront(s[1..], n - 1, k);
    }
  }

  // A recent entry survives a window of insertions.
  lemma {:induction false} PutAllKeeps<T>(cache: seq<(int, T)>, first: int, items: seq<T>, x: int)
    requires DistinctKeys(cache) && Has(cache, x) && |Before(cache, x)| + |items| < CACHE_SIZE
    ensures Has(PutAll(cache, first, items), x)
    decreases |items|
  {
    if items != [] {
      BeforeAfterPut(cache, first, items[0], x);
      PutDistinct(cache, first, items[0]);
      PutAllKeeps(Put(CACHE_SIZE, cache, first, items[0]), first + 1, items[1..], x);
    }
  }

  lemma {:induction false} PutAllHas<T>(cache: seq<(int, T)>, first: int, items: seq<T>, x: int)
    requires DistinctKeys(cache) && first <= x < first + |items| && |items| <= CACHE_SIZE
    ensures Has(PutAll(cache, first, items), x)
    decreases |items|
  {
    var cache' := Put(CACHE_SIZE, cache, first, items[0]);
    PutDistinct(cache, first, items[0]);
    if x == first {
      assert cache'[0].0 == first;
      PutAllKeeps(cache', first + 1, items[1..], x);
    } else {
      PutAllHas(cache', first + 1, items[1..], x);
    }
  }

  lemma BlockingFetchBringsRow<T>(p: Proxy<T>, list: seq<T>, row: int)
    requires Agrees(p, list) && 0 <= row < |list|
    ensures Agrees(Fetch(p, row, true, list), list) && Has(Fetch(p, row, true, list).cache, row)
  {
    if !Has(p.cache, row) {
      SyncWindowSound(p, row);
      var window := SyncWindow(p, row);
      var reply := Serve(list, window.0, window.1);
      ServeIsFaithful(list, window.0, window.1);
      PutAllHas(p.cache, reply.0, reply.1, row);
      PutAllDistinct(p.cache, reply.0, reply.1);
      forall i
        ensures Has(PutAll(p.cache, reply.0, reply.1), i) ==>
          0 <= i < |list| && Lookup(PutAll(p.cache, reply.0, reply.1), i) == list[i]
      {
        PutAllFinds(p.cache, reply.0, reply.1, i);
      }
    }
  }

  /** Cached read refines direct read: with no event in flight, a synchronous proxy returns the
      server's item for every row, and still agrees with the server. */
  lemma SynchronousReadIsDirect<T>(p: Proxy<T>, list: seq<T>, row: int)
    requires Agrees(p, list) && 0 <= row < |list|
    ensures ModelData(p, row, true, list).1 == Some(list[row])
    ensures Agrees(ModelData(p, row, true, list).0, list)
  {
    hide PutAll, Serve, SyncWindow;
    BlockingFetchBringsRow(p, list, row);
    TouchKeepsAgreement(Prefetch(Fetch(p, row, true, list), row), row, list);
  }

  lemma TouchKeepsAgreement<T>(p: Proxy<T>, row: int, list: seq<T>)
    requires Agrees(p, list) && Has(p.cache, row)
    ensures Agrees(p.(cache := Touch(p.cache, row)), list)
  {
    forall i
      ensures Has(Touch(p.cache, row), i) ==> Has(p.cache, i) && Lookup(Touch(p.cache, row), i) == Lookup(p.cache, i)
    {
      TouchFinds(p.cache, row, i);
    }
    TouchFinds(p.cache, row, row);
  }
}
