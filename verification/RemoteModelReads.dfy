/**
 What reads of a list model over IPC answer: replies and events leave their items in the cache, and
 a read answers with the row's own item.
 */
module RemoteModelReads {

  import opened Wrappers
  import opened RecentlyUsed
  import opened RemoteModel
  import opened RemoteModelRuns

  // ----- what a reply leaves in the cache

  // Looking an entry up before inserting it makes no difference.
  lemma TouchThenPut<T>(cache: seq<(int, T)>, k: int, v: T)
    requires DistinctKeys(cache) && Has(cache, k)
    ensures Put(CACHE_SIZE, Touch(cache, k), k, v) == Put(CACHE_SIZE, cache, k, v)
  {
    RemoveDistinct(cache, k);
    RemoveKeeps(cache, k, k);
    RemoveDistinct(RemoveKey(cache, k), k);
    assert Touch(cache, k)[1..] == RemoveKey(cache, k);
  }

  // One item of a reply is found afterwards, in front of all others.
  lemma ReplyItemBrings<T>(p: Proxy<T>, i: int, item: T)
    requires DistinctKeys(p.cache)
    ensures var cache := ReplyItem(p, i, item).cache;
            DistinctKeys(cache) && Has(cache, i) && Lookup(cache, i) == item && Before(cache, i) == {}
  {
    ReplyItemFinds(p, i, item, i);
  }

  // And costs an older entry at most one place.
  lemma ReplyItemKeeps<T>(p: Proxy<T>, i: int, item: T, x: int)
    requires DistinctKeys(p.cache) && Has(p.cache, x) && |Before(p.cache, x)| + 1 < CACHE_SIZE
    ensures var cache := ReplyItem(p, i, item).cache;
            Has(cache, x) && |Before(cache, x)| <= |Before(p.cache, x)| + 1
  {
    if Has(p.cache, i) && item == Lookup(p.cache, i) {
      if x != i {
        ToFrontBefore(p.cache, i, item, x);
      }
    } else {
      if Has(p.cache, i) {
        TouchThenPut(p.cache, i, item);
      }
      BeforeAfterPut(p.cache, i, item, x);
    }
  }

  /** An entry that is recent enough survives a reply. */
  lemma {:induction false} ReplyKeeps<T>(p: Proxy<T>, first: int, items: seq<T>, x: int)
    requires DistinctKeys(p.cache) && Has(p.cache, x) && |Before(p.cache, x)| + |items| < CACHE_SIZE
    ensures Has(HandleReply(p, first, items).cache, x)
    ensures !(first <= x < first + |items|) ==> Lookup(HandleReply(p, first, items).cache, x) == Lookup(p.cache, x)
    decreases |items|
  {
    HandleReplyFinds(p, first, items, x);
    if items != [] {
      ReplyItemBrings(p, first, items[0]);
      ReplyItemKeeps(p, first, items[0], x);
      hide ReplyItem, Has, Lookup, DistinctKeys, Before;
      ReplyKeeps(ReplyItem(p, first, items[0]), first + 1, items[1..], x);
    }
  }

  /** A reply that fits into the cache leaves all its items there. */
  lemma {:induction false} ReplyCaches<T>(p: Proxy<T>, first: int, items: seq<T>, x: int)
    requires DistinctKeys(p.cache) && |items| <= CACHE_SIZE && first <= x < first + |items|
    ensures var cache := HandleReply(p, first, items).cache;
            Has(cache, x) && Lookup(cache, x) == items[x - first]
    decreases |items|
  {
    var p' := ReplyItem(p, first, items[0]);
    HandleReplyFinds(p, first, items, x);
    ReplyItemBrings(p, first, items[0]);
    hide ReplyItem, Has, Lookup, DistinctKeys, Before;
    if x == first {
      ReplyKeeps(p', first + 1, items[1..], x);
    } else {
      ReplyCaches(p', first + 1, items[1..], x);
    }
  }

  /** So does an event about changed items; and an entry that is recent enough survives it. */
  lemma ChangeCaches<T>(p: Proxy<T>, first: int, items: seq<T>, x: int)
    requires DistinctKeys(p.cache)
    ensures var cache := HandleEvent(p, DataChanged(first, items)).cache;
            && (first <= x < first + |items| && |items| <= CACHE_SIZE ==>
                  Has(cache, x) && Lookup(cache, x) == items[x - first])
            && (!(first <= x < first + |items|) && Has(p.cache, x) && |Before(p.cache, x)| + |items| < CACHE_SIZE ==>
                  Has(cache, x) && Lookup(cache, x) == Lookup(p.cache, x))
  {
    PutAllFinds(p.cache, first, items, x);
    if first <= x < first + |items| && |items| <= CACHE_SIZE {
      PutAllHas(p.cache, first, items, x);
    } else if Has(p.cache, x) && |Before(p.cache, x)| + |items| < CACHE_SIZE {
      PutAllKeeps(p.cache, first, items, x);
    }
  }

  /** And a blocking request, about every row it can have been made for. */
  lemma BlockingReadCaches<T>(p: Proxy<T>, list: seq<T>, row: int, x: int)
    requires Agrees(p, list) && 0 <= row < |list| && !Has(p.cache, row)
    requires row - 12 <= x <= row + 12 && 0 <= x < |list| && !Has(p.cache, x)
    ensures var cache := ModelData(p, row, true, list).0.cache;
            Has(cache, x) && Lookup(cache, x) == list[x]
  {
    var (first, last) := SyncWindow(p, row);
    SyncWindowSound(p, row);
    SyncWindowExact(p, row);
    ServeExact(list, first, last, x);
    ServeExact(list, first, last, first);
    ServeExact(list, first, last, last);
    var (start, items) := Serve(list, first, last);
    PutAllHas(p.cache, start, items, x);
    PutAllFinds(p.cache, start, items, x);
    hide SyncWindow, Serve, PutAll, Touch;
    var p1 := Prefetch(Fetch(p, row, true, list), row);
    assert p1.cache == PutAll(p.cache, start, items);
    if Has(p1.cache, row) {
      TouchFinds(p1.cache, row, x);
    }
  }

  // ----- what an asynchronous read answers

  /** The row's own item if it is cached, and a default item otherwise. */
  lemma AsyncReadAnswers<T>(p: Proxy<T>, list: seq<T>, row: int, server: seq<T>)
    requires Agrees(p, list)
    ensures ModelData(p, row, false, server).1 == if Has(p.cache, row) then Some(list[row]) else None
  {
    assert Prefetch(Fetch(p, row, false, server), row).cache == p.cache;
  }

  /** A read that finds the row makes it the most recently used one, and nothing else is lost. */
  lemma ReadTouches<T>(p: Proxy<T>, row: int, server: seq<T>, x: int)
    requires Has(p.cache, row)
    ensures var cache := ModelData(p, row, false, server).0.cache;
            && Has(cache, row) && Before(cache, row) == {}
            && (Has(cache, x) <==> Has(p.cache, x))
            && (Has(p.cache, x) ==> Lookup(cache, x) == Lookup(p.cache, x))
  {
    assert Prefetch(Fetch(p, row, false, server), row).cache == p.cache;
    TouchFinds(p.cache, row, x);
  }

  // The answer to Ask(row)
  function Answer<T(==)>(s: System<T>, row: int): Option<T> {
    ModelData(s.proxy, row, false, s.list).1
  }

  /** In every run an asynchronous read answers with the item that the server's list had at the
      message last handled, exactly for the rows in the cache. */
  lemma AsyncReads<T>(list: seq<T>, steps: seq<Step<T>>, row: int)
    requires AllEnabled(Initial(list), steps)
    ensures var s := Run(Initial(list), steps);
            && (Has(s.proxy.cache, row) ==> 0 <= row < |s.view| && Answer(s, row) == Some(s.view[row]))
            && (!Has(s.proxy.cache, row) ==> Answer(s, row) == None)
  {
    CacheAgreement(list, steps);
    var s := Run(Initial(list), steps);
    AsyncReadAnswers(s.proxy, s.view, row, s.list);
  }

  // No request and no reply has more than 25 rows.
  ghost predicate Small<T>(s: System<T>) {
    && (forall k :: 0 <= k < |s.proxy.outbox| ==> s.proxy.outbox[k].1 - s.proxy.outbox[k].0 < 25)
    && (forall k :: 0 <= k < |s.inbox| && s.inbox[k].ReplyMessage? ==> |s.inbox[k].items| <= 25)
  }

  ghost predicate SmallRequests<T>(p: Proxy<T>) {
    forall k :: 0 <= k < |p.outbox| ==> p.outbox[k].1 - p.outbox[k].0 < 25
  }

  lemma RequestIsSmall<T>(p: Proxy<T>, index: int)
    requires SmallRequests(p)
    ensures SmallRequests(RequestItems(p, index))
  {
    WindowSound(p, index);
  }

  lemma AskIsSmall<T>(p: Proxy<T>, row: int, server: seq<T>)
    requires SmallRequests(p)
    ensures SmallRequests(ModelData(p, row, false, server).0)
  {
    hide RequestItems, SmallRequests;
    RequestIsSmall(p, row);
    var fetched := Fetch(p, row, false, server);
    SameRequests(RequestItems(p, row), RequestItems(p, row).(placeholders := RequestItems(p, row).placeholders + [row],
                                                           told := RequestItems(p, row).told + [Placeholder(row)]));
    RequestIsSmall(fetched, Min(fetched.size, row + PREFETCH_ITEM_COUNT));
    var n := Min(fetched.size, row + PREFETCH_ITEM_COUNT);
    var p1 := if !Has(fetched.cache, n) && n !in fetched.requested then RequestItems(fetched, n) else fetched;
    RequestIsSmall(p1, Max(0, row - PREFETCH_ITEM_COUNT));
    SameRequests(Prefetch(fetched, row), ModelData(p, row, false, server).0);
  }

  lemma SameRequests<T>(p: Proxy<T>, q: Proxy<T>)
    requires SmallRequests(p) && q.outbox == p.outbox
    ensures SmallRequests(q)
  {
  }

  lemma StepIsSmall<T>(s: System<T>, step: Step<T>)
    requires Small(s) && Enabled(s, step)
    ensures Small(Next(s, step))
  {
    match step
    case Perform(e) =>
    case Ask(row) =>
      assert SmallRequests(s.proxy);
      AskIsSmall(s.proxy, row, s.list);
    case ServeRequest =>
    case Deliver =>
      if s.inbox[0].ReplyMessage? {
        ReplyKeepsOutbox(s.proxy, s.inbox[0].first, s.inbox[0].items);
      }
  }

  lemma {:induction false} RunIsSmall<T>(s: System<T>, steps: seq<Step<T>>)
    requires Small(s) && AllEnabled(s, steps)
    ensures Small(Run(s, steps))
    decreases |steps|
  {
    if steps != [] {
      StepIsSmall(s, steps[0]);
      RunIsSmall(Next(s, steps[0]), steps[1..]);
    }
  }

  lemma ItemIsServers<T>(before: seq<T>, m: Message<T>, row: int)
    requires Faithful(before, m) && m.ReplyMessage? && m.first <= row < m.first + |m.items|
    ensures 0 <= row < |m.at| && m.at[row] == m.items[row - m.first]
  {
  }

  lemma AnswerAfterReply<T>(s: System<T>, row: int)
    requires Agrees(s.proxy, s.view) && s.inbox != [] && s.inbox[0].ReplyMessage? && |s.inbox[0].items| <= 25
    requires s.inbox[0].first <= row < s.inbox[0].first + |s.inbox[0].items|
    requires Agrees(Next(s, Deliver).proxy, s.inbox[0].at) && Faithful(s.view, s.inbox[0])
    ensures Answer(Next(s, Deliver), row) == Some(s.inbox[0].items[row - s.inbox[0].first])
  {
    var m, s' := s.inbox[0], Next(s, Deliver);
    assert s'.proxy == HandleReply(s.proxy, m.first, m.items) && DistinctKeys(s.proxy.cache);
    hide ModelData, HandleReply, Has, Lookup, DistinctKeys, CacheAgrees, Faithful;
    ReplyCaches(s.proxy, m.first, m.items, row);
    ItemIsServers(s.view, m, row);
    AsyncReadAnswers(s'.proxy, m.at, row, s'.list);
  }

  lemma AnswerAfterChange<T>(s: System<T>, row: int)
    requires Agrees(s.proxy, s.view) && s.inbox != [] && s.inbox[0].EventMessage? && s.inbox[0].event.DataChanged?
    requires |s.inbox[0].event.items| <= CACHE_SIZE
    requires s.inbox[0].event.first <= row < s.inbox[0].event.first + |s.inbox[0].event.items|
    requires Agrees(Next(s, Deliver).proxy, s.inbox[0].at) && Faithful(s.view, s.inbox[0])
    ensures Answer(Next(s, Deliver), row) == Some(s.inbox[0].event.items[row - s.inbox[0].event.first])
  {
    var m, s' := s.inbox[0], Next(s, Deliver);
    AsyncReadAnswers(s'.proxy, m.at, row, s'.list);
    hide ModelData;
    ChangeCaches(s.proxy, m.event.first, m.event.items, row);
    hide HandleEvent, Has, Lookup, DistinctKeys;
  }

  // The oldest message brings an item for the row, and it fits into the cache.
  function Brought<T>(m: Message<T>, row: int): Option<T> {
    match m
    case ReplyMessage(first, items, _) =>
      if first <= row < first + |items| then Some(items[row - first]) else None
    case EventMessage(event, _) =>
      if event.DataChanged? && |event.items| <= CACHE_SIZE && event.first <= row < event.first + |event.items| then
        Some(event.items[row - event.first])
      else None
  }

  lemma AnswerAfterMessage<T>(s: System<T>, row: int)
    requires Synchronized(s) && Small(s) && s.inbox != [] && Brought(s.inbox[0], row).Some?
    ensures Answer(Next(s, Deliver), row) == Brought(s.inbox[0], row)
  {
    StepSynchronized(s, Deliver);
    hide Answer, Handle, Agrees;
    if s.inbox[0].ReplyMessage? {
      AnswerAfterReply(s, row);
    } else {
      AnswerAfterChange(s, row);
    }
  }

  /** In every run, once a reply has been handled, a read of any row it brought answers with the
      item; and so it does after an event about changed items that fit into the cache. */
  lemma ReadAfterMessage<T>(list: seq<T>, steps: seq<Step<T>>, row: int)
    requires AllEnabled(Initial(list), steps)
    ensures var s := Run(Initial(list), steps);
            s.inbox != [] && Brought(s.inbox[0], row).Some? ==>
              Answer(Next(s, Deliver), row) == Brought(s.inbox[0], row)
  {
    RunSynchronized(Initial(list), steps);
    RunIsSmall(Initial(list), steps);
    var s := Run(Initial(list), steps);
    if s.inbox != [] && Brought(s.inbox[0], row).Some? {
      AnswerAfterMessage(s, row);
    }
  }
}
