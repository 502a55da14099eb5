/**
 A list model over IPC: the proxy's cache, its item requests, and the server's side of both.

 src/ipc/ipc-common/IPCProxyModelProperty.h and src/ipc/ipc-common/IPCAdapterModelPropertyHandler.h.
 */
module RemoteModel {

  import opened Wrappers
  import opened Sequences
  import opened RecentlyUsed

  const PREFETCH_ITEM_COUNT := 12
  const CACHE_SIZE := PREFETCH_ITEM_COUNT * 10

  // The events of ModelUpdateEvent, with their arguments.
  datatype Event<T> =
    | DataChanged(first: int, items: seq<T>)
    | Insert(first: int, last: int)
    | Remove(first: int, last: int)
    | Move(sourceFirst: int, sourceLast: int, destination: int)
    | Reset(size: int)

  // What a view of the proxy observes: a default item or an item for a row, or a change signal.
  datatype Notice =
    | Placeholder(row: int)
    | Item(row: int)
    | Changed(first: int, last: int)
    | RowsInserted(first: int, last: int)
    | RowsRemoved(first: int, last: int)
    | RowsMoved(sourceFirst: int, sourceLast: int, destination: int)
    | WasReset

  datatype Proxy<T> = Proxy(
    size: int,
    cache: seq<(int, T)>,          // m_cache, most recently used first
    requested: seq<int>,           // m_itemsRequestedFromServer
    placeholders: seq<int>,        // m_itemsRequestedLocally
    outbox: seq<(int, int)>,       // item requests not yet handled by the server
    told: seq<Notice>)
  {
    predicate Busy(i: int) {
      Has(cache, i) || i in requested
    }
  }

  function Min(a: int, b: int): int { if a < b then a else b }
  function Max(a: int, b: int): int { if a < b then b else a }

  function Range(first: int, last: int): (r: seq<int>)
    ensures forall i :: i in r <==> first <= i <= last
    decreases last - first
  {
    if first > last then [] else [first] + Range(first + 1, last)
  }

  // ----- events

  function PutAll<T>(cache: seq<(int, T)>, first: int, items: seq<T>): seq<(int, T)>
    decreases |items|
  {
    if items == [] then cache else PutAll(Put(CACHE_SIZE, cache, first, items[0]), first + 1, items[1..])
  }

  lemma PutAllNone<T>(cache: seq<(int, T)>, first: int)
    ensures PutAll(cache, first, []) == cache
  {
  }

  lemma PutAllNext<T>(cache: seq<(int, T)>, first: int, items: seq<T>, k: nat)
    requires k < |items|
    ensures PutAll(cache, first, items[k..])
        == PutAll(Put(CACHE_SIZE, cache, first, items[k]), first + 1, items[k + 1..])
  {
    assert items[k..][1..] == items[k + 1..];
  }

  // clear()
  function Cleared<T>(p: Proxy<T>): Proxy<T> {
    p.(cache := [], requested := [], placeholders := [])
  }

  // handleSignal()
  function HandleEvent<T>(p: Proxy<T>, e: Event<T>): Proxy<T> {
    match e
    case DataChanged(first, items) =>
      p.(cache := PutAll(p.cache, first, items), told := p.told + [Changed(first, first + |items| - 1)])
    case Insert(first, last) =>
      Cleared(p).(size := p.size + last - first + 1, told := p.told + [RowsInserted(first, last)])
    case Remove(first, last) =>
      p.(size := p.size - last + first - 1, cache := [], told := p.told + [RowsRemoved(first, last)])
    case Move(first, last, destination) =>
      p.(cache := [], told := p.told + [RowsMoved(first, last, destination)])
    case Reset(size) =>
      Cleared(p).(size := size, told := p.told + [WasReset])
  }

  // ----- requests

  // The first loop of requestItemsAsync(): first not busy, or the size.
  function ScanFirst<T(==)>(p: Proxy<T>, first: int): int
    decreases p.size - first
  {
    if p.Busy(first) && first < p.size then ScanFirst(p, first + 1) else first
  }

  // The second loop of requestItemsAsync().
  function ScanLast<T(==)>(p: Proxy<T>, first: int, last: int): int
    decreases last - first
  {
    if p.Busy(last) && last >= first then ScanLast(p, first, last - 1) else last
  }

  datatype Window = NoWindow | Window(first: int, last: int)

  // The items requestItemsAsync() asks for.
  function WindowAround<T(==)>(p: Proxy<T>, index: int): Window {
    var first := ScanFirst(p, Max(0, index - PREFETCH_ITEM_COUNT));
    if first - index < PREFETCH_ITEM_COUNT && first != p.size then
      var last := ScanLast(p, first, Min(first + PREFETCH_ITEM_COUNT * 2, p.size - 1));
      if first <= last then Window(first, last) else NoWindow
    else NoWindow
  }

  // requestItemsAsync()
  function RequestItems<T(==)>(p: Proxy<T>, index: int): Proxy<T> {
    match WindowAround(p, index)
    case NoWindow => p
    case Window(first, last) =>
      p.(outbox := p.outbox + [(first, last)], requested := p.requested + Range(first, last))
  }

  // The reply lambda of requestItemsAsync(), for one item.
  function ReplyItem<T(==)>(p: Proxy<T>, i: int, item: T): Proxy<T> {
    var cache := if Has(p.cache, i) then Touch(p.cache, i) else p.cache;
    var updated :=
      if Has(p.cache, i) && item == Lookup(p.cache, i) then p.(cache := cache)
      else if i in p.placeholders then
        p.(cache := Put(CACHE_SIZE, cache, i, item),
           placeholders := Without(p.placeholders, i),
           told := p.told + [Changed(i, i)])
      else p.(cache := Put(CACHE_SIZE, cache, i, item));
    updated.(requested := Without(p.requested, i))
  }

  function HandleReply<T(==)>(p: Proxy<T>, first: int, items: seq<T>): Proxy<T>
    decreases |items|
  {
    if items == [] then p else HandleReply(ReplyItem(p, first, items[0]), first + 1, items[1..])
  }

  lemma HandleReplyNone<T>(p: Proxy<T>, first: int)
    ensures HandleReply(p, first, []) == p
  {
  }

  lemma HandleReplyNext<T>(p: Proxy<T>, first: int, items: seq<T>, k: nat)
    requires k < |items|
    ensures HandleReply(p, first, items[k..]) == HandleReply(ReplyItem(p, first, items[k]), first + 1, items[k + 1..])
  {
    assert items[k..][1..] == items[k + 1..];
  }

  // The prefetching of modelData(); the second condition names the next index, as the source does.
  function Prefetch<T(==)>(p: Proxy<T>, row: int): Proxy<T> {
    var next := Min(p.size, row + PREFETCH_ITEM_COUNT);
    var p1 := if !Has(p.cache, next) && next !in p.requested then RequestItems(p, next) else p;
    var previous := Max(0, row - PREFETCH_ITEM_COUNT);
    if !Has(p1.cache, next) && previous !in p1.requested then RequestItems(p1, previous) else p1
  }

  // The window of a blocking request.
  function SyncFirst<T(==)>(p: Proxy<T>, first: int, last: int): int
    decreases last - first
  {
    if Has(p.cache, first) && first < last then SyncFirst(p, first + 1, last) else first
  }

  function SyncLast<T(==)>(p: Proxy<T>, first: int, last: int): int
    decreases last - first
  {
    if Has(p.cache, last) && last > first then SyncLast(p, first, last - 1) else last
  }

  function SyncWindow<T(==)>(p: Proxy<T>, row: int): (int, int) {
    var first := if row > PREFETCH_ITEM_COUNT then row - PREFETCH_ITEM_COUNT else 0;
    var last := if row < p.size - PREFETCH_ITEM_COUNT then row + PREFETCH_ITEM_COUNT else p.size - 1;
    var first' := SyncFirst(p, first, last);
    (first', SyncLast(p, first', last))
  }

  // handleModelRequest() on the server
  function Serve<T>(list: seq<T>, first: int, last: int): (int, seq<T>) {
    var first' := Max(first, 0);
    var last' := Min(last, |list| - 1);
    (first', if first' <= last' then list[first'..last' + 1] else [])
  }

  // modelData() up to the prefetching; `server` is the server's list during a blocking call
  function Fetch<T(==)>(p: Proxy<T>, row: int, synchronous: bool, server: seq<T>): Proxy<T> {
    if Has(p.cache, row) then p
    else if synchronous then
      var window := SyncWindow(p, row);
      var reply := Serve(server, window.0, window.1);
      p.(cache := PutAll(p.cache, reply.0, reply.1))
    else
      var p1 := RequestItems(p, row);
      p1.(placeholders := p1.placeholders + [row], told := p1.told + [Placeholder(row)])
  }

  // modelData(): None stands for a default item
  function ModelData<T(==)>(p: Proxy<T>, row: int, synchronous: bool, server: seq<T>): (Proxy<T>, Option<T>) {
    var p1 := Prefetch(Fetch(p, row, synchronous, server), row);
    if Has(p1.cache, row) then
      (p1.(cache := Touch(p1.cache, row), told := p1.told + [Item(row)]), Some(Lookup(p1.cache, row)))
    else (p1, None)
  }

  // ----- the request window

  lemma {:induction false} ScanFirstStops<T>(p: Proxy<T>, first: int)
    ensures var f := ScanFirst(p, first);
            && first <= f && (f < p.size ==> !p.Busy(f)) && (f > p.size ==> f == first)
            && forall i :: first <= i < f ==> p.Busy(i)
    decreases p.size - first
  {
    if p.Busy(first) && first < p.size {
      ScanFirstStops(p, first + 1);
    }
  }

  lemma {:induction false} ScanLastStops<T>(p: Proxy<T>, first: int, last: int)
    ensures var l := ScanLast(p, first, last);
            && l <= last && (l >= first ==> !p.Busy(l))
            && forall i :: l < i <= last ==> p.Busy(i)
    decreases last - first
  {
    if p.Busy(last) && last >= first {
      ScanLastStops(p, first, last - 1);
    }
  }

  /** Both scans end; a range sent lies in the list, spans at most 25 items, has endpoints neither
      cached nor requested, and contains the asked index if that is neither. */
  lemma WindowSound<T>(p: Proxy<T>, index: int)
    ensures match WindowAround(p, index)
            case NoWindow => 0 <= index < p.size ==> p.Busy(index)
            case Window(first, last) =>
              && 0 <= first <= last < p.size && last - first + 1 <= 25
              && !p.Busy(first) && !p.Busy(last)
              && (0 <= index < p.size && !p.Busy(index) ==> first <= index <= last)
  {
    var start := Max(0, index - PREFETCH_ITEM_COUNT);
    ScanFirstStops(p, start);
    var first := ScanFirst(p, start);
    ScanLastStops(p, first, Min(first + PREFETCH_ITEM_COUNT * 2, p.size - 1));
  }

  /** The range sent is all there is to ask for: it begins at the first free index from 12 before the
      asked one on, if that is less than 12 behind it, and ends at the last free index among the 24
      that follow; nothing is sent when there is none. */
  lemma WindowExact<T>(p: Proxy<T>, index: int)
    ensures var start := Max(0, index - 12);
            match WindowAround(p, index)
            case NoWindow => forall i :: start <= i < Min(p.size, index + 12) ==> p.Busy(i)
            case Window(first, last) =>
              && start <= first < index + 12 && first <= last <= Min(first + 24, p.size - 1)
              && !p.Busy(first) && (forall i :: start <= i < first ==> p.Busy(i))
              && !p.Busy(last) && (forall i :: last < i <= Min(first + 24, p.size - 1) ==> p.Busy(i))
  {
    var start := Max(0, index - PREFETCH_ITEM_COUNT);
    ScanFirstStops(p, start);
    var first := ScanFirst(p, start);
    ScanLastStops(p, first, Min(first + PREFETCH_ITEM_COUNT * 2, p.size - 1));
  }

  /** The server replies exactly with the rows asked for that it has, and their items. */
  lemma ServeExact<T>(list: seq<T>, first: int, last: int, i: int)
    ensures var (start, items) := Serve(list, first, last);
            && (start <= i < start + |items| <==> 0 <= i < |list| && first <= i <= last)
            && (start <= i < start + |items| ==> items[i - start] == list[i])
            && start == Max(first, 0)
  {
  }

  /** What a proxy will not ask for after an event: insertions and resets make it forget its requests
      and items, removals and moves only the items. */
  lemma BusyAfterEvent<T>(p: Proxy<T>, e: Event<T>, i: int)
    ensures e.Insert? || e.Reset? ==> !HandleEvent(p, e).Busy(i)
    ensures e.Remove? || e.Move? ==> (HandleEvent(p, e).Busy(i) <==> i in p.requested)
    ensures e.DataChanged? ==> HandleEvent(p, e).requested == p.requested
    ensures HandleEvent(p, e).outbox == p.outbox
  {
  }

  /** After an asynchronous request for a row of the list, the row is cached or requested. */
  lemma RequestedAfterwards<T>(p: Proxy<T>, index: int)
    requires 0 <= index < p.size
    ensures RequestItems(p, index).Busy(index)
  {
    WindowSound(p, index);
  }

  lemma BusyAfterModelData<T>(p: Proxy<T>, row: int, server: seq<T>)
    requires 0 <= row < p.size
    ensures ModelData(p, row, false, server).0.Busy(row)
  {
    RequestedAfterwards(p, row);
    var p1 := Prefetch(Fetch(p, row, false, server), row);
    if Has(p1.cache, row) {
      RemoveKeeps(p1.cache, row, row);
    }
  }

  /** And the row 12 further on, if there is one. */
  lemma NextIndexPrefetched<T>(p: Proxy<T>, row: int, server: seq<T>)
    requires 0 <= row && row + 12 < p.size
    ensures ModelData(p, row, false, server).0.Busy(row + 12)
  {
    var fetched := Fetch(p, row, false, server);
    RequestedAfterwards(fetched, row + 12);
    var p2 := Prefetch(fetched, row);
    assert p2.Busy(row + 12);
    hide WindowAround, RequestItems;
    if Has(p2.cache, row) {
      RemoveKeeps(p2.cache, row, row + 12);
    }
  }

  // A request around a row starts at the previous index if that is free.
  lemma RequestStartsAtPrevious<T>(p: Proxy<T>, row: int)
    requires 0 <= row < p.size
    ensures RequestItems(p, row).Busy(Max(0, row - PREFETCH_ITEM_COUNT))
  {
    var previous := Max(0, row - PREFETCH_ITEM_COUNT);
    if !p.Busy(previous) {
      ScanLastStops(p, previous, Min(previous + PREFETCH_ITEM_COUNT * 2, p.size - 1));
      assert ScanFirst(p, previous) == previous;
    }
  }

  /** modelData() leaves the previous index neither cached nor requested exactly when it was so
      before, and both the row and the next index are cached: the condition for prefetching previous
      items tests the next index a second time. */
  lemma PreviousIndexPrefetched<T>(p: Proxy<T>, row: int, server: seq<T>)
    requires 0 <= row < p.size
    ensures var next, previous := Min(p.size, row + PREFETCH_ITEM_COUNT), Max(0, row - PREFETCH_ITEM_COUNT);
            ModelData(p, row, false, server).0.Busy(previous)
            <==> p.Busy(previous) || !(Has(p.cache, row) && Has(p.cache, next))
  {
    var next, previous := Min(p.size, row + PREFETCH_ITEM_COUNT), Max(0, row - PREFETCH_ITEM_COUNT);
    var fetched := Fetch(p, row, false, server);
    RequestStartsAtPrevious(p, row);
    var p1 := if !Has(fetched.cache, next) && next !in fetched.requested then RequestItems(fetched, next) else fetched;
    RequestedAfterwards(p1, previous);
    var p2 := Prefetch(fetched, row);
    assert p2.cache == p1.cache == fetched.cache == p.cache;
    hide WindowAround, RequestItems;
    if Has(p2.cache, row) {
      RemoveKeeps(p2.cache, row, previous);
    }
  }
}
