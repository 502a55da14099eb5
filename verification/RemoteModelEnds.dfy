/**
 The two ends of a list model over IPC as objects, proved against module RemoteModel.
 */
module RemoteModelEnds {

  import opened Wrappers
  import opened Sequences
  import opened RecentlyUsed
  import opened RemoteModel
  import opened RemoteModelRuns

  // IPCProxyModelProperty
  class ProxyModelProperty<T(==)> {
    var m_size: int
    var m_pendingSize: int
    const m_cache: MostRecentlyUsedCache<int, T>
    var m_itemsRequestedFromServer: seq<int>
    var m_itemsRequestedLocally: seq<int>
    var outbox: seq<(int, int)>
    var told: seq<Notice>

    ghost predicate Valid()
      reads this, m_cache
    {
      m_cache.Valid() && m_cache.m_size == CACHE_SIZE && m_pendingSize == -1
    }

    ghost function State(): Proxy<T>
      reads this, m_cache
    {
      Proxy(m_size, m_cache.Contents(), m_itemsRequestedFromServer, m_itemsRequestedLocally, outbox, told)
    }

    // A proxy right after its first snapshot.
    constructor (size: int)
      ensures Valid() && fresh(m_cache)
      ensures State() == Proxy(size, [], [], [], [], [])
    {
      m_cache := new MostRecentlyUsedCache(CACHE_SIZE);
      m_size, m_pendingSize := size, -1;
      m_itemsRequestedFromServer, m_itemsRequestedLocally, outbox, told := [], [], [], [];
    }

    // Cache insertions for consecutive rows.
    method InsertItems(first: int, list: seq<T>)
      requires Valid()
      modifies m_cache
      ensures Valid() && State() == old(State()).(cache := PutAll(old(State()).cache, first, list))
    {
      hide PutAll, Put;
      var last := first + |list| - 1;
      var i := first;
      assert list[0..] == list;
      while i <= last
        invariant first <= i <= last + 1 && m_cache.Valid()
        invariant PutAll(m_cache.Contents(), i, list[i - first..]) == PutAll(old(State()).cache, first, list)
      {
        PutAllNext(m_cache.Contents(), i, list, i - first);
        m_cache.Insert(i, list[i - first]);
        i := i + 1;
      }
      assert list[i - first..] == [];
      PutAllNone(m_cache.Contents(), i);
    }

    method Clear()
      requires m_cache.Valid()
      modifies this`m_itemsRequestedFromServer, this`m_itemsRequestedLocally, m_cache
      ensures m_cache.Valid() && State() == Cleared(old(State()))
    {
      m_cache.Clear();
      m_itemsRequestedFromServer := [];
      m_itemsRequestedLocally := [];
    }

    // ModelBase::applyNewSize(), run by the end signals
    method ApplyNewSize()
      modifies this`m_size, this`m_pendingSize
      ensures m_size == old(m_pendingSize) && m_pendingSize == -1
    {
      m_size := m_pendingSize;
      m_pendingSize := -1;
    }

    method OnInsert(first: int, last: int)
      requires Valid()
      modifies this, m_cache
      ensures Valid() && State() == HandleEvent(old(State()), Insert(first, last))
    {
      m_pendingSize := m_size + last - first + 1;
      Clear();
      ApplyNewSize();
      told := told + [RowsInserted(first, last)];
    }

    method OnRemove(first: int, last: int)
      requires Valid()
      modifies this, m_cache
      ensures Valid() && State() == HandleEvent(old(State()), Remove(first, last))
    {
      m_pendingSize := m_size - last + first - 1;
      m_cache.Clear();
      ApplyNewSize();
      told := told + [RowsRemoved(first, last)];
    }

    method HandleSignal(event: Event<T>)
      requires Valid()
      modifies this, m_cache
      ensures Valid() && State() == HandleEvent(old(State()), event)
    {
      hide PutAll;
      match event
      case DataChanged(first, list) =>
        InsertItems(first, list);
        told := told + [Changed(first, first + |list| - 1)];
      case Insert(first, last) => OnInsert(first, last);
      case Remove(first, last) => OnRemove(first, last);
      case Move(sourceFirst, sourceLast, destination) =>
        m_cache.Clear();
        told := told + [RowsMoved(sourceFirst, sourceLast, destination)];
      case Reset(size) =>
        m_size := size;
        Clear();
        told := told + [WasReset];
    }

    method IsBusy(i: int) returns (busy: bool)
      requires Valid()
      ensures busy == State().Busy(i)
    {
      busy := m_cache.Exists(i);
      if !busy {
        busy := i in m_itemsRequestedFromServer;
      }
    }

    // The first loop of requestItemsAsync()
    method FirstToRequest(start: int) returns (first: int)
      requires Valid()
      ensures first == ScanFirst(State(), start)
    {
      first := start;
      var busy := IsBusy(first);
      while busy && first < m_size
        invariant busy == State().Busy(first) && ScanFirst(State(), first) == ScanFirst(State(), start)
        decreases m_size - first
      {
        first := first + 1;
        busy := IsBusy(first);
      }
    }

    // The second loop of requestItemsAsync()
    method LastToRequest(first: int, end: int) returns (last: int)
      requires Valid()
      ensures last == ScanLast(State(), first, end)
    {
      last := end;
      var busy := IsBusy(last);
      while busy && last >= first
        invariant busy == State().Busy(last) && ScanLast(State(), first, last) == ScanLast(State(), first, end)
        decreases last - first
      {
        last := last - 1;
        busy := IsBusy(last);
      }
    }

    // The call to the server and the loop that records what was asked for
    method SendRequest(first: int, last: int)
      requires Valid() && first <= last
      modifies this`outbox, this`m_itemsRequestedFromServer
      ensures Valid() && m_itemsRequestedFromServer == old(m_itemsRequestedFromServer) + Range(first, last)
      ensures outbox == old(outbox) + [(first, last)]
    {
      outbox := outbox + [(first, last)];
      var i := first;
      while i <= last
        invariant first <= i <= last + 1
        invariant m_itemsRequestedFromServer + Range(i, last) == old(m_itemsRequestedFromServer) + Range(first, last)
        invariant outbox == old(outbox) + [(first, last)]
      {
        ghost var before := m_itemsRequestedFromServer;
        assert before + Range(i, last) == (before + [i]) + Range(i + 1, last);
        m_itemsRequestedFromServer := m_itemsRequestedFromServer + [i];
        i := i + 1;
      }
    }

    method RequestItemsAsync(index: int)
      requires Valid()
      modifies this`outbox, this`m_itemsRequestedFromServer
      ensures Valid() && State() == RequestItems(old(State()), index)
    {
      hide ScanFirst, ScanLast, Range;
      var first := FirstToRequest(Max(0, index - PREFETCH_ITEM_COUNT));
      if first - index < PREFETCH_ITEM_COUNT && first != m_size {
        var last := LastToRequest(first, Min(first + PREFETCH_ITEM_COUNT * 2, m_size - 1));
        if first <= last {
          SendRequest(first, last);
        }
      }
    }

    // One turn of the reply lambda's loop
    method OnReplyItem(i: int, newItem: T)
      requires Valid()
      modifies this`told, this`m_itemsRequestedFromServer, this`m_itemsRequestedLocally, m_cache
      ensures Valid() && State() == ReplyItem(old(State()), i, newItem)
    {
      var known := m_cache.Exists(i);
      if known {
        var item := m_cache.Get(i);
        known := newItem == item;
      }
      if !known {
        m_cache.Insert(i, newItem);
        if i in m_itemsRequestedLocally {
          told := told + [Changed(i, i)];
          m_itemsRequestedLocally := Without(m_itemsRequestedLocally, i);
        }
      }
      m_itemsRequestedFromServer := Without(m_itemsRequestedFromServer, i);
    }

    // The reply lambda of requestItemsAsync()
    method OnReply(first: int, list: seq<T>)
      requires Valid()
      modifies this`told, this`m_itemsRequestedFromServer, this`m_itemsRequestedLocally, m_cache
      ensures Valid() && State() == HandleReply(old(State()), first, list)
    {
      hide *;
      var last := first + |list| - 1;
      var i := first;
      ghost var p := State();
      assert list[0..] == list;
      while i <= last
        invariant first <= i <= last + 1 && Valid() && State() == p
        invariant HandleReply(p, i, list[i - first..]) == HandleReply(old(State()), first, list)
      {
        HandleReplyNext(p, i, list, i - first);
        OnReplyItem(i, list[i - first]);
        i := i + 1;
        p := State();
      }
      assert list[i - first..] == [];
      HandleReplyNone(p, i);
    }

    // The two loops that trim the window of a blocking request
    method TrimWindow(start: int, end: int) returns (first: int, last: int)
      requires Valid()
      ensures first == SyncFirst(State(), start, end) && last == SyncLast(State(), first, end)
    {
      first, last := start, end;
      var cached := m_cache.Exists(first);
      while cached && first < last
        invariant cached == Has(m_cache.Contents(), first)
        invariant SyncFirst(State(), first, end) == SyncFirst(State(), start, end)
        decreases last - first
      {
        first := first + 1;
        cached := m_cache.Exists(first);
      }
      cached := m_cache.Exists(last);
      while cached && last > first
        invariant cached == Has(m_cache.Contents(), last)
        invariant SyncLast(State(), first, last) == SyncLast(State(), first, end)
        decreases last - first
      {
        last := last - 1;
        cached := m_cache.Exists(last);
      }
    }

    // The blocking branch of modelData()
    method FetchBlocking(row: int, server: seq<T>)
      requires Valid()
      modifies m_cache
      ensures Valid()
      ensures var p := old(State());
              var reply := Serve(server, SyncWindow(p, row).0, SyncWindow(p, row).1);
              State() == p.(cache := PutAll(p.cache, reply.0, reply.1))
    {
      hide SyncFirst, SyncLast, PutAll, Serve;
      var first := if row > PREFETCH_ITEM_COUNT then row - PREFETCH_ITEM_COUNT else 0;
      var last := if row < m_size - PREFETCH_ITEM_COUNT then row + PREFETCH_ITEM_COUNT else m_size - 1;
      first, last := TrimWindow(first, last);
      var reply := Serve(server, first, last);
      InsertItems(reply.0, reply.1);
    }

    method PrefetchAround(row: int)
      requires Valid()
      modifies this`outbox, this`m_itemsRequestedFromServer
      ensures Valid() && State() == Prefetch(old(State()), row)
    {
      var nextIndex := Min(m_size, row + PREFETCH_ITEM_COUNT);
      var cached := m_cache.Exists(nextIndex);
      if !cached && nextIndex !in m_itemsRequestedFromServer {
        RequestItemsAsync(nextIndex);
      }
      var previousIndex := Max(0, row - PREFETCH_ITEM_COUNT);
      cached := m_cache.Exists(nextIndex);
      if !cached && previousIndex !in m_itemsRequestedFromServer {
        RequestItemsAsync(previousIndex);
      }
    }

    // modelData() up to the prefetching
    method FetchRow(row: int, synchronous: bool, server: seq<T>)
      requires Valid()
      modifies this, m_cache
      ensures Valid() && State() == Fetch(old(State()), row, synchronous, server)
    {
      hide WindowAround, SyncWindow, PutAll, Serve;
      var cached := m_cache.Exists(row);
      if !cached {
        if synchronous {
          FetchBlocking(row, server);
        } else {
          RequestItemsAsync(row);
          m_itemsRequestedLocally := m_itemsRequestedLocally + [row];
          told := told + [Placeholder(row)];
        }
      }
    }

    method GetModelData(row: int, synchronous: bool, server: seq<T>) returns (item: Option<T>)
      requires Valid()
      modifies this, m_cache
      ensures Valid() && (State(), item) == ModelData(old(State()), row, synchronous, server)
    {
      hide Fetch, Prefetch, Touch;
      FetchRow(row, synchronous, server);
      PrefetchAround(row);
      var cached := m_cache.Exists(row);
      if cached {
        var value := m_cache.Get(row);
        item := Some(value);
        told := told + [Item(row)];
      } else {
        item := None;
      }
    }
  }

  // IPCAdapterModelPropertyHandler, with the list of the model it is connected to
  class ModelPropertyHandler<T(==)> {
    const UNDEFINED := -1
    var m_list: seq<T>
    var m_removeFirst: int
    var m_removeLast: int
    var m_insertFirst: int
    var m_insertLast: int
    var m_moveSourceFirstIndex: int
    var m_moveSourceLastIndex: int
    var m_moveDestinationIndex: int
    var m_resettingModel: bool
    var sent: seq<Event<T>>

    // No begin signal is waiting for its end signal.
    ghost predicate Idle()
      reads this
    {
      && m_removeFirst == m_removeLast == m_insertFirst == m_insertLast == UNDEFINED
      && m_moveSourceFirstIndex == m_moveSourceLastIndex == m_moveDestinationIndex == UNDEFINED
      && !m_resettingModel
    }

    constructor (list: seq<T>)
      ensures Idle() && m_list == list && sent == []
    {
      m_list, sent, m_resettingModel := list, [], false;
      m_removeFirst, m_removeLast, m_insertFirst, m_insertLast := -1, -1, -1, -1;
      m_moveSourceFirstIndex, m_moveSourceLastIndex, m_moveDestinationIndex := -1, -1, -1;
    }

    // The items of rows first to last, read one by one
    method Elements(first: int, last: int) returns (items: seq<T>)
      requires 0 <= first && last < |m_list|
      ensures items == if first <= last then m_list[first..last + 1] else []
    {
      items := [];
      var i := first;
      while i <= last
        invariant first <= i && (first <= last ==> i <= last + 1)
        invariant items == if first <= last then m_list[first..i] else []
      {
        items := items + [m_list[i]];
        i := i + 1;
      }
    }

    method OnDataChanged(first: int, last: int)
      requires 0 <= first <= last + 1 && last < |m_list|
      modifies this`sent
      ensures sent == old(sent) + [DataChanged(first, m_list[first..last + 1])]
    {
      var changedItems := Elements(first, last);
      assert first > last ==> m_list[first..last + 1] == [];
      sent := sent + [DataChanged(first, changedItems)];
    }

    method OnEndRemoveElements()
      requires m_removeFirst != UNDEFINED && m_removeLast != UNDEFINED
      modifies this`sent, this`m_removeFirst, this`m_removeLast
      ensures sent == old(sent) + [Remove(old(m_removeFirst), old(m_removeLast))]
      ensures m_removeFirst == m_removeLast == UNDEFINED
    {
      sent := sent + [Remove(m_removeFirst, m_removeLast)];
      m_removeFirst, m_removeLast := UNDEFINED, UNDEFINED;
    }

    method OnEndInsertElements()
      requires m_insertFirst != UNDEFINED && m_insertLast != UNDEFINED
      modifies this`sent, this`m_insertFirst, this`m_insertLast
      ensures sent == old(sent) + [Insert(old(m_insertFirst), old(m_insertLast))]
      ensures m_insertFirst == m_insertLast == UNDEFINED
    {
      sent := sent + [Insert(m_insertFirst, m_insertLast)];
      m_insertFirst, m_insertLast := UNDEFINED, UNDEFINED;
    }

    method OnEndMoveElements()
      requires m_moveSourceFirstIndex != UNDEFINED && m_moveSourceLastIndex != UNDEFINED
      requires m_moveDestinationIndex != UNDEFINED
      modifies this`sent, this`m_moveSourceFirstIndex, this`m_moveSourceLastIndex, this`m_moveDestinationIndex
      ensures sent == old(sent)
                      + [Move(old(m_moveSourceFirstIndex), old(m_moveSourceLastIndex), old(m_moveDestinationIndex))]
      ensures m_moveSourceFirstIndex == m_moveSourceLastIndex == m_moveDestinationIndex == UNDEFINED
    {
      sent := sent + [Move(m_moveSourceFirstIndex, m_moveSourceLastIndex, m_moveDestinationIndex)];
      m_moveSourceFirstIndex, m_moveSourceLastIndex, m_moveDestinationIndex := UNDEFINED, UNDEFINED, UNDEFINED;
    }

    // The edits, each framed by its begin and end signals

    method SetRows(first: nat, items: seq<T>)
      requires Idle() && first + |items| <= |m_list|
      modifies this`m_list, this`sent
      ensures m_list == old(m_list)[..first] + items + old(m_list)[first + |items|..]
      ensures sent == old(sent) + [DataChanged(first, items)]
    {
      m_list := m_list[..first] + items + m_list[first + |items|..];
      OnDataChanged(first, first + |items| - 1);
      assert m_list[first..first + |items|] == items;
    }

    method InsertRows(first: nat, items: seq<T>)
      requires Idle() && first <= |m_list| && items != []
      modifies this`m_list, this`sent, this`m_insertFirst, this`m_insertLast
      ensures Idle() && m_list == old(m_list)[..first] + items + old(m_list)[first..]
      ensures sent == old(sent) + [Insert(first, first + |items| - 1)]
    {
      m_insertFirst, m_insertLast := first, first + |items| - 1;
      m_list := m_list[..first] + items + m_list[first..];
      OnEndInsertElements();
    }

    method RemoveRows(first: nat, last: int)
      requires Idle() && first <= last < |m_list|
      modifies this`m_list, this`sent, this`m_removeFirst, this`m_removeLast
      ensures Idle() && m_list == old(m_list)[..first] + old(m_list)[last + 1..]
      ensures sent == old(sent) + [Remove(first, last)]
    {
      m_removeFirst, m_removeLast := first, last;
      m_list := m_list[..first] + m_list[last + 1..];
      OnEndRemoveElements();
    }

    method MoveRows(first: nat, last: int, destination: nat)
      requires Idle() && first <= last < |m_list|
      requires destination <= |m_list| && (destination <= first || destination > last)
      modifies this`m_list, this`sent
      modifies this`m_moveSourceFirstIndex, this`m_moveSourceLastIndex, this`m_moveDestinationIndex
      ensures Idle() && m_list == Relocate(old(m_list), first, last, destination)
      ensures sent == old(sent) + [Move(first, last, destination)]
    {
      hide Relocate;
      m_moveSourceFirstIndex, m_moveSourceLastIndex, m_moveDestinationIndex := first, last, destination;
      m_list := Relocate(m_list, first, last, destination);
      OnEndMoveElements();
    }

    method ResetRows(items: seq<T>)
      requires Idle()
      modifies this`m_list, this`sent, this`m_resettingModel
      ensures Idle() && m_list == items && sent == old(sent) + [Reset(|items|)]
    {
      m_resettingModel := true;
      m_list := items;
      sent := sent + [Reset(|m_list|)];
      m_resettingModel := false;
    }

    /** An edit of the connected model: one event is sent, and it tells what was done. */
    method Perform(edit: Edit<T>)
      requires Idle() && edit.InRange(|m_list|)
      modifies this
      ensures Idle() && m_list == ApplyEdit(old(m_list), edit)
      ensures sent == old(sent) + [EventOf(edit)]
      ensures Faithful(old(m_list), EventMessage(EventOf(edit), m_list))
    {
      EditIsFaithful(m_list, edit);
      hide Faithful, Relocate;
      match edit
      case SetItems(first, items) => SetRows(first, items);
      case InsertItems(first, items) => InsertRows(first, items);
      case RemoveItems(first, last) => RemoveRows(first, last);
      case MoveItems(first, last, destination) => MoveRows(first, last, destination);
      case ResetItems(items) => ResetRows(items);
    }

    method HandleModelRequest(first: int, last: int) returns (replyFirst: int, list: seq<T>)
      ensures (replyFirst, list) == Serve(m_list, first, last)
    {
      replyFirst := Max(first, 0);
      list := Elements(replyFirst, Min(last, |m_list| - 1));
    }
  }
}
